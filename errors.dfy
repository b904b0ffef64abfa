/** The error values of the system and the texts their `Error()` methods produce. */
module Errors {
  import opened Wrappers

  /**
   * Every error value that crosses a boundary in the modelled code. The sentinels are
   * compared by identity in Go, which two distinct constructors mirror here.
   */
  datatype Error =
    | UserNotFound                  // util: ErrUserNotFound
    | WalletNotFound                // util: ErrWalletNotFound
    | InsufficientBalance           // server: ErrInsufficientBalance
    | InvalidAmount                 // server: ErrInvalidAmount
    | WalletNotBelongsToUser        // server: ErrWalletNotBelongsToUser
    | AuthorizationPayloadNotFound  // server: ErrAuthorizationPayloadNotFound
    | AuthorizationPayloadInvalid   // server: ErrAuthorizationPayloadInvalid
    | UserAlreadyExists             // server: ErrUserAlreadyExists
    | InvalidCredentials            // server: ErrInvalidCredentials
    | CacheNil                      // cache: ErrNil, the cache's "no such key"
    | Database(db: DBError)         // util: *DBError
    | Binding(reason: string)       // a request that the web framework could not bind
    | Foreign(text: string)         // an error made by code outside the model (driver, bcrypt, token maker, cache client)

  /** `util.DBError`: a summary of which database step failed and the driver's error. */
  datatype DBError = DBError(summary: string, err: Option<Error>)

  /** The text `err.Error()` returns. */
  function Text(e: Error): (t: string)
    ensures e.Database? ==> t == DBErrorText(e.db)
    ensures e.Binding? ==> t == e.reason
    ensures e.Foreign? ==> t == e.text
    ensures !e.Database? && !e.Binding? && !e.Foreign? ==> |t| > 0
  {
    match e
    case UserNotFound => "user not found"
    case WalletNotFound => "wallet not found"
    case InsufficientBalance => "wallet balance cannot be less than zero"
    case InvalidAmount => "amount cannot be less than zero"
    case WalletNotBelongsToUser => "unauthenticated user cannot access wallet"
    case AuthorizationPayloadNotFound => "authorization payload not found"
    case AuthorizationPayloadInvalid => "authorization payload invalid"
    case UserAlreadyExists => "user already with this email exists"
    case InvalidCredentials => "invalid credentials"
    case CacheNil => "nil"
    case Database(db) => DBErrorText(db)
    case Binding(reason) => reason
    case Foreign(text) => text
  }

  /** `fmt.Sprintf("%v", err)`: the error's text, or `<nil>` for a nil error. */
  function InnerText(err: Option<Error>): (t: string)
    ensures err.None? ==> t == "<nil>"
    ensures err.Some? ==> t == Text(err.value)
  {
    match err
    case None => "<nil>"
    case Some(e) => Text(e)
  }

  /** `(*DBError).Error`: the summary, a colon and a space, then the wrapped error. */
  function DBErrorText(db: DBError): (s: string)
    ensures |s| == |db.summary| + 2 + |InnerText(db.err)|
  {
    db.summary + ": " + InnerText(db.err)
  }

  const CreateSchemaSummary := "failed creating schema resources"
  const ConnectionSummary := "failed opening connection to database"
  const CreateFKSummary := "failed creating foreign key constraint"

  /** `NewCreateSchemaError`: the schema-migration failure, keeping the driver's error. */
  function NewCreateSchemaError(err: Option<Error>): (e: DBError)
    ensures e.summary == CreateSchemaSummary && e.err == err
  {
    DBError(CreateSchemaSummary, err)
  }

  /** `NewConnectionError`: the failure to open the database connection. */
  function NewConnectionError(err: Option<Error>): (e: DBError)
    ensures e.summary == ConnectionSummary && e.err == err
  {
    DBError(ConnectionSummary, err)
  }

  /** `NewCreateFKError`: the failure to add the wallet-to-user foreign key. */
  function NewCreateFKError(err: Option<Error>): (e: DBError)
    ensures e.summary == CreateFKSummary && e.err == err
  {
    DBError(CreateFKSummary, err)
  }

  /** The text of a `DBError` begins with its summary and ends with the wrapped error's text. */
  lemma DBErrorTextParts(db: DBError)
    ensures DBErrorText(db)[..|db.summary|] == db.summary
    ensures DBErrorText(db)[|db.summary|..|db.summary| + 2] == ": "
    ensures DBErrorText(db)[|db.summary| + 2..] == InnerText(db.err)
  {
    var head := db.summary + ": ";
    assert DBErrorText(db) == head + InnerText(db.err);
    assert head[..|db.summary|] == db.summary && head[|db.summary|..] == ": ";
  }

  /**
   * The three constructors build the same type and differ only in the summary, so the same
   * driver error wrapped by two of them gives messages that differ, and always at a position
   * inside the summary: a startup message says which step failed whatever the driver said.
   */
  lemma {:induction false} DBErrorKindsDistinguishable(e1: Option<Error>, e2: Option<Error>)
    ensures NewCreateSchemaError(e1).err == NewConnectionError(e1).err == NewCreateFKError(e1).err == e1
    ensures Text(Database(NewCreateSchemaError(e1))) != Text(Database(NewConnectionError(e2)))
    ensures Text(Database(NewCreateSchemaError(e1))) != Text(Database(NewCreateFKError(e2)))
    ensures Text(Database(NewConnectionError(e1))) != Text(Database(NewCreateFKError(e2)))
  {
    assert CreateSchemaSummary[7] == 'c' && ConnectionSummary[7] == 'o' && CreateFKSummary[7] == 'c';
    assert CreateSchemaSummary[16] == 's' && CreateFKSummary[16] == 'f';
    SummaryDecides(NewCreateSchemaError(e1), NewConnectionError(e2), 7);
    SummaryDecides(NewCreateSchemaError(e1), NewCreateFKError(e2), 16);
    SummaryDecides(NewConnectionError(e1), NewCreateFKError(e2), 7);
  }

  /** Two errors whose summaries differ at a position inside both have different texts. */
  lemma SummaryDecides(a: DBError, b: DBError, p: nat)
    requires p < |a.summary| && p < |b.summary| && a.summary[p] != b.summary[p]
    ensures Text(Database(a)) != Text(Database(b))
  {
    DBErrorTextParts(a);
    DBErrorTextParts(b);
    assert DBErrorText(a)[p] == a.summary[p];
    assert DBErrorText(b)[p] == b.summary[p];
  }

  /** The two not-found sentinels are different values with different texts. */
  lemma NotFoundSentinelsDistinct()
    ensures UserNotFound != WalletNotFound
    ensures Text(UserNotFound) == "user not found" && Text(WalletNotFound) == "wallet not found"
    ensures Text(UserNotFound) != Text(WalletNotFound)
  {
    assert Text(UserNotFound)[0] != Text(WalletNotFound)[0];
  }
}
