/**
 * The wallet routes: credit, debit and balance read, with their request checks, the
 * ownership check, the cache they write through, and the cache middleware in front of the
 * balance read. Each handler is stated as a function from the store's wallets and the cache
 * to the response, the calls made and the new state; the methods below carry it out on the
 * in-memory store and the cache in place.
 */
module WalletHandlers {
  import opened Wrappers
  import opened Errors
  import opened Numerals
  import opened Money
  import opened Models
  import opened Seqs
  import opened InMemoryStore
  import opened Cache
  import opened Server
  import opened CacheMiddleware

  const WalletCreditSuccess := "Wallet successfully credited"
  const WalletDebitSuccess := "Wallet successfully debited"

  /** What the authentication middleware left under `authorization_payload`. */
  datatype Payload =
    | NoPayload                 // nothing stored under the key
    | ForeignPayload            // a value that is not a `*token.Payload`
    | TokenPayload(email: string)

  /** `getUserIDFromContext`: the token's email, or why there is none. */
  function GetUserIdFromContext(p: Payload): (r: Result<string, Error>)
    ensures p.NoPayload? <==> r == Failure(AuthorizationPayloadNotFound)
    ensures p.ForeignPayload? <==> r == Failure(AuthorizationPayloadInvalid)
    ensures r.Success? <==> p.TokenPayload?
    ensures p.TokenPayload? ==> r.value == p.email
  {
    match p
    case NoPayload => Failure(AuthorizationPayloadNotFound)
    case ForeignPayload => Failure(AuthorizationPayloadInvalid)
    case TokenPayload(email) => Success(email)
  }

  /** Stand-ins for the binder's and the validator's messages. */
  const NotAnInt64Reason := "wallet_id: not a 64-bit integer"
  const BelowMinReason := "wallet_id: below the minimum of 1"

  /**
   * `ShouldBindUri` into `walletIDUriBinding`: the path text parsed as a 64-bit integer,
   * which the `required,min=1` tags then require to be at least 1.
   */
  function BindWalletId(param: string): (r: Result<int, Error>)
    ensures r.Success? <==> ParseInt64(param).Some? && ParseInt64(param).value >= 1
    ensures r.Success? ==> r.value == ParseInt64(param).value && IsInt64(r.value)
    ensures r.Failure? ==> r.error.Binding?
  {
    match ParseInt64(param)
    case None => Failure(Binding(NotAnInt64Reason))
    case Some(v) => if v < 1 then Failure(Binding(BelowMinReason)) else Success(v)
  }

  /** The canonical rendering of every valid id binds to that id. */
  lemma BindCanonical(id: int)
    requires 1 <= id <= MaxInt64
    ensures BindWalletId(IntToString(id)) == Success(id)
  {
    ParseInt64OfIntToString(id);
  }

  /** `validateRequestAmount`: an amount is refused exactly when it is not positive. */
  function ValidateRequestAmount(amount: Money): (r: Outcome<Error>)
    ensures r == Fail(InvalidAmount) <==> amount <= 0
    ensures r == Pass <==> amount > 0
  {
    if amount <= 0 then Fail(InvalidAmount) else Pass
  }

  /** `isWalletBalanceGoingBelowZero`: a debit is refused exactly when it would leave less than zero. */
  function IsWalletBalanceGoingBelowZero(balance: Money, amount: Money): (r: Outcome<Error>)
    ensures r == Fail(InsufficientBalance) <==> balance - amount < 0
    ensures r == Pass <==> balance - amount >= 0
  {
    if balance - amount < 0 then Fail(InsufficientBalance) else Pass
  }

  datatype Kind = Credit | Debit

  /** The JSON body's amount, or the binder's reason for refusing the body. */
  datatype UpdateRequest = UpdateRequest(walletId: string, amount: Result<Money, string>)

  /** The balance a credit or a debit moves the wallet to, or why a debit is refused. */
  function NextBalance(kind: Kind, balance: Money, amount: Money): (r: Result<Money, Error>)
    ensures kind == Credit ==> r == Success(balance + amount)
    ensures kind == Debit ==> (r.Success? <==> balance - amount >= 0)
    ensures kind == Debit && r.Success? ==> r.value == balance - amount
    ensures r.Failure? ==> r.error == InsufficientBalance
  {
    match kind
    case Credit => Success(balance + amount)
    case Debit =>
      match IsWalletBalanceGoingBelowZero(balance, amount)
      case Fail(e) => Failure(e)
      case Pass => Success(balance - amount)
  }

  function SuccessMessage(kind: Kind): string
  {
    match kind
    case Credit => WalletCreditSuccess
    case Debit => WalletDebitSuccess
  }

  /** The fetched wallet (the first with the id) gets the new `UpdatedAt`. */
  function Touch(rows: seq<WalletRow>, id: int, now: Time): (r: seq<WalletRow>)
    ensures |r| == |rows|
  {
    var k := FirstIndex(rows, RowIdIs(id));
    if k < |rows| then rows[k := rows[k].(updatedAt := now)] else rows
  }

  /** A handled request and the state it leaves: the wallets as values and the cache. */
  datatype Effect = Effect(handled: Handled, rows: seq<WalletRow>, cache: CacheState)

  /** A request the handlers take to the store: a bound wallet id and a positive amount. */
  datatype Admitted = Admitted(id: int, amount: Money)

  /**
   * The checks before any call: the path's id binds, the JSON body binds, and the amount is
   * positive; the first that fails gives the 400's error.
   */
  function Admit(req: UpdateRequest): (r: Result<Admitted, Error>)
    ensures r.Success? <==> BindWalletId(req.walletId).Success? && req.amount.Success? && req.amount.value > 0
    ensures r.Success? ==> r.value == Admitted(BindWalletId(req.walletId).value, req.amount.value)
    ensures BindWalletId(req.walletId).Failure? ==> r == Failure(BindWalletId(req.walletId).error)
    ensures BindWalletId(req.walletId).Success? && req.amount.Failure? ==> r == Failure(Binding(req.amount.error))
    ensures BindWalletId(req.walletId).Success? && req.amount.Success? && req.amount.value <= 0 ==> r == Failure(InvalidAmount)
  {
    match BindWalletId(req.walletId)
    case Failure(err) => Failure(err)
    case Success(id) =>
      match req.amount
      case Failure(reason) => Failure(Binding(reason))
      case Success(amount) =>
        match ValidateRequestAmount(amount)
        case Fail(err) => Failure(err)
        case Pass => Success(Admitted(id, amount))
  }

  /** The request reaches `UpdateWallet`: it binds, its amount is positive, the wallet exists and the debit check passes. */
  predicate Accepted(kind: Kind, rows: seq<WalletRow>, req: UpdateRequest)
  {
    && BindWalletId(req.walletId).Success?
    && req.amount.Success?
    && req.amount.value > 0
    && WalletById(rows, BindWalletId(req.walletId).value).Success?
    && NextBalance(kind, WalletById(rows, BindWalletId(req.walletId).value).value.balance, req.amount.value).Success?
  }

  /** The balance an accepted request leaves on the wallet. */
  function NewBalanceOf(kind: Kind, rows: seq<WalletRow>, req: UpdateRequest): Money
    requires Accepted(kind, rows, req)
  {
    NextBalance(kind, WalletById(rows, BindWalletId(req.walletId).value).value.balance, req.amount.value).value
  }

  /**
   * `creditWalletBalance` and `debitWalletBalance`: bind the id, bind the body, validate the
   * amount, fetch the wallet, (debit only) check the balance, move the balance and stamp the
   * time on the fetched wallet, write the balance back to every wallet with the id, then store
   * the rendered balance in the cache under the rendered id for 100 seconds.
   */
  function Update(kind: Kind, rows: seq<WalletRow>, cache: CacheState, req: UpdateRequest, now: Time): (e: Effect)
    ensures |e.rows| == |rows|
  {
    match Admit(req)
    case Failure(err) => Effect(Handled(ErrorResponse(StatusBadRequest, err), []), rows, cache)
    case Success(admitted) =>
      var id := admitted.id;
      match WalletById(rows, id)
      case Failure(err) => Effect(Handled(ErrorResponse(StatusInternalServerError, err), [GetWalletCall(id)]), rows, cache)
      case Success(w) =>
        match NextBalance(kind, w.balance, admitted.amount)
        case Failure(err) => Effect(Handled(ErrorResponse(StatusBadRequest, err), [GetWalletCall(id)]), rows, cache)
        case Success(balance) =>
          var key := IntToString(w.id);
          var value := Render(balance);
          var calls := [GetWalletCall(id), UpdateWalletCall(w.id, balance), CacheSetCall(key, value, BalanceTtl)];
          var response :=
            match Reply(cache)
            case Fail(err) => ErrorResponse(StatusInternalServerError, err)
            case Pass => Response(StatusOK, Envelope(true, SuccessMessage(kind), Balance(value)));
          Effect(Handled(response, calls), WithBalance(Touch(rows, id, now), id, balance), Stored(cache, key, value, BalanceTtl, now))
  }

  /**
   * A refused request changes neither the store nor the cache and calls neither
   * `UpdateWallet` nor the cache; a request refused before the lookup (binding, the amount)
   * calls nothing at all, so the amount is checked before `GetWallet`.
   */
  lemma RejectedChangesNothing(kind: Kind, rows: seq<WalletRow>, cache: CacheState, req: UpdateRequest, now: Time)
    requires !Accepted(kind, rows, req)
    ensures var e := Update(kind, rows, cache, req, now);
            && e.rows == rows && e.cache == cache
            && (forall c :: c in e.handled.calls ==> c.GetWalletCall?)
            && e.handled.response.status != StatusOK
    ensures BindWalletId(req.walletId).Failure? || req.amount.Failure? || req.amount.value <= 0 ==>
              Update(kind, rows, cache, req, now).handled.calls == []
  {
  }

  /** A request whose id, body or amount is refused: a 400 with that error, before any call. */
  lemma AdmitRefused(kind: Kind, rows: seq<WalletRow>, cache: CacheState, req: UpdateRequest, now: Time)
    requires Admit(req).Failure?
    ensures Update(kind, rows, cache, req, now) == Effect(Handled(ErrorResponse(StatusBadRequest, Admit(req).error), []), rows, cache)
  {
  }

  /** An admitted request for a wallet that is not there: a 500 with `ErrWalletNotFound` after the lookup. */
  lemma NotFoundRefused(kind: Kind, rows: seq<WalletRow>, cache: CacheState, req: UpdateRequest, now: Time)
    requires Admit(req).Success? && WalletById(rows, Admit(req).value.id).Failure?
    ensures Update(kind, rows, cache, req, now)
            == Effect(Handled(ErrorResponse(StatusInternalServerError, WalletNotFound), [GetWalletCall(Admit(req).value.id)]), rows, cache)
  {
  }

  /**
   * An admitted request for a wallet that is there is refused only as a debit beyond the
   * balance: a 400 with `ErrInsufficientBalance` after the lookup.
   */
  lemma OverdraftRefused(kind: Kind, rows: seq<WalletRow>, cache: CacheState, req: UpdateRequest, now: Time)
    requires Admit(req).Success? && WalletById(rows, Admit(req).value.id).Success? && !Accepted(kind, rows, req)
    ensures kind == Debit
    ensures WalletById(rows, Admit(req).value.id).value.balance < Admit(req).value.amount
    ensures Update(kind, rows, cache, req, now)
            == Effect(Handled(ErrorResponse(StatusBadRequest, InsufficientBalance), [GetWalletCall(Admit(req).value.id)]), rows, cache)
  {
  }

  /**
   * An accepted request calls `GetWallet`, `UpdateWallet` with the new balance and the cache's
   * `Set` with the rendered id, the rendered balance and 100 seconds, in that order; the
   * credit adds the amount and the debit subtracts it. The store is updated whether or not the
   * cache then fails, and a cache failure turns the answer into a 500.
   */
  lemma AcceptedEffect(kind: Kind, rows: seq<WalletRow>, cache: CacheState, req: UpdateRequest, now: Time)
    requires Accepted(kind, rows, req)
    ensures var id := BindWalletId(req.walletId).value;
            var old_balance := WalletById(rows, id).value.balance;
            var balance := NewBalanceOf(kind, rows, req);
            var e := Update(kind, rows, cache, req, now);
            && balance == (if kind == Credit then old_balance + req.amount.value else old_balance - req.amount.value)
            && e.handled.calls == [GetWalletCall(id), UpdateWalletCall(id, balance), CacheSetCall(IntToString(id), Render(balance), 100)]
            && e.rows == WithBalance(Touch(rows, id, now), id, balance)
            && e.cache == Stored(cache, IntToString(id), Render(balance), 100, now)
            && (cache.outage.None? ==> e.handled.response == Response(StatusOK, Envelope(true, SuccessMessage(kind), Balance(Render(balance)))))
            && (cache.outage.Some? ==> e.handled.response == ErrorResponse(StatusInternalServerError, cache.outage.value))
  {
  }

  /**
   * Only `Balance` and `UpdatedAt` change, and only on wallets with the request's id:
   * `ID`, `UUID`, `UserID`, `CreatedAt` and `DeletedAt` stay, as do the order and the length.
   */
  lemma {:induction false} UpdateTouchesOnlyBalanceAndTime(kind: Kind, rows: seq<WalletRow>, cache: CacheState, req: UpdateRequest, now: Time)
    ensures var e := Update(kind, rows, cache, req, now);
            && |e.rows| == |rows|
            && (forall j :: 0 <= j < |rows| ==>
                  e.rows[j] == rows[j].(balance := e.rows[j].balance, updatedAt := e.rows[j].updatedAt))
            && (forall j :: 0 <= j < |rows| && e.rows[j] != rows[j] ==>
                  Accepted(kind, rows, req) && rows[j].id == BindWalletId(req.walletId).value)
  {
    if Accepted(kind, rows, req) {
      var id := BindWalletId(req.walletId).value;
      AcceptedEffect(kind, rows, cache, req, now);
      TouchAt(rows, id, now);
    } else {
      RejectedChangesNothing(kind, rows, cache, req, now);
    }
  }

  /** `Touch` stamps the first row with the id, which has that id, and leaves every other row. */
  lemma TouchAt(rows: seq<WalletRow>, id: int, now: Time)
    ensures forall j :: 0 <= j < |rows| ==>
              Touch(rows, id, now)[j] == if j == FirstIndex(rows, RowIdIs(id)) then rows[j].(updatedAt := now) else rows[j]
    ensures forall j :: 0 <= j < |rows| && j == FirstIndex(rows, RowIdIs(id)) ==> rows[j].id == id
  {
  }

  /** No request takes a wallet below zero: the ledger's invariant is kept by every call. */
  lemma UpdatePreservesNonNegative(kind: Kind, rows: seq<WalletRow>, cache: CacheState, req: UpdateRequest, now: Time)
    requires AllNonNegative(rows)
    ensures AllNonNegative(Update(kind, rows, cache, req, now).rows)
  {
    if Accepted(kind, rows, req) {
      var id := BindWalletId(req.walletId).value;
      var w := WalletById(rows, id).value;
      assert w in rows;
      var balance := NewBalanceOf(kind, rows, req);
      assert balance >= 0;
      var touched := Touch(rows, id, now);
      assert forall j :: 0 <= j < |rows| ==> touched[j].balance == rows[j].balance;
    }
  }

  /** One credit or debit request, as the handlers receive it, at the time it is handled. */
  datatype Op = Op(kind: Kind, req: UpdateRequest, now: Time)

  /** The requests handled one after another. */
  function Replay(rows: seq<WalletRow>, cache: CacheState, ops: seq<Op>): (e: Effect)
    ensures |e.rows| == |rows|
    decreases |ops|
  {
    if ops == [] then Effect(Handled(Response(StatusOK, Envelope(true, "", NoData)), []), rows, cache)
    else
      var first := Update(ops[0].kind, rows, cache, ops[0].req, ops[0].now);
      Replay(first.rows, first.cache, ops[1..])
  }

  /** Starting from no negative balance, any sequence of credits and debits leaves no negative balance. */
  lemma {:induction false} ReplayPreservesNonNegative(rows: seq<WalletRow>, cache: CacheState, ops: seq<Op>)
    requires AllNonNegative(rows)
    ensures AllNonNegative(Replay(rows, cache, ops).rows)
    decreases |ops|
  {
    if ops != [] {
      UpdatePreservesNonNegative(ops[0].kind, rows, cache, ops[0].req, ops[0].now);
      var first := Update(ops[0].kind, rows, cache, ops[0].req, ops[0].now);
      ReplayPreservesNonNegative(first.rows, first.cache, ops[1..]);
    }
  }

  /** A rendered balance that cannot be read as negative: non-empty, with no leading '-'. */
  predicate NonNegativeText(s: string)
  {
    |s| > 0 && s[0] != '-'
  }

  /** The cache half of the ledger's invariant: no cached balance reads as negative. */
  predicate CacheNonNegative(cache: CacheState)
  {
    forall key :: key in cache.entries ==> NonNegativeText(cache.entries[key].value)
  }

  /** A credit or debit never caches a negative balance. */
  lemma UpdateKeepsCacheNonNegative(kind: Kind, rows: seq<WalletRow>, cache: CacheState, req: UpdateRequest, now: Time)
    requires AllNonNegative(rows) && CacheNonNegative(cache)
    ensures CacheNonNegative(Update(kind, rows, cache, req, now).cache)
  {
    if Accepted(kind, rows, req) {
      var id := BindWalletId(req.walletId).value;
      assert WalletById(rows, id).value in rows;
      var balance := NewBalanceOf(kind, rows, req);
      RenderSign(balance);
      AcceptedEffect(kind, rows, cache, req, now);
    } else {
      RejectedChangesNothing(kind, rows, cache, req, now);
    }
  }

  /**
   * Starting from no negative balance in the store or the cache, any sequence of credits
   * and debits leaves none in either.
   */
  lemma {:induction false} ReplayKeepsCacheNonNegative(rows: seq<WalletRow>, cache: CacheState, ops: seq<Op>)
    requires AllNonNegative(rows) && CacheNonNegative(cache)
    ensures AllNonNegative(Replay(rows, cache, ops).rows)
    ensures CacheNonNegative(Replay(rows, cache, ops).cache)
    decreases |ops|
  {
    if ops != [] {
      UpdatePreservesNonNegative(ops[0].kind, rows, cache, ops[0].req, ops[0].now);
      UpdateKeepsCacheNonNegative(ops[0].kind, rows, cache, ops[0].req, ops[0].now);
      var first := Update(ops[0].kind, rows, cache, ops[0].req, ops[0].now);
      ReplayKeepsCacheNonNegative(first.rows, first.cache, ops[1..]);
    }
  }

  /** The fetched wallet's id is the request's id, and being fetched it is the first one with that id. */
  lemma FirstWithIdAfterUpdate(rows: seq<WalletRow>, id: int, balance: Money, now: Time)
    requires WalletById(rows, id).Success?
    ensures WalletById(WithBalance(Touch(rows, id, now), id, balance), id)
            == Success(WalletById(rows, id).value.(balance := balance, updatedAt := now))
  {
    var k := FirstIndex(rows, RowIdIs(id));
    var after := WithBalance(Touch(rows, id, now), id, balance);
    FirstIndexAgrees(rows, RowIdIs(id), after, RowIdIs(id));
  }

  /**
   * A credit of an amount followed by a debit of the same amount leaves the wallet's
   * balance exactly where it was, since the arithmetic is exact; only `UpdatedAt` moved.
   */
  lemma CreditThenDebitRestores(rows: seq<WalletRow>, cache: CacheState, param: string, amount: Money, t1: Time, t2: Time)
    requires Accepted(Credit, rows, UpdateRequest(param, Success(amount)))
    requires WalletById(rows, BindWalletId(param).value).value.balance >= 0
    ensures var req := UpdateRequest(param, Success(amount));
            var id := BindWalletId(param).value;
            var first := Update(Credit, rows, cache, req, t1);
            var second := Update(Debit, first.rows, first.cache, req, t2);
            && Accepted(Debit, first.rows, req)
            && WalletById(second.rows, id) == Success(WalletById(rows, id).value.(updatedAt := t2))
  {
    var req := UpdateRequest(param, Success(amount));
    var id := BindWalletId(param).value;
    var w := WalletById(rows, id).value;
    AcceptedReadsBack(Credit, rows, cache, req, t1);
    var first := Update(Credit, rows, cache, req, t1);
    assert NewBalanceOf(Credit, rows, req) == w.balance + amount;
    assert WalletById(first.rows, id) == Success(w.(balance := w.balance + amount, updatedAt := t1));
    assert Accepted(Debit, first.rows, req);
    AcceptedReadsBack(Debit, first.rows, first.cache, req, t2);
    assert NewBalanceOf(Debit, first.rows, req) == w.balance;
  }

  /** After an accepted request, looking the wallet up by its id finds the new balance and the new time. */
  lemma AcceptedReadsBack(kind: Kind, rows: seq<WalletRow>, cache: CacheState, req: UpdateRequest, now: Time)
    requires Accepted(kind, rows, req)
    ensures var id := BindWalletId(req.walletId).value;
            WalletById(Update(kind, rows, cache, req, now).rows, id)
            == Success(WalletById(rows, id).value.(balance := NewBalanceOf(kind, rows, req), updatedAt := now))
  {
    AcceptedEffect(kind, rows, cache, req, now);
    FirstWithIdAfterUpdate(rows, BindWalletId(req.walletId).value, NewBalanceOf(kind, rows, req), now);
  }

  /** The outcome of the ownership check and the repository calls it made. */
  datatype Ownership = Ownership(result: Result<WalletRow, Error>, calls: seq<Call>)

  /**
   * `verifyWalletBelongsToUser`: the token's email names a user, the user's first wallet
   * exists, and the path's id binds to that wallet's id; each step's error is returned as it is.
   */
  function CheckOwnership(users: seq<User>, rows: seq<WalletRow>, auth: Payload, param: string): (o: Ownership)
    ensures o.result.Success? ==> o.result.value in rows && BindWalletId(param) == Success(o.result.value.id)
    ensures |o.calls| <= 2 && forall c :: c in o.calls ==> c.GetUserByEmailCall? || c.GetWalletByUserIdCall?
  {
    match GetUserIdFromContext(auth)
    case Failure(e) => Ownership(Failure(e), [])
    case Success(email) =>
      match UserByEmail(users, email)
      case Failure(e) => Ownership(Failure(e), [GetUserByEmailCall(email)])
      case Success(user) =>
        var calls := [GetUserByEmailCall(email), GetWalletByUserIdCall(user.ID)];
        match WalletByUserId(rows, user.ID)
        case Failure(e) => Ownership(Failure(e), calls)
        case Success(w) =>
          match BindWalletId(param)
          case Failure(e) => Ownership(Failure(e), calls)
          case Success(id) =>
            if w.id != id then Ownership(Failure(WalletNotBelongsToUser), calls)
            else Ownership(Success(w), calls)
  }

  /**
   * The check hands out a wallet exactly when the token's user exists, has a wallet, and the
   * path names that wallet; the same chain with another id fails with `ErrWalletNotBelongsToUser`.
   */
  lemma OwnershipMeaning(users: seq<User>, rows: seq<WalletRow>, auth: Payload, param: string)
    ensures var o := CheckOwnership(users, rows, auth, param);
            o.result.Success? <==>
              && auth.TokenPayload?
              && UserByEmail(users, auth.email).Success?
              && WalletByUserId(rows, UserByEmail(users, auth.email).value.ID).Success?
              && BindWalletId(param) == Success(WalletByUserId(rows, UserByEmail(users, auth.email).value.ID).value.id)
    ensures var o := CheckOwnership(users, rows, auth, param);
            o.result.Success? ==> o.result.value == WalletByUserId(rows, UserByEmail(users, auth.email).value.ID).value
    ensures var o := CheckOwnership(users, rows, auth, param);
            && auth.TokenPayload?
            && UserByEmail(users, auth.email).Success?
            && WalletByUserId(rows, UserByEmail(users, auth.email).value.ID).Success?
            && BindWalletId(param).Success?
            && BindWalletId(param).value != WalletByUserId(rows, UserByEmail(users, auth.email).value.ID).value.id
            ==> o.result == Failure(WalletNotBelongsToUser)
  {
  }

  /** The ledger handlers never run the ownership check: they make no user or user-wallet lookup. */
  lemma UpdateSkipsOwnership(kind: Kind, rows: seq<WalletRow>, cache: CacheState, req: UpdateRequest, now: Time)
    ensures forall c :: c in Update(kind, rows, cache, req, now).handled.calls ==>
              !c.GetUserByEmailCall? && !c.GetWalletByUserIdCall?
  {
  }

  /** A balance read: the path's wallet id and what the authentication middleware stored. */
  datatype BalanceRequest = BalanceRequest(auth: Payload, walletId: string)

  /**
   * `getWalletBalance`: a 400 with the ownership check's error, or the owner's balance written
   * to the cache for 100 seconds and returned in a 200 envelope (a 500 when the cache fails).
   */
  function ReadBalance(users: seq<User>, rows: seq<WalletRow>, cache: CacheState, req: BalanceRequest, now: Time): (e: Effect)
    ensures e.rows == rows
  {
    var o := CheckOwnership(users, rows, req.auth, req.walletId);
    match o.result
    case Failure(err) => Effect(Handled(ErrorResponse(StatusBadRequest, err), o.calls), rows, cache)
    case Success(w) =>
      var key := IntToString(w.id);
      var value := Render(w.balance);
      var calls := o.calls + [CacheSetCall(key, value, BalanceTtl)];
      var response :=
        match Reply(cache)
        case Fail(err) => ErrorResponse(StatusInternalServerError, err)
        case Pass => Response(StatusOK, Envelope(true, "", Balance(value)));
      Effect(Handled(response, calls), rows, Stored(cache, key, value, BalanceTtl, now))
  }

  /**
   * The balance route: the cache middleware looks up the raw path text and, on a miss only,
   * hands over to `getWalletBalance`.
   */
  function RouteBalance(users: seq<User>, rows: seq<WalletRow>, cache: CacheState, req: BalanceRequest, now: Time): (e: Effect)
    ensures e.rows == rows
  {
    var get := [CacheGetCall(req.walletId)];
    match Decide(Lookup(cache, req.walletId, now))
    case Abort(response) => Effect(Handled(response, get), rows, cache)
    case Next =>
      var read := ReadBalance(users, rows, cache, req, now);
      Effect(Handled(read.handled.response, get + read.handled.calls), rows, read.cache)
  }

  /**
   * A cache hit answers 200 with the cached string before the ownership check can run: any
   * authenticated caller reads any wallet whose balance is cached. The authentication
   * middleware, which runs before the cache, is abstracted here to the payload it leaves.
   */
  lemma HitBypassesOwnership(users: seq<User>, rows: seq<WalletRow>, cache: CacheState, req: BalanceRequest, now: Time)
    requires Lookup(cache, req.walletId, now).Success?
    ensures RouteBalance(users, rows, cache, req, now)
            == Effect(Handled(Response(StatusOK, Envelope(true, "", Balance(Lookup(cache, req.walletId, now).value))),
                              [CacheGetCall(req.walletId)]), rows, cache)
  {
  }

  /** Any other cache error ends the request with a 500 and the balance handler does not run. */
  lemma CacheErrorAborts(users: seq<User>, rows: seq<WalletRow>, cache: CacheState, req: BalanceRequest, now: Time)
    requires cache.outage.Some? && cache.outage.value != CacheNil
    ensures RouteBalance(users, rows, cache, req, now)
            == Effect(Handled(Response(StatusInternalServerError, RawError(cache.outage.value)), [CacheGetCall(req.walletId)]), rows, cache)
  {
  }

  /** A miss, and only a miss, runs the balance handler. */
  lemma MissRunsHandler(users: seq<User>, rows: seq<WalletRow>, cache: CacheState, req: BalanceRequest, now: Time)
    ensures Decide(Lookup(cache, req.walletId, now)).Next? <==>
              Lookup(cache, req.walletId, now) == Failure(CacheNil)
    ensures cache.outage.None? && (req.walletId !in cache.entries || !Live(cache.entries[req.walletId], now)) ==>
              var read := ReadBalance(users, rows, cache, req, now);
              RouteBalance(users, rows, cache, req, now)
              == Effect(Handled(read.handled.response, [CacheGetCall(req.walletId)] + read.handled.calls), rows, read.cache)
  {
  }

  /**
   * A balance read never shows or caches a negative balance: whether it is answered from the
   * cache or by the handler, a balance in the response reads as non-negative, and what the
   * handler caches is the rendering of a stored, non-negative balance.
   */
  lemma RouteKeepsCacheNonNegative(users: seq<User>, rows: seq<WalletRow>, cache: CacheState, req: BalanceRequest, now: Time)
    requires AllNonNegative(rows) && CacheNonNegative(cache)
    ensures var e := RouteBalance(users, rows, cache, req, now);
            && CacheNonNegative(e.cache)
            && (e.handled.response.body.Envelope? && e.handled.response.body.data.Balance? ==>
                  NonNegativeText(e.handled.response.body.data.balance))
  {
    var o := CheckOwnership(users, rows, req.auth, req.walletId);
    if o.result.Success? {
      OwnershipMeaning(users, rows, req.auth, req.walletId);
      var w := o.result.value;
      assert w in rows;
      RenderSign(w.balance);
    }
  }

  /**
   * After an accepted credit or debit on wallet `id` with a working cache, a balance read of
   * the path "id" within 100 seconds is a hit returning the new balance, whichever authenticated user asks.
   */
  lemma ReadAfterUpdateHits(kind: Kind, users: seq<User>, rows: seq<WalletRow>, cache: CacheState, req: UpdateRequest,
                            now: Time, auth: Payload, later: Time)
    requires Accepted(kind, rows, req) && cache.outage.None?
    requires now <= later < now + BalanceTtl
    ensures var id := BindWalletId(req.walletId).value;
            var e := Update(kind, rows, cache, req, now);
            RouteBalance(users, e.rows, e.cache, BalanceRequest(auth, IntToString(id)), later).handled
            == Handled(Response(StatusOK, Envelope(true, "", Balance(Render(NewBalanceOf(kind, rows, req))))),
                       [CacheGetCall(IntToString(id))])
  {
    AcceptedEffect(kind, rows, cache, req, now);
  }

  /**
   * A read refused by the ownership check is a 400 with the check's error: it writes nothing
   * to the cache and makes no call beyond the check's own lookups.
   */
  lemma ReadRefused(users: seq<User>, rows: seq<WalletRow>, cache: CacheState, req: BalanceRequest, now: Time)
    requires CheckOwnership(users, rows, req.auth, req.walletId).result.Failure?
    ensures var o := CheckOwnership(users, rows, req.auth, req.walletId);
            var e := ReadBalance(users, rows, cache, req, now);
            && e.handled.response == ErrorResponse(StatusBadRequest, o.result.error)
            && e.handled.calls == o.calls
            && (forall c :: c in e.handled.calls ==> !c.CacheSetCall?)
            && e.cache == cache && e.rows == rows
  {
  }

  /** After a successful balance read, a repeat of the same path within 100 seconds is a hit. */
  lemma ReadAfterReadHits(users: seq<User>, rows: seq<WalletRow>, cache: CacheState, req: BalanceRequest, now: Time, later: Time)
    requires cache.outage.None? && now <= later < now + BalanceTtl
    requires CheckOwnership(users, rows, req.auth, req.walletId).result.Success?
    requires req.walletId == IntToString(CheckOwnership(users, rows, req.auth, req.walletId).result.value.id)
    ensures var w := CheckOwnership(users, rows, req.auth, req.walletId).result.value;
            var e := ReadBalance(users, rows, cache, req, now);
            && e.handled.response == Response(StatusOK, Envelope(true, "", Balance(Render(w.balance))))
            && Lookup(e.cache, req.walletId, later) == Success(Render(w.balance))
  {
  }

  /**
   * The cache is keyed by the raw path text: "07" binds to wallet 7, but a credit through
   * "07" caches under "7", so a later read of "07" still misses and runs the handler.
   */
  lemma LeadingZeroMisses(kind: Kind, rows: seq<WalletRow>, cache: CacheState, amount: Money, now: Time, later: Time)
    requires cache.outage.None? && "07" !in cache.entries
    ensures BindWalletId("07") == Success(7)
    ensures Lookup(Update(kind, rows, cache, UpdateRequest("07", Success(amount)), now).cache, "07", later) == Failure(CacheNil)
  {
    NonCanonicalTextsParse();
    assert IntToString(7) == "7";
  }

  /**
   * The store holds the rows: every stored balance is the row's, and when no wallet object is
   * stored twice (`distinct`) every stored wallet is its row.
   */
  ghost predicate Holds(repo: InMemory, rows: seq<WalletRow>, distinct: bool)
    reads repo, repo.Wallets
  {
    && |repo.Wallets| == |rows|
    && (forall j :: 0 <= j < |repo.Wallets| ==> repo.Wallets[j].Balance == rows[j].balance)
    && (distinct ==> repo.Rows() == rows)
  }

  /** The store and the cache hold what the effect says, and the handler answered as it says. */
  ghost predicate Realizes(repo: InMemory, cache: Cacher, h: Handled, e: Effect, distinct: bool)
    reads repo, repo.Wallets, cache
  {
    match e
    case Effect(handled, rows, after) => h == handled && cache.State() == after && Holds(repo, rows, distinct)
  }

  /** A refusal leaves the store and the cache as they are: they realize any effect that keeps both. */
  lemma Untouched(repo: InMemory, cache: Cacher, h: Handled, e: Effect, distinct: bool)
    requires e == Effect(h, repo.Rows(), cache.State())
    ensures Realizes(repo, cache, h, e, distinct)
  {
  }

  /**
   * After the fetched wallet (position `k`) is stamped in place, the store's wallets, once
   * `UpdateWallet` has copied the balance, are those the specification gives, position by
   * position in balance, and wholly when no wallet object is stored twice.
   */
  lemma StampedRows(repo: InMemory, rows: seq<WalletRow>, wallet: Wallet, k: nat, id: int, balance: Money, now: Time)
    requires |rows| == |repo.Wallets| && k < |rows| && repo.Wallets[k] == wallet && wallet.ID == id
    requires k == FirstIndex(rows, RowIdIs(id))
    requires wallet.Balance == balance && wallet.UpdatedAt == now
    requires forall j :: 0 <= j < |rows| && repo.Wallets[j] != wallet ==> repo.Wallets[j].Row() == rows[j]
    requires forall j :: 0 <= j < |rows| ==> rows[j].id == repo.Wallets[j].ID
    requires rows[k].(balance := balance, updatedAt := now) == wallet.Row()
    ensures var spec := WithBalance(Touch(rows, id, now), id, balance);
            var got := WithBalance(repo.Rows(), id, balance);
            && (forall j :: 0 <= j < |rows| ==> got[j].balance == spec[j].balance)
            && (repo.Distinct() ==> got == spec)
  {
    var spec := WithBalance(Touch(rows, id, now), id, balance);
    var got := WithBalance(repo.Rows(), id, balance);
    forall j | 0 <= j < |rows|
      ensures got[j].balance == spec[j].balance
    {
      if repo.Wallets[j] == wallet {
        assert repo.Wallets[j].ID == id;
      }
    }
    if repo.Distinct() {
      forall j | 0 <= j < |rows|
        ensures got[j] == spec[j]
      {
        if j == k {
          assert Touch(rows, id, now)[k] == rows[k].(updatedAt := now);
          assert repo.Rows()[k] == wallet.Row();
        } else {
          assert repo.Wallets[j] != wallet;
        }
      }
    }
  }
}
