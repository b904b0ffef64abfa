/**
 * The volatile backend: two ordered collections searched front to back. It is the one
 * implementation of the repository interface whose behaviour is fully visible, and it is
 * the store the ledger handlers of this model run against.
 */
module InMemoryStore {
  import opened Wrappers
  import opened Errors
  import opened Money
  import opened Models
  import opened Seqs

  /** How many users and wallets seeding creates. */
  const SeedNumber: nat := 10

  /**
   * The values seeding draws at random (UUIDs, names, e-mail addresses, passwords and
   * balances), indexed by the seed number 1..SeedNumber, with the password hash as a function.
   */
  datatype SeedSource = SeedSource(
    userUuid: int -> string,
    password: int -> string,
    hash: string -> string,
    fullName: int -> string,
    email: int -> string,
    walletUuid: int -> string,
    balance: int -> nat)

  function SeedUser(src: SeedSource, i: int, now: Time): User
  {
    User(i, src.userUuid(i), src.password(i), src.hash(src.password(i)), src.fullName(i), src.email(i),
         None, now, now, None)
  }

  function SeedRow(src: SeedSource, i: int, now: Time): WalletRow
  {
    WalletRow(i, src.walletUuid(i), i, src.balance(i), now, now, None)
  }

  /** The users seeding adds: ids 1..SeedNumber in order. */
  function SeedUsers(src: SeedSource, now: Time): (users: seq<User>)
    ensures |users| == SeedNumber
    ensures forall j :: 0 <= j < SeedNumber ==> users[j].ID == j + 1
  {
    seq(SeedNumber, j => SeedUser(src, j + 1, now))
  }

  /** The wallets seeding adds: ids 1..SeedNumber, each owned by the user with the same id. */
  function SeedRows(src: SeedSource, now: Time): (rows: seq<WalletRow>)
    ensures |rows| == SeedNumber
    ensures forall j :: 0 <= j < SeedNumber ==> rows[j].id == j + 1 && rows[j].userId == j + 1
    ensures forall j :: 0 <= j < SeedNumber ==> rows[j].balance >= 0
  {
    seq(SeedNumber, j => SeedRow(src, j + 1, now))
  }

  /** What `Seed` makes of one collection: the seed data when it is empty, otherwise no change. */
  function SeedIfEmpty<T>(current: seq<T>, seed: seq<T>): (r: seq<T>)
    ensures |current| > 0 ==> r == current
    ensures |current| == 0 ==> r == seed
  {
    if |current| == 0 then seed else current
  }

  /** Seeding twice is seeding once, whatever the second call would have drawn. */
  lemma SeedIdempotent<T>(current: seq<T>, seed1: seq<T>, seed2: seq<T>)
    requires |seed1| > 0
    ensures SeedIfEmpty(SeedIfEmpty(current, seed1), seed2) == SeedIfEmpty(current, seed1)
  {
  }

  /** `GetUserByEmail` on values: the first user with the address, in collection order. */
  function UserByEmail(users: seq<User>, email: string): (r: Result<User, Error>)
    ensures r.Failure? <==> forall j :: 0 <= j < |users| ==> users[j].Email != email
    ensures r.Failure? ==> r.error == UserNotFound
    ensures r.Success? ==> exists k :: 0 <= k < |users| && users[k] == r.value && r.value.Email == email
                                       && forall j :: 0 <= j < k ==> users[j].Email != email
  {
    var k := FirstIndex(users, EmailIs(email));
    if k < |users| then Success(users[k]) else Failure(UserNotFound)
  }

  /** `GetWallet` on values: the first wallet with the id. */
  function WalletById(rows: seq<WalletRow>, id: int): (r: Result<WalletRow, Error>)
    ensures r.Failure? <==> forall j :: 0 <= j < |rows| ==> rows[j].id != id
    ensures r.Failure? ==> r.error == WalletNotFound
    ensures r.Success? ==> exists k :: 0 <= k < |rows| && rows[k] == r.value && r.value.id == id
                                       && forall j :: 0 <= j < k ==> rows[j].id != id
  {
    var k := FirstIndex(rows, RowIdIs(id));
    if k < |rows| then Success(rows[k]) else Failure(WalletNotFound)
  }

  /** `GetWalletByUserID` on values: the first wallet the user owns. */
  function WalletByUserId(rows: seq<WalletRow>, userId: int): (r: Result<WalletRow, Error>)
    ensures r.Failure? <==> forall j :: 0 <= j < |rows| ==> rows[j].userId != userId
    ensures r.Failure? ==> r.error == WalletNotFound
    ensures r.Success? ==> exists k :: 0 <= k < |rows| && rows[k] == r.value && r.value.userId == userId
                                       && forall j :: 0 <= j < k ==> rows[j].userId != userId
  {
    var k := FirstIndex(rows, RowUserIdIs(userId));
    if k < |rows| then Success(rows[k]) else Failure(WalletNotFound)
  }

  function Prepend(entries: seq<UserWallet>, r: Result<seq<UserWallet>, Error>): Result<seq<UserWallet>, Error>
  {
    match r
    case Success(rest) => Success(entries + rest)
    case Failure(e) => Failure(e)
  }

  /**
   * `GetAllUsers` on values: one entry per user, in user order, carrying the user's first
   * wallet; `WalletNotFound` as soon as one user has none.
   */
  function JoinUsers(users: seq<User>, rows: seq<WalletRow>): (r: Result<seq<UserWallet>, Error>)
    ensures r.Failure? ==> r.error == WalletNotFound
    ensures r.Success? ==> |r.value| == |users|
    decreases |users|
  {
    if users == [] then Success([])
    else
      match WalletByUserId(rows, users[0].ID)
      case Failure(e) => Failure(e)
      case Success(w) => Prepend([Join(users[0], w)], JoinUsers(users[1..], rows))
  }

  /** The join succeeds exactly when every user has a wallet, and then entry `i` joins user `i` with their first wallet. */
  lemma {:induction false} JoinUsersMeaning(users: seq<User>, rows: seq<WalletRow>)
    ensures JoinUsers(users, rows).Success? <==> forall i :: 0 <= i < |users| ==> WalletByUserId(rows, users[i].ID).Success?
    ensures JoinUsers(users, rows).Success? ==> forall i :: 0 <= i < |users| ==>
              JoinUsers(users, rows).value[i] == Join(users[i], WalletByUserId(rows, users[i].ID).value)
    decreases |users|
  {
    if users != [] {
      JoinUsersMeaning(users[1..], rows);
      assert forall i :: 1 <= i < |users| ==> users[i] == users[1..][i - 1];
    }
  }

  /** The join, split after the first `i` users whose entries are already collected. */
  ghost predicate JoinedUpTo(users: seq<User>, rows: seq<WalletRow>, i: nat, entries: seq<UserWallet>)
    requires i <= |users|
  {
    JoinUsers(users, rows) == Prepend(entries, JoinUsers(users[i..], rows))
  }

  lemma JoinStart(users: seq<User>, rows: seq<WalletRow>)
    ensures JoinedUpTo(users, rows, 0, [])
  {
    assert users[0..] == users;
    match JoinUsers(users, rows) {
      case Success(all) => assert [] + all == all;
      case Failure(_) =>
    }
  }

  lemma JoinStep(users: seq<User>, rows: seq<WalletRow>, i: nat, entries: seq<UserWallet>)
    requires i < |users| && JoinedUpTo(users, rows, i, entries)
    ensures WalletByUserId(rows, users[i].ID).Failure? ==> JoinUsers(users, rows) == Failure(WalletNotFound)
    ensures WalletByUserId(rows, users[i].ID).Success? ==>
              JoinedUpTo(users, rows, i + 1, entries + [Join(users[i], WalletByUserId(rows, users[i].ID).value)])
  {
    assert users[i..][0] == users[i] && users[i..][1..] == users[i + 1..];
    match WalletByUserId(rows, users[i].ID)
    case Failure(e) =>
    case Success(w) =>
      match JoinUsers(users[i + 1..], rows) {
        case Success(rest) => assert entries + ([Join(users[i], w)] + rest) == (entries + [Join(users[i], w)]) + rest;
        case Failure(_) =>
      }
  }

  lemma JoinEnd(users: seq<User>, rows: seq<WalletRow>, entries: seq<UserWallet>)
    requires JoinedUpTo(users, rows, |users|, entries)
    ensures JoinUsers(users, rows) == Success(entries)
  {
    assert users[|users|..] == [];
    assert entries + [] == entries;
  }

  /** `UpdateWallet` on values: every wallet with the id takes the balance; nothing else changes. */
  function WithBalance(rows: seq<WalletRow>, id: int, balance: Money): (r: seq<WalletRow>)
    ensures |r| == |rows|
    ensures forall j :: 0 <= j < |rows| ==>
              r[j] == if rows[j].id == id then rows[j].(balance := balance) else rows[j]
  {
    seq(|rows|, j requires 0 <= j < |rows| => if rows[j].id == id then rows[j].(balance := balance) else rows[j])
  }

  predicate AllNonNegative(rows: seq<WalletRow>)
  {
    forall j :: 0 <= j < |rows| ==> rows[j].balance >= 0
  }

  /** `DeleteWallet` as the evidently intended operation: drop the wallets with the id, keep the rest in order. */
  function RemoveAll<T>(s: seq<T>, matches: T -> bool): (r: seq<T>)
    ensures |r| <= |s|
    ensures forall j :: 0 <= j < |r| ==> !matches(r[j])
    decreases |s|
  {
    if s == [] then []
    else (if matches(s[0]) then [] else [s[0]]) + RemoveAll(s[1..], matches)
  }

  /** What the corrected deletion keeps: exactly the elements that do not match. */
  lemma {:induction false} RemoveAllKeeps<T>(s: seq<T>, matches: T -> bool, x: T)
    ensures x in RemoveAll(s, matches) <==> x in s && !matches(x)
    decreases |s|
  {
    if s != [] {
      RemoveAllKeeps(s[1..], matches, x);
      assert x in s <==> x == s[0] || x in s[1..];
    }
  }

  lemma {:induction false} RemoveAllAppend<T>(a: seq<T>, b: seq<T>, matches: T -> bool)
    ensures RemoveAll(a + b, matches) == RemoveAll(a, matches) + RemoveAll(b, matches)
    decreases |a|
  {
    if a == [] {
      assert a + b == b;
    } else {
      assert (a + b)[1..] == a[1..] + b;
      RemoveAllAppend(a[1..], b, matches);
    }
  }

  lemma {:induction false} RemoveAllNone<T>(s: seq<T>, matches: T -> bool)
    requires forall j :: 0 <= j < |s| ==> !matches(s[j])
    ensures RemoveAll(s, matches) == s
    decreases |s|
  {
    if s != [] {
      RemoveAllNone(s[1..], matches);
    }
  }

  /** The result of Go's `DeleteWallet` loop: the collection it leaves, and whether it panicked. */
  datatype Deletion<T> = Deleted(remaining: seq<T>) | Panicked(remaining: seq<T>)

  /**
   * One iteration of `for i, w := range m.Wallets` in `DeleteWallet`. The range walks the
   * backing array `arr` of the original length; `len` is the current length of `m.Wallets`.
   * On a match, `append(m.Wallets[:i], m.Wallets[i+1:]...)` shifts the tail left inside
   * `arr`, leaving the old last slot as it was; slicing `[i+1:]` past `len` panics.
   */
  function DeleteStep<T>(arr: seq<T>, len: nat, i: nat, matches: T -> bool): (d: Deletion<T>)
    requires len <= |arr| && i <= |arr|
    ensures |d.remaining| <= len
    decreases |arr| - i
  {
    if i == |arr| then Deleted(arr[..len])
    else if !matches(arr[i]) then DeleteStep(arr, len, i + 1, matches)
    else if i + 1 > len then Panicked(arr[..len])
    else DeleteStep(arr[..i] + arr[i + 1..len] + arr[len - 1..], len - 1, i + 1, matches)
  }

  /** `DeleteWallet` as written. */
  function DeleteAsWritten<T>(s: seq<T>, matches: T -> bool): (d: Deletion<T>)
    ensures |d.remaining| <= |s|
  {
    DeleteStep(s, |s|, 0, matches)
  }

  lemma {:induction false} DeleteStepNoMoreMatches<T>(arr: seq<T>, len: nat, i: nat, matches: T -> bool)
    requires len <= |arr| && i <= |arr|
    requires forall j :: i <= j < |arr| ==> !matches(arr[j])
    ensures DeleteStep(arr, len, i, matches) == Deleted(arr[..len])
    decreases |arr| - i
  {
    if i < |arr| {
      DeleteStepNoMoreMatches(arr, len, i + 1, matches);
    }
  }

  /** Removing from a sequence whose only match is at `i` leaves the parts before and after it. */
  lemma {:induction false} RemoveAllSingle<T>(s: seq<T>, i: nat, matches: T -> bool)
    requires i < |s| && matches(s[i])
    requires forall j :: 0 <= j < |s| && j != i ==> !matches(s[j])
    ensures RemoveAll(s, matches) == s[..i] + s[i + 1..]
    decreases i
  {
    if i == 0 {
      RemoveAllNone(s[1..], matches);
    } else {
      RemoveAllSingle(s[1..], i - 1, matches);
      assert [s[0]] + s[1..][..i - 1] == s[..i];
      assert s[1..][i..] == s[i + 1..];
    }
  }

  /** The backing array after the shift at `i`, when `s[i]` was the only match: no match from `i + 1` on. */
  lemma {:induction false} ShiftedTailClear<T>(s: seq<T>, i: nat, matches: T -> bool)
    requires i < |s|
    requires forall j :: 0 <= j < |s| && j != i ==> !matches(s[j])
    ensures var arr := s[..i] + s[i + 1..|s|] + s[|s| - 1..];
            |arr| == |s| && (forall j :: i + 1 <= j < |arr| ==> !matches(arr[j]))
            && arr[..|s| - 1] == s[..i] + s[i + 1..]
  {
    var arr := s[..i] + s[i + 1..|s|] + s[|s| - 1..];
    forall j | i + 1 <= j < |arr| ensures !matches(arr[j]) {
      if j < |s| - 1 {
        assert arr[j] == s[j + 1];
      } else {
        assert arr[j] == s[|s| - 1];
      }
    }
  }

  lemma {:induction false} DeleteStepUnique<T>(s: seq<T>, i: nat, matches: T -> bool)
    requires i <= |s|
    requires forall j, k :: 0 <= j < k < |s| && matches(s[j]) ==> !matches(s[k])
    requires forall j :: 0 <= j < i ==> !matches(s[j])
    ensures DeleteStep(s, |s|, i, matches) == Deleted(RemoveAll(s, matches))
    decreases |s| - i
  {
    if i == |s| {
      RemoveAllNone(s, matches);
    } else if !matches(s[i]) {
      DeleteStepUnique(s, i + 1, matches);
    } else {
      assert forall j :: 0 <= j < |s| && j != i ==> !matches(s[j]);
      ShiftedTailClear(s, i, matches);
      var arr := s[..i] + s[i + 1..|s|] + s[|s| - 1..];
      DeleteStepNoMoreMatches(arr, |s| - 1, i + 1, matches);
      RemoveAllSingle(s, i, matches);
    }
  }

  /** With at most one match (unique ids), the loop as written removes exactly that element and never panics. */
  lemma DeleteAsWrittenUnique<T>(s: seq<T>, matches: T -> bool)
    requires forall j, k :: 0 <= j < k < |s| && matches(s[j]) ==> !matches(s[k])
    ensures DeleteAsWritten(s, matches) == Deleted(RemoveAll(s, matches))
  {
    DeleteStepUnique(s, 0, matches);
  }

  function IsOne(x: int): bool { x == 1 }

  /**
   * With two adjacent matches the loop skips the second (the shift moves it under the index
   * just visited), and with a match in the last slot after a deletion it slices past the end.
   */
  lemma DeleteAsWrittenDuplicates()
    ensures DeleteAsWritten([1, 1, 2], IsOne) == Deleted([1, 2])
    ensures RemoveAll([1, 1, 2], IsOne) == [2]
    ensures DeleteAsWritten([1, 1], IsOne) == Panicked([1])
  {
    var a: seq<int> := [1, 1, 2];
    assert a[..0] + a[1..3] + a[2..] == [1, 2, 2];
    assert DeleteStep([1, 2, 2], 2, 1, IsOne) == DeleteStep([1, 2, 2], 2, 2, IsOne);
    assert [1, 2, 2][..2] == [1, 2];
    var b: seq<int> := [1, 1];
    assert b[..0] + b[1..2] + b[1..] == [1, 1];
    assert [1, 1][..1] == [1];
    assert RemoveAll([2], IsOne) == [2];
    assert [1, 1, 2][1..] == [1, 2] && [1, 2][1..] == [2];
  }

  /** `database.InMemory`. */
  class InMemory {
    var Users: seq<User>
    var Wallets: seq<Wallet>

    /** `NewInMemory`: both collections empty. */
    constructor ()
      ensures Users == [] && Wallets == []
    {
      Users, Wallets := [], [];
    }

    /** The wallets as values, in collection order. */
    ghost function Rows(): (rows: seq<WalletRow>)
      reads this, Wallets
      ensures |rows| == |Wallets|
      ensures forall j :: 0 <= j < |Wallets| ==> rows[j] == Wallets[j].Row()
    {
      seq(|Wallets|, j requires 0 <= j < |Wallets| reads this, Wallets => Wallets[j].Row())
    }

    /** The ledger's invariant: no stored balance is negative. */
    ghost predicate NonNegative()
      reads this, Wallets
    {
      AllNonNegative(Rows())
    }

    /** No wallet object is stored twice; the seeded store `Database.NewRepository` returns has this. */
    ghost predicate Distinct()
      reads this
    {
      forall j, k :: 0 <= j < k < |Wallets| ==> Wallets[j] != Wallets[k]
    }

    lemma IdIndexAgrees(id: int)
      ensures FirstIndex(Wallets, IdIs(id)) == FirstIndex(Rows(), RowIdIs(id))
    {
      FirstIndexAgrees(Wallets, IdIs(id), Rows(), RowIdIs(id));
    }

    /** Stored balances that match rows with no negative balance make the store non-negative. */
    lemma NonNegativeFromBalances(rows: seq<WalletRow>)
      requires |rows| == |Wallets| && AllNonNegative(rows)
      requires forall j :: 0 <= j < |Wallets| ==> Wallets[j].Balance == rows[j].balance
      ensures NonNegative()
    {
      assert forall j :: 0 <= j < |Wallets| ==> Rows()[j].balance == rows[j].balance;
    }

    lemma UserIdIndexAgrees(userId: int)
      ensures FirstIndex(Wallets, UserIdIs(userId)) == FirstIndex(Rows(), RowUserIdIs(userId))
    {
      FirstIndexAgrees(Wallets, UserIdIs(userId), Rows(), RowUserIdIs(userId));
    }

    /** The first user with the address, or `ErrUserNotFound`. */
    method GetUserByEmail(email: string) returns (r: Result<User, Error>)
      ensures r == UserByEmail(Users, email)
    {
      for i := 0 to |Users|
        invariant forall j :: 0 <= j < i ==> Users[j].Email != email
      {
        if Users[i].Email == email {
          return Success(Users[i]);
        }
      }
      return Failure(UserNotFound);
    }

    /** The stored wallet (not a copy) first in order with the id, or `ErrWalletNotFound`. */
    method GetWallet(id: int) returns (r: Result<Wallet, Error>)
      ensures var k := FirstIndex(Wallets, IdIs(id));
              r == if k < |Wallets| then Success(Wallets[k]) else Failure(WalletNotFound)
      ensures match r
              case Success(w) => WalletById(Rows(), id) == Success(w.Row())
              case Failure(e) => WalletById(Rows(), id) == Failure(e)
    {
      IdIndexAgrees(id);
      for i := 0 to |Wallets|
        invariant forall j :: 0 <= j < i ==> Wallets[j].ID != id
      {
        if Wallets[i].ID == id {
          return Success(Wallets[i]);
        }
      }
      return Failure(WalletNotFound);
    }

    /** The whole wallet collection. */
    method GetAllWallets() returns (r: Result<seq<Wallet>, Error>)
      ensures r == Success(Wallets)
    {
      return Success(Wallets);
    }

    /** The stored wallet first in order owned by the user, or `ErrWalletNotFound`. */
    method GetWalletByUserID(userId: int) returns (r: Result<Wallet, Error>)
      ensures var k := FirstIndex(Wallets, UserIdIs(userId));
              r == if k < |Wallets| then Success(Wallets[k]) else Failure(WalletNotFound)
      ensures match r
              case Success(w) => WalletByUserId(Rows(), userId) == Success(w.Row())
              case Failure(e) => WalletByUserId(Rows(), userId) == Failure(e)
    {
      UserIdIndexAgrees(userId);
      for i := 0 to |Wallets|
        invariant forall j :: 0 <= j < i ==> Wallets[j].UserID != userId
      {
        if Wallets[i].UserID == userId {
          return Success(Wallets[i]);
        }
      }
      return Failure(WalletNotFound);
    }

    /** Every user with the id and balance of their first wallet, in user order. */
    method GetAllUsers() returns (r: Result<seq<UserWallet>, Error>)
      ensures r == JoinUsers(Users, Rows())
    {
      ghost var rows := Rows();
      var entries: seq<UserWallet> := [];
      JoinStart(Users, rows);
      for i := 0 to |Users|
        invariant Rows() == rows
        invariant JoinedUpTo(Users, rows, i, entries)
      {
        var found := GetWalletByUserID(Users[i].ID);
        JoinStep(Users, rows, i, entries);
        if found.Failure? {
          return Failure(found.error);
        }
        entries := entries + [Join(Users[i], found.value.Row())];
      }
      JoinEnd(Users, rows, entries);
      return Success(entries);
    }

    /** Appends the user; no uniqueness check. */
    method CreateUser(user: User) returns (r: Outcome<Error>)
      modifies this
      ensures Users == old(Users) + [user] && Wallets == old(Wallets)
      ensures r == Pass
    {
      Users := Users + [user];
      return Pass;
    }

    /** Appends the wallet; no uniqueness check. Returns the wallet's id. */
    method CreateWallet(wallet: Wallet) returns (r: Result<int, Error>)
      modifies this
      ensures Wallets == old(Wallets) + [wallet] && Users == old(Users)
      ensures Rows() == old(Rows()) + [wallet.Row()]
      ensures r == Success(wallet.ID)
    {
      Wallets := Wallets + [wallet];
      return Success(wallet.ID);
    }

    /**
     * Copies the argument's balance into every stored wallet with its id. Other fields, the
     * order and the length stay; the argument comes back with a nil error even when nothing
     * matched. (This backend cannot fail here, so no error is returned.)
     */
    method UpdateWallet(wallet: Wallet) returns (r: Wallet)
      modifies Wallets
      ensures Users == old(Users) && Wallets == old(Wallets)
      ensures Rows() == WithBalance(old(Rows()), wallet.ID, old(wallet.Balance))
      ensures r == wallet && wallet.Balance == old(wallet.Balance)
    {
      ghost var before := Rows();
      var n := |Wallets|;
      for i := 0 to n
        invariant wallet.Balance == old(wallet.Balance)
        invariant forall j :: 0 <= j < n ==> Wallets[j].UpdatedAt == old(Wallets[j].UpdatedAt)
        invariant forall j :: 0 <= j < n && Wallets[j].ID != wallet.ID ==> Wallets[j].Balance == old(Wallets[j].Balance)
        invariant forall j :: 0 <= j < i && Wallets[j].ID == wallet.ID ==> Wallets[j].Balance == wallet.Balance
      {
        if Wallets[i].ID == wallet.ID {
          Wallets[i].Balance := wallet.Balance;
        }
      }
      assert Rows() == WithBalance(before, wallet.ID, old(wallet.Balance));
      return wallet;
    }

    /**
     * Removes wallets with the id as the source's loop does: it splices the slice while
     * ranging over it. Reports whether the loop panicked (slicing past the end).
     */
    method DeleteWallet(id: int) returns (panicked: bool)
      modifies this
      ensures Users == old(Users)
      ensures DeleteAsWritten(old(Wallets), IdIs(id)) == if panicked then Panicked(Wallets) else Deleted(Wallets)
    {
      var arr := Wallets;
      var len: nat := |arr|;
      var i: nat := 0;
      while i < |arr|
        invariant Users == old(Users)
        invariant i <= |arr| == |old(Wallets)|
        invariant len <= |arr| && Wallets == arr[..len]
        invariant DeleteStep(arr, len, i, IdIs(id)) == DeleteAsWritten(old(Wallets), IdIs(id))
        decreases |arr| - i
      {
        if arr[i].ID == id {
          if i + 1 > len {
            return true;
          }
          arr := arr[..i] + arr[i + 1..len] + arr[len - 1..];
          len := len - 1;
          Wallets := arr[..len];
        }
        i := i + 1;
      }
      return false;
    }

    /** With unique wallet ids, `DeleteWallet` removes exactly the wallet with the id and keeps the rest in order. */
    lemma DeleteWalletUnique(id: int)
      requires forall j, k :: 0 <= j < k < |Wallets| ==> Wallets[j].ID != Wallets[k].ID
      ensures DeleteAsWritten(Wallets, IdIs(id)) == Deleted(RemoveAll(Wallets, IdIs(id)))
    {
      DeleteAsWrittenUnique(Wallets, IdIs(id));
    }

    /** The lifecycle calls of this backend do nothing and cannot fail. */
    method Open() returns (r: Outcome<Error>)
      ensures r == Pass
    {
      return Pass;
    }

    method Close() returns (r: Outcome<Error>)
      ensures r == Pass
    {
      return Pass;
    }

    method CreateTables() returns (r: Outcome<Error>)
      ensures r == Pass
    {
      return Pass;
    }

    /** Adds SeedNumber users if there are none, and SeedNumber wallets if there are none. */
    method Seed(src: SeedSource, now: Time)
      modifies this
      ensures Users == SeedIfEmpty(old(Users), SeedUsers(src, now))
      ensures Rows() == SeedIfEmpty(old(Rows()), SeedRows(src, now))
      ensures |old(Wallets)| > 0 ==> Wallets == old(Wallets)
      ensures forall j :: 0 <= j < |Wallets| ==> Wallets[j] in old(Wallets) || fresh(Wallets[j])
    {
      ghost var rows0 := Rows();
      if |Users| == 0 {
        for i := 1 to SeedNumber + 1
          invariant Users == SeedUsers(src, now)[..i - 1]
          invariant Wallets == old(Wallets) && Rows() == rows0
        {
          Users := Users + [SeedUser(src, i, now)];
        }
      }
      if |Wallets| == 0 {
        for i := 1 to SeedNumber + 1
          invariant Users == SeedIfEmpty(old(Users), SeedUsers(src, now))
          invariant |Wallets| == i - 1
          invariant forall j :: 0 <= j < i - 1 ==> fresh(Wallets[j]) && Wallets[j].Row() == SeedRow(src, j + 1, now)
        {
          var wallet := new Wallet(i, src.walletUuid(i), i, src.balance(i), now, now);
          Wallets := Wallets + [wallet];
        }
        assert Rows() == SeedRows(src, now);
      }
    }
  }

  /** After seeding an empty store, looking up the wallet of user i finds the wallet with id i. */
  lemma SeededWalletOfUser(src: SeedSource, now: Time, i: int)
    requires 1 <= i <= SeedNumber
    ensures WalletByUserId(SeedRows(src, now), i).Success?
    ensures WalletByUserId(SeedRows(src, now), i).value.id == i
  {
    var rows := SeedRows(src, now);
    assert rows[i - 1].userId == i;
  }

  /** Seeded balances are not negative. */
  lemma SeededNonNegative(src: SeedSource, now: Time)
    ensures AllNonNegative(SeedRows(src, now))
  {
  }
}
