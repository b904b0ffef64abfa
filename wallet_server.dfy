/**
 * The wallet handlers carried out in place on the in-memory store and the cache: each method
 * is proved to realize the handler's function from `WalletHandlers` on the state it starts from.
 */
module WalletServer {
  import opened Wrappers
  import opened Errors
  import opened Numerals
  import opened Money
  import opened Models
  import opened Seqs
  import opened InMemoryStore
  import opened Cache
  import opened Server
  import opened CacheMiddleware
  import opened WalletHandlers

  /**
   * The credit and debit handlers on the in-memory store: the wallet `GetWallet` hands out is
   * the stored object, whose `Balance` and `UpdatedAt` the handler sets in place before
   * `UpdateWallet` copies the balance to every wallet with the id. Every wallet's balance ends
   * as the specification says; the timestamps do too unless one wallet object is stored twice.
   */
  method UpdateWalletBalance(kind: Kind, repo: InMemory, cache: Cacher, req: UpdateRequest, now: Time) returns (h: Handled)
    modifies repo.Wallets, cache
    ensures repo.Users == old(repo.Users) && repo.Wallets == old(repo.Wallets)
    ensures Realizes(repo, cache, h, Update(kind, old(repo.Rows()), old(cache.State()), req, now), old(repo.Distinct()))
  {
    var admitted := Admit(req);
    if admitted.Failure? {
      h := Handled(ErrorResponse(StatusBadRequest, admitted.error), []);
      AdmitRefused(kind, repo.Rows(), cache.State(), req, now);
      Untouched(repo, cache, h, Update(kind, repo.Rows(), cache.State(), req, now), repo.Distinct());
      return;
    }
    ghost var e := Update(kind, repo.Rows(), cache.State(), req, now);
    h := FetchAndApply(kind, repo, cache, req, now, admitted.value.id, admitted.value.amount, e, repo.Distinct());
  }

  /** The handlers once the id and the amount are admitted: `GetWallet`, a 500 when it fails. */
  method FetchAndApply(kind: Kind, repo: InMemory, cache: Cacher, req: UpdateRequest, now: Time, id: int, amount: Money,
                       ghost e: Effect, ghost distinct: bool) returns (h: Handled)
    requires Admit(req) == Success(Admitted(id, amount))
    requires e == Update(kind, repo.Rows(), cache.State(), req, now) && distinct == repo.Distinct()
    modifies repo.Wallets, cache
    ensures repo.Users == old(repo.Users) && repo.Wallets == old(repo.Wallets)
    ensures Realizes(repo, cache, h, e, distinct)
  {
    var found := repo.GetWallet(id);
    if found.Failure? {
      h := Handled(ErrorResponse(StatusInternalServerError, found.error), [GetWalletCall(id)]);
      NotFoundRefused(kind, repo.Rows(), cache.State(), req, now);
      Untouched(repo, cache, h, e, distinct);
      return;
    }
    h := ApplyToFetched(kind, repo, cache, req, now, id, amount, found.value, e, distinct);
  }

  /** The handlers from the fetched wallet on: the debit check, the update in place, `UpdateWallet` and the cache. */
  method ApplyToFetched(kind: Kind, repo: InMemory, cache: Cacher, req: UpdateRequest, now: Time,
                        id: int, amount: Money, wallet: Wallet, ghost e: Effect, ghost distinct: bool) returns (h: Handled)
    requires Admit(req) == Success(Admitted(id, amount))
    requires FirstIndex(repo.Wallets, IdIs(id)) < |repo.Wallets|
    requires wallet == repo.Wallets[FirstIndex(repo.Wallets, IdIs(id))]
    requires e == Update(kind, repo.Rows(), cache.State(), req, now) && distinct == repo.Distinct()
    modifies repo.Wallets, cache
    ensures repo.Users == old(repo.Users) && repo.Wallets == old(repo.Wallets)
    ensures Realizes(repo, cache, h, e, distinct)
  {
    ghost var rows := repo.Rows();
    ghost var state := cache.State();
    ghost var k := FirstIndex(repo.Wallets, IdIs(id));
    repo.IdIndexAgrees(id);
    assert WalletById(rows, id) == Success(wallet.Row());
    var balance := wallet.Balance + amount;
    if kind == Debit {
      var check := IsWalletBalanceGoingBelowZero(wallet.Balance, amount);
      if check.Fail? {
        h := Handled(ErrorResponse(StatusBadRequest, check.error), [GetWalletCall(id)]);
        OverdraftRefused(kind, rows, state, req, now);
        Untouched(repo, cache, h, e, distinct);
        return;
      }
      balance := wallet.Balance - amount;
    }
    assert Accepted(kind, rows, req) && balance == NewBalanceOf(kind, rows, req);
    AcceptedEffect(kind, rows, state, req, now);
    h := Commit(kind, repo, cache, now, rows, k, id, balance, wallet, distinct);
  }

  /**
   * An accepted request from the new balance on: the update in place and `UpdateWallet`, then
   * the cache's `Set` under the rendered id, a 500 when it fails and the success envelope otherwise.
   */
  method Commit(kind: Kind, repo: InMemory, cache: Cacher, now: Time,
                ghost rows: seq<WalletRow>, ghost k: nat, id: int, balance: Money, wallet: Wallet, ghost distinct: bool)
    returns (h: Handled)
    requires rows == repo.Rows() && distinct == repo.Distinct()
    requires k == FirstIndex(rows, RowIdIs(id)) && k < |rows| && repo.Wallets[k] == wallet && wallet.ID == id
    modifies repo.Wallets, cache
    ensures repo.Users == old(repo.Users) && repo.Wallets == old(repo.Wallets)
    ensures Holds(repo, WithBalance(Touch(rows, id, now), id, balance), distinct)
    ensures cache.State() == Stored(old(cache.State()), IntToString(id), Render(balance), BalanceTtl, now)
    ensures h.calls == [GetWalletCall(id), UpdateWalletCall(id, balance), CacheSetCall(IntToString(id), Render(balance), BalanceTtl)]
    ensures h.response == match Reply(old(cache.State()))
                          case Fail(err) => ErrorResponse(StatusInternalServerError, err)
                          case Pass => Response(StatusOK, Envelope(true, SuccessMessage(kind), Balance(Render(balance))))
  {
    var w := StampAndCopy(repo, rows, wallet, k, id, balance, now);
    var key := IntToString(wallet.ID);
    var value := Render(wallet.Balance);
    var stored := cache.Set(key, value, BalanceTtl, now);
    var calls := [GetWalletCall(id), UpdateWalletCall(wallet.ID, wallet.Balance), CacheSetCall(key, value, BalanceTtl)];
    var response :=
      if stored.Fail? then ErrorResponse(StatusInternalServerError, stored.error)
      else Response(StatusOK, Envelope(true, SuccessMessage(kind), Balance(Render(w.Balance))));
    h := Handled(response, calls);
  }

  /**
   * The in-place step: the fetched wallet (position `k`, the first with the id) gets the new
   * balance and the timestamp, then `UpdateWallet` copies the balance to every wallet with the
   * id. Every balance ends as the specification's rows say, and every row does when no wallet
   * object is stored twice.
   */
  method StampAndCopy(repo: InMemory, ghost rows: seq<WalletRow>, wallet: Wallet, ghost k: nat, id: int, balance: Money, now: Time)
    returns (w: Wallet)
    requires rows == repo.Rows() && k == FirstIndex(rows, RowIdIs(id)) && k < |rows|
    requires repo.Wallets[k] == wallet && wallet.ID == id
    modifies repo.Wallets
    ensures repo.Users == old(repo.Users) && repo.Wallets == old(repo.Wallets)
    ensures w == wallet && w.Balance == balance
    ensures Holds(repo, WithBalance(Touch(rows, id, now), id, balance), old(repo.Distinct()))
  {
    assert rows[k] == wallet.Row();
    wallet.Balance := balance;
    wallet.UpdatedAt := now;
    StampedRows(repo, rows, wallet, k, id, balance, now);
    w := repo.UpdateWallet(wallet);
  }

  /** `creditWalletBalance`. */
  method CreditWalletBalance(repo: InMemory, cache: Cacher, req: UpdateRequest, now: Time) returns (h: Handled)
    modifies repo.Wallets, cache
    ensures repo.Users == old(repo.Users) && repo.Wallets == old(repo.Wallets)
    ensures Realizes(repo, cache, h, Update(Credit, old(repo.Rows()), old(cache.State()), req, now), old(repo.Distinct()))
    ensures old(repo.NonNegative()) ==> repo.NonNegative()
  {
    ghost var rows := repo.Rows();
    ghost var state := cache.State();
    h := UpdateWalletBalance(Credit, repo, cache, req, now);
    if AllNonNegative(rows) {
      UpdatePreservesNonNegative(Credit, rows, state, req, now);
      repo.NonNegativeFromBalances(Update(Credit, rows, state, req, now).rows);
    }
  }

  /** `debitWalletBalance`. */
  method DebitWalletBalance(repo: InMemory, cache: Cacher, req: UpdateRequest, now: Time) returns (h: Handled)
    modifies repo.Wallets, cache
    ensures repo.Users == old(repo.Users) && repo.Wallets == old(repo.Wallets)
    ensures Realizes(repo, cache, h, Update(Debit, old(repo.Rows()), old(cache.State()), req, now), old(repo.Distinct()))
    ensures old(repo.NonNegative()) ==> repo.NonNegative()
  {
    ghost var rows := repo.Rows();
    ghost var state := cache.State();
    h := UpdateWalletBalance(Debit, repo, cache, req, now);
    if AllNonNegative(rows) {
      UpdatePreservesNonNegative(Debit, rows, state, req, now);
      repo.NonNegativeFromBalances(Update(Debit, rows, state, req, now).rows);
    }
  }

  /** `verifyWalletBelongsToUser` on the in-memory store; the wallet it hands out is the stored object. */
  method VerifyWalletBelongsToUser(repo: InMemory, auth: Payload, param: string) returns (r: Result<Wallet, Error>, calls: seq<Call>)
    ensures var o := CheckOwnership(repo.Users, repo.Rows(), auth, param);
            && calls == o.calls
            && (r.Success? <==> o.result.Success?)
            && (r.Success? ==> r.value in repo.Wallets && o.result.value == r.value.Row())
            && (r.Failure? ==> o.result == Failure(r.error))
  {
    calls := [];
    var email := GetUserIdFromContext(auth);
    if email.Failure? {
      return Failure(email.error), calls;
    }
    var user := repo.GetUserByEmail(email.value);
    calls := calls + [GetUserByEmailCall(email.value)];
    if user.Failure? {
      return Failure(user.error), calls;
    }
    var wallet := repo.GetWalletByUserID(user.value.ID);
    calls := calls + [GetWalletByUserIdCall(user.value.ID)];
    if wallet.Failure? {
      return Failure(wallet.error), calls;
    }
    var bound := BindWalletId(param);
    if bound.Failure? {
      return Failure(bound.error), calls;
    }
    if wallet.value.ID != bound.value {
      return Failure(WalletNotBelongsToUser), calls;
    }
    return Success(wallet.value), calls;
  }

  /** `getWalletBalance` on the in-memory store. */
  method GetWalletBalance(repo: InMemory, cache: Cacher, req: BalanceRequest, now: Time) returns (h: Handled)
    modifies cache
    ensures var e := ReadBalance(repo.Users, repo.Rows(), old(cache.State()), req, now);
            h == e.handled && cache.State() == e.cache
  {
    ghost var rows := repo.Rows();
    ghost var o := CheckOwnership(repo.Users, rows, req.auth, req.walletId);
    var wallet, calls := VerifyWalletBelongsToUser(repo, req.auth, req.walletId);
    if wallet.Failure? {
      return Handled(ErrorResponse(StatusBadRequest, wallet.error), calls);
    }
    var key := IntToString(wallet.value.ID);
    var value := Render(wallet.value.Balance);
    assert o.result == Success(WalletRow(wallet.value.ID, wallet.value.UUID, wallet.value.UserID, wallet.value.Balance,
                                         wallet.value.CreatedAt, wallet.value.UpdatedAt, wallet.value.DeletedAt));
    var stored := cache.Set(key, value, BalanceTtl, now);
    assert repo.Rows() == rows;
    calls := calls + [CacheSetCall(key, value, BalanceTtl)];
    var response :=
      if stored.Fail? then ErrorResponse(StatusInternalServerError, stored.error)
      else Response(StatusOK, Envelope(true, "", Balance(value)));
    h := Handled(response, calls);
  }

  /** The balance route: `CacheMiddleware` and then, on a miss, `getWalletBalance`. */
  method BalanceRoute(repo: InMemory, cache: Cacher, req: BalanceRequest, now: Time) returns (h: Handled)
    modifies cache
    ensures var e := RouteBalance(repo.Users, repo.Rows(), old(cache.State()), req, now);
            h == e.handled && cache.State() == e.cache
  {
    var got := cache.Get(req.walletId, now);
    var get := [CacheGetCall(req.walletId)];
    match Decide(got) {
      case Abort(response) =>
        return Handled(response, get);
      case Next =>
        var read := GetWalletBalance(repo, cache, req, now);
        return Handled(read.response, get + read.calls);
    }
  }
}
