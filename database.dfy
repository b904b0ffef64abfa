/**
 * Backend selection and the startup sequence of `NewRepository`. The MySQL and file-system
 * backends are foreign: only the outcomes of their `Open` and `CreateTables` calls are seen.
 */
module Database {
  import opened Wrappers
  import opened Errors
  import opened Models
  import opened InMemoryStore

  /** The three `Repository` implementations. */
  datatype Backend = MySQL | FileSystem | InMemoryBackend

  /** `getRepoToBeUsed`: "mysql" and "filesystem" select those backends, every other string the in-memory one. */
  function RepoToBeUsed(storage: string): (b: Backend)
    ensures b == MySQL <==> storage == "mysql"
    ensures b == FileSystem <==> storage == "filesystem"
    ensures b == InMemoryBackend <==> storage != "mysql" && storage != "filesystem"
  {
    if storage == "mysql" then MySQL
    else if storage == "filesystem" then FileSystem
    else InMemoryBackend
  }

  /** A lifecycle call `NewRepository` makes on the selected backend. */
  datatype LifecycleCall = OpenCall | CreateTablesCall | SeedCall

  /**
   * How startup ends: with the selected backend returned, or with `log.Fatal` ending the
   * process with a message. Either way, the lifecycle calls made, in order.
   */
  datatype Startup = Started(backend: Backend, calls: seq<LifecycleCall>)
                   | Fatal(message: string, calls: seq<LifecycleCall>)

  /**
   * `NewRepository` given what the backend's `Open` and `CreateTables` answer. A backend
   * other than the in-memory one is opened and then migrated, and a failure of either stops
   * the process before anything later; the in-memory backend skips both. Every startup that
   * gets through calls `Seed` once, last, and returns the selected backend.
   */
  function StartupOf(b: Backend, open: Outcome<Error>, createTables: Outcome<Error>): (s: Startup)
    ensures b == InMemoryBackend ==> s == Started(b, [SeedCall])
    ensures s.Started? <==> b == InMemoryBackend || (open == Pass && createTables == Pass)
    ensures s.Started? ==> s.backend == b && |s.calls| > 0 && s.calls[|s.calls| - 1] == SeedCall && multiset(s.calls)[SeedCall] == 1
    ensures s.Fatal? ==> SeedCall !in s.calls
    ensures CreateTablesCall in s.calls ==> OpenCall in s.calls && open == Pass
    ensures b != InMemoryBackend && open.Fail? ==>
              s == Fatal("cannot connect to db:" + Text(open.error), [OpenCall])
    ensures b != InMemoryBackend && open == Pass && createTables.Fail? ==>
              s == Fatal("cannot create tables:" + Text(createTables.error), [OpenCall, CreateTablesCall])
  {
    if b == InMemoryBackend then Started(b, [SeedCall])
    else
      match open
      case Fail(err) => Fatal("cannot connect to db:" + Text(err), [OpenCall])
      case Pass =>
        match createTables
        case Fail(err) => Fatal("cannot create tables:" + Text(err), [OpenCall, CreateTablesCall])
        case Pass => Started(b, [OpenCall, CreateTablesCall, SeedCall])
  }

  /** Whatever the in-memory backend's lifecycle calls would answer, they are not made. */
  lemma InMemorySkipsSetup(storage: string, open: Outcome<Error>, createTables: Outcome<Error>)
    requires storage != "mysql" && storage != "filesystem"
    ensures var s := StartupOf(RepoToBeUsed(storage), open, createTables);
            s.Started? && OpenCall !in s.calls && CreateTablesCall !in s.calls
  {
  }

  /**
   * `NewRepository` carried out. The foreign backends appear only through the answers their
   * lifecycle calls give; the in-memory one is built and seeded, and handed back.
   */
  method NewRepository(storage: string, open: Outcome<Error>, createTables: Outcome<Error>, src: SeedSource, now: Time)
    returns (s: Startup, store: Option<InMemory>)
    ensures s == StartupOf(RepoToBeUsed(storage), open, createTables)
    ensures store.Some? <==> RepoToBeUsed(storage) == InMemoryBackend
    ensures store.Some? ==> && fresh(store.value)
                            && store.value.Users == SeedUsers(src, now)
                            && store.value.Rows() == SeedRows(src, now)
                            && store.value.Distinct()
  {
    var db := RepoToBeUsed(storage);
    var calls: seq<LifecycleCall> := [];
    if db != InMemoryBackend {
      calls := calls + [OpenCall];
      if open.Fail? {
        return Fatal("cannot connect to db:" + Text(open.error), calls), None;
      }
      calls := calls + [CreateTablesCall];
      if createTables.Fail? {
        return Fatal("cannot create tables:" + Text(createTables.error), calls), None;
      }
    }
    calls := calls + [SeedCall];
    if db == InMemoryBackend {
      var m := new InMemory();
      m.Seed(src, now);
      // seeded wallets have distinct ids, so they are distinct objects
      assert forall j, k :: 0 <= j < k < |m.Wallets| ==> m.Rows()[j].id != m.Rows()[k].id;
      store := Some(m);
    } else {
      store := None;
    }
    s := Started(db, calls);
  }
}
