# Wallet ledger

A model of the core of `qgdc`, a small HTTP wallet service written in Go. Users sign up, log in and receive a token. With that token they read the balance of their wallet, or credit and debit any wallet by id. The service keeps:

- users and wallets in a repository. The modelled backend is the in-memory one, which holds two ordered collections;
- recently served balances in a key-value cache with a time to live, consulted by a middleware in front of the balance route.

At start-up the entry point (cmd/web/main.go) selects a storage backend from `CURRENT_STORAGE`, opens and migrates it unless it is the in-memory backend (the default, and the one modelled, which skips both), and then seeds it. The configuration routine `util.CheckEnv` is modelled as well, although that entry point does not call it. When `DEBUG` is not "true", the routine loads a `.env` file into the environment in dev or test mode only, then checks the required variables of the mode.

The model has these modules:

- `Wrappers`: `Option`, `Result` and `Outcome` (an error or nothing).
- `Errors`: every error value and its text, including `DBError`.
- `Numerals`: the decimal rendering and parsing of 64-bit integers, as `%d` and the URI binder use them.
- `Money`: balances as whole cents, and the rendering `decimal.Decimal.String()` gives them.
- `Models`: the entities. A user is a value. A wallet is an object, because the handlers change the stored wallet through the reference the store hands out.
- `Seqs`: the front-to-back search every lookup loop performs.
- `InMemoryStore`: the in-memory repository, a class over `seq` fields. Each loop method is proved against a function on values.
- `Cache`: the cache contract, as a value (`CacheState`) and as a class (`Cacher`).
- `Server`: statuses, response bodies, and the calls a handler makes on its collaborators.
- `CacheMiddleware`: the hit, miss and error decision of the balance middleware.
- `WalletHandlers`: the credit, debit and balance handlers. Each is a function from the wallets and the cache to the response, the calls made and the new state. The module also holds the lemmas about them.
- `WalletServer`: the same handlers carried out in place on an `InMemory` store and a `Cacher`, each proved to realise its function.
- `UserHandlers`: signup, login and the user listing, as functions and as methods on the store.
- `Database`: backend selection and the startup sequence.
- `Config`: the `.env` loader and the required-variable check, as functions and as methods of an `Environment` class.

## Model

| member | source | states |
|---|---|---|
| Errors.Text | util/errors.go:7-19 | a database error's text is its `DBError` rendering, a binding or foreign error keeps the text it carries, and every sentinel's text is non-empty; the sentinels' exact texts are stated by NotFoundSentinelsDistinct |
| Errors.InnerText | util/errors.go:17-19 | a nil inner error prints as `<nil>` under `%v`, and any other as its text |
| Errors.DBErrorText | util/errors.go:17-19 | the text's length is the summary's, plus two, plus the inner error's |
| Errors.DBErrorTextParts | util/errors.go:17-19 | the text is the summary, then ": ", then the inner error's text (`<nil>` for none) |
| Errors.NewCreateSchemaError | util/errors.go:23-28 | the summary is "failed creating schema resources" and the inner error is kept |
| Errors.NewConnectionError | util/errors.go:32-37 | the summary is "failed opening connection to database" and the inner error is kept |
| Errors.NewCreateFKError | util/errors.go:41-46 | the summary is "failed creating foreign key constraint" and the inner error is kept |
| Errors.DBErrorKindsDistinguishable | util/errors.go:21-46 | the three constructors keep the inner error, and texts of different kinds differ whatever their inner errors |
| Errors.SummaryDecides | util/errors.go:17-19 | two database errors whose summaries differ at a common position have different texts |
| Errors.NotFoundSentinelsDistinct | util/errors.go:7-10 | the two not-found sentinels are distinct values with the texts "user not found" and "wallet not found" |
| Numerals.NatToString | internal/server/wallet.go:39 | the rendering is non-empty, all digits, and has no leading zero except for 0 itself |
| Numerals.DigitsValueOfNatToString | internal/server/wallet.go:39 | the rendering of n reads back as n |
| Numerals.NatToStringInjective | internal/server/wallet.go:39 | different numbers render differently |
| Numerals.IntToString | internal/server/wallet.go:39 | the `%d` rendering is non-empty and starts with '-' exactly for negative numbers |
| Numerals.ParseInt64 | internal/server/wallet.go:25-27 | every parsed value lies in the 64-bit range |
| Numerals.ParseInt64OfIntToString | internal/server/wallet.go:25-39 | every 64-bit integer's `%d` rendering parses back to it |
| Numerals.NonCanonicalTextsParse | internal/middleware/cache.go:16-17 | "07" and "+7" parse to 7, yet differ from the rendering "7" |
| Money.Render | internal/server/wallet.go:45 | a rendering is never empty and starts with '-' for a negative amount; the round trip, injectivity and the sign in both directions are stated by ParseRender, RenderInjective and RenderSign |
| Money.Parse | internal/server/wallet.go:45 | a text parses to no positive amount when it starts with '-', and to no negative one otherwise; ParseRender makes it the inverse of Render |
| Money.FractionText | internal/server/wallet.go:45 | the fraction is empty for whole amounts, otherwise a point and one or two digits |
| Money.ParseRender | internal/server/wallet.go:45 | every rendered balance parses back to the same amount |
| Money.RenderInjective | internal/server/wallet.go:45 | different amounts render differently |
| Money.RenderSign | internal/server/wallet.go:45 | a rendering is non-empty and starts with '-' exactly for negative amounts |
| Models.Join | internal/database/inmemory.go:65-77 | the listing entry has the user's id and email, and the wallet's id and balance |
| Seqs.FirstIndex | internal/database/inmemory.go:28-33 | the result is the position of the first match, or the length when none matches |
| Seqs.FirstIndexMiss | internal/database/inmemory.go:28-33 | the search misses exactly when no element matches |
| Seqs.FirstIndexAgrees | internal/database/inmemory.go:49-56 | sequences that match at the same positions have their first match at the same place |
| Cache.Lookup | internal/cache/cache.go:9-14 | a hit returns the live stored value, a missing or expired key gives `ErrNil`, and an outage gives its error |
| Cache.Reply | internal/cache/cache.go:15-16 | a call fails exactly while the backend is down |
| Cache.Stored | internal/cache/cache.go:15 | with the backend up, the key holds the value, expiring TTL seconds from now or never for a zero TTL; with it down nothing changes; OtherKeysUnaffected and ReadAfterSet state the rest |
| Cache.Removed | internal/cache/cache.go:16 | with the backend up the key is gone; with it down nothing changes |
| Cache.ReadAfterSet | internal/cache/cache.go:14-15 | a value stored with a TTL reads back until the TTL has passed and misses afterwards |
| Cache.OtherKeysUnaffected | internal/cache/cache.go:14-16 | storing or deleting one key leaves every other key's answer unchanged |
| Cache.DeleteThenMiss | internal/cache/cache.go:16 | a deleted key misses |
| Cache.Cacher.Get | internal/cache/cache.go:14 | the answer is the lookup on the current state |
| Cache.Cacher.Set | internal/cache/cache.go:15 | the new state stores the value with its TTL, and the reply is the backend's |
| Cache.Cacher.Delete | internal/cache/cache.go:16 | the new state lacks the key, and the reply is the backend's |
| CacheMiddleware.Decide | internal/middleware/cache.go:16-29 | the next handler runs exactly on `ErrNil`; any other error is a 500 with the raw error; a hit is a 200 with the cached balance |
| CacheMiddleware.RedisGetAsWritten | internal/cache/redis_cache.go:51-57 | a miss is reported as success with the empty string, a stored value as success with that value, and any other client error is passed on as the failure |
| CacheMiddleware.RedisMissAnsweredAsHit | internal/cache/redis_cache.go:51-57 | with that client a miss is answered 200 with an empty balance and the handler never runs; another client error is answered 500 |
| Server.ErrorResponse | internal/server/server.go:58-64 | the body carries the error's text under the given status |
| InMemoryStore.SeedUsers | internal/database/inmemory.go:128-145 | seeding makes ten users with ids 1 to 10 in order |
| InMemoryStore.SeedRows | internal/database/inmemory.go:147-160 | seeding makes ten wallets with ids 1 to 10, each owned by the user with the same id, with non-negative balances |
| InMemoryStore.SeedIfEmpty | internal/database/inmemory.go:127-161 | a non-empty collection is kept as it is and an empty one takes the seed data; SeedIdempotent states that a second seeding changes nothing |
| InMemoryStore.SeedIdempotent | internal/database/inmemory.go:127-161 | seeding a collection that seeding already filled changes nothing |
| InMemoryStore.UserByEmail | internal/database/inmemory.go:27-34 | the first user with the email, or `ErrUserNotFound` exactly when no user has it |
| InMemoryStore.WalletById | internal/database/inmemory.go:36-43 | the first wallet with the id, or `ErrWalletNotFound` exactly when none has it |
| InMemoryStore.WalletByUserId | internal/database/inmemory.go:49-56 | the first wallet the user owns, or `ErrWalletNotFound` exactly when the user owns none |
| InMemoryStore.JoinUsers | internal/database/inmemory.go:58-81 | the join fails only with `ErrWalletNotFound`, and otherwise has one entry per user |
| InMemoryStore.JoinUsersMeaning | internal/database/inmemory.go:58-81 | the join succeeds exactly when every user has a wallet; entry i then joins user i with their first wallet |
| InMemoryStore.WithBalance | internal/database/inmemory.go:94-102 | every wallet with the id takes the balance, and every other wallet is unchanged |
| InMemoryStore.RemoveAll | internal/database/inmemory.go:104-112 | the result is no longer than the input and holds no matching element |
| InMemoryStore.RemoveAllKeeps | internal/database/inmemory.go:104-112 | an element survives exactly when it was present and does not match |
| InMemoryStore.RemoveAllAppend | internal/database/inmemory.go:104-112 | removal distributes over concatenation, so the survivors keep their order |
| InMemoryStore.RemoveAllNone | internal/database/inmemory.go:104-112 | with no match nothing is removed |
| InMemoryStore.DeleteStep | internal/database/inmemory.go:104-112 | one pass of the range loop over the original backing array never leaves more elements than the current length; with no further match it returns the current slice (DeleteStepNoMoreMatches) |
| InMemoryStore.DeleteAsWritten | internal/database/inmemory.go:104-112 | the splice loop as written never grows the collection; its meaning is stated by DeleteAsWrittenUnique and DeleteAsWrittenDuplicates |
| InMemoryStore.DeleteAsWrittenUnique | internal/database/inmemory.go:104-112 | with at most one match, the splice-while-ranging loop removes exactly the matching element |
| InMemoryStore.DeleteAsWrittenDuplicates | internal/database/inmemory.go:104-112 | with two adjacent matches the loop keeps the second; with a match in the last slot after a deletion it panics |
| InMemoryStore.SeededWalletOfUser | internal/database/inmemory.go:149-158 | after seeding an empty store, user i's wallet is the wallet with id i, for i from 1 to 10 |
| InMemoryStore.SeededNonNegative | internal/database/inmemory.go:147-160 | seeded balances are non-negative |
| InMemoryStore.InMemory.constructor | internal/database/inmemory.go:19-24 | a new store has no users and no wallets |
| InMemoryStore.InMemory.Rows | internal/database/inmemory.go:12-15 | the wallets as values, position by position |
| InMemoryStore.InMemory.NonNegativeFromBalances | internal/database/inmemory.go:12-15 | stored balances equal to non-negative values are non-negative |
| InMemoryStore.InMemory.GetUserByEmail | internal/database/inmemory.go:27-34 | the loop returns the first user with the email, or `ErrUserNotFound` |
| InMemoryStore.InMemory.GetWallet | internal/database/inmemory.go:36-43 | the loop returns the stored wallet object first with the id, or `ErrWalletNotFound` |
| InMemoryStore.InMemory.GetAllWallets | internal/database/inmemory.go:45-47 | the whole collection, with no error |
| InMemoryStore.InMemory.GetWalletByUserID | internal/database/inmemory.go:49-56 | the loop returns the stored wallet first owned by the user, or `ErrWalletNotFound` |
| InMemoryStore.InMemory.GetAllUsers | internal/database/inmemory.go:58-81 | the loop computes the user-wallet join |
| InMemoryStore.InMemory.CreateUser | internal/database/inmemory.go:84-87 | the user is appended, with no uniqueness check and no error |
| InMemoryStore.InMemory.CreateWallet | internal/database/inmemory.go:89-92 | the wallet is appended and its id returned |
| InMemoryStore.InMemory.UpdateWallet | internal/database/inmemory.go:94-102 | only the balance of each wallet with the id changes; the collection and the argument are otherwise unchanged |
| InMemoryStore.InMemory.DeleteWallet | internal/database/inmemory.go:104-112 | the new collection is what the splice-while-ranging loop leaves, or the loop panics; users are untouched |
| InMemoryStore.InMemory.DeleteWalletUnique | internal/database/inmemory.go:104-112 | with unique ids, deleting removes exactly the wallet with the id and keeps the others in order |
| InMemoryStore.InMemory.Open | internal/database/inmemory.go:115-117 | opening always succeeds |
| InMemoryStore.InMemory.Close | internal/database/inmemory.go:119-121 | closing always succeeds |
| InMemoryStore.InMemory.CreateTables | internal/database/inmemory.go:123-125 | creating tables always succeeds |
| InMemoryStore.InMemory.Seed | internal/database/inmemory.go:127-161 | each collection gets the seed data if it is empty and is otherwise unchanged |
| WalletHandlers.GetUserIdFromContext | internal/server/wallet.go:193-203 | a missing payload and a foreign payload give their two errors; a token payload gives its email |
| WalletHandlers.BindWalletId | internal/server/wallet.go:25-27 | the path text binds exactly when it parses as a 64-bit integer of at least 1 |
| WalletHandlers.BindCanonical | internal/server/wallet.go:25-27 | the canonical rendering of every valid id binds to that id |
| WalletHandlers.ValidateRequestAmount | internal/server/wallet.go:149-154 | an amount is refused with `ErrInvalidAmount` exactly when it is not positive |
| WalletHandlers.IsWalletBalanceGoingBelowZero | internal/server/wallet.go:158-163 | a debit is refused with `ErrInsufficientBalance` exactly when it would leave a negative balance |
| WalletHandlers.NextBalance | internal/server/wallet.go:80-129 | a credit adds the amount; a debit subtracts it, and fails exactly when the result would be negative |
| WalletHandlers.Touch | internal/server/wallet.go:80-81 | stamping keeps the number of wallets |
| WalletHandlers.TouchAt | internal/server/wallet.go:80-81 | only the first wallet with the id takes the new time |
| WalletHandlers.Admit | internal/server/wallet.go:58-73 | a request is admitted exactly when the id binds, the body binds and the amount is positive; the first failing check gives the error |
| WalletHandlers.Update | internal/server/wallet.go:58-146 | a credit or debit keeps the number of wallets |
| WalletHandlers.RejectedChangesNothing | internal/server/wallet.go:58-126 | a refused request changes neither the store nor the cache; one refused before the lookup makes no call |
| WalletHandlers.AdmitRefused | internal/server/wallet.go:59-73 | a request that fails binding or validation is a 400 with that error, and makes no call |
| WalletHandlers.NotFoundRefused | internal/server/wallet.go:75-79 | an unknown wallet id is a 500 with `ErrWalletNotFound`, after one `GetWallet` call |
| WalletHandlers.OverdraftRefused | internal/server/wallet.go:121-126 | only a debit larger than the balance reaches the balance check's refusal, a 400 with `ErrInsufficientBalance` |
| WalletHandlers.AcceptedEffect | internal/server/wallet.go:80-96 | an accepted request makes the three calls in order, moves the balance, stamps the wallet, stores the rendered balance for 100 seconds, and answers 200, or 500 when the cache is down |
| WalletHandlers.UpdateTouchesOnlyBalanceAndTime | internal/server/wallet.go:80-83 | a credit or debit changes only the balance and the update time, and only of wallets with the request's id |
| WalletHandlers.UpdatePreservesNonNegative | internal/server/wallet.go:121-130 | credits and debits keep every balance non-negative |
| WalletHandlers.Replay | internal/server/wallet.go:58-146 | a sequence of credits and debits keeps the number of wallets |
| WalletHandlers.ReplayPreservesNonNegative | internal/server/wallet.go:99-146 | every sequence of credits and debits keeps every balance non-negative |
| WalletHandlers.UpdateKeepsCacheNonNegative | internal/server/wallet.go:58-146 | from non-negative stored balances, a credit or debit caches only renderings that are non-empty and do not start with '-' |
| WalletHandlers.ReplayKeepsCacheNonNegative | internal/server/wallet.go:58-146 | from non-negative balances in the store and the cache, every sequence of credits and debits leaves no negative balance in either |
| WalletHandlers.FirstWithIdAfterUpdate | internal/server/wallet.go:80-83 | after the write-back, the wallet found by id has the new balance and time |
| WalletHandlers.CreditThenDebitRestores | internal/server/wallet.go:58-146 | a credit followed by a debit of the same amount is accepted and restores the balance |
| WalletHandlers.AcceptedReadsBack | internal/server/wallet.go:80-83 | after an accepted request, the wallet found by id is the old one with the new balance and time |
| WalletHandlers.CheckOwnership | internal/server/wallet.go:166-190 | a wallet it hands out is a stored wallet whose id the path binds to, and it makes at most the two lookups GetUserByEmail and GetWalletByUserID; OwnershipMeaning states both directions |
| WalletHandlers.OwnershipMeaning | internal/server/wallet.go:166-190 | the wallet is returned exactly when the token names a user, that user owns a wallet, and the path binds to its id; a different id gives `ErrWalletNotBelongsToUser` |
| WalletHandlers.UpdateSkipsOwnership | internal/server/wallet.go:58-146 | credit and debit never look up the caller or the caller's wallet |
| WalletHandlers.ReadBalance | internal/server/wallet.go:33-48 | a balance read leaves the wallets unchanged |
| WalletHandlers.RouteBalance | internal/server/server.go:46 | the balance route, middleware included, leaves the wallets unchanged |
| WalletHandlers.HitBypassesOwnership | internal/middleware/cache.go:23-28 | a cache hit is answered from the cache with one call, whichever authenticated user asks |
| WalletHandlers.CacheErrorAborts | internal/middleware/cache.go:20-22 | a cache error other than a miss is a 500 carrying the raw error |
| WalletHandlers.MissRunsHandler | internal/middleware/cache.go:18-19 | the handler runs exactly on a miss, after the cache lookup |
| WalletHandlers.ReadAfterUpdateHits | internal/server/wallet.go:88 | after an accepted credit or debit, a read of the canonical id within the TTL is a hit with the new balance |
| WalletHandlers.RouteKeepsCacheNonNegative | internal/server/wallet.go:33-47 | a balance read, answered from the cache or by the handler, shows and caches no negative balance when the store and the cache hold none |
| WalletHandlers.ReadRefused | internal/server/wallet.go:34-37 | a read the ownership check refuses is a 400 with the check's error, makes only the check's lookups and no cache Set, and changes neither store nor cache |
| WalletHandlers.ReadAfterReadHits | internal/server/wallet.go:39 | after a successful read, a read of the same text within the TTL is a hit with the same balance |
| WalletHandlers.LeadingZeroMisses | internal/middleware/cache.go:16-17 | "07" binds to wallet 7, but an update under it caches "7", so a read of "07" still misses |
| WalletHandlers.Untouched | internal/server/wallet.go:58-146 | an unchanged store and cache realise an effect that changes nothing |
| WalletHandlers.StampedRows | internal/server/wallet.go:80-83 | stamping and setting the fetched wallet, then writing its balance to every wallet with the id, gives the specified wallets |
| WalletServer.UpdateWalletBalance | internal/server/wallet.go:58-146 | the credit or debit handler realises its specification on the store and the cache |
| WalletServer.FetchAndApply | internal/server/wallet.go:75-79 | from the lookup on, the handler realises its specification |
| WalletServer.ApplyToFetched | internal/server/wallet.go:80-130 | from the fetched wallet on, the handler realises its specification |
| WalletServer.Commit | internal/server/wallet.go:83-96 | the write-back, cache store, calls and response are those specified |
| WalletServer.StampAndCopy | internal/server/wallet.go:80-83 | the wallet takes the balance and time, and the store holds the specified wallets |
| WalletServer.CreditWalletBalance | internal/server/wallet.go:58-97 | `creditWalletBalance` realises its specification and keeps balances non-negative |
| WalletServer.DebitWalletBalance | internal/server/wallet.go:99-146 | `debitWalletBalance` realises its specification and keeps balances non-negative |
| WalletServer.VerifyWalletBelongsToUser | internal/server/wallet.go:166-190 | the loop-based check returns the stored wallet exactly when the ownership specification does, with the same calls and error |
| WalletServer.GetWalletBalance | internal/server/wallet.go:33-48 | `getWalletBalance` makes the specified response, calls and cache change |
| WalletServer.BalanceRoute | internal/server/server.go:46 | the balance route, middleware then handler, makes the specified response, calls and cache change |
| UserHandlers.NewUser | internal/server/user.go:51-56 | the new user carries the request's name, email and password and the hash, and no id |
| UserHandlers.Signup | internal/server/user.go:28-69 | a user is created only when binding succeeds, the lookup fails with `ErrUserNotFound` and hashing succeeds, and then it is the new user; the answer is 201 exactly when it was stored |
| UserHandlers.SignupAsWritten | internal/server/user.go:28-69 | createUser as written: it creates only after ErrUserNotFound, and a found user is answered by a bodiless 500 after the one lookup |
| UserHandlers.ExistingEmailPanics | internal/server/user.go:35-43 | for an existing email the code as written answers a bodiless 500 and the corrected code a 400 with `ErrUserAlreadyExists`; neither creates a user |
| UserHandlers.SignupAgreesUnlessFound | internal/server/user.go:35-39 | the two versions agree whenever binding fails or the lookup fails |
| UserHandlers.NoDuplicateEmail | internal/server/user.go:35-43 | on the in-memory store the "already exists" answer is given exactly for present emails, which are never inserted again |
| UserHandlers.Login | internal/server/user.go:76-119 | login answers 200 exactly when binding, lookup, password check, duration and token all succeed |
| UserHandlers.UnknownEmailLooksLikeBadPassword | internal/server/user.go:83-96 | an unknown email and a wrong password give the same 400 with `ErrInvalidCredentials` and the same calls |
| UserHandlers.LoginLookupErrors | internal/server/user.go:83-91 | every lookup error other than `ErrUserNotFound` is a 500 with that error |
| UserHandlers.TokenSubjectIsStoredEmail | internal/server/user.go:107-118 | the token is made for the stored user's email and the configured duration, and is the one returned |
| UserHandlers.ListUsers | internal/server/user.go:121-131 | the listing is returned unchanged with 200, or its error with 500, after one call |
| UserHandlers.ListingOfStore | internal/server/user.go:121-131 | on the in-memory store the listing has one entry per user with their first wallet, or is a 500 with `ErrWalletNotFound` |
| UserHandlers.CreateUser | internal/server/user.go:28-69 | the corrected signup on the store: the response is the specified one, and the user is appended exactly when it is created |
| UserHandlers.LoginUser | internal/server/user.go:76-119 | login on the store gives the specified response and calls |
| UserHandlers.GetUsers | internal/server/user.go:121-131 | the listing on the store is the specified one |
| Database.RepoToBeUsed | internal/database/database.go:81-94 | "mysql" and "filesystem" select those backends, and every other string, "" included, selects the in-memory one |
| Database.StartupOf | internal/database/database.go:58-79 | other backends are opened, then migrated, and either failure is fatal before anything later; the in-memory backend skips both; a successful startup seeds once, last, and returns the selected backend |
| Database.InMemorySkipsSetup | internal/database/database.go:63-64 | the in-memory backend is never opened or migrated |
| Database.NewRepository | internal/database/database.go:58-79 | the startup is the specified one, and the in-memory store comes back seeded, with no wallet object stored twice |
| Config.Getenv | util/config.go:49 | an unset variable reads as "" |
| Config.Settable | util/config.go:95 | an accepted assignment has a non-empty key without '=' or NUL, and a value without NUL, as `os.Setenv` requires |
| Config.Setenv | util/config.go:95 | an accepted assignment sets the key, a refused one leaves the environment exactly as it was, and no other key changes |
| Config.ParseLine | util/config.go:84-95 | empty and comment lines are skipped; a line is invalid exactly when it has no '='; otherwise it splits at the first '=' with no trimming, and `ENV` is never assigned |
| Config.ParseAssignment | util/config.go:87-95 | a key without '=' followed by '=' and any value, '=' included, assigns that value unchanged |
| Config.ParseEnvKeySkipped | util/config.go:92-94 | an `ENV=` line is skipped |
| Config.Apply | util/config.go:81-96 | loading never changes `ENV`, and panics exactly when some line is invalid |
| Config.ApplyAppend | util/config.go:81-96 | lines are applied in order: loading a + b is loading a and then, unless it stopped, b |
| Config.ApplyKeepsKey | util/config.go:81-96 | lines that are valid and do not assign a key leave it unchanged |
| Config.LastAssignmentWins | util/config.go:81-96 | the last assignment to a key wins |
| Config.InvalidLineStops | util/config.go:88-90 | an invalid line stops loading with its message, having applied only the lines before it |
| Config.LoadFile | util/config.go:73-97 | a file that cannot be opened panics with the open error; otherwise its lines are applied |
| Config.Missing | util/config.go:47-52 | at most one message per key |
| Config.MissingMembers | util/config.go:47-52 | a key's message is present exactly when the key is required and unset or empty |
| Config.MissingEmptyWhenAllSet | util/config.go:47-52 | there is no message exactly when every key is set to something non-empty |
| Config.MissingMessages | util/config.go:47-65 | outside dev mode only the base list is checked; prod adds nothing, since its list is empty |
| Config.DevMissingPortTwice | util/config.go:10-58 | in dev mode a missing `PORT` is reported by both lists |
| Config.Join | util/config.go:66-68 | no parts join to "", one part to itself, and more parts to the first, the separator, then the join of the rest |
| Config.JoinLength | util/config.go:66-68 | a join of n ≥ 1 parts is as long as the parts together plus n − 1 separators |
| Config.CheckEnvSpec | util/config.go:33-69 | `DEBUG`="true" returns at once; in dev or test mode a missing `.env` panics; an unreadable `.env` panics with its error, and an invalid line with the loader's message; in every mode, once loading has passed, the check panics exactly when a message was collected in the resulting environment, with the messages joined by newlines |
| Config.DevFileSatisfies | util/config.go:38-68 | in dev mode a `.env` file that sets every required variable passes the check |
| Config.Environment.Get | util/config.go:49 | reads the variable as `os.Getenv` does |
| Config.Environment.Set | util/config.go:95 | assigns the variable as `os.Setenv` does, and says whether it was accepted |
| Config.Environment.SetEnvFromFile | util/config.go:73-97 | the scanner loop leaves the environment and the panic the loader specifies |
| Config.Environment.CollectMissing | util/config.go:47-52 | the loop collects the messages for the keys of one list that are missing |
| Config.Environment.CheckEnv | util/config.go:33-69 | the environment and the panic after `CheckEnv` are the specified ones |

## Left out

- Redis, MySQL and the file-system backend: only the cache contract and the in-memory repository are modelled. The other backends appear only through the outcomes of their `Open` and `CreateTables` calls. MySQL's `GetWalletByUserID`, which returns the raw driver error, is not part of this model. The file-system backend is a stub whose reads return nothing.
- Floating point: request amounts are `float64` converted with `decimal.NewFromFloat`. Here they are whole cents, so amounts below a cent and the float-to-decimal rounding are not modelled. Seeded balances (`decimal.NewFromFloat(rand.Float64()*1000)`) are whole cents here too, so `Money.Render` does not give the Go rendering of a seeded balance, which has many more fraction digits.
- InMemoryStore.JoinUsers: for an empty store, Go's `GetAllUsers` returns a nil slice, which the JSON writer renders as `null`. Here the listing is the empty sequence, and the difference between `null` and `[]` in the response is not modelled.
- Cache.CacheState: the backend is up or down for a whole request, so every cache call of that request fails alike. A miss followed by a failing `Set` (getWalletBalance's 500 at internal/server/wallet.go:39-43 after the middleware's `ErrNil`) is therefore reached only in the degenerate case where the outage error is `ErrNil` itself; a per-call outcome is not represented.
- Concurrency: handlers run one at a time. Races between requests on the shared slices and the cache are not modelled.
- Clocks, randomness, bcrypt, the token maker, `os.Getenv("ACCESS_TOKEN_DURATION")` with `time.ParseDuration`, and JSON and URI binding: these become parameters. A clock reading is a `Time`. Seed data is a `SeedSource`. Hashing, password checking and token making are functions passed in. Binding results are `Result` values.
- The binder's and validator's error texts are stand-in strings, since the framework that produces them is not part of this model.
- The `.env` file is given as its lines. The scanner's splitting at newlines, its removal of '\r', its line-length limit and its ignored read error are not modelled. `fmt.Println` output is left out.
- `log.Fatal` and `panic` are modelled as a message that ends the run. The process exit, and the framework's recovery beyond answering a bodiless 500, are not modelled.
- A `RawError` body stands for an error value handed to the JSON writer. Its JSON encoding is not modelled.
- In-memory `UpdateWallet` never fails, so the 500 branch after it in the credit and debit handlers is unreachable on this store. It is not modelled.
- The `user != nil` branch of `createUser` (internal/server/user.go:40-43) cannot be reached as written. The corrected `Signup` puts its answer on the lookup-success path instead.
- `GetCurrentCache`, `NewRedisCacheClient`, the logging middleware and the authentication middleware are left out. The authentication middleware appears only through the payload it leaves.
- WalletServer.UpdateWalletBalance: the new update times are stated only when no wallet object is stored twice (`InMemory.Distinct()`); duplicate ids held by different objects are fully covered. When one object sits at two positions, the contract states the balances and the number of wallets, but not which position carries the new time. The seeded store `Database.NewRepository` returns has `Distinct()`.

## Findings

| source | as written | input that shows it | evidently intended | confidence | as-written member | corrected member |
|---|---|---|---|---|---|---|
| internal/server/user.go:35-43 | any lookup result other than `ErrUserNotFound` goes to `errorResponse(err)`; for an existing email `err` is nil, `err.Error()` panics, and the recovery answers a bodiless 500 | signup with an email already in the store | a 400 with "user already with this email exists" | not executed | UserHandlers.SignupAsWritten, UserHandlers.ExistingEmailPanics | UserHandlers.Signup, UserHandlers.NoDuplicateEmail |
| internal/database/inmemory.go:104-112 | `DeleteWallet` splices the slice while ranging over it: of two adjacent wallets with the id only the first is removed, and a match in the last slot after a deletion slices past the end and panics | wallets with ids [1, 1, 2], delete 1: [1, 2] remains; ids [1, 1]: panic | every wallet with the id removed and the rest kept in order | not executed | InMemoryStore.DeleteAsWritten, InMemoryStore.DeleteAsWrittenDuplicates | InMemoryStore.RemoveAll, InMemoryStore.RemoveAllKeeps |
| internal/cache/redis_cache.go:51-57 | the Redis client turns a missing key into `("", nil)`, so the middleware's `ErrNil` branch never runs and a miss is answered 200 with an empty balance | a balance read of a wallet whose balance is not cached | a miss reported as `ErrNil`, so the balance handler runs | not executed | CacheMiddleware.RedisGetAsWritten, CacheMiddleware.RedisMissAnsweredAsHit | Cache.Lookup, WalletHandlers.MissRunsHandler |

In-memory `DeleteWallet` is kept as written. `InMemoryStore.InMemory.DeleteWalletUnique` proves that it agrees with the corrected removal whenever ids are unique. The handlers and the balance route use the corrected cache contract.
