# Bank of Anthos read services, user service and generated codecs

This project models, in Dafny, the sequential core of the Bank of Anthos
example shipped with Service Weaver:

- the read-only ledger queries the ledger reader polls (`LatestTransactionID`,
  `FindLatest`);
- the balance reader: its authoritative balance query (`findBalance`, with
  SQL's NULL rules), its loading cache, and the observer that applies each new
  ledger transaction to cached balances as a delta;
- the transaction history service: its authoritative query
  (`findForAccount`), its expiring loading cache, and the observer that
  prepends each new transaction to cached histories and truncates them to the
  history limit;
- the generated wire codecs of `Transaction`, `TransactionWithID` and
  `Contact`, the nil-aware `[]Contact` codec, the `Contact` size function and
  the contacts server's method dispatch;
- the user service: request validation, the create-user decision sequence
  over the user table, account-id generation, and the user lookup that
  starts a login.

The ledger is a value `Db(rows, fault)`: its rows in append order, and a
fault that, when present, makes every query fail with that error. The
`LoadingCache` library is a class over a `map` from key to entry (value and
write time). `Get` loads a missing or expired key through the loader bound at
construction and stores only successes. `GetIfPresent` never loads. `Put`
overwrites, and when a write exceeds the size bound some other entry is
evicted (which one is left open). Time is a logical nanosecond clock `now`
passed to each cache operation, and the database a loader reads is passed to
`Get`. The weaver `codegen.Encoder`/`Decoder` are token-level classes. The
decoder's sticky `failed` flag stands for the panic the real decoder raises.

Three behaviours of the program that the model keeps as they are:

- `GetTransactions` returns a loaded history untruncated, and its loader
  `findForAccount` accepts a `limit` it does not use, so a freshly loaded
  history holds every row involving the account
  (transactionhistory/service.go:90-97, transactionhistory/repo.go:25-32).
- `findBalance` never returns an error: a failing query or a NULL credit sum
  yields balance 0 (balancereader/repo.go:24-42).
- `Healthy` returns a new "unhealthy" error next to the status text and the
  code (balancereader/service.go:65-71, transactionhistory/service.go:82-88).

Go field names map to lower-camel-case Dafny names. `Contact.Label` is
`contactLabel`, because `label` is a Dafny keyword.

## Model

| member | source | states |
|---|---|---|
| Model.MarshalTransaction | examples/bankofanthos/model/weaver_gen.go:22-32 | appends the four account/routing strings, the amount as Int64 and the timestamp as one binary-marshaled token, in that order, to what the encoder held |
| Model.UnmarshalTransaction | examples/bankofanthos/model/weaver_gen.go:34-44 | reads the same six fields in the same order, consuming exactly them; a token of the wrong kind makes the decoder fail |
| Model.TransactionRoundTrip | examples/bankofanthos/model/weaver_gen.go:22-44 | unmarshal after marshal gives back the transaction and leaves whatever followed it |
| Model.MarshalTransactionWithID | examples/bankofanthos/model/weaver_gen.go:48-54 | writes the embedded transaction, then the id as Int64 |
| Model.UnmarshalTransactionWithID | examples/bankofanthos/model/weaver_gen.go:56-62 | reads the embedded transaction, then the id |
| Model.TransactionWithIDLayout | examples/bankofanthos/model/weaver_gen.go:48-54 | the encoding is the transaction's six tokens followed by the id token |
| Model.TransactionWithIDRoundTrip | examples/bankofanthos/model/weaver_gen.go:48-62 | a ledger row round-trips through its codec |
| LedgerRepo.LatestTransactionID | examples/bankofanthos/common/repo.go:34-41 | succeeds exactly when the query succeeds on a non-empty ledger, and then gives its maximum id; a query error, and the NULL maximum of an empty table, give `(0, err)` |
| LedgerRepo.FindLatest | examples/bankofanthos/common/repo.go:44-51 | fails exactly when the query fails, with that error and no rows |
| LedgerRepo.FindLatestExactly | examples/bankofanthos/common/repo.go:46 | returns exactly the rows with an id above the start, each as often as stored |
| LedgerRepo.FindLatestAscending | examples/bankofanthos/common/repo.go:46 | with ids as primary key, the rows come in strictly ascending id order |
| LedgerRepo.NothingAfterLatest | examples/bankofanthos/common/repo.go:34-46 | polling from the latest id returns no rows |
| LedgerRepo.FindLatestSuffix | examples/bankofanthos/common/repo.go:46 | a later start returns a suffix of what an earlier start returns |
| BalanceRepo.FindBalance | examples/bankofanthos/balancereader/repo.go:24-42 | the error is always nil |
| BalanceRepo.SqlSumMeaning | examples/bankofanthos/balancereader/repo.go:28-34 | a SQL SUM over the matching rows is NULL exactly when no row matches, and their sum otherwise |
| BalanceRepo.FindBalanceIsNet | examples/bankofanthos/balancereader/repo.go:24-42 | with a credit the balance is credits minus debits at that routing number; without one (NULL credit sum) or on a query error it is 0 |
| BalanceRepo.NoDebitsMeansCreditSum | examples/bankofanthos/balancereader/repo.go:33-34 | with no debits the COALESCEd debit term is 0 and the balance is the credit sum |
| BalanceRepo.AppendMovesBalance | examples/bankofanthos/balancereader/repo.go:25-37 | for a credited account, appending a row moves the balance by minus the amount for a debit, plus it for a credit, both, or not at all |
| BalanceRepo.UncreditedDebitIsInvisible | examples/bankofanthos/balancereader/repo.go:28-41 | an account without credits has balance 0 before and after a debit, as the credit sum is not COALESCEd |
| LoadingCache.Cache.GetIfPresent | examples/bankofanthos/balancereader/service.go:39-40 | finds a value exactly when the key is present and not expired, and never loads |
| LoadingCache.Cache.Put | examples/bankofanthos/balancereader/service.go:41-47 | the key maps to `Entry(value, now)` afterwards; every other key keeps its entry, except that when the write would exceed a positive `maximumSize` exactly one other key (which one is left open) is evicted; with no bound, or room to spare, nothing else changes (the same `Put` stores the history at transactionhistory/service.go:67) |
| LoadingCache.Cache.Get | examples/bankofanthos/transactionhistory/cache.go:18-28 | a live entry is returned as is; otherwise the loader's result is returned, a success is stored and an error is not cached |
| BalanceCache.Loader | examples/bankofanthos/balancereader/cache.go:12-14 | a miss loads `findBalance(account, localRoutingNum)` with the routing number fixed at construction, and never fails |
| BalanceCache.NewBalanceCache | examples/bankofanthos/balancereader/cache.go:11-21 | an empty cache bounded by `expireSize` entries, with no expire-after-write |
| BalanceCache.NeverExpires | examples/bankofanthos/balancereader/cache.go:16-19 | without expire-after-write an entry is live exactly when present, at any time |
| ReaderHealth.Healthy | examples/bankofanthos/balancereader/service.go:65-71 | `("ok", 200, nil)` exactly when the ledger reader is alive, else the unhealthy message, 500 and a new error carrying that message (transactionhistory/service.go:82-88 is the same) |
| BalanceService.ObserveKeepsKeys | examples/bankofanthos/balancereader/service.go:38-49 | the delta observer creates no entry for an uncached account and drops none |
| BalanceService.ObserveDelta | examples/bankofanthos/balancereader/service.go:38-49 | a cached balance moves by minus the amount for a local debit and plus it for a local credit; any other entry is unchanged |
| BalanceService.ObserveSelfTransfer | examples/bankofanthos/balancereader/service.go:38-49 | a local self-transfer leaves a cached balance unchanged |
| BalanceService.ObserveForeign | examples/bankofanthos/balancereader/service.go:38-49 | a transaction with no local side leaves the cache unchanged |
| BalanceService.DebitExample | examples/bankofanthos/balancereader/service.go:38-43 | a cached 100 debited by 30 becomes 70; the foreign side's entry is untouched |
| BalanceService.ObserveAgrees | examples/bankofanthos/balancereader/service.go:38-49 | if every cached balance equals `findBalance` of a credited account, it still does after the ledger appends a row and the observer applies it |
| BalanceService.UncreditedAccountDrifts | examples/bankofanthos/balancereader/service.go:38-43 | for an account without credits the cache goes to -30 after a debit while `findBalance` stays 0 |
| BalanceService.Service.constructor | examples/bankofanthos/balancereader/service.go:52-63 | `Init` builds an empty balance cache of 1000000 entries bound to the local routing number |
| BalanceService.Service.ProcessTransaction | examples/bankofanthos/balancereader/service.go:32-50 | the new cache table is the delta observer applied to the old one: debit side first, then credit side, each only when local and cached |
| BalanceService.Service.GetBalance | examples/bankofanthos/balancereader/service.go:73-80 | returns the cached balance, or loads, caches and returns `findBalance`; the error branch is never taken |
| HistoryRepo.FindForAccount | examples/bankofanthos/transactionhistory/repo.go:25-32 | fails exactly when the query fails, with that error and no list |
| HistoryRepo.FindForAccountExactly | examples/bankofanthos/transactionhistory/repo.go:27 | exactly the transactions with the account on either side at that routing number, each as often as stored, so a self-transfer appears once |
| HistoryRepo.FindForAccountNewestFirst | examples/bankofanthos/transactionhistory/repo.go:27 | the list is ordered by timestamp, newest first |
| HistoryRepo.FindForAccountError | examples/bankofanthos/transactionhistory/repo.go:28-30 | a query error returns the error and no list |
| HistoryRepo.LimitIsIgnored | examples/bankofanthos/transactionhistory/repo.go:25-27 | two matching rows are both returned under a limit of one |
| HistoryRepo.AppendUninvolved | examples/bankofanthos/transactionhistory/repo.go:27 | a row not involving the account leaves its history unchanged |
| HistoryRepo.AppendNewest | examples/bankofanthos/transactionhistory/repo.go:27 | a row involving the account and newer than every stored row goes to the head of its history |
| HistoryCache.Loader | examples/bankofanthos/transactionhistory/cache.go:18-20 | a miss loads `findForAccount(account, localRoutingNum, historyLimit)` and fails exactly when the query fails |
| HistoryCache.NewHistoryCache | examples/bankofanthos/transactionhistory/cache.go:14-29 | an empty cache bounded by `cacheSize` entries, with entries expiring `expireMinutes` minutes after their write |
| HistoryCache.ExpireAfterWrite | examples/bankofanthos/transactionhistory/cache.go:26 | an entry is found exactly while no more than the configured minutes have passed since its write |
| HistoryService.PrependTruncate | examples/bankofanthos/transactionhistory/service.go:61-66 | the result has `min(limit, len(old)+1)` elements and is a prefix of `[t] ++ old`: the oldest elements are dropped from the tail |
| HistoryService.PrependBelowLimit | examples/bankofanthos/transactionhistory/service.go:61-63 | below the limit the result is `t` followed by the whole old history |
| HistoryService.PrependTruncatePrefix | examples/bankofanthos/transactionhistory/service.go:61-66 | prepending to a prefix of a history gives a prefix of that history with `t` in front |
| HistoryService.Record | examples/bankofanthos/transactionhistory/service.go:55-67 | a live entry gets `t` prepended and is timestamped now; any other entry is unchanged; an absent or expired account is left as is |
| HistoryService.ObserveHistoryKeepsKeys | examples/bankofanthos/transactionhistory/service.go:41-50 | the prepend observer creates no entry and drops none |
| HistoryService.ObserveHistoryAt | examples/bankofanthos/transactionhistory/service.go:36-51 | an account is changed only when it is a local side with a live entry; it then gets `t` prepended once, or twice for a local self-transfer |
| HistoryService.ObserveHistoryForeign | examples/bankofanthos/transactionhistory/service.go:41-50 | a transaction with no local side leaves the cache unchanged |
| HistoryService.ObserveHistoryPrefix | examples/bankofanthos/transactionhistory/service.go:36-68 | if every live cached history is a prefix of `findForAccount`, it stays one after the ledger appends a newer row that is not a local self-transfer |
| HistoryService.SelfTransferListedTwice | examples/bankofanthos/transactionhistory/service.go:41-50 | a local self-transfer is cached twice while the authoritative query lists it once |
| HistoryService.Service.constructor | examples/bankofanthos/transactionhistory/service.go:70-80 | `Init` builds an empty history cache with the configured size, minutes, routing number and limit |
| HistoryService.Service.ProcessTransactionForAcct | examples/bankofanthos/transactionhistory/service.go:53-68 | a live history gets `t` prepended and truncated in place; otherwise the loaded history is stored and then updated, and a failed load changes nothing |
| HistoryService.Service.ProcessTransaction | examples/bankofanthos/transactionhistory/service.go:36-51 | the new cache table is the prepend observer applied to the old one, debit side first |
| HistoryService.Service.GetTransactions | examples/bankofanthos/transactionhistory/service.go:90-97 | returns the cached or loaded history as is, with no truncation; a load error is returned and nothing is cached |
| ContactsGen.MarshalContact | examples/bankofanthos/contacts/weaver_gen.go:272-281 | appends username, label, account and routing number as strings and then `IsExternal` as a bool |
| ContactsGen.UnmarshalContact | examples/bankofanthos/contacts/weaver_gen.go:283-292 | reads the same five fields in the same order |
| ContactsGen.ContactRoundTrip | examples/bankofanthos/contacts/weaver_gen.go:272-292 | a contact round-trips through its codec |
| ContactsGen.MarshalSlice | examples/bankofanthos/contacts/weaver_gen.go:296-305 | a nil slice writes `Len(-1)` only; a non-nil one writes its length and then its elements in index order |
| ContactsGen.UnmarshalSlice | examples/bankofanthos/contacts/weaver_gen.go:307-317 | `Len(-1)` reads as nil; any other length fills a fresh array with that many contacts in order |
| ContactsGen.ContactsRoundTrip | examples/bankofanthos/contacts/weaver_gen.go:301-316 | `n` encoded contacts read back as the same contacts in the same order |
| ContactsGen.SliceRoundTrip | examples/bankofanthos/contacts/weaver_gen.go:296-317 | nil reads back as nil, and a non-nil slice, empty included, with the same length and elements |
| ContactsGen.NilIsNotEmpty | examples/bankofanthos/contacts/weaver_gen.go:297-301 | nil and the empty slice are encoded differently |
| ContactsGen.SizeContact | examples/bankofanthos/contacts/weaver_gen.go:323-332 | the size is 17 plus the byte lengths of the four strings, which is the number of bytes the marshaled contact occupies |
| ContactsGen.ContactWireSize | examples/bankofanthos/contacts/weaver_gen.go:321-322 | the marshaled contact occupies four 4-byte-prefixed strings and a 1-byte bool |
| ContactsGen.AddContactRequestSize | examples/bankofanthos/contacts/weaver_gen.go:170-173 | the size the `AddContact` client stub preallocates (the length-prefixed user name plus `serviceweaver_size_Contact`) equals the bytes its encoded arguments, the name followed by the marshaled contact, occupy |
| ContactsGen.GetStubFn | examples/bankofanthos/contacts/weaver_gen.go:206-215 | `GetContacts` and `AddContact` map to their handlers, any other name to nil |
| Codegen.ByteLen | examples/bankofanthos/contacts/weaver_gen.go:326-329 | Go's `len` of a string: its UTF-8 length, between one and four bytes per character |
| UserDb.FindUser | examples/bankofanthos/userservice/user_db.go:63 | a found user has that username; no user means none has it |
| UserDb.Decimal | examples/bankofanthos/userservice/user_db.go:50 | `fmt.Sprint` of a number: at least one decimal digit, without a leading zero |
| UserDb.DecimalRoundTrip | examples/bankofanthos/userservice/user_db.go:50 | the printed digits read back as the number |
| UserDb.DecimalLength | examples/bankofanthos/userservice/user_db.go:50 | a number with `k` digits prints as `k` characters |
| UserDb.CandidateIsTenDigits | examples/bankofanthos/userservice/user_db.go:50 | every candidate in `[1e9, 1e10)` prints as exactly ten digits |
| UserDb.UserDB.AddUser | examples/bankofanthos/userservice/user_db.go:42-44 | inserts the user, or returns the store's error (a fault, a duplicate id or username) and inserts nothing |
| UserDb.UserDB.GetUser | examples/bankofanthos/userservice/user_db.go:61-71 | the user with that name; none for record-not-found; the error for any other failure |
| UserDb.UserDB.GenerateAccountID | examples/bankofanthos/userservice/user_db.go:47-59 | returns the first drawn ten-digit candidate no user holds; a taken id or a failing query means another draw |
| UserService.Fields | examples/bankofanthos/userservice/service.go:75-81 | the eleven request fields the validation loop visits |
| UserService.UsernameCheckMeaning | examples/bankofanthos/userservice/service.go:84-86 | the unanchored pattern `[a-zA-Z0-9_]{2,15}` matches exactly when two consecutive word characters occur |
| UserService.UsernameCheckIsUnanchored | examples/bankofanthos/userservice/service.go:84-86 | a 20-character name and one with a foreign character pass, `a-b` fails |
| UserService.ValidateNewUser | examples/bankofanthos/userservice/service.go:74-91 | reports the first empty field's message, then a username mismatch, then a password mismatch |
| UserService.ValidationAccepts | examples/bankofanthos/userservice/service.go:74-91 | a request passes exactly when all fields are filled, the pattern matches and the passwords agree |
| UserService.MissingFieldFirst | examples/bankofanthos/userservice/service.go:77-81 | any empty field gives "missing value for input field: string", whatever else is wrong |
| UserService.PasswordCheckLast | examples/bankofanthos/userservice/service.go:87-90 | with all fields filled and the pattern matched, only a password mismatch is reported |
| UserService.Service.constructor | examples/bankofanthos/userservice/service.go:61-72 | `Init`'s last step: the service is built on the already-open user store, whose invariant (ids and usernames unique) it then keeps |
| UserService.Service.CreateUser | examples/bankofanthos/userservice/service.go:93-130 | refuses in order: an invalid request, a failing lookup, an existing user, a failed hash, each adding nothing. Otherwise exactly one user is added, built from the request with the id `generateAccountID` returns (userservice/service.go:116-121): the decimal form, ten digits by `CandidateIsTenDigits`, of the first draw plus 1e9 that no user holds, every earlier draw being taken. The model stops retrying (`StillRetrying`, adding nothing) only when every given draw is taken, so with a valid request it succeeds exactly when some draw is free |
| UserService.Service.Login | examples/bankofanthos/userservice/service.go:132-142 | a lookup error gives "error logging in: ...", an unknown name "user X doesn't exist", otherwise the stored user |

## Left out

- The ledger reader (`common.NewLedgerReader`, its polling goroutine, its cursor, `StartWithCallback`) is not part of this model. Whether it is alive is an input to `Healthy`.
- The goburrow cache internals are not modelled: single-flight loading, locking and the least-recently-used choice of victim. Eviction only says that some other entry is dropped.
- Concurrency is not modelled: every operation is one sequential step.
- Database plumbing (`gorm.Open`, the repository constructors, SQL execution) is replaced by in-memory values. A fault is persistent: it fails every query until it is gone, so transient errors are not modelled.
- Rows with equal sort keys are returned in ledger order. SQL leaves their order open.
- `Init` is modelled only from the point where the repository is open: reading the private key, parsing it and connecting to the database are left out.
- Go strings, which may hold arbitrary bytes, are Dafny strings of Unicode scalar values, so a name with invalid UTF-8 cannot be represented. `Codegen.ByteLen` and `UserService.RegexMatches` rely on this: every character is a whole code point.
- Times are integers: a `time.Time` is its nanoseconds, and its binary-marshaled form is one opaque token with no fixed size.
- Integer widths are not modelled: amounts, balances, ids and `expireMinutes * time.Minute` are unbounded integers, with no int64 overflow.
- BalanceService.Service.ProcessTransaction: the new balance (the cached one minus the amount) is unbounded subtraction here, with no int64 wrap-around.
- Nil receivers cannot occur, because records are Dafny values. So the nil-receiver panics of the generated `WeaverMarshal`/`WeaverUnmarshal` are not modelled.
- A decoder panic is the decoder's sticky `failed` flag. In `UnmarshalSlice`, rounds after a failure still run, where Go would have unwound.
- The generated client and server stubs (tracing, metrics, `CatchPanics`, argument decoding) are left out, apart from the `GetStubFn` dispatch and the `AddContact` request size.
- The `[]Contact` decoder's allocation of a huge slice is not modelled.
- The encoder's representation of lengths is not modelled.
- Password hashing (bcrypt) is an input to `CreateUser`. Login's password comparison and JWT signing are left out, so `Login` ends with the stored user.
- `math/rand` is replaced by a given sequence of draws. Running out of draws means the source is still looping.
- A negative history limit would make the reslice panic. The limit is a `nat`.
- The text of the store's duplicate-key error is a constant of this model, not the database's exact message. `LedgerRepo.NullScanError` is likewise only the tail of the `Row().Scan` error, without the prefix that names the column.
- Logging is left out.
- The context files (frontend, main, ledger writer, contacts database) are not modelled. Appending a row to the ledger is `LedgerRepo.Append`.
