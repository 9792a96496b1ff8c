# Verified model of go-scaffold

go-scaffold is a Go service template: two feature domains (users and wallets) that share a database
transaction through the request context, and two generators that write the project's glue code. This
project models both and proves, for every input and every interleaving, what they guarantee.

**Units of work and use cases.** `UnitOfWork.Do` opens one database transaction at the outermost call,
hides it in the context, and reuses it in nested calls. CreateUser checks the email, inserts the user and
crosses into the wallet domain inside one such transaction; GetUser reads twice with none.

- `Store` — the rows, the declared constraints, and `Serial`, the meaning of one request done atomically.
- `RequestContext` — the context chain with its three keys, and which handle a repository resolves to.
- `UnitOfWorkSpec` — callback programs of any shape (statements, sequences, branches, errors returned and
  caught, nested units of work) and what running them under `Do` does.
- `WorldInvariant` — what every callback keeps: the constraints, and sequences above every stored id.
- `UseCases`, `Database` — the use-case callbacks, and the program's objects (database, unit of work,
  repositories, facade, use cases) as classes whose methods are proved against those functions.
- `Protocol`, `ProtocolInvariant`, `ProtocolSafety`, `ProtocolLiveness`, `ProtocolAlone`,
  `ProtocolWitnesses` — any number of requests interleaved statement by statement under READ COMMITTED with
  PostgreSQL's unique and foreign keys, with a failure possible at every step.

**Generators.**

- `Naming` — Pascal and camel case and plurals, byte by byte, with their exact collision laws.
- `Sorting`, `Codegen`, `CodegenPolicy`, `CodegenInterrupted`, `CodegenProgram` — the code generator over a
  file-system map, also when it stops in the middle.
- `Scaffold`, `ScaffoldProgram` — `add-feature`: seven files checked, then written, then buf.gen.yaml.
- `Together` — the two tools on one project.

## How the database is modelled

Committed tables are sequences of rows in commit order, so uniqueness is a theorem and not a type. An
INSERT is three steps: draw the id from the sequence (never given back), enter the row under its unique
keys, and check the foreign key at the end of the statement. Entering a row waits while another open
transaction holds one of its keys and fails if a committed row has it. A request is a program counter; a
label says which request moves and whether the step fails for a reason outside the tables. A COMMIT that
fails may have taken effect, with only its acknowledgement lost.

Because the foreign key is checked after the unique key, a CreateWallet for a user still being created can
briefly hold that user's wallet key. So a waiting transaction holds a row in exactly one case, stated in
`WhatWaitersHold` and reached in `WaiterCanHoldARow`; the waits-for graph is acyclic all the same, with
chains of at most two waits.

Theorems about interleavings start from any tables that satisfy the declared constraints, not only from
empty ones. A user row without a wallet (an orphan) can then only be one that was there at the start.

## Where the code does less than one might expect

- The loser of a race between the exists check and the insert is refused with the driver's error, where
  the serial answer is "already exists" (`RaceIsReachable`). A refusal differs from the serial answer exactly
  when it comes from the unique key of an insert (`RefusalsAreJustified`).
- A request answered with an error has left rows exactly when its COMMIT took effect unacknowledged
  (`FailedRequestLeavesNothing`, `LostCommitIsReachable`).
- GetUser drops a failed balance read and answers zero. That is the stored balance for every wallet these
  requests create, and wrong exactly when the stored balance is not zero (`DroppedReadError`,
  `WrongBalanceIsReachable`). A failed first read is answered "not found" (`FailedFirstRead`).
- A unit of work inside another is not all or nothing: if it returns an error that the code around it catches,
  its writes are committed, exactly when no statement of it failed (`CaughtInnerDoCommits`,
  `InnerDoIsNotAtomic`).
- `add-feature error_reason` writes both proto files to one path and loses the first (`PlanDistinctIff`,
  `CreateSucceedsIff`, `ErrorReasonLosesItsProto`).
- Running `add-feature` again may replace another input of buf.gen.yaml: it edits the first input and then
  sorts. Exactly when is `IncludeApiIdempotentIff`, and when the order may change `IncludeApiSameListIff`;
  `SecondAddLosesInput` and `InputIsLost` are the command doing so.
- A run of `add-feature` that failed after writing anything refuses every later run of that name
  (`RetryIsRefusedIff`). Two accepted names may declare one type in package ports (`PortsClashIff`,
  `AcceptedNamesCanClash`).
- A usecase.go or repo.go cut short while the generator creates it is never repaired by a later run
  (`RerunRepairsIff`, `SpoiledStubIsReachable`).
- If two services share a feature package, the generated files depend on how the sort orders them
  (`OrderIndependentIff`, `TwoVersionsDiffer`). The design document (design.md:911) asks only that generating
  twice does not drift, and that holds even then (`GenerateIdempotent`).

## Model

| member | source | states |
|---|---|---|
| Store.SerialKeepsConstraints | db/migrations/20240102000000_create_wallets.sql:4 | whatever a request does alone, unique keys and foreign keys survive it, and no user without a wallet is ever made |
| Store.AdmittedIff | db/migrations/20240102000000_create_wallets.sql:4 | the declared constraints admit a row if and only if none of its keys is stored and, for a wallet, its user is |
| Store.SerialWrites | internal/feature/user/usecase.go:49-66 | the atomic CreateUser adds its two rows exactly when no stored row has the email, the atomic CreateWallet its row exactly when the user is stored and no wallet names it |
| Store.SerialReads | internal/feature/user/usecase.go:78-93 | the atomic reads answer a stored user's own row and its wallet's balance, and "not found" for what is not stored |
| Store.CreatedIsRead | internal/feature/user/usecase.go:71-92 | what CreateUser added is what GetUser and GetWallet then read |
| Store.Widths | db/migrations/20240101000000_create_users.sql:3 | sequences end at 2^63 - 1, and the transaction counter wraps at 2^64 |
| ProtocolInvariant.CommitIsSerial | internal/feature/user/usecase.go:49-66 | the checks a request passed statements ago still hold at its commit, so it publishes exactly what the atomic operation would |
| ProtocolInvariant.StepKeepsInv | internal/feature/user/usecase.go:47-76 | every step of every request, failing or not, keeps the invariant on tables, write sets, drawn ids, history and transaction ids |
| ProtocolInvariant.RunKeepsInv | internal/feature/user/usecase.go:47-76 | so does every run |
| ProtocolSafety.UsersAndWalletsMatch | internal/feature/user/usecase.go:47-76 | from empty tables, in any interleaving with any failures, keys are unique and the k-th wallet is the k-th user's with balance zero |
| ProtocolSafety.RunsAreSerial | internal/feature/user/usecase.go:49-75 | the committed tables are the committed requests applied atomically in commit order, each exactly once and answered as its client was, or with an error if the acknowledgement was lost |
| ProtocolSafety.SerialOrderIsRealTime | internal/feature/user/usecase.go:49-75 | a success answered before another request started comes before it in that order |
| ProtocolSafety.ReadsAreAtomic | internal/feature/user/usecase.go:78-93 | every reply of GetUser and GetWallet without a failed read equals one atomic read done at the request's last step |
| ProtocolSafety.DroppedReadError | internal/feature/user/usecase.go:85 | when the balance read fails, the reply still equals the atomic read if and only if the stored balance is zero or absent |
| ProtocolSafety.FailedFirstRead | internal/feature/user/usecase.go:79-82 | a failed first read of GetUser or GetWallet is answered "not found": the atomic answer if and only if the row is absent |
| ProtocolWitnesses.WrongBalanceIsReachable | internal/feature/user/usecase.go:85 | for every stored balance other than zero there is a run in which GetUser answers zero |
| ProtocolWitnesses.RichUserAnsweredZero | internal/feature/user/usecase.go:85 | such tables exist: a user with balance 5 answered 0 |
| ProtocolSafety.AcknowledgedUserIsDurable | internal/feature/user/usecase.go:71-92 | after CreateUser is acknowledged, every GetUser started later answers that user with balance zero, unless its own user read failed |
| ProtocolSafety.FailedRequestLeavesNothing | internal/feature/user/usecase.go:67-69 | a failed request is in no later state, neither in the history nor with any id it drew, if and only if it is not one whose commit took effect unacknowledged; of such a one every row stays |
| ProtocolWitnesses.LostCommitIsReachable | internal/feature/user/usecase.go:67-69 | any CreateUser of a new email can be answered with an error and have both its rows committed |
| ProtocolSafety.WalletCreatedOnlyForOrphans | internal/feature/wallet/usecase.go:42-62 | CreateWallet takes effect, acknowledged or not, only for a user that had no wallet before any request ran; from empty tables, never |
| ProtocolSafety.RefusalsAreJustified | internal/feature/user/usecase.go:52-65 | a statement is refused exactly when the tables hold the email or the wallet, or lack the user, it needs; the request alone would be refused too, with the same error unless an insert's unique key is what refuses it: then, and only then, it gets the driver's error for "already exists" |
| ProtocolSafety.RefusedInsertLostARace | internal/feature/user/usecase.go:52-65 | when an insert's unique key refuses, the check before it found no such row, and another request committed one since |
| ProtocolSafety.ErrorsFit | internal/feature/user/usecase.go:52-65 | a writing request that met any outside failure is answered with the driver's error, and every request only with errors of its own kind |
| ProtocolSafety.AlreadyExistsWasSeen | internal/feature/wallet/usecase.go:47-53 | "already exists" is answered only if the request's own check, without a failure, found the email or a wallet of the user committed |
| ProtocolSafety.MarksAreTrue | internal/platform/database/tx.go:61-63 | a request counts as failed exactly if one of its steps before the rollback failed, and as unacknowledged exactly if its commit was |
| ProtocolWitnesses.RaceIsReachable | internal/feature/user/usecase.go:52-65 | any two CreateUsers of one new email can run so that the first is created and the second gets the driver's error where the atomic operation says "already exists" |
| ProtocolSafety.TransactionIds | internal/platform/database/tx.go:32-62 | a transaction's id is nonzero, and different from every other's, up to 2^64 transactions, and zero exactly when the counter wraps |
| ProtocolSafety.IdsAreDrawnInOrder | db/migrations/20240101000000_create_users.sql:3 | the ids drawn are exactly those between a sequence's first and next value: none is skipped, and no rollback gives one back |
| ProtocolSafety.IdsFitTheColumn | db/migrations/20240102000000_create_wallets.sql:3 | no stored id is past the end of its BIGSERIAL sequence |
| ProtocolLiveness.WhatWaitersHold | internal/feature/user/usecase.go:52-65 | a waiting request holds no wallet row, and holds its user row if and only if it is a CreateUser waiting for a CreateWallet; that CreateWallet waits for nobody |
| ProtocolLiveness.WaitsForItsKey | internal/feature/user/usecase.go:57-65 | a request waits exactly for an uncommitted row with the email it inserts, or with the user its wallet is for |
| ProtocolLiveness.WaitCanBeCancelled | internal/feature/user/usecase.go:57-65 | every unfinished request can fail where it stands, a waiting one too, and a waiting one is then answered with the driver's error |
| ProtocolWitnesses.WaiterCanHoldARow | internal/feature/user/usecase.go:57-65 | from any tables, a CreateWallet naming the next user id can make the CreateUser that draws that id wait while it holds its user row |
| ProtocolLiveness.NoWaitCycle | internal/feature/user/usecase.go:52-65 | in every reachable state the waits-for graph has no cycle and no chain longer than two waits |
| ProtocolLiveness.RunsEnd | internal/feature/user/usecase.go:47-76 | n requests take at most 8n steps, and a run that can go no further without a failure has answered every request |
| ProtocolLiveness.CanAlwaysComplete | internal/feature/user/usecase.go:47-76 | from any reachable state all requests in flight can be answered with no further failure |
| ProtocolAlone.AloneIsSerial | internal/feature/user/usecase.go:47-93 | from any reachable state in which the others hold no row (not started, answered, or before their first insert), a request that runs with nothing in between ends with the reply and the tables of the atomic operation, and changes no other request |
| ProtocolAlone.OrphanCanGetWallet | internal/feature/wallet/usecase.go:42-62 | conversely, for a user that came without a wallet CreateWallet can succeed |
| RequestContext.KeysAreIndependent | internal/platform/database/tx.go:107-139 | after any extensions of a context each key reads the last link of its own kind; swapping the handle keeps an inherited transaction id |
| RequestContext.RoutingIsCoherent | internal/platform/database/tx.go:103-119 | in any context derived from a coherent scope, a repository made from the scope and one with its own handle both resolve to the scope's transaction |
| RequestContext.NothingCarried | internal/platform/database/tx.go:114-139 | a context without a link of some kind has no value of that kind, and a repository then works on its own handle |
| RequestContext.PrincipalRoundTrip | internal/platform/authn/context.go:17-35 | a principal is read back from the context it was put into, which keeps its transaction |
| UnitOfWorkSpec.StatementsShareTheTransaction | internal/platform/database/tx.go:66-119 | every statement sent under Do, at any nesting and by any repository, is sent in a context that carries the one transaction, handle and id, and from a scope that hands it out, and goes through it |
| RequestContext.RequestIdServer | internal/platform/middleware/requestid/requestid.go:15-34 | the id already in the context wins over the header, the header over a generated id; it is echoed and passed on, and the other two keys are untouched |
| UnitOfWorkSpec.NestingFlattens | internal/platform/database/tx.go:66-93 | running any callback under Do equals running it with every inner Do erased: tables, sequences, events, variables, error |
| UnitOfWorkSpec.RepositoryHandlesDoNotMatter | internal/platform/database/tx.go:114-119 | replacing the handle of every repository in a callback changes nothing under Do |
| UnitOfWorkSpec.OneBeginOneEnd | internal/platform/database/tx.go:54-93 | whatever the nesting, a top-level Do begins and ends at most one transaction and commits exactly when it returns nil |
| UnitOfWorkSpec.AllOrNothing | internal/platform/database/tx.go:54-93 | a top-level Do that returns an error leaves the tables unchanged; one that returns nil had no statement fail, caught or not |
| UnitOfWorkSpec.CaughtInnerDoCommits | internal/platform/database/tx.go:66-70 | an inner Do whose error is caught has its writes committed with the rest if and only if no statement of it failed and the commit goes through |
| UnitOfWorkSpec.InnerDoIsNotAtomic | internal/platform/database/tx.go:66-70 | an inner Do that inserts a user and returns an error leaves the user committed when the error is caught |
| UnitOfWorkSpec.CommitAppliesWritesOnce | internal/platform/database/tx.go:61-63 | a top-level Do that returns nil leaves what the same statements leave when run one by one with no transaction |
| UnitOfWorkSpec.DoSucceedsIff | internal/platform/database/tx.go:54-93 | it returns nil exactly when it can begin and commit and those statements, run one by one, neither fail nor return an error |
| UnitOfWorkSpec.OneTransactionId | internal/platform/database/tx.go:62-91 | every line logged under one top-level Do carries the same id, the next of the sequence, taken once per transaction begun |
| UnitOfWorkSpec.LogLaw | internal/platform/database/tx.go:66-93 | a top-level Do logs a begin first, reuses in between, and last a commit exactly when it returns nil or a rollback exactly when its callback did not |
| UnitOfWorkSpec.DoErrors | internal/platform/database/tx.go:54-93 | which error a top-level Do returns: its own without a transactor, the driver's if BEGIN or COMMIT fails, else the callback's; and when the callback does not run at all |
| UnitOfWorkSpec.StoredOnSuccess | internal/feature/user/usecase.go:52-65 | a statement goes through the handle of its context, or its repository's own, and stores its value only if it succeeds |
| UnitOfWorkSpec.EvalLaw | internal/feature/user/usecase.go:48 | a captured variable is zero until a statement stores a value in it |
| WorldInvariant.PerformLaw | internal/feature/user/repo.go:25-40 | when each statement succeeds, in the rows it sees alone, what it stores, and which sequences it draws from even if it fails |
| WorldInvariant.RunKeepsSoundInside | internal/platform/database/tx.go:66-93 | inside a transaction any callback, whatever fails, keeps the constraints on the rows it sees and both sequences above every id |
| WorldInvariant.DoKeepsSound | internal/platform/database/tx.go:54-93 | so does every top-level Do for the committed rows, committed or rolled back, drawing ids only upwards |
| WorldInvariant.RunKeepsSound | internal/platform/database/tx.go:54-93 | and every program outside a transaction, whatever units of work it opens |
| UseCases.UseCaseIsSerial | internal/feature/user/usecase.go:49-75 | a top-level CreateUser or CreateWallet is the atomic operation when it succeeds, nothing when it fails, and answers exactly as it when nothing outside fails |
| UseCases.UseCaseIsAnswered | internal/feature/user/usecase.go:49-75 | on sound tables: an error leaves the rows as they were, a success is true of them, and when nothing outside fails CreateUser succeeds if and only if no stored row has the email, CreateWallet if and only if the user is stored and no wallet names it |
| UseCases.UseCaseInside | internal/feature/user/usecase.go:49-75 | called inside a transaction that may already have written, it is the atomic operation on the tables that transaction sees and commits nothing itself; "already exists" leaves the transaction as it was, a database error poisons it |
| Database.Db.Execute | internal/platform/database/tx.go:114-119 | one statement through a handle: immediate on the pool, into the write set in a transaction, poisoning it on failure |
| Database.Db.End | internal/platform/database/tx.go:61-63 | commit on nil publishes the write set, anything else discards it, a poisoned transaction cannot commit |
| Database.UserRepo.Create | internal/feature/user/repo.go:25-29 | the insert goes through the context's handle if there is one, else the repository's own |
| Database.UserRepo.ExistsByEmail | internal/feature/user/repo.go:36-40 | counts rows visible to that handle |
| Database.UserRepo.GetByID | internal/feature/user/repo.go:31-34 | the row visible to that handle, or none for absence and failure alike |
| Database.WalletRepo.Create | internal/feature/wallet/repo.go:36-40 | inserts a wallet with balance zero through that handle |
| Database.WalletRepo.ExistsByUserID | internal/feature/wallet/repo.go:30-34 | counts wallets of the user visible to that handle |
| Database.WalletRepo.GetByUserID | internal/feature/wallet/repo.go:25-28 | the wallet visible to that handle, or none |
| Database.Facade.CreateByUserID | internal/feature/wallet/facade.go:22-25 | the cross-domain insert lands in the transaction of the context it is given |
| Database.Facade.GetBalanceByUserID | internal/feature/wallet/facade.go:14-20 | the stored balance, or zero and an error |
| Database.ReadLaw | internal/feature/user/repo.go:21-34 | a healthy SELECT reads exactly the committed rows at top level, and those and the transaction's own inside one |
| Database.ReadFails | internal/feature/user/repo.go:31-34 | a SELECT that fails, or runs in a poisoned or ended transaction, reads nothing |
| Database.AfterReadLaw | internal/feature/wallet/repo.go:25-28 | a SELECT writes nothing and draws no id, and poisons its transaction exactly when it fails there |
| Database.CreateThenRead | internal/feature/user/usecase.go:71-92 | after a CreateUser that succeeded the next healthy read answers that user with balance zero, and its wallet |
| Database.UnitOfWork.Do | internal/platform/database/tx.go:66-93 | reuses the context's transaction or opens one around the callback, with the tables, variables, error and log lines of the specification |
| Database.UnitOfWork.WithinTransaction | internal/platform/database/tx.go:54-64 | on a context that carries a transaction, runs the callback there and ends nothing; otherwise refuses when not configured, or begins, runs the callback in a context carrying the transaction, and ends |
| Database.UnitOfWork.Callback | internal/platform/database/tx.go:73-87 | captures the id of the transaction its context carries, logs its begin and a rollback on error, and runs the callback against that transaction |
| Database.UnitOfWork.Interpret | internal/platform/database/tx.go:66-93 | runs a callback of any shape statement by statement exactly as the specification says |
| Database.UserUseCase.CreateUser | internal/feature/user/usecase.go:47-76 | the unit of work around its callback; at top level the stored rows stay sound and the answer is true of them, success exactly when the email is new if nothing outside fails; inside a transaction the atomic operation on what that sees, and no commit |
| Database.UserUseCase.GetUser | internal/feature/user/usecase.go:78-93 | answers the stored row and the stored balance, from the committed rows at top level and from what its transaction sees inside one; not found for a failed user read, zero for a failed balance read; writes nothing |
| Database.WalletUseCase.CreateWallet | internal/feature/wallet/usecase.go:42-62 | as CreateUser, for wallets: success exactly when the user is stored and no wallet names it |
| Database.WalletUseCase.GetWallet | internal/feature/wallet/usecase.go:64-70 | answers the stored balance of what its context sees, not found if there is none or the read failed; writes nothing |
| Naming.ToPascalCase | cmd/codegen/main.go:270-283 | the builder loop computes the capitalized segments joined |
| Naming.JoinIsCamel | cmd/scaffold/main.go:266-279 | splitting, capitalizing and joining equals one pass over the bytes, for every input |
| Naming.PascalRoundTrip | cmd/codegen/main.go:270-291 | Pascal and lower camel case lose exactly the underscores not followed by a letter |
| Naming.CanonicalIsRoundTrip | cmd/codegen/main.go:270-291 | a valid name comes back unchanged if and only if its segments are nonempty and start with a letter |
| Naming.PascalCollision | cmd/codegen/main.go:270-291 | two valid names collide if and only if they differ only in such underscores |
| Naming.PluralCollision | cmd/scaffold/main.go:285-307 | two different names share a table if and only if they are a sibilant b and b+"e", or c+"y" and c+"ie" after a non-vowel |
| Naming.AtMostTwoShareATable | cmd/scaffold/main.go:285-307 | no three names share a table |
| Naming.PluralLaw | cmd/scaffold/main.go:285-307 | the plural of every name, on its last two bytes |
| Naming.CaseLaw | cmd/codegen/main.go:270-291 | case mapping byte by byte: letters keep their place in the alphabet, other ASCII stays, any other byte becomes EF BF BD |
| Naming.ValidNameLaw | cmd/scaffold/main.go:61-65 | which names are valid, character by character |
| Sorting.AtMostLaw | cmd/codegen/main.go:41-43 | the order is that of Go strings: a beginning first, else the first byte that differs decides |
| Sorting.SortedUnique | cmd/codegen/main.go:41-43 | if equal keys mean equal elements, any two sortings of the same elements are the same list |
| Codegen.EachOutcome | cmd/codegen/main.go:45-54 | where every path's content comes from after the loop: the last owner's rendering, the old content or the first owner's stub, or the old content |
| Codegen.InputsUnchanged | cmd/codegen/main.go:39-40 | a run changes neither gen/ nor the module name it reads |
| Codegen.GenerateIdempotent | cmd/codegen/main.go:38-60 | running the generator twice equals running it once, for every file system |
| CodegenPolicy.RunRefreshes | cmd/codegen/main.go:45-55 | right after a run a package's service.go and wire.go and the registry, by their paths, render current inputs; wire.go lists each of the three constructors once, and WireBind once exactly when facade.go exists |
| CodegenPolicy.AllFreshIff | cmd/codegen/main.go:45-55 | after a run with any sorting, every service found has fresh files if and only if no two different services share a feature package |
| CodegenPolicy.RunGlues | cmd/codegen/main.go:45-55 | over services of distinct packages and any sorting, every one found has its glue, its provider list and, if they were missing, its own first usecase.go and repo.go; the registry names them all in order under their own alias, package, variable and service name |
| CodegenPolicy.InputsDecide | cmd/codegen/main.go:38-40 | what a run finds depends on the files under gen/ and on go.mod alone |
| CodegenPolicy.StopsWithoutModule | cmd/codegen/main.go:62-80 | without a go.mod that names a module nothing is written |
| CodegenPolicy.OrderIndependentIff | cmd/codegen/main.go:41-55 | the output is the same for every sorting of every discovery order if and only if no two different services share a feature package |
| CodegenPolicy.TwoVersionsDiffer | cmd/codegen/main.go:41-55 | two versions of one service: both orders are sorted, and they leave different files |
| CodegenPolicy.HandEditsSurvive | cmd/codegen/main.go:203-209 | over any interleaving of runs and edits, a file that none of those runs rewrites keeps the last hand edit, and one that none creates follows deletions too |
| CodegenPolicy.OwnedFiles | cmd/codegen/main.go:203-209 | whatever is found, in any interleaving usecase.go and repo.go are never rewritten, facade.go and wire_bind.go neither rewritten nor created |
| CodegenPolicy.OwnersFound | cmd/codegen/main.go:45-54 | every other file a run rewrites or creates belongs to a package it found |
| CodegenPolicy.RegistryFieldsDistinct | cmd/codegen/main.go:402-406 | the registry's fields are distinct if and only if no two packages differ only in underscores not followed by a letter |
| CodegenInterrupted.RunIsJobs | cmd/codegen/main.go:45-55 | a run is its writes done one by one in order |
| CodegenInterrupted.RerunRepairsIff | cmd/codegen/main.go:235-268 | wherever a run stops, running again gives what one clean run gives if and only if it did not stop while creating a create-once file, leaving something else in it |
| CodegenInterrupted.SpoiledStubIsReachable | cmd/codegen/main.go:261-263 | creating a usecase.go can be what stops |
| CodegenProgram.WriteTemplateFile | cmd/codegen/main.go:235-268 | an existing file is left alone unless overwriting is asked for; no other path changes |
| CodegenProgram.SortSlice | cmd/codegen/main.go:41-43 | sorts the services in place by feature package |
| CodegenProgram.GenerateLoop | cmd/codegen/main.go:45-54 | flagging each service in place and writing its files leaves the specified file system |
| CodegenProgram.RunCodegen | cmd/codegen/main.go:38-60 | the whole program leaves the specified file system, and writes nothing without a module name |
| Scaffold.PlanDistinctIff | cmd/scaffold/main.go:139-171 | the seven paths are pairwise distinct if and only if the name is not error_reason |
| Scaffold.CreateNeverOverwrites | cmd/scaffold/main.go:173-185 | whatever fails and wherever, no file that was there changes; if any of the seven was there nothing is written |
| Scaffold.CreateSucceedsIff | cmd/scaffold/main.go:112-188 | it succeeds exactly when nothing is in the way and nothing fails, and then each path holds its own rendering unless the name is error_reason |
| Scaffold.SevenFiles | cmd/scaffold/main.go:139-171 | after a command that succeeded each of the seven paths, written out, holds the rendering of its own template, for this name, its Pascal and upper-case forms, its plural and the project's module |
| Scaffold.UpperSnakeLaw | cmd/scaffold/main.go:281-283 | letters become capitals in place, the rest of a name stays |
| Scaffold.CreateFailureLaw | cmd/scaffold/main.go:112-188 | every error of the file-creation phase is true: which file was in the way first, or which write failed first, with the files before it whole and those after it untouched |
| Scaffold.AddFailureLaw | cmd/scaffold/main.go:61-100 | and every error of the command, with what it leaves of buf.gen.yaml |
| Scaffold.SecondOfPairStops | cmd/scaffold/main.go:163-179 | once the first of two names that share a table has been added, adding the second stops before any file is written, whatever else may fail |
| Scaffold.SecondIsRefusedIff | cmd/scaffold/main.go:61-100 | after one feature was added, adding another valid name whose files were not there is refused, with nothing written, if and only if the two names form a plural pair |
| Scaffold.AddSucceedsIff | cmd/scaffold/main.go:61-100 | with nothing failing outside, add-feature succeeds exactly on a valid name in a project with go.mod and buf.gen.yaml and none of the seven files |
| Scaffold.LeftoverRefuses | cmd/scaffold/main.go:173-185 | once a run has left anything, every later run of that name stops without writing, whatever was added since and whatever else may fail |
| Scaffold.RetryIsRefusedIff | cmd/scaffold/main.go:112-188 | a failed run can be retried if and only if it left nothing behind |
| Scaffold.PortsClashIff | cmd/scaffold/main.go:366-373 | two features declare one type in package ports if and only if their names differ only in underscores not followed by a letter |
| Scaffold.AcceptedNamesCanClash | cmd/scaffold/main.go:112-188 | a1 and a_1 are both accepted and declare one type |
| Scaffold.ErrorReasonLosesItsProto | cmd/scaffold/main.go:139-185 | error_reason is a valid name: in any project with room for it the command succeeds and the feature's own proto file is lost |
| Scaffold.AddKeepsExistingFiles | cmd/scaffold/main.go:61-100 | add-feature changes no existing file but buf.gen.yaml |
| Scaffold.UpperSnakeInjective | cmd/scaffold/main.go:281-283 | different valid names get different error-reason names |
| Scaffold.IncludeApiKeeps | cmd/scaffold/main.go:211-220 | whatever the sort does with equal directories, the api directory is included and every input but the first is kept |
| Scaffold.IncludeApiIdempotentIff | cmd/scaffold/main.go:211-220 | over every sorting, editing buf.gen.yaml twice keeps the inputs that editing once left if and only if each input after the first is the bare api directory or sorts strictly after "api" |
| Scaffold.IncludeApiSameListIff | cmd/scaffold/main.go:211-220 | and it leaves the same list if and only if, besides, no two different inputs after the first share a directory |
| Scaffold.SecondAddLosesInput | cmd/scaffold/main.go:61-100 | if an input after the first sorts before "api", adding one feature moves it to the front and adding another overwrites it |
| Scaffold.InputIsLost | cmd/scaffold/main.go:61-100 | such a project exists: with an input "aaa", any two features with different tables lose it |
| ScaffoldProgram.CreateFeatureFiles | cmd/scaffold/main.go:112-188 | checking all and then writing all, one file at a time, does what the specification says at every failure point |
| ScaffoldProgram.EnsureBufGenIncludesAPI | cmd/scaffold/main.go:199-227 | rewrites the inputs of buf.gen.yaml, or fails leaving it as it was or cut short |
| ScaffoldProgram.AddFeature | cmd/scaffold/main.go:61-100 | the whole command, from the name check to buf.gen.yaml |
| Together.AddedFeatureIsBound | cmd/codegen/main.go:45-49 | the facade that add-feature wrote is the one the generator looks for: the next run lists WireBind for the feature and touches neither file |

## Left out

- Database.Db.End: a failed commit is a rollback here; one that took effect unacknowledged is modelled in `Protocol`.
- UnitOfWorkSpec.AllOrNothing: for the same reason does not cover an error answered after a commit that took effect; `FailedRequestLeavesNothing` does.
- Panics: a nil `*gorm.DB` is a failing statement here instead of a nil dereference.
- CodegenProgram.RunCodegen: its writes do not fail; a run that stops at any write is `Stopped` in `CodegenInterrupted`, on the list of writes that `RunIsJobs` proves to be the run.
- The branch of `Do` for a context without transaction state (internal/platform/database/tx.go:74-78): `WithinTransaction` always puts the state there, so it cannot be reached.
- Database.UnitOfWork.Do: one caller at a time; a second transaction opened from a detached context while one is open is only modelled in `Protocol`, where any number are.
- Protocol.Step: the requests are the top-level use cases; composed inside a larger transaction they are covered by `UseCaseInside`, for one caller at a time.
- VARCHAR lengths, NOT NULL and timestamps of the tables: a value the database rejects for such a reason is a failing statement, possible at every step.
- The width of user ids a caller passes in: ids are unbounded integers, and only the two sequences end at the largest BIGINT.
- Database.UserRepo.GetByID and Database.WalletRepo.GetByUserID: an error and an absent row are one result, as every caller treats them.
- sort.Slice's algorithm: only that it sorts. Where keys are equal, `SortByPkg` and `IncludeApi` keep the order, which Go does not promise; `OrderIndependentIff`, `AllFreshIff`, `IncludeApiKeeps` and `IncludeApiIdempotentIff` cover every sorting.
- CodegenProgram.SortSlice: sorts through a copy, since Go's in-place algorithm belongs to its library.
- Template texts and formatting: a rendered file is the template's name with the inputs it depends on.
- Parsing of generated Go files: the services found are an arbitrary function of gen/ and the module name.
- Reading go.mod and buf.gen.yaml as text, trimming the feature name, making the root absolute, and the clock behind the migration name: taken as inputs.
- Two generators running at once on one file system.
- gorm, Kratos, Wire, buf, tokens, HTTP and gRPC servers, configuration loading, doctor and upgrade commands.
