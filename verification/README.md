# Metrics server and agent: a verified model

A model in Dafny 4.11 of a metrics server and its agent: the two metric stores, the handlers that
write to them, the snapshot file and the shutdown of the server, the agent that collects and sends,
the worker pool and the audit fan-out, the RSA chunk codec, the generator of `Reset` methods and the
linter. `dafny verify dfyconfig.toml` checks everything.

Values follow Go: `int64` sums wrap, slices share backing arrays, nil pointers are kept apart from
pointers to zero, and errors are values. Code that updates objects is modelled with classes, arrays
and loops (the store with its heap cells, `SafeMetrics`, the storage file, the retry loops, the chunk
loops, the linter, the generator's buffer); goroutines are modelled as step relations over every
interleaving.

| file | models |
|---|---|
| Metrics.dfy | metrics, validation, int64 |
| StoreSpec.dfy | what a store means: an ordered list with unique keys |
| MemoryStorage.dfy | the in-memory store with slice, index and heap cells |
| StoreClients.dfy | every caller of the store, as one client that never forgets a pointer |
| Handlers.dfy | the handlers that look up first and save afterwards |
| Postgres.dfy, TwoStores.dfy | the second store, its retried transactions, and how the two compare |
| SnapshotCodec.dfy, StorageFile.dfy | the JSON form, writing and reading the storage file, restoring |
| ServerLifecycle.dfy | a whole run of the server: handlers, saver, final select, shutdown, restart |
| WorkerPool.dfy | the bounded pool, for any schedule |
| Agent.dfy, AgentSafety.dfy, AgentAccounting.dfy | collectors and senders on the pool, their safety over whole runs, what the server ends up with |
| AgentMetricsObject.dfy | `SafeMetrics` as an object, and the sending loop |
| Fanout.dfy, AuditRetry.dfy | Publish over any number of observers; the retrying audit client |
| RsaCodec.dfy | Encrypt and Decrypt around OAEP blocks |
| ResetPaths.dfy, ResetText.dfy | printed access paths and statements, and a parser for the part of Go they use |
| ResetGenerator.dfy | the generator as a compiler from types to statements, and what the statements do to a heap |
| ResetNested.dfy, ResetIdle.dfy, ResetExact.dfy | arrays in arrays, fields with nothing to reset, and exactly for which field types the code is right |
| ResetBodies.dfy | the text of whole methods, and generated structures inside one another |
| LintVisitor.dfy | the pruned AST walk against a predicate on paths |

Some facts a reader of the repository may not expect, all of them proved:

- Both array loops of a generated `Reset` are named `i`, so arrays nested inside arrays are reset only
  where all indices are equal, and a nil check there may run past an array. Exactly for which field
  types the code is right is `ResetExact.MeetsSpecExactly`, among those whose code compiles.
- A field that is an array of plain structs, or leads to one, gets a loop that does not use its
  variable, which Go compilers reject (`ResetIdle.CompilesExactly`).
- Generated code evaluates `x.f` again for every element. For an array of two or more elements behind
  a pointer, a Reset method that redirects that pointer makes it reset another array, or panic
  (`ResetExact.RedirectingResetGoesWrong`). So may a type parameter that stands for a type in which
  that pointer can lie, such as a struct with the receiver inside: zeroing element 0 then zeroes `x.f`
  (`ResetExact.ReceiversInTheArray`, `ResetExact.MayCutGoesWrong`). Methods that are themselves
  generated redirect no pointer unless they zero one (`ResetBodies.GeneratedKeepPointers`).
- The two stores part exactly past 64 bits and on ids that a TEXT column refuses
  (`TwoStores.RunFailsExactly`), and on a hash or a number of the other type in the first save of a
  key (`TwoStores.ForeignFieldsPart`).
- A snapshot gives back the store exactly when the JSON encoder leaves all its text as it is
  (`SnapshotCodec.SnapshotRoundTrip`).
- A Postgres commit that is applied but reported as failed, with an error the loop retries, applies
  the batch once more: counters then gain a multiple of the batch (`Postgres.CopiesMeaning`).
- The linter stops with a nil dereference exactly on files that declare a function without a body
  (`LintVisitor.PanicsExactly`).

On the path where a metric exists, the single-metric handlers answer with the value read before the
save, and so does the model; the save itself is never lost (`Handlers.NoUpdateIsLost`).

## Model

| member | source | states |
|---|---|---|
| `Metrics.Wrap` | internal/repository/memory.go:108-108 | an int64 sum: unchanged when it fits, otherwise congruent to the exact sum modulo 2^64 |
| `Metrics.WrapOnce` | internal/repository/memory.go:103-110 | wrapping at every `+=` gives what wrapping the exact sum once gives |
| `Metrics.ValidExactly` | internal/repository/memory.go:132-149 | a metric is valid exactly when it has an id, and is a counter with a delta or a gauge with a value |
| `StoreSpec.SaveLookup` | internal/repository/memory.go:100-130 | one save changes the entry of its own key only: an existing entry is merged (counters add, gauges are replaced), a new one is kept whole; keys stay unique |
| `StoreSpec.SaveAllKeepsPositions` | internal/repository/memory.go:100-130 | no sequence of saves ever moves a key from the position it was given |
| `StoreSpec.SaveAllKeepsValid` | internal/repository/memory.go:100-149 | a store built by validated saves holds only metrics that would validate |
| `StoreSpec.HistoryMeaning` | internal/repository/memory.go:100-130 | after any history of valid saves a key is present exactly when it was saved, a counter is the int64 wrap of the exact sum of its deltas, a gauge is its last value |
| `StoreSpec.FirstInvalid` | internal/repository/memory.go:80-84 | batch validation finds nothing exactly when every element is valid |
| `StoreSpec.RunSavesAccepted` | internal/repository/memory.go:58-98 | any history of single and batch commands leaves what saving the elements of the commands that did not fail, one by one, leaves: a batch counts as a whole or not at all |
| `MemoryStorage.CloneMetric` | internal/repository/memory.go:151-162 | a copy has the same value and only new cells |
| `MemoryStorage.Store.constructor` | internal/repository/memory.go:24-29 | a new store is empty, with an exact (empty) index |
| `MemoryStorage.Store.IndexIsScan` | internal/repository/memory.go:32-43 | in every valid state the hash index answers what a linear scan of the slice answers, and keys are unique |
| `MemoryStorage.Store.GetMetricsByID` | internal/repository/memory.go:32-43 | a lookup returns a fresh copy of the entry of the key, or reports its absence |
| `MemoryStorage.Store.GetAllMetrics` | internal/repository/memory.go:46-55 | the list returned has the contents of the store, in order, in cells that are all new and distinct |
| `MemoryStorage.Store.SaveMetricsLocked` | internal/repository/memory.go:100-130 | the real heap after a save (in-place `+=` included) is the save of the specification; the answer is a fresh copy of the entry; every cell the store gains is new |
| `MemoryStorage.Store.UpdateInPlace` | internal/repository/memory.go:102-118 | updating an existing entry through its pointers changes that entry only, by the merge rule |
| `MemoryStorage.Store.AddThroughPointer` | internal/repository/memory.go:107-109 | the in-place `+=` changes the one entry that owns the cell, with int64 wrap-around |
| `MemoryStorage.Store.SaveMetrics` | internal/repository/memory.go:58-74 | a single save with all its error cases: context done on entry, invalid metric, context done at the lock; the store changes only on success |
| `MemoryStorage.Store.ValidateAll` | internal/repository/memory.go:80-84 | the validation loop returns the first error of the batch |
| `MemoryStorage.Store.SaveMetricsBatch` | internal/repository/memory.go:77-98 | a batch leaves the store unchanged (context or validation error) or equal to the fold of single saves, and element i of the answer is the running value after i + 1 elements, repeated keys included |
| `StoreClients.OnlyCommandsMatter` | internal/repository/memory.go:41-54 | in a session of arbitrary saves, reads and writes to known cells, only the commands change the store |
| `StoreClients.AnswersAreBatchAnswer` | internal/repository/memory.go:86-97 | the answer of a batch is determined by the store before it and the batch |
| `StoreClients.Client.RunSession` | internal/repository/memory.go:41-130 | heap isolation: a client that keeps every cell it passed in or got back, and writes to any of them at any time, ends with the store exactly as in a world where every metric is copied, so no write reaches the store and no later save changes an earlier answer |
| `Handlers.BothBranchesSaveTheSame` | internal/service/service.go:31-77 | the update branch and the create branch save the same valid metric, however stale the lookup |
| `Handlers.StepKeepsInv` | internal/handler/server/handler.go:247-279 | any interleaving of lookups and saves keeps the store equal to the fold of the saves, one per finished request |
| `Handlers.NoUpdateIsLost` | internal/handler/server/handler.go:247-279 | whatever the interleaving, a counter ends with its old sum and the deltas of all finished requests under its key, wrapped once |
| `Handlers.RunIsItsWrites` | internal/handler/server/handler.go:247-279 | however lookups and writes interleave, the store ends as if the requests had been saved one by one in the order of their writes, whatever their lookups found, and a gauge has the value written last |
| `Handlers.LooksUpExactly` | internal/handler/server/handler.go:247-255 | a lookup finds the entry of the key exactly if there is one, and changes nothing |
| `Handlers.AnswersExactly` | internal/handler/server/handler.go:247-279 | a handler answers with the metric its lookup found, and if it found none with the entry its own save left |
| `Handlers.ArrivalsAreKept` | internal/handler/server/handler.go:247-279 | every request that comes in has a handler and keeps it |
| `ResetPaths.PrintedPathsReadBack` | cmd/reset/main.go:366-369 | every printed location, and everything the generator writes behind a parenthesized one (`.Reset()`, the type assertion, `[:0]`), parses under the rules "Primary expressions" and "Operators" of the Go specification to the intended tree |
| `ResetPaths.ReadBack` | cmd/reset/main.go:455-460 | a location followed by more text reads as that location with the rest applied to it |
| `ResetPaths.ExpressionInjective` | cmd/reset/main.go:366-403 | two different locations are never printed alike |
| `ResetPaths.ParenthesesAreNeeded` | cmd/reset/main.go:455-460 | without `parenthesize` an index behind a dereference would read as a dereference of an index |
| `ResetGenerator.FieldMeetsSpec` | cmd/reset/main.go:354-409 | compiler correctness: for a field type that does not nest arrays (or nests only arrays of length 1), running the emitted statements gives the same heap, the same order of resets and the same panics as resetting the value recursively. It does so on every heap when no array of two or more elements stands behind a pointer, or when resetting the field writes no pointer (it zeroes no type with a pointer in it, and the Reset methods it may call write none), and otherwise on heaps whose pointers are kept apart |
| `ResetGenerator.CodeMeetsSpec` | cmd/reset/main.go:354-409 | the same for any location inside a value, under an inner loop variable that may hide an equal outer one, when no address is evaluated again after a pointer on it may have changed |
| `ResetGenerator.ResetKeepsPointers` | cmd/reset/main.go:364-371 | resetting a value keeps every pointer that is kept apart from what is reset, and every pointer at all when no type parameter reset stands for a type with a pointer in it and no Reset method called writes one |
| `ResetGenerator.LeafMeetsSpec` | cmd/reset/main.go:373-408 | for every kind of type that is not a pointer or an array, the one statement emitted does what resetting that kind means: scalars zero, slices length 0 with their storage, maps cleared, channels and functions nil, interfaces and structs through their own Reset, and a value of a type parameter zero in all its cells |
| `ResetGenerator.CallsResetExactly` | cmd/reset/main.go:411-453 | the code calls Reset on a struct exactly when it is itself generated or has a method Reset without parameters and results, on whichever receiver |
| `ResetGenerator.ChangesAreRecorded` | cmd/reset/main.go:354-409 | as long as no value is recorded as reset, the heap is as it was, so the statements about which values are reset leave nothing out |
| `ResetGenerator.SharedMeaning` | cmd/reset/main.go:373-400 | clearing a nil map does nothing and clearing any other empties its table; an interface value is left alone unless it is there and has a method Reset |
| `ResetGenerator.OnlyEqualIndices` | cmd/reset/main.go:401-404 | for every type, however deeply its arrays are nested, on every heap and for every set of Reset methods: only elements whose indices are all equal, in the heap of that moment, are ever reset, since both loops are named i |
| `ResetNested.NestedArraysGoWrong` | cmd/reset/main.go:401-404 | whenever two non-empty arrays are nested and not both of length 1, and there is something to reset in them, there is a heap with all pointers kept apart on which the emitted code leaves a value that is not reset |
| `ResetExact.MeetsSpecExactly` | cmd/reset/main.go:354-409 | for every field and field type whose code compiles (`ResetIdle.CompilesExactly`): the emitted code is right on every well-typed heap and for every set of Reset methods if and only if the type nests no arrays (or only arrays of length 1) and no pointer can change before it is followed again. Pointers hold when no array of two or more elements stands behind one, when what is reset neither calls a Reset method nor has a pointer in it, or when none of the pointers in it can be one of those before the array: not by its type, or, for the field itself, not by where it is declared. For a type with nothing to reset the code is right if and only if no address in it can lead nowhere |
| `ResetExact.MeetsSpecWhenSafeExactly` | cmd/reset/main.go:354-409 | the same on the heaps whose pointers are kept apart from what is reset: then only the nesting of arrays matters, or for a type with nothing to reset the addresses in its code |
| `ResetExact.RedirectingResetGoesWrong` | cmd/reset/main.go:401-404 | for a field that ends in Reset methods and nests no longer arrays, the code is right whatever those do if and only if no array of two or more elements stands behind a pointer |
| `ResetExact.UnsteadyGoesWrong` | cmd/reset/main.go:401-404 | for every type that is left, some Reset methods, or some well-typed heap in which a value of a type parameter has a pointer of the way in it, make the code differ from resetting the field |
| `ResetExact.MayCutGoesWrong` | cmd/reset/main.go:354-409 | the input behind it: if a pointer in a value of a type parameter can be the field, because the value can have the receiver in it, or a pointer behind the field, zeroing element 0 makes the code panic at element 1 where resetting the field goes on |
| `ResetExact.ReceiversInTheArray` | cmd/reset/main.go:354-409 | the smallest case: a field that points to an array of two or more structs, each with a receiver in it, goes wrong |
| `ResetExact.OtherPointersInTheArray` | cmd/reset/main.go:354-409 | the same array of structs with a pointer of the very type of the field, but no receiver, in them is reset correctly on every well-typed heap |
| `ResetExact.OutOfReachMeets` | cmd/reset/main.go:354-409 | in general: if no pointer in the values zeroed can be one of those that lead to them, the code does what resetting the field means |
| `ResetIdle.PassesMeans` | cmd/reset/main.go:366-371 | the code emitted for a type with nothing to reset never changes the heap; it ends exactly when every address it evaluates leads somewhere |
| `ResetIdle.NeverPanicsPasses` | cmd/reset/main.go:366-404 | they all do on every well-typed heap when the innermost array around each is the shortest, and none follows a pointer with another index than it was checked with |
| `ResetIdle.PanicsSomewhere` | cmd/reset/main.go:366-404 | when the type says otherwise, the code panics on some heap |
| `ResetIdle.NestedPointersPanic` | cmd/reset/main.go:401-404 | the code emitted for an array of longer arrays of pointers panics on every heap, whatever the pointers lead to |
| `ResetIdle.CompilesExactly` | cmd/reset/main.go:401-408 | the emitted loops use the variable they declare, as Go compilers demand, exactly when no array on the way holds values about which nothing is done |
| `ResetText.ResetTextReadsBack` | cmd/reset/main.go:354-409 | the text written for a location of any type, at any indentation, is read back as exactly the statements that reset it, by a reader that follows the Go specification (blocks, assignments, if, for, var, calls; decimal and string literals) and knows nothing of the printer |
| `ResetText.AllRead` | cmd/reset/main.go:354-409 | the same for the syntax alone and for any statements: their text, followed by anything, parses to their syntax trees followed by what the rest parses to |
| `ResetBodies.GenerateReset` | cmd/reset/main.go:354-409 | the recursive printer appends the text of the statements of the specification; how a compiler reads that text is `ResetText.ResetTextReadsBack` |
| `ResetBodies.GenerateField` | cmd/reset/main.go:298-300 | the names of one field declaration add the statements of all its named, non-blank fields |
| `ResetBodies.GenerateBody` | cmd/reset/main.go:292-306 | the body of a Reset method is the text for every nameable field in declaration order, embedded fields included, and a Go compiler reads it as exactly the statements of those fields |
| `ResetBodies.NotBlankKeepsOrder` | cmd/reset/main.go:319-334 | of the names of a declaration the blank ones are left out and the others kept in order |
| `ResetBodies.FieldsOfDeclaration` | cmd/reset/main.go:319-352 | a declaration has the fields it names except blank ones, or one embedded field if it names none; a type without a name gives no field |
| `ResetBodies.EmbeddedByUnqualifiedName` | cmd/reset/main.go:336-352 | an embedded field is called by the unqualified name of its type: the last name in the text of the type, whatever pointers, packages, brackets and type arguments surround it |
| `ResetBodies.TextMeetsSpec` | cmd/reset/main.go:292-306 | from the text to its effect: the generated text of a body, read by a compiler and run, resets every named field of the receiver in order, under the conditions of `ResetGenerator.FieldMeetsSpec` |
| `ResetBodies.BodyMeetsSpec` | cmd/reset/main.go:292-306 | running a whole generated body resets every named field of the receiver, in order, under the conditions of `ResetGenerator.FieldMeetsSpec` |
| `ResetBodies.GeneratedKeepPointers` | cmd/reset/main.go:281-317 | generated methods, however deeply nested, leave every pointer as it is if the other Reset methods they end in do and no field is of a type parameter that stands for a type with a pointer in it |
| `ResetBodies.NestMeetsSpec` | cmd/reset/main.go:281-317 | the generated methods together: calling Reset on a structure resets its fields and those of all generated structures inside it, recursively and in order, on every heap; fields that end in Reset methods may have longer arrays behind pointers as long as the other methods of the program write no pointer |
| `WorkerPool.PoolStepKeepsInv` | internal/workerpool/workerpool.go:17-72 | every step of the pool keeps its accounting of accepted, queued, running and finished tasks |
| `WorkerPool.PoolRuns` | internal/workerpool/workerpool.go:17-72 | over every schedule of a pool with n > 0 workers: at most n tasks run and at most n are queued, tasks start in acceptance order, none is lost or run twice, and once all workers have exited every accepted task has finished |
| `WorkerPool.StepDecreases` | internal/workerpool/workerpool.go:32-38 | after Close, every step lowers a measure |
| `WorkerPool.StepExists` | internal/workerpool/workerpool.go:65-72 | after Close, some worker can move until all have exited, so Wait returns |
| `Agent.AppendFromStart` | internal/agent/agent.go:83-85 | append(s[:0], xs...): the result reads xs, and no backing array but that of s changes |
| `AgentMetricsObject.SharedMetrics.constructor` | internal/agent/agent.go:195-195 | the zero SafeMetrics: nothing collected, nothing sent |
| `AgentMetricsObject.SharedMetrics.Collect` | internal/agent/agent.go:65-87 | one poll on the object: the new figures are those the poll read, with failed readings keeping the old ones; the CPU array is overwritten in place or replaced by a new one |
| `AgentMetricsObject.SharedMetrics.SnapshotWithRevision` | internal/agent/agent.go:95-107 | a snapshot equals the current figures and has a CPU array of its own |
| `AgentMetricsObject.SharedMetrics.MarkSent` | internal/agent/agent.go:109-116 | sentRevision is the maximum of its old value and the revision sent |
| `AgentMetricsObject.SharedMetrics.SendUnsentMetrics` | internal/agent/agent.go:243-267 | without interference: something is sent exactly when something is new, it is the current figures, and they count as sent exactly when an attempt succeeded |
| `AgentMetricsObject.RetriableExactly` | internal/agent/agent.go:370-385 | a send is worth another try exactly when the status inside is 429 or from 500 up, or when what failed below the url.Error is the network |
| `AgentMetricsObject.SendAllMetricsWithRetry` | internal/agent/agent.go:350-368 | the loop stops at the first success, the first error not worth retrying or the fourth attempt, and returns that outcome |
| `AgentSafety.StepKeepsInv` | internal/agent/agent.go:65-267 | every step of every goroutine keeps the invariant of the agent |
| `AgentSafety.StepKeepsSnapshots` | internal/agent/agent.go:83-107 | a snapshot under way keeps the figures of its revision, although polls overwrite the shared CPU array in place |
| `AgentSafety.RevisionProtocol` | internal/agent/agent.go:243-267 | over whole runs, any number of workers and any network, for the first 2^63 - 1 polls: sentRevision <= revision, sends exclude each other, acknowledged revisions strictly increase, and every payload is exactly the data of its revision, PollCount included |
| `AgentSafety.ShutdownIsComplete` | internal/agent/agent.go:204-218 | when RunAgent returns after its pool has started, every accepted task has finished and no step of the agent is possible any more. It returns nil if and only if what was collected last has been acknowledged (or nothing was collected), and the final send reports just that; otherwise that send gave up after a fatal reply or a fourth retriable one. Every send of the run was reported for what its attempts were: a success exactly when the last of them was acknowledged or none was needed |
| `AgentSafety.TicksAreTasks` | internal/agent/agent.go:220-240 | every tick is handed to the pool as one task, in order: none is dropped and none is added twice |
| `AgentSafety.StepBringsReturnNearer` | internal/agent/agent.go:206-218 | once the loop is left, every step lowers a measure |
| `AgentSafety.SomeStepExists` | internal/agent/agent.go:204-267 | the agent is never stuck before it returns: a held send mutex is on its way back, a full queue is being drained |
| `AgentAccounting.ServerCounter` | internal/agent/grpc.go:19-69 | end to end: the counter PollCount of the server gains one revision per applied copy, a successful send being applied between one and four times; without lost acknowledgements the gains are a strictly increasing series, so k successes add at least k(k+1)/2 |
| `AgentAccounting.RequestWithGauges` | internal/agent/agent.go:293-340 | the request built from a snapshot, in any order, carries its PollCount and nothing else under that key |
| `SnapshotCodec.MetricRoundTrip` | internal/model/metrics.go:11-17 | a metric with finite numbers is decoded with the same numbers, nil pointers and pointers to zero included, and is the metric encoded if and only if the encoder leaves its id, its type and any hash as they are |
| `SnapshotCodec.EncodeFailsExactly` | internal/server/file_converter/file_converter.go:39-44 | encoding a list fails exactly when some gauge is NaN or infinite |
| `SnapshotCodec.DecodedExactly` | internal/server/file_converter/file_converter.go:70-94 | what is read of a metric: every field that is there, and a number without a fraction as a gauge value too |
| `SnapshotCodec.DecodeFailsExactly` | internal/server/file_converter/file_converter.go:70-94 | a document is refused exactly when a field of one of its metrics has the wrong JSON type |
| `SnapshotCodec.EncodedExactly` | internal/model/metrics.go:11-17 | what is written of a metric: id and type always, a number only if there is one, a hash only if it is not empty, and nothing else |
| `SnapshotCodec.ListRoundTrip` | internal/server/file_converter/file_converter.go:26-94 | a storable list is read back as it was written if and only if all its text is clean |
| `SnapshotCodec.ReplayRebuilds` | internal/server/server.go:55-61 | saving the metrics of a store one by one into an empty one rebuilds the same ordered list |
| `SnapshotCodec.SnapshotRoundTrip` | internal/server/server.go:49-62 | for a store with unique keys and finite gauges, writing, reading and replaying gives the same ordered list if and only if all text is clean |
| `SnapshotCodec.RestoreRebuilds` | internal/server/server.go:49-62 | every store any history of commands can reach, if its gauges are finite, is restored as it was and without a rejected metric if and only if all text is clean |
| `SnapshotCodec.DirtyTextIsLost` | internal/model/metrics.go:11-17 | a metric comes back under another key if and only if the encoder alters its id or its type |
| `StorageFile.Disk.WriteEvent` | internal/server/file_converter/file_converter.go:26-56 | succeeds exactly when no system call fails and the list can be encoded; then the target holds the new document and nothing else changed, else nothing changed; every state the disk passes through has the old target or the whole new one |
| `StorageFile.Disk.ReadMetricsList` | internal/server/file_converter/file_converter.go:70-94 | a file that cannot be opened is an error; a missing file is created and reads as the empty list, as do an empty one and one that holds null; a malformed text and a field of the wrong type are errors |
| `StorageFile.Restore` | internal/server/server.go:55-61 | the restore loop replays the metrics up to the first one the store rejects and returns its error |
| `StorageFile.SaveAndRestore` | internal/server/server.go:31-115 | write a store with finite gauges, read the file into a fresh one: no error, same list and same index if and only if all text is clean |
| `ServerLifecycle.StepKeepsInv` | cmd/server/main.go:198-250 | every step of handlers, saver and main keeps the invariant of the server |
| `ServerLifecycle.ReturnsExactlyTheErrors` | cmd/server/main.go:198-250 | over whole runs RunServer returns exactly the errors there were, each as often as it came about: of the restore, of a server, of the HTTP drain, of a save. So it returns nil if and only if there was none, and then the file holds the final store |
| `ServerLifecycle.RestoreFailsExactly` | internal/server/server.go:31-75 | a restore fails exactly when the file cannot be opened, is no JSON, has a field of the wrong type or holds a metric that no save would take |
| `ServerLifecycle.NilMeansDurable` | cmd/server/main.go:212-250 | durability: when RunServer returns nil the file holds the final store, which is the replay of the whole history; every request has been answered and its command is in that history; no later step changes store or file |
| `ServerLifecycle.ServesUntilItLeaves` | cmd/server/main.go:198-226 | until the select of RunServer has chosen a branch, requests are taken: over HTTP always, over gRPC exactly if that is configured |
| `ServerLifecycle.StorageErrorWakes` | cmd/server/main.go:212-226 | while the server serves, an error of the storage is always there for the select to receive, and RunServer then leaves with it |
| `ServerLifecycle.ArrivalsAreKept` | cmd/server/main.go:198-250 | every request accepted in a run has a handler and keeps it, so the two theorems before speak of all of them |
| `ServerLifecycle.NoStorageErrorIsLost` | cmd/server/main.go:212-250 | an error of the restore (opening, decoding or a rejected metric) or of any save is among the returned errors, whichever branch of the select wins; the branch woken by the storage never returns nil |
| `ServerLifecycle.FileIsAlwaysAPastStore` | internal/server/server.go:78-115 | in every state the file is the one found at the start (an empty one, if there was none and it had to be restored from) or the image of the store at a past point of the history, and that point never moves back |
| `ServerLifecycle.RestartResumesTheLastSave` | internal/server/server.go:49-62 | whenever the server dies after a save, a restart that can open the file restores without an error exactly the store of the last completed save, if and only if all its text is clean |
| `ServerLifecycle.StopAndStart` | cmd/server/main.go:212-250 | a server that returned nil and is started again restores the replay of the whole history, so nothing acknowledged is lost, if and only if all text in it is clean |
| `ServerLifecycle.OwnStepsEnd` | cmd/server/main.go:212-250 | every step that is not a new request or a tick lowers a measure |
| `ServerLifecycle.LeavingIsNeverStuck` | cmd/server/main.go:212-250 | a server that is shutting down always has a step of its own until it has returned, and one that is no failure unless a list that cannot be encoded is being saved: no drain, send or receive is stuck |
| `Postgres.PostgresStorage.SaveMetricsBatch` | internal/repository/postgres.go:92-119 | an invalid batch changes nothing; a valid one ends as the first attempt that succeeds or fails with anything but a connection error (class 08), or as the fourth |
| `Postgres.PostgresStorage.WithRetryValue` | internal/repository/postgres.go:187-208 | the number of attempts made is the least at which one succeeds, or fails with no server error or one outside class 08, and four at most; the outcome is that of the last attempt made |
| `Postgres.RetriableExactly` | internal/repository/postgres.go:216-223 | an error is worth a retry exactly when the first server error in its tree, in the order of errors.As, is of class 08 |
| `Postgres.RidesOutConnectionErrors` | internal/repository/postgres.go:187-223 | a call whose attempts before a good one all meet a connection error at begin ends as that good attempt does |
| `Postgres.PostgresStorage.RunTransaction` | internal/repository/postgres.go:99-118 | one attempt: begin, the rows in order, rollback or commit |
| `Postgres.RowsExactly` | internal/repository/postgres.go:99-118 | the rows of an attempt go through exactly when every statement does and the connection does not break in one of them, and a break is the error returned if no statement failed before |
| `Postgres.RetriedBatchIsWhole` | internal/repository/postgres.go:92-119 | for every pattern of begin, row, rollback and commit failures the batch has been applied a whole number of times: after a success one more than there were ambiguous commits, after a failure exactly as many |
| `Postgres.Ambiguities` | internal/repository/postgres.go:187-208 | among n attempts at most n are ambiguous, and fewer when the call succeeds, so a success has applied the batch between one and four times |
| `Postgres.SuccessAnswersLastCopy` | internal/repository/postgres.go:104-118 | the answer of a success is the running rows of its last copy, repeated keys included |
| `Postgres.BatchMeaning` | internal/repository/postgres.go:121-161 | what one batch does to a row: counters gain the exact sum (NULL stays NULL), gauges take the last value, other rows stay |
| `Postgres.CopiesMeaning` | internal/repository/postgres.go:121-161 | after k copies gauges are as after one, and counters have gained k times the sum of the batch |
| `Postgres.RowErrorDecides` | internal/repository/postgres.go:106-109 | a server error in a row decides on the retry, whatever the joined rollback error is |
| `TwoStores.FailsExactly` | internal/repository/postgres.go:124-137 | on valid metrics the statements fail exactly when the id column refuses the id of one, or some running counter sum leaves BIGINT |
| `TwoStores.CommandStep` | internal/repository/postgres.go:92-119 | a command that meets no connection fault is one batch of statements, or an error and no change |
| `TwoStores.RunFailsExactly` | internal/repository/postgres.go:92-137 | over a whole history of calls of SaveMetricsBatch, the database refuses something the memory store takes exactly when the id column refuses an id or some running counter sum leaves BIGINT |
| `TwoStores.StoresAgree` | internal/repository/postgres.go:121-161 | for every history in which no id is refused and no running counter sum leaves BIGINT, every call of SaveMetricsBatch succeeds that succeeds on the memory store, both stores have the same keys and, for every key, the same number in the field its type says |
| `TwoStores.OverflowParts` | internal/repository/memory.go:103-110 | past 64 bits the memory store wraps where Postgres refuses |
| `TwoStores.ForeignFieldsPart` | internal/repository/memory.go:119-129 | on the same histories they return the same metric for a key, whole, if and only if the first metric saved under it had neither a hash nor a number of the other type |
| `Fanout.NoSendBlocks` | internal/audit/audit.go:52-72 | no send on jobs or errCh ever blocks |
| `Fanout.PublishNotifiesEachOnce` | internal/audit/audit.go:51-83 | for any number of observers and any schedule, every observer is notified exactly once, and the joined errors are those the calls of Notify returned, each as often as it was returned |
| `Fanout.AtMostFourAtOnce` | internal/audit/audit.go:51-66 | at most four observers are notified at once, by as many goroutines as there are observers if they are fewer |
| `Fanout.ReportsAreResults` | internal/audit/audit.go:56-72 | every report in errCh is the result of the call of Notify that finished the job, for the observer that was taken from the channel |
| `Fanout.StepEndsSooner` | internal/audit/audit.go:51-83 | every step of Publish lowers a measure |
| `Fanout.SomeStepExists` | internal/audit/audit.go:51-83 | Publish is never stuck before it returns |
| `AuditRetry.RetryExactly` | internal/audit/audit.go:224-229 | another try is worth it after any error, after status 429 and after a status from 500 up |
| `AuditRetry.Do` | internal/audit/audit.go:183-222 | up to four attempts, only after a retriable reply, each with a fresh body when the request can make one and with its only body otherwise; exactly the bodies of the replies given up are closed; the result is the context error if the context was done during the last wait, and otherwise the error of making a body or the final reply |
| `RsaCodec.Encrypt` | internal/cryptoutil/rsa.go:76-101 | the chunk loop computes the specified ciphertext or error |
| `RsaCodec.Decrypt` | internal/cryptoutil/rsa.go:103-127 | the block loop computes the specified plaintext or error |
| `RsaCodec.SealedOpens` | internal/cryptoutil/rsa.go:89-98 | every part respects the bound k - 2hLen - 2, so sealing succeeds, and the output is whole blocks that open to the message |
| `RsaCodec.RoundTrip` | internal/cryptoutil/rsa.go:76-127 | for every message and usable key, decryption undoes encryption whatever the randomness, and the ciphertext has exactly the reserved length ceil(len/chunk)*k |
| `RsaCodec.EncryptFailsExactly` | internal/cryptoutil/rsa.go:77-87 | encryption fails exactly when the key is missing, or too small for a message that is not empty |
| `RsaCodec.DecryptExactly` | internal/cryptoutil/rsa.go:103-127 | decryption needs a key, an input of whole blocks, and blocks that all open, with the error of what is missing first; it joins what they open to |
| `RsaCodec.DecryptDistributes` | internal/cryptoutil/rsa.go:111-125 | decryption distributes over the concatenation of whole-block inputs |
| `LintVisitor.Pass.InspectFile` | cmd/linter/analyzer.go:23-31 | the walk of a file adds the specified reports, or stops at a declaration without a body |
| `LintVisitor.Pass.InspectBody` | cmd/linter/analyzer.go:33-44 | the walk of a body adds the specified reports |
| `LintVisitor.Pass.CheckCall` | cmd/linter/analyzer.go:46-70 | one call adds at most one report |
| `LintVisitor.VerdictExactly` | cmd/linter/analyzer.go:46-70 | the verdict on a call is what the linter forbids: the builtin panic, and log.Fatal and os.Exit outside main.main |
| `LintVisitor.BodyExact` | cmd/linter/analyzer.go:33-74 | inside a body a call is reported exactly when it offends: panic anywhere; log.Fatal and os.Exit outside main.main, whose exemption ends at any function literal; nothing in the signature of a literal |
| `LintVisitor.FileExact` | cmd/linter/analyzer.go:23-74 | in a file a call is reported exactly when the outermost declaration around it has it in its body and it offends there; package-level initialisers are never looked at |
| `LintVisitor.FileDistinct` | cmd/linter/analyzer.go:23-74 | no call is reported twice |
| `LintVisitor.PanicsExactly` | cmd/linter/analyzer.go:23-34 | the walk dereferences nil exactly on files that declare a function without a body |

## Left out

- HTTP and chi routing, gzip and HMAC middleware, TLS, trusted subnets, logging and the flag, environment and file configuration: library plumbing or single branches.
- The cryptography inside an RSA block, keys in PEM and X.509, hashes and signatures: a block is sealed and opened by two parameters that satisfy what section 7.1 of RFC 8017 promises, with randomness available.
- JSON text and the text form of floats: the codec is a map of named values that replaces strings that are not valid UTF-8 and refuses NaN and infinities; names of fields are matched exactly, and each occurs once. Rounding is not modelled; gauges are real numbers, NaN or infinite.
- Generated protobuf code and gRPC transport: a remote call is an oracle that succeeds, fails for good or fails for now, possibly after it was applied. Which gRPC status codes are worth a retry is part of that oracle.
- Package loading, type checking, formatting and file writing in cmd/reset: the model starts from resolved field types and ends with the text of a method body. Identifiers are ASCII. A type that leads back to itself through pointers and arrays only (`type P *P`, `type A [2]*A`) is not representable; the generator does not end on it.
- SQL parsing, drivers and other clients that write to the table between two attempts: a statement is the meaning of its ON CONFLICT clause on a table that only this program writes. A single save is the case of a batch of one. Which strings the id column refuses, and why, is a parameter.
- System figures, clocks, tickers, sleeps and signals: values and events chosen freely by the environment.
- Fairness of the Go scheduler: that a shutdown or a Publish ends is stated as a measure every step lowers together with the existence of a step, not as a statement about infinite runs.
- `Pool.AddError` and `Pool.Errors`, a list of errors under a mutex that the agent does not use; `FileObserver`, which appends a line to a file; `HTTPObserver.Notify`, which wraps `retryHTTPClient.Do`; `pkg/pool`, which wraps sync.Pool.
- `NewManager` and its nil filter: the list of observers is taken as given.
- What the agent logs, and its errors while it sets up clients before the pool starts: the model begins with a started pool of `rateLimit` workers.
- The mutexes of SafeMetrics and MemoryStorage inside one short critical section: such a section is one step. The send mutex, which is held across requests, is modelled as such.
- The files a crash leaves behind under a temporary name: the target file is what is followed.
- AgentSafety.RevisionProtocol: covers runs of at most 2^63 - 1 polls; beyond that PollCount, an int64, and the revision, a uint64, part company.
- AgentSafety.ShutdownIsComplete: covers the same runs.
- AgentAccounting.ServerCounter: covers the same runs.
- ResetBodies.NestMeetsSpec: covers structures that contain generated structures of lower numbers, which is all that nesting by value allows; a structure reached again through a pointer is left to the given Reset methods. A field with longer arrays behind pointers that ends in Reset methods is covered when all methods that are given write no pointer, whether or not that field reaches them. A field whose zeroed values have pointers in them that cannot be on the way is covered by `ResetExact.MeetsSpecExactly`, on its own and not inside a nest.
- AgentMetricsObject.SharedMetrics.SendUnsentMetrics: describes one send without interference, because interleavings with polls and other senders are the subject of AgentSafety.
- ServerLifecycle.NilMeansDurable: assumes, as the library documents, that Shutdown and GracefulStop return only once no handler of their server is running.
