# URL shortener: a verified model

This project models the logic of a URL shortening service written in Go and proves properties of the
model. `dafny verify dfyconfig.toml` checks all of it.

**The Reset generator** (`cmd/reset`). A compiler from the type of a struct field to the Go statements that
reset it.
- `GoTypes` holds the types, declarations and method sets, with the embedded field that each promoted method
  comes from, `ResetGen` the generator with the stack it recurses on,
  `ResetFiles` its loops over fields and structs, with the shared import map as an object that they update.
- `ResetCalls` has the calls that the generator makes of itself: it ends if and only if they reach no cycle,
  fails if and only if they reach a call that fails, and succeeds otherwise.
- `ResetTyping` is Go's type checker on the emitted statements; `ResetAccepted` proves exactly which types
  give statements that it accepts.
- `ResetMachine` runs the emitted statements on a heap of typed variables. A nil dereference is `Panic`, a
  statement that Go's compiler would refuse is `IllTyped`, and a call of a generated or promoted method costs
  one unit of fuel, so that calls without end show as `OutOfFuel`. A promoted method is that of the embedded
  field; one that is written by hand may panic in some states of its object.
- `ResetSpec` says without any statements which variables a Reset visits and what becomes of each.
  `ResetVisits`, `ResetProof` and `ResetTheorems` prove that the emitted code does exactly that, whatever
  pointers are shared.
- `ResetMiddlewares` has the repository's own structs, `ResetLimits` concrete inputs on which the generator
  or its output falls short. `Graphs` has the trails and cycles that both kinds of recursion speak of.

**The URL store**, three backends. `Stores` has the two maps as an object with its methods and proves what
every run keeps. `FileStores` adds the append-only log, its replay, and the undo of failed appends.
`SqlStores` has the table with its two unique keys and relates it to the maps through every run;
`BatchQuery` reads the text of the batch INSERT back as SQL.

**The audit worker pool.** `Audit` is a transition system of callers, a bounded channel, workers, one
counter per call, and Stop. Its invariants hold over every interleaving of any number of each.

**The gzip middleware.** `GzipWriter` and `GzipMiddleware` have the recycled writer and reader, their pools,
and the middleware around a handler, with every field and every object identity.

**Ids, URLs and headers.** `Ids` (base64url, cut to size), `Services` (short URLs and back), `Headers` (the
two header parsers), with `Strings` for the Go string functions they call.

Where the code and what is written about it differ, the model follows the code:
- Sections 8.4.1 and 12.4.2 of RFC 9110 make coding names and the name `q` case-insensitive; the parsers
  compare codings and `q=` as they are, and a weight with white space after `q=` is not read.
- `internal/repository/file.go:22-24` describes the file backend as persisting its data; see `AppendReloads`
  and `SavedFileRejected` for when that does not hold.
- Some promises are false in general, and are proved with their exact conditions:
  - the generator returns if and only if its calls reach no cycle (`GeneratorEnds`; `PairNeverEnds` is a
    struct on which it does not);
  - Go accepts its output if and only if the fields fit (`MethodAcceptedExactly`; `ForeignArrayRejected`,
    `UnsafeArrayRejected`, `ShadowedRejected`, `PointerLiteralRejected` and `MisplacedRejected` are shapes that
    do not);
  - a generated Reset can end normally if and only if neither a cycle of references nor a trap is reached
    (`ResetEnds`; `LinkedToItself` is a cycle), and a call that ends panics if and only if a trap is reached
    (`ResetPanics`; `TrapsExactly` says what traps are, `TypedNilPanics` and `ZeroBoxPanics` reach one);
  - a file reloads after an append if and only if its last line was terminated (`AppendReloads`);
  - reused ids: `AddAgrees`, `AddKeepsInverse` and `UndoOne`;
  - after the closing of the audit channel a send on it is possible if and only if a call has tasks left to
    send, or can begin with an observer registered (`PanicExactly`; `OverlapPanics` reaches such a state).

## Model

| member | source | states |
|---|---|---|
| ResetCalls.GeneratorEnds | cmd/reset/main.go:322-401 | the generator returns on a type, given stack enough, if and only if the calls it makes of itself reach no cycle; a field is opened when it and those before it are exported and the calls for those have succeeded |
| ResetCalls.RankedEnds | cmd/reset/main.go:322-401 | a rank that falls along every call that is made, and only those, is reason enough to end |
| ResetCalls.MoreStack | cmd/reset/main.go:241-434 | a larger stack changes nothing about a call that has ended |
| ResetCalls.FailsExactly | cmd/reset/main.go:241-434 | generation fails with an error if and only if its calls reach one that returns it, through calls that pass it on; a named type does not pass on `ErrNotExportedFields` |
| ResetCalls.EmitsExactly | cmd/reset/main.go:241-434 | generation succeeds, given stack enough, if and only if its calls reach neither a cycle nor a failure that is passed on |
| ResetAccepted.OnlyUnnamedPointeesFail | cmd/reset/main.go:322-342 | `ErrNotExportedFields` never leaves a call on a named type, however deep it arose: only a field that is hidden under pointers and struct literals lets it out |
| ResetAccepted.EmitsNothingHidden | cmd/reset/main.go:382-400 | generation never succeeds on a type in which a hidden field lies open |
| ResetAccepted.SilentExactly | cmd/reset/main.go:358-366 | where generation succeeds, nothing is emitted exactly for structs that are left alone and pointers to structs of such fields |
| ResetAccepted.AcceptedExactly | cmd/reset/main.go:241-434 | the statements for a variable type-check in Go if and only if its type fits |
| ResetAccepted.BasicExactly | cmd/reset/main.go:252-275 | a basic type gets a statement if and only if it is one of the eighteen names listed, string to complex128, and Go accepts the statement |
| ResetAccepted.ArrayExactly | cmd/reset/main.go:286-305 | an array gets a statement if and only if its element type is basic or has a name; Go accepts it if and only if the bare name means that type: predeclared and not hidden, of this package, or of the universe and not hidden |
| ResetAccepted.HiddenExactly | cmd/reset/main.go:330-340 | a pointer to a struct with a hidden field is emitted as a composite literal, accepted if and only if the type is of this package, or exported, imported and the only import of its package name |
| ResetAccepted.MethodAcceptedExactly | cmd/reset/main.go:120-168 | Go accepts a generated method if and only if the named fields of its struct fit, a condition on their types alone: array elements whose bare name means them in the package, no hidden fields behind a name for a pointer, no promoted Reset that the declared type hides, and nothing to emit behind two pointers or for a blank field |
| ResetAccepted.MisplacedRejected | cmd/reset/main.go:343-365 | whatever is emitted behind a pointer to a pointer, or for a selector that denotes nothing such as a blank field, Go rejects |
| ResetAccepted.ShadowedRejected | cmd/reset/main.go:322-381 | a struct whose own Reset, with parameters, hides a promoted one gets a call without arguments, and Go rejects it |
| ResetProof.StatementCorrect | cmd/reset/main.go:241-434 | the statements for one selector, run on any well-typed heap after any visits, make exactly the visits from its variable, or panic because those cannot all be made; they are never rejected |
| ResetProof.PointerCorrect | cmd/reset/main.go:343-366 | a pointer is kept, nil or not, and the variable it points to is reset; a pointer to a pointer is left alone |
| ResetProof.FieldsCorrect | cmd/reset/main.go:382-400 | the statements for a list of fields, spliced together, make the visits from each field in order: for a pointee whose fields are all exported and for the named fields of a marked struct |
| ResetProof.CallCorrect | cmd/reset/main.go:372-381 | a struct with a Reset method, generated, promoted or by hand, is reset by that method |
| ResetProof.RelayCorrect | cmd/reset/main.go:211-234 | a promoted Reset, which the method set shows like any other, makes the visits of the embedded field: a struct, what a pointer refers to, what an interface holds; nil is not checked for |
| ResetMachine.PromotedRuns | cmd/reset/main.go:211-234 | which method a promoted Reset runs: that of the embedded struct, of what the embedded pointer refers to, nil too, or of what the embedded interface holds; a nil interface panics |
| ResetProof.ByHandCorrect | cmd/reset/main.go:372-381 | a Reset written by hand is called once more on the state that the calls before have left, and panics exactly when it does so there; on a copy inside an interface it changes nothing |
| ResetProof.InterfaceCorrect | cmd/reset/main.go:411-429 | an interface with a Reset method is kept; what it holds, by pointer or by value, is reset, nil is left alone, and a nil pointer in it panics unless its Reset accepts that |
| ResetProof.NilReceiver | cmd/reset/main.go:170-186 | a generated method does nothing on a nil receiver |
| ResetTheorems.ResetCorrect | cmd/reset/main.go:120-434 | whatever is shared, a call of a generated Reset never runs a rejected statement; when it ends normally the heap is exactly that of its visits |
| ResetTheorems.ResetEnds | cmd/reset/main.go:343-381 | a call can end normally if and only if no cycle of references and no trap is reached; without a cycle a nesting of calls one deeper than the number of variables is enough for any end |
| ResetTheorems.ResetPanics | cmd/reset/main.go:372-429 | a call that ends, one way or the other, panics if and only if a trap is reached |
| ResetTheorems.TrapsExactly | cmd/reset/main.go:372-429 | a trap is a reached nil on which Reset is called unchecked and does not accept that (inside an interface, or an embedded field that promotes its Reset), or an object whose hand-written Reset panics in the state left by as many calls as it is visited |
| ResetTheorems.ResetValues | cmd/reset/main.go:252-430 | the value of each reached variable, type by type and written out: the zero of its basic kind, slice of length 0 on the same array, array and hidden struct zeroed throughout, emptied map, kept pointer, nil or kept interface, a hand-written Reset applied once for every visit, none of which panicked |
| ResetTheorems.BasicValues | cmd/reset/main.go:252-275 | a reached string is empty, a bool false, an integer, float or complex of any of the listed names zero |
| ResetTheorems.ResetFrame | cmd/reset/main.go:120-168 | only variables that the receiver's named fields lead to, through promoted methods too, can change, and none appears or disappears |
| ResetTheorems.ByValueUntouched | cmd/reset/main.go:367-402 | a struct held by value without a Reset method keeps every variable inside it |
| ResetTheorems.ResetIdempotent | cmd/reset/main.go:120-186 | a second call leaves the heap as the first one left it and does not panic, when that is so of the hand-written Reset methods it calls |
| ResetTheorems.SameVisits | cmd/reset/main.go:120-434 | resetting does not change what a Reset visits, nor how often |
| ResetFiles.GenerateResetFunc | cmd/reset/main.go:120-168 | the nil check, then each named field's statements in order; the first error is returned; the shared imports grow by what the fields added, also on an error |
| ResetMachine.OwnFieldsExactly | cmd/reset/main.go:124-139 | the fields that are reset are those declared with a name and no others, in the order of their declaration |
| ResetFiles.GenerateResetFile | cmd/reset/main.go:93-115 | all structs in order into one file, or the first error |
| ResetFiles.StatementImports | cmd/reset/main.go:330-340 | every package qualifier in the statements of a type has the import of its own package's path, through the recursion and caught errors |
| ResetFiles.FileImports | cmd/reset/main.go:93-115 | a generated file has one method for each struct in order, with that struct as its receiver, and every qualifier in it has its package's path among the file's imports |
| ResetMiddlewares.MiddlewaresResets | internal/middlewares/reset.gen.go:8-38 | the generator's methods for `compressWriter`, `compressReader` and `responseData` are the committed ones, statement by statement |
| ResetMiddlewares.MiddlewaresAccepted | internal/middlewares/reset.gen.go:1-38 | Go accepts the three methods in a file that imports compress/gzip alone |
| ResetMiddlewares.MiddlewaresExist | internal/middlewares/gzip.go:22-27 | the environment with these structs and the types of their fields is valid and meets what the two results above ask of a program |
| ResetLimits.PairNeverEnds | cmd/reset/main.go:382-396 | on a pointer to `struct { Value int; Next *Pair }` the generator overflows every stack |
| ResetLimits.PairByValueEnds | cmd/reset/main.go:367-402 | on the same struct by value it emits nothing |
| ResetLimits.RefusedEnds | cmd/reset/main.go:391-394 | a field that is refused ends the loop before the field that would lead back |
| ResetLimits.LinkedToItself | cmd/reset/main.go:343-381 | a node linked to itself, on which a generated Reset never ends |
| ResetLimits.LinkedToNothing | cmd/reset/main.go:343-381 | the same node with a nil link, on which it ends |
| ResetLimits.TypedNilPanics | cmd/reset/main.go:411-429 | a nil pointer inside an interface passes the emitted nil check and its hand-written Reset panics |
| ResetLimits.ZeroBoxPanics | cmd/reset/main.go:372-381 | `struct { f Outer }` with `struct { Resetter }` as Outer: the Reset promoted from the nil interface is called unchecked, and the zero value panics |
| ResetLimits.ForeignArrayRejected | cmd/reset/main.go:286-306 | an array of another package's type is emitted under a name that means another type, and Go rejects it |
| ResetLimits.UnsafeArrayRejected | cmd/reset/main.go:286-306 | an array of unsafe.Pointer is emitted with the bare name Pointer, which nothing declares, and Go rejects it |
| ResetLimits.PointerLiteralRejected | cmd/reset/main.go:330-340 | a name for a pointer to a struct with hidden fields is emitted as a composite literal of the pointer type, and Go rejects it |
| Stores.MemStore.Add | internal/repository/memory.go:30-37 | a known URL is refused with its id and nothing changes; otherwise the row is stored |
| Stores.MemStore.AddBatch | internal/repository/memory.go:77-88 | all rows or, when any URL is known, none |
| Stores.MemStore.Get | internal/repository/memory.go:52-68 | found, gone or not found |
| Stores.MemStore.GetUserURLs | internal/repository/memory.go:103-121 | exactly one entry for each live id of the user, in whatever order |
| Stores.MemStore.DeleteBatch | internal/repository/memory.go:125-133 | marks the named ids that the user owns, and no other |
| Stores.MemStore.GetStats | internal/repository/memory.go:151-168 | the number of live ids and of users that own one, for any iteration order |
| Stores.AddKeepsInverse | internal/repository/memory.go:30-37 | after an add the two maps are inverse if and only if the row was refused or its id was new |
| Stores.PutAllContents | internal/repository/memory.go:77-88 | a stored batch adds exactly its rows and changes no other entry |
| Stores.RefusedWith | internal/repository/memory.go:77-83 | a batch is refused if and only if one of its URLs is stored, and the reported id is that of the first one |
| Stores.BatchKeepsInverse | internal/repository/memory.go:77-88 | a batch of new ids and different URLs keeps the two maps inverse, accepted or not |
| Stores.RunSafe | internal/repository/memory.go:30-133 | after any run with fresh ids the maps are inverse, owners and URLs are as they were, deleted ids stay deleted |
| Stores.OnlyOwnerDeletes | internal/repository/memory.go:125-133 | a live id can be gone later only through a delete by its owner that names it |
| Stores.KnownForever | internal/repository/memory.go:30-37 | a stored URL, deleted or not, is reported as existing under the same id ever after |
| Stores.StatsConserve | internal/repository/memory.go:103-168 | the URL count is the sum of the lengths of all users' lists; the user count is the number of users with a non-empty list |
| FileStores.FileStore.Load | internal/repository/file.go:49-88 | the maps that replaying the lines gives, or an error at the first line that is too long or no record |
| FileStores.FileStore.AppendRecords | internal/repository/file.go:109-129 | the encoded records, one a line, at the end of the file, or no change |
| FileStores.FileStore.Add | internal/repository/file.go:133-152 | the in-memory add, logged, and undone when the append fails |
| FileStores.FileStore.AddBatch | internal/repository/file.go:192-219 | the same for a batch |
| FileStores.FileStore.DeleteBatch | internal/repository/file.go:235-246 | marks as the in-memory store does, then rewrites the file |
| FileStores.AddAnswers | internal/repository/file.go:133-152 | what each answer of an add means: refused with the id the URL has, stored and logged on one line, or failed to log and undone |
| FileStores.BatchAnswers | internal/repository/file.go:192-219 | the same for a batch; Ok means that every row is stored, in memory and in the file |
| FileStores.AnswerLasts | internal/repository/file.go:49-219 | rows that were answered as stored are there when the file is loaded again; any other answer leaves the maps and the file as they were |
| FileStores.OneRecord | internal/repository/file.go:62-84 | a file of one record loads as its entry if and only if the line is shorter than 1 MiB |
| FileStores.CarriageReturn | internal/repository/file.go:62-70 | a carriage return at the end of a line is not part of it |
| FileStores.UndoRestores | internal/repository/file.go:192-219 | undoing a fresh batch gives back the maps of before |
| FileStores.UndoOne | internal/repository/file.go:146-149 | undoing one row gives them back if and only if its id was new |
| FileStores.AppendReloads | internal/repository/file.go:109-129 | reading the file after an append gives the maps with those rows if and only if the file ended in a newline, was empty, or left a lone carriage return; otherwise it no longer loads |
| FileStores.RunReloads | internal/repository/file.go:49-219 | after any run of adds and batches, successful, refused or undone, loading the file gives exactly the maps in memory |
| FileStores.SavedFileRejected | internal/repository/file.go:92-105 | a file that a deletion has rewritten does not load |
| SqlStores.DbStore.Upsert | internal/repository/db.go:63-74 | a known URL returns its id and leaves its row, a taken id fails, anything else is stored; both keys stay unique |
| SqlStores.DbStore.Add | internal/repository/db.go:63-80 | stored, existing under another id, or failed on a taken id |
| SqlStores.DbStore.AddBatch | internal/repository/db.go:110-122 | all rows or, on any conflict, within the batch too, none; both keys stay unique |
| SqlStores.DbStore.Get | internal/repository/db.go:83-102 | found, gone or not found |
| SqlStores.DbStore.GetUserURLs | internal/repository/db.go:146-165 | one entry for each live row of the user |
| SqlStores.DbStore.DeleteBatch | internal/repository/db.go:168-178 | row by row: id, URL and user are kept, and a row is deleted if and only if it was or it is named and belongs to the user; both keys stay unique |
| SqlStores.DbStore.GetStats | internal/repository/db.go:181-200 | a scan of the rows counts the live ones and their distinct users |
| SqlStores.AddAgrees | internal/repository/db.go:63-80 | SQL and the maps answer an add alike if and only if a new URL comes with a new id and a known URL with another id than its own |
| SqlStores.BatchAgrees | internal/repository/db.go:110-122 | a batch of new ids and different URLs is taken by both or by neither, with the same rows |
| SqlStores.DeleteAgrees | internal/repository/db.go:168-178 | a delete marks the same entries in both |
| SqlStores.RunsAgree | migrations/000002_add_unique_original_url.up.sql:1 | through every fresh run the table holds exactly the entries of the maps, both its keys are unique, and every operation is answered alike |
| SqlStores.QueriesAgree | internal/repository/db.go:83-200 | related states answer lookups, user lists and statistics alike |
| BatchQuery.BuildBatchInsertQuery | internal/repository/db.go:126-144 | the built text and arguments insert into urls exactly the rows that the table of `SqlStores` gains |
| BatchQuery.QueryDenotes | internal/repository/db.go:126-144 | read as SQL, with the table and the columns by the names in the text and `$k` as the k-th argument, the statement inserts for each row in order its id, URL and user, not deleted; the placeholders run from one to three times the number of rows |
| Audit.InvStep | internal/audit/audit.go:50-109 | every step of every party keeps the counters, the single place of each task, and the state of Stop |
| Audit.InvRuns | internal/audit/audit.go:50-109 | so does every interleaving |
| Audit.ExactlyOnce | internal/audit/audit.go:58-95 | a call's counter is its tasks unsent, queued or in hand, never negative; at zero each observer of the call has been notified exactly once with its event, panics or not |
| Audit.NotifyAllDelivers | internal/audit/audit.go:82-95 | when the WaitGroup of a NotifyAll is at zero, each observer registered when it began has been notified once of its event, and nobody else of that call |
| Audit.ObserversRegistered | internal/audit/audit.go:77-79 | the observers are those registered, in that order |
| Audit.FirstInFirstOut | internal/audit/audit.go:58-92 | workers take the tasks, each with its observer and event, in the order in which they were sent |
| Audit.PanicsRecovered | internal/audit/audit.go:61-72 | every panic of an observer is recovered from |
| Audit.NotifyProgress | internal/audit/audit.go:58-95 | before the closing every send and every worker step does one unit of the work, a new call brings four units for each observer, and no other step changes it |
| Audit.SomeoneCan | internal/audit/audit.go:58-95 | with a worker and a buffer, as long as some call's counter is not zero a send or a worker step is possible |
| Audit.NotifyEnds | internal/audit/audit.go:82-95 | every WaitGroup that NotifyAll returns comes to zero: up to the closing, and while no call begins, the sends and worker steps of any run and the work left add up to the work at its start, and where none of them is possible all counters are zero |
| Audit.StopDrains | internal/audit/audit.go:50-109 | when no NotifyAll overlaps or follows Stop: nothing is sent on the closed channel, it is closed once however often Stop is called, and all tasks are done before an observer's Stop runs |
| Audit.StopsInOrder | internal/audit/audit.go:102-108 | after the wait each caller of Stop stops the observers in order, each once, and returns after the last or after the first that fails |
| Audit.WaitProgress | internal/audit/audit.go:58-74 | after the closing every worker step lowers a measure that no other step changes |
| Audit.SomeWorkerCan | internal/audit/audit.go:58-74 | until all workers have exited, some worker can take a step |
| Audit.WaitEnds | internal/audit/audit.go:97-109 | from the closing on no run has more worker steps than the measure |
| Audit.PanicExactly | internal/audit/audit.go:82-103 | once the channel is closed, a send on it is possible if and only if a call has tasks still to send, or, when calls may begin, an observer is registered |
| Audit.CloseExactly | internal/audit/audit.go:97-103 | the close that Stop makes does not itself panic, and leaves a send possible for calls already begun if and only if one of them has tasks still to send |
| GzipWriter.CompressWriter.Reset | internal/middlewares/reset.gen.go:8-18 | zeroes all but the stream pointer, whose target it zeroes |
| GzipWriter.CompressWriter.WriteHeader | internal/middlewares/gzip.go:56-68 | at most one status line, with the given code; compresses and labels JSON and HTML |
| GzipWriter.CompressWriter.Write | internal/middlewares/gzip.go:44-52 | the header first, with status 200, if it has not gone out, then the data, packed or plain |
| GzipWriter.CompressWriter.Close | internal/middlewares/gzip.go:71-82 | ends the stream and puts back an all-zero writer |
| GzipWriter.Pool.Get | internal/pool/pool.go:30-32 | any pooled object, or a new one; always all zero |
| GzipWriter.Pool.Put | internal/pool/pool.go:35-38 | what goes back is all zero if and only if it came without a stream |
| GzipWriter.Serve | internal/middlewares/gzip.go:31-82 | a recycled writer gives the response of a new one, and all pooled writers are all zero again |
| GzipWriter.ServeAll | internal/middlewares/gzip.go:31-82 | the same over any sequence of requests |
| GzipWriter.ResponseForm | internal/middlewares/gzip.go:44-82 | at most one status line, before any byte; the body is whole and labelled gzip, or plain; decoded it is the concatenation of all writes |
| GzipWriter.EncodingSet | internal/middlewares/gzip.go:44-68 | the status line has the code of the first action that sends one, 200 for a write, and the writer's Content-Encoding if and only if the type set by then is application/json or text/html, exactly when the body is packed |
| GzipWriter.NothingSent | internal/middlewares/gzip.go:44-82 | a handler that neither writes nor sends a header sends nothing |
| GzipMiddleware.CompressReader.Reset | internal/middlewares/reset.gen.go:21-29 | zeroes all but the reader pointer, whose target it zeroes |
| GzipMiddleware.CompressReader.Close | internal/middlewares/gzip.go:111-124 | goes back to the pool, all zero, exactly when both closings succeed; a stream damaged before its end fails to close, one with a wrong checksum does not |
| GzipMiddleware.NewCompressReader | internal/middlewares/gzip.go:94-103 | takes an object out of the pool only when the gzip header could be read |
| GzipMiddleware.GzipMiddleware | internal/middlewares/gzip.go:137-162 | the response is a function of the request and the handler alone, and both pools hold all-zero objects again |
| GzipMiddleware.ResponseTransparent | internal/middlewares/gzip.go:137-162 | whatever the client accepts, the response decodes to what the handler wrote; it is packed only for clients that want gzip |
| GzipMiddleware.RespondStatus | internal/middlewares/gzip.go:137-162 | through the middleware the client gets the status of the handler's first action that sends one; body and label are packed if and only if gzip is wanted and the type is JSON or HTML |
| GzipMiddleware.RespondNothing | internal/middlewares/gzip.go:137-162 | where the handler sends nothing, nothing is sent |
| GzipMiddleware.RespondError | internal/middlewares/gzip.go:148-154 | a body announced as gzip that is not is answered with status 500 and its text |
| GzipMiddleware.RequestTransparent | internal/middlewares/gzip.go:148-157 | a body sent packed and labelled, in any header layout, is answered like the same body sent plain |
| GzipMiddleware.PlainReceived | internal/middlewares/gzip.go:148-157 | in any layout of the header, the body is unpacked if and only if gzip is among the codings |
| GzipMiddleware.WantedMeaning | internal/middlewares/gzip.go:141-146 | gzip is wanted if and only if it is listed and the weight of its last occurrence is positive |
| Ids.GenerateID | internal/utils/generators.go:14-18 | the first `size` letters of the unpadded base64url text, always in bounds |
| Ids.IdValue | internal/utils/generators.go:14-18 | read in base 64, the id of n bytes is their number without its last 2n bits |
| Ids.AlphabetOrder | internal/utils/generators.go:14-18 | the letters are those of the URL-safe alphabet in its order |
| Ids.IdUniform | internal/utils/generators.go:14-18 | every text of n letters of the alphabet is the id of exactly 4^n arrays of n bytes, all of them bytes |
| Services.IdRecovered | internal/service/service.go:56-68 | the text after the last slash of a short URL is its id, whatever the base |
| Services.ShortURLExactly | internal/service/service.go:56-68 | the short URL is the configured address, or else scheme (or http) and host, without the slashes at its end, then one slash and the id; there is one such URL |
| Services.Service.CreateShortURL | internal/service/service.go:71-100 | a missing user, an empty URL, a new short URL or the known one, each on the configured address |
| Services.Service.GetOriginalURL | internal/service/service.go:103-114 | the store's answer: found, gone or not found |
| Services.Service.CreateShortURLsBatch | internal/service/service.go:122-162 | an empty batch, an empty URL, a refused batch or the answers in order, each short URL on the configured address |
| Services.Service.GetUserURLs | internal/service/service.go:165-187 | the user's live rows with their short URLs |
| Services.CreateResolves | internal/service/service.go:71-114 | for any random bytes: exactly when each answer is given; a new URL is stored for its user under the generated id, a known one keeps its id; a returned URL resolves to the trimmed original in this and every later state until a delete by its owner |
| Services.BatchResolves | internal/service/service.go:122-162 | for any random bytes: exactly when each answer is given, and the id with which a batch is refused; answers keep order and correlation ids, their rows belong to no user, and each resolves to its original at once and in every later state until a delete by its owner |
| Headers.ParseAcceptEncoding | internal/requests/headers.go:12-42 | the loops compute what the trimmed fields of each element say |
| Headers.AcceptRoundTrip | internal/requests/headers.go:12-42 | for any list of codings and parameters in any layout, the last occurrence of each wins, with the weight of its first `q=` parameter, 1.0 when absent or no number |
| Headers.EveryHeaderPrinted | internal/requests/headers.go:12-42 | every header is such a layout, so the round trip covers every input |
| Headers.ParseContentEncoding | internal/requests/headers.go:47-57 | the non-empty trimmed parts in order |
| Headers.ContentRoundTrip | internal/requests/headers.go:47-57 | for any list of codings in any layout, the non-empty ones in order |
| Headers.ContentPrintParse | internal/requests/headers.go:47-57 | printing a list of codings and parsing it gives the list back |
| Headers.ContentParsePrint | internal/requests/headers.go:47-57 | printing what any header parses to and parsing it gives the same again |

## Left out

The Reset generator:
- Pointers into the middle of a struct, array or slice: in the heap a pointer refers to a whole allocated variable. The elements behind a slice are not variables of the heap, since Reset never touches them.
- Aliases, type parameters, and identifiers that hide `nil`, `false` or the package names are not modelled; an imported package is as exported as its declarations say.
- ResetTheorems.ResetCorrect: a Reset method written by hand is a partial function on its object's own opaque state, undefined where it panics; what else it may change is not modelled. An object that an interface with Reset holds is a struct that has it, or a value of another type whose method works on a copy. That Go accepts the generated methods is assumed, and `MethodAcceptedExactly` says when it does.
- A Reset promoted through an embedded type that is neither a struct, a pointer to one nor an interface counts as written by hand for the outer struct. A marked struct has no Reset written by hand, which Go would reject beside the generated one. Method sets are what go/types reports; a first run, before the generated files exist, sees fewer methods.
- ResetAccepted.MethodAcceptedExactly: Go also refuses a file with an import that is not used, and an import added for a child can outlive the child's discarded statements; acceptance here is of the statements.
- Embedded fields of a marked struct are skipped by the generator and so are never reset; nothing is claimed of them but the frame.
- The file system, comment parsing, go/packages and the printing of syntax trees.

The store:
- Each operation is one step, since it runs under one lock. Contexts are live, strings valid UTF-8 and within the column widths, and the database executes a statement whole or not at all.
- FileStores.RunReloads: runs without deletions only, since `SavedFileRejected` holds, and from a file whose last line is terminated, since `AppendReloads` needs it.
- FileStores.FileStore.Add: an append happens whole or not at all; torn writes are not modelled. JSON is a pair of functions with its laws (`Lawful`): decoding undoes encoding and an encoded record has no newline. The scanner's limit is in characters where the source counts bytes.
- Stores.RunSafe: ids are fresh, and no URL or id repeats within a batch; `AddKeepsInverse` shows why it is needed for one row.
- SqlStores.BatchAgrees: both stores refuse a batch alike but with different errors, an existing id in one, a plain failure in the other.
- The connection pool, migrations as a program, and the created_at column.
- Services: the service is modelled over the in-memory store, which the other backends are related to; a missing user in `CreateShortURLsBatch` is not an error and its rows belong to no user. Storage failures other than duplicates pass through and change nothing.

The audit pool:
- Registration concurrent with notification, a channel of capacity zero, observers whose Stop is called again, the error that Stop returns, and what file and HTTP observers do with an event.
- That the scheduler is fair: `NotifyProgress` to `NotifyEnds` and `WaitProgress` to `WaitEnds` bound the steps, and that a caller or worker that can step does so is assumed of the runtime.

The middleware:
- Compression is a sequence of packed pieces closed by a trailer; the bytes are not modelled. Content-Length, statuses that allow no body, statuses 1xx, write errors and flushes are left out.
- GzipWriter.ServeAll: requests are served one after the other; a pooled writer is used by one request at a time and not after Close, as the middleware does. sync.Pool may also drop objects, which a pool that hands out new ones includes.
- GzipMiddleware.GzipMiddleware: the handler reads the whole body before it answers, and does not close it. `http.Error` also deletes headers, which is not modelled. The two instances of the generic pool are two classes.
- The pool of the logging middleware.

Ids and headers:
- Randomness is a parameter: `IdUniform` counts arrays, it says nothing of the generator. User ids (UUIDs) are left out.
- strconv.ParseFloat and mime.ParseMediaType are function parameters; weights are of any type, so that infinities and NaN are covered.
- HTTP and gRPC handlers, routing, tokens and cookies, the subnet check, logging, configuration, and the static analysis tools.
