# libri-experiments load simulator, modelled in Dafny

This project models the sequential logic inside the libri load simulator and its tooling. It covers four parts:

- **The author directory and the samplers** (pkg/sim/samplers.go).
  - The directory holds a fixed population of authors with their keychains. It keeps a mutable reverse map `authorPubs` from a public key's hex encoding to the author it was last sampled for.
  - `newDirectory` builds the population with eight striding workers.
  - `sample` draws an author and one of its keys and records the key's hex. `get` looks a key up.
  - The upload-event sampler draws a sender and `nSharesPerUpload` recipients.
  - The content sampler fills a buffer in at most three reads.
- **The experiment runner** (pkg/sim/runner.go). Each goroutine step is one atomic method of a `Runner` class:
  - the generator's loop iteration;
  - an upload worker's handling of one event, including the share fan-out into the download queue;
  - a download worker's handling of one event;
  - the idempotent `stop`;
  - `Run`'s closing of the download queue.

  The two queues are sequences, and the `done` channel is a flag. Ghost counters record how often each channel was closed. A ghost log `calls` records the querier calls, in order.
- **The Prometheus query catalogue** (experiments/exp03/trials/collect.go). This covers:
  - the fixed bytes and docs maps;
  - the latency and QPS query generators;
  - the in-place merge `appendQueries`;
  - the command's merge of the four maps.
- **The deployment configuration reader** (deploy/cloud/gen.go). `getSimConfig` turns a parsed Terraform variables file into a `SimConfig`. It builds the comma-joined librarian address list and copies the typed fields. Every Go type assertion becomes a check that may panic.

Randomness, the querier (upload, share, download) and the variables-file parser are inputs:
- a random draw is a `nat` argument, reduced into range as the Go code does;
- a querier outcome is an `Option` argument, or a function from the recipient's position to an `Option`;
- the parser's result is a `Result`.

`pubKeyHex` is an uninterpreted function fixed when the directory is built. Go panics are modelled as `Err` values that carry the cause.

Files:
- `results.dfy`: Option and Result.
- `sim_types.dfy`: the values passed between samplers and runner.
- `format.dfy`: the parts of `fmt` and `strings` that the code uses (`%d`, `%f`, `strings.Join`), plus `Split` and substring search, which only the lemmas use.
- `samplers.dfy`, `runner.dfy`, `collect.dfy`, `gen.dfy`: the four parts above.

Points of the code's behaviour that the model keeps as written:
- The directory's `sample` takes its lock twice, once for the index draw and once for the map write (pkg/sim/samplers.go:78-80 and 86-88). Both are modelled as one atomic step.
- An upload worker checks `done` only after an event whose upload succeeded (pkg/sim/runner.go:247-251). A download worker checks it only after a successful download (pkg/sim/runner.go:269-271). A failed event does not lead to a check.
- The download pool is sized by `NUploaders`, not `NDownloaders`.
- `Run` does not wait for the generator goroutine.

## Model

| member | source | states |
|---|---|---|
| Samplers.Int32 | pkg/sim/samplers.go:79 | Go's `int32(n)` is the signed 32-bit number congruent to `n` modulo 2^32 (the low 32 bits read as two's complement); it keeps every `n` below 2^31 and is never a positive number above `n` |
| Samplers.Pick | pkg/sim/samplers.go:76-84 | a successful draw returns `authors[i]` for some index `i`, paired with a key of `keys[i]`; with no authors the draw panics (`Int31n(0)`); with fewer than 2^31 authors and non-empty keychains it always succeeds |
| Samplers.PicksAreEachPick | pkg/sim/samplers.go:142-149 | a run of `sample` calls succeeds exactly when each call does, and it yields each call's pick at its own position |
| Samplers.ReplayFindsLastRecorded | pkg/sim/samplers.go:86-96 | the reverse map holds a key hex exactly when some `sample` recorded it, and its entry is the author of the latest such record |
| Samplers.LastRecordedIsLatest | pkg/sim/samplers.go:86-96 | after `sample` records `(hex, a)`, `get` finds `a` until a later `sample` records the same hex |
| Samplers.NeverRecordedIsAbsent | pkg/sim/samplers.go:92-96 | `get` of a key whose hex was never recorded yields nil, and only then |
| Samplers.ReplayKeysGrow | pkg/sim/samplers.go:86-88 | recording more samples never removes a key hex from the reverse map |
| Samplers.StrideStep | pkg/sim/samplers.go:54 | worker `d` stepping from `i` to `i + 8` adds exactly index `i` to the initialised set |
| Samplers.StridedInit | pkg/sim/samplers.go:48-67 | the eight striding workers fill every index below `nAuthors` with its author and keychain, and each index is initialised exactly once |
| Samplers.Directory.constructor | pkg/sim/samplers.go:35-73 | `newDirectory` yields `nAuthors` authors, where index `i` holds the author and keychain created for `i`; every keychain holds the `nInitialKeys` = 8 keys `keychain.New` creates; the reverse map starts empty |
| Samplers.Directory.Sample | pkg/sim/samplers.go:76-90 | returns the draw `Pick` describes; on success it changes only the reverse-map entry of the key's hex, which now names the sampled author; on a panic nothing changes; the only possible panic is `Int31n` of a non-positive bound, so the keychain sample that "should never happen" to fail never fails, and with 1 to 2^31 - 1 authors the draw always succeeds |
| Samplers.Directory.Get | pkg/sim/samplers.go:92-96 | returns the author last recorded for the key's hex, and nil exactly when that hex was never recorded; the directory is not modified |
| Samplers.ContentOutcome | pkg/sim/samplers.go:183-190 | a successful fill has exactly `size` bytes; a failure is either the read error or "unable to read size bytes" |
| Samplers.ContentOutcomeCharacterised | pkg/sim/samplers.go:183-190 | the content sampler succeeds exactly when one of the first three reads fills the buffer before any read errs, and it returns that read's bytes; it reports short reads exactly when all three reads come up short |
| Samplers.SampleContent | pkg/sim/samplers.go:178-190 | the three-attempt read loop over a real buffer returns what `ContentOutcome` describes |
| Samplers.PickRecordsResolve | pkg/sim/samplers.go:86-88 | after a run of samples, every earlier key hex and every sampled key's hex is in the reverse map |
| Samplers.PicksFirst | pkg/sim/samplers.go:143-149 | the sender's draw followed by the recipients' draws succeeds exactly when both do, and the sender's pick comes first |
| Samplers.SampleRecipients | pkg/sim/samplers.go:144-149 | the recipient loop succeeds exactly when every draw does; it returns one key per draw, in draw order; it records exactly those picks in the directory; and every returned key resolves |
| Samplers.SampleUploadEvent | pkg/sim/samplers.go:142-155 | the event succeeds exactly when every directory draw and the content sampler succeed; `from` is the first draw's author; `shareWith` has exactly `nShares` keys, which are the later draws' keys in order; the content is the content sampler's; the directory records exactly the drawn keys, in draw order; every recipient resolves in the directory |
| Runner.FanOutStep | pkg/sim/runner.go:236-246 | one more recipient appends a download event exactly when its share succeeded |
| Runner.ShareCalls | pkg/sim/runner.go:236-237 | one share call per recipient, in `shareWith` order, each carrying the uploaded envelope |
| Runner.ShareCallsStep | pkg/sim/runner.go:236-237 | one more recipient appends exactly its share call |
| Runner.SuccessIndices | pkg/sim/runner.go:237-241 | the positions whose share succeeded, strictly increasing, and all of them |
| Runner.FanOutFollowsSuccesses | pkg/sim/runner.go:236-246 | an upload pushes one download event per successful share, in recipient order; the event for recipient `i` is addressed to `get(shareWith[i])` and carries that share's key |
| Runner.AllSharesSucceed | pkg/sim/runner.go:236-246 | when every share succeeds, every recipient position counts as a success |
| Runner.OneShareFails | pkg/sim/runner.go:236-246 | when exactly one share fails, all positions but that one count as successes |
| Runner.FanOutAllSucceed | pkg/sim/runner.go:236-246 | with k recipients and every share succeeding, k download events are pushed |
| Runner.FanOutOneFails | pkg/sim/runner.go:236-246 | with k recipients and exactly one share failing, k - 1 download events are pushed |
| Runner.FanOutBounded | pkg/sim/runner.go:236-246 | an upload never pushes more download events than it has recipients |
| Runner.FanOutResolves | pkg/sim/runner.go:242-245 | when every recipient's hex was recorded by the directory, no pushed event has a nil author |
| Runner.ResolvesGrow | pkg/sim/samplers.go:86-88 | queued events stay resolvable while the reverse map only gains keys |
| Runner.ShareLoopDone | pkg/sim/runner.go:236-246 | after the share loop's last recipient, the queue holds the whole fan-out and every queued event has an author |
| Runner.Runner.constructor | pkg/sim/runner.go:179-193 | the runner starts with empty queues, `done` open, the generator running, and `nUploaders` workers in each pool |
| Runner.Runner.Stop | pkg/sim/runner.go:202-210 | after `stop`, done is closed and has been closed exactly once: the first call closes it and later calls change nothing |
| Runner.Runner.GenerateStep | pkg/sim/runner.go:212-226 | a generator iteration either sends the pending event, or closes `toUpload` (exactly once) when done is closed and nothing is pending, or samples an event and sends it if the queue has room; the generator crashes exactly when a directory draw or the content sampler fails; the event sent or left pending is the one the sampler's draws describe (sender, recipients in order, content), and the directory records exactly those draws; once the generator has returned, it pushes nothing more |
| Runner.Runner.SampleNext | pkg/sim/runner.go:219-222 | the sampler panics exactly when a directory draw or the content sampler fails, and then nothing is pending; otherwise the pending event is the one the draws describe (first draw's author as sender, the later draws' keys in order as its `nSharesPerUpload` recipients, the content sampler's bytes), every recipient resolves, and the directory records exactly those draws |
| Runner.Runner.SendPending | pkg/sim/runner.go:222 | the pending event is appended to `toUpload` when it has fewer than 16 events; otherwise the generator waits and nothing changes |
| Runner.Runner.ShareWithRecipients | pkg/sim/runner.go:236-246 | the download queue gains exactly the fan-out of the upload, the call log gains one share call per recipient in order, and every queued download event has an author |
| Runner.Runner.UploadStep | pkg/sim/runner.go:228-253 | a worker takes the head of `toUpload`. A failed upload drops the event: no share and no push. A successful upload shares with every recipient in order and pushes the fan-out, and the worker returns if done is closed. An empty closed queue ends the worker, and an empty open queue leaves all state unchanged. Nothing is pushed once `toDownload` is closed |
| Runner.Runner.DownloadStep | pkg/sim/runner.go:255-275 | a worker takes the head of `toDownload`. It costs exactly one delay sample and one download call with that event's author (never nil) and key. The worker returns only after a successful download with done closed |
| Runner.Runner.RunReturned | pkg/sim/runner.go:196-199 | `Run` can have returned only once done is closed, every upload worker has returned (`upWG.Wait`) and every download worker has returned (`downWG.Wait`) |
| Runner.Runner.CloseDownloads | pkg/sim/runner.go:196-199 | `toDownload` is closed exactly once, and only after done is closed and every upload worker has returned |
| Collect.BytesStoredLabels | experiments/exp03/trials/collect.go:13-18 | the bytes map holds exactly the labels `bytes.stored.peer`, `bytes.stored.cluster`, `bytes.store-rate.peer` and `bytes.store-rate.cluster` |
| Collect.DocsStoredLabels | experiments/exp03/trials/collect.go:20-25 | the docs map holds exactly the labels `docs.stored.peer`, `docs.stored.cluster`, `docs.store-rate.peer` and `docs.store-rate.cluster` |
| Collect.LabelParts | experiments/exp03/trials/collect.go:14-25 | labels `<owner>.<kind>.<scope>` with dot-free kind and scope are equal exactly when all three parts are |
| Collect.MergeAllHas | experiments/exp03/trials/collect.go:74-87 | every label a loop iteration writes is in the resulting map |
| Collect.MergeAllLastWriter | experiments/exp03/trials/collect.go:74-87 | each label of the resulting map holds the query of the last iteration that wrote it |
| Collect.PercentKind | experiments/exp03/trials/collect.go:78 | the kind `p<int(quantile*100)>` is dot-free and starts with `p` and a digit |
| Collect.LatencyLabelInjective | experiments/exp03/trials/collect.go:78-81 | latency labels are equal exactly when method, integer percent and scope are |
| Collect.LatencyQueriesHas | experiments/exp03/trials/collect.go:74-87 | getLatencyQueries holds `m.p<pct>.peer` and `m.p<pct>.cluster` for every (quantile, method) pair |
| Collect.LatencyQueriesOnly | experiments/exp03/trials/collect.go:74-87 | every label of getLatencyQueries is the peer or cluster label of some pair and maps to that pair's query |
| Collect.LatencyQueriesExact | experiments/exp03/trials/collect.go:74-87 | when no two quantiles share an integer percent, each pair's labels map to that pair's own peer and cluster queries |
| Collect.LatencyQueryNames | experiments/exp03/trials/collect.go:79-83 | a latency query names its method's `grpc_method` selector, the time window and the quantile printed by `%f` |
| Collect.QpsQueriesMethods | experiments/exp03/trials/collect.go:93-98 | for every method `m`, `m.qps.peer` and `m.qps.cluster` map to the per-method queries on `m` |
| Collect.QpsQueriesLabels | experiments/exp03/trials/collect.go:89-99 | getQPSQueries always holds `all.qps.peer` and `all.qps.cluster`, and holds no label other than the all-methods and per-method ones |
| Collect.QpsQueriesAll | experiments/exp03/trials/collect.go:91-92 | unless a method is named `all`, the all-methods labels keep the all-methods queries |
| Collect.QpsQueryNames | experiments/exp03/trials/collect.go:95-97 | a per-method QPS query names its `grpc_method` selector and the time window |
| Collect.QueryMap.constructor | experiments/exp03/trials/collect.go:38 | the command's map starts empty |
| Collect.QueryMap.Append | experiments/exp03/trials/collect.go:68-72 | `appendQueries(a, b)` leaves `a` equal to the old `a` overridden by `b`, whatever order it visits `b`'s labels in |
| Collect.AppendProperties | experiments/exp03/trials/collect.go:68-72 | after appending `b`, every label of `b` maps to `b`'s query and every other label of `a` is unchanged; a second append of `b` changes nothing |
| Collect.CatalogueDisjoint | experiments/exp03/trials/collect.go:14-30 | the bytes, docs, latency and QPS maps have pairwise disjoint labels, for any methods and quantiles |
| Collect.MergeKeepsEveryEntry | experiments/exp03/trials/collect.go:38-42 | the merged map has exactly the union of the four label sets, and each label keeps its own map's query |
| Collect.CollectQueries | experiments/exp03/trials/collect.go:38-42 | the command's map is the bytes, docs, latency and QPS maps appended in that order to an empty map |
| Collect.CatalogueLatencyExact | experiments/exp03/trials/collect.go:27-29 | for the catalogue's own quantiles and methods, every latency label maps to its own pair's query |
| Collect.CatalogueLatencyLabels | experiments/exp03/trials/collect.go:76-81 | the catalogue's labels read `Put.p50.peer` and `Get.p95.cluster` |
| Gen.ToUint | deploy/cloud/gen.go:114-120 | `uint(x)` is the unsigned 64-bit number congruent to `x` modulo 2^64 |
| Gen.FirstFailureNone | deploy/cloud/gen.go:103-121 | no check panics exactly when every check passes |
| Gen.FirstFailureIsFirst | deploy/cloud/gen.go:103-121 | a panic is that of a failing check that every earlier check passed |
| Gen.LoadableIffWellTyped | deploy/cloud/gen.go:103-121 | no check panics exactly when every variable is present with its asserted type and `num_librarians` is not negative |
| Gen.LibrarianAddrList | deploy/cloud/gen.go:104-109 | the slice holds one address per librarian, in index order; the addresses are pairwise distinct and none contains the comma `strings.Join` puts between them |
| Gen.LibrarianAddrs | deploy/cloud/gen.go:104-109 | the index loop fills the address slice with `LibrarianAddrList` |
| Gen.GetSimConfig | deploy/cloud/gen.go:98-123 | returns the parser's error as is; panics with the first failing check, taking the struct literal's type assertions in gc's left-to-right order; otherwise returns the configuration copied from the variables |
| Gen.ReadFields | deploy/cloud/gen.go:110-121 | the struct literal's checks run in field order, and the first one that fails panics; when all pass, the configuration's fields are the variables' values with ints converted to uint |
| Gen.ExpectedOutcome | deploy/cloud/gen.go:98-123 | a load error is returned unchanged; badly typed variables panic with the first failing check in evaluation order, and all checks before it pass |
| Gen.WellTypedLoads | deploy/cloud/gen.go:103-121 | well-typed variables with a non-negative librarian count always give a configuration |
| Gen.LibrarianAddrHasNoComma | deploy/cloud/gen.go:107-108 | no librarian address contains a comma |
| Gen.LibrarianAddrInjective | deploy/cloud/gen.go:107-108 | distinct librarian indices give distinct addresses |
| Gen.LibrariansField | deploy/cloud/gen.go:103-112 | with no librarians `Librarians` is empty; otherwise splitting it on commas gives back exactly the `num_librarians` addresses in index order, all distinct |
| Format.NatToString | deploy/cloud/gen.go:108 | `%d` of a non-negative number is a non-empty run of decimal digits with no leading zero |
| Format.ParseNatToString | deploy/cloud/gen.go:108 | the digits `%d` prints read back as the number |
| Format.NatToStringInjective | deploy/cloud/gen.go:108 | distinct numbers print as distinct numerals |
| Format.IntToString | deploy/cloud/gen.go:108 | `%d` of an `int` starts with a minus sign exactly when the number is negative, and is digits after that |
| Format.IntToStringParses | deploy/cloud/gen.go:108 | the digits after the optional sign read back as the number's magnitude |
| Format.MicrosToFixed | experiments/exp03/trials/collect.go:79-83 | `%f` of a quantile ends in a decimal point followed by six digits, with at least one digit before the point |
| Format.ParseFixedDigits | experiments/exp03/trials/collect.go:79-83 | the six zero-padded decimals of `%f` read back as the fraction in millionths |
| Format.MicrosToFixedParses | experiments/exp03/trials/collect.go:79-83 | `%f` of a quantile loses nothing: the whole part and the six decimals read back as the quantile in millionths |
| Format.SplitJoin | deploy/cloud/gen.go:112 | splitting `strings.Join` of separator-free parts on the separator gives back the parts |

## Left out

- The goroutine orchestration of `Run` is not modelled as interleavings: the signal handler, the timer, the profiler server and the wait groups. Each worker step is one atomic method, and any order of calls is a schedule.
- Sleeps, logging and the duration samplers (the uniform download delay and the exponential upload wait) are left out. They are float computations with no effect on the queues. The download step records that it took one delay sample.
- The gamma content-size draw and the upload rate computation are left out, because they are floating point. The size is an input to the content sampler.
- The querier's upload, share and download, the keychain's `Sample`, `author.NewAuthor`, `newAuthorConfigs` and `pubKeyHex` belong to the libri client library. They are inputs, or uninterpreted functions, here.
- The Terraform variables-file parser is not modelled; its result is an input. Go's `float64` values are modelled as `real`.
- `writeSimConfig` and the manifest template are not modelled, because they are file and template I/O.
- The collect command's printing and its `http.NewRequest` URL building are not modelled, because they are I/O.
- pkg/sim/sim.go is not part of this model; it is an older copy of the same concurrent pipeline. pkg/cmd is not part of this model either; it is flag plumbing.
- Samplers.Directory.Sample: the index draw and the map write are one atomic step here, whereas the code takes the lock twice.
- Runner.Runner.ShareWithRecipients: pushes to `toDownload` are not bounded by its capacity of 16. A send that blocks in the middle of a fan-out would need a program counter for each upload worker. The model therefore cannot show this hang of the code: once `done` is closed, each download worker returns after its next successful download (pkg/sim/runner.go:269-271). The pool can then be empty while an upload worker is blocked on a full `toDownload` in the middle of a fan-out (pkg/sim/runner.go:242). That worker never returns, so `upWG.Wait()` (pkg/sim/runner.go:197) and with it `Run` never return.
- Runner.Runner.GenerateStep: a sampler panic ends the whole Go process. The step reports `Crashed` but leaves the other steps enabled, so a schedule that continues after a crash has no counterpart in the code.
- Runner.Runner.RunReturned: states what must hold once `Run` has returned, after its final `downWG.Wait()` (pkg/sim/runner.go:199). It does not claim that `Run` returns; with the hang above it may not.
- Samplers.Directory.constructor: author creation is taken as total. In the code a failing `author.NewAuthor` panics inside `newDirectory` (pkg/sim/samplers.go:63-64). The requirement that every keychain holds `nInitialKeys` keys stands for `keychain.New(nInitialKeys)` (pkg/sim/samplers.go:56-57), which belongs to the client library.
- Runner.Runner.GenerateStep: the pending event models the generator blocked on a full `toUpload`. The generator's `done` check is not retaken while it is blocked, which matches Go's blocking send.
- Runner.Runner.constructor: the pool sizes come from the caller. `NDownloaders` is not a parameter, because the code never reads it.
- Collect.LatencyQueryNames: quantiles are fixed-point numbers in millionths, so `%f` prints them exactly. `int(quantile*100)` is taken as the exact integer percent `quantile / 10000`. Float rounding of other quantiles (0.57 * 100 is just below 57 in float64) is not modelled.
