# Verification model of vaults-syncer

vaults-syncer copies secrets between vaults on a schedule. This project models the parts of it whose
correctness is not visible in one function, and proves what they promise:

- **The sync engine.** One job is a program of atomic steps (`Jobs`): each vault call, each retry, each SQL
  statement. The worker pool (`Pool`) interleaves the steps of all jobs with the semaphore, the WaitGroup, the
  result channel, the closer goroutine and the collecting loop. Every schedule is safe, ends, and leaves what
  the plain nested loop leaves (`PoolRefinement`, over `Locality` and `NestedLoop`). `Engine` is the code as it
  is written, over backend objects on the heap, and is proved to make exactly these steps. `Resolver` is the
  bidirectional operation over many runs: convergence, self-stabilisation, alternation of directions.
  `Settling` lifts the self-stabilisation to whole concurrent runs.
  `Recording` and `RunReport` tie the recorded totals, the status and the status page to the verdicts of the
  goroutines, also for jobs that repeat. `Serial` shows that one worker, the default, is the loop in some
  order of its jobs, and `Repetition` draws the exact boundary at which repeated names stop settling.
- **The codecs around it.** `Base64`, `Transforms`, `FormEncoding`, `Json`, `ValueCodec`, `JsonPath` and
  `Crypto` are written out concretely, down to the byte or character, and each encoder is proved against an
  independent decoder. `JsonText` says, in the words of RFC 8259, which text denotes which tree; the parser
  of `Json` reads exactly that. `Glob` holds the pattern matcher against the textbook meaning of a pattern, `Retry` the
  backoff loop against a closed form.
- **The stores.** `SyncTable` and `ConfigTable` are tables of rows under their constraints, proved to be maps
  over any history. `ConfigStore` is a heap model: encryption happens in place, through pointers that the
  caller shares. `Sessions` and `SessionHistory` say what `ValidateSession` answers after any history, in terms
  of logins, logouts and deletions alone.
- **The hot swap.** `Runner` and `HotSwap` are the scheduled runner and the reload that replaces it, as objects
  and as a step machine with any number of callers contending for the mutex.

What a vault, the database, the clock or a random source answers is a parameter: a function of the job and the
number of the call or attempt, where a pair that is listed several times may be given one job or several. A failing write may or may not have reached the vault. SHA-256 is a function
that is injective where a theorem says so; AES-GCM is a parameter with the laws of sections 7.1 and 7.2 of
NIST SP 800-38D; number tokens of JSON go through a parameter that prints every float as a token it reads back.

Imperative code is modelled by methods and classes proved against specification functions; the theorems are
about these functions.

## Where the code and its documentation differ

- `README.md:511` of the repository says that bidirectional conflicts are resolved by "last write wins". The
  code (`sync/engine.go:241-253`) writes against the direction last recorded, so directions alternate
  (`Resolver.DirectionsAlternate`), and after an in-sync record the target wins (`Resolver.StreakStart`).
- `README.md:512` says that secrets present in one vault are replicated to the other. The executor lists the
  source alone (`sync/engine.go:522-528`), so a secret that exists only in the target is never touched: it
  belongs to no job (`PoolRefinement.RunKeepsFrame`).
- The comment at `sync/engine.go:247` speaks of the last *successful* direction; failed writes record their
  direction as well (`sync/engine.go:263-276`, `283-297`), and count.
- The comment at `main.go:199-200` says that stopping the old runner waits for its running jobs.
  `cron.Stop` returns at once and hands out a context to wait on, which `sync/runner.go:103` drops. Nothing
  here relies on the wait.
- The comment at `sync/engine.go:363` says that `*` matches anything. The code does so exactly for patterns
  without a star or with a single one at an end (`Glob.ExactIffSimple`).
- A unidirectional success records the hash of the untransformed source value as the target's checksum
  (`sync/engine.go:183-190`), and so does the model.

## Properties that hold only under a condition

- The i-th delay is the capped closed form for every i >= 1; the first delay is never capped by the code, so
  it agrees exactly when `InitialBackoff <= MaxBackoff` (`Retry.DelayClosedForm`).
- A configured policy with a positive `InitialBackoff` and a negative `MaxRetries` makes no attempt at all;
  every other one makes at least one (`Retry.AttemptedUnlessNegative`).
- The two list parsers agree exactly when the array has items or the HTTP parser's fallback yields no name
  either (`JsonPath.ListParsersAgree`).
- A transform list is the identity exactly when its `value` entries form a balanced word
  (`Transforms.IdentityIffBalanced`).
- Saving the same configuration object twice keeps it readable exactly when it has nothing to encrypt, because
  the first save has encrypted the caller's own headers (`ConfigStore.Store.SaveTwice`).
- A run of a bidirectional sync on which all calls work settles every secret under every schedule exactly when
  the names are distinct or there is one worker (`Repetition.SettlesIff`); otherwise successful jobs can swap
  the two sides of a secret (`Repetition.RepeatedSecretSwaps`). Unidirectional runs refine the nested loop
  with names and targets repeated at will (`PoolRefinement.ConcurrentRefinesSequential`).
- After a run without failures the row of a pair counts as failed exactly when all its records were refused and
  the row already counted as failed (`RunReport.CleanRunFailedJob`); both sides occur
  (`Settling.RefusedJobExists`).

## Model

| member | source | states |
|---|---|---|
| PoolRefinement.ConcurrentRefinesSequential | sync/engine.go:458-518 | For vault answers fixed per pair and attempt, every complete interleaving of the job steps ends with the same vault contents, the same rows up to ids and the same counts as the nested loop run in order. In a unidirectional run names and targets may be listed any number of times; in a bidirectional one the names are distinct. The source is not among the targets. |
| PoolRefinement.SchedulesAgree | sync/engine.go:468-517 | Under the same conditions any two complete schedules, with any two numbers of workers, end in the same vaults, rows up to ids and success count. |
| PoolRefinement.RunKeepsFrame | sync/engine.go:521-577 | At every moment of a run, whatever its jobs (names or targets may repeat, the source may be a target), no key of any vault has disappeared, and secrets and rows that belong to no job are as they were. |
| PoolRefinement.RunKeepsOtherSyncs | sync/engine.go:183-188 | At every moment of a run every row of another sync, or of another source, is exactly as it was. |
| PoolRefinement.UnidirectionalReady | sync/engine.go:475-478 | A source that is not among the targets is enough for the unidirectional theorems; names and targets may repeat. |
| PoolRefinement.BidirectionalReady | sync/engine.go:106-113 | Distinct names and a target other than the source are enough for the bidirectional ones. |
| Serial.OneWorkerIsSerial | sync/engine.go:95-99 | With one worker, the default, every complete run ends with the very world, ids of rows included, and the counts of the loop over its jobs in some order; for any jobs, answers and world, a source among the targets included. |
| Serial.AlwaysInOrder | sync/engine.go:479-496 | At every step of such a run the goroutines that have sent did so in an order whose loop has made the world, and the one that works is about to make of it what the loop makes next. |
| Pool.PoolIsSafe | sync/engine.go:468-517 | In every reachable state at most `workers` jobs hold the semaphore, no possible step panics, no send of a result, release or `wg.Done()` has to wait, `results` is closed only after every release and `Done`, and the semaphore last. |
| Pool.PoolNeverDeadlocks | sync/engine.go:468-517 | With at least one worker some step can be made until the executor has returned. |
| Pool.PoolTerminates | sync/engine.go:468-517 | The length of every schedule is bounded before it starts: a measure falls with every step. |
| Pool.CanComplete | sync/engine.go:468-517 | With at least one worker every schedule can be extended to a complete one. |
| Pool.Reachable | sync/engine.go:468-517 | Every schedule keeps channels and counters in agreement with where the goroutines stand, and keeps each job on the course it would take alone. |
| Pool.ProtocolStep | sync/engine.go:477-515 | Each single step of any goroutine keeps that agreement. |
| Pool.DataStep | sync/engine.go:479-496 | Each single step keeps every job on its course to the fate it would meet alone. |
| Locality.OwnCell | sync/engine.go:139-198 | A step does to the shared vaults and rows, seen through the job's own cell, what it does to the cell alone. |
| Locality.OtherCell | sync/engine.go:139-198 | A step of one job is invisible in the cell of every other job of the run. |
| Locality.FramedStep | sync/engine.go:200-317 | No step of a job deletes a key, and none touches a secret or row outside the jobs, whatever the other jobs are. |
| Pool.FramingStep | sync/engine.go:468-517 | No step of the pool does, and a unidirectional job never comes to write the source as a source. |
| Locality.CellsDetermineWorld | storage/store.go:438-473 | Two outcomes of one run that agree on the cells of its jobs agree on all vaults, and on all rows up to ids. |
| NestedLoop.SequentialFates | sync/engine.go:475-515 | After the nested loop every job has met the fate it meets alone, and the counts are the counts of these fates; in a unidirectional run jobs may repeat. |
| NestedLoop.FateAgain | sync/engine.go:139-198 | A unidirectional job that is run again on what it has left succeeds or fails as before and leaves the same. |
| Resolver.FinishMoves | sync/engine.go:139-198 | From any point of a unidirectional job the end is the same when another goroutine of the job has taken the target or the row part of the way. |
| Resolver.StepMoves | sync/engine.go:139-198 | Each step of a unidirectional job moves the target and the row only from where they are to where the job ends. |
| NestedLoop.RunFromIsLocal | sync/engine.go:139-317 | What a job does, from any of its program points, is decided by its cell alone. |
| NestedLoop.JobsOfDistinct | sync/engine.go:475-478 | The loops start each secret and target pair once, \|secrets\|·\|targets\| in all. |
| NestedLoop.LoopKeepsFrame | sync/engine.go:475-515 | The loop, for any jobs, leaves the secrets and rows of no job as they were and makes no key disappear. |
| Jobs.RankDecreases | sync/engine.go:391-413 | Every step of a job, retries included, brings it nearer to its end. |
| Resolver.StepsAddUp | sync/engine.go:139-317 | The atomic steps of a job add up to the operation described in one piece. |
| Resolver.AttemptSays | sync/engine.go:391-413 | The attempts of a write succeed iff one of the MaxRetries + 1 answers is a success; else the last answer names the error. |
| Resolver.UnidirectSays | sync/engine.go:139-198 | A copy succeeds iff the source is read, the transforms do not err and an attempt succeeds; the target then holds the transformed value, the source is never written, and the record holds the checksum of the source with `success`, or with `failed` and the last error. |
| Resolver.BidirectSays | sync/engine.go:215-316 | With both sides read: equal checksums are recorded as in sync and nothing is written; otherwise the direction is source to target iff nothing is recorded or the last one was target to source, the value is copied that way, the other side is left alone, and the record says so. |
| Resolver.SuccessConverges | sync/engine.go:201-317 | Without transforms, on vaults that give back what was written, a success leaves both sides equal at one of the two prior values, and the record holds the hashes of what the sides now hold. |
| Resolver.SelfStabilises | sync/engine.go:201-317 | When each vault stores as given or through one shared idempotent canonicaliser, two failure-free runs make both sides read equal from any values and any record; every later run writes no vault and changes neither side. |
| Resolver.EqualSidesRest | sync/engine.go:218-233 | On equal sides a run writes no vault. |
| Resolver.VisitDirection | sync/engine.go:236-313 | A divergence is resolved against the record, only the other side is written, and the direction is recorded whether or not the write succeeded. |
| Resolver.DirectionsAlternate | sync/engine.go:241-313 | Over any history with a working store, consecutive resolutions with no other record between them strictly alternate, so the k-th direction follows from the parity of k. |
| Resolver.StreakStart | sync/engine.go:209-253 | A streak starts from the source without a record, and into the source after an in-sync record or a missing-target copy. |
| Settling.RunIsOperations | sync/engine.go:521-577 | A complete run with distinct names or with one worker does to the cell of each job the bidirectional operation, as often as the job is listed. |
| Settling.TwoRunsSettle | sync/engine.go:201-317 | With distinct names or one worker: after two complete concurrent runs without failures, under any schedules and from any vault contents and records, both sides of every secret of the run read equal. |
| Settling.OneRunSettles | sync/engine.go:201-317 | When the vaults give back what was written, one run is enough. |
| Repetition.SettlesIff | sync/engine.go:521-577 | When all calls work on vaults that give back what was written, and two values differ: one run settles every secret, from every world that holds the names and under every schedule, iff the names are distinct or there is one worker. |
| Repetition.RepeatedSecretSwaps | sync/engine.go:538-557 | The failing side: with any list in which a name repeats, and two workers or more, a complete run exists that swaps the two sides of the secret. |
| Repetition.WorkingSyncExists | sync/engine.go:538-557 | Such syncs exist, with a name listed any number of times. |
| Settling.SettledRunRests | sync/engine.go:218-233 | A run that finds its secrets settled and readable leaves every vault exactly as it is at every step and has no failures: for any jobs, repeated or not, any number of workers, any table, and accepted records or not. |
| Engine.Backend.SetSecret | vault/backend.go:28-29 | A reported success has stored the value; a failure may have. |
| Engine.Engine.Get | vault/backend.go:25-26 | One call on a backend reads the world the jobs share. |
| Engine.Engine.Put | vault/backend.go:28-29 | One call on a backend changes that world at one key at most. |
| Engine.Engine.SyncSecretUnidirectional | sync/engine.go:139-198 | The operation as coded makes exactly the steps of its job: same result, same vaults, same rows. |
| Engine.Engine.Copying | sync/engine.go:157-197 | Its retried write and its success or failure record. |
| Engine.Engine.SyncSecretBidirectional | sync/engine.go:201-317 | The operation as coded makes exactly the steps of its job. |
| Engine.Engine.Comparing | sync/engine.go:215-253 | Equal checksums only record; otherwise the record decides the direction. |
| Engine.Engine.Resolving | sync/engine.go:255-316 | The retried write of a divergence and its record. |
| Engine.Engine.Record | sync/engine.go:178-195 | Ending with an upsert is ending with the job's UPDATE and INSERT steps, and a refused record changes nothing. Under which key the row stands is in `RunReport.SuccessHasRow` and `PoolRefinement.RunKeepsOtherSyncs`. |
| Engine.Engine.Execute | sync/engine.go:459-517 | The executor lists again, filters and works off the jobs; when the listing fails it does nothing and counts nothing. What the filter lets through is in `JobListMembers`. |
| Engine.Engine.ExecuteJob | sync/engine.go:484-495 | What one goroutine does between its acquire and its send is the whole job. |
| Engine.Engine.ExecuteJobs | sync/engine.go:475-515 | Working off the jobs one by one is the nested loop of the refinement theorem. |
| Engine.Engine.ExecuteSync | sync/engine.go:68-136 | The error cases and what each records. Otherwise, for the second listing: every name that an exclude pattern accepts, or that no pattern accepts when there are any, reads as before in every vault and its rows are as before, and so are vaults that are no side of the sync and rows of other syncs, sources and targets; `success + failure` is the number of listed names that pass times the number of targets, or times one for a bidirectional sync; the status follows from the counts; and a unidirectional run without failures has put the transformed value of every such name into every target. |
| Engine.Engine.WorkOff | sync/engine.go:88-136 | The part of it behind the error cases: the executor and the record of the run, with the same promises. |
| Engine.JobListMembers | sync/engine.go:459-478 | The jobs are exactly the listed names that the patterns let through, for each target, or for the first one alone in a bidirectional sync; a name listed twice counts twice. |
| Engine.LoopTouches | sync/engine.go:459-577 | Working off the jobs leaves every other secret and row alone, and counts every job once. |
| Engine.LoopCopies | sync/engine.go:157-195 | A unidirectional run without failures has copied every name that passes to every target. |
| RunReport.RunAccounting | sync/engine.go:101-127 | After any complete schedule, whatever the jobs, every goroutine is gone with a verdict, the totals sum to \|filtered\|·\|targets\|, the status is success iff there was a job and every verdict is a success, failed iff none is. |
| RunReport.FateAccounting | sync/engine.go:101-127 | Where the refinement holds, the verdicts are the fates the jobs meet alone. |
| Recording.Totals | sync/engine.go:506-517 | The counts of a complete run are the counts of the verdicts. |
| Recording.RecordedAlways | storage/store.go:438-473 | In every reachable state, also while goroutines race for one row and each gets answers of its own: unless one of a pair is on its way to failure, those past an accepted record have left a row that counts as synced; when all records of the pair are refused, the row is untouched. |
| RunReport.CleanRunFailedJob | sync/runner.go:137-152 | After a run without failures, whatever its jobs and their answers, the row of a pair counts as failed iff every record of the pair was refused and the earlier row counted as failed. |
| Settling.FailedRowStays | sync/runner.go:137-152 | The failing side of that equivalence: such a run can be completed, has no failures, and leaves the failed row failed. |
| Settling.RefusedJobExists | sync/engine.go:218-233 | A concrete run of that kind. |
| RunReport.CleanRunFailedRows | sync/runner.go:137-152 | After a run without failures, whatever its jobs, a row counted as failed belongs to no job whose record was accepted; a row of no job is the very row from before. |
| RunReport.OkLeavesSyncedRow | sync/engine.go:182-195 | A job that succeeds leaves a row counted as synced, or, when the record is refused, the row there was. |
| RunReport.SuccessHasRow | sync/engine.go:183-195 | After a complete run, whatever its jobs, a goroutine that reported success and whose record was accepted has a row among those of the sync, with the sync's id, its source, the job's target and its name. |
| RunReport.CleanRunTotal | sync/runner.go:137-152 | After a run without failures and with accepted records the status page of the sync counts at least as many objects as the run had distinct pairs. |
| RunReport.GetSyncStatus | sync/runner.go:126-156 | The total is the number of rows of the sync, synced and failed add up to it, and failed is 0 iff every one of them is marked success or in sync. |
| Retry.WithRetry | sync/engine.go:391-413 | `fn` is called once more than the smaller of its first success and MaxRetries, sleeping the i-th delay after the i-th failure; the last error is reported. |
| Retry.TotalDelayBounded | sync/engine.go:403-409 | Every delay but the first is at most MaxBackoff and the total at most InitialBackoff + (MaxRetries-1)·MaxBackoff. |
| Retry.DelayClosedForm | sync/engine.go:403-409 | For an integer multiplier m >= 1 the i-th delay is min(InitialBackoff·m^i, MaxBackoff) for every i >= 1, and for i = 0 iff InitialBackoff <= MaxBackoff. |
| Retry.AttemptedUnlessNegative | sync/engine.go:415-427 | With the effective policy the operation is attempted at least once, except exactly when MaxRetries is negative beside a positive InitialBackoff. |
| Retry.DefaultPolicy | sync/engine.go:415-427 | A policy with neither retries nor a first delay is attempted 4 times, with delays of 1000, 2000 and 4000; every other one is used as it is. |
| Glob.MatchPatternSound | sync/engine.go:361-382 | What the matcher accepts is a match of the glob. |
| Glob.SimpleComplete | sync/engine.go:361-382 | For patterns without a star or with one star at an end it misses no match. |
| Glob.ExactIffSimple | sync/engine.go:361-382 | The matcher decides the glob for all names exactly for those patterns. |
| Glob.FilterSecrets | sync/engine.go:319-359 | The filter loop returns the kept names, in order: a name is in the result iff it is in the input, no exclude pattern accepts it, and some pattern does when there are patterns. |
| Glob.FilteredMembers | sync/engine.go:319-359 | The same of the specified filter. |
| Glob.SimpleFilter | sync/engine.go:319-382 | When all patterns have no star or one star at an end, membership is decided by the textbook meaning of the globs. |
| Glob.FilteredCount | sync/engine.go:319-359 | The result has as many names as the input has occurrences of names that pass. |
| Glob.FilterKeepsMultiplicity | sync/engine.go:325-358 | A kept name occurs as often as in the input, a dropped one not at all. |
| Glob.FilterAppend | sync/engine.go:325-358 | Filtering distributes over concatenation, so order is kept. |
| Glob.FilterDistinct | sync/engine.go:325-358 | Distinct names stay distinct. |
| Glob.ExcludeComposes | sync/engine.go:329-339 | Excluding e1+e2 is excluding e1 and then e2 alone. |
| Base64.DecodeUndoesEncode | sync/engine.go:437-444 | Decoding undoes encoding for every byte string. |
| Base64.AlphabetIs | sync/engine.go:437-444 | The symbols are those of table 1 of RFC 4648, the padding is the equals sign. |
| Base64.LineBreaksIgnored | sync/engine.go:439-444 | A carriage return or a line feed inserted anywhere does not change what is decoded. |
| Base64.ForeignByteFails | sync/engine.go:439-444 | A text with any other byte that is not in the table does not decode. |
| Transforms.ApplyTransforms | sync/engine.go:429-450 | The loop runs the transforms of the value field in order and stops at the first error. |
| Transforms.OneTransform | sync/engine.go:431-449 | What each transform does by its name: encode, decode with its error, nothing for another field, an error for an unknown kind. |
| Transforms.RunAppend | sync/engine.go:431-449 | Running a+b is running a and then b, with errors of a stopping both. |
| Transforms.IdentityIffBalanced | sync/engine.go:431-449 | A list never errs and is the identity on every byte string iff its value entries form a balanced word of encodes and decodes. |
| Crypto.UnframeUndoesFrame | security/crypto.go:46-98 | Decrypting what was encrypted gives it back for every nonce, and a ciphertext is longer than its plaintext. |
| Crypto.Encryptor.EncryptString | security/crypto.go:48-67 | Each call draws a new nonce; the result is base64 of the nonce and of what the AEAD seals under it, decrypts to the input and is longer; only a failed draw is an error. |
| Crypto.Encryptor.DecryptString | security/crypto.go:70-98 | Succeeds with p iff the text is base64 of at least 12 bytes and the AEAD opens the rest under the first 12 as p; too short, not base64 and a refused opening are the three errors. |
| Crypto.FrameIsSealed | security/crypto.go:48-67 | What is stored is base64 of the nonce and the sealed text, never of the plain one. |
| SyncTable.UpsertRefinesMapUpdate | storage/store.go:438-473 | One upsert is one map update: the unique keys survive, the INSERT is never refused, the row keeps its id, every other row is untouched. |
| SyncTable.HistoryRefinesMap | storage/store.go:438-494 | Over any sequence of upserts a lookup returns the last object upserted under the key, and a row keeps its id for ever. |
| SyncTable.FindUpdated | storage/store.go:442-452 | The UPDATE keeps the row's id, sets its content and leaves every other row alone. |
| SyncTable.ConsistentAppended | storage/store.go:461-470 | The INSERT of a new key keeps the constraints. |
| SyncTable.SyncObjectStore.ExecUpdate | storage/store.go:442-459 | The UPDATE and the number of rows it affected. |
| SyncTable.SyncObjectStore.ExecInsert | storage/store.go:461-470 | The INSERT, refused without a change when the key is there. |
| SyncTable.SyncObjectStore.UpsertSyncObject | storage/store.go:438-473 | The two statements leave the specified table, or, when the database is down, the old one. |
| SyncTable.SyncObjectStore.GetSyncObjectsBySync | storage/store.go:497-522 | Every row of the sync, each once. |
| ConfigTable.Lookup | storage/config_store.go:224-236 | The document of the row with that id, or none when there is no such row. |
| ConfigTable.Deleted | storage/config_store.go:100-109 | Exactly the rows of the other ids stay. |
| ConfigTable.SavedLookup | storage/config_store.go:197-222 | One save is one map update. |
| ConfigTable.ListingAfterHistory | storage/config_store.go:72-109 | After any sequence of saves and deletes the listing has each live id once, with its latest content, in the order in which the ids became live. |
| ConfigTable.ListingSortedByCreation | storage/config_store.go:141-161 | Under a clock that does not run backwards that is the order of `created_at`. |
| ConfigStore.Store.EncryptVaultAuth | storage/config_store.go:239-260 | In place, each header is sealed exactly once, as base64 of a nonce and of what the AEAD seals under it, a non-empty client secret too, and nothing else. |
| ConfigStore.Store.EncryptHeaders | storage/config_store.go:243-249 | The range loop in any order of keys encrypts every header once. |
| ConfigStore.Store.DecryptVaultAuth | storage/config_store.go:263-282 | Succeeds iff every encrypted field opens, and then holds all of them opened. |
| ConfigStore.Store.DecryptHeaders | storage/config_store.go:267-273 | The range loop in any order opens every header, or fails iff one does not open. |
| ConfigStore.Store.Unmarshal | storage/config_store.go:59-62 | A configuration made of new objects that shows the document. |
| ConfigStore.OpenedUndoesSealed | storage/config_store.go:239-282 | A sealed document opens, to the document that was sealed, empty headers and secrets included. |
| ConfigStore.OpensSays | storage/config_store.go:263-282 | A document opens iff every header and every non-empty client secret is base64 of a nonce and of something the AEAD opens under it; it then shows what these open to, and the rest as it was. |
| ConfigStore.SealedChanges | storage/config_store.go:239-260 | Sealing changes the document iff it has a header or a client secret. |
| ConfigStore.Store.SaveVault | storage/config_store.go:34-48 | The row holds the configuration with every header and every non-empty secret sealed once, and so does the caller's own object afterwards. |
| ConfigStore.Store.GetVault | storage/config_store.go:51-69 | Nothing for an unknown id; else new objects with the document decrypted, or an error iff a field does not decrypt. |
| ConfigStore.Store.ListVaults | storage/config_store.go:72-97 | Every document decrypted, in row order, or an error iff one does not decrypt. |
| ConfigStore.Store.DeleteVault | storage/config_store.go:100-109 | The row of the id is gone, the others stay. |
| ConfigStore.Store.RoundTrip | storage/config_store.go:34-69 | A save and a read give back the configuration as it was before the save, in new objects, for any headers and any client secret; the caller's object is changed iff there was something to encrypt. |
| ConfigStore.Store.SaveTwice | storage/config_store.go:34-48 | Saved twice from one object it reads back as it was iff there was nothing to encrypt. |
| Json.UnmarshalUndoesPrint | vault/parser.go:138-142 | Reading the printed form of a canonical tree gives the tree back. Any other text is the matter of `JsonText.UnmarshalIffDenotes`. |
| Json.UnmarshalIsCanonical | vault/client.go:477-481 | Every tree that can be read is canonical: sorted distinct keys, number tokens that print as themselves. |
| JsonText.UnmarshalIffDenotes | vault/parser.go:79-82 | The parser accepts exactly the texts that denote a tree by RFC 8259, and yields that tree: white space of the four characters of section 2 around every token, all escapes of section 7 with surrogate pairs, lone surrogates as the replacement character, and the last member of a repeated name. |
| JsonText.PrintDenotes | vault/parser.go:138-142 | What is printed for a canonical tree denotes it. |
| JsonText.PrintedInOrder | vault/parser.go:138-142 | The members of an object are printed in key order, each once. |
| JsonText.PrintShown | vault/parser.go:138-142 | Printed text is compact and safe to show: no control character, `<`, `>`, `&` or line separator occurs in it, and a space only where a string has one. |
| JsonText.EscapeSays | vault/parser.go:138-142 | Character by character: short escapes for quote, backslash and five control characters, lower-case `\u` escapes for what must not be shown, everything else as it is. |
| ValueCodec.Payload | vault/client.go:463-489 | Field by field what the payload holds: the value, as a tree when it is structured JSON, the name, `type` 1 beside a `login` value field, and nothing else; and it is canonical. |
| ValueCodec.Sent | vault/client.go:488-494 | The text that is sent reads back as an object with the value in its value field. |
| ValueCodec.TreeIffStructured | vault/client.go:470-481 | A tree is sent exactly for values that are JSON objects or arrays. |
| ValueCodec.ParseGetValue | vault/parser.go:77-106 | The value at the path, else the configured field, else the first of `value`, `data` and `secret` that is there, else an error; strings as they are, null as `<nil>`, booleans as `true` and `false`, numbers by their verb, trees as JSON. |
| ValueCodec.FirstFieldSays | vault/parser.go:93-103 | The field taken is the first of the list that is there, and none is taken iff none is there. |
| ValueCodec.GetSecretFromList | vault/client.go:341-384 | The value of the first item of that name, as the other read path would show it; a missing value reads as null. |
| ValueCodec.FirstNamedSays | vault/client.go:352-374 | The item taken is the first object whose name field is the name, and none is taken iff no item is. |
| ValueCodec.ParseJSONValue | vault/tool_backend.go:323-346 | The value at the path under any root, as the same text as the other read paths. |
| ValueCodec.CanonMeaning | vault/client.go:470-481 | Write then read prints JSON objects and arrays canonically and is the identity on every other string. |
| ValueCodec.CanonIdempotent | vault/client.go:470-481 | c(c(v)) = c(v) for every v, and structured JSON stays the same JSON. |
| ValueCodec.ReadPathsAgree | vault/client.go:360-371 | Both read paths compute the same c. |
| ValueCodec.WriteThenRead | vault/parser.go:134-147 | Over the wire: when the vault keeps the value field and answers with any text that denotes a JSON object that shows it at the value path, c of what was written is read. |
| ValueCodec.WriteThenList | vault/client.go:341-384 | The same for the vaults read by listing: any text that denotes a JSON object whose first `data` item of that name has the value. |
| ValueCodec.JsonVaultsStabilise | sync/engine.go:201-317 | HTTP vaults and vaults that keep strings, in any combination, settle after two bidirectional runs. |
| JsonPath.GetValueAtPath | vault/parser.go:109-131 | The HTTP walker computes the path semantics, with the same failures. |
| JsonPath.JsonNavigate | vault/tool_backend.go:351-372 | The tool walker computes the same semantics, so both succeed on the same trees and paths with the same result. |
| JsonPath.WalkJoins | vault/parser.go:109-131 | Walking p.q is walking p and from there q. |
| JsonPath.OneSegment | vault/parser.go:109-131 | A path without a dot leads to the member of that name of an object and nowhere from anything else; the empty path stays. |
| JsonPath.NonObjectFails | vault/parser.go:126-127 | A path with a non-empty segment fails on everything that is no object. |
| JsonPath.SegmentNeedsObject | vault/parser.go:118-127 | Such a segment fails also on an object without a member of that name, whatever follows. |
| JsonPath.FieldSays | vault/parser.go:118-124 | What is found under a name is the value of a member of that name, and nothing is found iff no member has it. |
| JsonPath.EmptySegmentsIgnored | vault/parser.go:114-116 | Empty segments do not matter. |
| JsonPath.ParseList | vault/parser.go:26-74 | The names at the path, or from the fallback fields when there are no items. |
| JsonPath.ListSays | vault/parser.go:32-52 | The names of the array at the path when it has items, else those of the fallback, a missing path or another value included. |
| JsonPath.FallbackSays | vault/parser.go:43-52 | The fallback is the first array among the fields `data`, `value` and `keys`. |
| JsonPath.NamesSay | vault/parser.go:54-71 | A string names itself, an object has the string in its name field, `name` when none is configured, other items have no name. |
| JsonPath.NamesAppend | vault/parser.go:54-71 | The names are collected item by item, in order. |
| JsonPath.ParseJSONList | vault/tool_backend.go:288-320 | The names at the path, or which of the three errors. |
| JsonPath.ListParsersAgree | vault/parser.go:43-52 | Where the tool parser lists an object root, the HTTP parser lists the same names iff the array has items or its fallback has no name. |
| FormEncoding.EncodeParams | vault/client.go:711-718 | Whatever the iteration order, the result is the sorted form of the map. |
| FormEncoding.FormUnique | vault/client.go:716-717 | A map has one such form, so the output does not depend on the iteration order. |
| FormEncoding.DecodeUndoesEncode | vault/client.go:711-718 | The decoder of Appendix B of RFC 6749 gives the map back, for all byte strings as names and values. |
| FormEncoding.EscapeByteSays | vault/client.go:714 | Unreserved characters of section 2.3 of RFC 3986 stand for themselves, a space is a plus sign, every other byte is a percent sign and two upper-case hexadecimal digits. |
| FormEncoding.FormWritten | vault/client.go:711-718 | The form of any map is written in unreserved characters, escapes, `+`, `=` and `&` alone. |
| Sessions.Service.Login | auth/service.go:69-93 | A token is given iff some user has that name and a hash that fits the password and the token is new; then there is a new session of that user for 24 hours, otherwise an error and no change. |
| Sessions.Service.ValidateSession | auth/service.go:97-111 | A user iff he has a session under the token that has not expired. |
| Sessions.Service.Logout | auth/service.go:114-119 | Exactly the sessions of that token are gone. |
| Sessions.Service.CreateUser | auth/service.go:123-143 | A new user with a new id, without the hash in the answer, unless some user has that name; then an error and no change. |
| Sessions.Service.ChangePassword | auth/service.go:146-152 | The hash of the user of that id is replaced, and nothing else of him and of the others changes. |
| Sessions.Service.ChangeRole | auth/service.go:155-157 | The role of the user of that id is replaced, and nothing else of him and of the others changes. |
| Sessions.ByName | storage/user_store.go:55-69 | A user of that name, or none when no user has it. |
| Sessions.ById | storage/user_store.go:72-86 | The user of that id, or none when no user has it. |
| Sessions.Service.DeleteUser | auth/service.go:160-185 | The user and all his sessions are gone, and no other; an error, and no change, iff he is an admin and the only one. |
| Sessions.Service.DeleteExpiredSessions | storage/user_store.go:213-223 | Exactly the sessions that have expired are gone. |
| SessionHistory.ValidExactlyWhenIssued | auth/service.go:69-119 | After any history a token is valid iff a login issued it less than 24 hours ago with no logout of it and no deletion of its user since; the answer is that user as he is now. |
| SessionHistory.ValidExactlyAfterLogin | auth/service.go:69-119 | The same in terms of the events: a token is valid at the end of a history iff some login with that token came less than 24 hours ago, with a name and a password that fitted the hash a user had at that moment, and since then neither a logout of the token nor a deletion of the user. |
| SessionHistory.SessionsHaveUsers | storage/user_store.go:138-153 | After any history, also with a clock that is set back, every session's user exists. |
| SessionHistory.PurgeInvisible | storage/user_store.go:213-223 | Deleting expired sessions at any point changes no later answer. |
| SessionHistory.AccountsStayOk | storage/user_store.go:41-52 | No two users ever share an id or a name. |
| SessionHistory.IdsNeverReused | storage/user_store.go:41-52 | The next id never falls, and an id below it that belongs to nobody belongs to nobody for ever. |
| SessionHistory.AnAdminStays | auth/service.go:165-183 | After any history `DeleteUser` never removes the last admin there is. |
| SessionHistory.HistoryInvariant | auth/service.go:69-119 | The state of the tables that any history leaves, token by token. |
| Runner.Runner.Start | sync/runner.go:41-92 | The loop schedules the wanted syncs up to the first bad schedule: every new entry is a sync that is not disabled and has a schedule that parses, on success every such sync has one and the runner runs; a bad schedule and a second start are errors. |
| Runner.Runner.Stop | sync/runner.go:94-106 | Cron and the flag are off; nothing happens on a stopped runner. |
| Runner.StartMeaning | sync/runner.go:50-91 | A new runner starts iff every enabled sync with a schedule has one that parses, and then holds exactly these, in order, each under its id; otherwise it does not run. |
| HotSwap.App.StartUp | main.go:273-281 | The first runner is started only when there are syncs; start-up ends with an error iff an enabled sync has a schedule that does not parse. |
| HotSwap.App.ReloadConfig | main.go:175-212 | Succeeds iff the configuration loads, the engine is built and every enabled schedule parses; the handler then sees all of the new configuration with a new, running runner that holds exactly its enabled scheduled syncs, and the old one is stopped. On any failure everything is unchanged. |
| HotSwap.ReloadIsSafe | main.go:175-212 | In every reachable state, with any number of callers: one caller inside, never more than two runners running, at least one once one was started, exactly one between reloads, namely the handler's; and between reloads the handler has the configuration of the last successful reload, else that of the start-up, and a runner scheduled from it. |
| HotSwap.StaysUp | main.go:191-202 | No step takes the last running runner away. |
| HotSwap.FailedReloadChangesNothing | main.go:179-195 | A reload that fails at loading, engine creation or start leaves the handler, the variable and every earlier runner as they were. |
| HotSwap.ReloadsEnd | main.go:176-177 | No caller is stuck behind the mutex: some step is possible until all are done, and every step uses up work. |

## Left out

- Engine.Engine.Execute: its jobs run one after the other, as in `ExecuteJobs`.
- Engine.Engine.ExecuteJobs: runs the jobs one after the other; the interleaving of the goroutines is in `Pool`, and `PoolRefinement` connects the two.
- PoolRefinement.ConcurrentRefinesSequential: rows agree up to their ids, because the order of concurrent INSERTs decides the ids.
- SessionHistory.ValidExactlyWhenIssued: assumes a clock that does not run backwards and tokens that are never drawn twice; seconds are whole.
- RunReport.GetSyncStatus: the last run, the recent runs and the next run of the status page are not modelled.
- SessionHistory.AnAdminStays: speaks of `DeleteUser` only; `ChangeRole` can demote the last admin (auth/service.go:155-157).
- SyncTable.SyncObjectStore.GetSyncObjectsBySync: returns the rows in table order; the ordering by `updated_at` is not modelled.
- ConfigTable.ListingAfterHistory: rows with equal `created_at` are taken to be listed in the order of insertion, which SQL does not promise.
- ConfigStore.Store.GetVault: the JSON text of a configuration is a document value here; its printing and parsing, and the error for a text that does not parse, are not part of the round trip.
- ConfigStore.Store.Unmarshal: for the same reason it has no error.
- ConfigStore.Store.ListVaults: for the same reason it has no error of parsing; rows with equal `created_at` come in the order of insertion.
- Json.UnmarshalUndoesPrint: texts are sequences of Unicode scalar values; bytes that are not UTF-8, which Go replaces, and the nesting limit of 10000 are not modelled, and number tokens are opaque.
- ValueCodec.Payload: lower-casing of the field name is that of ASCII.
- HotSwap.ReloadIsSafe: shutdown during a reload, and requests that read the handler between its two updates, are not modelled.
- Errors of the database in the users, sessions and configuration tables; for `sync_objects` they are modelled.
- Timestamps of rows and runs, external ids, `sync_count`, `failure_count`, `sync_history` and run durations.
- HTTP, TLS, process execution, templates, environment merging, line-by-line tool output, endpoint tables and configuration defaults: foreign calls or branch-by-branch facts.
- Cron's own timing: `Parses` says which schedule expressions it accepts.
- Migrations, SQL text and dialects; tables are sequences of rows with their constraints.
- The internals of AES, PBKDF2, bcrypt, SHA-256 and random generation.
- The OAuth token cache, the first admin's set-up and the web interface.
- Floating-point rounding in the backoff: delays are real products, truncated.
