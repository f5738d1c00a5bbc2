# gref core, modelled in Dafny

gref is a small multi-threaded grep clone written in Rust. This project
models and proves properties of four parts of it:

- **The job channel** (`src/lib/jobs.rs`). Worker threads take jobs from it
  and put new jobs into it. It holds a stack of pending jobs and two
  counters, `started` and `done`, which detect when all work is finished.
  `Jobs.JobsChan` is a class with those fields. Each mutex-guarded body is
  one method, and each condition-variable wait loop is the precondition
  under which that method gets past its loop.
- **The command-line parser** (`src/lib/config.rs` and its near-duplicate
  `src/config.rs`). It covers the argument loop of `parse_args`, the `-l`
  value parser `parse_match_displaying_mode` and the source classifier
  `parse_source`.
  - The two files differ only in `parse_source`, so the shared part lives
    in `ConfigCommon` and takes the classifier as a parameter.
  - `LibConfig` holds the lenient classifier, which treats a stat failure as
    "does not exist". `BinConfig` holds the one that propagates it.
  - The loop is an imperative method (`ConfigCommon.ParseArgsWith`), proved
    equal to a token-level specification (`ParseArgsSpec`). The lemmas state
    what that specification means.
- **The runtime** (`src/lib/runtime.rs`):
  - `run` seeds the channel with one `ConsumeText` job per source.
  - `job_consume_text_source` announces one `Search` job per non-empty read
    of a source.
  - `worker_go` claims and runs jobs, reports a failed job's error and
    carries on.
- **Rust's `usize`** (module `RustUsize`): the 2^64 range, `wrapping_add`,
  and `usize::from_str`.

Everything outside the program is a parameter:

- the filesystem, as a `FileSystem` from path to stat outcome;
- each source's reader, as a `ReaderOracle` giving whether the reader can be
  created and the results of its successive reads;
- the regex builder, as a `RegexBuild` outcome.

## Model

| member | source | states |
|---|---|---|
| RustUsize.WrappingAdd | src/lib/jobs.rs:52 | The sum of two `usize` values, reduced once modulo 2^64 when it overflows. |
| RustUsize.ParseUsize | src/lib/config.rs:85 | An accepted count is a non-empty string of decimal digits with at most one leading `+`. `""` and `"+"` are rejected. |
| RustUsize.ParseUsizeRoundTrip | src/lib/config.rs:92 | Every `usize` is parsed back from its decimal spelling. |
| RustUsize.ParseUsizePlus | src/lib/config.rs:92 | A leading `+` is accepted and does not change the value. |
| ConfigCommon.ParseMatchDisplayingMode | src/lib/config.rs:73-94 | Every error is the `-l` error. A missing or empty value is an error. The result is `Up` exactly when the value ends in `u` and `Down` exactly when it ends in `d`. Any other letter suffix is an error. |
| ConfigCommon.ParseModeCount | src/config.rs:85-98 | The count is the `usize` written before the suffix letter, or the whole value for `Around`. |
| ConfigCommon.ParseModeFromCount | src/config.rs:88-97 | Conversely, any count `usize` accepts, in any spelling (leading `+`, leading zeros), gives `Up` before `u`, `Down` before `d`, and `Around` when the value does not end in a letter. |
| ConfigCommon.SignedPaddedCountAccepted | src/lib/config.rs:84-87 | The value `+05u` is `Up(5)`. |
| ConfigCommon.ParseModeRoundTrip | src/config.rs:88-97 | `Nu`, `Nd` and a bare `N` give back `Up(N)`, `Down(N)` and `Around(N)` for every `usize` N. |
| ConfigCommon.SuffixWithoutCountRejected | src/lib/config.rs:83-85 | A suffix letter with no count before it (`u`, `d`) is an error. |
| ConfigCommon.ProgramArgs | src/lib/config.rs:40 | Exactly the first argument, the program name, is skipped. |
| ConfigCommon.Lex | src/lib/config.rs:42-56 | A free argument is never `-h` or `-l`. A `-l` without a value can only be the last token. |
| ConfigCommon.LexRoundTrip | src/lib/config.rs:42-56 | The loop accounts for every argument exactly once, in order. |
| ConfigCommon.UnlexRoundTrip | src/lib/config.rs:47-48 | The tokens are determined by the arguments. So the argument that `-l` consumes is never the search expression or a source. |
| ConfigCommon.Finish | src/lib/config.rs:59-69 | After the loop, the result is an error exactly when no search expression was seen. Otherwise the config holds it, the sources, and the mode (default `Around(4)`). |
| ConfigCommon.ParseArgsWith | src/config.rs:36-75 | The imperative `while let` loop computes `ParseArgsSpec` for any classifier. |
| ConfigCommon.InterpretClean | src/lib/config.rs:42-57 | A run of arguments with no `-h` and no failure can be replaced by the state it accumulates: the first free argument, the classified later ones in order, and the last `-l` mode. |
| ConfigCommon.HelpShortCircuits | src/lib/config.rs:44-45 | `-h` returns `NeedHelp` whatever follows it, once nothing before it failed. |
| ConfigCommon.BadLinesValueFails | src/config.rs:52-53 | An invalid `-l` value fails the parse whatever follows it, including a later `-h`. |
| ConfigCommon.SourceErrorFails | src/config.rs:55-59 | A source argument the classifier rejects fails the parse with that error, whatever follows. |
| ConfigCommon.CleanArgsBuild | src/lib/config.rs:50-69 | For arguments with no `-h` and no failure, the first free argument is the search expression and the later ones are the sources in order. The mode comes from the last `-l` (default `Around(4)`). With no free argument the result is the insufficient-arguments error. |
| ConfigCommon.LastLinesFlagWins | src/lib/config.rs:47-48 | The mode is the one given by the last `-l`. |
| ConfigCommon.NoLinesFlagKeepsMode | src/lib/config.rs:62-63 | Without any `-l`, the mode keeps its prior value, so the default applies. |
| ConfigCommon.ClassifiersAgree | src/lib/config.rs:53 | The parse depends on the classifier only through the free arguments. |
| LibConfig.ParseSource | src/lib/config.rs:96-111 | Never fails and keeps the argument. `DirPath` exactly for a directory, `FilePath` exactly for an existing non-directory, and `PlainText` exactly for a missing path or a failed stat. |
| LibConfig.ParseArgs | src/lib/config.rs:31-70 | The loop with the lenient classifier computes `ParseArgsSpec`. |
| LibConfig.CleanWithoutFailures | src/lib/config.rs:100-103 | With the lenient classifier, only `-h` or a bad `-l` value can stop the loop early. |
| LibConfig.ParseArgsBuilds | src/lib/config.rs:50-69 | Without `-h` and with valid `-l` values, the parse builds the config described in `CleanArgsBuild`, or fails for lack of a search expression. |
| LibConfig.HelpUnlessEarlierBadLines | src/lib/config.rs:42-49 | `-h` gives `NeedHelp` whenever no earlier `-l` value was invalid. |
| BinConfig.ParseSource | src/config.rs:101-113 | Fails exactly when the stat fails, with that path. Otherwise it classifies as `LibConfig.ParseSource` does. |
| BinConfig.ParseArgs | src/config.rs:36-75 | The loop with the propagating classifier computes `ParseArgsSpec`. |
| BinConfig.StatErrorPropagates | src/config.rs:55-59 | A source whose stat fails makes the whole parse fail with that error. |
| BinConfig.AgreesWithLibWhenStatSucceeds | src/config.rs:101-113 | When no argument's stat fails, the two copies of `parse_args` give the same result. |
| Jobs.JobsChan.WithCapacity | src/lib/jobs.rs:31-41 | A new channel has no pending jobs, `started == done == 0`, and satisfies the counter invariant. |
| Jobs.JobsChan.WaitForJobAnnouncement | src/lib/jobs.rs:43-56 | As written. Past the wait loop it returns `None` exactly when `started == done`, even with jobs pending, and changes nothing. Otherwise it pops the last pushed job, which the wait loop guarantees exists, and adds 1 to `started` modulo 2^64. The invariant is kept. |
| Jobs.JobsChan.WaitForJobOrQuiescence | src/lib/jobs.rs:43-56 | Corrected claim: `None` exactly when no job is pending, and then all work is done. Otherwise it behaves like the as-written `Some` branch. |
| Jobs.JobsChan.AnnounceOne | src/lib/jobs.rs:58-62 | The job is appended at the end, and the counters and the invariant are kept. |
| Jobs.JobsChan.DoneOne | src/lib/jobs.rs:64-71 | `done` grows by exactly one and nothing else changes. Waiters are woken exactly when this makes `started == done`. At the top of the range it overflows and changes nothing. |
| Jobs.JobsChan.WaitForAllDone | src/lib/jobs.rs:73-78 | Returns only in a state with no pending job and `started == done`, and modifies nothing. |
| Jobs.JobsChan.CountersEqualIffNoneInFlight | src/lib/jobs.rs:26-29 | Under `started == done + in-flight` modulo 2^64, the counters are equal exactly when no claimed job is unfinished. |
| Runtime.LeadingReads | src/lib/runtime.rs:102-113 | Counts the reads the loop turns into jobs. All of them are non-empty texts, and the read after them, if any, is a 0-byte read or an error. |
| Runtime.LeadingReadsAt | src/lib/runtime.rs:104-111 | The loop stops at the first 0-byte read or read error. |
| Runtime.ConsumeJobs | src/lib/runtime.rs:94-116 | A directory or a reader that cannot be created gives no jobs. Otherwise the k-th job is `Search` of the k-th read's non-empty text with `line == k`. |
| Runtime.ReadErrorKeepsEarlierJobs | src/lib/runtime.rs:106-110 | A read error fails the job, and the `Search` jobs for the earlier reads stay announced. |
| Runtime.EndOfInputIgnoresRest | src/lib/runtime.rs:105 | A 0-byte read ends the loop with `Ok`, and nothing after it is looked at. |
| Runtime.JobConsumeTextSource | src/lib/runtime.rs:92-117 | The channel gains exactly `ConsumeJobs` at its end, the counters are untouched, and the result is the reader-creation error, the read error or `Ok`. |
| Runtime.ExecuteJob | src/lib/runtime.rs:83-87 | Dispatches on the job kind. Only `ConsumeText` announces jobs or fails. |
| Runtime.WorkerGo | src/lib/runtime.rs:80-90 | With the corrected claim of the Findings row, the loop ends only on a quiescent channel, and ends there unless `done` overflows. A failed job is recorded and the loop goes on. Every recorded error comes from consuming a source. |
| Runtime.AnnounceSources | src/lib/runtime.rs:66-68 | Exactly one `ConsumeText(source)` per configured source is appended, in source order. The counters are untouched. |
| Runtime.Run | src/lib/runtime.rs:49-78 | A regex build failure returns `Err(RegexParsing)` before any channel exists, and this is the only `Err` the source returns. Otherwise the channel is seeded, then drained with the corrected claim of the Findings row, then awaited. The result is `Ok` even when jobs failed. The only other outcome is `Err(WorkerPanicked)`, which stands for `done` overflowing in `done_one`. |
| Runtime.SeededChannelStalls | src/lib/jobs.rs:49-50 | With the as-written claim, a channel seeded with one source hands out nothing and never reaches the all-done state. |

## Left out

- Threads, the mutex and condition variables (`thread::scope`, `notify_one`, `notify_all`, blocking): each locked section is one atomic step, and each wait loop is a precondition. Nothing is claimed about liveness or lost wake-ups.
- Runtime.WorkerGo: a single worker drains the channel. The thread count comes from a `threads` field that the configuration does not define. Interleavings of several workers are not modelled.
- Runtime.WorkerGo: does not state which errors are reported or in which order. Because the pending jobs form a stack, that order depends on the claim order.
- The regex crate: building is an oracle with two outcomes. The regex flags are not modelled.
- `src/lib/reader.rs` is not part of this model. A reader is an oracle result: either the reader cannot be created, or it yields a sequence of read results. When those results run out, the reader is at end of input. `Stdin` is one more `TextSource`.
- The filesystem stat in `parse_source` is an oracle from path to stat error, missing, file or directory. The warning that the lenient version prints is not modelled.
- Messages: error texts, the printing done by `runtime_error` (the model collects the errors instead) and the help strings in `src/help.rs` and `src/lib/help.rs`. `src/main.rs` and `src/lib/run.rs` are not part of this model.
- `job_search_in_string` and `job_format_result` are empty in the source. They are modelled as returning `Ok` without announcing anything.
- The capacity passed to `with_capacity` only reserves memory, so it does not affect the model.
- Runtime.JobConsumeTextSource: the `line` counter is unbounded. Its overflow after 2^64 reads is not modelled.
- Jobs.JobsChan.DoneOne: overflow of `+=` follows a checked build, where the thread panics. A release build would wrap. After the panic, lock poisoning is not modelled.
- ConfigCommon.ParseMatchDisplayingMode: `is_alphabetic` is restricted to ASCII letters. A value ending in a non-ASCII letter takes the numeric branch and is an error. The source would instead panic when slicing off a multi-byte character.
- Code that does not compile as shown: `announce_one` takes `&mut self` but is called through a shared reference; `wait_for_one` and `job()` do not exist; `TextSource` is not defined in the configuration files. `done_one` is never called. The model follows the evident intent: a claim is `wait_for_job_announcement`, and the missing handler calls `done_one` once after each job, as the comment at `src/lib/jobs.rs:26` describes.
- The claim at `src/lib/jobs.rs:49` has no startup guard; the comment at `src/lib/jobs.rs:50` shows that `None` was meant to say that nothing is pending. Only `Jobs.JobsChan.WaitForJobAnnouncement` (and `Runtime.SeededChannelStalls`, which uses it) follow that check as written; see Findings.
- Runtime.WorkerGo: claims through the corrected `Jobs.JobsChan.WaitForJobOrQuiescence`, not the as-written check at `src/lib/jobs.rs:49`. As written, the loop ends at the first claim that finds `started == done`, even with jobs pending. That happens on a freshly seeded channel, and mid-run once the only running job has announced new jobs and been counted done.
- Runtime.Run: drains through `Runtime.WorkerGo`, so its `Ok` describes the corrected program. As written, `run` with at least one source never returns from `wait_for_all_done`. Its `Err(WorkerPanicked)` models the panic of an overflowing `done_one`, and the worker thread panics there. The source never returns that panic as an error. What `run` does after a worker panics is thread mechanics, which the model leaves out.

## Findings

| source | as written | input that shows it | evidently intended | confidence | as-written member | corrected member |
|---|---|---|---|---|---|---|
| src/lib/jobs.rs:49 | After the wait loop, a claim returns `None` whenever `started == done`, even if jobs are pending. | `run` with one source: after seeding, the channel holds `[ConsumeText(s)]` with `started == done == 0`. Every worker's first claim returns `None`, and `wait_for_all_done` waits forever for the pending job. | Return `None` only when no job is pending. Past the wait loop this means `started == done` too, so the channel is quiescent. | high; not executed | Runtime.SeededChannelStalls | Jobs.JobsChan.WaitForJobOrQuiescence |
