/**
 * `src/lib/runtime.rs`: `run` seeds the job channel with one `ConsumeText`
 * job per configured source and lets workers drain it; a `ConsumeText` job
 * reads its source piece by piece and announces one `Search` job per
 * non-empty piece. Searching and formatting are empty stubs in the source.
 *
 * The outside world is a parameter: `text_reader_wrap` and the successive
 * results of `read_string_to_buff` are given per source by a `ReaderOracle`,
 * and whether the regex builds is a `RegexBuild`. The worker pool is modelled
 * as a single worker.
 */
module Runtime {
  import opened Wrappers
  import opened RustUsize
  import opened Jobs

  /** Where text comes from: the configured sources plus standard input. */
  datatype TextSource = PlainText(text: string) | FilePath(path: string) | DirPath(path: string) | Stdin

  datatype SearchRequest = SearchRequest(line: nat, haystack: string, source: TextSource)
  datatype SearchResult = SearchResult(line: nat, source: TextSource, position: nat, rmatch: string)

  datatype RuntimeJob = ConsumeText(source: TextSource) | Search(request: SearchRequest) | Format(result: SearchResult)

  datatype RuntimeError =
    | RegexParsing
    | ReaderCreation(source: TextSource)
    | ReadFailed(source: TextSource)
    | WorkerPanicked

  /** One `read_string_to_buff`: the text it appended (`""` is `Ok(0)`), or an I/O error. */
  datatype ReadResult = Read(text: string) | ReadError

  /**
   * What `text_reader_wrap` gives for a source: a failure, or a reader whose
   * successive reads return `results` in order; a reader that has run out of
   * scripted results is at end of input.
   */
  datatype Reader = CannotOpen | Opened(results: seq<ReadResult>)

  type ReaderOracle = TextSource -> Reader

  /** Whether `RegexBuilder::build` accepts the search expression. */
  datatype RegexBuild = Compiled | Invalid

  const DEFAULT_CHAN_CAPACITY: Usize := 4096

  /** A read that ends the consuming loop: `Ok(0)` breaks it, an error bails out of it. */
  predicate StopsReading(r: ReadResult)
  {
    r == Read("") || r.ReadError?
  }

  /** How many reads the consuming loop turns into jobs: all reads before the first one that stops it. */
  function LeadingReads(results: seq<ReadResult>): (n: nat)
    ensures n <= |results|
    ensures forall k :: 0 <= k < n ==> results[k].Read? && results[k].text != ""
    ensures n < |results| ==> StopsReading(results[n])
  {
    if results == [] || StopsReading(results[0]) then 0 else 1 + LeadingReads(results[1..])
  }

  /**
   * The jobs a `ConsumeText(source)` job announces, in order: nothing for a
   * directory or a reader that cannot be created; otherwise one `Search` per
   * read before the first stopping read, numbered from line 0.
   */
  function ConsumeJobs(source: TextSource, reader: Reader): (jobs: seq<RuntimeJob>)
    ensures source.DirPath? || reader.CannotOpen? ==> jobs == []
    ensures !source.DirPath? && reader.Opened? ==> |jobs| == LeadingReads(reader.results)
    ensures forall k :: 0 <= k < |jobs| ==>
              reader.Opened? && k < |reader.results| && reader.results[k].Read? && reader.results[k].text != ""
              && jobs[k] == Search(SearchRequest(k, reader.results[k].text, source))
  {
    if source.DirPath? || reader.CannotOpen? then []
    else
      var results := reader.results;
      seq(LeadingReads(results), k requires 0 <= k < LeadingReads(results) => Search(SearchRequest(k, results[k].text, source)))
  }

  /** What a `ConsumeText(source)` job returns. */
  function ConsumeResult(source: TextSource, reader: Reader): Result<(), RuntimeError>
  {
    if source.DirPath? then Ok(())
    else if reader.CannotOpen? then Err(ReaderCreation(source))
    else if LeadingReads(reader.results) < |reader.results| && reader.results[LeadingReads(reader.results)].ReadError? then
      Err(ReadFailed(source))
    else Ok(())
  }

  /**
   * A read error bails out of the loop, but the `Search` jobs for the reads
   * before it have already been announced and stay announced.
   */
  lemma ReadErrorKeepsEarlierJobs(source: TextSource, before: seq<string>, after: seq<ReadResult>)
    requires !source.DirPath?
    requires forall k :: 0 <= k < |before| ==> before[k] != ""
    ensures var results := seq(|before|, k requires 0 <= k < |before| => Read(before[k])) + [ReadError] + after;
            var jobs := ConsumeJobs(source, Opened(results));
            && |jobs| == |before|
            && (forall k :: 0 <= k < |jobs| ==> jobs[k] == Search(SearchRequest(k, before[k], source)))
            && ConsumeResult(source, Opened(results)) == Err(ReadFailed(source))
  {
    var results := seq(|before|, k requires 0 <= k < |before| => Read(before[k])) + [ReadError] + after;
    LeadingReadsAt(results, |before|);
  }

  /** Reads after the `Ok(0)` that ends the loop are never looked at. */
  lemma EndOfInputIgnoresRest(source: TextSource, before: seq<string>, after: seq<ReadResult>)
    requires forall k :: 0 <= k < |before| ==> before[k] != ""
    ensures var prefix := seq(|before|, k requires 0 <= k < |before| => Read(before[k]));
            var results := prefix + [Read("")] + after;
            && ConsumeJobs(source, Opened(results)) == ConsumeJobs(source, Opened(prefix))
            && ConsumeResult(source, Opened(results)) == Ok(())
  {
    var prefix := seq(|before|, k requires 0 <= k < |before| => Read(before[k]));
    var results := prefix + [Read("")] + after;
    LeadingReadsAt(results, |before|);
  }

  /** The number of leading reads is fixed by the first stopping read. */
  lemma LeadingReadsAt(results: seq<ReadResult>, n: nat)
    requires n < |results| && StopsReading(results[n])
    requires forall k :: 0 <= k < n ==> !StopsReading(results[k])
    ensures LeadingReads(results) == n
  {
  }

  /**
   * `job_consume_text_source`: for a directory nothing happens; otherwise a
   * reader is created (or the job fails) and each non-empty read is
   * announced as a `Search` job carrying its line number, until a read of
   * zero bytes or a read error.
   */
  method JobConsumeTextSource(source: TextSource, readerFor: ReaderOracle, chan: JobsChan<RuntimeJob>)
    returns (r: Result<(), RuntimeError>)
    requires chan.Valid()
    modifies chan
    ensures chan.Valid()
    ensures chan.data == old(chan.data) + ConsumeJobs(source, readerFor(source))
    ensures chan.started == old(chan.started) && chan.done == old(chan.done) && chan.inFlight == old(chan.inFlight)
    ensures r == ConsumeResult(source, readerFor(source))
  {
    if source.DirPath? {
      return Ok(());
    }
    var reader := readerFor(source);
    if reader.CannotOpen? {
      return Err(ReaderCreation(source));
    }
    var results := reader.results;
    ghost var jobs := ConsumeJobs(source, reader);
    var line := 0;
    while line < |results|
      invariant line <= LeadingReads(results)
      invariant chan.Valid()
      invariant chan.data == old(chan.data) + jobs[..line]
      invariant chan.started == old(chan.started) && chan.done == old(chan.done) && chan.inFlight == old(chan.inFlight)
    {
      match results[line] {
        case Read(haystack) =>
          if haystack == "" {
            assert jobs[..line] == jobs;
            return Ok(());
          }
          chan.AnnounceOne(Search(SearchRequest(line, haystack, source)));
          assert jobs[..line + 1] == jobs[..line] + [jobs[line]];
        case ReadError =>
          assert jobs[..line] == jobs;
          return Err(ReadFailed(source));
      }
      line := line + 1;
    }
    assert jobs[..line] == jobs;
    r := Ok(());
  }

  /** The jobs a job announces while it runs; the search and format stubs announce none. */
  function Announced(job: RuntimeJob, readerFor: ReaderOracle): seq<RuntimeJob>
  {
    if job.ConsumeText? then ConsumeJobs(job.source, readerFor(job.source)) else []
  }

  /** The dispatch in `worker_go`: each kind of job to its handler; searching and formatting succeed and do nothing. */
  method ExecuteJob(job: RuntimeJob, readerFor: ReaderOracle, chan: JobsChan<RuntimeJob>)
    returns (r: Result<(), RuntimeError>)
    requires chan.Valid()
    modifies chan
    ensures chan.Valid()
    ensures chan.data == old(chan.data) + Announced(job, readerFor)
    ensures chan.started == old(chan.started) && chan.done == old(chan.done) && chan.inFlight == old(chan.inFlight)
    ensures job.ConsumeText? ==> r == ConsumeResult(job.source, readerFor(job.source))
    ensures !job.ConsumeText? ==> r == Ok(())
  {
    match job
    case ConsumeText(source) =>
      r := JobConsumeTextSource(source, readerFor, chan);
    case Search(_) =>
      r := Ok(());
    case Format(_) =>
      r := Ok(());
  }

  /**
   * An upper bound on the jobs a job causes, itself included: one, plus, for
   * a `ConsumeText`, one per scripted read of its source.
   */
  function JobWeight(job: RuntimeJob, readerFor: ReaderOracle): (w: nat)
    ensures w >= 1
  {
    if job.ConsumeText? && readerFor(job.source).Opened? then 1 + |readerFor(job.source).results| else 1
  }

  function Weight(jobs: seq<RuntimeJob>, readerFor: ReaderOracle): nat
  {
    if jobs == [] then 0 else Weight(jobs[..|jobs| - 1], readerFor) + JobWeight(jobs[|jobs| - 1], readerFor)
  }

  /** The weight of pending jobs is additive. */
  lemma {:induction false} WeightAppend(a: seq<RuntimeJob>, b: seq<RuntimeJob>, readerFor: ReaderOracle)
    ensures Weight(a + b, readerFor) == Weight(a, readerFor) + Weight(b, readerFor)
  {
    if b == [] {
      assert a + b == a;
    } else {
      assert (a + b)[..|a + b| - 1] == a + b[..|b| - 1];
      WeightAppend(a, b[..|b| - 1], readerFor);
    }
  }

  /** Every `Search` job weighs one. */
  lemma {:induction false} SearchesWeighTheirCount(jobs: seq<RuntimeJob>, readerFor: ReaderOracle)
    requires forall k :: 0 <= k < |jobs| ==> jobs[k].Search?
    ensures Weight(jobs, readerFor) == |jobs|
  {
    if jobs != [] {
      SearchesWeighTheirCount(jobs[..|jobs| - 1], readerFor);
    }
  }

  /** The jobs a job announces weigh strictly less than the job itself, so draining the channel terminates. */
  lemma AnnouncedIsLighter(job: RuntimeJob, readerFor: ReaderOracle)
    ensures Weight(Announced(job, readerFor), readerFor) < JobWeight(job, readerFor)
  {
    var out := Announced(job, readerFor);
    SearchesWeighTheirCount(out, readerFor);
  }

  /** How a worker's loop ended: the channel was drained, or `done_one` overflowed and the thread panicked. */
  datatype WorkerOutcome = Drained | Panicked

  /**
   * `worker_go` running alone on the channel: claim a job, run it, report
   * its error if it fails and carry on, count it done, until the claim
   * returns `None`. The claim is the corrected one, so the loop only ends on
   * a quiescent channel. The errors reported are those of consuming sources,
   * in order; none stops the loop.
   */
  method WorkerGo(chan: JobsChan<RuntimeJob>, readerFor: ReaderOracle)
    returns (outcome: WorkerOutcome, errors: seq<RuntimeError>)
    requires chan.Valid() && chan.inFlight == 0
    modifies chan
    ensures chan.Valid()
    ensures outcome.Drained? ==> chan.AllDone() && chan.inFlight == 0
    ensures old(chan.done) + Weight(old(chan.data), readerFor) < USIZE_MODULUS ==> outcome.Drained?
    ensures forall k :: 0 <= k < |errors| ==> errors[k].ReaderCreation? || errors[k].ReadFailed?
  {
    errors := [];
    ghost var bound := chan.done + Weight(chan.data, readerFor);
    while true
      invariant chan.Valid() && chan.inFlight == 0
      invariant chan.done + Weight(chan.data, readerFor) <= bound
      invariant forall k :: 0 <= k < |errors| ==> errors[k].ReaderCreation? || errors[k].ReadFailed?
      decreases Weight(chan.data, readerFor)
    {
      ghost var pending := chan.data;
      var claimed := chan.WaitForJobOrQuiescence();
      if claimed.None? {
        return Drained, errors;
      }
      var job := claimed.value;
      assert pending == chan.data + [job];
      WeightAppend(chan.data, [job], readerFor);
      ghost var rest := chan.data;
      var r := ExecuteJob(job, readerFor, chan);
      if r.Err? {
        errors := errors + [r.error];
      }
      WeightAppend(rest, Announced(job, readerFor), readerFor);
      AnnouncedIsLighter(job, readerFor);
      var finished := chan.DoneOne();
      if finished.Overflowed? {
        return Panicked, errors;
      }
    }
  }

  /** The `ConsumeText` jobs `run` seeds the channel with, one per source, in order. */
  function SeedJobs(sources: seq<TextSource>): seq<RuntimeJob>
  {
    seq(|sources|, k requires 0 <= k < |sources| => ConsumeText(sources[k]))
  }

  /** The seeding loop of `run`: one `ConsumeText` job announced per configured source, in order. */
  method AnnounceSources(chan: JobsChan<RuntimeJob>, sources: seq<TextSource>)
    requires chan.Valid()
    modifies chan
    ensures chan.Valid()
    ensures chan.data == old(chan.data) + SeedJobs(sources)
    ensures |chan.data| == |old(chan.data)| + |sources|
    ensures forall k :: 0 <= k < |sources| ==> chan.data[|old(chan.data)| + k] == ConsumeText(sources[k])
    ensures chan.started == old(chan.started) && chan.done == old(chan.done) && chan.inFlight == old(chan.inFlight)
  {
    for i := 0 to |sources|
      invariant chan.Valid()
      invariant chan.data == old(chan.data) + SeedJobs(sources[..i])
      invariant chan.started == old(chan.started) && chan.done == old(chan.done) && chan.inFlight == old(chan.inFlight)
    {
      chan.AnnounceOne(ConsumeText(sources[i]));
      assert SeedJobs(sources[..i + 1]) == SeedJobs(sources[..i]) + [ConsumeText(sources[i])];
    }
    assert sources[..|sources|] == sources;
  }

  /**
   * `run`: a search expression the regex builder rejects gives the only
   * `Err` the source's `run` returns; `WorkerPanicked` stands for the panic
   * of an overflowing `done_one`. Otherwise the channel is created, seeded
   * with the sources, drained by a worker and awaited, and `run` returns
   * `Ok` even when jobs failed (those errors are only reported). With the
   * corrected claim it always gets there unless `done` would overflow.
   */
  method Run(sources: seq<TextSource>, regex: RegexBuild, readerFor: ReaderOracle)
    returns (r: Result<(), RuntimeError>, errors: seq<RuntimeError>)
    ensures regex.Invalid? <==> r == Err(RegexParsing)
    ensures regex.Invalid? ==> errors == []
    ensures regex.Compiled? && Weight(SeedJobs(sources), readerFor) < USIZE_MODULUS ==> r == Ok(())
    ensures forall k :: 0 <= k < |errors| ==> errors[k].ReaderCreation? || errors[k].ReadFailed?
  {
    if regex.Invalid? {
      return Err(RegexParsing), [];
    }
    var chan := new JobsChan<RuntimeJob>.WithCapacity(DEFAULT_CHAN_CAPACITY);
    AnnounceSources(chan, sources);
    assert chan.data == SeedJobs(sources);
    var outcome;
    outcome, errors := WorkerGo(chan, readerFor);
    if outcome.Panicked? {
      return Err(WorkerPanicked), errors;
    }
    chan.WaitForAllDone();
    r := Ok(());
  }

  /**
   * The channel as written never hands out a job after `run` seeds it: with
   * nothing in flight `started == done`, so the claim returns `None` while
   * the seeded job is still pending and `wait_for_all_done` can never return.
   */
  method SeededChannelStalls(source: TextSource)
    returns (claimed: Option<RuntimeJob>, pending: seq<RuntimeJob>, allDone: bool)
    ensures claimed == None
    ensures pending == [ConsumeText(source)]
    ensures !allDone
  {
    var chan := new JobsChan<RuntimeJob>.WithCapacity(DEFAULT_CHAN_CAPACITY);
    AnnounceSources(chan, [source]);
    claimed := chan.WaitForJobAnnouncement();
    pending := chan.data;
    allDone := chan.AllDone();
  }
}
