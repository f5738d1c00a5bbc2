/**
 * `src/lib/jobs.rs`: the channel through which worker threads both take and
 * give jobs. The mutex-guarded `JobsData` (a `Vec` of pending jobs and the
 * counters `started` and `done`) becomes the fields of `JobsChan`; each
 * locked section is one atomic method, and each condition-variable wait loop
 * becomes the precondition under which its method gets past the loop.
 *
 * The ghost field `inFlight` counts jobs claimed and not yet reported done.
 * The comment at the head of the implementation says that `started` is
 * ahead of `done` while a worker is doing a job and equal to it otherwise.
 * The model reads that as: `started` runs ahead of `done` by exactly the
 * number of jobs in flight. `Valid()` states this modulo 2^64, because
 * `started` wraps.
 */
module Jobs {
  import opened Wrappers
  import opened RustUsize

  /** What `done_one` did: counted the job (and whether it woke the waiters), or overflowed `done`. */
  datatype DoneOutcome = Completed(wokeWaiters: bool) | Overflowed

  class JobsChan<T> {
    var data: seq<T>
    var started: Usize
    var done: Usize
    ghost var inFlight: nat

    ghost predicate Valid()
      reads this
    {
      started == (done + inFlight) % USIZE_MODULUS
    }

    /** The wait loop of `wait_for_job_announcement` is left once this holds. */
    predicate ClaimCanProceed()
      reads this
    {
      |data| != 0 || started == done
    }

    /** The wait loop of `wait_for_all_done` is left once this holds. */
    predicate AllDone()
      reads this
    {
      |data| == 0 && started == done
    }

    /** `with_capacity`: the capacity only reserves memory; the channel starts empty. */
    constructor WithCapacity(bufferSize: Usize)
      ensures data == [] && started == 0 && done == 0 && inFlight == 0
      ensures Valid()
    {
      data := [];
      started := 0;
      done := 0;
      inFlight := 0;
    }

    /**
     * `wait_for_job_announcement`, as written. Past the wait loop it returns
     * `None` exactly when `started == done`, even when jobs are pending, and
     * then changes nothing. Otherwise it pops the most recently announced
     * job; the wait loop guarantees that there is one.
     */
    method WaitForJobAnnouncement() returns (job: Option<T>)
      requires Valid() && ClaimCanProceed()
      modifies this
      ensures Valid()
      ensures job.None? <==> old(started) == old(done)
      ensures job.None? ==> data == old(data) && started == old(started) && done == old(done) && inFlight == old(inFlight)
      ensures job.Some? ==> |old(data)| > 0 && job.value == old(data)[|old(data)| - 1]
                            && data == old(data)[..|old(data)| - 1]
      ensures job.Some? ==> started == WrappingAdd(old(started), 1) && done == old(done)
                            && inFlight == old(inFlight) + 1
    {
      if started == done {
        job := None;
      } else {
        started := WrappingAdd(started, 1);
        inFlight := inFlight + 1;
        job := Some(data[|data| - 1]);
        data := data[..|data| - 1];
      }
    }

    /**
     * `wait_for_job_announcement` as intended: past the same wait loop it
     * returns `None` only when no job is pending, and that state is then
     * quiescent, so a worker only stops when all work is finished.
     */
    method WaitForJobOrQuiescence() returns (job: Option<T>)
      requires Valid() && ClaimCanProceed()
      modifies this
      ensures Valid()
      ensures job.None? <==> |old(data)| == 0
      ensures job.None? ==> AllDone()
      ensures job.None? ==> data == old(data) && started == old(started) && done == old(done) && inFlight == old(inFlight)
      ensures job.Some? ==> job.value == old(data)[|old(data)| - 1] && data == old(data)[..|old(data)| - 1]
      ensures job.Some? ==> started == WrappingAdd(old(started), 1) && done == old(done)
                            && inFlight == old(inFlight) + 1
    {
      if |data| == 0 {
        job := None;
      } else {
        started := WrappingAdd(started, 1);
        inFlight := inFlight + 1;
        job := Some(data[|data| - 1]);
        data := data[..|data| - 1];
      }
    }

    /** `announce_one`: the job goes to the end of `data`; the counters are untouched. */
    method AnnounceOne(job: T)
      requires Valid()
      modifies this
      ensures Valid()
      ensures data == old(data) + [job]
      ensures started == old(started) && done == old(done) && inFlight == old(inFlight)
    {
      data := data + [job];
    }

    /**
     * `done_one`, called once per claimed job: `done` grows by exactly one and
     * the waiters are woken exactly when that makes `started == done`. The
     * `+=` is not a wrapping add: at the top of the range it panics (in a
     * checked build), which is the `Overflowed` outcome, with nothing changed.
     */
    method DoneOne() returns (outcome: DoneOutcome)
      requires Valid() && inFlight > 0
      modifies this
      ensures Valid()
      ensures data == old(data) && started == old(started)
      ensures old(done) == USIZE_MODULUS - 1 ==>
                outcome == Overflowed && done == old(done) && inFlight == old(inFlight)
      ensures old(done) < USIZE_MODULUS - 1 ==>
                done == old(done) + 1 && inFlight == old(inFlight) - 1
                && outcome == Completed(started == done)
    {
      if done == USIZE_MODULUS - 1 {
        outcome := Overflowed;
      } else {
        done := done + 1;
        inFlight := inFlight - 1;
        outcome := Completed(started == done);
      }
    }

    /** `wait_for_all_done`: it returns only once no job is pending and `started == done`, and changes nothing. */
    method WaitForAllDone()
      requires Valid() && AllDone()
      ensures AllDone()
    {
    }

    /**
     * While fewer than 2^64 jobs are in flight, `started == done` says
     * exactly that no claimed job is still being worked on, although
     * `started` wraps.
     */
    lemma CountersEqualIffNoneInFlight()
      requires Valid() && inFlight < USIZE_MODULUS
      ensures started == done <==> inFlight == 0
    {
      if inFlight > 0 {
        assert done + inFlight > done;
        if done + inFlight < USIZE_MODULUS {
          assert started == done + inFlight;
        } else {
          assert started == done + inFlight - USIZE_MODULUS;
        }
      }
    }
  }
}
