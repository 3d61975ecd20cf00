/** The job queue of src/load.cpp: jobs are queued with `Add` and run in
    order by `LoadAll`, which stops at the first failing job and reports
    progress as it goes. */
module Load {

  /** A queued loading function, identified by the caller's handle. */
  datatype LoadFunc = LoadFunc(id: nat)

  /** An object whose `Load` method does the loading. */
  datatype Loadable = Loadable(id: nat)

  /** A queued job: a loading function as given, or the wrapper that calls
      an object's `Load`. */
  datatype Job = Func(f: LoadFunc) | Wrapped(obj: Loadable)

  /** What running a job returns, given what each loading function and
      each object's `Load` would return. */
  function Outcome(job: Job, call: LoadFunc -> bool, load: Loadable -> bool): bool
  {
    match job
    case Func(f) => call(f)
    case Wrapped(obj) => load(obj)
  }

  /** How many jobs at the front of the queue succeed: the index of the
      first failing job, or the queue's length when none fails. */
  function Passed(jobs: seq<Job>, call: LoadFunc -> bool, load: Loadable -> bool): (n: nat)
    ensures n <= |jobs|
    ensures forall k :: 0 <= k < n ==> Outcome(jobs[k], call, load)
    ensures n < |jobs| ==> !Outcome(jobs[n], call, load)
  {
    if jobs == [] || !Outcome(jobs[0], call, load) then 0
    else 1 + Passed(jobs[1..], call, load)
  }

  /** The whole load succeeds exactly when every job succeeds; so an empty
      queue succeeds. */
  lemma AllPassed(jobs: seq<Job>, call: LoadFunc -> bool, load: Loadable -> bool)
    ensures Passed(jobs, call, load) == |jobs| <==> forall k :: 0 <= k < |jobs| ==> Outcome(jobs[k], call, load)
  {
  }

  /** Queuing a job behind others does not change how far the earlier ones
      get, unless all of them pass. */
  lemma {:induction false} PassedAppend(jobs: seq<Job>, job: Job, call: LoadFunc -> bool, load: Loadable -> bool)
    ensures Passed(jobs, call, load) < |jobs| ==> Passed(jobs + [job], call, load) == Passed(jobs, call, load)
    ensures Passed(jobs, call, load) == |jobs| ==>
      Passed(jobs + [job], call, load) == |jobs| + (if Outcome(job, call, load) then 1 else 0)
  {
    if jobs != [] {
      assert (jobs + [job])[1..] == jobs[1..] + [job];
      PassedAppend(jobs[1..], job, call, load);
    }
  }

  /** A progress reporter: the number of jobs announced and the number
      that passed. */
  class Progress {
    var total: int
    var passed: int

    constructor ()
      ensures total == 0 && passed == 0
    {
      total := 0;
      passed := 0;
    }

    method AddTotal(n: int)
      modifies this
      ensures total == old(total) + n && passed == old(passed)
    {
      total := total + n;
    }

    method AddPassed(n: int)
      modifies this
      ensures passed == old(passed) + n && total == old(total)
    {
      passed := passed + n;
    }
  }

  /** `Loader`: the queue of jobs still to run. */
  class Loader {
    var toLoad: seq<Job>

    constructor ()
      ensures toLoad == []
    {
      toLoad := [];
    }

    /** Queues a loading function at the end. */
    method Add(f: LoadFunc)
      modifies this
      ensures toLoad == old(toLoad) + [Func(f)]
    {
      toLoad := toLoad + [Func(f)];
    }

    /** Queues, at the end, a job that calls obj's `Load`. */
    method AddLoadable(obj: Loadable)
      modifies this
      ensures toLoad == old(toLoad) + [Wrapped(obj)]
    {
      toLoad := toLoad + [Wrapped(obj)];
    }

    /** Runs the queued jobs in order until one fails.  Returns whether all
        succeeded and the jobs that were run; the progress reporter, when
        there is one, is told the queue's length once and one pass per
        succeeding job.  The queue itself is left as it was. */
    method LoadAll(progress: Progress?, call: LoadFunc -> bool, load: Loadable -> bool) returns (ok: bool, ran: seq<Job>)
      modifies progress
      ensures ok <==> Passed(toLoad, call, load) == |toLoad|
      ensures ran == toLoad[..if ok then |toLoad| else Passed(toLoad, call, load) + 1]
      ensures progress != null ==>
        progress.total == old(progress.total) + |toLoad| && progress.passed == old(progress.passed) + Passed(toLoad, call, load)
    {
      if progress != null {
        progress.AddTotal(|toLoad|);
      }
      ran := [];
      var k := 0;
      while k < |toLoad|
        invariant k <= Passed(toLoad, call, load)
        invariant ran == toLoad[..k]
        invariant progress != null ==>
          progress.total == old(progress.total) + |toLoad| && progress.passed == old(progress.passed) + k
      {
        var job := toLoad[k];
        ran := ran + [job];
        if !Outcome(job, call, load) {
          return false, ran;
        }
        if progress != null {
          progress.AddPassed(1);
        }
        k := k + 1;
      }
      return true, ran;
    }
  }
}
