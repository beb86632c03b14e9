/** The parking limit of the blocking reload protocol, and how much work is left in a state:
    every release pass comes to an end. */
module BlockingReloadWork {
  import opened Prelude
  import opened BlockingReload

  /** No more requests are parked than the limit, those a pass is sorting included. */
  predicate Bounded(s: State) {
    && |s.waiters| <= s.maxBlocked
    && (s.lock.Held? ==> |s.lock.todo| + |s.lock.kept| + |s.lock.ready| <= s.maxBlocked)
  }

  lemma BoundedKept(s: State, step: Step)
    requires Bounded(s) && Enabled(s, step)
    ensures Bounded(Apply(s, step)) && Apply(s, step).maxBlocked == s.maxBlocked
  {
  }

  lemma {:induction false} RunKeepsBounded(threadCount: nat, maxBlocked: nat, schedule: seq<Step>)
    requires After(threadCount, maxBlocked, schedule).Some?
    ensures var s := After(threadCount, maxBlocked, schedule).value; Bounded(s) && s.maxBlocked == maxBlocked
  {
    hide Enabled, Apply;
    if schedule != [] {
      var before := schedule[..|schedule| - 1];
      RunKeepsBounded(threadCount, maxBlocked, before);
      BoundedKept(After(threadCount, maxBlocked, before).value, schedule[|schedule| - 1]);
    }
  }

  /** The parking limit holds in every run. */
  lemma ParkedWithinLimit(threadCount: nat, maxBlocked: nat, schedule: seq<Step>)
    requires After(threadCount, maxBlocked, schedule).Some?
    ensures |After(threadCount, maxBlocked, schedule).value.waiters| <= maxBlocked
  {
    hide After;
    RunKeepsBounded(threadCount, maxBlocked, schedule);
  }

  /** Steps a thread may still have to take for what it has begun. */
  function Weight(maxBlocked: nat, th: Thread): nat {
    match th
    case Idle => 0
    case NotReached(_) => 4 * maxBlocked + 6
    case Serving(_, _) => 1
    case MustRelease => 4 * maxBlocked + 5
    case Scanning => 0
    case Answering(ready, rendered) => 2 * |ready| + if rendered.None? then 2 else 1
  }

  function Weights(maxBlocked: nat, threads: seq<Thread>): nat {
    if threads == [] then 0 else Weight(maxBlocked, threads[0]) + Weights(maxBlocked, threads[1..])
  }

  /** The same for the pass that holds the lock. */
  function PassWork(lock: Lock): nat {
    if lock.Free? then 0
    else 4 * |lock.todo| + 2 * |lock.ready| + if lock.probed && lock.todo != [] then 3 else 4
  }

  function Work(s: State): nat {
    Weights(s.maxBlocked, s.threads) + PassWork(s.lock)
  }

  lemma {:induction false} UpdateWeights(maxBlocked: nat, threads: seq<Thread>, t: nat, to: Thread)
    requires t < |threads|
    ensures Weights(maxBlocked, threads[t := to]) + Weight(maxBlocked, threads[t]) ==
            Weights(maxBlocked, threads) + Weight(maxBlocked, to)
  {
    hide Weight;
    if t == 0 {
      assert threads[0 := to][1..] == threads[1..];
    } else {
      UpdateWeights(maxBlocked, threads[1..], t - 1, to);
      assert threads[t := to][1..] == threads[1..][t - 1 := to];
    }
  }

  /** Steps that bring no new work with them. */
  predicate Working(step: Step) {
    !step.Publish? && !step.Check? && !step.Expire?
  }

  lemma WorkShrinks(s: State, step: Step)
    requires Bounded(s) && Enabled(s, step) && Working(step)
    ensures Work(Apply(s, step)) < Work(s)
  {
    hide Weights, Reached;
    var r := Apply(s, step);
    if !step.ProbeCell? && !step.ProbeStore? {
      assert r.threads == s.threads[step.t := r.threads[step.t]];
      UpdateWeights(s.maxBlocked, s.threads, step.t, r.threads[step.t]);
    }
  }

  lemma {:induction false} QuietSteps(threadCount: nat, maxBlocked: nat, schedule: seq<Step>, more: seq<Step>)
    requires After(threadCount, maxBlocked, schedule).Some? && After(threadCount, maxBlocked, schedule + more).Some?
    requires forall i | 0 <= i < |more| :: Working(more[i])
    ensures Work(After(threadCount, maxBlocked, schedule + more).value) + |more| <=
            Work(After(threadCount, maxBlocked, schedule).value)
    decreases |more|
  {
    hide Enabled, Apply, Work, Working, Bounded;
    if more == [] {
      assert schedule + more == schedule;
    } else {
      var before := more[..|more| - 1];
      assert (schedule + more)[..|schedule + more| - 1] == schedule + before;
      QuietSteps(threadCount, maxBlocked, schedule, before);
      RunKeepsBounded(threadCount, maxBlocked, schedule + before);
      WorkShrinks(After(threadCount, maxBlocked, schedule + before).value, more[|more| - 1]);
    }
  }

  /** Every pass ends: without new publications, requests and timeouts, no run goes on for more
      steps than the work there is. */
  lemma PendingWorkRunsOut(threadCount: nat, maxBlocked: nat, schedule: seq<Step>, more: seq<Step>)
    requires After(threadCount, maxBlocked, schedule).Some? && After(threadCount, maxBlocked, schedule + more).Some?
    requires forall i | 0 <= i < |more| :: Working(more[i])
    ensures |more| <= Work(After(threadCount, maxBlocked, schedule).value)
  {
    hide After, Work, Working;
    QuietSteps(threadCount, maxBlocked, schedule, more);
  }
}
