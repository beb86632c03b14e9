/** The fan-out protocol of `core::ThreadPool`: one state-machine step per
    critical section, plus the unlocked invocation of the caller's function.
    Any number of workers interleave with one caller that issues any number of
    `parallel_for` calls one after another. */
module ThreadPool {

  import opened Prelude

  /** What a worker thread is doing in `worker_loop`. */
  datatype Worker =
    | Waiting            // in task_cv_.wait
    | Taken(index: nat)  // popped an index, has not invoked the function yet
    | Ran(index: nat)    // the function returned, outstanding_ not yet decremented

  datatype Pool = Pool(
    workers: seq<Worker>,
    pending: seq<nat>,        // pending_
    outstanding: nat,         // outstanding_
    currentFn: Option<nat>,   // current_fn_, named by the call it belongs to
    blocked: bool,            // the caller waits on done_cv_
    // Bookkeeping for the statements below.
    call: nat,                // number of calls started before the current one
    counts: seq<nat>,         // count argument of every call started
    finished: set<nat>,       // indices of the current call whose worker reported back
    runs: map<(nat, nat), nat> // how often fn(index) ran, per (call, index)
  )

  datatype Step =
    | Inline(count: nat)   // the paths of parallel_for that never touch the queue
    | Begin(count: nat)    // the enqueueing critical section of parallel_for
    | Take(w: nat)         // the dequeueing critical section of worker_loop
    | Invoke(w: nat)       // (*current_fn_)(index), outside the lock
    | Report(w: nat)       // the closing critical section of worker_loop
    | Return               // done_cv_ wait satisfied, parallel_for returns

  function Runs(p: Pool, call: nat, index: nat): nat {
    if (call, index) in p.runs then p.runs[(call, index)] else 0
  }

  function Count(p: Pool): nat
    requires p.call < |p.counts|
  {
    p.counts[p.call]
  }

  function Range(lo: nat, hi: nat): (r: seq<nat>)
    requires lo <= hi
    ensures |r| == hi - lo && forall i | 0 <= i < |r| :: r[i] == lo + i
  {
    seq(hi - lo, i requires 0 <= i < hi - lo => lo + i)
  }

  /** fn(0), fn(1), ..., fn(count - 1) on the calling thread. */
  function RunAll(runs: map<(nat, nat), nat>, call: nat, count: nat): (r: map<(nat, nat), nat>)
    ensures forall k :: k in r <==> k in runs || (k.0 == call && k.1 < count)
    ensures forall k | k in r ::
              r[k] == (if k in runs then runs[k] else 0) + (if k.0 == call && k.1 < count then 1 else 0)
  {
    if count == 0 then runs else
      var before := RunAll(runs, call, count - 1);
      var k := (call, count - 1);
      before[k := (if k in before then before[k] else 0) + 1]
  }

  function Init(workerCount: nat): Pool {
    Pool(seq(workerCount, _ => Waiting), [], 0, None, false, 0, [], {}, map[])
  }

  predicate Enabled(p: Pool, step: Step) {
    match step
    case Inline(count) => !p.blocked && (count <= 1 || p.workers == [])
    case Begin(count) => !p.blocked && count > 1 && p.workers != []
    case Take(w) => w < |p.workers| && p.workers[w].Waiting? && p.pending != []
    case Invoke(w) => w < |p.workers| && p.workers[w].Taken?
    case Report(w) => w < |p.workers| && p.workers[w].Ran?
    case Return => p.blocked && p.outstanding == 0
  }

  function Apply(p: Pool, step: Step): Pool
    requires Enabled(p, step)
  {
    match step
    case Inline(count) =>
      p.(counts := p.counts + [count], call := p.call + 1, runs := RunAll(p.runs, p.call, count))
    case Begin(count) =>
      p.(currentFn := Some(p.call), outstanding := count, pending := p.pending + Range(0, count),
         blocked := true, counts := p.counts + [count], finished := {})
    case Take(w) =>
      p.(workers := p.workers[w := Taken(p.pending[0])], pending := p.pending[1..])
    case Invoke(w) =>
      var index := p.workers[w].index;
      var target := if p.currentFn.Some? then p.currentFn.value else p.call;
      p.(workers := p.workers[w := Ran(index)],
         runs := p.runs[(target, index) := Runs(p, target, index) + 1])
    case Report(w) =>
      p.(workers := p.workers[w := Waiting],
         outstanding := if p.outstanding == 0 then 0 else p.outstanding - 1,
         finished := p.finished + {p.workers[w].index})
    case Return =>
      p.(currentFn := None, blocked := false, call := p.call + 1, finished := {})
  }

  /** The state after a whole schedule, or None when a step could not happen. */
  function After(workerCount: nat, schedule: seq<Step>): Option<Pool> {
    if schedule == [] then Some(Init(workerCount)) else
      var before := After(workerCount, schedule[..|schedule| - 1]);
      var step := schedule[|schedule| - 1];
      if before.Some? && Enabled(before.value, step) then Some(Apply(before.value, step)) else None
  }

  // ---------------------------------------------------------------- counting

  function Weight(w: Worker): nat {
    match w
    case Waiting => 0
    case Ran(_) => 1
    case Taken(_) => 2
  }

  function Busy(workers: seq<Worker>): nat {
    if workers == [] then 0 else Busy(workers[..|workers| - 1]) + (if workers[|workers| - 1].Waiting? then 0 else 1)
  }

  function TotalWeight(workers: seq<Worker>): nat {
    if workers == [] then 0 else TotalWeight(workers[..|workers| - 1]) + Weight(workers[|workers| - 1])
  }

  lemma {:induction false} UpdateCounts(workers: seq<Worker>, w: nat, to: Worker)
    requires w < |workers|
    ensures Busy(workers[w := to]) ==
            Busy(workers) + (if to.Waiting? then 0 else 1) - (if workers[w].Waiting? then 0 else 1)
    ensures TotalWeight(workers[w := to]) == TotalWeight(workers) + Weight(to) - Weight(workers[w])
  {
    var n := |workers| - 1;
    if w == n {
      assert workers[w := to][..n] == workers[..n];
    } else {
      assert workers[w := to][..n] == workers[..n][w := to];
      UpdateCounts(workers[..n], w, to);
    }
  }

  lemma {:induction false} AllWaiting(workers: seq<Worker>)
    ensures Busy(workers) == 0 <==> forall w | 0 <= w < |workers| :: workers[w].Waiting?
  {
    if workers != [] {
      AllWaiting(workers[..|workers| - 1]);
      assert workers == workers[..|workers| - 1] + [workers[|workers| - 1]];
    }
  }

  // --------------------------------------------------------------- invariant

  /** Indices of the current call below this one have left the queue. */
  function Dequeued(p: Pool): int
    requires p.call < |p.counts|
  {
    Count(p) - |p.pending|
  }

  ghost predicate CurrentCall(p: Pool)
    requires p.call < |p.counts|
  {
    && |p.pending| <= Count(p)
    && p.pending == Range(Dequeued(p), Count(p))
    // Workers hold distinct indices that were dequeued and are not finished.
    && (forall w | 0 <= w < |p.workers| && !p.workers[w].Waiting? ::
          p.workers[w].index < Dequeued(p) && p.workers[w].index !in p.finished)
    && (forall v, w | 0 <= v < w < |p.workers| && !p.workers[v].Waiting? && !p.workers[w].Waiting? ::
          p.workers[v].index != p.workers[w].index)
    && (forall i | i in p.finished :: i < Dequeued(p))
    && Dequeued(p) == |p.finished| + Busy(p.workers)
    // An index has run once when its worker is past the invocation, and not at all before.
    && (forall i | i in p.finished :: Runs(p, p.call, i) == 1)
    && (forall w | 0 <= w < |p.workers| :: match p.workers[w]
                                             case Waiting => true
                                             case Taken(i) => Runs(p, p.call, i) == 0
                                             case Ran(i) => Runs(p, p.call, i) == 1)
    && (forall i: nat | Dequeued(p) <= i :: Runs(p, p.call, i) == 0)
  }

  /** Every completed call ran each of its indices exactly once and nothing else. */
  ghost predicate PastCallsComplete(p: Pool) {
    && p.call <= |p.counts|
    && (forall c: nat, i: nat | c < p.call :: Runs(p, c, i) == if i < p.counts[c] then 1 else 0)
  }

  ghost predicate Inv(p: Pool) {
    && PastCallsComplete(p)
    && (forall c: nat, i: nat | p.call < c :: Runs(p, c, i) == 0)
    && p.outstanding == |p.pending| + Busy(p.workers)
    && |p.counts| == p.call + (if p.blocked then 1 else 0)
    && (if p.blocked then p.workers != [] && p.currentFn == Some(p.call) && CurrentCall(p)
        else p.currentFn == None && p.pending == [] && Busy(p.workers) == 0 && forall i: nat :: Runs(p, p.call, i) == 0)
  }

  lemma InitHoldsInv(n: nat)
    ensures Inv(Init(n))
  {
    AllWaiting(Init(n).workers);
  }

  lemma BeginKeepsInv(p: Pool, count: nat)
    requires Inv(p) && Enabled(p, Begin(count))
    ensures Inv(Apply(p, Begin(count)))
  {
    AllWaiting(p.workers);
    var q := Apply(p, Begin(count));
    assert q.counts[q.call] == count;
    assert forall c: nat, i: nat :: Runs(q, c, i) == Runs(p, c, i);
  }

  lemma InlineKeepsInv(p: Pool, count: nat)
    requires Inv(p) && Enabled(p, Inline(count))
    ensures Inv(Apply(p, Inline(count)))
  {
    var q := Apply(p, Inline(count));
    forall c: nat, i: nat
      ensures Runs(q, c, i) == Runs(p, c, i) + if c == p.call && i < count then 1 else 0
    {
      assert (c, i) in q.runs <==> (c, i) in p.runs || (c == p.call && i < count);
    }
  }

  lemma TakeKeepsInv(p: Pool, w: nat)
    requires Inv(p) && Enabled(p, Take(w))
    ensures Inv(Apply(p, Take(w)))
  {
    var q := Apply(p, Take(w));
    UpdateCounts(p.workers, w, Taken(p.pending[0]));
    assert forall c: nat, i: nat :: Runs(q, c, i) == Runs(p, c, i);
    assert Dequeued(q) == Dequeued(p) + 1 && p.pending[0] == Dequeued(p);
  }

  lemma InvokeKeepsInv(p: Pool, w: nat)
    requires Inv(p) && Enabled(p, Invoke(w))
    ensures p.currentFn == Some(p.call)
    ensures Inv(Apply(p, Invoke(w)))
  {
    AllWaiting(p.workers);
    var index := p.workers[w].index;
    var q := Apply(p, Invoke(w));
    UpdateCounts(p.workers, w, Ran(index));
    assert forall c: nat, i: nat ::
        Runs(q, c, i) == Runs(p, c, i) + if c == p.call && i == index then 1 else 0;
    assert Dequeued(q) == Dequeued(p);
  }

  lemma ReportKeepsInv(p: Pool, w: nat)
    requires Inv(p) && Enabled(p, Report(w))
    ensures p.outstanding > 0
    ensures Inv(Apply(p, Report(w)))
  {
    AllWaiting(p.workers);
    var q := Apply(p, Report(w));
    UpdateCounts(p.workers, w, Waiting);
    assert forall c: nat, i: nat :: Runs(q, c, i) == Runs(p, c, i);
    assert Dequeued(q) == Dequeued(p);
  }

  /** A bounded set of naturals with as many members as the bound is the whole range. */
  lemma {:induction false} FullRange(s: set<nat>, n: nat)
    requires forall i | i in s :: i < n
    ensures |s| <= n
    ensures |s| == n ==> forall i: nat | i < n :: i in s
  {
    if n > 0 {
      var rest := s - {n - 1};
      FullRange(rest, n - 1);
      if n - 1 in s {
        assert s == rest + {n - 1};
      } else {
        assert s == rest;
      }
    }
  }

  lemma ReturnKeepsInv(p: Pool)
    requires Inv(p) && Enabled(p, Return)
    ensures Inv(Apply(p, Return))
  {
    FullRange(p.finished, Count(p));
    var q := Apply(p, Return);
    assert forall c: nat, i: nat :: Runs(q, c, i) == Runs(p, c, i);
  }

  lemma StepKeepsInv(p: Pool, step: Step)
    requires Inv(p) && Enabled(p, step)
    ensures Inv(Apply(p, step))
  {
    match step
    case Inline(count) => InlineKeepsInv(p, count);
    case Begin(count) => BeginKeepsInv(p, count);
    case Take(w) => TakeKeepsInv(p, w);
    case Invoke(w) => InvokeKeepsInv(p, w);
    case Report(w) => ReportKeepsInv(p, w);
    case Return => ReturnKeepsInv(p);
  }

  lemma {:induction false} RunKeepsInv(workerCount: nat, schedule: seq<Step>)
    requires After(workerCount, schedule).Some?
    ensures Inv(After(workerCount, schedule).value)
  {
    if schedule == [] {
      InitHoldsInv(workerCount);
    } else {
      RunKeepsInv(workerCount, schedule[..|schedule| - 1]);
      StepKeepsInv(After(workerCount, schedule[..|schedule| - 1]).value, schedule[|schedule| - 1]);
    }
  }

  // ---------------------------------------------------------------- theorems

  /** In every interleaving, whenever no parallel_for is in flight: each index of
      every call made so far ran exactly once (and no other index ran), no worker
      is inside a task, and the queue and the counter are empty. */
  lemma ReturnedCallsRanEachIndexOnce(workerCount: nat, schedule: seq<Step>)
    requires After(workerCount, schedule).Some? && !After(workerCount, schedule).value.blocked
    ensures var p := After(workerCount, schedule).value;
            && (forall c: nat, i: nat | c < |p.counts| ::
                  Runs(p, c, i) == if i < p.counts[c] then 1 else 0)
            && (forall w | 0 <= w < |p.workers| :: p.workers[w].Waiting?)
            && p.pending == [] && p.outstanding == 0 && p.currentFn == None
  {
    RunKeepsInv(workerCount, schedule);
    AllWaiting(After(workerCount, schedule).value.workers);
  }

  /** In every interleaving, the counter equals queued plus running indices, and a
      worker about to invoke the function finds the pointer of the call its index
      belongs to, never a null or stale one. */
  lemma CounterAndFunctionPointer(workerCount: nat, schedule: seq<Step>, w: nat)
    requires After(workerCount, schedule).Some?
    ensures var p := After(workerCount, schedule).value;
            && p.outstanding == |p.pending| + Busy(p.workers)
            && (w < |p.workers| && p.workers[w].Taken? ==> p.blocked && p.currentFn == Some(p.call))
  {
    RunKeepsInv(workerCount, schedule);
    AllWaiting(After(workerCount, schedule).value.workers);
  }

  function Remaining(p: Pool): nat {
    3 * |p.pending| + TotalWeight(p.workers) + if p.blocked then 1 else 0
  }

  /** While the caller is blocked some step other than a new call can happen, and
      every such step brings the return strictly closer: no schedule deadlocks or
      runs for ever. */
  lemma BlockedCallerMakesProgress(workerCount: nat, schedule: seq<Step>)
    requires After(workerCount, schedule).Some? && After(workerCount, schedule).value.blocked
    ensures var p := After(workerCount, schedule).value;
            exists step :: Enabled(p, step)
    ensures var p := After(workerCount, schedule).value;
            forall step | Enabled(p, step) :: Remaining(Apply(p, step)) < Remaining(p)
  {
    RunKeepsInv(workerCount, schedule);
    var p := After(workerCount, schedule).value;
    AllWaiting(p.workers);
    if p.outstanding == 0 {
      assert Enabled(p, Return);
    } else if Busy(p.workers) == 0 {
      assert Enabled(p, Take(0));
    } else {
      var w :| 0 <= w < |p.workers| && !p.workers[w].Waiting?;
      assert Enabled(p, Invoke(w)) || Enabled(p, Report(w));
    }
    forall step | Enabled(p, step)
      ensures Remaining(Apply(p, step)) < Remaining(p)
    {
      match step
      case Take(w) => UpdateCounts(p.workers, w, Taken(p.pending[0]));
      case Invoke(w) => UpdateCounts(p.workers, w, Ran(p.workers[w].index));
      case Report(w) => UpdateCounts(p.workers, w, Waiting);
      case Return =>
    }
  }
}
