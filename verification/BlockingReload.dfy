/** Blocking playlist reload as a concurrent protocol: request handlers that check,
    park and re-check (`HlsHttpHandler::handle`), producers that publish and notify
    (`SegmentStore::add_part`, `add_segment`, `mark_ended`), and the release pass
    both of them run (`HlsHttpHandler::release_waiters`). One step per critical
    section; the release pass holds the waiter lock across many store reads, so
    publications may fall between any two of them. */
module BlockingReload {
  import opened Prelude
  import opened LiveEdge

  /** The postponed answer, reduced to which of resolve() and cancel() came first. */
  datatype Cell = Unresolved | Resolved | Cancelled

  datatype Thread =
    | Idle
    | NotReached(wanted: Position)  // saw has_reached() == false, about to park
    | Serving(wanted: Position, turnedAway: bool)  // not parked, about to render its answer
    | MustRelease                   // has parked or published, release pass not begun
    | Scanning                      // inside release_waiters, holding the waiter lock
    // The lock is released; `rendered` is the log length seen by the playlist
    // rendered for the head of `ready`.
    | Answering(ready: seq<nat>, rendered: Option<nat>)

  /** waiters_mutex, with the local variables of the release pass that holds it.
      `probed`: the head of `todo` was found unresolved, its position is checked next. */
  datatype Lock =
    | Free
    | Held(owner: nat, todo: seq<nat>, probed: bool, kept: seq<nat>, ready: seq<nat>)

  /** A request answered without being parked, with the log length behind its playlist. */
  datatype Served = Served(wanted: Position, turnedAway: bool, rendered: nat)

  datatype State = State(
    log: seq<Event>,              // everything the store has published
    waiters: seq<nat>,            // entry->waiters, by waiter identity
    lock: Lock,
    threads: seq<Thread>,
    nextId: nat,                  // identities handed out so far
    wanted: map<nat, Position>,   // position each parked waiter asked for
    cells: map<nat, Cell>,
    answers: map<nat, nat>,       // log length behind the playlist a waiter got
    served: seq<Served>,          // requests answered without parking
    maxBlocked: nat               // max_blocked_requests_per_stream
  )

  datatype Step =
    | Publish(t: nat, ev: Event)
    | Check(t: nat, wanted: Position)
    | Park(t: nat)
    | TurnAway(t: nat)           // over the ceiling of parked requests
    | Serve(t: nat)
    | BeginRelease(t: nat)
    | ProbeCell(t: nat)
    | ProbeStore(t: nat)
    | EndScan(t: nat)
    | Render(t: nat)
    | Resolve(t: nat)
    | EndRelease(t: nat)
    | Expire(id: nat)            // the event loop's deadline cancels the cell

  predicate Reached(s: State, id: nat) {
    id in s.wanted && HasReached(EdgeAfter(s.log), s.wanted[id].sequence, s.wanted[id].part)
  }

  function Init(threadCount: nat, maxBlocked: nat): State {
    State([], [], Free, seq(threadCount, _ => Idle), 0, map[], map[], map[], [], maxBlocked)
  }

  predicate Enabled(s: State, step: Step) {
    if step.Expire? then step.id in s.cells
    else if step.t >= |s.threads| then false
    else
      var th := s.threads[step.t];
      match step
      case Publish(t, ev) => th.Idle? && Follows(EdgeAfter(s.log), ev)
      case Check(t, _) => th.Idle?
      case Park(t) => th.NotReached? && s.lock.Free? && |s.waiters| < s.maxBlocked
      case TurnAway(t) => th.NotReached? && s.lock.Free? && |s.waiters| >= s.maxBlocked
      case Serve(t) => th.Serving?
      case BeginRelease(t) => th.MustRelease? && s.lock.Free?
      case ProbeCell(t) => s.lock.Held? && s.lock.owner == t && s.lock.todo != [] && !s.lock.probed
      case ProbeStore(t) => s.lock.Held? && s.lock.owner == t && s.lock.todo != [] && s.lock.probed
      case EndScan(t) => s.lock.Held? && s.lock.owner == t && s.lock.todo == []
      case Render(t) => th.Answering? && th.ready != [] && th.rendered.None?
      case Resolve(t) => th.Answering? && th.ready != [] && th.rendered.Some?
      case EndRelease(t) => th.Answering? && th.ready == []
  }

  function Apply(s: State, step: Step): State
    requires Enabled(s, step)
  {
    match step
    case Publish(t, ev) => s.(log := s.log + [ev], threads := s.threads[t := MustRelease])
    case Check(t, wanted) =>
      var reached := HasReached(EdgeAfter(s.log), wanted.sequence, wanted.part);
      s.(threads := s.threads[t := if reached then Serving(wanted, false) else NotReached(wanted)])
    case Park(t) =>
      s.(waiters := s.waiters + [s.nextId], wanted := s.wanted[s.nextId := s.threads[t].wanted],
         cells := s.cells[s.nextId := Unresolved], nextId := s.nextId + 1, threads := s.threads[t := MustRelease])
    case TurnAway(t) => s.(threads := s.threads[t := Serving(s.threads[t].wanted, true)])
    case Serve(t) =>
      var th := s.threads[t];
      s.(served := s.served + [Served(th.wanted, th.turnedAway, |s.log|)], threads := s.threads[t := Idle])
    case BeginRelease(t) =>
      if s.waiters == [] then s.(threads := s.threads[t := Idle])
      else s.(threads := s.threads[t := Scanning], lock := Held(t, s.waiters, false, [], []))
    case ProbeCell(t) =>
      var id := s.lock.todo[0];
      if id in s.cells && s.cells[id].Resolved? then s.(lock := s.lock.(todo := s.lock.todo[1..]))
      else s.(lock := s.lock.(probed := true))
    case ProbeStore(t) =>
      var id, rest := s.lock.todo[0], s.lock.todo[1..];
      if Reached(s, id) then s.(lock := s.lock.(todo := rest, probed := false, ready := s.lock.ready + [id]))
      else s.(lock := s.lock.(todo := rest, probed := false, kept := s.lock.kept + [id]))
    case EndScan(t) =>
      s.(waiters := s.lock.kept, lock := Free, threads := s.threads[t := Answering(s.lock.ready, None)])
    case Render(t) => s.(threads := s.threads[t := Answering(s.threads[t].ready, Some(|s.log|))])
    case Resolve(t) =>
      var a := s.threads[t];
      var id := a.ready[0];
      var next := s.threads[t := Answering(a.ready[1..], None)];
      if id in s.cells && s.cells[id].Unresolved?
      then s.(cells := s.cells[id := Resolved], answers := s.answers[id := a.rendered.value], threads := next)
      else s.(threads := next)
    case EndRelease(t) => s.(threads := s.threads[t := Idle])
    case Expire(id) => if s.cells[id].Unresolved? then s.(cells := s.cells[id := Cancelled]) else s
  }

  function After(threadCount: nat, maxBlocked: nat, schedule: seq<Step>): Option<State> {
    if schedule == [] then Some(Init(threadCount, maxBlocked)) else
      var before := After(threadCount, maxBlocked, schedule[..|schedule| - 1]);
      var step := schedule[|schedule| - 1];
      if before.Some? && Enabled(before.value, step) then Some(Apply(before.value, step)) else None
  }

  // --------------------------------------------------------------- invariant

  /** Thread `t` owes a release pass that has not looked at any waiter yet. */
  predicate Owes(s: State, t: nat) {
    t < |s.threads| && s.threads[t].MustRelease?
  }

  ghost predicate PassOwed(s: State) {
    exists t: nat :: Owes(s, t)
  }

  /** Thread `t` picked the waiter and will resolve it. */
  predicate Picked(s: State, t: nat, id: nat) {
    t < |s.threads| && s.threads[t].Answering? && id in s.threads[t].ready
  }

  ghost predicate InReady(s: State, id: nat) {
    (s.lock.Held? && id in s.lock.ready) || exists t: nat :: Picked(s, t, id)
  }

  /** A pass under way has yet to examine the waiter. */
  predicate InScan(s: State, id: nat) {
    s.lock.Held? && id in s.lock.todo
  }

  /** The waiter list as it will be once the current pass, if any, ends. */
  function Settled(s: State): seq<nat> {
    if s.lock.Held? then s.lock.kept else s.waiters
  }

  /** Every waiter has a cell and a position, under an identity handed out before. */
  ghost predicate Keyed(s: State) {
    s.wanted.Keys == s.cells.Keys && forall id | id in s.cells :: id < s.nextId
  }

  /** The lock is held by the one thread that scans. */
  ghost predicate Owned(s: State) {
    && (forall t | 0 <= t < |s.threads| :: s.threads[t].Scanning? <==> s.lock.Held? && s.lock.owner == t)
    && (s.lock.Held? ==> s.lock.owner < |s.threads|)
  }

  ghost predicate Structure(s: State) {
    InOrder(s.log) && Keyed(s) && Owned(s)
  }

  /** A waiter set aside as not reached, if reached by now, has a pass owed to it. */
  ghost predicate NoLostWakeup(s: State) {
    forall id | id in Settled(s) && Reached(s, id) :: PassOwed(s)
  }

  /** No unresolved waiter is ever dropped on the floor; a cancelled one leaves the
      list only once its position is reached. */
  ghost predicate Tracked(s: State) {
    forall id | id in s.cells && !s.cells[id].Resolved? :: IsTracked(s, id)
  }

  ghost predicate IsTracked(s: State, id: nat) {
    id in Settled(s) || InScan(s, id) || InReady(s, id) || (id in s.cells && s.cells[id].Cancelled? && Reached(s, id))
  }

  ghost predicate OnlyParked(s: State) {
    && (forall id | id in s.waiters :: id in s.cells)
    && (s.lock.Held? ==> forall id | id in s.lock.todo || id in s.lock.kept :: id in s.cells)
  }

  /** The playlist rendered when the log was `n` long is at or past what `id` asked for. */
  predicate AtOrPast(s: State, id: nat, n: nat) {
    && n <= |s.log|
    && id in s.wanted
    && HasReached(EdgeAfter(s.log[..n]), s.wanted[id].sequence, s.wanted[id].part)
  }

  ghost predicate AnswersCurrent(s: State) {
    && (s.lock.Held? ==> forall id | id in s.lock.ready :: Reached(s, id))
    && (forall t, id | Picked(s, t, id) :: Reached(s, id))
    && (forall t | 0 <= t < |s.threads| && s.threads[t].Answering? && s.threads[t].ready != [] &&
                   s.threads[t].rendered.Some? ::
          AtOrPast(s, s.threads[t].ready[0], s.threads[t].rendered.value))
    && (forall id | id in s.answers :: AtOrPast(s, id, s.answers[id]))
    && (forall id | id in s.cells && s.cells[id].Resolved? :: id in s.answers)
  }

  ghost predicate Inv(s: State) {
    Structure(s) && NoLostWakeup(s) && Tracked(s) && OnlyParked(s) && AnswersCurrent(s)
  }

  lemma StructureKept(s: State, step: Step)
    requires Structure(s) && Enabled(s, step)
    ensures Structure(Apply(s, step))
  {
    hide Apply, InOrder, Keyed, Owned;
    LogKept(s, step);
    KeysKept(s, step);
    OwnerKept(s, step);
  }

  lemma LogKept(s: State, step: Step)
    requires InOrder(s.log) && Enabled(s, step)
    ensures InOrder(Apply(s, step).log)
  {
    var r := Apply(s, step);
    if step.Publish? {
      assert r.log[..|s.log|] == s.log && r.log[|s.log|] == step.ev;
    }
  }

  lemma KeysKept(s: State, step: Step)
    requires Keyed(s) && Enabled(s, step)
    ensures Keyed(Apply(s, step))
  {
    hide InOrder, EdgeAfter, HasReached;
    assert Apply(s, step).wanted.Keys == Apply(s, step).cells.Keys;
  }

  lemma OwnerKept(s: State, step: Step)
    requires Owned(s) && Enabled(s, step)
    ensures Owned(Apply(s, step))
  {
    hide InOrder, EdgeAfter, HasReached;
  }

  /** A step that takes no thread out of MustRelease keeps every pass owed. */
  lemma StillOwed(s: State, r: State)
    requires forall t: nat | Owes(s, t) :: Owes(r, t)
    ensures PassOwed(s) ==> PassOwed(r)
  {
  }

  lemma ReachedKept(s: State, step: Step, id: nat)
    requires Structure(s) && Enabled(s, step)
    requires Reached(s, id)
    ensures Reached(Apply(s, step), id)
  {
    if step.Publish? {
      StructureKept(s, step);
      HasReachedIsMonotone(s.log, [step.ev], s.wanted[id].sequence, s.wanted[id].part);
    }
  }

  lemma NoLostWakeupKept(s: State, step: Step)
    requires Structure(s) && NoLostWakeup(s) && Enabled(s, step)
    ensures NoLostWakeup(Apply(s, step))
  {
    var r := Apply(s, step);
    if step.Publish? || step.Park? {
      assert Owes(r, step.t);
    } else if !step.BeginRelease? {
      StillOwed(s, r);
      forall id | id in Settled(r) && Reached(r, id)
        ensures id in Settled(s) && Reached(s, id)
      {
      }
    }
  }

  /** What becomes of a waiter some thread has picked. */
  lemma PickedTrackedKept(s: State, step: Step, t: nat, id: nat)
    requires Structure(s) && Enabled(s, step)
    requires Picked(s, t, id) && Reached(s, id)
    requires id in Apply(s, step).cells && !Apply(s, step).cells[id].Resolved?
    ensures IsTracked(Apply(s, step), id)
  {
    hide HasReached, EdgeAfter, InOrder;
    var r := Apply(s, step);
    ReachedKept(s, step, id);
    if step.Resolve? && step.t == t {
      assert s.threads[t].ready == [s.threads[t].ready[0]] + s.threads[t].ready[1..];
    }
    assert Picked(r, t, id) || r.cells[id].Cancelled?;
  }

  /** What becomes of a waiter set aside, or of one the pass has yet to examine. */
  lemma ListedTrackedKept(s: State, step: Step, id: nat)
    requires Enabled(s, step)
    requires id in Settled(s) || InScan(s, id)
    requires id in Apply(s, step).cells && !Apply(s, step).cells[id].Resolved?
    ensures IsTracked(Apply(s, step), id)
  {
    hide HasReached, EdgeAfter;
    if step.ProbeCell? || step.ProbeStore? {
      assert s.lock.todo == [s.lock.todo[0]] + s.lock.todo[1..];
    }
    assert id in Settled(Apply(s, step)) || InScan(Apply(s, step), id) || InReady(Apply(s, step), id);
  }

  lemma WaiterTrackedKept(s: State, step: Step, id: nat)
    requires Structure(s) && IsTracked(s, id) && AnswersCurrent(s) && Enabled(s, step)
    requires id in s.cells && id in Apply(s, step).cells && !Apply(s, step).cells[id].Resolved?
    ensures IsTracked(Apply(s, step), id)
  {
    hide Structure, EdgeAfter, HasReached;
    var r := Apply(s, step);
    if id in Settled(s) || InScan(s, id) {
      ListedTrackedKept(s, step, id);
    } else if s.lock.Held? && id in s.lock.ready {
      if step.EndScan? {
        assert Picked(r, step.t, id);
      } else {
        assert r.lock.Held? && id in r.lock.ready;
      }
    } else if InReady(s, id) {
      var t: nat :| Picked(s, t, id);
      PickedTrackedKept(s, step, t, id);
    } else {
      ReachedKept(s, step, id);
    }
  }

  lemma TrackedKept(s: State, step: Step)
    requires Structure(s) && Tracked(s) && AnswersCurrent(s) && Enabled(s, step)
    ensures Tracked(Apply(s, step))
  {
    var r := Apply(s, step);
    forall id | id in r.cells && !r.cells[id].Resolved?
      ensures IsTracked(r, id)
    {
      if id in s.cells {
        WaiterTrackedKept(s, step, id);
      }
    }
  }

  lemma OnlyParkedKept(s: State, step: Step)
    requires Structure(s) && OnlyParked(s) && Enabled(s, step)
    ensures OnlyParked(Apply(s, step))
  {
  }

  lemma PickedStayReached(s: State, step: Step, t: nat, id: nat)
    requires Structure(s) && AnswersCurrent(s) && Enabled(s, step)
    requires Picked(Apply(s, step), t, id)
    ensures Reached(Apply(s, step), id)
  {
    if step.EndScan? && t == step.t {
      assert Reached(s, id);
    } else {
      assert Picked(s, t, id);
    }
    ReachedKept(s, step, id);
  }

  lemma AtOrPastKept(s: State, step: Step, id: nat, n: nat)
    requires Structure(s) && Enabled(s, step)
    requires AtOrPast(s, id, n)
    ensures AtOrPast(Apply(s, step), id, n)
  {
    assert Apply(s, step).log[..n] == s.log[..n];
  }

  lemma RenderedKept(s: State, step: Step, t: nat)
    requires Structure(s) && AnswersCurrent(s) && Enabled(s, step)
    requires var r := Apply(s, step);
             t < |r.threads| && r.threads[t].Answering? && r.threads[t].ready != [] && r.threads[t].rendered.Some?
    ensures var r := Apply(s, step); AtOrPast(r, r.threads[t].ready[0], r.threads[t].rendered.value)
  {
    hide Structure, EdgeAfter, HasReached;
    if step.Render? && step.t == t {
      assert Picked(s, t, s.threads[t].ready[0]);
      assert s.log[..|s.log|] == s.log;
    } else {
      AtOrPastKept(s, step, s.threads[t].ready[0], s.threads[t].rendered.value);
    }
  }

  lemma AnswersKept(s: State, step: Step)
    requires Structure(s) && AnswersCurrent(s) && Enabled(s, step)
    ensures AnswersCurrent(Apply(s, step))
  {
    hide Structure, EdgeAfter, HasReached;
    var r := Apply(s, step);
    forall t: nat, id | Picked(r, t, id)
      ensures Reached(r, id)
    {
      PickedStayReached(s, step, t, id);
    }
    forall t | 0 <= t < |r.threads| && r.threads[t].Answering? && r.threads[t].ready != [] &&
               r.threads[t].rendered.Some?
      ensures AtOrPast(r, r.threads[t].ready[0], r.threads[t].rendered.value)
    {
      RenderedKept(s, step, t);
    }
    forall id | id in r.answers
      ensures AtOrPast(r, id, r.answers[id])
    {
      AtOrPastKept(s, step, id, r.answers[id]);
    }
    if r.lock.Held? {
      forall id | id in r.lock.ready
        ensures Reached(r, id)
      {
        ReachedKept(s, step, id);
      }
    }
  }

  lemma StepKeepsInv(s: State, step: Step)
    requires Inv(s) && Enabled(s, step)
    ensures Inv(Apply(s, step))
  {
    StructureKept(s, step);
    NoLostWakeupKept(s, step);
    TrackedKept(s, step);
    OnlyParkedKept(s, step);
    AnswersKept(s, step);
  }

  lemma {:induction false} RunKeepsInv(threadCount: nat, maxBlocked: nat, schedule: seq<Step>)
    requires After(threadCount, maxBlocked, schedule).Some?
    ensures Inv(After(threadCount, maxBlocked, schedule).value)
  {
    if schedule != [] {
      RunKeepsInv(threadCount, maxBlocked, schedule[..|schedule| - 1]);
      StepKeepsInv(After(threadCount, maxBlocked, schedule[..|schedule| - 1]).value, schedule[|schedule| - 1]);
    }
  }

  // ---------------------------------------------------------------- theorems

  /** In every interleaving, a waiter that is not resolved although the store has
      reached its position is about to be dealt with: a release pass is owed, or one
      under way has yet to examine it, or it is already picked for its answer. */
  lemma ReachedWaiterHasPassPending(threadCount: nat, maxBlocked: nat, schedule: seq<Step>, id: nat)
    requires After(threadCount, maxBlocked, schedule).Some?
    requires var s := After(threadCount, maxBlocked, schedule).value;
             id in s.cells && s.cells[id].Unresolved? && Reached(s, id)
    ensures var s := After(threadCount, maxBlocked, schedule).value;
            PassOwed(s) || InScan(s, id) || InReady(s, id)
  {
    RunKeepsInv(threadCount, maxBlocked, schedule);
  }

  lemma OwnerIsBusy(s: State)
    requires Structure(s)
    ensures s.lock.Held? ==> exists t :: 0 <= t < |s.threads| && !s.threads[t].Idle?
  {
    if s.lock.Held? {
      assert s.threads[s.lock.owner].Scanning?;
    }
  }

  /** When every thread is idle again, no waiter sits unresolved on a reached
      position; and the waiter list, whose length the parking limit is checked
      against, holds exactly the parked requests whose position is not reached,
      those whose deadline already expired included. */
  lemma NobodyStuckAtQuiescence(threadCount: nat, maxBlocked: nat, schedule: seq<Step>)
    requires After(threadCount, maxBlocked, schedule).Some?
    requires var s := After(threadCount, maxBlocked, schedule).value;
             forall t | 0 <= t < |s.threads| :: s.threads[t].Idle?
    ensures var s := After(threadCount, maxBlocked, schedule).value;
            && (forall id | id in s.cells && s.cells[id].Unresolved? :: !Reached(s, id))
            && (forall id :: id in s.waiters <==> id in s.cells && !Reached(s, id))
  {
    RunKeepsInv(threadCount, maxBlocked, schedule);
    var s := After(threadCount, maxBlocked, schedule).value;
    OwnerIsBusy(s);
    assert !PassOwed(s);
    assert forall id :: !InReady(s, id);
    forall id | id in s.cells && s.cells[id].Resolved?
      ensures Reached(s, id)
    {
      var n := s.answers[id];
      assert s.log == s.log[..n] + s.log[n..];
      HasReachedIsMonotone(s.log[..n], s.log[n..], s.wanted[id].sequence, s.wanted[id].part);
    }
  }

  /** Every waiter answered by a release got a playlist rendered at or past the
      position it asked for. */
  lemma ReleasedPlaylistIsAtOrPastRequest(threadCount: nat, maxBlocked: nat, schedule: seq<Step>, id: nat)
    requires After(threadCount, maxBlocked, schedule).Some?
    requires var s := After(threadCount, maxBlocked, schedule).value;
             id in s.cells && s.cells[id].Resolved?
    ensures var s := After(threadCount, maxBlocked, schedule).value;
            id in s.answers && AtOrPast(s, id, s.answers[id])
  {
    RunKeepsInv(threadCount, maxBlocked, schedule);
  }

  /** While a thread has work left, some thread with work left can take a step. */
  lemma WorkIsEnabled(s: State, t: nat) returns (step: Step)
    requires Structure(s) && t < |s.threads| && !s.threads[t].Idle?
    ensures Enabled(s, step) && !step.Expire? && !s.threads[step.t].Idle?
  {
    if s.lock.Held? {
      var u := s.lock.owner;
      assert s.threads[u].Scanning?;
      step := if s.lock.todo == [] then EndScan(u) else if s.lock.probed then ProbeStore(u) else ProbeCell(u);
    } else {
      var th := s.threads[t];
      if th.NotReached? {
        step := if |s.waiters| < s.maxBlocked then Park(t) else TurnAway(t);
      } else if th.Serving? {
        step := Serve(t);
      } else if th.MustRelease? {
        step := BeginRelease(t);
      } else {
        assert th.Answering?;
        step := if th.ready == [] then EndRelease(t) else if th.rendered.None? then Render(t) else Resolve(t);
      }
    }
  }

  /** No deadlock in any interleaving: while some thread has work left, some thread
      with work left can take a step. */
  lemma BusyThreadsCanMove(threadCount: nat, maxBlocked: nat, schedule: seq<Step>, t: nat) returns (step: Step)
    requires After(threadCount, maxBlocked, schedule).Some?
    requires var s := After(threadCount, maxBlocked, schedule).value;
             t < |s.threads| && !s.threads[t].Idle?
    ensures var s := After(threadCount, maxBlocked, schedule).value;
            Enabled(s, step) && !step.Expire? && !s.threads[step.t].Idle?
  {
    RunKeepsInv(threadCount, maxBlocked, schedule);
    step := WorkIsEnabled(After(threadCount, maxBlocked, schedule).value, t);
  }
}
