/** One run of the blocking reload protocol, step by step: a timed-out request keeps its slot. */
module BlockingReloadRun {
  import opened Prelude
  import opened LiveEdge
  import opened BlockingReload

  /** One step of a run written out. */
  lemma OneMoreStep(schedule: seq<Step>, s: State, step: Step)
    requires After(1, 1, schedule) == Some(s) && Enabled(s, step)
    ensures After(1, 1, schedule + [step]) == Some(Apply(s, step))
  {
    assert (schedule + [step])[..|schedule|] == schedule;
  }

  const FAR := Position(5, -1)

  /** One thread, one request: the state between two passes. */
  function Lone(waiters: seq<nat>, lock: Lock, thread: Thread, nextId: nat, cells: map<nat, Cell>): State {
    State([], waiters, lock, [thread], nextId, map id | id in cells :: FAR, cells, map[], [], 1)
  }

  lemma ParksFar() returns (schedule: seq<Step>)
    ensures schedule == [Check(0, FAR), Park(0), BeginRelease(0)]
    ensures After(1, 1, schedule) == Some(Lone([0], Held(0, [0], false, [], []), Scanning, 1, map[0 := Unresolved]))
  {
    hide After;
    NothingScheduled();
    OneMoreStep([], Lone([], Free, Idle, 0, map[]), Check(0, FAR));
    schedule := [] + [Check(0, FAR)];
    assert Apply(Lone([], Free, Idle, 0, map[]), Check(0, FAR)) == Lone([], Free, NotReached(FAR), 0, map[]);
    OneMoreStep(schedule, Lone([], Free, NotReached(FAR), 0, map[]), Park(0));
    schedule := schedule + [Park(0)];
    var parked := Lone([0], Free, MustRelease, 1, map[0 := Unresolved]);
    assert Apply(Lone([], Free, NotReached(FAR), 0, map[]), Park(0)) == parked;
    OneMoreStep(schedule, parked, BeginRelease(0));
    schedule := schedule + [BeginRelease(0)];
    assert Apply(parked, BeginRelease(0)) == Lone([0], Held(0, [0], false, [], []), Scanning, 1, map[0 := Unresolved]);
  }

  lemma KeepsFar(before: seq<Step>) returns (schedule: seq<Step>)
    requires After(1, 1, before) == Some(Lone([0], Held(0, [0], false, [], []), Scanning, 1, map[0 := Unresolved]))
    ensures schedule == before + [ProbeCell(0), ProbeStore(0), EndScan(0), EndRelease(0)]
    ensures After(1, 1, schedule) == Some(Lone([0], Free, Idle, 1, map[0 := Unresolved]))
  {
    hide After;
    var cells := map[0 := Unresolved];
    var s0 := Lone([0], Held(0, [0], false, [], []), Scanning, 1, cells);
    var s1 := Lone([0], Held(0, [0], true, [], []), Scanning, 1, cells);
    var s2 := Lone([0], Held(0, [], false, [0], []), Scanning, 1, cells);
    var s3 := Lone([0], Free, Answering([], None), 1, cells);
    OneMoreStep(before, s0, ProbeCell(0));
    assert Apply(s0, ProbeCell(0)) == s1;
    OneMoreStep(before + [ProbeCell(0)], s1, ProbeStore(0));
    assert !Reached(s1, 0) && s1.lock.todo[1..] == [] && s1.lock.kept + [0] == [0];
    assert Apply(s1, ProbeStore(0)) == s2;
    OneMoreStep(before + [ProbeCell(0)] + [ProbeStore(0)], s2, EndScan(0));
    assert Apply(s2, EndScan(0)) == s3;
    OneMoreStep(before + [ProbeCell(0)] + [ProbeStore(0)] + [EndScan(0)], s3, EndRelease(0));
    assert Apply(s3, EndRelease(0)) == Lone([0], Free, Idle, 1, cells);
    schedule := before + [ProbeCell(0)] + [ProbeStore(0)] + [EndScan(0)] + [EndRelease(0)];
  }

  /** At one run: with room for one blocked request, a request that has timed out still holds
      the slot, so that the next one is answered at once instead of being parked. */
  lemma ExpiredWaiterHoldsItsSlot(schedule: seq<Step>)
    requires schedule == [Check(0, FAR), Park(0), BeginRelease(0), ProbeCell(0), ProbeStore(0), EndScan(0),
                          EndRelease(0), Expire(0), Check(0, FAR), TurnAway(0), Serve(0)]
    ensures After(1, 1, schedule) ==
            Some(Lone([0], Free, Idle, 1, map[0 := Cancelled]).(served := [Served(FAR, true, 0)]))
  {
    hide After;
    var parked := ParksFar();
    var kept := KeepsFar(parked);
    var s0 := Lone([0], Free, Idle, 1, map[0 := Unresolved]);
    var s1 := Lone([0], Free, Idle, 1, map[0 := Cancelled]);
    var s2 := Lone([0], Free, NotReached(FAR), 1, map[0 := Cancelled]);
    OneMoreStep(kept, s0, Expire(0));
    assert Apply(s0, Expire(0)) == s1;
    OneMoreStep(kept + [Expire(0)], s1, Check(0, FAR));
    assert Apply(s1, Check(0, FAR)) == s2;
    OneMoreStep(kept + [Expire(0)] + [Check(0, FAR)], s2, TurnAway(0));
    var s3 := Lone([0], Free, Serving(FAR, true), 1, map[0 := Cancelled]);
    assert Apply(s2, TurnAway(0)) == s3;
    OneMoreStep(kept + [Expire(0)] + [Check(0, FAR)] + [TurnAway(0)], s3, Serve(0));
    assert Apply(s3, Serve(0)) == s1.(served := [Served(FAR, true, 0)]);
    assert kept + [Expire(0)] + [Check(0, FAR)] + [TurnAway(0)] + [Serve(0)] == schedule;
  }

  lemma NothingScheduled()
    ensures After(1, 1, []) == Some(Lone([], Free, Idle, 0, map[]))
  {
    assert Init(1, 1).threads == [Idle];
    assert Lone([], Free, Idle, 0, map[]).wanted == map[];
  }
}
