/** What becomes of every request of the blocking reload protocol, read off the schedule alone:
    served at once exactly when its position has been published, parked when it has not and
    there is room, turned away otherwise; and none lost or answered twice. */
module BlockingReloadRequests {
  import opened Prelude
  import opened LiveEdge
  import opened BlockingReload

  /** Everything published in a schedule, in order. */
  function Publications(schedule: seq<Step>): seq<Event> {
    if schedule == [] then [] else
      var before, step := Publications(schedule[..|schedule| - 1]), schedule[|schedule| - 1];
      if step.Publish? then before + [step.ev] else before
  }

  lemma {:induction false} LogIsPublications(threadCount: nat, maxBlocked: nat, schedule: seq<Step>)
    requires After(threadCount, maxBlocked, schedule).Some?
    ensures After(threadCount, maxBlocked, schedule).value.log == Publications(schedule)
    ensures After(threadCount, maxBlocked, schedule).value.maxBlocked == maxBlocked
  {
    hide HasReached, EdgeAfter;
    if schedule != [] {
      LogIsPublications(threadCount, maxBlocked, schedule[..|schedule| - 1]);
    }
  }

  /** A run passes through a state at every point of its schedule. */
  lemma {:induction false} PrefixRuns(threadCount: nat, maxBlocked: nat, schedule: seq<Step>, k: nat)
    requires After(threadCount, maxBlocked, schedule).Some? && k <= |schedule|
    ensures After(threadCount, maxBlocked, schedule[..k]).Some?
    ensures k < |schedule| ==>
              var s := After(threadCount, maxBlocked, schedule[..k]).value;
              && Enabled(s, schedule[k])
              && After(threadCount, maxBlocked, schedule[..k + 1]) == Some(Apply(s, schedule[k]))
    decreases |schedule|
  {
    hide Enabled, Apply;
    if k == |schedule| {
      assert schedule[..k] == schedule;
    } else {
      var before := schedule[..|schedule| - 1];
      PrefixRuns(threadCount, maxBlocked, before, k);
      assert before[..k] == schedule[..k];
      if k + 1 < |schedule| {
        assert before[..k + 1] == schedule[..k + 1] && before[k] == schedule[k];
      } else {
        assert schedule[..k + 1] == schedule && schedule[..k] == before;
      }
    }
  }

  predicate By(step: Step, t: nat) {
    !step.Expire? && step.t == t
  }

  lemma OthersLeaveThread(s: State, step: Step, t: nat)
    requires Enabled(s, step) && t < |s.threads| && !By(step, t)
    ensures |Apply(s, step).threads| == |s.threads| && Apply(s, step).threads[t] == s.threads[t]
  {
    hide HasReached, EdgeAfter;
  }

  /** While a thread takes no step, it stays where it is. */
  lemma {:induction false} ThreadStays(threadCount: nat, maxBlocked: nat, schedule: seq<Step>, i: nat, j: nat, t: nat)
    requires After(threadCount, maxBlocked, schedule).Some? && i <= j <= |schedule|
    requires forall k | i <= k < j :: !By(schedule[k], t)
    requires After(threadCount, maxBlocked, schedule[..i]).Some?
    requires t < |After(threadCount, maxBlocked, schedule[..i]).value.threads|
    ensures After(threadCount, maxBlocked, schedule[..j]).Some?
    ensures var s := After(threadCount, maxBlocked, schedule[..j]).value;
            t < |s.threads| && s.threads[t] == After(threadCount, maxBlocked, schedule[..i]).value.threads[t]
    decreases j
  {
    hide After, Enabled, Apply, By;
    if i < j {
      ThreadStays(threadCount, maxBlocked, schedule, i, j - 1, t);
      PrefixRuns(threadCount, maxBlocked, schedule, j - 1);
      OthersLeaveThread(After(threadCount, maxBlocked, schedule[..j - 1]).value, schedule[j - 1], t);
    }
  }

  /** Step `j` is the next one of the thread that takes step `i`. */
  predicate NextStep(schedule: seq<Step>, i: nat, j: nat) {
    && i < j < |schedule| && !schedule[i].Expire? && By(schedule[j], schedule[i].t)
    && forall k | i < k < j :: !By(schedule[k], schedule[i].t)
  }

  lemma CheckDecides(s: State, t: nat, wanted: Position)
    requires Enabled(s, Check(t, wanted)) && InOrder(s.log)
    ensures Apply(s, Check(t, wanted)).threads[t] ==
            if Published(s.log, wanted.sequence, wanted.part) then Serving(wanted, false) else NotReached(wanted)
  {
    hide HasReached, InOrder, Published;
    HasReachedIffPublished(s.log, wanted.sequence, wanted.part);
  }

  /** What a thread that has checked does next, and with what result. */
  lemma DecidedStep(s: State, step: Step, t: nat)
    requires Enabled(s, step) && By(step, t) && t < |s.threads|
    ensures s.threads[t].Serving? ==>
              && step == Serve(t)
              && Apply(s, step) == s.(threads := s.threads[t := Idle],
                   served := s.served + [Served(s.threads[t].wanted, s.threads[t].turnedAway, |s.log|)])
    ensures s.threads[t].NotReached? && |s.waiters| < s.maxBlocked ==> step == Park(t)
    ensures s.threads[t].NotReached? && |s.waiters| >= s.maxBlocked ==> step == TurnAway(t)
    ensures step.Park? ==>
              var r := Apply(s, step);
              && r.waiters == s.waiters + [s.nextId] && r.wanted == s.wanted[s.nextId := s.threads[t].wanted]
              && r.cells == s.cells[s.nextId := Unresolved] && r.served == s.served
    ensures step.TurnAway? ==>
              Apply(s, step) == s.(threads := s.threads[t := Serving(s.threads[t].wanted, true)])
    requires s.lock.Held? && s.lock.owner == t ==> s.threads[t].Scanning?
  {
    hide HasReached, EdgeAfter;
  }

  /** Every reload request, in every interleaving. Its thread's next step serves it a playlist of
      everything published by then exactly when, by the time it asked, something published
      answers its position; otherwise it is parked under an identity of its own, unresolved, on
      the very position it asked for, exactly when the list has room, and else turned away. */
  lemma RequestOutcome(threadCount: nat, maxBlocked: nat, schedule: seq<Step>, i: nat, j: nat)
    requires After(threadCount, maxBlocked, schedule).Some?
    requires NextStep(schedule, i, j) && schedule[i].Check?
    ensures After(threadCount, maxBlocked, schedule[..j]).Some?
    ensures After(threadCount, maxBlocked, schedule[..j + 1]).Some?
    ensures var Check(t, wanted) := schedule[i];
            var s, r := After(threadCount, maxBlocked, schedule[..j]).value,
                        After(threadCount, maxBlocked, schedule[..j + 1]).value;
            if Published(Publications(schedule[..i]), wanted.sequence, wanted.part) then
              && schedule[j] == Serve(t)
              && r.served == s.served + [Served(wanted, false, |Publications(schedule[..j])|)]
            else if |s.waiters| < maxBlocked then
              && schedule[j] == Park(t) && s.nextId !in s.cells
              && r.waiters == s.waiters + [s.nextId] && r.wanted == s.wanted[s.nextId := wanted]
              && r.cells == s.cells[s.nextId := Unresolved] && r.served == s.served
            else
              schedule[j] == TurnAway(t) && t < |s.threads| && r == s.(threads := s.threads[t := Serving(wanted, true)])
  {
    hide After, Enabled, Apply, Published, InOrder, By;
    var Check(t, wanted) := schedule[i];
    PrefixRuns(threadCount, maxBlocked, schedule, i);
    PrefixRuns(threadCount, maxBlocked, schedule, j);
    var before := After(threadCount, maxBlocked, schedule[..i]).value;
    var s := After(threadCount, maxBlocked, schedule[..j]).value;
    RunKeepsInv(threadCount, maxBlocked, schedule[..i]);
    RunKeepsInv(threadCount, maxBlocked, schedule[..j]);
    CheckTakesThread(before, t, wanted);
    CheckDecides(before, t, wanted);
    ThreadStays(threadCount, maxBlocked, schedule, i + 1, j, t);
    LogIsPublications(threadCount, maxBlocked, schedule[..i]);
    LogIsPublications(threadCount, maxBlocked, schedule[..j]);
    DecidedStep(s, schedule[j], t);
  }

  lemma CheckTakesThread(s: State, t: nat, wanted: Position)
    requires Enabled(s, Check(t, wanted))
    ensures t < |s.threads| == |Apply(s, Check(t, wanted)).threads|
  {
  }

  /** A request turned away is served by its thread's next step, whatever the store holds then. */
  lemma TurnedAwayIsServed(threadCount: nat, maxBlocked: nat, schedule: seq<Step>, i: nat, j: nat)
    requires After(threadCount, maxBlocked, schedule).Some?
    requires NextStep(schedule, i, j) && schedule[i].TurnAway?
    ensures After(threadCount, maxBlocked, schedule[..i]).Some?
    ensures After(threadCount, maxBlocked, schedule[..j]).Some?
    ensures After(threadCount, maxBlocked, schedule[..j + 1]).Some?
    ensures var t := schedule[i].t;
            var before, s := After(threadCount, maxBlocked, schedule[..i]).value,
                             After(threadCount, maxBlocked, schedule[..j]).value;
            && t < |before.threads| && before.threads[t].NotReached? && schedule[j] == Serve(t)
            && After(threadCount, maxBlocked, schedule[..j + 1]).value.served ==
               s.served + [Served(before.threads[t].wanted, true, |Publications(schedule[..j])|)]
  {
    hide After, Apply, InOrder, By;
    var t := schedule[i].t;
    PrefixRuns(threadCount, maxBlocked, schedule, i);
    PrefixRuns(threadCount, maxBlocked, schedule, j);
    var before := After(threadCount, maxBlocked, schedule[..i]).value;
    RunKeepsInv(threadCount, maxBlocked, schedule[..i]);
    RunKeepsInv(threadCount, maxBlocked, schedule[..j]);
    assert By(schedule[i], t) by { TurnAwayBy(t); }
    DecidedStep(before, schedule[i], t);
    ThreadStays(threadCount, maxBlocked, schedule, i + 1, j, t);
    LogIsPublications(threadCount, maxBlocked, schedule[..j]);
    DecidedStep(After(threadCount, maxBlocked, schedule[..j]).value, schedule[j], t);
  }

  lemma TurnAwayBy(t: nat)
    ensures By(TurnAway(t), t)
  {
  }

  // ------------------------------------------------------------ conservation

  function One(wanted: Position, p: Position): nat {
    if wanted == p then 1 else 0
  }

  /** How often a schedule asks for position `p`. */
  function Asked(schedule: seq<Step>, p: Position): nat {
    if schedule == [] then 0 else
      var before, step := Asked(schedule[..|schedule| - 1], p), schedule[|schedule| - 1];
      if step.Check? then before + One(step.wanted, p) else before
  }

  /** How often it was served without parking, */
  function Given(served: seq<Served>, p: Position): nat {
    if served == [] then 0 else Given(served[..|served| - 1], p) + One(served[|served| - 1].wanted, p)
  }

  /** how many of the first `n` parked requests wanted it, */
  function Parked(n: nat, wanted: map<nat, Position>, p: Position): nat {
    if n == 0 then 0 else Parked(n - 1, wanted, p) + if n - 1 in wanted then One(wanted[n - 1], p) else 0
  }

  function Handling(th: Thread, p: Position): nat {
    if th.NotReached? || th.Serving? then One(th.wanted, p) else 0
  }

  /** and how many threads are deciding on it. */
  function InHand(threads: seq<Thread>, p: Position): nat {
    if threads == [] then 0 else Handling(threads[0], p) + InHand(threads[1..], p)
  }

  lemma {:induction false} UpdateInHand(threads: seq<Thread>, t: nat, to: Thread, p: Position)
    requires t < |threads|
    ensures InHand(threads[t := to], p) + Handling(threads[t], p) == InHand(threads, p) + Handling(to, p)
  {
    hide Handling;
    if t == 0 {
      assert threads[0 := to][1..] == threads[1..];
    } else {
      UpdateInHand(threads[1..], t - 1, to, p);
      assert threads[t := to][1..] == threads[1..][t - 1 := to];
    }
  }

  lemma {:induction false} ParkedBelow(n: nat, wanted: map<nat, Position>, id: nat, position: Position, p: Position)
    requires n <= id
    ensures Parked(n, wanted[id := position], p) == Parked(n, wanted, p)
  {
    if n > 0 {
      ParkedBelow(n - 1, wanted, id, position, p);
    }
  }

  lemma {:induction false} IdleInHand(n: nat, p: Position)
    ensures InHand(seq(n, _ => Idle), p) == 0
  {
    var threads := seq(n, _ => Idle);
    if n > 0 {
      IdleInHand(n - 1, p);
      assert threads[1..] == seq(n - 1, _ => Idle);
    }
  }

  function Accounted(s: State, p: Position): nat {
    Given(s.served, p) + Parked(s.nextId, s.wanted, p) + InHand(s.threads, p)
  }

  /** The positions in hand move only with the thread that takes the step. */
  lemma InHandStep(s: State, step: Step, p: Position)
    requires Enabled(s, step) && !step.Expire?
    ensures var r := Apply(s, step);
            && step.t < |r.threads| == |s.threads|
            && InHand(r.threads, p) + Handling(s.threads[step.t], p) ==
               InHand(s.threads, p) + Handling(r.threads[step.t], p)
  {
    hide InHand, Handling, HasReached, EdgeAfter;
    var r := Apply(s, step);
    assert r.threads == s.threads[step.t := r.threads[step.t]];
    UpdateInHand(s.threads, step.t, r.threads[step.t], p);
  }

  lemma AccountedStep(s: State, step: Step, p: Position)
    requires Owned(s) && Enabled(s, step)
    ensures Accounted(Apply(s, step), p) == Accounted(s, p) + if step.Check? then One(step.wanted, p) else 0
  {
    hide InHand, HasReached, EdgeAfter, One;
    var r := Apply(s, step);
    if !step.Expire? {
      InHandStep(s, step, p);
    }
    if step.Park? {
      ParkedBelow(s.nextId, s.wanted, s.nextId, s.threads[step.t].wanted, p);
    } else if step.Serve? {
      assert r.served[..|s.served|] == s.served;
    }
  }

  /** In every interleaving no request is lost and none is answered twice: any position was asked
      for as often as it was served at once, parked on, or is still being decided on. */
  lemma {:induction false} EveryRequestAccountedFor(threadCount: nat, maxBlocked: nat, schedule: seq<Step>, p: Position)
    requires After(threadCount, maxBlocked, schedule).Some?
    ensures var s := After(threadCount, maxBlocked, schedule).value;
            Asked(schedule, p) == Given(s.served, p) + Parked(s.nextId, s.wanted, p) + InHand(s.threads, p)
  {
    hide Enabled, Apply, Owned;
    if schedule == [] {
      IdleInHand(threadCount, p);
    } else {
      var before := schedule[..|schedule| - 1];
      EveryRequestAccountedFor(threadCount, maxBlocked, before, p);
      RunKeepsInv(threadCount, maxBlocked, before);
      AccountedStep(After(threadCount, maxBlocked, before).value, schedule[|schedule| - 1], p);
    }
  }

  // ------------------------------------------------------------- served alike

  /** The first `n` publications answer the position. */
  ghost predicate AnsweredBy(log: seq<Event>, n: nat, wanted: Position) {
    n <= |log| && Published(log[..n], wanted.sequence, wanted.part)
  }

  ghost predicate ServedCurrent(s: State) {
    && (forall k | 0 <= k < |s.served| && !s.served[k].turnedAway ::
          AnsweredBy(s.log, s.served[k].rendered, s.served[k].wanted))
    && (forall t | 0 <= t < |s.threads| && s.threads[t].Serving? && !s.threads[t].turnedAway ::
          AnsweredBy(s.log, |s.log|, s.threads[t].wanted))
  }

  lemma AnsweredByMore(log: seq<Event>, more: seq<Event>, n: nat, m: nat, wanted: Position)
    requires AnsweredBy(log, n, wanted) && n <= m <= |log + more|
    ensures AnsweredBy(log + more, m, wanted)
  {
    var i :| 0 <= i < |log[..n]| && Answers(log[..n][i], wanted.sequence, wanted.part);
    assert Answers((log + more)[..m][i], wanted.sequence, wanted.part);
  }

  lemma ServedKept(s: State, step: Step)
    requires Structure(s) && ServedCurrent(s) && Enabled(s, step)
    ensures ServedCurrent(Apply(s, step))
  {
    hide AnsweredBy, InOrder, HasReached, EdgeAfter;
    var r := Apply(s, step);
    var more := if step.Publish? then [step.ev] else [];
    assert r.log == s.log + more;
    forall k | 0 <= k < |r.served| && !r.served[k].turnedAway
      ensures AnsweredBy(r.log, r.served[k].rendered, r.served[k].wanted)
    {
      if k < |s.served| {
        RenderedThen(s.log, s.served[k].rendered, s.served[k].wanted);
        AnsweredByMore(s.log, more, s.served[k].rendered, s.served[k].rendered, s.served[k].wanted);
      }
    }
    forall t | 0 <= t < |r.threads| && r.threads[t].Serving? && !r.threads[t].turnedAway
      ensures AnsweredBy(r.log, |r.log|, r.threads[t].wanted)
    {
      if step.Check? && step.t == t {
        CheckDecides(s, t, step.wanted);
        WholeLog(s.log, step.wanted);
      } else {
        AnsweredByMore(s.log, more, |s.log|, |r.log|, s.threads[t].wanted);
      }
    }
  }

  lemma RenderedThen(log: seq<Event>, n: nat, wanted: Position)
    requires AnsweredBy(log, n, wanted)
    ensures n <= |log|
  {
  }

  lemma WholeLog(log: seq<Event>, wanted: Position)
    ensures AnsweredBy(log, |log|, wanted) <==> Published(log, wanted.sequence, wanted.part)
  {
    assert log[..|log|] == log;
  }

  lemma {:induction false} RunKeepsServed(threadCount: nat, maxBlocked: nat, schedule: seq<Step>)
    requires After(threadCount, maxBlocked, schedule).Some?
    ensures ServedCurrent(After(threadCount, maxBlocked, schedule).value)
  {
    hide Enabled, Apply;
    if schedule != [] {
      var before := schedule[..|schedule| - 1];
      RunKeepsServed(threadCount, maxBlocked, before);
      RunKeepsInv(threadCount, maxBlocked, before);
      ServedKept(After(threadCount, maxBlocked, before).value, schedule[|schedule| - 1]);
    }
  }

  /** Whoever was answered without waiting and not turned away got a playlist that holds the
      position asked for. */
  lemma ServedPlaylistIsAtOrPastRequest(threadCount: nat, maxBlocked: nat, schedule: seq<Step>, k: nat)
    requires After(threadCount, maxBlocked, schedule).Some?
    requires k < |After(threadCount, maxBlocked, schedule).value.served|
    requires !After(threadCount, maxBlocked, schedule).value.served[k].turnedAway
    ensures var Served(wanted, _, rendered) := After(threadCount, maxBlocked, schedule).value.served[k];
            && rendered <= |Publications(schedule)|
            && Published(Publications(schedule)[..rendered], wanted.sequence, wanted.part)
  {
    hide After, Published;
    RunKeepsServed(threadCount, maxBlocked, schedule);
    LogIsPublications(threadCount, maxBlocked, schedule);
  }

  // ------------------------------------------------------------- one outcome

  lemma CellStays(s: State, step: Step, id: nat)
    requires Structure(s) && Enabled(s, step) && id in s.cells
    ensures var r := Apply(s, step);
            && id in r.cells && (!s.cells[id].Unresolved? ==> r.cells[id] == s.cells[id])
            && id in r.wanted && id in s.wanted && r.wanted[id] == s.wanted[id]
            && (r.cells[id].Resolved? && s.cells[id].Unresolved? ==> step.Resolve? && id in r.answers)
            && (r.cells[id].Cancelled? && s.cells[id].Unresolved? ==> step == Expire(id))
            && (step == Expire(id) ==> !r.cells[id].Unresolved?)
            && (s.cells[id].Resolved? && id in s.answers ==> id in r.answers && r.answers[id] == s.answers[id])
  {
    hide HasReached, EdgeAfter, InOrder;
  }

  /** The first of the answer and the deadline wins and the other changes nothing: a waiter
      that is settled stays settled the same way, with the same playlist and for the same
      position, whatever follows; and its deadline settles it. */
  lemma {:induction false} SettledForEver(threadCount: nat, maxBlocked: nat, schedule: seq<Step>, more: seq<Step>,
                                          id: nat)
    requires After(threadCount, maxBlocked, schedule).Some? && After(threadCount, maxBlocked, schedule + more).Some?
    requires id in After(threadCount, maxBlocked, schedule).value.cells
    ensures var s := After(threadCount, maxBlocked, schedule).value;
            var r := After(threadCount, maxBlocked, schedule + more).value;
            && id in r.cells && (!s.cells[id].Unresolved? ==> r.cells[id] == s.cells[id])
            && id in s.wanted && id in r.wanted && r.wanted[id] == s.wanted[id]
            && (s.cells[id].Resolved? ==> id in s.answers && id in r.answers && r.answers[id] == s.answers[id])
            && (Expire(id) in more ==> !r.cells[id].Unresolved?)
    decreases |more|
  {
    hide Enabled, Apply;
    RunKeepsInv(threadCount, maxBlocked, schedule);
    if more == [] {
      assert schedule + more == schedule;
    } else {
      var before := more[..|more| - 1];
      assert (schedule + more)[..|schedule + more| - 1] == schedule + before;
      assert more == before + [more[|more| - 1]];
      SettledForEver(threadCount, maxBlocked, schedule, before, id);
      RunKeepsInv(threadCount, maxBlocked, schedule + before);
      CellStays(After(threadCount, maxBlocked, schedule + before).value, more[|more| - 1], id);
    }
  }
}
