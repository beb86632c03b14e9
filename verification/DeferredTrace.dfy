/** Postponed answers, read off the schedule alone: who is connected, which response each
    request is answered with, and that no response supplied in time is lost. */
module DeferredTrace {
  import opened Prelude
  import opened DeferredResponses

  /** How many connections a schedule accepts. */
  function Accepted(schedule: seq<Step>): nat {
    if schedule == [] then 0 else
      Accepted(schedule[..|schedule| - 1]) + if schedule[|schedule| - 1].Accept? then 1 else 0
  }

  /** The descriptors open after a schedule, each with the number of the connection behind it. */
  function Open(schedule: seq<Step>): map<nat, nat> {
    if schedule == [] then map[] else
      var before, step := schedule[..|schedule| - 1], schedule[|schedule| - 1];
      if step.Accept? then Open(before)[step.fd := Accepted(before) + 1]
      else if step.Close? then Open(before) - {step.fd}
      else Open(before)
  }

  /** The connection each request was deferred on. */
  function Homes(schedule: seq<Step>): map<nat, Home> {
    if schedule == [] then map[] else
      var before, step := schedule[..|schedule| - 1], schedule[|schedule| - 1];
      if step.Defer? && step.fd in Open(before)
      then Homes(before)[step.request := Home(step.fd, Open(before)[step.fd])]
      else Homes(before)
  }

  /** What the first resolve() of the request supplied. */
  function FirstSupplied(schedule: seq<Step>, request: nat): Option<nat> {
    if schedule == [] then None else
      var before, step := FirstSupplied(schedule[..|schedule| - 1], request), schedule[|schedule| - 1];
      if before.None? && step.Resolve? && step.request == request then Some(step.payload) else before
  }

  ghost predicate SameConnections(s: State, open: map<nat, nat>) {
    s.connections.Keys == open.Keys && forall fd | fd in open :: s.connections[fd].id == open[fd]
  }

  lemma OpenStep(s: State, step: Step, schedule: seq<Step>)
    requires Enabled(s, step) && SameConnections(s, Open(schedule)) && s.nextId == Accepted(schedule) + 1
    ensures var r := Apply(s, step);
            SameConnections(r, Open(schedule + [step])) && r.nextId == Accepted(schedule + [step]) + 1
  {
    assert (schedule + [step])[..|schedule|] == schedule;
  }

  lemma HomesStep(s: State, step: Step, schedule: seq<Step>)
    requires Enabled(s, step) && SameConnections(s, Open(schedule)) && s.home == Homes(schedule)
    ensures Apply(s, step).home == Homes(schedule + [step])
  {
    hide Open;
    assert (schedule + [step])[..|schedule|] == schedule;
  }

  /** Who is connected, under which number, and on which connection each request was deferred,
      is what the schedule says. */
  lemma {:induction false} BookkeepingFollowsSchedule(schedule: seq<Step>)
    requires After(schedule).Some?
    ensures var s := After(schedule).value;
            SameConnections(s, Open(schedule)) && s.nextId == Accepted(schedule) + 1 && s.home == Homes(schedule)
  {
    hide Enabled, Apply;
    if schedule != [] {
      var before, step := schedule[..|schedule| - 1], schedule[|schedule| - 1];
      BookkeepingFollowsSchedule(before);
      OpenStep(After(before).value, step, before);
      HomesStep(After(before).value, step, before);
      assert before + [step] == schedule;
    }
  }

  // ------------------------------------------------------------ the response

  /** What the cell, the completion and the answer of request `r` hold, `first` being what was
      supplied first. */
  ghost predicate SuppliedOk(s: State, r: nat, first: Option<nat>) {
    && (r !in s.cells ==> first.None? && r !in s.mail)
    && (r in s.cells && s.cells[r].resolved ==> first.Some?)
    && (first.Some? ==> r in s.cells && (s.cells[r].resolved || s.cells[r].delivered))
    && (r in s.cells && s.cells[r].stored.Some? ==> first.Some? && s.cells[r].stored.value == Supplied(r, first.value))
    && (r in s.mail ==> first.Some? && s.mail[r].response == Supplied(r, first.value))
  }

  ghost predicate AnswerOk(a: Answer, schedule: seq<Step>) {
    || a.response == TimedOut(a.request)
    || (FirstSupplied(schedule, a.request).Some? &&
        a.response == Supplied(a.request, FirstSupplied(schedule, a.request).value))
  }

  lemma SuppliedStep(s: State, step: Step, r: nat, first: Option<nat>)
    requires Inv(s) && Enabled(s, step) && SuppliedOk(s, r, first)
    ensures SuppliedOk(Apply(s, step), r,
                       if first.None? && step.Resolve? && step.request == r then Some(step.payload) else first)
  {
    hide Ids, NotLost, AnswersOwned, Answered, Pending;
    assert CellOk(s, r);
    if step.Expire? {
      assert ParkedOk(s, step.fd);
    }
  }

  lemma AnswerStep(s: State, step: Step, schedule: seq<Step>, a: Answer)
    requires Inv(s) && Enabled(s, step) && forall r :: SuppliedOk(s, r, FirstSupplied(schedule, r))
    requires a in NewAnswers(s, step)
    ensures AnswerOk(a, schedule)
  {
    hide Ids, NotLost, AnswersOwned, Answered, Cells;
    if step.Deliver? {
      assert MailOk(s, step.request) && PendingOk(s, step.request);
      assert SuppliedOk(s, step.request, FirstSupplied(schedule, step.request));
    }
  }

  lemma AnswerStaysOk(a: Answer, schedule: seq<Step>, step: Step)
    requires AnswerOk(a, schedule)
    ensures AnswerOk(a, schedule + [step])
  {
    assert (schedule + [step])[..|schedule|] == schedule;
  }

  lemma {:induction false} RunKeepsSupplied(schedule: seq<Step>)
    requires After(schedule).Some?
    ensures var s := After(schedule).value;
            && (forall r :: SuppliedOk(s, r, FirstSupplied(schedule, r)))
            && (forall a | a in s.answers :: AnswerOk(a, schedule))
  {
    hide Enabled, Apply, Inv, SuppliedOk, AnswerOk, NewAnswers;
    if schedule == [] {
      NothingSupplied();
    } else {
      var before, step := schedule[..|schedule| - 1], schedule[|schedule| - 1];
      var s := After(before).value;
      RunKeepsSupplied(before);
      RunKeepsInv(before);
      assert before + [step] == schedule;
      forall r
        ensures SuppliedOk(Apply(s, step), r, FirstSupplied(schedule, r))
      {
        SuppliedStep(s, step, r, FirstSupplied(before, r));
      }
      AnswersGrow(s, step);
      forall a | a in Apply(s, step).answers
        ensures AnswerOk(a, schedule)
      {
        if a in NewAnswers(s, step) {
          AnswerStep(s, step, before, a);
        }
        AnswerStaysOk(a, before, step);
      }
    }
  }

  lemma NothingSupplied()
    ensures forall r :: SuppliedOk(Init(), r, None)
  {
  }

  /** Every answer is the timeout response of its request or exactly what the first resolve() of
      that request supplied; so is every response stored or on its way. The first call wins. */
  lemma AnswersAreFirstSupplied(schedule: seq<Step>)
    requires After(schedule).Some?
    ensures var s := After(schedule).value;
            && (forall i | 0 <= i < |s.answers| && s.answers[i].response.Supplied? ::
                  && FirstSupplied(schedule, s.answers[i].request).Some?
                  && s.answers[i].response ==
                     Supplied(s.answers[i].request, FirstSupplied(schedule, s.answers[i].request).value))
            && (forall i | 0 <= i < |s.answers| && s.answers[i].response.TimedOut? ::
                  s.answers[i].response == TimedOut(s.answers[i].request))
            && (forall r | r in s.mail ::
                  && FirstSupplied(schedule, r).Some?
                  && s.mail[r].response == Supplied(r, FirstSupplied(schedule, r).value))
            && (forall r | r in s.cells && s.cells[r].stored.Some? ::
                  && FirstSupplied(schedule, r).Some?
                  && s.cells[r].stored.value == Supplied(r, FirstSupplied(schedule, r).value))
  {
    hide After, FirstSupplied;
    RunKeepsSupplied(schedule);
    var s := After(schedule).value;
    forall i | 0 <= i < |s.answers|
      ensures AnswerOk(s.answers[i], schedule)
    {
      assert s.answers[i] in s.answers;
    }
    forall r | r in s.mail || r in s.cells
      ensures SuppliedOk(s, r, FirstSupplied(schedule, r))
    {
    }
  }

  /** Once a request has been deferred and resolved, in either order, and while its connection is
      open, the request has been answered or what was supplied first is on its way. */
  lemma ResolvedIsAnsweredOrOnItsWay(schedule: seq<Step>, request: nat)
    requires After(schedule).Some?
    requires FirstSupplied(schedule, request).Some? && request in Homes(schedule)
    requires var home := Homes(schedule)[request]; home.fd in Open(schedule) && Open(schedule)[home.fd] == home.id
    ensures var s := After(schedule).value;
            || Answered(s, request)
            || (request in s.mail && s.mail[request].home == Homes(schedule)[request] &&
                s.mail[request].response == Supplied(request, FirstSupplied(schedule, request).value))
  {
    hide After, FirstSupplied, Homes, Open, Answered, AnswersOwned;
    RunKeepsInv(schedule);
    RunKeepsSupplied(schedule);
    BookkeepingFollowsSchedule(schedule);
    var s := After(schedule).value;
    assert SuppliedOk(s, request, FirstSupplied(schedule, request));
    assert CellOk(s, request) && NotLostOk(s, request) && MailOk(s, request);
  }

  /** A parked connection's deadline answers its request with the timeout response exactly when no
      response is on its way to it; and otherwise answers nobody, leaving the connection parked. */
  lemma TimeoutAnswersUnlessOnItsWay(schedule: seq<Step>, fd: nat)
    requires After(schedule).Some? && Enabled(After(schedule).value, Expire(fd))
    ensures var s := After(schedule).value;
            var r := Apply(s, Expire(fd));
            var request := s.connections[fd].request;
            && request in s.home && s.home[request] == Home(fd, s.connections[fd].id)
            && r.answers == (if request in s.mail then s.answers
                             else s.answers + [Answer(s.home[request], request, TimedOut(request))])
            && r.mail == s.mail && fd in r.connections
            && (r.connections[fd].Parked? <==> request in s.mail)
  {
    hide After, AnswersOwned;
    RunKeepsInv(schedule);
    var s := After(schedule).value;
    var request := s.connections[fd].request;
    assert ParkedOk(s, fd) && NotLostOk(s, request) && MailOk(s, request) && PendingOk(s, request);
  }

  /** The steps that bring a completion from where it is to its connection. */
  function WayToLoop(stage: Stage, request: nat): seq<Step> {
    match stage
    case Posting => [Post(request), Drain, Deliver(request)]
    case Boxed => [Drain, Deliver(request)]
    case Draining => [Deliver(request)]
  }

  lemma OneMoreStep(schedule: seq<Step>, step: Step)
    requires After(schedule).Some? && Enabled(After(schedule).value, step)
    ensures After(schedule + [step]) == Some(Apply(After(schedule).value, step))
  {
    assert (schedule + [step])[..|schedule|] == schedule;
  }

  /** Nothing stands between a completion and its connection: wherever it is, its own steps are
      enabled in turn and end with the request answered by it, if the connection still exists. */
  lemma CompletionGetsThrough(schedule: seq<Step>, request: nat)
    requires After(schedule).Some? && request in After(schedule).value.mail
    ensures var s := After(schedule).value;
            var m := s.mail[request];
            var done := After(schedule + WayToLoop(m.stage, request));
            && done.Some? && request !in done.value.mail
            && done.value.answers == if AliveAt(s, m.home) then s.answers + [Answer(m.home, request, m.response)]
                                     else s.answers
    decreases match After(schedule).value.mail[request].stage case Posting => 2 case Boxed => 1 case Draining => 0
  {
    hide After;
    var s := After(schedule).value;
    RunKeepsInv(schedule);
    assert MailOk(s, request) && PendingOk(s, request);
    match s.mail[request].stage
    case Posting =>
      OneMoreStep(schedule, Post(request));
      CompletionGetsThrough(schedule + [Post(request)], request);
      assert schedule + WayToLoop(Posting, request) == schedule + [Post(request)] + WayToLoop(Boxed, request);
    case Boxed =>
      OneMoreStep(schedule, Drain);
      CompletionGetsThrough(schedule + [Drain], request);
      assert schedule + WayToLoop(Boxed, request) == schedule + [Drain] + WayToLoop(Draining, request);
    case Draining =>
      OneMoreStep(schedule, Deliver(request));
  }
}
