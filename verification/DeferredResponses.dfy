/** Postponed HTTP answers: the once-cell `DeferredResponse`, the event loop that
    parks connections on it (`defer_response`, `drain_resolved`, `sweep_timeouts`)
    and the threads that resolve it. One step per critical section: a resolver
    leaves the cell's lock before it posts to the loop's mailbox, so the loop may
    time out, close the connection and reuse its descriptor in between. */
module DeferredResponses {
  import opened Prelude

  datatype Response =
    | Supplied(request: nat, payload: nat)  // handed to resolve() for this request
    | TimedOut(request: nat)                // this request's timeout_response

  /** The fields of DeferredResponse. */
  datatype Cell = Cell(resolved: bool, delivered: bool, attached: bool, stored: Option<Response>)

  /** A descriptor in connections_, with the request it is parked on, if any.
      `deferred` is the connection's own pointer, which a lost cancel() clears. */
  datatype Connection =
    | Active(id: nat)
    | Parked(id: nat, request: nat, deferred: bool)

  datatype Home = Home(fd: nat, id: nat)

  /** A completion on its way: past the cell's lock, in the mailbox, or swapped out
      by drain_resolved. The protocol below lets them be handled in any order. */
  datatype Stage = Posting | Boxed | Draining
  datatype Mail = Mail(home: Home, response: Response, stage: Stage)

  datatype Answer = Answer(home: Home, request: nat, response: Response)

  datatype State = State(
    connections: map<nat, Connection>,  // by descriptor
    nextId: nat,                        // next_connection_id_
    cells: map<nat, Cell>,              // by request
    home: map<nat, Home>,               // descriptor and id captured by attach()
    mail: map<nat, Mail>,               // completions not yet handled, by request
    answers: seq<Answer>                // what begin_response was called with
  )

  datatype Step =
    | Accept(fd: nat)
    | Close(fd: nat)
    | Postpone(request: nat)                  // a handler creates a deferred response
    | Defer(fd: nat, request: nat)            // defer_response: park, then attach()
    | Resolve(request: nat, payload: nat)     // resolve(), up to leaving the cell's lock
    | Post(request: nat)                      // the completion appends to the mailbox
    | Drain                                   // drain_resolved swaps the mailbox out
    | Deliver(request: nat)                   // drain_resolved handles one entry
    | Expire(fd: nat)                         // sweep_timeouts on a parked connection

  function Init(): State {
    State(map[], 1, map[], map[], map[], [])
  }

  predicate AliveAt(s: State, h: Home) {
    h.fd in s.connections && s.connections[h.fd].id == h.id
  }

  predicate Enabled(s: State, step: Step) {
    match step
    case Accept(fd) => fd !in s.connections
    case Close(fd) => fd in s.connections
    case Postpone(r) => r !in s.cells
    case Defer(fd, r) => fd in s.connections && s.connections[fd].Active? && r in s.cells && r !in s.home
    case Resolve(r, _) => r in s.cells
    case Post(r) => r in s.mail && s.mail[r].stage.Posting?
    case Drain => true
    case Deliver(r) => r in s.mail && s.mail[r].stage.Draining?
    case Expire(fd) => fd in s.connections && s.connections[fd].Parked? && s.connections[fd].deferred
  }

  function Apply(s: State, step: Step): State
    requires Enabled(s, step)
  {
    match step
    case Accept(fd) => s.(connections := s.connections[fd := Active(s.nextId)], nextId := s.nextId + 1)
    case Close(fd) => s.(connections := s.connections - {fd})
    case Postpone(r) => s.(cells := s.cells[r := Cell(false, false, false, None)])
    case Defer(fd, r) =>
      var id, cell := s.connections[fd].id, s.cells[r];
      var parked := s.(connections := s.connections[fd := Parked(id, r, true)], home := s.home[r := Home(fd, id)]);
      if cell.delivered then parked
      else if !cell.resolved || cell.stored.None? then parked.(cells := s.cells[r := cell.(attached := true)])
      else parked.(cells := s.cells[r := cell.(delivered := true)],
                   mail := s.mail[r := Mail(Home(fd, id), cell.stored.value, Posting)])
    case Resolve(r, payload) =>
      var cell := s.cells[r];
      if cell.resolved || cell.delivered then s
      else if !cell.attached || r !in s.home
      then s.(cells := s.cells[r := cell.(resolved := true, stored := Some(Supplied(r, payload)))])
      else s.(cells := s.cells[r := cell.(resolved := true, delivered := true, attached := false)],
              mail := s.mail[r := Mail(s.home[r], Supplied(r, payload), Posting)])
    case Post(r) => s.(mail := s.mail[r := s.mail[r].(stage := Boxed)])
    case Drain => s.(mail := map r | r in s.mail ::
                       if s.mail[r].stage.Boxed? then s.mail[r].(stage := Draining) else s.mail[r])
    case Deliver(r) =>
      var m := s.mail[r];
      var rest := s.(mail := s.mail - {r});
      if AliveAt(s, m.home) && s.connections[m.home.fd].Parked?
      then rest.(connections := s.connections[m.home.fd := Active(m.home.id)],
                 answers := s.answers + [Answer(m.home, s.connections[m.home.fd].request, m.response)])
      else rest
    case Expire(fd) =>
      var c := s.connections[fd];
      if c.request in s.cells && !s.cells[c.request].delivered
      then s.(cells := s.cells[c.request := s.cells[c.request].(delivered := true, attached := false)],
              connections := s.connections[fd := Active(c.id)],
              answers := s.answers + [Answer(Home(fd, c.id), c.request, TimedOut(c.request))])
      else s.(connections := s.connections[fd := c.(deferred := false)])
  }

  function After(schedule: seq<Step>): Option<State> {
    if schedule == [] then Some(Init()) else
      var before := After(schedule[..|schedule| - 1]);
      var step := schedule[|schedule| - 1];
      if before.Some? && Enabled(before.value, step) then Some(Apply(before.value, step)) else None
  }

  // --------------------------------------------------------------- invariant

  /** The requests that have been answered. */
  function Requests(answers: seq<Answer>): set<nat> {
    set a | a in answers :: a.request
  }

  predicate Answered(s: State, r: nat) {
    r in Requests(s.answers)
  }

  /** Connection ids are never reused. */
  ghost predicate Ids(s: State) {
    && (forall fd | fd in s.connections :: s.connections[fd].id < s.nextId)
    && (forall r | r in s.home :: s.home[r].id < s.nextId && r in s.cells)
  }

  /** A parked connection is parked on a request of its own that nobody has answered. */
  ghost predicate ParkedOk(s: State, fd: nat) {
    fd in s.connections && s.connections[fd].Parked? ==>
      var r := s.connections[fd].request;
      r in s.home && s.home[r] == Home(fd, s.connections[fd].id) && !Answered(s, r)
  }

  ghost predicate Connections(s: State) {
    forall fd :: ParkedOk(s, fd)
  }

  /** A cell is attached or delivered exactly once its connection is parked, and an
      early resolution is kept until then. */
  ghost predicate CellOk(s: State, r: nat) {
    r in s.cells ==>
      var cell := s.cells[r];
      && (r in s.home <==> cell.attached || cell.delivered)
      && (cell.attached ==> !cell.resolved && !cell.delivered)
      && (cell.resolved && !cell.delivered ==> cell.stored.Some? && cell.stored.value.request == r)
  }

  ghost predicate Cells(s: State) {
    forall r :: CellOk(s, r)
  }

  ghost predicate MailOk(s: State, r: nat) {
    r in s.mail ==>
      && r in s.cells && s.cells[r].delivered
      && r in s.home && s.mail[r].home == s.home[r] && s.mail[r].response.request == r
  }

  ghost predicate MailOwned(s: State) {
    forall r :: MailOk(s, r)
  }

  /** A request somebody may still answer is the one its connection, if it still
      exists, is parked on. */
  ghost predicate PendingOk(s: State, r: nat) {
    r in s.home && r in s.cells && (r in s.mail || !s.cells[r].delivered) && AliveAt(s, s.home[r]) ==>
      s.connections[s.home[r].fd].Parked? && s.connections[s.home[r].fd].request == r
  }

  ghost predicate Pending(s: State) {
    forall r :: PendingOk(s, r)
  }

  /** A delivered response is not lost while its connection lives. */
  ghost predicate NotLostOk(s: State, r: nat) {
    r in s.home && r in s.cells && s.cells[r].delivered && AliveAt(s, s.home[r]) ==> Answered(s, r) || r in s.mail
  }

  ghost predicate NotLost(s: State) {
    forall r :: NotLostOk(s, r)
  }

  ghost predicate AnswersOwned(s: State) {
    && (forall i | 0 <= i < |s.answers| ::
          var a := s.answers[i];
          a.request in s.home && a.home == s.home[a.request] && a.response.request == a.request)
    && (forall i, j | 0 <= i < j < |s.answers| :: s.answers[i].request != s.answers[j].request)
  }

  ghost predicate Inv(s: State) {
    Ids(s) && Connections(s) && Cells(s) && MailOwned(s) && Pending(s) && NotLost(s) && AnswersOwned(s)
  }

  /** The answer a step gives, if any. */
  function NewAnswers(s: State, step: Step): seq<Answer>
    requires Enabled(s, step)
  {
    if step.Deliver? then
      var m := s.mail[step.request];
      if AliveAt(s, m.home) && s.connections[m.home.fd].Parked?
      then [Answer(m.home, s.connections[m.home.fd].request, m.response)] else []
    else if step.Expire? then
      var c := s.connections[step.fd];
      if c.request in s.cells && !s.cells[c.request].delivered
      then [Answer(Home(step.fd, c.id), c.request, TimedOut(c.request))] else []
    else []
  }

  lemma AnswersGrow(s: State, step: Step)
    requires Enabled(s, step)
    ensures Apply(s, step).answers == s.answers + NewAnswers(s, step)
    ensures Requests(Apply(s, step).answers) == Requests(s.answers) + Requests(NewAnswers(s, step))
  {
    var more := NewAnswers(s, step);
    assert Apply(s, step).answers == s.answers + more;
    forall r | r in Requests(s.answers) + Requests(more)
      ensures r in Requests(s.answers + more)
    {
      var a :| (a in s.answers || a in more) && a.request == r;
      assert a in s.answers + more;
    }
  }

  lemma IdsKept(s: State, step: Step)
    requires Ids(s) && Enabled(s, step)
    ensures Ids(Apply(s, step))
  {
  }

  lemma ParkedKept(s: State, step: Step, fd: nat)
    requires Connections(s) && Pending(s) && MailOwned(s) && AnswersOwned(s) && Enabled(s, step)
    ensures ParkedOk(Apply(s, step), fd)
  {
    AnswersGrow(s, step);
    assert ParkedOk(s, fd);
    match step
    case Defer(f, q) =>
      assert forall a | a in s.answers :: a.request in s.home;
    case Deliver(q) =>
      assert MailOk(s, q) && PendingOk(s, q) && ParkedOk(s, s.mail[q].home.fd);
    case Expire(f) =>
      assert ParkedOk(s, f);
    case _ =>
  }

  lemma CellKept(s: State, step: Step, r: nat)
    requires Ids(s) && Cells(s) && Connections(s) && Enabled(s, step)
    ensures CellOk(Apply(s, step), r)
  {
    assert CellOk(s, r);
    if step.Expire? {
      assert ParkedOk(s, step.fd);
    }
  }

  lemma MailKept(s: State, step: Step, r: nat)
    requires MailOwned(s) && Cells(s) && Enabled(s, step)
    ensures MailOk(Apply(s, step), r)
  {
    assert MailOk(s, r) && CellOk(s, r);
  }

  lemma PendingStepKept(s: State, step: Step, r: nat)
    requires Inv(s) && Enabled(s, step)
    ensures PendingOk(Apply(s, step), r)
  {
    hide NotLost, AnswersOwned, Answered;
    assert PendingOk(s, r) && CellOk(s, r) && MailOk(s, r);
    match step
    case Defer(f, q) =>
    case Deliver(q) =>
      assert MailOk(s, q) && PendingOk(s, q) && ParkedOk(s, s.mail[q].home.fd);
    case Expire(f) =>
      assert ParkedOk(s, f) && MailOk(s, s.connections[f].request);
    case _ =>
  }

  lemma NotLostStepKept(s: State, step: Step, r: nat)
    requires Inv(s) && Enabled(s, step)
    ensures NotLostOk(Apply(s, step), r)
  {
    hide AnswersOwned;
    AnswersGrow(s, step);
    assert NotLostOk(s, r) && PendingOk(s, r) && CellOk(s, r) && MailOk(s, r);
    if step.Expire? {
      assert ParkedOk(s, step.fd);
    }
  }

  /** A new answer is its own request's, on its own connection, and the first. */
  lemma NewAnswerOwned(s: State, step: Step)
    requires Inv(s) && Enabled(s, step)
    ensures |NewAnswers(s, step)| <= 1
    ensures forall a | a in NewAnswers(s, step) ::
              && a.request in s.home && a.home == s.home[a.request] && a.response.request == a.request
              && !Answered(s, a.request)
  {
    hide NotLost, Cells, AnswersOwned, Ids, Answered;
    if step.Deliver? {
      assert MailOk(s, step.request) && PendingOk(s, step.request);
      assert ParkedOk(s, s.mail[step.request].home.fd);
    } else if step.Expire? {
      assert ParkedOk(s, step.fd);
    }
  }

  lemma HomesStay(s: State, step: Step)
    requires Enabled(s, step)
    ensures forall r | r in s.home :: r in Apply(s, step).home && Apply(s, step).home[r] == s.home[r]
  {
  }

  lemma AnswersOwnedKept(s: State, step: Step)
    requires Inv(s) && Enabled(s, step)
    ensures AnswersOwned(Apply(s, step))
  {
    hide NotLost, Cells, Ids, Connections, MailOwned, Pending, Apply, NewAnswers, Enabled;
    AnswersGrow(s, step);
    NewAnswerOwned(s, step);
    HomesStay(s, step);
    forall i | 0 <= i < |s.answers|
      ensures Answered(s, s.answers[i].request)
    {
      assert s.answers[i] in s.answers;
    }
  }

  lemma StepKeepsInv(s: State, step: Step)
    requires Inv(s) && Enabled(s, step)
    ensures Inv(Apply(s, step))
  {
    hide Apply, ParkedOk, CellOk, MailOk, PendingOk, NotLostOk, AnswersOwned, Ids;
    var r := Apply(s, step);
    IdsKept(s, step);
    forall fd
      ensures ParkedOk(r, fd)
    {
      ParkedKept(s, step, fd);
    }
    forall q
      ensures CellOk(r, q) && MailOk(r, q) && PendingOk(r, q) && NotLostOk(r, q)
    {
      CellKept(s, step, q);
      MailKept(s, step, q);
      PendingStepKept(s, step, q);
      NotLostStepKept(s, step, q);
    }
    AnswersOwnedKept(s, step);
  }

  lemma {:induction false} RunKeepsInv(schedule: seq<Step>)
    requires After(schedule).Some?
    ensures Inv(After(schedule).value)
  {
    if schedule != [] {
      RunKeepsInv(schedule[..|schedule| - 1]);
      StepKeepsInv(After(schedule[..|schedule| - 1]).value, schedule[|schedule| - 1]);
    }
  }

  // ---------------------------------------------------------------- theorems

  /** Over every run, across resolve/cancel races, closed connections, reused
      descriptors and later deferrals on the same connection: no request is answered
      twice, and every answer is the response supplied for, or the timeout response
      of, that very request, written on the connection that made it. */
  lemma AnsweredAtMostOnceByItsOwnResponse(schedule: seq<Step>)
    requires After(schedule).Some?
    ensures var s := After(schedule).value;
            && (forall i, j | 0 <= i < j < |s.answers| :: s.answers[i].request != s.answers[j].request)
            && (forall i | 0 <= i < |s.answers| ::
                  s.answers[i].response.request == s.answers[i].request &&
                  s.answers[i].request in s.home && s.answers[i].home == s.home[s.answers[i].request])
  {
    hide After;
    RunKeepsInv(schedule);
  }

  /** Exactly one of resolve() and cancel() wins: once a parked request's cell has
      delivered, and while its connection is open, the request has been answered or
      its response is on the way to the loop; and until then the connection is parked
      on that request and nothing else. */
  lemma DeliveredIsAnsweredOrOnItsWay(schedule: seq<Step>, request: nat)
    requires After(schedule).Some?
    requires var s := After(schedule).value;
             request in s.home && request in s.cells && AliveAt(s, s.home[request])
    ensures var s := After(schedule).value;
            var c := s.connections[s.home[request].fd];
            && (s.cells[request].delivered ==> Answered(s, request) || request in s.mail)
            && (request in s.mail || !s.cells[request].delivered ==>
                  c.Parked? && c.request == request && !Answered(s, request))
  {
    hide After, AnswersOwned, Ids;
    RunKeepsInv(schedule);
    var s := After(schedule).value;
    assert NotLostOk(s, request) && PendingOk(s, request) && ParkedOk(s, s.home[request].fd);
  }

  /** Handling a completion answers its own request whenever the connection that made
      it is still there, and otherwise answers nobody, whoever owns the descriptor now. */
  lemma CompletionAnswersItsRequestOrNobody(schedule: seq<Step>, request: nat)
    requires After(schedule).Some? && Enabled(After(schedule).value, Deliver(request))
    ensures var s := After(schedule).value;
            var r := Apply(s, Deliver(request));
            && request in s.home
            && r.answers == if AliveAt(s, s.home[request])
                            then s.answers + [Answer(s.home[request], request, s.mail[request].response)]
                            else s.answers
  {
    hide After, AnswersOwned, Ids, Answered;
    RunKeepsInv(schedule);
    var s := After(schedule).value;
    assert MailOk(s, request) && PendingOk(s, request);
  }
}
