/** The server as a state machine over its completion handlers, for any number of
    connections and for clients that may send anything at all. One thread runs every
    handler, so each handler is one step; steps of different connections interleave
    freely. */
module ServerMachine {
  import opened Options
  import opened Framing
  import opened Api
  import opened Accounts
  import opened AccountRuns
  import RL = ReadLoop
  import WQ = WriteQueue

  /** One connection: its read loop and its write queue. */
  datatype Conn = Conn(accepted: bool, r: RL.Tracked, w: WQ.Tracked)

  /** A message body the server handled, and the connection it came from. */
  datatype Handled = Handled(connection: nat, body: Body)

  /** `log` records the calls of `handle`, in order. */
  datatype State = State(core: Core, participants: set<nat>, conns: seq<Conn>, log: seq<Handled>)

  /** A connection object is made (`Knock`) and waits to be accepted. A failed accept drops
      it, and a new object, with whatever its buffer contains, waits in its place. */
  datatype Label =
    | Knock(junk: Msg)
    | AcceptError(i: nat, junk: Msg)
    | Accept(i: nat)
    | Receive(i: nat, chunk: Bytes)
    | Received(i: nat)
    | ReceiveFails(i: nat)
    | Send(i: nat, count: nat)
    | Sent(i: nat)
    | SendFails(i: nat)

  function Connected(env: Env): Body {
    env.render(ConnectResponse(0))
  }

  /** A connection waiting to be accepted: no handler, nothing started. */
  function Waiting(junk: Msg): Conn {
    Conn(false, RL.Tracked(RL.Reader(junk, RL.NotStarted), [], []), WQ.FRESH)
  }

  /** `deliver` of a message assigned from `b`. */
  function Deliver(c: Conn, b: Body): Conn
    requires c.w.w.Valid()
  {
    c.(w := c.w.Step(WQ.Deliver(FrameOf(b))))
  }

  /** `handle_accept` without error: the connect response first, then the read loop. */
  function Accepted(env: Env, c: Conn): Conn
    requires c.w.w.Valid()
  {
    Deliver(c, Connected(env)).(accepted := true, r := c.r.(r := RL.StartHeader(c.r.r)))
  }

  /** The body that a due body read hands to `handle`. */
  predicate HandsOver(c: Conn) {
    c.r.r.Valid() && c.r.r.op.BodyRead? && c.r.r.Due()
  }

  function Respond(env: Env, c: Conn, rsp: Option<Response>): Conn
    requires c.w.w.Valid()
  {
    match rsp
    case Some(r) => Deliver(c, env.render(r))
    case None => c
  }

  predicate Ready(c: Conn) {
    c.r.r.Valid() && c.w.w.Valid()
  }

  predicate Enabled(s: State, l: Label) {
    match l
    case Knock(junk) => junk.Valid()
    case AcceptError(i, junk) => i < |s.conns| && Ready(s.conns[i]) && !s.conns[i].accepted && junk.Valid()
    case Accept(i) => i < |s.conns| && Ready(s.conns[i]) && !s.conns[i].accepted
    case Receive(i, chunk) => i < |s.conns| && Ready(s.conns[i]) && s.conns[i].r.Enabled(RL.Arrive(chunk))
    case Received(i) => i < |s.conns| && Ready(s.conns[i]) && s.conns[i].r.Enabled(RL.Complete)
    case ReceiveFails(i) => i < |s.conns| && Ready(s.conns[i]) && s.conns[i].r.Enabled(RL.Break)
    case Send(i, k) => i < |s.conns| && Ready(s.conns[i]) && s.conns[i].w.Enabled(WQ.Send(k))
    case Sent(i) => i < |s.conns| && Ready(s.conns[i]) && s.conns[i].w.Enabled(WQ.Complete)
    case SendFails(i) => i < |s.conns| && Ready(s.conns[i]) && s.conns[i].w.Enabled(WQ.Break)
  }

  function Update(s: State, i: nat, c: Conn): State
    requires i < |s.conns|
  {
    s.(conns := s.conns[i := c])
  }

  /** The body-read completion: `handle`, with its one `deliver` for a recognised request,
      then the next header read. */
  function HandleBody(env: Env, s: State, i: nat): State
    requires i < |s.conns| && Ready(s.conns[i]) && HandsOver(s.conns[i])
  {
    var c := s.conns[i];
    var body := c.r.r.msg.Text();
    var (core, rsp) := Handle(env, s.core, Entry(i, env.parse(body)));
    Update(s, i, Respond(env, c.(r := c.r.Step(RL.Complete)), rsp)).(
      core := core, log := s.log + [Handled(i, body)])
  }

  function Step(env: Env, s: State, l: Label): State
    requires Enabled(s, l)
  {
    match l
    case Knock(junk) => s.(conns := s.conns + [Waiting(junk)])
    case AcceptError(i, junk) => Update(s, i, Waiting(junk))
    case Accept(i) => Update(s, i, Accepted(env, s.conns[i])).(participants := s.participants + {i})
    case Receive(i, chunk) => Update(s, i, s.conns[i].(r := s.conns[i].r.Step(RL.Arrive(chunk))))
    case Received(i) =>
      if HandsOver(s.conns[i]) then HandleBody(env, s, i)
      else Update(s, i, s.conns[i].(r := s.conns[i].r.Step(RL.Complete)))
    case ReceiveFails(i) =>
      Update(s, i, s.conns[i].(r := s.conns[i].r.Step(RL.Break))).(participants := s.participants - {i})
    case Send(i, k) => Update(s, i, s.conns[i].(w := s.conns[i].w.Step(WQ.Send(k))))
    case Sent(i) => Update(s, i, s.conns[i].(w := s.conns[i].w.Step(WQ.Complete)))
    case SendFails(i) =>
      Update(s, i, s.conns[i].(w := s.conns[i].w.Step(WQ.Break))).(participants := s.participants - {i})
  }

  function Init(c0: Core): State {
    State(c0, {}, [], [])
  }

  // ---------- What the log means ----------

  function Entries(env: Env, log: seq<Handled>): (es: Log)
    ensures |es| == |log|
  {
    seq(|log|, i requires 0 <= i < |log| => Entry(log[i].connection, env.parse(log[i].body)))
  }

  /** The bodies handled on connection i. */
  function HandledOn(log: seq<Handled>, i: nat): seq<Body> {
    if log == [] then []
    else
      var h := log[|log| - 1];
      HandledOn(log[..|log| - 1], i) + if h.connection == i then [h.body] else []
  }

  function Rendered(env: Env, rsp: Option<Response>): seq<Body> {
    match rsp
    case Some(r) => [env.render(r)]
    case None => []
  }

  /** The answer of the sequential directory to the last request of a log. */
  function LastAnswer(env: Env, d: Directory, log: seq<Handled>): Option<Response>
    requires log != []
  {
    var n := |log| - 1;
    SpecHandle(env, SpecAfter(env, d, Entries(env, log[..n])), env.parse(log[n].body)).1
  }

  /** The answers of the sequential directory, run on the whole log, to the requests of
      connection i. */
  function Replies(env: Env, d: Directory, log: seq<Handled>, i: nat): seq<Body> {
    if log == [] then []
    else
      Replies(env, d, log[..|log| - 1], i)
      + if log[|log| - 1].connection == i then Rendered(env, LastAnswer(env, d, log)) else []
  }

  /** Everything to be delivered on connection i, in order. */
  function Deliveries(env: Env, d: Directory, log: seq<Handled>, i: nat): seq<Body> {
    [Connected(env)] + Replies(env, d, log, i)
  }

  lemma LogStep(env: Env, d: Directory, log: seq<Handled>, i: nat)
    requires log != []
    ensures var n := |log| - 1;
            && HandledOn(log, i) ==
                 HandledOn(log[..n], i) + (if log[n].connection == i then [log[n].body] else [])
            && Replies(env, d, log, i) ==
                 Replies(env, d, log[..n], i)
                 + (if log[n].connection == i then Rendered(env, LastAnswer(env, d, log)) else [])
  {
  }

  // ---------- The invariant ----------

  ghost predicate ConnInv(env: Env, d: Directory, log: seq<Handled>, i: nat, c: Conn) {
    && c.r.Inv() && c.w.Inv()
    && c.r.handed == HandledOn(log, i)
    && (c.accepted <==> !c.r.r.op.NotStarted?)
    && c.w.pushed == (if c.accepted then Frames(Deliveries(env, d, log, i)) else [])
    && (!c.accepted ==> HandledOn(log, i) == [])
  }

  /** A connection is a participant exactly when it was accepted and neither a read nor a
      write of its has failed. */
  predicate InSet(c: Conn) {
    c.accepted && !c.r.r.op.Failed? && !c.w.w.op.Failed?
  }

  ghost predicate Inv(env: Env, c0: Core, s: State) {
    && s.core == After(env, c0, Entries(env, s.log))
    && (forall i :: 0 <= i < |s.conns| ==> ConnInv(env, Abs(c0.rows), s.log, i, s.conns[i]))
    && (forall i: nat :: i in s.participants <==> i < |s.conns| && InSet(s.conns[i]))
    && (forall h :: h in s.log ==> h.connection < |s.conns|)
  }

  lemma {:induction false} NoRequestsNoReplies(env: Env, d: Directory, log: seq<Handled>, i: nat)
    requires HandledOn(log, i) == []
    ensures Replies(env, d, log, i) == []
  {
    if log != [] {
      NoRequestsNoReplies(env, d, log[..|log| - 1], i);
    }
  }

  lemma {:induction false} UnknownConnection(log: seq<Handled>, i: nat)
    requires forall h :: h in log ==> h.connection < i
    ensures HandledOn(log, i) == []
  {
    if log != [] {
      assert log[|log| - 1] in log;
      UnknownConnection(log[..|log| - 1], i);
    }
  }

  lemma DeliverKeepsInv(c: Conn, b: Body, sent: seq<Body>)
    requires c.w.Inv() && c.w.pushed == Frames(sent)
    ensures Deliver(c, b).w.Inv() && Deliver(c, b).w.pushed == Frames(sent + [b])
  {
    hide FrameOf;
    WQ.DeliverKeepsInv(c.w, FrameOf(b));
    assert Frames(sent + [b]) == Frames(sent) + [FrameOf(b)];
  }

  lemma AcceptKeepsConnInv(env: Env, d: Directory, log: seq<Handled>, i: nat, c: Conn)
    requires ConnInv(env, d, log, i, c) && !c.accepted
    ensures ConnInv(env, d, log, i, Accepted(env, c))
  {
    NoRequestsNoReplies(env, d, log, i);
    assert c.w.pushed == Frames([]);
    DeliverKeepsInv(c, Connected(env), []);
    assert [] + [Connected(env)] == [Connected(env)] + Replies(env, d, log, i);
    hide Frames, Deliver, ParseFrames, DecodeHeader;
    var n := |c.r.consumed|;
    assert c.r.consumed[..n] == c.r.consumed;
  }

  lemma HandledOnOther(env: Env, d: Directory, log: seq<Handled>, h: Handled, j: nat)
    requires h.connection != j
    ensures HandledOn(log + [h], j) == HandledOn(log, j)
    ensures Replies(env, d, log + [h], j) == Replies(env, d, log, j)
  {
    assert (log + [h])[..|log|] == log;
  }

  lemma UpdateKeepsInv(env: Env, c0: Core, s: State, i: nat, c: Conn, participants: set<nat>)
    requires Inv(env, c0, s) && i < |s.conns|
    requires ConnInv(env, Abs(c0.rows), s.log, i, c)
    requires forall j: nat :: j in participants <==> if j == i then InSet(c) else j in s.participants
    ensures Inv(env, c0, State(s.core, participants, s.conns[i := c], s.log))
  {
    hide ConnInv, InSet, Abs, After;
  }

  /** The handlers' answer is the directory's. */
  lemma AnswerIsLast(env: Env, c0: Core, s: State, h: Handled)
    requires WellFormed(c0.rows) && s.core == After(env, c0, Entries(env, s.log))
    ensures Handle(env, s.core, Entry(h.connection, env.parse(h.body))).1
            == LastAnswer(env, Abs(c0.rows), s.log + [h])
  {
    assert (s.log + [h])[..|s.log|] == s.log;
    RunRefines(env, c0, Entries(env, s.log));
    HandleRefines(env, s.core, Entry(h.connection, env.parse(h.body)));
  }

  lemma CoreFollowsLog(env: Env, c0: Core, s: State, h: Handled)
    requires s.core == After(env, c0, Entries(env, s.log))
    ensures Handle(env, s.core, Entry(h.connection, env.parse(h.body))).0
            == After(env, c0, Entries(env, s.log + [h]))
  {
    var es := Entries(env, s.log);
    var e := Entry(h.connection, env.parse(h.body));
    hide Handle;
    assert Entries(env, s.log + [h]) == es + [e];
    assert (es + [e])[..|es|] == es;
  }

  lemma RespondKeepsInv(env: Env, c: Conn, rsp: Option<Response>, sent: seq<Body>)
    requires c.w.Inv() && c.w.pushed == Frames(sent)
    ensures var c' := Respond(env, c, rsp);
            c'.w.Inv() && c'.w.pushed == Frames(sent + Rendered(env, rsp))
  {
    if rsp.Some? {
      DeliverKeepsInv(c, env.render(rsp.value), sent);
    } else {
      assert sent + [] == sent;
    }
  }

  lemma RespondShape(env: Env, c: Conn, rsp: Option<Response>)
    requires c.w.w.Valid()
    ensures Respond(env, c, rsp).r == c.r && Respond(env, c, rsp).accepted == c.accepted
  {
    hide FrameOf;
  }

  lemma DeliveriesGrow(env: Env, d: Directory, log: seq<Handled>, h: Handled)
    ensures HandledOn(log + [h], h.connection) == HandledOn(log, h.connection) + [h.body]
    ensures Deliveries(env, d, log + [h], h.connection) ==
            Deliveries(env, d, log, h.connection) + Rendered(env, LastAnswer(env, d, log + [h]))
  {
    hide HandledOn, Replies, Rendered, LastAnswer;
    assert (log + [h])[..|log|] == log;
    LogStep(env, d, log + [h], h.connection);
  }

  /** Answering the body just read keeps the connection's invariant, on the longer log. */
  lemma AnsweredKeepsConnInv(env: Env, d: Directory, log: seq<Handled>, c: Conn, h: Handled, rsp: Option<Response>)
    requires ConnInv(env, d, log, h.connection, c) && Ready(c) && HandsOver(c)
    requires h.body == c.r.r.msg.Text() && rsp == LastAnswer(env, d, log + [h])
    ensures ConnInv(env, d, log + [h], h.connection, Respond(env, c.(r := c.r.Step(RL.Complete)), rsp))
  {
    hide HandledOn, Deliveries, Rendered, LastAnswer, Frames, Respond, DecodeHeader, RL.Tracked.Inv, WQ.Tracked.Inv;
    var mid := c.(r := c.r.Step(RL.Complete));
    DeliveriesGrow(env, d, log, h);
    RL.BodyDoneKeepsInv(c.r);
    RespondKeepsInv(env, mid, rsp, Deliveries(env, d, log, h.connection));
    RespondShape(env, mid, rsp);
  }

  lemma HandleBodyKeepsConnInv(env: Env, c0: Core, s: State, i: nat)
    requires WellFormed(c0.rows) && Inv(env, c0, s)
    requires i < |s.conns| && Ready(s.conns[i]) && HandsOver(s.conns[i])
    ensures var s' := HandleBody(env, s, i);
            ConnInv(env, Abs(c0.rows), s'.log, i, s'.conns[i])
  {
    hide Abs, After, Handle, LastAnswer, Entries, Ready, ConnInv, InSet, Respond;
    var h := Handled(i, s.conns[i].r.r.msg.Text());
    var rsp := Handle(env, s.core, Entry(i, env.parse(h.body))).1;
    AnswerIsLast(env, c0, s, h);
    AnsweredKeepsConnInv(env, Abs(c0.rows), s.log, s.conns[i], h, rsp);
  }

  lemma OtherKeepsInv(env: Env, d: Directory, log: seq<Handled>, h: Handled, j: nat, c: Conn)
    requires ConnInv(env, d, log, j, c) && h.connection != j
    ensures ConnInv(env, d, log + [h], j, c)
  {
    HandledOnOther(env, d, log, h, j);
    hide HandledOn, Replies, Frames, ParseFrames, DecodeHeader, Concat;
  }

  lemma LogKeepsInv(env: Env, c0: Core, s: State, s': State, h: Handled)
    requires Inv(env, c0, s) && s'.log == s.log + [h] && h.connection < |s.conns|
    requires s'.core == After(env, c0, Entries(env, s'.log))
    requires |s'.conns| == |s.conns| && s'.participants == s.participants
    requires forall j :: 0 <= j < |s.conns| && j != h.connection ==> s'.conns[j] == s.conns[j]
    requires ConnInv(env, Abs(c0.rows), s'.log, h.connection, s'.conns[h.connection])
    requires InSet(s'.conns[h.connection]) == InSet(s.conns[h.connection])
    ensures Inv(env, c0, s')
  {
    hide ConnInv, InSet, Abs, After;
    forall j | 0 <= j < |s'.conns| && j != h.connection
      ensures ConnInv(env, Abs(c0.rows), s'.log, j, s'.conns[j])
    {
      OtherKeepsInv(env, Abs(c0.rows), s.log, h, j, s.conns[j]);
    }
  }

  /** What handling a body leaves alone. */
  lemma HandleBodyShape(env: Env, s: State, i: nat)
    requires i < |s.conns| && Ready(s.conns[i]) && HandsOver(s.conns[i])
    ensures var s' := HandleBody(env, s, i);
            var h := Handled(i, s.conns[i].r.r.msg.Text());
            && s'.log == s.log + [h]
            && s'.core == Handle(env, s.core, Entry(i, env.parse(h.body))).0
            && s'.participants == s.participants
            && s'.conns == s.conns[i := s'.conns[i]]
            && InSet(s'.conns[i]) == InSet(s.conns[i])
  {
    hide Handle, FrameOf, DecodeHeader;
  }

  lemma HandleBodyKeepsInv(env: Env, c0: Core, s: State, i: nat)
    requires WellFormed(c0.rows) && Inv(env, c0, s)
    requires i < |s.conns| && Ready(s.conns[i]) && HandsOver(s.conns[i])
    ensures Inv(env, c0, HandleBody(env, s, i))
  {
    hide ConnInv, Handle, Abs, After, Entries, HandleBody, InSet, Ready, HandsOver, WellFormed;
    HandleBodyKeepsConnInv(env, c0, s, i);
    HandleBodyShape(env, s, i);
    CoreFollowsLog(env, c0, s, HandleBody(env, s, i).log[|s.log|]);
    LogKeepsInv(env, c0, s, HandleBody(env, s, i), HandleBody(env, s, i).log[|s.log|]);
  }

  lemma ReaderKeepsConnInv(env: Env, d: Directory, log: seq<Handled>, i: nat, c: Conn, e: RL.Event)
    requires ConnInv(env, d, log, i, c) && c.r.Enabled(e) && (e.Complete? ==> !HandsOver(c))
    ensures ConnInv(env, d, log, i, c.(r := c.r.Step(e)))
  {
    hide Replies, HandledOn, Frames, ParseFrames, DecodeHeader, RL.Tracked.Inv, WQ.Tracked.Inv;
    RL.StepKeepsInv(c.r, e);
    ReaderIsValid(c.r);
  }

  lemma ReaderIsValid(r: RL.Tracked)
    requires r.Inv()
    ensures r.r.Valid()
  {
  }

  lemma WriterKeepsConnInv(env: Env, d: Directory, log: seq<Handled>, i: nat, c: Conn, e: WQ.Event)
    requires ConnInv(env, d, log, i, c) && c.w.w.Valid() && c.w.Enabled(e) && !e.Deliver?
    ensures ConnInv(env, d, log, i, c.(w := c.w.Step(e)))
  {
    hide Replies, HandledOn, Frames, RL.Tracked.Inv, WQ.Tracked.Inv;
    WQ.StepKeepsInv(c.w, e);
  }

  /** A connection whose log entries have not changed keeps its invariant when its reader
      or writer takes a step of its own. */
  lemma LocalStep(env: Env, c0: Core, s: State, l: Label)
    requires Inv(env, c0, s) && Enabled(s, l)
    requires l.Receive? || l.Received? || l.ReceiveFails? || l.Send? || l.Sent? || l.SendFails?
    requires l.Received? ==> !HandsOver(s.conns[l.i])
    ensures ConnInv(env, Abs(c0.rows), s.log, l.i, Step(env, s, l).conns[l.i])
  {
    hide Abs, After, ConnInv, HandleBody, Accepted, HandsOver, InSet;
    var c := s.conns[l.i];
    var d := Abs(c0.rows);
    match l
    case Receive(i, chunk) => ReaderKeepsConnInv(env, d, s.log, i, c, RL.Arrive(chunk));
    case Received(i) => ReaderKeepsConnInv(env, d, s.log, i, c, RL.Complete);
    case ReceiveFails(i) => ReaderKeepsConnInv(env, d, s.log, i, c, RL.Break);
    case Send(i, k) => WriterKeepsConnInv(env, d, s.log, i, c, WQ.Send(k));
    case Sent(i) => WriterKeepsConnInv(env, d, s.log, i, c, WQ.Complete);
    case SendFails(i) => WriterKeepsConnInv(env, d, s.log, i, c, WQ.Break);
  }

  lemma LocalStepInSet(env: Env, s: State, l: Label)
    requires Enabled(s, l)
    requires l.Receive? || l.Received? || l.ReceiveFails? || l.Send? || l.Sent? || l.SendFails?
    requires l.Received? ==> !HandsOver(s.conns[l.i])
    requires l.i in s.participants <==> InSet(s.conns[l.i])
    requires !s.conns[l.i].accepted ==> s.conns[l.i].r.r.op.NotStarted? && s.conns[l.i].w.w.op.Idle?
    ensures var s' := Step(env, s, l);
            && s' == State(s.core, s'.participants, s.conns[l.i := s'.conns[l.i]], s.log)
            && forall j: nat ::
                 j in s'.participants <==> if j == l.i then InSet(s'.conns[j]) else j in s.participants
  {
    hide Handle, FrameOf, DecodeHeader;
  }

  lemma WaitingIsIdle(env: Env, d: Directory, log: seq<Handled>, i: nat, c: Conn)
    requires ConnInv(env, d, log, i, c) && !c.accepted
    ensures c.r.r.op.NotStarted? && c.w.w.op.Idle?
  {
    hide Replies, Frames, HandledOn, ParseFrames, DecodeHeader, Concat;
  }

  /** Nothing has moved on a connection that waits to be accepted. */
  lemma WaitingIsEmpty(env: Env, d: Directory, log: seq<Handled>, i: nat, c: Conn)
    requires ConnInv(env, d, log, i, c) && !c.accepted
    ensures c == Waiting(c.r.r.msg)
  {
    WaitingIsIdle(env, d, log, i, c);
    hide Replies, Frames, HandledOn, RL.Tracked.Inv, WQ.Tracked.Inv;
    IdleReader(c.r);
    IdleWriter(c.w);
  }

  lemma IdleReader(r: RL.Tracked)
    requires r.Inv() && r.r.op.NotStarted? && r.handed == []
    ensures r.consumed == []
  {
    assert r.consumed[..|r.consumed|] == r.consumed;
    hide DecodeHeader;
  }

  lemma IdleWriter(w: WQ.Tracked)
    requires w.Inv() && w.pushed == []
    ensures w == WQ.FRESH
  {
  }

  lemma EnabledConnection(s: State, l: Label)
    requires Enabled(s, l) && !l.Knock?
    ensures l.i < |s.conns|
  {
  }

  lemma LocalStepKeepsInv(env: Env, c0: Core, s: State, l: Label)
    requires Inv(env, c0, s) && Enabled(s, l)
    requires l.Receive? || l.Received? || l.ReceiveFails? || l.Send? || l.Sent? || l.SendFails?
    requires l.Received? ==> !HandsOver(s.conns[l.i])
    ensures Inv(env, c0, Step(env, s, l))
  {
    hide ConnInv, InSet, Abs, After, Step, Enabled, HandsOver;
    EnabledConnection(s, l);
    LocalStep(env, c0, s, l);
    if !s.conns[l.i].accepted {
      WaitingIsIdle(env, Abs(c0.rows), s.log, l.i, s.conns[l.i]);
    }
    LocalStepInSet(env, s, l);
    var s' := Step(env, s, l);
    UpdateKeepsInv(env, c0, s, l.i, s'.conns[l.i], s'.participants);
  }

  lemma WaitingInv(env: Env, d: Directory, log: seq<Handled>, i: nat, junk: Msg)
    requires junk.Valid() && HandledOn(log, i) == []
    ensures ConnInv(env, d, log, i, Waiting(junk)) && !InSet(Waiting(junk))
  {
    ParseEmpty();
    hide HandledOn, Replies, ParseFrames, DecodeHeader;
  }

  lemma KnockKeepsInv(env: Env, c0: Core, s: State, junk: Msg)
    requires Inv(env, c0, s) && junk.Valid()
    ensures Inv(env, c0, Step(env, s, Knock(junk)))
  {
    hide ConnInv, InSet, Abs, After, Entries, Waiting, HandledOn;
    UnknownConnection(s.log, |s.conns|);
    WaitingInv(env, Abs(c0.rows), s.log, |s.conns|, junk);
  }

  lemma AcceptedIsInSet(env: Env, d: Directory, log: seq<Handled>, i: nat, c: Conn)
    requires ConnInv(env, d, log, i, c) && Ready(c) && !c.accepted
    ensures InSet(Accepted(env, c))
  {
    WaitingIsIdle(env, d, log, i, c);
    hide ConnInv, FrameOf, DecodeHeader;
  }

  lemma AcceptKeepsInv(env: Env, c0: Core, s: State, i: nat)
    requires Inv(env, c0, s) && Enabled(s, Accept(i))
    ensures Inv(env, c0, Step(env, s, Accept(i)))
  {
    hide ConnInv, Abs, After, InSet, Accepted;
    AcceptKeepsConnInv(env, Abs(c0.rows), s.log, i, s.conns[i]);
    AcceptedIsInSet(env, Abs(c0.rows), s.log, i, s.conns[i]);
    UpdateKeepsInv(env, c0, s, i, Accepted(env, s.conns[i]), s.participants + {i});
  }

  lemma AcceptErrorKeepsInv(env: Env, c0: Core, s: State, i: nat, junk: Msg)
    requires Inv(env, c0, s) && Enabled(s, AcceptError(i, junk))
    ensures Inv(env, c0, Step(env, s, AcceptError(i, junk)))
  {
    assert ConnInv(env, Abs(c0.rows), s.log, i, s.conns[i]);
    assert HandledOn(s.log, i) == [] && !InSet(s.conns[i]);
    hide ConnInv, Abs, After, InSet, Waiting, HandledOn;
    WaitingInv(env, Abs(c0.rows), s.log, i, junk);
    UpdateKeepsInv(env, c0, s, i, Waiting(junk), s.participants);
  }

  lemma StepKeepsInv(env: Env, c0: Core, s: State, l: Label)
    requires WellFormed(c0.rows) && Inv(env, c0, s) && Enabled(s, l)
    ensures Inv(env, c0, Step(env, s, l))
  {
    if l.Received? && HandsOver(s.conns[l.i]) {
      HandleBodyKeepsInv(env, c0, s, l.i);
    } else if l.Accept? {
      AcceptKeepsInv(env, c0, s, l.i);
    } else if l.Knock? {
      KnockKeepsInv(env, c0, s, l.junk);
    } else if l.AcceptError? {
      AcceptErrorKeepsInv(env, c0, s, l.i, l.junk);
    } else {
      LocalStepKeepsInv(env, c0, s, l);
    }
  }

  // ---------- Runs ----------

  ghost predicate Runs(env: Env, s: State, ls: seq<Label>, s': State)
    decreases |ls|
  {
    if ls == [] then s' == s
    else Enabled(s, ls[0]) && Runs(env, Step(env, s, ls[0]), ls[1..], s')
  }

  lemma {:induction false} RunKeepsInv(env: Env, c0: Core, s: State, ls: seq<Label>, s': State)
    requires WellFormed(c0.rows) && Inv(env, c0, s) && Runs(env, s, ls, s')
    ensures Inv(env, c0, s')
    decreases |ls|
  {
    hide Inv, Enabled, Step;
    if ls != [] {
      StepKeepsInv(env, c0, s, ls[0]);
      RunKeepsInv(env, c0, Step(env, s, ls[0]), ls[1..], s');
    }
  }

  /** The server against arbitrary clients. On every connection the bodies handled are the
      complete messages of the bytes received, in order; the frames delivered are the
      connect response and then the sequential directory's answers to that connection's
      requests, with all connections' requests taken in the order of the `handle` calls;
      and the bytes sent are a prefix of those frames. The rows and sessions are those of
      the run of that log. */
  lemma ServerRefinesDirectory(env: Env, c0: Core, ls: seq<Label>, s: State)
    requires WellFormed(c0.rows) && Runs(env, Init(c0), ls, s)
    ensures s.core == After(env, c0, Entries(env, s.log))
    ensures forall i :: 0 <= i < |s.conns| && s.conns[i].accepted ==>
              var c := s.conns[i];
              && HandledOn(s.log, i) <= ParseFrames(c.r.consumed).msgs
              && (c.r.r.Outstanding() && !c.r.r.Due() ==> HandledOn(s.log, i) == ParseFrames(c.r.consumed).msgs)
              && c.w.pushed == Frames(Deliveries(env, Abs(c0.rows), s.log, i))
              && c.w.sent <= FrameAll(Deliveries(env, Abs(c0.rows), s.log, i))
  {
    InitInv(env, c0);
    RunKeepsInv(env, c0, Init(c0), ls, s);
    forall i | 0 <= i < |s.conns| && s.conns[i].accepted
      ensures HandledOn(s.log, i) <= ParseFrames(s.conns[i].r.consumed).msgs
      ensures s.conns[i].r.r.Outstanding() && !s.conns[i].r.r.Due() ==>
                HandledOn(s.log, i) == ParseFrames(s.conns[i].r.consumed).msgs
      ensures s.conns[i].w.sent <= FrameAll(Deliveries(env, Abs(c0.rows), s.log, i))
    {
      assert ConnInv(env, Abs(c0.rows), s.log, i, s.conns[i]);
      RL.HandedIsParsed(s.conns[i].r);
      WQ.SentIsPrefix(s.conns[i].w);
    }
  }

  lemma InitInv(env: Env, c0: Core)
    ensures Inv(env, c0, Init(c0))
  {
    assert Entries(env, []) == [];
  }

  /** The bodies whose request type the server recognises. */
  function Recognised(env: Env, bodies: seq<Body>): seq<Body> {
    if bodies == [] then []
    else
      var n := |bodies| - 1;
      Recognised(env, bodies[..n]) + if env.parse(bodies[n]).Other? then [] else [bodies[n]]
  }

  ghost predicate AnswersInOrder(env: Env, replies: seq<Body>, requests: seq<Body>) {
    && |replies| == |requests|
    && forall k :: 0 <= k < |replies| ==>
         exists rsp :: replies[k] == env.render(rsp) && Answers(rsp, env.parse(requests[k]))
  }

  lemma RecognisedAppend(env: Env, bodies: seq<Body>, b: Body)
    ensures Recognised(env, bodies + [b]) ==
            Recognised(env, bodies) + (if env.parse(b).Other? then [] else [b])
  {
    assert (bodies + [b])[..|bodies|] == bodies;
  }

  lemma AnswersAppend(env: Env, replies: seq<Body>, requests: seq<Body>, rsp: Response, request: Body)
    requires AnswersInOrder(env, replies, requests) && Answers(rsp, env.parse(request))
    ensures AnswersInOrder(env, replies + [env.render(rsp)], requests + [request])
  {
    hide Answers;
    var all := replies + [env.render(rsp)];
    forall k | 0 <= k < |all|
      ensures exists rsp' :: all[k] == env.render(rsp') && Answers(rsp', env.parse((requests + [request])[k]))
    {
      if k < |replies| {
        var rsp' :| replies[k] == env.render(rsp') && Answers(rsp', env.parse(requests[k]));
        assert all[k] == env.render(rsp');
      }
    }
  }

  lemma LastAnswerMatches(env: Env, d: Directory, log: seq<Handled>)
    requires log != []
    ensures var req := env.parse(log[|log| - 1].body);
            var rsp := LastAnswer(env, d, log);
            if req.Other? then rsp == None else rsp.Some? && Answers(rsp.value, req)
  {
  }

  /** Pipelining: the k-th answer on a connection is the response, of the matching type, to
      its k-th recognised request; unrecognised requests get none. */
  lemma {:induction false} PipelinedReplies(env: Env, d: Directory, log: seq<Handled>, i: nat)
    ensures AnswersInOrder(env, Replies(env, d, log, i), Recognised(env, HandledOn(log, i)))
    decreases |log|, 1
  {
    if log == [] {
      assert AnswersInOrder(env, [], []);
    } else {
      PipelinedStep(env, d, log, i);
    }
  }

  lemma {:induction false} PipelinedStep(env: Env, d: Directory, log: seq<Handled>, i: nat)
    requires log != []
    ensures AnswersInOrder(env, Replies(env, d, log, i), Recognised(env, HandledOn(log, i)))
    decreases |log|, 0
  {
    hide HandledOn, Replies, LastAnswer, Answers, AnswersInOrder, Recognised;
    var n := |log| - 1;
    PipelinedReplies(env, d, log[..n], i);
    LogStep(env, d, log, i);
    var before := Replies(env, d, log[..n], i);
    var asked := HandledOn(log[..n], i);
    assert before + [] == before && asked + [] == asked && Recognised(env, asked) + [] == Recognised(env, asked);
    if log[n].connection == i {
      var rsp := LastAnswer(env, d, log);
      RecognisedAppend(env, asked, log[n].body);
      LastAnswerMatches(env, d, log);
      if rsp.Some? {
        AnswersAppend(env, before, Recognised(env, asked), rsp.value, log[n].body);
      }
    }
  }

  lemma RepliesGrow(env: Env, d: Directory, log: seq<Handled>, p: nat, i: nat)
    requires p <= |log|
    ensures Replies(env, d, log[..p], i) <= Replies(env, d, log, i)
    decreases |log| - p
  {
    if p == |log| {
      assert log[..p] == log;
    } else {
      assert log[..p + 1][..p] == log[..p];
      RepliesGrow(env, d, log, p + 1, i);
    }
  }

  /** Which answer goes where: request p of the log, if recognised, is answered on its own
      connection, after as many answers as that connection had recognised requests before;
      and the answer is the rendered response of the run of all requests before p. */
  lemma ReplyOfRequest(env: Env, c0: Core, log: seq<Handled>, p: nat)
    requires WellFormed(c0.rows) && p < |log| && !env.parse(log[p].body).Other?
    ensures var i := log[p].connection;
            var k := |Recognised(env, HandledOn(log[..p], i))|;
            var rsp := ReplyAt(env, c0, Entries(env, log), p);
            && rsp.Some? && k < |Replies(env, Abs(c0.rows), log, i)|
            && Replies(env, Abs(c0.rows), log, i)[k] == env.render(rsp.value)
  {
    hide Abs, SpecHandle, Handle, SpecAfter, HandledOn, Recognised, Replies;
    var d := Abs(c0.rows);
    var i := log[p].connection;
    var now := log[..p + 1];
    assert now[..p] == log[..p];
    assert Entries(env, log)[..p] == Entries(env, log[..p]);
    RepliesRefine(env, c0, Entries(env, log), p);
    LastAnswerMatches(env, d, now);
    LogStep(env, d, now, i);
    PipelinedReplies(env, d, log[..p], i);
    RepliesGrow(env, d, log, p + 1, i);
  }

  // ---------- Lifecycle ----------

  /** A failed read or write, and a refused header, are final. */
  predicate Grows(c: Conn, c': Conn) {
    && (c.accepted ==> c'.accepted)
    && (c.r.r.op.Failed? ==> c'.r == c.r)
    && (c.r.r.op.Rejected? ==> c'.r == c.r)
    && (c.w.w.op.Failed? ==> c'.w.w.op == c.w.w.op && c'.w.sent == c.w.sent)
  }

  lemma StepGrows(env: Env, s: State, l: Label, i: nat)
    requires Enabled(s, l) && i < |s.conns|
    requires !s.conns[i].accepted ==> s.conns[i].r.r.op.NotStarted? && s.conns[i].w.w.op.Idle?
    ensures i < |Step(env, s, l).conns| && Grows(s.conns[i], Step(env, s, l).conns[i])
  {
    hide Handle, FrameOf, DecodeHeader;
  }

  lemma GrowsTransitive(a: Conn, b: Conn, c: Conn)
    requires Grows(a, b) && Grows(b, c)
    ensures Grows(a, c)
  {
  }

  lemma {:induction false} RunGrows(env: Env, c0: Core, s: State, ls: seq<Label>, s': State, i: nat)
    requires WellFormed(c0.rows) && Inv(env, c0, s) && Runs(env, s, ls, s') && i < |s.conns|
    ensures i < |s'.conns| && Grows(s.conns[i], s'.conns[i])
    decreases |ls|
  {
    hide Enabled, Step, WellFormed, ConnInv, InSet, Abs, After, Entries;
    if ls != [] {
      var t := Step(env, s, ls[0]);
      StepKeepsInv(env, c0, s, ls[0]);
      if !s.conns[i].accepted {
        WaitingIsIdle(env, Abs(c0.rows), s.log, i, s.conns[i]);
      }
      StepGrows(env, s, ls[0], i);
      RunGrows(env, c0, t, ls[1..], s', i);
      GrowsTransitive(s.conns[i], t.conns[i], s'.conns[i]);
    }
  }

  /** Lifecycle: at every step boundary the participants are exactly the accepted
      connections without a failed read or write (a refused header alone leaves one in);
      whatever is outstanding, a completion can only come for an accepted connection, which
      is one that has its handler; a connection that has left the set is never in it again;
      after a failed write it sends nothing more, and after a failed read or a refused
      header it reads and handles nothing more. */
  lemma Lifecycle(env: Env, c0: Core, ls: seq<Label>, s: State, more: seq<Label>, s': State, i: nat)
    requires WellFormed(c0.rows) && Runs(env, Init(c0), ls, s) && Runs(env, s, more, s')
    ensures i in s.participants <==>
              i < |s.conns| && s.conns[i].accepted && !s.conns[i].r.r.op.Failed? && !s.conns[i].w.w.op.Failed?
    ensures i < |s.conns| && (s.conns[i].r.r.Outstanding() || s.conns[i].w.w.op.Active?) ==> s.conns[i].accepted
    ensures i < |s.conns| && s.conns[i].accepted && i !in s.participants ==> i !in s'.participants
    ensures i < |s.conns| && s.conns[i].w.w.op.Failed? ==>
              i < |s'.conns| && s'.conns[i].w.sent == s.conns[i].w.sent
    ensures i < |s.conns| && (s.conns[i].r.r.op.Rejected? || s.conns[i].r.r.op.Failed?) ==>
              i < |s'.conns| && s'.conns[i].r == s.conns[i].r && HandledOn(s'.log, i) == HandledOn(s.log, i)
  {
    hide Runs, HandledOn, Replies, Frames, Abs, After, WellFormed, RL.Tracked.Inv, WQ.Tracked.Inv;
    InitInv(env, c0);
    RunKeepsInv(env, c0, Init(c0), ls, s);
    RunKeepsInv(env, c0, s, more, s');
    if i < |s.conns| {
      RunGrows(env, c0, s, more, s', i);
      if !s.conns[i].accepted {
        WaitingIsIdle(env, Abs(c0.rows), s.log, i, s.conns[i]);
      }
      assert ConnInv(env, Abs(c0.rows), s.log, i, s.conns[i]);
      assert ConnInv(env, Abs(c0.rows), s'.log, i, s'.conns[i]);
    }
  }
}
