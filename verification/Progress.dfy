/** Termination and quiescence of the closed system: internal steps pay for themselves out
    of the work that user actions bring in, and a system with nothing left to do has
    answered everything. */
module Progress {
  import opened Framing
  import opened Api
  import opened Accounts
  import opened AccountRuns
  import RL = ReadLoop
  import WQ = WriteQueue
  import CM = ClientMachine
  import SM = ServerMachine
  import opened Network

  // ---------- Work ----------

  /** A byte waiting to be read by the server carries more than half the cost of the
      largest reply, so that a message body pays for the answer it triggers. */
  const UP: nat := 3100
  const DOWN: nat := 1
  const PUSH_DOWN: nat := 3 * BUFFER_LENGTH + 2
  const ACCEPT_WORK: nat := PUSH_DOWN + 2
  const WRITE_WORK: nat := (UP + 2) * BUFFER_LENGTH + 3

  function Unsent(w: WQ.Writer): int {
    |Concat(w.queue)| - if w.op.Idle? then 0 else w.op.sent
  }

  function WriterWork(w: WQ.Writer, perByte: nat): int {
    perByte * Unsent(w) + |w.queue| + if w.op.Active? then 1 else 0
  }

  function ReaderWork(r: RL.Reader, perByte: nat): int {
    match r.op
    case HeaderRead(got) => perByte * got + 1
    case BodyRead(got) => perByte * (got + 2) + 1
    case _ => 0
  }

  function TaskWork(t: CM.Task): nat {
    match t
    case WriteTask(f) => (UP + 2) * |f| + 3
    case CloseTask => 1
  }

  function TasksWork(tasks: seq<CM.Task>): nat {
    if tasks == [] then 0 else TaskWork(tasks[0]) + TasksWork(tasks[1..])
  }

  function ClientWork(c: CM.Client): int {
    (if c.phase.Connecting? then 2 else 0)
    + TasksWork(c.tasks) + WriterWork(c.w.w, UP + 2) + ReaderWork(c.r.r, DOWN)
  }

  function ConnWork(c: SM.Conn): int {
    (if c.accepted then 0 else ACCEPT_WORK) + ReaderWork(c.r.r, UP) + WriterWork(c.w.w, DOWN + 2)
  }

  function LinkWork(k: Link, c: SM.Conn): int {
    ClientWork(k.client) + (UP + 1) * |k.up| + (DOWN + 1) * |k.down| + ConnWork(c)
  }

  function Works(s: State): seq<int>
    requires |s.links| == |s.server.conns|
  {
    seq(|s.links|, i requires 0 <= i < |s.links| => LinkWork(s.links[i], s.server.conns[i]))
  }

  function Sum(xs: seq<int>): int {
    if xs == [] then 0 else Sum(xs[..|xs| - 1]) + xs[|xs| - 1]
  }

  function Work(s: State): int
    requires |s.links| == |s.server.conns|
  {
    Sum(Works(s))
  }

  lemma {:induction false} SumUpdate(xs: seq<int>, i: nat, x: int)
    requires i < |xs|
    ensures Sum(xs[i := x]) == Sum(xs) - xs[i] + x
  {
    var n := |xs| - 1;
    if i == n {
      assert xs[i := x][..n] == xs[..n];
    } else {
      assert xs[i := x][..n] == xs[..n][i := x];
      SumUpdate(xs[..n], i, x);
    }
  }

  lemma {:induction false} SumNonNegative(xs: seq<int>)
    requires forall i :: 0 <= i < |xs| ==> xs[i] >= 0
    ensures Sum(xs) >= 0
  {
    if xs != [] {
      SumNonNegative(xs[..|xs| - 1]);
    }
  }

  // ---------- Work of one writer and one reader ----------

  lemma UnsentNonNegative(w: WQ.Writer)
    requires w.Valid()
    ensures Unsent(w) >= 0
  {
  }

  lemma WriterWorkNonNegative(w: WQ.Writer, perByte: nat)
    requires w.Valid()
    ensures WriterWork(w, perByte) >= |w.queue|
  {
    UnsentNonNegative(w);
  }

  lemma PushWork(w: WQ.Writer, f: Bytes, perByte: nat)
    requires w.Valid() && f != []
    ensures WriterWork(w, perByte) <= WriterWork(WQ.Push(w, f), perByte)
    ensures WriterWork(WQ.Push(w, f), perByte) <= WriterWork(w, perByte) + perByte * |f| + 2
  {
    ConcatAppend(w.queue, [f]);
    ConcatOne(f);
    assert Unsent(WQ.Push(w, f)) == Unsent(w) + |f| by {
      hide Concat;
    }
    hide Unsent;
    assert perByte * (Unsent(w) + |f|) == perByte * Unsent(w) + perByte * |f|;
  }

  lemma SendWork(w: WQ.Writer, k: nat, perByte: nat)
    requires w.op.Active?
    ensures WriterWork(WQ.Transmit(w, k), perByte) == WriterWork(w, perByte) - perByte * k
  {
    hide Concat;
    assert perByte * (Unsent(w) - k) == perByte * Unsent(w) - perByte * k;
  }

  lemma SentWork(w: WQ.Writer, perByte: nat)
    requires w.Valid() && w.Due()
    ensures WriterWork(WQ.WriteDone(w), perByte) < WriterWork(w, perByte)
  {
    assert Unsent(WQ.WriteDone(w)) == Unsent(w);
  }

  lemma SendFailsWork(w: WQ.Writer, perByte: nat)
    requires w.op.Active?
    ensures WriterWork(WQ.WriteFail(w), perByte) == WriterWork(w, perByte) - 1
  {
    assert Unsent(WQ.WriteFail(w)) == Unsent(w);
  }

  lemma ReceiveWork(r: RL.Reader, chunk: Bytes, perByte: nat)
    requires r.Valid() && r.Outstanding() && |chunk| <= r.Room()
    ensures ReaderWork(RL.Receive(r, chunk), perByte) == ReaderWork(r, perByte) + perByte * |chunk|
  {
    hide RL.Splice;
    match r.op
    case HeaderRead(got) => assert perByte * (got + |chunk|) == perByte * got + perByte * |chunk|;
    case BodyRead(got) => assert perByte * (got + |chunk| + 2) == perByte * (got + 2) + perByte * |chunk|;
  }

  lemma CompleteWork(t: RL.Tracked, perByte: nat)
    requires t.r.Valid() && t.Enabled(RL.Complete) && perByte >= 1
    ensures ReaderWork(t.Step(RL.Complete).r, perByte) < ReaderWork(t.r, perByte)
    ensures t.r.op.BodyRead? ==> ReaderWork(t.Step(RL.Complete).r, perByte) <= ReaderWork(t.r, perByte) - 2 * perByte
  {
    hide DecodeHeader;
    if t.r.op.BodyRead? {
      assert perByte * (t.r.op.got + 2) == perByte * t.r.op.got + perByte * 2;
    }
  }

  lemma FrameSize(b: Body)
    ensures |FrameOf(b)| <= BUFFER_LENGTH
  {
    HeaderRoundTrip(|b|);
  }

  // ---------- Which steps are internal ----------

  /** Steps the program and the network take by themselves; the others are actions of
      users, or accept errors, which the listening socket decides. */
  predicate Internal(l: Label) {
    match l
    case NewClient(_, _) => false
    case Client(_, c) => !(c.Write? || c.Close? || c.Take?)
    case Server(c) => !c.AcceptError?
  }

  lemma {:induction false} TasksAppend(tasks: seq<CM.Task>, t: CM.Task)
    ensures TasksWork(tasks + [t]) == TasksWork(tasks) + TaskWork(t)
  {
    if tasks != [] {
      assert (tasks + [t])[1..] == tasks[1..] + [t];
      TasksAppend(tasks[1..], t);
    }
  }

  lemma UserWork(k: Link, l: CM.Label)
    requires CM.Enabled(k.client, l) && (l.Write? || l.Close? || l.Take?)
    ensures ClientWork(CM.Step(k.client, l)) <= ClientWork(k.client) + WRITE_WORK
  {
    hide WriterWork, ReaderWork;
    match l
    case Write(b) =>
      FrameSize(b);
      TasksAppend(k.client.tasks, CM.WriteTask(FrameOf(b)));
    case Close => TasksAppend(k.client.tasks, CM.CloseTask);
    case Take =>
  }

  lemma ClientStepWork(k: Link, l: CM.Label)
    requires CM.Enabled(k.client, l) && (l.Receive? ==> l.chunk <= k.down)
    requires !(l.Write? || l.Close? || l.Take?)
    ensures var k' := ClientStep(k, l);
            ClientWork(k'.client) + (UP + 1) * |k'.up| + (DOWN + 1) * |k'.down|
            < ClientWork(k.client) + (UP + 1) * |k.up| + (DOWN + 1) * |k.down|
  {
    var c := k.client;
    hide Unsent, DecodeHeader, FrameOf;
    match l
    case Connect(_) =>
    case RunTask =>
      hide WriterWork, ReaderWork;
      if c.tasks[0].WriteTask? {
        PushWork(c.w.w, c.tasks[0].frame, UP + 2);
      }
    case Receive(chunk) =>
      ReceiveWork(c.r.r, chunk, DOWN);
      hide WriterWork, ReaderWork, TasksWork;
    case Received =>
      CompleteWork(c.r, DOWN);
      hide WriterWork, ReaderWork, TasksWork;
    case ReceiveFails =>
    case Send(n) =>
      SendWork(c.w.w, n, UP + 2);
      hide WriterWork, ReaderWork, TasksWork;
    case Sent =>
      SentWork(c.w.w, UP + 2);
      hide WriterWork, ReaderWork, TasksWork;
    case SendFails =>
      SendFailsWork(c.w.w, UP + 2);
      hide WriterWork, ReaderWork, TasksWork;
  }

  lemma DeliverWork(c: SM.Conn, b: Body)
    requires c.w.w.Valid()
    ensures ConnWork(SM.Deliver(c, b)) <= ConnWork(c) + PUSH_DOWN
    ensures SM.Deliver(c, b).r == c.r && SM.Deliver(c, b).accepted == c.accepted
  {
    FrameSize(b);
    PushWork(c.w.w, FrameOf(b), DOWN + 2);
    hide WriterWork, ReaderWork, FrameOf;
  }

  lemma HandleBodyWork(env: Env, s: SM.State, i: nat)
    requires i < |s.conns| && SM.Ready(s.conns[i]) && SM.HandsOver(s.conns[i])
    ensures ConnWork(SM.HandleBody(env, s, i).conns[i]) < ConnWork(s.conns[i])
  {
    var c := s.conns[i];
    CompleteWork(c.r, UP);
    var mid := c.(r := c.r.Step(RL.Complete));
    assert ConnWork(mid) <= ConnWork(c) - 2 * UP by {
      hide WriterWork, ReaderWork;
    }
    var rsp := Handle(env, s.core, Entry(i, env.parse(c.r.r.msg.Text()))).1;
    if rsp.Some? {
      DeliverWork(mid, env.render(rsp.value));
    }
    hide ConnWork, Handle, SM.Deliver;
  }

  lemma AcceptWork(env: Env, c: SM.Conn)
    requires SM.Ready(c) && !c.accepted && c.r.r.op.NotStarted?
    ensures ConnWork(SM.Accepted(env, c)) < ConnWork(c)
  {
    DeliverWork(c, SM.Connected(env));
    hide WriterWork, SM.Deliver;
  }

  /** A server step on connection i, with the stream bytes it takes and sends. */
  lemma ServerStepWork(env: Env, s: SM.State, l: SM.Label)
    requires SM.Enabled(s, l) && !l.Knock? && !l.AcceptError?
    requires l.Accept? ==> s.conns[l.i].r.r.op.NotStarted?
    ensures var c' := SM.Step(env, s, l).conns[l.i];
            ConnWork(c') + (if l.Send? then (DOWN + 1) * l.count else 0)
            < ConnWork(s.conns[l.i]) + (if l.Receive? then (UP + 1) * |l.chunk| else 0)
  {
    var c := s.conns[l.i];
    hide Unsent, DecodeHeader, FrameOf, Handle;
    match l
    case Accept(i) => AcceptWork(env, c); hide ConnWork, SM.Accepted;
    case Receive(i, chunk) => ReceiveWork(c.r.r, chunk, UP); hide WriterWork, ReaderWork;
    case Received(i) =>
      if SM.HandsOver(c) {
        HandleBodyWork(env, s, i);
        hide ConnWork, SM.HandleBody;
      } else {
        CompleteWork(c.r, UP);
        hide WriterWork, ReaderWork;
      }
    case ReceiveFails(i) =>
    case Send(i, n) => SendWork(c.w.w, n, DOWN + 2); hide WriterWork, ReaderWork;
    case Sent(i) => SentWork(c.w.w, DOWN + 2); hide WriterWork, ReaderWork;
    case SendFails(i) => SendFailsWork(c.w.w, DOWN + 2); hide WriterWork, ReaderWork;
  }

  // ---------- Whole systems ----------

  /** A server step moves one connection and its streams only. */
  lemma ServerStepTouches(env: Env, s: State, l: SM.Label, j: nat)
    requires |s.links| == |s.server.conns| && Enabled(s, Server(l)) && j < |s.links|
    requires j != l.i
    ensures var s' := Step(env, s, Server(l));
            && |s'.links| == |s.links| == |s'.server.conns|
            && s'.links[j] == s.links[j] && s'.server.conns[j] == s.server.conns[j]
  {
    hide Handle, FrameOf, DecodeHeader;
  }

  lemma WorksMove(s: State, s': State, i: nat)
    requires |s.links| == |s.server.conns| == |s'.links| == |s'.server.conns| && i < |s.links|
    requires forall j :: 0 <= j < |s.links| && j != i ==>
               s'.links[j] == s.links[j] && s'.server.conns[j] == s.server.conns[j]
    ensures Work(s') == Work(s) - LinkWork(s.links[i], s.server.conns[i])
                        + LinkWork(s'.links[i], s'.server.conns[i])
  {
    hide LinkWork;
    assert Works(s') == Works(s)[i := LinkWork(s'.links[i], s'.server.conns[i])];
    SumUpdate(Works(s), i, LinkWork(s'.links[i], s'.server.conns[i]));
  }

  lemma NewClientWork(env: Env, s: State, cj: Msg, sj: Msg)
    requires |s.links| == |s.server.conns| && cj.Valid() && sj.Valid()
    ensures var s' := Step(env, s, NewClient(cj, sj));
            |s'.links| == |s'.server.conns| && Work(s') <= Work(s) + WRITE_WORK
  {
    var s' := Step(env, s, NewClient(cj, sj));
    var k := Link(CM.New(cj), [], []);
    var c := SM.Waiting(sj);
    assert Concat([]) == [];
    assert LinkWork(k, c) <= WRITE_WORK by {
      hide Concat;
    }
    hide LinkWork;
    assert Works(s')[..|s.links|] == Works(s);
  }

  /** Replacing a connection object that waits brings no work. */
  lemma AcceptErrorWork(env: Env, c0: Core, s: State, i: nat, junk: Msg)
    requires Inv(env, c0, s) && Enabled(s, Server(SM.AcceptError(i, junk)))
    ensures var s' := Step(env, s, Server(SM.AcceptError(i, junk)));
            |s'.links| == |s'.server.conns| && Work(s') == Work(s)
  {
    var s' := Step(env, s, Server(SM.AcceptError(i, junk)));
    var c := s.server.conns[i];
    SM.WaitingIsEmpty(env, Abs(c0.rows), s.server.log, i, c);
    assert LinkWork(s.links[i], s'.server.conns[i]) == LinkWork(s.links[i], c);
    hide Inv, LinkWork, SM.Waiting;
    WorksMove(s, s', i);
  }

  lemma ServerStepLowers(env: Env, c0: Core, s: State, l: SM.Label)
    requires Inv(env, c0, s) && Enabled(s, Server(l)) && !l.AcceptError?
    ensures var s' := Step(env, s, Server(l));
            |s'.links| == |s'.server.conns| && Work(s') < Work(s)
  {
    var s' := Step(env, s, Server(l));
    var i := l.i;
    assert SM.ConnInv(env, Abs(c0.rows), s.server.log, i, s.server.conns[i]);
    ServerStepWork(env, s.server, l);
    ServerStepKeepsCount(env, s.server, l);
    forall j | 0 <= j < |s.links| && j != i
      ensures s'.links[j] == s.links[j] && s'.server.conns[j] == s.server.conns[j]
    {
      ServerStepTouches(env, s, l, j);
    }
    hide Inv, ConnWork, ClientWork, SM.ConnInv;
    WorksMove(s, s', i);
    hide Work, SM.Enabled, SM.Step;
  }

  lemma ClientStepLowers(env: Env, c0: Core, s: State, i: nat, l: CM.Label)
    requires Inv(env, c0, s) && Enabled(s, Client(i, l))
    ensures var s' := Step(env, s, Client(i, l));
            && |s'.links| == |s'.server.conns|
            && (if Internal(Client(i, l)) then Work(s') < Work(s) else Work(s') <= Work(s) + WRITE_WORK)
  {
    hide LinkInv, SM.Inv, ConnWork, ClientWork, CM.Enabled, CM.Step, Work;
    var s' := Step(env, s, Client(i, l));
    if Internal(Client(i, l)) {
      ClientStepWork(s.links[i], l);
    } else {
      UserWork(s.links[i], l);
    }
    WorksMove(s, s', i);
  }

  /** Every internal step, a failing one included, lowers the work; every user action
      raises it by a bounded amount. */
  lemma StepWork(env: Env, c0: Core, s: State, l: Label)
    requires Inv(env, c0, s) && Enabled(s, l)
    ensures var s' := Step(env, s, l);
            && |s'.links| == |s'.server.conns|
            && (if Internal(l) then Work(s') < Work(s) else Work(s') <= Work(s) + WRITE_WORK)
  {
    match l
    case NewClient(cj, sj) => NewClientWork(env, s, cj, sj);
    case Client(i, c) => ClientStepLowers(env, c0, s, i, c);
    case Server(c) =>
      if c.AcceptError? {
        AcceptErrorWork(env, c0, s, c.i, c.junk);
      } else {
        ServerStepLowers(env, c0, s, c);
      }
  }

  lemma LinkWorkNonNegative(k: Link, c: SM.Conn)
    requires LinkInv(k, c) && c.w.w.Valid()
    ensures LinkWork(k, c) >= 0
  {
    WriterWorkNonNegative(k.client.w.w, UP + 2);
    WriterWorkNonNegative(c.w.w, DOWN + 2);
    hide WriterWork, TasksWork;
  }

  lemma WorkNonNegative(env: Env, c0: Core, s: State)
    requires Inv(env, c0, s)
    ensures Work(s) >= 0
  {
    forall i | 0 <= i < |s.links| ensures LinkWork(s.links[i], s.server.conns[i]) >= 0 {
      assert SM.ConnInv(env, Abs(c0.rows), s.server.log, i, s.server.conns[i]);
      LinkWorkNonNegative(s.links[i], s.server.conns[i]);
    }
    hide LinkWork, Inv;
    SumNonNegative(Works(s));
  }

  function Count(ls: seq<Label>, internal: bool): nat {
    if ls == [] then 0
    else (if Internal(ls[0]) == internal then 1 else 0) + Count(ls[1..], internal)
  }

  /** The induction step, on numbers. */
  lemma Budget(perUser: int, internal: bool, n: int, m: int, w0: int, w1: int, w2: int)
    requires n + w2 <= w1 + perUser * m
    requires if internal then w1 < w0 else w1 <= w0 + perUser
    ensures (if internal then n + 1 else n) + w2 <= w0 + perUser * (if internal then m else m + 1)
  {
  }

  lemma SameCount(env: Env, c0: Core, s: State)
    requires Inv(env, c0, s)
    ensures |s.links| == |s.server.conns|
  {
    hide LinkInv, SM.Inv;
  }

  lemma {:induction false} RunWork(env: Env, c0: Core, s: State, ls: seq<Label>, s': State)
    requires WellFormed(c0.rows) && Inv(env, c0, s) && Runs(env, s, ls, s')
    ensures |s.links| == |s.server.conns| && |s'.links| == |s'.server.conns|
    ensures Count(ls, true) + Work(s') <= Work(s) + WRITE_WORK * Count(ls, false)
    decreases |ls|
  {
    hide Inv, Enabled, Step, Work, Internal, WellFormed;
    SameCount(env, c0, s);
    if ls != [] {
      var t := Step(env, s, ls[0]);
      StepKeepsInv(env, c0, s, ls[0]);
      StepWork(env, c0, s, ls[0]);
      RunWork(env, c0, t, ls[1..], s');
      Budget(WRITE_WORK, Internal(ls[0]), Count(ls[1..], true), Count(ls[1..], false), Work(s), Work(t), Work(s'));
    }
  }

  /** Termination. Whatever fails, a run has at most a fixed number of internal steps per
      user action: with finitely many user actions every run is finite. */
  lemma RunsTerminate(env: Env, c0: Core, ls: seq<Label>, s: State)
    requires WellFormed(c0.rows) && Runs(env, Init(c0), ls, s)
    ensures Count(ls, true) <= WRITE_WORK * Count(ls, false)
  {
    Reachable(env, c0, [], Init(c0));
    RunWork(env, c0, Init(c0), ls, s);
    Reachable(env, c0, ls, s);
    WorkNonNegative(env, c0, s);
  }

  // ---------- Quiescence ----------

  predicate ClientHealthy(c: CM.Client) {
    && c.open && !c.phase.Refused?
    && !c.r.r.op.Failed? && !c.w.w.op.Failed?
    && forall t :: t in c.tasks ==> t.WriteTask?
  }

  predicate ConnHealthy(c: SM.Conn) {
    !c.r.r.op.Failed? && !c.w.w.op.Failed?
  }

  /** No failure so far, and no client has closed its socket or asked to. */
  ghost predicate Healthy(s: State) {
    && |s.links| == |s.server.conns|
    && forall i :: 0 <= i < |s.links| ==> ClientHealthy(s.links[i].client) && ConnHealthy(s.server.conns[i])
  }

  /** Neither a failed connect, read or write nor a close. An accept may fail. */
  predicate ErrorFree(l: Label) {
    match l
    case NewClient(_, _) => true
    case Client(_, c) => !c.ReceiveFails? && !c.SendFails? && !c.Close? && c != CM.Connect(false)
    case Server(c) => !c.ReceiveFails? && !c.SendFails?
  }

  ghost predicate ErrorFreeRun(ls: seq<Label>) {
    forall l :: l in ls ==> ErrorFree(l)
  }

  predicate Useful(l: Label) {
    Internal(l) && ErrorFree(l)
  }

  ghost predicate Stuck(s: State) {
    forall l :: Useful(l) ==> !Enabled(s, l)
  }

  /** An active writer can send or complete. */
  lemma WriterMoves(w: WQ.Tracked)
    requires w.w.Valid() && w.w.op.Active?
    ensures w.Enabled(WQ.Complete) || w.Enabled(WQ.Send(|w.w.queue[0]| - w.w.op.sent))
  {
  }

  /** A started reader can complete, or take the next pending byte. */
  lemma ReaderMoves(r: RL.Tracked, pending: Bytes)
    requires r.r.Valid() && r.r.Outstanding() && (pending != [] || r.r.Due())
    ensures r.Enabled(RL.Complete) || (pending != [] && r.Enabled(RL.Arrive(pending[..1])))
  {
  }

  /** Both ends are idle and nothing is on its way. */
  ghost predicate LinkAtRest(k: Link, c: SM.Conn) {
    && k.client.phase.Online? && k.client.tasks == [] && c.accepted
    && k.client.w.w == WQ.EMPTY && c.w.w == WQ.EMPTY
    && k.up == [] && k.down == []
    && k.client.r.r.Outstanding() && !k.client.r.r.Due()
    && c.r.r.Outstanding() && !c.r.r.Due()
  }

  /** What a healthy link's invariant says about the operations outstanding on it. */
  ghost predicate LinkReady(k: Link, c: SM.Conn) {
    && SM.Ready(c) && k.client.r.r.Valid() && k.client.w.w.Valid()
    && (c.accepted ==> c.r.r.Outstanding())
    && (k.client.phase.Online? ==> k.client.r.r.Outstanding())
    && (k.client.tasks != [] && k.client.tasks[0].WriteTask? ==> k.client.tasks[0].frame != [])
    && k.client.open && !k.client.phase.Refused? && !k.client.w.w.op.Failed? && !c.w.w.op.Failed?
  }

  lemma HealthyIsReady(env: Env, c0: Core, s: State, i: nat)
    requires Inv(env, c0, s) && Healthy(s) && i < |s.links|
    ensures LinkReady(s.links[i], s.server.conns[i])
  {
    var k := s.links[i];
    var c := s.server.conns[i];
    assert SM.ConnInv(env, Abs(c0.rows), s.server.log, i, c);
    LinkDelivers(env, Abs(c0.rows), s.server.log, i, k, c);
    TaskFramesNonEmpty(k.client);
    hide SM.HandledOn, SM.Replies, Frames, ParseFrames, DecodeHeader, Concat, Abs, After;
  }

  /** A connection that is not at rest has a useful step. */
  lemma ServerMoves(s: State, i: nat) returns (l: SM.Label)
    requires i < |s.links| == |s.server.conns| && LinkReady(s.links[i], s.server.conns[i])
    requires var c := s.server.conns[i];
             !(c.accepted && c.w.w.op.Idle? && s.links[i].up == [] && !c.r.r.Due())
    ensures Useful(Server(l)) && Enabled(s, Server(l))
  {
    hide DecodeHeader, CM.Enabled;
    var c := s.server.conns[i];
    var up := s.links[i].up;
    if !c.accepted {
      l := SM.Accept(i);
    } else if c.w.w.op.Active? {
      WriterMoves(c.w);
      l := if c.w.w.Due() then SM.Sent(i) else SM.Send(i, |c.w.w.queue[0]| - c.w.w.op.sent);
    } else {
      ReaderMoves(c.r, up);
      l := if c.r.r.Due() then SM.Received(i) else SM.Receive(i, up[..1]);
    }
  }

  /** A client that is not at rest has a useful step. */
  lemma ClientMovesOn(s: State, i: nat) returns (l: CM.Label)
    requires i < |s.links| == |s.server.conns| && LinkReady(s.links[i], s.server.conns[i])
    requires var c := s.links[i].client;
             !(c.phase.Online? && c.tasks == [] && c.w.w.op.Idle? && s.links[i].down == [] && !c.r.r.Due())
    ensures Useful(Client(i, l)) && Enabled(s, Client(i, l))
  {
    hide DecodeHeader, SM.Enabled;
    var c := s.links[i].client;
    var down := s.links[i].down;
    if c.phase.Connecting? {
      l := CM.Connect(true);
    } else if c.tasks != [] {
      l := CM.RunTask;
    } else if c.w.w.op.Active? {
      WriterMoves(c.w);
      l := if c.w.w.Due() then CM.Sent else CM.Send(|c.w.w.queue[0]| - c.w.w.op.sent);
    } else {
      ReaderMoves(c.r, down);
      l := if c.r.r.Due() then CM.Received else CM.Receive(down[..1]);
    }
  }

  /** A posted write holds the frame of a message, so it is never empty. */
  lemma TaskFramesNonEmpty(c: CM.Client)
    requires CM.Inv(c)
    ensures c.tasks != [] && c.tasks[0].WriteTask? ==> c.tasks[0].frame != []
  {
    if c.tasks != [] && c.tasks[0].WriteTask? {
      var n := |c.w.pushed|;
      assert Frames(c.written)[n] == c.tasks[0].frame;
    }
  }

  /** Progress: a healthy link that is not at rest has a useful step enabled. */
  lemma StuckIsAtRest(env: Env, c0: Core, s: State, i: nat)
    requires Inv(env, c0, s) && Healthy(s) && Stuck(s) && i < |s.links|
    ensures LinkAtRest(s.links[i], s.server.conns[i])
  {
    HealthyIsReady(env, c0, s, i);
    hide Inv, Enabled, Useful, SM.Ready;
    var k := s.links[i];
    var c := s.server.conns[i];
    if !(c.accepted && c.w.w.op.Idle? && k.up == [] && !c.r.r.Due()) {
      var l := ServerMoves(s, i);
    }
    if !(k.client.phase.Online? && k.client.tasks == [] && k.client.w.w.op.Idle? && k.down == []
         && !k.client.r.r.Due()) {
      var l := ClientMovesOn(s, i);
    }
  }

  /** At rest every pushed frame has arrived, in both directions. */
  lemma RestMeansAnswered(env: Env, d: Directory, log: seq<SM.Handled>, i: nat, k: Link, c: SM.Conn)
    requires LinkInv(k, c) && SM.ConnInv(env, d, log, i, c) && LinkAtRest(k, c)
    ensures SM.HandledOn(log, i) == k.client.written
    ensures k.client.taken + k.client.inbox == SM.Deliveries(env, d, log, i)
  {
    hide ParseFrames, DecodeHeader, Concat, SM.HandledOn, SM.Replies;
    PushedIsWritten(k.client);
    assert |k.client.w.pushed| == |k.client.written|;
    assert k.client.written[..|k.client.w.pushed|] == k.client.written;
    StreamDrained(k.client.w, c.r, k.client.written);
    StreamDrained(c.w, k.client.r, SM.Deliveries(env, d, log, i));
  }

  lemma QuietIsAnswered(env: Env, c0: Core, s: State, i: nat)
    requires Inv(env, c0, s) && Healthy(s) && Stuck(s) && i < |s.links|
    ensures LinkAtRest(s.links[i], s.server.conns[i])
    ensures SM.HandledOn(s.server.log, i) == s.links[i].client.written
    ensures s.links[i].client.taken + s.links[i].client.inbox
            == SM.Deliveries(env, Abs(c0.rows), s.server.log, i)
  {
    StuckIsAtRest(env, c0, s, i);
    assert SM.ConnInv(env, Abs(c0.rows), s.server.log, i, s.server.conns[i]);
    hide SM.ConnInv, LinkInv, Stuck, Healthy, LinkAtRest;
    RestMeansAnswered(env, Abs(c0.rows), s.server.log, i, s.links[i], s.server.conns[i]);
  }

  // ---------- Error-free runs ----------

  lemma ClientStaysHealthy(c: CM.Client, i: nat, l: CM.Label)
    requires CM.Enabled(c, l) && ErrorFree(Client(i, l)) && ClientHealthy(c)
    requires !CM.Step(c, l).r.r.op.Rejected?
    ensures ClientHealthy(CM.Step(c, l)) && (!l.Write? ==> CM.Step(c, l).written == c.written)
  {
    hide FrameOf, DecodeHeader;
  }

  lemma ConnStaysHealthy(env: Env, s: SM.State, l: SM.Label, j: nat)
    requires SM.Enabled(s, l) && ErrorFree(Server(l)) && !l.Knock? && j < |s.conns| && ConnHealthy(s.conns[j])
    requires l.Accept? ==> s.conns[l.i].r.r.op.NotStarted?
    ensures j < |SM.Step(env, s, l).conns| && ConnHealthy(SM.Step(env, s, l).conns[j])
  {
    hide FrameOf, DecodeHeader, Handle;
  }

  lemma LinkClientsKept(env: Env, s: State, l: SM.Label)
    requires Enabled(s, Server(l))
    ensures var s' := Step(env, s, Server(l));
            |s'.links| == |s.links| && forall i :: 0 <= i < |s.links| ==> s'.links[i].client == s.links[i].client
  {
    hide SM.Enabled, SM.Step;
  }

  lemma ClientStepStaysHealthy(env: Env, c0: Core, s: State, i: nat, l: CM.Label)
    requires WellFormed(c0.rows) && Inv(env, c0, s) && Healthy(s)
    requires Enabled(s, Client(i, l)) && ErrorFree(Client(i, l))
    ensures var k := Step(env, s, Client(i, l)).links[i].client;
            ClientHealthy(k) && (!l.Write? ==> k.written == s.links[i].client.written)
  {
    hide CM.Step, CM.Enabled, SM.Inv, LinkInv, ClientHealthy, ConnHealthy;
    var s' := Step(env, s, Client(i, l));
    StepKeepsInv(env, c0, s, Client(i, l));
    NotRejected(env, c0, s', i);
    ClientStaysHealthy(s.links[i].client, i, l);
  }

  lemma NotRejected(env: Env, c0: Core, s: State, i: nat)
    requires Inv(env, c0, s) && i < |s.links|
    ensures !s.links[i].client.r.r.op.Rejected?
  {
    assert SM.ConnInv(env, Abs(c0.rows), s.server.log, i, s.server.conns[i]);
    LinkDelivers(env, Abs(c0.rows), s.server.log, i, s.links[i], s.server.conns[i]);
  }

  lemma ServerStepStaysHealthy(env: Env, c0: Core, s: State, l: SM.Label)
    requires Inv(env, c0, s) && Healthy(s) && Enabled(s, Server(l)) && ErrorFree(Server(l))
    ensures var s' := Step(env, s, Server(l));
            && |s'.links| == |s.links| == |s'.server.conns|
            && forall i :: 0 <= i < |s.links| ==>
                 s'.links[i].client == s.links[i].client && ConnHealthy(s'.server.conns[i])
  {
    hide SM.Step, SM.Enabled, SM.Inv, LinkInv, ConnHealthy;
    var s' := Step(env, s, Server(l));
    LinkClientsKept(env, s, l);
    ServerStepKeepsCount(env, s.server, l);
    if l.Accept? {
      AcceptIsWaiting(env, c0, s, l.i);
    }
    forall j | 0 <= j < |s'.links| ensures ConnHealthy(s'.server.conns[j]) {
      ConnStaysHealthy(env, s.server, l, j);
    }
  }

  lemma AcceptIsWaiting(env: Env, c0: Core, s: State, i: nat)
    requires Inv(env, c0, s) && Enabled(s, Server(SM.Accept(i)))
    ensures i < |s.server.conns| && s.server.conns[i].r.r.op.NotStarted?
  {
    SM.WaitingIsIdle(env, Abs(c0.rows), s.server.log, i, s.server.conns[i]);
  }

  /** Error-free steps break nothing, and useful ones write nothing on a user's behalf. */
  lemma StaysHealthy(env: Env, c0: Core, s: State, l: Label)
    requires WellFormed(c0.rows) && Inv(env, c0, s) && Healthy(s) && Enabled(s, l) && ErrorFree(l)
    ensures var s' := Step(env, s, l);
            && Healthy(s')
            && (Useful(l) ==>
                  && |s'.links| == |s.links|
                  && forall i :: 0 <= i < |s.links| ==> s'.links[i].client.written == s.links[i].client.written)
  {
    hide Inv, SM.Step, SM.Enabled, CM.Enabled, ClientStep, ClientHealthy, ConnHealthy;
    match l
    case NewClient(cj, sj) => NewClientStaysHealthy(env, s, cj, sj);
    case Client(i, c) => ClientStepStaysHealthy(env, c0, s, i, c);
    case Server(c) => ServerStepStaysHealthy(env, c0, s, c);
  }

  lemma NewClientStaysHealthy(env: Env, s: State, cj: Msg, sj: Msg)
    requires Healthy(s) && Enabled(s, NewClient(cj, sj))
    ensures Healthy(Step(env, s, NewClient(cj, sj)))
  {
  }

  /** A run without failures and closes leaves every link healthy. */
  lemma {:induction false} RunStaysHealthy(env: Env, c0: Core, s: State, ls: seq<Label>, s': State)
    requires WellFormed(c0.rows) && Inv(env, c0, s) && Healthy(s)
    requires Runs(env, s, ls, s') && ErrorFreeRun(ls)
    ensures Healthy(s')
    decreases |ls|
  {
    hide Inv, Healthy, ErrorFree, Enabled, Step, WellFormed;
    if ls != [] {
      assert ls[0] in ls;
      StepKeepsInv(env, c0, s, ls[0]);
      StaysHealthy(env, c0, s, ls[0]);
      RunStaysHealthy(env, c0, Step(env, s, ls[0]), ls[1..], s');
    }
  }

  lemma ErrorFreeIsHealthy(env: Env, c0: Core, ls: seq<Label>, s: State)
    requires WellFormed(c0.rows) && Runs(env, Init(c0), ls, s) && ErrorFreeRun(ls)
    ensures Inv(env, c0, s) && Healthy(s)
  {
    Reachable(env, c0, [], Init(c0));
    RunStaysHealthy(env, c0, Init(c0), ls, s);
    Reachable(env, c0, ls, s);
  }

  /** Quiescence. After a run without failures and closes, when no useful step is left:
      every client is connected and accepted, all queues and streams are empty, every
      message written was handled, and every client has received the connect response and
      exactly one answer for each of its recognised requests, those of the sequential
      directory. */
  lemma QuietMeansAnswered(env: Env, c0: Core, ls: seq<Label>, s: State, i: nat)
    requires WellFormed(c0.rows) && Runs(env, Init(c0), ls, s)
    requires ErrorFreeRun(ls) && Stuck(s) && i < |s.links|
    ensures |s.links| == |s.server.conns| && LinkAtRest(s.links[i], s.server.conns[i])
    ensures SM.HandledOn(s.server.log, i) == s.links[i].client.written
    ensures s.links[i].client.taken + s.links[i].client.inbox
            == SM.Deliveries(env, Abs(c0.rows), s.server.log, i)
    ensures SM.AnswersInOrder(env, SM.Replies(env, Abs(c0.rows), s.server.log, i),
                              SM.Recognised(env, s.links[i].client.written))
  {
    ErrorFreeIsHealthy(env, c0, ls, s);
    QuietIsAnswered(env, c0, s, i);
    SM.PipelinedReplies(env, Abs(c0.rows), s.server.log, i);
  }

  // ---------- Quiescence is always within reach ----------

  /** From every healthy state, useful steps alone lead to one where none is left: the
      work they have to do runs out. */
  lemma {:induction false} ReachesQuiet(env: Env, c0: Core, s: State) returns (ls: seq<Label>, s': State)
    requires WellFormed(c0.rows) && Inv(env, c0, s) && Healthy(s)
    ensures Runs(env, s, ls, s') && Inv(env, c0, s') && Healthy(s') && Stuck(s')
    ensures forall l :: l in ls ==> Useful(l)
    ensures |s'.links| == |s.links|
    ensures forall i :: 0 <= i < |s.links| ==> s'.links[i].client.written == s.links[i].client.written
    decreases if |s.links| == |s.server.conns| then Work(s) else 0
  {
    hide Inv, Healthy, Useful, Enabled, Step, Work;
    if Stuck(s) {
      ls, s' := [], s;
    } else {
      SameCount(env, c0, s);
      var l :| Useful(l) && Enabled(s, l);
      UsefulMeans(l);
      var t := Step(env, s, l);
      StepKeepsInv(env, c0, s, l);
      StaysHealthy(env, c0, s, l);
      StepWork(env, c0, s, l);
      WorkNonNegative(env, c0, s);
      var rest;
      rest, s' := ReachesQuiet(env, c0, t);
      ls := [l] + rest;
      assert ls[1..] == rest;
    }
  }

  lemma UsefulMeans(l: Label)
    requires Useful(l)
    ensures Internal(l) && ErrorFree(l)
  {
  }

  /** So everything written can still be answered: every error-free run can go on with
      useful steps only, after which every client has received the connect response
      and the answer to each recognised request it has written so far. */
  lemma EverythingGetsAnswered(env: Env, c0: Core, ls: seq<Label>, s: State)
    returns (more: seq<Label>, s': State)
    requires WellFormed(c0.rows) && Runs(env, Init(c0), ls, s) && ErrorFreeRun(ls)
    ensures Runs(env, s, more, s') && (forall l :: l in more ==> Useful(l))
    ensures |s'.links| == |s.links| == |s'.server.conns|
    ensures forall i :: 0 <= i < |s.links| ==>
              && LinkAtRest(s'.links[i], s'.server.conns[i])
              && SM.HandledOn(s'.server.log, i) == s.links[i].client.written
              && s'.links[i].client.taken + s'.links[i].client.inbox
                 == SM.Deliveries(env, Abs(c0.rows), s'.server.log, i)
  {
    ErrorFreeIsHealthy(env, c0, ls, s);
    more, s' := ReachesQuiet(env, c0, s);
    SameCount(env, c0, s');
    forall i | 0 <= i < |s'.links|
      ensures LinkAtRest(s'.links[i], s'.server.conns[i])
      ensures SM.HandledOn(s'.server.log, i) == s'.links[i].client.written
      ensures s'.links[i].client.taken + s'.links[i].client.inbox
              == SM.Deliveries(env, Abs(c0.rows), s'.server.log, i)
    {
      QuietIsAnswered(env, c0, s', i);
    }
    hide Inv, Healthy, Useful, Stuck, LinkAtRest, Runs;
  }
}
