/** The client as a state machine over the posted closures and completion handlers its one
    I/O thread runs. `write` and `close` only post; the socket is touched when what they
    posted runs. */
module ClientMachine {
  import opened Framing
  import RL = ReadLoop
  import WQ = WriteQueue

  datatype Phase = Connecting | Online | Refused

  /** A posted task: a write keeps its own copy of the message. */
  datatype Task = WriteTask(frame: Bytes) | CloseTask

  /** `inbox` is the receive queue; `written` and `taken` record what the user of the
      client has passed to `write` and has read. */
  datatype Client = Client(
    phase: Phase,
    open: bool,
    tasks: seq<Task>,
    r: RL.Tracked,
    w: WQ.Tracked,
    inbox: seq<Body>,
    written: seq<Body>,
    taken: seq<Body>)

  datatype Label =
    | Connect(ok: bool)
    | Write(body: Body)
    | Close
    | Take
    | RunTask
    | Receive(chunk: Bytes)
    | Received
    | ReceiveFails
    | Send(count: nat)
    | Sent
    | SendFails

  function New(junk: Msg): Client {
    Client(Connecting, true, [], RL.Tracked(RL.Reader(junk, RL.NotStarted), [], []), WQ.FRESH, [], [], [])
  }

  /** The user writes only once connected; a closed socket transfers nothing, and what is
      outstanding on it can only fail. */
  predicate Enabled(c: Client, l: Label) {
    && c.r.r.Valid() && c.w.w.Valid()
    && match l
       case Connect(ok) => c.phase.Connecting? && (ok ==> c.open)
       case Write(_) => c.phase.Online?
       case Close => true
       case Take => c.inbox != []
       case RunTask => c.tasks != [] && (c.tasks[0].WriteTask? ==> c.tasks[0].frame != [])
       case Receive(chunk) => c.open && c.r.Enabled(RL.Arrive(chunk))
       case Received => c.r.Enabled(RL.Complete)
       case ReceiveFails => c.r.Enabled(RL.Break)
       case Send(k) => c.open && c.w.Enabled(WQ.Send(k))
       case Sent => c.w.Enabled(WQ.Complete)
       case SendFails => c.w.Enabled(WQ.Break)
  }

  function Step(c: Client, l: Label): Client
    requires Enabled(c, l)
  {
    match l
    case Connect(ok) =>
      if ok then c.(phase := Online, r := c.r.(r := RL.StartHeader(c.r.r))) else c.(phase := Refused)
    case Write(b) => c.(tasks := c.tasks + [WriteTask(FrameOf(b))], written := c.written + [b])
    case Close => c.(tasks := c.tasks + [CloseTask])
    case Take => c.(inbox := c.inbox[1..], taken := c.taken + [c.inbox[0]])
    case RunTask =>
      var rest := c.(tasks := c.tasks[1..]);
      (match c.tasks[0]
       case WriteTask(f) => rest.(w := c.w.Step(WQ.Deliver(f)))
       case CloseTask => rest.(open := false))
    case Receive(chunk) => c.(r := c.r.Step(RL.Arrive(chunk)))
    case Received =>
      var r := c.r.Step(RL.Complete);
      if c.r.r.op.BodyRead? then c.(r := r, inbox := c.inbox + [c.r.r.msg.Text()])
      else c.(r := r, open := c.open && !r.r.op.Rejected?)
    case ReceiveFails => c.(r := c.r.Step(RL.Break), open := false)
    case Send(k) => c.(w := c.w.Step(WQ.Send(k)))
    case Sent => c.(w := c.w.Step(WQ.Complete))
    case SendFails => c.(w := c.w.Step(WQ.Break), open := false)
  }

  function TaskFrames(tasks: seq<Task>): seq<Bytes> {
    if tasks == [] then []
    else (if tasks[0].WriteTask? then [tasks[0].frame] else []) + TaskFrames(tasks[1..])
  }

  /** Everything written is queued for sending or still posted, in order; everything the
      read loop handed over was taken or waits in the inbox, in order. */
  ghost predicate Inv(c: Client) {
    && c.r.Inv() && c.w.Inv()
    && (c.phase.Online? <==> !c.r.r.op.NotStarted?)
    && (!c.phase.Online? ==> c.written == [])
    && c.w.pushed + TaskFrames(c.tasks) == Frames(c.written)
    && c.r.handed == c.taken + c.inbox
    && (c.r.r.op.Rejected? || c.r.r.op.Failed? || c.w.w.op.Failed? ==> !c.open)
  }

  lemma {:induction false} TaskFramesAppend(tasks: seq<Task>, t: Task)
    ensures TaskFrames(tasks + [t]) == TaskFrames(tasks) + (if t.WriteTask? then [t.frame] else [])
  {
    if tasks != [] {
      assert (tasks + [t])[1..] == tasks[1..] + [t];
      TaskFramesAppend(tasks[1..], t);
    }
  }

  lemma NewInv(junk: Msg)
    requires junk.Valid()
    ensures Inv(New(junk))
  {
    ParseEmpty();
  }

  lemma WriteKeepsInv(c: Client, b: Body)
    requires Inv(c) && Enabled(c, Write(b))
    ensures Inv(Step(c, Write(b)))
  {
    hide RL.Tracked.Inv, WQ.Tracked.Inv, FrameOf, DecodeHeader;
    TaskFramesAppend(c.tasks, WriteTask(FrameOf(b)));
    assert Frames(c.written + [b]) == Frames(c.written) + [FrameOf(b)];
    hide Frames, TaskFrames;
    assert c.w.pushed + (TaskFrames(c.tasks) + [FrameOf(b)]) == (c.w.pushed + TaskFrames(c.tasks)) + [FrameOf(b)];
  }

  lemma ConnectKeepsInv(c: Client, ok: bool)
    requires Inv(c) && Enabled(c, Connect(ok))
    ensures Inv(Step(c, Connect(ok)))
  {
    hide ParseFrames, DecodeHeader, WQ.Tracked.Inv, Frames, TaskFrames;
    assert c.r.consumed[..|c.r.consumed|] == c.r.consumed;
  }

  lemma UserStepKeepsInv(c: Client, l: Label)
    requires Inv(c) && Enabled(c, l) && (l.Write? || l.Close? || l.Take? || l.Connect?)
    ensures Inv(Step(c, l))
  {
    hide RL.Tracked.Inv, WQ.Tracked.Inv, Frames, TaskFrames, FrameOf, DecodeHeader;
    match l
    case Write(b) => WriteKeepsInv(c, b);
    case Close =>
      TaskFramesAppend(c.tasks, CloseTask);
      assert TaskFrames(c.tasks) + [] == TaskFrames(c.tasks);
    case Take =>
      assert c.taken + c.inbox == (c.taken + [c.inbox[0]]) + c.inbox[1..];
    case Connect(ok) => ConnectKeepsInv(c, ok);
  }

  lemma TaskFramesCons(tasks: seq<Task>)
    requires tasks != []
    ensures TaskFrames(tasks) == (if tasks[0].WriteTask? then [tasks[0].frame] else []) + TaskFrames(tasks[1..])
  {
  }

  lemma WriteTaskKeepsInv(c: Client)
    requires Inv(c) && Enabled(c, RunTask) && c.tasks[0].WriteTask?
    ensures Inv(Step(c, RunTask))
  {
    hide RL.Tracked.Inv, WQ.Tracked.Inv, Frames, TaskFrames, DecodeHeader;
    var f := c.tasks[0].frame;
    var rest := TaskFrames(c.tasks[1..]);
    WQ.DeliverKeepsInv(c.w, f);
    TaskFramesCons(c.tasks);
    assert (c.w.pushed + [f]) + rest == c.w.pushed + ([f] + rest);
  }

  lemma RunTaskKeepsInv(c: Client)
    requires Inv(c) && Enabled(c, RunTask)
    ensures Inv(Step(c, RunTask))
  {
    if c.tasks[0].WriteTask? {
      WriteTaskKeepsInv(c);
    } else {
      hide RL.Tracked.Inv, WQ.Tracked.Inv, Frames;
      assert [] + TaskFrames(c.tasks[1..]) == TaskFrames(c.tasks[1..]);
    }
  }

  lemma StepKeepsInv(c: Client, l: Label)
    requires Inv(c) && Enabled(c, l)
    ensures Inv(Step(c, l))
  {
    hide ParseFrames, DecodeHeader, Frames, Concat, TaskFrames;
    match l
    case RunTask => RunTaskKeepsInv(c);
    case Receive(chunk) => RL.StepKeepsInv(c.r, RL.Arrive(chunk));
    case Received => RL.StepKeepsInv(c.r, RL.Complete);
    case ReceiveFails => RL.StepKeepsInv(c.r, RL.Break);
    case Send(k) => WQ.StepKeepsInv(c.w, WQ.Send(k));
    case Sent => WQ.StepKeepsInv(c.w, WQ.Complete);
    case SendFails => WQ.StepKeepsInv(c.w, WQ.Break);
    case _ => UserStepKeepsInv(c, l);
  }

  // ---------- Runs ----------

  ghost predicate Runs(c: Client, ls: seq<Label>, c': Client)
    decreases |ls|
  {
    if ls == [] then c' == c
    else Enabled(c, ls[0]) && Runs(Step(c, ls[0]), ls[1..], c')
  }

  lemma {:induction false} RunKeepsInv(c: Client, ls: seq<Label>, c': Client)
    requires Inv(c) && Runs(c, ls, c')
    ensures Inv(c')
    decreases |ls|
  {
    hide Inv, Enabled, Step;
    if ls != [] {
      StepKeepsInv(c, ls[0]);
      RunKeepsInv(Step(c, ls[0]), ls[1..], c');
    }
  }

  /** A connect that fails, or has not completed, starts nothing: without a successful
      connect the client never reads, sends or receives, and its user writes nothing. */
  lemma NotConnected(junk: Msg, ls: seq<Label>, c: Client)
    requires Runs(New(junk), ls, c) && Connect(true) !in ls
    ensures !c.phase.Online? && c.r.r.op.NotStarted? && c.w.w.op.Idle?
    ensures c.r.consumed == [] && c.w.sent == [] && c.written == [] && c.taken + c.inbox == []
    ensures c.phase.Refused? <==> Connect(false) in ls
  {
    OfflineRun(New(junk), ls, c);
  }

  ghost predicate Offline(c: Client) {
    && !c.phase.Online? && c.r.r.op.NotStarted? && c.w.w == WQ.EMPTY
    && c.r.consumed == [] && c.w.sent == [] && c.written == [] && c.taken == [] && c.inbox == []
    && forall t :: t in c.tasks ==> t.CloseTask?
  }

  lemma OfflineStep(c: Client, l: Label)
    requires Offline(c) && Enabled(c, l) && l != Connect(true)
    ensures Offline(Step(c, l)) && (Step(c, l).phase.Refused? <==> c.phase.Refused? || l == Connect(false))
  {
    assert l.RunTask? ==> c.tasks[0] in c.tasks;
  }

  lemma {:induction false} OfflineRun(c: Client, ls: seq<Label>, c': Client)
    requires Offline(c) && Runs(c, ls, c') && Connect(true) !in ls
    ensures Offline(c') && (c'.phase.Refused? <==> c.phase.Refused? || Connect(false) in ls)
    decreases |ls|
  {
    hide Enabled, Step, Offline;
    if ls != [] {
      OfflineStep(c, ls[0]);
      OfflineRun(Step(c, ls[0]), ls[1..], c');
    }
  }

  lemma ClosedStep(c: Client, l: Label)
    requires !c.open && Enabled(c, l)
    ensures var c' := Step(c, l);
            !c'.open && c'.w.sent == c.w.sent && c'.r.consumed == c.r.consumed
  {
    hide FrameOf, DecodeHeader;
  }

  lemma {:induction false} ClosedRun(c: Client, ls: seq<Label>, c': Client)
    requires !c.open && Runs(c, ls, c')
    ensures !c'.open && c'.w.sent == c.w.sent && c'.r.consumed == c.r.consumed
    decreases |ls|
  {
    hide Enabled, Step;
    if ls != [] {
      ClosedStep(c, ls[0]);
      ClosedRun(Step(c, ls[0]), ls[1..], c');
    }
  }

  /** A client against an arbitrary peer: what its user has read and what waits in the
      inbox are the complete messages received, in order; a refused header or a failed
      transfer leaves the socket closed, and a closed socket moves no byte again. */
  lemma ClientAlone(junk: Msg, ls: seq<Label>, c: Client, more: seq<Label>, c': Client)
    requires junk.Valid() && Runs(New(junk), ls, c) && Runs(c, more, c')
    ensures c.taken + c.inbox <= ParseFrames(c.r.consumed).msgs
    ensures c.w.sent <= FrameAll(c.written)
    ensures c.r.r.op.Rejected? || c.r.r.op.Failed? || c.w.w.op.Failed? ==> !c.open
    ensures !c.open ==> !c'.open && c'.w.sent == c.w.sent && c'.r.consumed == c.r.consumed
  {
    NewInv(junk);
    RunKeepsInv(New(junk), ls, c);
    RL.HandedIsParsed(c.r);
    WQ.SentIsPrefix(c.w);
    ConcatAppend(c.w.pushed, TaskFrames(c.tasks));
    if !c.open {
      ClosedRun(c, more, c');
    }
  }
}
