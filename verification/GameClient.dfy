/** The client object. Its methods called by the user only post tasks or read the receive
    queue; the rest run on the I/O thread, one at a time. `readOp` and `writeOp` are the
    operations Asio has outstanding for the socket. */
module GameClient {
  import opened Options
  import opened Framing
  import opened Messages
  import RL = ReadLoop
  import WQ = WriteQueue
  import CM = ClientMachine

  /** A posted task; a write holds a copy of the message. */
  datatype Task = WriteTask(msg: Msg) | CloseTask

  ghost function Texts(msgs: seq<Msg>): (bs: seq<Body>)
    requires AllValid(msgs)
    ensures |bs| == |msgs|
  {
    seq(|msgs|, i requires 0 <= i < |msgs| => msgs[i].Text())
  }

  ghost predicate TasksValid(tasks: seq<Task>) {
    forall i :: 0 <= i < |tasks| ==> tasks[i].WriteTask? ==> tasks[i].msg.Valid()
  }

  ghost function TaskView(t: Task): CM.Task
    requires t.WriteTask? ==> t.msg.Valid()
  {
    if t.WriteTask? then CM.WriteTask(t.msg.Frame()) else CM.CloseTask
  }

  ghost function TasksView(tasks: seq<Task>): (ts: seq<CM.Task>)
    requires TasksValid(tasks)
    ensures |ts| == |tasks|
  {
    seq(|tasks|, i requires 0 <= i < |tasks| => TaskView(tasks[i]))
  }

  class Client {
    const readMsg: Message
    var writeMsgs: seq<Msg>
    var readMessages: seq<Msg>
    var tasks: seq<Task>
    var open: bool
    var readOp: RL.ReadOp
    var writeOp: WQ.WriteOp
    /** The state of the client machine that this object is in. */
    ghost var model: CM.Client

    ghost predicate ReadValid()
      reads this, readMsg, readMsg.data
    {
      readMsg.Valid() && model.r.r == RL.Reader(readMsg.Value(), readOp) && model.r.r.Valid()
    }

    ghost predicate WriteValid()
      reads this
    {
      && AllValid(writeMsgs)
      && model.w.w == WQ.Writer(QueueFrames(writeMsgs), writeOp) && model.w.w.Valid()
    }

    ghost predicate Valid()
      reads this, readMsg, readMsg.data
    {
      && ReadValid() && WriteValid()
      && AllValid(readMessages) && model.inbox == Texts(readMessages)
      && TasksValid(tasks) && model.tasks == TasksView(tasks)
      && model.open == open
    }

    constructor ()
      ensures Valid() && fresh(readMsg) && fresh(readMsg.data)
      ensures model == CM.New(readMsg.Value())
    {
      readMsg := new Message();
      writeMsgs, readMessages, tasks, open := [], [], [], true;
      readOp, writeOp := RL.NotStarted, WQ.Idle;
      new;
      model := CM.New(readMsg.Value());
    }

    // ---------- Called by the user ----------

    /** Posts a copy of the message; nothing is sent yet. */
    method Write(msg: Message, ghost body: Body)
      requires Valid() && msg.Valid() && msg.Value().Frame() == FrameOf(body)
      requires CM.Enabled(model, CM.Write(body))
      modifies this`tasks, this`model
      ensures Valid() && tasks == old(tasks) + [WriteTask(msg.Value())]
      ensures model == CM.Step(old(model), CM.Write(body))
    {
      tasks := tasks + [WriteTask(Msg(msg.data[..], msg.bodyLength))];
      model := CM.Step(model, CM.Write(body));
      assert TasksView(tasks) == TasksView(old(tasks)) + [CM.WriteTask(FrameOf(body))];
    }

    method Close()
      requires Valid()
      modifies this`tasks, this`model
      ensures Valid() && tasks == old(tasks) + [CloseTask]
      ensures model == CM.Step(old(model), CM.Close)
    {
      tasks := tasks + [CloseTask];
      model := CM.Step(model, CM.Close);
      assert TasksView(tasks) == TasksView(old(tasks)) + [CM.CloseTask];
    }

    method ReadAvail() returns (n: nat)
      requires Valid()
      ensures n == |model.inbox|
    {
      n := |readMessages|;
    }

    /** The oldest received message, if there is one; `read_wait` with a time limit ends
        in one of these two ways as well. */
    method ReadIfAvail() returns (msg: Option<Msg>)
      requires Valid()
      modifies this`readMessages, this`model
      ensures Valid()
      ensures old(model.inbox) == [] ==> msg == None && model == old(model)
      ensures old(model.inbox) != [] ==>
                && model == CM.Step(old(model), CM.Take)
                && msg.Some? && msg.value.Valid() && msg.value.Text() == old(model.inbox)[0]
    {
      if readMessages == [] {
        return None;
      }
      msg := Some(readMessages[0]);
      assert Texts(readMessages[1..]) == Texts(readMessages)[1..];
      readMessages := readMessages[1..];
      model := CM.Step(model, CM.Take);
    }

    /** Returns only once a message is there. */
    method ReadWait() returns (msg: Msg)
      requires Valid() && model.inbox != []
      modifies this`readMessages, this`model
      ensures Valid() && model == CM.Step(old(model), CM.Take)
      ensures msg.Valid() && msg.Text() == old(model.inbox)[0]
    {
      var m := ReadIfAvail();
      msg := m.value;
    }

    // ---------- Run on the I/O thread ----------

    method OnConnected(ok: bool)
      requires Valid() && CM.Enabled(model, CM.Connect(ok)) && (ok ==> !model.r.r.Outstanding())
      modifies this`readOp, this`model
      ensures Valid() && model == CM.Step(old(model), CM.Connect(ok))
      ensures readOp == if ok then RL.HeaderRead(0) else old(readOp)
    {
      model := CM.Step(model, CM.Connect(ok));
      if ok {
        DoReadHeader();
      }
    }

    /** Runs the oldest posted task. */
    method RunTask()
      requires Valid() && CM.Enabled(model, CM.RunTask)
      modifies this`tasks, this`writeMsgs, this`writeOp, this`open, this`model
      ensures Valid() && model == CM.Step(old(model), CM.RunTask)
      ensures tasks == old(tasks)[1..]
      ensures match old(tasks)[0]
              case WriteTask(msg) => writeMsgs == old(writeMsgs) + [msg] && open == old(open)
              case CloseTask => writeMsgs == old(writeMsgs) && !open
    {
      var task := tasks[0];
      assert TasksView(tasks[1..]) == TasksView(tasks)[1..];
      model := CM.Step(model, CM.RunTask);
      tasks := tasks[1..];
      match task {
        case WriteTask(msg) =>
          var writeInProgress := writeMsgs != [];
          assert QueueFrames(writeMsgs + [msg]) == QueueFrames(writeMsgs) + [msg.Frame()];
          writeMsgs := writeMsgs + [msg];
          if !writeInProgress {
            DoWrite();
          }
        case CloseTask =>
          open := false;
      }
    }

    method DoReadHeader()
      requires !readOp.HeaderRead? && !readOp.BodyRead?
      modifies this`readOp
      ensures readOp == RL.HeaderRead(0)
    {
      readOp := RL.HeaderRead(0);
    }

    method DoReadBody()
      requires !readOp.HeaderRead? && !readOp.BodyRead?
      modifies this`readOp
      ensures readOp == RL.BodyRead(0)
    {
      readOp := RL.BodyRead(0);
    }

    method DoWrite()
      requires writeMsgs != [] && !writeOp.Active?
      modifies this`writeOp
      ensures writeOp == WQ.Active(0)
    {
      writeOp := WQ.Active(0);
    }

    method ReceiveSome(chunk: Bytes)
      requires Valid() && CM.Enabled(model, CM.Receive(chunk))
      modifies this`readOp, this`model, readMsg.data
      ensures Valid() && model == CM.Step(old(model), CM.Receive(chunk))
    {
      hide DecodeHeader;
      RL.ReceiveKeepsValid(model.r.r, chunk);
      match readOp {
        case HeaderRead(got) =>
          readMsg.Store(got, chunk);
          readOp := RL.HeaderRead(got + |chunk|);
        case BodyRead(got) =>
          readMsg.Store(HEADER_LENGTH + got, chunk);
          readOp := RL.BodyRead(got + |chunk|);
      }
      model := CM.Step(model, CM.Receive(chunk));
    }

    /** Completion of the header read. An error and a refused header both close. */
    method OnHeaderRead(ok: bool)
      requires Valid() && readOp.HeaderRead? && CM.Enabled(model, if ok then CM.Received else CM.ReceiveFails)
      modifies this`readOp, this`open, this`model, readMsg`bodyLength
      ensures Valid() && model == CM.Step(old(model), if ok then CM.Received else CM.ReceiveFails)
    {
      hide DecodeHeader;
      model := CM.Step(model, if ok then CM.Received else CM.ReceiveFails);
      if ok {
        readOp := RL.NotStarted;
        var decoded := readMsg.DecodeHeader();
        if decoded {
          DoReadBody();
        } else {
          readOp := RL.Rejected;
          open := false;
        }
      } else {
        readOp := RL.Failed(readOp.got);
        open := false;
      }
    }

    /** Completion of the body read: a copy of the buffer is queued before the next read
        overwrites it. */
    method OnBodyRead(ok: bool)
      requires Valid() && readOp.BodyRead? && CM.Enabled(model, if ok then CM.Received else CM.ReceiveFails)
      modifies this`readOp, this`readMessages, this`open, this`model
      ensures Valid() && model == CM.Step(old(model), if ok then CM.Received else CM.ReceiveFails)
      ensures ok ==> readMessages == old(readMessages) + [readMsg.Value()]
    {
      hide DecodeHeader;
      model := CM.Step(model, if ok then CM.Received else CM.ReceiveFails);
      if ok {
        readOp := RL.NotStarted;
        readMessages := readMessages + [Msg(readMsg.data[..], readMsg.bodyLength)];
        assert Texts(readMessages) == Texts(old(readMessages)) + [readMsg.Value().Text()];
        DoReadHeader();
      } else {
        readOp := RL.Failed(HEADER_LENGTH + readOp.got);
        open := false;
      }
    }

    method SendSome(count: nat) returns (chunk: Bytes)
      requires Valid() && CM.Enabled(model, CM.Send(count))
      modifies this`writeOp, this`model
      ensures Valid() && model == CM.Step(old(model), CM.Send(count))
      ensures chunk == WQ.Chunk(old(model.w.w), count)
    {
      var front := writeMsgs[0];
      chunk := front.data[writeOp.sent..writeOp.sent + count];
      model := CM.Step(model, CM.Send(count));
      writeOp := WQ.Active(writeOp.sent + count);
    }

    method OnWritten(ok: bool)
      requires Valid() && CM.Enabled(model, if ok then CM.Sent else CM.SendFails)
      modifies this`writeMsgs, this`writeOp, this`open, this`model
      ensures Valid() && model == CM.Step(old(model), if ok then CM.Sent else CM.SendFails)
      ensures writeMsgs == if ok then old(writeMsgs)[1..] else old(writeMsgs)
    {
      model := CM.Step(model, if ok then CM.Sent else CM.SendFails);
      if ok {
        assert QueueFrames(writeMsgs[1..]) == QueueFrames(writeMsgs)[1..];
        writeMsgs := writeMsgs[1..];
        writeOp := WQ.Idle;
        if writeMsgs != [] {
          DoWrite();
        }
      } else {
        writeOp := WQ.Failed(writeOp.sent);
        open := false;
      }
    }
  }
}
