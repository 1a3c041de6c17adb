/** The write queue that the server's connection and the client both keep: a deque of
    messages and at most one composed write, which always sends the frame at the front.
    `Push` starts the write when the deque was empty; a completed write pops the front and
    starts the next. */
module WriteQueue {
  import opened Framing

  /** The outstanding write with the bytes it has sent so far. */
  datatype WriteOp = Idle | Active(sent: nat) | Failed(sent: nat)

  /** A queued message counts by its frame; the rest of its buffer is never sent. */
  datatype Writer = Writer(queue: seq<Bytes>, op: WriteOp) {
    predicate Valid() {
      && (queue == [] <==> op.Idle?)
      && (forall i :: 0 <= i < |queue| ==> queue[i] != [])
      && (!op.Idle? ==> op.sent <= |queue[0]|)
    }

    predicate Due() {
      op.Active? && queue != [] && op.sent == |queue[0]|
    }
  }

  const EMPTY := Writer([], Idle)

  // ---------- The steps ----------

  /** `do_write_`: there must be something to write and no write outstanding. */
  function StartWrite(w: Writer): Writer
    requires w.queue != [] && !w.op.Active?
  {
    w.(op := Active(0))
  }

  function Push(w: Writer, f: Bytes): Writer
    requires w.queue == [] ==> !w.op.Active?
  {
    var w' := w.(queue := w.queue + [f]);
    if w.queue == [] then StartWrite(w') else w'
  }

  /** The next `k` bytes of the front frame. */
  function Chunk(w: Writer, k: nat): (c: Bytes)
    requires w.Valid() && w.op.Active? && w.op.sent + k <= |w.queue[0]|
    ensures |c| == k
  {
    w.queue[0][w.op.sent..w.op.sent + k]
  }

  function Transmit(w: Writer, k: nat): Writer
    requires w.op.Active?
  {
    w.(op := Active(w.op.sent + k))
  }

  function WriteDone(w: Writer): Writer
    requires w.Due()
  {
    var w' := Writer(w.queue[1..], Idle);
    if w'.queue != [] then StartWrite(w') else w'
  }

  function WriteFail(w: Writer): Writer
    requires w.op.Active?
  {
    w.(op := Failed(w.op.sent))
  }

  // ---------- Runs ----------

  datatype Event = Deliver(frame: Bytes) | Send(count: nat) | Complete | Break

  /** A writer with every frame pushed, the number popped, and the bytes sent. */
  datatype Tracked = Tracked(w: Writer, pushed: seq<Bytes>, popped: nat, sent: Bytes) {
    /** Popped frames, then the queue, are the frames pushed; the bytes sent are the
        popped frames in full and a prefix of the front one. */
    ghost predicate Inv() {
      && w.Valid()
      && popped <= |pushed|
      && w.queue == pushed[popped..]
      && sent == Concat(pushed[..popped]) + (if w.op.Idle? then [] else w.queue[0][..w.op.sent])
    }

    predicate Enabled(e: Event)
      requires w.Valid()
    {
      match e
      case Deliver(f) => f != []
      case Send(k) => w.op.Active? && 0 < k <= |w.queue[0]| - w.op.sent
      case Complete => w.Due()
      case Break => w.op.Active?
    }

    function Step(e: Event): Tracked
      requires w.Valid() && Enabled(e)
    {
      match e
      case Deliver(f) => Tracked(Push(w, f), pushed + [f], popped, sent)
      case Send(k) => Tracked(Transmit(w, k), pushed, popped, sent + Chunk(w, k))
      case Complete => Tracked(WriteDone(w), pushed, popped + 1, sent)
      case Break => Tracked(WriteFail(w), pushed, popped, sent)
    }
  }

  const FRESH := Tracked(EMPTY, [], 0, [])

  lemma DeliverKeepsInv(t: Tracked, f: Bytes)
    requires t.Inv() && f != []
    ensures t.Step(Deliver(f)).Inv()
  {
    var pushed := t.pushed + [f];
    assert pushed[..t.popped] == t.pushed[..t.popped];
    assert pushed[t.popped..] == t.pushed[t.popped..] + [f];
    assert t.w.op.Idle? ==> f[..0] == [];
  }

  lemma SendKeepsInv(t: Tracked, k: nat)
    requires t.Inv() && t.Enabled(Send(k))
    ensures t.Step(Send(k)).Inv()
  {
    var front := t.w.queue[0];
    assert front[..t.w.op.sent] + front[t.w.op.sent..t.w.op.sent + k] == front[..t.w.op.sent + k];
  }

  lemma CompleteKeepsInv(t: Tracked)
    requires t.Inv() && t.w.Due()
    ensures t.Step(Complete).Inv()
  {
    var front := t.w.queue[0];
    assert t.pushed[..t.popped + 1] == t.pushed[..t.popped] + [front];
    ConcatAppend(t.pushed[..t.popped], [front]);
    ConcatOne(front);
    assert front[..t.w.op.sent] == front;
    hide Concat;
    assert t.sent == Concat(t.pushed[..t.popped + 1]) + [];
  }

  lemma StepKeepsInv(t: Tracked, e: Event)
    requires t.Inv() && t.Enabled(e)
    ensures t.Step(e).Inv()
  {
    hide Concat;
    match e
    case Deliver(f) => DeliverKeepsInv(t, f);
    case Send(k) => SendKeepsInv(t, k);
    case Complete => CompleteKeepsInv(t);
    case Break =>
  }

  ghost predicate Runs(t: Tracked, es: seq<Event>, t': Tracked)
    decreases |es|
  {
    if es == [] then t' == t
    else t.w.Valid() && t.Enabled(es[0]) && Runs(t.Step(es[0]), es[1..], t')
  }

  lemma {:induction false} RunKeepsInv(t: Tracked, es: seq<Event>, t': Tracked)
    requires t.Inv() && Runs(t, es, t')
    ensures t'.Inv()
    decreases |es|
  {
    if es != [] {
      StepKeepsInv(t, es[0]);
      RunKeepsInv(t.Step(es[0]), es[1..], t');
    }
  }

  /** The frames delivered during a run. */
  function Delivered(es: seq<Event>): seq<Bytes> {
    if es == [] then []
    else (if es[0].Deliver? then [es[0].frame] else []) + Delivered(es[1..])
  }

  lemma StepPushes(t: Tracked, e: Event)
    requires t.w.Valid() && t.Enabled(e)
    ensures t.Step(e).pushed == t.pushed + if e.Deliver? then [e.frame] else []
  {
  }

  lemma {:induction false} RunPushes(t: Tracked, es: seq<Event>, t': Tracked)
    requires Runs(t, es, t')
    ensures t'.pushed == t.pushed + Delivered(es)
    decreases |es|
  {
    if es != [] {
      StepPushes(t, es[0]);
      hide Tracked.Step, Tracked.Enabled, Writer.Valid;
      RunPushes(t.Step(es[0]), es[1..], t');
    }
  }

  lemma ConcatPrefix(fs: seq<Bytes>, k: nat, p: Bytes)
    requires k <= |fs|
    requires k == |fs| ==> p == []
    requires k < |fs| ==> p <= fs[k]
    ensures Concat(fs[..k]) + p <= Concat(fs)
  {
    assert fs == fs[..k] + fs[k..];
    ConcatAppend(fs[..k], fs[k..]);
  }

  lemma SentIsPrefix(t: Tracked)
    requires t.Inv()
    ensures t.sent <= Concat(t.pushed)
    ensures t.w.op.Idle? ==> t.sent == Concat(t.pushed)
  {
    ConcatPrefix(t.pushed, t.popped, if t.w.op.Idle? then [] else t.w.queue[0][..t.w.op.sent]);
    assert t.w.op.Idle? ==> t.popped == |t.pushed| && t.pushed[..t.popped] == t.pushed;
  }

  /** Write-queue refinement: after every run the frames popped and then the queue are the
      frames delivered, and the bytes sent are the popped frames followed by a prefix of
      the front frame; so frames go out in order, whole, once and without mixing. The
      queue is non-empty exactly when a write is outstanding or one has failed. */
  lemma WriteQueueMeaning(es: seq<Event>, t: Tracked)
    requires Runs(FRESH, es, t)
    ensures t.w.queue != [] <==> t.w.op.Active? || t.w.op.Failed?
    ensures t.popped <= |Delivered(es)|
    ensures t.w.queue == Delivered(es)[t.popped..]
    ensures t.sent <= Concat(Delivered(es))
    ensures t.w.queue != [] ==>
              && t.w.op.sent <= |t.w.queue[0]|
              && t.sent == Concat(Delivered(es)[..t.popped]) + t.w.queue[0][..t.w.op.sent]
    ensures t.w.queue == [] ==> t.sent == Concat(Delivered(es))
  {
    RunKeepsInv(FRESH, es, t);
    RunPushes(FRESH, es, t);
    assert t.pushed == Delivered(es);
    SentIsPrefix(t);
  }

  lemma FailedStep(t: Tracked, e: Event)
    requires t.w.Valid() && t.w.op.Failed? && t.Enabled(e)
    ensures e.Deliver?
    ensures var u := t.Step(e);
            && u.w == Writer(t.w.queue + [e.frame], t.w.op) && u.sent == t.sent && u.popped == t.popped
  {
  }

  /** After a failed write nothing is ever sent or popped again, however much is
      delivered: everything delivered later only queues up. */
  lemma {:induction false} FailedWriterIsSilent(t: Tracked, es: seq<Event>, t': Tracked)
    requires t.w.Valid() && t.w.op.Failed? && Runs(t, es, t')
    ensures t'.w.op == t.w.op && t'.sent == t.sent && t'.popped == t.popped
    ensures t'.w.queue == t.w.queue + Delivered(es)
    decreases |es|
  {
    if es != [] {
      FailedStep(t, es[0]);
      var u := t.Step(es[0]);
      hide Tracked.Step, Tracked.Enabled;
      FailedWriterIsSilent(u, es[1..], t');
      assert t.w.queue + [es[0].frame] + Delivered(es[1..]) == t.w.queue + ([es[0].frame] + Delivered(es[1..]));
    }
  }
}
