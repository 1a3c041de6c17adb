/** The read loop that the server's connection and the client both run: read a header,
    read the announced body, hand the message over, start again. One reader owns one
    message buffer that every read overwrites. A composed read may deliver its bytes in
    any number of non-empty chunks and may fail at any point; each completion handler is
    one step. */
module ReadLoop {
  import opened Options
  import opened Framing

  /** The read that is outstanding, with the bytes it has stored so far, or why there is
      none. */
  datatype ReadOp =
    | NotStarted
    | HeaderRead(got: nat)
    | BodyRead(got: nat)
    | Rejected
    | Failed(fill: nat)

  datatype Reader = Reader(msg: Msg, op: ReadOp) {
    /** How many leading bytes of the buffer belong to the message being read. */
    function Fill(): nat {
      match op
      case NotStarted => 0
      case HeaderRead(got) => got
      case BodyRead(got) => HEADER_LENGTH + got
      case Rejected => HEADER_LENGTH
      case Failed(fill) => fill
    }

    /** How many more bytes the outstanding read accepts. */
    function Room(): int {
      match op
      case HeaderRead(got) => HEADER_LENGTH - got
      case BodyRead(got) => msg.bodyLength - got
      case _ => 0
    }

    predicate Outstanding() {
      op.HeaderRead? || op.BodyRead?
    }

    /** The outstanding read has all its bytes: its completion handler is due. */
    predicate Due() {
      Outstanding() && Room() == 0
    }

    predicate Valid() {
      && msg.Valid()
      && Fill() <= BUFFER_LENGTH
      && Room() >= 0
      && (op.BodyRead? ==> DecodeHeader(msg.data[..HEADER_LENGTH]) == Some(msg.bodyLength))
      && (op.Rejected? ==> DecodeHeader(msg.data[..HEADER_LENGTH]) == None)
    }
  }

  function Splice(data: Bytes, at: nat, chunk: Bytes): (r: Bytes)
    requires at + |chunk| <= |data|
    ensures |r| == |data|
  {
    data[..at] + chunk + data[at + |chunk|..]
  }

  // ---------- The steps ----------

  function StartHeader(r: Reader): Reader {
    r.(op := HeaderRead(0))
  }

  /** Some bytes arrive for the outstanding read. */
  function Receive(r: Reader, chunk: Bytes): Reader
    requires r.Valid() && |chunk| <= r.Room()
  {
    r.(msg := r.msg.(data := Splice(r.msg.data, r.Fill(), chunk)),
       op := if r.op.HeaderRead? then HeaderRead(r.op.got + |chunk|)
             else if r.op.BodyRead? then BodyRead(r.op.got + |chunk|)
             else r.op)
  }

  /** `decode_header` on the reader's own message. */
  function Decode(m: Msg): (r: (Msg, bool))
    requires m.Valid()
    ensures r.0.Valid() && r.0.data == m.data
  {
    match DecodeHeader(m.data[..HEADER_LENGTH])
    case Some(n) => (m.(bodyLength := n), true)
    case None => (m.(bodyLength := 0), false)
  }

  /** Completion of a header read. */
  function HeaderDone(r: Reader): Reader
    requires r.Valid() && r.op.HeaderRead? && r.Due()
  {
    var d := Decode(r.msg);
    Reader(d.0, if d.1 then BodyRead(0) else Rejected)
  }

  /** Completion of a body read: the message is handed over and the next header read
      starts on the same buffer. */
  function BodyDone(r: Reader): Reader
    requires r.Valid() && r.op.BodyRead? && r.Due()
  {
    StartHeader(r)
  }

  function Fail(r: Reader): Reader
    requires r.Outstanding()
  {
    r.(op := Failed(r.Fill()))
  }

  // ---------- Runs on an arbitrary stream ----------

  datatype Event = Arrive(chunk: Bytes) | Complete | Break

  /** A reader with what it has consumed and handed over so far. */
  datatype Tracked = Tracked(r: Reader, consumed: Bytes, handed: seq<Body>) {
    /** The bytes consumed are those of the messages handed over, followed by the filled
        part of the buffer. */
    ghost predicate Inv() {
      var n := |consumed| - r.Fill();
      && r.Valid()
      && n >= 0
      && consumed[n..] == r.msg.data[..r.Fill()]
      && ParseFrames(consumed[..n]) == Parse(handed, [], true)
    }

    predicate Enabled(e: Event)
      requires r.Valid()
    {
      match e
      case Arrive(chunk) => 0 < |chunk| <= r.Room()
      case Complete => r.Due()
      case Break => r.Outstanding()
    }

    function Step(e: Event): Tracked
      requires r.Valid() && Enabled(e)
    {
      match e
      case Arrive(chunk) => Tracked(Receive(r, chunk), consumed + chunk, handed)
      case Complete =>
        if r.op.HeaderRead? then Tracked(HeaderDone(r), consumed, handed)
        else Tracked(BodyDone(r), consumed, handed + [r.msg.Text()])
      case Break => Tracked(Fail(r), consumed, handed)
    }
  }

  /** A reader that has just been started on whatever its buffer happens to contain. */
  function Fresh(junk: Msg): Tracked {
    Tracked(StartHeader(Reader(junk, NotStarted)), [], [])
  }

  lemma ReceiveKeepsValid(r: Reader, chunk: Bytes)
    requires r.Valid() && |chunk| <= r.Room()
    ensures Receive(r, chunk).Valid()
    ensures Receive(r, chunk).msg.data[..r.Fill() + |chunk|] == r.msg.data[..r.Fill()] + chunk
  {
    hide DecodeHeader;
    var data := Splice(r.msg.data, r.Fill(), chunk);
    assert data[..r.Fill() + |chunk|] == r.msg.data[..r.Fill()] + chunk;
    if !r.op.HeaderRead? {
      assert r.op.BodyRead? ==> data[..HEADER_LENGTH] == r.msg.data[..HEADER_LENGTH];
      assert !r.Outstanding() ==> data == r.msg.data;
    }
  }

  lemma ReceiveKeepsInv(t: Tracked, chunk: Bytes)
    requires t.Inv() && |chunk| <= t.r.Room()
    ensures Tracked(Receive(t.r, chunk), t.consumed + chunk, t.handed).Inv()
  {
    hide DecodeHeader, ParseFrames;
    ReceiveKeepsValid(t.r, chunk);
    var n := |t.consumed| - t.r.Fill();
    assert (t.consumed + chunk)[..n] == t.consumed[..n];
    assert (t.consumed + chunk)[n..] == t.consumed[n..] + chunk;
  }

  lemma HeaderDoneKeepsInv(t: Tracked)
    requires t.Inv() && t.r.op.HeaderRead? && t.r.Due()
    ensures Tracked(HeaderDone(t.r), t.consumed, t.handed).Inv()
  {
    hide DecodeHeader, ParseFrames;
  }

  /** A buffer whose header announces its body parses into exactly that body. */
  lemma FrameParses(m: Msg)
    requires m.Valid() && DecodeHeader(m.data[..HEADER_LENGTH]) == Some(m.bodyLength)
    ensures ParseFrames(m.Frame()) == Parse([m.Text()], [], true)
  {
    ParseEmpty();
    hide DecodeHeader, ParseFrames;
    var h := m.data[..HEADER_LENGTH];
    ParseFirst(h, m.Text(), []);
    assert h + m.Text() + [] == m.Frame();
  }

  lemma BodyDoneKeepsInv(t: Tracked)
    requires t.Inv() && t.r.op.BodyRead? && t.r.Due()
    ensures Tracked(BodyDone(t.r), t.consumed, t.handed + [t.r.msg.Text()]).Inv()
  {
    hide DecodeHeader, ParseFrames;
    var n := |t.consumed| - t.r.Fill();
    var clean := t.consumed[..n];
    FrameParses(t.r.msg);
    ParseAppend(clean, t.r.msg.Frame());
    assert t.consumed == clean + t.r.msg.Frame();
    assert t.consumed[..|t.consumed|] == t.consumed;
  }

  lemma StepKeepsInv(t: Tracked, e: Event)
    requires t.Inv() && t.Enabled(e)
    ensures t.Step(e).Inv()
  {
    match e
    case Arrive(chunk) => ReceiveKeepsInv(t, chunk);
    case Complete =>
      if t.r.op.HeaderRead? {
        HeaderDoneKeepsInv(t);
      } else {
        BodyDoneKeepsInv(t);
      }
    case Break =>
      hide DecodeHeader, ParseFrames;
  }

  /** A run: each event is enabled where it happens. */
  ghost predicate Runs(t: Tracked, es: seq<Event>, t': Tracked)
    decreases |es|
  {
    if es == [] then t' == t
    else t.r.Valid() && t.Enabled(es[0]) && Runs(t.Step(es[0]), es[1..], t')
  }

  lemma {:induction false} RunKeepsInv(t: Tracked, es: seq<Event>, t': Tracked)
    requires t.Inv() && Runs(t, es, t')
    ensures t'.Inv()
    decreases |es|
  {
    if es != [] {
      StepKeepsInv(t, es[0]);
      RunKeepsInv(t.Step(es[0]), es[1..], t');
    }
  }

  /** The bytes that arrive during a run. */
  function Arrived(es: seq<Event>): Bytes {
    if es == [] then []
    else (if es[0].Arrive? then es[0].chunk else []) + Arrived(es[1..])
  }

  lemma {:induction false} RunConsumes(t: Tracked, es: seq<Event>, t': Tracked)
    requires Runs(t, es, t')
    ensures t'.consumed == t.consumed + Arrived(es)
    decreases |es|
  {
    if es != [] {
      RunConsumes(t.Step(es[0]), es[1..], t');
    }
  }

  /** The filled part of the buffer holds no complete message, and stops at a refused header. */
  lemma BufferParses(r: Reader)
    requires r.Valid()
    ensures var filled := r.msg.data[..r.Fill()];
            && (r.Outstanding() && !r.Due() ==> ParseFrames(filled) == Parse([], filled, true))
            && (r.op.Rejected? ==> ParseFrames(filled) == Parse([], filled, false))
  {
    hide DecodeHeader;
    var filled := r.msg.data[..r.Fill()];
    assert r.Fill() >= HEADER_LENGTH ==> filled[..HEADER_LENGTH] == r.msg.data[..HEADER_LENGTH];
  }

  /** What the loop has handed over, against the meaning of the stream it has read. */
  lemma HandedIsParsed(t: Tracked)
    requires t.Inv()
    ensures var p := ParseFrames(t.consumed);
            && t.handed <= p.msgs
            && (t.r.Outstanding() && !t.r.Due() ==>
                  p == Parse(t.handed, t.r.msg.data[..t.r.Fill()], true))
            && (t.r.op.Rejected? ==> p == Parse(t.handed, t.r.msg.data[..t.r.Fill()], false))
  {
    hide DecodeHeader, ParseFrames;
    var n := |t.consumed| - t.r.Fill();
    var tail := t.consumed[n..];
    assert t.consumed == t.consumed[..n] + tail;
    ParseAppend(t.consumed[..n], tail);
    BufferParses(t.r);
    assert t.handed + [] == t.handed;
  }

  /** On every byte stream, in every chunking, with failures anywhere: the loop hands over
      the complete messages of what has arrived, all of them once no completion is due,
      and it stops at the first refused header. */
  lemma ReadLoopMeaning(junk: Msg, es: seq<Event>, t: Tracked)
    requires junk.Valid() && Runs(Fresh(junk), es, t)
    ensures t.Inv() && t.handed <= ParseFrames(Arrived(es)).msgs
    ensures t.r.Outstanding() && !t.r.Due() ==>
              ParseFrames(Arrived(es)).ok && t.handed == ParseFrames(Arrived(es)).msgs
    ensures t.r.op.Rejected? ==>
              !ParseFrames(Arrived(es)).ok && t.handed == ParseFrames(Arrived(es)).msgs
  {
    ParseEmpty();
    assert Fresh(junk).Inv();
    RunKeepsInv(Fresh(junk), es, t);
    HandedIsParsed(t);
    RunConsumes(Fresh(junk), es, t);
    hide ParseFrames;
    assert t.consumed == Arrived(es);
  }

  /** On the frames of `bodies`, however chunked and whatever the buffer held before:
      exactly the bodies, in order; on a prefix of those bytes, exactly the bodies whose
      frames are complete. No header is refused. */
  lemma ReadLoopDecodes(bodies: seq<Body>, junk: Msg, es: seq<Event>, t: Tracked)
    requires junk.Valid() && Runs(Fresh(junk), es, t)
    requires Arrived(es) <= FrameAll(bodies)
    ensures !t.r.op.Rejected?
    ensures t.handed <= bodies
    ensures t.r.Outstanding() && !t.r.Due() ==>
              var k := |t.handed|;
              && FrameAll(bodies[..k]) <= Arrived(es)
              && (k < |bodies| ==> |Arrived(es)| < |FrameAll(bodies[..k])| + |FrameOf(bodies[k])|)
    ensures t.r.Outstanding() && !t.r.Due() && Arrived(es) == FrameAll(bodies) ==> t.handed == bodies
  {
    ReadLoopMeaning(junk, es, t);
    PrefixParses(bodies, Arrived(es));
    FramesDecode(bodies);
  }

  /** Safety on arbitrary streams: whatever bytes arrive, the outstanding read never
      leaves the buffer and the body length never exceeds its maximum; once a header has
      been refused, or a read has failed, the loop takes no further step. */
  lemma ArbitraryStreamSafe(junk: Msg, es: seq<Event>, t: Tracked)
    requires junk.Valid() && Runs(Fresh(junk), es, t)
    ensures t.r.msg.Valid()
    ensures 0 <= t.r.Room() && t.r.Fill() + t.r.Room() <= BUFFER_LENGTH
    ensures t.r.op.Rejected? || t.r.op.Failed? ==>
              forall more: seq<Event>, t' :: Runs(t, more, t') ==> more == [] && t' == t
  {
    ReadLoopMeaning(junk, es, t);
  }
}
