/** The closed system: the server, any number of clients running the client of this
    repository, and a byte stream in each direction between each client and its
    connection. Every interleaving of their steps and every splitting of transfers is a
    run. */
module Network {
  import opened Framing
  import opened Api
  import opened Accounts
  import opened AccountRuns
  import RL = ReadLoop
  import WQ = WriteQueue
  import CM = ClientMachine
  import SM = ServerMachine

  /** A client and the bytes on their way to and from its connection. */
  datatype Link = Link(client: CM.Client, up: Bytes, down: Bytes)

  /** Client i talks to connection i. */
  datatype State = State(server: SM.State, links: seq<Link>)

  datatype Label =
    | NewClient(clientJunk: Msg, serverJunk: Msg)
    | Client(i: nat, c: CM.Label)
    | Server(s: SM.Label)

  predicate Enabled(s: State, l: Label) {
    match l
    case NewClient(cj, sj) => cj.Valid() && sj.Valid()
    case Client(i, c) =>
      && i < |s.links| && CM.Enabled(s.links[i].client, c)
      && (c.Receive? ==> c.chunk <= s.links[i].down)
    case Server(c) =>
      && !c.Knock? && SM.Enabled(s.server, c)
      && (c.Receive? ==> c.i < |s.links| && c.chunk <= s.links[c.i].up)
      && (c.Send? ==> c.i < |s.links|)
  }

  /** A client's step: what it sends enters `up`, what it receives leaves `down`. */
  function ClientStep(k: Link, c: CM.Label): Link
    requires CM.Enabled(k.client, c) && (c.Receive? ==> c.chunk <= k.down)
  {
    Link(CM.Step(k.client, c),
         k.up + (if c.Send? then WQ.Chunk(k.client.w.w, c.count) else []),
         if c.Receive? then k.down[|c.chunk|..] else k.down)
  }

  function Step(env: Env, s: State, l: Label): State
    requires Enabled(s, l)
  {
    match l
    case NewClient(cj, sj) =>
      State(SM.Step(env, s.server, SM.Knock(sj)), s.links + [Link(CM.New(cj), [], [])])
    case Client(i, c) => s.(links := s.links[i := ClientStep(s.links[i], c)])
    case Server(c) =>
      var links :=
        if c.Receive? then
          s.links[c.i := s.links[c.i].(up := s.links[c.i].up[|c.chunk|..])]
        else if c.Send? then
          s.links[c.i := s.links[c.i].(down := s.links[c.i].down + WQ.Chunk(s.server.conns[c.i].w.w, c.count))]
        else s.links;
      State(SM.Step(env, s.server, c), links)
  }

  function Init(c0: Core): State {
    State(SM.Init(c0), [])
  }

  ghost predicate Runs(env: Env, s: State, ls: seq<Label>, s': State)
    decreases |ls|
  {
    if ls == [] then s' == s
    else Enabled(s, ls[0]) && Runs(env, Step(env, s, ls[0]), ls[1..], s')
  }

  // ---------- The invariant ----------

  /** Nothing is lost, duplicated or reordered between the two ends. */
  ghost predicate LinkInv(k: Link, c: SM.Conn) {
    && CM.Inv(k.client)
    && k.client.w.sent == c.r.consumed + k.up
    && c.w.sent == k.client.r.consumed + k.down
  }

  ghost predicate Inv(env: Env, c0: Core, s: State) {
    && SM.Inv(env, c0, s.server)
    && |s.links| == |s.server.conns|
    && forall i :: 0 <= i < |s.links| ==> LinkInv(s.links[i], s.server.conns[i])
  }

  /** What a client step does to its own stream ends. */
  lemma ClientStepStreams(c: CM.Client, l: CM.Label)
    requires CM.Enabled(c, l)
    ensures var c' := CM.Step(c, l);
            && c'.r.consumed == c.r.consumed + (if l.Receive? then l.chunk else [])
            && c'.w.sent == c.w.sent + (if l.Send? then WQ.Chunk(c.w.w, l.count) else [])
  {
    hide FrameOf, DecodeHeader;
  }

  lemma ClientMoves(k: Link, c: SM.Conn, k': Link, taken: Bytes, sent: Bytes)
    requires LinkInv(k, c) && CM.Inv(k'.client)
    requires taken <= k.down && k'.down == k.down[|taken|..] && k'.up == k.up + sent
    requires k'.client.r.consumed == k.client.r.consumed + taken
    requires k'.client.w.sent == k.client.w.sent + sent
    ensures LinkInv(k', c)
  {
    hide CM.Inv;
    assert k.down == taken + k.down[|taken|..];
  }

  lemma ClientStepKeepsLink(k: Link, c: SM.Conn, l: CM.Label)
    requires LinkInv(k, c) && CM.Enabled(k.client, l) && (l.Receive? ==> l.chunk <= k.down)
    ensures LinkInv(ClientStep(k, l), c)
  {
    CM.StepKeepsInv(k.client, l);
    ClientStepStreams(k.client, l);
    var taken := if l.Receive? then l.chunk else [];
    var sent := if l.Send? then WQ.Chunk(k.client.w.w, l.count) else [];
    assert k.down[0..] == k.down;
    hide LinkInv, CM.Step, CM.Enabled;
    ClientMoves(k, c, ClientStep(k, l), taken, sent);
  }

  /** What a server step does to one connection's stream ends. */
  lemma ServerStepStreams(env: Env, s: SM.State, l: SM.Label, i: nat)
    requires SM.Enabled(s, l) && i < |s.conns|
    requires !s.conns[i].accepted ==> s.conns[i] == SM.Waiting(s.conns[i].r.r.msg)
    ensures var s' := SM.Step(env, s, l);
            && i < |s'.conns|
            && s'.conns[i].r.consumed ==
                 s.conns[i].r.consumed + (if l.Receive? && l.i == i then l.chunk else [])
            && s'.conns[i].w.sent ==
                 s.conns[i].w.sent + (if l.Send? && l.i == i then WQ.Chunk(s.conns[i].w.w, l.count) else [])
  {
    hide Handle, FrameOf, DecodeHeader;
  }

  lemma StreamsMove(k: Link, c: SM.Conn, k': Link, c': SM.Conn, taken: Bytes, sent: Bytes)
    requires LinkInv(k, c) && k'.client == k.client
    requires taken <= k.up && k'.up == k.up[|taken|..] && k'.down == k.down + sent
    requires c'.r.consumed == c.r.consumed + taken && c'.w.sent == c.w.sent + sent
    ensures LinkInv(k', c')
  {
    hide CM.Inv;
    assert k.up == taken + k.up[|taken|..];
  }

  lemma ServerStepKeepsLink(env: Env, s: State, l: SM.Label, i: nat)
    requires |s.links| == |s.server.conns| && i < |s.links| && Enabled(s, Server(l))
    requires LinkInv(s.links[i], s.server.conns[i])
    requires var c := s.server.conns[i]; !c.accepted ==> c == SM.Waiting(c.r.r.msg)
    ensures var s' := Step(env, s, Server(l));
            && |s'.links| == |s.links| && i < |s'.server.conns|
            && LinkInv(s'.links[i], s'.server.conns[i])
  {
    ServerStepStreams(env, s.server, l, i);
    var s' := Step(env, s, Server(l));
    var taken := if l.Receive? && l.i == i then l.chunk else [];
    var sent := if l.Send? && l.i == i then WQ.Chunk(s.server.conns[i].w.w, l.count) else [];
    hide LinkInv, SM.Step;
    assert s.links[i].up[0..] == s.links[i].up && s.links[i].down + [] == s.links[i].down;
    hide SM.Enabled;
    StreamsMove(s.links[i], s.server.conns[i], s'.links[i], s'.server.conns[i], taken, sent);
  }

  lemma ServerStepKeepsCount(env: Env, s: SM.State, l: SM.Label)
    requires SM.Enabled(s, l)
    ensures |SM.Step(env, s, l).conns| == |s.conns| + if l.Knock? then 1 else 0
  {
    hide Handle, FrameOf, DecodeHeader;
  }

  lemma NewClientKeepsInv(env: Env, c0: Core, s: State, cj: Msg, sj: Msg)
    requires Inv(env, c0, s) && cj.Valid() && sj.Valid()
    ensures Inv(env, c0, Step(env, s, NewClient(cj, sj)))
  {
    SM.KnockKeepsInv(env, c0, s.server, sj);
    CM.NewInv(cj);
    assert LinkInv(Link(CM.New(cj), [], []), SM.Waiting(sj));
    hide LinkInv, SM.Inv;
  }

  lemma ClientStepKeepsInv(env: Env, c0: Core, s: State, i: nat, l: CM.Label)
    requires Inv(env, c0, s) && Enabled(s, Client(i, l))
    ensures Inv(env, c0, Step(env, s, Client(i, l)))
  {
    hide LinkInv, SM.Inv, CM.Enabled, ClientStep;
    ClientStepKeepsLink(s.links[i], s.server.conns[i], l);
  }

  lemma ServerStepKeepsInv(env: Env, c0: Core, s: State, l: SM.Label)
    requires WellFormed(c0.rows) && Inv(env, c0, s) && Enabled(s, Server(l))
    ensures Inv(env, c0, Step(env, s, Server(l)))
  {
    hide LinkInv, SM.ConnInv, SM.InSet, SM.Step, SM.Enabled, SM.Waiting, WellFormed, Abs, After;
    SM.StepKeepsInv(env, c0, s.server, l);
    ServerStepKeepsCount(env, s.server, l);
    var s' := Step(env, s, Server(l));
    forall i | 0 <= i < |s.links| ensures LinkInv(s'.links[i], s'.server.conns[i]) {
      if !s.server.conns[i].accepted {
        SM.WaitingIsEmpty(env, Abs(c0.rows), s.server.log, i, s.server.conns[i]);
      }
      ServerStepKeepsLink(env, s, l, i);
    }
  }

  lemma StepKeepsInv(env: Env, c0: Core, s: State, l: Label)
    requires WellFormed(c0.rows) && Inv(env, c0, s) && Enabled(s, l)
    ensures Inv(env, c0, Step(env, s, l))
  {
    match l
    case NewClient(cj, sj) => NewClientKeepsInv(env, c0, s, cj, sj);
    case Client(i, c) => ClientStepKeepsInv(env, c0, s, i, c);
    case Server(c) => ServerStepKeepsInv(env, c0, s, c);
  }

  lemma {:induction false} RunKeepsInv(env: Env, c0: Core, s: State, ls: seq<Label>, s': State)
    requires WellFormed(c0.rows) && Inv(env, c0, s) && Runs(env, s, ls, s')
    ensures Inv(env, c0, s')
    decreases |ls|
  {
    hide Inv, Enabled, Step;
    if ls != [] {
      StepKeepsInv(env, c0, s, ls[0]);
      RunKeepsInv(env, c0, Step(env, s, ls[0]), ls[1..], s');
    }
  }

  lemma Reachable(env: Env, c0: Core, ls: seq<Label>, s: State)
    requires WellFormed(c0.rows) && Runs(env, Init(c0), ls, s)
    ensures Inv(env, c0, s)
  {
    SM.InitInv(env, c0);
    RunKeepsInv(env, c0, Init(c0), ls, s);
  }

  // ---------- One direction: writer, stream, reader ----------

  /** Whatever is on its way, the reader has handed over a prefix of the bodies whose
      frames were pushed, and has refused no header. */
  lemma StreamDelivers(w: WQ.Tracked, between: Bytes, r: RL.Tracked, bodies: seq<Body>)
    requires w.Inv() && r.Inv() && w.sent == r.consumed + between && w.pushed == Frames(bodies)
    ensures r.handed <= bodies && !r.r.op.Rejected?
  {
    WQ.SentIsPrefix(w);
    assert r.consumed <= FrameAll(bodies);
    PrefixParses(bodies, r.consumed);
    RL.HandedIsParsed(r);
  }

  /** When the writer is idle, the stream empty and no completion due, everything pushed
      has been handed over. */
  lemma StreamDrained(w: WQ.Tracked, r: RL.Tracked, bodies: seq<Body>)
    requires w.Inv() && r.Inv() && w.sent == r.consumed && w.pushed == Frames(bodies)
    requires w.w.op.Idle? && r.r.Outstanding() && !r.r.Due()
    ensures r.handed == bodies
  {
    WQ.SentIsPrefix(w);
    FramesDecode(bodies);
    RL.HandedIsParsed(r);
  }

  lemma PushedIsWritten(c: CM.Client)
    requires CM.Inv(c)
    ensures |c.w.pushed| <= |c.written| && c.w.pushed == Frames(c.written[..|c.w.pushed|])
  {
    var n := |c.w.pushed|;
    assert n <= |Frames(c.written)|;
    assert Frames(c.written)[..n] == c.w.pushed;
    assert Frames(c.written[..n]) == Frames(c.written)[..n];
  }

  lemma LinkDelivers(env: Env, d: Directory, log: seq<SM.Handled>, i: nat, k: Link, c: SM.Conn)
    requires LinkInv(k, c) && SM.ConnInv(env, d, log, i, c)
    ensures SM.HandledOn(log, i) <= k.client.written
    ensures k.client.taken + k.client.inbox <= SM.Deliveries(env, d, log, i)
    ensures !c.r.r.op.Rejected? && !k.client.r.r.op.Rejected?
  {
    hide ParseFrames, DecodeHeader, Concat, SM.HandledOn, SM.Replies;
    PushedIsWritten(k.client);
    StreamDelivers(k.client.w, k.up, c.r, k.client.written[..|k.client.w.pushed|]);
    if c.accepted {
      StreamDelivers(c.w, k.down, k.client.r, SM.Deliveries(env, d, log, i));
    } else {
      assert c.w.pushed == Frames([]);
      StreamDelivers(c.w, k.down, k.client.r, []);
    }
  }

  /** End to end. In every run, with any number of clients, any interleaving and any
      splitting of transfers, and failures anywhere: the messages each client has received
      are a prefix of the connect response followed by the answers of the sequential email
      directory to that client's requests, the directory being run on all clients' requests
      in the order the server handled them; and the requests it handled for a client are a
      prefix of those the client wrote. */
  lemma EndToEnd(env: Env, c0: Core, ls: seq<Label>, s: State, i: nat)
    requires WellFormed(c0.rows) && Runs(env, Init(c0), ls, s) && i < |s.links|
    ensures |s.server.conns| == |s.links|
    ensures s.links[i].client.taken + s.links[i].client.inbox
            <= SM.Deliveries(env, Abs(c0.rows), s.server.log, i)
    ensures SM.HandledOn(s.server.log, i) <= s.links[i].client.written
    ensures !s.server.conns[i].r.r.op.Rejected? && !s.links[i].client.r.r.op.Rejected?
  {
    Reachable(env, c0, ls, s);
    assert SM.ConnInv(env, Abs(c0.rows), s.server.log, i, s.server.conns[i]);
    LinkDelivers(env, Abs(c0.rows), s.server.log, i, s.links[i], s.server.conns[i]);
  }

  /** The first message a client receives says that it is connected. */
  lemma GreetingFirst(env: Env, c0: Core, ls: seq<Label>, s: State, i: nat)
    requires WellFormed(c0.rows) && Runs(env, Init(c0), ls, s) && i < |s.links|
    ensures var received := s.links[i].client.taken + s.links[i].client.inbox;
            received != [] ==> received[0] == env.render(ConnectResponse(0))
  {
    EndToEnd(env, c0, ls, s, i);
    hide Runs, SM.Replies;
  }

  /** The others answer the client's recognised requests, one by one: if request p that the
      server handled is the k-th recognised one of its client, then message k + 1 that this
      client receives is the response of the run of all requests before p. */
  lemma AnswersReceived(env: Env, c0: Core, ls: seq<Label>, s: State, p: nat)
    requires WellFormed(c0.rows) && Runs(env, Init(c0), ls, s)
    requires p < |s.server.log| && !env.parse(s.server.log[p].body).Other?
    ensures var i := s.server.log[p].connection;
            var k := |SM.Recognised(env, SM.HandledOn(s.server.log[..p], i))|;
            var rsp := ReplyAt(env, c0, SM.Entries(env, s.server.log), p);
            && i < |s.links| && rsp.Some?
            && var received := s.links[i].client.taken + s.links[i].client.inbox;
               k + 1 < |received| ==> received[k + 1] == env.render(rsp.value)
  {
    var i := s.server.log[p].connection;
    HandledIsLinked(env, c0, ls, s, p);
    EndToEnd(env, c0, ls, s, i);
    SM.ReplyOfRequest(env, c0, s.server.log, p);
    hide Runs, SM.Replies, SM.Recognised, SM.HandledOn, ReplyAt, Abs, WellFormed, SM.Entries;
  }

  lemma HandledIsLinked(env: Env, c0: Core, ls: seq<Label>, s: State, p: nat)
    requires WellFormed(c0.rows) && Runs(env, Init(c0), ls, s) && p < |s.server.log|
    ensures s.server.log[p].connection < |s.links|
  {
    Reachable(env, c0, ls, s);
    assert s.server.log[p] in s.server.log;
    hide Runs, SM.ConnInv, LinkInv, Abs, After, WellFormed;
  }

  /** The table and the sessions of the closed system are those of the run of its log, so
      everything proved of runs of requests holds of it. */
  lemma CoreIsARun(env: Env, c0: Core, ls: seq<Label>, s: State)
    requires WellFormed(c0.rows) && Runs(env, Init(c0), ls, s)
    ensures s.server.core == After(env, c0, SM.Entries(env, s.server.log))
    ensures WellFormed(s.server.core.rows)
    ensures Abs(s.server.core.rows) == SpecAfter(env, Abs(c0.rows), SM.Entries(env, s.server.log))
  {
    Reachable(env, c0, ls, s);
    RunRefines(env, c0, SM.Entries(env, s.server.log));
  }
}
