/** The whole server process: the objects that `main` wires together and the loop of the
    I/O context that runs their completion handlers one at a time. Its invariant says that
    the objects are, all together, in a state that the server machine reaches; so what is
    proved about the machine's runs holds of the objects. */
module GameBackend {
  import opened Framing
  import opened Api
  import opened GameServer
  import opened Messages
  import A = Accounts
  import R = AccountRuns
  import RL = ReadLoop
  import WQ = WriteQueue
  import SM = ServerMachine

  /** What a socket may report next: an accept, a chunk moved by a transfer, or the end of
      a transfer. Connections are named in the order of accepting. */
  datatype Event =
    | Accepted
    | AcceptFails
    | Received(i: nat, chunk: Bytes)
    | ReadDone(i: nat, ok: bool)
    | Sent(i: nat, count: nat)
    | WriteDone(i: nat, ok: bool)

  /** The machine takes the step if it can; otherwise there is nothing to report on. */
  ghost predicate TakesIfEnabled(env: Env, s: SM.State, l: SM.Label, ls: seq<SM.Label>, t: SM.State) {
    if SM.Enabled(s, l) then ls == [l] && t == SM.Step(env, s, l) else ls == [] && t == s
  }

  /** What a report makes the machine do. An accept, successful or not, always concerns the
      last connection, the one that waits. */
  ghost predicate Takes(env: Env, s: SM.State, e: Event, ls: seq<SM.Label>, t: SM.State) {
    match e
    case Accepted =>
      && s.conns != [] && |ls| == 2 && ls[0] == SM.Accept(|s.conns| - 1) && ls[1].Knock?
      && SM.Runs(env, s, ls, t)
    case AcceptFails =>
      |ls| == 1 && ls[0].AcceptError? && ls[0].i == |s.conns| - 1 && SM.Runs(env, s, ls, t)
    case Received(i, chunk) => TakesIfEnabled(env, s, SM.Receive(i, chunk), ls, t)
    case ReadDone(i, ok) => TakesIfEnabled(env, s, if ok then SM.Received(i) else SM.ReceiveFails(i), ls, t)
    case Sent(i, count) => TakesIfEnabled(env, s, SM.Send(i, count), ls, t)
    case WriteDone(i, ok) => TakesIfEnabled(env, s, if ok then SM.Sent(i) else SM.SendFails(i), ls, t)
  }

  function Flatten(parts: seq<seq<SM.Label>>): seq<SM.Label> {
    if parts == [] then [] else Flatten(parts[..|parts| - 1]) + parts[|parts| - 1]
  }

  /** What a sequence of reports makes the machine do: each in its turn, none left out. The
      k-th report finds the machine in `states[k]` and makes it take the steps `parts[k]`. */
  ghost predicate Serves(env: Env, es: seq<Event>, states: seq<SM.State>, parts: seq<seq<SM.Label>>) {
    && |states| == |es| + 1 && |parts| == |es|
    && forall k :: 0 <= k < |es| ==> Takes(env, states[k], es[k], parts[k], states[k + 1])
  }

  lemma ServesNothing(env: Env, s: SM.State)
    ensures Serves(env, [], [s], [])
  {
  }

  lemma ServesSnoc(env: Env, es: seq<Event>, states: seq<SM.State>, parts: seq<seq<SM.Label>>,
    e: Event, more: seq<SM.Label>, t: SM.State)
    requires Serves(env, es, states, parts) && Takes(env, states[|es|], e, more, t)
    ensures Serves(env, es + [e], states + [t], parts + [more])
    ensures Flatten(parts + [more]) == Flatten(parts) + more
  {
    hide Takes;
    assert (parts + [more])[..|parts|] == parts;
  }

  lemma TwoSteps(env: Env, s: SM.State, l: SM.Label, m: SM.Label)
    requires SM.Enabled(s, l) && SM.Enabled(SM.Step(env, s, l), m)
    ensures SM.Runs(env, s, [l], SM.Step(env, s, l))
    ensures SM.Runs(env, s, [l, m], SM.Step(env, SM.Step(env, s, l), m))
  {
    hide SM.Step, SM.Enabled;
    OneStep(env, s, l);
    OneStep(env, SM.Step(env, s, l), m);
    assert [l, m][1..] == [m];
  }

  lemma OneStep(env: Env, s: SM.State, l: SM.Label)
    requires SM.Enabled(s, l)
    ensures SM.Runs(env, s, [l], SM.Step(env, s, l))
  {
    hide SM.Step, SM.Enabled;
    assert [l][1..] == [];
  }

  lemma {:induction false} RunsSnoc(env: Env, s: SM.State, ls: seq<SM.Label>, t: SM.State, l: SM.Label)
    requires SM.Runs(env, s, ls, t) && SM.Enabled(t, l)
    ensures SM.Runs(env, s, ls + [l], SM.Step(env, t, l))
    decreases |ls|
  {
    hide SM.Step, SM.Enabled;
    if ls == [] {
      assert [l][1..] == [];
    } else {
      RunsSnoc(env, SM.Step(env, s, ls[0]), ls[1..], t, l);
      assert (ls + [l])[1..] == ls[1..] + [l];
    }
  }

  lemma FirstStep(env: Env, core: A.Core, junk: Msg)
    requires junk.Valid()
    ensures SM.Runs(env, SM.Init(core), [SM.Knock(junk)], SM.State(core, {}, [SM.Waiting(junk)], []))
    ensures SM.Waiting(junk).r.r.msg == junk
  {
    hide DecodeHeader;
    assert [SM.Knock(junk)][1..] == [];
  }

  lemma NoSessions()
    ensures Sessions(map[]) == map[]
  {
  }

  /** Connection `c` is where the machine's connection `m` is, and has handler `h`. */
  ghost predicate Simulates(c: TcpConnection, id: nat, m: SM.Conn, h: MesHandler?)
    reads c, c.readMsg, c.readMsg.data
  {
    c.id == id && c.Valid() && c.model == m && c.handler == h
  }

  lemma ConnectionIsReady(c: TcpConnection)
    requires c.Valid()
    ensures SM.Ready(c.model) && c.model.r.r.msg == c.readMsg.Value() && c.readMsg.Value().Valid()
  {
    hide DecodeHeader;
  }

  /** What an outstanding read means for the machine. */
  lemma ReadIsOutstanding(c: TcpConnection)
    requires c.Valid() && !c.readOp.NotStarted?
    ensures c.handler != null && SM.Ready(c.model) && c.model.r.r.op == c.readOp && c.model.r.r.Room() == c.Room()
    ensures c.model.r.r.msg == c.readMsg.Value()
  {
    hide DecodeHeader;
  }

  lemma WriteIsOutstanding(c: TcpConnection)
    requires c.Valid() && c.writeOp.Active?
    ensures c.handler != null && SM.Ready(c.model) && c.model.w.w.op == c.writeOp
    ensures c.model.w.w.queue != [] && c.Unsent() == |c.model.w.w.queue[0]| - c.writeOp.sent
  {
    hide DecodeHeader;
  }

  /** What is not outstanding on a connection is not enabled in the machine. */
  lemma NothingElseIsEnabled(c: TcpConnection, id: nat, m: SM.Conn, h: MesHandler?)
    requires Simulates(c, id, m, h)
    ensures m.r.r.Room() == c.Room() && (m.r.r.Outstanding() <==> c.Reading())
    ensures m.w.w.op == c.writeOp
    ensures c.writeOp.Active? ==> m.w.w.queue != [] && c.Unsent() == |m.w.w.queue[0]| - c.writeOp.sent
  {
    hide DecodeHeader;
  }

  lemma SimulatesMeans(c: TcpConnection, id: nat, m: SM.Conn, h: MesHandler?)
    ensures Simulates(c, id, m, h) <==> c.id == id && c.Valid() && c.model == m && c.handler == h
  {
  }

  /** Connections and their buffers are pairwise distinct. */
  ghost predicate Separate(conns: seq<TcpConnection>) {
    forall i, j :: 0 <= i < j < |conns| ==>
      && conns[i] != conns[j]
      && conns[i].readMsg != conns[j].readMsg && conns[i].readMsg.data != conns[j].readMsg.data
  }

  /** The set is the machine's, and the waiting connection is not in it. */
  ghost predicate SetMatches(set0: set<TcpConnection>, conns: seq<TcpConnection>, participants: set<nat>) {
    && (forall i :: 0 <= i < |conns| ==> (conns[i] in set0 <==> i in participants))
    && (forall c | c in set0 :: c in conns)
    && (forall i :: i in participants ==> i < |conns| - 1)
  }

  /** The table and the sessions are the machine's, and sessions are of accepted connections. */
  ghost predicate CoreMatches(rows: seq<A.Row>, users: map<nat, User>, conns: seq<TcpConnection>, core: A.Core)
    requires conns != []
  {
    && rows == core.rows && Sessions(users) == core.sessions
    && forall k :: k in users ==> users[k].connection in conns[..|conns| - 1]
  }

  lemma Leaves(set0: set<TcpConnection>, conns: seq<TcpConnection>, participants: set<nat>, i: nat, stays: bool)
    requires SetMatches(set0, conns, participants) && Separate(conns) && i < |conns|
    ensures SetMatches(set0 - (if stays then {} else {conns[i]}), conns, participants - (if stays then {} else {i}))
  {
  }

  /** A new object shares nothing with the connections. */
  ghost predicate Apart(conns: seq<TcpConnection>, next: TcpConnection) {
    forall i :: 0 <= i < |conns| ==>
      conns[i] != next && conns[i].readMsg != next.readMsg && conns[i].readMsg.data != next.readMsg.data
  }

  /** The waiting connection is accepted and `next` waits. */
  lemma Joins(
    set0: set<TcpConnection>, rows: seq<A.Row>, users: map<nat, User>, conns: seq<TcpConnection>, next: TcpConnection,
    s: SM.State)
    requires conns != [] && Separate(conns) && Apart(conns, next)
    requires SetMatches(set0, conns, s.participants) && CoreMatches(rows, users, conns, s.core)
    ensures Separate(conns + [next])
    ensures SetMatches(set0 + {conns[|conns| - 1]}, conns + [next], s.participants + {|conns| - 1})
    ensures CoreMatches(rows, users, conns + [next], s.core)
  {
  }

  /** `next` waits in the place of the waiting connection. */
  lemma Replaces(
    set0: set<TcpConnection>, rows: seq<A.Row>, users: map<nat, User>, conns: seq<TcpConnection>, next: TcpConnection,
    s: SM.State)
    requires conns != [] && Separate(conns) && Apart(conns, next)
    requires SetMatches(set0, conns, s.participants) && CoreMatches(rows, users, conns, s.core)
    ensures var conns' := conns[|conns| - 1 := next];
            && Separate(conns') && SetMatches(set0, conns', s.participants)
            && CoreMatches(rows, users, conns', s.core)
  {
  }

  /** A request of an accepted connection changes the table and the sessions. */
  lemma CoreMoves(
    rows: seq<A.Row>, users: map<nat, User>, before: map<nat, User>, conns: seq<TcpConnection>, i: nat, core: A.Core)
    requires conns != [] && i < |conns| - 1 && UsersFrom(users, before, conns[i])
    requires forall k :: k in before ==> before[k].connection in conns[..|conns| - 1]
    requires rows == core.rows && Sessions(users) == core.sessions
    ensures CoreMatches(rows, users, conns, core)
  {
  }

  // ---------- The machine's steps ----------

  lemma HeaderStep(env: Env, s: SM.State, i: nat, ok: bool)
    requires i < |s.conns| && SM.Ready(s.conns[i]) && s.conns[i].r.r.op.HeaderRead?
    requires ok ==> s.conns[i].r.r.Room() == 0
    ensures var l := if ok then SM.Received(i) else SM.ReceiveFails(i);
            && SM.Enabled(s, l)
            && SM.Step(env, s, l) ==
                 SM.State(s.core, s.participants - (if ok then {} else {i}),
                          s.conns[i := s.conns[i].(r := s.conns[i].r.Step(if ok then RL.Complete else RL.Break))],
                          s.log)
  {
    hide DecodeHeader;
    assert s.participants - {} == s.participants;
  }

  lemma BodyStep(env: Env, s: SM.State, i: nat, ok: bool)
    requires i < |s.conns| && SM.Ready(s.conns[i]) && s.conns[i].r.r.op.BodyRead?
    requires ok ==> s.conns[i].r.r.Room() == 0
    ensures var l := if ok then SM.Received(i) else SM.ReceiveFails(i);
            && SM.Enabled(s, l)
            && SM.Step(env, s, l) ==
                 if ok then
                   var body := s.conns[i].r.r.msg.Text();
                   var (core, rsp) := A.Handle(env, s.core, A.Entry(i, env.parse(body)));
                   SM.State(core, s.participants,
                            s.conns[i := SM.Respond(env, s.conns[i].(r := s.conns[i].r.Step(RL.Complete)), rsp)],
                            s.log + [SM.Handled(i, body)])
                 else
                   SM.State(s.core, s.participants - {i},
                            s.conns[i := s.conns[i].(r := s.conns[i].r.Step(RL.Break))], s.log)
  {
    hide DecodeHeader, A.Handle, SM.Respond;
  }

  lemma WriteStep(env: Env, s: SM.State, i: nat, ok: bool)
    requires i < |s.conns| && SM.Ready(s.conns[i]) && s.conns[i].w.w.op.Active?
    requires ok ==> s.conns[i].w.w.Due()
    ensures var l := if ok then SM.Sent(i) else SM.SendFails(i);
            && SM.Enabled(s, l)
            && SM.Step(env, s, l) ==
                 SM.State(s.core, s.participants - (if ok then {} else {i}),
                          s.conns[i := s.conns[i].(w := s.conns[i].w.Step(if ok then WQ.Complete else WQ.Break))],
                          s.log)
  {
    hide DecodeHeader;
    assert s.participants - {} == s.participants;
  }

  lemma AcceptStep(env: Env, s: SM.State, junk: Msg)
    requires s.conns != [] && SM.Ready(s.conns[|s.conns| - 1]) && !s.conns[|s.conns| - 1].accepted && junk.Valid()
    ensures var i := |s.conns| - 1;
            var t := SM.State(s.core, s.participants + {i}, s.conns[i := SM.Accepted(env, s.conns[i])], s.log);
            && SM.Enabled(s, SM.Accept(i)) && SM.Step(env, s, SM.Accept(i)) == t
            && SM.Enabled(t, SM.Knock(junk))
            && SM.Step(env, t, SM.Knock(junk)) == t.(conns := t.conns + [SM.Waiting(junk)])
            && SM.Enabled(s, SM.AcceptError(i, junk))
            && SM.Step(env, s, SM.AcceptError(i, junk)) == s.(conns := s.conns[i := SM.Waiting(junk)])
            && SM.Waiting(junk).r.r.msg == junk
  {
    hide DecodeHeader, FrameOf;
  }

  class Backend {
    const env: Env
    const tcp: TcpServer
    const handler: MesHandler
    const db: Database
    const srv: Server
    /** The connections whose operations the I/O context holds; the last one waits to be
        accepted. */
    var conns: seq<TcpConnection>
    ghost var Repr: set<object>
    /** The rows at the start, and the machine's steps and state so far. */
    ghost const core0: A.Core
    ghost var trace: seq<SM.Label>
    ghost var state: SM.State

    /** What `main` connects. */
    ghost predicate Wired()
      reads tcp, handler
    {
      && tcp.env == env && tcp.handler == handler
      && handler.env == env && handler.db == db && handler.srv == srv
    }

    ghost predicate Owned()
      reads this
    {
      && this in Repr && tcp in Repr && handler in Repr && db in Repr && srv in Repr
      && forall i :: 0 <= i < |conns| ==> conns[i] in Repr && conns[i].readMsg in Repr && conns[i].readMsg.data in Repr
    }

    /** The handler that connection i has: none before it is accepted. */
    ghost function HandlerOf(i: nat): MesHandler?
      reads this
    {
      if i < |conns| - 1 then handler else null
    }

    ghost predicate Accepting()
      reads this, tcp
    {
      && conns != [] && tcp.accepting == conns[|conns| - 1] && tcp.served == |conns| - 1
      && |state.conns| == |conns|
      && state.conns[|conns| - 1] == SM.Waiting(state.conns[|conns| - 1].r.r.msg)
    }

    ghost predicate Valid()
      reads this, Repr
    {
      && Owned() && Separate(conns) && Wired() && Accepting()
      && (forall i :: 0 <= i < |conns| ==> Simulates(conns[i], i, state.conns[i], HandlerOf(i)))
      && SetMatches(handler.participants, conns, state.participants)
      && CoreMatches(db.rows, srv.users, conns, state.core)
      && core0.sessions == map[] && SM.Runs(env, SM.Init(core0), trace, state)
    }

    lemma Starts()
      requires |conns| == 1 && Repr == {this, tcp, handler, db, srv, conns[0], conns[0].readMsg, conns[0].readMsg.data}
      requires tcp.env == env && tcp.handler == handler && tcp.accepting == conns[0] && tcp.served == 0
      requires handler.env == env && handler.db == db && handler.srv == srv && handler.participants == {}
      requires srv.users == map[] && state.participants == {} && state.core == A.Core(db.rows, map[])
      requires |state.conns| == 1 && state.conns[0] == SM.Waiting(state.conns[0].r.r.msg)
      ensures Owned() && Separate(conns) && Wired() && Accepting()
      ensures SetMatches(handler.participants, conns, state.participants)
      ensures CoreMatches(db.rows, srv.users, conns, state.core)
    {
      NoSessions();
    }

    constructor (env: Env, rows: seq<A.Row>)
      ensures Valid() && fresh(Repr)
      ensures this.env == env && core0 == A.Core(rows, map[])
      ensures |conns| == 1 && conns[0].handler == null && handler.participants == {} && state.log == []
    {
      hide SM.Runs, SM.Waiting, TcpConnection.Valid, Sessions;
      hide Owned, Separate, Wired, Accepting, SetMatches, CoreMatches;
      this.env := env;
      core0 := A.Core(rows, map[]);
      var d := new Database(rows);
      var t := new TcpServer(env);
      var s := new Server();
      var h: MesHandler, c: TcpConnection := t.handler, t.accepting;
      h.ConnectDbWorker(d);
      h.SetServer(s);
      tcp, handler, db, srv, conns := t, h, d, s, [c];
      var junk := c.readMsg.Value();
      ConnectionIsReady(c);
      FirstStep(env, A.Core(rows, map[]), junk);
      trace, state := [SM.Knock(junk)], SM.State(A.Core(rows, map[]), {}, [SM.Waiting(junk)], []);
      Repr := {this, d, t, s, h, c, c.readMsg, c.readMsg.data};
      new;
      Starts();
      assert Accepting();
    }

    /** The machine takes the same step. */
    ghost method Follow(l: SM.Label)
      requires SM.Runs(env, SM.Init(core0), trace, state) && SM.Enabled(state, l)
      modifies this`trace, this`state
      ensures SM.Runs(env, SM.Init(core0), trace, state)
      ensures state == SM.Step(env, old(state), l) && trace == old(trace) + [l]
    {
      RunsSnoc(env, SM.Init(core0), trace, state, l);
      trace, state := trace + [l], SM.Step(env, state, l);
    }

    ghost method FollowAccept(junk: Msg)
      requires SM.Runs(env, SM.Init(core0), trace, state)
      requires state.conns != [] && SM.Ready(state.conns[|state.conns| - 1])
      requires !state.conns[|state.conns| - 1].accepted && junk.Valid()
      modifies this`trace, this`state
      ensures SM.Runs(env, SM.Init(core0), trace, state)
      ensures var i := |old(state).conns| - 1;
              && SM.Enabled(old(state), SM.Accept(i)) && junk.Valid()
              && SM.Enabled(SM.Step(env, old(state), SM.Accept(i)), SM.Knock(junk))
              && state == SM.Step(env, SM.Step(env, old(state), SM.Accept(i)), SM.Knock(junk))
              && trace == old(trace) + [SM.Accept(i), SM.Knock(junk)]
    {
      hide SM.Runs, SM.Step, SM.Enabled, SM.Ready;
      AcceptStep(env, state, junk);
      Follow(SM.Accept(|state.conns| - 1));
      Follow(SM.Knock(junk));
    }

    /** Bytes arrive for connection i. */
    method OnReceived(i: nat, chunk: Bytes)
      requires Valid() && i < |conns| && 0 < |chunk| <= conns[i].Room()
      modifies Repr
      ensures Valid() && Repr == old(Repr) && conns == old(conns)
      ensures SM.Enabled(old(state), SM.Receive(i, chunk))
      ensures state == SM.Step(env, old(state), SM.Receive(i, chunk))
      ensures trace == old(trace) + [SM.Receive(i, chunk)]
      ensures conns[i].model.r.consumed == old(conns[i].model.r.consumed) + chunk
    {
      hide SM.Runs, SM.Waiting, TcpConnection.Valid, SetMatches, CoreMatches, DecodeHeader;
      ReadIsOutstanding(conns[i]);
      conns[i].ReceiveSome(chunk);
      Follow(SM.Receive(i, chunk));
    }

    /** The outstanding read of connection i completes or fails. */
    method OnReadDone(i: nat, ok: bool)
      requires Valid() && i < |conns| && conns[i].Reading() && (ok ==> conns[i].Room() == 0)
      modifies Repr
      ensures Valid() && Repr == old(Repr) && conns == old(conns)
      ensures SM.Enabled(old(state), if ok then SM.Received(i) else SM.ReceiveFails(i))
      ensures state == SM.Step(env, old(state), if ok then SM.Received(i) else SM.ReceiveFails(i))
      ensures trace == old(trace) + [if ok then SM.Received(i) else SM.ReceiveFails(i)]
      ensures conns[i].readOp.Failed? == !ok
      ensures handler.participants == old(handler.participants) - (if ok then {} else {conns[i]})
    {
      if conns[i].readOp.HeaderRead? {
        OnHeaderRead(i, ok);
      } else {
        OnBodyRead(i, ok);
      }
    }

    method OnHeaderRead(i: nat, ok: bool)
      requires Valid() && i < |conns| && conns[i].readOp.HeaderRead? && (ok ==> conns[i].Room() == 0)
      modifies Repr
      ensures Valid() && Repr == old(Repr) && conns == old(conns)
      ensures SM.Enabled(old(state), if ok then SM.Received(i) else SM.ReceiveFails(i))
      ensures state == SM.Step(env, old(state), if ok then SM.Received(i) else SM.ReceiveFails(i))
      ensures trace == old(trace) + [if ok then SM.Received(i) else SM.ReceiveFails(i)]
      ensures conns[i].readOp.Failed? == !ok
      ensures handler.participants == old(handler.participants) - (if ok then {} else {conns[i]})
    {
      hide SM.Runs, SM.Waiting, SM.Step, SM.Enabled, TcpConnection.Valid, SetMatches, CoreMatches, DecodeHeader;
      ReadIsOutstanding(conns[i]);
      HeaderStep(env, state, i, ok);
      Leaves(handler.participants, conns, state.participants, i, ok);
      conns[i].OnHeaderRead(ok);
      Follow(if ok then SM.Received(i) else SM.ReceiveFails(i));
    }

    method OnBodyRead(i: nat, ok: bool)
      requires Valid() && i < |conns| && conns[i].readOp.BodyRead? && (ok ==> conns[i].Room() == 0)
      modifies Repr
      ensures Valid() && Repr == old(Repr) && conns == old(conns)
      ensures SM.Enabled(old(state), if ok then SM.Received(i) else SM.ReceiveFails(i))
      ensures state == SM.Step(env, old(state), if ok then SM.Received(i) else SM.ReceiveFails(i))
      ensures trace == old(trace) + [if ok then SM.Received(i) else SM.ReceiveFails(i)]
      ensures conns[i].readOp.Failed? == !ok
      ensures handler.participants == old(handler.participants) - (if ok then {} else {conns[i]})
    {
      hide SM.Runs, SM.Waiting, SM.Step, SM.Enabled, SM.Respond, TcpConnection.Valid, SetMatches;
      hide DecodeHeader, A.Handle, UsersFrom, Sessions;
      ReadIsOutstanding(conns[i]);
      BodyStep(env, state, i, ok);
      Leaves(handler.participants, conns, state.participants, i, ok);
      conns[i].OnBodyRead(ok);
      Follow(if ok then SM.Received(i) else SM.ReceiveFails(i));
      CoreMoves(db.rows, srv.users, old(srv.users), conns, i, state.core);
      hide CoreMatches;
    }

    /** The outstanding write of connection i sends some bytes. */
    method OnSent(i: nat, count: nat) returns (chunk: Bytes)
      requires Valid() && i < |conns| && 0 < count <= conns[i].Unsent()
      modifies Repr
      ensures Valid() && Repr == old(Repr) && conns == old(conns)
      ensures SM.Enabled(old(state), SM.Send(i, count))
      ensures state == SM.Step(env, old(state), SM.Send(i, count))
      ensures trace == old(trace) + [SM.Send(i, count)]
      ensures chunk == WQ.Chunk(old(state).conns[i].w.w, count)
      ensures conns[i].Unsent() == old(conns[i].Unsent()) - count
    {
      hide SM.Runs, SM.Waiting, TcpConnection.Valid, SetMatches, CoreMatches, DecodeHeader;
      WriteIsOutstanding(conns[i]);
      chunk := conns[i].SendSome(count);
      Follow(SM.Send(i, count));
    }

    /** The outstanding write of connection i completes or fails. */
    method OnWriteDone(i: nat, ok: bool)
      requires Valid() && i < |conns| && conns[i].writeOp.Active? && (ok ==> conns[i].Unsent() == 0)
      modifies Repr
      ensures Valid() && Repr == old(Repr) && conns == old(conns)
      ensures SM.Enabled(old(state), if ok then SM.Sent(i) else SM.SendFails(i))
      ensures state == SM.Step(env, old(state), if ok then SM.Sent(i) else SM.SendFails(i))
      ensures trace == old(trace) + [if ok then SM.Sent(i) else SM.SendFails(i)]
      ensures conns[i].writeOp.Failed? == !ok
      ensures conns[i].writeMsgs == if ok then old(conns[i].writeMsgs)[1..] else old(conns[i].writeMsgs)
      ensures handler.participants == old(handler.participants) - (if ok then {} else {conns[i]})
    {
      hide SM.Runs, SM.Waiting, SM.Step, SM.Enabled, TcpConnection.Valid, SetMatches, CoreMatches, DecodeHeader;
      WriteIsOutstanding(conns[i]);
      WriteStep(env, state, i, ok);
      Leaves(handler.participants, conns, state.participants, i, ok);
      conns[i].OnWritten(ok);
      Follow(if ok then SM.Sent(i) else SM.SendFails(i));
    }

    lemma AcceptIsReady()
      requires Valid()
      ensures tcp.Valid() && forall j :: 0 <= j < |conns| - 1 ==> conns[j] != conns[|conns| - 1]
      ensures SM.Ready(state.conns[|conns| - 1]) && !state.conns[|conns| - 1].accepted
    {
      hide SM.Runs, TcpConnection.Valid, Sessions, DecodeHeader;
      ConnectionIsReady(conns[|conns| - 1]);
    }

    /** The connection that was waiting is accepted: it is in the set, has its handler, one
        message in its queue, the connect response, and reads; and a new one waits. */
    ghost predicate Greeted(before: seq<TcpConnection>)
      requires before != []
      reads this, before, handler, conns
    {
      var c := before[|before| - 1];
      && |conns| == |before| + 1 && conns[..|before|] == before && conns[|before|].handler == null
      && c in handler.participants && c.handler == handler
      && c.Queued([], env.render(ConnectResponse(0))) && c.readOp == RL.HeaderRead(0)
    }

    /** Only the waiting connection is another object. */
    ghost predicate Replaced(before: seq<TcpConnection>)
      requires before != []
      reads this, conns
    {
      var n := |before| - 1;
      |conns| == n + 1 && conns[..n] == before[..n] && conns[n] != before[n] && conns[n].handler == null
    }

    /** The accept completes: the waiting connection is accepted, and a new one waits. */
    method OnAccepted()
      requires Valid()
      modifies Repr
      ensures Valid() && fresh(Repr - old(Repr))
      ensures Greeted(old(conns)) && handler.participants == old(handler.participants) + {old(tcp.accepting)}
      ensures var i := |old(conns)| - 1;
              var junk := conns[|conns| - 1].readMsg.Value();
              && SM.Enabled(old(state), SM.Accept(i)) && junk.Valid()
              && SM.Enabled(SM.Step(env, old(state), SM.Accept(i)), SM.Knock(junk))
              && state == SM.Step(env, SM.Step(env, old(state), SM.Accept(i)), SM.Knock(junk))
              && trace == old(trace) + [SM.Accept(i), SM.Knock(junk)]
    {
      hide SM.Runs, SM.Waiting, SM.Step, SM.Enabled, SM.Accepted, TcpConnection.Valid;
      hide SetMatches, CoreMatches, Separate, Simulates;
      var i := |conns| - 1;
      AcceptIsReady();
      SimulatesMeans(conns[i], i, state.conns[i], HandlerOf(i));
      tcp.HandleAccept(true);
      var next: TcpConnection := tcp.accepting;
      SimulatesMeans(conns[i], i, SM.Accepted(env, state.conns[i]), handler);
      SimulatesMeans(next, i + 1, SM.Waiting(next.readMsg.Value()), null);
      ConnectionIsReady(next);
      AcceptStep(env, state, next.readMsg.Value());
      Joins(old(handler.participants), db.rows, srv.users, conns, next, state);
      Repr := Repr + {next, next.readMsg, next.readMsg.data};
      FollowAccept(next.readMsg.Value());
      conns := conns + [next];
    }

    /** The accept fails: a new object waits in the place of the old one. */
    method OnAcceptError()
      requires Valid()
      modifies Repr
      ensures Valid() && fresh(Repr - old(Repr))
      ensures Replaced(old(conns)) && handler.participants == old(handler.participants)
      ensures var i := |old(conns)| - 1;
              var junk := conns[|conns| - 1].readMsg.Value();
              && SM.Enabled(old(state), SM.AcceptError(i, junk))
              && state == SM.Step(env, old(state), SM.AcceptError(i, junk))
              && trace == old(trace) + [SM.AcceptError(i, junk)]
    {
      hide SM.Runs, SM.Waiting, SM.Step, SM.Enabled, TcpConnection.Valid, SetMatches, CoreMatches, Separate;
      hide Simulates;
      var i := |conns| - 1;
      AcceptIsReady();
      tcp.HandleAccept(false);
      var next: TcpConnection := tcp.accepting;
      SimulatesMeans(next, i, SM.Waiting(next.readMsg.Value()), null);
      ConnectionIsReady(next);
      AcceptStep(env, state, next.readMsg.Value());
      Replaces(handler.participants, db.rows, srv.users, conns, next, state);
      Repr := Repr + {next, next.readMsg, next.readMsg.data};
      Follow(SM.AcceptError(i, next.readMsg.Value()));
      conns := conns[i := next];
    }

    /** There is an operation outstanding that can report the event. */
    predicate Possible(e: Event)
      reads this, conns, set c | c in conns :: c.readMsg
    {
      match e
      case Accepted | AcceptFails => true
      case Received(i, chunk) => i < |conns| && 0 < |chunk| <= conns[i].Room()
      case ReadDone(i, ok) => i < |conns| && conns[i].Reading() && (ok ==> conns[i].Room() == 0)
      case Sent(i, count) => i < |conns| && 0 < count <= conns[i].Unsent()
      case WriteDone(i, ok) => i < |conns| && conns[i].writeOp.Active? && (ok ==> conns[i].Unsent() == 0)
    }

    /** Outside its operations the machine has no step for a report either. */
    lemma ImpossibleIsNotEnabled(e: Event)
      requires Valid() && !Possible(e)
      ensures Takes(env, state, e, [], state)
    {
      hide SM.Runs, SM.Step, SetMatches, CoreMatches, Separate, Simulates;
      if e.Received? || e.ReadDone? || e.Sent? || e.WriteDone? {
        if e.i < |conns| {
          assert Simulates(conns[e.i], e.i, state.conns[e.i], HandlerOf(e.i));
          NothingElseIsEnabled(conns[e.i], e.i, state.conns[e.i], HandlerOf(e.i));
        }
      }
    }

    /** The machine does what the report asks, and so do the objects. */
    method Dispatch(e: Event)
      requires Valid() && Possible(e)
      modifies Repr
      ensures Valid() && fresh(Repr - old(Repr))
      ensures old(trace) <= trace && Takes(env, old(state), e, trace[|old(trace)|..], state)
      ensures match e
              case Accepted =>
                Greeted(old(conns)) && handler.participants == old(handler.participants) + {old(tcp.accepting)}
              case AcceptFails => Replaced(old(conns)) && handler.participants == old(handler.participants)
              case Received(i, chunk) =>
                conns == old(conns) && conns[i].model.r.consumed == old(conns[i].model.r.consumed) + chunk
              case ReadDone(i, ok) =>
                && conns == old(conns) && conns[i].readOp.Failed? == !ok
                && handler.participants == old(handler.participants) - (if ok then {} else {conns[i]})
              case Sent(i, count) => conns == old(conns) && conns[i].Unsent() == old(conns[i].Unsent()) - count
              case WriteDone(i, ok) =>
                && conns == old(conns) && conns[i].writeOp.Failed? == !ok
                && conns[i].writeMsgs == (if ok then old(conns[i].writeMsgs)[1..] else old(conns[i].writeMsgs))
                && handler.participants == old(handler.participants) - (if ok then {} else {conns[i]})
    {
      hide SM.Step, SM.Enabled, SM.Runs, WQ.Chunk, TcpConnection.Valid, TcpConnection.Queued;
      hide Owned, Separate, Wired, SetMatches, CoreMatches, Simulates;
      match e {
        case Accepted =>
          OnAccepted();
          TwoSteps(env, old(state), SM.Accept(|old(conns)| - 1), SM.Knock(conns[|conns| - 1].readMsg.Value()));
        case AcceptFails =>
          OnAcceptError();
          OneStep(env, old(state), SM.AcceptError(|old(conns)| - 1, conns[|conns| - 1].readMsg.Value()));
        case Received(i, chunk) => OnReceived(i, chunk);
        case ReadDone(i, ok) => OnReadDone(i, ok);
        case Sent(i, count) => var _ := OnSent(i, count);
        case WriteDone(i, ok) => OnWriteDone(i, ok);
      }
    }

    /** `io_context::run`: completion handlers run one after another, in whatever order the
        sockets report; a report without an operation outstanding for it cannot come. */
    method Run(reports: seq<Event>)
      requires Valid()
      modifies Repr
      ensures Valid() && fresh(Repr - old(Repr))
      ensures exists states, parts ::
                && Serves(env, reports, states, parts)
                && states[0] == old(state) && states[|reports|] == state
                && trace == old(trace) + Flatten(parts)
    {
      hide Valid, Takes, Serves, Possible;
      ghost var states, parts := [state], [];
      ServesNothing(env, state);
      for k := 0 to |reports|
        invariant Valid() && fresh(Repr - old(Repr))
        invariant |states| == k + 1 && states[0] == old(state) && states[k] == state
        invariant Serves(env, reports[..k], states, parts) && trace == old(trace) + Flatten(parts)
      {
        ghost var before := trace;
        if Possible(reports[k]) {
          Dispatch(reports[k]);
        } else {
          ImpossibleIsNotEnabled(reports[k]);
        }
        assert trace == before + trace[|before|..];
        ServesSnoc(env, reports[..k], states, parts, reports[k], trace[|before|..], state);
        assert reports[..k + 1] == reports[..k] + [reports[k]];
        states, parts := states + [state], parts + [trace[|before|..]];
      }
      assert reports[..|reports|] == reports;
    }
  }

  /** What the machine's invariant says of a connection with its handler. */
  lemma MachineDelivers(env: Env, d: A.Directory, log: seq<SM.Handled>, i: nat, m: SM.Conn)
    requires SM.ConnInv(env, d, log, i, m) && m.accepted
    ensures var deliveries := SM.Deliveries(env, d, log, i);
            && SM.HandledOn(log, i) <= ParseFrames(m.r.consumed).msgs
            && m.w.popped <= |deliveries| && m.w.w.queue == Frames(deliveries[m.w.popped..])
            && m.w.sent <= FrameAll(deliveries)
  {
    hide SM.HandledOn, SM.Replies, SM.Deliveries, ParseFrames, DecodeHeader, Concat, FrameOf;
    RL.HandedIsParsed(m.r);
    WQ.SentIsPrefix(m.w);
    var deliveries := SM.Deliveries(env, d, log, i);
    assert Frames(deliveries)[m.w.popped..] == Frames(deliveries[m.w.popped..]);
  }

  /** The first frame is the connect response, of which the first bytes sent are a part. */
  lemma MachineGreets(env: Env, d: A.Directory, log: seq<SM.Handled>, i: nat, m: SM.Conn)
    requires SM.ConnInv(env, d, log, i, m) && m.accepted
    ensures var greeting := FrameOf(env.render(ConnectResponse(0)));
            && m.w.pushed != [] && m.w.pushed[0] == greeting
            && forall k :: 0 <= k < |m.w.sent| && k < |greeting| ==> m.w.sent[k] == greeting[k]
  {
    hide SM.HandledOn, SM.Replies, ParseFrames, DecodeHeader, FrameOf, RL.Tracked.Inv;
    WQ.SentIsPrefix(m.w);
    hide WQ.Tracked.Inv;
    FrameAllCons(SM.Deliveries(env, d, log, i));
  }

  lemma ObjectIs(c: TcpConnection, id: nat, m: SM.Conn, h: MesHandler?)
    requires Simulates(c, id, m, h)
    ensures c.WriteValid() && QueueFrames(c.writeMsgs) == m.w.w.queue
    ensures c.model == m && c.handler == h && (m.accepted <==> h != null)
    ensures c.readOp == m.r.r.op && c.writeOp == m.w.w.op
    ensures h == null ==> !c.Reading() && !c.writeOp.Active?
  {
    hide DecodeHeader;
  }

  lemma StateIsReached(b: Backend)
    requires b.Valid() && A.WellFormed(b.core0.rows)
    ensures SM.Inv(b.env, b.core0, b.state)
  {
    hide SM.Inv, SM.Runs, A.WellFormed, Simulates;
    SM.InitInv(b.env, b.core0);
    SM.RunKeepsInv(b.env, b.core0, SM.Init(b.core0), b.trace, b.state);
  }

  lemma ValidMeans(b: Backend, i: nat)
    requires b.Valid() && i < |b.conns|
    ensures |b.conns| == |b.state.conns| && Simulates(b.conns[i], i, b.state.conns[i], b.HandlerOf(i))
    ensures b.conns[i] in b.handler.participants <==> i in b.state.participants
    ensures A.Core(b.db.rows, Sessions(b.srv.users)) == b.state.core
  {
    hide Simulates, SM.Runs, Sessions;
  }

  /** What the machine's theorems say of connection i, after any run: it has been handed the
      complete messages it received; its queue and what it sent are the connect response and
      the directory's answers, in order; it is in the set exactly when it has its handler and
      no transfer has failed; and any completion will find its handler set. */
  lemma ConnectionRefines(b: Backend, i: nat)
    requires b.Valid() && A.WellFormed(b.core0.rows) && i < |b.conns|
    ensures var c := b.conns[i];
            c.handler != null ==>
              var deliveries := SM.Deliveries(b.env, A.Abs(b.core0.rows), b.state.log, i);
              && SM.HandledOn(b.state.log, i) <= ParseFrames(c.model.r.consumed).msgs
              && c.model.w.popped <= |deliveries|
              && c.WriteValid() && QueueFrames(c.writeMsgs) == Frames(deliveries[c.model.w.popped..])
              && c.model.w.sent <= FrameAll(deliveries)
    ensures var c := b.conns[i];
            var greeting := FrameOf(b.env.render(ConnectResponse(0)));
            c.handler != null ==>
              && c.model.w.pushed != [] && c.model.w.pushed[0] == greeting
              && forall k :: 0 <= k < |c.model.w.sent| && k < |greeting| ==> c.model.w.sent[k] == greeting[k]
    ensures var c := b.conns[i];
            && (c in b.handler.participants <==> c.handler != null && !c.readOp.Failed? && !c.writeOp.Failed?)
            && (c.Reading() || c.writeOp.Active? ==> c.handler == b.handler)
  {
    hide Backend.Valid, SM.ConnInv, SM.Deliveries, SM.HandledOn, FrameAll, Frames, A.Abs, R.After, Simulates;
    hide A.WellFormed, TcpConnection.WriteValid, ParseFrames, FrameOf;
    StateIsReached(b);
    ValidMeans(b, i);
    ObjectIs(b.conns[i], i, b.state.conns[i], b.HandlerOf(i));
    if b.state.conns[i].accepted {
      MachineDelivers(b.env, A.Abs(b.core0.rows), b.state.log, i, b.state.conns[i]);
      MachineGreets(b.env, A.Abs(b.core0.rows), b.state.log, i, b.state.conns[i]);
    }
  }

  /** And of the table and the sessions: they are those of the sequential run of the requests
      handled, so everything proved of such runs holds of them. */
  lemma TableRefines(b: Backend)
    requires b.Valid() && A.WellFormed(b.core0.rows)
    ensures A.Core(b.db.rows, Sessions(b.srv.users)) == R.After(b.env, b.core0, SM.Entries(b.env, b.state.log))
    ensures A.WellFormed(b.db.rows)
    ensures A.Abs(b.db.rows) == R.SpecAfter(b.env, A.Abs(b.core0.rows), SM.Entries(b.env, b.state.log))
  {
    StateIsReached(b);
    ValidMeans(b, 0);
    R.RunRefines(b.env, b.core0, SM.Entries(b.env, b.state.log));
    hide Simulates, SM.ConnInv, SM.Entries, A.WellFormed, A.Abs, R.After, Sessions;
  }
}
