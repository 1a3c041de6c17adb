/** The server's objects. A connection calls its handler and the handler calls back its
    connections, and sessions refer to connections, so they live in one module. Each
    completion handler is a method; the operations that Asio has outstanding for a socket
    are the fields `readOp` and `writeOp`. */
module GameServer {
  import opened Options
  import opened Framing
  import opened Messages
  import opened Api
  import A = Accounts
  import RL = ReadLoop
  import WQ = WriteQueue
  import SM = ServerMachine

  class TcpConnection {
    /** The connection's place in the order of accepting; it names the connection in the
        machine and in the sessions. */
    ghost const id: nat
    const readMsg: Message
    var handler: MesHandler?
    var writeMsgs: seq<Msg>
    var readOp: RL.ReadOp
    var writeOp: WQ.WriteOp
    /** The state of the server machine that this connection is in. */
    ghost var model: SM.Conn

    ghost predicate ReadValid()
      reads this, readMsg, readMsg.data
    {
      readMsg.Valid() && model.r.r == RL.Reader(readMsg.Value(), readOp) && model.r.r.Valid()
    }

    ghost predicate WriteValid()
      reads this
    {
      && AllValid(writeMsgs)
      && model.w.w == WQ.Writer(QueueFrames(writeMsgs), writeOp) && model.w.w.Valid()
    }

    /** The machine's accepted connections are those with a handler; without one nothing
        is outstanding, so every completion finds the handler set. */
    ghost predicate Valid()
      reads this, readMsg, readMsg.data
    {
      && ReadValid() && WriteValid()
      && (model.accepted <==> handler != null)
      && (handler == null ==> readOp.NotStarted? && writeOp.Idle?)
    }

    /** One message with this text has joined the queue `before`. */
    ghost predicate Queued(before: seq<Msg>, text: Body)
      reads this
    {
      && |writeMsgs| == |before| + 1 && writeMsgs[..|before|] == before
      && writeMsgs[|before|].Valid() && writeMsgs[|before|].Text() == text
    }

    constructor (ghost id: nat)
      ensures Valid() && fresh(readMsg) && fresh(readMsg.data)
      ensures this.id == id && handler == null && model == SM.Waiting(readMsg.Value())
    {
      this.id := id;
      readMsg := new Message();
      handler := null;
      writeMsgs, readOp, writeOp := [], RL.NotStarted, WQ.Idle;
      new;
      model := SM.Waiting(readMsg.Value());
    }

    method AddHandler(h: MesHandler)
      modifies this`handler, this`model
      ensures handler == h && model == old(model).(accepted := true)
    {
      handler := h;
      model := model.(accepted := true);
    }

    /** Reading starts only on a connection that has its handler. */
    method Start()
      requires ReadValid() && WriteValid() && handler != null && model.accepted
      requires !model.r.r.Outstanding()
      modifies this`readOp, this`model
      ensures Valid() && model == old(model).(r := old(model.r).(r := RL.StartHeader(old(model.r.r))))
    {
      DoReadHeader();
      model := model.(r := model.r.(r := RL.StartHeader(model.r.r)));
    }

    /** The message joins the queue; a write starts only when none is in progress. */
    method Deliver(msg: Message)
      requires WriteValid() && msg.Valid()
      modifies this`writeMsgs, this`writeOp, this`model
      ensures WriteValid() && writeMsgs == old(writeMsgs) + [msg.Value()]
      ensures model == old(model).(w := old(model.w).Step(WQ.Deliver(msg.Value().Frame())))
    {
      var writeInProgress := writeMsgs != [];
      writeMsgs := writeMsgs + [Msg(msg.data[..], msg.bodyLength)];
      if !writeInProgress {
        DoWrite();
      }
      model := model.(w := model.w.Step(WQ.Deliver(msg.Value().Frame())));
      assert QueueFrames(writeMsgs) == QueueFrames(old(writeMsgs)) + [msg.Value().Frame()];
    }

    /** Starting a read or a write demands that none is outstanding. */
    method DoReadHeader()
      requires !readOp.HeaderRead? && !readOp.BodyRead?
      modifies this`readOp
      ensures readOp == RL.HeaderRead(0)
    {
      readOp := RL.HeaderRead(0);
    }

    method DoReadBody()
      requires !readOp.HeaderRead? && !readOp.BodyRead?
      modifies this`readOp
      ensures readOp == RL.BodyRead(0)
    {
      readOp := RL.BodyRead(0);
    }

    method DoWrite()
      requires writeMsgs != [] && !writeOp.Active?
      modifies this`writeOp
      ensures writeOp == WQ.Active(0)
    {
      writeOp := WQ.Active(0);
    }

    predicate Reading()
      reads this
    {
      readOp.HeaderRead? || readOp.BodyRead?
    }

    /** How many more bytes the outstanding read accepts. */
    function Room(): (n: int)
      reads this, readMsg
    {
      match readOp
      case HeaderRead(got) => HEADER_LENGTH - got
      case BodyRead(got) => readMsg.bodyLength - got
      case _ => 0
    }

    /** How many bytes the outstanding write has still to send. */
    function Unsent(): (n: int)
      reads this
    {
      if writeOp.Active? && writeMsgs != [] then HEADER_LENGTH + writeMsgs[0].bodyLength - writeOp.sent else 0
    }

    /** Bytes arrive for the outstanding read. */
    method ReceiveSome(chunk: Bytes)
      requires Valid() && model.r.Enabled(RL.Arrive(chunk))
      modifies this`readOp, this`model, readMsg.data
      ensures Valid() && model == old(model).(r := old(model.r).Step(RL.Arrive(chunk)))
    {
      hide DecodeHeader;
      RL.ReceiveKeepsValid(model.r.r, chunk);
      match readOp {
        case HeaderRead(got) =>
          readMsg.Store(got, chunk);
          readOp := RL.HeaderRead(got + |chunk|);
        case BodyRead(got) =>
          readMsg.Store(HEADER_LENGTH + got, chunk);
          readOp := RL.BodyRead(got + |chunk|);
      }
      model := model.(r := model.r.Step(RL.Arrive(chunk)));
    }

    /** Completion of the header read, successful or not. */
    method OnHeaderRead(ok: bool)
      requires Valid() && readOp.HeaderRead?
      requires model.r.Enabled(if ok then RL.Complete else RL.Break)
      modifies this`readOp, this`model, readMsg`bodyLength, handler`participants
      ensures Valid() && model == old(model).(r := old(model.r).Step(if ok then RL.Complete else RL.Break))
      ensures handler.participants == old(handler.participants) - (if ok then {} else {this})
      ensures readOp.Failed? == !ok
    {
      hide DecodeHeader;
      ghost var fill := model.r.r.Fill();
      model := model.(r := model.r.Step(if ok then RL.Complete else RL.Break));
      if ok {
        readOp := RL.NotStarted;
        var decoded := readMsg.DecodeHeader();
        if decoded {
          DoReadBody();
        } else {
          readOp := RL.Rejected;
        }
      } else {
        readOp := RL.Failed(readOp.got);
        handler.DelConnection(this);
      }
    }

    /** Completion of the body read: the handler runs on the read buffer, which is not
        touched before the next header read starts. */
    method OnBodyRead(ok: bool)
      requires Valid() && readOp.BodyRead? && handler.Ready()
      requires model.r.Enabled(if ok then RL.Complete else RL.Break)
      modifies this`readOp, this`writeMsgs, this`writeOp, this`model
      modifies handler`participants, handler.db`rows, handler.srv`users
      ensures Valid() && handler.Ready() && handler.db == old(handler.db) && handler.srv == old(handler.srv)
      ensures UsersFrom(handler.srv.users, old(handler.srv.users), this) && readOp.Failed? == !ok
      ensures ok ==>
                var (core, rsp) := A.Handle(handler.env, old(handler.CoreView()),
                                            A.Entry(id, handler.env.parse(old(readMsg.Value().Text()))));
                && handler.CoreView() == core
                && model == SM.Respond(handler.env, old(model).(r := old(model.r).Step(RL.Complete)), rsp)
                && handler.participants == old(handler.participants)
      ensures !ok ==>
                && handler.CoreView() == old(handler.CoreView())
                && model == old(model).(r := old(model.r).Step(RL.Break))
                && handler.participants == old(handler.participants) - {this}
    {
      hide DecodeHeader, FrameOf, A.Handle;
      if ok {
        readOp := RL.NotStarted;
        handler.Handle(readMsg, this);
        DoReadHeader();
        model := model.(r := model.r.Step(RL.Complete));
      } else {
        model := model.(r := model.r.Step(RL.Break));
        readOp := RL.Failed(HEADER_LENGTH + readOp.got);
        handler.DelConnection(this);
      }
    }

    /** The outstanding write sends the next bytes of the front message. */
    method SendSome(count: nat) returns (chunk: Bytes)
      requires Valid() && model.w.Enabled(WQ.Send(count))
      modifies this`writeOp, this`model
      ensures Valid() && model == old(model).(w := old(model.w).Step(WQ.Send(count)))
      ensures chunk == WQ.Chunk(old(model.w.w), count) && Unsent() == old(Unsent()) - count
    {
      var front := writeMsgs[0];
      chunk := front.data[writeOp.sent..writeOp.sent + count];
      model := model.(w := model.w.Step(WQ.Send(count)));
      writeOp := WQ.Active(writeOp.sent + count);
    }

    /** Completion of the write: pop the front and write the next, or leave the set. */
    method OnWritten(ok: bool)
      requires Valid() && model.w.Enabled(if ok then WQ.Complete else WQ.Break)
      modifies this`writeMsgs, this`writeOp, this`model, handler`participants
      ensures Valid() && model == old(model).(w := old(model.w).Step(if ok then WQ.Complete else WQ.Break))
      ensures writeMsgs == (if ok then old(writeMsgs)[1..] else old(writeMsgs)) && writeOp.Failed? == !ok
      ensures handler.participants == old(handler.participants) - (if ok then {} else {this})
    {
      model := model.(w := model.w.Step(if ok then WQ.Complete else WQ.Break));
      if ok {
        assert QueueFrames(writeMsgs[1..]) == QueueFrames(writeMsgs)[1..];
        writeMsgs := writeMsgs[1..];
        writeOp := WQ.Idle;
        if writeMsgs != [] {
          DoWrite();
        }
      } else {
        writeOp := WQ.Failed(writeOp.sent);
        handler.DelConnection(this);
      }
    }
  }

  /** The rows of the users table, and the queries the handlers send. */
  class Database {
    var rows: seq<A.Row>

    constructor (rows: seq<A.Row>)
      ensures this.rows == rows
    {
      this.rows := rows;
    }

    method SelectByEmail(email: string) returns (results: seq<A.Row>)
      ensures results == A.Select(rows, email)
    {
      results := A.Select(rows, email);
    }

    method MaxUserId() returns (m: nat)
      ensures m == A.MaxId(rows)
    {
      m := A.MaxId(rows);
    }

    method Insert(row: A.Row)
      modifies this`rows
      ensures rows == old(rows) + [row]
    {
      rows := rows + [row];
    }

    method DeleteByEmail(email: string)
      modifies this`rows
      ensures rows == A.Remove(old(rows), email)
    {
      rows := A.Remove(rows, email);
    }
  }

  datatype User = User(id: nat, email: string, nickname: string, connection: TcpConnection)

  /** The sessions that the server's user map holds. */
  ghost function Sessions(users: map<nat, User>): map<nat, A.Session> {
    map k | k in users :: A.Session(users[k].id, users[k].email, users[k].nickname, users[k].connection.id)
  }

  /** Every user was there before or is logged in over `conn`. */
  ghost predicate UsersFrom(users: map<nat, User>, before: map<nat, User>, conn: TcpConnection) {
    forall k :: k in users ==> users[k].connection == conn || (k in before && users[k] == before[k])
  }

  lemma SessionsAdd(users: map<nat, User>, user: User)
    ensures Sessions(users[user.id := user]) ==
            Sessions(users)[user.id := A.Session(user.id, user.email, user.nickname, user.connection.id)]
  {
  }

  class Server {
    var users: map<nat, User>

    constructor ()
      ensures users == map[]
    {
      users := map[];
    }

    /** A later login on the same id replaces the earlier user. */
    method AddUser(user: User)
      modifies this`users
      ensures users == old(users)[user.id := user]
    {
      users := users[user.id := user];
    }

    method GetUser(id: nat) returns (user: Option<User>)
      ensures user == if id in users then Some(users[id]) else None
    {
      if id in users {
        return Some(users[id]);
      }
      return None;
    }

    /** Some user that satisfies the predicate, in whatever order the map is walked. */
    method GetUserBy(pred: User -> bool) returns (user: Option<User>)
      ensures user.Some? ==> user.value in users.Values && pred(user.value)
      ensures user.None? ==> forall k :: k in users ==> !pred(users[k])
    {
      var rest := users.Keys;
      while rest != {}
        invariant rest <= users.Keys
        invariant forall k :: k in users && k !in rest ==> !pred(users[k])
        decreases rest
      {
        var key :| key in rest;
        if pred(users[key]) {
          return Some(users[key]);
        }
        rest := rest - {key};
      }
      return None;
    }
  }

  class MesHandler {
    const env: Env
    var participants: set<TcpConnection>
    var db: Database?
    var srv: Server?

    predicate Ready()
      reads this
    {
      db != null && srv != null
    }

    ghost function CoreView(): A.Core
      requires Ready()
      reads this, db, srv
    {
      A.Core(db.rows, Sessions(srv.users))
    }

    constructor (env: Env)
      ensures this.env == env && participants == {} && db == null && srv == null
    {
      this.env := env;
      participants, db, srv := {}, null, null;
    }

    method ConnectDbWorker(worker: Database)
      modifies this`db
      ensures db == worker
    {
      db := worker;
    }

    method SetServer(s: Server)
      modifies this`srv
      ensures srv == s
    {
      srv := s;
    }

    /** The connection joins the set, has this handler and reads its first header. */
    method AddConnection(conn: TcpConnection)
      requires conn.ReadValid() && conn.WriteValid() && !conn.model.r.r.Outstanding()
      modifies this`participants, conn`handler, conn`readOp, conn`model
      ensures participants == old(participants) + {conn} && conn.handler == this
      ensures conn.Valid()
      ensures conn.model == old(conn.model).(
                accepted := true, r := old(conn.model.r).(r := RL.StartHeader(old(conn.model.r.r))))
    {
      participants := participants + {conn};
      conn.AddHandler(this);
      conn.Start();
    }

    /** Erasing a connection that is not in the set changes nothing. */
    method DelConnection(conn: TcpConnection)
      modifies this`participants
      ensures participants == old(participants) - {conn}
    {
      participants := participants - {conn};
    }

    /** One call answers at most one message, as the row-level specification says. */
    method Handle(msg: Message, sender: TcpConnection)
      requires Ready() && msg.Valid() && sender.WriteValid()
      modifies db`rows, srv`users, sender`writeMsgs, sender`writeOp, sender`model
      ensures sender.WriteValid() && UsersFrom(srv.users, old(srv.users), sender)
      ensures var (core, rsp) := A.Handle(env, old(CoreView()), A.Entry(sender.id, env.parse(msg.Value().Text())));
              CoreView() == core && sender.model == SM.Respond(env, old(sender.model), rsp)
    {
      hide TcpConnection.Queued, A.Matches, A.Select, A.IsFirst;
      var str := msg.ToString();
      match env.parse(str) {
        case Register(nickname, email, passHash) => HandleRegRequest(nickname, email, passHash, sender);
        case Login(email, passHash) => HandleLoginRequest(email, passHash, sender);
        case Unregister(email, passHash) => HandleUnregRequest(email, passHash, sender);
        case Other =>
      }
    }

    method Answer(rsp: Response, sender: TcpConnection)
      requires sender.WriteValid()
      modifies sender`writeMsgs, sender`writeOp, sender`model
      ensures sender.WriteValid() && sender.model == SM.Deliver(old(sender.model), env.render(rsp))
      ensures sender.Queued(old(sender.writeMsgs), env.render(rsp))
    {
      var msg := new Message.FromString(env.render(rsp));
      sender.Deliver(msg);
    }

    method HandleRegRequest(nickname: string, email: string, passHash: string, sender: TcpConnection)
      requires Ready() && sender.WriteValid()
      modifies db`rows, sender`writeMsgs, sender`writeOp, sender`model
      ensures sender.WriteValid()
      ensures var (rows, rsp) := A.RegisterRows(env, old(db.rows), nickname, email, passHash);
              db.rows == rows && sender.model == SM.Deliver(old(sender.model), env.render(rsp))
      ensures if exists r :: r in old(db.rows) && r.email == email then
                && db.rows == old(db.rows)
                && sender.Queued(old(sender.writeMsgs),
                     env.render(RegisterResponse(NAME_TAKEN, "email is already in use")))
              else
                && db.rows == old(db.rows) +
                     [A.Row(nickname, A.MaxId(old(db.rows)) + 1, email, env.hash(passHash + env.salt))]
                && sender.Queued(old(sender.writeMsgs),
                     env.render(RegisterResponse(REGISTER_OK, "registration success")))
    {
      hide A.Select, A.MaxId, SM.Deliver, TcpConnection.Queued;
      var results := db.SelectByEmail(email);
      var ok := true;
      var rsp := RegisterResponse(REGISTER_OK, "");
      for i := 0 to |results|
        invariant ok && i == 0
      {
        assert results[i] in results;
        if results[i].email == email {
          rsp := RegisterResponse(NAME_TAKEN, "email is already in use");
          ok := false;
          break;
        }
      }
      if ok {
        var maxId := db.MaxUserId();
        db.Insert(A.Row(nickname, maxId + 1, email, env.Salted(passHash)));
        rsp := RegisterResponse(REGISTER_OK, "registration success");
      }
      assert (db.rows, rsp) == A.RegisterRows(env, old(db.rows), nickname, email, passHash);
      A.RegisterMeans(env, old(db.rows), nickname, email, passHash);
      hide A.RegisterRows;
      Answer(rsp, sender);
    }

    method HandleLoginRequest(email: string, passHash: string, sender: TcpConnection)
      requires Ready() && sender.WriteValid()
      modifies srv`users, sender`writeMsgs, sender`writeOp, sender`model
      ensures sender.WriteValid()
      ensures UsersFrom(srv.users, old(srv.users), sender)
      ensures var (core, rsp) := A.LoginUser(env, old(CoreView()), sender.id, email, passHash);
              CoreView() == core && sender.model == SM.Deliver(old(sender.model), env.render(rsp))
      ensures if exists r :: r in db.rows && A.Matches(r, email, env.hash(passHash + env.salt)) then
                && sender.Queued(old(sender.writeMsgs), env.render(LoginResponse(LOGIN_OK, "login success")))
                && forall m: nat :: A.IsFirstMatch(db.rows, email, env.hash(passHash + env.salt), m) ==>
                     var r := db.rows[m];
                     srv.users == old(srv.users)[r.userId := User(r.userId, email, r.nickname, sender)]
              else
                && srv.users == old(srv.users)
                && sender.Queued(old(sender.writeMsgs), env.render(
                     if exists r :: r in db.rows && r.email == email
                     then LoginResponse(PASS_INCORRECT, "password is incorrect")
                     else LoginResponse(NAME_UNKNOWN, "email is unkown")))
    {
      hide A.Select, Sessions, SM.Deliver, TcpConnection.Queued;
      var hashed := env.Salted(passHash);
      var results := db.SelectByEmail(email);
      var rsp: Response;
      ghost var found := A.FirstWithHash(results, hashed);
      if results == [] {
        rsp := LoginResponse(NAME_UNKNOWN, "email is unkown");
      } else {
        rsp := LoginResponse(LOGIN_OK, "");
        var status := false;
        for i := 0 to |results|
          invariant !status && srv.users == old(srv.users)
          invariant found == A.FirstWithHash(results[i..], hashed)
        {
          var row := results[i];
          assert results[i..][1..] == results[i + 1..];
          if row.passHash == hashed {
            rsp := LoginResponse(LOGIN_OK, "login success");
            status := true;
            SessionsAdd(srv.users, User(row.userId, row.email, row.nickname, sender));
            srv.AddUser(User(row.userId, row.email, row.nickname, sender));
            break;
          }
        }
        if !status {
          rsp := LoginResponse(PASS_INCORRECT, "password is incorrect");
        }
      }
      assert (CoreView(), rsp) == A.LoginUser(env, old(CoreView()), sender.id, email, passHash);
      A.LoginMeans(env, old(CoreView()), sender.id, email, passHash);
      hide A.LoginUser, A.FirstWithHash, A.LoginRow;
      Answer(rsp, sender);
    }

    method HandleUnregRequest(email: string, passHash: string, sender: TcpConnection)
      requires Ready() && sender.WriteValid()
      modifies db`rows, sender`writeMsgs, sender`writeOp, sender`model
      ensures sender.WriteValid()
      ensures var (rows, rsp) := A.UnregisterRows(env, old(db.rows), email, passHash);
              db.rows == rows && sender.model == SM.Deliver(old(sender.model), env.render(rsp))
      ensures forall k: nat :: A.IsFirst(old(db.rows), email, k) ==>
                if old(db.rows)[k].passHash == env.hash(passHash + env.salt) then
                  && db.rows == A.Remove(old(db.rows), email)
                  && sender.Queued(old(sender.writeMsgs), env.render(
                       UnregisterResponse(UNREGISTER_OK, "unregister processed, status:ok")))
                else
                  && db.rows == old(db.rows)
                  && sender.Queued(old(sender.writeMsgs), env.render(UnregisterResponse(NO_PASS, "invalid pass")))
      ensures (forall r :: r in old(db.rows) ==> r.email != email) ==>
                && db.rows == old(db.rows)
                && sender.Queued(old(sender.writeMsgs), env.render(UnregisterResponse(NO_NAME, "invalid email")))
    {
      hide A.Select, A.Remove, SM.Deliver, TcpConnection.Queued;
      A.UnregisterMeans(env, db.rows, email, passHash);
      var hashed := env.Salted(passHash);
      var results := db.SelectByEmail(email);
      var emailOk := false;
      var rsp := UnregisterResponse(UNREGISTER_OK, "");
      for i := 0 to |results|
        invariant !emailOk && i == 0 && db.rows == old(db.rows)
      {
        assert results[i] in results;
        if results[i].email == email {
          emailOk := true;
          if results[i].passHash == hashed {
            db.DeleteByEmail(email);
            rsp := UnregisterResponse(UNREGISTER_OK, "unregister processed, status:ok");
            break;
          } else {
            rsp := UnregisterResponse(NO_PASS, "invalid pass");
            break;
          }
        }
      }
      if !emailOk {
        rsp := UnregisterResponse(NO_NAME, "invalid email");
      }
      Answer(rsp, sender);
    }
  }

  /** The accept loop: exactly one connection object is waiting for a client. */
  class TcpServer {
    const env: Env
    var handler: MesHandler?
    var accepting: TcpConnection?
    /** How many connections have been accepted. */
    ghost var served: nat

    ghost predicate Waiting(c: TcpConnection)
      reads c, c.readMsg, c.readMsg.data
    {
      c.Valid() && c.handler == null && c.model == SM.Waiting(c.readMsg.Value())
    }

    /** The waiting connection has an id that no participant has. */
    ghost predicate Valid()
      reads this, handler, accepting, if accepting == null then {} else {accepting.readMsg, accepting.readMsg.data}
    {
      && handler != null && handler.env == env
      && accepting != null && Waiting(accepting) && accepting.id == served
      && forall c :: c in handler.participants ==> c.id < served
    }

    /** Accepting starts before the handler exists; no accept can complete in between. */
    constructor (env: Env)
      ensures Valid() && this.env == env && handler.participants == {}
      ensures handler.db == null && handler.srv == null && served == 0
      ensures fresh(handler) && fresh(accepting) && fresh(accepting.readMsg) && fresh(accepting.readMsg.data)
    {
      this.env := env;
      handler, accepting, served := null, null, 0;
      new;
      StartAccept();
      handler := new MesHandler(env);
    }

    method StartAccept()
      modifies this`accepting
      ensures accepting != null && fresh(accepting) && fresh(accepting.readMsg) && fresh(accepting.readMsg.data)
      ensures Waiting(accepting) && accepting.id == served
    {
      accepting := new TcpConnection(served);
    }

    /** Completion of an accept. The new connection has the connect response queued first,
        is in the set, has its handler and reads; an error drops the object. Either way the
        next accept starts, on a new object. */
    method HandleAccept(ok: bool)
      requires Valid()
      modifies this`accepting, this`served, accepting, handler`participants
      ensures Valid() && handler == old(handler) && served == old(served) + if ok then 1 else 0
      ensures fresh(accepting) && fresh(accepting.readMsg) && fresh(accepting.readMsg.data)
      ensures var c := old(accepting);
              if ok then
                && handler.participants == old(handler.participants) + {c}
                && c.Valid() && c.handler == handler && c.model == SM.Accepted(env, old(c.model))
                && c.Queued([], env.render(ConnectResponse(0))) && c.readOp == RL.HeaderRead(0)
              else handler.participants == old(handler.participants) && unchanged(c)
    {
      hide FrameOf, DecodeHeader;
      var conn := accepting;
      var msg := new Message.FromString(env.render(ConnectResponse(0)));
      if ok {
        conn.Deliver(msg);
        handler.AddConnection(conn);
        served := served + 1;
      }
      StartAccept();
    }
  }
}
