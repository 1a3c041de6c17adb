/** The account table and the sessions, at the level of the rows the handlers scan, and
    the email directory they implement. */
module Accounts {
  import opened Options
  import opened Api

  datatype Row = Row(nickname: string, userId: nat, email: string, passHash: string)

  /** A logged-in user: what `server::add_user` stores under the user's id. */
  datatype Session = Session(id: nat, email: string, nickname: string, connection: nat)

  datatype Core = Core(rows: seq<Row>, sessions: map<nat, Session>)

  /** A request as the server handles it, with the connection it came from. */
  datatype Entry = Entry(connection: nat, request: Request)

  // ---------- Table queries ----------

  /** select ... where email == `email` */
  function Select(rows: seq<Row>, email: string): (results: seq<Row>)
    ensures forall r :: r in results <==> r in rows && r.email == email
    ensures |results| <= |rows|
  {
    if rows == [] then []
    else (if rows[0].email == email then [rows[0]] else []) + Select(rows[1..], email)
  }

  /** select max(user_id), read as 0 on an empty table */
  function MaxId(rows: seq<Row>): (m: nat)
    ensures forall r :: r in rows ==> r.userId <= m
    ensures rows != [] ==> exists r :: r in rows && r.userId == m
    ensures rows == [] ==> m == 0
  {
    if rows == [] then 0
    else
      var m := MaxId(rows[1..]);
      if |rows| > 1 && m > rows[0].userId then
        var r :| r in rows[1..] && r.userId == m;
        assert r in rows;
        m
      else
        assert rows[0] in rows;
        rows[0].userId
  }

  /** delete ... where email == `email` */
  function Remove(rows: seq<Row>, email: string): (kept: seq<Row>)
    ensures forall r :: r in kept <==> r in rows && r.email != email
  {
    if rows == [] then []
    else (if rows[0].email == email then [] else [rows[0]]) + Remove(rows[1..], email)
  }

  /** The first of `results` that carries the hash. */
  function FirstWithHash(results: seq<Row>, h: string): (r: Option<Row>)
    ensures r.Some? ==> r.value in results && r.value.passHash == h
    ensures r.None? ==> forall x :: x in results ==> x.passHash != h
  {
    if results == [] then None
    else if results[0].passHash == h then Some(results[0])
    else FirstWithHash(results[1..], h)
  }

  // ---------- The three requests on rows ----------

  /** The row a login request logs in on. */
  function LoginRow(env: Env, rows: seq<Row>, req: Request): Option<Row> {
    if req.Login? then FirstWithHash(Select(rows, req.email), env.Salted(req.passHash)) else None
  }

  function RegisterRows(env: Env, rows: seq<Row>, nickname: string, email: string, passHash: string)
    : (seq<Row>, Response)
  {
    if Select(rows, email) != [] then
      (rows, RegisterResponse(NAME_TAKEN, "email is already in use"))
    else
      (rows + [Row(nickname, MaxId(rows) + 1, email, env.Salted(passHash))],
       RegisterResponse(REGISTER_OK, "registration success"))
  }

  function UnregisterRows(env: Env, rows: seq<Row>, email: string, passHash: string)
    : (seq<Row>, Response)
  {
    var results := Select(rows, email);
    if results == [] then
      (rows, UnregisterResponse(NO_NAME, "invalid email"))
    else if results[0].passHash == env.Salted(passHash) then
      (Remove(rows, email), UnregisterResponse(UNREGISTER_OK, "unregister processed, status:ok"))
    else
      (rows, UnregisterResponse(NO_PASS, "invalid pass"))
  }

  function LoginUser(env: Env, c: Core, connection: nat, email: string, passHash: string)
    : (Core, Response)
  {
    if Select(c.rows, email) == [] then
      (c, LoginResponse(NAME_UNKNOWN, "email is unkown"))
    else
      match LoginRow(env, c.rows, Login(email, passHash))
      case Some(row) =>
        (c.(sessions := c.sessions[row.userId :=
              Session(row.userId, row.email, row.nickname, connection)]),
         LoginResponse(LOGIN_OK, "login success"))
      case None => (c, LoginResponse(PASS_INCORRECT, "password is incorrect"))
  }

  /** `mes_handler::handle` on a parsed request: unrecognised types get no response. */
  function Handle(env: Env, c: Core, e: Entry): (Core, Option<Response>) {
    match e.request
    case Register(nickname, email, passHash) =>
      var (rows, rsp) := RegisterRows(env, c.rows, nickname, email, passHash);
      (c.(rows := rows), Some(rsp))
    case Login(email, passHash) =>
      var (core, rsp) := LoginUser(env, c, e.connection, email, passHash);
      (core, Some(rsp))
    case Unregister(email, passHash) =>
      var (rows, rsp) := UnregisterRows(env, c.rows, email, passHash);
      (c.(rows := rows), Some(rsp))
    case Other => (c, None)
  }

  // ---------- The directory: what the table means ----------

  /** One account per email: its password hash. */
  type Directory = map<string, string>

  function SpecHandle(env: Env, d: Directory, req: Request): (Directory, Option<Response>) {
    match req
    case Register(_, email, passHash) =>
      if email in d then (d, Some(RegisterResponse(NAME_TAKEN, "email is already in use")))
      else (d[email := env.Salted(passHash)], Some(RegisterResponse(REGISTER_OK, "registration success")))
    case Login(email, passHash) =>
      (d, Some(if email !in d then LoginResponse(NAME_UNKNOWN, "email is unkown")
               else if d[email] == env.Salted(passHash) then LoginResponse(LOGIN_OK, "login success")
               else LoginResponse(PASS_INCORRECT, "password is incorrect")))
    case Unregister(email, passHash) =>
      if email !in d then (d, Some(UnregisterResponse(NO_NAME, "invalid email")))
      else if d[email] == env.Salted(passHash) then
        (d - {email}, Some(UnregisterResponse(UNREGISTER_OK, "unregister processed, status:ok")))
      else (d, Some(UnregisterResponse(NO_PASS, "invalid pass")))
    case Other => (d, None)
  }

  /** Emails are pairwise distinct and ids strictly increase in insertion order. */
  predicate WellFormed(rows: seq<Row>) {
    forall i, j :: 0 <= i < j < |rows| ==> rows[i].email != rows[j].email && rows[i].userId < rows[j].userId
  }

  function Emails(rows: seq<Row>): set<string> {
    set r | r in rows :: r.email
  }

  /** The directory a table stands for. */
  function Abs(rows: seq<Row>): Directory {
    map e | e in Emails(rows) :: AnyRow(rows, e).passHash
  }

  function AnyRow(rows: seq<Row>, email: string): (r: Row)
    requires email in Emails(rows)
    ensures r in rows && r.email == email
  {
    assert exists r :: r in rows && r.email == email;
    assert Select(rows, email) != [];
    Select(rows, email)[0]
  }

  lemma SelectEmpty(rows: seq<Row>, email: string)
    ensures Select(rows, email) == [] <==> email !in Emails(rows)
  {
    if email in Emails(rows) {
      var r := AnyRow(rows, email);
      assert r in Select(rows, email);
    }
    if Select(rows, email) != [] {
      assert Select(rows, email)[0] in rows;
    }
  }

  /** The directory's entry is the hash of the first row with the email. */
  lemma AbsLookup(rows: seq<Row>, email: string)
    ensures email in Abs(rows) <==> Select(rows, email) != []
    ensures email in Abs(rows) ==> Abs(rows)[email] == Select(rows, email)[0].passHash
  {
    SelectEmpty(rows, email);
  }

  lemma {:induction false} SelectAppend(rows: seq<Row>, row: Row, email: string)
    ensures Select(rows + [row], email) == Select(rows, email) + (if row.email == email then [row] else [])
  {
    if rows != [] {
      assert (rows + [row])[1..] == rows[1..] + [row];
      SelectAppend(rows[1..], row, email);
    }
  }

  lemma {:induction false} SelectRemove(rows: seq<Row>, gone: string, email: string)
    ensures Select(Remove(rows, gone), email) == if email == gone then [] else Select(rows, email)
  {
    if rows != [] {
      SelectRemove(rows[1..], gone, email);
      var kept := Remove(rows[1..], gone);
      if rows[0].email == gone {
        assert [] + kept == kept;
        assert [] + Select(rows[1..], email) == Select(rows[1..], email);
      } else {
        assert ([rows[0]] + kept)[1..] == kept;
      }
    }
  }

  lemma {:induction false} RemoveWellFormed(rows: seq<Row>, email: string)
    requires WellFormed(rows)
    ensures WellFormed(Remove(rows, email))
    ensures |Remove(rows, email)| == |rows| - |Select(rows, email)|
  {
    if rows != [] {
      RemoveWellFormed(rows[1..], email);
      var kept := Remove(rows[1..], email);
      forall i | 0 <= i < |kept|
        ensures rows[0].email != kept[i].email && rows[0].userId < kept[i].userId
      {
        assert kept[i] in rows[1..];
      }
    }
  }

  lemma {:induction false} SelectSingle(rows: seq<Row>, email: string)
    requires WellFormed(rows)
    ensures |Select(rows, email)| <= 1
  {
    if rows != [] {
      SelectSingle(rows[1..], email);
      if rows[0].email == email {
        assert forall r :: r in rows[1..] ==> r.email != email;
        SelectEmpty(rows[1..], email);
      }
    }
  }

  lemma InsertWellFormed(rows: seq<Row>, row: Row)
    requires WellFormed(rows) && row.email !in Emails(rows) && row.userId > MaxId(rows)
    ensures WellFormed(rows + [row])
  {
    forall i | 0 <= i < |rows| ensures rows[i].email != row.email && rows[i].userId < row.userId {
      assert rows[i] in rows;
    }
  }

  lemma AbsInsert(rows: seq<Row>, row: Row)
    requires row.email !in Emails(rows)
    ensures Abs(rows + [row]) == Abs(rows)[row.email := row.passHash]
  {
    SelectEmpty(rows, row.email);
    assert Emails(rows + [row]) == Emails(rows) + {row.email} by {
      assert row in rows + [row];
      assert forall r :: r in rows ==> r in rows + [row];
    }
    forall e | e in Emails(rows + [row])
      ensures Abs(rows + [row])[e] == Abs(rows)[row.email := row.passHash][e]
    {
      SelectAppend(rows, row, e);
    }
  }

  lemma EmailsRemove(rows: seq<Row>, email: string)
    ensures Emails(Remove(rows, email)) == Emails(rows) - {email}
  {
    forall e ensures e in Emails(Remove(rows, email)) <==> e in Emails(rows) && e != email {
      SelectRemove(rows, email, e);
      SelectEmpty(rows, e);
      SelectEmpty(Remove(rows, email), e);
    }
  }

  lemma AbsRemove(rows: seq<Row>, email: string)
    ensures Abs(Remove(rows, email)) == Abs(rows) - {email}
  {
    var kept := Remove(rows, email);
    EmailsRemove(rows, email);
    hide Emails, Remove, Select;
    forall e | e in Emails(kept) ensures Abs(kept)[e] == Abs(rows)[e] {
      SelectRemove(rows, email, e);
    }
  }

  /** Row k is the first with the email. */
  predicate IsFirst(rows: seq<Row>, email: string, k: nat) {
    k < |rows| && rows[k].email == email && forall j :: 0 <= j < k ==> rows[j].email != email
  }

  lemma {:induction false} FirstSelected(rows: seq<Row>, email: string, k: nat)
    requires IsFirst(rows, email, k)
    ensures Select(rows, email) != [] && Select(rows, email)[0] == rows[k]
  {
    if k > 0 {
      FirstSelected(rows[1..], email, k - 1);
    }
  }

  predicate Matches(row: Row, email: string, passHash: string) {
    row.email == email && row.passHash == passHash
  }

  /** Row m is the first with the email and the hash. */
  predicate IsFirstMatch(rows: seq<Row>, email: string, passHash: string, m: nat) {
    && m < |rows| && Matches(rows[m], email, passHash)
    && forall j :: 0 <= j < m ==> !Matches(rows[j], email, passHash)
  }

  lemma FirstOfCons(row: Row, rest: seq<Row>, h: string)
    ensures FirstWithHash([row] + rest, h) == if row.passHash == h then Some(row) else FirstWithHash(rest, h)
  {
    assert ([row] + rest)[1..] == rest;
  }

  lemma SelectCons(rows: seq<Row>, email: string)
    requires rows != []
    ensures var rest := Select(rows[1..], email);
            Select(rows, email) == if rows[0].email == email then [rows[0]] + rest else rest
  {
    assert [] + Select(rows[1..], email) == Select(rows[1..], email);
  }

  lemma {:induction false} FirstMatchSelected(rows: seq<Row>, email: string, passHash: string, m: nat)
    requires IsFirstMatch(rows, email, passHash, m)
    ensures FirstWithHash(Select(rows, email), passHash) == Some(rows[m])
  {
    hide Select, FirstWithHash;
    SelectCons(rows, email);
    FirstOfCons(rows[0], Select(rows[1..], email), passHash);
    if m > 0 {
      assert !Matches(rows[0], email, passHash);
      FirstMatchSelected(rows[1..], email, passHash, m - 1);
    }
  }

  /** What the three scans do on any table at all, duplicates included. Register refuses if
      any row has the email, login accepts if any such row has the hash, unregister looks at
      the first such row only, which is row k; and the hash is that of password and salt. */
  lemma ScansOnAnyTable(env: Env, c: Core, connection: nat, nickname: string, email: string, passHash: string, k: nat)
    requires k < |c.rows| ==> c.rows[k].email == email
    requires forall j :: 0 <= j < k && j < |c.rows| ==> c.rows[j].email != email
    ensures RegisterRows(env, c.rows, nickname, email, passHash) ==
            if k < |c.rows| then (c.rows, RegisterResponse(NAME_TAKEN, "email is already in use"))
            else (c.rows + [Row(nickname, MaxId(c.rows) + 1, email, env.hash(passHash + env.salt))],
                  RegisterResponse(REGISTER_OK, "registration success"))
    ensures LoginUser(env, c, connection, email, passHash).1 ==
            if k >= |c.rows| then LoginResponse(NAME_UNKNOWN, "email is unkown")
            else if exists r :: r in c.rows && Matches(r, email, env.hash(passHash + env.salt))
            then LoginResponse(LOGIN_OK, "login success")
            else LoginResponse(PASS_INCORRECT, "password is incorrect")
    ensures forall m: nat :: IsFirstMatch(c.rows, email, env.hash(passHash + env.salt), m) ==>
              var r := c.rows[m];
              LoginUser(env, c, connection, email, passHash).0 ==
                c.(sessions := c.sessions[r.userId := Session(r.userId, email, r.nickname, connection)])
    ensures (forall r :: r in c.rows ==> !Matches(r, email, env.hash(passHash + env.salt))) ==>
              LoginUser(env, c, connection, email, passHash).0 == c
    ensures UnregisterRows(env, c.rows, email, passHash) ==
            if k >= |c.rows| then (c.rows, UnregisterResponse(NO_NAME, "invalid email"))
            else if c.rows[k].passHash == env.hash(passHash + env.salt)
            then (Remove(c.rows, email), UnregisterResponse(UNREGISTER_OK, "unregister processed, status:ok"))
            else (c.rows, UnregisterResponse(NO_PASS, "invalid pass"))
  {
    hide Select, MaxId, Remove;
    if k < |c.rows| {
      FirstSelected(c.rows, email, k);
    } else {
      assert forall r :: r in c.rows ==> r.email != email;
      SelectEmpty(c.rows, email);
    }
    LoginMeans(env, c, connection, email, passHash);
    hide FirstWithHash, LoginUser, RegisterRows, UnregisterRows;
  }

  lemma RegisterMeans(env: Env, rows: seq<Row>, nickname: string, email: string, passHash: string)
    ensures RegisterRows(env, rows, nickname, email, passHash) ==
            if exists r :: r in rows && r.email == email
            then (rows, RegisterResponse(NAME_TAKEN, "email is already in use"))
            else (rows + [Row(nickname, MaxId(rows) + 1, email, env.hash(passHash + env.salt))],
                  RegisterResponse(REGISTER_OK, "registration success"))
  {
    hide MaxId;
    SelectEmpty(rows, email);
  }

  lemma LoginMeans(env: Env, c: Core, connection: nat, email: string, passHash: string)
    ensures LoginRow(env, c.rows, Login(email, passHash)).Some? <==>
            exists r :: r in c.rows && Matches(r, email, env.hash(passHash + env.salt))
    ensures forall m: nat :: IsFirstMatch(c.rows, email, env.hash(passHash + env.salt), m) ==>
              && LoginRow(env, c.rows, Login(email, passHash)) == Some(c.rows[m])
              && LoginUser(env, c, connection, email, passHash).0 ==
                   c.(sessions := c.sessions[c.rows[m].userId :=
                        Session(c.rows[m].userId, email, c.rows[m].nickname, connection)])
    ensures (forall r :: r in c.rows ==> !Matches(r, email, env.hash(passHash + env.salt))) ==>
              LoginUser(env, c, connection, email, passHash).0 == c
    ensures LoginUser(env, c, connection, email, passHash).1 ==
            if exists r :: r in c.rows && Matches(r, email, env.hash(passHash + env.salt))
            then LoginResponse(LOGIN_OK, "login success")
            else if exists r :: r in c.rows && r.email == email
            then LoginResponse(PASS_INCORRECT, "password is incorrect")
            else LoginResponse(NAME_UNKNOWN, "email is unkown")
  {
    SelectEmpty(c.rows, email);
    hide Select;
    if r :| r in c.rows && Matches(r, email, env.hash(passHash + env.salt)) {
      assert r in Select(c.rows, email);
    }
    forall m: nat | IsFirstMatch(c.rows, email, env.hash(passHash + env.salt), m)
      ensures LoginRow(env, c.rows, Login(email, passHash)) == Some(c.rows[m])
    {
      FirstMatchSelected(c.rows, email, env.hash(passHash + env.salt), m);
    }
  }

  lemma UnregisterMeans(env: Env, rows: seq<Row>, email: string, passHash: string)
    ensures forall k: nat :: IsFirst(rows, email, k) ==>
              UnregisterRows(env, rows, email, passHash) ==
                if rows[k].passHash == env.hash(passHash + env.salt)
                then (Remove(rows, email), UnregisterResponse(UNREGISTER_OK, "unregister processed, status:ok"))
                else (rows, UnregisterResponse(NO_PASS, "invalid pass"))
    ensures (forall r :: r in rows ==> r.email != email) ==>
              UnregisterRows(env, rows, email, passHash) == (rows, UnregisterResponse(NO_NAME, "invalid email"))
  {
    hide Remove, Select;
    SelectEmpty(rows, email);
    forall k: nat | IsFirst(rows, email, k)
      ensures Select(rows, email) != [] && Select(rows, email)[0] == rows[k]
    {
      FirstSelected(rows, email, k);
    }
  }

  lemma RegisterRefines(env: Env, rows: seq<Row>, nickname: string, email: string, passHash: string)
    requires WellFormed(rows)
    ensures var (rows', rsp) := RegisterRows(env, rows, nickname, email, passHash);
            && WellFormed(rows')
            && (Abs(rows'), Some(rsp)) == SpecHandle(env, Abs(rows), Register(nickname, email, passHash))
  {
    AbsLookup(rows, email);
    SelectEmpty(rows, email);
    hide Abs, Select, WellFormed, MaxId;
    if email !in Emails(rows) {
      var row := Row(nickname, MaxId(rows) + 1, email, env.Salted(passHash));
      InsertWellFormed(rows, row);
      AbsInsert(rows, row);
    }
  }

  lemma UnregisterRefines(env: Env, rows: seq<Row>, email: string, passHash: string)
    requires WellFormed(rows)
    ensures var (rows', rsp) := UnregisterRows(env, rows, email, passHash);
            && WellFormed(rows')
            && (Abs(rows'), Some(rsp)) == SpecHandle(env, Abs(rows), Unregister(email, passHash))
  {
    hide Abs, Select, Remove, WellFormed;
    AbsLookup(rows, email);
    RemoveWellFormed(rows, email);
    AbsRemove(rows, email);
  }

  lemma LoginRefines(env: Env, c: Core, connection: nat, email: string, passHash: string)
    requires WellFormed(c.rows)
    ensures var (c', rsp) := LoginUser(env, c, connection, email, passHash);
            && c'.rows == c.rows
            && (Abs(c.rows), Some(rsp)) == SpecHandle(env, Abs(c.rows), Login(email, passHash))
  {
    hide Abs, Select, WellFormed;
    AbsLookup(c.rows, email);
    SelectSingle(c.rows, email);
  }

  /** Table-to-map refinement: on a well-formed table the three scans, each with its own
      idea of a matching row, simulate the one directory operation and answer alike, and
      the table stays well-formed. */
  lemma HandleRefines(env: Env, c: Core, e: Entry)
    requires WellFormed(c.rows)
    ensures var (c', rsp) := Handle(env, c, e);
            && WellFormed(c'.rows)
            && (Abs(c'.rows), rsp) == SpecHandle(env, Abs(c.rows), e.request)
  {
    hide Abs;
    match e.request
    case Register(nickname, email, passHash) => RegisterRefines(env, c.rows, nickname, email, passHash);
    case Login(email, passHash) => LoginRefines(env, c, e.connection, email, passHash);
    case Unregister(email, passHash) => UnregisterRefines(env, c.rows, email, passHash);
    case Other =>
  }
}
