/** What whole runs of requests do to the table, the sessions and the answers. A run is
    the log of requests in the order the server handled them, from any connections. */
module AccountRuns {
  import opened Options
  import opened Api
  import opened Accounts

  type Log = seq<Entry>

  /** The state after a run, and the answer to its i-th request. */
  function After(env: Env, c: Core, log: Log): Core {
    if log == [] then c
    else Handle(env, After(env, c, log[..|log| - 1]), log[|log| - 1]).0
  }

  function ReplyAt(env: Env, c: Core, log: Log, i: nat): Option<Response>
    requires i < |log|
  {
    Handle(env, After(env, c, log[..i]), log[i]).1
  }

  /** The directory after a run of the specification. */
  function SpecAfter(env: Env, d: Directory, log: Log): Directory {
    if log == [] then d
    else SpecHandle(env, SpecAfter(env, d, log[..|log| - 1]), log[|log| - 1].request).0
  }

  function SpecReplyAt(env: Env, d: Directory, log: Log, i: nat): Option<Response>
    requires i < |log|
  {
    SpecHandle(env, SpecAfter(env, d, log[..i]), log[i].request).1
  }

  lemma AfterStep(env: Env, c: Core, log: Log, i: nat)
    requires i < |log|
    ensures After(env, c, log[..i + 1]) == Handle(env, After(env, c, log[..i]), log[i]).0
  {
    assert log[..i + 1][..i] == log[..i];
  }

  /** Whole-run refinement, and the table invariant: whatever the requests, emails stay
      pairwise distinct and ids strictly increasing in insertion order. */
  lemma {:induction false} RunRefines(env: Env, c: Core, log: Log)
    requires WellFormed(c.rows)
    ensures WellFormed(After(env, c, log).rows)
    ensures Abs(After(env, c, log).rows) == SpecAfter(env, Abs(c.rows), log)
  {
    if log != [] {
      var n := |log| - 1;
      RunRefines(env, c, log[..n]);
      HandleRefines(env, After(env, c, log[..n]), log[n]);
    }
  }

  lemma RepliesRefine(env: Env, c: Core, log: Log, i: nat)
    requires WellFormed(c.rows) && i < |log|
    ensures ReplyAt(env, c, log, i) == SpecReplyAt(env, Abs(c.rows), log, i)
  {
    RunRefines(env, c, log[..i]);
    HandleRefines(env, After(env, c, log[..i]), log[i]);
  }

  // ---------- Projection to one email ----------

  predicate Names(req: Request, email: string) {
    !req.Other? && req.email == email
  }

  /** The requests of a run that name an email, and the answers they got. */
  function About(log: Log, email: string): seq<Request> {
    if log == [] then []
    else
      var e := log[|log| - 1];
      About(log[..|log| - 1], email) + if Names(e.request, email) then [e.request] else []
  }

  function RepliesAbout(env: Env, c: Core, log: Log, email: string): seq<Option<Response>> {
    if log == [] then []
    else
      var n := |log| - 1;
      RepliesAbout(env, c, log[..n], email)
      + if Names(log[n].request, email) then [ReplyAt(env, c, log, n)] else []
  }

  /** The fate of one email: whether it is registered, and with which hash. */
  function Account(d: Directory, email: string): Option<string> {
    if email in d then Some(d[email]) else None
  }

  /** One email on its own: a two-state machine. */
  function Single(env: Env, a: Option<string>, req: Request): (Option<string>, Option<Response>) {
    match (req, a)
    case (Register(_, _, p), None) =>
      (Some(env.Salted(p)), Some(RegisterResponse(REGISTER_OK, "registration success")))
    case (Register(_, _, _), Some(_)) => (a, Some(RegisterResponse(NAME_TAKEN, "email is already in use")))
    case (Login(_, _), None) => (a, Some(LoginResponse(NAME_UNKNOWN, "email is unkown")))
    case (Login(_, p), Some(h)) =>
      (a, Some(if h == env.Salted(p) then LoginResponse(LOGIN_OK, "login success")
               else LoginResponse(PASS_INCORRECT, "password is incorrect")))
    case (Unregister(_, _), None) => (a, Some(UnregisterResponse(NO_NAME, "invalid email")))
    case (Unregister(_, p), Some(h)) =>
      if h == env.Salted(p) then
        (None, Some(UnregisterResponse(UNREGISTER_OK, "unregister processed, status:ok")))
      else (a, Some(UnregisterResponse(NO_PASS, "invalid pass")))
    case (Other, _) => (a, None)
  }

  function SingleAfter(env: Env, a: Option<string>, reqs: seq<Request>): Option<string> {
    if reqs == [] then a
    else Single(env, SingleAfter(env, a, reqs[..|reqs| - 1]), reqs[|reqs| - 1]).0
  }

  function SingleReplies(env: Env, a: Option<string>, reqs: seq<Request>): seq<Option<Response>> {
    if reqs == [] then []
    else
      var n := |reqs| - 1;
      SingleReplies(env, a, reqs[..n]) + [Single(env, SingleAfter(env, a, reqs[..n]), reqs[n]).1]
  }

  lemma SpecIsLocal(env: Env, d: Directory, req: Request, email: string)
    ensures var (d', rsp) := SpecHandle(env, d, req);
            if Names(req, email)
            then (Account(d', email), rsp) == Single(env, Account(d, email), req)
            else Account(d', email) == Account(d, email)
  {
  }

  lemma {:induction false} EmailIsSingle(env: Env, c: Core, log: Log, email: string)
    requires WellFormed(c.rows)
    ensures var a := Account(Abs(c.rows), email);
            && Account(Abs(After(env, c, log).rows), email) == SingleAfter(env, a, About(log, email))
            && RepliesAbout(env, c, log, email) == SingleReplies(env, a, About(log, email))
  {
    hide Abs, Handle, SpecHandle, Single;
    if log != [] {
      var n := |log| - 1;
      EmailIsSingle(env, c, log[..n], email);
      RunRefines(env, c, log[..n]);
      HandleRefines(env, After(env, c, log[..n]), log[n]);
      SpecIsLocal(env, Abs(After(env, c, log[..n]).rows), log[n].request, email);
      if Names(log[n].request, email) {
        var reqs := About(log, email);
        assert reqs[..|reqs| - 1] == About(log[..n], email);
      } else {
        assert About(log, email) == About(log[..n], email);
        assert RepliesAbout(env, c, log, email) == RepliesAbout(env, c, log[..n], email);
      }
    }
  }

  /** Projection over whole runs: what requests naming `email` are answered, and whether
      the email ends up registered, depends only on how it was registered at the start and
      on those requests themselves. Other emails' requests, other tables, other
      connections and every interleaving make no difference. */
  lemma Projection(env: Env, c1: Core, log1: Log, c2: Core, log2: Log, email: string)
    requires WellFormed(c1.rows) && WellFormed(c2.rows)
    requires Account(Abs(c1.rows), email) == Account(Abs(c2.rows), email)
    requires About(log1, email) == About(log2, email)
    ensures RepliesAbout(env, c1, log1, email) == RepliesAbout(env, c2, log2, email)
    ensures Account(Abs(After(env, c1, log1).rows), email) == Account(Abs(After(env, c2, log2).rows), email)
  {
    EmailIsSingle(env, c1, log1, email);
    EmailIsSingle(env, c2, log2, email);
  }

  // ---------- The life cycle of an account ----------

  predicate RegisteredAt(env: Env, c: Core, log: Log, i: nat, email: string) {
    && i < |log| && log[i].request.Register? && log[i].request.email == email
    && ReplyAt(env, c, log, i) == Some(RegisterResponse(REGISTER_OK, "registration success"))
  }

  predicate UnregisteredAt(env: Env, c: Core, log: Log, i: nat, email: string) {
    && i < |log| && log[i].request.Unregister? && log[i].request.email == email
    && ReplyAt(env, c, log, i) == Some(UnregisterResponse(UNREGISTER_OK, "unregister processed, status:ok"))
  }

  function AccountAt(env: Env, c: Core, log: Log, i: nat, email: string): Option<string>
    requires i <= |log|
  {
    Account(Abs(After(env, c, log[..i]).rows), email)
  }

  /** One request moves one email only by a successful registration or unregistration. */
  lemma AccountStep(env: Env, c: Core, log: Log, i: nat, email: string)
    requires WellFormed(c.rows) && i < |log|
    ensures var a := AccountAt(env, c, log, i, email);
            var a' := AccountAt(env, c, log, i + 1, email);
            && (RegisteredAt(env, c, log, i, email) ==>
                  a == None && a' == Some(env.Salted(log[i].request.passHash)))
            && (UnregisteredAt(env, c, log, i, email) ==>
                  a == Some(env.Salted(log[i].request.passHash)) && a' == None)
            && (!RegisteredAt(env, c, log, i, email) && !UnregisteredAt(env, c, log, i, email) ==> a' == a)
    ensures Names(log[i].request, email) ==>
              ReplyAt(env, c, log, i) == Single(env, AccountAt(env, c, log, i, email), log[i].request).1
  {
    hide Abs, Handle, SpecHandle;
    AfterStep(env, c, log, i);
    RunRefines(env, c, log[..i]);
    HandleRefines(env, After(env, c, log[..i]), log[i]);
    SpecIsLocal(env, Abs(After(env, c, log[..i]).rows), log[i].request, email);
  }

  lemma {:induction false} AccountKept(env: Env, c: Core, log: Log, i: nat, j: nat, email: string)
    requires WellFormed(c.rows) && i <= j <= |log|
    requires forall k :: i <= k < j ==> !RegisteredAt(env, c, log, k, email) && !UnregisteredAt(env, c, log, k, email)
    ensures AccountAt(env, c, log, j, email) == AccountAt(env, c, log, i, email)
    decreases j - i
  {
    hide Abs, After, Handle, RegisteredAt, UnregisteredAt, Account;
    if i < j {
      AccountKept(env, c, log, i, j - 1, email);
      AccountStep(env, c, log, j - 1, email);
    }
  }

  /** A registered email stays registered, with the same hash, until it is unregistered. */
  lemma {:induction false} StaysRegistered(env: Env, c: Core, log: Log, i: nat, j: nat, email: string, h: string)
    requires WellFormed(c.rows) && i <= j <= |log|
    requires AccountAt(env, c, log, i, email) == Some(h)
    requires forall k :: i <= k < j ==> !UnregisteredAt(env, c, log, k, email)
    ensures AccountAt(env, c, log, j, email) == Some(h)
    decreases j - i
  {
    hide AccountAt, RegisteredAt, UnregisteredAt;
    if i < j {
      StaysRegistered(env, c, log, i, j - 1, email, h);
      AccountStep(env, c, log, j - 1, email);
    }
  }

  lemma {:induction false} StaysUnregistered(env: Env, c: Core, log: Log, i: nat, j: nat, email: string)
    requires WellFormed(c.rows) && i <= j <= |log|
    requires AccountAt(env, c, log, i, email) == None
    requires forall k :: i <= k < j ==> !RegisteredAt(env, c, log, k, email)
    ensures AccountAt(env, c, log, j, email) == None
    decreases j - i
  {
    hide AccountAt, RegisteredAt, UnregisteredAt;
    if i < j {
      StaysUnregistered(env, c, log, i, j - 1, email);
      AccountStep(env, c, log, j - 1, email);
    }
  }

  lemma RegisteredNames(env: Env, c: Core, log: Log, i: nat, email: string)
    requires RegisteredAt(env, c, log, i, email)
    ensures i < |log| && log[i].request.Register? && log[i].request.email == email
  {
  }

  /** After a successful registration at i, and until a successful unregistration, every
      request j that names the email is answered by comparing hashes of password and salt. */
  lemma WhileRegistered(env: Env, c: Core, log: Log, i: nat, j: nat, email: string)
    requires WellFormed(c.rows) && i < j < |log|
    requires RegisteredAt(env, c, log, i, email) && Names(log[j].request, email)
    requires forall k :: i < k < j ==> !UnregisteredAt(env, c, log, k, email)
    ensures var same := env.hash(log[j].request.passHash + env.salt) == env.hash(log[i].request.passHash + env.salt);
            ReplyAt(env, c, log, j) ==
              match log[j].request
              case Register(_, _, _) => Some(RegisterResponse(NAME_TAKEN, "email is already in use"))
              case Login(_, _) =>
                Some(if same then LoginResponse(LOGIN_OK, "login success")
                     else LoginResponse(PASS_INCORRECT, "password is incorrect"))
              case _ =>
                Some(if same then UnregisterResponse(UNREGISTER_OK, "unregister processed, status:ok")
                     else UnregisterResponse(NO_PASS, "invalid pass"))
  {
    hide AccountAt, UnregisteredAt, RegisteredAt, ReplyAt;
    RegisteredNames(env, c, log, i, email);
    AccountStep(env, c, log, i, email);
    StaysRegistered(env, c, log, i + 1, j, email, env.Salted(log[i].request.passHash));
    AccountStep(env, c, log, j, email);
  }

  /** After a successful unregistration at i, and until the next successful registration,
      the email is unknown, and the first attempt to register it succeeds. */
  lemma WhileUnregistered(env: Env, c: Core, log: Log, i: nat, j: nat, email: string)
    requires WellFormed(c.rows) && i < j < |log|
    requires UnregisteredAt(env, c, log, i, email) && Names(log[j].request, email)
    requires forall k :: i < k < j ==> !RegisteredAt(env, c, log, k, email)
    ensures ReplyAt(env, c, log, j) ==
              match log[j].request
              case Register(_, _, _) => Some(RegisterResponse(REGISTER_OK, "registration success"))
              case Login(_, _) => Some(LoginResponse(NAME_UNKNOWN, "email is unkown"))
              case _ => Some(UnregisterResponse(NO_NAME, "invalid email"))
  {
    AccountStep(env, c, log, i, email);
    hide AccountAt, RegisteredAt, ReplyAt;
    StaysUnregistered(env, c, log, i + 1, j, email);
    AccountStep(env, c, log, j, email);
  }

  // ---------- Counting ----------

  /** Successful registrations and unregistrations of a run. */
  function Registrations(env: Env, c: Core, log: Log): nat {
    if log == [] then 0
    else
      var n := |log| - 1;
      Registrations(env, c, log[..n])
      + match ReplyAt(env, c, log, n)
        case Some(RegisterResponse(REGISTER_OK, _)) => 1
        case _ => 0
  }

  function Unregistrations(env: Env, c: Core, log: Log): nat {
    if log == [] then 0
    else
      var n := |log| - 1;
      Unregistrations(env, c, log[..n])
      + match ReplyAt(env, c, log, n)
        case Some(UnregisterResponse(UNREGISTER_OK, _)) => 1
        case _ => 0
  }

  predicate IdsUpTo(rows: seq<Row>, bound: nat) {
    forall r :: r in rows ==> 1 <= r.userId <= bound
  }

  lemma RegisterCounts(env: Env, rows: seq<Row>, nickname: string, email: string, passHash: string, bound: nat)
    requires IdsUpTo(rows, bound)
    ensures var (rows', rsp) := RegisterRows(env, rows, nickname, email, passHash);
            if rsp.registerCode == REGISTER_OK
            then |rows'| == |rows| + 1 && IdsUpTo(rows', bound + 1)
            else rows' == rows
  {
    hide Select;
  }

  lemma UnregisterCounts(env: Env, rows: seq<Row>, email: string, passHash: string, bound: nat)
    requires WellFormed(rows) && IdsUpTo(rows, bound)
    ensures var (rows', rsp) := UnregisterRows(env, rows, email, passHash);
            if rsp.unregisterCode == UNREGISTER_OK
            then |rows'| == |rows| - 1 && IdsUpTo(rows', bound)
            else rows' == rows
  {
    RemoveWellFormed(rows, email);
    SelectSingle(rows, email);
    hide Remove, Select, WellFormed;
  }

  /** How one request changes the number of rows and their ids. */
  lemma HandleCounts(env: Env, c: Core, e: Entry, bound: nat)
    requires WellFormed(c.rows) && IdsUpTo(c.rows, bound)
    ensures var (c', rsp) := Handle(env, c, e);
            match rsp
            case Some(RegisterResponse(REGISTER_OK, _)) =>
              |c'.rows| == |c.rows| + 1 && IdsUpTo(c'.rows, bound + 1)
            case Some(UnregisterResponse(UNREGISTER_OK, _)) =>
              |c'.rows| == |c.rows| - 1 && IdsUpTo(c'.rows, bound)
            case _ => c'.rows == c.rows
  {
    match e.request
    case Register(nickname, email, passHash) =>
      RegisterCounts(env, c.rows, nickname, email, passHash, bound);
      hide RegisterRows, WellFormed, IdsUpTo;
    case Unregister(email, passHash) =>
      UnregisterCounts(env, c.rows, email, passHash, bound);
      hide UnregisterRows, WellFormed, IdsUpTo;
    case _ =>
  }

  /** Conservation: from an empty table, rows are registrations minus unregistrations, and
      no id exceeds the number of registrations so far. */
  lemma {:induction false} Conservation(env: Env, c: Core, log: Log)
    requires c.rows == []
    ensures |After(env, c, log).rows| + Unregistrations(env, c, log) == Registrations(env, c, log)
    ensures IdsUpTo(After(env, c, log).rows, Registrations(env, c, log))
  {
    hide Handle;
    if log != [] {
      var n := |log| - 1;
      Conservation(env, c, log[..n]);
      RunRefines(env, c, log[..n]);
      HandleCounts(env, After(env, c, log[..n]), log[n], Registrations(env, c, log[..n]));
    }
  }

  const BIGINT_MAX: nat := 0x7fff_ffff_ffff_ffff

  /** So a bigint id cannot overflow before that many registrations. */
  lemma IdsFitBigint(env: Env, c: Core, log: Log)
    requires c.rows == [] && Registrations(env, c, log) <= BIGINT_MAX
    ensures forall r :: r in After(env, c, log).rows ==> r.userId <= BIGINT_MAX
  {
    Conservation(env, c, log);
  }

  // ---------- Sessions ----------

  /** Request j of the run logged in successfully on `row`. */
  predicate LoggedInAt(env: Env, c: Core, log: Log, j: nat, row: Row) {
    && j < |log|
    && LoginRow(env, After(env, c, log[..j]).rows, log[j].request) == Some(row)
  }

  /** From request j on, the row is in the table exactly until its email is unregistered. */
  ghost predicate KeptUntilUnregistered(env: Env, c: Core, log: Log, j: nat, row: Row) {
    (forall k :: j <= k <= |log| ==> row in After(env, c, log[..k]).rows) <==>
    (forall k :: j <= k < |log| ==> !UnregisteredAt(env, c, log, k, row.email))
  }

  /** Why a session exists: request j was the last successful login on a row with that id,
      the session is what that login stored, and the row has stayed in the table ever since
      if and only if its email was not unregistered since. */
  ghost predicate Story(env: Env, c: Core, log: Log, id: nat, s: Session, j: nat, row: Row) {
    && LoggedInAt(env, c, log, j, row) && row.userId == id
    && s == Session(id, row.email, row.nickname, log[j].connection)
    && (forall k, r :: j < k < |log| && LoggedInAt(env, c, log, k, r) ==> r.userId != id)
    && KeptUntilUnregistered(env, c, log, j, row)
  }

  lemma LoginIsAnswered(env: Env, c: Core, e: Entry)
    ensures var (c', rsp) := Handle(env, c, e);
            match LoginRow(env, c.rows, e.request)
            case Some(row) =>
              && row in c.rows && c'.rows == c.rows
              && rsp == Some(LoginResponse(LOGIN_OK, "login success"))
              && c'.sessions ==
                   c.sessions[row.userId := Session(row.userId, row.email, row.nickname, e.connection)]
            case None => c'.sessions == c.sessions && rsp != Some(LoginResponse(LOGIN_OK, "login success"))
  {
  }

  /** A row leaves the table with a request exactly if that unregisters its email. */
  lemma RowLeaves(env: Env, c: Core, e: Entry, row: Row)
    requires row in c.rows
    ensures row !in Handle(env, c, e).0.rows <==>
            && e.request.Unregister? && e.request.email == row.email
            && Handle(env, c, e).1 == Some(UnregisterResponse(UNREGISTER_OK, "unregister processed, status:ok"))
  {
  }

  lemma RowStep(env: Env, c: Core, log: Log, k: nat, row: Row)
    requires k < |log| && row in After(env, c, log[..k]).rows
    ensures row in After(env, c, log[..k + 1]).rows <==> !UnregisteredAt(env, c, log, k, row.email)
  {
    AfterStep(env, c, log, k);
    RowLeaves(env, After(env, c, log[..k]), log[k], row);
    hide Handle;
  }

  lemma {:induction false} RowStaysUntil(env: Env, c: Core, log: Log, j: nat, k: nat, row: Row)
    requires j <= k <= |log| && row in After(env, c, log[..j]).rows
    requires forall u :: j <= u < k ==> !UnregisteredAt(env, c, log, u, row.email)
    ensures row in After(env, c, log[..k]).rows
    decreases k - j
  {
    hide After, UnregisteredAt;
    if j < k {
      RowStaysUntil(env, c, log, j, k - 1, row);
      RowStep(env, c, log, k - 1, row);
    }
  }

  /** A row is in every later table of a run if and only if its email is never
      unregistered again. */
  lemma RowStays(env: Env, c: Core, log: Log, j: nat, row: Row)
    requires j <= |log| && row in After(env, c, log[..j]).rows
    ensures KeptUntilUnregistered(env, c, log, j, row)
  {
    hide After, UnregisteredAt;
    if forall k :: j <= k < |log| ==> !UnregisteredAt(env, c, log, k, row.email) {
      forall k | j <= k <= |log| ensures row in After(env, c, log[..k]).rows {
        RowStaysUntil(env, c, log, j, k, row);
      }
    } else {
      var u :| j <= u < |log| && UnregisteredAt(env, c, log, u, row.email);
      if row in After(env, c, log[..u]).rows {
        RowStep(env, c, log, u, row);
      }
    }
  }

  /** Request j of the run put the row into the table: a successful registration under the
      largest id plus one, with the hash of its password and the salt. */
  predicate InsertedAt(env: Env, c: Core, log: Log, j: nat, row: Row) {
    && RegisteredAt(env, c, log, j, row.email)
    && row == Row(log[j].request.nickname, MaxId(After(env, c, log[..j]).rows) + 1, log[j].request.email,
                  env.hash(log[j].request.passHash + env.salt))
  }

  /** The row came with the table or was inserted, and was not unregistered since. */
  ghost predicate Lives(env: Env, c: Core, log: Log, row: Row) {
    || (row in c.rows && forall k :: 0 <= k < |log| ==> !UnregisteredAt(env, c, log, k, row.email))
    || exists j: nat :: InsertedAt(env, c, log, j, row)
                        && forall k :: j < k < |log| ==> !UnregisteredAt(env, c, log, k, row.email)
  }

  lemma RowArrives(env: Env, c: Core, log: Log, j: nat, row: Row)
    requires j < |log| && row !in After(env, c, log[..j]).rows
    ensures row in After(env, c, log[..j + 1]).rows <==> InsertedAt(env, c, log, j, row)
  {
    hide MaxId, Select, Remove, After, LoginUser;
    AfterStep(env, c, log, j);
    RowAppears(env, After(env, c, log[..j]), log[j], row);
    hide Handle;
  }

  lemma RowAppears(env: Env, c: Core, e: Entry, row: Row)
    requires row !in c.rows
    ensures row in Handle(env, c, e).0.rows <==>
            && e.request.Register? && e.request.email == row.email
            && Handle(env, c, e).1 == Some(RegisterResponse(REGISTER_OK, "registration success"))
            && row == Row(e.request.nickname, MaxId(c.rows) + 1, row.email, env.hash(e.request.passHash + env.salt))
  {
    hide MaxId, Select;
  }

  lemma RegisterAnswers(env: Env, c: Core, e: Entry)
    requires e.request.Register?
    requires Handle(env, c, e).1 == Some(RegisterResponse(REGISTER_OK, "registration success"))
    ensures Row(e.request.nickname, MaxId(c.rows) + 1, e.request.email, env.hash(e.request.passHash + env.salt))
            in Handle(env, c, e).0.rows
  {
    hide MaxId, Select;
  }

  lemma InsertedIsThere(env: Env, c: Core, log: Log, j: nat, row: Row)
    requires InsertedAt(env, c, log, j, row)
    ensures j < |log| && row in After(env, c, log[..j + 1]).rows
  {
    hide MaxId, Select, After, Names;
    AfterStep(env, c, log, j);
    RegisterAnswers(env, After(env, c, log[..j]), log[j]);
    hide Handle;
  }

  /** Exactly the rows of the table after a run, whatever the run. */
  lemma RowsExactly(env: Env, c: Core, log: Log, row: Row)
    ensures row in After(env, c, log).rows <==> Lives(env, c, log, row)
  {
    hide After, UnregisteredAt, InsertedAt;
    assert log[..|log|] == log && log[..0] == [];
    StartsThere(env, c);
    if row in After(env, c, log).rows {
      LivesBackwards(env, c, log, |log|, row);
    } else if row in c.rows && forall k :: 0 <= k < |log| ==> !UnregisteredAt(env, c, log, k, row.email) {
      RowStaysUntil(env, c, log, 0, |log|, row);
    } else if j: nat :| InsertedAt(env, c, log, j, row)
                        && forall k :: j < k < |log| ==> !UnregisteredAt(env, c, log, k, row.email) {
      InsertedIsThere(env, c, log, j, row);
      RowStaysUntil(env, c, log, j + 1, |log|, row);
    }
  }

  /** A row that is there at n, and until the end is not unregistered, has a beginning. */
  lemma {:induction false} LivesBackwards(env: Env, c: Core, log: Log, n: nat, row: Row)
    requires n <= |log| && row in After(env, c, log[..n]).rows
    requires forall k :: n <= k < |log| ==> !UnregisteredAt(env, c, log, k, row.email)
    ensures Lives(env, c, log, row)
  {
    hide After, UnregisteredAt, InsertedAt;
    if n == 0 {
      assert log[..0] == [];
      StartsThere(env, c);
    } else if row in After(env, c, log[..n - 1]).rows {
      RowStep(env, c, log, n - 1, row);
      LivesBackwards(env, c, log, n - 1, row);
    } else {
      RowArrives(env, c, log, n - 1, row);
    }
  }

  /** Facts about a prefix carry over to the run. */
  lemma PrefixFacts(env: Env, c: Core, log: Log, n: nat)
    requires n <= |log|
    ensures forall j: nat, r :: j < n ==> LoggedInAt(env, c, log[..n], j, r) == LoggedInAt(env, c, log, j, r)
    ensures forall j: nat, e :: j < n ==> UnregisteredAt(env, c, log[..n], j, e) == UnregisteredAt(env, c, log, j, e)
  {
    forall j: nat | j < n ensures log[..n][..j] == log[..j] {
    }
  }

  lemma LoginRowStays(env: Env, c: Core, log: Log, j: nat, row: Row)
    requires LoggedInAt(env, c, log, j, row)
    ensures j < |log| && KeptUntilUnregistered(env, c, log, j, row)
  {
    RowStays(env, c, log, j, row);
  }

  lemma StoryGoesOn(env: Env, c: Core, log: Log, id: nat, s: Session, j: nat, row: Row)
    requires log != []
    requires Story(env, c, log[..|log| - 1], id, s, j, row)
    requires forall r :: LoggedInAt(env, c, log, |log| - 1, r) ==> r.userId != id
    ensures Story(env, c, log, id, s, j, row)
  {
    hide LoggedInAt, UnregisteredAt, After, KeptUntilUnregistered;
    LoginRowStays(env, c, log[..|log| - 1], j, row);
    PrefixFacts(env, c, log, |log| - 1);
    LoginRowStays(env, c, log, j, row);
    forall k, r | j < k < |log| && LoggedInAt(env, c, log, k, r) ensures r.userId != id {
      if k < |log| - 1 {
        assert LoggedInAt(env, c, log[..|log| - 1], k, r);
      }
    }
  }

  ghost predicate EverLoggedIn(env: Env, c: Core, log: Log, id: nat) {
    exists j, row :: LoggedInAt(env, c, log, j, row) && row.userId == id
  }

  lemma EverLoggedInStep(env: Env, c: Core, log: Log, id: nat)
    requires log != []
    ensures EverLoggedIn(env, c, log, id) <==>
            || EverLoggedIn(env, c, log[..|log| - 1], id)
            || exists row :: LoggedInAt(env, c, log, |log| - 1, row) && row.userId == id
  {
    var n := |log| - 1;
    PrefixFacts(env, c, log, n);
    assert forall j: nat, r :: LoggedInAt(env, c, log[..n], j, r) ==> j < n;
    assert forall j: nat, r :: LoggedInAt(env, c, log, j, r) ==> j < n || j == n;
    hide LoggedInAt;
  }

  /** Stale-session characterisation. In every run that starts without sessions, the ids
      with a session are those that were ever logged in on, and each session has a story.
      `StaleExactly` says which of these sessions are still that of the row with the id. */
  lemma {:induction false} SessionsExplained(env: Env, c: Core, log: Log, id: nat)
    requires c.sessions == map[]
    ensures id in After(env, c, log).sessions <==> EverLoggedIn(env, c, log, id)
    ensures id in After(env, c, log).sessions ==>
              exists j, row :: Story(env, c, log, id, After(env, c, log).sessions[id], j, row)
  {
    if log != [] {
      var n := |log| - 1;
      var before := After(env, c, log[..n]);
      var after := After(env, c, log);
      SessionsExplained(env, c, log[..n], id);
      EverLoggedInStep(env, c, log, id);
      LoginIsAnswered(env, before, log[n]);
      var now := LoginRow(env, before.rows, log[n].request);
      assert forall r :: LoggedInAt(env, c, log, n, r) <==> now == Some(r);
      hide EverLoggedIn, Handle;
      if now.Some? && now.value.userId == id {
        LoginRowStays(env, c, log, n, now.value);
        assert Story(env, c, log, id, after.sessions[id], n, now.value);
      } else {
        hide LoggedInAt, Story, LoginRow;
        if id in before.sessions {
          var j, row :| Story(env, c, log[..n], id, before.sessions[id], j, row);
          StoryGoesOn(env, c, log, id, before.sessions[id], j, row);
        }
      }
    }
  }

  // ---------- When an id names two accounts ----------

  /** The session stored under the row's id is that of another account. */
  predicate Stale(c: Core, row: Row) {
    && row.userId in c.sessions
    && (c.sessions[row.userId].email != row.email || c.sessions[row.userId].nickname != row.nickname)
  }

  /** Every row that has a session under its id has its own. */
  predicate SessionsMatch(c: Core) {
    forall row :: row in c.rows ==> !Stale(c, row)
  }

  /** The request is about to register an account under an id whose session is that of
      another one. */
  predicate Clashes(c: Core, req: Request) {
    && req.Register? && Select(c.rows, req.email) == []
    && Stale(c, Row(req.nickname, MaxId(c.rows) + 1, req.email, req.passHash))
  }

  lemma SameIdSameRow(rows: seq<Row>, a: Row, b: Row)
    requires WellFormed(rows) && a in rows && b in rows && a.userId == b.userId
    ensures a == b
  {
    var i :| 0 <= i < |rows| && rows[i] == a;
    var j :| 0 <= j < |rows| && rows[j] == b;
  }

  /** What a request changes about a row that is in the table afterwards: a new row is
      stale exactly when the request clashed, and an old one stays stale exactly until
      someone logs in on it. */
  lemma StaleStep(env: Env, c: Core, e: Entry, row: Row)
    requires WellFormed(c.rows) && row in Handle(env, c, e).0.rows
    ensures row in c.rows ==>
              (Stale(Handle(env, c, e).0, row) <==> Stale(c, row) && LoginRow(env, c.rows, e.request) != Some(row))
    ensures row !in c.rows ==>
              && e.request.Register? && Handle(env, c, e).0.rows == c.rows + [row]
              && (Stale(Handle(env, c, e).0, row) <==> Clashes(c, e.request))
  {
    LoginIsAnswered(env, c, e);
    var now := LoginRow(env, c.rows, e.request);
    hide LoginRow, WellFormed, MaxId, Select;
    if row in c.rows && now.Some? && now.value.userId == row.userId {
      SameIdSameRow(c.rows, now.value, row);
    }
  }

  lemma NewRowIsLast(env: Env, c: Core, e: Entry)
    requires e.request.Register? && Select(c.rows, e.request.email) == []
    ensures var row := Row(e.request.nickname, MaxId(c.rows) + 1, e.request.email, env.Salted(e.request.passHash));
            Handle(env, c, e).0.rows == c.rows + [row] && row !in c.rows
  {
    hide Select, MaxId;
    SelectEmpty(c.rows, e.request.email);
  }

  /** One request spoils the agreement of table and sessions exactly when it clashes. */
  lemma HandleKeepsMatch(env: Env, c: Core, e: Entry)
    requires WellFormed(c.rows) && SessionsMatch(c)
    ensures SessionsMatch(Handle(env, c, e).0) <==> !Clashes(c, e.request)
  {
    hide Stale, WellFormed, Handle;
    var c' := Handle(env, c, e).0;
    forall row | row in c'.rows ensures Stale(c', row) <==> row !in c.rows && Clashes(c, e.request) {
      StaleStep(env, c, e, row);
    }
    if Clashes(c, e.request) {
      NewRowIsLast(env, c, e);
      assert c'.rows[|c.rows|] in c'.rows;
    }
  }

  lemma MatchStep(env: Env, c: Core, log: Log, i: nat)
    requires WellFormed(c.rows) && i < |log|
    ensures SessionsMatch(After(env, c, log[..i])) ==>
              (SessionsMatch(After(env, c, log[..i + 1])) <==> !Clashes(After(env, c, log[..i]), log[i].request))
  {
    hide After, SessionsMatch, Clashes, WellFormed, Handle;
    AfterStep(env, c, log, i);
    RunRefines(env, c, log[..i]);
    if SessionsMatch(After(env, c, log[..i])) {
      HandleKeepsMatch(env, After(env, c, log[..i]), log[i]);
    }
  }

  /** Table and sessions agree after every prefix of a run if and only if they agree at the
      start and no request of the run clashes. */
  lemma MatchThroughout(env: Env, c: Core, log: Log)
    requires WellFormed(c.rows)
    ensures (forall i :: 0 <= i <= |log| ==> SessionsMatch(After(env, c, log[..i]))) <==>
            && SessionsMatch(c)
            && forall i :: 0 <= i < |log| ==> !Clashes(After(env, c, log[..i]), log[i].request)
  {
    hide After, SessionsMatch, Clashes, WellFormed;
    assert log[..0] == [];
    StartsThere(env, c);
    if forall i :: 0 <= i <= |log| ==> SessionsMatch(After(env, c, log[..i])) {
      assert SessionsMatch(After(env, c, log[..0]));
      forall i | 0 <= i < |log| ensures !Clashes(After(env, c, log[..i]), log[i].request) {
        MatchStep(env, c, log, i);
      }
    } else if SessionsMatch(c) && forall i :: 0 <= i < |log| ==> !Clashes(After(env, c, log[..i]), log[i].request) {
      for i := 0 to |log|
        invariant forall k :: 0 <= k <= i ==> SessionsMatch(After(env, c, log[..k]))
      {
        MatchStep(env, c, log, i);
      }
    }
  }

  lemma StartsThere(env: Env, c: Core)
    ensures After(env, c, []) == c
  {
  }

  /** Request j registered the row under an id whose session was another account's, and
      since then the row was neither unregistered nor logged in on. */
  ghost predicate ClashedAt(env: Env, c: Core, log: Log, j: nat, row: Row) {
    && j < |log|
    && Clashes(After(env, c, log[..j]), log[j].request)
    && After(env, c, log[..j + 1]).rows == After(env, c, log[..j]).rows + [row]
    && forall k :: j < k < |log| ==> !UnregisteredAt(env, c, log, k, row.email) && !LoggedInAt(env, c, log, k, row)
  }

  ghost predicate EverClashed(env: Env, c: Core, log: Log, row: Row) {
    exists j: nat :: ClashedAt(env, c, log, j, row)
  }

  lemma ClashPrefix(env: Env, c: Core, log: Log, j: nat, row: Row)
    requires log != [] && j < |log| - 1
    ensures ClashedAt(env, c, log, j, row) <==>
            && ClashedAt(env, c, log[..|log| - 1], j, row)
            && !UnregisteredAt(env, c, log, |log| - 1, row.email) && !LoggedInAt(env, c, log, |log| - 1, row)
  {
    hide After, UnregisteredAt, LoggedInAt, Clashes;
    var n := |log| - 1;
    PrefixFacts(env, c, log, n);
    assert log[..n][..j] == log[..j] && log[..n][..j + 1] == log[..j + 1];
  }

  /** A row that clashed was new, and is still in the table. */
  lemma ClashedRow(env: Env, c: Core, log: Log, j: nat, row: Row)
    requires ClashedAt(env, c, log, j, row)
    ensures j < |log| && row !in After(env, c, log[..j]).rows && row in After(env, c, log).rows
  {
    hide After, UnregisteredAt, LoggedInAt, Handle, Stale, Select, MaxId;
    var rows := After(env, c, log[..j + 1]).rows;
    assert rows[|rows| - 1] == row;
    RowStaysUntil(env, c, log, j + 1, |log|, row);
    assert log[..|log|] == log;
    AfterStep(env, c, log, j);
    NewRowIsLast(env, After(env, c, log[..j]), log[j]);
  }

  lemma OldRow(env: Env, c: Core, log: Log, row: Row)
    requires log != [] && row in After(env, c, log[..|log| - 1]).rows && row in After(env, c, log).rows
    ensures EverClashed(env, c, log, row) <==>
            EverClashed(env, c, log[..|log| - 1], row) && !LoggedInAt(env, c, log, |log| - 1, row)
  {
    hide After, UnregisteredAt, LoggedInAt, ClashedAt;
    var n := |log| - 1;
    assert log[..n + 1] == log;
    RowStep(env, c, log, n, row);
    if j: nat :| ClashedAt(env, c, log, j, row) {
      ClashedRow(env, c, log, j, row);
      ClashPrefix(env, c, log, j, row);
    }
    if j: nat :| ClashedAt(env, c, log[..n], j, row) {
      ClashedRow(env, c, log[..n], j, row);
      ClashPrefix(env, c, log, j, row);
    }
  }

  lemma NewRow(env: Env, c: Core, log: Log, row: Row)
    requires log != [] && row !in After(env, c, log[..|log| - 1]).rows
    requires After(env, c, log).rows == After(env, c, log[..|log| - 1]).rows + [row]
    ensures EverClashed(env, c, log, row) <==>
            Clashes(After(env, c, log[..|log| - 1]), log[|log| - 1].request)
  {
    hide After, UnregisteredAt, LoggedInAt, Clashes;
    var n := |log| - 1;
    assert log[..n + 1] == log;
    if j: nat :| j < n && ClashedAt(env, c, log, j, row) {
      ClashPrefix(env, c, log, j, row);
      ClashedRow(env, c, log[..n], j, row);
    }
    if Clashes(After(env, c, log[..n]), log[n].request) {
      assert ClashedAt(env, c, log, n, row);
    }
  }

  /** Exactly when an id names two accounts. In every run from a well-formed table that
      agrees with its sessions (without sessions it does), the session under a row's id is
      another account's if and only if the row was registered by a request that clashed,
      and has not been logged in on since. */
  lemma {:induction false} StaleExactly(env: Env, c: Core, log: Log, row: Row)
    requires WellFormed(c.rows) && SessionsMatch(c) && row in After(env, c, log).rows
    ensures Stale(After(env, c, log), row) <==> EverClashed(env, c, log, row)
  {
    if log != [] {
      var n := |log| - 1;
      var before := After(env, c, log[..n]);
      RunRefines(env, c, log[..n]);
      StaleStep(env, before, log[n], row);
      hide Stale, WellFormed, SessionsMatch, EverClashed, Handle, Clashes, LoginRow;
      if row in before.rows {
        StaleExactly(env, c, log[..n], row);
        OldRow(env, c, log, row);
      } else {
        NewRow(env, c, log, row);
      }
    }
  }

  /** Ids are reused: with a four-request run, id 1 belongs to "b" in the table while the
      session stored under 1 is still that of "a". */
  lemma StaleSessionExists(env: Env, c: Core)
    requires c == Core([], map[])
    ensures var log := [Entry(7, Register("n", "a", "p")), Entry(7, Login("a", "p")),
                        Entry(7, Unregister("a", "p")), Entry(8, Register("m", "b", "q"))];
            && After(env, c, log).rows == [Row("m", 1, "b", env.Salted("q"))]
            && After(env, c, log).sessions == map[1 := Session(1, "a", "n", 7)]
            && Stale(After(env, c, log), After(env, c, log).rows[0])
  {
    var log := [Entry(7, Register("n", "a", "p")), Entry(7, Login("a", "p")),
                Entry(7, Unregister("a", "p")), Entry(8, Register("m", "b", "q"))];
    var row := Row("n", 1, "a", env.Salted("p"));
    assert log[..1] == [log[0]] && log[..1][..0] == [];
    assert After(env, c, log[..1]) == Core([row], map[]);
    assert log[..2][..1] == log[..1];
    assert [row][1..] == [];
    assert Select([row], "a") == [row];
    assert After(env, c, log[..2]) == Core([row], map[1 := Session(1, "a", "n", 7)]);
    assert log[..3][..2] == log[..2];
    assert Remove([row], "a") == [];
    assert After(env, c, log[..3]) == Core([], map[1 := Session(1, "a", "n", 7)]);
  }
}
