/** What `ValidateSession` answers after any history of operations. */
module SessionHistory {
  import opened Prelude
  import opened Sessions

  datatype Op =
    | CreateUser(username: string, hash: string, role: string)
    | ChangePassword(id: nat, newHash: string)
    | ChangeRole(id: nat, newRole: string)
    | DeleteUser(id: nat)
    | Login(username: string, password: string, token: string)
    | Logout(token: string)
    | Purge

  datatype Event = Event(now: int, op: Op)

  function AccountsStep(a: Accounts, op: Op): Accounts {
    match op
    case CreateUser(username, hash, role) => Created(a, username, hash, role)
    case ChangePassword(id, hash) => a.(users := PasswordChanged(a.users, id, hash))
    case ChangeRole(id, role) => a.(users := RoleChanged(a.users, id, role))
    case DeleteUser(id) => Removed(a, id)
    case _ => a
  }

  function Step(check: Checker, db: Db, e: Event): Db {
    match e.op
    case DeleteUser(id) => UserDeleted(db, id)
    case Login(username, password, token) => LoggedIn(check, db, username, password, token, e.now)
    case Logout(token) => LoggedOut(db, token)
    case Purge => Purged(db, e.now)
    case _ => db.(accounts := AccountsStep(db.accounts, e.op))
  }

  function Replay(check: Checker, h: seq<Event>): Db {
    if h == [] then Db(Accounts([], 1), [], 1)
    else Step(check, Replay(check, h[..|h| - 1]), h[|h| - 1])
  }

  /** The accounts alone: sessions have no say in them. */
  function AccountsAfter(h: seq<Event>): Accounts {
    if h == [] then Accounts([], 1) else AccountsStep(AccountsAfter(h[..|h| - 1]), h[|h| - 1].op)
  }

  datatype Grant = Grant(userId: nat, at: int)

  /** What one event makes of the grant of a token, on the accounts before the event. */
  function Granted(check: Checker, a: Accounts, before: Option<Grant>, e: Event, token: string): Option<Grant> {
    match e.op
    case Login(username, password, t) =>
      var u := LoginUser(check, a, username, password);
      if t == token && u.Some? then Some(Grant(u.value.id, e.now)) else before
    case Logout(t) => if t == token then None else before
    case DeleteUser(id) => if Deletes(a, id) && before.Some? && before.value.userId == id then None else before
    case _ => before
  }

  /** The login that issued the token, unless a logout of the token or the deletion of its user came
      after it.  Sessions do not appear here. */
  function Issued(check: Checker, h: seq<Event>, token: string): Option<Grant> {
    if h == [] then None
    else
      var front := h[..|h| - 1];
      Granted(check, AccountsAfter(front), Issued(check, front, token), h[|h| - 1], token)
  }

  lemma LastEvent(check: Checker, h: seq<Event>, e: Event, token: string)
    ensures AccountsAfter(h + [e]) == AccountsStep(AccountsAfter(h), e.op)
    ensures Issued(check, h + [e], token) == Granted(check, AccountsAfter(h), Issued(check, h, token), e, token)
  {
    assert (h + [e])[..|h|] == h;
  }

  /** No token is drawn twice. */
  ghost predicate FreshTokens(h: seq<Event>) {
    forall i, j | 0 <= i < j < |h| && h[i].op.Login? && h[j].op.Login? :: h[i].op.token != h[j].op.token
  }

  ghost predicate ClockRunsOn(h: seq<Event>) {
    forall i, j | 0 <= i < j < |h| :: h[i].now <= h[j].now
  }

  function Last(h: seq<Event>, start: int): int { if h == [] then start else h[|h| - 1].now }

  /** What the answer has to be. */
  function Answer(check: Checker, h: seq<Event>, token: string, now: int): Option<User> {
    match Issued(check, h, token)
    case None => None
    case Some(g) => if now < g.at + SESSION_TTL then ById(AccountsAfter(h).users, g.userId) else None
  }

  // ---------------------------------------------------------------- the invariant

  ghost predicate AccountsOk(a: Accounts) {
    && UniqueUsers(a.users)
    && (forall u | u in a.users :: u.id < a.nextId)
  }

  predicate Live(a: Accounts, id: nat) { ById(a.users, id).Some? }

  /** A token not in anybody's hands has no session; one that is has its session, unless it expired and
      was purged by `now`; its user exists. */
  ghost predicate GrantOk(db: Db, g: Option<Grant>, token: string, now: int) {
    var found := ByToken(db.sessions, token);
    match g
    case None => found.None?
    case Some(grant) =>
      && Live(db.accounts, grant.userId)
      && if found.Some? then found.value.userId == grant.userId && found.value.expiresAt == grant.at + SESSION_TTL
         else grant.at + SESSION_TTL <= now
  }

  ghost predicate SessionsOk(db: Db) {
    forall i, j | 0 <= i < j < |db.sessions| :: db.sessions[i].token != db.sessions[j].token
  }

  lemma {:induction false} WhereDistinct<T(!new)>(rows: seq<T>, keep: T -> bool, differ: (T, T) -> bool)
    requires forall i, j | 0 <= i < j < |rows| :: differ(rows[i], rows[j])
    ensures forall i, j | 0 <= i < j < |Where(rows, keep)| :: differ(Where(rows, keep)[i], Where(rows, keep)[j])
  {
    if rows != [] {
      WhereDistinct(rows[1..], keep, differ);
      var rest := Where(rows[1..], keep);
      forall j | 0 <= j < |rest| ensures differ(rows[0], rest[j]) {
        assert rest[j] in rows[1..];
      }
    }
  }

  /** With distinct tokens, a DELETE on sessions is seen token by token. */
  lemma {:induction false} WhereByToken(sessions: seq<Session>, keep: Session -> bool, token: string)
    requires forall i, j | 0 <= i < j < |sessions| :: sessions[i].token != sessions[j].token
    ensures ByToken(Where(sessions, keep), token) ==
            var found := ByToken(sessions, token);
            if found.Some? && keep(found.value) then found else None
  {
    if sessions != [] {
      WhereByToken(sessions[1..], keep, token);
      if sessions[0].token == token {
        assert ByToken(sessions[1..], token).None?;
      }
    }
  }

  lemma {:induction false} AppendByToken(sessions: seq<Session>, s: Session, token: string)
    ensures ByToken(sessions + [s], token) ==
            var found := ByToken(sessions, token);
            if found.Some? then found else if s.token == token then Some(s) else None
  {
    if sessions != [] {
      assert (sessions + [s])[1..] == sessions[1..] + [s];
      AppendByToken(sessions[1..], s, token);
    }
  }

  /** Which users are live after an operation on the accounts. */
  lemma LiveStep(a: Accounts, op: Op, id: nat)
    requires Live(a, id)
    ensures Live(AccountsStep(a, op), id) <==> !(op == DeleteUser(id) && Deletes(a, id))
  {
    var u := ById(a.users, id).value;
    var a' := AccountsStep(a, op);
    match op
    case CreateUser(_, _, _) => assert u in a'.users;
    case DeleteUser(d) => assert u in a'.users <==> !(d == id && Deletes(a, id));
    case ChangePassword(_, _) =>
      var i :| 0 <= i < |a.users| && a.users[i] == u;
      assert a'.users[i] in a'.users && a'.users[i].id == id;
    case ChangeRole(_, _) =>
      var i :| 0 <= i < |a.users| && a.users[i] == u;
      assert a'.users[i] in a'.users && a'.users[i].id == id;
    case _ =>
  }

  /** A token that no login of the history drew was never issued. */
  lemma {:induction false} NotIssued(check: Checker, h: seq<Event>, token: string)
    requires forall i | 0 <= i < |h| && h[i].op.Login? :: h[i].op.token != token
    ensures Issued(check, h, token).None?
  {
    if h != [] {
      NotIssued(check, h[..|h| - 1], token);
    }
  }

  /** One event, one token. */
  lemma TokenStep(check: Checker, db: Db, g: Option<Grant>, e: Event, token: string, before: int)
    requires SessionsOk(db) && GrantOk(db, g, token, before) && before <= e.now
    requires e.op.Login? && e.op.token == token ==> g.None?
    ensures GrantOk(Step(check, db, e), Granted(check, db.accounts, g, e, token), token, e.now)
  {
    if g.Some? {
      LiveStep(db.accounts, e.op, g.value.userId);
    }
    match e.op
    case Login(username, password, t) => LoginStep(check, db, g, e, token, before);
    case Logout(t) => WhereByToken(db.sessions, (s: Session) => s.token != t, token);
    case DeleteUser(id) => DeletionStep(check, db, g, e, token, before);
    case Purge => WhereByToken(db.sessions, (s: Session) => s.expiresAt > e.now, token);
    case _ =>
  }

  lemma DeletionStep(check: Checker, db: Db, g: Option<Grant>, e: Event, token: string, before: int)
    requires e.op.DeleteUser? && SessionsOk(db) && GrantOk(db, g, token, before) && before <= e.now
    ensures GrantOk(Step(check, db, e), Granted(check, db.accounts, g, e, token), token, e.now)
  {
    if g.Some? {
      LiveStep(db.accounts, e.op, g.value.userId);
    }
    var id := e.op.id;
    WhereByToken(db.sessions, (s: Session) => s.userId != id, token);
  }

  lemma LoginStep(check: Checker, db: Db, g: Option<Grant>, e: Event, token: string, before: int)
    requires e.op.Login? && GrantOk(db, g, token, before) && before <= e.now
    requires e.op.token == token ==> g.None?
    ensures GrantOk(Step(check, db, e), Granted(check, db.accounts, g, e, token), token, e.now)
  {
    var u := LoginUser(check, db.accounts, e.op.username, e.op.password);
    if u.Some? {
      AppendByToken(db.sessions, Session(db.nextSession, u.value.id, e.op.token, e.now + SESSION_TTL), token);
    }
  }

  lemma FirstDraw(check: Checker, h: seq<Event>, e: Event)
    requires e.op.Login? && FreshTokens(h + [e])
    ensures Issued(check, h, e.op.token).None?
  {
    var h' := h + [e];
    forall i | 0 <= i < |h| && h[i].op.Login? ensures h[i].op.token != e.op.token {
      assert h'[i].op.token != h'[|h|].op.token;
    }
    NotIssued(check, h, e.op.token);
  }

  lemma SessionsStep(check: Checker, db: Db, e: Event)
    requires SessionsOk(db)
    ensures SessionsOk(Step(check, db, e))
  {
    var differ := (x: Session, y: Session) => x.token != y.token;
    match e.op
    case Logout(t) => WhereDistinct(db.sessions, (s: Session) => s.token != t, differ);
    case DeleteUser(id) => WhereDistinct(db.sessions, (s: Session) => s.userId != id, differ);
    case Purge => WhereDistinct(db.sessions, (s: Session) => s.expiresAt > e.now, differ);
    case _ =>
  }

  lemma {:induction false} HistoryInvariant(check: Checker, h: seq<Event>, token: string, now: int)
    requires FreshTokens(h) && ClockRunsOn(h) && Last(h, now) <= now
    ensures Replay(check, h).accounts == AccountsAfter(h)
    ensures SessionsOk(Replay(check, h)) && GrantOk(Replay(check, h), Issued(check, h, token), token, now)
  {
    if h != [] {
      var front, e := h[..|h| - 1], h[|h| - 1];
      assert h == front + [e];
      assert Last(front, e.now) <= e.now;
      HistoryInvariant(check, front, token, e.now);
      if e.op.Login? {
        FirstDraw(check, front, e);
      }
      TokenStep(check, Replay(check, front), Issued(check, front, token), e, token, e.now);
      SessionsStep(check, Replay(check, front), e);
    }
  }

  // ---------------------------------------------------------------- the theorems

  /** After any history, at any later time, a token is good exactly when a login issued it less than 24
      hours ago with no logout of it and no deletion of its user since; the answer is that user. */
  lemma {:induction false} ValidExactlyWhenIssued(check: Checker, h: seq<Event>, token: string, now: int)
    requires FreshTokens(h) && ClockRunsOn(h) && now >= Last(h, now)
    ensures Validated(Replay(check, h), token, now) == Answer(check, h, token, now)
    ensures Validated(Replay(check, h), token, now).Some? <==>
              Issued(check, h, token).Some? && now < Issued(check, h, token).value.at + SESSION_TTL
    ensures Validated(Replay(check, h), token, now).Some? ==>
              Validated(Replay(check, h), token, now).value.id == Issued(check, h, token).value.userId
  {
    HistoryInvariant(check, h, token, now);
  }

  predicate NoLogout(h: seq<Event>, i: nat, token: string) {
    forall k | i < k < |h| :: h[k].op != Logout(token)
  }

  lemma NoLogoutNext(h: seq<Event>, i: nat, token: string)
    requires h != [] && NoLogout(h[..|h| - 1], i, token) && h[|h| - 1].op != Logout(token)
    ensures NoLogout(h, i, token)
  {
    var front := h[..|h| - 1];
    forall k | i < k < |h| ensures h[k].op != Logout(token) {
      assert k < |front| ==> front[k] == h[k];
    }
  }

  /** After the first `n` events, and after every event from there on, the user exists. */
  predicate LivesSince(h: seq<Event>, n: nat, id: nat) {
    |h| >= n ==> Live(AccountsAfter(h), id) && (|h| > n ==> LivesSince(h[..|h| - 1], n, id))
  }

  /** The i-th event is a login with the token; its user `u` had the name, and a hash that the password fits;
      no logout of the token came after it, and the user has existed ever since. */
  ghost predicate GoodLogin(check: Checker, h: seq<Event>, token: string, i: nat, u: User) {
    && i < |h| && h[i].op.Login? && h[i].op.token == token
    && u in AccountsAfter(h[..i]).users
    && u.username == h[i].op.username && check(u.passwordHash, h[i].op.password)
    && NoLogout(h, i, token)
    && LivesSince(h, i, u.id)
  }

  lemma LoginUserIs(check: Checker, h: seq<Event>, username: string, password: string, u: User)
    requires u in AccountsAfter(h).users && u.username == username && check(u.passwordHash, password)
    ensures LoginUser(check, AccountsAfter(h), username, password) == Some(u)
  {
    AccountsStayOk(h);
    OnlyOfName(AccountsAfter(h).users, u, ByName(AccountsAfter(h).users, username).value);
  }

  lemma {:induction false} IssuedByLogin(check: Checker, h: seq<Event>, token: string) returns (i: nat, u: User)
    requires Issued(check, h, token).Some?
    ensures GoodLogin(check, h, token, i, u) && Issued(check, h, token) == Some(Grant(u.id, h[i].now))
  {
    var front, e := h[..|h| - 1], h[|h| - 1];
    assert h == front + [e];
    LastEvent(check, front, e, token);
    var user := if e.op.Login? then LoginUser(check, AccountsAfter(front), e.op.username, e.op.password) else None;
    if e.op.Login? && e.op.token == token && user.Some? {
      i, u := |front|, user.value;
      GoodNow(check, h, u);
    } else {
      i, u := IssuedByLogin(check, front, token);
      LiveStep(AccountsAfter(front), e.op, u.id);
      GoodStill(check, h, token, i, u);
    }
  }

  lemma GoodNow(check: Checker, h: seq<Event>, u: User)
    requires h != [] && h[|h| - 1].op.Login?
    requires var op := h[|h| - 1].op;
             LoginUser(check, AccountsAfter(h[..|h| - 1]), op.username, op.password) == Some(u)
    ensures GoodLogin(check, h, h[|h| - 1].op.token, |h| - 1, u)
  {
    var front := h[..|h| - 1];
    assert AccountsAfter(h) == AccountsAfter(front);
    assert LivesSince(front, |front|, u.id);
  }

  lemma GoodStill(check: Checker, h: seq<Event>, token: string, i: nat, u: User)
    requires h != [] && GoodLogin(check, h[..|h| - 1], token, i, u)
    requires h[|h| - 1].op != Logout(token) && Live(AccountsAfter(h), u.id)
    ensures GoodLogin(check, h, token, i, u)
  {
    var front := h[..|h| - 1];
    SamePrefix(h, i);
    assert h[i] == front[i];
    NoLogoutNext(h, i, token);
    assert LivesSince(h, i, u.id);
  }

  lemma SamePrefix(h: seq<Event>, i: nat)
    requires i < |h|
    ensures h[..|h| - 1][..i] == h[..i]
  {}

  lemma {:induction false} LoginIssues(check: Checker, h: seq<Event>, token: string, i: nat, u: User)
    requires FreshTokens(h) && GoodLogin(check, h, token, i, u)
    ensures Issued(check, h, token) == Some(Grant(u.id, h[i].now))
  {
    var front, e := h[..|h| - 1], h[|h| - 1];
    assert h == front + [e];
    LastEvent(check, front, e, token);
    if i == |front| {
      LoginUserIs(check, front, e.op.username, e.op.password, u);
    } else {
      assert front[..i] == h[..i];
      LoginIssues(check, front, token, i, u);
      LiveStep(AccountsAfter(front), e.op, u.id);
      assert e.op.Login? ==> h[i].op.token != h[|h| - 1].op.token;
    }
  }

  /** A token is good exactly when some login with it, for a user of that name and with a password that fits
      the hash of that time, is less than 24 hours old, was not followed by a logout of the token, and its user
      has existed ever since; the answer is that user. */
  lemma ValidExactlyAfterLogin(check: Checker, h: seq<Event>, token: string, now: int)
    requires FreshTokens(h) && ClockRunsOn(h) && now >= Last(h, now)
    ensures Validated(Replay(check, h), token, now).Some? <==>
              exists i: nat, u :: GoodLogin(check, h, token, i, u) && now < h[i].now + 24 * 3600
    ensures forall i: nat, u | GoodLogin(check, h, token, i, u) && Validated(Replay(check, h), token, now).Some? ::
              Validated(Replay(check, h), token, now).value.id == u.id
  {
    ValidExactlyWhenIssued(check, h, token, now);
    if Issued(check, h, token).Some? {
      var i, u := IssuedByLogin(check, h, token);
    }
    forall i: nat, u | GoodLogin(check, h, token, i, u)
      ensures Issued(check, h, token) == Some(Grant(u.id, h[i].now))
    {
      LoginIssues(check, h, token, i, u);
    }
  }

  /** Every session in the table belongs to a user that exists, after any history: the clock may run
      backwards and tokens may be drawn twice. */
  lemma {:induction false} SessionsHaveUsers(check: Checker, h: seq<Event>, s: Session)
    requires s in Replay(check, h).sessions
    ensures Live(Replay(check, h).accounts, s.userId)
  {
    if h != [] {
      var db, e := Replay(check, h[..|h| - 1]), h[|h| - 1];
      if s in db.sessions {
        SessionsHaveUsers(check, h[..|h| - 1], s);
        LiveStep(db.accounts, e.op, s.userId);
      }
    }
  }

  lemma SilentNext(check: Checker, h: seq<Event>, k: seq<Event>, e: Event, token: string)
    requires AccountsAfter(h) == AccountsAfter(k) && Issued(check, h, token) == Issued(check, k, token)
    ensures AccountsAfter(h + [e]) == AccountsAfter(k + [e])
    ensures Issued(check, h + [e], token) == Issued(check, k + [e], token)
  {
    LastEvent(check, h, e, token);
    LastEvent(check, k, e, token);
  }

  lemma {:induction false} PurgeSilent(check: Checker, a: seq<Event>, p: Event, b: seq<Event>, token: string)
    requires p.op == Purge
    ensures AccountsAfter(a + [p] + b) == AccountsAfter(a + b)
    ensures Issued(check, a + [p] + b, token) == Issued(check, a + b, token)
  {
    if b == [] {
      LastEvent(check, a, p, token);
      assert a + [p] + b == a + [p] && a + b == a;
    } else {
      var front, e := b[..|b| - 1], b[|b| - 1];
      PurgeSilent(check, a, p, front, token);
      SilentNext(check, a + [p] + front, a + front, e, token);
      assert b == front + [e];
      Associative(a + [p], front, [e]);
      Associative(a, front, [e]);
    }
  }

  lemma WithoutPurge(a: seq<Event>, p: Event, b: seq<Event>)
    requires p.op == Purge && FreshTokens(a + [p] + b) && ClockRunsOn(a + [p] + b)
    ensures FreshTokens(a + b) && ClockRunsOn(a + b)
  {
    var h, k := a + [p] + b, a + b;
    forall i, j | 0 <= i < j < |k|
      ensures k[i].now <= k[j].now
      ensures k[i].op.Login? && k[j].op.Login? ==> k[i].op.token != k[j].op.token
    {
      var i' := if i < |a| then i else i + 1;
      var j' := if j < |a| then j else j + 1;
      assert k[i] == h[i'] && k[j] == h[j'];
    }
  }

  /** Deleting expired sessions, whenever it is done, changes no later answer. */
  lemma PurgeInvisible(check: Checker, a: seq<Event>, p: Event, b: seq<Event>, token: string, now: int)
    requires p.op == Purge && FreshTokens(a + [p] + b) && ClockRunsOn(a + [p] + b)
    requires now >= Last(a + [p] + b, now)
    ensures Validated(Replay(check, a + [p] + b), token, now) == Validated(Replay(check, a + b), token, now)
  {
    WithoutPurge(a, p, b);
    PurgeSilent(check, a, p, b, token);
    assert b == [] && a != [] ==> (a + [p] + b)[|a| - 1].now <= (a + [p] + b)[|a|].now;
    ValidExactlyWhenIssued(check, a + [p] + b, token, now);
    ValidExactlyWhenIssued(check, a + b, token, now);
  }

  /** No two users ever have the same name or the same id. */
  lemma {:induction false} AccountsStayOk(h: seq<Event>)
    ensures AccountsOk(AccountsAfter(h))
  {
    if h != [] {
      AccountsStayOk(h[..|h| - 1]);
      var a, op := AccountsAfter(h[..|h| - 1]), h[|h| - 1].op;
      if op.DeleteUser? {
        var id := op.id;
        WhereDistinct(a.users, (u: User) => u.id != id, (x: User, y: User) => x.username != y.username && x.id != y.id);
      }
    }
  }

  /** Ids are not handed out again: the next id never falls, and an id below it that belongs to nobody
      belongs to nobody for ever. */
  lemma {:induction false} IdsNeverReused(h: seq<Event>, more: seq<Event>, id: nat)
    ensures AccountsAfter(h).nextId <= AccountsAfter(h + more).nextId
    ensures id < AccountsAfter(h).nextId && !Live(AccountsAfter(h), id) ==> !Live(AccountsAfter(h + more), id)
  {
    if more == [] {
      assert h + more == h;
    } else {
      var front := more[..|more| - 1];
      IdsNeverReused(h, front, id);
      assert (h + more)[..|h + more| - 1] == h + front;
      GoneStaysGone(AccountsAfter(h + front), more[|more| - 1].op, id);
    }
  }

  lemma GoneStaysGone(a: Accounts, op: Op, id: nat)
    ensures a.nextId <= AccountsStep(a, op).nextId
    ensures id < a.nextId && !Live(a, id) ==> !Live(AccountsStep(a, op), id)
  {}

  /** `DeleteUser` never removes the last admin. */
  lemma AnAdminStays(h: seq<Event>, id: nat)
    requires CountAdmins(AccountsAfter(h).users) >= 1
    ensures CountAdmins(Removed(AccountsAfter(h), id).users) >= 1
  {
    var a := AccountsAfter(h);
    AccountsStayOk(h);
    if Deletes(a, id) {
      AdminsWithout(a.users, id);
    }
  }

  lemma {:induction false} AdminsWithout(users: seq<User>, id: nat)
    requires forall i, j | 0 <= i < j < |users| :: users[i].id != users[j].id
    ensures CountAdmins(Where(users, (u: User) => u.id != id)) ==
            CountAdmins(users) - (if ById(users, id).Some? && ById(users, id).value.role == ADMIN then 1 else 0)
  {
    if users != [] {
      var keep := (u: User) => u.id != id;
      var rest := Where(users[1..], keep);
      AdminsWithout(users[1..], id);
      AdminsCons(users);
      if users[0].id == id {
        assert ById(users[1..], id).None?;
        assert Where(users, keep) == rest;
      } else {
        AdminsCons([users[0]] + rest);
        assert ([users[0]] + rest)[1..] == rest;
        assert Where(users, keep) == [users[0]] + rest;
      }
    }
  }

  lemma {:induction false} AdminsCons(users: seq<User>)
    requires users != []
    ensures CountAdmins(users) == (if users[0].role == ADMIN then 1 else 0) + CountAdmins(users[1..])
  {
    if |users| > 1 {
      var k := |users| - 1;
      AdminsCons(users[..k]);
      assert users[1..][..k - 1] == users[..k][1..];
    }
  }
}
