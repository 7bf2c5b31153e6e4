/** Users and sessions (storage/user_store.go) and the operations on them (auth/service.go). */
module Sessions {
  import opened Prelude

  const ADMIN := "admin"
  const SESSION_TTL := 86400    // 24 hours, in seconds

  datatype User = User(id: nat, username: string, passwordHash: string, role: string)
  datatype Session = Session(id: nat, userId: nat, token: string, expiresAt: int)

  /** The users table; ids are handed out once. */
  datatype Accounts = Accounts(users: seq<User>, nextId: nat)

  datatype Db = Db(accounts: Accounts, sessions: seq<Session>, nextSession: nat)

  /** bcrypt: does the password belong to the hash? */
  type Checker = (string, string) -> bool

  datatype AuthError = InvalidCredentials | UserExists | LastAdmin | TokenTaken

  // ---------------------------------------------------------------- queries

  function ByName(users: seq<User>, name: string): (r: Option<User>)
    ensures r.Some? ==> r.value in users && r.value.username == name
    ensures r.None? ==> forall u | u in users :: u.username != name
  {
    if users == [] then None else if users[0].username == name then Some(users[0]) else ByName(users[1..], name)
  }

  function ById(users: seq<User>, id: nat): (r: Option<User>)
    ensures r.Some? ==> r.value in users && r.value.id == id
    ensures r.None? ==> forall u | u in users :: u.id != id
  {
    if users == [] then None else if users[0].id == id then Some(users[0]) else ById(users[1..], id)
  }

  function ByToken(sessions: seq<Session>, token: string): (r: Option<Session>)
    ensures r.Some? ==> r.value in sessions && r.value.token == token
    ensures r.None? ==> forall s | s in sessions :: s.token != token
  {
    if sessions == [] then None
    else if sessions[0].token == token then Some(sessions[0])
    else ByToken(sessions[1..], token)
  }

  function CountAdmins(users: seq<User>): nat {
    if users == [] then 0
    else CountAdmins(users[..|users| - 1]) + (if users[|users| - 1].role == ADMIN then 1 else 0)
  }

  /** The rows a DELETE leaves. */
  function Where<T(!new)>(rows: seq<T>, keep: T -> bool): (r: seq<T>)
    ensures forall x :: x in r <==> x in rows && keep(x)
  {
    if rows == [] then [] else (if keep(rows[0]) then [rows[0]] else []) + Where(rows[1..], keep)
  }

  /** The UNIQUE constraints of the two tables. */
  ghost predicate UniqueUsers(users: seq<User>) {
    forall i, j | 0 <= i < j < |users| :: users[i].username != users[j].username && users[i].id != users[j].id
  }

  ghost predicate UniqueTokens(sessions: seq<Session>) {
    forall i, j | 0 <= i < j < |sessions| :: sessions[i].token != sessions[j].token
  }

  lemma OnlyOfName(users: seq<User>, u: User, v: User)
    requires UniqueUsers(users) && u in users && v in users && (u.username == v.username || u.id == v.id)
    ensures u == v
  {
    var i :| 0 <= i < |users| && users[i] == u;
    var j :| 0 <= j < |users| && users[j] == v;
    assert i == j;
  }

  lemma OnlyOfToken(sessions: seq<Session>, s: Session, t: Session)
    requires UniqueTokens(sessions) && s in sessions && t in sessions && s.token == t.token
    ensures s == t
  {
    var i :| 0 <= i < |sessions| && sessions[i] == s;
    var j :| 0 <= j < |sessions| && sessions[j] == t;
    assert i == j;
  }

  /** The last admin is the one user of that role. */
  lemma {:induction false} AtMostOneAdmin(users: seq<User>)
    ensures CountAdmins(users) == 0 <==> forall i | 0 <= i < |users| :: users[i].role != "admin"
    ensures CountAdmins(users) <= 1 <==>
            forall i, j | 0 <= i < j < |users| :: !(users[i].role == "admin" && users[j].role == "admin")
  {
    if users != [] {
      var front, k := users[..|users| - 1], |users| - 1;
      AtMostOneAdmin(front);
      assert forall i | 0 <= i < k :: front[i] == users[i];
      if users[k].role == "admin" && CountAdmins(front) > 0 {
        var i :| 0 <= i < k && front[i].role == "admin";
        assert users[i].role == "admin" && users[k].role == "admin";
      } else if users[k].role != "admin" && CountAdmins(users) > 1 {
        var i, j :| 0 <= i < j < k && front[i].role == "admin" && front[j].role == "admin";
        assert users[i].role == "admin" && users[j].role == "admin";
      }
    }
  }

  // ---------------------------------------------------------------- the accounts

  function Created(a: Accounts, username: string, hash: string, role: string): Accounts {
    if ByName(a.users, username).Some? then a
    else Accounts(a.users + [User(a.nextId, username, hash, role)], a.nextId + 1)
  }

  function Edited(users: seq<User>, id: nat, edit: User -> User): (r: seq<User>)
    ensures |r| == |users|
    ensures forall i | 0 <= i < |users| :: r[i] == if users[i].id == id then edit(users[i]) else users[i]
  {
    seq(|users|, i requires 0 <= i < |users| => if users[i].id == id then edit(users[i]) else users[i])
  }

  function PasswordChanged(users: seq<User>, id: nat, hash: string): seq<User> {
    Edited(users, id, (u: User) => u.(passwordHash := hash))
  }

  function RoleChanged(users: seq<User>, id: nat, role: string): seq<User> {
    Edited(users, id, (u: User) => u.(role := role))
  }

  /** Does `DeleteUser` delete: the user exists and is not the last admin. */
  predicate Deletes(a: Accounts, id: nat) {
    var u := ById(a.users, id);
    u.Some? && !(u.value.role == ADMIN && CountAdmins(a.users) <= 1)
  }

  function Removed(a: Accounts, id: nat): Accounts {
    if Deletes(a, id) then a.(users := Where(a.users, (u: User) => u.id != id)) else a
  }

  /** The user a login is for: the name is known and the password fits. */
  function LoginUser(check: Checker, a: Accounts, username: string, password: string): Option<User> {
    match ByName(a.users, username)
    case None => None
    case Some(u) => if check(u.passwordHash, password) then Some(u) else None
  }

  // ---------------------------------------------------------------- the operations on the database

  function LoggedIn(check: Checker, db: Db, username: string, password: string, token: string, now: int): Db {
    match LoginUser(check, db.accounts, username, password)
    case None => db
    case Some(u) =>
      if ByToken(db.sessions, token).Some? then db
      else db.(sessions := db.sessions + [Session(db.nextSession, u.id, token, now + SESSION_TTL)],
               nextSession := db.nextSession + 1)
  }

  function LoggedOut(db: Db, token: string): Db {
    db.(sessions := Where(db.sessions, (s: Session) => s.token != token))
  }

  function UserDeleted(db: Db, id: nat): Db {
    if Deletes(db.accounts, id) then
      db.(accounts := Removed(db.accounts, id), sessions := Where(db.sessions, (s: Session) => s.userId != id))
    else db
  }

  function Purged(db: Db, now: int): Db {
    db.(sessions := Where(db.sessions, (s: Session) => s.expiresAt > now))
  }

  function Validated(db: Db, token: string, now: int): Option<User> {
    match ByToken(db.sessions, token)
    case None => None
    case Some(s) => if s.expiresAt > now then ById(db.accounts.users, s.userId) else None
  }

  lemma LastAdminIs(users: seq<User>, id: nat)
    requires ById(users, id).Some? && ById(users, id).value.role == "admin"
    ensures UniqueUsers(users) ==>
              (CountAdmins(users) <= 1 <==> forall u | u in users && u.role == "admin" :: u.id == id)
  {
    AtMostOneAdmin(users);
    var v := ById(users, id).value;
    if UniqueUsers(users) {
      var i :| 0 <= i < |users| && users[i] == v;
      if CountAdmins(users) <= 1 {
        forall u | u in users && u.role == "admin" ensures u.id == id {
          var j :| 0 <= j < |users| && users[j] == u;
        }
      } else {
        var a, b :| 0 <= a < b < |users| && users[a].role == "admin" && users[b].role == "admin";
        assert users[a].id != users[b].id;
      }
    }
  }

  // ---------------------------------------------------------------- the service

  class Service {
    var accounts: Accounts
    var sessions: seq<Session>
    var nextSession: nat
    const check: Checker

    constructor (check: Checker)
      ensures this.check == check && View() == Db(Accounts([], 1), [], 1)
    {
      this.check := check;
      accounts, sessions, nextSession := Accounts([], 1), [], 1;
    }

    ghost function View(): Db
      reads this
    {
      Db(accounts, sessions, nextSession)
    }

    method CreateUser(username: string, hash: string, role: string) returns (r: Result<User, AuthError>)
      modifies this
      ensures View() == old(View()).(accounts := Created(old(accounts), username, hash, role))
      ensures r.Err? <==> exists u | u in old(accounts).users :: u.username == username
      ensures r.Ok? ==> accounts.users == old(accounts).users + [User(old(accounts).nextId, username, hash, role)]
      ensures r.Ok? ==> accounts.nextId == old(accounts).nextId + 1
      ensures r.Err? ==> View() == old(View())
      ensures r.Ok? ==> r.value == User(old(accounts).nextId, username, "", role)
    {
      var existing := ByName(accounts.users, username);
      if existing.Some? {
        return Err(UserExists);
      }
      accounts := Created(accounts, username, hash, role);
      r := Ok(User(accounts.nextId - 1, username, "", role));
    }

    method ChangePassword(id: nat, hash: string)
      modifies this
      ensures accounts == old(accounts).(users := PasswordChanged(old(accounts).users, id, hash))
      ensures View() == old(View()).(accounts := accounts)
      ensures |accounts.users| == |old(accounts).users| && accounts.nextId == old(accounts).nextId
      ensures forall i | 0 <= i < |accounts.users| ::
                var u := old(accounts).users[i];
                accounts.users[i] == if u.id == id then User(id, u.username, hash, u.role) else u
    {
      accounts := accounts.(users := PasswordChanged(accounts.users, id, hash));
    }

    method ChangeRole(id: nat, role: string)
      modifies this
      ensures accounts == old(accounts).(users := RoleChanged(old(accounts).users, id, role))
      ensures View() == old(View()).(accounts := accounts)
      ensures |accounts.users| == |old(accounts).users| && accounts.nextId == old(accounts).nextId
      ensures forall i | 0 <= i < |accounts.users| ::
                var u := old(accounts).users[i];
                accounts.users[i] == if u.id == id then User(id, u.username, u.passwordHash, role) else u
    {
      accounts := accounts.(users := RoleChanged(accounts.users, id, role));
    }

    /** `Login`, with the token that `generateToken` has drawn: a session of 24 hours exactly when some user
        has the name and a hash that the password fits, and the token is new. */
    method Login(username: string, password: string, token: string, now: int) returns (r: Result<string, AuthError>)
      modifies this
      ensures View() == LoggedIn(check, old(View()), username, password, token, now)
      ensures r == if LoginUser(check, old(accounts), username, password).None? then Err(InvalidCredentials)
                   else if ByToken(old(sessions), token).Some? then Err(TokenTaken)
                   else Ok(token)
      ensures UniqueUsers(old(accounts).users) ==>
                (r.Ok? <==>
                  && (exists u | u in old(accounts).users :: u.username == username && check(u.passwordHash, password))
                  && forall s | s in old(sessions) :: s.token != token)
      ensures r.Ok? ==>
                && r.value == token && accounts == old(accounts)
                && exists u | u in old(accounts).users ::
                     && u.username == username && check(u.passwordHash, password)
                     && sessions == old(sessions) + [Session(old(nextSession), u.id, token, now + 24 * 3600)]
      ensures r.Err? ==> View() == old(View())
    {
      var user := ByName(accounts.users, username);
      if user.None? {
        return Err(InvalidCredentials);
      }
      if UniqueUsers(accounts.users) {
        forall u | u in accounts.users && u.username == username ensures u == user.value {
          OnlyOfName(accounts.users, u, user.value);
        }
      }
      if !check(user.value.passwordHash, password) {
        return Err(InvalidCredentials);
      }
      var expiresAt := now + SESSION_TTL;
      if ByToken(sessions, token).Some? {
        return Err(TokenTaken);
      }
      sessions := sessions + [Session(nextSession, user.value.id, token, expiresAt)];
      nextSession := nextSession + 1;
      r := Ok(token);
    }

    method ValidateSession(token: string, now: int) returns (r: Option<User>)
      ensures r == Validated(View(), token, now)
      ensures r.Some? ==> r.value in accounts.users
      ensures r.Some? ==> exists s | s in sessions :: s.token == token && s.expiresAt > now && s.userId == r.value.id
      ensures UniqueTokens(sessions) && r.None? ==>
                forall s, u | s in sessions && u in accounts.users ::
                  !(s.token == token && s.expiresAt > now && s.userId == u.id)
    {
      var sess := ByToken(sessions, token);
      if UniqueTokens(sessions) && sess.Some? {
        forall s | s in sessions && s.token == token ensures s == sess.value {
          OnlyOfToken(sessions, s, sess.value);
        }
      }
      if sess.None? || sess.value.expiresAt <= now {
        return None;
      }
      r := ById(accounts.users, sess.value.userId);
    }

    method Logout(token: string)
      modifies this
      ensures View() == LoggedOut(old(View()), token)
      ensures accounts == old(accounts) && forall s :: s in sessions <==> s in old(sessions) && s.token != token
    {
      sessions := Where(sessions, (s: Session) => s.token != token);
    }

    /** `DeleteUser`: an unknown user is no error, the last admin stays; sessions go before the user. */
    method DeleteUser(id: nat) returns (r: Result<(), AuthError>)
      modifies this
      ensures View() == UserDeleted(old(View()), id)
      ensures r.Err? <==> ById(old(accounts).users, id).Some? && !Deletes(old(accounts), id)
      ensures UniqueUsers(old(accounts).users) ==>
                (r.Err? <==>
                  && (exists u | u in old(accounts).users :: u.id == id && u.role == "admin")
                  && forall u | u in old(accounts).users && u.role == "admin" :: u.id == id)
      ensures r.Err? ==> View() == old(View())
      ensures r.Ok? ==> forall u :: u in accounts.users <==> u in old(accounts).users && u.id != id
      ensures r.Ok? && (exists u :: u in old(accounts).users && u.id == id) ==>
                forall s :: s in sessions <==> s in old(sessions) && s.userId != id
    {
      var user := ById(accounts.users, id);
      if user.None? {
        return Ok(());
      }
      if user.value.role == ADMIN {
        var adminCount := 0;
        for i := 0 to |accounts.users|
          invariant adminCount == CountAdmins(accounts.users[..i])
        {
          assert accounts.users[..i + 1][..i] == accounts.users[..i];
          if accounts.users[i].role == ADMIN {
            adminCount := adminCount + 1;
          }
        }
        assert accounts.users[..|accounts.users|] == accounts.users;
        LastAdminIs(accounts.users, id);
        if adminCount <= 1 {
          return Err(LastAdmin);
        }
      }
      sessions := Where(sessions, (s: Session) => s.userId != id);
      accounts := accounts.(users := Where(accounts.users, (u: User) => u.id != id));
      r := Ok(());
    }

    method DeleteExpiredSessions(now: int)
      modifies this
      ensures View() == Purged(old(View()), now)
      ensures accounts == old(accounts) && forall s :: s in sessions <==> s in old(sessions) && s.expiresAt > now
    {
      sessions := Where(sessions, (s: Session) => s.expiresAt > now);
    }
  }
}
