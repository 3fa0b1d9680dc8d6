/** The account routes of backend/routes/auth.js: registration with its validators and
    duplicate check, login, and logout. Password hashing is a parameter (the hash handed in
    for a new account) and password checking an abstract predicate `verify(password, hash)`;
    the tokens returned are not part of this model. */
module Auth {
  import opened Common
  import opened Query
  import opened Tables

  /** Usernames and e-mails are `UNIQUE`, and user ids a primary key. */
  ghost predicate UniqueAccounts(us: seq<User>) {
    forall i, j :: 0 <= i < j < |us| ==>
      us[i].userId != us[j].userId && us[i].username != us[j].username && us[i].email != us[j].email
  }

  /** The form after the sanitizers: `username` and `displayName` trimmed (a missing
      username reads as `''`). */
  function CleanUsername(username: Option<string>): string {
    if username.Some? then Trim(username.value) else ""
  }

  function CleanDisplayName(displayName: Option<string>): Option<string> {
    if displayName.Some? then Some(Trim(displayName.value)) else None
  }

  /** The validators of POST /register: a trimmed username of 3 to 50 characters, an e-mail
      the e-mail check accepts, a password of at least 6 characters, and a display name that
      is either absent or at most 100 characters after trimming; lengths as `isLength`
      measures them. */
  predicate RegisterValid(username: Option<string>, emailOk: bool, password: Option<string>, displayName: Option<string>)
    ensures RegisterValid(username, emailOk, password, displayName) ==>
      username.Some? && 3 <= |Trim(username.value)| && emailOk && password.Some? && 6 <= |password.value|
  {
    3 <= ValidatorLength(CleanUsername(username)) <= 50
    && emailOk
    && password.Some? && ValidatorLength(password.value) >= 6
    && (displayName.None? || ValidatorLength(CleanDisplayName(displayName).value) <= 100)
  }

  /** `SELECT user_id FROM Users WHERE username = @username OR email = @email` has a row. */
  predicate Taken(us: seq<User>, username: string, email: string) {
    exists i :: 0 <= i < |us| && (us[i].username == username || us[i].email == email)
  }

  /** The inserted row: `display_name` is the display name or, when it is empty or absent, the
      username; the other columns take their defaults. */
  function NewAccount(us: seq<User>, username: string, email: string, hash: string, displayName: Option<string>, now: int): (r: User)
    ensures r.userId == NextUserId(us) && r.username == username && r.email == email && r.passwordHash == hash
    ensures r.displayName == (if Present(displayName) then displayName.value else username)
    ensures !r.profileCompleted && !r.isOnline && r.fullName.None? && r.avatarUrl.None?
  {
    User(NextUserId(us), username, email, hash, OrElse(displayName, username), None, None, None, None,
         false, false, None, None, now, now)
  }

  /** A registration that passes the duplicate check keeps accounts unique. */
  lemma RegisterKeepsUnique(us: seq<User>, username: string, email: string, hash: string, displayName: Option<string>, now: int)
    requires UniqueAccounts(us)
    requires !Taken(us, username, email)
    ensures UniqueAccounts(us + [NewAccount(us, username, email, hash, displayName, now)])
  {
    var n := NewAccount(us, username, email, hash, displayName, now);
    var r := us + [n];
    forall i, j | 0 <= i < j < |r|
      ensures r[i].userId != r[j].userId && r[i].username != r[j].username && r[i].email != r[j].email
    {
      assert r[i] == us[i];
      if j < |us| {
        assert r[j] == us[j];
      }
    }
  }

  /** POST /register. A failed validator gives 400; a username or e-mail already in use gives
      400; otherwise the account is inserted and 201 is answered with it. `emailOk` and
      `email` are the results of the e-mail validator and normaliser, `hash` the bcrypt hash of
      the password. */
  method Register(db: Db, username: Option<string>, emailOk: bool, email: string, password: Option<string>,
                  displayName: Option<string>, hash: string, now: int)
      returns (status: Status, user: Option<User>)
    requires UniqueAccounts(db.users)
    modifies db`users
    ensures UniqueAccounts(db.users)
    ensures !RegisterValid(username, emailOk, password, displayName) ==>
      status == BadRequest && user.None? && unchanged(db)
    ensures RegisterValid(username, emailOk, password, displayName) && Taken(old(db.users), CleanUsername(username), email) ==>
      status == BadRequest && user.None? && unchanged(db)
    ensures RegisterValid(username, emailOk, password, displayName) && !Taken(old(db.users), CleanUsername(username), email) ==>
      status == Created
      && user == Some(NewAccount(old(db.users), CleanUsername(username), email, hash, CleanDisplayName(displayName), now))
      && db.users == old(db.users) + [user.value]
  {
    if !RegisterValid(username, emailOk, password, displayName) {
      return BadRequest, None;
    }
    var name := CleanUsername(username);
    if Taken(db.users, name, email) {
      return BadRequest, None;
    }
    var account := NewAccount(db.users, name, email, hash, CleanDisplayName(displayName), now);
    RegisterKeepsUnique(db.users, name, email, hash, CleanDisplayName(displayName), now);
    db.users := db.users + [account];
    return Created, Some(account);
  }

  /** After a registration the new username is taken, so registering it again is refused. */
  lemma RegisterTwiceRefused(us: seq<User>, username: string, email: string, email2: string, hash: string,
                             displayName: Option<string>, now: int)
    ensures Taken(us + [NewAccount(us, username, email, hash, displayName, now)], username, email2)
  {
    var r := us + [NewAccount(us, username, email, hash, displayName, now)];
    assert r[|us|].username == username;
  }

  /** The one answer for every failed login. */
  const BadCredentials: string := "Username hoặc mật khẩu không đúng"

  /** `SELECT ... FROM Users WHERE username = @username`, first row. */
  function FindByUsername(us: seq<User>, username: string): (r: Option<User>)
    ensures r.None? <==> forall i :: 0 <= i < |us| ==> us[i].username != username
    ensures r.Some? ==> r.value in us && r.value.username == username
  {
    FindFirst(us, (u: User) => u.username == username)
  }

  /** The login answer: refused with a status and message (the validator errors of a 400 are
      not modelled and read as `''`), or the user row. */
  datatype LoginReply = LoginRefused(status: Status, message: string) | LoggedIn(user: User)

  /** The credential check of POST /login, without its effect. An unknown username and a
      wrong password give the same answer, so the answer does not reveal which usernames
      exist. */
  function CheckLogin(us: seq<User>, username: Option<string>, password: Option<string>,
                      verify: (string, string) -> bool): (r: LoginReply)
    ensures CleanUsername(username) == "" || password.None? || password.value == "" ==>
      r.LoginRefused? && r.status == BadRequest
    ensures r.LoggedIn? <==> (CleanUsername(username) != "" && password.Some? && password.value != ""
      && FindByUsername(us, CleanUsername(username)).Some?
      && verify(password.value, FindByUsername(us, CleanUsername(username)).value.passwordHash))
    ensures r.LoggedIn? ==> r.user == FindByUsername(us, CleanUsername(username)).value
    ensures r.LoginRefused? && r.status != BadRequest ==> r == LoginRefused(Unauthorized, BadCredentials)
  {
    var name := CleanUsername(username);
    if name == "" || password.None? || password.value == "" then LoginRefused(BadRequest, "")
    else
      match FindByUsername(us, name)
      case None => LoginRefused(Unauthorized, BadCredentials)
      case Some(u) => if verify(password.value, u.passwordHash) then LoggedIn(u) else LoginRefused(Unauthorized, BadCredentials)
  }

  /** An unknown username and a known one with a wrong password are answered identically. */
  lemma LoginFailuresIndistinguishable(us: seq<User>, unknown: string, known: string, password: string,
                                       verify: (string, string) -> bool)
    requires Trim(unknown) != "" && Trim(known) != "" && password != ""
    requires FindByUsername(us, Trim(unknown)).None?
    requires FindByUsername(us, Trim(known)).Some? && !verify(password, FindByUsername(us, Trim(known)).value.passwordHash)
    ensures CheckLogin(us, Some(unknown), Some(password), verify) == CheckLogin(us, Some(known), Some(password), verify)
  {
  }

  /** `UPDATE Users SET is_online = o, last_seen = GETDATE() WHERE user_id = id`. */
  function SetOnline(us: seq<User>, id: int, online: bool, now: int): (r: seq<User>)
    ensures |r| == |us|
    ensures forall i :: 0 <= i < |us| && us[i].userId == id ==> r[i] == us[i].(isOnline := online, lastSeen := Some(now))
    ensures forall i :: 0 <= i < |us| && us[i].userId != id ==> r[i] == us[i]
  {
    UpdateUser(us, id, (u: User) => u.(isOnline := online, lastSeen := Some(now)))
  }

  /** POST /login: the check above, and on success the user is marked online. */
  method Login(db: Db, username: Option<string>, password: Option<string>, verify: (string, string) -> bool, now: int)
      returns (r: LoginReply)
    modifies db`users
    ensures r == CheckLogin(old(db.users), username, password, verify)
    ensures r.LoginRefused? ==> unchanged(db)
    ensures r.LoggedIn? ==> db.users == SetOnline(old(db.users), r.user.userId, true, now)
  {
    r := CheckLogin(db.users, username, password, verify);
    if r.LoggedIn? {
      db.users := SetOnline(db.users, r.user.userId, true, now);
    }
  }

  /** `UPDATE UserSessions SET logout_time = GETDATE(), is_active = 0 WHERE user_id = id AND is_active = 1`. */
  function CloseUserSessions(ss: seq<Session>, id: int, now: int): (r: seq<Session>)
    ensures |r| == |ss|
    ensures forall i :: 0 <= i < |ss| && ss[i].userId == id && ss[i].isActive ==>
      r[i] == ss[i].(logoutTime := Some(now), isActive := false)
    ensures forall i :: 0 <= i < |ss| && !(ss[i].userId == id && ss[i].isActive) ==> r[i] == ss[i]
  {
    UpdateWhere(ss, (s: Session) => s.userId == id && s.isActive, (s: Session) => s.(logoutTime := Some(now), isActive := false))
  }

  /** After logout the user has no active session and is offline; others are untouched. */
  lemma LogoutEffect(us: seq<User>, ss: seq<Session>, id: int, now: int, i: nat, j: nat)
    requires i < |ss| && j < |us|
    ensures CloseUserSessions(ss, id, now)[i].isActive <==> ss[i].isActive && ss[i].userId != id
    ensures SetOnline(us, id, false, now)[j].isOnline <==> us[j].isOnline && us[j].userId != id
  {
  }

  /** POST /logout: with a user id in the body, that user goes offline and every active
      session of theirs is closed; without one (`NULL`) no row matches and nothing changes. */
  method Logout(db: Db, userId: Option<int>, now: int) returns (status: Status)
    modifies db`users, db`sessions
    ensures status == Ok
    ensures userId.None? ==> unchanged(db)
    ensures userId.Some? ==>
      db.users == SetOnline(old(db.users), userId.value, false, now)
      && db.sessions == CloseUserSessions(old(db.sessions), userId.value, now)
  {
    if userId.Some? {
      db.users := SetOnline(db.users, userId.value, false, now);
      db.sessions := CloseUserSessions(db.sessions, userId.value, now);
    }
    return Ok;
  }
}
