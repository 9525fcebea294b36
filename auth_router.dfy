/** The auth router (`/api/auth`): registration appends a user to the document,
    login looks a user up by name and password hash, logout only answers. The
    password hash (SHA-256 in hex) is a parameter `hash`, left uninterpreted; the
    login token is random and is left out. */
module AuthRouter {
  import opened Replies
  import opened Store

  const MinPasswordLength: nat := 4

  /** What a successful login answers besides the token. */
  datatype Session = Session(userId: string, username: string)

  /** `users.find(u => u.username === username)`. */
  function FindUser(users: seq<User>, username: string): (r: Option<User>)
    ensures r.Some? ==> r.value in users && r.value.username == username
    ensures r.None? <==> forall u :: u in users ==> u.username != username
  {
    if users == [] then None
    else if users[0].username == username then Some(users[0])
    else FindUser(users[1..], username)
  }

  /** `users.find(u => u.username === username && u.password === passwordHash)`. */
  function FindCredentials(users: seq<User>, username: string, passwordHash: string): (r: Option<User>)
    ensures r.Some? ==> r.value in users && r.value.username == username && r.value.password == passwordHash
    ensures r.None? <==> forall u :: u in users ==> !(u.username == username && u.password == passwordHash)
  {
    if users == [] then None
    else if users[0].username == username && users[0].password == passwordHash then Some(users[0])
    else FindCredentials(users[1..], username, passwordHash)
  }

  /** POST /register. `clock` is the `Date.now()` that gives the id, `now` the
      creation time, `writeOk` whether writing the document succeeds. On success
      the answer carries the new user's id. */
  function RegisterStep(st: State, username: Option<string>, password: Option<string>,
                        hash: string -> string, clock: nat, now: int, writeOk: bool): (r: Step<string>)
    ensures !Present(username) || !Present(password) ==> r == Step(st, Failed(BadRequest))
    ensures Present(username) && Present(password) && JsLength(password.value) < MinPasswordLength ==>
              r == Step(st, Failed(BadRequest))
    ensures Present(username) && Present(password) &&
            (exists u :: u in Document(st.dbFile).users && u.username == username.value) ==>
              r == Step(st, Failed(BadRequest))
    ensures r.out.Done? <==>
              && Present(username) && Present(password) && JsLength(password.value) >= MinPasswordLength
              && (forall u :: u in Document(st.dbFile).users ==> u.username != username.value)
              && writeOk
    ensures r.out.Failed? ==> r.state == st
    ensures (&& Present(username) && Present(password) && JsLength(password.value) >= MinPasswordLength
             && (forall u :: u in Document(st.dbFile).users ==> u.username != username.value)
             && !writeOk) ==> r.out == Failed(ServerError)
    ensures r.out.Done? ==>
              var before := Document(st.dbFile);
              && r.state.dbFile == Some(before.(users := before.users + [User(r.out.value, username.value, hash(password.value), now)]))
              && r.state.disk == st.disk
  {
    if !Present(username) || !Present(password) then Step(st, Failed(BadRequest))
    else if JsLength(password.value) < MinPasswordLength then Step(st, Failed(BadRequest))
    else
      var db := Document(st.dbFile);
      if FindUser(db.users, username.value).Some? then Step(st, Failed(BadRequest))
      else
        var user := User(DecimalString(clock), username.value, hash(password.value), now);
        if writeOk then Step(State(Some(db.(users := db.users + [user])), st.disk), Done(user.id))
        else Step(st, Failed(ServerError))
  }

  /** POST /login: the first user with that name whose stored hash is the hash of
      the given password. Nothing is written. */
  function Login(st: State, username: Option<string>, password: Option<string>, hash: string -> string): (r: Outcome<Session>)
    ensures !Present(username) || !Present(password) ==> r == Failed(BadRequest)
    ensures Present(username) && Present(password) ==>
              (r.Done? <==> exists u :: u in Document(st.dbFile).users &&
                                       u.username == username.value && u.password == hash(password.value))
    ensures r.Done? ==> exists u :: u in Document(st.dbFile).users && u.username == username.value &&
                                   u.password == hash(password.value) && r.value == Session(u.id, u.username)
    ensures r.Failed? ==> r.code == BadRequest || r.code == Unauthorized
  {
    if !Present(username) || !Present(password) then Failed(BadRequest)
    else match FindCredentials(Document(st.dbFile).users, username.value, hash(password.value))
      case None => Failed(Unauthorized)
      case Some(u) => Done(Session(u.id, u.username))
  }

  /** POST /logout: always succeeds and changes nothing. */
  function Logout(st: State): (r: Step<()>)
    ensures r.state == st && r.out.Done?
  {
    Step(st, Done(()))
  }

  /** The register handler, as it runs against the server's store. */
  method Register(s: Store, username: Option<string>, password: Option<string>,
                  hash: string -> string, clock: nat, now: int, writeOk: bool) returns (r: Outcome<string>)
    modifies s
    ensures Step(s.Snapshot(), r) == RegisterStep(old(s.Snapshot()), username, password, hash, clock, now, writeOk)
  {
    if !Present(username) || !Present(password) {
      return Failed(BadRequest);
    }
    if JsLength(password.value) < MinPasswordLength {
      return Failed(BadRequest);
    }
    var db := Document(s.dbFile);
    var existingUser := FindUser(db.users, username.value);
    if existingUser.Some? {
      return Failed(BadRequest);
    }
    var newUser := User(DecimalString(clock), username.value, hash(password.value), now);
    db := db.(users := db.users + [newUser]);
    var written := s.WriteDB(db, writeOk);
    if !written {
      return Failed(ServerError);
    }
    r := Done(newUser.id);
  }

  /** No two users share a username. */
  ghost predicate UniqueUsernames(users: seq<User>) {
    forall j, k :: 0 <= j < |users| && 0 <= k < |users| && users[j].username == users[k].username ==> j == k
  }

  /** Registration keeps usernames unique. */
  lemma RegisterKeepsUsernamesUnique(st: State, username: Option<string>, password: Option<string>,
                                     hash: string -> string, clock: nat, now: int, writeOk: bool)
    requires UniqueUsernames(Document(st.dbFile).users)
    ensures UniqueUsernames(Document(RegisterStep(st, username, password, hash, clock, now, writeOk).state.dbFile).users)
  {
    var r := RegisterStep(st, username, password, hash, clock, now, writeOk);
    if r.out.Done? {
      var users := Document(st.dbFile).users;
      var users' := Document(r.state.dbFile).users;
      assert forall j :: 0 <= j < |users| ==> users'[j] == users[j] && users[j] in users;
    }
  }

  /** A credential lookup in a list with one user appended, when no earlier user
      has that name. */
  lemma {:induction false} FindCredentialsAppend(users: seq<User>, user: User, passwordHash: string)
    requires forall u :: u in users ==> u.username != user.username
    requires user.password == passwordHash
    ensures FindCredentials(users + [user], user.username, passwordHash) == Some(user)
  {
    if users != [] {
      assert (users + [user])[0] == users[0];
      assert (users + [user])[1..] == users[1..] + [user];
      FindCredentialsAppend(users[1..], user, passwordHash);
    } else {
      assert [user][1..] == [];
    }
  }

  /** Logging in right after registering, with the same name and password, succeeds
      and answers the new user's id. */
  lemma LoginAfterRegister(st: State, username: Option<string>, password: Option<string>,
                           hash: string -> string, clock: nat, now: int)
    requires RegisterStep(st, username, password, hash, clock, now, true).out.Done?
    ensures var r := RegisterStep(st, username, password, hash, clock, now, true);
            Login(r.state, username, password, hash) == Done(Session(r.out.value, username.value))
  {
    var r := RegisterStep(st, username, password, hash, clock, now, true);
    var user := User(r.out.value, username.value, hash(password.value), now);
    FindCredentialsAppend(Document(st.dbFile).users, user, hash(password.value));
  }
}
