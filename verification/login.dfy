/** `POST /api/auth/login`: checks a username and password against the user
    table and, for a match, returns a fresh token and the public user fields. */
module Login {
  import opened Common
  import opened Json
  import opened Token
  import opened Store
  import Auth

  const BadCredentials := "Invalid username or password"

  datatype LoginBody = LoginBody(token: string, user: PublicUser)

  /** The login handler. `matches(password, hash)` is the bcrypt comparison;
      the token is signed at the store's current time with the key that the
      `JWT_SECRET` setting selects, the same key the gate verifies with. */
  function Login(body: Option<Value>, db: Db, matches: (string, string) -> bool, codec: Codec, setting: Option<string>): (r: Response<LoginBody>)
    ensures r.Fail? ==> (r.status == 401 && r.message == BadCredentials) || r == Fail(500, InternalError)
    ensures !Readable(body) ==> r == Fail(500, InternalError)
    ensures Readable(body) && FindUserByName(db, Field(body, "username")).Missing? ==> r == Fail(401, BadCredentials)
    ensures Readable(body) && FindUserByName(db, Field(body, "username")).LookupFailed? ==> r == Fail(500, InternalError)
    ensures Readable(body) && FindUserByName(db, Field(body, "username")).Found? && !Field(body, "password").Str? ==>
              r == Fail(500, InternalError)
    ensures Readable(body) && FindUserByName(db, Field(body, "username")).Found? && Field(body, "password").Str? ==>
              var u := FindUserByName(db, Field(body, "username")).user;
              (r.Ok? <==> matches(Field(body, "password").s, u.passwordHash))
              && (r.Fail? ==> r == Fail(401, BadCredentials))
    ensures r.Ok? ==>
      && Readable(body)
      && FindUserByName(db, Field(body, "username")).Found?
      && var u := FindUserByName(db, Field(body, "username")).user;
         && Field(body, "password").Str?
         && matches(Field(body, "password").s, u.passwordHash)
         && r.body.user == Public(u)
         && r.body.token == codec.encode(Issue(Claims(u.id, u.username, u.role), Secret(setting), db.now))
  {
    if !Readable(body) then Fail(500, InternalError)
    else
      var username := Field(body, "username");
      var password := Field(body, "password");
      match FindUserByName(db, username)
      case LookupFailed => Fail(500, InternalError)
      case Missing => Fail(401, BadCredentials)
      case Found(u) =>
        if !password.Str? then Fail(500, InternalError)
        else if !matches(password.s, u.passwordHash) then Fail(401, BadCredentials)
        else
          var token := codec.encode(Issue(Claims(u.id, u.username, u.role), Secret(setting), db.now));
          Ok(LoginBody(token, Public(u)))
  }

  /** An unknown username and a wrong password for a known one get the same
      reply, so a caller cannot tell which check failed. */
  lemma FailuresIndistinguishable(db: Db, matches: (string, string) -> bool, codec: Codec, setting: Option<string>,
                                  unknown: string, known: UserRow, wrong: string)
    requires db.online
    requires forall u :: u in db.users ==> u.username != unknown
    requires known in db.users && !matches(wrong, known.passwordHash)
    requires forall u :: u in db.users && u.username == known.username ==> u == known
    ensures var attempt1 := Some(Obj(map["username" := Str(unknown), "password" := Str(wrong)]));
            var attempt2 := Some(Obj(map["username" := Str(known.username), "password" := Str(wrong)]));
            && Login(attempt1, db, matches, codec, setting) == Fail(401, BadCredentials)
            && Login(attempt2, db, matches, codec, setting) == Login(attempt1, db, matches, codec, setting)
  {
    var attempt2 := Some(Obj(map["username" := Str(known.username), "password" := Str(wrong)]));
    assert Field(attempt2, "username") == Str(known.username);
    assert FindUserByName(db, Str(known.username)).user == known;
  }

  /** A correct login by an admin yields a token that the gate, verifying
      with the same `JWT_SECRET` setting, accepts as that admin until 24
      hours after login. */
  lemma LoginTokenOpensGate(body: Option<Value>, db: Db, matches: (string, string) -> bool, codec: Codec,
                            setting: Option<string>, now: int)
    requires Compact(codec)
    requires Login(body, db, matches, codec, setting).Ok?
    requires Login(body, db, matches, codec, setting).body.user.role == "admin"
    requires forall u, v :: u in db.users && v in db.users && u.id == v.id ==> u == v
    requires db.now <= now < db.now + Lifetime
    ensures var reply := Login(body, db, matches, codec, setting).body;
            Auth.VerifyAuth(Some(Auth.BearerPrefix + reply.token), (t: string) => Verify(codec, t, Secret(setting), now), db)
              == Auth.Authorized(reply.user)
  {
    var u := FindUserByName(db, Field(body, "username")).user;
    Auth.IssuedTokenPassesGate(codec, Secret(setting), u, db.now, now, db);
  }
}
