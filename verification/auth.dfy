/** The gate every admin route calls first (`verifyAuth`): a fixed-order
    check of the Authorization header, the token and the user it names. */
module Auth {
  import opened Common
  import opened Text
  import opened Token
  import opened Store

  /** `{ success: true, user }` or `{ success: false, message, status }`. */
  datatype GateResult = Authorized(user: PublicUser) | Denied(status: int, message: string)

  const BearerPrefix := "Bearer "

  const HeaderInvalid := "Authorization header missing or invalid"
  const TokenMissing := "Token missing"
  const TokenInvalid := "Invalid or expired token"
  const UserNotFound := "User not found"
  const NotAdmin := "Insufficient permissions"

  /** The header is present and starts with "Bearer ", case-sensitively. */
  predicate WellFormed(header: Option<string>) {
    header.Some? && StartsWith(header.value, BearerPrefix)
  }

  /** `authHeader.split(" ")[1]`: the second space-separated field, which is
      the text after "Bearer " up to the next space. */
  function BearerToken(header: string): (token: string)
    requires StartsWith(header, BearerPrefix)
    ensures token == TakeUntil(header[|BearerPrefix|..], ' ')
    ensures ' ' !in token
  {
    var rest := header[|BearerPrefix|..];
    assert header == "Bearer" + [' '] + rest;
    SplitAfterPiece("Bearer", ' ', rest);
    SplitHead(rest, ' ');
    Split(header, ' ')[1]
  }

  /** The token is empty exactly when nothing, or another space, follows
      "Bearer ". */
  lemma EmptyBearerToken(header: string)
    requires StartsWith(header, BearerPrefix)
    ensures BearerToken(header) == "" <==> |header| == |BearerPrefix| || header[|BearerPrefix|] == ' '
  {
  }

  /** `verifyAuth(request)`. `verify` is `jwt.verify` with the configured
      secret at the current time; the user lookup goes to `db`. A lookup that
      throws is caught by the same handler as a bad token. */
  function VerifyAuth(header: Option<string>, verify: string -> Verdict, db: Db): (r: GateResult)
    ensures r.Denied? ==> r.status == 401 || r.status == 403
    ensures !WellFormed(header) ==> r == Denied(401, HeaderInvalid)
    ensures WellFormed(header) && BearerToken(header.value) == "" ==> r == Denied(401, TokenMissing)
    ensures r.Authorized? <==>
      && WellFormed(header)
      && BearerToken(header.value) != ""
      && verify(BearerToken(header.value)).Verified?
      && FindUserById(db, verify(BearerToken(header.value)).claims.userId).Found?
      && FindUserById(db, verify(BearerToken(header.value)).claims.userId).user.role == "admin"
    ensures r.Authorized? ==> r.user.role == "admin" && exists u :: u in db.users && r.user == Public(u)
    ensures r.Authorized? ==>
      r.user == Public(FindUserById(db, verify(BearerToken(header.value)).claims.userId).user)
    ensures r == Denied(403, NotAdmin) <==>
      && WellFormed(header)
      && BearerToken(header.value) != ""
      && verify(BearerToken(header.value)).Verified?
      && FindUserById(db, verify(BearerToken(header.value)).claims.userId).Found?
      && FindUserById(db, verify(BearerToken(header.value)).claims.userId).user.role != "admin"
  {
    if !WellFormed(header) then Denied(401, HeaderInvalid)
    else
      var token := BearerToken(header.value);
      if token == "" then Denied(401, TokenMissing)
      else match verify(token)
        case Verified(claims) =>
          (match FindUserById(db, claims.userId)
           case Found(user) =>
             if user.role != "admin" then Denied(403, NotAdmin) else Authorized(Public(user))
           case Missing => Denied(401, UserNotFound)
           case LookupFailed => Denied(401, TokenInvalid))
        case _ => Denied(401, TokenInvalid)
  }

  /** A bad header is refused before anything else runs: the outcome does not
      depend on the verifier or on the database. */
  lemma BadHeaderConsultsNothing(header: Option<string>, verify1: string -> Verdict, verify2: string -> Verdict, db1: Db, db2: Db)
    requires !WellFormed(header) || BearerToken(header.value) == ""
    ensures VerifyAuth(header, verify1, db1) == VerifyAuth(header, verify2, db2)
  {
  }

  /** Every verification failure, and a lookup that throws, reads as
      "Invalid or expired token"; a verified token naming no user reads as
      "User not found". */
  lemma TokenAndLookupFailures(header: Option<string>, verify: string -> Verdict, db: Db)
    requires WellFormed(header) && BearerToken(header.value) != ""
    ensures !verify(BearerToken(header.value)).Verified? ==> VerifyAuth(header, verify, db) == Denied(401, TokenInvalid)
    ensures verify(BearerToken(header.value)).Verified? && !db.online ==> VerifyAuth(header, verify, db) == Denied(401, TokenInvalid)
    ensures verify(BearerToken(header.value)).Verified? && db.online
            && (forall u :: u in db.users ==> u.id != verify(BearerToken(header.value)).claims.userId)
            ==> VerifyAuth(header, verify, db) == Denied(401, UserNotFound)
  {
  }

  /** A token issued by login for an admin, presented as "Bearer <token>"
      within 24 hours, passes the gate as that admin; after 24 hours it is
      refused with 401. */
  lemma IssuedTokenPassesGate(codec: Codec, key: string, u: UserRow, issued: int, now: int, db: Db)
    requires Compact(codec)
    requires db.online && u in db.users && u.role == "admin"
    requires forall v :: v in db.users && v.id == u.id ==> v == u
    ensures var token := codec.encode(Issue(Claims(u.id, u.username, u.role), key, issued));
            var verify := (t: string) => Verify(codec, t, key, now);
            && (now < issued + Lifetime ==> VerifyAuth(Some(BearerPrefix + token), verify, db) == Authorized(Public(u)))
            && (now >= issued + Lifetime ==> VerifyAuth(Some(BearerPrefix + token), verify, db) == Denied(401, TokenInvalid))
  {
    var token := codec.encode(Issue(Claims(u.id, u.username, u.role), key, issued));
    var header := BearerPrefix + token;
    assert StartsWith(header, BearerPrefix);
    assert header[|BearerPrefix|..] == token;
    TakeUntilWhole(token, ' ');
    assert BearerToken(header) == token;
    IssueThenVerify(codec, Claims(u.id, u.username, u.role), key, issued, key, now);
  }
}
