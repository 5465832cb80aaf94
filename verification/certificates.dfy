/** `GET` and `POST /api/certificates`. */
module CertificatesRoute {
  import opened Common
  import opened Json
  import opened Http
  import opened Text
  import opened Token
  import opened Store
  import opened Sorting
  import Auth

  /** `orderBy: { issueDate: "desc" }`. */
  const LatestIssuedFirst := (a: Certificate, b: Certificate) => a.issueDate >= b.issueDate

  /** The public list: every certificate, most recently issued first. */
  function List(db: Db): (r: Response<seq<Certificate>>)
    ensures r.Ok? <==> db.online
    ensures r.Fail? ==> r == Fail(500, InternalError)
    ensures r.Ok? ==> multiset(r.body) == multiset(db.certificates)
    ensures r.Ok? ==> forall i, j :: 0 <= i < j < |r.body| ==> r.body[i].issueDate >= r.body[j].issueDate
  {
    if !db.online then Fail(500, InternalError)
    else
      assert TotalPreorder(LatestIssuedFirst);
      Ok(Sort(db.certificates, LatestIssuedFirst))
  }

  /** `Array.isArray(skills) ? skills : skills?.split(",").map(s => s.trim()) || []`:
      a list is kept; undefined and null give the empty list; a string is
      split and trimmed (always at least one piece, so the `|| []` never
      applies to it); any other value has no `split` and throws. */
  function NormaliseSkills(skills: Value): (r: Option<seq<Value>>)
    ensures skills.Arr? ==> r == Some(skills.items)
    ensures skills.Undefined? || skills.Null? ==> r == Some([])
    ensures skills.Str? ==> r == Some(Strs(SplitTrim(skills.s))) && |r.value| >= 1
    ensures r.None? <==> !(skills.Arr? || skills.Undefined? || skills.Null? || skills.Str?)
  {
    match skills
    case Arr(items) => Some(items)
    case Undefined => Some([])
    case Null => Some([])
    case Str(s) => Some(Strs(SplitTrim(s)))
    case _ => None
  }

  /** The body's values fit the `Certificate` columns once defaulted: title
      and issuer are strings, the optional text a string or falsy, `skills`
      normalises to a list of strings, `featured` is a boolean or falsy,
      the issue date is a valid date, and so is the expiry unless falsy. */
  predicate Storable(body: Option<Value>, toDate: Value -> Date)
    requires Readable(body)
  {
    && Field(body, "title").Str? && Field(body, "issuer").Str?
    && AsOptText(Or(Field(body, "description"), Null)).Some?
    && AsOptText(Or(Field(body, "imageUrl"), Null)).Some?
    && AsOptText(Or(Field(body, "credentialUrl"), Null)).Some?
    && NormaliseSkills(Field(body, "skills")).Some?
    && AsTextList(NormaliseSkills(Field(body, "skills")).value).Some?
    && Or(Field(body, "featured"), Bool(false)).Bool?
    && toDate(Field(body, "issueDate")).Valid?
    && (!Falsy(Field(body, "expiryDate")) ==> toDate(Field(body, "expiryDate")).Valid?)
  }

  /** The handler once the gate has let the request through: the body is
      read and the required fields checked; then the row is saved. */
  function Submit(body: Option<Value>, toDate: Value -> Date, db: Db): (r: (Response<Certificate>, Db))
    ensures r.0.Fail? ==> r.1 == db
    ensures r.0.Fail? ==> r.0.status in {400, 500}
    ensures !Readable(body) ==> r == (Fail(500, InternalError), db)
    ensures r.0.Fail? && r.0 != Fail(400, MissingFields) ==> r.0 == Fail(500, InternalError)
    ensures r.0 == Fail(400, MissingFields) <==>
      && Readable(body)
      && (Falsy(Field(body, "title")) || Falsy(Field(body, "issuer")) || Falsy(Field(body, "issueDate")))
    ensures r.0.Ok? <==>
      && Readable(body)
      && !Falsy(Field(body, "title")) && !Falsy(Field(body, "issuer")) && !Falsy(Field(body, "issueDate"))
      && db.online && Storable(body, toDate)
    ensures r.0.Ok? ==>
      && Readable(body)
      && var c := r.0.body;
         var skills := Field(body, "skills");
         && r.1 == db.(certificates := db.certificates + [c], nextId := db.nextId + 1)
         && c.id == db.nextId
         && Field(body, "title") == Str(c.title)
         && Field(body, "issuer") == Str(c.issuer)
         && toDate(Field(body, "issueDate")) == Valid(c.issueDate)
         && (Falsy(Field(body, "expiryDate")) <==> c.expiryDate.None?)
         && (c.expiryDate.Some? ==> toDate(Field(body, "expiryDate")) == Valid(c.expiryDate.value))
         && NullIfFalsy(Field(body, "description"), c.description)
         && NullIfFalsy(Field(body, "imageUrl"), c.imageUrl)
         && NullIfFalsy(Field(body, "credentialUrl"), c.credentialUrl)
         && (skills.Arr? ==> skills.items == Strs(c.skills))
         && (skills.Str? ==> c.skills == SplitTrim(skills.s))
         && (skills.Undefined? || skills.Null? ==> c.skills == [])
         && (Falsy(Field(body, "featured")) <==> !c.featured)
  {
    if !Readable(body) then (Fail(500, InternalError), db)
    else if Falsy(Field(body, "title")) || Falsy(Field(body, "issuer")) || Falsy(Field(body, "issueDate"))
    then (Fail(400, MissingFields), db)
    else Save(body, toDate, db)
  }

  /** `prisma.certificate.create` with the normalised, defaulted fields of
      the body: `|| null` for the optional text, `|| false` for `featured`,
      no expiry for a falsy `expiryDate`. Any failure is a 500. */
  function Save(body: Option<Value>, toDate: Value -> Date, db: Db): (r: (Response<Certificate>, Db))
    requires Readable(body)
    ensures r.0.Fail? ==> r == (Fail(500, InternalError), db)
    ensures r.0.Ok? <==> db.online && Storable(body, toDate)
    ensures r.0.Ok? ==>
      && var c := r.0.body;
         var skills := Field(body, "skills");
         && r.1 == db.(certificates := db.certificates + [c], nextId := db.nextId + 1)
         && c.id == db.nextId
         && Field(body, "title") == Str(c.title)
         && Field(body, "issuer") == Str(c.issuer)
         && toDate(Field(body, "issueDate")) == Valid(c.issueDate)
         && (Falsy(Field(body, "expiryDate")) <==> c.expiryDate.None?)
         && (c.expiryDate.Some? ==> toDate(Field(body, "expiryDate")) == Valid(c.expiryDate.value))
         && NullIfFalsy(Field(body, "description"), c.description)
         && NullIfFalsy(Field(body, "imageUrl"), c.imageUrl)
         && NullIfFalsy(Field(body, "credentialUrl"), c.credentialUrl)
         && (skills.Arr? ==> skills.items == Strs(c.skills))
         && (skills.Str? ==> c.skills == SplitTrim(skills.s))
         && (skills.Undefined? || skills.Null? ==> c.skills == [])
         && (Falsy(Field(body, "featured")) <==> !c.featured)
  {
    match NormaliseSkills(Field(body, "skills"))
    case None => (Fail(500, InternalError), db)
    case Some(items) =>
      var draft := Draft(body, toDate, items);
      DraftFits(body, toDate, db);
      match CreateCertificate(db, draft)
      case Rejected(_) => (Fail(500, InternalError), db)
      case Written(row, db') =>
        OrNullColumn(Field(body, "description"), row.description);
        OrNullColumn(Field(body, "imageUrl"), row.imageUrl);
        OrNullColumn(Field(body, "credentialUrl"), row.credentialUrl);
        assert Field(body, "skills").Str? ==> Strs(row.skills) == Strs(SplitTrim(Field(body, "skills").s));
        (Ok(row), db')
  }

  /** The row `Save` hands to the store. */
  function Draft(body: Option<Value>, toDate: Value -> Date, items: seq<Value>): CertificateDraft
    requires Readable(body)
  {
    var expiry := Field(body, "expiryDate");
    CertificateDraft(
      Field(body, "title"), Field(body, "issuer"),
      Or(Field(body, "description"), Null),
      Or(Field(body, "imageUrl"), Null),
      Or(Field(body, "credentialUrl"), Null),
      toDate(Field(body, "issueDate")),
      if Falsy(expiry) then None else Some(toDate(expiry)),
      items,
      Or(Field(body, "featured"), Bool(false)))
  }

  /** The store writes the draft exactly when it is up and the body is storable. */
  lemma DraftFits(body: Option<Value>, toDate: Value -> Date, db: Db)
    requires Readable(body) && NormaliseSkills(Field(body, "skills")).Some?
    ensures CreateCertificate(db, Draft(body, toDate, NormaliseSkills(Field(body, "skills")).value)).Written?
            <==> db.online && Storable(body, toDate)
  {
  }

  /** The `POST` handler. `toDate` is `new Date(value)`, which never throws
      but may give an Invalid Date that the store then rejects. */
  function Create(req: Request, verify: string -> Verdict, toDate: Value -> Date, db: Db): (r: (Response<Certificate>, Db))
    ensures var gate := Auth.VerifyAuth(req.authorization, verify, db);
            && (gate.Denied? ==> r == (Fail(gate.status, gate.message), db))
            && (gate.Authorized? ==> r == Submit(req.body, toDate, db))
    ensures r.0.Fail? ==> r.1 == db
    ensures r.0.Fail? ==> r.0.status in {400, 401, 403, 500}
    ensures r.1 != db ==>
      && Auth.VerifyAuth(req.authorization, verify, db).Authorized?
      && r.0.Ok? && r.1 == db.(certificates := db.certificates + [r.0.body], nextId := db.nextId + 1)
  {
    match Auth.VerifyAuth(req.authorization, verify, db)
    case Denied(status, message) => (Fail(status, message), db)
    case Authorized(_) => Submit(req.body, toDate, db)
  }

  /** A created certificate has no skills only when none were sent (absent,
      null or an empty list): a string, even "", gives at least one. */
  lemma EmptySkillsOnlyWhenNoneSent(req: Request, verify: string -> Verdict, toDate: Value -> Date, db: Db)
    requires Create(req, verify, toDate, db).0.Ok?
    requires Create(req, verify, toDate, db).0.body.skills == []
    ensures Readable(req.body)
    ensures var skills := Field(req.body, "skills");
            skills.Undefined? || skills.Null? || skills == Arr([])
  {
  }
}
