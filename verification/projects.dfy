/** `GET` and `POST /api/projects`. */
module ProjectsRoute {
  import opened Common
  import opened Json
  import opened Http
  import opened Text
  import opened Token
  import opened Store
  import opened Sorting
  import Auth

  /** `orderBy: { createdAt: "desc" }`. */
  const NewestFirst := (a: Project, b: Project) => a.createdAt >= b.createdAt

  /** The public list: every project, newest first. */
  function List(db: Db): (r: Response<seq<Project>>)
    ensures r.Ok? <==> db.online
    ensures r.Fail? ==> r == Fail(500, InternalError)
    ensures r.Ok? ==> multiset(r.body) == multiset(db.projects)
    ensures r.Ok? ==> forall i, j :: 0 <= i < j < |r.body| ==> r.body[i].createdAt >= r.body[j].createdAt
  {
    if !db.online then Fail(500, InternalError)
    else
      assert TotalPreorder(NewestFirst);
      Ok(Sort(db.projects, NewestFirst))
  }

  /** `Array.isArray(tech) ? tech : tech.split(",").map(t => t.trim())`:
      a list is kept, a string is split at every comma and each piece
      trimmed, and anything else has no `split` and throws. */
  function NormaliseTech(tech: Value): (r: Option<seq<Value>>)
    ensures tech.Arr? ==> r == Some(tech.items)
    ensures tech.Str? ==> r == Some(Strs(SplitTrim(tech.s)))
    ensures r.None? <==> !tech.Arr? && !tech.Str?
  {
    match tech
    case Arr(items) => Some(items)
    case Str(s) => Some(Strs(SplitTrim(s)))
    case _ => None
  }

  /** The body's values fit the `Project` columns once defaulted: title
      and description are strings, `tech` normalises to a list of strings,
      each link is a string or falsy and `featured` a boolean or falsy. */
  predicate Storable(body: Option<Value>)
    requires Readable(body)
  {
    && Field(body, "title").Str? && Field(body, "description").Str?
    && NormaliseTech(Field(body, "tech")).Some?
    && AsTextList(NormaliseTech(Field(body, "tech")).value).Some?
    && AsOptText(Or(Field(body, "imageUrl"), Null)).Some?
    && AsOptText(Or(Field(body, "githubUrl"), Null)).Some?
    && AsOptText(Or(Field(body, "liveUrl"), Null)).Some?
    && Or(Field(body, "featured"), Bool(false)).Bool?
  }

  /** The handler once the gate has let the request through: the body is
      read and the required fields checked; then the row is saved. */
  function Submit(body: Option<Value>, db: Db): (r: (Response<Project>, Db))
    ensures r.0.Fail? ==> r.1 == db
    ensures r.0.Fail? ==> r.0.status in {400, 500}
    ensures !Readable(body) ==> r == (Fail(500, InternalError), db)
    ensures r.0.Fail? && r.0 != Fail(400, MissingFields) ==> r.0 == Fail(500, InternalError)
    ensures r.0 == Fail(400, MissingFields) <==>
      && Readable(body)
      && (Falsy(Field(body, "title")) || Falsy(Field(body, "description")) || Falsy(Field(body, "tech")))
    ensures r.0.Ok? <==>
      && Readable(body)
      && !Falsy(Field(body, "title")) && !Falsy(Field(body, "description")) && !Falsy(Field(body, "tech"))
      && db.online && Storable(body)
    ensures r.0.Ok? ==>
      && Readable(body)
      && var p := r.0.body;
         && r.1 == db.(projects := db.projects + [p], nextId := db.nextId + 1)
         && p.id == db.nextId && p.createdAt == db.now
         && Field(body, "title") == Str(p.title)
         && Field(body, "description") == Str(p.description)
         && (Field(body, "tech").Str? ==> p.tech == SplitTrim(Field(body, "tech").s))
         && (Field(body, "tech").Arr? ==> Field(body, "tech").items == Strs(p.tech))
         && NullIfFalsy(Field(body, "imageUrl"), p.imageUrl)
         && NullIfFalsy(Field(body, "githubUrl"), p.githubUrl)
         && NullIfFalsy(Field(body, "liveUrl"), p.liveUrl)
         && (Falsy(Field(body, "featured")) <==> !p.featured)
  {
    if !Readable(body) then (Fail(500, InternalError), db)
    else if Falsy(Field(body, "title")) || Falsy(Field(body, "description")) || Falsy(Field(body, "tech"))
    then (Fail(400, MissingFields), db)
    else Save(body, db)
  }

  /** `prisma.project.create` with the normalised, defaulted fields of the
      body: `|| null` for the links, `|| false` for `featured`. Any failure
      is a 500. */
  function Save(body: Option<Value>, db: Db): (r: (Response<Project>, Db))
    requires Readable(body)
    ensures r.0.Fail? ==> r == (Fail(500, InternalError), db)
    ensures r.0.Ok? <==> db.online && Storable(body)
    ensures r.0.Ok? ==>
      && var p := r.0.body;
         && r.1 == db.(projects := db.projects + [p], nextId := db.nextId + 1)
         && p.id == db.nextId && p.createdAt == db.now
         && Field(body, "title") == Str(p.title)
         && Field(body, "description") == Str(p.description)
         && (Field(body, "tech").Str? ==> p.tech == SplitTrim(Field(body, "tech").s))
         && (Field(body, "tech").Arr? ==> Field(body, "tech").items == Strs(p.tech))
         && NullIfFalsy(Field(body, "imageUrl"), p.imageUrl)
         && NullIfFalsy(Field(body, "githubUrl"), p.githubUrl)
         && NullIfFalsy(Field(body, "liveUrl"), p.liveUrl)
         && (Falsy(Field(body, "featured")) <==> !p.featured)
  {
    var tech := Field(body, "tech");
    match NormaliseTech(tech)
    case None => (Fail(500, InternalError), db)
    case Some(items) =>
      var draft := ProjectDraft(Field(body, "title"), Field(body, "description"), items,
                                Or(Field(body, "imageUrl"), Null),
                                Or(Field(body, "githubUrl"), Null),
                                Or(Field(body, "liveUrl"), Null),
                                Or(Field(body, "featured"), Bool(false)));
      match CreateProject(db, draft)
      case Rejected(_) => (Fail(500, InternalError), db)
      case Written(row, db') =>
        OrNullColumn(Field(body, "imageUrl"), row.imageUrl);
        OrNullColumn(Field(body, "githubUrl"), row.githubUrl);
        OrNullColumn(Field(body, "liveUrl"), row.liveUrl);
        assert tech.Str? ==> Strs(row.tech) == Strs(SplitTrim(tech.s));
        (Ok(row), db')
  }

  /** The `POST` handler: the gate, then `Submit`. */
  function Create(req: Request, verify: string -> Verdict, db: Db): (r: (Response<Project>, Db))
    ensures var gate := Auth.VerifyAuth(req.authorization, verify, db);
            && (gate.Denied? ==> r == (Fail(gate.status, gate.message), db))
            && (gate.Authorized? ==> r == Submit(req.body, db))
    ensures r.0.Fail? ==> r.1 == db
    ensures r.0.Fail? ==> r.0.status in {400, 401, 403, 500}
    ensures r.1 != db ==>
      && Auth.VerifyAuth(req.authorization, verify, db).Authorized?
      && r.0.Ok? && r.1 == db.(projects := db.projects + [r.0.body], nextId := db.nextId + 1)
  {
    match Auth.VerifyAuth(req.authorization, verify, db)
    case Denied(status, message) => (Fail(status, message), db)
    case Authorized(_) => Submit(req.body, db)
  }

  /** The gate runs before the body is read: a refused request gets the same
      reply whatever its body, even one that does not parse. */
  lemma GateBeforeBody(header: Option<string>, body1: Option<Value>, body2: Option<Value>, verify: string -> Verdict, db: Db)
    requires Auth.VerifyAuth(header, verify, db).Denied?
    ensures Create(Http.Request(header, body1), verify, db) == Create(Http.Request(header, body2), verify, db)
  {
  }
}
