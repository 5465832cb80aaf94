/** `GET` and `POST /api/skills`. */
module SkillsRoute {
  import opened Common
  import opened Json
  import opened Http
  import opened Token
  import opened Store
  import opened Sorting
  import opened Lexicographic
  import Auth

  const SkillExists := "Skill already exists"

  /** `orderBy: { name: "asc" }`. */
  const ByName := (a: Skill, b: Skill) => LexLe(a.name, b.name)

  lemma ByNameIsTotalPreorder()
    ensures TotalPreorder(ByName)
  {
    forall a: Skill, b: Skill
      ensures ByName(a, b) || ByName(b, a)
    {
      LexTotal(a.name, b.name);
    }
    forall a: Skill, b: Skill, c: Skill | ByName(a, b) && ByName(b, c)
      ensures ByName(a, c)
    {
      LexTransitive(a.name, b.name, c.name);
    }
  }

  /** The public list: every skill, in ascending name order. */
  function List(db: Db): (r: Response<seq<Skill>>)
    ensures r.Ok? <==> db.online
    ensures r.Fail? ==> r == Fail(500, InternalError)
    ensures r.Ok? ==> multiset(r.body) == multiset(db.skills)
    ensures r.Ok? ==> forall i, j :: 0 <= i < j < |r.body| ==> LexLe(r.body[i].name, r.body[j].name)
  {
    if !db.online then Fail(500, InternalError)
    else
      ByNameIsTotalPreorder();
      Ok(Sort(db.skills, ByName))
  }

  /** The body's values fit the `Skill` columns once defaulted: name and
      color are strings, the category a string or falsy, the level an
      integer or falsy. */
  predicate Storable(body: Option<Value>)
    requires Readable(body)
  {
    && Field(body, "name").Str? && Field(body, "color").Str?
    && AsOptText(Or(Field(body, "category"), Null)).Some?
    && AsOptInt(Or(Field(body, "level"), Num(1))).Some?
  }

  /** A skill of the body's name is already stored. */
  predicate Taken(body: Option<Value>, db: Db)
    requires Readable(body)
  {
    exists s :: s in db.skills && Field(body, "name") == Str(s.name)
  }

  /** The handler once the gate has let the request through. A level that
      is falsy, 0 included, becomes 1; a name already taken is reported as
      400, every other store error as 500. */
  function Submit(body: Option<Value>, db: Db): (r: (Response<Skill>, Db))
    ensures r.0.Fail? ==> r.1 == db
    ensures r.0.Fail? ==> r.0.status in {400, 500}
    ensures !Readable(body) ==> r == (Fail(500, InternalError), db)
    ensures r.0.Fail? && r.0 != Fail(400, MissingFields) && r.0 != Fail(400, SkillExists) ==>
              r.0 == Fail(500, InternalError)
    ensures r.0 == Fail(400, MissingFields) <==>
      Readable(body) && (Falsy(Field(body, "name")) || Falsy(Field(body, "color")))
    ensures r.0 == Fail(400, SkillExists) <==>
      && Readable(body) && !Falsy(Field(body, "name")) && !Falsy(Field(body, "color"))
      && db.online && Storable(body) && Taken(body, db)
    ensures r.0.Ok? <==>
      && Readable(body) && !Falsy(Field(body, "name")) && !Falsy(Field(body, "color"))
      && db.online && Storable(body) && !Taken(body, db)
    ensures r.0.Ok? ==>
      && Readable(body)
      && var s := r.0.body;
         && r.1 == db.(skills := db.skills + [s], nextId := db.nextId + 1)
         && s.id == db.nextId && s.createdAt == db.now
         && (forall t :: t in db.skills ==> t.name != s.name)
         && Field(body, "name") == Str(s.name)
         && Field(body, "color") == Str(s.color)
         && NullIfFalsy(Field(body, "category"), s.category)
         && (Falsy(Field(body, "level")) ==> s.level == Some(1))
         && (!Falsy(Field(body, "level")) ==> s.level.Some? && Field(body, "level") == Num(s.level.value))
  {
    if !Readable(body) then (Fail(500, InternalError), db)
    else
      var name := Field(body, "name");
      var color := Field(body, "color");
      if Falsy(name) || Falsy(color) then (Fail(400, MissingFields), db)
      else
        var draft := SkillDraft(name, color, Or(Field(body, "category"), Null),
                                Or(Field(body, "level"), Num(1)));
        match CreateSkill(db, draft)
        case Rejected(UniqueViolation) => (Fail(400, SkillExists), db)
        case Rejected(_) => (Fail(500, InternalError), db)
        case Written(row, db') =>
          OrNullColumn(Field(body, "category"), row.category);
          (Ok(row), db')
  }

  /** The `POST` handler: the gate, then `Submit`. */
  function Create(req: Request, verify: string -> Verdict, db: Db): (r: (Response<Skill>, Db))
    ensures var gate := Auth.VerifyAuth(req.authorization, verify, db);
            && (gate.Denied? ==> r == (Fail(gate.status, gate.message), db))
            && (gate.Authorized? ==> r == Submit(req.body, db))
    ensures r.0.Fail? ==> r.1 == db
    ensures r.0.Fail? ==> r.0.status in {400, 401, 403, 500}
    ensures r.1 != db ==>
      && Auth.VerifyAuth(req.authorization, verify, db).Authorized?
      && r.0.Ok? && r.1 == db.(skills := db.skills + [r.0.body], nextId := db.nextId + 1)
    ensures r.0 == Fail(400, SkillExists) ==> exists s :: s in db.skills && Field(req.body, "name") == Str(s.name)
  {
    match Auth.VerifyAuth(req.authorization, verify, db)
    case Denied(status, message) => (Fail(status, message), db)
    case Authorized(_) => Submit(req.body, db)
  }

  /** A well-typed request for a name that is already taken is refused with
      400 and adds no row. */
  lemma DuplicateNameRefused(req: Request, verify: string -> Verdict, db: Db, existing: Skill)
    requires db.online && Auth.VerifyAuth(req.authorization, verify, db).Authorized?
    requires Readable(req.body) && existing in db.skills
    requires Field(req.body, "name") == Str(existing.name) && existing.name != ""
    requires Field(req.body, "color").Str? && Field(req.body, "color") != Str("")
    requires AsOptText(Or(Field(req.body, "category"), Null)).Some?
    requires AsOptInt(Or(Field(req.body, "level"), Num(1))).Some?
    ensures Create(req, verify, db) == (Fail(400, SkillExists), db)
  {
  }
}
