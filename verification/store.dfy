/** The database the handlers read and write, as in-memory tables. The
    store assigns ids and creation times, rejects values that do not fit a
    column's type (Prisma's validation error), enforces the unique skill
    name, and can be unreachable, in which case every call on it throws. */
module Store {
  import opened Common
  import opened Json

  datatype UserRow = UserRow(id: nat, username: string, passwordHash: string, role: string)

  /** The columns `verifyAuth` selects and login returns: never the hash. */
  datatype PublicUser = PublicUser(id: nat, username: string, role: string)

  datatype Project = Project(
    id: nat, title: string, description: string, tech: seq<string>,
    imageUrl: Option<string>, githubUrl: Option<string>, liveUrl: Option<string>,
    featured: bool, createdAt: int)

  datatype Skill = Skill(
    id: nat, name: string, color: string, category: Option<string>, level: Option<int>,
    createdAt: int)

  datatype Message = Message(
    id: nat, name: string, email: string, subject: string, message: string,
    read: bool, createdAt: int)

  datatype Certificate = Certificate(
    id: nat, title: string, issuer: string, description: Option<string>,
    imageUrl: Option<string>, credentialUrl: Option<string>,
    issueDate: int, expiryDate: Option<int>, skills: seq<string>, featured: bool)

  /** The tables, the next id to assign, the current time, and whether the
      database can be reached at all. */
  datatype Db = Db(
    users: seq<UserRow>, projects: seq<Project>, skills: seq<Skill>,
    messages: seq<Message>, certificates: seq<Certificate>,
    nextId: nat, now: int, online: bool)

  /** Why a store call threw. */
  datatype Fault = Unreachable | InvalidValue | UniqueViolation

  /** A write either returns the created row and the new state, or throws. */
  datatype Written<T> = Written(row: T, db: Db) | Rejected(fault: Fault)

  /** A `findUnique`: a row, no row, or a thrown error. */
  datatype Lookup = Found(user: UserRow) | Missing | LookupFailed

  function Public(u: UserRow): PublicUser {
    PublicUser(u.id, u.username, u.role)
  }

  /** The first row satisfying `p`, if any. */
  function FirstUser(users: seq<UserRow>, p: UserRow -> bool): (r: Option<UserRow>)
    ensures r.Some? ==> r.value in users && p(r.value)
    ensures r.None? ==> forall u :: u in users ==> !p(u)
  {
    if users == [] then None
    else if p(users[0]) then Some(users[0])
    else FirstUser(users[1..], p)
  }

  /** `prisma.user.findUnique({ where: { id } })`. */
  function FindUserById(db: Db, id: nat): (r: Lookup)
    ensures !db.online <==> r.LookupFailed?
    ensures r.Found? ==> r.user in db.users && r.user.id == id
    ensures r.Missing? ==> forall u :: u in db.users ==> u.id != id
  {
    if !db.online then LookupFailed
    else match FirstUser(db.users, (u: UserRow) => u.id == id)
      case Some(u) => Found(u)
      case None => Missing
  }

  /** `prisma.user.findUnique({ where: { username } })`: the key must be a
      string, otherwise the query itself is rejected. */
  function FindUserByName(db: Db, username: Value): (r: Lookup)
    ensures r.LookupFailed? <==> !db.online || !username.Str?
    ensures r.Found? ==> r.user in db.users && username == Str(r.user.username)
    ensures r.Missing? ==> username.Str? && forall u :: u in db.users ==> u.username != username.s
  {
    if !db.online || !username.Str? then LookupFailed
    else match FirstUser(db.users, (u: UserRow) => u.username == username.s)
      case Some(u) => Found(u)
      case None => Missing
  }

  // Column conversions: the JSON value a handler passes, read as the
  // column's type, or None when the store would reject it.

  function AsText(v: Value): Option<string> {
    if v.Str? then Some(v.s) else None
  }

  /** A nullable text column: null, or a string. */
  function AsOptText(v: Value): Option<Option<string>> {
    match v
    case Null => Some(None)
    case Str(s) => Some(Some(s))
    case _ => None
  }

  /** A nullable text column holding `v || null`: null for a falsy value,
      otherwise exactly the string given. */
  predicate NullIfFalsy(v: Value, column: Option<string>) {
    if Falsy(v) then column.None? else column.Some? && v == Str(column.value)
  }

  /** The column the store makes of `v || null` is `NullIfFalsy` of `v`. */
  lemma OrNullColumn(v: Value, column: Option<string>)
    requires AsOptText(Or(v, Null)) == Some(column)
    ensures NullIfFalsy(v, column)
  {
  }

  function AsBool(v: Value): Option<bool> {
    if v.Bool? then Some(v.b) else None
  }

  /** A nullable integer column: null, or a number. */
  function AsOptInt(v: Value): Option<Option<int>> {
    match v
    case Null => Some(None)
    case Num(n) => Some(Some(n))
    case _ => None
  }

  /** A list-of-text column: every element a string. */
  function AsTextList(vs: seq<Value>): (r: Option<seq<string>>)
    ensures r.Some? <==> forall i :: 0 <= i < |vs| ==> vs[i].Str?
    ensures r.Some? ==> |r.value| == |vs| && forall i :: 0 <= i < |vs| ==> vs[i] == Str(r.value[i])
  {
    if vs == [] then Some([])
    else if !vs[0].Str? then None
    else match AsTextList(vs[1..])
      case None => None
      case Some(rest) => Some([vs[0].s] + rest)
  }

  /** What the projects route hands to `prisma.project.create`. */
  datatype ProjectDraft = ProjectDraft(
    title: Value, description: Value, tech: seq<Value>,
    imageUrl: Value, githubUrl: Value, liveUrl: Value, featured: Value)

  /** `prisma.project.create`: a new row with a fresh id and the current
      time, appended to the table; no other table changes. */
  function CreateProject(db: Db, d: ProjectDraft): (w: Written<Project>)
    ensures !db.online ==> w == Rejected(Unreachable)
    ensures w.Written? <==>
      db.online && d.title.Str? && d.description.Str? && AsTextList(d.tech).Some?
      && AsOptText(d.imageUrl).Some? && AsOptText(d.githubUrl).Some? && AsOptText(d.liveUrl).Some?
      && d.featured.Bool?
    ensures w.Written? ==>
      && w.db == db.(projects := db.projects + [w.row], nextId := db.nextId + 1)
      && w.row.id == db.nextId && w.row.createdAt == db.now
      && d.title == Str(w.row.title) && d.description == Str(w.row.description)
      && |d.tech| == |w.row.tech| && (forall i :: 0 <= i < |d.tech| ==> d.tech[i] == Str(w.row.tech[i]))
      && AsOptText(d.imageUrl) == Some(w.row.imageUrl)
      && AsOptText(d.githubUrl) == Some(w.row.githubUrl)
      && AsOptText(d.liveUrl) == Some(w.row.liveUrl)
      && d.featured == Bool(w.row.featured)
  {
    if !db.online then Rejected(Unreachable)
    else
      var title := AsText(d.title);
      var description := AsText(d.description);
      var tech := AsTextList(d.tech);
      var imageUrl := AsOptText(d.imageUrl);
      var githubUrl := AsOptText(d.githubUrl);
      var liveUrl := AsOptText(d.liveUrl);
      var featured := AsBool(d.featured);
      if title.None? || description.None? || tech.None? || imageUrl.None?
         || githubUrl.None? || liveUrl.None? || featured.None?
      then Rejected(InvalidValue)
      else
        var row := Project(db.nextId, title.value, description.value, tech.value,
                           imageUrl.value, githubUrl.value, liveUrl.value, featured.value, db.now);
        Written(row, db.(projects := db.projects + [row], nextId := db.nextId + 1))
  }

  datatype SkillDraft = SkillDraft(name: Value, color: Value, category: Value, level: Value)

  /** `prisma.skill.create`: like a project, except that a name already in
      the table violates the unique index and nothing is written. */
  function CreateSkill(db: Db, d: SkillDraft): (w: Written<Skill>)
    ensures !db.online ==> w == Rejected(Unreachable)
    ensures w == Rejected(UniqueViolation) <==>
      db.online && d.name.Str? && d.color.Str? && AsOptText(d.category).Some? && AsOptInt(d.level).Some?
      && exists s :: s in db.skills && s.name == d.name.s
    ensures w == Rejected(InvalidValue) <==>
      db.online && !(d.name.Str? && d.color.Str? && AsOptText(d.category).Some? && AsOptInt(d.level).Some?)
    ensures w.Written? <==>
      db.online && d.name.Str? && d.color.Str? && AsOptText(d.category).Some? && AsOptInt(d.level).Some?
      && forall s :: s in db.skills ==> s.name != d.name.s
    ensures w.Written? ==>
      && w.db == db.(skills := db.skills + [w.row], nextId := db.nextId + 1)
      && w.row.id == db.nextId && w.row.createdAt == db.now
      && d.name == Str(w.row.name) && d.color == Str(w.row.color)
      && AsOptText(d.category) == Some(w.row.category) && AsOptInt(d.level) == Some(w.row.level)
      && (forall s :: s in db.skills ==> s.name != w.row.name)
  {
    if !db.online then Rejected(Unreachable)
    else
      var name := AsText(d.name);
      var color := AsText(d.color);
      var category := AsOptText(d.category);
      var level := AsOptInt(d.level);
      if name.None? || color.None? || category.None? || level.None? then Rejected(InvalidValue)
      else if exists s :: s in db.skills && s.name == name.value then Rejected(UniqueViolation)
      else
        var row := Skill(db.nextId, name.value, color.value, category.value, level.value, db.now);
        Written(row, db.(skills := db.skills + [row], nextId := db.nextId + 1))
  }

  datatype MessageDraft = MessageDraft(name: Value, email: Value, subject: Value, message: Value)

  /** `prisma.message.create`: new messages start unread. */
  function CreateMessage(db: Db, d: MessageDraft): (w: Written<Message>)
    ensures !db.online ==> w == Rejected(Unreachable)
    ensures w.Written? <==> db.online && d.name.Str? && d.email.Str? && d.subject.Str? && d.message.Str?
    ensures w.Written? ==>
      && w.db == db.(messages := db.messages + [w.row], nextId := db.nextId + 1)
      && w.row.id == db.nextId && w.row.createdAt == db.now && !w.row.read
      && d.name == Str(w.row.name) && d.email == Str(w.row.email)
      && d.subject == Str(w.row.subject) && d.message == Str(w.row.message)
  {
    if !db.online then Rejected(Unreachable)
    else if !d.name.Str? || !d.email.Str? || !d.subject.Str? || !d.message.Str? then Rejected(InvalidValue)
    else
      var row := Message(db.nextId, d.name.s, d.email.s, d.subject.s, d.message.s, false, db.now);
      Written(row, db.(messages := db.messages + [row], nextId := db.nextId + 1))
  }

  /** A JavaScript `Date`: a time in milliseconds, or an Invalid Date. */
  datatype Date = Valid(time: int) | InvalidDate

  datatype CertificateDraft = CertificateDraft(
    title: Value, issuer: Value, description: Value, imageUrl: Value, credentialUrl: Value,
    issueDate: Date, expiryDate: Option<Date>, skills: seq<Value>, featured: Value)

  /** `prisma.certificate.create`: an Invalid Date is rejected like any
      other ill-typed value. */
  function CreateCertificate(db: Db, d: CertificateDraft): (w: Written<Certificate>)
    ensures !db.online ==> w == Rejected(Unreachable)
    ensures w.Written? <==>
      db.online && d.title.Str? && d.issuer.Str? && AsOptText(d.description).Some?
      && AsOptText(d.imageUrl).Some? && AsOptText(d.credentialUrl).Some?
      && AsTextList(d.skills).Some? && d.featured.Bool? && d.issueDate.Valid?
      && (d.expiryDate.Some? ==> d.expiryDate.value.Valid?)
    ensures w.Written? ==>
      && w.db == db.(certificates := db.certificates + [w.row], nextId := db.nextId + 1)
      && w.row.id == db.nextId
      && d.title == Str(w.row.title) && d.issuer == Str(w.row.issuer)
      && d.issueDate == Valid(w.row.issueDate)
      && (d.expiryDate.None? <==> w.row.expiryDate.None?)
      && (w.row.expiryDate.Some? ==> d.expiryDate == Some(Valid(w.row.expiryDate.value)))
      && AsOptText(d.description) == Some(w.row.description)
      && AsOptText(d.imageUrl) == Some(w.row.imageUrl)
      && AsOptText(d.credentialUrl) == Some(w.row.credentialUrl)
      && |d.skills| == |w.row.skills| && (forall i :: 0 <= i < |d.skills| ==> d.skills[i] == Str(w.row.skills[i]))
      && d.featured == Bool(w.row.featured)
  {
    if !db.online then Rejected(Unreachable)
    else
      var title := AsText(d.title);
      var issuer := AsText(d.issuer);
      var description := AsOptText(d.description);
      var imageUrl := AsOptText(d.imageUrl);
      var credentialUrl := AsOptText(d.credentialUrl);
      var skills := AsTextList(d.skills);
      var featured := AsBool(d.featured);
      if title.None? || issuer.None? || description.None? || imageUrl.None? || credentialUrl.None?
         || skills.None? || featured.None? || d.issueDate.InvalidDate?
         || (d.expiryDate.Some? && d.expiryDate.value.InvalidDate?)
      then Rejected(InvalidValue)
      else
        var expiry := if d.expiryDate.None? then None else Some(d.expiryDate.value.time);
        var row := Certificate(db.nextId, title.value, issuer.value, description.value, imageUrl.value,
                               credentialUrl.value, d.issueDate.time, expiry, skills.value, featured.value);
        Written(row, db.(certificates := db.certificates + [row], nextId := db.nextId + 1))
  }
}
