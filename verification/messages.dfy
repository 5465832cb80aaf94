/** `GET` (admin only) and `POST` (public contact form) `/api/messages`. */
module MessagesRoute {
  import opened Common
  import opened Json
  import opened Token
  import opened Store
  import opened Sorting
  import Auth

  const DefaultSubject := "No Subject"

  /** `orderBy: { createdAt: "desc" }`. */
  const NewestFirst := (a: Message, b: Message) => a.createdAt >= b.createdAt

  /** The admin list: the gate, then every message, newest first.
      `queriesUp` says whether the query after the gate reaches the store,
      which may fail after the gate's own user lookup succeeded. */
  function List(header: Option<string>, verify: string -> Verdict, db: Db, queriesUp: bool): (r: Response<seq<Message>>)
    ensures var gate := Auth.VerifyAuth(header, verify, db);
            gate.Denied? ==> r == Fail(gate.status, gate.message)
    ensures r.Ok? <==> Auth.VerifyAuth(header, verify, db).Authorized? && queriesUp
    ensures Auth.VerifyAuth(header, verify, db).Authorized? && !queriesUp ==> r == Fail(500, InternalError)
    ensures r.Ok? ==> multiset(r.body) == multiset(db.messages)
    ensures r.Ok? ==> forall i, j :: 0 <= i < j < |r.body| ==> r.body[i].createdAt >= r.body[j].createdAt
  {
    match Auth.VerifyAuth(header, verify, db)
    case Denied(status, message) => Fail(status, message)
    case Authorized(_) =>
      if !queriesUp then Fail(500, InternalError)
      else
        assert TotalPreorder(NewestFirst);
        Ok(Sort(db.messages, NewestFirst))
  }

  /** The contact form: no gate; name, email and message are required and
      stored as sent, and a falsy subject becomes "No Subject". */
  function Create(body: Option<Value>, db: Db): (r: (Response<Message>, Db))
    ensures r.0.Fail? ==> r.1 == db
    ensures r.0.Fail? ==> r.0 == Fail(400, MissingFields) || r.0 == Fail(500, InternalError)
    ensures r.0 == Fail(400, MissingFields) <==>
      Readable(body)
      && (Falsy(Field(body, "name")) || Falsy(Field(body, "email")) || Falsy(Field(body, "message")))
    ensures r.0.Ok? <==>
      && Readable(body)
      && !Falsy(Field(body, "name")) && !Falsy(Field(body, "email")) && !Falsy(Field(body, "message"))
      && db.online
      && Field(body, "name").Str? && Field(body, "email").Str? && Field(body, "message").Str?
      && Or(Field(body, "subject"), Str(DefaultSubject)).Str?
    ensures r.0.Ok? ==>
      && Readable(body)
      && var m := r.0.body;
         && r.1 == db.(messages := db.messages + [m], nextId := db.nextId + 1)
         && m.id == db.nextId && m.createdAt == db.now && !m.read
         && Field(body, "name") == Str(m.name)
         && Field(body, "email") == Str(m.email)
         && Field(body, "message") == Str(m.message)
         && (Falsy(Field(body, "subject")) ==> m.subject == DefaultSubject)
         && (!Falsy(Field(body, "subject")) ==> Field(body, "subject") == Str(m.subject))
  {
    if !Readable(body) then (Fail(500, InternalError), db)
    else
      var name := Field(body, "name");
      var email := Field(body, "email");
      var message := Field(body, "message");
      if Falsy(name) || Falsy(email) || Falsy(message) then (Fail(400, MissingFields), db)
      else
        var draft := MessageDraft(name, email, Or(Field(body, "subject"), Str(DefaultSubject)), message);
        match CreateMessage(db, draft)
        case Rejected(_) => (Fail(500, InternalError), db)
        case Written(row, db') => (Ok(row), db')
  }

  /** A contact form without an email is refused with 400 and stores nothing. */
  lemma MissingEmailRefused(fields: map<string, Value>, db: Db)
    requires "email" !in fields
    ensures Create(Some(Obj(fields)), db) == (Fail(400, MissingFields), db)
  {
    assert Field(Some(Obj(fields)), "email") == Undefined;
  }
}
