/** `GET /api/dashboard/stats`: admin-only counts and the newest projects
    and messages. It only reads: the handler returns no new state. */
module StatsRoute {
  import opened Common
  import opened Token
  import opened Store
  import opened Seqs
  import opened Sorting
  import Auth
  import ProjectsRoute
  import MessagesRoute

  /** `stats`: exactly these four counts; there is no certificate count. */
  datatype Counts = Counts(projects: nat, skills: nat, messages: nat, unreadMessages: nat)

  datatype ProjectSummary = ProjectSummary(id: nat, title: string, createdAt: int)

  datatype MessageSummary = MessageSummary(id: nat, name: string, subject: string, createdAt: int, read: bool)

  datatype StatsBody = StatsBody(stats: Counts, recentProjects: seq<ProjectSummary>, recentMessages: seq<MessageSummary>)

  const Recent: nat := 3

  function SummariseProject(p: Project): ProjectSummary {
    ProjectSummary(p.id, p.title, p.createdAt)
  }

  function SummariseMessage(m: Message): MessageSummary {
    MessageSummary(m.id, m.name, m.subject, m.createdAt, m.read)
  }

  predicate IsUnread(m: Message) {
    !m.read
  }

  /** `count({ where: { read: false } })`. */
  function UnreadCount(ms: seq<Message>): (n: nat)
    ensures n <= |ms|
    ensures n == 0 <==> forall m :: m in ms ==> m.read
  {
    assert (Filter(ms, IsUnread) == []) <==> forall m :: m in ms ==> m.read by {
      forall m ensures m in Filter(ms, IsUnread) <==> m in ms && !m.read {
        FilterMembers(ms, IsUnread, m);
      }
    }
    |Filter(ms, IsUnread)|
  }

  /** The three newest projects, newest first. */
  function RecentProjects(ps: seq<Project>): (r: seq<Project>)
    ensures |r| == if |ps| < Recent then |ps| else Recent
    ensures multiset(r) <= multiset(ps)
    ensures forall i :: 0 <= i < |r| ==> r[i] in ps
    ensures forall i, j :: 0 <= i < j < |r| ==> r[i].createdAt >= r[j].createdAt
    ensures forall p :: p in ps && p !in r ==> forall i :: 0 <= i < |r| ==> r[i].createdAt >= p.createdAt
  {
    assert TotalPreorder(ProjectsRoute.NewestFirst);
    Top(ps, ProjectsRoute.NewestFirst, Recent)
  }

  /** The three newest messages, newest first. */
  function RecentMessages(ms: seq<Message>): (r: seq<Message>)
    ensures |r| == if |ms| < Recent then |ms| else Recent
    ensures multiset(r) <= multiset(ms)
    ensures forall i :: 0 <= i < |r| ==> r[i] in ms
    ensures forall i, j :: 0 <= i < j < |r| ==> r[i].createdAt >= r[j].createdAt
    ensures forall m :: m in ms && m !in r ==> forall i :: 0 <= i < |r| ==> r[i].createdAt >= m.createdAt
  {
    assert TotalPreorder(MessagesRoute.NewestFirst);
    Top(ms, MessagesRoute.NewestFirst, Recent)
  }

  /** `select: { id, title, createdAt }` over a list of projects. */
  function ProjectSummaries(ps: seq<Project>): (r: seq<ProjectSummary>)
    ensures |r| == |ps| && forall i :: 0 <= i < |ps| ==> r[i] == SummariseProject(ps[i])
  {
    seq(|ps|, i requires 0 <= i < |ps| => SummariseProject(ps[i]))
  }

  /** `select: { id, name, subject, createdAt, read }` over a list of messages. */
  function MessageSummaries(ms: seq<Message>): (r: seq<MessageSummary>)
    ensures |r| == |ms| && forall i :: 0 <= i < |ms| ==> r[i] == SummariseMessage(ms[i])
  {
    seq(|ms|, i requires 0 <= i < |ms| => SummariseMessage(ms[i]))
  }

  /** The handler: the gate, then the counts and the two feeds. `queriesUp`
      says whether the queries after the gate reach the store, which may
      fail after the gate's own user lookup succeeded. */
  function Get(header: Option<string>, verify: string -> Verdict, db: Db, queriesUp: bool): (r: Response<StatsBody>)
    ensures var gate := Auth.VerifyAuth(header, verify, db);
            gate.Denied? ==> r == Fail(gate.status, gate.message)
    ensures r.Ok? <==> Auth.VerifyAuth(header, verify, db).Authorized? && queriesUp
    ensures r.Fail? && Auth.VerifyAuth(header, verify, db).Authorized? ==> r == Fail(500, InternalError)
    ensures r.Ok? ==>
      && r.body.stats.projects == |db.projects|
      && r.body.stats.skills == |db.skills|
      && r.body.stats.messages == |db.messages|
      && r.body.stats.unreadMessages == UnreadCount(db.messages) <= r.body.stats.messages
      && r.body.recentProjects == ProjectSummaries(RecentProjects(db.projects))
      && r.body.recentMessages == MessageSummaries(RecentMessages(db.messages))
  {
    match Auth.VerifyAuth(header, verify, db)
    case Denied(status, message) => Fail(status, message)
    case Authorized(_) =>
      if !queriesUp then Fail(500, InternalError)
      else
        var counts := Counts(|db.projects|, |db.skills|, |db.messages|, UnreadCount(db.messages));
        Ok(StatsBody(counts, ProjectSummaries(RecentProjects(db.projects)), MessageSummaries(RecentMessages(db.messages))))
  }

  /** Unread and read messages together are all the messages. */
  lemma UnreadAndReadCoverAll(ms: seq<Message>)
    ensures UnreadCount(ms) + |Filter(ms, (m: Message) => m.read)| == |ms|
  {
    FilterPartition(ms, IsUnread, (m: Message) => m.read);
  }

  /** The message count agrees with the length of the admin message list. */
  lemma CountMatchesList(header: Option<string>, verify: string -> Verdict, db: Db, queriesUp: bool)
    ensures Get(header, verify, db, queriesUp).Ok? ==>
              && MessagesRoute.List(header, verify, db, queriesUp).Ok?
              && Get(header, verify, db, queriesUp).body.stats.messages == |MessagesRoute.List(header, verify, db, queriesUp).body|
  {
    if Get(header, verify, db, queriesUp).Ok? {
      var listed := MessagesRoute.List(header, verify, db, queriesUp).body;
      assert |listed| == |multiset(listed)| == |multiset(db.messages)| == |db.messages|;
    }
  }
}
