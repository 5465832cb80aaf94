/** The admin dashboard's local state and how each add, update and delete
    changes it once the server has answered, the edit forms' round trip of
    list-valued fields, the recent-activity feed, and the start-up check of
    the stored token. Each handler is one atomic step. A reply that is not
    ok throws before any state is touched. */
module AdminDashboard {
  import opened Common
  import opened Text
  import opened Store
  import opened Seqs
  import opened Token
  import Auth
  import StatsRoute

  /** The counters shown on the overview. They are plain integers on the
      client: a delete decrements them without looking at the list. */
  datatype Counters = Counters(projects: int, skills: int, messages: int, unreadMessages: int)

  datatype Dashboard = Dashboard(
    stats: Counters, projects: seq<Project>, skills: seq<Skill>,
    messages: seq<Message>, certificates: seq<Certificate>)

  function ProjectId(p: Project): nat { p.id }
  function SkillId(s: Skill): nat { s.id }
  function MessageId(m: Message): nat { m.id }
  function CertificateId(c: Certificate): nat { c.id }

  /** How many entries carry the id. */
  function CountId<T>(xs: seq<T>, id: nat, idOf: T -> nat): nat {
    if xs == [] then 0 else (if idOf(xs[0]) == id then 1 else 0) + CountId(xs[1..], id, idOf)
  }

  /** `xs.filter(x => x.id !== id)`: every entry with that id goes, the
      rest stay in order. */
  function WithoutId<T(==,!new)>(xs: seq<T>, id: nat, idOf: T -> nat): (r: seq<T>)
    ensures IsSubseq(r, xs)
    ensures forall x :: x in r <==> x in xs && idOf(x) != id
    ensures |r| + CountId(xs, id, idOf) == |xs|
  {
    if xs == [] then []
    else
      var rest := WithoutId(xs[1..], id, idOf);
      assert xs == [xs[0]] + xs[1..];
      if idOf(xs[0]) == id then rest else [xs[0]] + rest
  }

  /** Removing an id that only the appended entry carries gives back the
      original list. */
  lemma {:induction false} WithoutFreshId<T(!new)>(xs: seq<T>, x: T, idOf: T -> nat)
    requires forall y :: y in xs ==> idOf(y) != idOf(x)
    ensures WithoutId(xs + [x], idOf(x), idOf) == xs
  {
    if xs == [] {
      assert xs + [x] == [x];
    } else {
      assert (xs + [x])[1..] == xs[1..] + [x];
      WithoutFreshId(xs[1..], x, idOf);
      assert xs == [xs[0]] + xs[1..];
    }
  }

  /** `xs.map(x => x.id === updated.id ? updated : x)`. */
  function ReplaceById<T>(xs: seq<T>, updated: T, idOf: T -> nat): (r: seq<T>)
    ensures |r| == |xs|
    ensures forall i :: 0 <= i < |xs| && idOf(xs[i]) != idOf(updated) ==> r[i] == xs[i]
    ensures forall i :: 0 <= i < |xs| && idOf(xs[i]) == idOf(updated) ==> r[i] == updated
  {
    seq(|xs|, i requires 0 <= i < |xs| => if idOf(xs[i]) == idOf(updated) then updated else xs[i])
  }

  /** Replacing twice with the same record changes nothing more. */
  lemma ReplaceIdempotent<T>(xs: seq<T>, updated: T, idOf: T -> nat)
    ensures ReplaceById(ReplaceById(xs, updated, idOf), updated, idOf) == ReplaceById(xs, updated, idOf)
  {
  }

  /** A reply for an id the list does not hold changes nothing. */
  lemma ReplaceAbsent<T>(xs: seq<T>, updated: T, idOf: T -> nat)
    requires forall x :: x in xs ==> idOf(x) != idOf(updated)
    ensures ReplaceById(xs, updated, idOf) == xs
  {
  }

  /** `handleAddProject`: the returned project goes at the end and the
      project counter goes up by one; nothing else changes. */
  function AddProject(d: Dashboard, reply: Response<Project>): (d': Dashboard)
    ensures reply.Fail? ==> d' == d
    ensures reply.Ok? ==>
      && |d'.projects| == |d.projects| + 1
      && d'.projects[..|d.projects|] == d.projects && d'.projects[|d.projects|] == reply.body
      && d'.stats.projects == d.stats.projects + 1
      && d'.stats.(projects := d.stats.projects) == d.stats
      && d'.(projects := d.projects, stats := d.stats) == d
  {
    match reply
    case Fail(_, _) => d
    case Ok(p) => d.(projects := d.projects + [p], stats := d.stats.(projects := d.stats.projects + 1))
  }

  /** `handleAddSkill`. */
  function AddSkill(d: Dashboard, reply: Response<Skill>): (d': Dashboard)
    ensures reply.Fail? ==> d' == d
    ensures reply.Ok? ==>
      && |d'.skills| == |d.skills| + 1
      && d'.skills[..|d.skills|] == d.skills && d'.skills[|d.skills|] == reply.body
      && d'.stats.skills == d.stats.skills + 1
      && d'.stats.(skills := d.stats.skills) == d.stats
      && d'.(skills := d.skills, stats := d.stats) == d
  {
    match reply
    case Fail(_, _) => d
    case Ok(s) => d.(skills := d.skills + [s], stats := d.stats.(skills := d.stats.skills + 1))
  }

  /** `handleAddCertificate`: only the certificate list changes; there is no
      certificate counter. */
  function AddCertificate(d: Dashboard, reply: Response<Certificate>): (d': Dashboard)
    ensures reply.Fail? ==> d' == d
    ensures reply.Ok? ==>
      && d'.certificates == d.certificates + [reply.body]
      && d'.(certificates := d.certificates) == d
  {
    match reply
    case Fail(_, _) => d
    case Ok(c) => d.(certificates := d.certificates + [c])
  }

  /** `handleDeleteProject`: every project with the id goes, and the counter
      drops by one whether or not one was listed. */
  function DeleteProject(d: Dashboard, id: nat, ok: bool): (d': Dashboard)
    ensures !ok ==> d' == d
    ensures ok ==>
      && IsSubseq(d'.projects, d.projects)
      && |d'.projects| + CountId(d.projects, id, ProjectId) == |d.projects|
      && (forall p :: p in d'.projects <==> p in d.projects && p.id != id)
      && d'.stats.projects == d.stats.projects - 1
      && d'.stats.(projects := d.stats.projects) == d.stats
      && d'.(projects := d.projects, stats := d.stats) == d
  {
    if !ok then d
    else d.(projects := WithoutId(d.projects, id, ProjectId), stats := d.stats.(projects := d.stats.projects - 1))
  }

  /** `handleDeleteSkill`. */
  function DeleteSkill(d: Dashboard, id: nat, ok: bool): (d': Dashboard)
    ensures !ok ==> d' == d
    ensures ok ==>
      && IsSubseq(d'.skills, d.skills)
      && |d'.skills| + CountId(d.skills, id, SkillId) == |d.skills|
      && (forall s :: s in d'.skills <==> s in d.skills && s.id != id)
      && d'.stats.skills == d.stats.skills - 1
      && d'.stats.(skills := d.stats.skills) == d.stats
      && d'.(skills := d.skills, stats := d.stats) == d
  {
    if !ok then d
    else d.(skills := WithoutId(d.skills, id, SkillId), stats := d.stats.(skills := d.stats.skills - 1))
  }

  /** `handleDeleteMessage`. */
  function DeleteMessage(d: Dashboard, id: nat, ok: bool): (d': Dashboard)
    ensures !ok ==> d' == d
    ensures ok ==>
      && IsSubseq(d'.messages, d.messages)
      && |d'.messages| + CountId(d.messages, id, MessageId) == |d.messages|
      && (forall m :: m in d'.messages <==> m in d.messages && m.id != id)
      && d'.stats.messages == d.stats.messages - 1
      && d'.stats.(messages := d.stats.messages) == d.stats
      && d'.(messages := d.messages, stats := d.stats) == d
  {
    if !ok then d
    else d.(messages := WithoutId(d.messages, id, MessageId), stats := d.stats.(messages := d.stats.messages - 1))
  }

  /** `handleDeleteCertificate`: only the certificate list changes. */
  function DeleteCertificate(d: Dashboard, id: nat, ok: bool): (d': Dashboard)
    ensures !ok ==> d' == d
    ensures ok ==>
      && IsSubseq(d'.certificates, d.certificates)
      && |d'.certificates| + CountId(d.certificates, id, CertificateId) == |d.certificates|
      && (forall c :: c in d'.certificates <==> c in d.certificates && c.id != id)
      && d'.(certificates := d.certificates) == d
  {
    if !ok then d
    else d.(certificates := WithoutId(d.certificates, id, CertificateId))
  }

  /** `handleUpdateProject`: the entry with the returned record's id is
      replaced; counters and the other lists stay as they were. */
  function UpdateProject(d: Dashboard, reply: Response<Project>): (d': Dashboard)
    ensures reply.Fail? ==> d' == d
    ensures reply.Ok? ==>
      && |d'.projects| == |d.projects|
      && (forall i :: 0 <= i < |d.projects| && d.projects[i].id != reply.body.id ==> d'.projects[i] == d.projects[i])
      && (forall i :: 0 <= i < |d.projects| && d.projects[i].id == reply.body.id ==> d'.projects[i] == reply.body)
      && d'.(projects := d.projects) == d
  {
    match reply
    case Fail(_, _) => d
    case Ok(p) => d.(projects := ReplaceById(d.projects, p, ProjectId))
  }

  /** `handleUpdateSkill`. */
  function UpdateSkill(d: Dashboard, reply: Response<Skill>): (d': Dashboard)
    ensures reply.Fail? ==> d' == d
    ensures reply.Ok? ==>
      && |d'.skills| == |d.skills|
      && (forall i :: 0 <= i < |d.skills| && d.skills[i].id != reply.body.id ==> d'.skills[i] == d.skills[i])
      && (forall i :: 0 <= i < |d.skills| && d.skills[i].id == reply.body.id ==> d'.skills[i] == reply.body)
      && d'.(skills := d.skills) == d
  {
    match reply
    case Fail(_, _) => d
    case Ok(s) => d.(skills := ReplaceById(d.skills, s, SkillId))
  }

  /** `handleUpdateCertificate`. */
  function UpdateCertificate(d: Dashboard, reply: Response<Certificate>): (d': Dashboard)
    ensures reply.Fail? ==> d' == d
    ensures reply.Ok? ==>
      && |d'.certificates| == |d.certificates|
      && (forall i :: 0 <= i < |d.certificates| && d.certificates[i].id != reply.body.id ==> d'.certificates[i] == d.certificates[i])
      && (forall i :: 0 <= i < |d.certificates| && d.certificates[i].id == reply.body.id ==> d'.certificates[i] == reply.body)
      && d'.(certificates := d.certificates) == d
  {
    match reply
    case Fail(_, _) => d
    case Ok(c) => d.(certificates := ReplaceById(d.certificates, c, CertificateId))
  }

  /** The counters agree with the lists they count. */
  predicate InSync(d: Dashboard) {
    d.stats.projects == |d.projects| && d.stats.skills == |d.skills| && d.stats.messages == |d.messages|
  }

  /** Adding keeps the counters in step with the lists. */
  lemma AddKeepsSync(d: Dashboard, p: Project, s: Skill, c: Certificate)
    requires InSync(d)
    ensures InSync(AddProject(d, Ok(p)))
    ensures InSync(AddSkill(d, Ok(s)))
    ensures InSync(AddCertificate(d, Ok(c)))
  {
  }

  /** Deleting keeps the project counter in step exactly when one listed
      project had the id: the decrement is unconditional. */
  lemma DeleteSync(d: Dashboard, id: nat)
    requires InSync(d)
    ensures InSync(DeleteProject(d, id, true)) <==> CountId(d.projects, id, ProjectId) == 1
  {
  }

  /** Deleting what was just added undoes the add, when the id was new. */
  lemma AddThenDelete(d: Dashboard, p: Project)
    requires forall q :: q in d.projects ==> q.id != p.id
    ensures DeleteProject(AddProject(d, Ok(p)), p.id, true) == d
  {
    WithoutFreshId(d.projects, p, ProjectId);
  }

  /** A list-valued edit field: still the list the server sent, or the text
      the admin typed. */
  datatype ListField = Items(items: seq<string>) | Typed(text: string)

  /** What the input shows: a list joined with ", ". */
  function Display(f: ListField): string {
    match f
    case Items(xs) => Join(xs, ", ")
    case Typed(t) => t
  }

  /** A non-empty list of comma-free items shows with one comma between
      each pair of neighbours, so splitting it again gives as many pieces
      as there were items. */
  lemma DisplayCommas(xs: seq<string>)
    requires xs != []
    requires forall i :: 0 <= i < |xs| ==> ',' !in xs[i]
    ensures Occurrences(Display(Items(xs)), ',') == |xs| - 1
    ensures |Submitted(Typed(Display(Items(xs))))| == |xs|
  {
    SplitShown(xs);
  }

  /** What the update sends: a list as it is, typed text split at commas
      and trimmed. */
  function Submitted(f: ListField): (r: seq<string>)
    ensures f.Typed? ==> |r| == Occurrences(f.text, ',') + 1
    ensures f.Typed? ==> forall i :: 0 <= i < |r| ==> r[i] == Trim(Split(f.text, ',')[i])
    ensures f.Items? ==> r == f.items
  {
    match f
    case Items(xs) => xs
    case Typed(t) => SplitTrim(t)
  }

  /** The list an edit shows, with a space after each separating comma. */
  function Spaced(xs: seq<string>): (ys: seq<string>)
    requires xs != []
    ensures |ys| == |xs| && ys[0] == xs[0]
    ensures forall i :: 1 <= i < |xs| ==> ys[i] == " " + xs[i]
  {
    [xs[0]] + seq(|xs| - 1, i requires 0 <= i < |xs| - 1 => " " + xs[i + 1])
  }

  lemma {:induction false} JoinSpaced(xs: seq<string>)
    requires xs != []
    ensures Join(xs, ", ") == Join(Spaced(xs), [','])
  {
    if |xs| > 1 {
      JoinSpaced(xs[1..]);
      var tail := Spaced(xs[1..]);
      SpacedTail(xs);
      if |xs| > 2 {
        assert tail == [xs[1]] + tail[1..];
        JoinCons(xs[1], tail[1..], [',']);
        JoinCons(" " + xs[1], tail[1..], [',']);
      }
    }
  }

  /** Past its head, the spaced list is the spaced tail with its own head spaced. */
  lemma SpacedTail(xs: seq<string>)
    requires |xs| > 1
    ensures Spaced(xs)[1..] == [" " + xs[1]] + Spaced(xs[1..])[1..]
  {
  }

  /** Once the edit field of a non-empty list has been typed in, submitting
      the text exactly as it was shown sends the same list back, when the
      items hold no comma and no surrounding white space. An untouched field
      sends the list itself (`Submitted` of `Items`). */
  lemma {:induction false} EditRoundTrip(xs: seq<string>)
    requires xs != []
    requires forall i :: 0 <= i < |xs| ==> ',' !in xs[i] && Trimmed(xs[i])
    ensures Submitted(Typed(Display(Items(xs)))) == xs
  {
    var s := Join(xs, ", ");
    SplitShown(xs);
    var r := SplitTrim(s);
    forall i | 0 <= i < |xs|
      ensures r[i] == xs[i]
    {
      SpacedItemTrims(xs, i);
    }
  }

  /** The shown text splits at its commas into the spaced items. */
  lemma SplitShown(xs: seq<string>)
    requires xs != []
    requires forall i :: 0 <= i < |xs| ==> ',' !in xs[i]
    ensures Split(Join(xs, ", "), ',') == Spaced(xs)
  {
    var ys := Spaced(xs);
    JoinSpaced(xs);
    forall i | 0 <= i < |ys|
      ensures ',' !in ys[i]
    {
      if i > 0 {
        assert ys[i] == [' '] + xs[i];
      }
    }
    SplitJoin(ys, ',');
  }

  /** Each item of the spaced list trims back to the original item. */
  lemma SpacedItemTrims(xs: seq<string>, i: nat)
    requires xs != [] && i < |xs|
    requires Trimmed(xs[i])
    ensures Trim(Spaced(xs)[i]) == xs[i]
  {
    if i > 0 {
      assert Spaced(xs)[i] == [' '] + xs[i];
      TrimLeadingSpace(xs[i], ' ');
    }
  }

  /** An empty list does not survive an edit once the field has been typed
      in: its field shows "", which is then sent back as one empty item. */
  lemma EmptyListGainsBlankItem()
    ensures Submitted(Typed(Display(Items([])))) == [""]
  {
    assert Split("", ',') == [""];
  }

  /** One row of the recent-activity card. */
  datatype FeedItem = ProjectAdded(project: Project) | MessageReceived(message: Message)

  /** `[...projects, ...messages].slice(0, 5)`: at most five rows, projects
      first, then messages, each list in its own order. */
  function RecentActivity(projects: seq<Project>, messages: seq<Message>): (r: seq<FeedItem>)
    ensures |r| == if |projects| + |messages| < 5 then |projects| + |messages| else 5
    ensures forall i :: 0 <= i < |r| && i < |projects| ==> r[i] == ProjectAdded(projects[i])
    ensures forall i :: |projects| <= i < |r| ==> r[i] == MessageReceived(messages[i - |projects|])
    ensures forall i, j :: 0 <= i < j < |r| && r[i].MessageReceived? ==> r[j].MessageReceived?
  {
    var all := seq(|projects|, i requires 0 <= i < |projects| => ProjectAdded(projects[i]))
             + seq(|messages|, i requires 0 <= i < |messages| => MessageReceived(messages[i]));
    if |all| <= 5 then all else all[..5]
  }

  /** Where the dashboard goes after asking for the stats. */
  datatype Load = Loaded(stats: Counters) | ToLogin | LoadFailed(error: string)

  function FromServer(c: StatsRoute.Counts): Counters {
    Counters(c.projects, c.skills, c.messages, c.unreadMessages)
  }

  /** The start-up check: with no stored token, or an empty one, go to the
      login page; otherwise ask for the stats. A 401 removes the token and
      goes to the login page; any other failure is shown as an error and
      keeps the token. */
  function Start(token: Option<string>, fetchStats: string -> Response<StatsRoute.StatsBody>): (r: (Option<string>, Load))
    ensures token.None? || token == Some("") ==> r == (token, ToLogin)
    ensures r.1.ToLogin? <==>
      token.None? || token.value == "" || (fetchStats(token.value).Fail? && fetchStats(token.value).status == 401)
    ensures r.0 == token || r.0.None?
    ensures r.0 != token <==> token.Some? && token.value != "" && fetchStats(token.value).Fail? && fetchStats(token.value).status == 401
    ensures r.1.Loaded? ==> fetchStats(token.value).Ok? && r.1.stats == FromServer(fetchStats(token.value).body.stats)
    ensures token.Some? && token.value != "" && fetchStats(token.value).Ok? ==>
              r == (token, Loaded(FromServer(fetchStats(token.value).body.stats)))
    ensures token.Some? && token.value != "" && fetchStats(token.value).Fail? && fetchStats(token.value).status != 401 ==>
              r.0 == token && r.1.LoadFailed?
  {
    match token
    case None => (None, ToLogin)
    case Some(t) =>
      if t == "" then (token, ToLogin)
      else match fetchStats(t)
        case Ok(body) => (token, Loaded(FromServer(body.stats)))
        case Fail(status, message) =>
          if status == 401 then (None, ToLogin)
          else (token, LoadFailed("Failed to fetch dashboard stats: " + message))
  }

  /** Against the stats route itself, a stored token sends the admin back
      to the login page exactly when it is empty or the gate refuses it with
      401; a non-admin (403) or a store failure after the gate (500) keeps it
      and shows an error. The counts loaded are the table sizes. */
  lemma StartAgainstServer(token: string, verify: string -> Verdict, db: Db, queriesUp: bool)
    ensures var r := Start(Some(token), (t: string) => StatsRoute.Get(Some(Auth.BearerPrefix + t), verify, db, queriesUp));
            var gate := Auth.VerifyAuth(Some(Auth.BearerPrefix + token), verify, db);
            && (r.1.ToLogin? <==> token == "" || (gate.Denied? && gate.status == 401))
            && (r.1.Loaded? <==> token != "" && gate.Authorized? && queriesUp)
            && (r.1.LoadFailed? <==> token != "" && ((gate.Denied? && gate.status == 403) || (gate.Authorized? && !queriesUp)))
            && (r.1.LoadFailed? ==> r.0 == Some(token))
            && (r.1.Loaded? ==> r.1.stats == Counters(|db.projects|, |db.skills|, |db.messages|,
                                                       StatsRoute.UnreadCount(db.messages)))
  {
  }
}
