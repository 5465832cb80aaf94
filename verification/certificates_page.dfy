/** The public certificates page: the expiry test, the tab filter, the
    grouping by issue year and the descending list of years. `now` is the
    browser clock and `yearOf` is `new Date(t).getFullYear()`, which
    depends on the time zone, so both are parameters. */
module CertificatesPage {
  import opened Common
  import opened Store
  import opened Seqs

  /** `isExpired(expiryDate)`: no expiry date never expires; otherwise the
      expiry must lie strictly before now. */
  predicate IsExpired(expiry: Option<int>, now: int) {
    expiry.Some? && expiry.value < now
  }

  /** Expiry is final: a certificate without an expiry date is never
      expired, and one that is expired stays expired at every later time. */
  lemma ExpiryIsFinal(expiry: Option<int>, now: int, later: int)
    requires now <= later
    ensures expiry.None? ==> !IsExpired(expiry, later)
    ensures IsExpired(expiry, now) ==> IsExpired(expiry, later)
    ensures expiry.Some? ==> (IsExpired(expiry, later) <==> expiry.value < later)
  {
  }

  /** Whether a certificate is listed under `tab`; an unknown tab lists all. */
  predicate Shown(c: Certificate, tab: string, now: int) {
    if tab == "all" then true
    else if tab == "featured" then c.featured
    else if tab == "active" then !IsExpired(c.expiryDate, now)
    else if tab == "expired" then IsExpired(c.expiryDate, now)
    else true
  }

  /** `filteredCertificates`. */
  function Filtered(certs: seq<Certificate>, tab: string, now: int): (r: seq<Certificate>)
    ensures IsSubseq(r, certs)
    ensures forall c :: c in r <==> c in certs && Shown(c, tab, now)
    ensures forall c :: multiset(r)[c] == if Shown(c, tab, now) then multiset(certs)[c] else 0
  {
    var keep := (c: Certificate) => Shown(c, tab, now);
    assert forall c :: c in Filter(certs, keep) <==> c in certs && Shown(c, tab, now) by {
      forall c ensures c in Filter(certs, keep) <==> c in certs && Shown(c, tab, now) {
        FilterMembers(certs, keep, c);
      }
    }
    Filter(certs, keep)
  }

  /** "all" and any tab the page does not know keep every certificate, in order. */
  lemma OtherTabsKeepAll(certs: seq<Certificate>, tab: string, now: int)
    requires tab !in {"featured", "active", "expired"}
    ensures Filtered(certs, tab, now) == certs
  {
    FilterKeepsAll(certs, (c: Certificate) => Shown(c, tab, now));
  }

  /** "featured" keeps exactly the featured certificates, in order. */
  lemma FeaturedTab(certs: seq<Certificate>, now: int)
    ensures IsSubseq(Filtered(certs, "featured", now), certs)
    ensures forall c :: c in Filtered(certs, "featured", now) <==> c in certs && c.featured
    ensures forall c :: multiset(Filtered(certs, "featured", now))[c] == if c.featured then multiset(certs)[c] else 0
  {
    forall c ensures c in Filtered(certs, "featured", now) <==> c in certs && c.featured {
      FilterMembers(certs, (c: Certificate) => Shown(c, "featured", now), c);
    }
  }

  /** "active" and "expired" split the list: every certificate is under
      exactly one of them, so the two tab counts add up to the total. */
  lemma ActiveExpiredPartition(certs: seq<Certificate>, now: int)
    ensures |Filtered(certs, "active", now)| + |Filtered(certs, "expired", now)| == |certs|
    ensures forall c :: c in certs ==>
              (c in Filtered(certs, "active", now) <==> c !in Filtered(certs, "expired", now))
    ensures forall c :: c in Filtered(certs, "expired", now) ==> c.expiryDate.Some? && c.expiryDate.value < now
  {
    var active := (c: Certificate) => Shown(c, "active", now);
    var expired := (c: Certificate) => Shown(c, "expired", now);
    FilterPartition(certs, active, expired);
    forall c | c in Filtered(certs, "expired", now)
      ensures c.expiryDate.Some? && c.expiryDate.value < now
    {
      FilterMembers(certs, expired, c);
    }
  }

  function YearOf(c: Certificate, yearOf: int -> int): int {
    yearOf(c.issueDate)
  }

  /** The certificates issued in year `y`, in list order. */
  function InYear(certs: seq<Certificate>, yearOf: int -> int, y: int): seq<Certificate> {
    Filter(certs, (c: Certificate) => YearOf(c, yearOf) == y)
  }

  /** `groupedCertificates`: the `reduce` that pushes each certificate onto
      the bucket of its issue year. There is a bucket for a year exactly
      when some certificate was issued in it. */
  function Group(certs: seq<Certificate>, yearOf: int -> int): (g: map<int, seq<Certificate>>)
    ensures forall y :: y in g <==> exists c :: c in certs && YearOf(c, yearOf) == y
  {
    if certs == [] then map[]
    else
      var init := certs[..|certs| - 1];
      var c := certs[|certs| - 1];
      assert certs == init + [c];
      Push(Group(init, yearOf), c, yearOf)
  }

  /** One step of the `reduce`: `acc[year] = acc[year] || []; acc[year].push(cert)`. */
  function Push(acc: map<int, seq<Certificate>>, c: Certificate, yearOf: int -> int): map<int, seq<Certificate>> {
    var y := YearOf(c, yearOf);
    acc[y := (if y in acc then acc[y] else []) + [c]]
  }

  lemma NoneInYear(certs: seq<Certificate>, yearOf: int -> int, y: int)
    requires forall c :: c in certs ==> YearOf(c, yearOf) != y
    ensures InYear(certs, yearOf, y) == []
  {
    if InYear(certs, yearOf, y) != [] {
      var c := InYear(certs, yearOf, y)[0];
      FilterMembers(certs, (c: Certificate) => YearOf(c, yearOf) == y, c);
    }
  }

  /** Each bucket holds exactly the certificates of its year, in list order;
      so every certificate is in the bucket of its own year and in no other. */
  lemma {:induction false} GroupBuckets(certs: seq<Certificate>, yearOf: int -> int)
    ensures forall y :: y in Group(certs, yearOf) ==> Group(certs, yearOf)[y] == InYear(certs, yearOf, y)
    ensures forall y :: y in Group(certs, yearOf) ==> IsSubseq(Group(certs, yearOf)[y], certs)
  {
    if certs != [] {
      var init := certs[..|certs| - 1];
      var c := certs[|certs| - 1];
      assert certs == init + [c];
      GroupBuckets(init, yearOf);
      var g := Group(certs, yearOf);
      assert g == Push(Group(init, yearOf), c, yearOf);
      forall y | y in g
        ensures g[y] == InYear(certs, yearOf, y)
      {
        if y != YearOf(c, yearOf) || y in Group(init, yearOf) {
          PushStep(Group(init, yearOf), init, c, yearOf, y);
        } else {
          NoneInYear(init, yearOf, y);
          PushFresh(init, c, yearOf);
        }
      }
    }
  }

  /** Pushing a certificate onto a bucket map that matches `InYear` for an
      already-present year keeps it matching. */
  lemma PushStep(acc: map<int, seq<Certificate>>, init: seq<Certificate>, c: Certificate, yearOf: int -> int, y: int)
    requires y in acc ==> acc[y] == InYear(init, yearOf, y)
    requires y in acc || y != YearOf(c, yearOf)
    requires y in Push(acc, c, yearOf)
    ensures Push(acc, c, yearOf)[y] == InYear(init + [c], yearOf, y)
  {
    var p := (c: Certificate) => YearOf(c, yearOf) == y;
    FilterAppend(init, [c], p);
    if y == YearOf(c, yearOf) {
      assert Filter([c], p) == [c];
    } else {
      assert Filter([c], p) == [];
    }
  }

  /** The first certificate of a year starts that year's bucket. */
  lemma PushFresh(init: seq<Certificate>, c: Certificate, yearOf: int -> int)
    requires InYear(init, yearOf, YearOf(c, yearOf)) == []
    ensures InYear(init + [c], yearOf, YearOf(c, yearOf)) == [c]
  {
    var p := (x: Certificate) => YearOf(x, yearOf) == YearOf(c, yearOf);
    FilterAppend(init, [c], p);
    assert Filter([c], p) == [c];
  }

  predicate StrictlyDescending(ys: seq<int>) {
    forall i, j :: 0 <= i < j < |ys| ==> ys[i] > ys[j]
  }

  /** Adds a year to a strictly descending list, unless it is already there. */
  function InsertYear(ys: seq<int>, y: int): (r: seq<int>)
    requires StrictlyDescending(ys)
    ensures StrictlyDescending(r)
    ensures forall z :: z in r <==> z in ys || z == y
  {
    if ys == [] then [y]
    else if y == ys[0] then ys
    else if y > ys[0] then [y] + ys
    else
      var rest := InsertYear(ys[1..], y);
      assert forall k :: 0 <= k < |rest| ==> rest[k] in ys[1..] || rest[k] == y;
      [ys[0]] + rest
  }

  /** `sortedYears`: the bucket keys in numerically descending order, each
      once. */
  function SortedYears(certs: seq<Certificate>, yearOf: int -> int): (r: seq<int>)
    ensures StrictlyDescending(r)
    ensures forall y :: y in r <==> y in Group(certs, yearOf)
  {
    if certs == [] then []
    else
      var init := certs[..|certs| - 1];
      assert certs == init + [certs[|certs| - 1]];
      InsertYear(SortedYears(init, yearOf), YearOf(certs[|certs| - 1], yearOf))
  }

  lemma {:induction false} DistinctLength(ys: seq<int>)
    requires StrictlyDescending(ys)
    ensures |set y | y in ys| == |ys|
  {
    if ys != [] {
      DistinctLength(ys[1..]);
      assert (set y | y in ys) == {ys[0]} + (set y | y in ys[1..]);
    }
  }

  /** The "Years Active" figure: as many years as there are distinct issue
      years among the listed certificates. */
  lemma YearCount(certs: seq<Certificate>, yearOf: int -> int)
    ensures |SortedYears(certs, yearOf)| == |Group(certs, yearOf).Keys|
  {
    var ys := SortedYears(certs, yearOf);
    DistinctLength(ys);
    assert (set y | y in ys) == Group(certs, yearOf).Keys;
  }

  /** Total size of the buckets named by `ys`. */
  function BucketTotal(g: map<int, seq<Certificate>>, ys: seq<int>): nat
    requires forall i :: 0 <= i < |ys| ==> ys[i] in g
  {
    if ys == [] then 0 else |g[ys[0]]| + BucketTotal(g, ys[1..])
  }

  /** Total size of the per-year filters for the years `ys`. */
  function YearTotal(certs: seq<Certificate>, yearOf: int -> int, ys: seq<int>): nat {
    if ys == [] then 0 else |InYear(certs, yearOf, ys[0])| + YearTotal(certs, yearOf, ys[1..])
  }

  lemma {:induction false} OccursOnce(ys: seq<int>, v: int)
    requires StrictlyDescending(ys)
    ensures Occurrences(ys, v) == if v in ys then 1 else 0
  {
    if ys != [] {
      OccursOnce(ys[1..], v);
      assert ys == [ys[0]] + ys[1..];
    }
  }

  lemma {:induction false} YearTotalCons(x: Certificate, rest: seq<Certificate>, yearOf: int -> int, ys: seq<int>)
    ensures YearTotal([x] + rest, yearOf, ys) == YearTotal(rest, yearOf, ys) + Occurrences(ys, YearOf(x, yearOf))
  {
    assert ([x] + rest)[1..] == rest;
    if ys != [] {
      YearTotalCons(x, rest, yearOf, ys[1..]);
    }
  }

  lemma {:induction false} YearTotalEmpty(yearOf: int -> int, ys: seq<int>)
    ensures YearTotal([], yearOf, ys) == 0
  {
    if ys != [] {
      YearTotalEmpty(yearOf, ys[1..]);
    }
  }

  /** Counting each year's certificates once over distinct years that cover
      every issue year counts every certificate exactly once. */
  lemma {:induction false} YearTotalCovers(certs: seq<Certificate>, yearOf: int -> int, ys: seq<int>)
    requires StrictlyDescending(ys)
    requires forall c :: c in certs ==> YearOf(c, yearOf) in ys
    ensures YearTotal(certs, yearOf, ys) == |certs|
  {
    if certs == [] {
      YearTotalEmpty(yearOf, ys);
    } else {
      assert certs == [certs[0]] + certs[1..];
      YearTotalCovers(certs[1..], yearOf, ys);
      YearTotalCons(certs[0], certs[1..], yearOf, ys);
      OccursOnce(ys, YearOf(certs[0], yearOf));
    }
  }

  lemma {:induction false} BucketsAreYears(certs: seq<Certificate>, yearOf: int -> int, ys: seq<int>)
    requires forall i :: 0 <= i < |ys| ==> ys[i] in Group(certs, yearOf)
    ensures BucketTotal(Group(certs, yearOf), ys) == YearTotal(certs, yearOf, ys)
  {
    GroupBuckets(certs, yearOf);
    if ys != [] {
      assert forall i :: 0 <= i < |ys[1..]| ==> ys[1..][i] == ys[i + 1];
      BucketsAreYears(certs, yearOf, ys[1..]);
    }
  }

  /** Walking `sortedYears` and rendering each bucket shows every listed
      certificate exactly once: the bucket sizes add up to the list length. */
  lemma BucketSizesSum(certs: seq<Certificate>, yearOf: int -> int)
    ensures var ys := SortedYears(certs, yearOf);
            BucketTotal(Group(certs, yearOf), ys) == |certs|
  {
    var ys := SortedYears(certs, yearOf);
    BucketsAreYears(certs, yearOf, ys);
    YearTotalCovers(certs, yearOf, ys);
  }
}
