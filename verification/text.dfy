/** The string operations the handlers and the dashboard use:
    `startsWith`, `trim`, `split` on one character and `join`. */
module Text {
  import opened Seqs

  /** The characters `String.prototype.trim` removes: ECMAScript's
      WhiteSpace (tab, vertical tab, form feed, space, no-break space,
      byte order mark and the Unicode space separators) and LineTerminator. */
  predicate IsSpace(c: char) {
    || c == '\t' || c == '\n' || c == '\U{000B}' || c == '\U{000C}' || c == '\r'
    || c == ' ' || c == '\U{00A0}' || c == '\U{1680}'
    || ('\U{2000}' <= c <= '\U{200A}')
    || c == '\U{2028}' || c == '\U{2029}' || c == '\U{202F}' || c == '\U{205F}'
    || c == '\U{3000}' || c == '\U{FEFF}'
  }

  predicate StartsWith(s: string, prefix: string) {
    |prefix| <= |s| && s[..|prefix|] == prefix
  }

  /** Drops leading white space: the result is the longest suffix of `s`
      that does not start with white space. */
  function TrimStart(s: string): (r: string)
    ensures |r| <= |s| && r == s[|s| - |r|..]
    ensures forall i :: 0 <= i < |s| - |r| ==> IsSpace(s[i])
    ensures r == [] || !IsSpace(r[0])
  {
    if |s| > 0 && IsSpace(s[0]) then TrimStart(s[1..]) else s
  }

  /** Drops trailing white space: the result is the longest prefix of `s`
      that does not end with white space. */
  function TrimEnd(s: string): (r: string)
    ensures |r| <= |s| && r == s[..|r|]
    ensures forall i :: |r| <= i < |s| ==> IsSpace(s[i])
    ensures r == [] || !IsSpace(r[|r| - 1])
  {
    if |s| > 0 && IsSpace(s[|s| - 1]) then TrimEnd(s[..|s| - 1]) else s
  }

  /** Neither starts nor ends with white space. */
  predicate Trimmed(s: string) {
    s == [] || (!IsSpace(s[0]) && !IsSpace(s[|s| - 1]))
  }

  /** `s.trim()`: white space removed from both ends and nothing else. The
      result is a slice `s[i..j]` with only white space outside it, and it
      neither starts nor ends with white space, which fixes it uniquely. */
  function Trim(s: string): (r: string)
    ensures Trimmed(r)
    ensures exists i, j :: 0 <= i <= j <= |s| && r == s[i..j] && SpaceOutside(s, i, j)
    ensures Trimmed(s) ==> r == s
    ensures forall c :: c in r ==> c in s
  {
    var t := TrimStart(s);
    var r := TrimEnd(t);
    var i := |s| - |t|;
    var j := i + |r|;
    assert r == s[i..j];
    assert SpaceOutside(s, i, j) by {
      forall k | j <= k < |s|
        ensures IsSpace(s[k])
      {
        assert s[k] == t[k - i];
      }
    }
    SliceChars(s, i, |s|);
    SliceChars(t, 0, |r|);
    r
  }

  /** Every character of `s` before `i` or from `j` on is white space. */
  predicate SpaceOutside(s: string, i: nat, j: nat)
    requires i <= j <= |s|
  {
    (forall k :: 0 <= k < i ==> IsSpace(s[k])) && (forall k :: j <= k < |s| ==> IsSpace(s[k]))
  }

  /** A slice holds only characters of the whole. */
  lemma SliceChars(s: string, i: nat, j: nat)
    requires i <= j <= |s|
    ensures forall c :: c in s[i..j] ==> c in s
  {
    forall c | c in s[i..j]
      ensures c in s
    {
      var k :| 0 <= k < j - i && s[i..j][k] == c;
      assert s[i + k] == c;
    }
  }

  /** Trimming ignores extra white space in front. */
  lemma TrimLeadingSpace(x: string, c: char)
    requires IsSpace(c)
    ensures Trim([c] + x) == Trim(x)
  {
    assert ([c] + x)[1..] == x;
  }

  /** `xs.join(sep)`. */
  function Join(xs: seq<string>, sep: string): string {
    if xs == [] then ""
    else if |xs| == 1 then xs[0]
    else xs[0] + sep + Join(xs[1..], sep)
  }

  lemma JoinCons(a: string, xs: seq<string>, sep: string)
    requires xs != []
    ensures Join([a] + xs, sep) == a + sep + Join(xs, sep)
  {
    assert ([a] + xs)[1..] == xs;
  }

  /** `s.split(sep)` for a one-character separator: the text between
      consecutive separators, so always one more piece than separators,
      none containing the separator, and joining them back gives `s`. */
  function Split(s: string, sep: char): (r: seq<string>)
    ensures |r| == Occurrences(s, sep) + 1
    ensures forall i :: 0 <= i < |r| ==> sep !in r[i]
    ensures Join(r, [sep]) == s
  {
    if s == [] then [""]
    else
      var rest := Split(s[1..], sep);
      if s[0] == sep then
        JoinCons("", rest, [sep]);
        assert s == [sep] + s[1..];
        [""] + rest
      else
        var r := [[s[0]] + rest[0]] + rest[1..];
        assert s == [s[0]] + s[1..];
        if |rest| == 1 then
          r
        else
          assert rest == [rest[0]] + rest[1..];
          JoinCons(rest[0], rest[1..], [sep]);
          JoinCons([s[0]] + rest[0], rest[1..], [sep]);
          r
  }

  /** The text before the first `c`, or all of `s` if there is none. */
  function TakeUntil(s: string, c: char): (r: string)
    ensures StartsWith(s, r) && c !in r
    ensures |r| < |s| ==> s[|r|] == c
  {
    if s == [] || s[0] == c then [] else [s[0]] + TakeUntil(s[1..], c)
  }

  /** The first piece of a split is the text up to the first separator. */
  lemma {:induction false} SplitHead(s: string, c: char)
    ensures Split(s, c)[0] == TakeUntil(s, c)
  {
    if s != [] && s[0] != c {
      SplitHead(s[1..], c);
    }
  }

  /** A piece without the separator, followed by the separator, splits off
      as exactly that piece. */
  lemma {:induction false} SplitAfterPiece(a: string, c: char, b: string)
    requires c !in a
    ensures Split(a + [c] + b, c) == [a] + Split(b, c)
  {
    if a == [] {
      assert a + [c] + b == [c] + b;
      assert ([c] + b)[1..] == b;
    } else {
      assert (a + [c] + b)[1..] == a[1..] + [c] + b;
      SplitAfterPiece(a[1..], c, b);
      assert [a[0]] + a[1..] == a;
    }
  }

  /** A string without the separator splits into itself alone. */
  lemma SplitNoSeparator(s: string, c: char)
    requires c !in s
    ensures Split(s, c) == [s]
  {
    assert Occurrences(s, c) == 0 by { NoOccurrences(s, c); }
  }

  lemma {:induction false} NoOccurrences(s: string, c: char)
    requires c !in s
    ensures Occurrences(s, c) == 0
  {
    if s != [] {
      NoOccurrences(s[1..], c);
    }
  }

  /** Without `c`, the text before the first `c` is the whole string. */
  lemma {:induction false} TakeUntilWhole(s: string, c: char)
    requires c !in s
    ensures TakeUntil(s, c) == s
  {
    if s != [] {
      TakeUntilWhole(s[1..], c);
    }
  }

  /** Splitting undoes joining, provided there is at least one piece and no
      piece contains the separator. */
  lemma {:induction false} SplitJoin(xs: seq<string>, c: char)
    requires xs != []
    requires forall i :: 0 <= i < |xs| ==> c !in xs[i]
    ensures Split(Join(xs, [c]), c) == xs
  {
    if |xs| == 1 {
      SplitNoSeparator(xs[0], c);
    } else {
      SplitJoin(xs[1..], c);
      SplitAfterPiece(xs[0], c, Join(xs[1..], [c]));
      assert [xs[0]] + xs[1..] == xs;
    }
  }

  /** `s.split(",").map(t => t.trim())`: one piece per comma-separated field,
      each with its surrounding white space removed. */
  function SplitTrim(s: string): (r: seq<string>)
    ensures |r| == Occurrences(s, ',') + 1
    ensures forall i :: 0 <= i < |r| ==> Trimmed(r[i]) && ',' !in r[i]
    ensures forall i :: 0 <= i < |r| ==> r[i] == Trim(Split(s, ',')[i])
  {
    var parts := Split(s, ',');
    seq(|parts|, i requires 0 <= i < |parts| => Trim(parts[i]))
  }
}

/** Code-point lexicographic order on strings, the order used for
    `orderBy: { name: "asc" }`. */
module Lexicographic {

  predicate LexLe(a: string, b: string) {
    a == [] || (b != [] && (a[0] < b[0] || (a[0] == b[0] && LexLe(a[1..], b[1..]))))
  }

  lemma {:induction false} LexTotal(a: string, b: string)
    ensures LexLe(a, b) || LexLe(b, a)
  {
    if a != [] && b != [] && a[0] == b[0] {
      LexTotal(a[1..], b[1..]);
    }
  }

  lemma {:induction false} LexTransitive(a: string, b: string, c: string)
    requires LexLe(a, b) && LexLe(b, c)
    ensures LexLe(a, c)
  {
    if a != [] && b != [] && c != [] && a[0] == b[0] && b[0] == c[0] {
      LexTransitive(a[1..], b[1..], c[1..]);
    }
  }

  /** Only equal strings are ordered both ways. */
  lemma {:induction false} LexAntisymmetric(a: string, b: string)
    requires LexLe(a, b) && LexLe(b, a)
    ensures a == b
  {
    if a != [] && b != [] {
      LexAntisymmetric(a[1..], b[1..]);
      assert a == [a[0]] + a[1..] && b == [b[0]] + b[1..];
    }
  }
}
