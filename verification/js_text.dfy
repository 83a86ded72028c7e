/** The JavaScript string operations the proxy relies on, over Dafny
    sequences: `trim`, `indexOf`, `split` with a non-empty separator and
    `join`. Sequences are generic where the operation does not care about
    characters, so the same search serves strings and Latin-1 byte strings. */
module JsText {
  import opened Wrappers

  /** ECMAScript's WhiteSpace and LineTerminator code points: the set that
      `String.prototype.trim` and `parseInt` skip. */
  predicate IsJsSpace(c: char) {
    || c == '\t' || c == '\n' || c == '\U{B}' || c == '\U{C}' || c == '\r' || c == ' '
    || c == '\U{A0}' || c == '\U{1680}' || ('\U{2000}' <= c <= '\U{200A}')
    || c == '\U{2028}' || c == '\U{2029}' || c == '\U{202F}' || c == '\U{205F}'
    || c == '\U{3000}' || c == '\U{FEFF}'
  }

  predicate AllSpace(s: string) {
    forall i {:trigger IsJsSpace(s[i])} :: 0 <= i < |s| ==> IsJsSpace(s[i])
  }

  /** The end of the run of white space that starts at `i`. */
  function SpaceEnd(s: string, i: nat): (n: nat)
    requires i <= |s|
    ensures i <= n <= |s| && forall k :: i <= k < n ==> IsJsSpace(s[k])
    ensures n < |s| ==> !IsJsSpace(s[n])
    decreases |s| - i
  {
    if i < |s| && IsJsSpace(s[i]) then SpaceEnd(s, i + 1) else i
  }

  /** The start of the run of white space that ends at `j`, looking no
      further back than `lo`. */
  function SpaceStart(s: string, lo: nat, j: nat): (n: nat)
    requires lo <= j <= |s|
    ensures lo <= n <= j && forall k :: n <= k < j ==> IsJsSpace(s[k])
    ensures n > lo ==> !IsJsSpace(s[n - 1])
    decreases j
  {
    if j > lo && IsJsSpace(s[j - 1]) then SpaceStart(s, lo, j - 1) else j
  }

  /** `s.trimStart()`: drops the leading run of white space and nothing else. */
  function TrimStart(s: string): (r: string)
    ensures |r| > 0 ==> !IsJsSpace(r[0])
  {
    s[SpaceEnd(s, 0)..]
  }

  /** `s.trimEnd()`: drops the trailing run of white space and nothing else. */
  function TrimEnd(s: string): (r: string)
    ensures |r| > 0 ==> !IsJsSpace(r[|r| - 1])
  {
    s[..SpaceStart(s, 0, |s|)]
  }

  /** `s.trim()`: the slice of `s` between its leading and its trailing run
      of white space; neither end of the result is white space. */
  function Trim(s: string): (r: string)
    ensures |r| <= |s|
    ensures |r| > 0 ==> !IsJsSpace(r[0]) && !IsJsSpace(r[|r| - 1])
  {
    var a := SpaceEnd(s, 0);
    s[a..SpaceStart(s, a, |s|)]
  }

  /** What `trim` removes is white space through and through, on both sides. */
  lemma TrimIsSlice(s: string)
    ensures
      var a := SpaceEnd(s, 0);
      var b := SpaceStart(s, a, |s|);
      && a <= b && Trim(s) == s[a..b]
      && AllSpace(s[..a]) && AllSpace(s[b..])
  {
    var a := SpaceEnd(s, 0);
    var b := SpaceStart(s, a, |s|);
    forall i | 0 <= i < a
      ensures IsJsSpace(s[..a][i])
    {
      assert s[..a][i] == s[i];
    }
    forall i | 0 <= i < |s| - b
      ensures IsJsSpace(s[b..][i])
    {
      assert s[b..][i] == s[b + i];
    }
  }

  /** Trimming both ends at once is `trimStart` followed by `trimEnd`. */
  lemma TrimComposes(s: string)
    ensures Trim(s) == TrimEnd(TrimStart(s))
  {
    var a := SpaceEnd(s, 0);
    var t := TrimStart(s);
    ShiftedSpaceStart(s, a, |s|);
    assert t[..SpaceStart(s, a, |s|) - a] == s[a..SpaceStart(s, a, |s|)];
  }

  /** Scanning back over a suffix finds the same run, shifted. */
  lemma {:induction false} ShiftedSpaceStart(s: string, a: nat, j: nat)
    requires a <= j <= |s|
    ensures SpaceStart(s[a..], 0, j - a) == SpaceStart(s, a, j) - a
    decreases j
  {
    if j > a {
      assert s[a..][j - a - 1] == s[j - 1];
      ShiftedSpaceStart(s, a, j - 1);
    }
  }

  /** A string that neither starts nor ends with white space is its own trim. */
  lemma TrimUnpadded(s: string)
    requires |s| > 0 ==> !IsJsSpace(s[0]) && !IsJsSpace(s[|s| - 1])
    ensures Trim(s) == s
  {
  }

  /** `pat` occurs in `s` starting at index `i`. */
  predicate OccursAt<T(==)>(s: seq<T>, pat: seq<T>, i: int) {
    0 <= i && i + |pat| <= |s| && s[i..i + |pat|] == pat
  }

  /** The leftmost occurrence of `pat` in `s` at or after index `i`, if any. */
  function IndexFrom<T(==)>(s: seq<T>, pat: seq<T>, i: nat): (r: Option<nat>)
    requires i <= |s|
    ensures r.Some? ==> i <= r.value && OccursAt(s, pat, r.value)
    ensures r.Some? ==> forall j :: i <= j < r.value ==> !OccursAt(s, pat, j)
    ensures r.None? ==> forall j :: i <= j <= |s| ==> !OccursAt(s, pat, j)
    decreases |s| - i
  {
    if i + |pat| > |s| then None
    else if s[i..i + |pat|] == pat then Some(i)
    else IndexFrom(s, pat, i + 1)
  }

  /** `s.indexOf(pat)`: the leftmost occurrence of `pat` in `s`, if any. */
  function IndexOf<T(==)>(s: seq<T>, pat: seq<T>): (r: Option<nat>)
    ensures r.Some? ==> OccursAt(s, pat, r.value)
    ensures r.Some? ==> forall j :: 0 <= j < r.value ==> !OccursAt(s, pat, j)
    ensures r.None? ==> forall j :: 0 <= j <= |s| ==> !OccursAt(s, pat, j)
  {
    IndexFrom(s, pat, 0)
  }

  /** An occurrence with none before it is the one `indexOf` finds. */
  lemma FirstOccurrence<T>(s: seq<T>, pat: seq<T>, i: nat)
    requires OccursAt(s, pat, i)
    requires forall k :: 0 <= k < i ==> !OccursAt(s, pat, k)
    ensures IndexOf(s, pat) == Some(i)
  {
  }

  /** Appending bytes never moves an occurrence that is already there. */
  lemma IndexOfAppendFound<T>(a: seq<T>, b: seq<T>, pat: seq<T>)
    requires IndexOf(a, pat).Some?
    ensures IndexOf(a + b, pat) == IndexOf(a, pat)
  {
    var i := IndexOf(a, pat).value;
    forall j | 0 <= j <= i
      ensures OccursAt(a + b, pat, j) <==> OccursAt(a, pat, j)
    {
      if j + |pat| <= |a| {
        SliceOfPrefix(a + b, |a|, j, j + |pat|);
        assert (a + b)[..|a|] == a;
      }
    }
    FirstOccurrence(a + b, pat, i);
  }

  /** An occurrence that appears only after appending ends inside the appended part. */
  lemma IndexOfAppendNew<T>(a: seq<T>, b: seq<T>, pat: seq<T>)
    requires IndexOf(a, pat).None? && IndexOf(a + b, pat).Some?
    ensures IndexOf(a + b, pat).value + |pat| > |a|
  {
    NoEarlyOccurrence(a, b, pat);
    assert OccursAt(a + b, pat, IndexOf(a + b, pat).value);
  }

  /** Without an occurrence in `a`, none of `a + b` lies within `a`. */
  lemma NoEarlyOccurrence<T>(a: seq<T>, b: seq<T>, pat: seq<T>)
    requires forall j :: 0 <= j <= |a| ==> !OccursAt(a, pat, j)
    ensures forall j :: 0 <= j && j + |pat| <= |a| ==> !OccursAt(a + b, pat, j)
  {
    assert (a + b)[..|a|] == a;
    forall j | 0 <= j && j + |pat| <= |a|
      ensures !OccursAt(a + b, pat, j)
    {
      SliceOfPrefix(a + b, |a|, j, j + |pat|);
      assert !OccursAt(a, pat, j);
    }
  }

  /** `parts.join(sep)`. */
  function JoinWith<T>(parts: seq<seq<T>>, sep: seq<T>): seq<T> {
    if |parts| == 0 then []
    else if |parts| == 1 then parts[0]
    else parts[0] + sep + JoinWith(parts[1..], sep)
  }

  /** `s.split(sep)` for a non-empty separator: the pieces between the
      leftmost non-overlapping occurrences of `sep`. Joining the pieces
      back gives `s`, and no piece contains `sep`. */
  function SplitOn<T(==)>(s: seq<T>, sep: seq<T>): (r: seq<seq<T>>)
    requires |sep| > 0
    ensures |r| >= 1
    ensures JoinWith(r, sep) == s
    ensures forall k :: 0 <= k < |r| ==> IndexOf(r[k], sep).None?
    decreases |s|
  {
    match IndexOf(s, sep)
    case None => [s]
    case Some(i) =>
      var rest := SplitOn(s[i + |sep|..], sep);
      PrefixBeforeFirstIsFree(s, sep, i);
      assert s == s[..i] + sep + s[i + |sep|..];
      assert ([s[..i]] + rest)[1..] == rest;
      [s[..i]] + rest
  }

  /** Everything before the first occurrence of `sep` is free of `sep`. */
  lemma PrefixBeforeFirstIsFree<T>(s: seq<T>, sep: seq<T>, i: nat)
    requires |sep| > 0 && IndexOf(s, sep) == Some(i)
    ensures IndexOf(s[..i], sep).None?
  {
    var t := s[..i];
    forall j | 0 <= j && j + |sep| <= |t|
      ensures !OccursAt(t, sep, j)
    {
      SliceOfPrefix(s, i, j, j + |sep|);
      assert !OccursAt(s, sep, j);
    }
    NoOccurrenceNone(t, sep);
  }

  lemma NoOccurrenceNone<T>(t: seq<T>, sep: seq<T>)
    requires forall j :: 0 <= j && j + |sep| <= |t| ==> !OccursAt(t, sep, j)
    ensures IndexOf(t, sep).None?
  {
  }

  lemma SliceOfPrefix<T>(s: seq<T>, n: nat, a: nat, b: nat)
    requires a <= b <= n <= |s|
    ensures s[..n][a..b] == s[a..b]
  {
  }

  /** The first piece of a split is the text before the first separator, and
      re-joining the remaining pieces gives the text after it: this is what
      `const [k, ...v] = l.split(':'); v.join(':')` computes. */
  lemma SplitOnFirst<T>(s: seq<T>, sep: seq<T>)
    requires |sep| > 0
    ensures IndexOf(s, sep).None? ==> SplitOn(s, sep) == [s]
    ensures IndexOf(s, sep).Some? ==>
      var i := IndexOf(s, sep).value;
      && |SplitOn(s, sep)| >= 2
      && SplitOn(s, sep)[0] == s[..i]
      && JoinWith(SplitOn(s, sep)[1..], sep) == s[i + |sep|..]
  {
    if IndexOf(s, sep).Some? {
      var i := IndexOf(s, sep).value;
      assert SplitOn(s, sep)[1..] == SplitOn(s[i + |sep|..], sep);
    }
  }

  /** Splitting undoes joining when the separator's first element appears in
      no piece (true of CRLF over lines without CR, and of any single
      character absent from the pieces). */
  lemma {:induction false} SplitJoinRoundTrip<T>(parts: seq<seq<T>>, sep: seq<T>)
    requires |parts| >= 1 && |sep| > 0
    requires forall k :: 0 <= k < |parts| ==> sep[0] !in parts[k]
    ensures SplitOn(JoinWith(parts, sep), sep) == parts
    decreases |parts|
  {
    if |parts| == 1 {
      NoFirstElementNoOccurrence(parts[0], sep);
    } else {
      var s := JoinWith(parts, sep);
      var p := parts[0];
      assert s == p + sep + JoinWith(parts[1..], sep);
      assert s[|p|..|p| + |sep|] == sep;
      assert OccursAt(s, sep, |p|);
      forall j | 0 <= j < |p|
        ensures !OccursAt(s, sep, j)
      {
        assert s[j] == p[j];
      }
      assert IndexOf(s, sep) == Some(|p|);
      assert s[|p| + |sep|..] == JoinWith(parts[1..], sep);
      assert s[..|p|] == p;
      SplitJoinRoundTrip(parts[1..], sep);
    }
  }

  /** Splitting text whose first piece lacks the separator's first element
      yields that piece followed by the split of the remainder. */
  lemma SplitOnCons<T>(a: seq<T>, sep: seq<T>, b: seq<T>)
    requires |sep| > 0 && sep[0] !in a
    ensures SplitOn(a + sep + b, sep) == [a] + SplitOn(b, sep)
  {
    var s := a + sep + b;
    assert s[|a|..|a| + |sep|] == sep;
    forall j | 0 <= j < |a|
      ensures !OccursAt(s, sep, j)
    {
      assert s[j] == a[j];
    }
    FirstOccurrence(s, sep, |a|);
    assert s[|a| + |sep|..] == b;
    assert s[..|a|] == a;
  }

  /** Splitting at a found separator: the text before it, then the split
      of the text after it. */
  lemma SplitOnAt<T>(s: seq<T>, sep: seq<T>, i: nat)
    requires |sep| > 0 && IndexOf(s, sep) == Some(i)
    ensures SplitOn(s, sep) == [s[..i]] + SplitOn(s[i + |sep|..], sep)
  {
  }

  /** A single element that is present is found. */
  lemma PresentFound<T>(s: seq<T>, c: T)
    requires c in s
    ensures IndexOf(s, [c]).Some?
  {
    var j :| 0 <= j < |s| && s[j] == c;
    assert s[j..j + 1] == [c];
    assert OccursAt(s, [c], j);
  }

  /** A single-element pattern that `indexOf` cannot find is absent. */
  lemma NotFoundAbsent<T>(s: seq<T>, c: T)
    requires IndexOf(s, [c]).None?
    ensures c !in s
  {
    forall j | 0 <= j < |s|
      ensures s[j] != c
    {
      assert !OccursAt(s, [c], j);
      assert s[j..j + 1] == [s[j]];
    }
  }

  /** A sequence that lacks the separator's first element contains no separator. */
  lemma NoFirstElementNoOccurrence<T>(s: seq<T>, sep: seq<T>)
    requires |sep| > 0 && sep[0] !in s
    ensures IndexOf(s, sep).None?
  {
    forall j | 0 <= j && j + |sep| <= |s|
      ensures !OccursAt(s, sep, j)
    {
      assert s[j..j + |sep|][0] == s[j];
    }
  }
}
