/** Python's str.replace, used by determine_api_url to rewrite the input URL,
    together with str.split and str.join, which give it an independent
    reference definition: s.replace(p, q) == q.join(s.split(p)). */
module StrReplace {

  predicate StartsWith(s: string, prefix: string) {
    |prefix| <= |s| && s[..|prefix|] == prefix
  }

  /** pat occurs in s starting at index i. */
  predicate OccursAt(s: string, pat: string, i: int) {
    0 <= i <= |s| - |pat| && s[i..i + |pat|] == pat
  }

  /** pat occurs in s at some position. */
  predicate Occurs(s: string, pat: string) {
    exists i | 0 <= i <= |s| - |pat| :: OccursAt(s, pat, i)
  }

  /** s.replace(pat, rep): scanning left to right, every non-overlapping
      occurrence of pat is replaced by rep. */
  function ReplaceAll(s: string, pat: string, rep: string): (r: string)
    requires pat != []
    ensures pat == rep ==> r == s
    decreases |s|
  {
    if |s| < |pat| then s
    else if StartsWith(s, pat) then
      assert s == s[..|pat|] + s[|pat|..];
      rep + ReplaceAll(s[|pat|..], pat, rep)
    else [s[0]] + ReplaceAll(s[1..], pat, rep)
  }

  /** s.split(sep): the pieces between the non-overlapping occurrences of sep. */
  function Split(s: string, sep: string): (parts: seq<string>)
    requires sep != []
    ensures |parts| >= 1
    decreases |s|
  {
    if |s| < |sep| then [s]
    else if StartsWith(s, sep) then [[]] + Split(s[|sep|..], sep)
    else
      var rest := Split(s[1..], sep);
      [[s[0]] + rest[0]] + rest[1..]
  }

  /** sep.join(parts). */
  function JoinWith(parts: seq<string>, sep: string): string
    requires |parts| >= 1
  {
    if |parts| == 1 then parts[0] else parts[0] + sep + JoinWith(parts[1..], sep)
  }

  lemma JoinWithConsChar(c: char, parts: seq<string>, sep: string)
    requires |parts| >= 1
    ensures JoinWith([[c] + parts[0]] + parts[1..], sep) == [c] + JoinWith(parts, sep)
  {
    var ps := [[c] + parts[0]] + parts[1..];
    assert ps[1..] == parts[1..];
  }

  /** ReplaceAll agrees with the reference definition rep.join(s.split(pat)). */
  lemma {:induction false} ReplaceAllIsJoinOfSplit(s: string, pat: string, rep: string)
    requires pat != []
    ensures ReplaceAll(s, pat, rep) == JoinWith(Split(s, pat), rep)
    decreases |s|
  {
    if |s| < |pat| {
    } else if StartsWith(s, pat) {
      ReplaceAllIsJoinOfSplit(s[|pat|..], pat, rep);
      var ps := [[]] + Split(s[|pat|..], pat);
      assert ps[1..] == Split(s[|pat|..], pat);
    } else {
      ReplaceAllIsJoinOfSplit(s[1..], pat, rep);
      JoinWithConsChar(s[0], Split(s[1..], pat), rep);
    }
  }

  /** Joining the pieces back with the separator restores the string. */
  lemma {:induction false} SplitJoinRoundTrip(s: string, sep: string)
    requires sep != []
    ensures JoinWith(Split(s, sep), sep) == s
    decreases |s|
  {
    if |s| < |sep| {
    } else if StartsWith(s, sep) {
      SplitJoinRoundTrip(s[|sep|..], sep);
      var ps := [[]] + Split(s[|sep|..], sep);
      assert ps[1..] == Split(s[|sep|..], sep);
      assert s == sep + s[|sep|..];
    } else {
      SplitJoinRoundTrip(s[1..], sep);
      JoinWithConsChar(s[0], Split(s[1..], sep), sep);
      assert s == [s[0]] + s[1..];
    }
  }

  lemma {:induction false} SplitFirstIsPrefix(s: string, sep: string)
    requires sep != []
    ensures StartsWith(s, Split(s, sep)[0])
    decreases |s|
  {
    if |s| >= |sep| && !StartsWith(s, sep) {
      SplitFirstIsPrefix(s[1..], sep);
    }
  }

  /** No piece of s.split(sep) contains sep: every occurrence was a cut point. */
  lemma {:induction false} SplitPiecesAreFree(s: string, sep: string)
    requires sep != []
    ensures forall k :: 0 <= k < |Split(s, sep)| ==> !Occurs(Split(s, sep)[k], sep)
    decreases |s|
  {
    var parts := Split(s, sep);
    if |s| < |sep| {
      assert !Occurs(s, sep);
    } else if StartsWith(s, sep) {
      SplitPiecesAreFree(s[|sep|..], sep);
      assert !Occurs([], sep);
      assert forall k :: 1 <= k < |parts| ==> parts[k] == Split(s[|sep|..], sep)[k - 1];
    } else {
      var rest := Split(s[1..], sep);
      SplitPiecesAreFree(s[1..], sep);
      SplitFirstIsPrefix(s[1..], sep);
      var first := [s[0]] + rest[0];
      assert first == s[..|first|];
      forall i | 0 <= i <= |first| - |sep|
        ensures !OccursAt(first, sep, i)
      {
        if i == 0 {
          assert first[..|sep|] == s[..|sep|];
        } else {
          assert first[i..i + |sep|] == rest[0][i - 1..i - 1 + |sep|];
          assert !OccursAt(rest[0], sep, i - 1);
        }
      }
      assert forall k :: 1 <= k < |parts| ==> parts[k] == rest[k];
    }
  }

  /** A string without an occurrence of sep is its own single piece. */
  lemma {:induction false} SplitWithoutOccurrence(s: string, sep: string)
    requires sep != [] && !Occurs(s, sep)
    ensures Split(s, sep) == [s]
    decreases |s|
  {
    if |s| >= |sep| {
      assert !OccursAt(s, sep, 0);
      assert s[0..|sep|] == s[..|sep|];
      forall i | 0 <= i <= |s| - 1 - |sep|
        ensures !OccursAt(s[1..], sep, i)
      {
        assert s[1..][i..i + |sep|] == s[i + 1..i + 1 + |sep|];
        assert !OccursAt(s, sep, i + 1);
      }
      SplitWithoutOccurrence(s[1..], sep);
      assert [s[0]] + s[1..] == s;
    }
  }

  /** Replacing in a string that does not contain pat changes nothing. */
  lemma ReplaceAllWithoutOccurrence(s: string, pat: string, rep: string)
    requires pat != []
    ensures !Occurs(s, pat) ==> ReplaceAll(s, pat, rep) == s
  {
    if !Occurs(s, pat) {
      ReplaceAllIsJoinOfSplit(s, pat, rep);
      SplitWithoutOccurrence(s, pat);
    }
  }

  /** One step of the scan at a character that cannot start pat. */
  lemma ReplaceAllNoMatchAtHead(s: string, pat: string, rep: string)
    requires pat != [] && s != [] && s[0] != pat[0]
    ensures ReplaceAll(s, pat, rep) == [s[0]] + ReplaceAll(s[1..], pat, rep)
  {
    if |s| >= |pat| {
      assert s[..|pat|][0] != pat[0];
    }
  }

  /** A prefix in which pat cannot start is copied unchanged. */
  lemma {:induction false} ReplaceAllSkipsPrefix(a: string, b: string, pat: string, rep: string)
    requires pat != [] && pat[0] !in a
    ensures ReplaceAll(a + b, pat, rep) == a + ReplaceAll(b, pat, rep)
    decreases |a|
  {
    if a == [] {
      assert a + b == b;
    } else {
      var s := a + b;
      assert s[0] == a[0];
      assert s[1..] == a[1..] + b;
      ReplaceAllSkipsPrefix(a[1..], b, pat, rep);
      ReplaceAllNoMatchAtHead(s, pat, rep);
      assert a == [a[0]] + a[1..];
    }
  }

  /** When pat and rep begin with the first character of s, so does the result. */
  lemma ReplaceAllKeepsFirst(s: string, pat: string, rep: string)
    requires pat != [] && rep != [] && s != []
    requires pat[0] == s[0] && rep[0] == s[0]
    ensures ReplaceAll(s, pat, rep) != [] && ReplaceAll(s, pat, rep)[0] == s[0]
  {
  }

  /** One step of the scan at a position where pat does not start. */
  lemma ReplaceAllNoMatchAtStart(s: string, pat: string, rep: string)
    requires |pat| >= 2 && |s| >= 2 && s[1] != pat[1]
    ensures ReplaceAll(s, pat, rep) == [s[0]] + ReplaceAll(s[1..], pat, rep)
  {
    if |s| >= |pat| {
      assert s[..|pat|][1] != pat[1];
    }
  }

  /** One step of the scan at a position where pat starts. */
  lemma ReplaceAllMatchAtStart(pat: string, t: string, rep: string)
    requires pat != []
    ensures ReplaceAll(pat + t, pat, rep) == rep + ReplaceAll(t, pat, rep)
  {
    var s := pat + t;
    assert s[..|pat|] == pat && s[|pat|..] == t;
  }
}
