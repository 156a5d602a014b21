/** The name-collision rule of download_file: which path a download is written
    to when the requested one is already taken. */
module Collision {
  import opened Decimal
  import opened PosixPath

  /** The counter tag " (k)" of f"{base} ({counter}){ext}": it holds neither
      a separator nor a dot. */
  function Tag(k: nat): (t: string)
    ensures Sep !in t && ExtSep !in t && |t| == |NatToString(k)| + 3 && t[|t| - 1] == ')'
  {
    var digits := NatToString(k);
    assert forall i :: 0 <= i < |digits| ==> IsDigit(digits[i]);
    var t := " (" + digits + ")";
    assert forall i :: 0 <= i < |t| ==> t[i] == ' ' || t[i] == '(' || t[i] == ')' || IsDigit(t[i]) by {
      forall i | 0 <= i < |t|
        ensures t[i] == ' ' || t[i] == '(' || t[i] == ')' || IsDigit(t[i])
      {
        if 2 <= i < 2 + |digits| {
          assert t[i] == digits[i - 2];
        }
      }
    }
    t
  }

  /** The k-th path download_file considers for `original`: the requested path
      itself for k = 0, and `base (k)ext` for k >= 1, always built from the
      splitext of the original path, never from an earlier probe. */
  function Candidate(original: string, k: nat): string {
    if k == 0 then original
    else
      var parts := SplitExt(original);
      parts.0 + Tag(k) + parts.1
  }

  /** A probe for k >= 1 is longer than the original by its tag. */
  lemma CandidateLength(original: string, k: nat)
    requires k >= 1
    ensures |Candidate(original, k)| == |original| + |Tag(k)|
  {
  }

  /** splitext of a probe: the counter tag sits between the original root and
      the original extension, and splitext finds that extension again, so the
      probe keeps the file type of the requested name. */
  lemma CandidateSplitExt(original: string, k: nat)
    requires k >= 1
    ensures SplitExt(Candidate(original, k)) == (SplitExt(original).0 + Tag(k), SplitExt(original).1)
  {
    var (root, ext) := SplitExt(original);
    if ext == [] {
      assert root + Tag(k) + ext == root + Tag(k);
      SplitExtAppendPlain(root, Tag(k));
    } else {
      SplitExtInsertBeforeExt(root, Tag(k), ext);
    }
  }

  /** The digits inside a tag spell its counter. */
  lemma TagInjective(j: nat, k: nat)
    requires Tag(j) == Tag(k)
    ensures j == k
  {
    var dj, dk := NatToString(j), NatToString(k);
    assert Tag(j)[2..2 + |dj|] == dj;
    assert Tag(k)[2..2 + |dk|] == dk;
    NatToStringInjective(j, k);
  }

  /** Different counters give different paths. */
  lemma CandidateInjective(original: string, j: nat, k: nat)
    requires Candidate(original, j) == Candidate(original, k)
    ensures j == k
  {
    if j != 0 && k != 0 {
      var root := SplitExt(original).0;
      var c := Candidate(original, j);
      CandidateLength(original, j);
      CandidateLength(original, k);
      assert |Tag(j)| == |Tag(k)|;
      assert c[|root|..|root| + |Tag(j)|] == Tag(j);
      assert Candidate(original, k)[|root|..|root| + |Tag(k)|] == Tag(k);
      TagInjective(j, k);
    }
  }

  /** The candidates 0..n, as a set. */
  ghost function CandidatesUpTo(original: string, n: nat): set<string> {
    if n == 0 then {original} else CandidatesUpTo(original, n - 1) + {Candidate(original, n)}
  }

  /** A later candidate is never among the earlier ones. */
  lemma {:induction false} LaterCandidateIsNew(original: string, n: nat, k: nat)
    requires n < k
    ensures Candidate(original, k) !in CandidatesUpTo(original, n)
  {
    if Candidate(original, k) == Candidate(original, n) {
      CandidateInjective(original, k, n);
    }
    if n > 0 {
      LaterCandidateIsNew(original, n - 1, k);
      assert CandidatesUpTo(original, n) == CandidatesUpTo(original, n - 1) + {Candidate(original, n)};
    }
  }

  lemma AddNewElement<T>(prev: set<T>, x: T, next: set<T>)
    requires next == prev + {x} && x !in prev
    ensures |next| == |prev| + 1
  {
  }

  lemma {:induction false} CandidatesUpToSize(original: string, n: nat)
    ensures |CandidatesUpTo(original, n)| == n + 1
  {
    if n > 0 {
      CandidatesUpToSize(original, n - 1);
      LaterCandidateIsNew(original, n - 1, n);
      AddNewElement(CandidatesUpTo(original, n - 1), Candidate(original, n), CandidatesUpTo(original, n));
    }
  }

  lemma {:induction false} CandidatesUpToTaken(existing: set<string>, original: string, n: nat)
    requires forall j :: 0 <= j <= n ==> Candidate(original, j) in existing
    ensures CandidatesUpTo(original, n) <= existing
  {
    assert Candidate(original, n) in existing;
    if n > 0 {
      CandidatesUpToTaken(existing, original, n - 1);
      assert CandidatesUpTo(original, n) == CandidatesUpTo(original, n - 1) + {Candidate(original, n)};
    }
  }

  /** Pigeonhole: a finite set of paths cannot hold more than |existing| of the
      candidates, so if candidates 0..n are all taken then n < |existing|. */
  lemma AllTakenBound(existing: set<string>, original: string, n: nat)
    requires forall j :: 0 <= j <= n ==> Candidate(original, j) in existing
    ensures n < |existing|
  {
    var c := CandidatesUpTo(original, n);
    CandidatesUpToTaken(existing, original, n);
    CandidatesUpToSize(original, n);
    assert existing == c + (existing - c);
  }

  /** The candidates lo..hi-1, as a set. */
  ghost function CandidateRange(original: string, lo: nat, hi: nat): set<string>
    decreases hi - lo
  {
    if lo >= hi then {} else {Candidate(original, lo)} + CandidateRange(original, lo + 1, hi)
  }

  /** k is the counter download_file stops at: candidate k is free and every
      earlier candidate is taken. */
  ghost predicate IsFirstFree(existing: set<string>, original: string, k: nat) {
    && Candidate(original, k) !in existing
    && forall j :: 0 <= j < k ==> Candidate(original, j) in existing
  }

  /** The first free counter at or after k, given that all before k are taken. */
  function FreeIndexFrom(existing: set<string>, original: string, k: nat): (r: nat)
    requires forall j :: 0 <= j < k ==> Candidate(original, j) in existing
    ensures k <= r <= |existing|
    ensures IsFirstFree(existing, original, r)
    decreases |existing| - k
  {
    if Candidate(original, k) !in existing then
      if k == 0 then k else AllTakenBound(existing, original, k - 1); k
    else
      AllTakenBound(existing, original, k);
      FreeIndexFrom(existing, original, k + 1)
  }

  /** The first free counter: it always exists and is at most |existing|. */
  function FreeIndex(existing: set<string>, original: string): (r: nat)
    ensures r <= |existing|
    ensures IsFirstFree(existing, original, r)
  {
    FreeIndexFrom(existing, original, 0)
  }

  /** At most one counter is the first free one. */
  lemma FirstFreeUnique(existing: set<string>, original: string, j: nat, k: nat)
    requires IsFirstFree(existing, original, j) && IsFirstFree(existing, original, k)
    ensures j == k
  {
  }

  /** The path download_file writes to when asked for `requested`. */
  function ResolvePath(existing: set<string>, requested: string): (r: string)
    ensures r !in existing
    ensures requested !in existing ==> r == requested
    ensures requested in existing ==> exists k :: 1 <= k <= |existing| && r == Candidate(requested, k)
  {
    var k := FreeIndex(existing, requested);
    assert requested in existing ==> k != 0;
    Candidate(requested, k)
  }

  /** ResolvePath picks the smallest counter whose candidate is free. */
  lemma ResolvePathIsFirstFree(existing: set<string>, requested: string, k: nat)
    requires IsFirstFree(existing, requested, k)
    ensures ResolvePath(existing, requested) == Candidate(requested, k)
  {
    FirstFreeUnique(existing, requested, k, FreeIndex(existing, requested));
  }
}
