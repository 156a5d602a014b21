/** The two functions of Python's os.path (POSIX flavour) that download_file and
    download_attachments rely on: splitext and a two-argument join. */
module PosixPath {

  const Sep: char := '/'
  const ExtSep: char := '.'

  /** str.rfind for one character: the last index holding c, or -1. */
  function LastIndexOf(s: string, c: char): (r: int)
    ensures -1 <= r < |s|
    ensures r >= 0 ==> s[r] == c
    ensures forall k :: r < k < |s| ==> s[k] != c
  {
    if |s| == 0 then -1
    else if s[|s| - 1] == c then |s| - 1
    else LastIndexOf(s[..|s| - 1], c)
  }

  /** The postcondition of LastIndexOf pins its result down. */
  lemma LastIndexUnique(s: string, c: char, r: int)
    requires r == -1 || (0 <= r < |s| && s[r] == c)
    requires forall k :: r < k < |s| ==> s[k] != c
    ensures LastIndexOf(s, c) == r
  {
  }

  /** os.path.splitext: the extension runs from the last dot of the last path
      component; leading dots of that component belong to the root. */
  function SplitExt(p: string): (r: (string, string))
    ensures r.0 + r.1 == p
    ensures r.1 == [] || (r.1[0] == ExtSep && Sep !in r.1 && ExtSep !in r.1[1..])
    ensures r.1 != [] ==> exists k :: LastIndexOf(p, Sep) < k < |r.0| && p[k] != ExtSep
    ensures r.1 == [] ==> forall k :: LastIndexOf(p, Sep) < k < LastIndexOf(p, ExtSep) ==> p[k] == ExtSep
  {
    var sepIndex := LastIndexOf(p, Sep);
    var dotIndex := LastIndexOf(p, ExtSep);
    if dotIndex > sepIndex && exists k :: sepIndex + 1 <= k < dotIndex && p[k] != ExtSep then
      (p[..dotIndex], p[dotIndex..])
    else
      (p, [])
  }

  /** A tail without c does not move the last c. */
  lemma LastIndexSkipsTail(head: string, tail: string, c: char)
    requires c !in tail
    ensures LastIndexOf(head + tail, c) == LastIndexOf(head, c)
  {
    var s := head + tail;
    var r := LastIndexOf(head, c);
    forall i | r < i < |s|
      ensures s[i] != c
    {
      if i >= |head| {
        assert s[i] == tail[i - |head|];
      }
    }
    LastIndexUnique(s, c, r);
  }

  /** Inserting text without separators before a tail without separators
      leaves the last separator where it was, inside the root. */
  lemma InsertKeepsLastSep(root: string, t: string, ext: string)
    requires Sep !in t && Sep !in ext
    ensures LastIndexOf(root + t + ext, Sep) == LastIndexOf(root + ext, Sep) < |root|
  {
    assert root + t + ext == root + (t + ext);
    LastIndexSkipsTail(root, t + ext, Sep);
    LastIndexSkipsTail(root, ext, Sep);
  }

  /** The last dot of a name ending in an extension is the extension's dot. */
  lemma LastDotOfExt(head: string, ext: string)
    requires ext != [] && ext[0] == ExtSep && ExtSep !in ext[1..]
    ensures LastIndexOf(head + ext, ExtSep) == |head|
  {
    var c := head + ext;
    forall i | |head| < i < |c|
      ensures c[i] != ExtSep
    {
      assert c[i] == ext[1..][i - |head| - 1];
    }
    LastIndexUnique(c, ExtSep, |head|);
  }

  /** Text with no separator and no dot, inserted just before an extension,
      joins the root and leaves the extension alone. */
  lemma SplitExtInsertBeforeExt(root: string, t: string, ext: string)
    requires SplitExt(root + ext) == (root, ext) && ext != []
    requires Sep !in t && ExtSep !in t && t != []
    ensures SplitExt(root + t + ext) == (root + t, ext)
  {
    var c := root + t + ext;
    var n := |root| + |t|;
    InsertKeepsLastSep(root, t, ext);
    assert c == (root + t) + ext;
    LastDotOfExt(root + t, ext);
    assert c[n - 1] != ExtSep by {
      assert c[n - 1] == (root + t)[n - 1] == t[|t| - 1];
      assert t[|t| - 1] in t;
    }
    assert c[..n] == root + t && c[n..] == ext;
  }

  /** Text with no separator and no dot, appended to a name without an
      extension, gives a name without an extension. */
  lemma SplitExtAppendPlain(p: string, t: string)
    requires SplitExt(p) == (p, [])
    requires Sep !in t && ExtSep !in t
    ensures SplitExt(p + t) == (p + t, [])
  {
    var c := p + t;
    var s0 := LastIndexOf(p, Sep);
    var d0 := LastIndexOf(p, ExtSep);
    assert forall i :: 0 <= i < |p| ==> c[i] == p[i];
    forall i | |p| <= i < |c|
      ensures c[i] != Sep && c[i] != ExtSep
    {
      assert c[i] == t[i - |p|];
    }
    LastIndexUnique(c, Sep, s0);
    LastIndexUnique(c, ExtSep, d0);
    forall i | s0 < i < d0
      ensures c[i] == ExtSep
    {
      assert p[i] == ExtSep;
    }
  }

  /** os.path.basename: what follows the last separator. */
  function BaseName(p: string): (r: string)
    ensures Sep !in r
  {
    p[LastIndexOf(p, Sep) + 1..]
  }

  /** os.path.join(a, b): an absolute b replaces a; otherwise one separator is
      put between them unless a is empty or already ends with one. */
  function Join(a: string, b: string): (r: string)
    ensures |b| <= |r| && r[|r| - |b|..] == b
    ensures |b| > 0 && b[0] == Sep ==> r == b
    ensures b == [] || b[0] != Sep ==> |a| + |b| <= |r| <= |a| + 1 + |b| && r[..|a|] == a
    ensures |r| == |a| + 1 + |b| ==> r[|a|] == Sep
    ensures b == [] || b[0] != Sep ==> (|r| == |a| + 1 + |b| <==> a != [] && a[|a| - 1] != Sep)
  {
    if |b| > 0 && b[0] == Sep then b
    else if a == [] || a[|a| - 1] == Sep then a + b
    else a + [Sep] + b
  }

  /** A plain file name joined onto a directory is the basename of the result. */
  lemma JoinBaseName(dir: string, name: string)
    requires name != [] && Sep !in name
    ensures BaseName(Join(dir, name)) == name
  {
    assert name[0] != Sep;
    var r := Join(dir, name);
    var off := |r| - |name|;
    assert r[off..] == name;
    assert off == 0 || r[off - 1] == Sep;
    forall k | off <= k < |r|
      ensures r[k] != Sep
    {
      assert r[k] == name[k - off];
    }
    assert LastIndexOf(r, Sep) == off - 1;
  }
}
