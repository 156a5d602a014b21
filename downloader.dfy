/** downloader.py's effectful side: download_file with its collision loop and
    chunked write, the loops of download_attachments, process_post and
    process_data that call it, and main's sequence of steps. The output
    directory is a FileSystem object whose map of paths to contents these
    methods update; the network is the parameter `fetch`. */
module Downloader {
  import opened Wrappers
  import opened Errors
  import opened Decimal
  import opened PosixPath
  import opened Collision
  import opened Plan
  import opened Endpoint

  newtype byte = x: int | 0 <= x < 256

  type Bytes = seq<byte>

  /** What requests.get(url, stream=True), raise_for_status() and the
      iter_content stream deliver for one call of download_file:
      - RequestFailed: the request or raise_for_status raised (transport
        error, timeout, non-success status) before the file was opened;
      - Opened(data, complete): the status was accepted and the output file
        opened; `data` is every byte iter_content yielded, the whole body when
        `complete`, and otherwise the bytes delivered before the stream raised
        (a read timeout or a dropped connection). */
  datatype Response = RequestFailed | Opened(data: Bytes, complete: bool)

  /** The chunk_size passed to iter_content. */
  const ChunkSize: nat := 1024

  /** The directory main creates and passes to process_data. */
  const OutputDir: string := "downloaded_images"

  /** iter_content(chunk_size): the body cut, in order, into non-empty pieces
      of at most `size` bytes. */
  function Chunks(body: Bytes, size: nat): (cs: seq<Bytes>)
    requires size > 0
    ensures forall i :: 0 <= i < |cs| ==> 0 < |cs[i]| <= size
    decreases |body|
  {
    if body == [] then []
    else if |body| <= size then [body]
    else [body[..size]] + Chunks(body[size..], size)
  }

  /** The bytes of a sequence of chunks written one after the other. */
  function Flatten(cs: seq<Bytes>): Bytes {
    if cs == [] then [] else cs[0] + Flatten(cs[1..])
  }

  lemma {:induction false} FlattenAppend(xs: seq<Bytes>, ys: seq<Bytes>)
    ensures Flatten(xs + ys) == Flatten(xs) + Flatten(ys)
  {
    if xs == [] {
      assert xs + ys == ys;
    } else {
      assert (xs + ys)[1..] == xs[1..] + ys;
      FlattenAppend(xs[1..], ys);
    }
  }

  /** Writing one more chunk appends it. */
  lemma FlattenPrefix(cs: seq<Bytes>, i: nat)
    requires i < |cs|
    ensures Flatten(cs[..i + 1]) == Flatten(cs[..i]) + cs[i]
  {
    assert cs[..i + 1] == cs[..i] + [cs[i]];
    FlattenAppend(cs[..i], [cs[i]]);
    assert Flatten([cs[i]]) == cs[i] + Flatten([]) == cs[i];
  }

  /** Writing the chunks in order stores exactly the body: nothing is
      truncated or duplicated. */
  lemma {:induction false} FlattenChunks(body: Bytes, size: nat)
    requires size > 0
    ensures Flatten(Chunks(body, size)) == body
    decreases |body|
  {
    if |body| > size {
      var cs := Chunks(body, size);
      assert cs[1..] == Chunks(body[size..], size);
      FlattenChunks(body[size..], size);
      assert body == body[..size] + body[size..];
    } else if body != [] {
      assert Flatten([body]) == body + Flatten([]);
    }
  }

  /** The output directory: every existing path with the bytes stored there. */
  class FileSystem {
    var files: map<string, Bytes>

    constructor (initial: map<string, Bytes>)
      ensures files == initial
    {
      files := initial;
    }
  }

  /** The effect of one download_file(d.url, d.dest) on the directory. It never
      overwrites: every existing path keeps its contents, and a download that
      opens its file adds exactly one new path, holding the bytes streamed
      into it, even when the stream broke off. */
  function Step(files: map<string, Bytes>, d: Download, fetch: string -> Response): (r: map<string, Bytes>)
    ensures forall p :: p in files ==> p in r && r[p] == files[p]
    ensures |r| == |files| + (if fetch(d.url).Opened? then 1 else 0)
  {
    match fetch(d.url)
    case RequestFailed => files
    case Opened(data, _) => files[ResolvePath(files.Keys, d.dest) := data]
  }

  /** How many downloads of the plan open their file. */
  function Successes(plan: seq<Download>, fetch: string -> Response): nat {
    if plan == [] then 0
    else (if fetch(plan[0].url).Opened? then 1 else 0) + Successes(plan[1..], fetch)
  }

  /** The directory after the download_file calls of `plan`, in order. */
  function RunPlan(files: map<string, Bytes>, plan: seq<Download>, fetch: string -> Response): (r: map<string, Bytes>)
    ensures forall p :: p in files ==> p in r && r[p] == files[p]
    ensures |r| == |files| + Successes(plan, fetch)
    decreases |plan|
  {
    if plan == [] then files else RunPlan(Step(files, plan[0], fetch), plan[1..], fetch)
  }

  lemma {:induction false} RunPlanAppend(files: map<string, Bytes>, p: seq<Download>, q: seq<Download>, fetch: string -> Response)
    ensures RunPlan(files, p + q, fetch) == RunPlan(RunPlan(files, p, fetch), q, fetch)
    decreases |p|
  {
    if p == [] {
      assert p + q == q;
    } else {
      assert (p + q)[1..] == p[1..] + q;
      RunPlanAppend(Step(files, p[0], fetch), p[1..], q, fetch);
    }
  }

  /** Every download of the plan goes to `name` and opens its file; the
      URLs, and so the bytes, may differ from one download to the next. */
  predicate AllOpenedTo(plan: seq<Download>, name: string, fetch: string -> Response) {
    forall i :: 0 <= i < |plan| ==> plan[i].dest == name && fetch(plan[i].url).Opened?
  }

  /** A download that opens its file, when the first free counter is m, writes
      candidate m. */
  lemma StepAtFirstFree(files: map<string, Bytes>, d: Download, fetch: string -> Response, m: nat)
    requires fetch(d.url).Opened?
    requires IsFirstFree(files.Keys, d.dest, m)
    ensures Step(files, d, fetch) == files[Candidate(d.dest, m) := fetch(d.url).data]
  {
    ResolvePathIsFirstFree(files.Keys, d.dest, m);
  }

  /** The situation before the remaining |plan| downloads to `name`:
      candidates 0..m-1 are taken and candidates m..hi-1 are free. */
  ghost predicate RepeatPre(files: map<string, Bytes>, plan: seq<Download>, name: string, fetch: string -> Response, m: nat, hi: nat) {
    && AllOpenedTo(plan, name, fetch)
    && hi == m + |plan|
    && (forall j :: 0 <= j < m ==> Candidate(name, j) in files)
    && (forall j :: m <= j < hi ==> Candidate(name, j) !in files)
  }

  /** r is files plus candidates lo..hi-1 of name, candidate j holding the
      bytes of download j - lo of the plan. */
  ghost predicate Filled(files: map<string, Bytes>, r: map<string, Bytes>, plan: seq<Download>, name: string, fetch: string -> Response, lo: nat, hi: nat) {
    && hi == lo + |plan|
    && r.Keys == files.Keys + CandidateRange(name, lo, hi)
    && forall j :: lo <= j < hi ==>
         Candidate(name, j) in r && fetch(plan[j - lo].url).Opened? && r[Candidate(name, j)] == fetch(plan[j - lo].url).data
  }

  /** |plan| more downloads to `name`, when candidates 0..m-1 are taken and
      the next |plan| are free, fill exactly those next candidates in order,
      each with the bytes of its own download. */
  lemma {:induction false} RepeatedDownloadsFrom(files: map<string, Bytes>, plan: seq<Download>, name: string, fetch: string -> Response, m: nat, hi: nat)
    requires RepeatPre(files, plan, name, fetch, m, hi)
    ensures Filled(files, RunPlan(files, plan, fetch), plan, name, fetch, m, hi)
    decreases |plan|
  {
    if plan == [] {
      assert CandidateRange(name, m, hi) == {};
    } else {
      var next := files[Candidate(name, m) := fetch(plan[0].url).data];
      FirstOfRepeat(files, plan, name, fetch, m, hi);
      RepeatedDownloadsFrom(next, plan[1..], name, fetch, m + 1, hi);
      RepeatStep(files, plan, name, fetch, m, hi, RunPlan(next, plan[1..], fetch));
    }
  }

  /** The induction step of RepeatedDownloadsFrom: r, what the remaining
      downloads leave after the first one has written candidate m, fills
      candidates m..hi-1. */
  lemma RepeatStep(files: map<string, Bytes>, plan: seq<Download>, name: string, fetch: string -> Response, m: nat, hi: nat, r: map<string, Bytes>)
    requires RepeatPre(files, plan, name, fetch, m, hi) && plan != []
    requires var next := files[Candidate(name, m) := fetch(plan[0].url).data];
             && (forall p :: p in next ==> p in r && r[p] == next[p])
             && Filled(next, r, plan[1..], name, fetch, m + 1, hi)
    ensures Filled(files, r, plan, name, fetch, m, hi)
  {
    var c := Candidate(name, m);
    CandidateRangeCons(name, m, hi);
    assert r.Keys == files.Keys + CandidateRange(name, m, hi);
    assert c in r && r[c] == fetch(plan[0].url).data;
    forall j | m < j < hi
      ensures Candidate(name, j) in r && fetch(plan[j - m].url).Opened? && r[Candidate(name, j)] == fetch(plan[j - m].url).data
    {
      assert plan[1..][j - (m + 1)] == plan[j - m];
    }
  }

  lemma CandidateRangeCons(original: string, lo: nat, hi: nat)
    requires lo < hi
    ensures CandidateRange(original, lo, hi) == {Candidate(original, lo)} + CandidateRange(original, lo + 1, hi)
  {
  }

  /** The first of the downloads writes candidate m, and the later candidates
      are still free afterwards. */
  lemma FirstOfRepeat(files: map<string, Bytes>, plan: seq<Download>, name: string, fetch: string -> Response, m: nat, hi: nat)
    requires RepeatPre(files, plan, name, fetch, m, hi) && plan != []
    ensures var next := files[Candidate(name, m) := fetch(plan[0].url).data];
            && RunPlan(files, plan, fetch) == RunPlan(next, plan[1..], fetch)
            && RepeatPre(next, plan[1..], name, fetch, m + 1, hi)
  {
    StepAtFirstFree(files, plan[0], fetch, m);
    RunPlanCons(files, plan, fetch);
    NextRepeatPre(files, plan, name, fetch, m, hi);
  }

  /** RunPlan on a non-empty plan: the first step, then the rest. */
  lemma RunPlanCons(files: map<string, Bytes>, plan: seq<Download>, fetch: string -> Response)
    requires plan != []
    ensures RunPlan(files, plan, fetch) == RunPlan(Step(files, plan[0], fetch), plan[1..], fetch)
  {
  }

  /** After candidate m is written, the rest of the downloads start at m + 1. */
  lemma NextRepeatPre(files: map<string, Bytes>, plan: seq<Download>, name: string, fetch: string -> Response, m: nat, hi: nat)
    requires RepeatPre(files, plan, name, fetch, m, hi) && plan != []
    ensures RepeatPre(files[Candidate(name, m) := fetch(plan[0].url).data], plan[1..], name, fetch, m + 1, hi)
  {
    LaterStillFree(files, name, fetch(plan[0].url).data, m, hi);
    assert AllOpenedTo(plan[1..], name, fetch);
  }

  /** Writing candidate m leaves the candidates after it as free as before. */
  lemma LaterStillFree(files: map<string, Bytes>, original: string, data: Bytes, m: nat, hi: nat)
    requires forall j :: m <= j < hi ==> Candidate(original, j) !in files
    ensures forall j :: m + 1 <= j < hi ==> Candidate(original, j) !in files[Candidate(original, m) := data]
  {
    forall j | m + 1 <= j < hi
      ensures Candidate(original, j) != Candidate(original, m)
    {
      if Candidate(original, j) == Candidate(original, m) {
        CandidateInjective(original, j, m);
      }
    }
  }

  lemma {:induction false} SuccessesAllOpened(plan: seq<Download>, name: string, fetch: string -> Response)
    requires AllOpenedTo(plan, name, fetch)
    ensures Successes(plan, fetch) == |plan|
    decreases |plan|
  {
    if plan != [] {
      assert AllOpenedTo(plan[1..], name, fetch);
      SuccessesAllOpened(plan[1..], name, fetch);
    }
  }

  /** n downloads to the same name that open their file, for instance n
      attachments sharing a name but with different paths, create the n
      distinct paths name, base (1)ext, ..., base (n-1)ext when none of them
      exists yet: the j-th download's bytes end up at probe j, and every
      other path is left as it was. */
  lemma RepeatedDownloads(files: map<string, Bytes>, plan: seq<Download>, name: string, fetch: string -> Response)
    requires forall i :: 0 <= i < |plan| ==> plan[i].dest == name && fetch(plan[i].url).Opened?
    requires forall j :: 0 <= j < |plan| ==> Candidate(name, j) !in files
    ensures RunPlan(files, plan, fetch).Keys == files.Keys + CandidateRange(name, 0, |plan|)
    ensures forall j :: 0 <= j < |plan| ==>
              Candidate(name, j) in RunPlan(files, plan, fetch) && RunPlan(files, plan, fetch)[Candidate(name, j)] == fetch(plan[j].url).data
    ensures |RunPlan(files, plan, fetch)| == |files| + |plan|
  {
    RepeatedDownloadsFrom(files, plan, name, fetch, 0, |plan|);
    SuccessesAllOpened(plan, name, fetch);
    var r := RunPlan(files, plan, fetch);
    forall j | 0 <= j < |plan|
      ensures Candidate(name, j) in r && r[Candidate(name, j)] == fetch(plan[j].url).data
    {
      assert j - 0 == j;
    }
  }

  /** The duplicate-name loop of download_file: probe the requested path, then
      `base (1)ext`, `base (2)ext`, ..., always built from the splitext of the
      requested path, until one does not exist. */
  method FreePath(fs: FileSystem, outputFilePath: string) returns (path: string)
    ensures path == ResolvePath(fs.files.Keys, outputFilePath)
  {
    var originalPath := outputFilePath;
    path := outputFilePath;
    var counter: nat := 1;
    ghost var existing := fs.files.Keys;
    while path in fs.files
      invariant 1 <= counter <= |existing| + 1
      invariant path == Candidate(originalPath, counter - 1)
      invariant forall j :: 0 <= j < counter - 1 ==> Candidate(originalPath, j) in existing
      decreases |existing| + 1 - counter
    {
      AllTakenBound(existing, originalPath, counter - 1);
      var parts := SplitExt(originalPath);
      path := parts.0 + Tag(counter) + parts.1;
      counter := counter + 1;
    }
    ResolvePathIsFirstFree(existing, originalPath, counter - 1);
  }

  /** open(path, 'wb') followed by one write per chunk of iter_content: the
      file at `path` ends up holding exactly `data`, and no other path changes. */
  method WriteChunks(fs: FileSystem, path: string, data: Bytes)
    modifies fs
    ensures fs.files == old(fs.files)[path := data]
  {
    var chunks := Chunks(data, ChunkSize);
    fs.files := fs.files[path := []];
    for i := 0 to |chunks|
      invariant fs.files == old(fs.files)[path := Flatten(chunks[..i])]
    {
      FlattenPrefix(chunks, i);
      fs.files := fs.files[path := fs.files[path] + chunks[i]];
    }
    assert chunks[..|chunks|] == chunks;
    FlattenChunks(data, ChunkSize);
  }

  /** download_file: on a failed request nothing changes; otherwise the first
      free candidate of the requested path receives the streamed bytes, chunk
      by chunk, and the path is reported as saved when the stream completed. */
  method DownloadFile(fs: FileSystem, fileUrl: string, outputFilePath: string, fetch: string -> Response)
    returns (saved: Option<string>)
    modifies fs
    ensures fs.files == Step(old(fs.files), Download(fileUrl, outputFilePath), fetch)
    ensures saved == if fetch(fileUrl).Opened? && fetch(fileUrl).complete then Some(ResolvePath(old(fs.files).Keys, outputFilePath)) else None
  {
    var response := fetch(fileUrl);
    if response.RequestFailed? {
      return None;
    }
    var path := FreePath(fs, outputFilePath);
    WriteChunks(fs, path, response.data);
    if response.complete {
      saved := Some(path);
    } else {
      saved := None;
    }
  }

  /** A stream that broke off still takes the name: the partial file stays at
      the requested path, and a later download to the same name goes to
      `base (1)ext`. */
  lemma BrokenStreamKeepsName(files: map<string, Bytes>, d1: Download, d2: Download, fetch: string -> Response)
    requires d1.dest == d2.dest
    requires d1.dest !in files && Candidate(d1.dest, 1) !in files
    requires fetch(d1.url).Opened? && !fetch(d1.url).complete && fetch(d2.url).Opened?
    ensures RunPlan(files, [d1, d2], fetch)
         == files[d1.dest := fetch(d1.url).data][Candidate(d1.dest, 1) := fetch(d2.url).data]
  {
    var name := d1.dest;
    StepAtFirstFree(files, d1, fetch, 0);
    var next := files[name := fetch(d1.url).data];
    if Candidate(name, 1) == name {
      CandidateInjective(name, 1, 0);
    }
    StepAtFirstFree(next, d2, fetch, 1);
    assert [d1, d2][1..] == [d2];
    RunPlanSingle(next, d2, fetch);
  }

  /** A plan of one download runs as a single step. */
  lemma RunPlanSingle(files: map<string, Bytes>, d: Download, fetch: string -> Response)
    ensures RunPlan(files, [d], fetch) == Step(files, d, fetch)
  {
    assert [d][1..] == [];
  }

  /** One more entry of an attachment list: a skipped entry leaves the
      directory as it was, a complete one adds its download. */
  lemma RunListPrefix(start: map<string, Bytes>, list: seq<Attachment>, i: nat, baseUrl: string, outputDir: string, fetch: string -> Response)
    requires i < |list|
    ensures var before := RunPlan(start, ListPlan(list[..i], baseUrl, outputDir), fetch);
            var after := RunPlan(start, ListPlan(list[..i + 1], baseUrl, outputDir), fetch);
            && (!IsComplete(list[i]) ==> after == before)
            && (IsComplete(list[i]) ==> after == Step(before, DownloadFor(list[i], baseUrl, outputDir), fetch))
  {
    var pre := ListPlan(list[..i], baseUrl, outputDir);
    var one := EntryPlan(list[i], baseUrl, outputDir);
    ListPlanSnoc(list, i, baseUrl, outputDir);
    RunPlanAppend(start, pre, one, fetch);
    if IsComplete(list[i]) {
      RunPlanSingle(RunPlan(start, pre, fetch), DownloadFor(list[i], baseUrl, outputDir), fetch);
    } else {
      assert pre + one == pre;
    }
  }

  /** One more post of the list adds that post's downloads. */
  lemma RunPostsPrefix(start: map<string, Bytes>, posts: seq<Post>, i: nat, baseUrl: string, outputDir: string, fetch: string -> Response)
    requires i < |posts|
    ensures RunPlan(start, PostsPlan(posts[..i + 1], baseUrl, outputDir), fetch)
         == RunPlan(RunPlan(start, PostsPlan(posts[..i], baseUrl, outputDir), fetch), PostPlan(posts[i], baseUrl, outputDir), fetch)
  {
    PostsPlanSnoc(posts, i, baseUrl, outputDir);
    RunPlanAppend(start, PostsPlan(posts[..i], baseUrl, outputDir), PostPlan(posts[i], baseUrl, outputDir), fetch);
  }

  /** download_attachments: an absent, null or empty list does nothing; every
      complete record is downloaded in list order, incomplete ones are skipped. */
  method DownloadAttachments(fs: FileSystem, attachments: Option<seq<Attachment>>, baseUrl: string, outputDir: string, fetch: string -> Response)
    modifies fs
    ensures fs.files == RunPlan(old(fs.files), AttachmentsPlan(attachments, baseUrl, outputDir), fetch)
  {
    if attachments.None? || attachments.value == [] {
      return;
    }
    var list := attachments.value;
    assert list[..0] == [];
    for i := 0 to |list|
      invariant fs.files == RunPlan(old(fs.files), ListPlan(list[..i], baseUrl, outputDir), fetch)
    {
      var attachment := list[i];
      var fileName := attachment.name;
      var filePath := attachment.path;
      RunListPrefix(old(fs.files), list, i, baseUrl, outputDir, fetch);
      if !Truthy(fileName) || !Truthy(filePath) {
        continue;
      }
      var fileUrl := baseUrl + filePath.value;
      var outputFilePath := Join(outputDir, fileName.value);
      var _ := DownloadFile(fs, fileUrl, outputFilePath, fetch);
    }
    assert list[..|list|] == list;
  }

  /** process_post: the attachments first, then the `file` record when it is
      present and complete. */
  method ProcessPost(fs: FileSystem, post: Post, baseUrl: string, outputDir: string, fetch: string -> Response)
    modifies fs
    ensures fs.files == RunPlan(old(fs.files), PostPlan(post, baseUrl, outputDir), fetch)
  {
    var attachments := post.attachments;
    var fileData := post.file;
    DownloadAttachments(fs, attachments, baseUrl, outputDir, fetch);
    ghost var afterAttachments := fs.files;
    RunPlanAppend(old(fs.files), AttachmentsPlan(attachments, baseUrl, outputDir), FilePlan(fileData, baseUrl, outputDir), fetch);
    if fileData.Some? {
      var fileName := fileData.value.name;
      var filePath := fileData.value.path;
      if Truthy(fileName) && Truthy(filePath) {
        var fileUrl := baseUrl + filePath.value;
        var outputFilePath := Join(outputDir, fileName.value);
        RunPlanSingle(afterAttachments, Download(fileUrl, outputFilePath), fetch);
        var _ := DownloadFile(fs, fileUrl, outputFilePath, fetch);
      }
    }
  }

  /** process_data: one post for an object holding "post", every post in list
      order for a list, and UnexpectedFormat (exit(1)) with nothing written for
      any other value. */
  method ProcessData(fs: FileSystem, data: Payload, baseUrl: string, outputDir: string, fetch: string -> Response)
    returns (outcome: Outcome<FatalError>)
    modifies fs
    ensures PayloadPlan(data, baseUrl, outputDir).Failure? ==> outcome == Fail(UnexpectedFormat) && fs.files == old(fs.files)
    ensures PayloadPlan(data, baseUrl, outputDir).Success? ==>
              outcome == Pass && fs.files == RunPlan(old(fs.files), PayloadPlan(data, baseUrl, outputDir).value, fetch)
  {
    if data.Object? && data.post.Some? {
      ProcessPost(fs, data.post.value, baseUrl, outputDir, fetch);
      return Pass;
    } else if data.Array? {
      var posts := data.posts;
      for i := 0 to |posts|
        invariant fs.files == RunPlan(old(fs.files), PostsPlan(posts[..i], baseUrl, outputDir), fetch)
      {
        RunPostsPrefix(old(fs.files), posts, i, baseUrl, outputDir, fetch);
        ProcessPost(fs, posts[i], baseUrl, outputDir, fetch);
      }
      assert posts[..|posts|] == posts;
      return Pass;
    } else {
      return Fail(UnexpectedFormat);
    }
  }

  /** What one run of main does to the output directory: the outcome (Pass, or
      the fatal error behind exit(1)) and the directory afterwards. A fatal
      error always comes before any download, so it leaves the directory as
      it was; a run never overwrites a file that was already there. */
  function Execute(files: map<string, Bytes>, inputUrl: string, fetchData: string -> Option<Payload>, fetch: string -> Response): (r: (Outcome<FatalError>, map<string, Bytes>))
    ensures r.0.Fail? ==> r.1 == files
    ensures !Supported(inputUrl) <==> r.0 == Fail(InvalidUrl)
    ensures forall p :: p in files ==> p in r.1 && r.1[p] == files[p]
  {
    match DetermineApiUrl(inputUrl)
    case Failure(e) => (Fail(e), files)
    case Success((apiUrl, baseUrl)) =>
      match fetchData(apiUrl)
      case None => (Fail(FetchFailed), files)
      case Some(data) =>
        match PayloadPlan(data, baseUrl, OutputDir)
        case Failure(e) => (Fail(e), files)
        case Success(plan) => (Pass, RunPlan(files, plan, fetch))
  }

  /** main, after input().strip() and os.makedirs: resolve the API URL, fetch
      the metadata, and process it into OutputDir. */
  method RunDownloader(fs: FileSystem, inputUrl: string, fetchData: string -> Option<Payload>, fetch: string -> Response)
    returns (outcome: Outcome<FatalError>)
    modifies fs
    ensures (outcome, fs.files) == Execute(old(fs.files), inputUrl, fetchData, fetch)
  {
    var urls := DetermineApiUrl(inputUrl);
    if urls.Failure? {
      return Fail(urls.error);
    }
    var (apiUrl, baseUrl) := urls.value;
    var outputDir := OutputDir;
    var data := fetchData(apiUrl);
    if data.None? {
      return Fail(FetchFailed);
    }
    outcome := ProcessData(fs, data.value, baseUrl, outputDir, fetch);
  }

  /** Every path a plan creates is a candidate of one of its destinations. */
  lemma {:induction false} RunPlanNewPaths(files: map<string, Bytes>, plan: seq<Download>, fetch: string -> Response)
    ensures forall p :: p in RunPlan(files, plan, fetch) && p !in files ==>
              exists i, k :: 0 <= i < |plan| && 0 <= k && p == Candidate(plan[i].dest, k)
    decreases |plan|
  {
    if plan != [] {
      var next := Step(files, plan[0], fetch);
      RunPlanNewPaths(next, plan[1..], fetch);
      assert RunPlan(files, plan, fetch) == RunPlan(next, plan[1..], fetch);
      forall p | p in RunPlan(files, plan, fetch) && p !in files
        ensures exists i, k :: 0 <= i < |plan| && 0 <= k && p == Candidate(plan[i].dest, k)
      {
        if p in next {
          var k := FreeIndex(files.Keys, plan[0].dest);
          assert p == Candidate(plan[0].dest, k);
        } else {
          var i, k :| 0 <= i < |plan[1..]| && 0 <= k && p == Candidate(plan[1..][i].dest, k);
          assert p == Candidate(plan[i + 1].dest, k);
        }
      }
    }
  }
}
