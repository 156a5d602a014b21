/** What download_attachments, process_post and process_data decide to
    download, as pure functions of the already-parsed metadata: each returns
    the ordered list of download_file calls the source makes. */
module Plan {
  import opened Wrappers
  import opened Errors
  import opened PosixPath

  /** An attachment record, or a post's `file` record. A `name` or `path` that
      is absent, null or any other falsy JSON value (0, false, "", [], {}) is
      None: the code treats them all alike. A present `path` is the text the
      f-string makes of it. */
  datatype Attachment = Attachment(name: Option<string>, path: Option<string>)

  /** A post: `attachments` may be absent, null or another falsy value (None);
      `file` may be absent or falsy (None), or a record whose fields are
      missing (Some with fields None). */
  datatype Post = Post(attachments: Option<seq<Attachment>>, file: Option<Attachment>)

  /** The parsed metadata response. */
  datatype Payload =
    | Object(post: Option<Post>)  // a JSON object; None exactly when it has no "post" key
    | Array(posts: seq<Post>)     // a JSON list of posts
    | Scalar                      // any other JSON value

  /** One call download_file(url, dest). */
  datatype Download = Download(url: string, dest: string)

  /** Python truthiness of an optional string: present and non-empty. */
  predicate Truthy(field: Option<string>) {
    field.Some? && field.value != []
  }

  /** The record has a usable name and path; otherwise it is skipped. */
  predicate IsComplete(a: Attachment) {
    Truthy(a.name) && Truthy(a.path)
  }

  /** The download for a complete record: f"{base_url}{path}" fetched into
      os.path.join(output_dir, name). */
  function DownloadFor(a: Attachment, baseUrl: string, outputDir: string): (d: Download)
    requires IsComplete(a)
    ensures |baseUrl| <= |d.url| && d.url[..|baseUrl|] == baseUrl && d.url[|baseUrl|..] == a.path.value
    ensures |a.name.value| <= |d.dest| && d.dest[|d.dest| - |a.name.value|..] == a.name.value
  {
    Download(baseUrl + a.path.value, Join(outputDir, a.name.value))
  }

  /** The rule shared by attachments and the `file` record: one download if
      the record is complete, none otherwise. */
  function EntryPlan(a: Attachment, baseUrl: string, outputDir: string): (plan: seq<Download>)
    ensures |plan| <= 1 && (plan != [] <==> IsComplete(a))
  {
    if IsComplete(a) then [DownloadFor(a, baseUrl, outputDir)] else []
  }

  /** The loop of download_attachments over a list. */
  function ListPlan(list: seq<Attachment>, baseUrl: string, outputDir: string): (plan: seq<Download>)
    ensures |plan| <= |list|
  {
    if list == [] then []
    else EntryPlan(list[0], baseUrl, outputDir) + ListPlan(list[1..], baseUrl, outputDir)
  }

  /** Every planned download comes from a complete entry of the list. */
  lemma {:induction false} ListPlanSound(list: seq<Attachment>, baseUrl: string, outputDir: string)
    ensures forall d :: d in ListPlan(list, baseUrl, outputDir) ==>
              exists i :: 0 <= i < |list| && IsComplete(list[i]) && d == DownloadFor(list[i], baseUrl, outputDir)
  {
    if list != [] {
      var rest := list[1..];
      ListPlanSound(rest, baseUrl, outputDir);
      assert ListPlan(list, baseUrl, outputDir) == EntryPlan(list[0], baseUrl, outputDir) + ListPlan(rest, baseUrl, outputDir);
      forall d | d in ListPlan(list, baseUrl, outputDir)
        ensures exists i :: 0 <= i < |list| && IsComplete(list[i]) && d == DownloadFor(list[i], baseUrl, outputDir)
      {
        if d in EntryPlan(list[0], baseUrl, outputDir) {
          assert IsComplete(list[0]) && d == DownloadFor(list[0], baseUrl, outputDir);
        } else {
          assert d in ListPlan(rest, baseUrl, outputDir);
          var i :| 0 <= i < |rest| && IsComplete(rest[i]) && d == DownloadFor(rest[i], baseUrl, outputDir);
          assert list[i + 1] == rest[i];
        }
      }
    }
  }

  /** Every complete entry of the list is planned. */
  lemma {:induction false} ListPlanComplete(list: seq<Attachment>, baseUrl: string, outputDir: string)
    ensures forall i :: 0 <= i < |list| && IsComplete(list[i]) ==> DownloadFor(list[i], baseUrl, outputDir) in ListPlan(list, baseUrl, outputDir)
  {
    forall i | 0 <= i < |list| && IsComplete(list[i])
      ensures DownloadFor(list[i], baseUrl, outputDir) in ListPlan(list, baseUrl, outputDir)
    {
      ListPlanHas(list, i, baseUrl, outputDir);
    }
  }

  /** The complete entry at index i is planned. */
  lemma {:induction false} ListPlanHas(list: seq<Attachment>, i: nat, baseUrl: string, outputDir: string)
    requires i < |list| && IsComplete(list[i])
    ensures DownloadFor(list[i], baseUrl, outputDir) in ListPlan(list, baseUrl, outputDir)
    decreases i
  {
    var d := DownloadFor(list[i], baseUrl, outputDir);
    var head := EntryPlan(list[0], baseUrl, outputDir);
    var tail := ListPlan(list[1..], baseUrl, outputDir);
    assert ListPlan(list, baseUrl, outputDir) == head + tail;
    if i == 0 {
      assert head == [d];
    } else {
      assert list[1..][i - 1] == list[i];
      ListPlanHas(list[1..], i - 1, baseUrl, outputDir);
      assert d in tail;
    }
  }

  /** The plan of a list split in two is the two plans one after the other:
      the order of the list is kept and a skipped entry never stops later ones. */
  lemma {:induction false} ListPlanAppend(xs: seq<Attachment>, ys: seq<Attachment>, baseUrl: string, outputDir: string)
    ensures ListPlan(xs + ys, baseUrl, outputDir) == ListPlan(xs, baseUrl, outputDir) + ListPlan(ys, baseUrl, outputDir)
  {
    if xs == [] {
      assert xs + ys == ys;
    } else {
      assert (xs + ys)[1..] == xs[1..] + ys;
      ListPlanAppend(xs[1..], ys, baseUrl, outputDir);
    }
  }

  /** The plan of a prefix one entry longer: that entry's plan is appended. */
  lemma ListPlanSnoc(list: seq<Attachment>, i: nat, baseUrl: string, outputDir: string)
    requires i < |list|
    ensures ListPlan(list[..i + 1], baseUrl, outputDir) == ListPlan(list[..i], baseUrl, outputDir) + EntryPlan(list[i], baseUrl, outputDir)
  {
    var a := list[i];
    var one := EntryPlan(a, baseUrl, outputDir);
    assert ListPlan([a], baseUrl, outputDir) == one by {
      assert [a][1..] == [];
      assert ListPlan([a], baseUrl, outputDir) == one + ListPlan([], baseUrl, outputDir);
      assert one + [] == one;
    }
    assert list[..i + 1] == list[..i] + [a];
    ListPlanAppend(list[..i], [a], baseUrl, outputDir);
  }

  /** An incomplete entry contributes nothing, wherever it stands. */
  lemma SkippedEntry(xs: seq<Attachment>, a: Attachment, ys: seq<Attachment>, baseUrl: string, outputDir: string)
    requires !IsComplete(a)
    ensures ListPlan(xs + [a] + ys, baseUrl, outputDir) == ListPlan(xs, baseUrl, outputDir) + ListPlan(ys, baseUrl, outputDir)
  {
    assert [a][1..] == [];
    assert ListPlan([a], baseUrl, outputDir) == [];
    ListPlanAppend(xs, [a], baseUrl, outputDir);
    assert ListPlan(xs + [a], baseUrl, outputDir) == ListPlan(xs, baseUrl, outputDir);
    ListPlanAppend(xs + [a], ys, baseUrl, outputDir);
  }

  /** download_attachments: nothing for an absent, null or empty list. */
  function AttachmentsPlan(attachments: Option<seq<Attachment>>, baseUrl: string, outputDir: string): (plan: seq<Download>)
    ensures attachments.None? ==> plan == []
    ensures attachments.Some? ==> plan == ListPlan(attachments.value, baseUrl, outputDir)
  {
    match attachments
    case None => []
    case Some(list) => if list == [] then [] else ListPlan(list, baseUrl, outputDir)
  }

  /** The `file` part of process_post. */
  function FilePlan(file: Option<Attachment>, baseUrl: string, outputDir: string): (plan: seq<Download>)
    ensures |plan| <= 1 && (plan != [] <==> file.Some? && IsComplete(file.value))
  {
    match file
    case None => []
    case Some(f) => EntryPlan(f, baseUrl, outputDir)
  }

  predicate HasCompleteFile(post: Post) {
    post.file.Some? && IsComplete(post.file.value)
  }

  /** process_post: every attachment download first, then at most one more,
      for the `file` record, exactly when that record is complete. */
  function PostPlan(post: Post, baseUrl: string, outputDir: string): (plan: seq<Download>)
    ensures var ap := AttachmentsPlan(post.attachments, baseUrl, outputDir);
            |plan| == |ap| + (if HasCompleteFile(post) then 1 else 0) && plan[..|ap|] == ap
    ensures HasCompleteFile(post) ==> plan[|plan| - 1] == DownloadFor(post.file.value, baseUrl, outputDir)
  {
    AttachmentsPlan(post.attachments, baseUrl, outputDir) + FilePlan(post.file, baseUrl, outputDir)
  }

  /** The loop of process_data over a list of posts. */
  function PostsPlan(posts: seq<Post>, baseUrl: string, outputDir: string): seq<Download> {
    if posts == [] then [] else PostPlan(posts[0], baseUrl, outputDir) + PostsPlan(posts[1..], baseUrl, outputDir)
  }

  /** Posts are processed in list order: the plan of a list split in two is
      the two plans one after the other. */
  lemma {:induction false} PostsPlanAppend(xs: seq<Post>, ys: seq<Post>, baseUrl: string, outputDir: string)
    ensures PostsPlan(xs + ys, baseUrl, outputDir) == PostsPlan(xs, baseUrl, outputDir) + PostsPlan(ys, baseUrl, outputDir)
  {
    if xs == [] {
      assert xs + ys == ys;
    } else {
      assert (xs + ys)[1..] == xs[1..] + ys;
      PostsPlanAppend(xs[1..], ys, baseUrl, outputDir);
    }
  }

  /** The plan of a prefix one post longer: that post's plan is appended. */
  lemma PostsPlanSnoc(posts: seq<Post>, i: nat, baseUrl: string, outputDir: string)
    requires i < |posts|
    ensures PostsPlan(posts[..i + 1], baseUrl, outputDir) == PostsPlan(posts[..i], baseUrl, outputDir) + PostPlan(posts[i], baseUrl, outputDir)
  {
    var p := posts[i];
    var one := PostPlan(p, baseUrl, outputDir);
    assert PostsPlan([p], baseUrl, outputDir) == one by {
      assert [p][1..] == [];
      assert PostsPlan([p], baseUrl, outputDir) == one + PostsPlan([], baseUrl, outputDir);
      assert one + [] == one;
    }
    assert posts[..i + 1] == posts[..i] + [p];
    PostsPlanAppend(posts[..i], [p], baseUrl, outputDir);
  }

  /** process_data: a single post for an object with "post", every post in order
      for a list, and a fatal error for any other shape. */
  function PayloadPlan(data: Payload, baseUrl: string, outputDir: string): (r: Result<seq<Download>, FatalError>)
    ensures r.Success? <==> (data.Object? && data.post.Some?) || data.Array?
    ensures r.Failure? ==> r.error == UnexpectedFormat
  {
    match data
    case Object(Some(post)) => Success(PostPlan(post, baseUrl, outputDir))
    case Array(posts) => Success(PostsPlan(posts, baseUrl, outputDir))
    case _ => Failure(UnexpectedFormat)
  }

  /** Single-post mode behaves like a list holding just that post. */
  lemma SinglePostIsListOfOne(post: Post, baseUrl: string, outputDir: string)
    ensures PayloadPlan(Object(Some(post)), baseUrl, outputDir) == PayloadPlan(Array([post]), baseUrl, outputDir)
  {
    var plan := PostPlan(post, baseUrl, outputDir);
    assert PostsPlan([post], baseUrl, outputDir) == plan + PostsPlan([], baseUrl, outputDir);
    assert plan + [] == plan;
  }
}
