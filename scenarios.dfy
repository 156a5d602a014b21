/** Whole-run scenarios: concrete payloads and inputs, and the fatal paths of
    main, stated over Execute and the plan functions. */
module Scenarios {
  import opened Wrappers
  import opened Errors
  import opened StrReplace
  import opened PosixPath
  import opened Plan
  import opened Endpoint
  import opened Downloader

  /** {"post": {"attachments": [{"name": "a.jpg", "path": "/a.jpg"}]}} with base
      URL https://host/data and output directory D: one request, for
      https://host/data/a.jpg, saved as D/a.jpg. */
  lemma SinglePostScenario()
    ensures PayloadPlan(Object(Some(Post(Some([Attachment(Some("a.jpg"), Some("/a.jpg"))]), None))), "https://host/data", "D")
         == Success([Download("https://host/data/a.jpg", "D/a.jpg")])
  {
    var a := Attachment(Some("a.jpg"), Some("/a.jpg"));
    assert Join("D", "a.jpg") == "D/a.jpg";
    assert [a][1..] == [];
    assert IsComplete(a);
    assert "https://host/data" + "/a.jpg" == "https://host/data/a.jpg";
    assert ListPlan([a], "https://host/data", "D") == EntryPlan(a, "https://host/data", "D") + ListPlan([], "https://host/data", "D");
    assert ListPlan([a], "https://host/data", "D") == [Download("https://host/data/a.jpg", "D/a.jpg")];
  }

  /** [{"file": {"name": "x.png", "path": "/x.png"}}, {"attachments": []}]:
      exactly one download is attempted. */
  lemma PostListScenario(baseUrl: string, outputDir: string)
    ensures var r := PayloadPlan(Array([Post(None, Some(Attachment(Some("x.png"), Some("/x.png")))), Post(Some([]), None)]), baseUrl, outputDir);
            r.Success? && |r.value| == 1
  {
    var p0 := Post(None, Some(Attachment(Some("x.png"), Some("/x.png"))));
    var p1 := Post(Some([]), None);
    var posts := [p0, p1];
    assert posts[1..] == [p1];
    assert [p1][1..] == [];
    assert |PostPlan(p0, baseUrl, outputDir)| == 1;
    assert |PostPlan(p1, baseUrl, outputDir)| == 0;
    assert PostsPlan(posts, baseUrl, outputDir) == PostPlan(p0, baseUrl, outputDir) + PostsPlan([p1], baseUrl, outputDir);
    assert PostsPlan([p1], baseUrl, outputDir) == PostPlan(p1, baseUrl, outputDir) + PostsPlan([], baseUrl, outputDir);
  }

  /** An unsupported input URL ends the run before any request: the outcome and
      the directory are the same whatever the network would have answered. */
  lemma UnsupportedUrlMakesNoRequest(files: map<string, Bytes>, inputUrl: string,
                                     fetchData: string -> Option<Payload>, fetch: string -> Response)
    requires !Supported(inputUrl)
    ensures Execute(files, inputUrl, fetchData, fetch) == (Fail(InvalidUrl), files)
  {
  }

  /** A metadata response of any other shape (a bare string, a number, an
      object without "post") is fatal and no file is requested. */
  lemma MalformedPayloadDownloadsNothing(files: map<string, Bytes>, inputUrl: string,
                                         fetchData: string -> Option<Payload>, fetch: string -> Response)
    requires DetermineApiUrl(inputUrl).Success?
    requires var data := fetchData(DetermineApiUrl(inputUrl).value.0);
             data.Some? && (data.value.Scalar? || data.value == Object(None))
    ensures Execute(files, inputUrl, fetchData, fetch) == (Fail(UnexpectedFormat), files)
  {
  }

  /** A failed metadata request is fatal and no file is requested. */
  lemma FailedFetchDownloadsNothing(files: map<string, Bytes>, inputUrl: string,
                                    fetchData: string -> Option<Payload>, fetch: string -> Response)
    requires DetermineApiUrl(inputUrl).Success?
    requires fetchData(DetermineApiUrl(inputUrl).value.0).None?
    ensures Execute(files, inputUrl, fetchData, fetch) == (Fail(FetchFailed), files)
  {
  }

  /** A completed run writes exactly the plan of the fetched payload, with the
      base URL of the input's platform and the fixed output directory. */
  lemma SuccessfulRunFollowsPlan(files: map<string, Bytes>, inputUrl: string,
                                 fetchData: string -> Option<Payload>, fetch: string -> Response)
    requires Execute(files, inputUrl, fetchData, fetch).0 == Pass
    ensures Supported(inputUrl)
    ensures var urls := DetermineApiUrl(inputUrl).value;
            var data := fetchData(urls.0);
            && data.Some?
            && PayloadPlan(data.value, urls.1, OutputDir).Success?
            && Execute(files, inputUrl, fetchData, fetch).1 == RunPlan(files, PayloadPlan(data.value, urls.1, OutputDir).value, fetch)
  {
  }

  /** A Fansly profile URL: the API URL inserts /api/v1 before the platform and
      the files come from the coomer data host. */
  lemma FanslyScenario()
    ensures DetermineApiUrl("https://coomer.su/fansly/user/123")
         == Success(("https://coomer.su/api/v1/fansly/user/123", "https://n3.coomer.su/data/"))
  {
    FanslyUserUrl();
    DetermineApiUrlOfRoute(CoomerFansly, "123");
    assert !Occurs("/123", PlatformSegment(CoomerFansly));
    FanslyApiUrl();
  }

  lemma FanslyApiUrl()
    ensures ApiUserPrefix(CoomerFansly) + "123" == "https://coomer.su/api/v1/fansly/user/123"
  {
    assert ApiUserPrefix(CoomerFansly) == "https://coomer.su/api/v1/fansly/user/";
  }

  lemma FanslyUserUrl()
    ensures UserPrefix(CoomerFansly) + "123" == "https://coomer.su/fansly/user/123"
  {
    assert UserPrefix(CoomerFansly) == "https://coomer.su/fansly/user/";
  }
}
