# Kemono/Coomer attachment downloader — Dafny model

`downloader.py` takes a profile or post URL on kemono.su or coomer.su. It
resolves the matching metadata endpoint and fetches the JSON metadata. Then it
downloads every attachment and primary file the metadata names into the
directory `downloaded_images`. A file never overwrites another: a taken name
becomes `base (1)ext`, `base (2)ext`, ….

This project models what the script decides to download and where each file
ends up. Pure functions state the download plan and its properties. The Dafny
methods, which follow the script's loops step by step, are proved to carry out
that plan.

- **Wrappers / Errors** (`wrappers.dfy`): `Option`, `Result` and `Outcome`.
  Also `FatalError`, the three reasons the script calls `exit(1)`:
  - `InvalidUrl`: an unsupported input URL.
  - `FetchFailed`: the metadata request failed.
  - `UnexpectedFormat`: the metadata has an unexpected shape.
- **Decimal** (`decimal.dfy`): `str(counter)`. It is proved injective through
  its inverse.
- **PosixPath** (`posix_path.dfy`): `os.path.splitext`, `os.path.join` and
  `os.path.basename`, following the POSIX implementation.
  - `splitext` keeps leading dots of the last component in the root.
  - `join` with an absolute name returns the name.
- **StrReplace** (`str_replace.dfy`): `str.replace` (every non-overlapping
  occurrence, left to right). It is proved equal to
  `rep.join(s.split(pat))`, which is implemented separately.
- **Endpoint** (`endpoint.dfy`): `determine_api_url`, as a table of three
  routes.
- **Collision** (`collision.dfy`): the probe sequence of `download_file`.
  - The k-th probe is always built from the `splitext` of the original path.
  - Probes are pairwise distinct.
  - With n existing paths, a pigeonhole argument shows that one of the
    first n + 1 probes is free. This is why the `while` loop terminates.
  - `ResolvePath` is the first free probe.
- **Plan** (`plan.dfy`): the metadata as datatypes (`Attachment`, `Post`,
  `Payload`). It also holds the pure download plans of
  `download_attachments`, `process_post` and `process_data`: the ordered
  lists of `download_file(url, dest)` calls.
- **Downloader** (`downloader.dfy`): the effectful side.
  - A `FileSystem` object holds the map from existing paths to their bytes.
  - `DownloadFile` is `download_file`. Its probing `while` loop is the method
    `FreePath`, and its chunk-by-chunk write under `open(..., 'wb')` is the
    method `WriteChunks`.
  - `DownloadAttachments`, `ProcessPost`, `ProcessData` and `RunDownloader`
    are loops and calls over that object.
  - `FreePath` changes nothing and is proved to return `ResolvePath`, the
    first free probe. `WriteChunks` is proved to store exactly the streamed
    bytes at one path. `DownloadFile` is proved to have the effect `Step`,
    the specification of one `download_file` call.
  - `DownloadAttachments`, `ProcessPost`, `ProcessData` and `RunDownloader`
    are proved to leave the directory equal to the specification function
    `RunPlan`, a sequence of `Step`s, applied to the matching plan.
- **Scenarios** (`scenarios.dfy`): concrete payloads and inputs, and the fatal
  paths of `main`.

The network is a parameter: `fetch` maps a file URL to a `Response`, and
`fetchData` maps the API URL to the parsed payload or `None`. A `Response` is
either a failure before the output file is opened, or the bytes streamed into
the opened file, together with whether the stream completed. A stream that
breaks off in `iter_content` still leaves its partial file at the resolved
path.

The model follows the code where it goes beyond the obvious reading:

- The destination is `os.path.join(output_dir, name)`, so an absolute `name`
  escapes the output directory.
- The base URL is concatenated with the path unchanged. For coomer it ends in
  `/`, so a path starting with `/` gives `https://n3.coomer.su/data//…`.
- `str.replace` rewrites every occurrence of the platform segment, including
  later ones in the user part.

## Model

| member | source | states |
|---|---|---|
| Decimal.NatToString | downloader.py:36 | `str(counter)` is a non-empty digit string with no leading zero |
| Decimal.ParseNatToString | downloader.py:36 | reading the printed counter back gives the counter: `int(str(n)) == n` |
| Decimal.NatToStringInjective | downloader.py:36 | different counters are printed differently |
| PosixPath.SplitExt | downloader.py:35 | `root + ext == path`; `ext` is empty or a dot followed by no separator and no further dot; a non-empty `ext` has a non-dot character of the last component before it; an empty `ext` means the last component has no dot, or only dots up to its last dot |
| PosixPath.Join | downloader.py:66 | the name is a suffix of the result; an absolute name is returned as is; otherwise the result is the directory, then one `/` exactly when the directory is non-empty and does not already end in `/`, then the name |
| PosixPath.JoinBaseName | downloader.py:66 | for a plain file name, the basename of `join(output_dir, name)` is the name |
| PosixPath.SplitExtInsertBeforeExt | downloader.py:35-36 | inserting text without separator or dot just before an extension keeps that extension for `splitext` |
| PosixPath.SplitExtAppendPlain | downloader.py:35-36 | appending text without separator or dot to a path with no extension gives a path with no extension |
| StrReplace.ReplaceAll | downloader.py:108-112 | `s.replace(pat, rep)`: scanning left to right, each non-overlapping occurrence of `pat` becomes `rep`; replacing a pattern by itself changes nothing. Its properties are `ReplaceAllIsJoinOfSplit` and the lemmas below it |
| StrReplace.ReplaceAllIsJoinOfSplit | downloader.py:108 | `s.replace(p, q) == q.join(s.split(p))` for every string and non-empty pattern |
| StrReplace.SplitJoinRoundTrip | downloader.py:108 | `p.join(s.split(p)) == s` |
| StrReplace.SplitPiecesAreFree | downloader.py:108 | no piece of `s.split(p)` contains `p`, so every occurrence is replaced |
| StrReplace.ReplaceAllWithoutOccurrence | downloader.py:108 | replacing in a string without the pattern changes nothing |
| StrReplace.ReplaceAllSkipsPrefix | downloader.py:108 | a prefix where the pattern cannot start is copied unchanged |
| Endpoint.DetermineApiUrl | downloader.py:103-115 | success exactly when the input starts with one of the three user prefixes; any other input is `InvalidUrl`; the base URL is one of the two data hosts |
| Endpoint.ApiUrl | downloader.py:108-112 | the `input_url.replace("/<platform>/", "/api/v1/<platform>/")` of each branch; a URL without the platform segment is returned unchanged. Its shape for a supported URL is `ApiUrlOfUserUrl` |
| Endpoint.RouteSelected | downloader.py:107-112 | each prefix selects its own branch, with that route's rewrite and data URL |
| Endpoint.RewriteUserUrl | downloader.py:108-112 | the rewrite of a supported URL keeps scheme and host, rewrites the platform segment to `/api/v1/<platform>/`, and goes on replacing over the rest of the URL |
| Endpoint.ApiUrlOfUserUrl | downloader.py:108-112 | the API URL starts with `https://<host>/api/v1/<platform>/user/`, and is exactly that prefix plus the remainder when the remainder holds no further platform segment |
| Endpoint.DetermineApiUrlOfRoute | downloader.py:103-115 | for each of the three routes: success, that route's base URL (`https://n4.kemono.su/data` or `https://n3.coomer.su/data/`), and the API URL shape above |
| Collision.Tag | downloader.py:36 | the ` (k)` part of the f-string: no separator, no dot, three characters longer than `str(k)`, ending in `)` |
| Collision.Candidate | downloader.py:35-36 | probe k: the requested path for k = 0, and `f"{base} ({k}){ext}"` from the requested path's `splitext` for k >= 1. Its properties are `CandidateSplitExt` and `CandidateInjective` |
| Collision.CandidateSplitExt | downloader.py:35-36 | a probe's `splitext` is (original root + " (k)", original extension), so probes keep the file's extension and never nest counters |
| Collision.CandidateInjective | downloader.py:33-37 | probes for different counters are different paths |
| Collision.CandidatesUpToSize | downloader.py:33-37 | probes 0..n are n+1 distinct paths |
| Collision.AllTakenBound | downloader.py:34-37 | if probes 0..n all exist then n is less than the number of existing paths, so the loop stops |
| Collision.FreeIndex | downloader.py:33-37 | a first free counter always exists, is at most the number of existing paths, and every earlier probe exists |
| Collision.FirstFreeUnique | downloader.py:33-37 | there is only one first free counter |
| Collision.ResolvePath | downloader.py:32-37 | the chosen path is not an existing one; a free requested path is used unchanged; a taken one becomes `base (k)ext` for some k from 1 up to the number of existing paths |
| Collision.ResolvePathIsFirstFree | downloader.py:32-37 | the chosen path is the probe with the smallest counter whose path is free |
| Plan.DownloadFor | downloader.py:65-66 | the URL is the base URL followed by the path, and the destination ends with the name |
| Plan.EntryPlan | downloader.py:59-66 | the skip rule: one download for a record with non-empty name and path, none otherwise |
| Plan.ListPlan | downloader.py:58-67 | the `for` loop of `download_attachments`: at most one download per entry. Its properties are `ListPlanSound`, `ListPlanComplete`, `ListPlanAppend` and `SkippedEntry` |
| Plan.ListPlanSound | downloader.py:58-67 | every planned download comes from an entry with non-empty name and path |
| Plan.ListPlanComplete | downloader.py:58-67 | every entry with non-empty name and path is planned |
| Plan.ListPlanAppend | downloader.py:58-67 | the plan keeps list order: the plan of `xs + ys` is the plan of `xs` followed by that of `ys` |
| Plan.SkippedEntry | downloader.py:61-63 | an incomplete entry contributes nothing and does not stop later entries |
| Plan.AttachmentsPlan | downloader.py:54-56 | an absent or null list plans nothing; a present list plans the filtered list |
| Plan.FilePlan | downloader.py:78-84 | the `file` part of `process_post`: at most one download, present exactly when `file` is present with non-empty name and path |
| Plan.PostPlan | downloader.py:73-84 | all attachment downloads come first; exactly one more download follows, for `file`, when `file` is present with non-empty name and path |
| Plan.PostsPlan | downloader.py:97-98 | `for post in data`: each post's plan in list order. Its property is `PostsPlanAppend` |
| Plan.PostsPlanAppend | downloader.py:97-98 | posts are processed in list order |
| Plan.PayloadPlan | downloader.py:90-101 | succeeds exactly for an object with `post` or a list; anything else is `UnexpectedFormat` |
| Plan.SinglePostIsListOfOne | downloader.py:90-98 | single-post mode plans the same downloads as a list holding that one post |
| Downloader.Chunks | downloader.py:41 | `iter_content(1024)` yields non-empty chunks of at most the chunk size |
| Downloader.Flatten | downloader.py:41-42 | the bytes the successive `file.write(chunk)` calls leave in the file. Its properties are `FlattenChunks` and `FlattenAppend` |
| Downloader.FlattenChunks | downloader.py:40-42 | writing the chunks in order stores exactly the streamed bytes |
| Downloader.Step | downloader.py:21-48 | one `download_file` never changes an existing path; it adds exactly one path when the file is opened, even if the stream then breaks off, and none when the request fails |
| Downloader.RunPlan | downloader.py:58-67 | a sequence of downloads keeps every existing file and adds one path per download that opens its file |
| Downloader.RunPlanAppend | downloader.py:58-67 | running two plans one after the other is running their concatenation |
| Downloader.StepAtFirstFree | downloader.py:32-44 | a download that opens its file writes the streamed bytes to the probe at the first free counter |
| Downloader.RepeatedDownloads | downloader.py:34-44 | n downloads that open their file and share a destination name, with any URLs (for example attachments with one name but different paths), when none of the name's first n probes exists, create exactly the paths `name`, `base (1)ext`, …, `base (n-1)ext` and no others; the j-th download's bytes are at probe j |
| Downloader.BrokenStreamKeepsName | downloader.py:28-46 | a download whose stream breaks off leaves its partial file at the requested name, so a later download of that name goes to `base (1)ext` |
| Downloader.FreePath | downloader.py:31-37 | the probing loop rebuilds each probe from the requested path's `splitext` and stops at exactly the path `ResolvePath` chooses, the first free probe; it terminates because, by `AllTakenBound`, at most as many probes can be taken as there are existing paths |
| Downloader.WriteChunks | downloader.py:40-42 | after the chunk loop the opened file holds exactly the streamed bytes, and no other path changes |
| Downloader.DownloadFile | downloader.py:21-48 | a failed request changes nothing and reports no path; otherwise the first free probe receives the streamed bytes chunk by chunk and nothing else changes, and the path is reported as saved only when the stream completed |
| Downloader.DownloadAttachments | downloader.py:50-67 | the directory afterwards is the result of running the attachment plan in list order |
| Downloader.ProcessPost | downloader.py:69-84 | the directory afterwards is the result of running the post's plan: attachments, then `file` |
| Downloader.ProcessData | downloader.py:86-101 | an unexpected payload is `UnexpectedFormat` with nothing written; otherwise the outcome is success and the payload's plan was run |
| Downloader.Execute | downloader.py:117-130 | a fatal outcome leaves the directory unchanged; `InvalidUrl` happens exactly for unsupported inputs; no existing file is ever changed |
| Downloader.RunDownloader | downloader.py:117-130 | the outcome and the directory afterwards are those of `Execute` |
| Downloader.RunPlanNewPaths | downloader.py:32-37 | every path a run creates is a probe of one of the planned destinations |
| Scenarios.SinglePostScenario | downloader.py:65-67 | `{"post": {"attachments": [{"name": "a.jpg", "path": "/a.jpg"}]}}` with base `https://host/data` and directory `D` downloads `https://host/data/a.jpg` to `D/a.jpg` |
| Scenarios.PostListScenario | downloader.py:94-98 | a list of a post with a `file` and a post with an empty attachment list plans exactly one download |
| Scenarios.UnsupportedUrlMakesNoRequest | downloader.py:113-115 | an unsupported URL is fatal whatever the network would answer, and nothing is written |
| Scenarios.MalformedPayloadDownloadsNothing | downloader.py:99-101 | a scalar payload or an object without `post` is fatal with nothing written |
| Scenarios.FailedFetchDownloadsNothing | downloader.py:17-19 | a failed metadata request is fatal with nothing written |
| Scenarios.SuccessfulRunFollowsPlan | downloader.py:122-128 | a successful run had a supported URL and a well-formed payload, and wrote exactly that payload's plan into `downloaded_images` |
| Scenarios.FanslyScenario | downloader.py:111-112 | `https://coomer.su/fansly/user/123` gives `https://coomer.su/api/v1/fansly/user/123` and `https://n3.coomer.su/data/` |

## Left out

- Logging (`logging.basicConfig` and every `logging.*` call): it has no
  effect on what is downloaded. One log line is kept as a result: the
  "File saved successfully" message of downloader.py:44 is `DownloadFile`'s
  `saved` result, the path it names or `None` when that line is not
  reached.
- `fetch_data` (downloader.py:8-19): the request, the timeout,
  `raise_for_status` and `response.json()` are the parameter `fetchData`. Any
  failure of the request is `None`, which becomes `FetchFailed`.
- `requests.get`, `raise_for_status` and `iter_content` in `download_file`:
  they are the parameter `fetch`. Errors before `open` are `RequestFailed`;
  errors while streaming are an incomplete `Opened` response.
- `fetch` is a function of the URL alone, so every request for one URL in a
  run gets the same response. The script makes a new request on each
  `download_file` call (downloader.py:28). When a post's `file` repeats one of
  its attachments, the two requests could differ, one failing and one
  succeeding or with different bodies, and the model does not express that.
- The JSON decoder: the payload arrives already parsed.
  - An `attachments`, `file`, `name` or `path` field that is absent, null or
    any other falsy JSON value (`0`, `false`, `""`, `[]`, `{}`) is `None`. The
    code skips all of these alike (downloader.py:54, 61, 78, 81).
  - The `post` key is different: downloader.py:90 tests only that the key is
    present. An object holding `post` is always `Object(Some(..))`, and only
    an object without the key is `Object(None)`. So `{"post": {}}` is
    `Object(Some(Post(None, None)))`: nothing is downloaded and the run ends
    normally.
  - A null or other falsy non-object value of `post`, of an element of a post
    list, or of an element of an attachment list makes `.get` raise
    `AttributeError` (downloader.py:73 and 59) outside any `try`. That crash
    is not modelled: those values are records in the datatypes.
  - A truthy non-string `path` (a number, `true`) is formatted by the
    f-string at downloader.py:65 and 82, and the download goes ahead. The
    model covers it only as the string that formatting produces; the
    formatting itself is not modelled.
  - A truthy non-string `name` makes `os.path.join` raise outside the `try`.
    A truthy `file`, attachment or `post` that is not an object makes `.get`
    raise. A truthy `attachments` that is not a list is iterated in Python's
    own way. None of these crashes or iterations is modelled: the datatypes
    admit only records, lists and strings.
- `input().strip()` and `os.makedirs` in `main` (downloader.py:121-125): the
  input URL is a parameter, and the output directory is assumed to exist.
- Downloader.DownloadFile: does not model disk errors caught by the
  `except Exception` branch (downloader.py:47-48). Writing to the opened file
  is assumed to succeed, although a real disk error after `open` could leave
  a partly written file. A stream that breaks off is modelled.
- Downloader.Chunks: `iter_content` may deliver pieces of other sizes, for
  example for compressed bodies. Only their concatenation matters, and
  `FlattenChunks` shows that it is the streamed bytes.
- The filesystem is a map from path strings to bytes. Directories,
  permissions, symbolic links and path normalisation (`a//b` versus `a/b`)
  are not modelled, and `os.path.exists` is membership in the map.
- Concurrency: another process creating a file between the `exists` check
  and `open` is not modelled; the code is sequential.
- `exit(1)` is the `Fail` outcome returned to the caller, not process
  termination.
