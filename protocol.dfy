/**
 * What the tool's remote operations send and conclude, as functions of the
 * token cache, the clock, the configuration and the pool's responses:
 * `createfile`, `execute`, `download_file` and `_run`.
 */
module SessionProtocol {
  import opened Wrappers
  import opened Failures
  import opened Json
  import opened Utf8
  import opened CharClasses
  import opened Urls
  import opened AccessTokens
  import opened Http
  import opened SceneNames

  const CreatePath: string := "manim/create"
  const GeneratePath: string := "manim/generate"
  const VideoPath: string := "manim/get_video"
  const NoClassMessage: string := "No class name found in the code"
  const CreateErrorMessage: string := "Error creating file"
  /** The only status for which `createfile` returns a true value. */
  const CreatedOk: int := 200
  /** The status after which `execute` tries once more. */
  const RetryExecuteStatus: int := 500
  /** The status after which `download_file` tries once more. */
  const RetryDownloadStatus: int := 404

  // ---------------------------------------------------------------------
  // Request bodies
  // ---------------------------------------------------------------------

  /** The text `createfile` uploads: the file name on the first line, then the code. */
  function UploadText(scene: string, code: string): string {
    scene + ".py" + "\n" + code
  }

  /** The bytes of the upload, `(pyfile + "\n" + pythoncode).encode('utf-8')`. */
  function UploadBody(scene: string, code: string): seq<Byte> {
    Encode(UploadText(scene, code))
  }

  /** The upload holds the name's bytes, then those of ".py" and a newline, then the code's. */
  lemma UploadBodyLayout(scene: string, code: string)
    ensures UploadBody(scene, code) == Encode(scene) + Encode(".py\n") + Encode(code)
  {
    var suffix, rest := ".py\n", ".py\n" + code;
    assert UploadText(scene, code) == scene + rest;
    EncodeAppend(scene, rest);
    EncodeAppend(suffix, code);
  }

  predicate NotNewline(c: char) {
    c != '\n'
  }

  /** How an upload is read: the first line names the file, the rest is its content. */
  function SplitFirstLine(t: string): (r: Option<(string, string)>)
    ensures r.None? <==> '\n' !in t
    ensures r.Some? ==> '\n' !in r.value.0 && t == r.value.0 + "\n" + r.value.1
  {
    var i := RunEnd(t, 0, NotNewline);
    if i == |t| then None
    else
      assert t == t[..i] + "\n" + t[i + 1..];
      Some((t[..i], t[i + 1..]))
  }

  /** A scene name without a line break comes back whole from the upload, and so does the code. */
  lemma UploadRoundTrip(scene: string, code: string)
    requires '\n' !in scene
    ensures SplitFirstLine(UploadText(scene, code)) == Some((scene + ".py", code))
  {
    var t := UploadText(scene, code);
    var i := |scene| + 3;
    assert forall k :: 0 <= k < i ==> t[k] == (scene + ".py")[k];
    RunEndIsUnique(t, 0, i, NotNewline);
    assert t[..i] == scene + ".py";
    assert t[i + 1..] == code;
  }

  /** The shell command `execute` asks the pool to run. */
  function RenderCommand(scene: string): string {
    "manim -qh " + scene + ".py " + scene + " -o " + scene + ".mp4"
  }

  predicate NotBlank(c: char) {
    c != ' '
  }

  /** `str.split(" ")`: the pieces between single spaces. */
  function Words(t: string): (ws: seq<string>)
    ensures ws != []
    decreases |t|
  {
    var i := RunEnd(t, 0, NotBlank);
    if i == |t| then [t] else [t[..i]] + Words(t[i + 1..])
  }

  lemma WordsOfWord(a: string)
    requires ' ' !in a
    ensures Words(a) == [a]
  {
    RunEndIsUnique(a, 0, |a|, NotBlank);
  }

  lemma WordsCons(a: string, b: string)
    requires ' ' !in a
    ensures Words(a + " " + b) == [a] + Words(b)
  {
    var t := a + " " + b;
    assert forall k :: 0 <= k < |a| ==> t[k] == a[k];
    RunEndIsUnique(t, 0, |a|, NotBlank);
    assert t[..|a|] == a;
    assert t[|a| + 1..] == b;
  }

  lemma NoBlankInJoin(a: string, b: string)
    requires ' ' !in a && ' ' !in b
    ensures ' ' !in a + b
  {
  }

  /** `" ".join(ws)`. */
  function Join(ws: seq<string>): string
    requires ws != []
  {
    if |ws| == 1 then ws[0] else ws[0] + " " + Join(ws[1..])
  }

  /** Words without spaces, joined by single spaces, split back into those words. */
  lemma {:induction false} WordsOfJoin(ws: seq<string>)
    requires ws != []
    requires forall k :: 0 <= k < |ws| ==> ' ' !in ws[k]
    ensures Words(Join(ws)) == ws
  {
    if |ws| == 1 {
      WordsOfWord(ws[0]);
    } else {
      WordsOfJoin(ws[1..]);
      WordsCons(ws[0], Join(ws[1..]));
    }
  }

  /**
   * A scene name without spaces fills exactly the script, scene and output
   * arguments of the command.
   */
  lemma RenderCommandArguments(scene: string)
    requires ' ' !in scene
    ensures Words(RenderCommand(scene)) == ["manim", "-qh", scene + ".py", scene, "-o", scene + ".mp4"]
  {
    var ws := ["manim", "-qh", scene + ".py", scene, "-o", scene + ".mp4"];
    NoBlankInJoin(scene, ".py");
    NoBlankInJoin(scene, ".mp4");
    calc {
      Join(ws);
      "manim" + " " + Join(ws[1..]);
      "manim" + " " + ("-qh" + " " + Join(ws[2..]));
      "manim" + " " + ("-qh" + " " + (scene + ".py" + " " + Join(ws[3..])));
      "manim" + " " + ("-qh" + " " + (scene + ".py" + " " + (scene + " " + Join(ws[4..]))));
      "manim" + " " + ("-qh" + " " + (scene + ".py" + " " + (scene + " " + ("-o" + " " + Join(ws[5..])))));
      RenderCommand(scene);
    }
    WordsOfJoin(ws);
  }

  /** `remote_file_path.replace("'", "")`. */
  function RemoveQuotes(path: string): (r: string)
    ensures '\'' !in r
    ensures |r| <= |path|
  {
    if path == [] then []
    else if path[0] == '\'' then RemoveQuotes(path[1..])
    else [path[0]] + RemoveQuotes(path[1..])
  }

  /** Removing quotes keeps every other character, in order, and as often. */
  lemma {:induction false} RemoveQuotesAppend(a: string, b: string)
    ensures RemoveQuotes(a + b) == RemoveQuotes(a) + RemoveQuotes(b)
  {
    if a == [] {
      assert a + b == b;
    } else {
      assert (a + b)[1..] == a[1..] + b;
      RemoveQuotesAppend(a[1..], b);
    }
  }

  lemma {:induction false} RemoveQuotesCounts(path: string)
    ensures forall c :: c != '\'' ==> multiset(RemoveQuotes(path))[c] == multiset(path)[c]
  {
    if path != [] {
      RemoveQuotesCounts(path[1..]);
      assert path == [path[0]] + path[1..];
    }
  }

  /** A path without quotes is sent as it is. */
  lemma {:induction false} RemoveQuotesKeepsPlainPath(path: string)
    requires '\'' !in path
    ensures RemoveQuotes(path) == path
  {
    if path != [] {
      assert path == [path[0]] + path[1..];
      RemoveQuotesKeepsPlainPath(path[1..]);
    }
  }

  // ---------------------------------------------------------------------
  // The exchanges
  // ---------------------------------------------------------------------

  /** The bearer token and address of a request about to be sent. */
  datatype Call = Call(bearer: string, url: string)

  /** The token lookup and url every remote operation starts with. */
  datatype Prepared = Prepared(cache: Option<AccessToken>, refreshed: bool, call: Result<Call, Failure>)

  /**
   * The token is asked for before the url is built, so a missing endpoint
   * fails after the cache may have been refreshed.
   */
  function Prepare(cache: Option<AccessToken>, m: Moment, endpoint: string, sessionId: string, path: string): (p: Prepared)
    ensures p.call.Ok? <==> Fetch(cache, m).outcome.Ok? && endpoint != []
  {
    var t := Fetch(cache, m);
    if t.outcome.Err? then Prepared(t.cache, t.refreshed, Err(t.outcome.error))
    else match BuildUrl(endpoint, sessionId, path)
      case Err(e) => Prepared(t.cache, t.refreshed, Err(e))
      case Ok(url) => Prepared(t.cache, t.refreshed, Ok(Call(t.outcome.value, url)))
  }

  /**
   * The lookup always leaves the cache as `Fetch` does; the call carries the
   * token and the url, or the failure of whichever came first.
   */
  lemma PrepareContract(cache: Option<AccessToken>, m: Moment, endpoint: string, sessionId: string, path: string)
    ensures var p := Prepare(cache, m, endpoint, sessionId, path);
      var t := Fetch(cache, m);
      && p.cache == t.cache && p.refreshed == t.refreshed
      && (p.call.Ok? ==> p.call.value == Call(t.outcome.value, BuildUrl(endpoint, sessionId, path).value))
      && (t.outcome.Err? ==> p.call == Err(t.outcome.error))
      && (t.outcome.Ok? && endpoint == [] ==> p.call == Err(EndpointNotSet))
  {
  }

  /** The state an operation leaves, the requests it sent, and its result or the failure it raised. */
  datatype Exchange<T> = Exchange(cache: Option<AccessToken>, refreshes: nat, requests: seq<Request>, outcome: Result<T, Failure>)

  function Refreshes(p: Prepared): nat {
    if p.refreshed then 1 else 0
  }

  /** `createfile` once its request is answered: an error status raises, and only 200 is true. */
  function CreateFileAnswer(resp: Response): (r: Result<bool, Failure>)
    ensures r.Err? <==> RaisesForStatus(resp.status)
    ensures r.Err? ==> r.error == HttpError(resp.status)
    ensures r == Ok(true) <==> resp.status == CreatedOk
  {
    if RaisesForStatus(resp.status) then Err(HttpError(resp.status)) else Ok(resp.status == CreatedOk)
  }

  /** `createfile(pythoncode, scene_name)`, answered by `first`. */
  function CreateFileSpec(cache: Option<AccessToken>, m: Moment, endpoint: string, sessionId: string,
                          code: string, scene: string, first: Response): (x: Exchange<bool>)
    ensures |x.requests| <= 1
    ensures x.outcome.Ok? ==> |x.requests| == 1
  {
    var p := Prepare(cache, m, endpoint, sessionId, CreatePath);
    match p.call
    case Err(e) => Exchange(p.cache, Refreshes(p), [], Err(e))
    case Ok(c) => Exchange(p.cache, Refreshes(p), [Request(c.url, c.bearer, Raw(UploadBody(scene, code)))], CreateFileAnswer(first))
  }

  /** `response.json()`, as far as the model reads it: an object, or a failure. */
  function JsonOf(resp: Response): (r: Result<map<string, Scalar>, Failure>)
    ensures r.Ok? <==> resp.json.Some?
    ensures r.Ok? ==> r.value == resp.json.value
  {
    if resp.json.Some? then Ok(resp.json.value) else Err(NotJsonObject)
  }

  /** The request `execute` posts: the render command for the scene. */
  function ExecuteRequest(c: Call, scene: string): Request {
    Request(c.url, c.bearer, JsonObject(map["command" := RenderCommand(scene)]))
  }

  /** `execute(scene_name)`: a 500 is retried once with the same request; other errors raise. */
  function ExecuteSpec(cache: Option<AccessToken>, m: Moment, endpoint: string, sessionId: string,
                       scene: string, first: Response, second: Response): Exchange<map<string, Scalar>>
  {
    var p := Prepare(cache, m, endpoint, sessionId, GeneratePath);
    match p.call
    case Err(e) => Exchange(p.cache, Refreshes(p), [], Err(e))
    case Ok(c) =>
      var req := ExecuteRequest(c, scene);
      if !RaisesForStatus(first.status) then Exchange(p.cache, Refreshes(p), [req], JsonOf(first))
      else if first.status == RetryExecuteStatus then
        Exchange(p.cache, Refreshes(p), [req, req],
          if RaisesForStatus(second.status) then Err(HttpError(second.status)) else JsonOf(second))
      else Exchange(p.cache, Refreshes(p), [req], Err(HttpError(first.status)))
  }

  /** The request `download_file` posts: the path to fetch, with its quotes removed. */
  function DownloadRequest(c: Call, remotePath: string): (r: Request)
    ensures r.body.JsonObject? && r.body.fields.Keys == {"videofile"}
    ensures '\'' !in r.body.fields["videofile"]
  {
    Request(c.url, c.bearer, JsonObject(map["videofile" := RemoveQuotes(remotePath)]))
  }

  /**
   * `download_file(remote_file_path)`: a failed first attempt always raises.
   * A 404 is retried once; then the retry's error is raised if the retry
   * fails, and the first 404 otherwise.
   */
  function DownloadSpec(cache: Option<AccessToken>, m: Moment, endpoint: string, sessionId: string,
                        remotePath: string, first: Response, second: Response): Exchange<seq<Byte>>
  {
    var p := Prepare(cache, m, endpoint, sessionId, VideoPath);
    match p.call
    case Err(e) => Exchange(p.cache, Refreshes(p), [], Err(e))
    case Ok(c) =>
      var req := DownloadRequest(c, remotePath);
      if !RaisesForStatus(first.status) then Exchange(p.cache, Refreshes(p), [req], Ok(first.content))
      else if first.status == RetryDownloadStatus then
        Exchange(p.cache, Refreshes(p), [req, req],
          if RaisesForStatus(second.status) then Err(HttpError(second.status)) else Err(HttpError(first.status)))
      else Exchange(p.cache, Refreshes(p), [req], Err(HttpError(first.status)))
  }

  /** What `_run` returns: a bare message, or the `(content, artifact)` pair. */
  datatype Reply = Message(text: string) | ContentAndArtifact(content: Scalar, artifact: map<string, Scalar>)

  /** `output` when the pool reports success, `message` otherwise. */
  function StatusContent(answer: map<string, Scalar>): (v: Scalar)
    ensures Get(answer, "status") == Text("success") ==> v == Get(answer, "output")
    ensures Get(answer, "status") != Text("success") ==> v == Get(answer, "message")
  {
    if Get(answer, "status") == Text("success") then Get(answer, "output") else Get(answer, "message")
  }

  /** The reply `_run` makes of a render answer, or the failure the render raised. */
  function RenderReply(outcome: Result<map<string, Scalar>, Failure>): (r: Result<Reply, Failure>)
    ensures outcome.Err? ==> r == Err(outcome.error)
    ensures outcome.Ok? ==> r == Ok(ContentAndArtifact(StatusContent(outcome.value), outcome.value))
  {
    match outcome
    case Err(e) => Err(e)
    case Ok(answer) => Ok(ContentAndArtifact(StatusContent(answer), answer))
  }

  /** `_run` once the scene is known: upload, and render only when the upload returned true. */
  function RunSceneSpec(cache: Option<AccessToken>, upload: Moment, render: Moment, endpoint: string, sessionId: string,
                        code: string, scene: string, first: Response, second: Response, third: Response): Exchange<Reply>
  {
    var c := CreateFileSpec(cache, upload, endpoint, sessionId, code, scene, first);
    match c.outcome
    case Err(e) => Exchange(c.cache, c.refreshes, c.requests, Err(e))
    case Ok(created) =>
      if !created then Exchange(c.cache, c.refreshes, c.requests, Ok(ContentAndArtifact(Text(CreateErrorMessage), map[])))
      else
        var x := ExecuteSpec(c.cache, render, endpoint, sessionId, scene, second, third);
        Exchange(x.cache, c.refreshes + x.refreshes, c.requests + x.requests, RenderReply(x.outcome))
  }

  /**
   * `_run(python_code)`: find the scene, upload the code, render it. `first`
   * answers the upload, `second` and `third` the render and its retry;
   * `upload` and `render` are the moments of the two token lookups.
   */
  function RunSpec(cache: Option<AccessToken>, upload: Moment, render: Moment, endpoint: string, sessionId: string,
                   code: string, first: Response, second: Response, third: Response): Exchange<Reply>
  {
    match SceneName(code)
    case None => Exchange(cache, 0, [], Ok(Message(NoClassMessage)))
    case Some(scene) => RunSceneSpec(cache, upload, render, endpoint, sessionId, code, scene, first, second, third)
  }
}
