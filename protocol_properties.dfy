/** What the remote operations promise: attempts, request contents, outcomes. */
module ProtocolProperties {
  import opened Wrappers
  import opened Failures
  import opened Json
  import opened CharClasses
  import opened Urls
  import opened PercentEncoding
  import opened AccessTokens
  import opened Http
  import opened SceneNames
  import opened SessionProtocol

  /** The token is fetched before the url is built: with no endpoint the cache is still filled. */
  lemma TokenFetchedBeforeEndpointCheck(m: Moment, sessionId: string, path: string)
    requires m.issued.Ok?
    ensures Prepare(None, m, "", sessionId, path) == Prepared(Some(m.issued.value), true, Err(EndpointNotSet))
  {
  }

  /** `createfile` sends at most one request, the upload, and is true only on 200. */
  lemma CreateFileContract(cache: Option<AccessToken>, m: Moment, endpoint: string, sessionId: string,
                           code: string, scene: string, first: Response)
    ensures var x := CreateFileSpec(cache, m, endpoint, sessionId, code, scene, first);
      var p := Prepare(cache, m, endpoint, sessionId, CreatePath);
      && x.cache == Fetch(cache, m).cache
      && |x.requests| <= 1
      && (x.requests == [] <==> p.call.Err?)
      && (x.requests != [] ==> x.requests[0] == Request(p.call.value.url, p.call.value.bearer, Raw(UploadBody(scene, code))))
      && (x.outcome == Ok(true) <==> p.call.Ok? && first.status == CreatedOk)
      && (p.call.Ok? ==> (x.outcome.Err? <==> RaisesForStatus(first.status)))
      && (p.call.Err? ==> x.outcome == Err(p.call.error))
  {
  }

  /** The response an operation's result is read from: the retry's when there was one. */
  function LastAnswer<T>(x: Exchange<T>, first: Response, second: Response): Response {
    if |x.requests| == 2 then second else first
  }

  /**
   * `execute` sends the render command at most twice, the second time
   * exactly when the first answer is a 500.
   */
  lemma ExecuteAttempts(cache: Option<AccessToken>, m: Moment, endpoint: string, sessionId: string,
                        scene: string, first: Response, second: Response)
    ensures var x := ExecuteSpec(cache, m, endpoint, sessionId, scene, first, second);
      var p := Prepare(cache, m, endpoint, sessionId, GeneratePath);
      && x.cache == Fetch(cache, m).cache
      && |x.requests| <= 2
      && (|x.requests| == 0 <==> p.call.Err?)
      && (|x.requests| == 2 <==> p.call.Ok? && first.status == RetryExecuteStatus)
      && (forall k :: 0 <= k < |x.requests| ==>
            x.requests[k] == ExecuteRequest(p.call.value, scene)
            && x.requests[k].body.fields["command"] == RenderCommand(scene))
  {
  }

  /**
   * `execute` fails before posting anything when the token or the url
   * fails. Otherwise its result is decided by the last answer: its JSON object when
   * that answer's status does not raise, the error of its status otherwise;
   * a first failure other than 500 raises without a retry.
   */
  lemma ExecuteOutcome(cache: Option<AccessToken>, m: Moment, endpoint: string, sessionId: string,
                       scene: string, first: Response, second: Response)
    ensures var x := ExecuteSpec(cache, m, endpoint, sessionId, scene, first, second);
      var p := Prepare(cache, m, endpoint, sessionId, GeneratePath);
      p.call.Err? ==> |x.requests| == 0 && x.outcome == Err(p.call.error)
    ensures var x := ExecuteSpec(cache, m, endpoint, sessionId, scene, first, second);
      var last := LastAnswer(x, first, second);
      Prepare(cache, m, endpoint, sessionId, GeneratePath).call.Ok? ==>
      && (x.outcome.Ok? <==> !RaisesForStatus(last.status) && last.json.Some?)
      && (x.outcome.Ok? ==> x.outcome.value == last.json.value)
      && (RaisesForStatus(last.status) ==> x.outcome == Err(HttpError(last.status)))
      && (RaisesForStatus(first.status) && first.status != RetryExecuteStatus ==> |x.requests| == 1 && x.outcome == Err(HttpError(first.status)))
  {
  }

  /**
   * `download_file` sends the unquoted path at most twice, the second time
   * exactly when the first answer is a 404.
   */
  lemma DownloadAttempts(cache: Option<AccessToken>, m: Moment, endpoint: string, sessionId: string,
                         remotePath: string, first: Response, second: Response)
    ensures var x := DownloadSpec(cache, m, endpoint, sessionId, remotePath, first, second);
      var p := Prepare(cache, m, endpoint, sessionId, VideoPath);
      && x.cache == Fetch(cache, m).cache
      && |x.requests| <= 2
      && (|x.requests| == 0 <==> p.call.Err?)
      && (|x.requests| == 2 <==> p.call.Ok? && first.status == RetryDownloadStatus)
      && (forall k :: 0 <= k < |x.requests| ==>
            x.requests[k] == DownloadRequest(p.call.value, remotePath)
            && '\'' !in x.requests[k].body.fields["videofile"])
  {
  }

  /**
   * `download_file` fails before posting anything when the token or the url
   * fails. Otherwise it returns the first answer's bytes when that does not
   * raise. A failed first answer always raises: after a 404, the retry's
   * error if the retry fails, else the first 404 even though the retry succeeded.
   */
  lemma DownloadOutcome(cache: Option<AccessToken>, m: Moment, endpoint: string, sessionId: string,
                        remotePath: string, first: Response, second: Response)
    ensures var x := DownloadSpec(cache, m, endpoint, sessionId, remotePath, first, second);
      var p := Prepare(cache, m, endpoint, sessionId, VideoPath);
      p.call.Err? ==> |x.requests| == 0 && x.outcome == Err(p.call.error)
    ensures var x := DownloadSpec(cache, m, endpoint, sessionId, remotePath, first, second);
      Prepare(cache, m, endpoint, sessionId, VideoPath).call.Ok? ==>
      && (x.outcome.Ok? <==> !RaisesForStatus(first.status))
      && (x.outcome.Ok? ==> x.outcome.value == first.content)
      && (first.status == RetryDownloadStatus && !RaisesForStatus(second.status) ==> |x.requests| == 2 && x.outcome == Err(HttpError(RetryDownloadStatus)))
      && (first.status == RetryDownloadStatus && RaisesForStatus(second.status) ==> x.outcome == Err(HttpError(second.status)))
  {
  }

  /** A scene name is a run of word characters, so it holds no space and no line break. */
  lemma SceneNameHasNoBreaks(scene: string)
    requires forall i :: 0 <= i < |scene| ==> IsWordChar(scene[i])
    ensures ' ' !in scene && '\n' !in scene
  {
    assert forall i :: 0 <= i < |scene| ==> scene[i] != ' ' && scene[i] != '\n' by {
      forall i | 0 <= i < |scene| ensures scene[i] != ' ' && scene[i] != '\n' {
        assert IsWordChar(scene[i]);
      }
    }
  }

  /** Without a class in the code there is no token lookup, no request, and the bare message. */
  lemma RunWithoutClass(cache: Option<AccessToken>, upload: Moment, render: Moment, endpoint: string, sessionId: string,
                        code: string, first: Response, second: Response, third: Response)
    requires forall p, j, k :: !IsClassMatch(code, p, j, k)
    ensures RunSpec(cache, upload, render, endpoint, sessionId, code, first, second, third)
      == Exchange(cache, 0, [], Ok(Message(NoClassMessage)))
  {
    SceneNameIsLeftmostMatch(code);
  }

  /**
   * With a class in the code, `_run` uploads the code under the scene's file
   * name, so that the first line of the upload names `<scene>.py` and the rest
   * is the code, and renders with the scene in the script, scene and output
   * arguments of the command.
   */
  lemma RunUploadsTheScene(cache: Option<AccessToken>, upload: Moment, render: Moment, endpoint: string, sessionId: string,
                           code: string, first: Response, second: Response, third: Response)
    requires SceneName(code).Some?
    ensures var x := RunSpec(cache, upload, render, endpoint, sessionId, code, first, second, third);
      var scene := SceneName(code).value;
      && |x.requests| <= 3
      && (x.requests != [] ==> x.requests[0].body == Raw(UploadBody(scene, code)))
      && (|x.requests| > 1 ==> x.requests[1].body == JsonObject(map["command" := RenderCommand(scene)]))
      && SplitFirstLine(UploadText(scene, code)) == Some((scene + ".py", code))
      && Words(RenderCommand(scene)) == ["manim", "-qh", scene + ".py", scene, "-o", scene + ".mp4"]
  {
    var scene := SceneName(code).value;
    SceneNameHasNoBreaks(scene);
    UploadRoundTrip(scene, code);
    RenderCommandArguments(scene);
    var c := CreateFileSpec(cache, upload, endpoint, sessionId, code, scene, first);
    CreateFileContract(cache, upload, endpoint, sessionId, code, scene, first);
    ExecuteAttempts(c.cache, render, endpoint, sessionId, scene, second, third);
  }

  /** An upload answered with a status that neither raises nor is 200 ends the run with the creation error. */
  lemma RunStopsWhenNotCreated(cache: Option<AccessToken>, upload: Moment, render: Moment, endpoint: string, sessionId: string,
                               code: string, first: Response, second: Response, third: Response)
    requires SceneName(code).Some?
    requires Prepare(cache, upload, endpoint, sessionId, CreatePath).call.Ok?
    requires !RaisesForStatus(first.status) && first.status != CreatedOk
    ensures var x := RunSpec(cache, upload, render, endpoint, sessionId, code, first, second, third);
      |x.requests| == 1 && x.outcome == Ok(ContentAndArtifact(Text(CreateErrorMessage), map[]))
  {
  }

  /**
   * The replies of a run: the bare message exactly when there is no class,
   * the creation error with an empty artifact, or the rendered answer as the
   * artifact with its output or message as the content.
   */
  lemma RunReplies(cache: Option<AccessToken>, upload: Moment, render: Moment, endpoint: string, sessionId: string,
                   code: string, first: Response, second: Response, third: Response)
    ensures var x := RunSpec(cache, upload, render, endpoint, sessionId, code, first, second, third);
      && (x.outcome == Ok(Message(NoClassMessage)) <==> SceneName(code).None?)
      && (x.outcome.Ok? && x.outcome.value.ContentAndArtifact? ==>
            x.outcome.value == ContentAndArtifact(Text(CreateErrorMessage), map[])
            || (var last := if |x.requests| == 3 then third else second;
                && last.json == Some(x.outcome.value.artifact)
                && x.outcome.value.content == StatusContent(x.outcome.value.artifact)))
  {
    match SceneName(code)
    case None =>
    case Some(scene) =>
      var c := CreateFileSpec(cache, upload, endpoint, sessionId, code, scene, first);
      CreateFileContract(cache, upload, endpoint, sessionId, code, scene, first);
      if c.outcome == Ok(true) {
        var e := ExecuteSpec(c.cache, render, endpoint, sessionId, scene, second, third);
        ExecuteAttempts(c.cache, render, endpoint, sessionId, scene, second, third);
        if e.outcome.Ok? {
          ExecuteOutcome(c.cache, render, endpoint, sessionId, scene, second, third);
        }
      }
  }

  /**
   * A run with a cached token valid through both lookups, a file created
   * with 200 and a render answered with a JSON object: two requests, no
   * token refresh, the answer as the artifact.
   */
  lemma RunHappyPath(cache: Option<AccessToken>, upload: Moment, render: Moment, endpoint: string, sessionId: string,
                     code: string, first: Response, second: Response, third: Response)
    requires SceneName(code).Some?
    requires upload.nowMicros <= render.nowMicros && !NeedsRefresh(cache, render.nowMicros)
    requires endpoint != []
    requires first.status == CreatedOk && !RaisesForStatus(second.status) && second.json.Some?
    ensures var x := RunSpec(cache, upload, render, endpoint, sessionId, code, first, second, third);
      var scene := SceneName(code).value;
      var bearer := cache.value.token;
      && x.refreshes == 0 && x.cache == cache
      && x.requests == [Request(BuildUrl(endpoint, sessionId, CreatePath).value, bearer, Raw(UploadBody(scene, code))),
                        Request(BuildUrl(endpoint, sessionId, GeneratePath).value, bearer, JsonObject(map["command" := RenderCommand(scene)]))]
      && x.outcome == Ok(ContentAndArtifact(StatusContent(second.json.value), second.json.value))
  {
    ValidTokenStaysValidEarlier(cache, upload.nowMicros, render.nowMicros);
  }
}
