/**
 * `SessionsPythonREPLTool`: the tool object, holding its pool endpoint, its
 * session id, the token provider it shares, and (as an object of its own)
 * the session pool it talks to. Each method is proved to do what the
 * corresponding function of `SessionProtocol` describes.
 */
module SessionTool {
  import opened Wrappers
  import opened Failures
  import opened Json
  import opened Utf8
  import opened Urls
  import opened AccessTokens
  import opened Http
  import opened SceneNames
  import opened SessionProtocol

  class SessionsPythonReplTool {
    const endpoint: string
    const sessionId: string
    const tokens: AccessTokenProvider
    const pool: SessionPool

    constructor (endpoint: string, sessionId: string, tokens: AccessTokenProvider, pool: SessionPool)
      ensures this.endpoint == endpoint && this.sessionId == sessionId
      ensures this.tokens == tokens && this.pool == pool
    {
      this.endpoint := endpoint;
      this.sessionId := sessionId;
      this.tokens := tokens;
      this.pool := pool;
    }

    /** The access token, then `_build_url(path)`. */
    method Authorize(path: string, m: Moment) returns (call: Result<Call, Failure>)
      modifies tokens
      ensures var p := Prepare(old(tokens.cached), m, endpoint, sessionId, path);
        && call == p.call && tokens.cached == p.cache
        && tokens.credentialCalls == old(tokens.credentialCalls) + Refreshes(p)
    {
      var token := tokens.Get(m);
      if token.Err? {
        return Err(token.error);
      }
      var url := BuildUrl(endpoint, sessionId, path);
      if url.Err? {
        return Err(url.error);
      }
      call := Ok(Call(token.value, url.value));
    }

    /** `createfile(pythoncode, scene_name)`. */
    method CreateFile(code: string, scene: string, m: Moment) returns (r: Result<bool, Failure>)
      modifies tokens, pool
      ensures var x := CreateFileSpec(old(tokens.cached), m, endpoint, sessionId, code, scene, pool.answer(|old(pool.received)|));
        && r == x.outcome && tokens.cached == x.cache
        && pool.received == old(pool.received) + x.requests
        && tokens.credentialCalls == old(tokens.credentialCalls) + x.refreshes
    {
      var call := Authorize(CreatePath, m);
      if call.Err? {
        return Err(call.error);
      }
      var response := pool.Post(Request(call.value.url, call.value.bearer, Raw(UploadBody(scene, code))));
      if RaisesForStatus(response.status) {
        return Err(HttpError(response.status));
      }
      r := Ok(response.status == CreatedOk);
    }

    /** `execute(scene_name)`; `attempts` counts the requests sent. */
    method Execute(scene: string, m: Moment) returns (r: Result<map<string, Scalar>, Failure>, attempts: nat)
      modifies tokens, pool
      ensures var n := |old(pool.received)|;
        var x := ExecuteSpec(old(tokens.cached), m, endpoint, sessionId, scene, pool.answer(n), pool.answer(n + 1));
        && r == x.outcome && tokens.cached == x.cache
        && pool.received == old(pool.received) + x.requests
        && attempts == |x.requests| <= 2
        && tokens.credentialCalls == old(tokens.credentialCalls) + x.refreshes
    {
      var call := Authorize(GeneratePath, m);
      if call.Err? {
        return Err(call.error), 0;
      }
      var req := ExecuteRequest(call.value, scene);
      var response := pool.Post(req);
      attempts := 1;
      if RaisesForStatus(response.status) {
        if response.status == RetryExecuteStatus {
          response := pool.Post(req);
          attempts := attempts + 1;
          if RaisesForStatus(response.status) {
            return Err(HttpError(response.status)), attempts;
          }
        } else {
          return Err(HttpError(response.status)), attempts;
        }
      }
      r := JsonOf(response);
    }

    /** `download_file(remote_file_path=...)`; `attempts` counts the requests sent. */
    method DownloadFile(remotePath: string, m: Moment) returns (r: Result<seq<Byte>, Failure>, attempts: nat)
      modifies tokens, pool
      ensures var n := |old(pool.received)|;
        var x := DownloadSpec(old(tokens.cached), m, endpoint, sessionId, remotePath, pool.answer(n), pool.answer(n + 1));
        && r == x.outcome && tokens.cached == x.cache
        && pool.received == old(pool.received) + x.requests
        && attempts == |x.requests| <= 2
        && tokens.credentialCalls == old(tokens.credentialCalls) + x.refreshes
    {
      var call := Authorize(VideoPath, m);
      if call.Err? {
        return Err(call.error), 0;
      }
      var req := DownloadRequest(call.value, remotePath);
      var response := pool.Post(req);
      attempts := 1;
      if RaisesForStatus(response.status) {
        var firstError := HttpError(response.status);
        if response.status == RetryDownloadStatus {
          response := pool.Post(req);
          attempts := attempts + 1;
          if RaisesForStatus(response.status) {
            return Err(HttpError(response.status)), attempts;
          }
        }
        return Err(firstError), attempts;
      }
      r := Ok(response.content);
    }

    /** `_run(python_code)`; `upload` and `render` are the moments of the two token lookups. */
    method Run(code: string, upload: Moment, render: Moment) returns (r: Result<Reply, Failure>)
      modifies tokens, pool
      ensures var n := |old(pool.received)|;
        var x := RunSpec(old(tokens.cached), upload, render, endpoint, sessionId, code,
                         pool.answer(n), pool.answer(n + 1), pool.answer(n + 2));
        && r == x.outcome && tokens.cached == x.cache
        && pool.received == old(pool.received) + x.requests
        && tokens.credentialCalls == old(tokens.credentialCalls) + x.refreshes
    {
      var scene := SceneName(code);
      if scene.None? {
        return Ok(Message(NoClassMessage));
      }
      r := RunScene(code, scene.value, upload, render);
    }

    /** The part of `_run` after the scene name is found. */
    method RunScene(code: string, scene: string, upload: Moment, render: Moment) returns (r: Result<Reply, Failure>)
      modifies tokens, pool
      ensures var n := |old(pool.received)|;
        var x := RunSceneSpec(old(tokens.cached), upload, render, endpoint, sessionId, code, scene,
                              pool.answer(n), pool.answer(n + 1), pool.answer(n + 2));
        && r == x.outcome && tokens.cached == x.cache
        && pool.received == old(pool.received) + x.requests
        && tokens.credentialCalls == old(tokens.credentialCalls) + x.refreshes
    {
      ghost var n, cache := |pool.received|, tokens.cached;
      ghost var c := CreateFileSpec(cache, upload, endpoint, sessionId, code, scene, pool.answer(n));
      var created := CreateFile(code, scene, upload);
      assert created == c.outcome && tokens.cached == c.cache && pool.received == old(pool.received) + c.requests;
      if created.Err? {
        return Err(created.error);
      }
      if !created.value {
        return Ok(ContentAndArtifact(Text(CreateErrorMessage), map[]));
      }
      assert |pool.received| == n + 1 && tokens.cached == c.cache;
      ghost var sent := pool.received;
      ghost var x := ExecuteSpec(c.cache, render, endpoint, sessionId, scene, pool.answer(n + 1), pool.answer(n + 2));
      var response, _ := Execute(scene, render);
      assert response == x.outcome && tokens.cached == x.cache && pool.received == sent + x.requests;
      r := RenderReply(response);
    }
  }
}
