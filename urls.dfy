/**
 * `SessionsPythonREPLTool._build_url`: the address of one operation of the
 * session pool, scoped to the tool's session by an `identifier` parameter.
 */
module Urls {
  import opened Wrappers
  import opened Failures
  import opened Utf8
  import opened PercentEncoding

  /** The endpoint with a `/` appended, unless it already ends in one. */
  function WithTrailingSlash(endpoint: string): (ep: string)
    ensures ep != [] && ep[|ep| - 1] == '/'
    ensures ep == endpoint || ep == endpoint + "/"
    ensures endpoint != [] && endpoint[|endpoint| - 1] == '/' ==> ep == endpoint
  {
    if endpoint != [] && endpoint[|endpoint| - 1] == '/' then endpoint else endpoint + "/"
  }

  /** `&` when the endpoint already carries a query, `?` otherwise. */
  function QuerySeparator(endpoint: string): (sep: char)
    ensures sep == '&' || sep == '?'
    ensures sep == '&' <==> '?' in endpoint
  {
    if '?' in endpoint then '&' else '?'
  }

  /** The name of the query parameter that carries the session id. */
  const IdentifierParameter: string := "identifier="

  /**
   * `_build_url(path)`: fails exactly when the endpoint is empty, and
   * otherwise starts with the endpoint and ends with the quoted session id.
   */
  function BuildUrl(endpoint: string, sessionId: string, path: string): (r: Result<string, Failure>)
    ensures r.Err? <==> endpoint == []
    ensures r.Err? ==> r.error == EndpointNotSet
    ensures r.Ok? ==> endpoint <= r.value
  {
    if endpoint == [] then Err(EndpointNotSet)
    else
      var ep := WithTrailingSlash(endpoint);
      var query := IdentifierParameter + Quote(sessionId);
      var url := ep + path + [QuerySeparator(ep)] + query;
      assert url == (ep + path + [QuerySeparator(ep)] + IdentifierParameter) + Quote(sessionId);
      Ok(url)
  }

  /** Appending `/` adds no `?`, so the separator depends on the endpoint as configured. */
  lemma SeparatorFollowsEndpoint(endpoint: string)
    ensures QuerySeparator(WithTrailingSlash(endpoint)) == (if '?' in endpoint then '&' else '?')
  {
  }

  /**
   * The url for every path: the endpoint ending in `/`, the path, the
   * separator the endpoint as configured calls for, and the identifier
   * parameter with the quoted session id.
   */
  lemma BuildUrlLayout(endpoint: string, sessionId: string, path: string)
    ensures endpoint != [] ==>
      BuildUrl(endpoint, sessionId, path)
        == Ok(WithTrailingSlash(endpoint) + path + [QuerySeparator(endpoint)] + IdentifierParameter + Quote(sessionId))
  {
    SeparatorFollowsEndpoint(endpoint);
    var ep := WithTrailingSlash(endpoint);
    var q := Quote(sessionId);
    assert ep + path + [QuerySeparator(ep)] + (IdentifierParameter + q)
      == ep + path + [QuerySeparator(endpoint)] + IdentifierParameter + q;
  }

  /** Quoted text holds no `?`, `&` or `=`: they are not kept characters. */
  lemma QuotedHasNoDelimiters(sessionId: string)
    ensures forall k :: 0 <= k < |Quote(sessionId)| ==> Quote(sessionId)[k] !in "?&="
  {
    QuoteAlphabet(Encode(sessionId));
  }

  /**
   * When neither the endpoint nor the path holds a `?`, the url holds exactly
   * one, right after the path, and what follows it is the identifier
   * parameter with the quoted session id.
   */
  lemma SingleQueryWhenEndpointHasNone(endpoint: string, sessionId: string, path: string)
    requires endpoint != []
    requires '?' !in endpoint && '?' !in path
    ensures var url := BuildUrl(endpoint, sessionId, path).value;
      var i := |WithTrailingSlash(endpoint)| + |path|;
      && i < |url| && url[i] == '?'
      && url[..i] == WithTrailingSlash(endpoint) + path
      && url[i + 1..] == IdentifierParameter + Quote(sessionId)
      && forall k :: 0 <= k < |url| && k != i ==> url[k] != '?'
  {
    var ep := WithTrailingSlash(endpoint);
    SeparatorFollowsEndpoint(endpoint);
    QuotedHasNoDelimiters(sessionId);
    var url := BuildUrl(endpoint, sessionId, path).value;
    var i := |ep| + |path|;
    var q := Quote(sessionId);
    assert url == (ep + path) + ['?'] + (IdentifierParameter + q);
    assert '?' !in ep by {
      assert ep == endpoint || ep == endpoint + "/";
    }
    forall k | 0 <= k < |url| && k != i ensures url[k] != '?' {
      if k < |ep| {
        assert url[k] == ep[k];
      } else if k < i {
        assert url[k] == path[k - |ep|];
      } else if k < i + 1 + |IdentifierParameter| {
        assert url[k] == IdentifierParameter[k - i - 1];
      } else {
        assert url[k] == q[k - i - 1 - |IdentifierParameter|];
      }
    }
  }

  /** When the endpoint already carries a query, the identifier is joined to it with `&`. */
  lemma JoinsExistingQuery(endpoint: string, sessionId: string, path: string)
    requires '?' in endpoint
    ensures var url := BuildUrl(endpoint, sessionId, path).value;
      var i := |WithTrailingSlash(endpoint)| + |path|;
      && i < |url| && url[i] == '&'
      && url[..i] == WithTrailingSlash(endpoint) + path
      && url[i + 1..] == IdentifierParameter + Quote(sessionId)
  {
    SeparatorFollowsEndpoint(endpoint);
    var ep := WithTrailingSlash(endpoint);
    var url := BuildUrl(endpoint, sessionId, path).value;
    assert url == (ep + path) + ['&'] + (IdentifierParameter + Quote(sessionId));
  }

  /**
   * The session id can be read back from the url: the text after the last `=`
   * is the quoted id, and reading it back gives the id's UTF-8 bytes, whose
   * decoding is the id.
   */
  lemma SessionIdRecoverable(endpoint: string, sessionId: string, path: string)
    requires endpoint != []
    ensures var url := BuildUrl(endpoint, sessionId, path).value;
      var k := |url| - |Quote(sessionId)|;
      && 0 < k && url[k - 1] == '='
      && (forall j :: k <= j < |url| ==> url[j] != '=')
      && Unquote(url[k..]) == Some(Encode(sessionId))
      && Decode(Unquote(url[k..]).value) == sessionId
  {
    var ep := WithTrailingSlash(endpoint);
    var q := Quote(sessionId);
    var url := BuildUrl(endpoint, sessionId, path).value;
    var k := |url| - |q|;
    assert url == (ep + path + [QuerySeparator(ep)] + IdentifierParameter) + q;
    assert url[k - 1] == IdentifierParameter[|IdentifierParameter| - 1];
    QuotedHasNoDelimiters(sessionId);
    forall j | k <= j < |url| ensures url[j] != '=' {
      assert url[j] == q[j - k];
    }
    assert url[k..] == q;
    DecodeEncode(sessionId);
  }

  /** For an endpoint that ends in `/` and has no query, the url is the plain concatenation. */
  lemma UrlForPlainEndpoint(endpoint: string, sessionId: string, path: string)
    requires endpoint != [] && endpoint[|endpoint| - 1] == '/' && '?' !in endpoint
    ensures BuildUrl(endpoint, sessionId, path) == Ok(endpoint + path + "?identifier=" + Quote(sessionId))
  {
    BuildUrlLayout(endpoint, sessionId, path);
    var q := Quote(sessionId);
    assert WithTrailingSlash(endpoint) == endpoint;
    assert ['?'] + IdentifierParameter == "?identifier=";
    assert endpoint + path + ['?'] + IdentifierParameter + q == endpoint + path + (['?'] + IdentifierParameter) + q;
  }
}
