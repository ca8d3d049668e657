/**
 * `_access_token_provider_factory`: a one-cell cache in front of the identity
 * provider. A cached token is reused while it stays valid for at least five
 * more minutes; otherwise the provider is asked for a new one.
 *
 * Time is a count of microseconds since the Unix epoch (the resolution of
 * `datetime.now`); a token's `expires_on` is whole seconds since the epoch.
 */
module AccessTokens {
  import opened Wrappers
  import opened Failures

  datatype AccessToken = AccessToken(token: string, expiresOn: int)

  /**
   * What one call of the provider sees: the clock, and what the identity
   * provider answers if it is asked (a token, or the failure it raises).
   */
  datatype Moment = Moment(nowMicros: int, issued: Result<AccessToken, Failure>)

  const MicrosPerSecond: int := 1_000_000
  /** `timedelta(minutes=5)`. */
  const RefreshMarginMicros: int := 5 * 60 * MicrosPerSecond

  /** The refresh rule; the comparison is strict. */
  predicate NeedsRefresh(cached: Option<AccessToken>, nowMicros: int) {
    cached.None? || cached.value.expiresOn * MicrosPerSecond < nowMicros + RefreshMarginMicros
  }

  /** The cache after a call, whether the provider was asked, and the call's outcome. */
  datatype TokenStep = TokenStep(cache: Option<AccessToken>, refreshed: bool, outcome: Result<string, Failure>)

  /**
   * One call of `access_token_provider()`. A failing identity provider raises
   * before the assignment, so the cache keeps its old content.
   */
  function Fetch(cached: Option<AccessToken>, m: Moment): (s: TokenStep)
    ensures s.refreshed <==> NeedsRefresh(cached, m.nowMicros)
    ensures !s.refreshed ==> s.cache == cached && s.outcome == Ok(cached.value.token)
    ensures s.refreshed && m.issued.Ok? ==> s.cache == Some(m.issued.value) && s.outcome == Ok(m.issued.value.token)
    ensures s.refreshed && m.issued.Err? ==> s.cache == cached && s.outcome == Err(m.issued.error)
    ensures s.outcome.Ok? ==> s.cache.Some? && s.outcome.value == s.cache.value.token
  {
    if NeedsRefresh(cached, m.nowMicros) then
      match m.issued
      case Ok(t) => TokenStep(Some(t), true, Ok(t.token))
      case Err(e) => TokenStep(cached, true, Err(e))
    else
      TokenStep(cached, false, Ok(cached.value.token))
  }

  /** A token still valid five minutes from `later` is valid five minutes from any earlier time. */
  lemma ValidTokenStaysValidEarlier(cached: Option<AccessToken>, earlier: int, later: int)
    requires earlier <= later
    requires !NeedsRefresh(cached, later)
    ensures !NeedsRefresh(cached, earlier)
  {
  }

  /** Expiry exactly five minutes ahead is not a reason to refresh; one microsecond less is. */
  lemma RefreshBoundary(t: AccessToken, nowMicros: int)
    ensures t.expiresOn * MicrosPerSecond == nowMicros + RefreshMarginMicros ==> !NeedsRefresh(Some(t), nowMicros)
    ensures t.expiresOn * MicrosPerSecond == nowMicros + RefreshMarginMicros ==> NeedsRefresh(Some(t), nowMicros + 1)
  {
  }

  /** A token with ten minutes left is reused; one with four minutes left is replaced. */
  lemma TenMinutesLeftIsReusedFourIsNot(t: AccessToken, m: Moment)
    requires t.expiresOn * MicrosPerSecond == m.nowMicros + 10 * 60 * MicrosPerSecond
    ensures Fetch(Some(t), m) == TokenStep(Some(t), false, Ok(t.token))
    ensures Fetch(Some(t), m.(nowMicros := m.nowMicros + 6 * 60 * MicrosPerSecond)).refreshed
  {
  }

  /**
   * The calls made in turn, each seeing its own moment: the cache they leave
   * and how many of them asked the provider. The cache is the one they started
   * with, or a token issued at one of the moments; without a request it is
   * the one they started with.
   */
  function Replay(cached: Option<AccessToken>, ms: seq<Moment>): (r: (Option<AccessToken>, nat))
    ensures r.1 <= |ms|
    ensures r.0 == cached || exists k :: 0 <= k < |ms| && ms[k].issued.Ok? && r.0 == Some(ms[k].issued.value)
    ensures r.1 == 0 ==> r.0 == cached
    decreases |ms|
  {
    if ms == [] then (cached, 0)
    else
      var s := Fetch(cached, ms[0]);
      var rest := Replay(s.cache, ms[1..]);
      (rest.0, rest.1 + if s.refreshed then 1 else 0)
  }

  /**
   * One more call after a run of calls: the cache and the request count move
   * on as that call's `Fetch` says. `AccessTokenProvider.GetEach` uses it to
   * show that a run of `Get` calls leaves the state `Replay` gives.
   */
  lemma {:induction false} ReplaySnoc(cached: Option<AccessToken>, ms: seq<Moment>, m: Moment)
    ensures var before := Replay(cached, ms);
      var s := Fetch(before.0, m);
      Replay(cached, ms + [m]) == (s.cache, before.1 + if s.refreshed then 1 else 0)
    decreases |ms|
  {
    if ms == [] {
      assert [] + [m] == [m];
    } else {
      assert (ms + [m])[0] == ms[0] && (ms + [m])[1..] == ms[1..] + [m];
      ReplaySnoc(Fetch(cached, ms[0]).cache, ms[1..], m);
    }
  }

  /** Calls made while the cached token stays valid ask nothing and change nothing. */
  lemma {:induction false} NoRefreshWhileValid(cached: Option<AccessToken>, ms: seq<Moment>, until: int)
    requires !NeedsRefresh(cached, until)
    requires forall k :: 0 <= k < |ms| ==> ms[k].nowMicros <= until
    ensures Replay(cached, ms) == (cached, 0)
    decreases |ms|
  {
    if ms != [] {
      ValidTokenStaysValidEarlier(cached, ms[0].nowMicros, until);
      NoRefreshWhileValid(cached, ms[1..], until);
    }
  }

  /**
   * Starting with an empty cache, a run of calls asks the provider exactly
   * once when the first token it issues stays valid five minutes past the last call.
   */
  lemma ExactlyOneRefreshPerValidToken(ms: seq<Moment>, until: int)
    requires ms != [] && ms[0].issued.Ok?
    requires !NeedsRefresh(Some(ms[0].issued.value), until)
    requires forall k :: 0 <= k < |ms| ==> ms[k].nowMicros <= until
    ensures Replay(None, ms) == (Some(ms[0].issued.value), 1)
  {
    var t := ms[0].issued.value;
    assert Fetch(None, ms[0]).cache == Some(t);
    assert forall k :: 0 <= k < |ms[1..]| ==> ms[1..][k] == ms[k + 1];
    NoRefreshWhileValid(Some(t), ms[1..], until);
  }

  /** A failing identity provider is asked again on the next call. */
  lemma FailureIsRetriedNextCall(cached: Option<AccessToken>, m1: Moment, m2: Moment)
    requires m1.issued.Err? && NeedsRefresh(cached, m1.nowMicros)
    requires m1.nowMicros <= m2.nowMicros
    ensures Fetch(Fetch(cached, m1).cache, m2).refreshed
  {
  }

  /**
   * The closure's state: the cached token. `credentialCalls` counts the
   * requests made to the identity provider.
   */
  class AccessTokenProvider {
    var cached: Option<AccessToken>
    ghost var credentialCalls: nat

    constructor ()
      ensures cached == None && credentialCalls == 0
    {
      cached := None;
      credentialCalls := 0;
    }

    /** `access_token_provider()`. */
    method Get(m: Moment) returns (r: Result<string, Failure>)
      modifies this
      ensures r == Fetch(old(cached), m).outcome
      ensures cached == Fetch(old(cached), m).cache
      ensures credentialCalls == old(credentialCalls) + if NeedsRefresh(old(cached), m.nowMicros) then 1 else 0
    {
      if cached.None? || cached.value.expiresOn * MicrosPerSecond < m.nowMicros + RefreshMarginMicros {
        credentialCalls := credentialCalls + 1;
        if m.issued.Err? {
          return Err(m.issued.error);
        }
        cached := Some(m.issued.value);
      }
      r := Ok(cached.value.token);
    }

    /** Lookups at the moments `ms`, one after another, leave the state `Replay` describes. */
    method GetEach(ms: seq<Moment>)
      modifies this
      ensures (cached, credentialCalls - old(credentialCalls)) == Replay(old(cached), ms)
    {
      for i := 0 to |ms|
        invariant credentialCalls >= old(credentialCalls)
        invariant (cached, credentialCalls - old(credentialCalls)) == Replay(old(cached), ms[..i])
      {
        ReplaySnoc(old(cached), ms[..i], ms[i]);
        assert ms[..i + 1] == ms[..i] + [ms[i]];
        var _ := Get(ms[i]);
      }
      assert ms[..|ms|] == ms;
    }
  }
}
