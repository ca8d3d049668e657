# A verified model of the ManimGenie session client

ManimGenie renders Manim animations in a remote sandbox. An Azure Container
Apps dynamic-sessions pool runs the sandbox. The client side lives in
`manimgenie/sessionpythonrepltool.py`, and this project models that client:

- **fenced code blocks**: how they are found in a model answer, by the
  `re.findall` scan that `extract_markdown_code_blocks` runs;
- **`_sanitize_input`**: how a REPL query is cleaned up;
- **`_build_url`**: how a pool url is built, including the percent-encoding
  of the session id by `urllib.parse.quote` (sections 2.1 and 2.3 of RFC 3986);
- **`RemoteFileMetadata`**: how a remote file's metadata is read, and its
  full path;
- **the access-token cache**: the one-cell cache in front of the identity
  provider, with its five-minute refresh rule;
- **the remote operations**: `createfile`, `execute` (one retry after a 500),
  `download_file` (one retry after a 404, then a raise in every case), and
  `_run`, which ties them together.

The model keeps the source's form:

- Regular expressions are written out as the engine evaluates them:
  - `MatchAt` follows the greedy optional tag group and the lazy body;
  - `Scan` is findall's leftmost, non-overlapping scan;
  - `LeadingMatchEnd` and `StripTrailing` are the two substitutions of the
    sanitiser;
  - `FirstMatch` and `NameAt` are `re.search(r'class\s+(\w+)')`.

  Each one is proved equal to a declarative description of what its pattern
  matches, in the order the engine tries the possibilities:
  - `IsMatch` for the code-block pattern (`MatchAtIsRegexMatch`, and
    `NoMatchInIffNoReading`, which makes the `FindAllNoMatch*` lemmas
    statements about readings of the pattern);
  - `IsLeadingReading` for the first substitution
    (`LeadingMatchIsFirstReading`);
  - `IsTrailingMatch` for the second (`StripTrailingRemovesTheMatch`);
  - `IsClassMatch` for the scene-name search (`NameAtIsRegexMatch`,
    `SceneNameIsLeftmostMatch`).
- Mutable state becomes classes:
  - `AccessTokenProvider` holds the cached token and counts the calls to the
    identity provider;
  - `SessionPool` is the remote pool. It answers the n-th request it receives
    with `answer(n)` and logs every request;
  - `SessionsPythonReplTool` holds the endpoint, the session id, the provider
    and the pool.
- Each method of `SessionsPythonReplTool` is proved against a function of
  `SessionProtocol`. Such a function gives the new cache, the number of token
  refreshes, the requests sent and the outcome (`Exchange`).
  `ProtocolProperties` proves what those functions promise.
  `AccessTokenProvider.Get` is proved against `AccessTokens.Fetch`, and
  `SessionPool.Post` against the pool's `answer`.
- Exceptions are the `Failure` values of a `Result`: `ValueError`, errors
  from the identity provider, `HTTPError` for statuses 400 to 599, a body
  that is not JSON, and `AttributeError` on a value that is not a mapping.
- Time is an integer count of microseconds. The clock and the identity
  provider are given to each token lookup as a `Moment`, as its parameters.

## Where the code departs from its own text

The model follows the code in each of these cases:

- **`download_file`.** The 404 branch (lines 284-286) posts the request a
  second time, which only makes sense if that answer were used. But
  `raise e` (line 287) sits after the `if`, not in an `else`. So a failed
  first attempt always raises: after a 404, the retry's own error (line
  286) if the retry fails, and the first 404 otherwise, so a successful
  retry is discarded (`ProtocolProperties.DownloadOutcome`).
- **`createfile`.** It returns `True` only for status 200 (lines 207-208),
  and has no `else`. `raise_for_status` (line 203) raises only for 400 to
  599. So a status that is neither, such as 201, makes `createfile` return
  `None`, and `_run` then answers `("Error creating file", {})` (lines 244
  and 247, `ProtocolProperties.RunStopsWhenNotCreated`).
- **The session id.** Its docstring (line 173) says it defaults to a random
  UUID. But the default `str(uuid4())` (line 172) is evaluated once, when
  the class body runs, so every instance built without an id shares the
  same one. The default token provider (lines 167-169) is shared the same
  way. The model makes the id and the token provider constructor
  parameters of the tool, which callers may share between instances, as
  the code shares them.
- **`_run` without a class.** `_run` is annotated to return
  `Tuple[str, dict]` (line 238), but it returns a bare string when no class
  is found (line 243). `Reply.Message` and `Reply.ContentAndArtifact` keep
  the two shapes apart (`ProtocolProperties.RunWithoutClass`).
- **The token refresh rule.** This is not a departure, but it is easy to
  misread: the comparison on line 56 is strict, so a token that expires
  exactly five minutes from now is reused (`AccessTokens.RefreshBoundary`).

## Model

| member | source | states |
|---|---|---|
| CodeBlocks.FindFence | manimgenie/sessionpythonrepltool.py:30 | the lazy body `[\s\S]*?` stops at the first fence at or after a position; `None` exactly when no fence follows |
| CodeBlocks.FindFenceIsFirst | manimgenie/sessionpythonrepltool.py:30 | a fence with no fence before it is the one the lazy body stops at |
| CodeBlocks.MatchAt | manimgenie/sessionpythonrepltool.py:30 | a match found at `p` starts at `p` and its fence, tag, newline, body and closing fence lie in order inside the text |
| CodeBlocks.TaggedMatchIsFound | manimgenie/sessionpythonrepltool.py:30 | every reading of the pattern that uses the optional tag group is the one the engine finds at its start (greedy group first) |
| CodeBlocks.MatchAtIsRegexMatch | manimgenie/sessionpythonrepltool.py:30 | the engine yields `m` at `m.start` iff `m` is a reading of the pattern there and, if it skips the tag group, no reading at that position uses the group |
| CodeBlocks.Scan | manimgenie/sessionpythonrepltool.py:31 | every match of the findall scan starts at or after the scan's start and lies inside the text |
| CodeBlocks.FindAll | manimgenie/sessionpythonrepltool.py:31 | `pattern.findall` from a position: every match starts at or after it and lies inside the text; its order, leftmost choice and completeness are the `FindAll*` lemmas |
| CodeBlocks.Engine | manimgenie/sessionpythonrepltool.py:30-31 | the pattern's engine only returns matches anchored at the position asked, so findall may scan with it |
| CodeBlocks.ScanYieldsEngineMatches | manimgenie/sessionpythonrepltool.py:31 | each match the scan reports is what the engine returns at its start |
| CodeBlocks.FindAllYieldsEngineMatches | manimgenie/sessionpythonrepltool.py:31 | each match `findall` reports is the engine's match at its start, and a reading of the pattern |
| CodeBlocks.SilentEngine | manimgenie/sessionpythonrepltool.py:31 | a stretch where the pattern's engine finds nothing is a stretch where no match of the pattern starts |
| CodeBlocks.InDocumentOrderCons | manimgenie/sessionpythonrepltool.py:31 | a match ending before all matches of an ordered list start may be put in front of it and the list stays ordered |
| CodeBlocks.ScanInDocumentOrder | manimgenie/sessionpythonrepltool.py:31 | the scan's matches come in document order, each ending before the next starts |
| CodeBlocks.FindAllInDocumentOrder | manimgenie/sessionpythonrepltool.py:31 | `findall`'s matches come in document order and do not overlap |
| CodeBlocks.ScanSilentBeforeFirst | manimgenie/sessionpythonrepltool.py:31 | the engine finds nothing between the scan's start and its first match |
| CodeBlocks.SilentIffNoReading | manimgenie/sessionpythonrepltool.py:30-31 | the engine finds nothing at a position exactly when no reading of the pattern starts there |
| CodeBlocks.NoMatchInIffNoReading | manimgenie/sessionpythonrepltool.py:30-31 | the engine finds nothing in a stretch exactly when no reading of the pattern starts in it, so the `FindAllNoMatch*` lemmas are about readings of the pattern |
| CodeBlocks.FindAllNoMatchBeforeFirst | manimgenie/sessionpythonrepltool.py:31 | no match of the pattern starts before `findall`'s first match |
| CodeBlocks.ScanSilentBetween | manimgenie/sessionpythonrepltool.py:31 | the engine finds nothing between two consecutive matches of the scan |
| CodeBlocks.FindAllNoMatchBetween | manimgenie/sessionpythonrepltool.py:31 | no match starts between two consecutive matches of `findall`: the scan is leftmost |
| CodeBlocks.ScanSilentAfterLast | manimgenie/sessionpythonrepltool.py:31 | the engine finds nothing after the scan's last match |
| CodeBlocks.FindAllNoMatchAfterLast | manimgenie/sessionpythonrepltool.py:31 | no match starts after `findall`'s last match: no block is missed at the end |
| CodeBlocks.SliceIsFenceFree | manimgenie/sessionpythonrepltool.py:30 | the text of a stretch in which no fence starts holds no fence |
| CodeBlocks.Language | manimgenie/sessionpythonrepltool.py:34 | `match[0].strip() if match[0] else ""` is empty iff group 1 is all whitespace (the empty group included), and otherwise has no whitespace at either end |
| CodeBlocks.BlockOf | manimgenie/sessionpythonrepltool.py:34-36 | no contract of its own: the block of a match, whose code and language `FoundBlockIsWellFormed` states |
| CodeBlocks.BlockCodeIsFenceFree | manimgenie/sessionpythonrepltool.py:30-35 | when no fence starts inside the body, as for every reading of the lazy body, the code of the block (group 2) contains no three backticks |
| CodeBlocks.BlockLanguageIsTag | manimgenie/sessionpythonrepltool.py:30-34 | when group 1 is a run of `[\w\+\-]`, as in every reading of the pattern, the language is `""` iff the group took no part, and otherwise the tag itself |
| CodeBlocks.FoundBlockIsWellFormed | manimgenie/sessionpythonrepltool.py:29-37 | every block found lies between an opening fence line and a closing fence, its code is the verbatim text between them and holds no fence, and its language is `""` or a tag of `[\w\+\-]` |
| CodeBlocks.ExtractMarkdownCodeBlocks | manimgenie/sessionpythonrepltool.py:29-37 | the loop appends one block per match, in `findall`'s order, each taking group 2 as its code and the stripped group 1 as its language; text with no three backticks yields no block |
| CharClasses.RunEnd | manimgenie/sessionpythonrepltool.py:76 | a greedy repetition stops at the end of the maximal run of the class |
| CharClasses.RunStart | manimgenie/sessionpythonrepltool.py:78 | the maximal run of the class that ends at a position starts at the returned position |
| CharClasses.RunEndIsUnique | manimgenie/sessionpythonrepltool.py:76 | a run is fixed by where it starts and the first character that stops it |
| CharClasses.RunEndAfterPrefix | manimgenie/sessionpythonrepltool.py:76 | a run inside the second part of a text is that run shifted by the first part |
| CharClasses.Strip | manimgenie/sessionpythonrepltool.py:34 | `str.strip()` gives the slice of its input that starts where the leading whitespace ends and is followed only by whitespace; it has no whitespace at either end, and is non-empty when the input holds any other character |
| CharClasses.StripWithoutSpace | manimgenie/sessionpythonrepltool.py:34 | stripping text without whitespace changes nothing |
| CharClasses.TagCharIsNotSpace | manimgenie/sessionpythonrepltool.py:30 | a tag character is neither whitespace, nor a backtick, nor a newline |
| Sanitize.LowerAscii | manimgenie/sessionpythonrepltool.py:76 | no contract of its own: the case folding of `(?i:...)` on the letters of "python", used by `PythonAt` |
| Sanitize.PythonAt | manimgenie/sessionpythonrepltool.py:76 | no contract of its own: `(?i:python)` matches at a position; `PythonPrefixMatched`, `LeadEndsAtPython` and `LeadingMatchIsFirstReading` build on it |
| Sanitize.LeadingMatchEnd | manimgenie/sessionpythonrepltool.py:76 | the first substitution's match ends inside the query, and never just before whitespace (that it is the engine's match is `LeadingMatchIsFirstReading`) |
| Sanitize.LeadingMatchIsFirstReading | manimgenie/sessionpythonrepltool.py:76 | `LeadingMatchEnd` is the end of a reading of `^(\s|`)*(?i:python)?\s*`, and every reading comes after it in the engine's order (longer repetition, then the group taken, then longer `\s*`), so it is the match `re.sub` removes |
| Sanitize.StripLeading | manimgenie/sessionpythonrepltool.py:76 | no contract of its own: the query after the first substitution's match, placed by `LeadingMatchIsFirstReading` |
| Sanitize.StripTrailing | manimgenie/sessionpythonrepltool.py:78 | the second substitution keeps a prefix of the text that does not end in whitespace or a backtick, and only whitespace and backticks follow it |
| Sanitize.StripTrailingRemovesTheMatch | manimgenie/sessionpythonrepltool.py:78 | what `StripTrailing` removes is a match of `(\s|`)*$` reaching the end of the text, and no match starts earlier, `$` before a final newline included; so it is the leftmost match, and `re.sub` removes exactly it |
| Sanitize.SanitizeInput | manimgenie/sessionpythonrepltool.py:64-79 | the sanitised query never starts with whitespace and never ends with whitespace or a backtick |
| Sanitize.SanitizeInputIsSlice | manimgenie/sessionpythonrepltool.py:76-78 | the result is the slice of the query that starts where the leading match ends, and only whitespace and backticks follow it in the query |
| Sanitize.LeadEndsAtPython | manimgenie/sessionpythonrepltool.py:76 | the leading run of whitespace and backticks stops where "python" starts |
| Sanitize.PythonPrefixMatched | manimgenie/sessionpythonrepltool.py:76 | after leading whitespace and backticks, the match takes "python" in any case and the whitespace after it |
| Sanitize.PythonPrefixRemoved | manimgenie/sessionpythonrepltool.py:75-78 | a "python" in any case after leading whitespace and backticks is removed with the whitespace after it; only the trailing clean-up applies to the rest |
| Sanitize.NoPythonPrefix | manimgenie/sessionpythonrepltool.py:76 | without "python" after the leading whitespace and backticks, only they are removed at the start |
| Sanitize.CleanQueryUnchanged | manimgenie/sessionpythonrepltool.py:76-78 | a query with nothing to remove at either end, and no "python" in front, comes back unchanged |
| Sanitize.StripTrailingKeepsCleanEnd | manimgenie/sessionpythonrepltool.py:78 | text that ends in neither whitespace nor a backtick loses nothing at the end |
| Sanitize.SingleSpaceDropped | manimgenie/sessionpythonrepltool.py:76-78 | after a single space, text with clean ends is what remains |
| Sanitize.PythonAndSpaceRemoved | manimgenie/sessionpythonrepltool.py:76-78 | "python", a space and text with clean ends sanitise to that text |
| Sanitize.SanitizeRemovesOnePython | manimgenie/sessionpythonrepltool.py:76-79 | one call removes one "python": "python python x" becomes "python x", and a second call gives "x" |
| Sanitize.SanitizeIsNotIdempotent | manimgenie/sessionpythonrepltool.py:64-79 | some query sanitises differently the second time |
| Utf8.EncodeChar | manimgenie/sessionpythonrepltool.py:199 | a character is one to four UTF-8 bytes; one byte, its code, exactly for ASCII; otherwise every byte is 0x80 or more (that the bytes spell the character is `EncodeCharDecodes`) |
| Utf8.Encode | manimgenie/sessionpythonrepltool.py:199 | the encoding has at least as many bytes as the text has characters (that it loses nothing is `DecodeEncode`) |
| Utf8.EncodeAscii | manimgenie/sessionpythonrepltool.py:199 | ASCII text encodes to its own character codes |
| Utf8.EncodeAppend | manimgenie/sessionpythonrepltool.py:199 | encoding a concatenation concatenates the encodings |
| Utf8.EncodeCharDecodes | manimgenie/sessionpythonrepltool.py:199 | the lead byte of a character's encoding gives its length, and the bytes spell its code point |
| Utf8.DecodeEncode | manimgenie/sessionpythonrepltool.py:199 | decoding the UTF-8 bytes of a text of Unicode scalar values gives the text back (a lone surrogate is not a `char`; see "## Left out") |
| Utf8.EncodeIsInjective | manimgenie/sessionpythonrepltool.py:199 | different texts have different encodings |
| PercentEncoding.HexValue | manimgenie/sessionpythonrepltool.py:183 | a hexadecimal digit has a value below 16 |
| PercentEncoding.HexDigitRoundTrip | manimgenie/sessionpythonrepltool.py:183 | the digit written for a value is read back as that value |
| PercentEncoding.QuoteByte | manimgenie/sessionpythonrepltool.py:183 | a kept byte is written as itself; any other byte is `%` and its two upper-case hexadecimal digits |
| PercentEncoding.QuoteBytes | manimgenie/sessionpythonrepltool.py:183 | quoting bytes never shortens them (that it loses nothing is `QuoteRoundTrip`) |
| PercentEncoding.Quote | manimgenie/sessionpythonrepltool.py:183 | `urllib.parse.quote` never shortens, and reading its result back gives the text's UTF-8 bytes |
| PercentEncoding.Unquote | manimgenie/sessionpythonrepltool.py:183 | no contract of its own: the decoder that `QuoteRoundTrip` proves to undo quoting |
| PercentEncoding.QuoteBytesAppend | manimgenie/sessionpythonrepltool.py:183 | quoting a concatenation quotes the parts |
| PercentEncoding.QuoteIsPercentEncoded | manimgenie/sessionpythonrepltool.py:183 | quoted text is made of kept characters and `%XX` triples with upper-case digits |
| PercentEncoding.QuoteAlphabet | manimgenie/sessionpythonrepltool.py:183 | every character of quoted text is an unreserved character of RFC 3986, `/` or `%` |
| PercentEncoding.QuoteRoundTrip | manimgenie/sessionpythonrepltool.py:183 | decoding the quoted text gives back exactly the bytes |
| PercentEncoding.QuoteIsInjective | manimgenie/sessionpythonrepltool.py:183 | different session ids are quoted differently |
| PercentEncoding.QuoteCons | manimgenie/sessionpythonrepltool.py:183 | quoting text quotes its first character's bytes, then the rest |
| PercentEncoding.QuoteKeepsKeptText | manimgenie/sessionpythonrepltool.py:183 | quoting leaves text of kept characters unchanged |
| PercentEncoding.UnchangedTextIsKept | manimgenie/sessionpythonrepltool.py:183 | text that quoting leaves unchanged holds kept characters only |
| PercentEncoding.QuoteIsIdentityIffKept | manimgenie/sessionpythonrepltool.py:183 | quoting leaves text unchanged iff every character is unreserved or `/` |
| PercentEncoding.UuidQuotedUnchanged | manimgenie/sessionpythonrepltool.py:172 | the default session id, the text of a `uuid4()`, is unchanged by quoting |
| Urls.WithTrailingSlash | manimgenie/sessionpythonrepltool.py:181-182 | the endpoint comes out ending in `/`, with a `/` appended only when it was missing |
| Urls.QuerySeparator | manimgenie/sessionpythonrepltool.py:185 | the separator is `&` or `?`, and `&` iff the endpoint holds a `?` |
| Urls.BuildUrl | manimgenie/sessionpythonrepltool.py:177-187 | it fails with the not-set error iff the endpoint is empty, and otherwise the url starts with the endpoint (the whole url is `BuildUrlLayout`) |
| Urls.BuildUrlLayout | manimgenie/sessionpythonrepltool.py:177-187 | for every path and a set endpoint, the url is the endpoint ending in `/`, the path, the separator the configured endpoint calls for, `identifier=` and the quoted id |
| Urls.SeparatorFollowsEndpoint | manimgenie/sessionpythonrepltool.py:185 | the separator is `&` iff the configured endpoint holds a `?` |
| Urls.QuotedHasNoDelimiters | manimgenie/sessionpythonrepltool.py:183 | the quoted session id holds no `?`, `&` or `=` |
| Urls.SingleQueryWhenEndpointHasNone | manimgenie/sessionpythonrepltool.py:184-186 | when neither endpoint nor path holds a `?`, the url is endpoint-with-slash and path, a single `?`, and `identifier=` with the quoted id |
| Urls.JoinsExistingQuery | manimgenie/sessionpythonrepltool.py:185-186 | when the endpoint holds a `?`, the url is endpoint-with-slash and path, `&`, and `identifier=` with the quoted id |
| Urls.SessionIdRecoverable | manimgenie/sessionpythonrepltool.py:183-186 | the text after the url's last `=` is the quoted id; reading it back gives the id's UTF-8 bytes, and decoding those gives the id, for ids made of Unicode scalar values (see "## Left out") |
| Urls.UrlForPlainEndpoint | manimgenie/sessionpythonrepltool.py:177-187 | for an endpoint ending in `/` without a query, the url is endpoint, path, `?identifier=` and the quoted id |
| RemoteFiles.FromDict | manimgenie/sessionpythonrepltool.py:97-104 | the result takes `filename` and `size` from `properties`, with `None` for a missing key or a missing `properties`; it fails iff `properties` is not a mapping |
| RemoteFiles.ToDict | manimgenie/sessionpythonrepltool.py:98-104 | the object built for a file has its metadata as a mapping under `properties` |
| RemoteFiles.FromDictOfToDict | manimgenie/sessionpythonrepltool.py:98-104 | reading back that object gives the metadata |
| RemoteFiles.FromDictIgnoresOtherKeys | manimgenie/sessionpythonrepltool.py:100 | members other than `properties` do not change the result |
| RemoteFiles.Digits | manimgenie/sessionpythonrepltool.py:95 | the decimal digits of a number are a non-empty run of digits, one digit exactly below 10, and no leading zero otherwise |
| RemoteFiles.DigitsRoundTrip | manimgenie/sessionpythonrepltool.py:95 | reading the digits back gives the number |
| RemoteFiles.DigitsAreInjective | manimgenie/sessionpythonrepltool.py:95 | different numbers have different digits |
| RemoteFiles.Decimal | manimgenie/sessionpythonrepltool.py:95 | `str(n)` starts with `-` iff `n` is negative, followed by the digits of its magnitude |
| RemoteFiles.DecimalIsInjective | manimgenie/sessionpythonrepltool.py:95 | different integers have different decimal texts, so numeric filenames give different full paths |
| RemoteFiles.Display | manimgenie/sessionpythonrepltool.py:95 | an f-string shows a string as itself, `None` as "None", a number in decimal, and a boolean as "True" or "False" |
| RemoteFiles.FullPath | manimgenie/sessionpythonrepltool.py:92-95 | the full path is "/mnt/data/" followed by the shown filename, which for a string filename is the filename itself |
| RemoteFiles.FullPathIsInjective | manimgenie/sessionpythonrepltool.py:95 | files with the same full path have filenames that show alike, and equal filenames if both are strings or both are numbers |
| Json.Get | manimgenie/sessionpythonrepltool.py:248-251 | `dict.get` gives the value under a key, or `None` when the key is missing |
| AccessTokens.Fetch | manimgenie/sessionpythonrepltool.py:52-59 | the provider is asked iff there is no token or it expires less than five minutes from now; otherwise the cache is unchanged and its token returned; a new token replaces the cache and is returned; a failure leaves the cache as it was and propagates |
| AccessTokens.NeedsRefresh | manimgenie/sessionpythonrepltool.py:54-56 | no contract of its own: the refresh rule, whose boundary and monotonicity are `RefreshBoundary` and `ValidTokenStaysValidEarlier` |
| AccessTokens.ValidTokenStaysValidEarlier | manimgenie/sessionpythonrepltool.py:54-56 | a token that needs no refresh at some time needs none at any earlier time |
| AccessTokens.RefreshBoundary | manimgenie/sessionpythonrepltool.py:54-56 | expiry exactly five minutes ahead is no reason to refresh, and one microsecond later it is |
| AccessTokens.TenMinutesLeftIsReusedFourIsNot | manimgenie/sessionpythonrepltool.py:54-58 | a token with ten minutes left is reused unchanged, and one with four minutes left is replaced |
| AccessTokens.Replay | manimgenie/sessionpythonrepltool.py:52-59 | a run of calls asks the provider at most once per call; the cache it leaves is the one it started with or a token issued during the run, and is the one it started with when no call asked |
| AccessTokens.ReplaySnoc | manimgenie/sessionpythonrepltool.py:52-59 | one more call after a run moves the cache and the request count as that call's `Fetch` says, as `AccessTokenProvider.Get` moves its state |
| AccessTokens.NoRefreshWhileValid | manimgenie/sessionpythonrepltool.py:52-59 | calls made while the cached token stays valid ask nothing and leave the cache alone |
| AccessTokens.ExactlyOneRefreshPerValidToken | manimgenie/sessionpythonrepltool.py:50-59 | from an empty cache, a run of calls asks exactly once when the issued token outlives the run by five minutes |
| AccessTokens.FailureIsRetriedNextCall | manimgenie/sessionpythonrepltool.py:57-58 | after the identity provider fails, the next call asks again |
| AccessTokens.AccessTokenProvider.constructor | manimgenie/sessionpythonrepltool.py:50 | the closure starts with no cached token |
| AccessTokens.AccessTokenProvider.GetEach | manimgenie/sessionpythonrepltool.py:52-59 | lookups one after another leave the cache and the count of identity-provider calls that `Replay` describes |
| AccessTokens.AccessTokenProvider.Get | manimgenie/sessionpythonrepltool.py:52-59 | the call returns and caches what `Fetch` describes, and counts one call of the identity provider exactly when a refresh is due |
| Http.RaisesForStatus | manimgenie/sessionpythonrepltool.py:203 | no contract of its own: the 400 to 599 condition of `raise_for_status` (also at lines 227, 232, 281 and 286), on which `CreateFileContract`, `ExecuteOutcome` and `DownloadOutcome` state what raises |
| Http.SessionPool.constructor | manimgenie/sessionpythonrepltool.py:201 | the pool starts with no request received |
| Http.SessionPool.Post | manimgenie/sessionpythonrepltool.py:201 | a post is logged and answered by the pool's answer to the request with that number |
| SceneNames.WordCharIsNotSpace | manimgenie/sessionpythonrepltool.py:239 | a word character is no whitespace |
| SceneNames.NameAt | manimgenie/sessionpythonrepltool.py:239 | a name found at `p` is a non-empty run of word characters, after `class` at `p` |
| SceneNames.NameAtIsRegexMatch | manimgenie/sessionpythonrepltool.py:239 | `NameAt` finds a name exactly when `class\s+(\w+)` matches at `p`, and it is that match's group 1 |
| SceneNames.FirstMatch | manimgenie/sessionpythonrepltool.py:239 | the search stops at the leftmost position where the pattern matches, and finds none when no position matches |
| SceneNames.SceneName | manimgenie/sessionpythonrepltool.py:239-241 | a scene name is a non-empty run of word characters |
| SceneNames.SceneNameIsLeftmostMatch | manimgenie/sessionpythonrepltool.py:239-243 | there is no name iff no position matches; otherwise the name is group 1 of a match that no match starts before |
| SceneNames.FirstMatchSkips | manimgenie/sessionpythonrepltool.py:239 | positions without a match can be skipped by the search |
| SceneNames.NoMatchWithoutKeyword | manimgenie/sessionpythonrepltool.py:239 | no match starts where `c` is missing |
| SceneNames.NoMatchInPrefix | manimgenie/sessionpythonrepltool.py:239 | no match starts in text without a `c` |
| SceneNames.MatchAfterPrefix | manimgenie/sessionpythonrepltool.py:239 | `class`, whitespace and a whole word form a match |
| SceneNames.FirstClassNamesTheScene | manimgenie/sessionpythonrepltool.py:239-241 | when the first `c` starts `class`, whitespace and a whole word, that word is the scene name |
| SceneNames.ExplainerScene | manimgenie/sessionpythonrepltool.py:239-241 | the code of a typical scene `class Explainer(Scene)` renders "Explainer" |
| SceneNames.SubclassAlsoMatches | manimgenie/sessionpythonrepltool.py:239 | the pattern has no word boundary: `subclass Foo` names "Foo" |
| SessionProtocol.UploadBodyLayout | manimgenie/sessionpythonrepltool.py:198-199 | the upload is the name's UTF-8 bytes, then ".py" and a newline, then the code's bytes |
| SessionProtocol.SplitFirstLine | manimgenie/sessionpythonrepltool.py:199 | reading an upload splits it at its first newline, and fails iff it holds none |
| SessionProtocol.UploadRoundTrip | manimgenie/sessionpythonrepltool.py:198-199 | the first line of an upload is `<scene>.py` and the rest is the code, whatever the code holds |
| SessionProtocol.Words | manimgenie/sessionpythonrepltool.py:222 | splitting on spaces yields at least one word |
| SessionProtocol.WordsOfWord | manimgenie/sessionpythonrepltool.py:222 | a word without spaces splits into itself |
| SessionProtocol.WordsCons | manimgenie/sessionpythonrepltool.py:222 | a word, a space and more text split into the word and the words of the rest |
| SessionProtocol.NoBlankInJoin | manimgenie/sessionpythonrepltool.py:222 | joining two texts without spaces gives no space |
| SessionProtocol.WordsOfJoin | manimgenie/sessionpythonrepltool.py:222 | words without spaces joined by single spaces split back into those words |
| SessionProtocol.RenderCommandArguments | manimgenie/sessionpythonrepltool.py:221-223 | the render command's arguments are `manim -qh <scene>.py <scene> -o <scene>.mp4` |
| SessionProtocol.RemoveQuotes | manimgenie/sessionpythonrepltool.py:277 | the path sent holds no `'` and is no longer than the path given |
| SessionProtocol.RemoveQuotesAppend | manimgenie/sessionpythonrepltool.py:277 | removing quotes from a concatenation removes them from each part |
| SessionProtocol.RemoveQuotesCounts | manimgenie/sessionpythonrepltool.py:277 | every character other than `'` is kept, as often as it occurs |
| SessionProtocol.RemoveQuotesKeepsPlainPath | manimgenie/sessionpythonrepltool.py:277 | a path without quotes is sent as it is |
| SessionProtocol.Prepare | manimgenie/sessionpythonrepltool.py:191-192 | a request can be made iff the token lookup succeeds and the endpoint is set |
| SessionProtocol.PrepareContract | manimgenie/sessionpythonrepltool.py:191-192 | the token is looked up before the url is built: the cache always changes as the lookup says, and the failure is the lookup's first, then the url's |
| SessionProtocol.CreateFileAnswer | manimgenie/sessionpythonrepltool.py:202-208 | a status from 400 to 599 raises; any other status gives true exactly for 200 |
| SessionProtocol.CreateFileSpec | manimgenie/sessionpythonrepltool.py:189-208 | `createfile` sends at most one request, and exactly one when it returns |
| SessionProtocol.JsonOf | manimgenie/sessionpythonrepltool.py:235 | `response.json()` gives the body's object, and fails iff the body holds none |
| SessionProtocol.StatusContent | manimgenie/sessionpythonrepltool.py:248-251 | the content is `output` when `status` is "success", and `message` otherwise |
| SessionProtocol.RenderReply | manimgenie/sessionpythonrepltool.py:245-252 | a failed render propagates; an answer gives the content chosen by status, with the whole answer as the artifact |
| SessionProtocol.UploadText | manimgenie/sessionpythonrepltool.py:198-199 | no contract of its own: the text uploaded, read back by `UploadRoundTrip` |
| SessionProtocol.UploadBody | manimgenie/sessionpythonrepltool.py:199 | no contract of its own: the bytes uploaded, laid out by `UploadBodyLayout` |
| SessionProtocol.RenderCommand | manimgenie/sessionpythonrepltool.py:222 | no contract of its own: the command, whose arguments `RenderCommandArguments` reads back |
| SessionProtocol.ExecuteRequest | manimgenie/sessionpythonrepltool.py:221-225 | no contract of its own: the render request, as `ExecuteAttempts` states it |
| SessionProtocol.ExecuteSpec | manimgenie/sessionpythonrepltool.py:213-236 | no contract of its own: `execute`, whose attempts and outcome `ExecuteAttempts` and `ExecuteOutcome` state and which `SessionsPythonReplTool.Execute` is proved to do |
| SessionProtocol.DownloadRequest | manimgenie/sessionpythonrepltool.py:276-279 | the request body has the one field `videofile`, and the path in it holds no `'` |
| SessionProtocol.DownloadSpec | manimgenie/sessionpythonrepltool.py:270-293 | no contract of its own: `download_file`, whose attempts and outcome `DownloadAttempts` and `DownloadOutcome` state and which `SessionsPythonReplTool.DownloadFile` is proved to do |
| SessionProtocol.RunSceneSpec | manimgenie/sessionpythonrepltool.py:244-252 | no contract of its own: `_run` after the scene is found, which `RunUploadsTheScene`, `RunStopsWhenNotCreated` and `RunReplies` describe and `SessionsPythonReplTool.RunScene` is proved to do |
| SessionProtocol.RunSpec | manimgenie/sessionpythonrepltool.py:238-252 | no contract of its own: `_run`, which `RunWithoutClass`, `RunReplies` and `RunHappyPath` describe and `SessionsPythonReplTool.Run` is proved to do |
| ProtocolProperties.TokenFetchedBeforeEndpointCheck | manimgenie/sessionpythonrepltool.py:191-192 | with no endpoint the call fails with the not-set error, but only after the token was fetched and cached |
| ProtocolProperties.CreateFileContract | manimgenie/sessionpythonrepltool.py:189-208 | `createfile` sends the upload once iff a token and url were obtained; it returns true iff the status is 200, raises iff the status is 400 to 599, and otherwise propagates the lookup's failure |
| ProtocolProperties.ExecuteAttempts | manimgenie/sessionpythonrepltool.py:221-234 | `execute` sends the render command at most twice, the second time iff the first status is 500 |
| ProtocolProperties.ExecuteOutcome | manimgenie/sessionpythonrepltool.py:216-236 | when the token lookup or the url fails, nothing is posted and that failure is the result; otherwise the result is the last answer's JSON object when its status does not raise, and that status's error otherwise; a failure other than 500 raises after one attempt |
| ProtocolProperties.DownloadAttempts | manimgenie/sessionpythonrepltool.py:276-287 | `download_file` sends the path without quotes at most twice, the second time iff the first status is 404 |
| ProtocolProperties.DownloadOutcome | manimgenie/sessionpythonrepltool.py:270-293 | when the token lookup or the url fails, nothing is posted and that failure is the result; otherwise it returns the first answer's bytes unchanged iff that answer does not raise; after a 404 it raises the retry's error if the retry fails, and the first 404 even when the retry succeeds |
| ProtocolProperties.SceneNameHasNoBreaks | manimgenie/sessionpythonrepltool.py:239-241 | a scene name holds no space and no line break |
| ProtocolProperties.RunWithoutClass | manimgenie/sessionpythonrepltool.py:239-243 | without a class in the code: no token lookup, no request, and the bare "No class name found in the code" |
| ProtocolProperties.RunUploadsTheScene | manimgenie/sessionpythonrepltool.py:238-245 | with a class, the run sends at most three requests: first the upload of the code under `<scene>.py`, then the render of that scene |
| ProtocolProperties.RunStopsWhenNotCreated | manimgenie/sessionpythonrepltool.py:244-247 | an upload answered with a status that neither raises nor is 200 ends the run with `("Error creating file", {})` after one request |
| ProtocolProperties.RunReplies | manimgenie/sessionpythonrepltool.py:238-252 | the bare message iff there is no class; otherwise the creation error, or the last render answer as the artifact with its output or message as the content |
| ProtocolProperties.RunHappyPath | manimgenie/sessionpythonrepltool.py:238-252 | with a valid token, a 200 upload and a JSON render answer: two requests with the cached bearer, no refresh, and the answer as the artifact |
| SessionTool.SessionsPythonReplTool.constructor | manimgenie/sessionpythonrepltool.py:164-172 | the tool holds the endpoint, session id, token provider and pool it is given |
| SessionTool.SessionsPythonReplTool.Authorize | manimgenie/sessionpythonrepltool.py:191-192 | the token then the url, with the cache and the count of identity calls as `Prepare` says |
| SessionTool.SessionsPythonReplTool.CreateFile | manimgenie/sessionpythonrepltool.py:189-208 | result, cache, requests and identity calls are those of `CreateFileSpec` |
| SessionTool.SessionsPythonReplTool.Execute | manimgenie/sessionpythonrepltool.py:210-236 | result, cache, requests and identity calls are those of `ExecuteSpec`; the attempts counted are the requests sent, at most two |
| SessionTool.SessionsPythonReplTool.DownloadFile | manimgenie/sessionpythonrepltool.py:256-293 | result, cache, requests and identity calls are those of `DownloadSpec`; the attempts counted are the requests sent, at most two |
| SessionTool.SessionsPythonReplTool.Run | manimgenie/sessionpythonrepltool.py:238-252 | result, cache, requests and identity calls are those of `RunSpec` |
| SessionTool.SessionsPythonReplTool.RunScene | manimgenie/sessionpythonrepltool.py:244-252 | the upload, then the render only when the upload returned true, as `RunSceneSpec` says |

## Left out

- Network transport, the headers other than the bearer token, and
  `USER_AGENT` are left out. A request is its url, bearer token and body,
  and the pool's answers are given in advance, one per request received.
- `DefaultAzureCredential` and `get_token` are left out. The token the
  identity provider would issue, or the failure it would raise, is a
  parameter of each lookup (`Moment.issued`), and so is the clock
  (`Moment.nowMicros`). The scope string it is asked for is not modelled.
- Texts are sequences of Unicode scalar values (Dafny's `char`). A Python
  `str` may also hold a lone surrogate, such as one written as a `\ud83d`
  escape in generated code or in a caller-set `session_id`. Such a text
  cannot be represented in the model, so the `UnicodeEncodeError` that
  `quote` raises at line 183 (failing `_build_url`) and that
  `.encode('utf-8')` raises at line 199 (failing `createfile` and with it
  `_run`, before any request) is not modelled. `CreateFileSpec`,
  `BuildUrl` and `RunSpec` have no such failure. `DecodeEncode`,
  `EncodeIsInjective` and `SessionIdRecoverable` are stated for texts of
  scalar values only.
- The `print` diagnostics are left out. So is the local file write in
  `download_file` (lines 289-291); the model returns the bytes, not a
  `BytesIO`.
- JSON parsing is left out. A response carries the object its body holds,
  if any, and JSON floats, arrays, nested objects and non-object top-level
  values are not modelled. An `execute` answer whose body is not an object
  is a failure of the model (`NotJsonObject`), where later Python code
  would fail on `.get`.
- `RemoteFiles.FromDict`: the members of `properties` are scalars. A nested
  value under `filename` or `size` is not modelled.
- The LangChain `BaseTool` machinery, pydantic defaults, `name`,
  `description`, `sanitize_input` and `response_format` are left out, and
  so is how `_run` is called through them.
- `\w` and `(?i:...)` are narrowed; `\s` is not:
  - `\s` is the whole set `str.isspace` accepts, which is what `\s`
    matches in a `str` pattern, written out in `CharClasses.IsSpace`;
  - `\w` is ASCII letters, digits and `_`, so non-ASCII word characters
    are not word characters in `CharClasses.IsWordChar`;
  - there is no general regular expression engine, only the four patterns
    of the file;
  - `(?i:python)` folds ASCII letters only.
- Exceptions raised by `requests` itself (connection errors, timeouts) are
  left out.
- Concurrency is left out, and so is the fact that every instance shares
  one session id and one token cache, evaluated at class definition. The
  tool takes both as constructor parameters instead.
- `app.py` (the chat user interface, prompt chains and environment reads)
  is not part of this model.
