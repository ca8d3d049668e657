/**
 * `extract_markdown_code_blocks`: the fenced code blocks of a chat message,
 * found by `re.findall` with the pattern
 *     ```(?:\s*([\w\+\-]+))?\n([\s\S]*?)```
 * This is a simplified take on fenced code blocks, not CommonMark: the model
 * follows the pattern, character by character.
 */
module CodeBlocks {
  import opened Wrappers
  import opened CharClasses

  /** A code block taken from an agent message: its body and its language tag. */
  datatype CodeBlock = CodeBlock(code: string, language: string)

  /**
   * One match of the pattern: the opening fence at `start`, the language tag
   * (group 1) at `tagStart .. tagEnd` (empty when the optional group took no
   * part), the mandatory newline at `tagEnd`, the body (group 2) at
   * `tagEnd + 1 .. bodyEnd`, and the closing fence at `bodyEnd`.
   */
  datatype Match = Match(start: nat, tagStart: nat, tagEnd: nat, bodyEnd: nat) {
    /** Where the match ends, just after the closing fence. */
    function End(): nat { bodyEnd + 3 }
    /** Whether the optional language-tag group took part in the match. */
    predicate Tagged() { tagStart < tagEnd }
  }

  /** Three backticks start at `i`. */
  predicate FenceAt(s: string, i: int) {
    0 <= i && i + 3 <= |s| && s[i] == '`' && s[i + 1] == '`' && s[i + 2] == '`'
  }

  /** The first fence at or after `i`: where the lazy body `[\s\S]*?` stops. */
  function FindFence(s: string, i: nat): (r: Option<nat>)
    requires i <= |s|
    ensures r.Some? ==> i <= r.value && FenceAt(s, r.value)
    ensures r.Some? ==> forall k :: i <= k < r.value ==> !FenceAt(s, k)
    ensures r.None? ==> forall k :: i <= k ==> !FenceAt(s, k)
    decreases |s| - i
  {
    if |s| < i + 3 then None
    else if FenceAt(s, i) then Some(i)
    else FindFence(s, i + 1)
  }

  /** The first fence at or after `i` is the one at `j` when none comes between. */
  lemma FindFenceIsFirst(s: string, i: nat, j: nat)
    requires i <= j && FenceAt(s, j)
    requires forall k :: i <= k < j ==> !FenceAt(s, k)
    ensures FindFence(s, i) == Some(j)
  {
  }

  /** The positions of `m` lie in order inside `s`. */
  predicate InText(s: string, m: Match) {
    m.start + 3 <= m.tagStart <= m.tagEnd < m.bodyEnd && m.End() <= |s|
  }

  /**
   * The language of the pattern, stated without reference to how the regular
   * expression engine searches: `m` is a way of reading `s` from `m.start` as
   * fence, optional (spaces, tag), newline, body without a fence, fence.
   */
  ghost predicate IsMatch(s: string, m: Match) {
    && FenceAt(s, m.start)
    && m.start + 3 <= m.tagStart <= m.tagEnd < |s|
    && (!m.Tagged() ==> m.tagStart == m.start + 3)
    && (forall k :: m.start + 3 <= k < m.tagStart ==> IsSpace(s[k]))
    && (forall k :: m.tagStart <= k < m.tagEnd ==> IsTagChar(s[k]))
    && s[m.tagEnd] == '\n'
    && m.tagEnd + 1 <= m.bodyEnd
    && FenceAt(s, m.bodyEnd)
    && (forall k :: m.tagEnd + 1 <= k < m.bodyEnd ==> !FenceAt(s, k))
  }

  /** Some reading of `s` at `p` uses the optional language-tag group. */
  ghost predicate HasTaggedMatch(s: string, p: nat) {
    exists m: Match :: m.start == p && m.Tagged() && IsMatch(s, m)
  }

  /**
   * The match the regular expression engine finds when it is anchored at `p`.
   * The optional group is greedy, so the engine first tries it (spaces, then
   * the longest tag, then a newline and a closing fence); only when that fails
   * does it skip the group and demand the newline right after the fence.
   */
  function MatchAt(s: string, p: nat): (r: Option<Match>)
    ensures r.Some? ==> r.value.start == p && IsMatch(s, r.value) && InText(s, r.value)
  {
    if !FenceAt(s, p) then None
    else
      var q := p + 3;
      var a := RunEnd(s, q, IsSpace);
      var b := RunEnd(s, a, IsTagChar);
      if a < b && b < |s| && s[b] == '\n' && FindFence(s, b + 1).Some? then
        Some(Match(p, a, b, FindFence(s, b + 1).value))
      else if q < |s| && s[q] == '\n' && FindFence(s, q + 1).Some? then
        Some(Match(p, q, q, FindFence(s, q + 1).value))
      else
        None
  }

  /** A tagged reading at `p` is the one the engine's first branch finds. */
  lemma TaggedMatchIsFound(s: string, m: Match)
    requires m.Tagged() && IsMatch(s, m)
    ensures MatchAt(s, m.start) == Some(m)
  {
    var q := m.start + 3;
    TagCharIsNotSpace(s[m.tagStart]);
    RunEndIsUnique(s, q, m.tagStart, IsSpace);
    TagCharIsNotSpace(s[m.tagEnd]);
    RunEndIsUnique(s, m.tagStart, m.tagEnd, IsTagChar);
    FindFenceIsFirst(s, m.tagEnd + 1, m.bodyEnd);
  }

  /**
   * The engine's choice at a position, characterised: `MatchAt` yields `m`
   * exactly when `m` is a reading of the pattern at `m.start` and, if it skips
   * the tag group, no reading at that position uses the group.
   */
  lemma MatchAtIsRegexMatch(s: string, m: Match)
    ensures MatchAt(s, m.start) == Some(m) <==> IsMatch(s, m) && (!m.Tagged() ==> !HasTaggedMatch(s, m.start))
  {
    if MatchAt(s, m.start) == Some(m) && !m.Tagged() && HasTaggedMatch(s, m.start) {
      var t: Match :| t.start == m.start && t.Tagged() && IsMatch(s, t);
      TaggedMatchIsFound(s, t);
      assert false;
    }
    if IsMatch(s, m) && (!m.Tagged() ==> !HasTaggedMatch(s, m.start)) {
      if m.Tagged() {
        TaggedMatchIsFound(s, m);
      } else {
        FindFenceIsFirst(s, m.tagEnd + 1, m.bodyEnd);
      }
    }
  }

  /**
   * An engine that, asked at each position of `s`, either fails or returns a
   * match that starts there and lies inside `s`.
   */
  ghost predicate Anchored(s: string, at: nat -> Option<Match>) {
    forall k :: at(k).Some? ==> at(k).value.start == k && InText(s, at(k).value)
  }

  /**
   * The scan `re.findall` performs with an engine: try each position from
   * `pos` in turn; after a match, resume where it ends.
   */
  function Scan(s: string, at: nat -> Option<Match>, pos: nat): (ms: seq<Match>)
    requires pos <= |s| && Anchored(s, at)
    ensures forall i :: 0 <= i < |ms| ==> pos <= ms[i].start && InText(s, ms[i])
    decreases |s| - pos
  {
    if pos == |s| then []
    else
      match at(pos)
      case Some(m) => [m] + Scan(s, at, m.End())
      case None => Scan(s, at, pos + 1)
  }

  /** The engine of the pattern: `MatchAt` at each position. */
  function Engine(s: string): (at: nat -> Option<Match>)
    ensures Anchored(s, at)
  {
    (k: nat) => MatchAt(s, k)
  }

  /** `re.findall` from `pos`: the scan with the pattern's engine. */
  function FindAll(s: string, pos: nat): (ms: seq<Match>)
    requires pos <= |s|
    ensures forall i :: 0 <= i < |ms| ==> pos <= ms[i].start && InText(s, ms[i])
  {
    Scan(s, Engine(s), pos)
  }

  /** Each match of a scan is the one the engine finds at its start. */
  lemma {:induction false} ScanYieldsEngineMatches(s: string, at: nat -> Option<Match>, pos: nat, i: nat)
    requires pos <= |s| && Anchored(s, at) && i < |Scan(s, at, pos)|
    ensures at(Scan(s, at, pos)[i].start) == Some(Scan(s, at, pos)[i])
    decreases |s| - pos
  {
    match at(pos)
    case Some(m) =>
      if 0 < i {
        ScanYieldsEngineMatches(s, at, m.End(), i - 1);
      }
    case None =>
      ScanYieldsEngineMatches(s, at, pos + 1, i);
  }

  /** Each match `FindAll` reports is the one the engine finds at its start, and a reading of the pattern. */
  lemma FindAllYieldsEngineMatches(s: string, pos: nat, i: nat)
    requires pos <= |s| && i < |FindAll(s, pos)|
    ensures MatchAt(s, FindAll(s, pos)[i].start) == Some(FindAll(s, pos)[i])
    ensures IsMatch(s, FindAll(s, pos)[i])
  {
    ScanYieldsEngineMatches(s, Engine(s), pos, i);
  }

  /** The engine finds nothing at any position in `from .. target`. */
  ghost predicate Silent(at: nat -> Option<Match>, from: nat, target: nat) {
    forall k :: from <= k < target ==> at(k).None?
  }

  /** No position in `from .. target` starts a match of the pattern. */
  ghost predicate NoMatchIn(s: string, from: nat, target: nat) {
    forall k :: from <= k < target ==> MatchAt(s, k).None?
  }

  /** Silence of the pattern's engine is the absence of matches. */
  lemma SilentEngine(s: string, from: nat, target: nat)
    requires Silent(Engine(s), from, target)
    ensures NoMatchIn(s, from, target)
  {
    forall k | from <= k < target ensures MatchAt(s, k).None? {
      assert Engine(s)(k).None?;
    }
  }

  /** A reading that takes the tag group is found, so a silent engine leaves none. */
  lemma NoTaggedMatchWhenSilent(s: string, p: nat)
    ensures MatchAt(s, p).None? ==> !HasTaggedMatch(s, p)
  {
    if HasTaggedMatch(s, p) {
      var t: Match :| t.start == p && t.Tagged() && IsMatch(s, t);
      TaggedMatchIsFound(s, t);
    }
  }

  /** The engine finds nothing at `p` exactly when no reading of the pattern starts there. */
  lemma SilentIffNoReading(s: string, p: nat)
    ensures MatchAt(s, p).None? <==> forall m: Match :: m.start == p ==> !IsMatch(s, m)
  {
    NoTaggedMatchWhenSilent(s, p);
    forall m: Match | m.start == p ensures MatchAt(s, p).None? ==> !IsMatch(s, m) {
      MatchAtIsRegexMatch(s, m);
    }
    if MatchAt(s, p).Some? {
      var m := MatchAt(s, p).value;
      assert m.start == p && IsMatch(s, m);
    }
  }

  /** No engine match in a stretch is no reading of the pattern starting in it. */
  lemma NoMatchInIffNoReading(s: string, from: nat, target: nat)
    ensures NoMatchIn(s, from, target) <==> forall m: Match :: from <= m.start < target ==> !IsMatch(s, m)
  {
    if NoMatchIn(s, from, target) {
      forall m: Match | from <= m.start < target ensures !IsMatch(s, m) {
        SilentIffNoReading(s, m.start);
      }
    }
    if forall m: Match :: from <= m.start < target ==> !IsMatch(s, m) {
      forall k: nat | from <= k < target ensures MatchAt(s, k).None? {
        SilentIffNoReading(s, k);
      }
    }
  }

  /** Each of `ms` ends before the next one starts: document order, no overlap. */
  predicate InDocumentOrder(ms: seq<Match>) {
    forall i, j :: 0 <= i < j < |ms| ==> ms[i].End() <= ms[j].start
  }

  /** A match that ends before all of an ordered sequence starts can go in front of it. */
  lemma InDocumentOrderCons(m: Match, rest: seq<Match>)
    requires InDocumentOrder(rest)
    requires forall j :: 0 <= j < |rest| ==> m.End() <= rest[j].start
    ensures InDocumentOrder([m] + rest)
  {
    var ms := [m] + rest;
    forall i, j | 0 <= i < j < |ms| ensures ms[i].End() <= ms[j].start {
      assert ms[j] == rest[j - 1];
      if 0 < i {
        assert ms[i] == rest[i - 1];
      }
    }
  }

  /** The matches of a scan come in document order and do not overlap. */
  lemma {:induction false} ScanInDocumentOrder(s: string, at: nat -> Option<Match>, pos: nat)
    requires pos <= |s| && Anchored(s, at)
    ensures InDocumentOrder(Scan(s, at, pos))
    decreases |s| - pos
  {
    if pos < |s| {
      match at(pos)
      case None =>
        ScanInDocumentOrder(s, at, pos + 1);
      case Some(m) =>
        ScanInDocumentOrder(s, at, m.End());
        InDocumentOrderCons(m, Scan(s, at, m.End()));
    }
  }

  /** The matches of `FindAll` come in document order and do not overlap. */
  lemma FindAllInDocumentOrder(s: string, pos: nat)
    requires pos <= |s|
    ensures InDocumentOrder(FindAll(s, pos))
  {
    ScanInDocumentOrder(s, Engine(s), pos);
  }

  /** Where the first of `ms` starts; the end of the text when there is none. */
  function FirstStart(s: string, ms: seq<Match>): nat {
    if ms == [] then |s| else ms[0].start
  }

  /** Where the last of `ms` ends; `pos` when there is none. */
  function LastEnd(pos: nat, ms: seq<Match>): nat {
    if ms == [] then pos else ms[|ms| - 1].End()
  }

  /** A scan is leftmost: the engine finds nothing before its first match. */
  lemma {:induction false} ScanSilentBeforeFirst(s: string, at: nat -> Option<Match>, pos: nat)
    requires pos <= |s| && Anchored(s, at)
    ensures Silent(at, pos, FirstStart(s, Scan(s, at, pos)))
    decreases |s| - pos
  {
    if pos < |s| && at(pos).None? {
      ScanSilentBeforeFirst(s, at, pos + 1);
    }
  }

  /** `FindAll` is the leftmost scan: no position before its first match starts a match. */
  lemma FindAllNoMatchBeforeFirst(s: string, pos: nat)
    requires pos <= |s|
    ensures NoMatchIn(s, pos, FirstStart(s, FindAll(s, pos)))
  {
    ScanSilentBeforeFirst(s, Engine(s), pos);
    SilentEngine(s, pos, FirstStart(s, FindAll(s, pos)));
  }

  /** The neighbours at `i - 1` and `i` in a sequence with a match in front. */
  lemma ConsNeighbours(m: Match, rest: seq<Match>, i: nat)
    requires 0 < i <= |rest|
    ensures ([m] + rest)[i] == rest[i - 1]
    ensures ([m] + rest)[i - 1] == if i == 1 then m else rest[i - 2]
  {
  }

  /** A scan is leftmost: the engine finds nothing between two of its matches. */
  lemma {:induction false} ScanSilentBetween(s: string, at: nat -> Option<Match>, pos: nat, i: nat)
    requires pos <= |s| && Anchored(s, at) && 0 < i < |Scan(s, at, pos)|
    ensures Silent(at, Scan(s, at, pos)[i - 1].End(), Scan(s, at, pos)[i].start)
    decreases |s| - pos
  {
    match at(pos)
    case None =>
      ScanSilentBetween(s, at, pos + 1, i);
    case Some(m) =>
      var rest := Scan(s, at, m.End());
      ConsNeighbours(m, rest, i);
      if i == 1 {
        ScanSilentBeforeFirst(s, at, m.End());
      } else {
        ScanSilentBetween(s, at, m.End(), i - 1);
      }
  }

  /** `FindAll` is the leftmost scan: no position between two of its matches starts a match. */
  lemma FindAllNoMatchBetween(s: string, pos: nat, i: nat)
    requires pos <= |s| && 0 < i < |FindAll(s, pos)|
    ensures NoMatchIn(s, FindAll(s, pos)[i - 1].End(), FindAll(s, pos)[i].start)
  {
    ScanSilentBetween(s, Engine(s), pos, i);
    SilentEngine(s, FindAll(s, pos)[i - 1].End(), FindAll(s, pos)[i].start);
  }

  /** The last of a non-empty sequence is the last of its tail, if it has one. */
  lemma LastEndOfCons(pos: nat, m: Match, rest: seq<Match>)
    ensures LastEnd(pos, [m] + rest) == LastEnd(m.End(), rest)
  {
    if rest != [] {
      assert ([m] + rest)[|rest|] == rest[|rest| - 1];
    }
  }

  /** A scan is leftmost: the engine finds nothing after its last match. */
  lemma {:induction false} ScanSilentAfterLast(s: string, at: nat -> Option<Match>, pos: nat)
    requires pos <= |s| && Anchored(s, at)
    ensures Silent(at, LastEnd(pos, Scan(s, at, pos)), |s|)
    decreases |s| - pos
  {
    if pos < |s| {
      match at(pos)
      case None =>
        ScanSilentAfterLast(s, at, pos + 1);
      case Some(m) =>
        ScanSilentAfterLast(s, at, m.End());
        LastEndOfCons(pos, m, Scan(s, at, m.End()));
    }
  }

  /** `FindAll` is the leftmost scan: no position after its last match starts a match. */
  lemma FindAllNoMatchAfterLast(s: string, pos: nat)
    requires pos <= |s|
    ensures NoMatchIn(s, LastEnd(pos, FindAll(s, pos)), |s|)
  {
    ScanSilentAfterLast(s, Engine(s), pos);
    SilentEngine(s, LastEnd(pos, FindAll(s, pos)), |s|);
  }

  /**
   * Group 1 becomes the language: `match[0].strip() if match[0] else ""`. It
   * is empty exactly when the tag is all whitespace, and otherwise has none
   * at either end.
   */
  function Language(tag: string): (lang: string)
    ensures lang == "" <==> forall k :: 0 <= k < |tag| ==> IsSpace(tag[k])
    ensures lang != "" ==> !IsSpace(lang[0]) && !IsSpace(lang[|lang| - 1])
  {
    if tag == "" then "" else Strip(tag)
  }

  /** The `CodeBlock` a match yields: group 2 verbatim, and the language of group 1. */
  function BlockOf(s: string, m: Match): CodeBlock
    requires InText(s, m)
  {
    CodeBlock(s[m.tagEnd + 1 .. m.bodyEnd], Language(s[m.tagStart .. m.tagEnd]))
  }

  /** Text made only of tag characters; the empty text included. */
  predicate IsTagText(t: string) {
    forall k :: 0 <= k < |t| ==> IsTagChar(t[k])
  }

  /** Text holds no run of three backticks anywhere. */
  predicate FenceFree(t: string) {
    forall k :: 0 <= k < |t| ==> !FenceAt(t, k)
  }

  /** A stretch of text in which no fence starts, taken out on its own, holds no fence. */
  lemma SliceIsFenceFree(s: string, i: nat, j: nat)
    requires i <= j <= |s|
    requires forall k :: i <= k < j ==> !FenceAt(s, k)
    ensures FenceFree(s[i..j])
  {
    var t := s[i..j];
    forall k | 0 <= k < |t| ensures !FenceAt(t, k) {
      assert FenceAt(t, k) ==> FenceAt(s, i + k);
    }
  }

  /** The lazy body stops at the first closing fence, so a block's code holds no fence. */
  lemma BlockCodeIsFenceFree(s: string, m: Match)
    requires InText(s, m)
    requires forall k :: m.tagEnd + 1 <= k < m.bodyEnd ==> !FenceAt(s, k)
    ensures FenceFree(BlockOf(s, m).code)
  {
    SliceIsFenceFree(s, m.tagEnd + 1, m.bodyEnd);
  }

  /**
   * A block's language is empty exactly when the tag group took no part in the
   * match; otherwise it is the tag itself, a non-empty run of `[\w\+\-]`.
   */
  lemma BlockLanguageIsTag(s: string, m: Match)
    requires InText(s, m)
    requires forall k :: m.tagStart <= k < m.tagEnd ==> IsTagChar(s[k])
    ensures var lang := BlockOf(s, m).language;
      && (lang == "" <==> !m.Tagged())
      && (m.Tagged() ==> lang == s[m.tagStart .. m.tagEnd])
      && IsTagText(lang)
  {
    var tag := s[m.tagStart .. m.tagEnd];
    forall k | 0 <= k < |tag| ensures !IsSpace(tag[k]) {
      TagCharIsNotSpace(tag[k]);
    }
    StripWithoutSpace(tag);
  }

  /**
   * What every block found in `s` is: its code is the verbatim text between
   * the newline that ends the opening line and the closing fence, holds no
   * fence itself, and its language is empty exactly when no tag was given,
   * and otherwise a non-empty run of `[\w\+\-]`.
   */
  lemma {:induction false} FoundBlockIsWellFormed(s: string, i: nat)
    requires i < |FindAll(s, 0)|
    ensures var m := FindAll(s, 0)[i]; var b := BlockOf(s, m);
      && FenceAt(s, m.start) && FenceAt(s, m.bodyEnd) && s[m.tagEnd] == '\n'
      && b.code == s[m.tagEnd + 1 .. m.bodyEnd]
      && FenceFree(b.code)
      && (b.language == "" <==> !m.Tagged())
      && IsTagText(b.language)
  {
    var m := FindAll(s, 0)[i];
    FindAllYieldsEngineMatches(s, 0, i);
    BlockCodeIsFenceFree(s, m);
    BlockLanguageIsTag(s, m);
  }

  /**
   * `extract_markdown_code_blocks`: run `findall`, then append one `CodeBlock`
   * per match, in the order `findall` returned them.
   */
  method ExtractMarkdownCodeBlocks(markdownText: string) returns (codeBlocks: seq<CodeBlock>)
    ensures |codeBlocks| == |FindAll(markdownText, 0)|
    ensures forall i :: 0 <= i < |codeBlocks| ==> codeBlocks[i] == BlockOf(markdownText, FindAll(markdownText, 0)[i])
    ensures (forall k :: 0 <= k < |markdownText| ==> !FenceAt(markdownText, k)) ==> codeBlocks == []
  {
    var matches := FindAll(markdownText, 0);
    codeBlocks := [];
    for i := 0 to |matches|
      invariant |codeBlocks| == i
      invariant forall j :: 0 <= j < i ==> codeBlocks[j] == BlockOf(markdownText, matches[j])
    {
      var m := matches[i];
      var language := Language(markdownText[m.tagStart .. m.tagEnd]);
      var codeContent := markdownText[m.tagEnd + 1 .. m.bodyEnd];
      codeBlocks := codeBlocks + [CodeBlock(codeContent, language)];
    }
    if matches != [] {
      FindAllYieldsEngineMatches(markdownText, 0, 0);
    }
  }
}
