/**
 * The scene name `_run` renders: the first word after `class` and at least
 * one whitespace character (`re.search(r'class\s+(\w+)', code)`). The
 * pattern has no word boundary, so `subclass Foo` also yields `Foo`, and
 * `\w` is the ASCII word set of `CharClasses`.
 */
module SceneNames {
  import opened Wrappers
  import opened CharClasses

  const Keyword: string := "class"

  /** A match of the pattern at `p`: the keyword, a whitespace run, then the word `code[j..k]`, taken whole. */
  ghost predicate IsClassMatch(code: string, p: int, j: int, k: int) {
    && 0 <= p && p + |Keyword| < j < k <= |code|
    && code[p..p + |Keyword|] == Keyword
    && (forall i :: p + |Keyword| <= i < j ==> IsSpace(code[i]))
    && (forall i :: j <= i < k ==> IsWordChar(code[i]))
    && (k == |code| || !IsWordChar(code[k]))
  }

  lemma WordCharIsNotSpace(c: char)
    ensures IsWordChar(c) ==> !IsSpace(c)
  {
  }

  /** The name matched at `p`, if the pattern matches there. */
  function NameAt(code: string, p: nat): (r: Option<string>)
    ensures r.Some? ==> r.value != [] && forall i :: 0 <= i < |r.value| ==> IsWordChar(r.value[i])
    ensures r.Some? ==> p + |Keyword| < |code| && code[p..p + |Keyword|] == Keyword
  {
    if p + |Keyword| <= |code| && code[p..p + |Keyword|] == Keyword then
      var j := RunEnd(code, p + |Keyword|, IsSpace);
      var k := RunEnd(code, j, IsWordChar);
      if p + |Keyword| < j && j < k then Some(code[j..k]) else None
    else None
  }

  /** `NameAt` finds a match exactly when there is one, and the word it returns is that match's. */
  lemma NameAtIsRegexMatch(code: string, p: nat)
    ensures NameAt(code, p).Some? ==> exists j, k :: IsClassMatch(code, p, j, k) && NameAt(code, p).value == code[j..k]
    ensures forall j, k :: IsClassMatch(code, p, j, k) ==> NameAt(code, p) == Some(code[j..k])
  {
    if p + |Keyword| <= |code| && code[p..p + |Keyword|] == Keyword {
      var j := RunEnd(code, p + |Keyword|, IsSpace);
      var k := RunEnd(code, j, IsWordChar);
      if p + |Keyword| < j && j < k {
        assert IsClassMatch(code, p, j, k);
      }
      forall j', k' | IsClassMatch(code, p, j', k') ensures NameAt(code, p) == Some(code[j'..k']) {
        WordCharIsNotSpace(code[j']);
        assert j' == j by {
          if j' < j {
            WordCharIsNotSpace(code[j']);
          }
        }
        assert k' == k;
      }
    }
  }

  /** The leftmost position at or after `from` where the pattern matches. */
  function FirstMatch(code: string, from: nat): (r: Option<nat>)
    ensures r.Some? ==> from <= r.value && NameAt(code, r.value).Some?
    ensures r.Some? ==> forall q :: from <= q < r.value ==> NameAt(code, q).None?
    ensures r.None? ==> forall q: nat :: from <= q ==> NameAt(code, q).None?
    decreases |code| - from
  {
    if |code| <= from + |Keyword| then None
    else if NameAt(code, from).Some? then Some(from)
    else FirstMatch(code, from + 1)
  }

  /** `match.group(1)` of the search, or `None` when the code has no class. */
  function SceneName(code: string): (r: Option<string>)
    ensures r.Some? ==> r.value != [] && forall i :: 0 <= i < |r.value| ==> IsWordChar(r.value[i])
  {
    match FirstMatch(code, 0)
    case None => None
    case Some(p) => NameAt(code, p)
  }

  /**
   * The search result in regex terms: the name belongs to a match that no
   * match starts before; `None` exactly when no position matches.
   */
  lemma SceneNameIsLeftmostMatch(code: string)
    ensures SceneName(code).None? <==> forall p, j, k :: !IsClassMatch(code, p, j, k)
    ensures SceneName(code).Some? ==>
      exists p, j, k :: IsClassMatch(code, p, j, k) && SceneName(code).value == code[j..k]
        && forall q, j', k' :: 0 <= q < p ==> !IsClassMatch(code, q, j', k')
  {
    match FirstMatch(code, 0)
    case None =>
      forall p, j, k | IsClassMatch(code, p, j, k) ensures false {
        NameAtIsRegexMatch(code, p);
      }
    case Some(p) =>
      NameAtIsRegexMatch(code, p);
      var j, k :| IsClassMatch(code, p, j, k) && NameAt(code, p).value == code[j..k];
      forall q, j', k' | 0 <= q < p && IsClassMatch(code, q, j', k') ensures false {
        NameAtIsRegexMatch(code, q);
      }
  }

  /** Positions without a match can be skipped. */
  lemma {:induction false} FirstMatchSkips(code: string, from: nat, target: nat)
    requires from <= target
    requires target + |Keyword| < |code|
    requires forall q :: from <= q < target ==> NameAt(code, q).None?
    ensures FirstMatch(code, from) == FirstMatch(code, target)
    decreases target - from
  {
    if from < target {
      FirstMatchSkips(code, from + 1, target);
    }
  }

  /** No match starts where the keyword's first letter is missing. */
  lemma NoMatchWithoutKeyword(code: string, q: nat)
    requires q < |code| && code[q] != Keyword[0]
    ensures NameAt(code, q).None?
  {
    if q + |Keyword| <= |code| {
      assert code[q..q + |Keyword|][0] == code[q];
    }
  }

  /** The conditions under which the first `class` in a text names its scene. */
  predicate StartsSceneAfter(prefix: string, gap: string, name: string, rest: string) {
    && (forall i :: 0 <= i < |prefix| ==> prefix[i] != Keyword[0])
    && gap != [] && (forall i :: 0 <= i < |gap| ==> IsSpace(gap[i]))
    && name != [] && (forall i :: 0 <= i < |name| ==> IsWordChar(name[i]))
    && (rest == [] || !IsWordChar(rest[0]))
  }

  lemma NoMatchInPrefix(prefix: string, gap: string, name: string, rest: string)
    requires StartsSceneAfter(prefix, gap, name, rest)
    ensures forall q :: 0 <= q < |prefix| ==> NameAt(prefix + Keyword + gap + name + rest, q).None?
  {
    var code := prefix + Keyword + gap + name + rest;
    forall q | 0 <= q < |prefix| ensures NameAt(code, q).None? {
      assert code[q] == prefix[q];
      NoMatchWithoutKeyword(code, q);
    }
  }

  lemma MatchAfterPrefix(prefix: string, gap: string, name: string, rest: string)
    requires StartsSceneAfter(prefix, gap, name, rest)
    ensures var j := |prefix| + |Keyword| + |gap|;
      IsClassMatch(prefix + Keyword + gap + name + rest, |prefix|, j, j + |name|)
  {
    var code := prefix + Keyword + gap + name + rest;
    var p := |prefix|;
    var j := p + |Keyword| + |gap|;
    var k := j + |name|;
    assert code[p..p + |Keyword|] == Keyword;
    assert forall i :: p + |Keyword| <= i < j ==> code[i] == gap[i - p - |Keyword|];
    assert forall i :: j <= i < k ==> code[i] == name[i - j];
    assert k < |code| ==> code[k] == rest[0];
  }

  /**
   * Code in which the first `c` starts `class`, a whitespace run and a whole
   * word renders the scene named by that word.
   */
  lemma FirstClassNamesTheScene(prefix: string, gap: string, name: string, rest: string)
    requires StartsSceneAfter(prefix, gap, name, rest)
    ensures SceneName(prefix + Keyword + gap + name + rest) == Some(name)
  {
    var code := prefix + Keyword + gap + name + rest;
    var j := |prefix| + |Keyword| + |gap|;
    NoMatchInPrefix(prefix, gap, name, rest);
    MatchAfterPrefix(prefix, gap, name, rest);
    FirstMatchSkips(code, 0, |prefix|);
    NameAtIsRegexMatch(code, |prefix|);
    assert code[j..j + |name|] == name;
  }

  /** A typical generated scene. */
  lemma ExplainerScene()
    ensures SceneName("from manim import *\n\n" + "class" + " " + "Explainer" + "(Scene):\n    pass\n") == Some("Explainer")
  {
    assert StartsSceneAfter("from manim import *\n\n", " ", "Explainer", "(Scene):\n    pass\n");
    FirstClassNamesTheScene("from manim import *\n\n", " ", "Explainer", "(Scene):\n    pass\n");
  }

  /** The pattern has no word boundary before `class`. */
  lemma SubclassAlsoMatches()
    ensures SceneName("sub" + "class" + " " + "Foo") == Some("Foo")
  {
    assert StartsSceneAfter("sub", " ", "Foo", "");
    FirstClassNamesTheScene("sub", " ", "Foo", "");
    assert "sub" + Keyword + " " + "Foo" + "" == "sub" + "class" + " " + "Foo";
  }
}
