/**
 * The fenced-code extractor `extract_script` of main.py.
 *
 * The source applies the regular expression
 *     three backticks, an optional group (\s*python\s*\n), a lazy body
 *     [\s\S]*?, three backticks
 * with Python's leftmost-first `re.search` and returns the body group, or a
 * fixed sentinel when nothing matches.  This module gives two descriptions of
 * that search:
 *   - `FirstMatch`, a direct scan (first fence, greedy tag, first closing fence);
 *   - `IsMatch` and `TriedBefore`, every way the pattern can match and the
 *     order in which a backtracking matcher tries them;
 * and proves that the scan returns exactly the match a backtracking matcher
 * reports first.
 */
module Extractor {
  import opened Wrappers

  /** The fence marker. */
  const Fence: string := "```"

  /** The case-sensitive language tag of the optional group. */
  const Tag: string := "python"

  /** Returned when the reply holds no fenced block. */
  const NotFound: string := "I couldn't find a solution for this problem."

  /**
   * Python's `\s` on `str` patterns: the characters `str.isspace` accepts
   * (ASCII whitespace, the information separators U+001C..U+001F, and the
   * Unicode space and line/paragraph separators).
   */
  predicate IsSpace(c: char) {
    || '\t' <= c <= '\r'
    || '\U{1C}' <= c <= ' '
    || c == '\U{85}' || c == '\U{A0}' || c == '\U{1680}'
    || '\U{2000}' <= c <= '\U{200A}'
    || c == '\U{2028}' || c == '\U{2029}' || c == '\U{202F}' || c == '\U{205F}' || c == '\U{3000}'
  }

  /** A fence starts at index `i` of `s`. */
  predicate FenceAt(s: string, i: int) {
    0 <= i && i + 3 <= |s| && s[i] == '`' && s[i + 1] == '`' && s[i + 2] == '`'
  }

  /** No fence starts at an index in [lo, hi). */
  predicate NoFenceIn(s: string, lo: int, hi: int) {
    forall j :: lo <= j < hi ==> !FenceAt(s, j)
  }

  /** `s` does not contain the fence marker anywhere. */
  predicate FenceFree(s: string) {
    NoFenceIn(s, 0, |s|)
  }

  /** Every character of s[lo..hi] is whitespace. */
  predicate AllSpace(s: string, lo: int, hi: int)
    requires 0 <= lo && hi <= |s|
  {
    forall k :: lo <= k < hi ==> IsSpace(s[k])
  }

  /** Some fence is followed by another fence that starts at least three characters later. */
  ghost predicate HasFencePair(s: string) {
    exists i, j :: FenceAt(s, i) && FenceAt(s, j) && i + 3 <= j
  }

  /** The first fence at or after `from`. */
  function FindFence(s: string, from: nat): (r: Option<nat>)
    ensures r.Some? ==> from <= r.value && FenceAt(s, r.value) && NoFenceIn(s, from, r.value)
    ensures r.None? ==> NoFenceIn(s, from, |s|)
    decreases |s| - from
  {
    if from + 3 > |s| then None
    else if FenceAt(s, from) then Some(from)
    else FindFence(s, from + 1)
  }

  /** The end of the longest run of whitespace that starts at `i` (greedy `\s*`). */
  function SpaceRun(s: string, i: nat): (j: nat)
    requires i <= |s|
    ensures i <= j <= |s|
    ensures AllSpace(s, i, j)
    ensures j == |s| || !IsSpace(s[j])
    decreases |s| - i
  {
    if i == |s| || !IsSpace(s[i]) then i else SpaceRun(s, i + 1)
  }

  /** The last newline in s[lo..hi], if any. */
  function LastNewline(s: string, lo: nat, hi: nat): (r: Option<nat>)
    requires lo <= hi <= |s|
    ensures r.Some? ==> lo <= r.value < hi && s[r.value] == '\n'
    ensures r.Some? ==> forall k :: r.value < k < hi ==> s[k] != '\n'
    ensures r.None? ==> forall k :: lo <= k < hi ==> s[k] != '\n'
    decreases hi - lo
  {
    if hi == lo then None
    else if s[hi - 1] == '\n' then Some(hi - 1)
    else LastNewline(s, lo, hi - 1)
  }

  /**
   * One way the optional group `\s*python\s*\n` can match: `lead` characters
   * of whitespace, the tag, `trail` characters of whitespace, then a newline.
   */
  datatype TagShape = TagShape(lead: nat, trail: nat)

  /** Index just past a tag group of shape `t` that starts at `i`. */
  function TagEnd(i: nat, t: TagShape): nat {
    i + t.lead + |Tag| + t.trail + 1
  }

  /** The tag word starts at index `p` (that is, s[p..p + |Tag|] == Tag; see `TagWordAtIsSlice`). */
  predicate TagWordAt(s: string, p: int) {
    && 0 <= p && p + 6 <= |s|
    && s[p] == 'p' && s[p + 1] == 'y' && s[p + 2] == 't' && s[p + 3] == 'h' && s[p + 4] == 'o' && s[p + 5] == 'n'
  }

  /** `TagWordAt` is the slice comparison with `Tag`. */
  lemma TagWordAtIsSlice(s: string, p: nat)
    ensures TagWordAt(s, p) <==> p + |Tag| <= |s| && s[p..p + |Tag|] == Tag
  {
    if p + |Tag| <= |s| && s[p..p + |Tag|] == Tag {
      assert s[p..p + |Tag|][0] == s[p];
    }
  }

  /** The optional group matches at `i` with shape `t`. */
  predicate TagAt(s: string, i: nat, t: TagShape) {
    var p := i + t.lead;
    var q := p + |Tag| + t.trail;
    q < |s| && AllSpace(s, i, p) && TagWordAt(s, p) && AllSpace(s, p + |Tag|, q) && s[q] == '\n'
  }

  /**
   * One complete match of the pattern: the opening fence at `start`, the
   * optional group, and the closing fence at `close`.
   */
  datatype Match = Match(start: nat, tag: Option<TagShape>, close: nat)

  /** Index where the body group of `m` begins. */
  function BodyStart(m: Match): nat {
    match m.tag
    case None => m.start + 3
    case Some(t) => TagEnd(m.start + 3, t)
  }

  /** `m` is a way for the whole pattern to match `s`. */
  predicate IsMatch(s: string, m: Match) {
    && FenceAt(s, m.start)
    && (m.tag.Some? ==> TagAt(s, m.start + 3, m.tag.value))
    && BodyStart(m) <= m.close
    && FenceAt(s, m.close)
  }

  /** The body group of a match. */
  function Body(s: string, m: Match): string
    requires IsMatch(s, m)
  {
    s[BodyStart(m)..m.close]
  }

  /**
   * A backtracking matcher reaches `a` before `b`: earlier start first; then
   * the greedy `?` tries the group before skipping it; inside the group the
   * greedy `\s*`s try longer runs first; last, the lazy body tries shorter
   * bodies first.
   */
  predicate TriedBefore(a: Match, b: Match) {
    || a.start < b.start
    || (a.start == b.start && a.tag.Some? && b.tag.None?)
    || (a.start == b.start && a.tag.Some? && b.tag.Some? && a.tag.value.lead > b.tag.value.lead)
    || (a.start == b.start && a.tag.Some? && b.tag.Some? && a.tag.value.lead == b.tag.value.lead
        && a.tag.value.trail > b.tag.value.trail)
    || (a.start == b.start && a.tag == b.tag && a.close < b.close)
  }

  /** The greedy scan of the optional group at `i`, or None when it cannot match. */
  function ScanTag(s: string, i: nat): (r: Option<TagShape>)
    requires i <= |s|
    ensures r.Some? ==> TagAt(s, i, r.value)
    ensures r.Some? ==> forall t :: TagAt(s, i, t) ==> t.lead == r.value.lead && t.trail <= r.value.trail
    ensures r.None? ==> forall t :: !TagAt(s, i, t)
  {
    var p := SpaceRun(s, i);
    LeadIsWholeRun(s, i, p);
    if TagWordAt(s, p) then
      var e := SpaceRun(s, p + |Tag|);
      match LastNewline(s, p + |Tag|, e)
      case Some(q) =>
        TrailEndsBeforeRunEnd(s, i, p, e);
        Some(TagShape(p - i, q - (p + |Tag|)))
      case None =>
        TrailEndsBeforeRunEnd(s, i, p, e);
        None
    else
      None
  }

  /** The group's leading `\s*` must take the whole whitespace run, since the tag starts with a letter. */
  lemma LeadIsWholeRun(s: string, i: nat, p: nat)
    requires i <= p <= |s| && AllSpace(s, i, p) && (p == |s| || !IsSpace(s[p]))
    ensures forall t :: TagAt(s, i, t) ==> i + t.lead == p
  {
    forall t | TagAt(s, i, t)
      ensures i + t.lead == p
    {
      var p' := i + t.lead;
      assert s[p'] == 'p';
      assert !IsSpace(s[p']);
    }
  }

  /** The newline that ends the group lies inside the whitespace run after the tag. */
  lemma TrailEndsBeforeRunEnd(s: string, i: nat, p: nat, e: nat)
    requires p + |Tag| <= e <= |s| && AllSpace(s, p + |Tag|, e) && (e == |s| || !IsSpace(s[e]))
    requires forall t :: TagAt(s, i, t) ==> i + t.lead == p
    ensures forall t :: TagAt(s, i, t) ==> p + |Tag| + t.trail < e && s[p + |Tag| + t.trail] == '\n'
  {
    forall t | TagAt(s, i, t)
      ensures p + |Tag| + t.trail < e
    {
      var q := p + |Tag| + t.trail;
      if q >= e {
        assert IsSpace(s[e]);
      }
    }
  }

  /** Nothing inside a matched tag group is a backtick, so no fence starts inside it. */
  lemma NoFenceInsideTag(s: string, i: nat, t: TagShape)
    requires TagAt(s, i, t)
    ensures NoFenceIn(s, i, TagEnd(i, t))
  {
    var p := i + t.lead;
    forall j | i <= j < TagEnd(i, t)
      ensures s[j] != '`'
    {
      if j < p {
        assert IsSpace(s[j]);
      } else if j < p + |Tag| {
        assert j - p in {0, 1, 2, 3, 4, 5};
      } else if j < p + |Tag| + t.trail {
        assert IsSpace(s[j]);
      }
    }
  }

  /**
   * The match `re.search` reports: the opening fence is the first fence, the
   * group is scanned greedily, and the body stops at the first fence after it.
   */
  function FirstMatch(s: string): (r: Option<Match>)
    ensures r.Some? ==> IsMatch(s, r.value)
    ensures r.Some? ==> forall m :: IsMatch(s, m) && m != r.value ==> TriedBefore(r.value, m)
    ensures r.None? ==> forall m :: !IsMatch(s, m)
  {
    match FindFence(s, 0)
    case None =>
      NoOpeningNoMatch(s);
      None
    case Some(p) =>
      var tag := ScanTag(s, p + 3);
      var from := BodyStart(Match(p, tag, 0));
      FirstMatchFacts(s, p, tag, from);
      match FindFence(s, from)
      case None =>
        NoClosingNoMatch(s, p, from);
        None
      case Some(c) =>
        FoundIsFirstTried(s, p, tag, from, c);
        Some(Match(p, tag, c))
  }

  /** Facts about the scan that `FirstMatch` relies on: no fence sits inside the scanned group. */
  lemma FirstMatchFacts(s: string, p: nat, tag: Option<TagShape>, from: nat)
    requires FenceAt(s, p) && tag == ScanTag(s, p + 3) && from == BodyStart(Match(p, tag, 0))
    ensures p + 3 <= from && NoFenceIn(s, p + 3, from)
  {
    if tag.Some? {
      NoFenceInsideTag(s, p + 3, tag.value);
    }
  }

  /** Without any fence nothing matches. */
  lemma NoOpeningNoMatch(s: string)
    requires NoFenceIn(s, 0, |s|)
    ensures forall m :: !IsMatch(s, m)
  {
    forall m
      ensures !IsMatch(s, m)
    {
      assert !FenceAt(s, m.start);
    }
  }

  /** Without a fence at least three characters after the first one nothing matches. */
  lemma NoClosingNoMatch(s: string, p: nat, from: nat)
    requires NoFenceIn(s, 0, p) && p + 3 <= from && NoFenceIn(s, p + 3, from) && NoFenceIn(s, from, |s|)
    ensures forall m :: !IsMatch(s, m)
  {
    forall m
      ensures !IsMatch(s, m)
    {
      assert BodyStart(m) >= m.start + 3;
      assert m.start < p ==> !FenceAt(s, m.start);
      assert m.start + 3 <= m.close ==> m.start < p || !FenceAt(s, m.close);
    }
  }

  /** The match the scan finds is tried before every other match. */
  lemma FoundIsFirstTried(s: string, p: nat, tag: Option<TagShape>, from: nat, c: nat)
    requires FindFence(s, 0) == Some(p) && tag == ScanTag(s, p + 3) && from == BodyStart(Match(p, tag, 0))
    requires FindFence(s, from) == Some(c)
    ensures IsMatch(s, Match(p, tag, c))
    ensures forall m :: IsMatch(s, m) && m != Match(p, tag, c) ==> TriedBefore(Match(p, tag, c), m)
  {
    var found := Match(p, tag, c);
    FirstMatchFacts(s, p, tag, from);
    forall m | IsMatch(s, m) && m != found
      ensures TriedBefore(found, m)
    {
      assert p <= m.start;
      if m.start == p && m.tag == tag {
        assert from <= m.close;
        assert c <= m.close;
      }
    }
  }

  /**
   * `extract_script`: the body of the first match, or the sentinel. On a match
   * the result is a fence-free slice of the reply that begins after the first
   * fence and is immediately followed by a fence.
   */
  function Extract(reply: string): (code: string)
    ensures !HasFencePair(reply) ==> code == NotFound
    ensures HasFencePair(reply) ==>
      exists lo :: FirstFenceBefore(reply, lo) && lo + |code| <= |reply|
        && reply[lo..lo + |code|] == code && FenceAt(reply, lo + |code|) && FenceFree(code)
  {
    MatchIffFencePair(reply);
    match FirstMatch(reply)
    case None => NotFound
    case Some(m) =>
      var code := Body(reply, m);
      BodyIsFenceFree(reply, m);
      assert FirstFenceBefore(reply, BodyStart(m));
      code
  }

  /** The first fence of `s` ends at or before `lo`. */
  ghost predicate FirstFenceBefore(s: string, lo: int) {
    exists i :: FenceAt(s, i) && NoFenceIn(s, 0, i) && i + 3 <= lo
  }

  /** How the scan found its match: the first fence, the greedy group, the first fence after the group. */
  lemma FirstMatchShape(s: string)
    requires FirstMatch(s).Some?
    ensures var m := FirstMatch(s).value;
            && FindFence(s, 0) == Some(m.start)
            && m.tag == ScanTag(s, m.start + 3)
            && FindFence(s, BodyStart(m)) == Some(m.close)
  {
  }

  /** The first match begins at the first fence; the body of the first match holds no fence. */
  lemma BodyIsFenceFree(s: string, m: Match)
    requires FirstMatch(s) == Some(m)
    ensures NoFenceIn(s, 0, m.start)
    ensures FenceFree(Body(s, m))
  {
    FirstMatchShape(s);
    SliceFenceFree(s, BodyStart(m), m.close);
  }

  /** A slice in which no fence starts is fence-free. */
  lemma SliceFenceFree(s: string, lo: nat, hi: nat)
    requires lo <= hi <= |s| && NoFenceIn(s, lo, hi)
    ensures FenceFree(s[lo..hi])
  {
    var b := s[lo..hi];
    forall j | 0 <= j < |b|
      ensures !FenceAt(b, j)
    {
      assert !FenceAt(s, lo + j);
      assert j + 3 <= |b| ==> b[j] == s[lo + j] && b[j + 1] == s[lo + j + 1] && b[j + 2] == s[lo + j + 2];
    }
  }

  /** A match exists exactly when the reply holds two non-overlapping fences. */
  lemma MatchIffFencePair(s: string)
    ensures FirstMatch(s).Some? <==> HasFencePair(s)
  {
    if FirstMatch(s).Some? {
      var m := FirstMatch(s).value;
      assert FenceAt(s, m.start) && FenceAt(s, m.close) && m.start + 3 <= m.close;
    } else if HasFencePair(s) {
      var i, j :| FenceAt(s, i) && FenceAt(s, j) && i + 3 <= j;
      assert IsMatch(s, Match(i, None, j));
    }
  }

  /** No match is tried before itself, and of two matches at most one is tried first. */
  lemma TriedBeforeAsymmetric(a: Match, b: Match)
    ensures !(TriedBefore(a, b) && TriedBefore(b, a))
  {
  }

  /**
   * Whatever match a backtracking matcher tries first, `Extract` returns its
   * body: the scan and the regex semantics agree on every reply.
   */
  lemma ExtractReportsFirstTried(s: string, m: Match)
    requires IsMatch(s, m)
    requires forall m' :: IsMatch(s, m') && m' != m ==> TriedBefore(m, m')
    ensures Extract(s) == Body(s, m)
  {
    var m0 := FirstMatch(s).value;
    if m0 != m {
      TriedBeforeAsymmetric(m, m0);
    }
  }

  /** When no fence pair exists `extract_script` answers with the sentinel, and the scan finds no match. */
  lemma NoPairGivesNotFound(s: string)
    requires forall i, j :: FenceAt(s, i) && FenceAt(s, j) ==> j < i + 3
    ensures FirstMatch(s) == None && Extract(s) == NotFound
  {
    MatchIffFencePair(s);
  }

  /** A fence pair exists exactly when the first fence has another fence at least three characters later. */
  lemma PairIffFirstFenceHasPartner(s: string)
    ensures HasFencePair(s) <==>
      (FindFence(s, 0).Some? && FindFence(s, FindFence(s, 0).value + 3).Some?)
    ensures FirstMatch(s).Some? ==> FirstMatch(s).value.start == FindFence(s, 0).value
  {
    MatchIffFencePair(s);
    var first := FindFence(s, 0);
    if first.Some? {
      var p := first.value;
      var second := FindFence(s, p + 3);
      if second.Some? {
        assert FenceAt(s, p) && FenceAt(s, second.value) && p + 3 <= second.value;
      } else {
        assert forall i, j :: FenceAt(s, i) && FenceAt(s, j) && i + 3 <= j ==> p <= i && p + 3 <= j;
      }
    }
  }

  /** The first fence at or after `from` is `k` when a fence starts at `k` and none before it. */
  lemma FindFenceIs(s: string, from: nat, k: nat)
    requires from <= k && FenceAt(s, k) && NoFenceIn(s, from, k)
    ensures FindFence(s, from) == Some(k)
  {
    var r := FindFence(s, from);
    assert r.Some?;
  }

  /** A fence-free `code` that does not end in a backtick, followed by a fence, has its first fence right after it. */
  lemma ClosingFenceIsFirst(s: string, lo: nat, code: string)
    requires FenceFree(code) && (|code| == 0 || code[|code| - 1] != '`')
    requires lo + |code| <= |s| && s[lo..lo + |code|] == code && FenceAt(s, lo + |code|)
    ensures FindFence(s, lo) == Some(lo + |code|)
  {
    var e := lo + |code|;
    forall j | lo <= j < e
      ensures !FenceAt(s, j)
    {
      if j + 3 <= e {
        CodeCharsAt(s, lo, code, j - lo);
        assert !FenceAt(code, j - lo);
      } else {
        assert s[lo..e][|code| - 1] == s[e - 1];
      }
    }
    FindFenceIs(s, lo, e);
  }

  /** The three characters at `k` of a slice copy are those of the original. */
  lemma CodeCharsAt(s: string, lo: nat, code: string, k: nat)
    requires lo + |code| <= |s| && s[lo..lo + |code|] == code && k + 3 <= |code|
    ensures s[lo + k] == code[k] && s[lo + k + 1] == code[k + 1] && s[lo + k + 2] == code[k + 2]
  {
  }

  /**
   * Round trip with the tag: a block opened by the fence, "python" and a
   * newline gives back exactly its code.
   */
  lemma TaggedRoundTrip(code: string)
    requires FenceFree(code)
    requires |code| == 0 || !IsSpace(code[0])
    requires |code| == 0 || code[|code| - 1] != '`'
    ensures Extract(Fence + Tag + "\n" + code + Fence) == code
  {
    var pre := Fence + Tag + "\n";
    var s := pre + code + Fence;
    assert forall k :: 0 <= k < 10 ==> s[k] == pre[k];
    assert |code| > 0 ==> s[10] == code[0];
    assert |code| == 0 ==> s[10] == '`';
    assert TaggedOpening(s);
    assert s[10..10 + |code|] == code;
    ClosingFenceIsFirst(s, 10, code);
    ExtractTagged(s, 10 + |code|);
    assert s[10..10 + |code|] == code;
  }

  /**
   * Round trip without the tag: when the code does not itself begin with the
   * optional group, the bare block gives back exactly its code.
   */
  lemma BareRoundTrip(code: string)
    requires FenceFree(code)
    requires |code| == 0 || code[|code| - 1] != '`'
    requires forall t :: !TagAt(code, 0, t)
    ensures Extract(Fence + code + Fence) == code
  {
    var s := Fence + code + Fence;
    FindFenceIs(s, 0, 0);
    NoTagAfterFence(s, code);
    assert s[3..3 + |code|] == code;
    ClosingFenceIsFirst(s, 3, code);
    assert FirstMatch(s) == Some(Match(0, None, 3 + |code|));
    assert s[3..3 + |code|] == code;
  }

  /** The bare block has no tag group when its code does not begin with one. */
  lemma NoTagAfterFence(s: string, code: string)
    requires s == Fence + code + Fence
    requires forall t :: !TagAt(code, 0, t)
    ensures ScanTag(s, 3) == None
  {
    forall t
      ensures !TagAt(s, 3, t)
    {
      ShiftTag(s, code, t);
    }
  }

  /** A tag group right after the opening fence lies entirely inside the code. */
  lemma ShiftTag(s: string, code: string, t: TagShape)
    requires s == Fence + code + Fence
    ensures TagAt(s, 3, t) ==> TagAt(code, 0, t)
  {
    var q := 3 + t.lead + |Tag| + t.trail;
    assert forall k :: 3 + |code| <= k < |s| ==> s[k] == '`';
    assert code == s[3..3 + |code|];
  }

  /** Code that starts with neither whitespace nor the tag's first letter cannot start with the group. */
  lemma NoTagAtPlainStart(code: string)
    requires |code| > 0 && !IsSpace(code[0]) && code[0] != 'p'
    ensures forall t :: !TagAt(code, 0, t)
  {
    LeadIsWholeRun(code, 0, 0);
  }

  /** A reply opened by the fence, the tag and a newline, followed by a non-blank, has its body start right after the newline. */
  lemma ExtractTagged(s: string, c: nat)
    requires TaggedOpening(s)
    requires 10 <= c && FenceAt(s, c) && NoFenceIn(s, 10, c)
    ensures Extract(s) == s[10..c]
  {
    assert SpaceRun(s, 3) == 3;
    assert SpaceRun(s, 9) == 10 by {
      assert SpaceRun(s, 10) == 10;
    }
    assert LastNewline(s, 9, 10) == Some(9);
    assert ScanTag(s, 3) == Some(TagShape(0, 0));
    ExtractGrouped(s, TagShape(0, 0), c);
  }

  /** A reply opening with a fence and the group `t` has its body run from the group's end to the next fence. */
  lemma ExtractGrouped(s: string, t: TagShape, c: nat)
    requires FenceAt(s, 0) && ScanTag(s, 3) == Some(t)
    requires TagEnd(3, t) <= c && FenceAt(s, c) && NoFenceIn(s, TagEnd(3, t), c)
    ensures Extract(s) == s[TagEnd(3, t)..c]
  {
    FindFenceIs(s, 0, 0);
    FindFenceIs(s, TagEnd(3, t), c);
    assert FirstMatch(s) == Some(Match(0, Some(t), c));
  }

  /** `s` opens with the fence, the tag and one newline, and no blank follows that newline. */
  predicate TaggedOpening(s: string) {
    && FenceAt(s, 0) && TagWordAt(s, 3) && 10 <= |s| && s[9] == '\n'
    && (|s| == 10 || !IsSpace(s[10]))
  }

  /** A reply whose opening fence has no tag group has its body start right after the fence. */
  lemma ExtractUntagged(s: string, c: nat)
    requires FenceAt(s, 0) && ScanTag(s, 3) == None
    requires 3 <= c && FenceAt(s, c) && NoFenceIn(s, 3, c)
    ensures Extract(s) == s[3..c]
  {
    FindFenceIs(s, 0, 0);
    FindFenceIs(s, 3, c);
    assert FirstMatch(s) == Some(Match(0, None, c));
  }

  /** Characters other than the backtick cannot start a fence. */
  lemma NoBacktickNoFence(s: string, lo: nat, hi: nat)
    requires lo <= hi <= |s|
    requires forall j :: lo <= j < hi ==> s[j] != '`'
    ensures NoFenceIn(s, lo, hi)
  {
  }

  /** The tag is case-sensitive: a "Python" line is kept as part of the body. */
  lemma TagIsCaseSensitive(s: string)
    requires s == "```Python\nx = 1```"
    ensures Extract(s) == "Python\nx = 1"
  {
    assert FenceAt(s, 0) && FenceAt(s, 15);
    assert SpaceRun(s, 3) == 3;
    assert !TagWordAt(s, 3);
    assert ScanTag(s, 3) == None;
    NoBacktickNoFence(s, 3, 15);
    ExtractUntagged(s, 15);
    assert s[3..15] == "Python\nx = 1";
  }

  /** A closing backtick of the code merges with the fence and is lost: the round trip needs code that does not end in one. */
  lemma TrailingBacktickIsLost(code: string)
    requires FenceFree(code)
    requires |code| == 0 || !IsSpace(code[0])
    requires |code| == 0 || code[|code| - 1] != '`'
    ensures Extract(Fence + Tag + "\n" + code + "`" + Fence) == code
  {
    var pre := Fence + Tag + "\n";
    var s := pre + code + "`" + Fence;
    assert forall k :: 0 <= k < 10 ==> s[k] == pre[k];
    assert |code| > 0 ==> s[10] == code[0];
    assert |code| == 0 ==> s[10] == '`';
    assert TaggedOpening(s);
    assert s[10..10 + |code|] == code;
    assert FenceAt(s, 10 + |code|);
    ClosingFenceIsFirst(s, 10, code);
    ExtractTagged(s, 10 + |code|);
  }

  /** Without a newline after the tag the group is skipped and "python" stays in the body. */
  lemma TagWithoutNewlineIsBody(s: string)
    requires s == "```python x```"
    ensures Extract(s) == "python x"
  {
    assert FenceAt(s, 0) && FenceAt(s, 11);
    assert SpaceRun(s, 3) == 3;
    assert TagWordAt(s, 3);
    assert SpaceRun(s, 9) == 10 by {
      assert SpaceRun(s, 10) == 10;
    }
    assert LastNewline(s, 9, 10) == None;
    assert ScanTag(s, 3) == None;
    NoBacktickNoFence(s, 3, 11);
    ExtractUntagged(s, 11);
    assert s[3..11] == "python x";
  }

  /**
   * The group runs to the last newline of the whitespace after the tag: it
   * ends just past a newline, and the blanks the body then starts with hold
   * no newline.
   */
  lemma GroupEndsAtLastNewline(s: string, i: nat)
    requires i <= |s| && ScanTag(s, i).Some?
    ensures s[TagEnd(i, ScanTag(s, i).value) - 1] == '\n'
    ensures forall k :: TagEnd(i, ScanTag(s, i).value) <= k < |s| && AllSpace(s, TagEnd(i, ScanTag(s, i).value), k + 1) ==> s[k] != '\n'
  {
    var p := SpaceRun(s, i);
    var e := SpaceRun(s, p + |Tag|);
    var q := LastNewline(s, p + |Tag|, e).value;
    assert TagEnd(i, ScanTag(s, i).value) == q + 1;
    forall k | q + 1 <= k < |s| && AllSpace(s, q + 1, k + 1)
      ensures s[k] != '\n'
    {
      assert k < e;
    }
  }

  /** A reply without code and a reply whose code is the sentinel text extract to the same string. */
  lemma SentinelIsAmbiguous(code: string)
    requires code == NotFound
    ensures Extract(Fence + code + Fence) == Extract("") == NotFound
  {
    NoTagAtPlainStart(code);
    NoBacktickNoFence(code, 0, |code|);
    BareRoundTrip(code);
    NoPairGivesNotFound("");
  }
}
