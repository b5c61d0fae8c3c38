/** Fenced code blocks in model output.

    Three call sites share one grammar, the global pattern
    ```(?:html|javascript|css|react)?([\s\S]*?)```
    an opening fence, an optional language tag (alternatives tried in that
    order), a lazy body and a closing fence. `MatchAt` is a deterministic
    rendering of one regex attempt at one position, including the engine's
    backtracking from the tagged to the untagged reading; `FirstFrom` is
    `RegExp.prototype.exec` and `AllFrom` is `String.prototype.matchAll`.
    `StripMarkers`/`CleanCode` model the separate `replace` pattern the
    preview uses. */
module FencedCode {
  import opened Basics

  const Fence: string := "```"

  /** The language tags the pattern accepts, in the order the alternation tries them. */
  const Tags: seq<string> := ["html", "javascript", "css", "react"]

  predicate FenceAt(s: string, i: nat) {
    HasAt(s, Fence, i)
  }

  /** One match: the fence opens at `start`, the tag follows, the captured
      body is `s[bodyStart..bodyEnd]` and the closing fence starts at `bodyEnd`. */
  datatype Block = Block(start: nat, tag: string, bodyStart: nat, bodyEnd: nat) {
    function End(): nat { bodyEnd + 3 }
  }

  /** Everything a match of the pattern guarantees about `b` in `s`. */
  ghost predicate Matches(s: string, b: Block) {
    && FenceAt(s, b.start)
    && (b.tag == "" || b.tag in Tags)
    && HasAt(s, b.tag, b.start + 3)
    && b.bodyStart == b.start + 3 + |b.tag|
    && b.bodyStart <= b.bodyEnd
    && FenceAt(s, b.bodyEnd)
    && (forall k | b.bodyStart <= k < b.bodyEnd :: !FenceAt(s, k))
  }

  function Body(s: string, b: Block): string
    requires b.bodyStart <= b.bodyEnd <= |s|
  {
    s[b.bodyStart..b.bodyEnd]
  }

  /** The first fence at or after `from` (the lazy body stops at it). */
  function FindFence(s: string, from: nat): (r: Option<nat>)
    ensures r.Some? ==> from <= r.value && FenceAt(s, r.value)
    ensures r.Some? ==> forall k | from <= k < r.value :: !FenceAt(s, k)
    ensures r.None? ==> forall k | from <= k :: !FenceAt(s, k)
    decreases |s| - from
  {
    if from + 3 > |s| then None
    else if FenceAt(s, from) then Some(from)
    else FindFence(s, from + 1)
  }

  /** The tag the greedy optional group takes at `i`: the first alternative
      that is present, or none. */
  function TagAt(s: string, i: nat): (t: string)
    ensures t == "" || (t in Tags && HasAt(s, t, i))
    ensures t == "" <==> forall w | w in Tags :: !HasAt(s, w, i)
  {
    if HasAt(s, "html", i) then "html"
    else if HasAt(s, "javascript", i) then "javascript"
    else if HasAt(s, "css", i) then "css"
    else if HasAt(s, "react", i) then "react"
    else ""
  }

  /** One attempt of the pattern at position `p`: try the tagged reading
      first; when no closing fence follows it, backtrack to the untagged one. */
  function MatchAt(s: string, p: nat): (r: Option<Block>)
    ensures r.Some? ==> r.value.start == p && Matches(s, r.value)
    ensures r.None? <==> !FenceAt(s, p) || FindFence(s, p + 3).None?
  {
    if !FenceAt(s, p) then None
    else
      var tag := TagAt(s, p + 3);
      var q := p + 3 + |tag|;
      var tagged := if tag != "" then FindFence(s, q) else None;
      if tagged.Some? then Some(Block(p, tag, q, tagged.value))
      else match FindFence(s, p + 3)
        case Some(j) => Some(Block(p, "", p + 3, j))
        case None => None
  }

  /** A tag is made of letters, so no fence can start inside it. */
  lemma NoFenceInsideTag(s: string, i: nat, t: string, k: nat)
    requires t in Tags && HasAt(s, t, i)
    requires i <= k < i + |t|
    ensures !FenceAt(s, k)
  {
    assert s[k] == t[k - i];
    HasAtChar(s, Fence, k, 0);
  }

  /** An occurrence of `w` at `i` fixes the character at `i + d`. */
  lemma HasAtChar(s: string, w: string, i: nat, d: nat)
    requires d < |w|
    ensures HasAt(s, w, i) ==> s[i + d] == w[d]
  {
    if HasAt(s, w, i) {
      assert s[i + d] == s[i..i + |w|][d];
    }
  }

  /** The backtracking never changes the outcome: whenever the pattern
      matches, the tag is the one the greedy group takes first. */
  lemma MatchTakesGreedyTag(s: string, p: nat)
    requires MatchAt(s, p).Some?
    ensures MatchAt(s, p).value.tag == TagAt(s, p + 3)
  {
    var tag := TagAt(s, p + 3);
    var q := p + 3 + |tag|;
    if tag != "" {
      var j := FindFence(s, p + 3).value;
      if j < q {
        NoFenceInsideTag(s, p + 3, tag, j);
      }
      assert FenceAt(s, j);
      assert FindFence(s, q).Some?;
    }
  }

  /** An occurrence inside a slice is an occurrence in the whole string. */
  lemma HasAtSlice(s: string, a: nat, b: nat, w: string, i: nat)
    requires a <= b <= |s| && HasAt(s[a..b], w, i)
    ensures HasAt(s, w, a + i)
  {
    var t := s[a..b];
    forall j | 0 <= j < |w|
      ensures s[a + i..a + i + |w|][j] == w[j]
    {
      assert t[i..i + |w|][j] == w[j];
      assert t[i + j] == s[a + i + j];
    }
    assert s[a + i..a + i + |w|] == w;
  }

  /** The captured body never contains a fence. */
  lemma BodyHasNoFence(s: string, b: Block)
    requires Matches(s, b)
    ensures !Contains(Body(s, b), Fence)
  {
    var body := Body(s, b);
    forall i: nat | HasAt(body, Fence, i)
      ensures false
    {
      HasAtSlice(s, b.bodyStart, b.bodyEnd, Fence, i);
      assert FenceAt(s, b.bodyStart + i);
    }
  }

  /** A match spells out exactly fence, tag, body, fence. */
  lemma MatchSpelling(s: string, b: Block)
    requires Matches(s, b)
    ensures s[b.start..b.End()] == Fence + b.tag + Body(s, b) + Fence
  {
    SliceSplit(s, b.start, b.start + 3, b.bodyStart, b.bodyEnd, b.End());
  }

  /** `exec` from index `from`: the leftmost position where the pattern matches. */
  function FirstFrom(s: string, from: nat): (r: Option<Block>)
    ensures r.Some? ==> from <= r.value.start && MatchAt(s, r.value.start) == r
    ensures r.Some? ==> forall p | from <= p < r.value.start :: MatchAt(s, p).None?
    ensures r.None? ==> forall p | from <= p :: MatchAt(s, p).None?
    decreases |s| - from
  {
    if from > |s| then None
    else match MatchAt(s, from)
      case Some(b) => Some(b)
      case None => FirstFrom(s, from + 1)
  }

  /** Each block after the first is the `exec` match from the end of the one before. */
  ghost predicate Resumes(s: string, bs: seq<Block>) {
    forall i | 0 <= i < |bs| - 1 :: FirstFrom(s, bs[i].End()) == Some(bs[i + 1])
  }

  /** Blocks appear in order and never overlap. */
  ghost predicate InOrder(bs: seq<Block>) {
    forall i | 0 <= i < |bs| - 1 :: bs[i].End() <= bs[i + 1].start
  }

  /** Every block starts at or after `from`. */
  ghost predicate StartFrom(from: nat, bs: seq<Block>) {
    forall i | 0 <= i < |bs| :: from <= bs[i].start
  }

  /** `bs` is what repeated `exec` calls from `from` return: the first
      match, then each next search resuming at the previous match's end,
      until a search finds nothing. */
  ghost predicate ExecChain(s: string, from: nat, bs: seq<Block>) {
    && (forall i | 0 <= i < |bs| :: Matches(s, bs[i]))
    && (|bs| == 0 ==> FirstFrom(s, from).None?)
    && (|bs| > 0 ==> FirstFrom(s, from) == Some(bs[0]) && FirstFrom(s, bs[|bs| - 1].End()).None?)
    && Resumes(s, bs)
  }

  /** `bs` lists the matches from `from` as `matchAll` finds them: an `exec`
      chain of ordered, non-overlapping matches at or after `from`. */
  ghost predicate Enumerates(s: string, from: nat, bs: seq<Block>) {
    ExecChain(s, from, bs) && InOrder(bs) && StartFrom(from, bs)
  }

  /** `matchAll` from index `from`: every match, each search resuming where
      the previous match ended. */
  function AllFrom(s: string, from: nat): (bs: seq<Block>)
    ensures |bs| == 0 <==> FirstFrom(s, from).None?
    ensures Enumerates(s, from, bs)
    decreases |s| - from
  {
    match FirstFrom(s, from)
    case None => []
    case Some(b) =>
      var rest := AllFrom(s, b.End());
      ConsMatches(s, from, b, rest);
      [b] + rest
  }

  /** The match list spelled out: well-formed matches at or after `from`,
      in order; empty exactly when `exec` finds nothing; headed by the
      `exec` match; each next match the `exec` match from the previous
      one's end; nothing matching after the last. */
  lemma AllFromShape(s: string, from: nat)
    ensures var bs := AllFrom(s, from);
      && (forall i | 0 <= i < |bs| :: Matches(s, bs[i]) && from <= bs[i].start)
      && InOrder(bs)
      && (|bs| == 0 <==> FirstFrom(s, from).None?)
      && (|bs| > 0 ==> Some(bs[0]) == FirstFrom(s, from))
      && (|bs| > 0 ==> FirstFrom(s, bs[|bs| - 1].End()).None?)
      && (forall i | 0 <= i < |bs| - 1 :: FirstFrom(s, bs[i].End()) == Some(bs[i + 1]))
  {
    var bs := AllFrom(s, from);
    assert ExecChain(s, from, bs) && InOrder(bs) && StartFrom(from, bs);
    assert Resumes(s, bs);
  }

  /** The repeated `exec` calls determine the match list: any chain of them
      is the list `matchAll` returns. */
  lemma {:induction false} AllFromUnique(s: string, from: nat, bs: seq<Block>)
    ensures ExecChain(s, from, bs) ==> bs == AllFrom(s, from)
    decreases |bs|
  {
    if ExecChain(s, from, bs) && |bs| > 0 {
      ChainTail(s, from, bs);
      AllFromUnique(s, bs[0].End(), bs[1..]);
      assert AllFrom(s, from) == [bs[0]] + AllFrom(s, bs[0].End());
      assert bs == [bs[0]] + bs[1..];
    }
  }

  /** After the first match, the rest of a chain is a chain from its end. */
  lemma ChainTail(s: string, from: nat, bs: seq<Block>)
    requires ExecChain(s, from, bs) && |bs| > 0
    ensures ExecChain(s, bs[0].End(), bs[1..])
  {
    var rest := bs[1..];
    forall i | 0 <= i < |rest|
      ensures Matches(s, rest[i])
    {
      assert rest[i] == bs[i + 1];
    }
    forall i | 0 <= i < |rest| - 1
      ensures FirstFrom(s, rest[i].End()) == Some(rest[i + 1])
    {
      assert rest[i] == bs[i + 1] && rest[i + 1] == bs[i + 2];
    }
    if |rest| > 0 {
      assert FirstFrom(s, bs[0].End()) == Some(rest[0]);
      assert rest[|rest| - 1] == bs[|bs| - 1];
    }
  }

  /** Putting the `exec` match in front of the matches after its end gives
      the matches from `from`. */
  lemma ConsMatches(s: string, from: nat, b: Block, rest: seq<Block>)
    requires FirstFrom(s, from) == Some(b)
    requires Enumerates(s, b.End(), rest)
    ensures Enumerates(s, from, [b] + rest)
  {
    var bs := [b] + rest;
    assert Matches(s, b) && from <= b.start;
    forall i | 0 <= i < |bs|
      ensures Matches(s, bs[i]) && from <= bs[i].start
    {
      if i > 0 {
        assert bs[i] == rest[i - 1];
      }
    }
    ConsOrder(b, rest);
    ConsResumes(s, b, rest);
    if |rest| > 0 {
      assert bs[|bs| - 1] == rest[|rest| - 1];
    }
  }

  lemma ConsOrder(b: Block, rest: seq<Block>)
    requires b.start <= b.End() && StartFrom(b.End(), rest) && InOrder(rest)
    ensures InOrder([b] + rest)
  {
    var bs := [b] + rest;
    forall i | 0 <= i < |bs| - 1
      ensures bs[i].End() <= bs[i + 1].start
    {
      assert bs[i + 1] == rest[i];
      if i > 0 {
        assert bs[i] == rest[i - 1];
      }
    }
  }

  lemma ConsResumes(s: string, b: Block, rest: seq<Block>)
    requires Resumes(s, rest)
    requires |rest| > 0 ==> FirstFrom(s, b.End()) == Some(rest[0])
    ensures Resumes(s, [b] + rest)
  {
    var bs := [b] + rest;
    forall i | 0 <= i < |bs| - 1
      ensures FirstFrom(s, bs[i].End()) == Some(bs[i + 1])
    {
      assert bs[i + 1] == rest[i];
      if i > 0 {
        assert bs[i] == rest[i - 1];
      }
    }
  }

  /** `extractCode`: the body of the last block, or null. */
  function ExtractLast(s: string): (r: Option<string>)
    ensures r.Some? ==> !Contains(r.value, Fence)
    ensures r.None? <==> FirstFrom(s, 0).None?
    ensures r.Some? ==> |AllFrom(s, 0)| > 0 && r.value == Body(s, AllFrom(s, 0)[|AllFrom(s, 0)| - 1])
  {
    var bs := AllFrom(s, 0);
    if |bs| == 0 then None
    else
      var b := bs[|bs| - 1];
      BodyHasNoFence(s, b);
      Some(Body(s, b))
  }

  /** The body of the first block, the capture group of one `exec` call. */
  function ExtractFirst(s: string): (r: Option<string>)
    ensures r.Some? ==> !Contains(r.value, Fence)
  {
    match FirstFrom(s, 0)
    case None => None
    case Some(b) =>
      BodyHasNoFence(s, b);
      Some(Body(s, b))
  }

  /** First-match and last-match agree on whether a block exists; the first
      block is the head of the full match list and nothing matches before it. */
  lemma FirstIsHeadOfAll(s: string)
    ensures ExtractFirst(s).None? <==> ExtractLast(s).None?
    ensures |AllFrom(s, 0)| > 0 ==> ExtractFirst(s) == Some(Body(s, AllFrom(s, 0)[0]))
    ensures ExtractFirst(s).Some? ==>
      forall p: nat | p < FirstFrom(s, 0).value.start :: MatchAt(s, p).None?
  {
  }

  /** `extractCode` returns the body of the last match that repeated `exec`
      calls from the start find, the one after which a further search finds
      nothing, and null when the first search already finds nothing. */
  lemma LastHasNoSuccessor(s: string, bs: seq<Block>)
    ensures ExecChain(s, 0, bs) && |bs| == 0 ==> ExtractLast(s).None?
    ensures ExecChain(s, 0, bs) && |bs| > 0 ==> ExtractLast(s) == Some(Body(s, bs[|bs| - 1]))
  {
    AllFromUnique(s, 0, bs);
  }

  /** With exactly one block, the two call sites extract the same code. */
  lemma SingleBlockAgrees(s: string)
    requires |AllFrom(s, 0)| == 1
    ensures ExtractFirst(s) == ExtractLast(s)
  {
  }

  /** The tags differ in their first letter, so the one present is the one taken. */
  lemma TagAtPresent(s: string, i: nat, tag: string)
    requires tag in Tags && HasAt(s, tag, i)
    ensures TagAt(s, i) == tag
  {
    HasAtChar(s, tag, i, 0);
    HasAtChar(s, "html", i, 0);
    HasAtChar(s, "javascript", i, 0);
    HasAtChar(s, "css", i, 0);
  }

  /** Where the pieces of `Fence + tag + body + Fence` sit. */
  lemma FencedLayout(tag: string, body: string)
    ensures var s := Fence + tag + body + Fence;
      var e := 3 + |tag| + |body|;
      && |s| == e + 3
      && FenceAt(s, 0) && HasAt(s, tag, 3) && FenceAt(s, e)
      && forall k | 3 + |tag| <= k < e :: s[k] in body
  {
    var s := Fence + tag + body + Fence;
    var q := 3 + |tag|;
    var e := q + |body|;
    assert s[..3] == Fence && s[3..q] == tag && s[e..] == Fence;
    forall k | q <= k < e ensures s[k] in body {
      assert s[k] == body[k - q];
    }
  }

  /** In `Fence + tag + body + Fence` the pattern matches at 0 and
      captures exactly the body. */
  lemma FencedBlockMatch(tag: string, body: string)
    requires tag in Tags && '`' !in body
    ensures MatchAt(Fence + tag + body + Fence, 0)
         == Some(Block(0, tag, 3 + |tag|, 3 + |tag| + |body|))
  {
    var s := Fence + tag + body + Fence;
    var q := 3 + |tag|;
    var e := q + |body|;
    FencedLayout(tag, body);
    TagAtPresent(s, 3, tag);
    FenceAfterPlainText(s, q, e);
  }

  /** Scanning from the start of backtick-free text finds the fence right after it. */
  lemma FenceAfterPlainText(s: string, q: nat, e: nat)
    requires q <= e && FenceAt(s, e)
    requires forall k | q <= k < e :: s[k] != '`'
    ensures FindFence(s, q) == Some(e)
  {
    forall k | q <= k < e ensures !FenceAt(s, k) {
      HasAtChar(s, Fence, k, 0);
    }
  }

  /** Fencing a backtick-free body under a tag and scanning it again gives
      the body back, on both the first-match and the last-match path. */
  lemma FenceRoundTrip(tag: string, body: string)
    requires tag in Tags && '`' !in body
    ensures ExtractFirst(Fence + tag + body + Fence) == Some(body)
    ensures ExtractLast(Fence + tag + body + Fence) == Some(body)
  {
    var s := Fence + tag + body + Fence;
    var b := Block(0, tag, 3 + |tag|, 3 + |tag| + |body|);
    FencedBlockMatch(tag, body);
    assert FirstFrom(s, 0) == Some(b);
    assert s[b.bodyStart..b.bodyEnd] == body;
    assert b.End() == |s|;
    assert FirstFrom(s, |s| + 1).None?;
    assert FirstFrom(s, b.End()).None?;
    assert AllFrom(s, 0) == [b];
  }

  // ---------------------------------------------------------------------
  // cleanCode: code.replace(/```html|```javascript|```css|```/g, '').trim()

  /** Removes the fence markers left to right, trying the alternatives in
      the pattern's order at each position and resuming after a removal. */
  function StripMarkers(s: string): (r: string)
    ensures |r| <= |s|
    decreases |s|
  {
    if |s| == 0 then ""
    else if HasAt(s, "```html", 0) then StripMarkers(s[7..])
    else if HasAt(s, "```javascript", 0) then StripMarkers(s[13..])
    else if HasAt(s, "```css", 0) then StripMarkers(s[6..])
    else if HasAt(s, Fence, 0) then StripMarkers(s[3..])
    else [s[0]] + StripMarkers(s[1..])
  }

  /** An occurrence of a word implies one of each of its prefixes. */
  lemma HasAtPrefix(s: string, w: string, v: string, i: nat)
    requires v <= w
    ensures HasAt(s, w, i) ==> HasAt(s, v, i)
  {
    if HasAt(s, w, i) {
      assert s[i..i + |v|] == s[i..i + |w|][..|v|];
    }
  }

  /** Where no fence starts, no marker starts either, and the first
      character is kept. */
  lemma StripKeepsHead(s: string)
    requires |s| > 0 && !FenceAt(s, 0)
    ensures StripMarkers(s) == [s[0]] + StripMarkers(s[1..])
  {
    HasAtPrefix(s, "```html", Fence, 0);
    HasAtPrefix(s, "```javascript", Fence, 0);
    HasAtPrefix(s, "```css", Fence, 0);
  }

  /** Without a backtick nothing is removed. */
  lemma {:induction false} StripWithoutBacktick(s: string)
    requires '`' !in s
    ensures StripMarkers(s) == s
    decreases |s|
  {
    if |s| > 0 {
      HasAtChar(s, Fence, 0, 0);
      StripKeepsHead(s);
      assert '`' !in s[1..];
      StripWithoutBacktick(s[1..]);
    }
  }

  /** Removal distributes over a split point with no backtick before it. */
  lemma {:induction false} StripAppend(a: string, b: string)
    requires '`' !in a
    ensures StripMarkers(a + b) == a + StripMarkers(b)
    decreases |a|
  {
    if |a| > 0 {
      var ab := a + b;
      assert ab[0] == a[0] && a[0] in a;
      HasAtChar(ab, Fence, 0, 0);
      StripKeepsHead(ab);
      assert ab[1..] == a[1..] + b;
      assert '`' !in a[1..];
      StripAppend(a[1..], b);
      assert StripMarkers(ab) == [a[0]] + (a[1..] + StripMarkers(b));
      assert a == [a[0]] + a[1..];
    } else {
      assert a + b == b;
    }
  }

  /** Three backticks in a row form a fence. */
  lemma FenceFromChars(s: string, k: nat)
    ensures (k + 3 <= |s| && s[k] == '`' && s[k + 1] == '`' && s[k + 2] == '`') ==> FenceAt(s, k)
  {
    if k + 3 <= |s| && s[k] == '`' && s[k + 1] == '`' && s[k + 2] == '`' {
      assert s[k..k + 3] == Fence;
    }
  }

  ghost predicate NoFence(s: string) {
    forall k: nat :: !FenceAt(s, k)
  }

  lemma NoFenceCons(c: char, r: string)
    requires NoFence(r)
    requires !FenceAt([c] + r, 0)
    ensures NoFence([c] + r)
  {
    forall k: nat | k >= 1 ensures !FenceAt([c] + r, k) {
      if k + 3 <= |r| + 1 {
        assert ([c] + r)[k..k + 3] == r[k - 1..k + 2];
      }
      assert !FenceAt(r, k - 1);
    }
  }

  lemma NoFenceSlice(s: string, i: nat, j: nat)
    requires NoFence(s) && i <= j <= |s|
    ensures NoFence(s[i..j])
  {
    forall k: nat ensures !FenceAt(s[i..j], k) {
      HasAtChar(s[i..j], Fence, k, 0);
      HasAtChar(s[i..j], Fence, k, 1);
      HasAtChar(s[i..j], Fence, k, 2);
      FenceFromChars(s, i + k);
      assert !FenceAt(s, i + k);
    }
  }

  /** Keeping a backtick that opens no fence cannot create a fence at the
      front of the output: the characters after it are kept as well. */
  lemma KeptHeadOpensNoFence(s: string)
    requires |s| > 0 && !FenceAt(s, 0)
    ensures !FenceAt([s[0]] + StripMarkers(s[1..]), 0)
  {
    var r := [s[0]] + StripMarkers(s[1..]);
    HasAtChar(r, Fence, 0, 0);
    HasAtChar(r, Fence, 0, 1);
    HasAtChar(r, Fence, 0, 2);
    HasAtChar(s, Fence, 0, 0);
    HasAtChar(s, Fence, 0, 1);
    HasAtChar(s, Fence, 0, 2);
    if s[0] == '`' && |s| >= 2 {
      var t := s[1..];
      HasAtChar(t, Fence, 0, 0);
      if t[0] != '`' {
        StripKeepsHead(t);
        assert r[1] == s[1];
      } else if |s| >= 3 {
        FenceFromChars(s, 0);
        assert s[2] != '`';
        HasAtChar(t, Fence, 0, 1);
        StripKeepsHead(t);
        HasAtChar(t[1..], Fence, 0, 0);
        StripKeepsHead(t[1..]);
        assert r[2] == s[2];
      } else {
        StripKeepsHead(t);
        assert |r| == 2;
      }
    }
  }

  /** No fence survives the removal, even one assembled from backticks
      on either side of a removed marker. */
  lemma {:induction false} StripLeavesNoFence(s: string)
    ensures NoFence(StripMarkers(s))
    decreases |s|
  {
    if |s| == 0 {
    } else if HasAt(s, "```html", 0) {
      StripLeavesNoFence(s[7..]);
    } else if HasAt(s, "```javascript", 0) {
      StripLeavesNoFence(s[13..]);
    } else if HasAt(s, "```css", 0) {
      StripLeavesNoFence(s[6..]);
    } else if HasAt(s, Fence, 0) {
      StripLeavesNoFence(s[3..]);
    } else {
      StripLeavesNoFence(s[1..]);
      KeptHeadOpensNoFence(s);
      NoFenceCons(s[0], StripMarkers(s[1..]));
    }
  }

  lemma TrimKeepsNoFence(s: string)
    requires NoFence(s)
    ensures NoFence(Trim(s))
  {
    var i := LeadingSpaces(s);
    var j := |s| - TrailingSpaces(s[i..]);
    assert Trim(s) == s[i..j];
    NoFenceSlice(s, i, j);
  }

  /** `cleanCode`: markers removed, then trimmed. */
  function CleanCode(code: string): (r: string)
    ensures |r| == 0 || (!IsJsSpace(r[0]) && !IsJsSpace(r[|r| - 1]))
    ensures NoFence(r)
  {
    StripLeavesNoFence(code);
    TrimKeepsNoFence(StripMarkers(code));
    Trim(StripMarkers(code))
  }

  /** Code without backticks is only trimmed. */
  lemma CleanWithoutBacktick(code: string)
    requires '`' !in code
    ensures CleanCode(code) == Trim(code)
  {
    StripWithoutBacktick(code);
  }

  /** Text without a fence has no marker to remove. */
  lemma {:induction false} StripWithoutFence(s: string)
    requires NoFence(s)
    ensures StripMarkers(s) == s
    decreases |s|
  {
    if |s| > 0 {
      StripKeepsHead(s);
      NoFenceSlice(s, 1, |s|);
      assert s[1..|s|] == s[1..];
      StripWithoutFence(s[1..]);
    }
  }

  /** Cleaning is idempotent: cleaned code is left as it is. */
  lemma CleanCodeIdempotent(code: string)
    ensures CleanCode(CleanCode(code)) == CleanCode(code)
  {
    var c := CleanCode(code);
    StripWithoutFence(c);
    TrimOfTrimmed(c);
  }

  /** The code the chat window hands to the preview is an extracted block
      body; for it, cleaning only trims. */
  lemma CleanExtractedOnlyTrims(s: string)
    requires ExtractLast(s).Some?
    ensures CleanCode(ExtractLast(s).value) == Trim(ExtractLast(s).value)
  {
    var c := ExtractLast(s).value;
    assert NoFence(c);
    StripWithoutFence(c);
  }

  /** Occurrences at the front survive removing a common prefix. */
  lemma HasAtDropPrefix(f: string, t: string, w: string)
    ensures HasAt(f + t, f + w, 0) ==> HasAt(t, w, 0)
  {
    if HasAt(f + t, f + w, 0) {
      assert t[..|w|] == (f + t)[..|f| + |w|][|f|..];
    }
  }

  /** A fence that opens no removable tagged marker is removed on its own. */
  lemma StripBareFence(t: string)
    requires !HasAt(t, "html", 0) && !HasAt(t, "javascript", 0) && !HasAt(t, "css", 0)
    ensures StripMarkers(Fence + t) == StripMarkers(t)
  {
    var s := Fence + t;
    assert s[..3] == Fence && s[3..] == t;
    assert "```html" == Fence + "html";
    assert "```javascript" == Fence + "javascript";
    assert "```css" == Fence + "css";
    HasAtDropPrefix(Fence, t, "html");
    HasAtDropPrefix(Fence, t, "javascript");
    HasAtDropPrefix(Fence, t, "css");
  }

  /** A fence opening an html, javascript or css block is removed together
      with its tag word, and removal resumes right after the word. */
  lemma StripTaggedFence(tag: string, t: string)
    requires tag == "html" || tag == "javascript" || tag == "css"
    ensures StripMarkers(Fence + tag + t) == StripMarkers(t)
  {
    var m := Fence + tag;
    assert Fence + tag + t == m + t;
    StripMarkerAt(m, t);
  }

  /** The first alternative present at the start is removed as a whole. */
  lemma StripMarkerAt(m: string, t: string)
    requires m == "```html" || m == "```javascript" || m == "```css"
    ensures StripMarkers(m + t) == StripMarkers(t)
  {
    var s := m + t;
    assert HasAt(s, m, 0) by {
      assert s[..|m|] == m;
    }
    assert s[|m|..] == t;
    if m != "```html" {
      NotAtByChar(s, "```html", 3);
    }
    if m == "```css" {
      NotAtByChar(s, "```javascript", 3);
    }
  }

  /** A word whose `d`-th character differs from the text's does not occur at 0. */
  lemma NotAtByChar(s: string, w: string, d: nat)
    requires d < |w| && d < |s| && s[d] != w[d]
    ensures !HasAt(s, w, 0)
  {
    HasAtChar(s, w, 0, d);
  }

  /** Of an html, javascript or css block around backtick-free code, the
      preview keeps only the trimmed code: both markers go, tag word included. */
  lemma CleanStripsTaggedBlock(tag: string, x: string)
    requires tag == "html" || tag == "javascript" || tag == "css"
    requires '`' !in x
    ensures CleanCode(Fence + tag + x + Fence) == Trim(x)
  {
    assert Fence + tag + x + Fence == Fence + tag + (x + Fence);
    StripTaggedFence(tag, x + Fence);
    StripFenceOnly();
    StripAppend(x, Fence);
    StripWithoutBacktick(x);
    assert x + "" == x;
  }

  lemma ReactLayout(x: string)
    requires '`' !in x
    ensures "```react" + x + "```" == Fence + (("react" + x) + Fence)
    ensures (("react" + x) + Fence)[0] == 'r'
    ensures '`' !in "react" + x
  {
  }

  lemma StripFenceOnly()
    ensures StripMarkers(Fence) == ""
  {
    assert HasAt(Fence, Fence, 0);
    assert Fence[3..] == "";
  }

  /** The `react` tag is not among the removed markers: of a react block
      only the two fences go, and the word `react` stays in front. */
  lemma CleanKeepsReactTag(x: string)
    requires '`' !in x
    ensures CleanCode("```react" + x + "```") == Trim("react" + x)
  {
    var body := "react" + x;
    var t := body + Fence;
    ReactLayout(x);
    HasAtChar(t, "html", 0, 0);
    HasAtChar(t, "javascript", 0, 0);
    HasAtChar(t, "css", 0, 0);
    StripBareFence(t);
    StripFenceOnly();
    StripAppend(body, Fence);
    assert body + "" == body;
  }
}
