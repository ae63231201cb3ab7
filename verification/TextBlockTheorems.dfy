/** What block splitting guarantees for every text. */
module TextBlockTheorems {
  import opened JsString
  import opened TextBlocks
  import InlineTheorems

  // ---------- the split is canonical ----------

  lemma SliceOccurs(c: string, i: nat, k: nat)
    requires i <= k <= |c|
    ensures OccursAt(c, c[i..k], i)
  {
    OccursSlice(c, c[i..k], i);
  }

  lemma CodeFits(c: string, s: nat, e: nat, last: bool)
    requires HasFence(c, s) && s + 3 <= e <= |c| && HasFence(c, e) && NoFenceIn(c, s + 3, e)
    ensures BlockFits(c, s, CodeBlock(c[s + 3..e]), last)
    ensures s + |BlockSource(CodeBlock(c[s + 3..e]))| == e + 3
  {
    hide OccursAt;
    var t := c[s + 3..e];
    SliceOccurs(c, s + 3, e);
    OccursConcat(c, FENCE, t, s);
    OccursConcat(c, FENCE + t, FENCE, s);
  }

  lemma CanonicalCons(c: string, i: nat, b: Block, tail: seq<Block>)
    requires BlockFits(c, i, b, tail == []) && CanonicalFrom(c, i + |BlockSource(b)|, tail)
    requires b.TextBlock? && tail != [] ==> tail[0].CodeBlock?
    ensures CanonicalFrom(c, i, [b] + tail)
  {
    hide BlockFits, BlockSource;
    assert ([b] + tail)[1..] == tail;
  }

  lemma {:induction false} SplitFromIsCanonical(c: string, i: nat)
    requires i <= |c|
    ensures CanonicalFrom(c, i, SplitFrom(c, i))
    decreases |c| - i
  {
    hide BlockFits, BlockSource, HasFence, NoFenceIn, IndexOf, CanonicalFrom, SplitFrom;
    if i == |c| {
      CanonicalEnd(c);
      SplitAtEnd(c);
    } else {
      var s := IndexOf(c, FENCE, i);
      if s == -1 || IndexOf(c, FENCE, s + 3) == -1 {
        NoPairLeft(c, i);
        RestFits(c, i);
        SplitAtRest(c, i);
      } else {
        IndexOfSome(c, i);
        IndexOfSome(c, s + 3);
        if s > i {
          SplitAtText(c, i, s);
          SplitFromIsCanonical(c, s);
          TextThenCode(c, i, s);
        } else {
          var e := IndexOf(c, FENCE, s + 3);
          SplitAtCode(c, s, e);
          SplitFromIsCanonical(c, e + 3);
          CodeFits(c, s, e, SplitFrom(c, e + 3) == []);
          CanonicalCons(c, s, CodeBlock(c[s + 3..e]), SplitFrom(c, e + 3));
        }
      }
    }
  }

  lemma NoPairLeft(c: string, i: nat)
    requires IndexOf(c, FENCE, i) == -1 || IndexOf(c, FENCE, IndexOf(c, FENCE, i) + 3) == -1
    ensures NoPairFrom(c, i)
  {
    hide IndexOf, HasFence;
    var s := IndexOf(c, FENCE, i);
    if s == -1 {
      IndexOfNone(c, i);
    } else {
      IndexOfSome(c, i);
      IndexOfNone(c, s + 3);
    }
  }

  lemma TextThenCode(c: string, i: nat, s: nat)
    requires i < s == IndexOf(c, FENCE, i) && IndexOf(c, FENCE, s + 3) != -1
    requires s <= |c| && CanonicalFrom(c, s, SplitFrom(c, s))
    ensures CanonicalFrom(c, i, [TextBlock(c[i..s])] + SplitFrom(c, s))
  {
    hide BlockFits, BlockSource, HasFence, NoFenceIn, IndexOf, CanonicalFrom, SplitFrom;
    IndexOfSome(c, i);
    SplitAtText(c, i, s);
    SplitAtCode(c, s, IndexOf(c, FENCE, s + 3));
    TextFits(c, i, s);
    CanonicalCons(c, i, TextBlock(c[i..s]), SplitFrom(c, s));
  }

  lemma CanonicalEnd(c: string)
    ensures CanonicalFrom(c, |c|, [])
  {
  }

  lemma TextFits(c: string, i: nat, s: nat)
    requires i < s <= |c| && NoFenceIn(c, i, s)
    ensures BlockFits(c, i, TextBlock(c[i..s]), false)
    ensures i + |BlockSource(TextBlock(c[i..s]))| == s
  {
    SliceOccurs(c, i, s);
  }

  lemma RestFits(c: string, i: nat)
    requires i < |c| && NoPairFrom(c, i)
    ensures CanonicalFrom(c, i, [TextBlock(c[i..])])
  {
    hide OccursAt, HasFence;
    SliceOccurs(c, i, |c|);
    assert c[i..] == c[i..|c|];
    CanonicalEnd(c);
    CanonicalCons(c, i, TextBlock(c[i..]), []);
  }

  // ---------- nothing else is ----------

  lemma FirstFence(c: string, from: nat, s: nat)
    requires from <= s && HasFence(c, s) && NoFenceIn(c, from, s)
    ensures IndexOf(c, FENCE, from) == s
  {
    hide OccursAt;
    var r := IndexOf(c, FENCE, from);
    assert OccursAt(c, FENCE, s);
    assert HasFence(c, r);
  }

  lemma CodeAt(c: string, i: nat, t: string, last: bool)
    requires BlockFits(c, i, CodeBlock(t), last)
    ensures HasFence(c, i) && HasFence(c, i + 3 + |t|)
    ensures i + 6 + |t| <= |c| && c[i + 3..i + 3 + |t|] == t
  {
    hide OccursAt;
    OccursConcat(c, FENCE + t, FENCE, i);
    OccursConcat(c, FENCE, t, i);
    OccursBound(c, FENCE, i + 3 + |t|);
    OccursSlice(c, t, i + 3);
  }

  lemma TextAt(c: string, i: nat, t: string, last: bool)
    requires BlockFits(c, i, TextBlock(t), last)
    ensures i + |t| <= |c| && c[i..i + |t|] == t
  {
    OccursSlice(c, t, i);
  }

  lemma SplitAtRest(c: string, i: nat)
    requires i < |c| && NoPairFrom(c, i)
    ensures SplitFrom(c, i) == [TextBlock(c[i..])]
  {
    hide OccursAt;
    var s := IndexOf(c, FENCE, i);
    if s != -1 {
      IndexOfSome(c, i);
      if IndexOf(c, FENCE, s + 3) != -1 {
        IndexOfSome(c, s + 3);
      }
    }
  }

  lemma {:induction false} CanonicalIsSplitFrom(c: string, i: nat, blocks: seq<Block>)
    requires CanonicalFrom(c, i, blocks)
    ensures blocks == SplitFrom(c, i)
    decreases |blocks|
  {
    hide BlockFits, BlockSource, HasFence, SplitFrom, IndexOf, NoFenceIn, NoPairFrom;
    if blocks == [] {
      SplitAtEnd(c);
    } else {
      var b, tail := blocks[0], blocks[1..];
      assert blocks == [b] + tail;
      CanonicalIsSplitFrom(c, i + |BlockSource(b)|, tail);
      if tail != [] {
        assert BlockFits(c, i + |BlockSource(b)|, tail[0], |tail| == 1);
      }
      CanonicalBlock(c, i, b, tail);
    }
  }

  lemma SplitAtEnd(c: string)
    ensures SplitFrom(c, |c|) == []
  {
  }

  lemma CanonicalBlock(c: string, i: nat, b: Block, tail: seq<Block>)
    requires BlockFits(c, i, b, tail == []) && tail == SplitFrom(c, i + |BlockSource(b)|)
    requires tail == [] ==> i + |BlockSource(b)| == |c|
    requires tail != [] ==> BlockFits(c, i + |BlockSource(b)|, tail[0], |tail| == 1)
    requires b.TextBlock? && tail != [] ==> tail[0].CodeBlock?
    ensures [b] + tail == SplitFrom(c, i)
  {
    hide OccursAt, SplitFrom, HasFence, NoFenceIn, IndexOf;
    match b {
      case CodeBlock(t) =>
        CodeAt(c, i, t, tail == []);
        assert |BlockSource(b)| == |t| + 6 && NoFenceIn(c, i + 3, i + 3 + |t|);
        IndexOfAtFence(c, i);
        FirstFence(c, i + 3, i + 3 + |t|);
        SplitAtCode(c, i, i + 3 + |t|);
      case TextBlock(t) =>
        TextAt(c, i, t, tail == []);
        if tail == [] {
          assert c[i..] == c[i..i + |t|];
          SplitAtRest(c, i);
        } else {
          var s, u := i + |t|, tail[0].content;
          CodeAt(c, s, u, |tail| == 1);
          FirstFence(c, i, s);
          FirstFence(c, s + 3, s + 3 + |u|);
          SplitAtText(c, i, s);
        }
    }
  }

  /** The blocks are a canonical split of the text, and the text has no other. */
  lemma CanonicalIffSplit(c: string, blocks: seq<Block>)
    ensures Canonical(c, blocks) <==> blocks == Split(c)
  {
    hide CanonicalFrom, SplitFrom;
    if c != "" {
      SplitFromIsCanonical(c, 0);
      if CanonicalFrom(c, 0, blocks) {
        CanonicalIsSplitFrom(c, 0, blocks);
      }
    }
  }

  // ---------- lossless ----------

  lemma {:induction false} CanonicalReads(c: string, i: nat, blocks: seq<Block>)
    requires CanonicalFrom(c, i, blocks)
    ensures i <= |c| && Refence(blocks) == c[i..]
    decreases |blocks|
  {
    hide BlockSource, OccursAt;
    if blocks != [] {
      var src := BlockSource(blocks[0]);
      CanonicalReads(c, i + |src|, blocks[1..]);
      OccursBound(c, src, i);
      OccursSlice(c, src, i);
      InlineTheorems.SliceSplit(c, i, i + |src|);
    }
  }

  /** Re-fencing the code blocks and concatenating gives the text back. */
  lemma SplitLossless(c: string)
    ensures Refence(Split(c)) == c
  {
    CanonicalIffSplit(c, Split(c));
    if c == "" {
      assert Refence([TextBlock("")]) == "";
    } else {
      CanonicalReads(c, 0, Split(c));
    }
  }

  /** No code block and no text block but the last holds a fence; text is never empty and never follows text. */
  lemma {:induction false} BlockShape(c: string, i: nat, blocks: seq<Block>, j: nat)
    requires CanonicalFrom(c, i, blocks) && j < |blocks|
    ensures blocks[j].CodeBlock? || j < |blocks| - 1 ==> !Contains(blocks[j].content, FENCE)
    ensures blocks[j].TextBlock? ==> blocks[j].content != ""
    ensures blocks[j].TextBlock? && j + 1 < |blocks| ==> blocks[j + 1].CodeBlock?
    decreases j
  {
    hide BlockSource, HasFence, Contains;
    if j > 0 {
      BlockShape(c, i + |BlockSource(blocks[0])|, blocks[1..], j - 1);
    } else {
      match blocks[0] {
        case CodeBlock(t) =>
          CodeAt(c, i, t, |blocks| == 1);
          NoFenceInside(c, i + 3, t);
        case TextBlock(t) =>
          TextAt(c, i, t, |blocks| == 1);
          if |blocks| > 1 {
            NoFenceInside(c, i, t);
          }
      }
    }
  }

  lemma NoFenceInside(c: string, i: nat, t: string)
    requires i + |t| <= |c| && c[i..i + |t|] == t && NoFenceIn(c, i, i + |t|)
    ensures !Contains(t, FENCE)
  {
    if p :| 0 <= p <= |t| && OccursAt(t, FENCE, p) {
      forall q | 0 <= q < 3 ensures c[i + p + q] == FENCE[q] {
        assert c[i..i + |t|][p + q] == t[p + q];
      }
      assert HasFence(c, i + p);
    }
  }

  /** The same for the whole split; an empty text block appears only for empty input. */
  lemma SplitShape(c: string, j: nat)
    requires j < |Split(c)|
    ensures Split(c)[j].CodeBlock? || j < |Split(c)| - 1 ==> !Contains(Split(c)[j].content, FENCE)
    ensures Split(c)[j] == TextBlock("") ==> c == "" && |Split(c)| == 1
    ensures Split(c)[j].TextBlock? && j + 1 < |Split(c)| ==> Split(c)[j + 1].CodeBlock?
  {
    hide CanonicalFrom, Contains, SplitFrom;
    CanonicalIffSplit(c, Split(c));
    if c != "" {
      BlockShape(c, 0, Split(c), j);
    }
  }

  // ---------- which characters are a fence ----------

  predicate NoBacktick(s: string) {
    forall i :: 0 <= i < |s| ==> s[i] != '`'
  }

  lemma FenceNeedsBacktick(c: string, i: int)
    ensures HasFence(c, i) ==> 0 <= i < |c| && c[i] == '`'
  {
    if HasFence(c, i) {
      assert c[i + 0] == FENCE[0];
    }
  }

  lemma BacktickPlaces(a: string, t: string, b: string)
    requires NoBacktick(a) && NoBacktick(t) && NoBacktick(b)
    ensures var c := a + "```" + t + "```" + b;
            && |c| == |a| + |t| + |b| + 6
            && forall i :: 0 <= i < |c| ==>
                 (c[i] == '`' <==> |a| <= i < |a| + 3 || |a| + 3 + |t| <= i < |a| + 6 + |t|)
  {
  }

  lemma FencePlaces(a: string, t: string, b: string)
    requires NoBacktick(a) && NoBacktick(t) && NoBacktick(b)
    ensures var c := a + "```" + t + "```" + b;
            var s, e := |a|, |a| + 3 + |t|;
            && HasFence(c, s) && HasFence(c, e)
            && NoFenceIn(c, 0, s) && NoFenceIn(c, s + 3, e) && NoPairFrom(c, e + 3)
  {
    var c := a + "```" + t + "```" + b;
    var s, e := |a|, |a| + 3 + |t|;
    BacktickPlaces(a, t, b);
    forall i {:trigger HasFence(c, i)} | (0 <= i < s || s + 3 <= i < e || e + 3 <= i) ensures !HasFence(c, i) {
      FenceNeedsBacktick(c, i);
    }
  }

  lemma FenceSlices(a: string, t: string, b: string)
    ensures var c := a + "```" + t + "```" + b;
            c[..|a|] == a && c[0..|a|] == a && c[|a| + 3..|a| + 3 + |t|] == t && c[|a| + 6 + |t|..] == b
  {
  }

  /** Two triple backticks around text without any make a code block, and what stands before and after them text. */
  lemma FencesMean(a: string, t: string, b: string)
    requires NoBacktick(a) && NoBacktick(t) && NoBacktick(b)
    ensures Split(a + "```" + t + "```" + b) ==
            (if a == "" then [] else [TextBlock(a)]) + [CodeBlock(t)] + (if b == "" then [] else [TextBlock(b)])
  {
    hide Split, SplitFrom, NoBacktick, HasFence, NoFenceIn, NoPairFrom;
    FencePlaces(a, t, b);
    FenceSlices(a, t, b);
    BlocksAt(a + "```" + t + "```" + b, a, t, b);
  }

  lemma BlocksAt(c: string, a: string, t: string, b: string)
    requires |c| == |a| + |t| + |b| + 6
    requires c[0..|a|] == a && c[|a| + 3..|a| + 3 + |t|] == t && c[|a| + 6 + |t|..] == b
    requires HasFence(c, |a|) && HasFence(c, |a| + 3 + |t|)
    requires NoFenceIn(c, 0, |a|) && NoFenceIn(c, |a| + 3, |a| + 3 + |t|) && NoPairFrom(c, |a| + 6 + |t|)
    ensures Split(c) ==
            (if a == "" then [] else [TextBlock(a)]) + [CodeBlock(t)] + (if b == "" then [] else [TextBlock(b)])
  {
    hide SplitFrom, HasFence, NoFenceIn, NoPairFrom;
    assert c != "";
    BlocksAround(c, |a|, |a| + 3 + |t|);
  }

  lemma BlocksAround(c: string, s: nat, e: nat)
    requires s + 3 <= e && e + 3 <= |c| && HasFence(c, s) && HasFence(c, e)
    requires NoFenceIn(c, 0, s) && NoFenceIn(c, s + 3, e) && NoPairFrom(c, e + 3)
    ensures SplitFrom(c, 0) == (if s == 0 then [] else [TextBlock(c[0..s])]) + [CodeBlock(c[s + 3..e])]
                               + (if e + 3 == |c| then [] else [TextBlock(c[e + 3..])])
  {
    hide HasFence, SplitFrom, IndexOf, NoFenceIn, NoPairFrom;
    FirstFence(c, 0, s);
    FirstFence(c, s + 3, e);
    IndexOfAtFence(c, s);
    SplitAtCode(c, s, e);
    var code := [CodeBlock(c[s + 3..e])];
    if e + 3 == |c| {
      SplitAtEnd(c);
    } else {
      SplitAtRest(c, e + 3);
    }
    if s > 0 {
      SplitAtText(c, 0, s);
      ConcatAssociative([TextBlock(c[0..s])], code, SplitFrom(c, e + 3));
    } else {
      assert [] + code == code;
    }
  }

  /** Text without backticks is one text block, even when it is empty. */
  lemma NoFenceMeans(s: string)
    requires NoBacktick(s)
    ensures Split(s) == [TextBlock(s)]
  {
    if s != "" {
      forall i {:trigger HasFence(s, i)} | 0 <= i ensures !HasFence(s, i) {
        FenceNeedsBacktick(s, i);
      }
      SplitAtRest(s, 0);
      assert s[0..] == s;
    }
  }
}
