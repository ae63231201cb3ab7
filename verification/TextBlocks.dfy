/** Splitting a message into fenced code blocks and text. */
module TextBlocks {
  import opened JsString

  datatype Block = TextBlock(content: string) | CodeBlock(content: string)

  const FENCE: string := ['`', '`', '`']

  // ---------- carriage returns ----------

  /** `s.replace(/\r\n/g, '\n')`. */
  function NormalizeText(s: string): string {
    if s == "" then ""
    else if |s| >= 2 && s[0] == '\r' && s[1] == '\n' then ['\n'] + NormalizeText(s[2..])
    else [s[0]] + NormalizeText(s[1..])
  }

  /** Some `\r\n` in the text. */
  predicate HasCrLf(s: string) {
    exists i :: 0 <= i < |s| - 1 && s[i] == '\r' && s[i + 1] == '\n'
  }

  /** Some `\r\r\n` in the text. */
  predicate HasCrCrLf(s: string) {
    exists i :: 0 <= i < |s| - 2 && s[i] == '\r' && s[i + 1] == '\r' && s[i + 2] == '\n'
  }

  lemma {:induction false} NormalizeHead(s: string)
    requires s != ""
    ensures NormalizeText(s) != ""
    ensures NormalizeText(s)[0] == if |s| >= 2 && s[0] == '\r' && s[1] == '\n' then '\n' else s[0]
  {
  }

  lemma HasCrLfCons(c: char, s: string)
    ensures HasCrLf([c] + s) <==> (c == '\r' && s != "" && s[0] == '\n') || HasCrLf(s)
  {
    var t := [c] + s;
    if i :| 0 <= i < |t| - 1 && t[i] == '\r' && t[i + 1] == '\n' {
      if i > 0 {
        assert s[i - 1] == '\r' && s[i - 1 + 1] == '\n';
      }
    }
    if i :| 0 <= i < |s| - 1 && s[i] == '\r' && s[i + 1] == '\n' {
      assert t[i + 1] == '\r' && t[i + 1 + 1] == '\n';
    }
    if c == '\r' && s != "" && s[0] == '\n' {
      assert t[0] == '\r' && t[0 + 1] == '\n';
    }
  }

  lemma HasCrCrLfCons(c: char, s: string)
    ensures HasCrCrLf([c] + s) <==> (c == '\r' && |s| >= 2 && s[0] == '\r' && s[1] == '\n') || HasCrCrLf(s)
  {
    var t := [c] + s;
    if i :| 0 <= i < |t| - 2 && t[i] == '\r' && t[i + 1] == '\r' && t[i + 2] == '\n' {
      if i > 0 {
        assert s[i - 1] == '\r' && s[i - 1 + 1] == '\r' && s[i - 1 + 2] == '\n';
      }
    }
    if i :| 0 <= i < |s| - 2 && s[i] == '\r' && s[i + 1] == '\r' && s[i + 2] == '\n' {
      assert t[i + 1] == '\r' && t[i + 1 + 1] == '\r' && t[i + 1 + 2] == '\n';
    }
    if c == '\r' && |s| >= 2 && s[0] == '\r' && s[1] == '\n' {
      assert t[0] == '\r' && t[0 + 1] == '\r' && t[0 + 2] == '\n';
    }
  }

  /** One replacement pass leaves a `\r\n` behind exactly when the text had a `\r\r\n`. */
  lemma {:induction false} LeftoverCrLf(s: string)
    ensures HasCrLf(NormalizeText(s)) <==> HasCrCrLf(s)
  {
    if s != "" {
      assert s == [s[0]] + s[1..];
      if |s| >= 2 && s[0] == '\r' && s[1] == '\n' {
        assert s[1..] == [s[1]] + s[2..];
        LeftoverCrLf(s[2..]);
        HasCrLfCons('\n', NormalizeText(s[2..]));
        HasCrCrLfCons(s[1], s[2..]);
        HasCrCrLfCons(s[0], s[1..]);
      } else {
        LeftoverCrLf(s[1..]);
        HasCrLfCons(s[0], NormalizeText(s[1..]));
        HasCrCrLfCons(s[0], s[1..]);
        if s[1..] != "" {
          NormalizeHead(s[1..]);
        }
      }
    }
  }

  lemma {:induction false} NormalizeFixpoint(s: string)
    ensures NormalizeText(s) == s <==> !HasCrLf(s)
    ensures |NormalizeText(s)| <= |s|
  {
    if s != "" {
      assert s == [s[0]] + s[1..];
      HasCrLfCons(s[0], s[1..]);
      if |s| >= 2 && s[0] == '\r' && s[1] == '\n' {
        NormalizeFixpoint(s[2..]);
      } else {
        NormalizeFixpoint(s[1..]);
        assert ([s[0]] + NormalizeText(s[1..]))[1..] == NormalizeText(s[1..]);
      }
    }
  }

  /** Replacing twice is the same as replacing once exactly when the text holds no `\r\r\n`. */
  lemma NormalizeIdempotentIff(s: string)
    ensures NormalizeText(NormalizeText(s)) == NormalizeText(s) <==> !HasCrCrLf(s)
  {
    NormalizeFixpoint(NormalizeText(s));
    LeftoverCrLf(s);
  }

  // ---------- block splitting ----------

  lemma NormalizeCons(c: char, s: string)
    requires !(c == '\r' && s != "" && s[0] == '\n')
    ensures NormalizeText([c] + s) == [c] + NormalizeText(s)
  {
    assert ([c] + s)[1..] == s;
  }

  lemma NormalizePair(s: string)
    ensures NormalizeText("\r\n" + s) == "\n" + NormalizeText(s)
  {
    assert ("\r\n" + s)[2..] == s;
  }

  /** Every carriage return and line feed in a row becomes one line feed; with `NormalizeFixpoint`, which leaves texts
      without them alone, this fixes the replacement. */
  lemma {:induction false} CrLfBecomesLf(a: string, b: string)
    ensures NormalizeText(a + "\r\n" + b) == NormalizeText(a) + "\n" + NormalizeText(b)
    decreases |a|
  {
    if a == "" {
      assert "" + "\r\n" + b == "\r\n" + b;
      assert NormalizeText("") + "\n" + NormalizeText(b) == "\n" + NormalizeText(b);
      NormalizePair(b);
    } else {
      hide NormalizeText;
      if |a| >= 2 && a[0] == '\r' && a[1] == '\n' {
        var rest := a[2..];
        assert a == "\r\n" + rest;
        CrLfBecomesLf(rest, b);
        NormalizePair(rest);
        NormalizePair(rest + "\r\n" + b);
        Regroup("\r\n", rest, "\r\n", b);
        Regroup("\n", NormalizeText(rest), "\n", NormalizeText(b));
      } else {
        var c, rest := a[0], a[1..];
        assert a == [c] + rest;
        CrLfBecomesLf(rest, b);
        FollowedAlike(rest, b);
        NormalizeCons(c, rest);
        NormalizeCons(c, rest + "\r\n" + b);
        Regroup([c], rest, "\r\n", b);
        Regroup([c], NormalizeText(rest), "\n", NormalizeText(b));
      }
    }
  }

  lemma Regroup(p: string, x: string, m: string, y: string)
    ensures p + (x + m + y) == p + x + m + y
  {
  }

  lemma FollowedAlike(rest: string, b: string)
    ensures var s := rest + "\r\n" + b; s != "" && s[0] == if rest == "" then '\r' else rest[0]
  {
  }

  /** The shortest text on which a second pass still finds something to replace. */
  lemma NormalizeTwiceDiffers()
    ensures NormalizeText("\r\r\n") == "\r\n" && NormalizeText(NormalizeText("\r\r\n")) == "\n"
  {
    assert "\r\r\n"[1..] == "\r\n" && "\r\n"[2..] == "";
  }

  predicate HasFence(c: string, i: int) {
    OccursAt(c, FENCE, i)
  }

  lemma IndexOfNone(c: string, from: nat)
    requires IndexOf(c, FENCE, from) == -1
    ensures forall p {:trigger HasFence(c, p)} :: from <= p ==> !HasFence(c, p)
  {
    hide OccursAt;
    forall p | from <= p ensures !HasFence(c, p) {
      assert !OccursAt(c, FENCE, p);
    }
  }

  lemma IndexOfSome(c: string, from: nat)
    requires IndexOf(c, FENCE, from) != -1
    ensures from <= IndexOf(c, FENCE, from) && HasFence(c, IndexOf(c, FENCE, from))
    ensures IndexOf(c, FENCE, from) + 3 <= |c|
    ensures NoFenceIn(c, from, IndexOf(c, FENCE, from))
  {
    hide OccursAt;
    var s := IndexOf(c, FENCE, from);
    OccursBound(c, FENCE, s);
    forall p | from <= p < s ensures !HasFence(c, p) {
      assert !OccursAt(c, FENCE, p);
    }
  }

  /** The blocks from `cursor` on. */
  function SplitFrom(c: string, cursor: nat): seq<Block>
    decreases |c| - cursor
  {
    if cursor >= |c| then []
    else
      var codeStart := IndexOf(c, FENCE, cursor);
      if codeStart == -1 then [TextBlock(c[cursor..])]
      else
        var codeEnd := IndexOf(c, FENCE, codeStart + 3);
        if codeEnd == -1 then [TextBlock(c[cursor..])]
        else
          (if codeStart > cursor then [TextBlock(c[cursor..codeStart])] else [])
          + [CodeBlock(c[codeStart + 3..codeEnd])] + SplitFrom(c, codeEnd + 3)
  }

  function Split(c: string): seq<Block> {
    if c == "" then [TextBlock("")] else SplitFrom(c, 0)
  }

  /** The loop invariant of the splitter. */
  ghost predicate Progress(c: string, blocks: seq<Block>, cursor: nat) {
    blocks + SplitFrom(c, cursor) == SplitFrom(c, 0)
  }

  lemma ProgressStart(c: string)
    ensures Progress(c, [], 0)
  {
  }

  /** A fence pair that opens at `s` gives a code block. */
  lemma SplitAtCode(c: string, s: nat, e: int)
    requires IndexOf(c, FENCE, s) == s && e == IndexOf(c, FENCE, s + 3) && e != -1
    ensures s + 3 <= e && e + 3 <= |c|
    ensures SplitFrom(c, s) == [CodeBlock(c[s + 3..e])] + SplitFrom(c, e + 3)
  {
    hide IndexOf, OccursAt, HasFence, NoFenceIn;
    IndexOfSome(c, s + 3);
    var code := [CodeBlock(c[s + 3..e])];
    assert [] + code == code;
  }

  /** Text before a fence pair is a block of its own. */
  lemma SplitAtText(c: string, i: nat, s: int)
    requires i < s && s == IndexOf(c, FENCE, i) && IndexOf(c, FENCE, s + 3) != -1
    ensures s + 3 <= |c| && IndexOf(c, FENCE, s) == s
    ensures SplitFrom(c, i) == [TextBlock(c[i..s])] + SplitFrom(c, s)
  {
    hide OccursAt, NoFenceIn;
    IndexOfSome(c, i);
    IndexOfAtFence(c, s);
    hide IndexOf;
    var e := IndexOf(c, FENCE, s + 3);
    IndexOfSome(c, s + 3);
    SplitAtCode(c, s, e);
    ConcatAssociative([TextBlock(c[i..s])], [CodeBlock(c[s + 3..e])], SplitFrom(c, e + 3));
  }

  lemma IndexOfAtFence(c: string, s: nat)
    requires HasFence(c, s)
    ensures IndexOf(c, FENCE, s) == s
  {
  }

  lemma ConcatAssociative(a: seq<Block>, b: seq<Block>, c: seq<Block>)
    ensures a + (b + c) == a + b + c
  {
  }

  lemma ProgressBlock(c: string, blocks: seq<Block>, cursor: nat, b: Block, next: nat)
    requires Progress(c, blocks, cursor) && SplitFrom(c, cursor) == [b] + SplitFrom(c, next)
    ensures Progress(c, blocks + [b], next)
  {
    hide SplitFrom;
    ConcatAssociative(blocks, [b], SplitFrom(c, next));
  }

  lemma ProgressRest(c: string, blocks: seq<Block>, cursor: nat)
    requires Progress(c, blocks, cursor) && cursor < |c|
    requires IndexOf(c, FENCE, cursor) == -1 || IndexOf(c, FENCE, IndexOf(c, FENCE, cursor) + 3) == -1
    ensures blocks + [TextBlock(c[cursor..])] == SplitFrom(c, 0)
  {
    hide OccursAt;
    assert SplitFrom(c, cursor) == [TextBlock(c[cursor..])];
  }

  lemma ProgressEnd(c: string, blocks: seq<Block>, cursor: nat)
    requires Progress(c, blocks, cursor) && cursor >= |c|
    ensures blocks == SplitFrom(c, 0)
  {
  }

  lemma SplitEmptyIff(c: string)
    ensures SplitFrom(c, 0) == [] <==> c == ""
  {
  }

  method SplitTextBlocks(value: string) returns (blocks: seq<Block>)
    ensures blocks == Split(NormalizeText(value))
  {
    hide IndexOf, HasFence, NoFenceIn;
    hide Progress, SplitFrom;  // the step lemmas above are all the loop needs to know about them
    var content := NormalizeText(value);
    blocks := [];
    var cursor := 0;
    ghost var finished := false;
    ProgressStart(content);
    while cursor < |content|
      invariant !finished && Progress(content, blocks, cursor)
      decreases |content| - cursor
    {
      var codeStart := IndexOf(content, FENCE, cursor);
      if codeStart == -1 {
        ProgressRest(content, blocks, cursor);
        blocks, finished := blocks + [TextBlock(content[cursor..])], true;
        break;
      }
      var codeEnd := IndexOf(content, FENCE, codeStart + 3);
      if codeEnd == -1 {
        ProgressRest(content, blocks, cursor);
        blocks, finished := blocks + [TextBlock(content[cursor..])], true;
        break;
      }
      IndexOfSome(content, cursor);
      IndexOfAtFence(content, codeStart);
      SplitAtCode(content, codeStart, codeEnd);
      if codeStart > cursor {
        SplitAtText(content, cursor, codeStart);
        ProgressBlock(content, blocks, cursor, TextBlock(content[cursor..codeStart]), codeStart);
        blocks := blocks + [TextBlock(content[cursor..codeStart])];
      }
      ProgressBlock(content, blocks, codeStart, CodeBlock(content[codeStart + 3..codeEnd]), codeEnd + 3);
      blocks := blocks + [CodeBlock(content[codeStart + 3..codeEnd])];
      cursor := codeEnd + 3;
    }
    if !finished {
      ProgressEnd(content, blocks, cursor);
    }
    SplitEmptyIff(content);
    if |blocks| == 0 {
      blocks := blocks + [TextBlock(content)];
    }
  }

  // ---------- what a split is ----------

  function BlockSource(b: Block): string {
    match b
    case TextBlock(t) => t
    case CodeBlock(t) => FENCE + t + FENCE
  }

  /** Re-fencing the code blocks and concatenating. */
  function Refence(blocks: seq<Block>): string {
    if blocks == [] then "" else BlockSource(blocks[0]) + Refence(blocks[1..])
  }

  ghost predicate NoFenceIn(c: string, from: int, to: int) {
    forall p {:trigger HasFence(c, p)} :: from <= p < to ==> !HasFence(c, p)
  }

  /** No fence pair opens at or after `from`. */
  ghost predicate NoPairFrom(c: string, from: int) {
    forall p, q {:trigger HasFence(c, p), HasFence(c, q)} ::
      from <= p && p + 3 <= q ==> !(HasFence(c, p) && HasFence(c, q))
  }

  /** `blocks` is a canonical split of `c` from `i` on: each block stands where the text has it, code runs to the
      first fence after its opening, text runs to the first fence of a pair, and no text follows text. */
  ghost predicate CanonicalFrom(c: string, i: nat, blocks: seq<Block>)
    decreases |blocks|
  {
    if blocks == [] then i == |c|
    else
      && BlockFits(c, i, blocks[0], |blocks| == 1)
      && (blocks[0].TextBlock? && |blocks| > 1 ==> blocks[1].CodeBlock?)
      && CanonicalFrom(c, i + |BlockSource(blocks[0])|, blocks[1..])
  }

  ghost predicate BlockFits(c: string, i: nat, b: Block, last: bool) {
    && OccursAt(c, BlockSource(b), i)
    && match b
       case CodeBlock(t) => NoFenceIn(c, i + 3, i + 3 + |t|)
       case TextBlock(t) => t != "" && if last then NoPairFrom(c, i) else NoFenceIn(c, i, i + |t|)
  }

  ghost predicate Canonical(c: string, blocks: seq<Block>) {
    if c == "" then blocks == [TextBlock("")] else CanonicalFrom(c, 0, blocks)
  }
}
