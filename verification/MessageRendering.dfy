/** A whole message: carriage returns replaced, blocks split, text split into lines, every line parsed. */
module MessageRendering {
  import opened JsString
  import opened InlineFormatting
  import opened TextBlocks
  import InlineTheorems
  import TextBlockTheorems

  datatype Rendered =
    | Preformatted(content: string)
    | Paragraph(lines: seq<seq<Inline>>)

  /** `s.split('\n')`. */
  function SplitLines(s: string): (lines: seq<string>)
    ensures lines != []
  {
    if s == "" then [""]
    else
      var rest := SplitLines(s[1..]);
      if s[0] == '\n' then [""] + rest else [[s[0]] + rest[0]] + rest[1..]
  }

  function JoinLines(lines: seq<string>): string {
    if lines == [] then ""
    else if |lines| == 1 then lines[0]
    else lines[0] + "\n" + JoinLines(lines[1..])
  }

  function ParseLines(lines: seq<string>): (parsed: seq<seq<Inline>>)
    ensures |parsed| == |lines|
    ensures forall k :: 0 <= k < |lines| ==> parsed[k] == Parse(lines[k])
  {
    if lines == [] then [] else [Parse(lines[0])] + ParseLines(lines[1..])
  }

  function UnparseLines(parsed: seq<seq<Inline>>): (lines: seq<string>)
    ensures |lines| == |parsed|
    ensures forall k :: 0 <= k < |parsed| ==> lines[k] == Unparse(parsed[k])
  {
    if parsed == [] then [] else [Unparse(parsed[0])] + UnparseLines(parsed[1..])
  }

  function RenderBlock(b: Block): Rendered {
    match b
    case CodeBlock(t) => Preformatted(t)
    case TextBlock(t) => Paragraph(ParseLines(SplitLines(t)))
  }

  function RenderBlocks(blocks: seq<Block>): seq<Rendered> {
    if blocks == [] then [] else [RenderBlock(blocks[0])] + RenderBlocks(blocks[1..])
  }

  function Render(value: string): seq<Rendered> {
    RenderBlocks(Split(NormalizeText(value)))
  }

  function SourceOf(r: Rendered): string {
    match r
    case Preformatted(t) => BlockSource(CodeBlock(t))
    case Paragraph(lines) => JoinLines(UnparseLines(lines))
  }

  function ReadBack(rs: seq<Rendered>): string {
    if rs == [] then "" else SourceOf(rs[0]) + ReadBack(rs[1..])
  }

  predicate OneLine(s: string) {
    forall i :: 0 <= i < |s| ==> s[i] != '\n'
  }

  lemma JoinPrepend(c: char, lines: seq<string>)
    requires lines != []
    ensures JoinLines([[c] + lines[0]] + lines[1..]) == [c] + JoinLines(lines)
  {
    var out := [[c] + lines[0]] + lines[1..];
    assert out[1..] == lines[1..];
    if |lines| > 1 {
      assert [c] + lines[0] + "\n" + JoinLines(lines[1..]) == [c] + (lines[0] + "\n" + JoinLines(lines[1..]));
    }
  }

  lemma {:induction false} JoinSplit(s: string)
    ensures JoinLines(SplitLines(s)) == s
  {
    if s != "" {
      JoinSplit(s[1..]);
      var rest := SplitLines(s[1..]);
      if s[0] == '\n' {
        assert ([""] + rest)[1..] == rest;
      } else {
        JoinPrepend(s[0], rest);
      }
    }
  }

  lemma {:induction false} SplitIntoSingleLines(s: string)
    ensures forall k :: 0 <= k < |SplitLines(s)| ==> OneLine(SplitLines(s)[k])
  {
    if s != "" {
      SplitIntoSingleLines(s[1..]);
    }
  }

  /** Splitting and joining lines is lossless, and no line holds a line break. */
  lemma LinesLossless(s: string)
    ensures JoinLines(SplitLines(s)) == s
    ensures forall k :: 0 <= k < |SplitLines(s)| ==> OneLine(SplitLines(s)[k])
  {
    JoinSplit(s);
    SplitIntoSingleLines(s);
  }

  lemma ParsedLinesLossless(lines: seq<string>)
    ensures UnparseLines(ParseLines(lines)) == lines
  {
    var out := UnparseLines(ParseLines(lines));
    forall k | 0 <= k < |lines|
      ensures out[k] == lines[k]
    {
      InlineTheorems.Lossless(lines[k]);
    }
  }

  lemma {:induction false} ReadBackBlocks(blocks: seq<Block>)
    ensures ReadBack(RenderBlocks(blocks)) == Refence(blocks)
  {
    if blocks != [] {
      ReadBackBlocks(blocks[1..]);
      var rs := RenderBlocks(blocks);
      assert rs[1..] == RenderBlocks(blocks[1..]);
      if blocks[0].TextBlock? {
        LinesLossless(blocks[0].content);
        ParsedLinesLossless(SplitLines(blocks[0].content));
      }
    }
  }

  /** Blocks, lines and inline nodes together still hold the whole message. */
  lemma RenderLossless(value: string)
    ensures ReadBack(Render(value)) == NormalizeText(value)
  {
    ReadBackBlocks(Split(NormalizeText(value)));
    TextBlockTheorems.SplitLossless(NormalizeText(value));
  }

  /** The component normalises and then splits, which normalises again: it shows the whole normalised message
      exactly when the message holds no `\r\r\n`. */
  lemma ComponentLosslessIff(content: string)
    ensures ReadBack(Render(NormalizeText(content))) == NormalizeText(content) <==> !HasCrCrLf(content)
  {
    RenderLossless(NormalizeText(content));
    NormalizeIdempotentIff(content);
  }

  /** As lines are split before they are parsed, no parsed line's source holds a line break. */
  lemma ParsedLinesStayOnOneLine(t: string, k: nat)
    requires k < |SplitLines(t)|
    ensures OneLine(Unparse(ParseLines(SplitLines(t))[k]))
  {
    LinesLossless(t);
    InlineTheorems.Lossless(SplitLines(t)[k]);
  }
}
