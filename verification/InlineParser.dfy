/** The cursor-and-buffer loops of the repository, proved to compute the recursive grammar. */
module InlineParser {
  import opened JsString
  import opened InlineFormatting

  method FindClosingMarker(value: string, marker: char, startIndex: nat) returns (index: int)
    ensures index == Closing(value, marker, startIndex)
  {
    index := startIndex;
    while index < |value|
      invariant startIndex <= index
      invariant ClosingFrom(value, marker, startIndex, index) == Closing(value, marker, startIndex)
    {
      if value[index] != marker {
        index := index + 1;
        continue;
      }
      var innerContent := value[startIndex..index];
      TrimEmptyIffBlank(innerContent);
      if |innerContent| == 0 || |Trim(innerContent)| == 0 {
        index := index + 1;
        continue;
      }
      return index;
    }
    return -1;
  }

  /** What a buffer in front of the parsed remainder stands for. */
  ghost function Absorb(buffer: string, nodes: seq<Inline>): seq<Inline> {
    if buffer == "" then nodes
    else if nodes != [] && nodes[0].Text? then [Text(buffer + nodes[0].text)] + nodes[1..]
    else [Text(buffer)] + nodes
  }

  lemma AbsorbChar(buffer: string, c: char, nodes: seq<Inline>)
    ensures Absorb(buffer, PrependChar(c, nodes)) == Absorb(buffer + [c], nodes)
  {
    assert buffer == "" ==> buffer + [c] == [c];
    if nodes != [] && nodes[0].Text? {
      assert buffer + ([c] + nodes[0].text) == buffer + [c] + nodes[0].text;
      assert PrependChar(c, nodes)[1..] == nodes[1..];
    } else {
      assert PrependChar(c, nodes)[1..] == nodes;
    }
  }

  lemma AbsorbSpan(nodes: seq<Inline>, buffer: string, span: Inline, tail: seq<Inline>)
    requires !span.Text?
    ensures nodes + Absorb(buffer, [span] + tail) == nodes + Absorb(buffer, []) + [span] + tail
  {
    if buffer != "" {
      assert nodes + ([Text(buffer)] + ([span] + tail)) == nodes + [Text(buffer)] + [span] + tail;
    }
  }

  lemma AbsorbNothing(nodes: seq<Inline>)
    ensures Absorb("", nodes) == nodes
  {
  }

  /** The loop invariant: nodes so far, the buffer and the parse of what is left make up the whole parse. */
  ghost predicate Progress(value: string, nodes: seq<Inline>, buffer: string, cursor: nat) {
    nodes + Absorb(buffer, ParseFrom(value, cursor)) == Parse(value)
  }

  lemma ProgressStart(value: string)
    ensures Progress(value, [], "", 0)
  {
  }

  lemma ProgressSpan(value: string, nodes: seq<Inline>, buffer: string, cursor: nat, closing: int, span: Inline)
    requires Progress(value, nodes, buffer, cursor)
    requires closing != -1 && closing == SpanEnd(value, cursor) && span == SpanNode(value, cursor, closing)
    ensures Progress(value, nodes + Absorb(buffer, []) + [span], "", closing + 1)
  {
    hide ParseFrom, SpanEnd, SpanNode, MayOpen, Closing, Absorb;
    ParseSpan(value, cursor, closing);
    AbsorbSpan(nodes, buffer, span, ParseFrom(value, closing + 1));
    AbsorbNothing(ParseFrom(value, closing + 1));
  }

  lemma ProgressChar(value: string, nodes: seq<Inline>, buffer: string, cursor: nat)
    requires Progress(value, nodes, buffer, cursor)
    requires cursor < |value| && SpanEnd(value, cursor) == -1
    ensures Progress(value, nodes, buffer + [value[cursor]], cursor + 1)
  {
    hide ParseFrom, SpanEnd, MayOpen, Closing, Absorb, PrependChar;
    ParsePlain(value, cursor);
    AbsorbChar(buffer, value[cursor], ParseFrom(value, cursor + 1));
  }

  lemma ProgressDone(value: string, nodes: seq<Inline>, buffer: string, cursor: nat)
    requires Progress(value, nodes, buffer, cursor) && cursor >= |value|
    ensures nodes + Absorb(buffer, []) == Parse(value)
  {
  }

  /** The source's local closure: moves a non-empty buffer into the node list. */
  method FlushBuffer(nodes: seq<Inline>, buffer: string) returns (nodes': seq<Inline>, buffer': string)
    ensures buffer' == ""
    ensures nodes' == nodes + Absorb(buffer, [])
  {
    if buffer == "" {
      return nodes, buffer;
    }
    return nodes + [Text(buffer)], "";
  }

  method ParseInlineFormatting(value: string) returns (nodes: seq<Inline>)
    ensures nodes == Parse(value)
    decreases |value|
  {
    hide Progress;  // the step lemmas above are all the loop needs to know about it
    nodes := [];
    var buffer := "";
    var cursor := 0;
    ProgressStart(value);
    while cursor < |value|
      invariant Progress(value, nodes, buffer, cursor)
    {
      var marker := value[cursor];
      if marker == '`' && !FenceAt(value, cursor) {
        var closingIndex := FindClosingMarker(value, marker, cursor + 1);
        if closingIndex != -1 {
          var span := Code(value[cursor + 1..closingIndex]);
          ProgressSpan(value, nodes, buffer, cursor, closingIndex, span);
          nodes, buffer := FlushBuffer(nodes, buffer);
          nodes := nodes + [span];
          cursor := closingIndex + 1;
          continue;
        }
      }
      if IsInlineMarker(marker) {
        var closingIndex := FindClosingMarker(value, marker, cursor + 1);
        if closingIndex != -1 {
          var children := ParseInlineFormatting(value[cursor + 1..closingIndex]);
          var span := Formatted(MarkOf(marker), children);
          ProgressSpan(value, nodes, buffer, cursor, closingIndex, span);
          nodes, buffer := FlushBuffer(nodes, buffer);
          nodes := nodes + [span];
          cursor := closingIndex + 1;
          continue;
        }
      }
      ProgressChar(value, nodes, buffer, cursor);
      buffer := buffer + [marker];
      cursor := cursor + 1;
    }
    ProgressDone(value, nodes, buffer, cursor);
    nodes, buffer := FlushBuffer(nodes, buffer);
  }
}
