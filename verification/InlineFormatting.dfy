/** Inline WhatsApp formatting: the tree, what a closing marker is, and the recursive grammar.
    The cursor-and-buffer parser of the repository is in InlineParser. */
module InlineFormatting {
  import opened JsString

  datatype Mark = Bold | Italic | Strikethrough

  datatype Inline =
    | Text(text: string)
    | Formatted(mark: Mark, children: seq<Inline>)
    | Code(text: string)

  /** `v.slice(i, i + 3)` is a triple backtick. */
  predicate FenceAt(v: string, i: nat) {
    i + 3 <= |v| && v[i] == '`' && v[i + 1] == '`' && v[i + 2] == '`'
  }

  function MarkerOf(m: Mark): (c: char)
    ensures !IsSpace(c)
  {
    match m
    case Bold => '*'
    case Italic => '_'
    case Strikethrough => '~'
  }

  predicate IsInlineMarker(c: char) {
    c == '*' || c == '_' || c == '~'
  }

  function MarkOf(c: char): (m: Mark)
    requires IsInlineMarker(c)
    ensures MarkerOf(m) == c
  {
    if c == '*' then Bold else if c == '_' then Italic else Strikethrough
  }

  // ---------- closing markers ----------

  /** `i` is an admissible closing for a span whose content starts at `start`. */
  ghost predicate Closes(v: string, marker: char, start: nat, i: int) {
    start <= i < |v| && v[i] == marker && !Blank(v[start..i])
  }

  /** `k` is the least admissible closing, or -1 when there is none. */
  ghost predicate IsLeastClosing(v: string, marker: char, start: nat, k: int) {
    if k == -1 then
      forall i :: !Closes(v, marker, start, i)
    else
      Closes(v, marker, start, k) && forall i :: i < k ==> !Closes(v, marker, start, i)
  }

  function ClosingFrom(v: string, marker: char, start: nat, from: nat): (k: int)
    requires start <= from
    ensures k == -1 || (start < k < |v| && from <= k && v[k] == marker)
    decreases |v| - from
  {
    if from >= |v| then -1
    else if v[from] == marker && !Blank(v[start..from]) then from
    else ClosingFrom(v, marker, start, from + 1)
  }

  /** Where the span whose content starts at `start` closes, or -1. */
  function Closing(v: string, marker: char, start: nat): (k: int)
    ensures k == -1 || (start < k < |v| && v[k] == marker)
  {
    ClosingFrom(v, marker, start, start)
  }

  lemma {:induction false} ClosingFromIsLeast(v: string, marker: char, start: nat, from: nat)
    requires start <= from
    requires forall i :: i < from ==> !Closes(v, marker, start, i)
    ensures IsLeastClosing(v, marker, start, ClosingFrom(v, marker, start, from))
    decreases |v| - from
  {
    if from < |v| {
      if v[from] == marker && !Blank(v[start..from]) {
        assert Closes(v, marker, start, from);
      } else {
        ClosingFromIsLeast(v, marker, start, from + 1);
      }
    }
  }

  /** A span closes at the least index that holds its marker after some non-blank content. */
  lemma ClosingIsLeast(v: string, marker: char, start: nat)
    ensures IsLeastClosing(v, marker, start, Closing(v, marker, start))
  {
    ClosingFromIsLeast(v, marker, start, start);
  }

  lemma LeastClosingUnique(v: string, marker: char, start: nat, k1: int, k2: int)
    requires IsLeastClosing(v, marker, start, k1) && IsLeastClosing(v, marker, start, k2)
    ensures k1 == k2
  {
    if k1 != -1 && k2 != -1 {
      assert Closes(v, marker, start, k1) && Closes(v, marker, start, k2);
    }
  }

  /** Whether the character at `i` may open a span at all. */
  predicate MayOpen(v: string, i: nat) {
    i < |v| && (IsInlineMarker(v[i]) || (v[i] == '`' && !FenceAt(v, i)))
  }

  /** Where the span opened at `i` closes, or -1 when the character there is plain text. */
  function SpanEnd(v: string, i: nat): (k: int)
    ensures k != -1 ==> MayOpen(v, i) && i + 2 <= k < |v| && v[k] == v[i]
  {
    if MayOpen(v, i) then Closing(v, v[i], i + 1) else -1
  }

  // ---------- the grammar ----------

  /** Puts one plain character in front of an already parsed remainder. */
  function PrependChar(c: char, nodes: seq<Inline>): seq<Inline> {
    if nodes != [] && nodes[0].Text? then [Text([c] + nodes[0].text)] + nodes[1..]
    else [Text([c])] + nodes
  }

  /** The recursive grammar from position `i` on: a span if one opens there, otherwise one plain character. */
  function ParseFrom(v: string, i: nat): seq<Inline>
    decreases |v|, |v| - i
  {
    if i >= |v| then []
    else
      var k := SpanEnd(v, i);
      if k == -1 then PrependChar(v[i], ParseFrom(v, i + 1))
      else [SpanNode(v, i, k)] + ParseFrom(v, k + 1)
  }

  /** The node of the span that opens at `i` and closes at `k`. */
  function SpanNode(v: string, i: nat, k: nat): Inline
    requires i + 1 <= k < |v| && (v[i] == '`' || IsInlineMarker(v[i]))
    decreases |v|, 0
  {
    if v[i] == '`' then Code(v[i + 1..k])
    else Formatted(MarkOf(v[i]), ParseFrom(v[i + 1..k], 0))
  }

  function Parse(v: string): seq<Inline> {
    ParseFrom(v, 0)
  }

  /** The grammar at a character that opens no span. */
  lemma ParsePlain(v: string, i: nat)
    requires i < |v| && SpanEnd(v, i) == -1
    ensures ParseFrom(v, i) == PrependChar(v[i], ParseFrom(v, i + 1))
  {
    hide SpanEnd, PrependChar;
  }

  /** The grammar at a character that opens a span. */
  lemma ParseSpan(v: string, i: nat, k: int)
    requires SpanEnd(v, i) == k && k != -1
    ensures i + 1 < k < |v| && v[k] == v[i] && (v[i] == '`' || IsInlineMarker(v[i]))
    ensures !SpanNode(v, i, k).Text? && ParseFrom(v, i) == [SpanNode(v, i, k)] + ParseFrom(v, k + 1)
  {
    hide SpanEnd, PrependChar;
  }

  // ---------- reading the tree back ----------

  /** The source text of a node list: text as it is, every span wrapped in its own marker. */
  function Unparse(nodes: seq<Inline>): string
    decreases nodes, 1
  {
    if nodes == [] then "" else UnparseNode(nodes[0]) + Unparse(nodes[1..])
  }

  function UnparseNode(n: Inline): string
    decreases n, 0
  {
    match n
    case Text(t) => t
    case Code(t) => "`" + t + "`"
    case Formatted(m, children) => [MarkerOf(m)] + Unparse(children) + [MarkerOf(m)]
  }

  /** Total length of the text held by text and code leaves. */
  function LeafLength(nodes: seq<Inline>): nat
    decreases nodes
  {
    if nodes == [] then 0
    else
      LeafLength(nodes[1..]) +
      match nodes[0]
      case Text(t) => |t|
      case Code(t) => |t|
      case Formatted(_, children) => LeafLength(children)
  }

  /** Number of code and formatted nodes in the whole tree. */
  function SpanCount(nodes: seq<Inline>): nat
    decreases nodes
  {
    if nodes == [] then 0
    else
      SpanCount(nodes[1..]) +
      match nodes[0]
      case Text(_) => 0
      case Code(_) => 1
      case Formatted(_, children) => 1 + SpanCount(children)
  }

  /** Nesting depth of formatted nodes. */
  function Depth(nodes: seq<Inline>): nat
    decreases nodes
  {
    if nodes == [] then 0
    else
      var here := if nodes[0].Formatted? then 1 + Depth(nodes[0].children) else 0;
      var rest := Depth(nodes[1..]);
      if here >= rest then here else rest
  }

  /** A formatted node of kind `m` occurs somewhere in the forest. */
  predicate HasMark(nodes: seq<Inline>, m: Mark)
    decreases nodes
  {
    nodes != [] &&
    ((nodes[0].Formatted? && (nodes[0].mark == m || HasMark(nodes[0].children, m)))
     || HasMark(nodes[1..], m))
  }

  /** No formatted node has a descendant of its own kind. */
  predicate NoSelfNesting(nodes: seq<Inline>)
    decreases nodes
  {
    nodes == [] ||
    ((nodes[0].Formatted? ==> !HasMark(nodes[0].children, nodes[0].mark) && NoSelfNesting(nodes[0].children))
     && NoSelfNesting(nodes[1..]))
  }

  // ---------- normal form ----------

  /** Read off the characters alone: an asterisk, underscore, tilde or single backtick at `i`, the same character at
      `k`, and something other than white space in between. */
  ghost predicate Encloses(v: string, i: nat, k: int) {
    && i < k < |v| && v[k] == v[i]
    && (v[i] == '*' || v[i] == '_' || v[i] == '~'
        || (v[i] == '`' && !(i + 2 < |v| && v[i + 1] == '`' && v[i + 2] == '`')))
    && exists j :: i < j < k && !IsSpace(v[j])
  }

  /** No span opens at `i`. */
  ghost predicate StaysPlain(v: string, i: nat) {
    forall k :: !Encloses(v, i, k)
  }

  /** The span that opens at `i` closes at `k`, the first place where it can. */
  ghost predicate ClosesFirst(v: string, i: nat, k: int) {
    Encloses(v, i, k) && forall j :: j < k ==> !Encloses(v, i, j)
  }

  lemma ClosesIsEncloses(v: string, i: nat, k: int)
    requires MayOpen(v, i)
    ensures Closes(v, v[i], i + 1, k) <==> Encloses(v, i, k)
  {
    if i + 1 <= k < |v| {
      var inner := v[i + 1..k];
      if j :| 0 <= j < |inner| && !IsSpace(inner[j]) {
        assert !IsSpace(v[i + 1 + j]);
      }
      if j :| i < j < k && !IsSpace(v[j]) {
        assert !IsSpace(inner[j - i - 1]);
      }
    }
  }

  /** Where a span opens and closes, in terms of the characters alone. */
  lemma SpanEndExactly(v: string, i: nat, k: int)
    ensures SpanEnd(v, i) == -1 <==> StaysPlain(v, i)
    ensures k != -1 ==> (SpanEnd(v, i) == k <==> ClosesFirst(v, i, k))
  {
    var e := SpanEnd(v, i);
    if MayOpen(v, i) {
      hide Encloses, Closes, Closing;
      ClosingIsLeast(v, v[i], i + 1);
      forall j ensures Closes(v, v[i], i + 1, j) <==> Encloses(v, i, j) {
        ClosesIsEncloses(v, i, j);
      }
      if e == -1 {
        forall j ensures !Encloses(v, i, j) {
          assert !Closes(v, v[i], i + 1, j);
        }
      } else {
        assert Closes(v, v[i], i + 1, e) && Encloses(v, i, e);
        forall j | j < e ensures !Encloses(v, i, j) {
          assert !Closes(v, v[i], i + 1, j);
        }
      }
    }
  }

  /** Where node `j` starts in the source text. */
  function Offset(nodes: seq<Inline>, j: nat): nat
    requires j <= |nodes|
  {
    |Unparse(nodes[..j])|
  }

  /** `nodes` is a normal reading of `v` from `i` on: laid end to end they are exactly that text, each fits
      where it sits, and no text node follows another. */
  ghost predicate NormalFrom(v: string, i: nat, nodes: seq<Inline>)
    decreases nodes, 1
  {
    if nodes == [] then i == |v|
    else
      && Fits(v, i, nodes[0])
      && (nodes[0].Text? && |nodes| > 1 ==> !nodes[1].Text?)
      && NormalFrom(v, i + |UnparseNode(nodes[0])|, nodes[1..])
  }

  /** The node's source text stands at `i`, and the text justifies reading it as that node. */
  ghost predicate Fits(v: string, i: nat, n: Inline)
    decreases n, 0
  {
    && OccursAt(v, UnparseNode(n), i)
    && match n
       case Text(t) =>
         // no character of a text node opens a span
         t != "" && forall p :: i <= p < i + |t| ==> StaysPlain(v, p)
       case Code(t) =>
         // closed at the first admissible place
         ClosesFirst(v, i, i + |t| + 1)
       case Formatted(m, children) =>
         // closed at the first admissible place, and the inside is read the same way
         ClosesFirst(v, i, i + |Unparse(children)| + 1) && NormalFrom(Unparse(children), 0, children)
  }

  ghost predicate NormalForm(v: string, nodes: seq<Inline>) {
    NormalFrom(v, 0, nodes)
  }
}
