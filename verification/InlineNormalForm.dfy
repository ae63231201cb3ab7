/** The parser's output is the one and only normal form of its input. */
module InlineNormalForm {
  import opened JsString
  import opened InlineFormatting
  import opened InlineTheorems

  // ---------- the parse is in normal form ----------

  lemma OccursChar(v: string, i: nat)
    requires i < |v|
    ensures OccursAt(v, [v[i]], i)
  {
  }

  lemma FitsOneChar(v: string, i: nat)
    requires i < |v| && SpanEnd(v, i) == -1
    ensures Fits(v, i, Text([v[i]]))
  {
    hide SpanEnd, StaysPlain, ClosesFirst;
    SpanEndExactly(v, i, -1);
    OccursChar(v, i);
  }

  lemma FitsOneMoreChar(v: string, i: nat, t: string)
    requires i < |v| && SpanEnd(v, i) == -1 && Fits(v, i + 1, Text(t))
    ensures Fits(v, i, Text([v[i]] + t))
  {
    hide SpanEnd, StaysPlain, ClosesFirst, OccursAt;
    SpanEndExactly(v, i, -1);
    OccursChar(v, i);
    OccursConcat(v, [v[i]], t, i);
    assert |[v[i]] + t| == 1 + |t|;
  }

  lemma FitsSpan(v: string, i: nat, k: nat)
    requires SpanEnd(v, i) == k
    requires v[i] != '`' ==> NormalFrom(v[i + 1..k], 0, Parse(v[i + 1..k]))
    ensures Fits(v, i, SpanNode(v, i, k))
    ensures i + |UnparseNode(SpanNode(v, i, k))| == k + 1
  {
    hide NormalFrom, SpanEnd, StaysPlain, ClosesFirst, OccursAt;
    SpanEndExactly(v, i, k);
    LosslessSpan(v, i, k);
    OccursSlice(v, v[i..k + 1], i);
    if v[i] != '`' {
      Lossless(v[i + 1..k]);
    }
  }

  lemma NormalCons(v: string, i: nat, n: Inline, tail: seq<Inline>)
    requires Fits(v, i, n) && NormalFrom(v, i + |UnparseNode(n)|, tail)
    requires n.Text? && tail != [] ==> !tail[0].Text?
    ensures NormalFrom(v, i, [n] + tail)
  {
    hide Fits, UnparseNode, SpanEnd;
    assert ([n] + tail)[1..] == tail;
  }

  lemma NormalPrepend(v: string, i: nat, nodes: seq<Inline>)
    requires i < |v| && SpanEnd(v, i) == -1 && NormalFrom(v, i + 1, nodes)
    ensures NormalFrom(v, i, PrependChar(v[i], nodes))
  {
    hide Fits, SpanEnd;
    if nodes != [] && nodes[0].Text? {
      var t := nodes[0].text;
      FitsOneMoreChar(v, i, t);
      NormalCons(v, i, Text([v[i]] + t), nodes[1..]);
    } else {
      FitsOneChar(v, i);
      NormalCons(v, i, Text([v[i]]), nodes);
    }
  }

  lemma NormalEnd(v: string)
    ensures NormalFrom(v, |v|, ParseFrom(v, |v|))
  {
    assert ParseFrom(v, |v|) == [];
  }

  lemma NormalAtSpan(v: string, i: nat, k: nat)
    requires SpanEnd(v, i) == k && NormalFrom(v, k + 1, ParseFrom(v, k + 1))
    requires v[i] != '`' ==> NormalFrom(v[i + 1..k], 0, Parse(v[i + 1..k]))
    ensures NormalFrom(v, i, ParseFrom(v, i))
  {
    hide NormalFrom, Fits, MayOpen, ParseFrom, SpanEnd, SpanNode, Closing, UnparseNode, Parse;
    ParseSpan(v, i, k);
    FitsSpan(v, i, k);
    NormalCons(v, i, SpanNode(v, i, k), ParseFrom(v, k + 1));
  }

  lemma {:induction false} ParseFromIsNormal(v: string, i: nat)
    requires i <= |v|
    ensures NormalFrom(v, i, ParseFrom(v, i))
    decreases |v|, |v| - i
  {
    hide NormalFrom, MayOpen, ParseFrom, SpanEnd, Closing, PrependChar;
    if i == |v| {
      NormalEnd(v);
    } else {
      var k := SpanEnd(v, i);
      if k == -1 {
        ParsePlain(v, i);
        ParseFromIsNormal(v, i + 1);
        NormalPrepend(v, i, ParseFrom(v, i + 1));
      } else {
        ParseFromIsNormal(v, k + 1);
        if v[i] != '`' {
          ParseFromIsNormal(v[i + 1..k], 0);
        }
        NormalAtSpan(v, i, k);
      }
    }
  }

  // ---------- nothing else is ----------

  lemma PrependToText(c: char, t: string, rest: seq<Inline>)
    requires rest == [] || !rest[0].Text?
    ensures t != "" ==> PrependChar(c, [Text(t)] + rest) == [Text([c] + t)] + rest
    ensures PrependChar(c, rest) == [Text([c])] + rest
  {
    assert ([Text(t)] + rest)[1..] == rest;
  }

  /** A run of plain characters is gathered into one text node. */
  lemma {:induction false} PlainRun(v: string, i: nat, t: string)
    requires t != "" && OccursAt(v, t, i)
    requires forall p :: i <= p < i + |t| ==> StaysPlain(v, p)
    requires var rest := ParseFrom(v, i + |t|); rest == [] || !rest[0].Text?
    ensures ParseFrom(v, i) == [Text(t)] + ParseFrom(v, i + |t|)
    decreases |t|
  {
    hide SpanEnd, StaysPlain, PrependChar, ParseFrom;
    SpanEndExactly(v, i, -1);
    ParsePlain(v, i);
    PrependToText(t[0], t[1..], ParseFrom(v, i + |t|));
    assert v[i + 0] == t[0];
    assert t == [t[0]] + t[1..];
    if |t| > 1 {
      OccursConcat(v, [t[0]], t[1..], i);
      PlainRun(v, i + 1, t[1..]);
    } else {
      assert t == [t[0]];
    }
  }

  lemma ParseAtSpan(v: string, i: nat, k: int, inner: string)
    requires SpanEnd(v, i) == k && k != -1 && inner == v[i + 1..k]
    ensures ParseFrom(v, i) ==
            [if v[i] == '`' then Code(inner) else Formatted(MarkOf(v[i]), Parse(inner))] + ParseFrom(v, k + 1)
  {
    hide ParseFrom, SpanEnd, Closing;
    ParseSpan(v, i, k);
  }

  lemma InsideOfSpan(v: string, i: nat, c: char, inner: string)
    requires OccursAt(v, [c] + inner + [c], i)
    ensures v[i] == c && v[i + 1..i + |inner| + 1] == inner
  {
    hide OccursAt;
    OccursConcat(v, [c] + inner, [c], i);
    OccursConcat(v, [c], inner, i);
    OccursBound(v, inner, i + 1);
    OccursSlice(v, inner, i + 1);
    OccursFirst(v, c, i);
  }

  lemma OccursFirst(v: string, c: char, i: nat)
    requires OccursAt(v, [c], i)
    ensures i < |v| && v[i] == c
  {
    assert v[i + 0] == [c][0];
  }

  lemma {:induction false} NormalIsParseFrom(v: string, i: nat, nodes: seq<Inline>)
    requires NormalFrom(v, i, nodes)
    ensures nodes == ParseFrom(v, i)
    decreases nodes, 1
  {
    hide Fits, UnparseNode, SpanEnd;
    if nodes != [] {
      var n, tail := nodes[0], nodes[1..];
      assert nodes == [n] + tail;
      NormalIsParseFrom(v, i + |UnparseNode(n)|, tail);
      FitsIsParsed(v, i, n);
    }
  }

  /** A node that fits is the one the grammar reads there. */
  lemma {:induction false} FitsIsParsed(v: string, i: nat, n: Inline)
    requires Fits(v, i, n)
    requires var rest := ParseFrom(v, i + |UnparseNode(n)|); n.Text? && rest != [] ==> !rest[0].Text?
    ensures ParseFrom(v, i) == [n] + ParseFrom(v, i + |UnparseNode(n)|)
    decreases n, 0
  {
    hide NormalFrom, OccursAt, SpanEnd, ParseFrom, StaysPlain, ClosesFirst;
    SpanEndExactly(v, i, i + |UnparseNode(n)| - 1);
    match n {
      case Text(t) =>
        PlainRun(v, i, t);
      case Code(t) =>
        InsideOfSpan(v, i, '`', t);
        ParseAtSpan(v, i, i + |t| + 1, t);
        assert |UnparseNode(n)| == |t| + 2;
      case Formatted(m, children) =>
        var inner := Unparse(children);
        InsideOfSpan(v, i, MarkerOf(m), inner);
        NormalIsParseFrom(inner, 0, children);
        ParseAtSpan(v, i, i + |inner| + 1, inner);
        assert |UnparseNode(n)| == |inner| + 2;
    }
  }

  /** The tree the parser builds is a normal form of the text, and the text has no other. */
  lemma NormalFormIffParse(v: string, nodes: seq<Inline>)
    ensures NormalForm(v, nodes) <==> nodes == Parse(v)
  {
    ParseFromIsNormal(v, 0);
    if NormalForm(v, nodes) {
      NormalIsParseFrom(v, 0, nodes);
    }
  }

  // ---------- position by position ----------

  lemma OffsetCons(n: Inline, tail: seq<Inline>, j: nat)
    requires j <= |tail|
    ensures Offset([n] + tail, j + 1) == |UnparseNode(n)| + Offset(tail, j)
  {
    assert ([n] + tail)[..j + 1] == [n] + tail[..j];
    UnparseCons(n, tail[..j]);
  }

  /** Node `j` of a normal form fits at its own offset. */
  lemma {:induction false} FitsAtOffset(v: string, i: nat, nodes: seq<Inline>, j: nat)
    requires NormalFrom(v, i, nodes) && j < |nodes|
    ensures Offset(nodes, j + 1) == Offset(nodes, j) + |UnparseNode(nodes[j])|
    ensures Fits(v, i + Offset(nodes, j), nodes[j])
    decreases j
  {
    hide Fits, UnparseNode, SpanEnd;
    var n, tail := nodes[0], nodes[1..];
    assert nodes == [n] + tail;
    OffsetCons(n, tail, j);
    if j == 0 {
      assert nodes[..0] == [] && tail[..0] == [];
    } else {
      OffsetCons(n, tail, j - 1);
      FitsAtOffset(v, i + |UnparseNode(n)|, tail, j - 1);
    }
  }

  /** Every character of every text node stays plain, those inside a formatted node within its own content. */
  ghost predicate AllStayPlain(v: string, i: nat, nodes: seq<Inline>)
    decreases nodes
  {
    nodes == [] ||
    ((match nodes[0]
      case Text(t) => forall p :: i <= p < i + |t| ==> StaysPlain(v, p)
      case Code(_) => true
      case Formatted(_, children) => AllStayPlain(Unparse(children), 0, children))
     && AllStayPlain(v, i + |UnparseNode(nodes[0])|, nodes[1..]))
  }

  lemma {:induction false} NormalStaysPlain(v: string, i: nat, nodes: seq<Inline>)
    requires NormalFrom(v, i, nodes)
    ensures AllStayPlain(v, i, nodes)
    decreases nodes
  {
    hide OccursAt, SpanEnd, StaysPlain;
    if nodes != [] {
      NormalStaysPlain(v, i + |UnparseNode(nodes[0])|, nodes[1..]);
      match nodes[0] {
        case Text(_) =>
        case Code(_) =>
        case Formatted(_, children) => NormalStaysPlain(Unparse(children), 0, children);
      }
    }
  }

  /** At every depth, a marker left in a text node is one that nothing closes within its own span's content, or the
      start of a triple backtick. */
  lemma PlainMarkersNeverCloseAtAnyDepth(v: string)
    ensures AllStayPlain(v, 0, Parse(v))
  {
    ParseFromIsNormal(v, 0);
    NormalStaysPlain(v, 0, Parse(v));
  }

  /** The same by position, for text nodes outside all spans. */
  lemma PlainMarkersNeverClose(v: string, j: nat, p: nat)
    requires j < |Parse(v)| && Parse(v)[j].Text?
    requires Offset(Parse(v), j) <= p < Offset(Parse(v), j + 1)
    ensures p < |v|
    ensures v[p] == '*' || v[p] == '_' || v[p] == '~' || v[p] == '`' ==>
              || (v[p] == '`' && p + 2 < |v| && v[p + 1] == '`' && v[p + 2] == '`')
              || forall k :: p < k < |v| && v[k] == v[p] ==> Blank(v[p + 1..k])
  {
    hide NormalFrom, StaysPlain;
    NormalFormIffParse(v, Parse(v));
    NormalFormGivesFrom(v, Parse(v));
    FitsAtOffset(v, 0, Parse(v), j);
    assert StaysPlain(v, p);
    if (v[p] == '*' || v[p] == '_' || v[p] == '~' || v[p] == '`')
       && !(v[p] == '`' && p + 2 < |v| && v[p + 1] == '`' && v[p + 2] == '`') {
      NothingCloses(v, p);
    }
  }

  lemma NothingCloses(v: string, p: nat)
    requires p < |v| && StaysPlain(v, p)
    requires v[p] == '*' || v[p] == '_' || v[p] == '~' || v[p] == '`'
    requires !(v[p] == '`' && p + 2 < |v| && v[p + 1] == '`' && v[p + 2] == '`')
    ensures forall k :: p < k < |v| && v[k] == v[p] ==> Blank(v[p + 1..k])
  {
    forall k | p < k < |v| && v[k] == v[p] ensures Blank(v[p + 1..k]) {
      assert !Encloses(v, p, k);
      var inner := v[p + 1..k];
      forall j | 0 <= j < |inner| ensures IsSpace(inner[j]) {
        assert inner[j] == v[p + 1 + j];
      }
    }
  }

  lemma NormalFormGivesFrom(v: string, nodes: seq<Inline>)
    requires NormalForm(v, nodes)
    ensures NormalFrom(v, 0, nodes)
  {
  }

  // ---------- which characters mean what ----------

  predicate MarkerFree(t: string) {
    forall i :: 0 <= i < |t| ==> t[i] != '*' && t[i] != '_' && t[i] != '~' && t[i] != '`'
  }

  lemma MarkerFreeStaysPlain(t: string)
    requires MarkerFree(t) && t != ""
    ensures NormalForm(t, [Text(t)]) && Unparse([Text(t)]) == t
  {
    assert t + "" == t;
    assert [Text(t)][1..] == [];
    forall p | 0 <= p < |t| ensures StaysPlain(t, p) {
    }
  }

  lemma EnclosedAlone(c: char, t: string)
    requires c == '*' || c == '_' || c == '~' || c == '`'
    requires MarkerFree(t) && !Blank(t)
    ensures ClosesFirst([c] + t + [c], 0, |t| + 1)
  {
    var v := [c] + t + [c];
    assert v[0] == c && v[|t| + 1] == c;
    forall i | 0 <= i < |t| ensures v[i + 1] == t[i] && v[i + 1] != c {
    }
    var j :| 0 <= j < |t| && !IsSpace(t[j]);
    assert !IsSpace(v[j + 1]);
    forall k | k < |t| + 1 ensures !Encloses(v, 0, k) {
      if 0 < k {
        assert v[k - 1 + 1] != c;
      }
    }
    assert |t| > 0 && v[0 + 1] != '`';
  }

  lemma AloneIsNormal(c: char, t: string, n: Inline)
    requires c == '*' || c == '_' || c == '~' || c == '`'
    requires MarkerFree(t) && !Blank(t)
    requires n == (if c == '*' then Formatted(Bold, [Text(t)])
                   else if c == '_' then Formatted(Italic, [Text(t)])
                   else if c == '~' then Formatted(Strikethrough, [Text(t)])
                   else Code(t))
    ensures Parse([c] + t + [c]) == [n]
  {
    var v := [c] + t + [c];
    EnclosedAlone(c, t);
    MarkerFreeStaysPlain(t);
    hide ClosesFirst, StaysPlain, MarkerFree;
    assert UnparseNode(n) == v;
    assert OccursAt(v, v, 0);
    if n.Formatted? {
      assert n.children == [Text(t)] && Unparse(n.children) == t;
      NormalFormGivesFrom(t, [Text(t)]);
    }
    assert Fits(v, 0, n) && NormalFrom(v, |v|, []);
    NormalCons(v, 0, n, []);
    assert [n] + [] == [n];
    NormalIsParseFrom(v, 0, [n]);
  }

  /** Asterisks make bold, underscores italic, tildes strikethrough and backticks code, around any text that is not
      blank and holds none of the four; without markers text is just text. */
  lemma MarkersMean(t: string)
    requires !Blank(t)
    requires forall i :: 0 <= i < |t| ==> t[i] != '*' && t[i] != '_' && t[i] != '~' && t[i] != '`'
    ensures Parse("*" + t + "*") == [Formatted(Bold, [Text(t)])]
    ensures Parse("_" + t + "_") == [Formatted(Italic, [Text(t)])]
    ensures Parse("~" + t + "~") == [Formatted(Strikethrough, [Text(t)])]
    ensures Parse("`" + t + "`") == [Code(t)]
    ensures Parse(t) == [Text(t)]
  {
    hide Parse;
    assert MarkerFree(t) && t != "";
    AloneIsNormal('*', t, Formatted(Bold, [Text(t)]));
    AloneIsNormal('_', t, Formatted(Italic, [Text(t)]));
    AloneIsNormal('~', t, Formatted(Strikethrough, [Text(t)]));
    AloneIsNormal('`', t, Code(t));
    MarkerFreeStaysPlain(t);
    NormalFormIffParse(t, [Text(t)]);
  }
}
