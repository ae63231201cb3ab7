/** What the inline parser guarantees for every text. */
module InlineTheorems {
  import opened JsString
  import opened InlineFormatting

  // ---------- lossless ----------

  lemma UnparsePrepend(c: char, nodes: seq<Inline>)
    ensures Unparse(PrependChar(c, nodes)) == [c] + Unparse(nodes)
  {
    var out := PrependChar(c, nodes);
    if nodes != [] && nodes[0].Text? {
      assert out[1..] == nodes[1..];
      assert UnparseNode(out[0]) == [c] + nodes[0].text;
    } else {
      assert out[1..] == nodes;
    }
  }

  lemma UnparseCons(n: Inline, nodes: seq<Inline>)
    ensures Unparse([n] + nodes) == UnparseNode(n) + Unparse(nodes)
  {
    assert ([n] + nodes)[1..] == nodes;
  }

  lemma SliceSplit(v: string, i: nat, k: nat)
    requires i <= k <= |v|
    ensures v[i..] == v[i..k] + v[k..]
  {
  }

  lemma SliceHead(v: string, i: nat)
    requires i < |v|
    ensures v[i..] == [v[i]] + v[i + 1..]
  {
  }

  lemma LosslessEnd(v: string)
    ensures Unparse(ParseFrom(v, |v|)) == v[|v|..]
  {
    assert ParseFrom(v, |v|) == [];
  }

  lemma LosslessPlain(v: string, i: nat)
    requires i < |v| && SpanEnd(v, i) == -1 && Unparse(ParseFrom(v, i + 1)) == v[i + 1..]
    ensures Unparse(ParseFrom(v, i)) == v[i..]
  {
    hide ParseFrom, SpanEnd, PrependChar, Unparse;
    ParsePlain(v, i);
    UnparsePrepend(v[i], ParseFrom(v, i + 1));
    SliceHead(v, i);
  }

  lemma LosslessAfterSpan(v: string, i: nat, k: nat, span: Inline, tail: seq<Inline>)
    requires i <= k <= |v| && UnparseNode(span) == v[i..k] && Unparse(tail) == v[k..]
    ensures Unparse([span] + tail) == v[i..]
  {
    hide Unparse, UnparseNode;
    UnparseCons(span, tail);
    SliceSplit(v, i, k);
  }

  /** Un-parsing what is read from `i` on gives back the text from `i` on. */
  lemma {:induction false} LosslessFrom(v: string, i: nat)
    requires i <= |v|
    ensures Unparse(ParseFrom(v, i)) == v[i..]
    decreases |v|, |v| - i
  {
    hide ParseFrom, SpanEnd, SpanNode, MayOpen, Closing, PrependChar, Unparse, UnparseNode;
    if i == |v| {
      LosslessEnd(v);
    } else {
      var k := SpanEnd(v, i);
      if k == -1 {
        LosslessFrom(v, i + 1);
        LosslessPlain(v, i);
      } else {
        ParseSpan(v, i, k);
        LosslessFrom(v, k + 1);
        LosslessSpan(v, i, k);
        LosslessAfterSpan(v, i, k + 1, SpanNode(v, i, k), ParseFrom(v, k + 1));
      }
    }
  }

  lemma {:induction false} LosslessSpan(v: string, i: nat, k: nat)
    requires i + 1 <= k < |v| && v[k] == v[i] && (v[i] == '`' || IsInlineMarker(v[i]))
    ensures UnparseNode(SpanNode(v, i, k)) == v[i..k + 1]
    decreases |v|, 0
  {
    var inner := v[i + 1..k];
    assert v[i..k + 1] == [v[i]] + inner + [v[k]];
    if v[i] != '`' {
      LosslessFrom(inner, 0);
    }
  }

  /** Un-parsing the tree gives back exactly the input. */
  lemma Lossless(v: string)
    ensures Unparse(Parse(v)) == v
  {
    LosslessFrom(v, 0);
  }

  /** Every tree's source text is its leaf text plus one pair of markers per span. */
  lemma {:induction false} UnparseLength(nodes: seq<Inline>)
    ensures |Unparse(nodes)| == LeafLength(nodes) + 2 * SpanCount(nodes)
    decreases nodes
  {
    if nodes != [] {
      UnparseLength(nodes[1..]);
      if nodes[0].Formatted? {
        UnparseLength(nodes[0].children);
      }
    }
  }

  /** Nothing is lost and nothing is invented: input length is leaf text plus two per span. */
  lemma LengthAccounting(s: string)
    ensures |s| == LeafLength(Parse(s)) + 2 * SpanCount(Parse(s))
  {
    Lossless(s);
    UnparseLength(Parse(s));
  }

  // ---------- no self-nesting ----------

  function Count(s: string, c: char): nat {
    multiset(s)[c]
  }

  lemma CountConcat(a: string, b: string, c: char)
    ensures Count(a + b, c) == Count(a, c) + Count(b, c)
  {
  }

  /** A formatted node of kind `m` anywhere in a forest puts at least two of its markers in the text. */
  lemma {:induction false} MarkCostsTwo(nodes: seq<Inline>, m: Mark)
    requires HasMark(nodes, m)
    ensures Count(Unparse(nodes), MarkerOf(m)) >= 2
    decreases nodes
  {
    var c := MarkerOf(m);
    CountConcat(UnparseNode(nodes[0]), Unparse(nodes[1..]), c);
    if HasMark(nodes[1..], m) {
      MarkCostsTwo(nodes[1..], m);
    } else {
      var inner := Unparse(nodes[0].children);
      var d := MarkerOf(nodes[0].mark);
      CountConcat([d] + inner, [d], c);
      CountConcat([d], inner, c);
      if nodes[0].mark != m {
        MarkCostsTwo(nodes[0].children, m);
      }
    }
  }

  /** The span a marker opens holds that marker at most once, and then only after leading white space. */
  lemma SpanHoldsOwnMarkerAtMostOnce(v: string, i: nat)
    requires SpanEnd(v, i) != -1
    ensures forall j :: i < j < SpanEnd(v, i) && v[j] == v[i] ==> Blank(v[i + 1..j])
    ensures !IsSpace(v[i]) ==> Count(v[i + 1..SpanEnd(v, i)], v[i]) <= 1
  {
    var k, c := SpanEnd(v, i), v[i];
    ClosingIsLeast(v, c, i + 1);
    forall j | i < j < k && v[j] == c
      ensures Blank(v[i + 1..j])
    {
      assert !Closes(v, c, i + 1, j);
    }
    if !IsSpace(c) {
      if j :| i < j < k && v[j] == c {
        forall j' | i < j' < k && j' != j
          ensures v[j'] != c
        {
          OwnMarkerIsAlone(v, i, j', j);
        }
        AtMostOneOccurrence(v[i + 1..k], c, j - i - 1);
      } else {
        CountAbsent(v[i + 1..k], c);
      }
    }
  }

  lemma OwnMarkerIsAlone(v: string, i: nat, j': nat, j: nat)
    requires i < j' < |v| && i < j < |v| && j' != j && !IsSpace(v[i])
    requires v[j'] == v[i] ==> Blank(v[i + 1..j'])
    requires Blank(v[i + 1..j]) && v[j] == v[i]
    ensures v[j'] != v[i]
  {
    if j' < j {
      assert v[i + 1..j][j' - i - 1] == v[j'];
    } else {
      assert v[i + 1..j'][j - i - 1] == v[j];
    }
  }

  lemma AtMostOneOccurrence(s: string, c: char, at: nat)
    requires at < |s| && forall j :: 0 <= j < |s| && j != at ==> s[j] != c
    ensures Count(s, c) <= 1
  {
    assert s == s[..at] + [s[at]] + s[at + 1..];
    CountConcat(s[..at] + [s[at]], s[at + 1..], c);
    CountConcat(s[..at], [s[at]], c);
    CountAbsent(s[..at], c);
    CountAbsent(s[at + 1..], c);
  }

  lemma CountAbsent(s: string, c: char)
    requires forall i :: 0 <= i < |s| ==> s[i] != c
    ensures Count(s, c) == 0
  {
  }

  lemma HasMarkPrepend(c: char, nodes: seq<Inline>, m: Mark)
    ensures HasMark(PrependChar(c, nodes), m) == HasMark(nodes, m)
    ensures NoSelfNesting(PrependChar(c, nodes)) == NoSelfNesting(nodes)
  {
    var out := PrependChar(c, nodes);
    if nodes != [] && nodes[0].Text? {
      assert out[1..] == nodes[1..];
    } else {
      assert out[1..] == nodes;
    }
  }

  lemma {:induction false} NeverNestsItselfFrom(v: string, i: nat)
    ensures NoSelfNesting(ParseFrom(v, i))
    decreases |v|, |v| - i
  {
    if i < |v| {
      var k := SpanEnd(v, i);
      if k == -1 {
        NeverNestsItselfFrom(v, i + 1);
        HasMarkPrepend(v[i], ParseFrom(v, i + 1), Bold);
      } else {
        NeverNestsItselfFrom(v, k + 1);
        assert ParseFrom(v, i)[1..] == ParseFrom(v, k + 1);
        if v[i] != '`' {
          NeverNestsItselfFrom(v[i + 1..k], 0);
          SpanFreeOfOwnMark(v, i);
        }
      }
    }
  }

  lemma SpanFreeOfOwnMark(v: string, i: nat)
    requires SpanEnd(v, i) != -1 && IsInlineMarker(v[i])
    ensures !HasMark(Parse(v[i + 1..SpanEnd(v, i)]), MarkOf(v[i]))
  {
    var inner := v[i + 1..SpanEnd(v, i)];
    SpanHoldsOwnMarkerAtMostOnce(v, i);
    Lossless(inner);
    if HasMark(Parse(inner), MarkOf(v[i])) {
      MarkCostsTwo(Parse(inner), MarkOf(v[i]));
    }
  }

  /** No formatted node ever contains a descendant of its own kind. */
  lemma ParseNeverNestsItself(v: string)
    ensures NoSelfNesting(Parse(v))
  {
    NeverNestsItselfFrom(v, 0);
  }

  /** The kinds that occur in a forest without self-nesting bound its depth. */
  lemma {:induction false} DepthBoundedByKinds(nodes: seq<Inline>, kinds: set<Mark>)
    requires NoSelfNesting(nodes)
    requires forall m :: HasMark(nodes, m) ==> m in kinds
    ensures Depth(nodes) <= |kinds|
    decreases nodes
  {
    if nodes != [] {
      DepthBoundedByKinds(nodes[1..], kinds);
      if nodes[0].Formatted? {
        DepthBoundedByKinds(nodes[0].children, kinds - {nodes[0].mark});
      }
    }
  }

  /** Formatted nesting is at most three deep, whatever the input. */
  lemma DepthAtMostThree(s: string)
    ensures Depth(Parse(s)) <= 3
  {
    ParseNeverNestsItself(s);
    var kinds := {Bold, Italic, Strikethrough};
    forall m: Mark ensures m in kinds {
      match m case Bold => case Italic => case Strikethrough =>
    }
    DepthBoundedByKinds(Parse(s), kinds);
  }
}
