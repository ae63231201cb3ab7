/** The few JavaScript string operations the modelled code relies on. */
module JsString {

  datatype Option<+T> = None | Some(value: T)

  /** White space as `String.prototype.trim` understands it (WhiteSpace and LineTerminator of ECMA-262). */
  predicate IsSpace(c: char) {
    || '\t' <= c <= '\r'
    || c == ' '
    || c == '\U{00A0}'
    || c == '\U{1680}'
    || '\U{2000}' <= c <= '\U{200A}'
    || c == '\U{2028}'
    || c == '\U{2029}'
    || c == '\U{202F}'
    || c == '\U{205F}'
    || c == '\U{3000}'
    || c == '\U{FEFF}'
  }

  /** Every character is white space; the empty string is blank. */
  predicate Blank(s: string) {
    forall i :: 0 <= i < |s| ==> IsSpace(s[i])
  }

  function TrimStart(s: string): string {
    if s != "" && IsSpace(s[0]) then TrimStart(s[1..]) else s
  }

  function TrimEnd(s: string): string {
    if s != "" && IsSpace(s[|s| - 1]) then TrimEnd(s[..|s| - 1]) else s
  }

  function Trim(s: string): string {
    TrimEnd(TrimStart(s))
  }

  lemma {:induction false} TrimStartShape(s: string)
    ensures TrimStart(s) == "" <==> Blank(s)
    ensures TrimStart(s) != "" ==> !IsSpace(TrimStart(s)[0])
    ensures |TrimStart(s)| <= |s| && TrimStart(s) == s[|s| - |TrimStart(s)|..]
    ensures Blank(s[..|s| - |TrimStart(s)|])
  {
    if s != "" && IsSpace(s[0]) {
      TrimStartShape(s[1..]);
      var t := TrimStart(s);
      assert s == [s[0]] + s[1..];
      assert Blank(s) <==> Blank(s[1..]);
      var k := |s| - |t|;
      assert s[..k] == [s[0]] + s[1..][..k - 1];
    }
  }

  lemma {:induction false} TrimEndShape(s: string)
    ensures TrimEnd(s) <= s
    ensures TrimEnd(s) != "" ==> !IsSpace(TrimEnd(s)[|TrimEnd(s)| - 1])
    ensures Blank(s[|TrimEnd(s)|..])
  {
    if s != "" && IsSpace(s[|s| - 1]) {
      var front := s[..|s| - 1];
      TrimEndShape(front);
      assert s == front + [s[|s| - 1]];
      assert s[|TrimEnd(s)|..] == front[|TrimEnd(s)|..] + [s[|s| - 1]];
    }
  }

  /** What `innerContent.trim().length` is used for: nothing is left exactly when all was white space. */
  lemma TrimEmptyIffBlank(s: string)
    ensures Trim(s) == "" <==> Blank(s)
  {
    TrimStartShape(s);
    TrimEndShape(TrimStart(s));
  }

  /** The code points of white space. */
  lemma SpaceCodePoints(c: char)
    ensures IsSpace(c) <==>
            var n := c as int;
            9 <= n <= 13 || n in {32, 160, 5760, 8232, 8233, 8239, 8287, 12288, 65279} || 8192 <= n <= 8202
  {
  }

  /** Trimming cuts off exactly the white space at both ends; `a` is where what is left stands. */
  lemma TrimShape(s: string) returns (a: nat)
    ensures a + |Trim(s)| <= |s| && s[a..a + |Trim(s)|] == Trim(s)
    ensures Blank(s[..a]) && Blank(s[a + |Trim(s)|..])
    ensures Trim(s) != "" ==> !IsSpace(Trim(s)[0]) && !IsSpace(Trim(s)[|Trim(s)| - 1])
  {
    var t := TrimStart(s);
    TrimStartShape(s);
    TrimEndShape(t);
    a := |s| - |t|;
    assert s[a + |Trim(s)|..] == t[|Trim(s)|..];
  }

  predicate IsDigit(c: char) {
    '0' <= c <= '9'
  }

  predicate AllDigits(s: string) {
    forall i :: 0 <= i < |s| ==> IsDigit(s[i])
  }

  /** `s.replace(/\D/g, '')`. */
  function Digits(s: string): (d: string)
    ensures AllDigits(d)
  {
    if s == "" then ""
    else if IsDigit(s[0]) then [s[0]] + Digits(s[1..])
    else Digits(s[1..])
  }

  /** Digits are kept, in order, and nothing else is. */
  lemma DigitsCons(c: char, s: string)
    ensures Digits([c] + s) == (if '0' <= c <= '9' then [c] else "") + Digits(s)
  {
    assert ([c] + s)[1..] == s;
    assert "" + Digits(s) == Digits(s);
  }

  lemma Associative(a: string, b: string, c: string)
    ensures a + (b + c) == a + b + c
  {
  }

  lemma {:induction false} DigitsConcat(a: string, b: string)
    ensures Digits(a + b) == Digits(a) + Digits(b)
  {
    if a == "" {
      assert a + b == b;
      assert Digits(a) + Digits(b) == Digits(b);
    } else {
      hide Digits;
      var c, rest := a[0], a[1..];
      assert a == [c] + rest && a + b == [c] + (rest + b);
      DigitsConcat(rest, b);
      DigitsCons(c, rest);
      DigitsCons(c, rest + b);
      Associative(if IsDigit(c) then [c] else "", Digits(rest), Digits(b));
    }
  }

  lemma {:induction false} DigitsOfDigits(s: string)
    requires AllDigits(s)
    ensures Digits(s) == s
  {
    if s != "" {
      DigitsOfDigits(s[1..]);
    }
  }

  predicate EndsWith(s: string, suffix: string) {
    |suffix| <= |s| && s[|s| - |suffix|..] == suffix
  }

  /** `needle` occurs in `s` at index `i`. */
  predicate OccursAt(s: string, needle: string, i: int) {
    0 <= i && i + |needle| <= |s| && forall p :: 0 <= p < |needle| ==> s[i + p] == needle[p]
  }

  lemma OccursBound(s: string, needle: string, i: nat)
    requires OccursAt(s, needle, i)
    ensures i + |needle| <= |s|
  {
  }

  lemma OccursSlice(s: string, needle: string, i: nat)
    requires i + |needle| <= |s|
    ensures OccursAt(s, needle, i) <==> s[i..i + |needle|] == needle
  {
    if s[i..i + |needle|] == needle {
      forall p | 0 <= p < |needle| ensures s[i + p] == needle[p] {
        assert s[i..i + |needle|][p] == needle[p];
      }
    }
  }

  lemma OccursConcat(s: string, a: string, b: string, i: nat)
    ensures OccursAt(s, a + b, i) <==> OccursAt(s, a, i) && OccursAt(s, b, i + |a|)
  {
    if OccursAt(s, a + b, i) {
      forall p | 0 <= p < |a| ensures s[i + p] == a[p] {
        assert (a + b)[p] == a[p];
      }
      forall p | 0 <= p < |b| ensures s[i + |a| + p] == b[p] {
        assert s[i + (|a| + p)] == (a + b)[|a| + p];
      }
    }
  }

  predicate Contains(s: string, needle: string) {
    exists i {:trigger OccursAt(s, needle, i)} :: 0 <= i <= |s| && OccursAt(s, needle, i)
  }

  /** `s.indexOf(needle, from)`: the least occurrence at or after `from`, or -1. */
  function IndexOf(s: string, needle: string, from: nat): (r: int)
    ensures r == -1 ==> forall i {:trigger OccursAt(s, needle, i)} :: from <= i ==> !OccursAt(s, needle, i)
    ensures r != -1 ==> from <= r && OccursAt(s, needle, r)
    ensures r != -1 ==> forall i {:trigger OccursAt(s, needle, i)} :: from <= i < r ==> !OccursAt(s, needle, i)
    decreases |s| - from
  {
    if from > |s| then -1
    else if OccursAt(s, needle, from) then from
    else IndexOf(s, needle, from + 1)
  }
}
