/** Brazilian phone numbers: the web app's two canonicalisers, the gateway's own, the formatter and the mask. */
module BrazilPhone {
  import opened JsString

  const COUNTRY := "55"

  function OrEmpty(value: Option<string>): string {
    match value
    case None => ""
    case Some(s) => s
  }

  predicate HasCountryPrefix(digits: string) {
    (|digits| == 12 || |digits| == 13) && digits[0] == '5' && digits[1] == '5'
  }

  /** The digits without the country code, when they carry one. */
  function National(digits: string): string {
    if HasCountryPrefix(digits) then digits[2..] else digits
  }

  /** A ten-digit number whose third digit is 6 to 9: a mobile number written without its ninth digit. */
  predicate LacksNinthDigit(national: string) {
    |national| == 10 && '6' <= national[2] <= '9'
  }

  function WithNinthDigit(national: string): string
    requires |national| >= 2
  {
    national[..2] + "9" + national[2..]
  }

  /** `normalizePhone`. */
  function NormalizePhone(value: Option<string>): string {
    var national := National(Digits(OrEmpty(value)));
    if LacksNinthDigit(national) then WithNinthDigit(national) else national
  }

  /** `normalizeContactPhoneForComparison`. */
  function ComparisonKey(value: Option<string>): string {
    var digits := Digits(OrEmpty(value));
    if digits == "" then ""
    else
      var national := National(digits);
      if |national| == 10 || |national| == 11 then
        if LacksNinthDigit(national) then "+" + COUNTRY + WithNinthDigit(national)
        else "+" + COUNTRY + national
      else "+" + digits
  }

  /** The gateway's `normalizeBrazilianPhoneDigits`. */
  function GatewayDigits(value: Option<string>): Option<string> {
    var digits := Digits(OrEmpty(value));
    if digits == "" then None
    else
      var national := National(digits);
      if |national| != 10 && |national| != 11 then None
      else if LacksNinthDigit(national) then Some(COUNTRY + WithNinthDigit(national))
      else Some(COUNTRY + national)
  }

  /** `formatBrazilPhone`. */
  function FormatPhone(value: Option<string>): string {
    var digits := NormalizePhone(value);
    if |digits| == 11 then "(" + digits[..2] + ") " + digits[2..7] + "-" + digits[7..]
    else if |digits| == 10 then "(" + digits[..2] + ") " + digits[2..6] + "-" + digits[6..]
    else OrEmpty(value)
  }

  function Take(s: string, n: nat): string {
    if |s| <= n then s else s[..n]
  }

  /** `applyBrazilPhoneMask`. */
  function ApplyMask(value: Option<string>): string {
    var digits := Take(NormalizePhone(value), 11);
    if |digits| <= 2 then (if digits == "" then "" else "(" + digits)
    else if |digits| <= 6 then "(" + digits[..2] + ") " + digits[2..]
    else if |digits| <= 10 then "(" + digits[..2] + ") " + digits[2..6] + "-" + digits[6..]
    else "(" + digits[..2] + ") " + digits[2..7] + "-" + digits[7..]
  }

  // ---------- the canonicalisers ----------

  lemma PunctuationHasNoDigits()
    ensures Digits("") == "" && Digits("+") == "" && Digits("(") == "" && Digits(") ") == "" && Digits("-") == ""
  {
    assert ") "[1..] == " ";
    assert Digits(" ") == "";
  }

  lemma DigitsAfterPlus(d: string)
    requires AllDigits(d)
    ensures Digits("+" + d) == d
  {
    hide Digits;
    PunctuationHasNoDigits();
    DigitsConcat("+", d);
    DigitsOfDigits(d);
  }

  lemma DigitsAfterCountry(national: string)
    requires AllDigits(national)
    ensures AllDigits(COUNTRY + national) && Digits(COUNTRY + national) == COUNTRY + national
    ensures Digits("+" + COUNTRY + national) == COUNTRY + national
    ensures |national| == 10 || |national| == 11 ==> National(COUNTRY + national) == national
  {
    hide Digits;
    DigitsOfDigits(COUNTRY + national);
    DigitsAfterPlus(COUNTRY + national);
    assert "+" + COUNTRY + national == "+" + (COUNTRY + national);
    assert (COUNTRY + national)[2..] == national;
  }

  /** What all three canonicalisers see: national digits, the ninth digit restored. */
  lemma NormalizedShape(value: Option<string>)
    ensures var c := NormalizePhone(value); AllDigits(c) && !LacksNinthDigit(c) && National(c) == c
  {
  }

  lemma CanonicalOfDigits(d: string)
    requires AllDigits(d) && National(d) == d && !LacksNinthDigit(d)
    ensures NormalizePhone(Some(d)) == d
  {
    DigitsOfDigits(d);
  }

  lemma NormalizePhoneIdempotent(value: Option<string>)
    ensures NormalizePhone(Some(NormalizePhone(value))) == NormalizePhone(value)
  {
    var c := NormalizePhone(value);
    NormalizedShape(value);
    CanonicalOfDigits(c);
  }

  /** The gateway yields digits exactly when the web app's normalised number has ten or eleven of them. */
  lemma GatewayDefinedIff(value: Option<string>)
    ensures GatewayDigits(value).Some? <==> |NormalizePhone(value)| in {10, 11}
    ensures GatewayDigits(value).Some? <==> |National(Digits(OrEmpty(value)))| in {10, 11}
  {
  }

  /** Where the gateway yields digits, they are the country code and the web app's digits,
      and the web app's comparison key is "+" and those digits. */
  lemma CanonicalisersAgree(value: Option<string>)
    requires GatewayDigits(value).Some?
    ensures GatewayDigits(value).value == COUNTRY + NormalizePhone(value)
    ensures ComparisonKey(value) == "+" + GatewayDigits(value).value
  {
    var n := NormalizePhone(value);
    assert "+" + COUNTRY + n == "+" + (COUNTRY + n);
  }

  lemma GatewayIdempotent(value: Option<string>)
    requires GatewayDigits(value).Some?
    ensures GatewayDigits(GatewayDigits(value)) == GatewayDigits(value)
  {
    CanonicalisersAgree(value);
    var c := NormalizePhone(value);
    NormalizedShape(value);
    DigitsAfterCountry(c);
  }

  lemma ComparisonKeyIdempotent(value: Option<string>)
    ensures ComparisonKey(Some(ComparisonKey(value))) == ComparisonKey(value)
  {
    if GatewayDigits(value).Some? {
      CanonicalisersAgree(value);
      NormalizedShape(value);
      DigitsAfterCountry(NormalizePhone(value));
    } else {
      DigitsAfterPlus(Digits(OrEmpty(value)));
    }
  }

  /** Two raw numbers compare equal in the web app exactly when the gateway gives them the same digits or,
      where the gateway gives neither any, when their digits are the same: the classes never collide. */
  lemma KeysCoincideIff(x: Option<string>, y: Option<string>)
    ensures ComparisonKey(x) == ComparisonKey(y) <==>
            if GatewayDigits(x).Some? || GatewayDigits(y).Some?
            then GatewayDigits(x) == GatewayDigits(y)
            else Digits(OrEmpty(x)) == Digits(OrEmpty(y))
  {
    KeyDigits(x);
    KeyDigits(y);
  }

  /** The digits of a comparison key tell which class the number is in. */
  lemma KeyDigits(x: Option<string>)
    ensures var d := if GatewayDigits(x).Some? then GatewayDigits(x).value else Digits(OrEmpty(x));
            && ComparisonKey(x) == (if d == "" then "" else "+" + d)
            && Digits(ComparisonKey(x)) == d
            && (GatewayDigits(x).Some? <==> |National(d)| in {10, 11})
  {
    if GatewayDigits(x).Some? {
      CanonicalisersAgree(x);
      NormalizedShape(x);
      DigitsAfterCountry(NormalizePhone(x));
    } else {
      DigitsAfterPlus(Digits(OrEmpty(x)));
    }
  }

  // ---------- the displays ----------

  lemma DigitsSkip(s: string, punctuation: string, d: string)
    requires Digits(punctuation) == "" && AllDigits(d)
    ensures Digits(s + punctuation + d) == Digits(s) + d
  {
    hide Digits;
    DigitsConcat(s + punctuation, d);
    DigitsConcat(s, punctuation);
    DigitsOfDigits(d);
    assert Digits(s) + "" == Digits(s);
  }

  /** Punctuation between runs of digits does not change the digits. */
  lemma DigitsOfParts(a: string, b: string, c: string)
    requires AllDigits(a) && AllDigits(b) && AllDigits(c)
    ensures Digits("(" + a + ") " + b + "-" + c) == a + b + c
    ensures Digits("(" + a + ") " + b) == a + b
    ensures Digits("(" + a) == a
  {
    hide Digits, AllDigits;
    PunctuationHasNoDigits();
    DigitsConcat("(", a);
    DigitsOfDigits(a);
    DigitsSkip("(" + a, ") ", b);
    DigitsSkip("(" + a + ") " + b, "-", c);
    assert "" + a == a;
  }

  lemma ThreeParts(d: string, i: nat, j: nat)
    requires AllDigits(d) && i <= j <= |d|
    ensures AllDigits(d[..i]) && AllDigits(d[i..j]) && AllDigits(d[j..]) && d[..i] + d[i..j] + d[j..] == d
  {
  }

  lemma TakeDigits(d: string, n: nat)
    requires AllDigits(d)
    ensures AllDigits(Take(d, n)) && |Take(d, n)| <= n && (|d| <= n ==> Take(d, n) == d)
  {
  }

  /** Formatting for display loses nothing: the formatted number normalises to the same digits. */
  lemma FormatRoundTrip(value: Option<string>)
    ensures NormalizePhone(Some(FormatPhone(value))) == NormalizePhone(value)
  {
    hide Digits, AllDigits;
    var d := NormalizePhone(value);
    NormalizedShape(value);
    if |d| == 11 {
      ThreeParts(d, 2, 7);
      DigitsOfParts(d[..2], d[2..7], d[7..]);
    } else if |d| == 10 {
      ThreeParts(d, 2, 6);
      DigitsOfParts(d[..2], d[2..6], d[6..]);
    }
  }

  /** The mask shows the first eleven canonical digits. */
  lemma MaskDigits(value: Option<string>)
    ensures Digits(ApplyMask(value)) == Take(NormalizePhone(value), 11)
  {
    PunctuationHasNoDigits();
    hide Digits, AllDigits, NormalizePhone, Take;
    var d := Take(NormalizePhone(value), 11);
    NormalizedShape(value);
    TakeDigits(NormalizePhone(value), 11);
    NothingIsDigits();
    if |d| <= 2 {
      DigitsOfParts(d, "", "");
    } else if |d| <= 6 {
      ThreeParts(d, 2, |d|);
      DigitsOfParts(d[..2], d[2..|d|], "");
      assert d[2..|d|] == d[2..] && d[..2] + d[2..] == d;
    } else if |d| <= 10 {
      ThreeParts(d, 2, 6);
      DigitsOfParts(d[..2], d[2..6], d[6..]);
    } else {
      ThreeParts(d, 2, 7);
      DigitsOfParts(d[..2], d[2..7], d[7..]);
    }
  }

  lemma NothingIsDigits()
    ensures AllDigits("")
  {
  }

  /** Masking a masked value changes nothing, so re-masking on every keystroke is stable. */
  lemma MaskIdempotent(value: Option<string>)
    ensures ApplyMask(Some(ApplyMask(value))) == ApplyMask(value)
  {
    MaskDigits(value);
    var d := Take(NormalizePhone(value), 11);
    NormalizedShape(value);
    assert Take(d, 11) == d;
    assert !LacksNinthDigit(d) && National(d) == d;
  }

  // ---------- digit by digit ----------

  /** A number is an area code and the rest; eight digits of which the first is 6 to 9 get a 9 in front. A leading 55
      is taken off twelve and thirteen digits. */
  lemma NormalizeMeans(area: string, rest: string)
    requires AllDigits(area) && AllDigits(rest) && |area| == 2
    ensures |rest| == 8 ==>
              NormalizePhone(Some(area + rest)) == if '6' <= rest[0] <= '9' then area + "9" + rest else area + rest
    ensures |rest| == 8 ==> NormalizePhone(Some("55" + area + rest)) == NormalizePhone(Some(area + rest))
    ensures |rest| == 9 ==> NormalizePhone(Some(area + rest)) == area + rest
    ensures |rest| == 9 ==> NormalizePhone(Some("55" + area + rest)) == area + rest
    ensures |rest| !in {8, 10, 11} ==> NormalizePhone(Some(area + rest)) == area + rest
  {
    DigitsOfDigits(area + rest);
    DigitsOfDigits("55" + area + rest);
    hide Digits;
    assert ("55" + area + rest)[2..] == area + rest;
    assert (area + rest)[..2] == area && (area + rest)[2..] == rest;
    assert |rest| > 0 ==> (area + rest)[2] == rest[0];
  }

  /** Only the digits of what is typed matter. */
  lemma OnlyDigitsMatter(value: string)
    ensures NormalizePhone(Some(value)) == NormalizePhone(Some(Digits(value)))
    ensures NormalizePhone(None) == NormalizePhone(Some(""))
  {
    DigitsOfDigits(Digits(value));
  }

  /** The comparison key is a plus sign and the gateway's digits, or else the raw digits; nothing for nothing. */
  lemma KeyMeans(value: Option<string>)
    ensures GatewayDigits(value).Some? ==> GatewayDigits(value).value == "55" + NormalizePhone(value)
    ensures ComparisonKey(value) ==
            if GatewayDigits(value).Some? then "+55" + NormalizePhone(value)
            else if Digits(OrEmpty(value)) == "" then "" else "+" + Digits(OrEmpty(value))
  {
    if GatewayDigits(value).Some? {
      CanonicalisersAgree(value);
      assert "+" + ("55" + NormalizePhone(value)) == "+55" + NormalizePhone(value);
    }
  }

  /** `shown` is `d` with an opening bracket first, a closing bracket and a space after two digits, and a dash before
      the digits from `dash` on. */
  predicate ShownAs(d: string, shown: string, dash: nat)
    requires 2 <= dash <= |d|
  {
    && |shown| == |d| + 4
    && shown[0] == '(' && shown[1] == d[0] && shown[2] == d[1] && shown[3] == ')' && shown[4] == ' '
    && (forall i :: 2 <= i < dash ==> shown[i + 3] == d[i])
    && shown[dash + 3] == '-'
    && (forall i :: dash <= i < |d| ==> shown[i + 4] == d[i])
  }

  lemma PartsShown(d: string, dash: nat)
    requires 2 <= dash <= |d|
    ensures ShownAs(d, "(" + d[..2] + ") " + d[2..dash] + "-" + d[dash..], dash)
  {
  }

  lemma ShortShown(d: string)
    requires 2 <= |d|
    ensures var shown := "(" + d[..2] + ") " + d[2..];
            && |shown| == |d| + 3
            && shown[0] == '(' && shown[1] == d[0] && shown[2] == d[1] && shown[3] == ')' && shown[4] == ' '
            && forall i :: 2 <= i < |d| ==> shown[i + 3] == d[i]
  {
  }

  /** Eleven digits are shown as (dd) ddddd-dddd, ten as (dd) dddd-dddd, anything else as it came. */
  lemma FormatMeans(value: Option<string>)
    ensures var d := NormalizePhone(value);
            && (|d| == 11 ==> ShownAs(d, FormatPhone(value), 7))
            && (|d| == 10 ==> ShownAs(d, FormatPhone(value), 6))
            && (|d| != 10 && |d| != 11 ==> FormatPhone(value) == match value case None => "" case Some(s) => s)
  {
    hide NormalizePhone, ShownAs;
    var d := NormalizePhone(value);
    if |d| == 11 {
      PartsShown(d, 7);
    } else if |d| == 10 {
      PartsShown(d, 6);
    }
  }

  /** The mask shows up to eleven digits: up to two behind a bracket, up to six as (dd) dddd, up to ten with the dash
      before the seventh, eleven with the dash before the eighth. */
  lemma MaskMeans(value: Option<string>)
    ensures var n := NormalizePhone(value);
            var d := if |n| <= 11 then n else n[..11];
            && (|d| == 0 ==> ApplyMask(value) == "")
            && (1 <= |d| <= 2 ==> ApplyMask(value) == "(" + d)
            && (3 <= |d| <= 6 ==>
                  var shown := ApplyMask(value);
                  && |shown| == |d| + 3
                  && shown[0] == '(' && shown[1] == d[0] && shown[2] == d[1] && shown[3] == ')' && shown[4] == ' '
                  && forall i :: 2 <= i < |d| ==> shown[i + 3] == d[i])
            && (7 <= |d| <= 10 ==> ShownAs(d, ApplyMask(value), 6))
            && (|d| == 11 ==> ShownAs(d, ApplyMask(value), 7))
  {
    hide NormalizePhone, ShownAs;
    var d := Take(NormalizePhone(value), 11);
    if 3 <= |d| <= 6 {
      ShortShown(d);
    } else if 7 <= |d| <= 10 {
      PartsShown(d, 6);
    } else if |d| == 11 {
      PartsShown(d, 7);
    }
  }
}
