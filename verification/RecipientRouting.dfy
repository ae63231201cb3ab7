/** Sending to a recipient: candidate addresses in order, each tried once, falling back on retryable failures only. */
module RecipientRouting {
  import opened JsString

  datatype Result<T> = Ok(value: T) | Err(error: string)

  datatype Source = Normalized | Lid | Phone

  datatype Candidate = Candidate(jid: string, source: Source)

  /** What the client's identity lookup may answer. */
  datatype Lookup =
    | Unavailable
    | LookupFails
    | Identity(lid: Option<string>, pn: Option<string>)

  const INVALID_RECIPIENT := "Invalid WhatsApp recipient."
  const UNABLE_TO_SEND := "Unable to send WhatsApp message."

  function NormalizeRecipient(to: string): Result<string> {
    var raw := Trim(to);
    if raw == "" then Ok(raw)
    else if '@' in raw then Ok(raw)
    else if Digits(raw) == "" then Err(INVALID_RECIPIENT)
    else Ok(Digits(raw) + "@c.us")
  }

  /** `value?.trim() || null`. */
  function TrimmedOrNone(value: Option<string>): Option<string> {
    if value.Some? && Trim(value.value) != "" then Some(Trim(value.value)) else None
  }

  function AsCandidates(jid: Option<string>, source: Source): seq<Candidate> {
    match jid
    case None => []
    case Some(j) => [Candidate(j, source)]
  }

  /** The candidates before filtering: LID, then the recipient as given, then the phone address. */
  function Assembled(recipient: string, lookup: Lookup): seq<Candidate> {
    var plain := [Candidate(recipient, Normalized)];
    if lookup.Identity? && (EndsWith(recipient, "@c.us") || EndsWith(recipient, "@lid")) then
      AsCandidates(TrimmedOrNone(lookup.lid), Lid) + plain + AsCandidates(TrimmedOrNone(lookup.pn), Phone)
    else plain
  }

  /** The callback of the final `filter`: not blank, and no earlier entry has the same address. */
  predicate Kept(list: seq<Candidate>, i: nat)
    requires i < |list|
  {
    Trim(list[i].jid) != "" && forall k :: 0 <= k < i ==> list[k].jid != list[i].jid
  }

  function Filtered(list: seq<Candidate>): seq<Candidate> {
    if list == [] then []
    else
      var n := |list| - 1;
      Filtered(list[..n]) + if Kept(list, n) then [list[n]] else []
  }

  method ResolveRecipientCandidates(to: string, lookup: Lookup) returns (r: Result<seq<Candidate>>)
    ensures r == match NormalizeRecipient(to)
                 case Err(e) => Err(e)
                 case Ok(recipient) => Ok(Filtered(Assembled(recipient, lookup)))
  {
    hide Trim, EndsWith, Digits, Filtered;
    var normalized := NormalizeRecipient(to);
    if normalized.Err? {
      return Err(normalized.error);
    }
    var recipient := normalized.value;
    var candidates := [Candidate(recipient, Normalized)];
    if lookup.Identity? {
      var lid := TrimmedOrNone(lookup.lid);
      var phone := TrimmedOrNone(lookup.pn);
      if EndsWith(recipient, "@c.us") {
        if lid.Some? {
          candidates := [Candidate(lid.value, Lid)] + candidates;
        }
        if phone.Some? {
          candidates := candidates + [Candidate(phone.value, Phone)];
        }
      } else if EndsWith(recipient, "@lid") {
        if phone.Some? {
          candidates := candidates + [Candidate(phone.value, Phone)];
        }
        if lid.Some? {
          candidates := [Candidate(lid.value, Lid)] + candidates;
        }
      }
    }
    assert candidates == Assembled(recipient, lookup);
    return Ok(Filtered(candidates));
  }

  // ---------- what the candidate list is ----------

  /** Reference: keep the first entry of every non-blank address, in order. */
  function FirstOccurrences(list: seq<Candidate>, seen: set<string>): seq<Candidate> {
    if list == [] then []
    else if Trim(list[0].jid) == "" || list[0].jid in seen then FirstOccurrences(list[1..], seen)
    else [list[0]] + FirstOccurrences(list[1..], seen + {list[0].jid})
  }

  function Jids(list: seq<Candidate>): set<string> {
    set c | c in list :: c.jid
  }

  lemma {:induction false} FirstOccurrencesSnoc(front: seq<Candidate>, last: Candidate, seen: set<string>)
    ensures FirstOccurrences(front + [last], seen) ==
            FirstOccurrences(front, seen)
            + if Trim(last.jid) == "" || last.jid in seen || last.jid in Jids(front) then [] else [last]
  {
    var all := front + [last];
    if front == [] {
      assert all[1..] == [];
    } else {
      assert all[1..] == front[1..] + [last];
      assert front == [front[0]] + front[1..];
      var seen' := if Trim(front[0].jid) == "" || front[0].jid in seen then seen else seen + {front[0].jid};
      FirstOccurrencesSnoc(front[1..], last, seen');
      assert Jids(front) == {front[0].jid} + Jids(front[1..]);
    }
  }

  /** The filter is first-occurrence de-duplication of the non-blank addresses. */
  lemma {:induction false} FilteredIsDeduplication(list: seq<Candidate>)
    ensures Filtered(list) == FirstOccurrences(list, {})
  {
    if list != [] {
      var n := |list| - 1;
      FilteredIsDeduplication(list[..n]);
      FirstOccurrencesSnoc(list[..n], list[n], {});
      assert list == list[..n] + [list[n]];
      assert Kept(list, n) <==> Trim(list[n].jid) != "" && list[n].jid !in Jids(list[..n]);
    }
  }

  /** Distinct, non-blank, and nothing non-blank is lost. */
  lemma {:induction false} FilteredAddresses(list: seq<Candidate>)
    ensures |Filtered(list)| <= |list|
    ensures forall c :: c in Filtered(list) ==> c in list && Trim(c.jid) != ""
    ensures forall j :: j in Jids(list) && Trim(j) != "" ==> j in Jids(Filtered(list))
    ensures forall a, b :: 0 <= a < b < |Filtered(list)| ==> Filtered(list)[a].jid != Filtered(list)[b].jid
  {
    if list != [] {
      var n := |list| - 1;
      var front := list[..n];
      FilteredAddresses(front);
      assert list == front + [list[n]];
      assert Filtered(list) == Filtered(front) || Filtered(list) == Filtered(front) + [list[n]];
      forall j | j in Jids(list) && Trim(j) != ""
        ensures j in Jids(Filtered(list))
      {
        if j in Jids(front) {
          assert j in Jids(Filtered(front));
        } else {
          assert list[n].jid == j && Kept(list, n);
          assert list[n] in Filtered(list);
        }
      }
    }
  }

  /** At most three distinct non-blank addresses, the given recipient among them when it is not blank. */
  lemma CandidateList(recipient: string, lookup: Lookup)
    ensures var cs := Filtered(Assembled(recipient, lookup));
            && |cs| <= 3
            && (forall c :: c in cs ==> Trim(c.jid) != "")
            && (forall a, b :: 0 <= a < b < |cs| ==> cs[a].jid != cs[b].jid)
            && (Trim(recipient) != "" ==> recipient in Jids(cs))
            && (Trim(recipient) == "" ==> cs == [])
  {
    var list := Assembled(recipient, lookup);
    FilteredAddresses(list);
    assert Candidate(recipient, Normalized) in list;
    assert recipient in Jids(list);
    if EndsWith(recipient, "@c.us") {
      SuffixNotBlank(recipient, "@c.us");
    } else if EndsWith(recipient, "@lid") {
      SuffixNotBlank(recipient, "@lid");
    }
  }

  lemma SuffixNotBlank(s: string, suffix: string)
    requires EndsWith(s, suffix) && suffix != "" && !IsSpace(suffix[0])
    ensures Trim(s) != ""
  {
    TrimEmptyIffBlank(s);
    assert s[|s| - |suffix|] == s[|s| - |suffix|..][0] == suffix[0];
  }

  // ---------- sending ----------

  datatype Attempt = Sent(message: string) | SendFails(error: string)

  datatype SendOutcome = Delivered(message: string, recipient: string) | Failed(error: string)

  function Lower(s: string): string {
    if s == "" then ""
    else [if 'A' <= s[0] <= 'Z' then s[0] - 'A' + 'a' else s[0]] + Lower(s[1..])
  }

  predicate Retryable(error: string) {
    var m := Lower(error);
    Contains(m, "no lid for user") || Contains(m, "invalid wid") || Contains(m, "invalid whatsapp recipient")
  }

  /** The outcome that trying the first `n` candidates leads to, when it is final. */
  ghost predicate Explains(cs: seq<Candidate>, attempt: nat -> Attempt, n: nat, outcome: SendOutcome) {
    && n <= |cs|
    && (forall k: nat :: k + 1 < n ==> attempt(k).SendFails? && Retryable(attempt(k).error))
    && (if n == 0 then cs == [] && outcome == Failed(UNABLE_TO_SEND)
        else match attempt(n - 1)
          case Sent(m) => outcome == Delivered(m, cs[n - 1].jid)
          case SendFails(e) => outcome == Failed(e) && (n == |cs| || !Retryable(e)))
  }

  /** `attempt(k)` is what the client does with the k-th candidate; `tried` lists the addresses sent to. */
  method SendWithFallback(cs: seq<Candidate>, attempt: nat -> Attempt)
    returns (outcome: SendOutcome, tried: seq<string>)
    ensures |tried| <= |cs| && forall k :: 0 <= k < |tried| ==> tried[k] == cs[k].jid
    ensures forall k: nat :: k + 1 < |tried| ==> attempt(k).SendFails? && Retryable(attempt(k).error)
    ensures outcome.Delivered? ==>
              |tried| > 0 && attempt(|tried| - 1) == Sent(outcome.message) && outcome.recipient == tried[|tried| - 1]
    ensures outcome.Failed? && cs != [] ==>
              |tried| > 0 && attempt(|tried| - 1) == SendFails(outcome.error)
              && (|tried| == |cs| || !Retryable(outcome.error))
    ensures cs == [] ==> outcome == Failed("Unable to send WhatsApp message.")
    ensures Explains(cs, attempt, |tried|, outcome)
  {
    tried := [];
    var index := 0;
    while index < |cs|
      invariant 0 <= index <= |cs| && |tried| == index
      invariant forall k :: 0 <= k < index ==> tried[k] == cs[k].jid
      invariant forall k: nat :: k < index ==> attempt(k).SendFails? && Retryable(attempt(k).error)
      invariant index == |cs| ==> cs == []
    {
      tried := tried + [cs[index].jid];
      match attempt(index) {
        case Sent(m) =>
          return Delivered(m, cs[index].jid), tried;
        case SendFails(e) =>
          if index + 1 >= |cs| || !Retryable(e) {
            return Failed(e), tried;
          }
      }
      index := index + 1;
    }
    return Failed(UNABLE_TO_SEND), tried;
  }

  /** The description leaves no choice: how many candidates are tried and what comes out are determined. */
  lemma ExplanationUnique(cs: seq<Candidate>, attempt: nat -> Attempt,
                          n: nat, outcome: SendOutcome, n': nat, outcome': SendOutcome)
    requires Explains(cs, attempt, n, outcome) && Explains(cs, attempt, n', outcome')
    ensures n == n' && outcome == outcome'
  {
  }

  method SendMessage(to: string, lookup: Lookup, attempt: nat -> Attempt)
    returns (outcome: SendOutcome, tried: seq<string>)
    ensures NormalizeRecipient(to).Err? ==> outcome == Failed(INVALID_RECIPIENT) && tried == []
    ensures NormalizeRecipient(to).Ok? ==>
              var cs := Filtered(Assembled(NormalizeRecipient(to).value, lookup));
              Explains(cs, attempt, |tried|, outcome) && |tried| <= 3
              && forall a, b :: 0 <= a < b < |tried| ==> tried[a] != tried[b]
  {
    var candidates := ResolveRecipientCandidates(to, lookup);
    if candidates.Err? {
      return Failed(candidates.error), [];
    }
    CandidateList(NormalizeRecipient(to).value, lookup);
    outcome, tried := SendWithFallback(candidates.value, attempt);
  }

  // ---------- what addresses and errors look like ----------

  /** A blank recipient stays blank, one with an at sign is taken as it is, one without any digit is invalid, and any
      other becomes its digits with the private suffix. */
  lemma RecipientMeans(to: string)
    ensures Blank(to) ==> NormalizeRecipient(to) == Ok("")
    ensures !Blank(to) && (exists i :: 0 <= i < |Trim(to)| && Trim(to)[i] == '@') ==>
              NormalizeRecipient(to) == Ok(Trim(to))
    ensures !Blank(to) && (forall i :: 0 <= i < |Trim(to)| ==> Trim(to)[i] != '@') ==>
              NormalizeRecipient(to) ==
              if Digits(Trim(to)) == "" then Err("Invalid WhatsApp recipient.") else Ok(Digits(Trim(to)) + "@c.us")
  {
    TrimEmptyIffBlank(to);
    hide Trim, Digits;
  }

  /** For a private or LID address with a LID and a phone address at hand, all different, the order is the LID, the
      address itself, the phone address. */
  lemma CandidateOrder(recipient: string, lid: string, phone: string)
    requires EndsWith(recipient, "@c.us") || EndsWith(recipient, "@lid")
    requires !Blank(recipient) && !Blank(lid) && !Blank(phone)
    requires Trim(lid) != recipient && Trim(phone) != recipient && Trim(lid) != Trim(phone)
    requires !Blank(Trim(lid)) && !Blank(Trim(phone))
    ensures Filtered(Assembled(recipient, Identity(Some(lid), Some(phone)))) ==
            [Candidate(Trim(lid), Lid), Candidate(recipient, Normalized), Candidate(Trim(phone), Phone)]
  {
    TrimEmptyIffBlank(lid);
    TrimEmptyIffBlank(phone);
    TrimEmptyIffBlank(recipient);
    TrimEmptyIffBlank(Trim(lid));
    TrimEmptyIffBlank(Trim(phone));
    hide Trim, Blank, EndsWith, Filtered;
    var list := [Candidate(Trim(lid), Lid), Candidate(recipient, Normalized), Candidate(Trim(phone), Phone)];
    assert Assembled(recipient, Identity(Some(lid), Some(phone))) == list;
    AllKept(list);
  }

  lemma {:induction false} AllKept(list: seq<Candidate>)
    requires forall i :: 0 <= i < |list| ==> Kept(list, i)
    ensures Filtered(list) == list
  {
    hide Trim;
    if list != [] {
      var front := list[..|list| - 1];
      forall i | 0 <= i < |front| ensures Kept(front, i) {
        assert Kept(list, i);
      }
      AllKept(front);
      assert list == front + [list[|list| - 1]];
    }
  }

  /** Without an identity, or for any other address, the recipient itself is the only candidate. */
  lemma OnlyRecipient(recipient: string, lookup: Lookup)
    requires !Blank(recipient)
    requires !lookup.Identity? || !(EndsWith(recipient, "@c.us") || EndsWith(recipient, "@lid"))
    ensures Filtered(Assembled(recipient, lookup)) == [Candidate(recipient, Normalized)]
  {
    TrimEmptyIffBlank(recipient);
    hide Trim, Blank, EndsWith;
    AllKept([Candidate(recipient, Normalized)]);
  }

  /** `phrase` stands at `i`, whatever the case of ASCII letters. */
  predicate SaysAt(error: string, phrase: string, i: int) {
    0 <= i && i + |phrase| <= |error|
    && forall p :: 0 <= p < |phrase| ==>
         error[i + p] == phrase[p] || ('A' <= error[i + p] <= 'Z' && error[i + p] as int + 32 == phrase[p] as int)
  }

  predicate Says(error: string, phrase: string) {
    exists i {:trigger SaysAt(error, phrase, i)} :: 0 <= i <= |error| && SaysAt(error, phrase, i)
  }

  lemma {:induction false} LowerAt(s: string)
    ensures |Lower(s)| == |s|
    ensures forall i :: 0 <= i < |s| ==>
              Lower(s)[i] == if 'A' <= s[i] <= 'Z' then s[i] - 'A' + 'a' else s[i]
  {
    if s != "" {
      LowerAt(s[1..]);
    }
  }

  lemma SaysMeans(error: string, phrase: string)
    requires forall p :: 0 <= p < |phrase| ==> !('A' <= phrase[p] <= 'Z')
    ensures Contains(Lower(error), phrase) <==> Says(error, phrase)
  {
    hide Lower;
    LowerAt(error);
    var m := Lower(error);
    forall i {:trigger SaysAt(error, phrase, i)} ensures OccursAt(m, phrase, i) <==> SaysAt(error, phrase, i) {
      if 0 <= i && i + |phrase| <= |error| {
        forall p | 0 <= p < |phrase|
          ensures m[i + p] == phrase[p] <==>
                  error[i + p] == phrase[p]
                  || ('A' <= error[i + p] <= 'Z' && error[i + p] as int + 32 == phrase[p] as int)
        {
        }
      }
    }
    if i :| 0 <= i <= |m| && OccursAt(m, phrase, i) {
      assert SaysAt(error, phrase, i);
    }
    if i :| 0 <= i <= |error| && SaysAt(error, phrase, i) {
      assert OccursAt(m, phrase, i);
    }
  }

  /** An error lets the next candidate be tried exactly if it says one of three things, in any case. */
  lemma RetryableMeans(error: string)
    ensures Retryable(error) <==>
            Says(error, "no lid for user") || Says(error, "invalid wid") || Says(error, "invalid whatsapp recipient")
  {
    hide Lower, Contains, Says;
    SaysMeans(error, "no lid for user");
    SaysMeans(error, "invalid wid");
    SaysMeans(error, "invalid whatsapp recipient");
  }
}
