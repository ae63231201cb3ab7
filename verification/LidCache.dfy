/** Resolving a peer's contact, with the cache from LIDs to phone addresses. */
module LidCache {
  import opened JsString
  import opened BrazilPhone

  /** `formatted` is what `getFormattedNumber` answers: nothing when it is missing or fails. */
  datatype Contact = Contact(number: Option<string>, formatted: Option<string>)

  datatype Resolved = Resolved(contact: Option<Contact>, phoneJid: Option<string>, phoneNumber: Option<string>)

  datatype Identity = LookupFails | Identity(pn: Option<string>)

  /** A directory with fixed answers; a failing contact lookup reads as no contact. */
  datatype Directory = Directory(identity: string -> Identity, contactById: string -> Option<Contact>)

  function OrElse<T>(a: Option<T>, b: Option<T>): Option<T> {
    if a.Some? then a else b
  }

  function NumberOf(c: Option<Contact>): Option<string> {
    if c.Some? then GatewayDigits(c.value.number) else None
  }

  function FormattedOf(c: Option<Contact>): Option<string> {
    if c.Some? then GatewayDigits(c.value.formatted) else None
  }

  /** `resolvedIdentity?.pn?.trim() || null`. */
  function PhoneJid(i: Identity): Option<string>
    requires i.Identity?
  {
    if i.pn.Some? && Trim(i.pn.value) != "" then Some(Trim(i.pn.value)) else None
  }

  function ContactAt(dir: Directory, phoneJid: Option<string>): Option<Contact> {
    if phoneJid.Some? then dir.contactById(phoneJid.value) else None
  }

  /** The lookup of a LID without any cache. */
  function FreshLid(dir: Directory, lid: string, contact: Option<Contact>): Resolved {
    match dir.identity(lid)
    case LookupFails => Resolved(contact, None, NumberOf(contact))
    case Identity(_) =>
      var phoneJid := PhoneJid(dir.identity(lid));
      var found := ContactAt(dir, phoneJid);
      Resolved(OrElse(found, contact), phoneJid,
               OrElse(NumberOf(found), OrElse(FormattedOf(found), GatewayDigits(phoneJid))))
  }

  /** What a cached phone address leads to. */
  function Hit(dir: Directory, phoneJid: string, contact: Option<Contact>): Resolved {
    var found := dir.contactById(phoneJid);
    Resolved(OrElse(found, contact), Some(phoneJid), OrElse(NumberOf(found), GatewayDigits(Some(phoneJid))))
  }

  /** The whole lookup without any cache. */
  function Fresh(dir: Directory, peerJid: Option<string>, contact: Option<Contact>): Resolved {
    var peer := Trim(OrEmpty(peerJid));
    if peer == "" then Resolved(contact, None, NumberOf(contact))
    else if !EndsWith(peer, "@lid") then
      Resolved(contact, Some(peer), OrElse(NumberOf(contact), GatewayDigits(Some(peer))))
    else FreshLid(dir, peer, contact)
  }

  /** The two answers name the same phone number: the contact's number settles it, or the formatted number
      gives nothing usable, or it gives what the phone address gives. */
  predicate NumbersAgree(dir: Directory, phoneJid: string) {
    var found := dir.contactById(phoneJid);
    NumberOf(found).Some? || FormattedOf(found).None? || FormattedOf(found) == GatewayDigits(Some(phoneJid))
  }

  /** A LID worth remembering: the directory gives it a phone address that leads to a phone number. */
  predicate Usable(dir: Directory, lid: string) {
    && EndsWith(lid, "@lid")
    && dir.identity(lid).Identity?
    && PhoneJid(dir.identity(lid)).Some?
    && FreshLid(dir, lid, None).phoneNumber.Some?
  }

  /** A hit gives the contact and phone address of a fresh lookup, and its phone number exactly when the numbers
      agree. */
  lemma HitAgreesIff(dir: Directory, lid: string, contact: Option<Contact>)
    requires Usable(dir, lid)
    ensures var phoneJid := PhoneJid(dir.identity(lid)).value;
            var hit := Hit(dir, phoneJid, contact);
            && hit.contact == FreshLid(dir, lid, contact).contact
            && hit.phoneJid == FreshLid(dir, lid, contact).phoneJid
            && (hit.phoneNumber == FreshLid(dir, lid, contact).phoneNumber <==> NumbersAgree(dir, phoneJid))
  {
  }

  /** A directory in which the contact has no number and its formatted number is not that of the phone address. */
  function DisagreeingDirectory(formatted: string, phone: string): Directory {
    Directory(_ => Identity(Some(phone + "@c.us")), _ => Some(Contact(None, Some(formatted))))
  }

  lemma TrimBare(s: string)
    requires s != "" && !IsSpace(s[0]) && !IsSpace(s[|s| - 1])
    ensures Trim(s) == s
  {
  }

  lemma SuffixHasNoDigits()
    ensures Digits("@c.us") == ""
  {
    hide Digits;
    assert "@c.us" == ['@'] + (['c'] + (['.'] + (['u'] + (['s'] + ""))));
    DigitsCons('@', ['c'] + (['.'] + (['u'] + (['s'] + ""))));
    DigitsCons('c', ['.'] + (['u'] + (['s'] + "")));
    DigitsCons('.', ['u'] + (['s'] + ""));
    DigitsCons('u', ['s'] + "");
    DigitsCons('s', "");
    DigitsOfDigits("");
  }

  lemma PhoneJidDigits(phone: string)
    requires AllDigits(phone) && |phone| == 11
    ensures GatewayDigits(Some(phone)) == Some(COUNTRY + phone)
    ensures GatewayDigits(Some(phone + "@c.us")) == Some(COUNTRY + phone)
    ensures Trim(phone + "@c.us") == phone + "@c.us"
  {
    DigitsOfDigits(phone);
    SuffixHasNoDigits();
    DigitsConcat(phone, "@c.us");
    hide Digits;
    assert phone + "" == phone;
    assert IsDigit(phone[0]);
    TrimBare(phone + "@c.us");
  }

  lemma SamePrefix(a: string, b: string)
    requires COUNTRY + a == COUNTRY + b
    ensures a == b
  {
    assert (COUNTRY + a)[2..] == a && (COUNTRY + b)[2..] == b;
  }

  /** There the first lookup of a LID answers one number and the second, from the cache, another. */
  lemma CachedNumberMayDiffer(lid: string, formatted: string, phone: string)
    requires AllDigits(formatted) && AllDigits(phone) && |formatted| == |phone| == 11 && formatted != phone
    requires EndsWith(lid, "@lid")
    ensures var dir := DisagreeingDirectory(formatted, phone);
            && Usable(dir, lid) && PhoneJid(dir.identity(lid)) == Some(phone + "@c.us")
            && FreshLid(dir, lid, None).phoneNumber == Some(COUNTRY + formatted)
            && Hit(dir, phone + "@c.us", None).phoneNumber == Some(COUNTRY + phone)
            && COUNTRY + formatted != COUNTRY + phone
  {
    hide Digits, Trim, GatewayDigits, EndsWith, AllDigits;
    PhoneJidDigits(formatted);
    PhoneJidDigits(phone);
    NoNumber();
    if COUNTRY + formatted == COUNTRY + phone {
      SamePrefix(formatted, phone);
    }
  }

  lemma NoNumber()
    ensures GatewayDigits(None) == None
  {
  }

  /** The cache after one lookup. */
  function Remember(dir: Directory, entries: map<string, string>, peerJid: Option<string>): map<string, string> {
    var lid := Trim(OrEmpty(peerJid));
    if lid !in entries && Usable(dir, lid) then entries[lid := PhoneJid(dir.identity(lid)).value] else entries
  }

  lemma UsableHasPhone(dir: Directory, lid: string)
    ensures Usable(dir, lid) ==> dir.identity(lid).Identity? && PhoneJid(dir.identity(lid)).Some?
  {
  }

  function CacheAfter(dir: Directory, lookups: seq<Option<string>>): map<string, string> {
    if lookups == [] then map[]
    else Remember(dir, CacheAfter(dir, lookups[..|lookups| - 1]), lookups[|lookups| - 1])
  }

  function LidsLookedUp(lookups: seq<Option<string>>): set<string> {
    set p | p in lookups :: Trim(OrEmpty(p))
  }

  /** Whatever was looked up, the cache holds exactly the usable LIDs among it, each with the directory's own
      phone address. */
  lemma {:induction false} CacheHoldsExactly(dir: Directory, lookups: seq<Option<string>>, lid: string)
    ensures lid in CacheAfter(dir, lookups) <==> lid in LidsLookedUp(lookups) && Usable(dir, lid)
    ensures lid in CacheAfter(dir, lookups) ==>
              Some(CacheAfter(dir, lookups)[lid]) == PhoneJid(dir.identity(lid))
  {
    if lookups != [] {
      hide Usable, Trim;
      var n := |lookups| - 1;
      CacheHoldsExactly(dir, lookups[..n], lid);
      UsableHasPhone(dir, Trim(OrEmpty(lookups[n])));
      assert lookups == lookups[..n] + [lookups[n]];
      assert LidsLookedUp(lookups) == LidsLookedUp(lookups[..n]) + {Trim(OrEmpty(lookups[n]))};
    }
  }

  class LidPhoneCache {
    var entries: map<string, string>

    /** Every cached entry is the directory's own phone address for that LID. */
    ghost predicate Agrees(dir: Directory)
      reads this
    {
      forall lid :: lid in entries ==>
        EndsWith(lid, "@lid") && dir.identity(lid).Identity? && PhoneJid(dir.identity(lid)) == Some(entries[lid])
    }

    constructor ()
      ensures entries == map[]
    {
      entries := map[];
    }

    method ResolvePeerContact(dir: Directory, peerJid: Option<string>, contact: Option<Contact>) returns (r: Resolved)
      requires Agrees(dir)
      modifies this
      ensures Agrees(dir)
      // same contact and phone address as without the cache
      ensures r.contact == Fresh(dir, peerJid, contact).contact && r.phoneJid == Fresh(dir, peerJid, contact).phoneJid
      // same phone number on a miss, and on a hit exactly when the numbers agree
      ensures var lid := Trim(OrEmpty(peerJid));
              if lid in old(entries)
              then r.phoneNumber == Fresh(dir, peerJid, contact).phoneNumber <==> NumbersAgree(dir, old(entries)[lid])
              else r == Fresh(dir, peerJid, contact)
      ensures Trim(OrEmpty(peerJid)) in old(entries) ==>
                r == Hit(dir, old(entries)[Trim(OrEmpty(peerJid))], contact)
      ensures entries == Remember(dir, old(entries), peerJid)
    {
      var peer := Trim(OrEmpty(peerJid));
      if peer == "" {
        return Resolved(contact, None, NumberOf(contact));
      }
      if !EndsWith(peer, "@lid") {
        return Resolved(contact, Some(peer), OrElse(NumberOf(contact), GatewayDigits(Some(peer))));
      }
      if peer in entries {
        var cached := entries[peer];
        var found := dir.contactById(cached);
        return Resolved(OrElse(found, contact), Some(cached), OrElse(NumberOf(found), GatewayDigits(Some(cached))));
      }
      match dir.identity(peer) {
        case LookupFails =>
          return Resolved(contact, None, NumberOf(contact));
        case Identity(_) =>
          var phoneJid := PhoneJid(dir.identity(peer));
          var found := ContactAt(dir, phoneJid);
          var phone := OrElse(NumberOf(found), OrElse(FormattedOf(found), GatewayDigits(phoneJid)));
          if phoneJid.Some? && phone.Some? {
            entries := entries[peer := phoneJid.value];
          }
          return Resolved(OrElse(found, contact), phoneJid, phone);
      }
    }
  }

  // ---------- where contact, address and number come from ----------

  /** Without an address the contact given is all there is; an address that is not a LID is the phone address, and its
      digits stand in for a missing contact number. */
  lemma PlainPeerMeans(dir: Directory, peerJid: Option<string>, contact: Option<Contact>)
    ensures var peer, r := Trim(OrEmpty(peerJid)), Fresh(dir, peerJid, contact);
            var own := if contact.Some? then GatewayDigits(contact.value.number) else None;
            && (peer == "" ==> r.contact == contact && r.phoneJid == None && r.phoneNumber == own)
            && (peer != "" && !EndsWith(peer, "@lid") ==>
                  && r.contact == contact && r.phoneJid == Some(peer)
                  && r.phoneNumber == if own.Some? then own else GatewayDigits(Some(peer)))
  {
  }

  /** A LID leads to the directory's phone address, trimmed, and to the contact found there; its phone number is the
      found contact's number, else its formatted number, else the digits of the phone address. */
  lemma LidMeans(dir: Directory, lid: string, contact: Option<Contact>)
    requires dir.identity(lid).Identity?
    ensures var pn, r := dir.identity(lid).pn, FreshLid(dir, lid, contact);
            if pn.None? || Blank(pn.value) then r == Resolved(contact, None, None)
            else
              var found := dir.contactById(Trim(pn.value));
              && r.phoneJid == Some(Trim(pn.value))
              && r.contact == (if found.Some? then found else contact)
              && r.phoneNumber ==
                 if found.Some? && GatewayDigits(found.value.number).Some? then GatewayDigits(found.value.number)
                 else if found.Some? && GatewayDigits(found.value.formatted).Some?
                 then GatewayDigits(found.value.formatted)
                 else GatewayDigits(Some(Trim(pn.value)))
  {
    if dir.identity(lid).pn.Some? {
      TrimEmptyIffBlank(dir.identity(lid).pn.value);
    }
    NoNumber();
    hide Trim, Blank, GatewayDigits;
  }

  /** A failing lookup leaves the contact given and its number. */
  lemma FailedLookupMeans(dir: Directory, lid: string, contact: Option<Contact>)
    requires dir.identity(lid).LookupFails?
    ensures FreshLid(dir, lid, contact)
         == Resolved(contact, None, if contact.Some? then GatewayDigits(contact.value.number) else None)
  {
  }

  /** A hit leads to the contact at the cached address; its phone number is that contact's number, else the digits of
      the cached address. */
  lemma HitMeans(dir: Directory, phoneJid: string, contact: Option<Contact>)
    ensures var found, r := dir.contactById(phoneJid), Hit(dir, phoneJid, contact);
            && r.phoneJid == Some(phoneJid) && r.contact == (if found.Some? then found else contact)
            && r.phoneNumber ==
               if found.Some? && GatewayDigits(found.value.number).Some? then GatewayDigits(found.value.number)
               else GatewayDigits(Some(phoneJid))
  {
  }

  /** A LID is remembered exactly if the directory knows a phone address for it and some number comes of it. */
  lemma UsableMeans(dir: Directory, lid: string)
    ensures Usable(dir, lid) <==>
            && EndsWith(lid, "@lid") && dir.identity(lid).Identity?
            && dir.identity(lid).pn.Some? && !Blank(dir.identity(lid).pn.value)
            && var pn := Trim(dir.identity(lid).pn.value);
               var found := dir.contactById(pn);
               || (found.Some? && GatewayDigits(found.value.number).Some?)
               || (found.Some? && GatewayDigits(found.value.formatted).Some?)
               || GatewayDigits(Some(pn)).Some?
  {
    if dir.identity(lid).Identity? {
      LidMeans(dir, lid, None);
      if dir.identity(lid).pn.Some? {
        TrimEmptyIffBlank(dir.identity(lid).pn.value);
      }
    }
    hide Trim, Blank, GatewayDigits, FreshLid, EndsWith;
  }
}
