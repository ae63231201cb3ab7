/** What a history sync does message by message and chat by chat, in terms of what the client answers. */
module HistoryMeaning {
  import opened JsString
  import opened HistorySpec
  import opened HistoryTheorems
  import opened HistoryPrefixes

  // ---------- counters ----------

  ghost function Positions(ps: seq<Payload>, fromMe: bool): set<int> {
    set k | 0 <= k < |ps| && ps[k].fromMe == fromMe
  }

  lemma PositionsSnoc(ps: seq<Payload>, fromMe: bool)
    requires ps != []
    ensures var n := |ps| - 1;
            Positions(ps, fromMe) == Positions(ps[..n], fromMe) + if ps[n].fromMe == fromMe then {n} else {}
    ensures |ps| - 1 !in Positions(ps[..|ps| - 1], fromMe)
  {
    var n := |ps| - 1;
    var front := ps[..n];
    forall k ensures k in Positions(ps, fromMe)
                     <==> k in Positions(front, fromMe) || (k == n && ps[n].fromMe == fromMe)
    {
      if 0 <= k < n {
        assert front[k] == ps[k];
      }
    }
  }

  lemma {:induction false} DirectionCounts(ps: seq<Payload>)
    ensures CountOutbound(ps) == |Positions(ps, true)| && CountInbound(ps) == |Positions(ps, false)|
  {
    if ps != [] {
      hide Positions;
      DirectionCounts(ps[..|ps| - 1]);
      PositionsSnoc(ps, true);
      PositionsSnoc(ps, false);
    }
  }

  lemma {:induction false} MediaCounts(ps: seq<Payload>)
    ensures CountMedia(ps) == |set k | 0 <= k < |ps| && ps[k].hasMedia|
  {
    if ps != [] {
      var n := |ps| - 1;
      var front := ps[..n];
      MediaCounts(front);
      var before := set k | 0 <= k < |front| && front[k].hasMedia;
      var now := set k | 0 <= k < |ps| && ps[k].hasMedia;
      assert now == before + (if ps[n].hasMedia then {n} else {});
    }
  }

  /** The counters count: outbound are the messages from oneself, inbound all others, media those with media. */
  lemma CountsAreSizes(ps: seq<Payload>)
    ensures CountOutbound(ps) == |set k | 0 <= k < |ps| && ps[k].fromMe|
    ensures CountInbound(ps) == |set k | 0 <= k < |ps| && !ps[k].fromMe|
    ensures CountMedia(ps) == |set k | 0 <= k < |ps| && ps[k].hasMedia|
  {
    DirectionCounts(ps);
    MediaCounts(ps);
    assert Positions(ps, true) == set k | 0 <= k < |ps| && ps[k].fromMe;
    assert Positions(ps, false) == set k | 0 <= k < |ps| && !ps[k].fromMe;
  }

  /** The figures of a progress event. */
  lemma SnapshotMeans(total: nat, processed: nat, ps: seq<Payload>)
    ensures var p := Snapshot(total, processed, ps);
            && p.totalChats == total && p.processedChats == processed && p.messagesProcessed == |ps|
            && p.inboundMessages == |set k | 0 <= k < |ps| && !ps[k].fromMe|
            && p.outboundMessages == |set k | 0 <= k < |ps| && ps[k].fromMe|
            && p.mediaMessages == |set k | 0 <= k < |ps| && ps[k].hasMedia|
  {
    CountsAreSizes(ps);
  }

  // ---------- which messages are kept ----------

  /** One message is kept unless its chat is archived, it is not of a private chat, a group message, a status, a
      blank notification template without media, or a broadcast notification. */
  lemma KeptOne(p: Payload, needsRetry: bool)
    ensures Kept([Reading(p, needsRetry)]) ==
            if !p.isArchivedChat && p.isPrivateChat && !p.isGroupMsg && !p.isStatus
               && !(p.kind == "notification_template" && Blank(p.body) && !p.hasMedia)
               && !(p.broadcast && p.kind == "broadcast_notification")
            then [p] else []
    ensures FirstFailure([Reading(p, needsRetry)]).None?
  {
    IgnoredMeans(p);
    hide Ignored;
    var rs := [Reading(p, needsRetry)];
    assert rs[..0] == [] && FirstFailure(rs[..0]) == None;
    assert [] + [p] == [p];
  }

  lemma IgnoredMeans(p: Payload)
    ensures Ignored(p) <==>
            !(!p.isArchivedChat && p.isPrivateChat && !p.isGroupMsg && !p.isStatus
              && !(p.kind == "notification_template" && Blank(p.body) && !p.hasMedia)
              && !(p.broadcast && p.kind == "broadcast_notification"))
  {
    hide Trim;
    TrimEmptyIffBlank(p.body);
  }

  lemma FailingOne(e: string)
    ensures Kept([ReadFails(e)]) == [] && FirstFailure([ReadFails(e)]) == Some(e)
  {
    assert [ReadFails(e)][..0] == [];
  }

  /** Readings are kept one after the other, in order, up to the first that fails. */
  lemma {:induction false} KeptConcat(a: seq<Reading>, b: seq<Reading>)
    ensures FirstFailure(a).None? ==>
              FirstFailure(a + b) == FirstFailure(b) && Kept(a + b) == Kept(a) + Kept(b)
    ensures FirstFailure(a).Some? ==> FirstFailure(a + b) == FirstFailure(a) && Kept(a + b) == Kept(a)
  {
    if b == [] {
      assert a + b == a;
      assert Kept(a) + [] == Kept(a);
    } else {
      var n := |b| - 1;
      assert (a + b)[..|a + b| - 1] == a + b[..n];
      KeptConcat(a, b[..n]);
      var last := if FirstFailure(b).None? && !Ignored(b[n].payload) then [b[n].payload] else [];
      assert Kept(a) + Kept(b[..n]) + last == Kept(a) + (Kept(b[..n]) + last);
      assert Kept(a) + [] == Kept(a);
    }
  }

  lemma {:induction false} NoFailure(rs: seq<Reading>)
    ensures FirstFailure(rs).None? <==> forall k :: 0 <= k < |rs| ==> rs[k].Reading?
  {
    if rs != [] {
      NoFailure(rs[..|rs| - 1]);
    }
  }

  /** How a visit comes out: well if the chat is archived by then or every message can be read, asking for another
      visit if some message's contact is still open; else with the error that came first. */
  lemma VisitMeans(v: Visit)
    ensures v == ArchivedMeanwhile ==> OutcomeOf(v) == VisitOk(false) && SentBy(v) == [] && KeptBy(v) == []
    ensures forall e :: v == FetchFails(e) ==> OutcomeOf(v) == VisitFails(e) && SentBy(v) == [] && KeptBy(v) == []
    ensures v.Fetched? && (forall k :: 0 <= k < |v.readings| ==> v.readings[k].Reading?) ==>
              OutcomeOf(v) == VisitOk(exists k :: 0 <= k < |v.readings| && v.readings[k].needsRetry)
    ensures v.Fetched? ==> forall i :: 0 <= i < |v.readings| && v.readings[i].ReadFails?
                                       && (forall k :: 0 <= k < i ==> v.readings[k].Reading?) ==>
                                       OutcomeOf(v) == VisitFails(v.readings[i].error)
  {
    if v.Fetched? {
      NoFailure(v.readings);
      forall i | 0 <= i < |v.readings| && v.readings[i].ReadFails? && forall k :: 0 <= k < i ==> v.readings[k].Reading?
        ensures OutcomeOf(v) == VisitFails(v.readings[i].error)
      {
        NoFailure(v.readings[..i]);
        FailsAt(v.readings, i);
      }
    }
  }

  // ---------- which chats are synced ----------

  /** An id, trimmed, that ends in `@c.us` or `@lid`. */
  predicate HasPrivateSuffix(t: string) {
    (|t| >= 5 && t[|t| - 5..] == "@c.us") || (|t| >= 4 && t[|t| - 4..] == "@lid")
  }

  lemma SuffixMeans(t: string)
    ensures HasPrivateSuffix(t) <==> EndsWith(t, "@c.us") || EndsWith(t, "@lid")
    ensures HasPrivateSuffix(t) ==> t != ""
  {
    assert |"@c.us"| == 5 && |"@lid"| == 4;
  }

  /** One chat is eligible if it is not archived and its id, trimmed, ends in `@c.us` or `@lid`. */
  lemma EligibleOne(c: ChatInfo)
    ensures EligibleIds([c]) ==
            if c.id.Some? && !c.archived && HasPrivateSuffix(Trim(c.id.value)) then [c.id.value] else []
  {
    hide Trim, EndsWith, HasPrivateSuffix;
    if c.id.Some? {
      SuffixMeans(Trim(c.id.value));
    }
    assert [c][..0] == [] && EligibleIds([]) == [];
    assert IsEligible(c) ==> [] + [c.id.value] == [c.id.value];
  }

  /** Eligible chats are taken one after the other, in order. */
  lemma {:induction false} EligibleConcat(a: seq<ChatInfo>, b: seq<ChatInfo>)
    ensures EligibleIds(a + b) == EligibleIds(a) + EligibleIds(b)
  {
    if b == [] {
      assert a + b == a;
    } else {
      var n := |b| - 1;
      assert (a + b)[..|a + b| - 1] == a + b[..n];
      EligibleConcat(a, b[..n]);
    }
  }

  // ---------- which visits are made ----------

  lemma {:induction false} VisitsOfMembers(chats: seq<nat>, pass: nat, v: VisitAt)
    ensures v in VisitsOf(chats, pass) <==> v.pass == pass && v.chat in chats
  {
    if chats != [] {
      var n := |chats| - 1;
      VisitsOfMembers(chats[..n], pass, v);
      assert chats == chats[..n] + [chats[n]];
    }
  }

  lemma {:induction false} ScheduleMembers(w: World, passes: nat, v: VisitAt)
    ensures v in Schedule(w, passes) <==> v.pass < passes && v.chat in Pending(w, v.pass)
  {
    if passes > 0 {
      ScheduleMembers(w, passes - 1, v);
      VisitsOfMembers(Pending(w, passes - 1), passes - 1, v);
    }
  }

  /** Every eligible chat is visited in the first pass. It is visited again in the next pass exactly if there is one
      and every message could be read but some contact was still open. */
  lemma RevisitedExactly(w: World, chat: nat, pass: nat)
    ensures VisitAt(chat, 0) in Schedule(w, MAX_PASSES) <==> chat < |w.chatIds|
    ensures VisitAt(chat, pass + 1) in Schedule(w, MAX_PASSES) <==>
            && pass < 2
            && VisitAt(chat, pass) in Schedule(w, MAX_PASSES)
            && var v := w.visit(chat, pass);
               v.Fetched? && (forall k :: 0 <= k < |v.readings| ==> v.readings[k].Reading?)
               && exists k :: 0 <= k < |v.readings| && v.readings[k].needsRetry
  {
    hide Schedule;
    ScheduleMembers(w, MAX_PASSES, VisitAt(chat, 0));
    ScheduleMembers(w, MAX_PASSES, VisitAt(chat, pass));
    ScheduleMembers(w, MAX_PASSES, VisitAt(chat, pass + 1));
    AllChatsShape(|w.chatIds|);
    if chat < |w.chatIds| {
      assert AllChats(|w.chatIds|)[chat] == chat;
    }
    PendingNoRepeats(w, pass);
    RequeuedSubset(w, Pending(w, pass), pass);
    RetryMeans(w.visit(chat, pass));
  }

  lemma RetryMeans(v: Visit)
    ensures OutcomeOf(v) == VisitOk(true) <==>
            && v.Fetched? && (forall k :: 0 <= k < |v.readings| ==> v.readings[k].Reading?)
            && exists k :: 0 <= k < |v.readings| && v.readings[k].needsRetry
  {
    if v.Fetched? {
      NoFailure(v.readings);
    }
  }

  // ---------- what the visits add up to ----------

  /** The synced chats are those that some visit went well for. */
  lemma {:induction false} SyncedExactly(w: World, vs: seq<VisitAt>, id: string)
    ensures id in Synced(w, vs) <==>
            exists k :: 0 <= k < |vs| && IdOf(w, vs[k].chat) == id
                        && OutcomeOf(w.visit(vs[k].chat, vs[k].pass)).VisitOk?
  {
    if vs != [] {
      var n := |vs| - 1;
      SyncedExactly(w, vs[..n], id);
      if k :| 0 <= k < n && IdOf(w, vs[k].chat) == id && OutcomeOf(w.visit(vs[k].chat, vs[k].pass)).VisitOk? {
        assert vs[..n][k] == vs[k];
      }
    }
  }

  /** The errors are those of the visits that failed, one for each, in order. */
  lemma {:induction false} ErrorsConcat(w: World, a: seq<VisitAt>, b: seq<VisitAt>)
    ensures Errors(w, a + b) == Errors(w, a) + Errors(w, b)
  {
    if b == [] {
      assert a + b == a;
    } else {
      var n := |b| - 1;
      assert (a + b)[..|a + b| - 1] == a + b[..n];
      ErrorsConcat(w, a, b[..n]);
    }
  }

  lemma ErrorsOfOne(w: World, v: VisitAt)
    ensures Errors(w, [v]) == match OutcomeOf(w.visit(v.chat, v.pass))
                              case VisitFails(e) => [SyncError(IdOf(w, v.chat), e)]
                              case VisitOk(_) => []
  {
    assert [v][..0] == [];
  }

  /** Every visit sends its batches right after those of the visits before it. */
  lemma SentInOrder(w: World, vs: seq<VisitAt>, k: nat)
    requires k < |vs|
    ensures Sent(w, vs[..k]) + SentBy(w.visit(vs[k].chat, vs[k].pass)) <= Sent(w, vs)
  {
    assert vs[..k + 1] == vs[..k] + [vs[k]];
    DoneSnoc(w, vs[..k], vs[k]);
    SentPrefix(w, vs, k + 1);
  }

  /** What the first visits of the first `n` chats keep. */
  function FirstVisitMessages(w: World, n: nat): seq<Payload> {
    if n == 0 then [] else FirstVisitMessages(w, n - 1) + KeptBy(w.visit(n - 1, 0))
  }

  lemma {:induction false} DiscoveredConcat(w: World, a: seq<VisitAt>, b: seq<VisitAt>)
    ensures Discovered(w, a + b) == Discovered(w, a) + Discovered(w, b)
  {
    if b == [] {
      assert a + b == a;
    } else {
      var n := |b| - 1;
      assert (a + b)[..|a + b| - 1] == a + b[..n];
      DiscoveredConcat(w, a, b[..n]);
    }
  }

  lemma {:induction false} RetriesDiscoverNothing(w: World, chats: seq<nat>, pass: nat)
    requires pass > 0
    ensures Discovered(w, VisitsOf(chats, pass)) == []
  {
    if chats != [] {
      var vs := VisitsOf(chats, pass);
      assert vs[..|vs| - 1] == VisitsOf(chats[..|chats| - 1], pass);
      RetriesDiscoverNothing(w, chats[..|chats| - 1], pass);
    }
  }

  lemma {:induction false} FirstPassDiscovers(w: World, n: nat)
    ensures Discovered(w, VisitsOf(AllChats(n), 0)) == FirstVisitMessages(w, n)
  {
    if n > 0 {
      FirstPassDiscovers(w, n - 1);
      var chats := AllChats(n);
      assert chats[..|chats| - 1] == AllChats(n - 1);
      var vs := VisitsOf(chats, 0);
      assert vs[..|vs| - 1] == VisitsOf(AllChats(n - 1), 0);
    }
  }

  lemma NothingYet(w: World)
    ensures Discovered(w, []) == [] && Pending(w, 0) == AllChats(|w.chatIds|)
  {
  }

  /** A message is discovered once: what a sync discovers is what the first visit of each chat keeps, in order. */
  lemma {:induction false} DiscoveredOnce(w: World, passes: nat)
    requires passes >= 1
    ensures Discovered(w, Schedule(w, passes)) == FirstVisitMessages(w, |w.chatIds|)
  {
    hide Discovered, Pending, VisitsOf, FirstVisitMessages;
    DiscoveredConcat(w, Schedule(w, passes - 1), VisitsOf(Pending(w, passes - 1), passes - 1));
    if passes == 1 {
      NothingYet(w);
      FirstPassDiscovers(w, |w.chatIds|);
    } else {
      DiscoveredOnce(w, passes - 1);
      RetriesDiscoverNothing(w, Pending(w, passes - 1), passes - 1);
    }
  }
}
