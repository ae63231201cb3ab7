/** What holds of every undisturbed history sync, whatever the client answers. */
module HistoryTheorems {
  import opened JsString
  import opened HistorySpec

  // ---------- batches ----------

  lemma {:induction false} FlattenConcat(a: seq<seq<Payload>>, b: seq<seq<Payload>>)
    ensures Flatten(a + b) == Flatten(a) + Flatten(b)
  {
    if b == [] {
      assert a + b == a;
    } else {
      var n := |b| - 1;
      FlattenConcat(a, b[..n]);
      assert (a + b)[..|a + b| - 1] == a + b[..n];
      assert Flatten(a) + Flatten(b[..n]) + b[n] == Flatten(a) + (Flatten(b[..n]) + b[n]);
    }
  }

  lemma FlattenOne(b: seq<Payload>)
    ensures Flatten([b]) == b
  {
    assert [b][..0] == [];
    assert [] + b == b;
  }

  lemma {:induction false} FullBatchesAndLeftover(ps: seq<Payload>)
    ensures Flatten(FullBatches(ps)) + Leftover(ps) == ps
    ensures |Leftover(ps)| < BATCH_SIZE
    ensures forall k :: 0 <= k < |FullBatches(ps)| ==> |FullBatches(ps)[k]| == BATCH_SIZE
    decreases |ps|
  {
    if |ps| < BATCH_SIZE {
      assert [] + ps == ps;
    } else {
      var first, rest := ps[..BATCH_SIZE], ps[BATCH_SIZE..];
      FullBatchesAndLeftover(rest);
      FlattenConcat([first], FullBatches(rest));
      FlattenOne(first);
      assert first + Flatten(FullBatches(rest)) + Leftover(rest)
          == first + (Flatten(FullBatches(rest)) + Leftover(rest));
      assert first + rest == ps;
    }
  }

  /** Batching is plain concatenation: the batches hold exactly the messages, in order, one to fifty each, and all
      but the last hold exactly fifty. */
  lemma BatchesPartition(ps: seq<Payload>)
    ensures Flatten(Batches(ps)) == ps
    ensures forall k :: 0 <= k < |Batches(ps)| ==> 1 <= |Batches(ps)[k]| <= 50
    ensures forall k :: 0 <= k < |Batches(ps)| - 1 ==> |Batches(ps)[k]| == 50
  {
    FullBatchesAndLeftover(ps);
    var last := if Leftover(ps) == [] then [] else [Leftover(ps)];
    FlattenConcat(FullBatches(ps), last);
    if last != [] {
      FlattenOne(Leftover(ps));
    }
  }

  /** Appending one message to a list either starts filling the next batch or completes one. */
  lemma {:induction false} BatchSnoc(ps: seq<Payload>, p: Payload)
    ensures if |Leftover(ps)| + 1 < BATCH_SIZE
            then FullBatches(ps + [p]) == FullBatches(ps) && Leftover(ps + [p]) == Leftover(ps) + [p]
            else FullBatches(ps + [p]) == FullBatches(ps) + [Leftover(ps) + [p]] && Leftover(ps + [p]) == []
    decreases |ps|
  {
    var qs := ps + [p];
    FullBatchesAndLeftover(ps);
    if |ps| < BATCH_SIZE {
      if |qs| == BATCH_SIZE {
        assert qs[..BATCH_SIZE] == qs && qs[BATCH_SIZE..] == [];
        assert FullBatches(qs) == [qs] + FullBatches([]);
        assert [] + [qs] == [qs];
      }
    } else {
      var first, rest := ps[..BATCH_SIZE], ps[BATCH_SIZE..];
      BatchSnoc(rest, p);
      assert qs[..BATCH_SIZE] == first && qs[BATCH_SIZE..] == rest + [p];
      assert [first] + (FullBatches(rest) + [Leftover(rest) + [p]])
          == [first] + FullBatches(rest) + [Leftover(rest) + [p]];
    }
  }

  /** A visit that succeeds sends exactly its kept messages; one that fails keeps back at most forty-nine. */
  lemma VisitConserves(v: Visit)
    ensures OutcomeOf(v).VisitOk? ==> Flatten(SentBy(v)) == KeptBy(v)
    ensures OutcomeOf(v).VisitFails? ==>
              |Flatten(SentBy(v))| <= |KeptBy(v)| <= |Flatten(SentBy(v))| + 49
    ensures forall k :: 0 <= k < |SentBy(v)| ==> 1 <= |SentBy(v)[k]| <= 50
  {
    if v.Fetched? {
      BatchesPartition(Kept(v.readings));
      FullBatchesAndLeftover(Kept(v.readings));
    }
  }

  // ---------- message counters ----------

  lemma {:induction false} InboundPlusOutbound(ps: seq<Payload>)
    ensures CountInbound(ps) + CountOutbound(ps) == |ps|
    ensures CountMedia(ps) <= |ps|
  {
    if ps != [] {
      InboundPlusOutbound(ps[..|ps| - 1]);
    }
  }

  /** Over any list of visits, what was discovered was emitted, but for at most forty-nine messages per error. */
  lemma {:induction false} DiscoveredIsEmitted(w: World, vs: seq<VisitAt>)
    ensures |Discovered(w, vs)| <= |Flatten(Sent(w, vs))| + 49 * |Errors(w, vs)|
  {
    if vs != [] {
      var n := |vs| - 1;
      var v := w.visit(vs[n].chat, vs[n].pass);
      DiscoveredIsEmitted(w, vs[..n]);
      VisitConserves(v);
      FlattenConcat(Sent(w, vs[..n]), SentBy(v));
    }
  }

  /** An error-free list of first visits emits exactly what it discovers, in order. */
  lemma {:induction false} FirstVisitsEmitExactly(w: World, vs: seq<VisitAt>)
    requires Errors(w, vs) == [] && forall k :: 0 <= k < |vs| ==> vs[k].pass == 0
    ensures Flatten(Sent(w, vs)) == Discovered(w, vs)
  {
    if vs != [] {
      var n := |vs| - 1;
      var v := w.visit(vs[n].chat, vs[n].pass);
      assert OutcomeOf(v).VisitOk? && Errors(w, vs[..n]) == [];
      FirstVisitsEmitExactly(w, vs[..n]);
      VisitConserves(v);
      FlattenConcat(Sent(w, vs[..n]), SentBy(v));
    }
  }

  // ---------- lists of visits ----------

  lemma {:induction false} ProcessedConcat(w: World, a: seq<VisitAt>, b: seq<VisitAt>)
    ensures Processed(w, a + b) == Processed(w, a) + Processed(w, b)
  {
    if b == [] {
      assert a + b == a;
    } else {
      assert (a + b)[..|a + b| - 1] == a + b[..|b| - 1];
      ProcessedConcat(w, a, b[..|b| - 1]);
    }
  }

  lemma {:induction false} VisitsOfLength(chats: seq<nat>, pass: nat)
    ensures |VisitsOf(chats, pass)| == |chats|
    ensures forall k :: 0 <= k < |chats| ==> VisitsOf(chats, pass)[k] == VisitAt(chats[k], pass)
  {
    if chats != [] {
      VisitsOfLength(chats[..|chats| - 1], pass);
    }
  }

  lemma {:induction false} AllChatsShape(n: nat)
    ensures |AllChats(n)| == n && forall k :: 0 <= k < n ==> AllChats(n)[k] == k
  {
    if n > 0 {
      AllChatsShape(n - 1);
    }
  }

  /** Every visit of a pass either finishes its chat or puts it back in the queue. */
  lemma {:induction false} PassSplits(w: World, chats: seq<nat>, pass: nat)
    ensures Processed(w, VisitsOf(chats, pass)) + |RequeuedOf(w, chats, pass)| == |chats|
  {
    if chats != [] {
      PassSplits(w, chats[..|chats| - 1], pass);
      var vs := VisitsOf(chats, pass);
      assert vs[..|vs| - 1] == VisitsOf(chats[..|chats| - 1], pass);
    }
  }

  /** Before pass `p`, every eligible chat is either done with or pending. */
  lemma {:induction false} PassAccounting(w: World, pass: nat)
    ensures Processed(w, Schedule(w, pass)) + |Pending(w, pass)| == |w.chatIds|
  {
    if pass == 0 {
      AllChatsShape(|w.chatIds|);
    } else {
      PassAccounting(w, pass - 1);
      PassSplits(w, Pending(w, pass - 1), pass - 1);
      ProcessedConcat(w, Schedule(w, pass - 1), VisitsOf(Pending(w, pass - 1), pass - 1));
    }
  }

  /** At every step: processed chats, chats still pending in this pass and chats put back add up to the eligible. */
  lemma ChatAccounting(w: World, pass: nat, k: nat)
    requires k <= |Pending(w, pass)|
    ensures var chats := Pending(w, pass);
            Processed(w, Schedule(w, pass) + VisitsOf(chats[..k], pass)) + (|chats| - k)
            + |RequeuedOf(w, chats[..k], pass)| == |w.chatIds|
  {
    PassAccounting(w, pass);
    PassSplits(w, Pending(w, pass)[..k], pass);
    ProcessedConcat(w, Schedule(w, pass), VisitsOf(Pending(w, pass)[..k], pass));
  }

  lemma {:induction false} LastPassRequeuesNothing(w: World, chats: seq<nat>, pass: nat)
    requires pass + 1 >= MAX_PASSES
    ensures RequeuedOf(w, chats, pass) == []
  {
    if chats != [] {
      LastPassRequeuesNothing(w, chats[..|chats| - 1], pass);
    }
  }

  /** After the last pass every eligible chat has been processed, none twice. */
  lemma SyncProcessesEveryChat(w: World)
    ensures Pending(w, MAX_PASSES) == []
    ensures Processed(w, Schedule(w, MAX_PASSES)) == |w.chatIds|
  {
    LastPassRequeuesNothing(w, Pending(w, MAX_PASSES - 1), MAX_PASSES - 1);
    PassAccounting(w, MAX_PASSES);
  }

  /** An empty queue ends the sync: later passes visit nothing. */
  lemma {:induction false} EmptyQueueStays(w: World, pass: nat, later: nat)
    requires Pending(w, pass) == [] && pass <= later
    ensures Pending(w, later) == [] && Schedule(w, later) == Schedule(w, pass)
    decreases later
  {
    if pass < later {
      EmptyQueueStays(w, pass, later - 1);
      assert Schedule(w, later - 1) + [] == Schedule(w, later - 1);
    }
  }

  // ---------- visits and errors per chat ----------

  function CountVisits(vs: seq<VisitAt>, chat: nat): nat {
    if vs == [] then 0 else CountVisits(vs[..|vs| - 1], chat) + if vs[|vs| - 1].chat == chat then 1 else 0
  }

  function CountFailures(w: World, vs: seq<VisitAt>, chat: nat): nat {
    if vs == [] then 0
    else
      var v := vs[|vs| - 1];
      CountFailures(w, vs[..|vs| - 1], chat)
      + if v.chat == chat && OutcomeOf(w.visit(v.chat, v.pass)).VisitFails? then 1 else 0
  }

  lemma {:induction false} CountsConcat(w: World, a: seq<VisitAt>, b: seq<VisitAt>, chat: nat)
    ensures CountVisits(a + b, chat) == CountVisits(a, chat) + CountVisits(b, chat)
    ensures CountFailures(w, a + b, chat) == CountFailures(w, a, chat) + CountFailures(w, b, chat)
  {
    if b == [] {
      assert a + b == a;
    } else {
      assert (a + b)[..|a + b| - 1] == a + b[..|b| - 1];
      CountsConcat(w, a, b[..|b| - 1], chat);
    }
  }

  ghost predicate NoRepeats(chats: seq<nat>) {
    forall a, b :: 0 <= a < b < |chats| ==> chats[a] != chats[b]
  }

  lemma {:induction false} RequeuedSubset(w: World, chats: seq<nat>, pass: nat)
    requires NoRepeats(chats)
    ensures NoRepeats(RequeuedOf(w, chats, pass))
    ensures forall c :: c in RequeuedOf(w, chats, pass) <==> c in chats && Requeued(w, VisitAt(c, pass))
  {
    if chats != [] {
      var n := |chats| - 1;
      var front := chats[..n];
      RequeuedSubset(w, front, pass);
      assert chats == front + [chats[n]];
      assert chats[n] !in front;
    }
  }

  lemma {:induction false} PendingNoRepeats(w: World, pass: nat)
    ensures NoRepeats(Pending(w, pass))
  {
    if pass == 0 {
      AllChatsShape(|w.chatIds|);
    } else {
      PendingNoRepeats(w, pass - 1);
      RequeuedSubset(w, Pending(w, pass - 1), pass - 1);
    }
  }

  lemma {:induction false} OncePerPass(w: World, chats: seq<nat>, pass: nat, chat: nat)
    requires NoRepeats(chats)
    ensures CountVisits(VisitsOf(chats, pass), chat) == if chat in chats then 1 else 0
    ensures CountFailures(w, VisitsOf(chats, pass), chat) ==
            if chat in chats && OutcomeOf(w.visit(chat, pass)).VisitFails? then 1 else 0
  {
    if chats != [] {
      var n := |chats| - 1;
      var front := chats[..n];
      OncePerPass(w, front, pass, chat);
      assert chats == front + [chats[n]];
      assert chats[n] !in front;
      var vs := VisitsOf(chats, pass);
      assert vs[..|vs| - 1] == VisitsOf(front, pass);
    }
  }

  /** A chat is visited at most once per pass, and a chat still pending has not failed. */
  lemma {:induction false} VisitsSoFar(w: World, passes: nat, chat: nat)
    ensures CountVisits(Schedule(w, passes), chat) <= passes
    ensures CountFailures(w, Schedule(w, passes), chat) <= 1
    ensures chat in Pending(w, passes) ==> CountFailures(w, Schedule(w, passes), chat) == 0
  {
    if passes > 0 {
      var pass := passes - 1;
      var chats := Pending(w, pass);
      VisitsSoFar(w, pass, chat);
      PendingNoRepeats(w, pass);
      OncePerPass(w, chats, pass, chat);
      CountsConcat(w, Schedule(w, pass), VisitsOf(chats, pass), chat);
      RequeuedSubset(w, chats, pass);
    }
  }

  /** Each chat is visited at most three times and fails at most once. */
  lemma AtMostThreeVisitsOneError(w: World, chat: nat)
    ensures CountVisits(Schedule(w, MAX_PASSES), chat) <= 3
    ensures CountFailures(w, Schedule(w, MAX_PASSES), chat) <= 1
  {
    VisitsSoFar(w, MAX_PASSES, chat);
  }

  lemma {:induction false} VisitAccountsForChat(w: World, vs: seq<VisitAt>, k: nat)
    requires k < |vs|
    ensures IdOf(w, vs[k].chat) in Synced(w, vs)
            || exists e :: e in Errors(w, vs) && e.chatId == IdOf(w, vs[k].chat)
  {
    var n := |vs| - 1;
    if k < n {
      VisitAccountsForChat(w, vs[..n], k);
      if e :| e in Errors(w, vs[..n]) && e.chatId == IdOf(w, vs[k].chat) {
        assert e in Errors(w, vs);
      }
    } else {
      match OutcomeOf(w.visit(vs[n].chat, vs[n].pass)) {
        case VisitOk(_) =>
        case VisitFails(m) =>
          assert SyncError(IdOf(w, vs[n].chat), m) in Errors(w, vs);
      }
    }
  }

  lemma {:induction false} FirstPassLeads(w: World, passes: nat)
    requires passes >= 1
    ensures |Schedule(w, passes)| >= |w.chatIds|
    ensures forall i :: 0 <= i < |w.chatIds| ==> Schedule(w, passes)[i] == VisitAt(i, 0)
  {
    if passes == 1 {
      AllChatsShape(|w.chatIds|);
      VisitsOfLength(Pending(w, 0), 0);
      assert Schedule(w, 1) == [] + VisitsOf(Pending(w, 0), 0);
    } else {
      FirstPassLeads(w, passes - 1);
    }
  }

  /** Every eligible chat ends in the synced set or among the errors. */
  lemma EveryChatSyncedOrFailed(w: World, i: nat)
    requires i < |w.chatIds|
    ensures var vs := Schedule(w, MAX_PASSES);
            w.chatIds[i] in Synced(w, vs) || exists e :: e in Errors(w, vs) && e.chatId == w.chatIds[i]
  {
    FirstPassLeads(w, MAX_PASSES);
    VisitAccountsForChat(w, Schedule(w, MAX_PASSES), i);
  }

  // ---------- progress ----------

  predicate NotBehind(a: Progress, b: Progress) {
    a.totalChats == b.totalChats && a.processedChats <= b.processedChats && a.messagesProcessed <= b.messagesProcessed
    && a.inboundMessages <= b.inboundMessages && a.outboundMessages <= b.outboundMessages
    && a.mediaMessages <= b.mediaMessages
  }

  lemma {:induction false} CountsMonotone(a: seq<Payload>, b: seq<Payload>)
    ensures CountInbound(a) <= CountInbound(a + b) && CountOutbound(a) <= CountOutbound(a + b)
    ensures CountMedia(a) <= CountMedia(a + b)
  {
    if b == [] {
      assert a + b == a;
    } else {
      assert (a + b)[..|a + b| - 1] == a + b[..|b| - 1];
      CountsMonotone(a, b[..|b| - 1]);
    }
  }

  lemma {:induction false} ProgressShape(w: World, vs: seq<VisitAt>)
    ensures |ProgressAfter(w, vs)| == |vs|
    ensures forall k :: 0 <= k < |vs| ==>
              ProgressAfter(w, vs)[k] == Snapshot(|w.chatIds|, Processed(w, vs[..k + 1]), Discovered(w, vs[..k + 1]))
  {
    if vs != [] {
      var n := |vs| - 1;
      ProgressShape(w, vs[..n]);
      assert vs[..n + 1] == vs;
      forall k | 0 <= k < n
        ensures ProgressAfter(w, vs)[k] == Snapshot(|w.chatIds|, Processed(w, vs[..k + 1]), Discovered(w, vs[..k + 1]))
      {
        assert vs[..n][..k + 1] == vs[..k + 1];
        assert ProgressAfter(w, vs)[k] == ProgressAfter(w, vs[..n])[k];
      }
    }
  }

  lemma SnapshotsAdvance(w: World, vs: seq<VisitAt>, k: nat)
    requires k < |vs|
    ensures NotBehind(Snapshot(|w.chatIds|, Processed(w, vs[..k]), Discovered(w, vs[..k])),
                      Snapshot(|w.chatIds|, Processed(w, vs[..k + 1]), Discovered(w, vs[..k + 1])))
  {
    assert vs[..k + 1][..k] == vs[..k];
    var v := vs[k];
    var added := if v.pass == 0 then KeptBy(w.visit(v.chat, v.pass)) else [];
    assert Discovered(w, vs[..k + 1]) == Discovered(w, vs[..k]) + added;
    CountsMonotone(Discovered(w, vs[..k]), added);
  }

  lemma {:induction false} ProcessedMonotone(w: World, vs: seq<VisitAt>, k: nat)
    requires k <= |vs|
    ensures Processed(w, vs[..k]) <= Processed(w, vs)
  {
    assert vs == vs[..k] + vs[k..];
    ProcessedConcat(w, vs[..k], vs[k..]);
  }

  /** The `k`-th progress event is a snapshot after the first `k` visits. */
  lemma ProgressAt(w: World, k: nat)
    requires k <= |Schedule(w, MAX_PASSES)|
    ensures var vs := Schedule(w, MAX_PASSES);
            && |AllProgress(w)| == |vs| + 2
            && AllProgress(w)[k] == Snapshot(|w.chatIds|, Processed(w, vs[..k]), Discovered(w, vs[..k]))
            && AllProgress(w)[|vs| + 1] == Snapshot(|w.chatIds|, |w.chatIds|, Discovered(w, vs))
  {
    hide Schedule, Snapshot;
    var vs := Schedule(w, MAX_PASSES);
    ProgressShape(w, vs);
    if k == 0 {
      assert vs[..0] == [];
    } else {
      hide ProgressAfter, Processed, Discovered;
      assert AllProgress(w)[k] == ProgressAfter(w, vs)[k - 1];
    }
  }

  lemma ProgressStep(w: World, k: nat)
    requires 0 < k < |AllProgress(w)|
    ensures NotBehind(AllProgress(w)[k - 1], AllProgress(w)[k])
  {
    hide Schedule, AllProgress, Processed, Discovered, ProgressAfter;
    var vs := Schedule(w, MAX_PASSES);
    ProgressAt(w, |vs|);
    if k <= |vs| {
      ProgressAt(w, k - 1);
      ProgressAt(w, k);
      SnapshotsAdvance(w, vs, k - 1);
    } else {
      SyncProcessesEveryChat(w);
      assert vs[..|vs|] == vs;
    }
  }

  lemma ProgressBounded(w: World, k: nat)
    requires k < |AllProgress(w)|
    ensures AllProgress(w)[k].totalChats == |w.chatIds| && AllProgress(w)[k].processedChats <= |w.chatIds|
    ensures k == |AllProgress(w)| - 1 ==> AllProgress(w)[k].processedChats == |w.chatIds|
  {
    hide Schedule, AllProgress, Processed, Discovered, ProgressAfter;
    var vs := Schedule(w, MAX_PASSES);
    ProgressAt(w, if k <= |vs| then k else |vs|);
    if k <= |vs| {
      SyncProcessesEveryChat(w);
      ProcessedMonotone(w, vs, k);
    }
  }

  /** Progress only advances, never passes the number of eligible chats, and ends there; so the clamp applied when
      emitting never changes a value. */
  lemma ProgressAdvancesToTotal(w: World)
    ensures var ps := AllProgress(w);
            && (forall k :: 0 <= k < |ps| ==> ps[k].totalChats == |w.chatIds| && ps[k].processedChats <= |w.chatIds|)
            && (forall k :: 0 < k < |ps| ==> NotBehind(ps[k - 1], ps[k]))
            && |ps| > 0 && ps[|ps| - 1].processedChats == |w.chatIds|
  {
    hide AllProgress, NotBehind;
    var ps := AllProgress(w);
    ProgressAt(w, 0);
    forall k | 0 <= k < |ps|
      ensures ps[k].totalChats == |w.chatIds| && ps[k].processedChats <= |w.chatIds|
    {
      ProgressBounded(w, k);
    }
    forall k | 0 < k < |ps|
      ensures NotBehind(ps[k - 1], ps[k])
    {
      ProgressStep(w, k);
    }
    ProgressBounded(w, |ps| - 1);
  }

  /** The progress sent since `before` only advances and never passes its total. */
  ghost predicate Advances(before: seq<Progress>, sent: seq<Progress>) {
    && before <= sent
    && (forall k :: |before| < k < |sent| ==> NotBehind(sent[k - 1], sent[k]))
    && (forall k :: |before| <= k < |sent| ==> sent[k].processedChats <= sent[k].totalChats)
  }

  /** ... and the last of it is `latest`. */
  ghost predicate Reported(before: seq<Progress>, sent: seq<Progress>, latest: Progress) {
    Advances(before, sent) && |before| < |sent| && sent[|sent| - 1] == latest
  }

  lemma NothingSent(sent: seq<Progress>)
    ensures Advances(sent, sent)
  {
  }

  lemma ReportedAdvances(before: seq<Progress>, sent: seq<Progress>, latest: Progress)
    requires Reported(before, sent, latest)
    ensures Advances(before, sent)
  {
  }

  lemma ReportFirst(before: seq<Progress>, first: Progress)
    requires first.processedChats <= first.totalChats
    ensures Reported(before, before + [first], first)
  {
  }

  lemma ReportMore(before: seq<Progress>, sent: seq<Progress>, latest: Progress, next: Progress)
    requires Reported(before, sent, latest) && NotBehind(latest, next) && next.processedChats <= next.totalChats
    ensures Reported(before, sent + [next], next)
  {
    hide NotBehind;
  }

  lemma SnapshotsOrdered(total: nat, processed: nat, processed': nat, found: seq<Payload>, found': seq<Payload>)
    requires processed <= processed' && found <= found'
    ensures NotBehind(Snapshot(total, processed, found), Snapshot(total, processed', found'))
  {
    assert found' == found + found'[|found|..];
    CountsMonotone(found, found'[|found|..]);
  }
}
