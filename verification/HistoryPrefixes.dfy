/** How far a history sync can have got: what holds after some of the readings of a visit, and after some of the
    visits of a schedule. */
module HistoryPrefixes {
  import opened JsString
  import opened HistorySpec
  import opened HistoryTheorems

  // ---------- readings of one visit ----------

  lemma VisitBegins(rs: seq<Reading>)
    ensures FirstFailure(rs[..0]).None? && !AnyNeedsRetry(rs[..0]) && Kept(rs[..0]) == []
    ensures Leftover([]) == [] && FullBatches([]) == []
  {
  }

  lemma KeptStep(rs: seq<Reading>, i: nat)
    requires i < |rs| && FirstFailure(rs[..i]).None?
    ensures rs[i].ReadFails? ==> FirstFailure(rs[..i + 1]) == Some(rs[i].error) && Kept(rs[..i + 1]) == Kept(rs[..i])
    ensures rs[i].Reading? ==>
              && FirstFailure(rs[..i + 1]).None?
              && (Ignored(rs[i].payload) ==> Kept(rs[..i + 1]) == Kept(rs[..i]))
              && (!Ignored(rs[i].payload) ==> Kept(rs[..i + 1]) == Kept(rs[..i]) + [rs[i].payload])
  {
    assert rs[..i + 1][..i] == rs[..i];
    assert Kept(rs[..i]) + [] == Kept(rs[..i]);
  }

  lemma NeedsRetryStep(rs: seq<Reading>, i: nat)
    requires i < |rs| && rs[i].Reading?
    ensures AnyNeedsRetry(rs[..i + 1]) <==> AnyNeedsRetry(rs[..i]) || rs[i].needsRetry
  {
    var longer := rs[..i + 1];
    if rs[i].needsRetry {
      assert longer[i].needsRetry;
    }
    if AnyNeedsRetry(rs[..i]) {
      var k :| 0 <= k < i && rs[..i][k].Reading? && rs[..i][k].needsRetry;
      assert longer[k].needsRetry;
    }
    if AnyNeedsRetry(longer) {
      var k :| 0 <= k < i + 1 && longer[k].Reading? && longer[k].needsRetry;
      if k < i {
        assert rs[..i][k].needsRetry;
      }
    }
  }

  lemma {:induction false} FailureSticks(rs: seq<Reading>, i: nat)
    requires i <= |rs| && FirstFailure(rs[..i]).Some?
    ensures FirstFailure(rs) == FirstFailure(rs[..i]) && Kept(rs) == Kept(rs[..i])
  {
    if i == |rs| {
      assert rs[..i] == rs;
    } else {
      var n := |rs| - 1;
      assert rs[..n][..i] == rs[..i];
      FailureSticks(rs[..n], i);
      assert Kept(rs[..n]) + [] == Kept(rs[..n]);
    }
  }

  lemma {:induction false} KeptPrefix(rs: seq<Reading>, i: nat)
    requires i <= |rs|
    ensures Kept(rs[..i]) <= Kept(rs)
  {
    if i == |rs| {
      assert rs[..i] == rs;
    } else {
      var n := |rs| - 1;
      assert rs[..n][..i] == rs[..i];
      KeptPrefix(rs[..n], i);
    }
  }

  lemma {:induction false} FullBatchesPrefix(shorter: seq<Payload>, longer: seq<Payload>)
    requires shorter <= longer
    ensures FullBatches(shorter) <= FullBatches(longer)
    decreases |shorter|
  {
    if |shorter| >= BATCH_SIZE {
      assert shorter[..BATCH_SIZE] == longer[..BATCH_SIZE];
      FullBatchesPrefix(shorter[BATCH_SIZE..], longer[BATCH_SIZE..]);
    }
  }

  /** The batches filled by the first readings of a visit are the first batches of the whole visit. */
  lemma FilledSoFar(rs: seq<Reading>, i: nat)
    requires i <= |rs|
    ensures FullBatches(Kept(rs[..i])) <= SentBy(Fetched(rs))
    ensures |Leftover(Kept(rs[..i]))| < BATCH_SIZE
  {
    KeptPrefix(rs, i);
    FullBatchesPrefix(Kept(rs[..i]), Kept(rs));
    FullBatchesAndLeftover(Kept(rs[..i]));
  }

  /** A visit whose `i`-th reading is the first to fail. */
  lemma FailsAt(rs: seq<Reading>, i: nat)
    requires i < |rs| && rs[i].ReadFails? && FirstFailure(rs[..i]).None?
    ensures OutcomeOf(Fetched(rs)) == VisitFails(rs[i].error)
    ensures Kept(rs) == Kept(rs[..i]) && SentBy(Fetched(rs)) == FullBatches(Kept(rs))
    ensures |Flatten(SentBy(Fetched(rs)))| == |Kept(rs)| - |Leftover(Kept(rs))|
  {
    KeptStep(rs, i);
    FailureSticks(rs, i + 1);
    FullBatchesAndLeftover(Kept(rs));
  }

  /** A visit none of whose readings fails. */
  lemma EndsWell(rs: seq<Reading>)
    requires FirstFailure(rs).None?
    ensures OutcomeOf(Fetched(rs)) == VisitOk(AnyNeedsRetry(rs)) && (AnyNeedsRetry(rs) ==> |rs| > 0)
    ensures SentBy(Fetched(rs))
         == FullBatches(Kept(rs)) + if Leftover(Kept(rs)) == [] then [] else [Leftover(Kept(rs))]
    ensures |Flatten(SentBy(Fetched(rs)))| == |Kept(rs)|
  {
    BatchesPartition(Kept(rs));
  }

  // ---------- visits of a schedule ----------

  lemma {:induction false} SentPrefix(w: World, vs: seq<VisitAt>, k: nat)
    requires k <= |vs|
    ensures Sent(w, vs[..k]) <= Sent(w, vs)
  {
    if k == |vs| {
      assert vs[..k] == vs;
    } else {
      var n := |vs| - 1;
      assert vs[..n][..k] == vs[..k];
      SentPrefix(w, vs[..n], k);
    }
  }

  lemma {:induction false} SchedulePrefix(w: World, earlier: nat, later: nat)
    requires earlier <= later
    ensures Schedule(w, earlier) <= Schedule(w, later)
  {
    if earlier < later {
      SchedulePrefix(w, earlier, later - 1);
    }
  }

  lemma {:induction false} VisitsOfPrefix(chats: seq<nat>, pass: nat, k: nat)
    requires k <= |chats|
    ensures VisitsOf(chats[..k], pass) <= VisitsOf(chats, pass)
  {
    if k == |chats| {
      assert chats[..k] == chats;
    } else {
      var n := |chats| - 1;
      assert chats[..n][..k] == chats[..k];
      VisitsOfPrefix(chats[..n], pass, k);
    }
  }

  /** What one more visit adds. */
  lemma DoneSnoc(w: World, done: seq<VisitAt>, v: VisitAt)
    ensures var visit := w.visit(v.chat, v.pass);
            && Sent(w, done + [v]) == Sent(w, done) + SentBy(visit)
            && |Flatten(Sent(w, done + [v]))| == |Flatten(Sent(w, done))| + |Flatten(SentBy(visit))|
            && Discovered(w, done + [v]) == Discovered(w, done) + (if v.pass == 0 then KeptBy(visit) else [])
            && Errors(w, done + [v]) == Errors(w, done) + (match OutcomeOf(visit)
                                                           case VisitFails(e) => [SyncError(IdOf(w, v.chat), e)]
                                                           case VisitOk(_) => [])
            && Synced(w, done + [v])
               == Synced(w, done) + (if OutcomeOf(visit).VisitOk? then {IdOf(w, v.chat)} else {})
            && Processed(w, done + [v]) == Processed(w, done) + (if Requeued(w, v) then 0 else 1)
            && ProgressAfter(w, done + [v])
               == ProgressAfter(w, done)
                  + [Snapshot(|w.chatIds|, Processed(w, done + [v]), Discovered(w, done + [v]))]
  {
    assert (done + [v])[..|done|] == done;
    FlattenConcat(Sent(w, done), SentBy(w.visit(v.chat, v.pass)));
  }

  /** The visits made when pass `pass` has come to its `k`-th chat. */
  function Done(w: World, pass: nat, k: nat): seq<VisitAt>
    requires k <= |Pending(w, pass)|
  {
    Schedule(w, pass) + VisitsOf(Pending(w, pass)[..k], pass)
  }

  lemma DoneStep(w: World, pass: nat, k: nat)
    requires k < |Pending(w, pass)|
    ensures Done(w, pass, k + 1) == Done(w, pass, k) + [VisitAt(Pending(w, pass)[k], pass)]
    ensures RequeuedOf(w, Pending(w, pass)[..k + 1], pass)
         == RequeuedOf(w, Pending(w, pass)[..k], pass)
            + if Requeued(w, VisitAt(Pending(w, pass)[k], pass)) then [Pending(w, pass)[k]] else []
  {
    assert Pending(w, pass)[..k + 1][..k] == Pending(w, pass)[..k];
  }

  lemma ScheduleBegins(w: World)
    ensures Pending(w, 0) == AllChats(|w.chatIds|) && Schedule(w, 0) == []
    ensures Sent(w, []) == [] && ProgressAfter(w, []) == [] && Errors(w, []) == [] && Discovered(w, []) == []
    ensures Synced(w, []) == {} && Processed(w, []) == 0 && Flatten([]) == []
  {
  }

  lemma DoneEnds(w: World, pass: nat)
    ensures Done(w, pass, 0) == Schedule(w, pass)
    ensures Done(w, pass, |Pending(w, pass)|) == Schedule(w, pass + 1)
    ensures RequeuedOf(w, Pending(w, pass)[..0], pass) == []
    ensures RequeuedOf(w, Pending(w, pass)[..|Pending(w, pass)|], pass) == Pending(w, pass + 1)
  {
    var chats := Pending(w, pass);
    assert chats[..0] == [] && chats[..|chats|] == chats;
    assert Schedule(w, pass) + [] == Schedule(w, pass);
  }

  /** What was sent so far is the beginning of what the whole sync sends. */
  lemma SentSoFar(w: World, pass: nat, k: nat)
    requires pass < MAX_PASSES && k <= |Pending(w, pass)|
    ensures Sent(w, Done(w, pass, k)) <= Sent(w, Schedule(w, MAX_PASSES))
  {
    var all := Schedule(w, MAX_PASSES);
    VisitsOfPrefix(Pending(w, pass), pass, k);
    SchedulePrefix(w, pass + 1, MAX_PASSES);
    assert Done(w, pass, k) <= Schedule(w, pass + 1);
    assert Done(w, pass, k) == all[..|Done(w, pass, k)|];
    SentPrefix(w, all, |Done(w, pass, k)|);
  }

  lemma SentNext(w: World, pass: nat, k: nat)
    requires pass < MAX_PASSES && k < |Pending(w, pass)|
    ensures Sent(w, Done(w, pass, k)) + SentBy(w.visit(Pending(w, pass)[k], pass))
         <= Sent(w, Schedule(w, MAX_PASSES))
  {
    hide Schedule, Pending, SentBy, Sent, Done;
    DoneStep(w, pass, k);
    DoneSnoc(w, Done(w, pass, k), VisitAt(Pending(w, pass)[k], pass));
    SentSoFar(w, pass, k + 1);
  }

  lemma PrefixOfWhole<T>(before: seq<T>, some: seq<T>, more: seq<T>, whole: seq<T>, got: seq<T>)
    requires some + more <= whole && before + some <= got <= before + some + more
    ensures before <= got <= before + whole
  {
    assert before + some + more == before + (some + more);
  }

  lemma AllProgressParts(w: World, before: seq<Progress>)
    ensures var visits := Schedule(w, MAX_PASSES);
            before + [Snapshot(|w.chatIds|, 0, [])] + ProgressAfter(w, visits)
            + [Snapshot(|w.chatIds|, |w.chatIds|, Discovered(w, visits))] == before + AllProgress(w)
  {
    hide Schedule, ProgressAfter, Discovered, Snapshot;
  }
}
