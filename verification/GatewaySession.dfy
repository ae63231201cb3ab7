/** One WhatsApp session of the gateway: its reconnect timer and its history sync. Between two await points a method
    runs alone; at an await point any number of calls and events may run. */
module GatewaySession {
  import opened JsString
  import opened DesiredState
  import opened HistorySpec
  import opened HistoryTheorems
  import opened HistoryPrefixes
  import opened HistoryMeaning
  import opened SessionMachine

  const CANCELED := "WhatsApp QR history sync was canceled."

  function Clamped(p: Progress): Progress {
    p.(processedChats := if p.processedChats <= p.totalChats then p.processedChats else p.totalChats)
  }

  class HistorySyncResult {
    var chatsEvaluated: nat
    var chatsEligible: nat
    var chatsSynced: nat
    var messagesDiscovered: nat
    var messagesEmitted: nat
    var inboundMessages: nat
    var outboundMessages: nat
    var mediaMessages: nat
    var errors: seq<SyncError>

    constructor ()
      ensures chatsEvaluated == chatsEligible == chatsSynced == messagesEmitted == 0
      ensures Counts([]) && errors == []
    {
      chatsEvaluated, chatsEligible, chatsSynced, messagesDiscovered, messagesEmitted := 0, 0, 0, 0, 0;
      inboundMessages, outboundMessages, mediaMessages := 0, 0, 0;
      errors := [];
    }

    /** The four message counters describe the list `found`. */
    ghost predicate Counts(found: seq<Payload>)
      reads `messagesDiscovered, `inboundMessages, `outboundMessages, `mediaMessages
    {
      && messagesDiscovered == |found|
      && inboundMessages == CountInbound(found)
      && outboundMessages == CountOutbound(found)
      && mediaMessages == CountMedia(found)
    }

    method CountMessage(p: Payload, ghost found: seq<Payload>)
      requires Counts(found)
      modifies `messagesDiscovered, `inboundMessages, `outboundMessages, `mediaMessages
      ensures Counts(found + [p])
      ensures messagesDiscovered == old(messagesDiscovered) + 1
      ensures outboundMessages == old(outboundMessages) + if p.fromMe then 1 else 0
      ensures inboundMessages == old(inboundMessages) + if p.fromMe then 0 else 1
      ensures mediaMessages == old(mediaMessages) + if p.hasMedia then 1 else 0
    {
      messagesDiscovered := messagesDiscovered + 1;
      if p.fromMe {
        outboundMessages := outboundMessages + 1;
      } else {
        inboundMessages := inboundMessages + 1;
      }
      if p.hasMedia {
        mediaMessages := mediaMessages + 1;
      }
      assert (found + [p])[..|found|] == found;
    }
  }

  class MessageBatch {
    var messages: seq<Payload>

    constructor ()
      ensures messages == []
    {
      messages := [];
    }

    method Push(p: Payload)
      modifies this
      ensures messages == old(messages) + [p]
    {
      messages := messages + [p];
    }

    /** `splice(0, length)`: takes everything out. */
    method TakeAll() returns (taken: seq<Payload>)
      modifies this
      ensures taken == old(messages) && messages == []
    {
      taken := messages;
      messages := [];
    }
  }

  class WhatsAppSession {
    var desiredState: Desired
    var historySyncCanceled: bool
    var destroyed: bool
    var reconnectTimer: Option<nat>
    var historySyncPromise: Option<nat>
    // the runtime's side: timers that may fire, callbacks in progress, names handed out
    var armed: set<nat>
    var nextTimer: nat
    var disconnects: nat
    var nextSync: nat
    ghost var stage: map<nat, Stage>
    ghost var endings: map<nat, Ending>
    ghost var history: seq<Event>
    // the callback transport: what was sent, and whether the sync was active at that instant
    ghost var batchesSent: seq<seq<Payload>>
    ghost var activeAtSend: seq<bool>
    ghost var progressSent: seq<Progress>
    ghost var progressAsked: seq<Progress>

    constructor ()
      ensures Valid() && history == [] && SentOnlyWhileActive() && NeverClamped()
      ensures batchesSent == [] && progressSent == []
    {
      desiredState, historySyncCanceled, destroyed := Running, false, false;
      reconnectTimer, historySyncPromise := None, None;
      armed, nextTimer, disconnects, nextSync := {}, 0, 0, 0;
      stage, endings, history := map[], map[], [];
      batchesSent, activeAtSend, progressSent, progressAsked := [], [], [], [];
    }

    ghost function View(): Session
      reads this
    {
      Session(desiredState, historySyncCanceled, destroyed, reconnectTimer, armed, nextTimer, disconnects,
              historySyncPromise, stage, endings, nextSync)
    }

    /** The fields are what the recorded events make of a new session. */
    ghost predicate Valid()
      reads this
    {
      View() == Run(INITIAL, history)
    }

    /** Every batch was sent at an instant when the sync was active. */
    ghost predicate SentOnlyWhileActive()
      reads `batchesSent, `activeAtSend
    {
      |activeAtSend| == |batchesSent| && forall k :: 0 <= k < |activeAtSend| ==> activeAtSend[k]
    }

    /** Clamping never changed a progress event. */
    ghost predicate NeverClamped()
      reads `progressSent, `progressAsked
    {
      progressSent == progressAsked
    }

    predicate IsActive()
      reads `historySyncCanceled, `desiredState
    {
      !historySyncCanceled && desiredState == Running
    }

    /** From the first activity check of a sync on: a stopped session has had its sync canceled. */
    ghost predicate Calm()
      reads this
    {
      desiredState == Stopped ==> historySyncCanceled
    }

    /** Whatever has been called so far: at most one timer can fire, it is the one held, and holding one means the
        session should run and is not destroyed; a sync in flight is the one the promise field names. */
    lemma SafeAtAllTimes()
      requires Valid()
      ensures |armed| <= 1 && forall t :: t in armed ==> reconnectTimer == Some(t)
      ensures reconnectTimer.Some? ==> desiredState == Running && !destroyed
      ensures |stage| <= 1 && forall id :: id in stage <==> historySyncPromise == Some(id)
    {
      RunsAreSafe(history);
      AtMostOneTimerOneSync(history);
    }

    lemma NextTimerIsNew()
      requires Valid()
      ensures nextTimer !in armed && (reconnectTimer.Some? ==> reconnectTimer.value < nextTimer)
    {
      RunsAreSafe(history);
    }

    // ---------- calls and events ----------

    method ClearReconnectTimer()
      modifies `armed, `reconnectTimer
      ensures reconnectTimer == None
      ensures armed == old(armed) - if old(reconnectTimer).Some? then {old(reconnectTimer).value} else {}
      ensures View() == ClearTimer(old(View()))
    {
      if reconnectTimer.Some? {
        armed := armed - {reconnectTimer.value};
        reconnectTimer := None;
      }
    }

    method ScheduleReconnect()
      modifies `armed, `reconnectTimer, `nextTimer
      ensures nextTimer == old(nextTimer) + 1 && reconnectTimer == Some(old(nextTimer))
      ensures armed == old(armed) - (if old(reconnectTimer).Some? then {old(reconnectTimer).value} else {})
                       + {old(nextTimer)}
      ensures View() == SessionMachine.ScheduleReconnect(old(View()))
    {
      ClearReconnectTimer();
      armed, reconnectTimer, nextTimer := armed + {nextTimer}, Some(nextTimer), nextTimer + 1;
    }

    method Start()
      requires Valid()
      modifies `desiredState, `history
      ensures Valid() && history == old(history) + [StartCalled]
      ensures desiredState == Running
      ensures View() == Apply(old(View()), StartCalled)
    {
      hide Run;
      RunSnoc(INITIAL, history, StartCalled);
      desiredState := Running;
      history := history + [StartCalled];
    }

    /** What `stop` does before its first await. */
    method Halt()
      modifies `desiredState, `historySyncCanceled, `armed, `reconnectTimer
      ensures desiredState == Stopped && historySyncCanceled && reconnectTimer == None
      ensures armed == old(armed) - if old(reconnectTimer).Some? then {old(reconnectTimer).value} else {}
      ensures View() == SessionMachine.Stop(old(View()))
    {
      desiredState, historySyncCanceled := Stopped, true;
      ClearReconnectTimer();
    }

    method Stop()
      requires Valid()
      modifies `desiredState, `historySyncCanceled, `armed, `reconnectTimer, `history
      ensures Valid() && history == old(history) + [StopCalled]
      ensures desiredState == Stopped && historySyncCanceled && reconnectTimer == None && armed == {}
      ensures View() == Apply(old(View()), StopCalled)
    {
      SafeAtAllTimes();
      hide Run;
      RunSnoc(INITIAL, history, StopCalled);
      Halt();
      history := history + [StopCalled];
    }

    method Destroy()
      requires Valid()
      modifies `desiredState, `historySyncCanceled, `destroyed, `armed, `reconnectTimer, `history
      ensures Valid() && history == old(history) + [DestroyCalled]
      ensures destroyed
      ensures desiredState == Stopped && historySyncCanceled && reconnectTimer == None && armed == {}
      ensures View() == Apply(old(View()), DestroyCalled)
    {
      SafeAtAllTimes();
      hide Run;
      RunSnoc(INITIAL, history, DestroyCalled);
      destroyed := true;
      Halt();
      history := history + [DestroyCalled];
    }

    /** The `disconnected` handler up to its callback. */
    method OnDisconnected()
      requires Valid()
      modifies `disconnects, `history
      ensures Valid() && history == old(history) + [ClientDisconnected]
      ensures disconnects == old(disconnects) + 1
      ensures View() == Apply(old(View()), ClientDisconnected)
    {
      hide Run;
      RunSnoc(INITIAL, history, ClientDisconnected);
      disconnects := disconnects + 1;
      history := history + [ClientDisconnected];
    }

    /** The rest of the handler. */
    method OnDisconnectReported()
      requires Valid()
      modifies `disconnects, `armed, `reconnectTimer, `nextTimer, `history
      ensures Valid() && history == old(history) + [DisconnectHandled]
      ensures disconnects == if old(disconnects) > 0 then old(disconnects) - 1 else 0
      ensures if old(disconnects) > 0 && desiredState == Running && !destroyed
              then reconnectTimer.Some? && reconnectTimer.value !in old(armed) && armed == {reconnectTimer.value}
              else armed == old(armed) && reconnectTimer == old(reconnectTimer)
      ensures View() == Apply(old(View()), DisconnectHandled)
    {
      SafeAtAllTimes();
      NextTimerIsNew();
      hide Run;
      RunSnoc(INITIAL, history, DisconnectHandled);
      if disconnects > 0 {
        disconnects := disconnects - 1;
        if desiredState == Running && !destroyed {
          ScheduleReconnect();
        }
      }
      history := history + [DisconnectHandled];
    }

    method OnTimer(timer: nat)
      requires Valid()
      modifies `armed, `desiredState, `history
      ensures Valid() && history == old(history) + [TimerFires(timer)]
      ensures armed == old(armed) - {timer}
      ensures desiredState == if timer in old(armed) then Running else old(desiredState)
      ensures View() == Apply(old(View()), TimerFires(timer))
    {
      hide Run;
      RunSnoc(INITIAL, history, TimerFires(timer));
      if timer in armed {
        armed, desiredState := armed - {timer}, Running;
      }
      history := history + [TimerFires(timer)];
    }

    /** `syncHistory` while a sync is in flight: the caller gets the same promise. */
    method JoinSync(hasClient: bool) returns (id: nat)
      requires Valid() && historySyncPromise.Some?
      modifies `history
      ensures Valid() && history == old(history) + [SyncCalled(hasClient)]
      ensures historySyncPromise == Some(id) && View() == Apply(old(View()), SyncCalled(hasClient))
    {
      hide Run;
      RunSnoc(INITIAL, history, SyncCalled(hasClient));
      history := history + [SyncCalled(hasClient)];
      id := historySyncPromise.value;
    }

    /** One call or event that runs while a sync awaits something. */
    method Interrupt()
      requires Valid() && historySyncPromise.Some?
      modifies `desiredState, `historySyncCanceled, `destroyed, `reconnectTimer, `armed, `nextTimer, `disconnects,
               `history
      ensures Valid() && old(history) <= history
      ensures old(historySyncCanceled) ==> historySyncCanceled
      ensures old(Calm()) ==> Calm()
    {
      hide Run;
      if * {
        Start();
      } else if * {
        Stop();
      } else if * {
        Destroy();
      } else if * {
        OnDisconnected();
      } else if * {
        OnDisconnectReported();
      } else if * {
        var timer: nat := *;
        OnTimer(timer);
      } else {
        var hasClient: bool := *;
        var _ := JoinSync(hasClient);
      }
    }

    /** An await point inside a sync: whatever runs meanwhile, the cancel flag is not reset, and a session that was
        running is either still running or has had its sync canceled. */
    method Await()
      requires Valid() && historySyncPromise.Some?
      modifies `desiredState, `historySyncCanceled, `destroyed, `reconnectTimer, `armed, `nextTimer, `disconnects,
               `history
      ensures Valid() && old(history) <= history
      ensures old(historySyncCanceled) ==> historySyncCanceled
      ensures old(Calm()) ==> Calm()
    {
      var n: nat := *;
      while n > 0
        invariant Valid() && old(history) <= history
        invariant old(historySyncCanceled) ==> historySyncCanceled
        invariant old(Calm()) ==> Calm()
      {
        Interrupt();
        n := n - 1;
      }
    }

    // ---------- callbacks ----------

    /** `flushHistoryBatch`: the send begins before anything else can run. */
    method FlushHistoryBatch(batch: MessageBatch, result: HistorySyncResult)
      requires Valid() && historySyncPromise.Some?
      modifies `desiredState, `historySyncCanceled, `destroyed, `reconnectTimer, `armed, `nextTimer, `disconnects,
               `history, `batchesSent, `activeAtSend, batch, result`messagesEmitted
      ensures Valid() && old(history) <= history
      ensures old(historySyncCanceled) ==> historySyncCanceled
      ensures old(Calm()) ==> Calm()
      ensures batch.messages == []
      ensures result.messagesEmitted == old(result.messagesEmitted) + |old(batch.messages)|
      ensures batchesSent == old(batchesSent) + if old(batch.messages) == [] then [] else [old(batch.messages)]
      ensures activeAtSend == old(activeAtSend) + if old(batch.messages) == [] then [] else [old(IsActive())]
    {
      hide Run;
      if |batch.messages| == 0 {
        return;
      }
      var payload := batch.TakeAll();
      batchesSent, activeAtSend := batchesSent + [payload], activeAtSend + [IsActive()];
      Await();
      result.messagesEmitted := result.messagesEmitted + |payload|;
    }

    /** `emitHistorySyncProgress`. */
    method EmitHistorySyncProgress(progress: Progress)
      requires Valid() && historySyncPromise.Some?
      modifies `desiredState, `historySyncCanceled, `destroyed, `reconnectTimer, `armed, `nextTimer, `disconnects,
               `history, `progressSent, `progressAsked
      ensures Valid() && old(history) <= history
      ensures old(historySyncCanceled) ==> historySyncCanceled
      ensures old(Calm()) ==> Calm()
      ensures progressAsked == old(progressAsked) + [progress]
      ensures progressSent == old(progressSent) + [Clamped(progress)]
      ensures var sent := progressSent[|progressSent| - 1];
              && sent.processedChats == (if progress.processedChats <= progress.totalChats
                                         then progress.processedChats else progress.totalChats)
              && sent.totalChats == progress.totalChats && sent.messagesProcessed == progress.messagesProcessed
              && sent.inboundMessages == progress.inboundMessages
              && sent.outboundMessages == progress.outboundMessages && sent.mediaMessages == progress.mediaMessages
    {
      hide Run;
      progressSent, progressAsked := progressSent + [Clamped(progress)], progressAsked + [progress];
      Await();
    }

    // ---------- one visit of a chat ----------

    /** Of the kept messages, the full batches are sent and counted and the rest waits. */
    ghost predicate Filled(batch: MessageBatch, result: HistorySyncResult, kept: seq<Payload>,
                           sentBefore: seq<seq<Payload>>, emittedBefore: nat)
      reads this, batch, result
    {
      && batch.messages == Leftover(kept)
      && batchesSent == sentBefore + FullBatches(kept)
      && result.messagesEmitted == emittedBefore + |kept| - |batch.messages|
    }

    /** Counts a message that is kept and adds it to the batch, which is sent when full; `ok` is false if the sync was
        found canceled. */
    method AddMessage(p: Payload, retryPass: bool, batch: MessageBatch, result: HistorySyncResult,
                      ghost found: seq<Payload>, ghost kept: seq<Payload>, ghost sentBefore: seq<seq<Payload>>,
                      ghost emittedBefore: nat)
      returns (ok: bool, ghost found': seq<Payload>)
      requires Valid() && historySyncPromise.Some? && Calm() && result.Counts(found)
      requires Filled(batch, result, kept, sentBefore, emittedBefore)
      modifies `desiredState, `historySyncCanceled, `destroyed, `reconnectTimer, `armed, `nextTimer, `disconnects,
               `history, `batchesSent, `activeAtSend, batch, result`messagesEmitted, result`messagesDiscovered,
               result`inboundMessages, result`outboundMessages, result`mediaMessages
      ensures Valid() && old(history) <= history && Calm() && (old(historySyncCanceled) ==> historySyncCanceled)
      ensures old(SentOnlyWhileActive()) ==> SentOnlyWhileActive()
      ensures found' == found + (if retryPass then [] else [p]) && result.Counts(found')
      ensures ok ==> Filled(batch, result, kept + [p], sentBefore, emittedBefore)
      ensures !ok ==> historySyncCanceled && batchesSent == old(batchesSent)
                      && result.messagesEmitted == old(result.messagesEmitted)
    {
      hide Run, CountInbound, CountOutbound, CountMedia, FullBatches, Leftover;
      BatchSnoc(kept, p);
      FullBatchesAndLeftover(kept);
      found' := found;
      if !retryPass {
        result.CountMessage(p, found);
        found' := found + [p];
      }
      batch.Push(p);
      ok := true;
      if |batch.messages| >= BATCH_SIZE {
        if !IsActive() {
          return false, found';
        }
        FlushHistoryBatch(batch, result);
      }
    }

    /** The loop over a chat's messages, and the last flush. */
    method SyncReadings(rs: seq<Reading>, retryPass: bool, result: HistorySyncResult, ghost found: seq<Payload>)
      returns (outcome: VisitOutcome, ghost found': seq<Payload>)
      requires Valid() && historySyncPromise.Some? && Calm() && result.Counts(found)
      modifies `desiredState, `historySyncCanceled, `destroyed, `reconnectTimer, `armed, `nextTimer, `disconnects,
               `history, `batchesSent, `activeAtSend, result`messagesEmitted, result`messagesDiscovered,
               result`inboundMessages, result`outboundMessages, result`mediaMessages
      ensures Valid() && old(history) <= history && Calm() && (old(historySyncCanceled) ==> historySyncCanceled)
      ensures old(SentOnlyWhileActive()) ==> SentOnlyWhileActive()
      ensures result.Counts(found') && found <= found'
      ensures !historySyncCanceled || outcome.VisitOk? ==>
                && outcome == OutcomeOf(Fetched(rs))
                && batchesSent == old(batchesSent) + SentBy(Fetched(rs))
                && result.messagesEmitted == old(result.messagesEmitted) + |Flatten(SentBy(Fetched(rs)))|
                && found' == found + (if retryPass then [] else Kept(rs))
      ensures old(batchesSent) <= batchesSent <= old(batchesSent) + SentBy(Fetched(rs))
      ensures |found'| - |found| <= result.messagesEmitted - old(result.messagesEmitted)
                                    + if outcome.VisitOk? then 0 else BATCH_SIZE
    {
      hide Run, CountInbound, CountOutbound, CountMedia, FullBatches, Leftover, Kept, FirstFailure, AnyNeedsRetry;
      hide OutcomeOf, SentBy, Flatten, Ignored, WhatsAppSession.Valid, HistorySyncResult.Counts;
      var batch := new MessageBatch();
      var shouldRetry := false;
      found' := found;
      ghost var sentBefore, emittedBefore, kept := batchesSent, result.messagesEmitted, [];
      var i := 0;
      VisitBegins(rs);
      while i < |rs|
        invariant 0 <= i <= |rs|
        invariant Valid() && old(history) <= history && Calm() && (old(historySyncCanceled) ==> historySyncCanceled)
        invariant old(SentOnlyWhileActive()) ==> SentOnlyWhileActive()
        invariant kept == Kept(rs[..i]) && FirstFailure(rs[..i]).None? && shouldRetry == AnyNeedsRetry(rs[..i])
        invariant Filled(batch, result, kept, sentBefore, emittedBefore)
        invariant found' == found + (if retryPass then [] else kept) && result.Counts(found')
      {
        FilledSoFar(rs, i);
        if !IsActive() {
          return VisitFails(CANCELED), found';
        }
        Await();
        KeptStep(rs, i);
        match rs[i] {
          case ReadFails(e) =>
            FailsAt(rs, i);
            return VisitFails(e), found';
          case Reading(p, needsRetry) =>
            NeedsRetryStep(rs, i);
            shouldRetry := shouldRetry || needsRetry;
            if !Ignored(p) {
              var ok;
              ok, found' := AddMessage(p, retryPass, batch, result, found', kept, sentBefore, emittedBefore);
              if !ok {
                return VisitFails(CANCELED), found';
              }
              kept := kept + [p];
            }
        }
        i := i + 1;
      }
      assert rs[..i] == rs;
      FilledSoFar(rs, i);
      EndsWell(rs);
      if !IsActive() {
        return VisitFails(CANCELED), found';
      }
      FlushHistoryBatch(batch, result);
      return VisitOk(shouldRetry && |rs| > 0), found';
    }

    method SyncPrivateChatHistory(visit: Visit, retryPass: bool, result: HistorySyncResult, ghost found: seq<Payload>)
      returns (outcome: VisitOutcome, ghost found': seq<Payload>)
      requires Valid() && historySyncPromise.Some? && Calm() && result.Counts(found)
      modifies `desiredState, `historySyncCanceled, `destroyed, `reconnectTimer, `armed, `nextTimer, `disconnects,
               `history, `batchesSent, `activeAtSend, result`messagesEmitted, result`messagesDiscovered,
               result`inboundMessages, result`outboundMessages, result`mediaMessages
      ensures Valid() && old(history) <= history && Calm() && (old(historySyncCanceled) ==> historySyncCanceled)
      ensures old(SentOnlyWhileActive()) ==> SentOnlyWhileActive()
      ensures result.Counts(found') && found <= found'
      ensures !historySyncCanceled || outcome.VisitOk? ==>
                && outcome == OutcomeOf(visit)
                && batchesSent == old(batchesSent) + SentBy(visit)
                && result.messagesEmitted == old(result.messagesEmitted) + |Flatten(SentBy(visit))|
                && found' == found + (if retryPass then [] else KeptBy(visit))
      ensures old(batchesSent) <= batchesSent <= old(batchesSent) + SentBy(visit)
      ensures |found'| - |found| <= result.messagesEmitted - old(result.messagesEmitted)
                                    + if outcome.VisitOk? then 0 else BATCH_SIZE
    {
      hide Run, CountInbound, CountOutbound, CountMedia, FullBatches, Leftover, Kept, FirstFailure, AnyNeedsRetry;
      found' := found;
      if visit.ArchivedMeanwhile? {
        return VisitOk(false), found';
      }
      if !IsActive() {
        return VisitFails(CANCELED), found';
      }
      Await();
      if !IsActive() {
        return VisitFails(CANCELED), found';
      }
      Await();
      match visit {
        case FetchFails(e) =>
          outcome := VisitFails(e);
        case Fetched(rs) =>
          outcome, found' := SyncReadings(rs, retryPass, result, found);
      }
    }

    // ---------- the whole sync ----------

    /** The counters describe `found`, and all of it was emitted but for at most one batch per error. */
    ghost predicate Balanced(result: HistorySyncResult, found: seq<Payload>)
      reads result
    {
      result.Counts(found) && |found| <= result.messagesEmitted + BATCH_SIZE * |result.errors|
    }

    /** The sync has come through exactly the visits `done`. */
    ghost predicate Reached(w: World, done: seq<VisitAt>, result: HistorySyncResult, synced: set<string>,
                            processed: nat, found: seq<Payload>, sentBefore: seq<seq<Payload>>,
                            progressBefore: seq<Progress>)
      reads `batchesSent, `progressSent, result
    {
      && batchesSent == sentBefore + Sent(w, done)
      && progressSent == progressBefore + [Snapshot(|w.chatIds|, 0, [])] + ProgressAfter(w, done)
      && result.errors == Errors(w, done)
      && result.messagesEmitted == |Flatten(Sent(w, done))|
      && found == Discovered(w, done)
      && synced == Synced(w, done)
      && processed == Processed(w, done)
    }

    /** The `try`, `catch` and `finally` around one visit. */
    method VisitChat(w: World, v: VisitAt, result: HistorySyncResult, synced: set<string>, processed: nat,
                     ghost done: seq<VisitAt>, ghost found: seq<Payload>, ghost sentBefore: seq<seq<Payload>>,
                     ghost progressBefore: seq<Progress>)
      returns (requeue: bool, synced': set<string>, processed': nat, ghost found': seq<Payload>)
      requires Valid() && historySyncPromise.Some? && Calm() && Balanced(result, found)
      requires Reported(progressBefore, progressSent, Snapshot(|w.chatIds|, processed, found))
      requires v.chat < |w.chatIds| == result.chatsEligible && processed < |w.chatIds|
      requires !historySyncCanceled ==>
                 Reached(w, done, result, synced, processed, found, sentBefore, progressBefore)
      modifies `desiredState, `historySyncCanceled, `destroyed, `reconnectTimer, `armed, `nextTimer, `disconnects,
               `history, `batchesSent, `activeAtSend, `progressSent, `progressAsked, result`messagesEmitted,
               result`messagesDiscovered, result`inboundMessages, result`outboundMessages, result`mediaMessages,
               result`errors
      ensures Valid() && old(history) <= history && Calm() && (old(historySyncCanceled) ==> historySyncCanceled)
      ensures old(SentOnlyWhileActive()) ==> SentOnlyWhileActive()
      ensures old(NeverClamped()) ==> NeverClamped()
      ensures Balanced(result, found')
      ensures Reported(progressBefore, progressSent, Snapshot(|w.chatIds|, processed', found'))
      ensures processed' + (if requeue then 1 else 0) == processed + 1
      ensures old(batchesSent) <= batchesSent <= old(batchesSent) + SentBy(w.visit(v.chat, v.pass))
      ensures !historySyncCanceled ==>
                && requeue == Requeued(w, v)
                && Reached(w, done + [v], result, synced', processed', found', sentBefore, progressBefore)
    {
      hide Run, NotBehind, Reported, CountInbound, CountOutbound, CountMedia, SentBy, OutcomeOf, KeptBy;
      hide Sent, Discovered, Errors, Synced, Processed, ProgressAfter, Flatten;
      hide WhatsAppSession.Valid, WhatsAppSession.SentOnlyWhileActive;
      synced', processed', requeue := synced, processed, false;
      var outcome;
      outcome, found' := SyncPrivateChatHistory(w.visit(v.chat, v.pass), v.pass > 0, result, found);
      match outcome {
        case VisitOk(shouldRetry) =>
          synced' := synced' + {w.chatIds[v.chat]};
          if shouldRetry && v.pass + 1 < MAX_PASSES {
            requeue := true;
          } else {
            processed' := processed' + 1;
          }
        case VisitFails(message) =>
          result.errors := result.errors + [SyncError(w.chatIds[v.chat], message)];
          processed' := processed' + 1;
      }
      SnapshotsOrdered(|w.chatIds|, processed, processed', found, found');
      ReportMore(progressBefore, progressSent, Snapshot(|w.chatIds|, processed, found),
                 Snapshot(|w.chatIds|, processed', found'));
      EmitHistorySyncProgress(Progress(result.chatsEligible, processed', result.messagesDiscovered,
                                       result.inboundMessages, result.outboundMessages, result.mediaMessages));
      DoneSnoc(w, done, v);
    }

    /** One pass over the pending chats; `threw` if an activity check failed between two chats. */
    method RunPass(w: World, pass: nat, pending: seq<nat>, result: HistorySyncResult, synced: set<string>,
                   processed: nat, ghost found: seq<Payload>, ghost sentBefore: seq<seq<Payload>>,
                   ghost progressBefore: seq<Progress>)
      returns (threw: bool, next: seq<nat>, synced': set<string>, processed': nat, ghost found': seq<Payload>)
      requires Valid() && historySyncPromise.Some? && Calm() && Balanced(result, found)
      requires Reported(progressBefore, progressSent, Snapshot(|w.chatIds|, processed, found))
      requires pass < MAX_PASSES && |w.chatIds| == result.chatsEligible
      requires processed + |pending| == |w.chatIds| && forall k :: 0 <= k < |pending| ==> pending[k] < |w.chatIds|
      requires sentBefore <= batchesSent <= sentBefore + Sent(w, Schedule(w, MAX_PASSES))
      requires !historySyncCanceled ==>
                 && pending == Pending(w, pass)
                 && Reached(w, Schedule(w, pass), result, synced, processed, found, sentBefore, progressBefore)
      modifies `desiredState, `historySyncCanceled, `destroyed, `reconnectTimer, `armed, `nextTimer, `disconnects,
               `history, `batchesSent, `activeAtSend, `progressSent, `progressAsked, result`messagesEmitted,
               result`messagesDiscovered, result`inboundMessages, result`outboundMessages, result`mediaMessages,
               result`errors
      ensures Valid() && old(history) <= history && Calm() && (old(historySyncCanceled) ==> historySyncCanceled)
      ensures old(SentOnlyWhileActive()) ==> SentOnlyWhileActive()
      ensures old(NeverClamped()) ==> NeverClamped()
      ensures Balanced(result, found') && processed' <= |w.chatIds|
      ensures Reported(progressBefore, progressSent, Snapshot(|w.chatIds|, processed', found'))
      ensures sentBefore <= batchesSent <= sentBefore + Sent(w, Schedule(w, MAX_PASSES))
      ensures threw ==> historySyncCanceled
      ensures !threw ==> processed' + |next| == |w.chatIds| && forall k :: 0 <= k < |next| ==> next[k] < |w.chatIds|
      ensures !historySyncCanceled ==>
                && next == Pending(w, pass + 1)
                && Reached(w, Schedule(w, pass + 1), result, synced', processed', found', sentBefore, progressBefore)
    {
      hide Run, CountInbound, CountOutbound, CountMedia, SentBy, OutcomeOf, KeptBy, RequeuedOf, Schedule, Pending;
      hide Sent, Discovered, Errors, Synced, Processed, ProgressAfter, Flatten, WhatsAppSession.Valid, Done;
      hide WhatsAppSession.Balanced, Requeued, Reported, Snapshot;
      next, synced', processed', found' := [], synced, processed, found;
      DoneEnds(w, pass);
      var k := 0;
      while k < |pending|
        invariant 0 <= k <= |pending|
        invariant Valid() && old(history) <= history && Calm() && (old(historySyncCanceled) ==> historySyncCanceled)
        invariant old(SentOnlyWhileActive()) ==> SentOnlyWhileActive()
        invariant old(NeverClamped()) ==> NeverClamped()
        invariant Balanced(result, found')
        invariant Reported(progressBefore, progressSent, Snapshot(|w.chatIds|, processed', found'))
        invariant processed' + (|pending| - k) + |next| == |w.chatIds|
        invariant forall j :: 0 <= j < |next| ==> next[j] < |w.chatIds|
        invariant sentBefore <= batchesSent <= sentBefore + Sent(w, Schedule(w, MAX_PASSES))
        invariant !historySyncCanceled ==>
                    && pending == Pending(w, pass)
                    && next == RequeuedOf(w, Pending(w, pass)[..k], pass)
                    && Reached(w, Done(w, pass, k), result, synced', processed', found', sentBefore, progressBefore)
      {
        if !IsActive() {
          return true, next, synced', processed', found';
        }
        DoneStep(w, pass, k);
        SentNext(w, pass, k);
        var v := VisitAt(pending[k], pass);
        var requeue;
        requeue, synced', processed', found' :=
          VisitChat(w, v, result, synced', processed', Done(w, pass, k), found', sentBefore, progressBefore);
        PrefixOfWhole(sentBefore, Sent(w, Done(w, pass, k)), SentBy(w.visit(v.chat, v.pass)),
                      Sent(w, Schedule(w, MAX_PASSES)), batchesSent);
        if requeue {
          next := next + [pending[k]];
        }
        k := k + 1;
      }
      threw := false;
    }

    /** The passes, until the queue is empty or the limit is reached. */
    method RunPasses(w: World, result: HistorySyncResult, ghost sentBefore: seq<seq<Payload>>,
                     ghost progressBefore: seq<Progress>)
      returns (threw: bool, synced: set<string>, processed: nat, ghost found: seq<Payload>)
      requires Valid() && historySyncPromise.Some? && Calm() && Balanced(result, [])
      requires |w.chatIds| == result.chatsEligible && result.errors == [] && result.messagesEmitted == 0
      requires batchesSent == sentBefore && progressSent == progressBefore + [Snapshot(|w.chatIds|, 0, [])]
      requires Reported(progressBefore, progressSent, Snapshot(|w.chatIds|, 0, []))
      modifies `desiredState, `historySyncCanceled, `destroyed, `reconnectTimer, `armed, `nextTimer, `disconnects,
               `history, `batchesSent, `activeAtSend, `progressSent, `progressAsked, result`messagesEmitted,
               result`messagesDiscovered, result`inboundMessages, result`outboundMessages, result`mediaMessages,
               result`errors
      ensures Valid() && old(history) <= history && Calm() && (old(historySyncCanceled) ==> historySyncCanceled)
      ensures old(SentOnlyWhileActive()) ==> SentOnlyWhileActive()
      ensures old(NeverClamped()) ==> NeverClamped()
      ensures Balanced(result, found) && processed <= |w.chatIds|
      ensures Reported(progressBefore, progressSent, Snapshot(|w.chatIds|, processed, found))
      ensures sentBefore <= batchesSent <= sentBefore + Sent(w, Schedule(w, MAX_PASSES))
      ensures threw ==> !IsActive()
      ensures !historySyncCanceled ==>
                Reached(w, Schedule(w, MAX_PASSES), result, synced, |w.chatIds|, found, sentBefore, progressBefore)
    {
      hide Run, CountInbound, CountOutbound, CountMedia, Schedule, Pending, Sent, Errors, Synced, Processed;
      hide Discovered, ProgressAfter, Flatten, Reported, Snapshot, WhatsAppSession.Valid, WhatsAppSession.Balanced;
      threw, synced, processed, found := false, {}, 0, [];
      var pass: nat, pending: seq<nat> := 0, AllChats(|w.chatIds|);
      AllChatsShape(|w.chatIds|);
      ScheduleBegins(w);
      while pass < MAX_PASSES && |pending| > 0
        invariant 0 <= pass <= MAX_PASSES
        invariant Valid() && old(history) <= history && Calm() && (old(historySyncCanceled) ==> historySyncCanceled)
        invariant old(SentOnlyWhileActive()) ==> SentOnlyWhileActive()
        invariant old(NeverClamped()) ==> NeverClamped()
        invariant Balanced(result, found)
        invariant Reported(progressBefore, progressSent, Snapshot(|w.chatIds|, processed, found))
        invariant processed + |pending| == |w.chatIds|
        invariant forall k :: 0 <= k < |pending| ==> pending[k] < |w.chatIds|
        invariant sentBefore <= batchesSent <= sentBefore + Sent(w, Schedule(w, MAX_PASSES))
        invariant !historySyncCanceled ==>
                    && pending == Pending(w, pass)
                    && Reached(w, Schedule(w, pass), result, synced, processed, found, sentBefore, progressBefore)
      {
        threw, pending, synced, processed, found :=
          RunPass(w, pass, pending, result, synced, processed, found, sentBefore, progressBefore);
        if threw {
          return;
        }
        pass := pass + 1;
      }
      SyncProcessesEveryChat(w);
      if !historySyncCanceled {
        if pass < MAX_PASSES {
          EmptyQueueStays(w, pass, MAX_PASSES);
        }
      }
    }

    /** The chats worth syncing; `ok` is false if an activity check failed, which needs a chat to be looked at. */
    method SelectChats(chats: seq<ChatInfo>, result: HistorySyncResult) returns (ok: bool, ids: seq<string>)
      requires result.chatsEvaluated == 0
      modifies result`chatsEvaluated
      ensures ok <==> IsActive() || chats == []
      ensures ok ==> ids == EligibleIds(chats) && result.chatsEvaluated == |chats|
    {
      ids := [];
      var i := 0;
      while i < |chats|
        invariant 0 <= i <= |chats|
        invariant ids == EligibleIds(chats[..i]) && result.chatsEvaluated == i
        invariant i > 0 ==> IsActive()
      {
        if !IsActive() {
          return false, ids;
        }
        result.chatsEvaluated := result.chatsEvaluated + 1;
        assert chats[..i + 1][..i] == chats[..i];
        if IsEligible(chats[i]) {
          ids := ids + [chats[i].id.value];
        }
        i := i + 1;
      }
      assert chats[..i] == chats;
      ok := true;
    }

    /** The promise of sync `id` rejects. */
    ghost method RejectSync(id: nat)
      requires Valid() && id in stage && stage[id] == Syncing
      modifies `stage, `endings, `history
      ensures Valid() && history == old(history) + [SyncRejects(id)]
      ensures stage == old(stage)[id := Settled] && endings == old(endings)[id := Rejected]
    {
      hide Run;
      RunSnoc(INITIAL, history, SyncRejects(id));
      stage, endings := stage[id := Settled], endings[id := Rejected];
      history := history + [SyncRejects(id)];
    }

    /** The activity check after the last pass; if it fails the promise rejects. */
    method PassFinalCheck(id: nat) returns (ok: bool)
      requires Valid() && id in stage && stage[id] == Syncing
      modifies `stage, `endings, `history
      ensures Valid() && history == old(history) + [SyncFinalCheck(id)]
      ensures ok == old(IsActive())
      ensures ok ==> stage == old(stage)[id := PastFinalCheck] && endings == old(endings)
      ensures !ok ==> stage == old(stage)[id := Settled] && endings == old(endings)[id := Rejected]
    {
      hide Run;
      RunSnoc(INITIAL, history, SyncFinalCheck(id));
      ok := IsActive();
      if ok {
        stage := stage[id := PastFinalCheck];
      } else {
        stage, endings := stage[id := Settled], endings[id := Rejected];
      }
      history := history + [SyncFinalCheck(id)];
    }

    ghost method ResolveSync(id: nat)
      requires Valid() && id in stage && stage[id] == PastFinalCheck
      modifies `stage, `endings, `history
      ensures Valid() && history == old(history) + [SyncResolves(id)]
      ensures stage == old(stage)[id := Settled] && endings == old(endings)[id := Resolved]
    {
      hide Run;
      RunSnoc(INITIAL, history, SyncResolves(id));
      stage, endings := stage[id := Settled], endings[id := Resolved];
      history := history + [SyncResolves(id)];
    }

    /** What a sync that resolves has done: every result field, every batch and every progress event. */
    ghost predicate Completed(w: World, chats: seq<ChatInfo>, result: HistorySyncResult,
                              sentBefore: seq<seq<Payload>>, progressBefore: seq<Progress>)
      reads `batchesSent, `progressSent, result
    {
      var visits := Schedule(w, MAX_PASSES);
      && result.chatsEvaluated == |chats|
      && result.chatsEligible == |w.chatIds|
      && result.chatsSynced == |Synced(w, visits)|
      && result.errors == Errors(w, visits)
      && result.Counts(Discovered(w, visits))
      && result.messagesEmitted == |Flatten(Sent(w, visits))|
      && batchesSent == sentBefore + Sent(w, visits)
      && progressSent == progressBefore + AllProgress(w)
    }

    /** The counters of the result and of the last progress event are the numbers of messages, of own, of others'
        and of media messages in `found`. */
    ghost predicate Tallied(result: HistorySyncResult, found: seq<Payload>)
      reads `progressSent, result
    {
      var own, media := set k | 0 <= k < |found| && found[k].fromMe, set k | 0 <= k < |found| && found[k].hasMedia;
      var others := set k | 0 <= k < |found| && !found[k].fromMe;
      && result.messagesDiscovered == |found|
      && result.outboundMessages == |own| && result.inboundMessages == |others| && result.mediaMessages == |media|
      && progressSent != []
      && var last := progressSent[|progressSent| - 1];
         && last.messagesProcessed == |found|
         && last.outboundMessages == |own| && last.inboundMessages == |others| && last.mediaMessages == |media|
         && last.totalChats == last.processedChats == result.chatsEligible
    }

    /** A completed sync tallies what the first visit of each chat keeps. */
    lemma CompletedTallies(w: World, chats: seq<ChatInfo>, result: HistorySyncResult,
                           sentBefore: seq<seq<Payload>>, progressBefore: seq<Progress>)
      requires Completed(w, chats, result, sentBefore, progressBefore)
      ensures Tallied(result, FirstVisitMessages(w, |w.chatIds|))
    {
      hide Schedule, Discovered, Sent, Errors, Synced, ProgressAfter, FirstVisitMessages, AllProgress;
      hide CountInbound, CountOutbound, CountMedia;
      var visits := Schedule(w, MAX_PASSES);
      var found := Discovered(w, visits);
      DiscoveredOnce(w, MAX_PASSES);
      CountsAreSizes(found);
      ProgressAt(w, |visits|);
      assert progressSent[|progressSent| - 1] == AllProgress(w)[|AllProgress(w)| - 1];
    }

    /** The body of a sync up to the first pass; `None` if it throws. */
    method BeginSync(clientReady: bool, listing: Option<seq<ChatInfo>>)
      returns (started: Option<HistorySyncResult>, ids: seq<string>)
      requires Valid() && historySyncPromise.Some?
      modifies `desiredState, `historySyncCanceled, `destroyed, `reconnectTimer, `armed, `nextTimer, `disconnects,
               `history, `progressSent, `progressAsked
      ensures Valid() && old(history) <= history && (old(historySyncCanceled) ==> historySyncCanceled)
      ensures old(NeverClamped()) ==> NeverClamped()
      ensures started.Some? ==>
                && clientReady && listing.Some? && ids == EligibleIds(listing.value) && Calm()
                && fresh(started.value) && Balanced(started.value, []) && started.value.errors == []
                && started.value.messagesEmitted == 0
                && started.value.chatsEvaluated == |listing.value| && started.value.chatsEligible == |ids|
                && progressSent == old(progressSent) + [Snapshot(|ids|, 0, [])]
                && Reported(old(progressSent), progressSent, Snapshot(|ids|, 0, []))
      ensures started.None? ==> progressSent == old(progressSent)
      ensures started.None? ==> !clientReady || listing.None? || !IsActive()
    {
      hide Run, Reported, EligibleIds, WhatsAppSession.Valid, WhatsAppSession.View;
      started, ids := None, [];
      Await();
      if !clientReady || !IsActive() {
        return;
      }
      var result := new HistorySyncResult();
      Await();
      if listing.None? || !IsActive() {
        return;
      }
      var ok;
      ok, ids := SelectChats(listing.value, result);
      if !ok {
        return;
      }
      result.chatsEligible := |ids|;
      ReportFirst(progressSent, Snapshot(|ids|, 0, []));
      EmitHistorySyncProgress(Progress(|ids|, 0, 0, 0, 0, 0));
      started := Some(result);
    }

    /** The body of a sync after the last pass. */
    method FinishSync(id: nat, result: HistorySyncResult, synced: set<string>, processed: nat, ghost w: World,
                      ghost chats: seq<ChatInfo>, ghost found: seq<Payload>, ghost sentBefore: seq<seq<Payload>>,
                      ghost progressBefore: seq<Progress>)
      returns (ok: bool)
      requires Valid() && historySyncPromise.Some? && id in stage && stage[id] == Syncing
      requires Balanced(result, found) && processed <= |w.chatIds|
      requires Reported(progressBefore, progressSent, Snapshot(|w.chatIds|, processed, found))
      requires result.chatsEvaluated == |chats| && result.chatsEligible == |w.chatIds|
      requires !historySyncCanceled ==>
                 Reached(w, Schedule(w, MAX_PASSES), result, synced, |w.chatIds|, found, sentBefore,
                         progressBefore)
      modifies `desiredState, `historySyncCanceled, `destroyed, `reconnectTimer, `armed, `nextTimer, `disconnects,
               `history, `progressSent, `progressAsked, `stage, `endings, result`chatsSynced
      ensures Valid() && old(history) <= history && (old(historySyncCanceled) ==> historySyncCanceled)
      ensures ok == old(IsActive())
      ensures !ok ==> !IsActive()
      ensures old(NeverClamped()) ==> NeverClamped()
      ensures Advances(progressBefore, progressSent)
      ensures stage == old(stage)[id := Settled]
      ensures endings == old(endings)[id := if ok then Resolved else Rejected]
      ensures ok ==> Completed(w, chats, result, sentBefore, progressBefore)
    {
      hide Run, NotBehind, Advances, CountInbound, CountOutbound, CountMedia;
      hide WhatsAppSession.Valid, WhatsAppSession.View;
      hide Schedule, Sent, Errors, Synced, Discovered, ProgressAfter, Flatten, AllProgress;
      result.chatsSynced := |synced|;
      ok := PassFinalCheck(id);
      if !ok {
        return;
      }
      SnapshotsOrdered(|w.chatIds|, processed, |w.chatIds|, found, found);
      ReportMore(progressBefore, progressSent, Snapshot(|w.chatIds|, processed, found),
                 Snapshot(|w.chatIds|, |w.chatIds|, found));
      EmitHistorySyncProgress(Progress(result.chatsEligible, result.chatsEligible, result.messagesDiscovered,
                                       result.inboundMessages, result.outboundMessages, result.mediaMessages));
      ResolveSync(id);
      AllProgressParts(w, progressBefore);
    }

    /** The body of a sync. `clientReady`, `listing` and `visit` are what the client answers. */
    method PerformHistorySync(id: nat, clientReady: bool, listing: Option<seq<ChatInfo>>, visit: (nat, nat) -> Visit)
      returns (answer: Option<HistorySyncResult>)
      requires Valid() && historySyncPromise == Some(id) && id in stage && stage[id] == Syncing
      modifies `desiredState, `historySyncCanceled, `destroyed, `reconnectTimer, `armed, `nextTimer, `disconnects,
               `history, `batchesSent, `activeAtSend, `progressSent, `progressAsked, `stage, `endings
      ensures Valid() && old(history) <= history && (old(historySyncCanceled) ==> historySyncCanceled)
      ensures old(SentOnlyWhileActive()) ==> SentOnlyWhileActive()
      ensures old(NeverClamped()) ==> NeverClamped()
      ensures Advances(old(progressSent), progressSent)
      ensures stage == old(stage)[id := Settled]
      ensures endings == old(endings)[id := if answer.Some? then Resolved else Rejected]
      ensures answer.None? ==> !clientReady || listing.None? || !IsActive()
      ensures listing.None? ==> batchesSent == old(batchesSent)
      ensures listing.Some? ==>
                var w := World(EligibleIds(listing.value), visit);
                old(batchesSent) <= batchesSent <= old(batchesSent) + Sent(w, Schedule(w, MAX_PASSES))
      ensures answer.Some? ==>
                && clientReady && listing.Some? && fresh(answer.value)
                && Completed(World(EligibleIds(listing.value), visit), listing.value, answer.value,
                             old(batchesSent), old(progressSent))
    {
      hide Run, Advances, Reported, CountInbound, CountOutbound, CountMedia;
      hide Schedule, Sent, Errors, Synced, Discovered, ProgressAfter;
      hide Flatten, EligibleIds, Snapshot, AllProgress, WhatsAppSession.Valid, WhatsAppSession.SentOnlyWhileActive;
      hide WhatsAppSession.View, WhatsAppSession.Calm, WhatsAppSession.IsActive, WhatsAppSession.Reached;
      hide WhatsAppSession.Completed, WhatsAppSession.Balanced, WhatsAppSession.NeverClamped, HistorySyncResult.Counts;
      answer := None;
      NothingSent(progressSent);
      var started, ids := BeginSync(clientReady, listing);
      if started.None? {
        RejectSync(id);
        return;
      }
      var result, w := started.value, World(ids, visit);
      var threw, synced, processed;
      ghost var found;
      threw, synced, processed, found := RunPasses(w, result, batchesSent, old(progressSent));
      ReportedAdvances(old(progressSent), progressSent, Snapshot(|ids|, processed, found));
      if threw {
        RejectSync(id);
        return;
      }
      var ok := FinishSync(id, result, synced, processed, w, listing.value, found, old(batchesSent),
                           old(progressSent));
      if ok {
        answer := Some(result);
      }
    }

    /** The synchronous beginning of a new sync, which starts the session if it has no client. */
    method BeginPromise(hasClient: bool) returns (id: nat)
      requires Valid() && historySyncPromise.None?
      modifies `desiredState, `historySyncCanceled, `historySyncPromise, `nextSync, `stage, `history
      ensures Valid() && history == old(history) + [SyncCalled(hasClient)]
      ensures !historySyncCanceled && nextSync == old(nextSync) + 1
      ensures desiredState == if hasClient then old(desiredState) else Running
      ensures View() == Apply(old(View()), SyncCalled(hasClient))
      ensures id == old(nextSync) && historySyncPromise == Some(id)
      ensures endings == old(endings) && stage == old(stage)[id := Syncing]
    {
      hide Run;
      RunSnoc(INITIAL, history, SyncCalled(hasClient));
      historySyncCanceled, historySyncPromise, id := false, Some(nextSync), nextSync;
      if !hasClient {
        desiredState := Running;
      }
      nextSync := nextSync + 1;
      stage, history := stage[id := Syncing], history + [SyncCalled(hasClient)];
    }

    /** The `finally` callback of the promise. */
    method FinishPromise(id: nat)
      requires Valid() && id in stage && stage[id] == Settled
      modifies `historySyncPromise, `stage, `history
      ensures Valid() && history == old(history) + [SyncFinally(id)] && historySyncPromise.None?
      ensures stage == old(stage) - {id}
    {
      hide Run;
      RunSnoc(INITIAL, history, SyncFinally(id));
      historySyncPromise := None;
      stage, history := stage - {id}, history + [SyncFinally(id)];
    }

    /** In any run, a sync that resolved met no stop between its call and its final check. */
    lemma ResolvedUndisturbed(before: seq<Event>, hasClient: bool, id: nat)
      requires Valid() && before + [SyncCalled(hasClient)] <= history
      requires Run(INITIAL, before).promise.None? && id == Run(INITIAL, before).nextSync
      requires id in endings && endings[id] == Resolved
      ensures CheckedBeforeAnyStop(history[|before| + 1..], id)
    {
      hide Run, SomeStop;
      var called := Apply(Run(INITIAL, before), SyncCalled(hasClient));
      var after := history[|before| + 1..];
      RunsAreSafe(before);
      StepKeepsTimers(Run(INITIAL, before), SyncCalled(hasClient));
      StepKeepsSyncs(Run(INITIAL, before), SyncCalled(hasClient));
      RunSnoc(INITIAL, before, SyncCalled(hasClient));
      RunConcat(INITIAL, before + [SyncCalled(hasClient)], after);
      assert before + [SyncCalled(hasClient)] + after == history;
      ResolvedWhileUndisturbed(called, after, id);
    }

    /** A sync that was active when called and met an inactive moment met a stop. */
    lemma InactiveAfterStop(before: seq<Event>, hasClient: bool)
      requires Valid() && before + [SyncCalled(hasClient)] <= history && !IsActive()
      requires Run(INITIAL, before).promise.None? && (Run(INITIAL, before).desired == Running || !hasClient)
      ensures SomeStop(history[|before| + 1..])
    {
      hide Run, SomeStop;
      var called := Apply(Run(INITIAL, before), SyncCalled(hasClient));
      var after := history[|before| + 1..];
      RunsAreSafe(before);
      StepKeepsTimers(Run(INITIAL, before), SyncCalled(hasClient));
      StepKeepsSyncs(Run(INITIAL, before), SyncCalled(hasClient));
      RunSnoc(INITIAL, before, SyncCalled(hasClient));
      RunConcat(INITIAL, before + [SyncCalled(hasClient)], after);
      assert before + [SyncCalled(hasClient)] + after == history;
      InactiveNeedsStop(called, after);
    }

    /** A stop, once recorded, stays recorded. */
    lemma StopRemains(earlier: seq<Event>, n: nat)
      requires n <= |earlier| && earlier <= history && SomeStop(earlier[n..])
      ensures SomeStop(history[n..])
    {
      var k :| 0 <= k < |earlier| - n && Stops(earlier[n..][k]);
      assert history[n..][k] == earlier[n..][k];
    }

    /** A new sync, from its promise to its ending. */
    method StartNewSync(hasClient: bool, clientAfterStart: bool, listing: Option<seq<ChatInfo>>,
                        visit: (nat, nat) -> Visit)
      returns (answer: Option<HistorySyncResult>)
      requires Valid() && historySyncPromise.None?
      modifies `desiredState, `historySyncCanceled, `destroyed, `reconnectTimer, `armed, `nextTimer, `disconnects,
               `history, `batchesSent, `activeAtSend, `progressSent, `progressAsked, `stage, `endings,
               `historySyncPromise, `nextSync
      ensures Valid() && historySyncPromise == Some(old(nextSync)) && stage == old(stage)[old(nextSync) := Settled]
      ensures old(history) + [SyncCalled(hasClient)] <= history
      ensures old(SentOnlyWhileActive()) ==> SentOnlyWhileActive()
      ensures old(NeverClamped()) ==> NeverClamped()
      ensures Advances(old(progressSent), progressSent)
      ensures endings == old(endings)[old(nextSync) := if answer.Some? then Resolved else Rejected]
      ensures listing.None? ==> batchesSent == old(batchesSent)
      ensures listing.Some? ==>
                var w := World(EligibleIds(listing.value), visit);
                old(batchesSent) <= batchesSent <= old(batchesSent) + Sent(w, Schedule(w, MAX_PASSES))
      ensures answer.Some? ==>
                && listing.Some? && fresh(answer.value)
                && Completed(World(EligibleIds(listing.value), visit), listing.value, answer.value,
                             old(batchesSent), old(progressSent))
      ensures answer.None? && (hasClient || clientAfterStart) && listing.Some?
              && (old(desiredState) == Running || !hasClient) ==>
                SomeStop(history[|old(history)| + 1..])
    {
      hide Run, Advances, Schedule, Sent, EligibleIds, Apply;
      hide WhatsAppSession.Completed, WhatsAppSession.SentOnlyWhileActive;
      hide WhatsAppSession.NeverClamped, SomeStop, WhatsAppSession.IsActive;
      assert Run(INITIAL, history).promise == historySyncPromise;
      assert Run(INITIAL, history).desired == desiredState;
      hide WhatsAppSession.Valid, WhatsAppSession.View;
      var id := BeginPromise(hasClient);
      answer := PerformHistorySync(id, hasClient || clientAfterStart, listing, visit);
      if !IsActive() && (old(desiredState) == Running || !hasClient) {
        InactiveAfterStop(old(history), hasClient);
      }
    }

    /** A new sync, to the end of its promise's `finally` callback. */
    method RunNewSync(hasClient: bool, clientAfterStart: bool, listing: Option<seq<ChatInfo>>,
                      visit: (nat, nat) -> Visit)
      returns (answer: Option<HistorySyncResult>)
      requires Valid() && historySyncPromise.None?
      modifies `desiredState, `historySyncCanceled, `destroyed, `reconnectTimer, `armed, `nextTimer, `disconnects,
               `history, `batchesSent, `activeAtSend, `progressSent, `progressAsked, `stage, `endings,
               `historySyncPromise, `nextSync
      ensures Valid() && historySyncPromise.None? && old(history) + [SyncCalled(hasClient)] <= history
      ensures old(SentOnlyWhileActive()) ==> SentOnlyWhileActive()
      ensures old(NeverClamped()) ==> NeverClamped()
      ensures Advances(old(progressSent), progressSent)
      ensures endings == old(endings)[old(nextSync) := if answer.Some? then Resolved else Rejected]
      ensures listing.None? ==> batchesSent == old(batchesSent)
      ensures listing.Some? ==>
                var w := World(EligibleIds(listing.value), visit);
                old(batchesSent) <= batchesSent <= old(batchesSent) + Sent(w, Schedule(w, MAX_PASSES))
      ensures answer.Some? ==>
                && listing.Some? && fresh(answer.value)
                && Completed(World(EligibleIds(listing.value), visit), listing.value, answer.value,
                             old(batchesSent), old(progressSent))
      ensures answer.None? && (hasClient || clientAfterStart) && listing.Some?
              && (old(desiredState) == Running || !hasClient) ==>
                SomeStop(history[|old(history)| + 1..])
    {
      hide Run, Advances, Schedule, Sent, EligibleIds, Apply;
      hide WhatsAppSession.Completed, WhatsAppSession.SentOnlyWhileActive;
      hide WhatsAppSession.NeverClamped, WhatsAppSession.Valid, WhatsAppSession.View, SomeStop;
      var id := nextSync;
      answer := StartNewSync(hasClient, clientAfterStart, listing, visit);
      ghost var settled := history;
      Await();
      FinishPromise(id);
      if SomeStop(settled[|old(history)| + 1..]) {
        StopRemains(settled, |old(history)| + 1);
      }
    }

    /** `syncHistory`: joins the sync in flight or runs a new one. */
    method SyncHistory(hasClient: bool, clientAfterStart: bool, listing: Option<seq<ChatInfo>>,
                       visit: (nat, nat) -> Visit)
      returns (joined: Option<nat>, answer: Option<HistorySyncResult>)
      requires Valid()
      modifies `desiredState, `historySyncCanceled, `destroyed, `reconnectTimer, `armed, `nextTimer, `disconnects,
               `history, `batchesSent, `activeAtSend, `progressSent, `progressAsked, `stage, `endings,
               `historySyncPromise, `nextSync
      ensures Valid()
      ensures old(SentOnlyWhileActive()) ==> SentOnlyWhileActive()
      ensures old(NeverClamped()) ==> NeverClamped()
      ensures Advances(old(progressSent), progressSent)
      ensures joined == old(historySyncPromise)
      ensures joined.Some? ==>
                && answer.None? && history == old(history) + [SyncCalled(hasClient)]
                && View() == Apply(old(View()), SyncCalled(hasClient))
                && batchesSent == old(batchesSent) && progressSent == old(progressSent)
      ensures joined.None? ==>
                && historySyncPromise.None? && old(history) + [SyncCalled(hasClient)] <= history
                && endings == old(endings)[old(nextSync) := if answer.Some? then Resolved else Rejected]
      ensures listing.None? ==> batchesSent == old(batchesSent)
      ensures listing.Some? ==>
                var w := World(EligibleIds(listing.value), visit);
                old(batchesSent) <= batchesSent <= old(batchesSent) + Sent(w, Schedule(w, MAX_PASSES))
      ensures answer.Some? ==>
                && listing.Some? && fresh(answer.value)
                && Completed(World(EligibleIds(listing.value), visit), listing.value, answer.value,
                             old(batchesSent), old(progressSent))
                && CheckedBeforeAnyStop(history[|old(history)| + 1..], old(nextSync))
      ensures answer.Some? ==>
                var w := World(EligibleIds(listing.value), visit);
                Tallied(answer.value, FirstVisitMessages(w, |w.chatIds|))
      ensures joined.None? && answer.None? && (hasClient || clientAfterStart) && listing.Some?
              && (old(desiredState) == Running || !hasClient) ==>
                SomeStop(history[|old(history)| + 1..])
    {
      hide Run, Advances, EligibleIds, Schedule, Sent, SomeStop, Apply, CheckedBeforeAnyStop, WhatsAppSession.Completed;
      hide WhatsAppSession.Tallied, FirstVisitMessages;
      hide WhatsAppSession.NeverClamped, WhatsAppSession.SentOnlyWhileActive;
      assert Run(INITIAL, history).promise == historySyncPromise && Run(INITIAL, history).nextSync == nextSync;
      hide WhatsAppSession.Valid, WhatsAppSession.View;
      NothingSent(progressSent);
      joined, answer := historySyncPromise, None;
      if historySyncPromise.Some? {
        var _ := JoinSync(hasClient);
      } else {
        answer := RunNewSync(hasClient, clientAfterStart, listing, visit);
        if answer.Some? {
          ResolvedUndisturbed(old(history), hasClient, old(nextSync));
          CompletedTallies(World(EligibleIds(listing.value), visit), listing.value, answer.value, old(batchesSent),
                           old(progressSent));
        }
      }
    }
  }
}
