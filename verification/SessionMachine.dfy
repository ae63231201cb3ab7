/** The control state of one gateway session, stepped at its await points: the reconnect timer, the single history
    sync in flight and its cooperative cancellation. */
module SessionMachine {
  import opened JsString
  import opened DesiredState

  /** Where the body of a history sync stands: `Settled` until the promise's `finally` callback has run. */
  datatype Stage = Syncing | PastFinalCheck | Settled

  datatype Ending = Resolved | Rejected

  datatype Session = Session(
    desired: Desired,
    canceled: bool,
    destroyed: bool,
    held: Option<nat>,          // the reconnectTimer field, which firing does not clear
    armed: set<nat>,            // timers that may still fire
    nextTimer: nat,
    disconnects: nat,           // `disconnected` handlers still awaiting their callback
    promise: Option<nat>,       // the historySyncPromise field
    stage: map<nat, Stage>,
    endings: map<nat, Ending>,
    nextSync: nat
  )

  datatype Event =
    | StartCalled                     // start
    | StopCalled                      // stop, disconnect, logout, and the first half of reconnect
    | DestroyCalled
    | ClientDisconnected
    | DisconnectHandled               // the handler resumes after its callback
    | TimerFires(timer: nat)
    | SyncCalled(hasClient: bool)
    | SyncRejects(id: nat)            // an error outside the per-chat handler
    | SyncFinalCheck(id: nat)
    | SyncResolves(id: nat)
    | SyncFinally(id: nat)

  const INITIAL := Session(Running, false, false, None, {}, 0, 0, None, map[], map[], 0)

  /** `assertHistorySyncActive` does not throw. */
  predicate Active(s: Session) {
    !s.canceled && s.desired == Running
  }

  predicate InStage(s: Session, id: nat, g: Stage) {
    id in s.stage && s.stage[id] == g
  }

  function ClearTimer(s: Session): Session {
    s.(armed := if s.held.Some? then s.armed - {s.held.value} else s.armed, held := None)
  }

  function ScheduleReconnect(s: Session): Session {
    var c := ClearTimer(s);
    c.(armed := c.armed + {c.nextTimer}, held := Some(c.nextTimer), nextTimer := c.nextTimer + 1)
  }

  function Stop(s: Session): Session {
    ClearTimer(s.(desired := Stopped, canceled := true))
  }

  function Settle(s: Session, id: nat, ending: Ending): Session {
    s.(stage := s.stage[id := Settled], endings := s.endings[id := ending])
  }

  function Apply(s: Session, e: Event): Session {
    match e
    case StartCalled => s.(desired := Running)
    case StopCalled => Stop(s)
    case DestroyCalled => Stop(s.(destroyed := true))
    case ClientDisconnected => s.(disconnects := s.disconnects + 1)
    case DisconnectHandled =>
      if s.disconnects == 0 then s
      else
        var t := s.(disconnects := s.disconnects - 1);
        if t.desired == Running && !t.destroyed then ScheduleReconnect(t) else t
    case TimerFires(timer) =>
      if timer in s.armed then s.(armed := s.armed - {timer}, desired := Running) else s
    case SyncCalled(hasClient) =>
      if s.promise.Some? then s
      else s.(canceled := false, desired := if hasClient then s.desired else Running, promise := Some(s.nextSync),
              stage := s.stage[s.nextSync := Syncing], nextSync := s.nextSync + 1)
    case SyncRejects(id) =>
      if InStage(s, id, Syncing) then Settle(s, id, Rejected) else s
    case SyncFinalCheck(id) =>
      if !InStage(s, id, Syncing) then s
      else if Active(s) then s.(stage := s.stage[id := PastFinalCheck])
      else Settle(s, id, Rejected)
    case SyncResolves(id) =>
      if InStage(s, id, PastFinalCheck) then Settle(s, id, Resolved) else s
    case SyncFinally(id) =>
      if InStage(s, id, Settled) then s.(promise := None, stage := s.stage - {id}) else s
  }

  function Run(s: Session, es: seq<Event>): Session {
    if es == [] then s else Apply(Run(s, es[..|es| - 1]), es[|es| - 1])
  }

  lemma RunSnoc(s: Session, es: seq<Event>, e: Event)
    ensures Run(s, es + [e]) == Apply(Run(s, es), e)
  {
    assert (es + [e])[..|es|] == es;
  }

  // ---------- the invariant of every run ----------

  ghost predicate TimerSafe(s: Session) {
    && (forall t :: t in s.armed ==> s.held == Some(t))
    && (s.held.Some? ==> s.desired == Running && !s.destroyed && s.held.value < s.nextTimer)
  }

  ghost predicate SyncSafe(s: Session) {
    && (forall id :: id in s.stage <==> s.promise == Some(id))
    && (forall id :: id in s.stage ==> id < s.nextSync && (id in s.endings <==> s.stage[id] == Settled))
    && (forall id :: id in s.endings ==> id < s.nextSync)
  }

  lemma StepKeepsTimers(s: Session, e: Event)
    requires TimerSafe(s)
    ensures TimerSafe(Apply(s, e))
  {
  }

  lemma StepKeepsSyncs(s: Session, e: Event)
    requires SyncSafe(s)
    ensures SyncSafe(Apply(s, e)) && Apply(s, e).nextSync >= s.nextSync
  {
  }

  lemma {:induction false} RunKeepsSafe(s: Session, es: seq<Event>)
    requires TimerSafe(s) && SyncSafe(s)
    ensures TimerSafe(Run(s, es)) && SyncSafe(Run(s, es))
    ensures Run(s, es).nextSync >= s.nextSync
  {
    hide Apply, TimerSafe, SyncSafe;
    if es != [] {
      RunKeepsSafe(s, es[..|es| - 1]);
      StepKeepsTimers(Run(s, es[..|es| - 1]), es[|es| - 1]);
      StepKeepsSyncs(Run(s, es[..|es| - 1]), es[|es| - 1]);
    }
  }

  /** After any run: at most one timer is armed, it is the one held, and a held timer means the session should run and
      is not destroyed; at most one history sync is in flight, and it is the one the promise field names. */
  lemma RunsAreSafe(es: seq<Event>)
    ensures TimerSafe(Run(INITIAL, es)) && SyncSafe(Run(INITIAL, es))
  {
    RunKeepsSafe(INITIAL, es);
  }

  lemma AtMostOneTimerOneSync(es: seq<Event>)
    ensures |Run(INITIAL, es).armed| <= 1 && |Run(INITIAL, es).stage| <= 1
  {
    RunsAreSafe(es);
    var s := Run(INITIAL, es);
    if t :| t in s.armed {
      assert s.armed == {t};
    }
    if id :| id in s.stage {
      assert s.stage == map[id := s.stage[id]];
    }
  }

  // ---------- reconnect ----------

  predicate Stops(e: Event) {
    e == StopCalled || e == DestroyCalled
  }

  /** A reported disconnect of a session that should run and is not destroyed arms a new timer, the only one; any
      other leaves the timers alone. */
  lemma DisconnectArms(es: seq<Event>)
    ensures var s, t := Run(INITIAL, es), Run(INITIAL, es + [DisconnectHandled]);
            if s.disconnects > 0 && s.desired == Running && !s.destroyed
            then exists timer: nat :: timer !in s.armed && t.held == Some(timer) && t.armed == {timer}
            else t.armed == s.armed && t.held == s.held
  {
    RunSnoc(INITIAL, es, DisconnectHandled);
    RunsAreSafe(es);
    hide Run;
    var s, t := Run(INITIAL, es), Run(INITIAL, es + [DisconnectHandled]);
    if s.disconnects > 0 && s.desired == Running && !s.destroyed {
      assert t.held == Some(s.nextTimer) && s.nextTimer !in s.armed;
      assert t.armed == {s.nextTimer};
    }
  }

  /** The event reports a disconnect of a session that should run and is not destroyed. */
  predicate ArmsIn(s: Session, e: Event) {
    e == DisconnectHandled && s.disconnects > 0 && s.desired == Running && !s.destroyed
  }

  /** The event is an armed timer going off. */
  predicate FiresIn(s: Session, e: Event) {
    e.TimerFires? && e.timer in s.armed
  }

  lemma ArmedStep(s: Session, e: Event)
    requires TimerSafe(s)
    ensures Apply(s, e).armed != {} <==> ArmsIn(s, e) || (s.armed != {} && !Stops(e) && !FiresIn(s, e))
  {
    if t :| t in s.armed {
      assert s.armed == {t};
    }
  }

  /** At `k` a reported disconnect armed a timer, and since then nothing stopped the session and no timer went off. */
  ghost predicate ArmedAt(es: seq<Event>, k: nat) {
    && k < |es| && ArmsIn(Run(INITIAL, es[..k]), es[k])
    && forall j :: k < j < |es| ==> !Stops(es[j]) && !FiresIn(Run(INITIAL, es[..j]), es[j])
  }

  lemma ArmedAtSnoc(es: seq<Event>, k: nat)
    requires k < |es| - 1
    ensures ArmedAt(es, k) <==>
            && ArmedAt(es[..|es| - 1], k)
            && !Stops(es[|es| - 1]) && !FiresIn(Run(INITIAL, es[..|es| - 1]), es[|es| - 1])
  {
    hide Run, Stops, FiresIn, ArmsIn;
    var front := es[..|es| - 1];
    forall j | 0 <= j <= |front| ensures front[..j] == es[..j] {
    }
    if ArmedAt(front, k) && !Stops(es[|es| - 1]) && !FiresIn(Run(INITIAL, front), es[|es| - 1]) {
      forall j | k < j < |es| ensures !Stops(es[j]) && !FiresIn(Run(INITIAL, es[..j]), es[j]) {
        if j < |front| {
          assert front[j] == es[j];
        }
      }
    }
    if ArmedAt(es, k) {
      forall j | k < j < |front| ensures !Stops(front[j]) && !FiresIn(Run(INITIAL, front[..j]), front[j]) {
        assert front[j] == es[j];
      }
    }
  }

  /** After any run a timer is armed exactly if a disconnect was reported while the session should run and was not
      destroyed, and since then there was no stop and no timer went off. */
  lemma {:induction false} ArmedExactly(es: seq<Event>)
    ensures Run(INITIAL, es).armed != {} <==> exists k: nat :: ArmedAt(es, k)
  {
    if es != [] {
      var front, last := es[..|es| - 1], es[|es| - 1];
      var s := Run(INITIAL, front);
      ArmedExactly(front);
      RunsAreSafe(front);
      ArmedStep(s, last);
      assert Run(INITIAL, es) == Apply(s, last);
      hide Run, Apply, ArmsIn, FiresIn, Stops, TimerSafe;
      if ArmsIn(s, last) {
        assert ArmedAt(es, |front|);
      } else {
        forall k: nat | k < |front|
          ensures ArmedAt(es, k) <==> ArmedAt(front, k) && !Stops(last) && !FiresIn(s, last)
        {
          ArmedAtSnoc(es, k);
        }
        if k: nat :| ArmedAt(es, k) {
          assert k < |front| && ArmedAt(front, k);
        }
        if s.armed != {} && !Stops(last) && !FiresIn(s, last) {
          var k: nat :| ArmedAt(front, k);
          assert ArmedAt(es, k);
        }
      }
    }
  }

  lemma StepKeepsFired(s: Session, e: Event, timer: nat)
    requires timer < s.nextTimer && timer !in s.armed
    ensures timer < Apply(s, e).nextTimer && timer !in Apply(s, e).armed
  {
  }

  /** A timer goes off at most once. */
  lemma {:induction false} FiresOnce(before: seq<Event>, timer: nat, after: seq<Event>)
    requires timer in Run(INITIAL, before).armed
    ensures var s := Run(Apply(Run(INITIAL, before), TimerFires(timer)), after);
            timer < s.nextTimer && timer !in s.armed
  {
    if after == [] {
      RunsAreSafe(before);
    } else {
      FiresOnce(before, timer, after[..|after| - 1]);
      hide Apply;
      StepKeepsFired(Run(Apply(Run(INITIAL, before), TimerFires(timer)), after[..|after| - 1]), after[|after| - 1],
                     timer);
    }
  }

  /** The event starts the session: `start`, a sync called without a client, or a timer. */
  predicate StartsIn(s: Session, e: Event) {
    e == StartCalled || (e == SyncCalled(false) && s.promise == None) || FiresIn(s, e)
  }

  /** At `k` a stop ran, and nothing has started the session since. */
  ghost predicate StoppedAt(es: seq<Event>, k: nat) {
    && k < |es| && Stops(es[k])
    && forall j :: k < j < |es| ==> !StartsIn(Run(INITIAL, es[..j]), es[j])
  }

  lemma StoppedAtSnoc(es: seq<Event>, k: nat)
    requires k < |es| - 1
    ensures StoppedAt(es, k) <==>
            StoppedAt(es[..|es| - 1], k) && !StartsIn(Run(INITIAL, es[..|es| - 1]), es[|es| - 1])
  {
    hide Run, Stops, StartsIn;
    var front := es[..|es| - 1];
    forall j | 0 <= j <= |front| ensures front[..j] == es[..j] {
    }
    if StoppedAt(front, k) && !StartsIn(Run(INITIAL, front), es[|es| - 1]) {
      forall j | k < j < |es| ensures !StartsIn(Run(INITIAL, es[..j]), es[j]) {
        if j < |front| {
          assert front[j] == es[j];
        }
      }
    }
    if StoppedAt(es, k) {
      forall j | k < j < |front| ensures !StartsIn(Run(INITIAL, front[..j]), front[j]) {
        assert front[j] == es[j];
      }
    }
  }

  lemma StoppedStep(s: Session, e: Event)
    ensures Apply(s, e).desired == Stopped <==> Stops(e) || (s.desired == Stopped && !StartsIn(s, e))
  {
  }

  /** The session is meant to be stopped exactly if a stop has run and nothing has started it since. */
  lemma {:induction false} StoppedExactly(es: seq<Event>)
    ensures Run(INITIAL, es).desired == Stopped <==> exists k: nat :: StoppedAt(es, k)
  {
    if es != [] {
      var front, last := es[..|es| - 1], es[|es| - 1];
      var s := Run(INITIAL, front);
      StoppedExactly(front);
      StoppedStep(s, last);
      assert Run(INITIAL, es) == Apply(s, last);
      hide Run, Apply, StartsIn, Stops;
      if Stops(last) {
        assert StoppedAt(es, |front|);
      } else {
        forall k: nat | k < |front| ensures StoppedAt(es, k) <==> StoppedAt(front, k) && !StartsIn(s, last) {
          StoppedAtSnoc(es, k);
        }
        if k: nat :| StoppedAt(es, k) {
          assert k < |front| && StoppedAt(front, k);
        }
        if s.desired == Stopped && !StartsIn(s, last) {
          var k: nat :| StoppedAt(front, k);
          assert StoppedAt(es, k);
        }
      }
    }
  }

  predicate Starts(e: Event) {
    e == StartCalled || e == SyncCalled(false)
  }

  /** After `stop`, nothing is armed again until `start` runs. */
  lemma {:induction false} StopDisarmsUntilStart(before: seq<Event>, after: seq<Event>)
    requires forall k :: 0 <= k < |after| ==> !Starts(after[k])
    ensures var s := Run(Apply(Run(INITIAL, before), StopCalled), after);
            s.armed == {} && s.held == None && s.desired == Stopped
  {
    if after == [] {
      RunsAreSafe(before);
    } else {
      StopDisarmsUntilStart(before, after[..|after| - 1]);
    }
  }

  lemma StepKeepsDestroyed(s: Session, e: Event)
    requires s.armed == {} && s.held == None && s.destroyed
    ensures Apply(s, e).armed == {} && Apply(s, e).held == None && Apply(s, e).destroyed
  {
  }

  /** After `destroy`, nothing is ever armed again, whatever is called. */
  lemma {:induction false} DestroyDisarmsForGood(before: seq<Event>, after: seq<Event>)
    ensures var s := Run(Apply(Run(INITIAL, before), DestroyCalled), after);
            s.armed == {} && s.held == None && s.destroyed
  {
    if after == [] {
      RunsAreSafe(before);
    } else {
      DestroyDisarmsForGood(before, after[..|after| - 1]);
      hide Apply;
      StepKeepsDestroyed(Run(Apply(Run(INITIAL, before), DestroyCalled), after[..|after| - 1]), after[|after| - 1]);
    }
  }

  // ---------- cancellation ----------

  ghost predicate SomeStop(es: seq<Event>) {
    exists k :: 0 <= k < |es| && Stops(es[k])
  }

  lemma SomeStopSnoc(es: seq<Event>)
    requires es != []
    ensures SomeStop(es) <==> SomeStop(es[..|es| - 1]) || Stops(es[|es| - 1])
  {
    if SomeStop(es[..|es| - 1]) {
      var k :| 0 <= k < |es| - 1 && Stops(es[..|es| - 1][k]);
      assert Stops(es[k]);
    }
  }

  /** One step during which an old sync stays unsettled: only a stop cancels it, nothing takes the cancellation back,
      and only `start` makes a stopped session run again. */
  lemma StepWhileSyncing(s: Session, e: Event, id: nat)
    requires TimerSafe(s) && SyncSafe(s) && id < s.nextSync && InStage(Apply(s, e), id, Syncing)
    ensures InStage(s, id, Syncing)
    ensures Apply(s, e).canceled <==> s.canceled || Stops(e)
    ensures !Stops(e) ==> (Apply(s, e).desired == Running <==> s.desired == Running || e == StartCalled)
  {
  }

  /** While a sync is unsettled its cancel flag is never reset: it is up exactly if it was up or a stop has run. */
  lemma {:induction false} CancelSticks(s: Session, es: seq<Event>, id: nat)
    requires TimerSafe(s) && SyncSafe(s) && InStage(s, id, Syncing) && InStage(Run(s, es), id, Syncing)
    ensures Run(s, es).canceled <==> s.canceled || SomeStop(es)
    ensures !SomeStop(es) ==> (Run(s, es).desired == Running <==> s.desired == Running || StartCalled in es)
  {
    if es != [] {
      var front, last := es[..|es| - 1], es[|es| - 1];
      RunKeepsSafe(s, front);
      StepWhileSyncing(Run(s, front), last, id);
      CancelSticks(s, front, id);
      SomeStopSnoc(es);
      assert es == front + [last];
    }
  }

  /** A sync still unsettled passes an activity check exactly if no stop has run since it began and the session was
      meant to run then or `start` was called since. */
  lemma ActiveExactlyIfUndisturbed(before: seq<Event>, hasClient: bool, during: seq<Event>)
    requires Run(INITIAL, before).promise == None
    requires var s := Apply(Run(INITIAL, before), SyncCalled(hasClient));
             InStage(Run(s, during), Run(INITIAL, before).nextSync, Syncing)
    ensures var s := Apply(Run(INITIAL, before), SyncCalled(hasClient));
            Active(Run(s, during)) <==> !SomeStop(during) && (s.desired == Running || StartCalled in during)
  {
    RunsAreSafe(before);
    var s0 := Run(INITIAL, before);
    StepKeepsTimers(s0, SyncCalled(hasClient));
    StepKeepsSyncs(s0, SyncCalled(hasClient));
    CancelSticks(Apply(s0, SyncCalled(hasClient)), during, s0.nextSync);
  }

  /** The sync can no longer resolve. */
  ghost predicate Doomed(s: Session, id: nat) {
    && id < s.nextSync
    && !InStage(s, id, PastFinalCheck)
    && (InStage(s, id, Syncing) ==> s.canceled)
    && (id in s.endings ==> s.endings[id] == Rejected)
  }

  lemma StepKeepsDoomed(s: Session, e: Event, id: nat)
    requires SyncSafe(s) && Doomed(s, id)
    ensures Doomed(Apply(s, e), id)
  {
  }

  lemma {:induction false} RunKeepsDoomed(s: Session, es: seq<Event>, id: nat)
    requires TimerSafe(s) && SyncSafe(s) && Doomed(s, id)
    ensures Doomed(Run(s, es), id)
  {
    if es != [] {
      RunKeepsDoomed(s, es[..|es| - 1], id);
      RunKeepsSafe(s, es[..|es| - 1]);
      StepKeepsDoomed(Run(s, es[..|es| - 1]), es[|es| - 1], id);
    }
  }

  /** If a stop runs while a sync has not passed its final check, that sync never resolves, whatever happens next:
      starting the session again or asking for another sync does not revive it. */
  lemma StopDoomsSync(before: seq<Event>, stop: Event, after: seq<Event>, id: nat)
    requires Stops(stop) && InStage(Run(INITIAL, before), id, Syncing)
    ensures var s := Run(Apply(Run(INITIAL, before), stop), after);
            id in s.endings ==> s.endings[id] == Rejected
  {
    var s := Run(INITIAL, before);
    RunsAreSafe(before);
    StepKeepsTimers(s, stop);
    StepKeepsSyncs(s, stop);
    RunKeepsDoomed(Apply(s, stop), after, id);
  }

  lemma StepKeepsEnding(s: Session, e: Event, id: nat)
    requires SyncSafe(s) && id in s.endings
    ensures id in Apply(s, e).endings && Apply(s, e).endings[id] == s.endings[id]
  {
  }

  /** A sync settles once: its ending never changes. */
  lemma {:induction false} EndingsAreFinal(before: seq<Event>, after: seq<Event>, id: nat)
    requires id in Run(INITIAL, before).endings
    ensures var s := Run(INITIAL, before);
            id in Run(s, after).endings && Run(s, after).endings[id] == s.endings[id]
  {
    hide Apply, SyncSafe, TimerSafe;
    if after != [] {
      EndingsAreFinal(before, after[..|after| - 1], id);
      RunsAreSafe(before);
      RunKeepsSafe(Run(INITIAL, before), after[..|after| - 1]);
      StepKeepsEnding(Run(Run(INITIAL, before), after[..|after| - 1]), after[|after| - 1], id);
    }
  }

  /** An active sync becomes inactive only through a stop. */
  lemma {:induction false} InactiveNeedsStop(s: Session, es: seq<Event>)
    requires TimerSafe(s) && SyncSafe(s) && Active(s) && !Active(Run(s, es))
    ensures SomeStop(es)
  {
    if es != [] {
      var front := es[..|es| - 1];
      SomeStopSnoc(es);
      if !Active(Run(s, front)) {
        InactiveNeedsStop(s, front);
      }
    }
  }

  /** The final check of `id` is among the events, and no stop comes before it. */
  ghost predicate CheckedBeforeAnyStop(es: seq<Event>, id: nat) {
    exists k :: 0 <= k < |es| && es[k] == SyncFinalCheck(id) && !SomeStop(es[..k])
  }

  lemma CheckedStays(es: seq<Event>, e: Event, id: nat)
    requires CheckedBeforeAnyStop(es, id)
    ensures CheckedBeforeAnyStop(es + [e], id)
  {
    var k :| 0 <= k < |es| && es[k] == SyncFinalCheck(id) && !SomeStop(es[..k]);
    assert (es + [e])[k] == SyncFinalCheck(id) && (es + [e])[..k] == es[..k];
  }

  lemma StepToChecked(s: Session, e: Event, id: nat)
    requires SyncSafe(s) && id < s.nextSync && InStage(Apply(s, e), id, PastFinalCheck)
    ensures InStage(s, id, PastFinalCheck) || (e == SyncFinalCheck(id) && InStage(s, id, Syncing) && !s.canceled)
  {
  }

  lemma StepToResolved(s: Session, e: Event, id: nat)
    requires SyncSafe(s) && id in Apply(s, e).endings && Apply(s, e).endings[id] == Resolved
    ensures (id in s.endings && s.endings[id] == Resolved) || InStage(s, id, PastFinalCheck)
  {
  }

  lemma {:induction false} CheckedWhileUndisturbed(s: Session, es: seq<Event>, id: nat)
    requires TimerSafe(s) && SyncSafe(s) && InStage(s, id, Syncing)
    requires InStage(Run(s, es), id, PastFinalCheck)
    ensures CheckedBeforeAnyStop(es, id)
  {
    hide Apply, TimerSafe;
    if es != [] {
      var front, last := es[..|es| - 1], es[|es| - 1];
      RunKeepsSafe(s, front);
      StepToChecked(Run(s, front), last, id);
      if InStage(Run(s, front), id, PastFinalCheck) {
        CheckedWhileUndisturbed(s, front, id);
        CheckedStays(front, last, id);
        assert front + [last] == es;
      } else {
        CancelSticks(s, front, id);
        assert es[|front|] == SyncFinalCheck(id);
      }
    }
  }

  /** A sync that resolves passed its final check, and no stop ran between its call and that check. */
  lemma {:induction false} ResolvedWhileUndisturbed(s: Session, es: seq<Event>, id: nat)
    requires TimerSafe(s) && SyncSafe(s) && InStage(s, id, Syncing)
    requires id in Run(s, es).endings && Run(s, es).endings[id] == Resolved
    ensures CheckedBeforeAnyStop(es, id)
  {
    hide Apply, TimerSafe;
    if es != [] {
      var front, last := es[..|es| - 1], es[|es| - 1];
      RunKeepsSafe(s, front);
      StepToResolved(Run(s, front), last, id);
      if InStage(Run(s, front), id, PastFinalCheck) {
        CheckedWhileUndisturbed(s, front, id);
      } else {
        ResolvedWhileUndisturbed(s, front, id);
      }
      CheckedStays(front, last, id);
      assert front + [last] == es;
    }
  }

  lemma {:induction false} RunConcat(s: Session, a: seq<Event>, b: seq<Event>)
    ensures Run(s, a + b) == Run(Run(s, a), b)
  {
    if b == [] {
      assert a + b == a;
    } else {
      assert (a + b)[..|a + b| - 1] == a + b[..|b| - 1];
      RunConcat(s, a, b[..|b| - 1]);
    }
  }
}
