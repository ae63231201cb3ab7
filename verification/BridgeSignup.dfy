/** The bridge popup's promise: the first deciding event settles it, and a code alone is enough. */
module BridgeSignup {
  import opened JsString
  import opened EmbeddedSignup

  datatype BridgeInput =
    | Reject(error: string)
    | Deliver(result: SignupResult)
    | ReceiveCode(code: string, phoneNumberId: string, wabaId: string)
    | ReceiveFinish(data: SignupData)
    | Pass

  function ClassifyBridgeMessage(m: Message): BridgeInput {
    match m.origin
    case TargetOrigin =>
      (match m.data
       case BridgeSuccess(result) => Deliver(result)
       case BridgeFailure(error) => Reject(if error != "" then error else BRIDGE_ERROR)
       case OAuthCallback(code, error, phone, waba) =>
         if code != "" then ReceiveCode(code, phone, waba)
         else Reject(if error != "" then error else OAUTH_ERROR)
       case _ => Pass)
    case FacebookOrigin =>
      if !m.data.SignupEvent? then Pass
      else if IsErrorEvent(m.data.eventName) then Reject(EventErrorMessage(m.data))
      else if IsFinishEvent(m.data.eventName) then ReceiveFinish(m.data.data)
      else Pass
    case OtherOrigin => Pass
  }

  /** A code is completed by the signup data received so far, or goes out with what it carried itself. */
  function ResultFor(code: string, phoneNumberId: string, wabaId: string, signup: Option<SignupData>): SignupResult {
    if signup.Some? && signup.value.Complete() then Join(code, signup.value)
    else SignupResult(code, phoneNumberId, wabaId, None)
  }

  function BridgeStep(s: State, i: BridgeInput): State {
    match i
    case Pass => s
    case Reject(error) => Settle(s, Rejected(error))
    case Deliver(result) => Settle(s, Resolved(result))
    case ReceiveCode(code, phone, waba) =>
      Settle(s.(authCode := Some(code)), Resolved(ResultFor(code, phone, waba, s.signup)))
    case ReceiveFinish(d) => SettleIfJoined(s.(signup := Some(d)))
  }

  function BridgeRun(s: State, inputs: seq<BridgeInput>): State {
    if inputs == [] then s else BridgeStep(BridgeRun(s, inputs[..|inputs| - 1]), inputs[|inputs| - 1])
  }

  class BridgePromise {
    var settled: bool
    var authCode: Option<string>
    var signupData: Option<SignupData>
    var cleanupCallbacks: seq<Cleanup>
    ghost var cleaned: seq<Cleanup>
    ghost var outcomes: seq<Outcome>

    ghost function View(): State
      reads this
    {
      State(settled, authCode, signupData, cleanupCallbacks, cleaned, outcomes)
    }

    constructor ()
      ensures View() == Initial([RemoveMessageListener, ClearCloseWatcher])
    {
      settled, authCode, signupData := false, None, None;
      cleaned, outcomes := [], [];
      cleanupCallbacks := [RemoveMessageListener, ClearCloseWatcher];
    }

    method SettleWithError(error: string)
      modifies this
      ensures View() == Settle(old(View()), Rejected(error))
    {
      if settled {
        return;
      }
      settled := true;
      cleaned := cleaned + cleanupCallbacks;
      outcomes := outcomes + [Rejected(error)];
    }

    method SettleWithSuccess(result: SignupResult)
      modifies this
      ensures View() == Settle(old(View()), Resolved(result))
    {
      if settled {
        return;
      }
      settled := true;
      cleaned := cleaned + cleanupCallbacks;
      outcomes := outcomes + [Resolved(result)];
    }

    method TryResolve()
      modifies this
      ensures authCode == old(authCode) && signupData == old(signupData)
      ensures if old(settled) || authCode.None? || signupData.None?
                 || signupData.value.phoneNumberId == "" || signupData.value.wabaId == ""
              then settled == old(settled) && outcomes == old(outcomes) && cleaned == old(cleaned)
              else
                && settled && |outcomes| == |old(outcomes)| + 1 && cleaned == old(cleaned) + cleanupCallbacks
                && var o := outcomes[|old(outcomes)|];
                   && o.Resolved? && o.result.code == authCode.value
                   && o.result.phoneNumberId == signupData.value.phoneNumberId
                   && o.result.wabaId == signupData.value.wabaId
                   && o.result.businessId == signupData.value.businessId
      ensures View() == SettleIfJoined(old(View()))
    {
      if settled || authCode.None? || signupData.None?
         || signupData.value.phoneNumberId == "" || signupData.value.wabaId == "" {
        return;
      }
      var d := signupData.value;
      SettleWithSuccess(SignupResult(authCode.value, d.phoneNumberId, d.wabaId, d.businessId));
    }

    method OnMessage(m: Message)
      modifies this
      ensures View() == BridgeStep(old(View()), ClassifyBridgeMessage(m))
    {
      if m.origin == TargetOrigin && (m.data.BridgeSuccess? || m.data.BridgeFailure?) {
        if m.data.BridgeSuccess? {
          SettleWithSuccess(m.data.result);
          return;
        }
        SettleWithError(if m.data.error != "" then m.data.error else BRIDGE_ERROR);
        return;
      }
      if m.origin == TargetOrigin && m.data.OAuthCallback? {
        if m.data.code != "" {
          authCode := Some(m.data.code);
          TryResolve();
          if !settled {
            SettleWithSuccess(SignupResult(m.data.code, m.data.phoneNumberId, m.data.wabaId, None));
          }
          return;
        }
        SettleWithError(if m.data.error != "" then m.data.error else OAUTH_ERROR);
        return;
      }
      if m.origin == FacebookOrigin {
        if !m.data.SignupEvent? {
          return;
        }
        if IsErrorEvent(m.data.eventName) {
          SettleWithError(EventErrorMessage(m.data));
          return;
        }
        if IsFinishEvent(m.data.eventName) {
          signupData := Some(m.data.data);
          TryResolve();
        }
      }
    }

    /** One tick of the close watcher. */
    method OnClosePoll(closed: bool)
      modifies this
      ensures closed && !old(settled) ==>
                outcomes == old(outcomes)
                            + [Rejected("A janela do Embedded Signup foi fechada antes da conclusao.")]
      ensures View() == BridgeStep(old(View()), if closed then Reject(CLOSED_ERROR) else Pass)
    {
      if !closed {
        return;
      }
      SettleWithError(CLOSED_ERROR);
    }
  }

  // ---------- what every event sequence leads to ----------

  predicate Decides(i: BridgeInput) {
    !i.Pass? && !i.ReceiveFinish?
  }

  function LatestSignup(inputs: seq<BridgeInput>): Option<SignupData> {
    if inputs == [] then None
    else if inputs[|inputs| - 1].ReceiveFinish? then Some(inputs[|inputs| - 1].data)
    else LatestSignup(inputs[..|inputs| - 1])
  }

  function BridgeOutcome(inputs: seq<BridgeInput>, k: nat): Outcome
    requires k < |inputs| && Decides(inputs[k])
  {
    match inputs[k]
    case Reject(error) => Rejected(error)
    case Deliver(result) => Resolved(result)
    case ReceiveCode(code, phone, waba) => Resolved(ResultFor(code, phone, waba, LatestSignup(inputs[..k])))
  }

  /** Without a deciding event the promise only remembers the latest signup data; no FINISH settles it. */
  lemma {:induction false} WaitingRun(inputs: seq<BridgeInput>, cleanups: seq<Cleanup>)
    requires forall j :: 0 <= j < |inputs| ==> !Decides(inputs[j])
    ensures BridgeRun(Initial(cleanups), inputs) == Initial(cleanups).(signup := LatestSignup(inputs))
  {
    if inputs != [] {
      WaitingRun(inputs[..|inputs| - 1], cleanups);
    }
  }

  lemma BridgeSettledStays(s: State, i: BridgeInput)
    requires s.settled
    ensures var t := BridgeStep(s, i);
            t.settled && t.outcomes == s.outcomes && t.cleaned == s.cleaned && t.cleanups == s.cleanups
  {
  }

  lemma DecidingEventSettles(s: State, i: BridgeInput)
    requires !s.settled && s.cleaned == [] && s.outcomes == [] && Decides(i)
    ensures var t := BridgeStep(s, i);
            && t.settled && t.cleaned == s.cleanups == t.cleanups
            && t.outcomes == [match i
                              case Reject(error) => Rejected(error)
                              case Deliver(result) => Resolved(result)
                              case ReceiveCode(code, phone, waba) => Resolved(ResultFor(code, phone, waba, s.signup))]
  {
  }

  /** The first deciding event settles the promise once and runs every cleanup once; later events change nothing. */
  lemma {:induction false} BridgeSettlesAtFirstDecidingEvent(inputs: seq<BridgeInput>, k: nat, cleanups: seq<Cleanup>)
    requires k < |inputs| && Decides(inputs[k])
    requires forall j :: 0 <= j < k ==> !Decides(inputs[j])
    ensures var s := BridgeRun(Initial(cleanups), inputs);
            s.settled && s.outcomes == [BridgeOutcome(inputs, k)] && s.cleaned == cleanups && s.cleanups == cleanups
  {
    var n := |inputs| - 1;
    var front := inputs[..n];
    if k < n {
      hide Decides, LatestSignup, BridgeStep;
      assert front[..k] == inputs[..k];
      BridgeSettlesAtFirstDecidingEvent(front, k, cleanups);
      BridgeSettledStays(BridgeRun(Initial(cleanups), front), inputs[n]);
    } else {
      hide Decides, LatestSignup, BridgeStep, ResultFor;
      WaitingRun(front, cleanups);
      DecidingEventSettles(BridgeRun(Initial(cleanups), front), inputs[n]);
    }
  }

  /** A code without signup data settles the bridge promise with empty ids; the joining promise keeps waiting. */
  lemma CodeAloneSettlesOnlyTheBridge(code: string, cleanups: seq<Cleanup>)
    ensures BridgeRun(Initial(cleanups), [ReceiveCode(code, "", "")]).outcomes
         == [Resolved(SignupResult(code, "", "", None))]
    ensures Run(Initial(cleanups), [GotCode(code)]).outcomes == []
  {
    assert [ReceiveCode(code, "", "")][..0] == [];
    assert [GotCode(code)][..0] == [];
  }

  // ---------- what a settled bridge promise carries ----------

  /** `j` is the last finished signup among the inputs. */
  ghost predicate LastReceived(inputs: seq<BridgeInput>, j: nat) {
    j < |inputs| && inputs[j].ReceiveFinish? && forall i :: j < i < |inputs| ==> !inputs[i].ReceiveFinish?
  }

  lemma {:induction false} LatestSignupAt(inputs: seq<BridgeInput>, j: nat)
    requires LastReceived(inputs, j)
    ensures LatestSignup(inputs) == Some(inputs[j].data)
  {
    var n := |inputs| - 1;
    if j < n {
      LatestSignupAt(inputs[..n], j);
    }
  }

  lemma {:induction false} NoSignupYet(inputs: seq<BridgeInput>)
    requires forall i :: 0 <= i < |inputs| ==> !inputs[i].ReceiveFinish?
    ensures LatestSignup(inputs).None?
  {
    if inputs != [] {
      NoSignupYet(inputs[..|inputs| - 1]);
    }
  }

  /** A code that decides the promise goes out, field by field, with the last signup data before it when these have
      both ids. */
  lemma CodeWithSignupMeans(inputs: seq<BridgeInput>, k: nat, j: nat, cleanups: seq<Cleanup>)
    requires k < |inputs| && inputs[k].ReceiveCode? && forall i :: 0 <= i < k ==> !Decides(inputs[i])
    requires LastReceived(inputs[..k], j)
    requires inputs[j].data.phoneNumberId != "" && inputs[j].data.wabaId != ""
    ensures var outcomes := BridgeRun(Initial(cleanups), inputs).outcomes;
            && |outcomes| == 1 && outcomes[0].Resolved?
            && var r := outcomes[0].result;
               && r.code == inputs[k].code
               && r.phoneNumberId == inputs[j].data.phoneNumberId
               && r.wabaId == inputs[j].data.wabaId
               && r.businessId == inputs[j].data.businessId
  {
    BridgeSettlesAtFirstDecidingEvent(inputs, k, cleanups);
    LatestSignupAt(inputs[..k], j);
  }

  /** Without such data it goes out with the ids it carries itself and no business id. */
  lemma CodeAloneMeans(inputs: seq<BridgeInput>, k: nat, cleanups: seq<Cleanup>)
    requires k < |inputs| && inputs[k].ReceiveCode? && forall i :: 0 <= i < k ==> !Decides(inputs[i])
    requires (forall i :: 0 <= i < k ==> !inputs[i].ReceiveFinish?)
             || exists j: nat :: LastReceived(inputs[..k], j)
                                 && (inputs[j].data.phoneNumberId == "" || inputs[j].data.wabaId == "")
    ensures var outcomes := BridgeRun(Initial(cleanups), inputs).outcomes;
            && |outcomes| == 1 && outcomes[0].Resolved?
            && var r := outcomes[0].result;
               && r.code == inputs[k].code
               && r.phoneNumberId == inputs[k].phoneNumberId && r.wabaId == inputs[k].wabaId && r.businessId == None
  {
    BridgeSettlesAtFirstDecidingEvent(inputs, k, cleanups);
    if j: nat :| LastReceived(inputs[..k], j) && (inputs[j].data.phoneNumberId == "" || inputs[j].data.wabaId == "") {
      LatestSignupAt(inputs[..k], j);
    } else {
      NoSignupYet(inputs[..k]);
    }
  }

  /** A bridge result or an error that decides the promise is passed on as it is. */
  lemma BridgePassesOn(inputs: seq<BridgeInput>, k: nat, cleanups: seq<Cleanup>)
    requires k < |inputs| && forall i :: 0 <= i < k ==> !Decides(inputs[i])
    ensures inputs[k].Deliver? ==> BridgeRun(Initial(cleanups), inputs).outcomes == [Resolved(inputs[k].result)]
    ensures inputs[k].Reject? ==> BridgeRun(Initial(cleanups), inputs).outcomes == [Rejected(inputs[k].error)]
  {
    if inputs[k].Deliver? || inputs[k].Reject? {
      BridgeSettlesAtFirstDecidingEvent(inputs, k, cleanups);
    }
  }

  /** What the bridge listens to, origin by origin. */
  lemma BridgeMessageMeans(m: Message)
    ensures m.origin == TargetOrigin && m.data.BridgeSuccess? ==> ClassifyBridgeMessage(m) == Deliver(m.data.result)
    ensures m.origin == TargetOrigin && m.data.BridgeFailure? ==>
              ClassifyBridgeMessage(m) ==
              Reject(if m.data.error != "" then m.data.error else "Nao foi possivel concluir o Embedded Signup.")
    ensures m.origin == TargetOrigin && m.data.OAuthCallback? ==>
              ClassifyBridgeMessage(m) ==
              if m.data.code != "" then ReceiveCode(m.data.code, m.data.phoneNumberId, m.data.wabaId)
              else Reject(if m.data.error != "" then m.data.error else "Autorizacao nao concluida na Meta.")
    ensures m.origin == FacebookOrigin && m.data.SignupEvent? ==>
              ClassifyBridgeMessage(m) ==
              match ClassifySignupEvent(m.data)
              case Fail(e) => Reject(e)
              case GotFinish(d) => ReceiveFinish(d)
              case _ => Pass
    ensures m.origin == OtherOrigin || m.data.Unrelated? || (m.origin == TargetOrigin && m.data.SignupEvent?)
            || (m.origin == FacebookOrigin && !m.data.SignupEvent?) ==>
              ClassifyBridgeMessage(m) == Pass
  {
  }
}
