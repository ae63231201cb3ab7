/** The embedded-signup promises: events arrive in any order, each promise settles at most once. */
module EmbeddedSignup {
  import opened JsString

  datatype SignupData = SignupData(phoneNumberId: string, wabaId: string, businessId: Option<string>)
  {
    predicate Complete() {
      phoneNumberId != "" && wabaId != ""
    }
  }

  datatype SignupResult = SignupResult(code: string, phoneNumberId: string, wabaId: string, businessId: Option<string>)

  datatype Outcome = Resolved(result: SignupResult) | Rejected(error: string)

  datatype Cleanup = ClearTimeout | RemoveMessageListener | ClearCloseWatcher

  // ---------- browser messages ----------

  datatype Origin = FacebookOrigin | TargetOrigin | OtherOrigin

  /** `event.data` after parsing and upper-casing the event name; a missing string field is the empty string. */
  datatype Data =
    | SignupEvent(eventName: string, data: SignupData, currentStep: string, errorMessage: string)
    | OAuthCallback(code: string, error: string, phoneNumberId: string, wabaId: string)
    | BridgeSuccess(result: SignupResult)
    | BridgeFailure(error: string)
    | Unrelated

  datatype Message = Message(origin: Origin, data: Data)

  predicate IsErrorEvent(eventName: string) {
    eventName == "CANCEL" || eventName == "ERROR" || eventName == "FINISH_ONLY_WABA"
  }

  predicate IsFinishEvent(eventName: string) {
    eventName == "FINISH" || eventName == "FINISH_WHATSAPP_BUSINESS_APP_ONBOARDING"
  }

  const TIMEOUT_ERROR := "Tempo esgotado aguardando a conclusao do Embedded Signup."
  const INCOMPLETE_ERROR := "A Meta concluiu o fluxo, mas nao retornou phone_number_id e waba_id."
  const LOGIN_ERROR := "Fluxo cancelado ou nao autorizado na Meta."
  const OAUTH_ERROR := "Autorizacao nao concluida na Meta."
  const CLOSED_ERROR := "A janela do Embedded Signup foi fechada antes da conclusao."
  const BRIDGE_ERROR := "Nao foi possivel concluir o Embedded Signup."

  /** `getEmbeddedSignupEventMessage`. */
  function EventErrorMessage(m: Data): string
    requires m.SignupEvent?
  {
    if m.eventName == "FINISH_ONLY_WABA" then
      "A WABA foi criada, mas nenhum numero foi conectado. Finalize a conexao do numero no fluxo da Meta."
    else if m.eventName == "CANCEL" then
      if m.currentStep != "" then "Fluxo cancelado na etapa \"" + m.currentStep + "\"."
      else "Fluxo cancelado antes da conclusao."
    else if Trim(m.errorMessage) != "" then Trim(m.errorMessage)
    else "Nao foi possivel concluir o Embedded Signup da Meta."
  }

  // ---------- the joining promise (SDK and OAuth) ----------

  /** What an event means to a promise that joins a code and a finished signup. */
  datatype Input =
    | Fail(error: string)
    | GotCode(code: string)
    | GotFinish(data: SignupData)
    | Ignore

  datatype State = State(
    settled: bool,
    authCode: Option<string>,
    signup: Option<SignupData>,
    cleanups: seq<Cleanup>,   // registered callbacks
    cleaned: seq<Cleanup>,    // callbacks run so far
    outcomes: seq<Outcome>)   // calls to resolve or reject so far

  function Initial(cleanups: seq<Cleanup>): State {
    State(false, None, None, cleanups, [], [])
  }

  function Settle(s: State, o: Outcome): State {
    if s.settled then s
    else s.(settled := true, cleaned := s.cleaned + s.cleanups, outcomes := s.outcomes + [o])
  }

  function SettleIfJoined(s: State): State {
    if s.authCode.Some? && s.signup.Some? && s.signup.value.Complete()
    then Settle(s, Resolved(Join(s.authCode.value, s.signup.value)))
    else s
  }

  function Join(code: string, d: SignupData): SignupResult {
    SignupResult(code, d.phoneNumberId, d.wabaId, d.businessId)
  }

  function Step(s: State, i: Input): State {
    match i
    case Ignore => s
    case Fail(error) => Settle(s, Rejected(error))
    case GotCode(code) => SettleIfJoined(s.(authCode := Some(code)))
    case GotFinish(d) =>
      if d.Complete() then SettleIfJoined(s.(signup := Some(d)))
      else Settle(s.(signup := Some(d)), Rejected(INCOMPLETE_ERROR))
  }

  function Run(s: State, inputs: seq<Input>): State {
    if inputs == [] then s else Step(Run(s, inputs[..|inputs| - 1]), inputs[|inputs| - 1])
  }

  // What each source listens to.

  function ClassifySignupEvent(m: Data): Input
    requires m.SignupEvent?
  {
    if IsErrorEvent(m.eventName) then Fail(EventErrorMessage(m))
    else if IsFinishEvent(m.eventName) then GotFinish(m.data)
    else Ignore
  }

  function ClassifySdkMessage(m: Message): Input {
    if m.origin == FacebookOrigin && m.data.SignupEvent? then ClassifySignupEvent(m.data) else Ignore
  }

  function ClassifyOAuthMessage(m: Message): Input {
    if m.origin == FacebookOrigin then
      if m.data.SignupEvent? then ClassifySignupEvent(m.data) else Ignore
    else if m.data.OAuthCallback? then
      if m.data.code != "" then GotCode(m.data.code)
      else Fail(if m.data.error != "" then m.data.error else OAUTH_ERROR)
    else Ignore
  }

  /** The promise body shared by `launchEmbeddedSignupWithFacebookSdk` and `launchEmbeddedSignupViaOAuth`. */
  class SignupPromise {
    var settled: bool
    var authCode: Option<string>
    var signupResult: Option<SignupData>
    var cleanupCallbacks: seq<Cleanup>
    ghost var cleaned: seq<Cleanup>
    ghost var outcomes: seq<Outcome>

    ghost function View(): State
      reads this
    {
      State(settled, authCode, signupResult, cleanupCallbacks, cleaned, outcomes)
    }

    constructor Sdk()
      ensures View() == Initial([ClearTimeout, RemoveMessageListener])
    {
      settled, authCode, signupResult := false, None, None;
      cleaned, outcomes := [], [];
      cleanupCallbacks := [ClearTimeout, RemoveMessageListener];
    }

    constructor OAuth()
      ensures View() == Initial([ClearTimeout, RemoveMessageListener, ClearCloseWatcher])
    {
      settled, authCode, signupResult := false, None, None;
      cleaned, outcomes := [], [];
      cleanupCallbacks := [ClearTimeout, RemoveMessageListener, ClearCloseWatcher];
    }

    method SettleWithError(error: string)
      modifies this
      ensures settled && authCode == old(authCode) && signupResult == old(signupResult)
      ensures outcomes == old(outcomes) + if old(settled) then [] else [Rejected(error)]
      ensures cleaned == old(cleaned) + if old(settled) then [] else cleanupCallbacks
      ensures View() == Settle(old(View()), Rejected(error))
    {
      if settled {
        return;
      }
      settled := true;
      RunCleanups();
      outcomes := outcomes + [Rejected(error)];
    }

    method SettleWithSuccess()
      modifies this
      ensures authCode == old(authCode) && signupResult == old(signupResult)
      ensures if old(settled) || authCode.None? || signupResult.None?
                 || signupResult.value.phoneNumberId == "" || signupResult.value.wabaId == ""
              then settled == old(settled) && outcomes == old(outcomes) && cleaned == old(cleaned)
              else
                && settled && |outcomes| == |old(outcomes)| + 1 && cleaned == old(cleaned) + cleanupCallbacks
                && var o := outcomes[|old(outcomes)|];
                   && o.Resolved? && o.result.code == authCode.value
                   && o.result.phoneNumberId == signupResult.value.phoneNumberId
                   && o.result.wabaId == signupResult.value.wabaId
                   && o.result.businessId == signupResult.value.businessId
      ensures View() == SettleIfJoined(old(View()))
    {
      if settled || authCode.None? || signupResult.None?
         || signupResult.value.phoneNumberId == "" || signupResult.value.wabaId == "" {
        return;
      }
      settled := true;
      RunCleanups();
      var d := signupResult.value;
      outcomes := outcomes + [Resolved(SignupResult(authCode.value, d.phoneNumberId, d.wabaId, d.businessId))];
    }

    /** `cleanupCallbacks.forEach((callback) => callback())`. */
    method RunCleanups()
      modifies this`cleaned
      ensures cleaned == old(cleaned) + cleanupCallbacks
    {
      var k := 0;
      while k < |cleanupCallbacks|
        invariant 0 <= k <= |cleanupCallbacks|
        invariant cleaned == old(cleaned) + cleanupCallbacks[..k]
      {
        cleaned := cleaned + [cleanupCallbacks[k]];
        k := k + 1;
      }
    }

    method OnTimeout()
      modifies this
      ensures !old(settled) ==>
                outcomes == old(outcomes) + [Rejected("Tempo esgotado aguardando a conclusao do Embedded Signup.")]
      ensures View() == Step(old(View()), Fail(TIMEOUT_ERROR))
    {
      SettleWithError(TIMEOUT_ERROR);
    }

    /** The handler of `WA_EMBEDDED_SIGNUP` events, the same in both sources. */
    method OnSignupEvent(m: Data)
      requires m.SignupEvent?
      modifies this
      ensures View() == Step(old(View()), ClassifySignupEvent(m))
    {
      if IsErrorEvent(m.eventName) {
        SettleWithError(EventErrorMessage(m));
        return;
      }
      if IsFinishEvent(m.eventName) {
        signupResult := Some(m.data);
        if m.data.phoneNumberId == "" || m.data.wabaId == "" {
          SettleWithError(INCOMPLETE_ERROR);
          return;
        }
        SettleWithSuccess();
      }
    }

    method OnSdkMessage(m: Message)
      modifies this
      ensures View() == Step(old(View()), ClassifySdkMessage(m))
    {
      if m.origin != FacebookOrigin {
        return;
      }
      if !m.data.SignupEvent? {
        return;
      }
      OnSignupEvent(m.data);
    }

    /** The `FB.login` callback. */
    method OnLoginResponse(code: string)
      modifies this
      ensures code != "" ==> authCode == Some(code)
      ensures code == "" && !old(settled) ==>
                outcomes == old(outcomes) + [Rejected("Fluxo cancelado ou nao autorizado na Meta.")]
      ensures View() == Step(old(View()), if code != "" then GotCode(code) else Fail(LOGIN_ERROR))
    {
      if code != "" {
        authCode := Some(code);
        SettleWithSuccess();
        return;
      }
      SettleWithError(LOGIN_ERROR);
    }

    method OnOAuthMessage(m: Message)
      modifies this
      ensures View() == Step(old(View()), ClassifyOAuthMessage(m))
    {
      if m.origin == FacebookOrigin {
        if !m.data.SignupEvent? {
          return;
        }
        OnSignupEvent(m.data);
        return;
      }
      if m.data.OAuthCallback? {
        if m.data.code != "" {
          authCode := Some(m.data.code);
          SettleWithSuccess();
          return;
        }
        SettleWithError(if m.data.error != "" then m.data.error else OAUTH_ERROR);
      }
    }

    /** One tick of the close watcher. */
    method OnClosePoll(closed: bool)
      modifies this
      ensures closed && !old(settled) ==>
                outcomes == old(outcomes)
                            + [Rejected("A janela do Embedded Signup foi fechada antes da conclusao.")]
      ensures View() == Step(old(View()), if closed then Fail(CLOSED_ERROR) else Ignore)
    {
      if !closed {
        return;
      }
      SettleWithError(CLOSED_ERROR);
    }
  }

  // ---------- what every event sequence leads to ----------

  function LatestCode(inputs: seq<Input>): Option<string> {
    if inputs == [] then None
    else if inputs[|inputs| - 1].GotCode? then Some(inputs[|inputs| - 1].code)
    else LatestCode(inputs[..|inputs| - 1])
  }

  function LatestFinish(inputs: seq<Input>): Option<SignupData> {
    if inputs == [] then None
    else if inputs[|inputs| - 1].GotFinish? then Some(inputs[|inputs| - 1].data)
    else LatestFinish(inputs[..|inputs| - 1])
  }

  predicate IsError(i: Input) {
    i.Fail? || (i.GotFinish? && !i.data.Complete())
  }

  /** The event at `k` is an error, or a code and a finish have both arrived by then, in either order. */
  predicate Decisive(inputs: seq<Input>, k: nat)
    requires k < |inputs|
  {
    IsError(inputs[k]) || (LatestCode(inputs[..k + 1]).Some? && LatestFinish(inputs[..k + 1]).Some?)
  }

  ghost predicate Undecided(inputs: seq<Input>) {
    forall k :: 0 <= k < |inputs| ==> !Decisive(inputs, k)
  }

  ghost predicate FirstDecisive(inputs: seq<Input>, k: nat) {
    k < |inputs| && Decisive(inputs, k) && forall j :: 0 <= j < k ==> !Decisive(inputs, j)
  }

  /** What the decisive event settles the promise with: its error, or the latest code and finish so far. */
  function OutcomeAt(inputs: seq<Input>, k: nat): Outcome
    requires k < |inputs| && Decisive(inputs, k)
  {
    match inputs[k]
    case Fail(error) => Rejected(error)
    case GotFinish(d) =>
      if !d.Complete() then Rejected(INCOMPLETE_ERROR)
      else Resolved(Join(LatestCode(inputs[..k + 1]).value, LatestFinish(inputs[..k + 1]).value))
    case _ => Resolved(Join(LatestCode(inputs[..k + 1]).value, LatestFinish(inputs[..k + 1]).value))
  }

  lemma PrefixDecisive(inputs: seq<Input>, n: nat, k: nat)
    requires k < n <= |inputs|
    ensures Decisive(inputs[..n], k) == Decisive(inputs, k)
    ensures Decisive(inputs, k) ==> OutcomeAt(inputs[..n], k) == OutcomeAt(inputs, k)
  {
    assert inputs[..n][..k + 1] == inputs[..k + 1];
  }

  /** Before anything decisive the promise only remembers the latest code and finish. */
  lemma {:induction false} UndecidedRun(inputs: seq<Input>, cleanups: seq<Cleanup>)
    requires Undecided(inputs)
    ensures var s := Run(Initial(cleanups), inputs);
            && s == Initial(cleanups).(authCode := LatestCode(inputs), signup := LatestFinish(inputs))
            && (s.signup.Some? ==> s.signup.value.Complete())
  {
    if inputs != [] {
      var n := |inputs| - 1;
      var front := inputs[..n];
      forall k | 0 <= k < n ensures !Decisive(front, k) {
        PrefixDecisive(inputs, n, k);
      }
      UndecidedRun(front, cleanups);
      assert inputs[..n + 1] == inputs;
      assert !Decisive(inputs, n);
    }
  }

  lemma LatestWith(front: seq<Input>, last: Input)
    ensures LatestCode(front + [last]) == if last.GotCode? then Some(last.code) else LatestCode(front)
    ensures LatestFinish(front + [last]) == if last.GotFinish? then Some(last.data) else LatestFinish(front)
    ensures forall s :: Run(s, front + [last]) == Step(Run(s, front), last)
  {
    assert (front + [last])[..|front|] == front;
  }

  /** A promise that only remembers a code and a finish settles at the first decisive event. */
  lemma DecidesNow(front: seq<Input>, last: Input, cleanups: seq<Cleanup>)
    requires FirstDecisive(front + [last], |front|)
    ensures var s := Run(Initial(cleanups), front + [last]);
            s.settled && s.outcomes == [OutcomeAt(front + [last], |front|)] && s.cleaned == s.cleanups == cleanups
  {
    hide LatestCode, LatestFinish, Run, Undecided;
    var inputs := front + [last];
    assert inputs[..|front|] == front && inputs[..|front| + 1] == inputs;
    UndecidedFront(inputs, |front|);
    UndecidedRun(front, cleanups);
    JoinedIsDecided(front);
    LatestWith(front, last);
  }

  lemma UndecidedFront(inputs: seq<Input>, k: nat)
    requires FirstDecisive(inputs, k)
    ensures Undecided(inputs[..k])
  {
    forall j | 0 <= j < k ensures !Decisive(inputs[..k], j) {
      PrefixDecisive(inputs, k, j);
    }
  }

  /** While nothing was decisive, not both a code and a finish have come. */
  lemma JoinedIsDecided(inputs: seq<Input>)
    requires Undecided(inputs)
    ensures LatestCode(inputs).None? || LatestFinish(inputs).None?
  {
    if inputs != [] {
      assert inputs[..|inputs| - 1 + 1] == inputs;
      assert !Decisive(inputs, |inputs| - 1);
    }
  }

  lemma DecidedStays(inputs: seq<Input>, k: nat)
    requires FirstDecisive(inputs, k) && k < |inputs| - 1
    ensures FirstDecisive(inputs[..|inputs| - 1], k)
    ensures OutcomeAt(inputs[..|inputs| - 1], k) == OutcomeAt(inputs, k)
  {
    hide Decisive, OutcomeAt;
    var front := inputs[..|inputs| - 1];
    forall j | 0 <= j < k ensures !Decisive(front, j) {
      PrefixDecisive(inputs, |front|, j);
    }
    PrefixDecisive(inputs, |front|, k);
  }

  lemma SettledStays(s: State, i: Input)
    requires s.settled
    ensures var t := Step(s, i);
            t.settled && t.outcomes == s.outcomes && t.cleaned == s.cleaned && t.cleanups == s.cleanups
  {
  }

  lemma {:induction false} DecidedRun(inputs: seq<Input>, k: nat, cleanups: seq<Cleanup>)
    requires FirstDecisive(inputs, k)
    ensures var s := Run(Initial(cleanups), inputs);
            s.settled && s.outcomes == [OutcomeAt(inputs, k)] && s.cleaned == cleanups && s.cleanups == cleanups
  {
    hide Decisive, OutcomeAt, Step;
    var n := |inputs| - 1;
    if k < n {
      DecidedStays(inputs, k);
      DecidedRun(inputs[..n], k, cleanups);
      SettledStays(Run(Initial(cleanups), inputs[..n]), inputs[n]);
    } else {
      assert inputs == inputs[..n] + [inputs[n]];
      DecidesNow(inputs[..n], inputs[n], cleanups);
    }
  }

  /** Every event sequence: nothing decisive, nothing settled; otherwise the first decisive event settles the
      promise, once, and every registered cleanup has run exactly once. Later events change nothing. */
  lemma SettlesAtFirstDecisiveEvent(inputs: seq<Input>, cleanups: seq<Cleanup>)
    ensures Undecided(inputs) ==>
              var s := Run(Initial(cleanups), inputs);
              !s.settled && s.outcomes == [] && s.cleaned == []
    ensures forall k :: FirstDecisive(inputs, k) ==>
              var s := Run(Initial(cleanups), inputs);
              s.settled && s.outcomes == [OutcomeAt(inputs, k)] && s.cleaned == cleanups
    ensures Undecided(inputs) || exists k :: FirstDecisive(inputs, k)
  {
    if Undecided(inputs) {
      UndecidedRun(inputs, cleanups);
    } else {
      var k := LeastDecisive(inputs, 0);
      assert FirstDecisive(inputs, k);
    }
    forall k | FirstDecisive(inputs, k)
      ensures var s := Run(Initial(cleanups), inputs);
              s.settled && s.outcomes == [OutcomeAt(inputs, k)] && s.cleaned == cleanups
    {
      DecidedRun(inputs, k, cleanups);
    }
  }

  lemma LeastDecisive(inputs: seq<Input>, from: nat) returns (k: nat)
    requires forall j :: 0 <= j < from && j < |inputs| ==> !Decisive(inputs, j)
    requires exists j :: 0 <= j < |inputs| && Decisive(inputs, j)
    ensures FirstDecisive(inputs, k)
    decreases |inputs| - from
  {
    if from < |inputs| && Decisive(inputs, from) {
      k := from;
    } else {
      k := LeastDecisive(inputs, from + 1);
    }
  }

  /** With one code and one complete signup in play and no error, the promise resolves with exactly these two
      as soon as both have arrived, whatever the order and whatever else arrives. */
  lemma OrderDoesNotMatter(inputs: seq<Input>, code: string, d: SignupData, cleanups: seq<Cleanup>)
    requires d.Complete()
    requires forall k :: 0 <= k < |inputs| ==> inputs[k] in {GotCode(code), GotFinish(d), Ignore}
    ensures Run(Initial(cleanups), inputs).outcomes ==
            if GotCode(code) in inputs && GotFinish(d) in inputs then [Resolved(Join(code, d))] else []
  {
    LatestIfPresent(inputs, code, d);
    if Undecided(inputs) {
      UndecidedRun(inputs, cleanups);
      JoinedIsDecided(inputs);
    } else {
      var k := LeastDecisive(inputs, 0);
      DecidedRun(inputs, k, cleanups);
      BothByThen(inputs, k, code, d);
    }
  }

  /** The decisive event of such a run comes once both have arrived, and settles with these two. */
  lemma BothByThen(inputs: seq<Input>, k: nat, code: string, d: SignupData)
    requires d.Complete() && FirstDecisive(inputs, k)
    requires forall k :: 0 <= k < |inputs| ==> inputs[k] in {GotCode(code), GotFinish(d), Ignore}
    ensures GotCode(code) in inputs && GotFinish(d) in inputs && OutcomeAt(inputs, k) == Resolved(Join(code, d))
  {
    LatestIfPresent(inputs[..k + 1], code, d);
  }

  lemma {:induction false} LatestIfPresent(inputs: seq<Input>, code: string, d: SignupData)
    requires forall k :: 0 <= k < |inputs| ==> inputs[k] in {GotCode(code), GotFinish(d), Ignore}
    ensures LatestCode(inputs) == if GotCode(code) in inputs then Some(code) else None
    ensures LatestFinish(inputs) == if GotFinish(d) in inputs then Some(d) else None
  {
    if inputs != [] {
      var front := inputs[..|inputs| - 1];
      LatestIfPresent(front, code, d);
      assert inputs == front + [inputs[|inputs| - 1]];
    }
  }

  // ---------- what a resolved promise carries ----------

  /** `j` is the last code among the inputs. */
  ghost predicate LastCode(inputs: seq<Input>, j: nat) {
    j < |inputs| && inputs[j].GotCode? && forall i :: j < i < |inputs| ==> !inputs[i].GotCode?
  }

  /** `j` is the last finished signup among the inputs. */
  ghost predicate LastFinish(inputs: seq<Input>, j: nat) {
    j < |inputs| && inputs[j].GotFinish? && forall i :: j < i < |inputs| ==> !inputs[i].GotFinish?
  }

  lemma {:induction false} LatestCodeAt(inputs: seq<Input>) returns (j: nat)
    requires LatestCode(inputs).Some?
    ensures LastCode(inputs, j) && inputs[j].code == LatestCode(inputs).value
  {
    var n := |inputs| - 1;
    if inputs[n].GotCode? {
      j := n;
    } else {
      j := LatestCodeAt(inputs[..n]);
    }
  }

  lemma {:induction false} LatestFinishAt(inputs: seq<Input>) returns (j: nat)
    requires LatestFinish(inputs).Some?
    ensures LastFinish(inputs, j) && inputs[j].data == LatestFinish(inputs).value
  {
    var n := |inputs| - 1;
    if inputs[n].GotFinish? {
      j := n;
    } else {
      j := LatestFinishAt(inputs[..n]);
    }
  }

  /** A promise that resolves carries, field by field, the last code and the last finished signup that had come by the
      decisive event, and neither id is empty. */
  lemma ResolvedMeans(inputs: seq<Input>, cleanups: seq<Cleanup>, r: SignupResult)
    returns (k: nat, c: nat, f: nat)
    requires Resolved(r) in Run(Initial(cleanups), inputs).outcomes
    ensures FirstDecisive(inputs, k) && LastCode(inputs[..k + 1], c) && LastFinish(inputs[..k + 1], f)
    ensures r.code == inputs[c].code
    ensures r.phoneNumberId == inputs[f].data.phoneNumberId && r.phoneNumberId != ""
    ensures r.wabaId == inputs[f].data.wabaId && r.wabaId != ""
    ensures r.businessId == inputs[f].data.businessId
  {
    SettlesAtFirstDecisiveEvent(inputs, cleanups);
    k :| FirstDecisive(inputs, k);
    assert OutcomeAt(inputs, k) == Resolved(r);
    c := LatestCodeAt(inputs[..k + 1]);
    f := LatestFinishAt(inputs[..k + 1]);
    NoErrorYet(inputs, k, f);
  }

  /** By the time a promise resolves no incomplete signup had come. */
  lemma NoErrorYet(inputs: seq<Input>, k: nat, f: nat)
    requires FirstDecisive(inputs, k) && OutcomeAt(inputs, k).Resolved? && f <= k && inputs[f].GotFinish?
    ensures inputs[f].data.phoneNumberId != "" && inputs[f].data.wabaId != ""
  {
    if f < k {
      assert !Decisive(inputs, f);
    }
  }

  /** What the first decisive event does: an error is passed on, an incomplete signup rejects, a code and a complete
      signup resolve. */
  lemma DecisiveMeans(inputs: seq<Input>, k: nat, cleanups: seq<Cleanup>)
    requires FirstDecisive(inputs, k)
    ensures var outcomes := Run(Initial(cleanups), inputs).outcomes;
            && |outcomes| == 1
            && (inputs[k].Fail? ==> outcomes == [Rejected(inputs[k].error)])
            && (inputs[k].GotFinish? && (inputs[k].data.phoneNumberId == "" || inputs[k].data.wabaId == "") ==>
                  outcomes == [Rejected("A Meta concluiu o fluxo, mas nao retornou phone_number_id e waba_id.")])
            && (!inputs[k].Fail?
                && (inputs[k].GotFinish? ==> inputs[k].data.phoneNumberId != "" && inputs[k].data.wabaId != "") ==>
                  outcomes[0].Resolved?)
  {
    DecidedRun(inputs, k, cleanups);
  }

  /** An event is decisive if it is an error, an incomplete signup, or comes when a code and a signup are both there. */
  lemma DecisiveExactly(inputs: seq<Input>, k: nat)
    requires k < |inputs|
    ensures Decisive(inputs, k) <==>
            || inputs[k].Fail?
            || (inputs[k].GotFinish? && (inputs[k].data.phoneNumberId == "" || inputs[k].data.wabaId == ""))
            || ((exists c :: 0 <= c <= k && inputs[c].GotCode?) && exists f :: 0 <= f <= k && inputs[f].GotFinish?)
  {
    LatestExists(inputs[..k + 1]);
    forall j | 0 <= j <= k ensures inputs[..k + 1][j] == inputs[j] {
    }
    if c :| 0 <= c <= k && inputs[c].GotCode? {
      assert inputs[..k + 1][c].GotCode?;
    }
    if f :| 0 <= f <= k && inputs[f].GotFinish? {
      assert inputs[..k + 1][f].GotFinish?;
    }
  }

  lemma {:induction false} LatestExists(inputs: seq<Input>)
    ensures LatestCode(inputs).Some? <==> exists c :: 0 <= c < |inputs| && inputs[c].GotCode?
    ensures LatestFinish(inputs).Some? <==> exists f :: 0 <= f < |inputs| && inputs[f].GotFinish?
  {
    if inputs != [] {
      var front := inputs[..|inputs| - 1];
      LatestExists(front);
      forall j | 0 <= j < |front| ensures front[j] == inputs[j] {
      }
      if c :| 0 <= c < |front| && front[c].GotCode? {
        assert inputs[c].GotCode?;
      }
      if f :| 0 <= f < |front| && front[f].GotFinish? {
        assert inputs[f].GotFinish?;
      }
    }
  }

  // ---------- what the messages mean ----------

  /** Signup events by name. */
  lemma SignupEventMeans(m: Data)
    requires m.SignupEvent?
    ensures ClassifySignupEvent(m).Fail? <==> m.eventName in {"CANCEL", "ERROR", "FINISH_ONLY_WABA"}
    ensures ClassifySignupEvent(m).GotFinish? <==> m.eventName in {"FINISH", "FINISH_WHATSAPP_BUSINESS_APP_ONBOARDING"}
    ensures ClassifySignupEvent(m).GotFinish? ==> ClassifySignupEvent(m).data == m.data
    ensures !ClassifySignupEvent(m).GotCode?
  {
    var finish, onboarding, only := "FINISH", "FINISH_WHATSAPP_BUSINESS_APP_ONBOARDING", "FINISH_ONLY_WABA";
    assert |finish| == 6 && |onboarding| == 39 && |only| == 16 && |"CANCEL"| == 6 && |"ERROR"| == 5;
    assert finish[0] == 'F' && "CANCEL"[0] == 'C';
  }

  /** The error a signup event carries: for a business account without a number, */
  lemma WabaOnlyErrorMeans(m: Data)
    requires m.SignupEvent? && m.eventName == "FINISH_ONLY_WABA"
    ensures EventErrorMessage(m) ==
            "A WABA foi criada, mas nenhum numero foi conectado. Finalize a conexao do numero no fluxo da Meta."
  {
  }

  /** for a cancellation, */
  lemma CancelErrorMeans(m: Data)
    requires m.SignupEvent? && m.eventName == "CANCEL"
    ensures EventErrorMessage(m) ==
            if m.currentStep == "" then "Fluxo cancelado antes da conclusao."
            else "Fluxo cancelado na etapa \"" + m.currentStep + "\"."
  {
    assert |"FINISH_ONLY_WABA"| == 16 && |"CANCEL"| == 6;
  }

  /** and for an error. */
  lemma ErrorErrorMeans(m: Data)
    requires m.SignupEvent? && m.eventName == "ERROR"
    ensures EventErrorMessage(m) ==
            if Blank(m.errorMessage) then "Nao foi possivel concluir o Embedded Signup da Meta."
            else Trim(m.errorMessage)
  {
    TrimEmptyIffBlank(m.errorMessage);
    hide Trim;
    assert |"FINISH_ONLY_WABA"| == 16 && |"CANCEL"| == 6 && |"ERROR"| == 5;
  }

  /** The SDK promise listens to signup events from Facebook's origins only. */
  lemma SdkMessageMeans(m: Message)
    ensures ClassifySdkMessage(m) ==
            if m.origin == FacebookOrigin && m.data.SignupEvent? then ClassifySignupEvent(m.data) else Ignore
  {
  }

  /** The OAuth promise also listens to the redirect page, which brings a code or an error. */
  lemma OAuthMessageMeans(m: Message)
    ensures m.origin == FacebookOrigin && m.data.SignupEvent? ==>
              ClassifyOAuthMessage(m) == ClassifySignupEvent(m.data)
    ensures m.origin != FacebookOrigin && m.data.OAuthCallback? ==>
              ClassifyOAuthMessage(m) ==
              if m.data.code != "" then GotCode(m.data.code)
              else Fail(if m.data.error != "" then m.data.error else "Autorizacao nao concluida na Meta.")
    ensures !(m.origin == FacebookOrigin && m.data.SignupEvent?)
            && !(m.origin != FacebookOrigin && m.data.OAuthCallback?) ==>
              ClassifyOAuthMessage(m) == Ignore
  {
  }
}
