/** What a history sync should do, as functions of what the WhatsApp client answers. */
module HistorySpec {
  import opened JsString

  const BATCH_SIZE := 50
  const MAX_PASSES := 3

  // ---------- messages ----------

  datatype Payload = Payload(messageId: string, fromMe: bool, hasMedia: bool, kind: string, body: string,
                             isArchivedChat: bool, isPrivateChat: bool, isGroupMsg: bool, isStatus: bool,
                             broadcast: bool)

  /** `shouldIgnoreNormalizedInboundPayload`. */
  predicate Ignored(p: Payload) {
    || p.isArchivedChat
    || !p.isPrivateChat
    || p.isGroupMsg
    || p.isStatus
    || (p.kind == "notification_template" && Trim(p.body) == "" && !p.hasMedia)
    || (p.broadcast && p.kind == "broadcast_notification")
  }

  /** Reading one message: its payload and whether its contact is still unresolved, or an exception. */
  datatype Reading = Reading(payload: Payload, needsRetry: bool) | ReadFails(error: string)

  /** What the client answers during one visit of a chat. */
  datatype Visit =
    | ArchivedMeanwhile
    | FetchFails(error: string)
    | Fetched(readings: seq<Reading>)

  datatype VisitOutcome = VisitOk(shouldRetry: bool) | VisitFails(error: string)

  function FirstFailure(rs: seq<Reading>): Option<string> {
    if rs == [] then None
    else
      var n := |rs| - 1;
      var earlier := FirstFailure(rs[..n]);
      if earlier.Some? then earlier
      else if rs[n].ReadFails? then Some(rs[n].error)
      else None
  }

  /** The payloads that are not ignored, up to the first failure. */
  function Kept(rs: seq<Reading>): seq<Payload> {
    if rs == [] then []
    else
      var n := |rs| - 1;
      Kept(rs[..n]) + if FirstFailure(rs).None? && !Ignored(rs[n].payload) then [rs[n].payload] else []
  }

  predicate AnyNeedsRetry(rs: seq<Reading>) {
    exists k :: 0 <= k < |rs| && rs[k].Reading? && rs[k].needsRetry
  }

  function OutcomeOf(v: Visit): VisitOutcome {
    match v
    case ArchivedMeanwhile => VisitOk(false)
    case FetchFails(e) => VisitFails(e)
    case Fetched(rs) =>
      match FirstFailure(rs)
      case Some(e) => VisitFails(e)
      case None => VisitOk(AnyNeedsRetry(rs))
  }

  // ---------- batches ----------

  /** The complete batches of a list. */
  function FullBatches(ps: seq<Payload>): seq<seq<Payload>>
    decreases |ps|
  {
    if |ps| < BATCH_SIZE then [] else [ps[..BATCH_SIZE]] + FullBatches(ps[BATCH_SIZE..])
  }

  /** What is left after them. */
  function Leftover(ps: seq<Payload>): seq<Payload>
    decreases |ps|
  {
    if |ps| < BATCH_SIZE then ps else Leftover(ps[BATCH_SIZE..])
  }

  function Batches(ps: seq<Payload>): seq<seq<Payload>> {
    FullBatches(ps) + if Leftover(ps) == [] then [] else [Leftover(ps)]
  }

  function Flatten(bs: seq<seq<Payload>>): seq<Payload> {
    if bs == [] then [] else Flatten(bs[..|bs| - 1]) + bs[|bs| - 1]
  }

  /** The batches one undisturbed visit sends. */
  function SentBy(v: Visit): seq<seq<Payload>> {
    if !v.Fetched? then []
    else if FirstFailure(v.readings).Some? then FullBatches(Kept(v.readings))
    else Batches(Kept(v.readings))
  }

  function KeptBy(v: Visit): seq<Payload> {
    if v.Fetched? then Kept(v.readings) else []
  }

  // ---------- chats and visits ----------

  datatype ChatInfo = ChatInfo(id: Option<string>, archived: bool)

  predicate IsSyncablePrivateChatId(id: Option<string>) {
    id.Some? && Trim(id.value) != "" && (EndsWith(Trim(id.value), "@c.us") || EndsWith(Trim(id.value), "@lid"))
  }

  predicate IsEligible(c: ChatInfo) {
    IsSyncablePrivateChatId(c.id) && !c.archived
  }

  function EligibleIds(chats: seq<ChatInfo>): seq<string> {
    if chats == [] then []
    else
      var n := |chats| - 1;
      EligibleIds(chats[..n]) + if IsEligible(chats[n]) then [chats[n].id.value] else []
  }

  /** The eligible chats, and what visiting chat `i` in pass `p` meets. */
  datatype World = World(chatIds: seq<string>, visit: (nat, nat) -> Visit)

  datatype VisitAt = VisitAt(chat: nat, pass: nat)

  predicate Requeued(w: World, v: VisitAt) {
    OutcomeOf(w.visit(v.chat, v.pass)) == VisitOk(true) && v.pass + 1 < MAX_PASSES
  }

  /** The chats of a list that pass `p` puts back in the queue, in order. */
  function RequeuedOf(w: World, chats: seq<nat>, pass: nat): seq<nat> {
    if chats == [] then []
    else
      var n := |chats| - 1;
      RequeuedOf(w, chats[..n], pass) + if Requeued(w, VisitAt(chats[n], pass)) then [chats[n]] else []
  }

  function AllChats(n: nat): seq<nat> {
    if n == 0 then [] else AllChats(n - 1) + [n - 1]
  }

  /** The chats pending when pass `p` begins. */
  function Pending(w: World, pass: nat): seq<nat> {
    if pass == 0 then AllChats(|w.chatIds|) else RequeuedOf(w, Pending(w, pass - 1), pass - 1)
  }

  function VisitsOf(chats: seq<nat>, pass: nat): seq<VisitAt> {
    if chats == [] then []
    else
      var n := |chats| - 1;
      VisitsOf(chats[..n], pass) + [VisitAt(chats[n], pass)]
  }

  /** All visits of the first `passes` passes, in order. */
  function Schedule(w: World, passes: nat): seq<VisitAt> {
    if passes == 0 then [] else Schedule(w, passes - 1) + VisitsOf(Pending(w, passes - 1), passes - 1)
  }

  // ---------- what a list of visits adds up to ----------

  datatype SyncError = SyncError(chatId: string, message: string)

  datatype Progress = Progress(totalChats: nat, processedChats: nat, messagesProcessed: nat,
                               inboundMessages: nat, outboundMessages: nat, mediaMessages: nat)

  function IdOf(w: World, chat: nat): string {
    if chat < |w.chatIds| then w.chatIds[chat] else ""
  }

  function Sent(w: World, vs: seq<VisitAt>): seq<seq<Payload>> {
    if vs == [] then []
    else
      var v := vs[|vs| - 1];
      Sent(w, vs[..|vs| - 1]) + SentBy(w.visit(v.chat, v.pass))
  }

  /** Messages count as discovered on first visits only. */
  function Discovered(w: World, vs: seq<VisitAt>): seq<Payload> {
    if vs == [] then []
    else
      var v := vs[|vs| - 1];
      Discovered(w, vs[..|vs| - 1]) + if v.pass == 0 then KeptBy(w.visit(v.chat, v.pass)) else []
  }

  function Errors(w: World, vs: seq<VisitAt>): seq<SyncError> {
    if vs == [] then []
    else
      var v := vs[|vs| - 1];
      Errors(w, vs[..|vs| - 1]) +
      match OutcomeOf(w.visit(v.chat, v.pass))
      case VisitFails(e) => [SyncError(IdOf(w, v.chat), e)]
      case VisitOk(_) => []
  }

  function Synced(w: World, vs: seq<VisitAt>): set<string> {
    if vs == [] then {}
    else
      var v := vs[|vs| - 1];
      Synced(w, vs[..|vs| - 1]) + if OutcomeOf(w.visit(v.chat, v.pass)).VisitOk? then {IdOf(w, v.chat)} else {}
  }

  /** Visits after which their chat is done with. */
  function Processed(w: World, vs: seq<VisitAt>): nat {
    if vs == [] then 0
    else Processed(w, vs[..|vs| - 1]) + if Requeued(w, vs[|vs| - 1]) then 0 else 1
  }

  function CountOutbound(ps: seq<Payload>): nat {
    if ps == [] then 0 else CountOutbound(ps[..|ps| - 1]) + if ps[|ps| - 1].fromMe then 1 else 0
  }

  function CountInbound(ps: seq<Payload>): nat {
    if ps == [] then 0 else CountInbound(ps[..|ps| - 1]) + if ps[|ps| - 1].fromMe then 0 else 1
  }

  function CountMedia(ps: seq<Payload>): nat {
    if ps == [] then 0 else CountMedia(ps[..|ps| - 1]) + if ps[|ps| - 1].hasMedia then 1 else 0
  }

  function Snapshot(total: nat, processed: nat, discovered: seq<Payload>): Progress {
    Progress(total, processed, |discovered|, CountInbound(discovered), CountOutbound(discovered),
             CountMedia(discovered))
  }

  /** One progress event after each visit. */
  function ProgressAfter(w: World, vs: seq<VisitAt>): seq<Progress> {
    if vs == [] then []
    else ProgressAfter(w, vs[..|vs| - 1]) + [Snapshot(|w.chatIds|, Processed(w, vs), Discovered(w, vs))]
  }

  /** All progress events of an undisturbed sync. */
  function AllProgress(w: World): seq<Progress> {
    var vs := Schedule(w, MAX_PASSES);
    [Snapshot(|w.chatIds|, 0, [])] + ProgressAfter(w, vs) + [Snapshot(|w.chatIds|, |w.chatIds|, Discovered(w, vs))]
  }
}
