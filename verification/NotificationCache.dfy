/** The topbar's notification cache: pure updaters, and the component state that applies them. */
module NotificationCache {
  import opened JsString

  const LIMIT := 12

  /** `content` stands for the fields the cache never changes. */
  datatype Item = Item(id: string, content: string, readAt: Option<string>)

  datatype Cache = Cache(unreadCount: int, items: seq<Item>)

  datatype EventKind = Created | Read | ReadAll | OtherKind

  /** A stream event; a missing id is the empty string, `item` is the notification a created event carries. */
  datatype StreamEvent = StreamEvent(kind: EventKind, notificationId: string, unreadCount: Option<int>,
                                     item: Option<string>)

  /** `!notification.readAt`. */
  predicate Unread(i: Item) {
    i.readAt.None? || i.readAt.value == ""
  }

  /** `{ ...notification, readAt: notification.readAt ?? readAt }`. */
  function MarkRead(i: Item, now: string): Item {
    if i.readAt.None? then i.(readAt := Some(now)) else i
  }

  function MarkReadById(items: seq<Item>, id: string, now: string): (r: seq<Item>)
    ensures |r| == |items|
    ensures forall k :: 0 <= k < |items| ==> r[k] == if items[k].id == id then MarkRead(items[k], now) else items[k]
  {
    if items == [] then []
    else [if items[0].id == id then MarkRead(items[0], now) else items[0]] + MarkReadById(items[1..], id, now)
  }

  function MarkAllRead(items: seq<Item>, now: string): (r: seq<Item>)
    ensures |r| == |items|
    ensures forall k :: 0 <= k < |items| ==> r[k] == MarkRead(items[k], now)
  {
    if items == [] then [] else [MarkRead(items[0], now)] + MarkAllRead(items[1..], now)
  }

  function Max0(n: int): int {
    if n < 0 then 0 else n
  }

  predicate HasId(items: seq<Item>, id: string) {
    exists k :: 0 <= k < |items| && items[k].id == id
  }

  predicate HasUnreadId(items: seq<Item>, id: string) {
    exists k :: 0 <= k < |items| && items[k].id == id && Unread(items[k])
  }

  /** `current.items.find(...)` is an unread item. */
  predicate FirstIsUnread(items: seq<Item>, id: string) {
    items != [] && if items[0].id == id then Unread(items[0]) else FirstIsUnread(items[1..], id)
  }

  function TakeLimit(items: seq<Item>): seq<Item> {
    if |items| <= LIMIT then items else items[..LIMIT]
  }

  // ---------- the updaters ----------

  function SuppressUpdate(c: Cache, id: string, now: string): Cache {
    Cache(if FirstIsUnread(c.items, id) then Max0(c.unreadCount - 1) else c.unreadCount,
          MarkReadById(c.items, id, now))
  }

  function OpenUpdate(c: Cache, id: string, now: string): Cache {
    Cache(if HasUnreadId(c.items, id) then Max0(c.unreadCount - 1) else c.unreadCount,
          MarkReadById(c.items, id, now))
  }

  function MarkAllUpdate(c: Cache, now: string): Cache {
    Cache(0, MarkAllRead(c.items, now))
  }

  /** The stream reducer; `hide` says the created notification belongs to the conversation being read. */
  function StreamUpdate(c: Cache, e: StreamEvent, hide': bool, now: string): Cache {
    var next := if e.unreadCount.Some? then e.unreadCount.value else c.unreadCount;
    if e.kind == ReadAll then Cache(next, MarkAllRead(c.items, now))
    else if e.kind == Read && e.notificationId != "" then Cache(next, MarkReadById(c.items, e.notificationId, now))
    else if e.kind == Created && e.notificationId != "" && e.item.Some? then
      if hide' then Cache(Max0(next - 1), MarkReadById(c.items, e.notificationId, now))
      else
        Cache(next,
              if HasId(c.items, e.notificationId) then c.items
              else TakeLimit([Item(e.notificationId, e.item.value, None)] + c.items))
    else c
  }

  // ---------- the component ----------

  class NotificationCenter {
    var cache: Option<Cache>
    var suppressed: set<string>
    ghost var readRequests: seq<string>

    constructor ()
      ensures cache == None && suppressed == {} && readRequests == []
    {
      cache, suppressed, readRequests := None, {}, [];
    }

    method SuppressNotification(id: string, now: string)
      modifies this
      ensures suppressed == old(suppressed) + {id}
      ensures id in old(suppressed) ==> cache == old(cache) && readRequests == old(readRequests)
      ensures id !in old(suppressed) ==>
                && readRequests == old(readRequests) + [id]
                && cache == match old(cache)
                            case None => None
                            case Some(c) => Some(SuppressUpdate(c, id, now))
    {
      if id in suppressed {
        return;
      }
      suppressed := suppressed + {id};
      if cache.Some? {
        var c := cache.value;
        var wasUnread := FirstIsUnread(c.items, id);
        cache := Some(Cache(if wasUnread then Max0(c.unreadCount - 1) else c.unreadCount,
                            MarkReadById(c.items, id, now)));
      }
      readRequests := readRequests + [id];
    }

    /** A silent read request failed: the id may be suppressed again. */
    method OnSilentReadFailed(id: string)
      modifies this`suppressed
      ensures suppressed == old(suppressed) - {id}
    {
      suppressed := suppressed - {id};
    }

    method OnStreamEvent(e: StreamEvent, hide': bool, now: string)
      modifies this
      ensures cache == match old(cache)
                       case None => None
                       case Some(c) => Some(StreamUpdate(c, e, hide', now))
      ensures var hidden := e.kind == Created && e.notificationId != "" && e.item.Some? && hide';
              && suppressed == (if hidden then old(suppressed) + {e.notificationId} else old(suppressed))
              && readRequests == (if hidden then old(readRequests) + [e.notificationId] else old(readRequests))
    {
      if e.kind == Created && e.notificationId != "" && e.item.Some? && hide' {
        suppressed := suppressed + {e.notificationId};
        readRequests := readRequests + [e.notificationId];
      }
      if cache.Some? {
        cache := Some(StreamUpdate(cache.value, e, hide', now));
      }
    }

    /** `onMutate` of mark-all-read; answers the snapshot a failed mutation rolls back to. */
    method BeginMarkAllRead(now: string) returns (previous: Option<Cache>)
      modifies this`cache
      ensures previous == old(cache)
      ensures cache == match old(cache)
                       case None => None
                       case Some(c) => Some(MarkAllUpdate(c, now))
    {
      previous := cache;
      if cache.Some? {
        cache := Some(MarkAllUpdate(cache.value, now));
      }
    }

    method RollBackMarkAllRead(previous: Option<Cache>)
      modifies this`cache
      ensures cache == if previous.Some? then previous else old(cache)
    {
      if previous.Some? {
        cache := previous;
      }
    }

    /** The cache part of opening a notification, after its read request succeeded. */
    method OpenNotification(id: string, now: string)
      modifies this`cache
      ensures cache == match old(cache)
                       case None => None
                       case Some(c) => Some(OpenUpdate(c, id, now))
    {
      if cache.Some? {
        cache := Some(OpenUpdate(cache.value, id, now));
      }
    }
  }

  // ---------- runs ----------

  datatype LocalStep =
    | Stream(e: StreamEvent, hide': bool)
    | Suppress(id: string)
    | Open(id: string)
    | MarkAll

  function Apply(c: Cache, step: LocalStep, now: string): Cache {
    match step
    case Stream(e, hide') => StreamUpdate(c, e, hide', now)
    case Suppress(id) => SuppressUpdate(c, id, now)
    case Open(id) => OpenUpdate(c, id, now)
    case MarkAll => MarkAllUpdate(c, now)
  }

  function ApplyAll(c: Cache, steps: seq<(LocalStep, string)>): Cache {
    if steps == [] then c
    else
      var n := |steps| - 1;
      Apply(ApplyAll(c, steps[..n]), steps[n].0, steps[n].1)
  }

  ghost predicate DistinctIds(items: seq<Item>) {
    forall a, b :: 0 <= a < b < |items| ==> items[a].id != items[b].id
  }

  ghost predicate WellFormed(c: Cache) {
    DistinctIds(c.items) && |c.items| <= LIMIT
  }

  /** An id keeps its read stamp: a stamped item stays, with the same stamp, or is gone from the list. */
  ghost predicate KeepsStamps(before: Cache, after: Cache) {
    forall a, b :: 0 <= a < |before.items| && 0 <= b < |after.items|
                   && before.items[a].id == after.items[b].id && before.items[a].readAt.Some? ==>
                   after.items[b].readAt == before.items[a].readAt
  }

  /** Position by position the ids are the same and a stamp once set stays. */
  ghost predicate InPlace(before: seq<Item>, after: seq<Item>) {
    |after| == |before|
    && forall k :: 0 <= k < |before| ==>
         after[k].id == before[k].id && (before[k].readAt.Some? ==> after[k].readAt == before[k].readAt)
  }

  lemma InPlaceKeeps(c: Cache, after: Cache)
    requires WellFormed(c) && InPlace(c.items, after.items)
    ensures WellFormed(after) && KeepsStamps(c, after)
  {
    forall a, b | 0 <= a < |c.items| && 0 <= b < |after.items|
                  && c.items[a].id == after.items[b].id && c.items[a].readAt.Some?
      ensures after.items[b].readAt == c.items[a].readAt
    {
      assert after.items[b].id == c.items[b].id && a == b;
    }
  }

  lemma ArrivalKeeps(c: Cache, item: Item, after: Cache)
    requires WellFormed(c) && !HasId(c.items, item.id) && after.items == TakeLimit([item] + c.items)
    ensures WellFormed(after) && KeepsStamps(c, after)
  {
    var items := [item] + c.items;
    forall k | 1 <= k < |items| ensures items[k] == c.items[k - 1] {
    }
    forall k | 0 <= k < |after.items| ensures after.items[k] == items[k] {
    }
    hide TakeLimit;
    forall a, b | 0 <= a < |c.items| && 0 <= b < |after.items|
                  && c.items[a].id == after.items[b].id && c.items[a].readAt.Some?
      ensures after.items[b].readAt == c.items[a].readAt
    {
      assert b != 0 && after.items[b] == c.items[b - 1] && a == b - 1;
    }
    assert |after.items| <= LIMIT;
    forall a, b | 0 <= a < b < |after.items| ensures after.items[a].id != after.items[b].id {
      assert after.items[b] == c.items[b - 1];
    }
  }

  lemma MarkingIsInPlace(items: seq<Item>, id: string, now: string)
    ensures InPlace(items, MarkReadById(items, id, now)) && InPlace(items, MarkAllRead(items, now))
  {
    hide MarkReadById, MarkAllRead;
  }

  /** Every step keeps the cache well formed and the read stamps set so far. */
  lemma StepKeeps(c: Cache, step: LocalStep, now: string)
    requires WellFormed(c)
    ensures WellFormed(Apply(c, step, now)) && KeepsStamps(c, Apply(c, step, now))
  {
    hide MarkReadById, MarkAllRead, TakeLimit, FirstIsUnread, HasUnreadId, WellFormed, KeepsStamps, InPlace;
    var after := Apply(c, step, now);
    match step {
      case Suppress(id) =>
        MarkingIsInPlace(c.items, id, now);
        InPlaceKeeps(c, after);
      case Open(id) =>
        MarkingIsInPlace(c.items, id, now);
        InPlaceKeeps(c, after);
      case MarkAll =>
        MarkingIsInPlace(c.items, "", now);
        InPlaceKeeps(c, after);
      case Stream(e, hide') => StreamKeeps(c, e, hide', now);
    }
  }

  lemma StreamKeeps(c: Cache, e: StreamEvent, hide': bool, now: string)
    requires WellFormed(c)
    ensures WellFormed(StreamUpdate(c, e, hide', now)) && KeepsStamps(c, StreamUpdate(c, e, hide', now))
  {
    hide MarkReadById, MarkAllRead, TakeLimit, WellFormed, KeepsStamps, InPlace;
    var after := StreamUpdate(c, e, hide', now);
    MarkingIsInPlace(c.items, e.notificationId, now);
    SameIsInPlace(c.items);
    if e.kind == Created && e.notificationId != "" && e.item.Some? && !hide' && !HasId(c.items, e.notificationId) {
      ArrivalKeeps(c, Item(e.notificationId, e.item.value, None), after);
    } else {
      InPlaceKeeps(c, after);
    }
  }

  lemma SameIsInPlace(items: seq<Item>)
    ensures InPlace(items, items)
  {
  }

  /** Any run of stream events and local steps keeps ids distinct and at most twelve items. */
  lemma {:induction false} RunKeepsWellFormed(c: Cache, steps: seq<(LocalStep, string)>)
    requires WellFormed(c)
    ensures WellFormed(ApplyAll(c, steps))
  {
    if steps != [] {
      var n := |steps| - 1;
      RunKeepsWellFormed(c, steps[..n]);
      StepKeeps(ApplyAll(c, steps[..n]), steps[n].0, steps[n].1);
    }
  }

  function ReadAtOf(items: seq<Item>, id: string): Option<string> {
    if items == [] then None else if items[0].id == id then items[0].readAt else ReadAtOf(items[1..], id)
  }

  lemma {:induction false} ReadAtOfIndex(items: seq<Item>, id: string)
    requires HasId(items, id)
    ensures exists k :: 0 <= k < |items| && items[k].id == id && items[k].readAt == ReadAtOf(items, id)
  {
    if items[0].id != id {
      var k :| 0 <= k < |items| && items[k].id == id;
      assert items[1..][k - 1].id == id;
      ReadAtOfIndex(items[1..], id);
      var j :| 0 <= j < |items[1..]| && items[1..][j].id == id && items[1..][j].readAt == ReadAtOf(items[1..], id);
      assert items[j + 1].id == id;
    }
  }

  /** A read stamp is never cleared nor changed while its notification stays in the list. */
  lemma {:induction false} RunNeverClearsReadAt(c: Cache, steps: seq<(LocalStep, string)>, id: string)
    requires WellFormed(c) && ReadAtOf(c.items, id).Some?
    requires forall n :: 0 <= n <= |steps| ==> HasId(ApplyAll(c, steps[..n]).items, id)
    ensures ReadAtOf(ApplyAll(c, steps).items, id) == ReadAtOf(c.items, id)
  {
    assert steps[..|steps|] == steps;
    if steps != [] {
      var n := |steps| - 1;
      var front := steps[..n];
      forall k | 0 <= k <= n ensures HasId(ApplyAll(c, front[..k]).items, id) {
        assert front[..k] == steps[..k];
        assert HasId(ApplyAll(c, steps[..k]).items, id);
      }
      RunNeverClearsReadAt(c, front, id);
      RunKeepsWellFormed(c, front);
      var before, after := ApplyAll(c, front), ApplyAll(c, steps);
      StepKeeps(before, steps[n].0, steps[n].1);
      assert front[..n] == front && HasId(ApplyAll(c, front[..n]).items, id);
      assert HasId(ApplyAll(c, steps[..|steps|]).items, id);
      ReadAtOfIndex(before.items, id);
      ReadAtOfIndex(after.items, id);
    }
  }

  /** A created event never unreads a listed notification; an id that had left the list comes back unread. */
  lemma CreatedIsUnreadIffUnlisted(c: Cache, e: StreamEvent, now: string)
    requires e.kind == Created && e.notificationId != "" && e.item.Some?
    ensures ReadAtOf(StreamUpdate(c, e, false, now).items, e.notificationId) ==
            if HasId(c.items, e.notificationId) then ReadAtOf(c.items, e.notificationId) else None
    ensures HasId(StreamUpdate(c, e, false, now).items, e.notificationId)
  {
    if !HasId(c.items, e.notificationId) {
      var items := TakeLimit([Item(e.notificationId, e.item.value, None)] + c.items);
      assert items[0] == Item(e.notificationId, e.item.value, None);
    }
  }

  // ---------- counting ----------

  function UnreadItems(items: seq<Item>): nat {
    if items == [] then 0 else UnreadItems(items[1..]) + if Unread(items[0]) then 1 else 0
  }

  /** Unread because stamped with the empty string, which marking as read leaves alone. */
  predicate BlankStamp(i: Item) {
    i.readAt == Some("")
  }

  predicate HasBlankStampedId(items: seq<Item>, id: string) {
    exists k :: 0 <= k < |items| && items[k].id == id && BlankStamp(items[k])
  }

  lemma {:induction false} FirstIsUnreadIffHas(items: seq<Item>, id: string)
    requires DistinctIds(items)
    ensures FirstIsUnread(items, id) == HasUnreadId(items, id)
  {
    if items != [] {
      FirstIsUnreadIffHas(items[1..], id);
      if HasUnreadId(items[1..], id) {
        var k :| 0 <= k < |items[1..]| && items[1..][k].id == id && Unread(items[1..][k]);
        assert items[k + 1].id == id && Unread(items[k + 1]);
      }
      if HasUnreadId(items, id) && items[0].id != id {
        var k :| 0 <= k < |items| && items[k].id == id && Unread(items[k]);
        assert items[1..][k - 1].id == id && Unread(items[1..][k - 1]);
      }
    }
  }

  /** Marking an id read lowers the unread items by one when it was unread and not blank-stamped, else by none. */
  lemma {:induction false} MarkingCounts(items: seq<Item>, id: string, now: string)
    requires DistinctIds(items) && now != ""
    ensures UnreadItems(items) - UnreadItems(MarkReadById(items, id, now)) ==
            if HasUnreadId(items, id) && !HasBlankStampedId(items, id) then 1 else 0
  {
    if items != [] {
      var tail := items[1..];
      var marked := MarkReadById(items, id, now);
      assert marked[1..] == MarkReadById(tail, id, now);
      MarkingCounts(tail, id, now);
      if items[0].id == id {
        assert !HasId(tail, id) by {
          forall k | 0 <= k < |tail| ensures tail[k].id != id {
            assert items[k + 1] == tail[k];
          }
        }
        assert !HasUnreadId(tail, id);
        assert HasUnreadId(items, id) == Unread(items[0]);
        assert HasBlankStampedId(items, id) == BlankStamp(items[0]) by {
          forall k | 0 < k < |items| ensures items[k].id != id {
            assert tail[k - 1] == items[k];
          }
        }
      } else {
        SameInTail(items, id);
      }
    }
  }

  lemma SameInTail(items: seq<Item>, id: string)
    requires items != [] && items[0].id != id
    ensures HasUnreadId(items, id) == HasUnreadId(items[1..], id)
    ensures HasBlankStampedId(items, id) == HasBlankStampedId(items[1..], id)
  {
    var tail := items[1..];
    forall k | 0 < k < |items| ensures items[k] == tail[k - 1] {
    }
    forall k | 0 <= k < |tail| ensures tail[k] == items[k + 1] {
    }
  }

  /** Suppressing and opening lower the counter by exactly the items they newly read, if and only if the counter
      is at least one when they read one, and is zero when the item's stamp is the empty string. */
  lemma DropsExactlyIff(c: Cache, id: string, now: string)
    requires WellFormed(c) && now != ""
    ensures SuppressUpdate(c, id, now) == OpenUpdate(c, id, now)
    ensures var after := OpenUpdate(c, id, now);
            c.unreadCount - after.unreadCount == UnreadItems(c.items) - UnreadItems(after.items)
            <==> (HasUnreadId(c.items, id) ==>
                    if HasBlankStampedId(c.items, id) then c.unreadCount == 0 else c.unreadCount >= 1)
  {
    FirstIsUnreadIffHas(c.items, id);
    MarkingCounts(c.items, id, now);
  }

  lemma {:induction false} AnUnreadIdCounts(items: seq<Item>, id: string)
    requires HasUnreadId(items, id)
    ensures UnreadItems(items) >= 1
  {
    if items[0].id == id && Unread(items[0]) {
    } else {
      var k :| 0 <= k < |items| && items[k].id == id && Unread(items[k]);
      assert items[1..][k - 1].id == id && Unread(items[1..][k - 1]);
      AnUnreadIdCounts(items[1..], id);
    }
  }

  /** While the counter covers the unread items and no stamp is blank, suppressing and opening lower it by exactly
      the number of items they newly read, and it still covers the rest. */
  lemma CoveringCounterStaysExact(c: Cache, id: string, now: string)
    requires WellFormed(c) && now != "" && c.unreadCount >= UnreadItems(c.items)
    requires !HasBlankStampedId(c.items, id)
    ensures var after := OpenUpdate(c, id, now);
            && after == SuppressUpdate(c, id, now)
            && c.unreadCount - after.unreadCount == UnreadItems(c.items) - UnreadItems(after.items)
            && after.unreadCount >= UnreadItems(after.items)
  {
    if HasUnreadId(c.items, id) {
      AnUnreadIdCounts(c.items, id);
    }
    DropsExactlyIff(c, id, now);
  }

  /** Opening keeps the counter at or above the unread items, except for an unread item with a blank stamp
      when the counter has nothing to spare. */
  lemma OpenKeepsCoveringIff(c: Cache, id: string, now: string)
    requires WellFormed(c) && now != "" && c.unreadCount >= UnreadItems(c.items)
    ensures var after := OpenUpdate(c, id, now);
            after.unreadCount >= UnreadItems(after.items) <==>
            !(HasBlankStampedId(c.items, id) && c.unreadCount == UnreadItems(c.items))
  {
    MarkingCounts(c.items, id, now);
    if HasUnreadId(c.items, id) {
      AnUnreadIdCounts(c.items, id);
    }
    if HasBlankStampedId(c.items, id) {
      var k :| 0 <= k < |c.items| && c.items[k].id == id && BlankStamp(c.items[k]);
      assert Unread(c.items[k]);
    }
  }

  lemma {:induction false} AfterMarkAll(items: seq<Item>, now: string)
    requires now != ""
    ensures UnreadItems(MarkAllRead(items, now)) == 0 <==> forall k :: 0 <= k < |items| ==> !BlankStamp(items[k])
  {
    if items != [] {
      var marked := MarkAllRead(items, now);
      assert marked[1..] == MarkAllRead(items[1..], now);
      AfterMarkAll(items[1..], now);
      forall k | 0 <= k < |items[1..]| ensures items[1..][k] == items[k + 1] {
      }
      if forall k :: 0 <= k < |items[1..]| ==> !BlankStamp(items[1..][k]) {
        forall k | 0 < k < |items| ensures !BlankStamp(items[k]) {
          assert items[k] == items[1..][k - 1];
        }
      }
    }
  }

  /** Mark-all leaves nothing unread, and its zero counter is right, exactly when no stamp is blank. */
  lemma MarkAllKeepsCoveringIff(c: Cache, now: string)
    requires now != ""
    ensures var after := MarkAllUpdate(c, now);
            after.unreadCount >= UnreadItems(after.items) <==>
            forall k :: 0 <= k < |c.items| ==> !BlankStamp(c.items[k])
  {
    AfterMarkAll(c.items, now);
  }

  /** A counter that covers the unread items, none of which has a blank stamp. */
  ghost predicate Covered(c: Cache) {
    && c.unreadCount >= UnreadItems(c.items)
    && forall k :: 0 <= k < |c.items| ==> !BlankStamp(c.items[k])
  }

  lemma LocalStepKeepsCovered(c: Cache, step: LocalStep, now: string)
    requires WellFormed(c) && Covered(c) && !step.Stream? && now != ""
    ensures var after := Apply(c, step, now);
            && Covered(after)
            && (!step.MarkAll? ==>
                  c.unreadCount - after.unreadCount == UnreadItems(c.items) - UnreadItems(after.items))
  {
    hide UnreadItems, WellFormed;
    match step {
      case Suppress(id) => CoveringCounterStaysExact(c, id, now);
      case Open(id) => CoveringCounterStaysExact(c, id, now);
      case MarkAll => MarkAllKeepsCoveringIff(c, now);
    }
  }

  /** Any run of suppressing, opening and mark-all between stream events keeps the counter at or above the unread
      items, and without mark-all the counter falls by exactly the items newly read. */
  lemma {:induction false} LocalRunKeepsCovered(c: Cache, steps: seq<(LocalStep, string)>)
    requires WellFormed(c) && Covered(c)
    requires forall k :: 0 <= k < |steps| ==> !steps[k].0.Stream? && steps[k].1 != ""
    ensures var after := ApplyAll(c, steps);
            && Covered(after)
            && ((forall k :: 0 <= k < |steps| ==> !steps[k].0.MarkAll?) ==>
                  c.unreadCount - after.unreadCount == UnreadItems(c.items) - UnreadItems(after.items))
  {
    hide UnreadItems, WellFormed, Covered, Apply;
    if steps != [] {
      var n := |steps| - 1;
      LocalRunKeepsCovered(c, steps[..n]);
      RunKeepsWellFormed(c, steps[..n]);
      LocalStepKeepsCovered(ApplyAll(c, steps[..n]), steps[n].0, steps[n].1);
    }
  }

  // ---------- inputs on which the cache does not do the expected ----------

  /** An item stamped with the empty string counts as unread, and opening it lowers the counter but not the unread
      items. */
  lemma BlankStampBreaksCounter(now: string)
    ensures var c := Cache(1, [Item("n", "", Some(""))]);
            && WellFormed(c) && c.unreadCount >= UnreadItems(c.items)
            && OpenUpdate(c, "n", now).unreadCount < UnreadItems(OpenUpdate(c, "n", now).items)
  {
    var items := [Item("n", "", Some(""))];
    assert items[0].id == "n" && Unread(items[0]) && HasUnreadId(items, "n");
    assert MarkReadById(items, "n", now) == items;
    assert items[1..] == [] && UnreadItems(items) == 1;
  }

  /** A counter below the unread items cannot follow them down. */
  lemma EmptyCounterCannotDrop(now: string)
    requires now != ""
    ensures var c := Cache(0, [Item("n", "", None)]);
            && WellFormed(c)
            && OpenUpdate(c, "n", now).unreadCount == c.unreadCount
            && UnreadItems(OpenUpdate(c, "n", now).items) == UnreadItems(c.items) - 1
  {
    var items := [Item("n", "", None)];
    assert items[0].id == "n" && Unread(items[0]) && HasUnreadId(items, "n");
    var marked := MarkReadById(items, "n", now);
    assert items[1..] == [] && marked[1..] == [];
    assert UnreadItems(items) == 1 && UnreadItems(marked) == 0;
  }

  /** In a full list an arrival pushes out the last item; created again, that item is unread although it was read. */
  lemma PushedOutComesBackUnread(c: Cache, arrival: StreamEvent, again: StreamEvent, now: string)
    requires WellFormed(c) && |c.items| == LIMIT && c.items[LIMIT - 1].readAt.Some?
    requires arrival.kind == Created && arrival.item.Some? && !HasId(c.items, arrival.notificationId)
    requires again.kind == Created && again.item.Some? && again.notificationId == c.items[LIMIT - 1].id
    requires arrival.notificationId != "" && again.notificationId != ""
    ensures var after := StreamUpdate(StreamUpdate(c, arrival, false, now), again, false, now);
            HasId(after.items, again.notificationId) && ReadAtOf(after.items, again.notificationId) == None
  {
    var first := StreamUpdate(c, arrival, false, now);
    assert first.items == TakeLimit([Item(arrival.notificationId, arrival.item.value, None)] + c.items);
    assert c.items[LIMIT - 1].id == again.notificationId;
    forall k | 0 <= k < |first.items| ensures first.items[k].id != again.notificationId {
      if k > 0 {
        assert first.items[k] == c.items[k - 1];
      }
    }
    CreatedIsUnreadIffUnlisted(first, again, now);
  }

  // ---------- what each update does, item by item ----------

  /** The same item, read since `now` unless it already had a stamp. */
  predicate ReadSince(before: Item, after: Item, now: string) {
    && after.id == before.id && after.content == before.content
    && after.readAt == if before.readAt == None then Some(now) else before.readAt
  }

  /** Suppressing and opening read the items with the id and lower the counter by one, not below zero, if there was an
      unread one. */
  lemma OpenMeans(c: Cache, id: string, now: string)
    requires DistinctIds(c.items)
    ensures SuppressUpdate(c, id, now) == OpenUpdate(c, id, now)
    ensures var after := OpenUpdate(c, id, now);
            && |after.items| == |c.items|
            && (forall k :: 0 <= k < |c.items| ==>
                  if c.items[k].id == id then ReadSince(c.items[k], after.items[k], now)
                  else after.items[k] == c.items[k])
            && ((exists k :: 0 <= k < |c.items| && c.items[k].id == id && c.items[k].readAt in {None, Some("")}) ==>
                  after.unreadCount == if c.unreadCount >= 1 then c.unreadCount - 1 else 0)
            && (!(exists k :: 0 <= k < |c.items| && c.items[k].id == id && c.items[k].readAt in {None, Some("")}) ==>
                  after.unreadCount == c.unreadCount)
  {
    hide MarkReadById, FirstIsUnread;
    FirstIsUnreadIffHas(c.items, id);
    assert HasUnreadId(c.items, id) <==>
           exists k :: 0 <= k < |c.items| && c.items[k].id == id && c.items[k].readAt in {None, Some("")};
  }

  /** Mark-all reads every item and sets the counter to zero. */
  lemma MarkAllMeans(c: Cache, now: string)
    ensures var after := MarkAllUpdate(c, now);
            && after.unreadCount == 0 && |after.items| == |c.items|
            && forall k :: 0 <= k < |c.items| ==> ReadSince(c.items[k], after.items[k], now)
  {
    hide MarkAllRead;
  }

  /** A read-all event reads every item, a read event the items with its id; the counter is the event's, if it has
      one. */
  lemma ReadEventsMean(c: Cache, e: StreamEvent, hide': bool, now: string)
    requires e.kind == ReadAll || (e.kind == Read && e.notificationId != "")
    ensures var after := StreamUpdate(c, e, hide', now);
            && after.unreadCount == (if e.unreadCount.Some? then e.unreadCount.value else c.unreadCount)
            && |after.items| == |c.items|
            && forall k :: 0 <= k < |c.items| ==>
                 if e.kind == ReadAll || c.items[k].id == e.notificationId
                 then ReadSince(c.items[k], after.items[k], now) else after.items[k] == c.items[k]
  {
    hide MarkAllRead, MarkReadById;
  }

  /** A created event shown to the user puts its notification first, unread, unless it is listed already, and keeps
      the first twelve; the counter is the event's, if it has one. */
  lemma CreatedMeans(c: Cache, e: StreamEvent, now: string)
    requires e.kind == Created && e.notificationId != "" && e.item.Some?
    ensures var after := StreamUpdate(c, e, false, now);
            && after.unreadCount == (if e.unreadCount.Some? then e.unreadCount.value else c.unreadCount)
            && (HasId(c.items, e.notificationId) ==> after.items == c.items)
            && (!HasId(c.items, e.notificationId) ==>
                  && |after.items| == (if |c.items| < 12 then |c.items| + 1 else 12)
                  && after.items[0].id == e.notificationId && after.items[0].content == e.item.value
                  && after.items[0].readAt == None
                  && forall k :: 1 <= k < |after.items| ==> after.items[k] == c.items[k - 1])
  {
  }

  /** A created event of the conversation being read adds nothing: it reads the items with its id and counts one
      less. */
  lemma HiddenMeans(c: Cache, e: StreamEvent, now: string)
    requires e.kind == Created && e.notificationId != "" && e.item.Some?
    ensures var after := StreamUpdate(c, e, true, now);
            var count := if e.unreadCount.Some? then e.unreadCount.value else c.unreadCount;
            && after.unreadCount == (if count >= 1 then count - 1 else 0)
            && |after.items| == |c.items|
            && forall k :: 0 <= k < |c.items| ==>
                 if c.items[k].id == e.notificationId then ReadSince(c.items[k], after.items[k], now)
                 else after.items[k] == c.items[k]
  {
    hide MarkReadById;
  }

  /** Any other event changes nothing. */
  lemma OtherEventsMeanNothing(c: Cache, e: StreamEvent, hide': bool, now: string)
    requires e.kind == OtherKind || (e.kind != ReadAll && e.notificationId == "") || (e.kind == Created && e.item.None?)
    ensures StreamUpdate(c, e, hide', now) == c
  {
  }
}
