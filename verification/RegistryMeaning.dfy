/** What each management request does to each instance, entry field by entry field, and which instances a run of
    requests leaves registered. */
module RegistryMeaning {
  import opened JsString
  import opened DesiredState
  import opened GatewayRegistry
  import opened GatewayTheorems

  // ---------- unregistering ----------

  lemma {:induction false} RemoveShape(slots: seq<Slot>, k: nat)
    requires Distinct(slots) && k < |slots|
    ensures Remove(slots, slots[k].key) == slots[..k] + slots[k + 1..]
  {
    if k > 0 {
      RemoveShape(slots[1..], k - 1);
      assert slots[..k] + slots[k + 1..] == [slots[0]] + (slots[1..][..k - 1] + slots[1..][k..]);
    }
  }

  /** A successful unregistration takes the instance out of the map and leaves all others as they were, in order; if
      the write succeeds, no entry of the document has its id. */
  lemma UnregisterRemoves(m: Manager, k: nat, write: Write)
    requires Distinct(m.slots) && k < |m.slots|
    ensures var after := Handle(m, Unregister(m.slots[k].key, true, write));
            && after.slots == m.slots[..k] + m.slots[k + 1..]
            && (forall s :: s in after.slots ==> s.key != m.slots[k].key)
            && (write.Written? && KeysMatch(m.slots) ==>
                  && after.file.Document? && |after.file.entries| == |m.slots| - 1
                  && forall e :: e in after.file.entries ==> e.instanceId != m.slots[k].key)
  {
    hide Find, Remove, Entries, Distinct, KeysMatch;
    var id := m.slots[k].key;
    FindHasKey(m.slots, id);
    assert HasKey(m.slots, id);
    RemoveShape(m.slots, k);
    CutOut(m.slots, k);
    if write.Written? && KeysMatch(m.slots) {
      EntriesOfRest(m.slots, k);
    }
  }

  lemma CutOut(slots: seq<Slot>, k: nat)
    requires Distinct(slots) && k < |slots|
    ensures forall s :: s in slots[..k] + slots[k + 1..] ==> s in slots && s.key != slots[k].key
  {
    var rest := slots[..k] + slots[k + 1..];
    forall s | s in rest ensures s in slots && s.key != slots[k].key {
      var j :| 0 <= j < |rest| && rest[j] == s;
      assert s == slots[if j < k then j else j + 1];
    }
  }

  lemma EntriesOfRest(slots: seq<Slot>, k: nat)
    requires Distinct(slots) && KeysMatch(slots) && k < |slots|
    ensures var es := Entries(slots[..k] + slots[k + 1..]);
            |es| == |slots| - 1 && forall e :: e in es ==> e.instanceId != slots[k].key
  {
    hide Entries, Distinct;
    var rest := slots[..k] + slots[k + 1..];
    CutOut(slots, k);
    forall e | e in Entries(rest) ensures e.instanceId != slots[k].key {
      var j :| 0 <= j < |rest| && Entries(rest)[j] == e;
      assert rest[j] in rest && rest[j].registry == e;
    }
  }

  lemma {:induction false} BootHasOnlyEntries(es: seq<Entry>, id: string)
    requires forall e :: e in es ==> e.instanceId != id
    ensures Find(BootFrom(es), id) == None
  {
    BootKeepsLast(es, id);
    NoLast(es, id);
  }

  lemma {:induction false} NoLast(es: seq<Entry>, id: string)
    requires forall e :: e in es ==> e.instanceId != id
    ensures LastWithId(es, id) == None
  {
    if es != [] {
      NoLast(es[..|es| - 1], id);
    }
  }

  lemma {:induction false} UsableOfEntries(es: seq<Entry>, e: Entry)
    ensures e in UsableEntries(es) <==> e in es && e.instanceId != "" && e.callbackUrl != ""
  {
    if es != [] {
      UsableOfEntries(es[1..], e);
      assert es == [es[0]] + es[1..];
    }
  }

  /** After a successful, saved unregistration a restart does not bring the instance back. */
  lemma UnregisteredStaysGone(m: Manager, k: nat)
    requires Valid(m) && k < |m.slots|
    ensures var after := Handle(m, Unregister(m.slots[k].key, true, Written));
            Find(BootFrom(LoadedFrom(after.file)), m.slots[k].key) == None
  {
    hide Handle, BootFrom, Find;
    UnregisterRemoves(m, k, Written);
    var after := Handle(m, Unregister(m.slots[k].key, true, Written));
    forall e | e in LoadedFrom(after.file) ensures e.instanceId != m.slots[k].key {
      UsableOfEntries(after.file.entries, e);
    }
    BootHasOnlyEntries(LoadedFrom(after.file), m.slots[k].key);
  }

  // ---------- starting and stopping ----------

  /** A request that starts: the session is meant to run; once started, its entry says auto-start and carries the new
      time, and everything else is as before. */
  lemma StartMeans(m: Manager, id: string, now: string, startOk: bool, write: Write, other: string)
    requires Find(m.slots, id).Some? && Find(m.slots, id).value.key == id
    ensures Handle(m, Start(id, now, startOk, write)) == Handle(m, Reconnect(id, now, startOk, write))
    ensures var before, after := Find(m.slots, id).value, Find(Handle(m, Start(id, now, startOk, write)).slots, id);
            && after.Some? && after.value.key == id && after.value.desired == Running
            && after.value.registry.autoStart == (startOk || before.registry.autoStart)
            && after.value.registry.updatedAt == (if startOk then now else before.registry.updatedAt)
            && after.value.registry.instanceId == before.registry.instanceId
            && after.value.registry.callbackUrl == before.registry.callbackUrl
            && after.value.registry.createdAt == before.registry.createdAt
            && after.value.registry.metadata == before.registry.metadata
    ensures other != id ==> Find(Handle(m, Start(id, now, startOk, write)).slots, other) == Find(m.slots, other)
  {
    hide Find, Put, Entries;
    var slot := Find(m.slots, id).value;
    FindPut(m.slots, slot.(desired := Running), id);
    FindPut(m.slots, slot.(desired := Running), other);
    FindPut(m.slots, WithEntry(slot, Running, true, now), id);
    FindPut(m.slots, WithEntry(slot, Running, true, now), other);
  }

  /** A disconnect or logout: the session is meant to be stopped; once stopped, its entry says no auto-start and
      carries the new time, and everything else is as before. */
  lemma StopMeans(m: Manager, id: string, now: string, stopOk: bool, write: Write, other: string)
    requires Find(m.slots, id).Some? && Find(m.slots, id).value.key == id
    ensures Handle(m, Disconnect(id, now, write)) == Handle(m, Logout(id, now, true, write))
    ensures var before, after := Find(m.slots, id).value, Find(Handle(m, Logout(id, now, stopOk, write)).slots, id);
            && after.Some? && after.value.key == id && after.value.desired == Stopped
            && after.value.registry.autoStart == (!stopOk && before.registry.autoStart)
            && after.value.registry.updatedAt == (if stopOk then now else before.registry.updatedAt)
            && after.value.registry.instanceId == before.registry.instanceId
            && after.value.registry.callbackUrl == before.registry.callbackUrl
            && after.value.registry.createdAt == before.registry.createdAt
            && after.value.registry.metadata == before.registry.metadata
    ensures other != id ==> Find(Handle(m, Logout(id, now, stopOk, write)).slots, other) == Find(m.slots, other)
  {
    hide Find, Put, Entries;
    var slot := Find(m.slots, id).value;
    FindPut(m.slots, slot.(desired := Stopped), id);
    FindPut(m.slots, slot.(desired := Stopped), other);
    FindPut(m.slots, WithEntry(slot, Stopped, false, now), id);
    FindPut(m.slots, WithEntry(slot, Stopped, false, now), other);
  }

  /** Refreshing the QR code of an unconnected session, or needing the client of one that has none, only makes it
      meant to run. */
  lemma NudgeMeans(m: Manager, id: string, idle: bool, startOk: bool, other: string)
    requires Find(m.slots, id).Some? && Find(m.slots, id).value.key == id
    ensures Handle(m, RefreshQr(id, !idle, startOk)) == Handle(m, UseClient(id, !idle))
    ensures var before, after := Find(m.slots, id).value, Find(Handle(m, UseClient(id, !idle)).slots, id);
            && after.Some? && after.value.key == id && after.value.registry == before.registry
            && after.value.desired == if idle then Running else before.desired
    ensures other != id ==> Find(Handle(m, UseClient(id, !idle)).slots, other) == Find(m.slots, other)
    ensures Handle(m, UseClient(id, !idle)).file == m.file
  {
    hide Find, Put;
    var slot := Find(m.slots, id).value;
    FindPut(m.slots, slot.(desired := Running), id);
    FindPut(m.slots, slot.(desired := Running), other);
  }

  /** A request for an instance that is not registered changes nothing. */
  lemma UnknownIdChangesNothing(m: Manager, r: Request, id: string)
    requires Find(m.slots, id).None?
    requires (r.Start? || r.Reconnect? || r.RefreshQr? || r.Disconnect? || r.Logout? || r.Unregister? || r.UseClient?)
             && r.id == id
    ensures Handle(m, r) == m
  {
    hide Find;
  }

  // ---------- registering ----------

  /** A registration with a non-blank id, trimmed: the entry's fields, and what the session is meant to do. */
  lemma RegisterMeans(m: Manager, r: Request, id: string, other: string)
    requires r.Register? && id == Trim(r.entry.instanceId) && id != ""
    requires Find(m.slots, id).Some? ==> Find(m.slots, id).value.key == id
    ensures var before, after := Find(m.slots, id), Find(Handle(m, r).slots, id);
            && after.Some? && after.value.key == id && after.value.registry.instanceId == id
            && after.value.registry.callbackUrl
               == (if r.entry.callbackUrl.Some? && !Blank(r.entry.callbackUrl.value)
                   then Trim(r.entry.callbackUrl.value) else r.defaultUrl)
            && after.value.registry.autoStart
               == (if r.entry.autoStart.Some? then r.entry.autoStart.value
                   else before.Some? && before.value.registry.autoStart)
            && after.value.registry.createdAt == (if before.Some? then before.value.registry.createdAt else r.now)
            && after.value.registry.updatedAt == r.now
            && after.value.registry.metadata == r.entry.metadata
    ensures var before, after := Find(m.slots, id), Find(Handle(m, r).slots, id).value;
            after.desired ==
            if r.write.Written? && after.registry.autoStart then Running
            else if r.write.Written? && before.Some? && !r.statusStopped then Stopped
            else if before.Some? then before.value.desired else Running
    ensures other != id ==> Find(Handle(m, r).slots, other) == Find(m.slots, other)
  {
    if r.entry.callbackUrl.Some? {
      TrimEmptyIffBlank(r.entry.callbackUrl.value);
    }
    hide Find, Put, Entries, Trim, Blank;
    var existing := Find(m.slots, id);
    var entry := RegistryEntry(r.entry.(instanceId := id), r.defaultUrl, r.now, existing);
    var slot := Slot(id, entry, if existing.Some? then existing.value.desired else Running);
    FindPut(m.slots, slot, id);
    FindPut(m.slots, slot, other);
    var saved := Put(m.slots, slot);
    FindPut(saved, slot.(desired := Running), id);
    FindPut(saved, slot.(desired := Running), other);
    FindPut(saved, slot.(desired := Stopped), id);
    FindPut(saved, slot.(desired := Stopped), other);
  }

  // ---------- which instances are registered ----------

  function Keys(slots: seq<Slot>): (ids: seq<string>)
    ensures |ids| == |slots| && forall k :: 0 <= k < |ids| ==> ids[k] == slots[k].key
  {
    if slots == [] then [] else [slots[0].key] + Keys(slots[1..])
  }

  function Without(ids: seq<string>, id: string): seq<string> {
    if ids == [] then [] else (if ids[0] == id then [] else [ids[0]]) + Without(ids[1..], id)
  }

  /** The registered ids after one request, from the request alone: a registration adds its trimmed id at the end if
      it is new, a successful unregistration takes its id out, nothing else matters. */
  function IdsAfter(ids: seq<string>, r: Request): seq<string> {
    match r
    case Register(e, _, _, _, _, _) =>
      if Trim(e.instanceId) == "" || Trim(e.instanceId) in ids then ids else ids + [Trim(e.instanceId)]
    case Unregister(id, stopOk, _) => if stopOk then Without(ids, id) else ids
    case _ => ids
  }

  function IdsAfterAll(ids: seq<string>, requests: seq<Request>): seq<string> {
    if requests == [] then ids
    else IdsAfter(IdsAfterAll(ids, requests[..|requests| - 1]), requests[|requests| - 1])
  }

  lemma {:induction false} KeysOfPut(slots: seq<Slot>, slot: Slot)
    ensures Keys(Put(slots, slot)) == if slot.key in Keys(slots) then Keys(slots) else Keys(slots) + [slot.key]
  {
    if slots != [] {
      assert Keys(slots) == [slots[0].key] + Keys(slots[1..]);
      if slots[0].key == slot.key {
        assert ([slot] + slots[1..])[1..] == slots[1..];
      } else {
        KeysOfPut(slots[1..], slot);
        assert ([slots[0]] + Put(slots[1..], slot))[1..] == Put(slots[1..], slot);
      }
    }
  }

  lemma {:induction false} WithoutAbsent(ids: seq<string>, id: string)
    requires id !in ids
    ensures Without(ids, id) == ids
  {
    if ids != [] {
      WithoutAbsent(ids[1..], id);
    }
  }

  lemma {:induction false} KeysOfRemove(slots: seq<Slot>, id: string)
    requires Distinct(slots)
    ensures Keys(Remove(slots, id)) == Without(Keys(slots), id)
  {
    if slots != [] {
      var ids := Keys(slots);
      assert ids[1..] == Keys(slots[1..]);
      if slots[0].key == id {
        assert id !in ids[1..] by {
          forall k | 0 <= k < |ids[1..]| ensures ids[1..][k] != id {
            assert ids[1..][k] == slots[k + 1].key;
          }
        }
        WithoutAbsent(ids[1..], id);
      } else {
        KeysOfRemove(slots[1..], id);
        var out := Remove(slots, id);
        assert out[1..] == Remove(slots[1..], id);
        assert Keys(out) == [slots[0].key] + Keys(out[1..]);
      }
    }
  }

  lemma FindInKeys(slots: seq<Slot>, id: string)
    ensures Find(slots, id).Some? <==> id in Keys(slots)
    ensures Find(slots, id).Some? ==> Find(slots, id).value.key == id
  {
    hide Find, Keys;
    FindHasKey(slots, id);
    if HasKey(slots, id) {
      var k :| 0 <= k < |slots| && slots[k].key == id;
      assert Keys(slots)[k] == id;
    }
    if id in Keys(slots) {
      var k :| 0 <= k < |slots| && Keys(slots)[k] == id;
      assert slots[k].key == id;
    }
  }

  lemma KnownKeepsIds(slots: seq<Slot>, slot: Slot)
    requires Find(slots, slot.key).Some?
    ensures Keys(Put(slots, slot)) == Keys(slots)
  {
    hide Find, Keys, Put;
    FindInKeys(slots, slot.key);
    KeysOfPut(slots, slot);
  }

  lemma RegisterIds(m: Manager, r: Request)
    requires r.Register?
    ensures Keys(Handle(m, r).slots) == IdsAfter(Keys(m.slots), r)
  {
    hide Find, Keys, Put, Entries, Trim, RegistryEntry;
    var id := Trim(r.entry.instanceId);
    if id != "" {
      var existing := Find(m.slots, id);
      var entry := RegistryEntry(r.entry.(instanceId := id), r.defaultUrl, r.now, existing);
      var slot := Slot(id, entry, if existing.Some? then existing.value.desired else Running);
      KeysOfPut(m.slots, slot);
      FindPut(m.slots, slot, id);
      KnownKeepsIds(Put(m.slots, slot), slot.(desired := Running));
      KnownKeepsIds(Put(m.slots, slot), slot.(desired := Stopped));
    }
  }

  lemma ChangeIds(m: Manager, id: string, now: string)
    ensures Find(m.slots, id).Some? ==>
              var slot := Find(m.slots, id).value;
              && Keys(Put(m.slots, slot.(desired := Running))) == Keys(m.slots)
              && Keys(Put(m.slots, slot.(desired := Stopped))) == Keys(m.slots)
              && Keys(Put(m.slots, WithEntry(slot, Running, true, now))) == Keys(m.slots)
              && Keys(Put(m.slots, WithEntry(slot, Stopped, false, now))) == Keys(m.slots)
  {
    hide Find, Keys, Put;
    FindInKeys(m.slots, id);
    if Find(m.slots, id).Some? {
      var slot := Find(m.slots, id).value;
      KnownKeepsIds(m.slots, slot.(desired := Running));
      KnownKeepsIds(m.slots, slot.(desired := Stopped));
      KnownKeepsIds(m.slots, WithEntry(slot, Running, true, now));
      KnownKeepsIds(m.slots, WithEntry(slot, Stopped, false, now));
    }
  }

  lemma HandleIds(m: Manager, r: Request)
    requires Distinct(m.slots)
    ensures Keys(Handle(m, r).slots) == IdsAfter(Keys(m.slots), r)
  {
    hide Find, Keys, Put, Remove, Entries, Without, Distinct;
    match r {
      case Register(_, _, _, _, _, _) => RegisterIds(m, r);
      case UseClient(id, _) => ChangeIds(m, id, "");
      case RefreshQr(id, _, _) => ChangeIds(m, id, "");
      case Start(id, now, _, _) => ChangeIds(m, id, now);
      case Reconnect(id, now, _, _) => ChangeIds(m, id, now);
      case Disconnect(id, now, _) => ChangeIds(m, id, now);
      case Logout(id, now, _, _) => ChangeIds(m, id, now);
      case Unregister(id, stopOk, _) =>
        ChangeIds(m, id, "");
        FindInKeys(m.slots, id);
        KeysOfRemove(m.slots, id);
        if id !in Keys(m.slots) {
          WithoutAbsent(Keys(m.slots), id);
        }
    }
  }

  /** Which instances are registered after a run, and in which order, depends on the requests alone: not on what
      starts, stops or writes succeed but for the logout of an unregistration. */
  lemma {:induction false} RegisteredExactly(m: Manager, requests: seq<Request>)
    requires Valid(m) && forall k :: 0 <= k < |requests| ==> HasDefaultUrl(requests[k])
    ensures Keys(HandleAll(m, requests).slots) == IdsAfterAll(Keys(m.slots), requests)
  {
    hide Handle, IdsAfter, Keys;
    if requests != [] {
      var n := |requests| - 1;
      RegisteredExactly(m, requests[..n]);
      RunKeepsValid(m, requests[..n]);
      HandleIds(HandleAll(m, requests[..n]), requests[n]);
    }
  }
}
