/** What every sequence of management requests keeps, and what a restart rebuilds. */
module GatewayTheorems {
  import opened JsString
  import opened DesiredState
  import opened GatewayRegistry

  ghost predicate Distinct(slots: seq<Slot>) {
    forall a, b :: 0 <= a < b < |slots| ==> slots[a].key != slots[b].key
  }

  /** Every key is its entry's own instance id, and the entry is one that loading keeps. */
  ghost predicate KeysMatch(slots: seq<Slot>) {
    forall k :: 0 <= k < |slots| ==> slots[k].key == slots[k].registry.instanceId && Usable(slots[k].registry)
  }

  ghost predicate Valid(m: Manager) {
    && Distinct(m.slots)
    && KeysMatch(m.slots)
    && (m.synced ==> m.file == Document(Entries(m.slots)))
  }

  /** Auto-start implies that the session is meant to run. */
  ghost predicate Coherent(m: Manager) {
    forall s :: s in m.slots ==> CoherentSlot(s)
  }

  predicate CoherentSlot(slot: Slot) {
    slot.registry.autoStart ==> slot.desired == Running
  }

  /** The default callback URL ends in a fixed path, so it is never empty. */
  predicate HasDefaultUrl(r: Request) {
    r.Register? ==> r.defaultUrl != ""
  }

  // ---------- the map ----------

  /** `Put` changes one slot in place, or appends. */
  lemma {:induction false} PutShape(slots: seq<Slot>, slot: Slot)
    ensures HasKey(slots, slot.key) ==>
              |Put(slots, slot)| == |slots|
              && exists k :: 0 <= k < |slots| && slots[k].key == slot.key && Put(slots, slot) == slots[k := slot]
    ensures !HasKey(slots, slot.key) ==> Put(slots, slot) == slots + [slot]
  {
    if slots != [] {
      if slots[0].key == slot.key {
        assert [slot] + slots[1..] == slots[0 := slot];
      } else {
        PutShape(slots[1..], slot);
        if HasKey(slots[1..], slot.key) {
          var k :| 0 <= k < |slots[1..]| && slots[1..][k].key == slot.key
                   && Put(slots[1..], slot) == slots[1..][k := slot];
          assert slots[k + 1].key == slot.key;
          assert [slots[0]] + slots[1..][k := slot] == slots[k + 1 := slot];
        } else {
          forall k | 0 <= k < |slots| ensures slots[k].key != slot.key {
            if k > 0 {
              assert slots[1..][k - 1] == slots[k];
            }
          }
        }
      }
    }
  }

  lemma PutKeeps(slots: seq<Slot>, slot: Slot)
    requires Distinct(slots) && KeysMatch(slots)
    requires slot.key == slot.registry.instanceId && Usable(slot.registry)
    ensures Distinct(Put(slots, slot)) && KeysMatch(Put(slots, slot))
  {
    hide Put;
    PutShape(slots, slot);
    if !HasKey(slots, slot.key) {
      forall k | 0 <= k < |slots| ensures slots[k].key != slot.key {
      }
    }
  }

  lemma {:induction false} RemoveIsSubset(slots: seq<Slot>, key: string)
    ensures forall s :: s in Remove(slots, key) ==> s in slots
  {
    if slots != [] {
      RemoveIsSubset(slots[1..], key);
    }
  }

  lemma {:induction false} RemoveKeeps(slots: seq<Slot>, key: string)
    requires Distinct(slots) && KeysMatch(slots)
    ensures Distinct(Remove(slots, key)) && KeysMatch(Remove(slots, key))
  {
    if slots != [] {
      var rest := Remove(slots[1..], key);
      RemoveKeeps(slots[1..], key);
      RemoveIsSubset(slots[1..], key);
      forall k | 0 <= k < |rest| ensures rest[k].key != slots[0].key {
        assert rest[k] in slots[1..];
      }
    }
  }

  lemma FindKeeps(slots: seq<Slot>, key: string)
    requires KeysMatch(slots) && Find(slots, key).Some?
    ensures HasKey(slots, key)
    ensures var slot := Find(slots, key).value;
            slot.key == key == slot.registry.instanceId && Usable(slot.registry)
  {
    hide Find;
    FindHasKey(slots, key);
  }

  // ---------- requests ----------

  lemma {:induction false} SameEntries(slots: seq<Slot>, slot: Slot)
    requires Find(slots, slot.key).Some? && Find(slots, slot.key).value.registry == slot.registry
    ensures Entries(Put(slots, slot)) == Entries(slots)
  {
    if slots[0].key != slot.key {
      SameEntries(slots[1..], slot);
      assert Put(slots, slot)[1..] == Put(slots[1..], slot);
    } else {
      assert Put(slots, slot)[1..] == slots[1..];
    }
  }

  lemma {:induction false} FindPut(slots: seq<Slot>, slot: Slot, key: string)
    ensures Find(Put(slots, slot), key) == if key == slot.key then Some(slot) else Find(slots, key)
  {
    if slots != [] && slots[0].key != slot.key {
      FindPut(slots[1..], slot, key);
    }
  }

  /** Changing only the desired state leaves the registry, hence the saved document, as it was. */
  lemma DesireKeepsValid(m: Manager, id: string, desired: Desired)
    requires Valid(m) && Find(m.slots, id).Some?
    ensures Valid(Update(m, Find(m.slots, id).value.(desired := desired)))
  {
    hide Find, Put, Entries;
    var slot := Find(m.slots, id).value;
    FindKeeps(m.slots, id);
    PutKeeps(m.slots, slot.(desired := desired));
    SameEntries(m.slots, slot.(desired := desired));
  }

  lemma SaveKeepsValid(slots: seq<Slot>, m: Manager, write: Write)
    requires Distinct(m.slots) && KeysMatch(m.slots)
    ensures Valid(Persist(m, write))
  {
  }

  lemma RegisterKeepsValid(m: Manager, r: Request)
    requires Valid(m) && r.Register? && HasDefaultUrl(r)
    ensures Valid(HandleRegister(m, r))
  {
    hide Find, Put, Entries, Trim;
    var id := Trim(r.entry.instanceId);
    if id != "" {
      var existing := Find(m.slots, id);
      var entry := RegistryEntry(r.entry.(instanceId := id), r.defaultUrl, r.now, existing);
      var slot := Slot(id, entry, if existing.Some? then existing.value.desired else Running);
      PutKeeps(m.slots, slot);
      var saved := Persist(Update(m, slot), r.write);
      SaveKeepsValid(m.slots, Update(m, slot), r.write);
      FindPut(m.slots, slot, id);
      DesireKeepsValid(saved, id, Running);
      DesireKeepsValid(saved, id, Stopped);
    }
  }

  lemma HandleKeepsValid(m: Manager, r: Request)
    requires Valid(m) && HasDefaultUrl(r)
    ensures Valid(Handle(m, r))
  {
    hide Find, Put, Remove, Entries;
    match r {
      case Register(_, _, _, _, _, _) => RegisterKeepsValid(m, r);
      case UseClient(id, _) => KnownIdKeepsValid(m, id);
      case RefreshQr(id, _, _) => KnownIdKeepsValid(m, id);
      case Start(id, now, _, write) => KnownIdKeepsValid(m, id);
      case Reconnect(id, now, _, write) => KnownIdKeepsValid(m, id);
      case Disconnect(id, now, write) => KnownIdKeepsValid(m, id);
      case Logout(id, now, _, write) => KnownIdKeepsValid(m, id);
      case Unregister(id, stopOk, write) =>
        KnownIdKeepsValid(m, id);
        if Find(m.slots, id).Some? && stopOk {
          RemoveKeeps(m.slots, id);
          SaveKeepsValid(m.slots, m.(slots := Remove(m.slots, id)), write);
        }
    }
  }

  lemma KnownIdKeepsValid(m: Manager, id: string)
    requires Valid(m)
    ensures Find(m.slots, id).Some? ==>
              && HasKey(m.slots, id)
              && (forall d: Desired :: Valid(Update(m, Find(m.slots, id).value.(desired := d))))
              && (forall d: Desired, auto: bool, now: string, write: Write ::
                    Valid(Persist(Update(m, WithEntry(Find(m.slots, id).value, d, auto, now)), write)))
  {
    hide Find, Put, Entries;
    if Find(m.slots, id).Some? {
      var slot := Find(m.slots, id).value;
      FindKeeps(m.slots, id);
      forall d: Desired ensures Valid(Update(m, slot.(desired := d))) {
        DesireKeepsValid(m, id, d);
      }
      forall d: Desired, auto: bool, now: string, write: Write
        ensures Valid(Persist(Update(m, WithEntry(slot, d, auto, now)), write))
      {
        PutKeeps(m.slots, WithEntry(slot, d, auto, now));
        SaveKeepsValid(m.slots, Update(m, WithEntry(slot, d, auto, now)), write);
      }
    }
  }

  // ---------- runs ----------

  /** Over any run of requests the keys stay distinct and match their entries, and whenever the last write
      succeeded the saved document is the registry in memory, in insertion order. */
  lemma {:induction false} RunKeepsValid(m: Manager, requests: seq<Request>)
    requires Valid(m) && forall k :: 0 <= k < |requests| ==> HasDefaultUrl(requests[k])
    ensures Valid(HandleAll(m, requests))
  {
    if requests != [] {
      var n := |requests| - 1;
      RunKeepsValid(m, requests[..n]);
      HandleKeepsValid(HandleAll(m, requests[..n]), requests[n]);
    }
  }

  predicate WriteSucceeds(r: Request) {
    match r
    case Register(_, _, _, _, _, write) => write.Written?
    case Start(_, _, _, write) => write.Written?
    case Reconnect(_, _, _, write) => write.Written?
    case Disconnect(_, _, write) => write.Written?
    case Logout(_, _, _, write) => write.Written?
    case Unregister(_, _, write) => write.Written?
    case _ => true
  }

  /** As long as no write fails, memory and file never part, even when starts and stops fail. */
  lemma {:induction false} RunStaysSynced(m: Manager, requests: seq<Request>)
    requires Valid(m) && m.synced
    requires forall k :: 0 <= k < |requests| ==> HasDefaultUrl(requests[k]) && WriteSucceeds(requests[k])
    ensures HandleAll(m, requests).file == Document(Entries(HandleAll(m, requests).slots))
    ensures HandleAll(m, requests).synced
  {
    hide Find, Put, Remove, Entries;
    RunKeepsValid(m, requests);
    if requests != [] {
      var n := |requests| - 1;
      RunStaysSynced(m, requests[..n]);
      var before, r := HandleAll(m, requests[..n]), requests[n];
      assert WriteSucceeds(r);
      match r {
        case Register(_, _, _, _, _, _) =>
        case _ =>
      }
    }
  }

  // ---------- auto-start and the desired state ----------

  /** The requests that leave an auto-starting session stopped: a registration that asks for auto-start on a stopped
      session but cannot be saved, and a logout or unregistration that fails half-way. */
  predicate LeavesAutoStartStopped(m: Manager, r: Request) {
    match r
    case Register(e, _, _, _, _, write) =>
      var existing := Find(m.slots, Trim(e.instanceId));
      Trim(e.instanceId) != "" && write.WriteFails? && e.autoStart == Some(true)
      && existing.Some? && existing.value.desired == Stopped
    case Logout(id, _, stopOk, _) =>
      !stopOk && Find(m.slots, id).Some? && Find(m.slots, id).value.registry.autoStart
    case Unregister(id, stopOk, _) =>
      !stopOk && Find(m.slots, id).Some? && Find(m.slots, id).value.registry.autoStart
    case _ => false
  }

  lemma CoherentPut(m: Manager, slot: Slot)
    requires Coherent(m)
    ensures Coherent(Update(m, slot)) <==> CoherentSlot(slot)
  {
    hide Put;
    PutShape(m.slots, slot);
    var out := Put(m.slots, slot);
    if HasKey(m.slots, slot.key) {
      var k :| 0 <= k < |m.slots| && m.slots[k].key == slot.key && out == m.slots[k := slot];
      assert out[k] == slot;
    } else {
      assert out[|m.slots|] == slot;
      forall k | 0 <= k < |m.slots| ensures out[k] == m.slots[k] {
      }
    }
  }

  lemma CoherentFind(m: Manager, key: string)
    requires Coherent(m)
    ensures Find(m.slots, key).Some? ==> CoherentSlot(Find(m.slots, key).value)
                                         && Find(m.slots, key).value.key == key
  {
    hide Find;
    FindHasKey(m.slots, key);
  }

  lemma CoherentRegister(m: Manager, r: Request)
    requires Coherent(m) && r.Register?
    ensures Coherent(HandleRegister(m, r)) <==> !LeavesAutoStartStopped(m, r)
  {
    hide Find, Put, Entries, Trim;
    var id := Trim(r.entry.instanceId);
    if id != "" {
      CoherentFind(m, id);
      var existing := Find(m.slots, id);
      var entry := RegistryEntry(r.entry.(instanceId := id), r.defaultUrl, r.now, existing);
      var slot := Slot(id, entry, if existing.Some? then existing.value.desired else Running);
      CoherentPut(m, slot);
      PutTwice(m.slots, slot, slot.(desired := Running));
      PutTwice(m.slots, slot, slot.(desired := Stopped));
      CoherentPut(m, slot.(desired := Running));
      CoherentPut(m, slot.(desired := Stopped));
    }
  }

  /** Auto-start keeps implying that the session is meant to run, unless and only unless the request is one of
      those that leave an auto-starting session stopped. */
  lemma CoherentIff(m: Manager, r: Request)
    requires Coherent(m)
    ensures Coherent(Handle(m, r)) <==> !LeavesAutoStartStopped(m, r)
  {
    hide Find, Put, Remove, Entries, Trim;
    match r {
      case Register(_, _, _, _, _, _) => CoherentRegister(m, r);
      case UseClient(id, _) => CoherentChanges(m, id, "");
      case RefreshQr(id, _, _) => CoherentChanges(m, id, "");
      case Start(id, now, _, _) => CoherentChanges(m, id, now);
      case Reconnect(id, now, _, _) => CoherentChanges(m, id, now);
      case Disconnect(id, now, _) => CoherentChanges(m, id, now);
      case Logout(id, now, _, _) => CoherentChanges(m, id, now);
      case Unregister(id, stopOk, _) =>
        CoherentChanges(m, id, "");
        RemoveIsSubset(m.slots, id);
    }
  }

  /** Over any run, auto-start implies "meant to run" at every step exactly if no request is one that leaves an
      auto-starting session stopped at its own step. */
  lemma {:induction false} RunCoherentIff(m: Manager, requests: seq<Request>)
    requires Coherent(m)
    ensures (forall n :: 0 <= n <= |requests| ==> Coherent(HandleAll(m, requests[..n])))
            <==> forall k :: 0 <= k < |requests| ==>
                   !LeavesAutoStartStopped(HandleAll(m, requests[..k]), requests[k])
  {
    hide Handle, HandleAll, LeavesAutoStartStopped, Coherent;
    forall k | 0 <= k < |requests|
      ensures Coherent(HandleAll(m, requests[..k])) ==>
                (Coherent(HandleAll(m, requests[..k + 1]))
                 <==> !LeavesAutoStartStopped(HandleAll(m, requests[..k]), requests[k]))
    {
      HandleNext(m, requests, k);
      if Coherent(HandleAll(m, requests[..k])) {
        CoherentIff(HandleAll(m, requests[..k]), requests[k]);
      }
    }
    HandleNone(m, requests);
    if forall k :: 0 <= k < |requests| ==> !LeavesAutoStartStopped(HandleAll(m, requests[..k]), requests[k]) {
      var n := 0;
      while n < |requests|
        invariant 0 <= n <= |requests|
        invariant forall j :: 0 <= j <= n ==> Coherent(HandleAll(m, requests[..j]))
      {
        assert !LeavesAutoStartStopped(HandleAll(m, requests[..n]), requests[n]);
        n := n + 1;
      }
    } else {
      var k :| 0 <= k < |requests| && LeavesAutoStartStopped(HandleAll(m, requests[..k]), requests[k]);
      assert !Coherent(HandleAll(m, requests[..k])) || !Coherent(HandleAll(m, requests[..k + 1]));
    }
  }

  lemma HandleNext(m: Manager, requests: seq<Request>, k: nat)
    requires k < |requests|
    ensures HandleAll(m, requests[..k + 1]) == Handle(HandleAll(m, requests[..k]), requests[k])
  {
    assert requests[..k + 1][..k] == requests[..k];
  }

  lemma HandleNone(m: Manager, requests: seq<Request>)
    ensures HandleAll(m, requests[..0]) == m
  {
  }

  /** A logout or unregistration that fails half-way leaves an auto-starting session stopped. */
  lemma FailingLogoutBreaksCoherence(now: string)
    ensures var entry := Entry("a", "https://callback", true, "then", "then", None);
            var m := Manager([Slot("a", entry, Running)], Document([entry]), true);
            && Valid(m) && Coherent(m)
            && !Coherent(Handle(m, Logout("a", now, false, Written)))
            && !Coherent(Handle(m, Unregister("a", false, Written)))
  {
    var entry := Entry("a", "https://callback", true, "then", "then", None);
    var slot := Slot("a", entry, Running);
    var m := Manager([slot], Document([entry]), true);
    assert Entries(m.slots[1..]) == [];
    assert slot.(desired := Stopped) in Handle(m, Logout("a", now, false, Written)).slots;
    assert slot.(desired := Stopped) in Handle(m, Unregister("a", false, Written)).slots;
  }

  /** So does a registration that asks for auto-start on a stopped session and cannot be saved. */
  lemma UnsavedRegistrationBreaksCoherence(now: string, url: string, left: File)
    ensures var entry := Entry("a", "https://callback", false, "then", "then", None);
            var m := Manager([Slot("a", entry, Stopped)], Document([entry]), true);
            var r := Register(Registration("a", None, Some(true), None), url, now, true, true, WriteFails(left));
            Valid(m) && Coherent(m) && !Coherent(Handle(m, r))
  {
    var entry := Entry("a", "https://callback", false, "then", "then", None);
    var slot := Slot("a", entry, Stopped);
    var m := Manager([slot], Document([entry]), true);
    var r := Register(Registration("a", None, Some(true), None), url, now, true, true, WriteFails(left));
    assert Entries(m.slots[1..]) == [];
    assert Trim("a") == "a";
    CoherentIff(m, r);
  }

  lemma CoherentChanges(m: Manager, id: string, now: string)
    requires Coherent(m)
    ensures Find(m.slots, id).Some? ==>
              var slot := Find(m.slots, id).value;
              && Coherent(Update(m, slot.(desired := Running)))
              && (Coherent(Update(m, slot.(desired := Stopped))) <==> !slot.registry.autoStart)
              && Coherent(Update(m, WithEntry(slot, Running, true, now)))
              && Coherent(Update(m, WithEntry(slot, Stopped, false, now)))
  {
    hide Find, Put;
    if Find(m.slots, id).Some? {
      var slot := Find(m.slots, id).value;
      CoherentPut(m, slot.(desired := Running));
      CoherentPut(m, slot.(desired := Stopped));
      CoherentPut(m, WithEntry(slot, Running, true, now));
      CoherentPut(m, WithEntry(slot, Stopped, false, now));
    }
  }

  // ---------- restart ----------

  lemma {:induction false} AllUsable(es: seq<Entry>)
    requires forall k :: 0 <= k < |es| ==> Usable(es[k])
    ensures UsableEntries(es) == es
  {
    if es != [] {
      AllUsable(es[1..]);
    }
  }

  ghost predicate DistinctIds(es: seq<Entry>) {
    forall a, b :: 0 <= a < b < |es| ==> es[a].instanceId != es[b].instanceId
  }

  /** Booting from entries with distinct ids gives one session per entry, in order, meant to run. */
  lemma {:induction false} BootRebuilds(es: seq<Entry>)
    requires DistinctIds(es)
    ensures var slots := BootFrom(es);
            |slots| == |es| && forall k :: 0 <= k < |es| ==> slots[k] == Slot(es[k].instanceId, es[k], Running)
  {
    if es != [] {
      var n := |es| - 1;
      var before := BootFrom(es[..n]);
      BootRebuilds(es[..n]);
      PutShape(before, Slot(es[n].instanceId, es[n], Running));
      forall k | 0 <= k < |before| ensures before[k].key != es[n].instanceId {
        assert before[k] == Slot(es[..n][k].instanceId, es[..n][k], Running);
      }
    }
  }

  /** A restart after a successful write rebuilds the same instances: the same entries (so the same auto-start
      flags and creation times) in the same order. */
  lemma RestartRebuilds(m: Manager)
    requires Valid(m) && m.synced
    ensures Entries(BootFrom(LoadedFrom(m.file))) == Entries(m.slots)
    ensures Distinct(BootFrom(LoadedFrom(m.file))) && KeysMatch(BootFrom(LoadedFrom(m.file)))
    ensures forall k :: 0 <= k < |m.slots| ==> BootFrom(LoadedFrom(m.file))[k].desired == Running
  {
    hide BootFrom, UsableEntries;
    var es := Entries(m.slots);
    AllUsable(es);
    BootRebuilds(es);
    assert Entries(BootFrom(es)) == es;
  }

  function LastWithId(es: seq<Entry>, id: string): Option<Entry> {
    if es == [] then None
    else if es[|es| - 1].instanceId == id then Some(es[|es| - 1])
    else LastWithId(es[..|es| - 1], id)
  }

  /** Booting from any document, even one with repeated ids: the last entry of an id wins. */
  lemma {:induction false} BootKeepsLast(es: seq<Entry>, id: string)
    ensures Find(BootFrom(es), id) ==
            match LastWithId(es, id) case None => None case Some(e) => Some(Slot(id, e, Running))
  {
    if es != [] {
      var n := |es| - 1;
      BootKeepsLast(es[..n], id);
      FindPut(BootFrom(es[..n]), Slot(es[n].instanceId, es[n], Running), id);
    }
  }

  lemma {:induction false} UsableOnly(es: seq<Entry>)
    ensures forall k :: 0 <= k < |UsableEntries(es)| ==> Usable(UsableEntries(es)[k])
  {
    if es != [] {
      UsableOnly(es[1..]);
    }
  }

  lemma {:induction false} BootKeepsKeys(es: seq<Entry>)
    requires forall k :: 0 <= k < |es| ==> Usable(es[k])
    ensures Distinct(BootFrom(es)) && KeysMatch(BootFrom(es))
    ensures forall k :: 0 <= k < |BootFrom(es)| ==> BootFrom(es)[k].desired == Running
  {
    hide Put;
    if es != [] {
      var n := |es| - 1;
      BootKeepsKeys(es[..n]);
      PutKeeps(BootFrom(es[..n]), Slot(es[n].instanceId, es[n], Running));
      PutShape(BootFrom(es[..n]), Slot(es[n].instanceId, es[n], Running));
    }
  }

  /** Booting from any file at all, even with unusable entries or repeated ids, gives distinct keys that match their
      entries, and every session is meant to run. */
  lemma BootIsValid(file: File)
    ensures var m := Manager(BootFrom(LoadedFrom(file)), file, false);
            Valid(m) && Coherent(m)
  {
    hide BootFrom;
    if file.Document? {
      UsableOnly(file.entries);
    }
    BootKeepsKeys(LoadedFrom(file));
  }

  /** From boot on any file through any run of requests: the registry stays valid, and auto-start implies "meant to
      run" all along exactly if no request leaves an auto-starting session stopped at its own step. */
  lemma EveryRunFromBoot(file: File, requests: seq<Request>)
    requires forall k :: 0 <= k < |requests| ==> HasDefaultUrl(requests[k])
    ensures var m := Manager(BootFrom(LoadedFrom(file)), file, false);
            && Valid(HandleAll(m, requests))
            && ((forall n :: 0 <= n <= |requests| ==> Coherent(HandleAll(m, requests[..n])))
                <==> forall k :: 0 <= k < |requests| ==>
                       !LeavesAutoStartStopped(HandleAll(m, requests[..k]), requests[k]))
  {
    hide Valid, Coherent, HandleAll, LeavesAutoStartStopped, BootFrom, LoadedFrom, HasDefaultUrl;
    var m := Manager(BootFrom(LoadedFrom(file)), file, false);
    BootIsValid(file);
    RunKeepsValid(m, requests);
    RunCoherentIff(m, requests);
  }

  // ---------- creation times ----------

  predicate SameCreatedAt(before: seq<Slot>, after: seq<Slot>, id: string)
    requires Find(before, id).Some?
  {
    Find(after, id).Some? && Find(after, id).value.registry.createdAt == Find(before, id).value.registry.createdAt
  }

  lemma PutKeepsCreatedAt(slots: seq<Slot>, slot: Slot, id: string)
    requires Find(slots, id).Some?
    requires Find(slots, slot.key).Some? ==>
               slot.registry.createdAt == Find(slots, slot.key).value.registry.createdAt
    ensures SameCreatedAt(slots, Put(slots, slot), id)
  {
    hide Find, Put;
    FindPut(slots, slot, id);
  }

  /** The three ways a request may change a known slot. */
  lemma ChangesKeepCreatedAt(m: Manager, rid: string, now: string, id: string)
    requires Find(m.slots, id).Some?
    ensures Find(m.slots, rid).Some? ==>
              var slot := Find(m.slots, rid).value;
              && SameCreatedAt(m.slots, Put(m.slots, slot.(desired := Running)), id)
              && SameCreatedAt(m.slots, Put(m.slots, slot.(desired := Stopped)), id)
              && SameCreatedAt(m.slots, Put(m.slots, WithEntry(slot, Running, true, now)), id)
              && SameCreatedAt(m.slots, Put(m.slots, WithEntry(slot, Stopped, false, now)), id)
  {
    hide Find, Put, SameCreatedAt;
    FindHasKey(m.slots, rid);
    if Find(m.slots, rid).Some? {
      var slot := Find(m.slots, rid).value;
      PutKeepsCreatedAt(m.slots, slot.(desired := Running), id);
      PutKeepsCreatedAt(m.slots, slot.(desired := Stopped), id);
      PutKeepsCreatedAt(m.slots, WithEntry(slot, Running, true, now), id);
      PutKeepsCreatedAt(m.slots, WithEntry(slot, Stopped, false, now), id);
    }
  }

  lemma RegisterKeepsCreatedAt(m: Manager, r: Request, id: string)
    requires r.Register? && Find(m.slots, id).Some?
    ensures SameCreatedAt(m.slots, HandleRegister(m, r).slots, id)
  {
    hide Find, Put, Entries, Trim;
    var rid := Trim(r.entry.instanceId);
    if rid != "" {
      var existing := Find(m.slots, rid);
      var entry := RegistryEntry(r.entry.(instanceId := rid), r.defaultUrl, r.now, existing);
      var slot := Slot(rid, entry, if existing.Some? then existing.value.desired else Running);
      PutKeepsCreatedAt(m.slots, slot, id);
      PutTwice(m.slots, slot, slot.(desired := Running));
      PutTwice(m.slots, slot, slot.(desired := Stopped));
      PutKeepsCreatedAt(m.slots, slot.(desired := Running), id);
      PutKeepsCreatedAt(m.slots, slot.(desired := Stopped), id);
    }
  }

  /** Whatever is requested, an instance that is still registered keeps its creation time. */
  lemma CreatedAtKept(m: Manager, r: Request, id: string)
    requires Distinct(m.slots) && Find(m.slots, id).Some?
    ensures SameCreatedAt(m.slots, Handle(m, r).slots, id) || (r.Unregister? && r.id == id)
  {
    hide Find, Put, Remove, Entries, HandleRegister;
    match r {
      case Register(_, _, _, _, _, _) => RegisterKeepsCreatedAt(m, r, id);
      case UseClient(rid, _) => ChangesKeepCreatedAt(m, rid, "", id);
      case RefreshQr(rid, _, _) => ChangesKeepCreatedAt(m, rid, "", id);
      case Start(rid, now, _, _) => ChangesKeepCreatedAt(m, rid, now, id);
      case Reconnect(rid, now, _, _) => ChangesKeepCreatedAt(m, rid, now, id);
      case Disconnect(rid, now, _) => ChangesKeepCreatedAt(m, rid, now, id);
      case Logout(rid, now, _, _) => ChangesKeepCreatedAt(m, rid, now, id);
      case Unregister(rid, _, _) =>
        ChangesKeepCreatedAt(m, rid, "", id);
        FindRemove(m.slots, rid, id);
    }
  }

  lemma {:induction false} FindRemove(slots: seq<Slot>, key: string, id: string)
    requires Distinct(slots)
    ensures Find(Remove(slots, key), id) == if id == key then None else Find(slots, id)
  {
    if slots != [] {
      if slots[0].key == key {
        FindHasKey(slots[1..], id);
      } else {
        FindRemove(slots[1..], key, id);
      }
    }
  }
}
