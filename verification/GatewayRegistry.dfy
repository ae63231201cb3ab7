/** The gateway's session map and its registry file: what management requests do to both, and what a restart
    rebuilds. */
module GatewayRegistry {
  import opened JsString
  import opened DesiredState

  datatype Entry = Entry(instanceId: string, callbackUrl: string, autoStart: bool,
                         createdAt: string, updatedAt: string, metadata: Option<string>)

  /** One slot of the insertion-ordered map: its key, the registry entry, and the session's desired state. */
  datatype Slot = Slot(key: string, registry: Entry, desired: Desired)

  /** The registry file. */
  datatype File = Missing | Corrupt | Document(entries: seq<Entry>)

  /** Whether writing the file succeeds; a failed write may leave anything behind. */
  datatype Write = Written | WriteFails(left: File)

  // ---------- the map ----------

  predicate HasKey(slots: seq<Slot>, key: string) {
    exists k :: 0 <= k < |slots| && slots[k].key == key
  }

  function Find(slots: seq<Slot>, key: string): Option<Slot> {
    if slots == [] then None else if slots[0].key == key then Some(slots[0]) else Find(slots[1..], key)
  }

  /** `sessions.set(slot.key, ...)`: in place when the key is there, at the end otherwise. */
  function Put(slots: seq<Slot>, slot: Slot): seq<Slot> {
    if slots == [] then [slot]
    else if slots[0].key == slot.key then [slot] + slots[1..]
    else [slots[0]] + Put(slots[1..], slot)
  }

  function Remove(slots: seq<Slot>, key: string): seq<Slot> {
    if slots == [] then []
    else if slots[0].key == key then slots[1..]
    else [slots[0]] + Remove(slots[1..], key)
  }

  function Entries(slots: seq<Slot>): (es: seq<Entry>)
    ensures |es| == |slots| && forall k :: 0 <= k < |es| ==> es[k] == slots[k].registry
  {
    if slots == [] then [] else [slots[0].registry] + Entries(slots[1..])
  }

  // ---------- the file ----------

  predicate Usable(e: Entry) {
    e.instanceId != "" && e.callbackUrl != ""
  }

  function UsableEntries(es: seq<Entry>): seq<Entry> {
    if es == [] then []
    else (if Usable(es[0]) then [es[0]] else []) + UsableEntries(es[1..])
  }

  class RegistryStore {
    var file: File

    method Load() returns (entries: seq<Entry>)
      ensures entries == LoadedFrom(file)
    {
      match file {
        case Missing => return [];
        case Corrupt => return [];
        case Document(es) => return UsableEntries(es);
      }
    }

    method Save(entries: seq<Entry>, write: Write) returns (ok: bool)
      modifies this
      ensures ok == write.Written?
      ensures file == match write case Written => Document(entries) case WriteFails(left) => left
    {
      match write {
        case Written =>
          file := Document(entries);
          return true;
        case WriteFails(left) =>
          file := left;
          return false;
      }
    }
  }

  function LoadedFrom(file: File): seq<Entry> {
    if file.Document? then UsableEntries(file.entries) else []
  }

  // ---------- requests ----------

  datatype Registration = Registration(instanceId: string, callbackUrl: Option<string>, autoStart: Option<bool>,
                                       metadata: Option<string>)

  /** A management request with the answers its environment will give. */
  datatype Request =
    | Register(entry: Registration, defaultUrl: string, now: string, statusStopped: bool, startOk: bool, write: Write)
    | Start(id: string, now: string, startOk: bool, write: Write)
    | Reconnect(id: string, now: string, startOk: bool, write: Write)
    | RefreshQr(id: string, connected: bool, startOk: bool)
    | Disconnect(id: string, now: string, write: Write)
    | Logout(id: string, now: string, stopOk: bool, write: Write)
    | Unregister(id: string, stopOk: bool, write: Write)
    | UseClient(id: string, hasClient: bool)

  /** `synced`: the last write attempted succeeded. */
  datatype Manager = Manager(slots: seq<Slot>, file: File, synced: bool)

  function Persist(m: Manager, write: Write): Manager {
    match write
    case Written => m.(file := Document(Entries(m.slots)), synced := true)
    case WriteFails(left) => m.(file := left, synced := false)
  }

  function Update(m: Manager, slot: Slot): Manager {
    m.(slots := Put(m.slots, slot))
  }

  function RegistryEntry(e: Registration, defaultUrl: string, now: string, existing: Option<Slot>): Entry {
    Entry(e.instanceId,
          if e.callbackUrl.Some? && Trim(e.callbackUrl.value) != "" then Trim(e.callbackUrl.value) else defaultUrl,
          if e.autoStart.Some? then e.autoStart.value
          else if existing.Some? then existing.value.registry.autoStart else false,
          if existing.Some? then existing.value.registry.createdAt else now,
          now,
          e.metadata)
  }

  function HandleRegister(m: Manager, r: Request): Manager
    requires r.Register?
  {
    var id := Trim(r.entry.instanceId);
    if id == "" then m
    else
      var existing := Find(m.slots, id);
      var entry := RegistryEntry(r.entry.(instanceId := id), r.defaultUrl, r.now, existing);
      var slot := Slot(id, entry, if existing.Some? then existing.value.desired else Running);
      var saved := Persist(Update(m, slot), r.write);
      if r.write.WriteFails? then saved
      else if entry.autoStart then Update(saved, slot.(desired := Running))
      else if existing.Some? && !r.statusStopped then Update(saved, slot.(desired := Stopped))
      else saved
  }

  function Handle(m: Manager, r: Request): Manager {
    match r
    case Register(_, _, _, _, _, _) => HandleRegister(m, r)
    case UseClient(id, hasClient) =>
      (match Find(m.slots, id)
       case None => m
       case Some(slot) => if hasClient then m else Update(m, slot.(desired := Running)))
    case RefreshQr(id, connected, _) =>
      (match Find(m.slots, id)
       case None => m
       case Some(slot) => if connected then m else Update(m, slot.(desired := Running)))
    case Start(id, now, startOk, write) => HandleStart(m, id, now, startOk, write)
    case Reconnect(id, now, startOk, write) => HandleStart(m, id, now, startOk, write)
    case Disconnect(id, now, write) => HandleStop(m, id, now, true, write)
    case Logout(id, now, stopOk, write) => HandleStop(m, id, now, stopOk, write)
    case Unregister(id, stopOk, write) =>
      (match Find(m.slots, id)
       case None => m
       case Some(slot) =>
         if !stopOk then Update(m, slot.(desired := Stopped))
         else Persist(m.(slots := Remove(m.slots, id)), write))
  }

  function WithEntry(slot: Slot, d: Desired, auto: bool, now: string): Slot {
    slot.(desired := d, registry := slot.registry.(autoStart := auto, updatedAt := now))
  }

  /** Start, connect and reconnect: the desired state is set first; the entry follows only once the start succeeded. */
  function HandleStart(m: Manager, id: string, now: string, startOk: bool, write: Write): Manager {
    match Find(m.slots, id)
    case None => m
    case Some(slot) =>
      if !startOk then Update(m, slot.(desired := Running))
      else Persist(Update(m, WithEntry(slot, Running, true, now)), write)
  }

  function HandleStop(m: Manager, id: string, now: string, stopOk: bool, write: Write): Manager {
    match Find(m.slots, id)
    case None => m
    case Some(slot) =>
      if !stopOk then Update(m, slot.(desired := Stopped))
      else Persist(Update(m, WithEntry(slot, Stopped, false, now)), write)
  }

  function HandleAll(m: Manager, requests: seq<Request>): Manager {
    if requests == [] then m
    else Handle(HandleAll(m, requests[..|requests| - 1]), requests[|requests| - 1])
  }

  // ---------- boot ----------

  function BootFrom(entries: seq<Entry>): seq<Slot> {
    if entries == [] then []
    else
      var e := entries[|entries| - 1];
      Put(BootFrom(entries[..|entries| - 1]), Slot(e.instanceId, e, Running))
  }

  /** The gateway process: the map, and the store that survives it. */
  class SessionManager {
    var sessions: seq<Slot>
    const store: RegistryStore
    ghost var synced: bool

    ghost function View(): Manager
      reads this, store
    {
      Manager(sessions, store.file, synced)
    }

    /** Boot: load the file, one session per entry, then start the auto-start ones. */
    constructor (store: RegistryStore)
      ensures this.store == store && sessions == BootFrom(LoadedFrom(store.file)) && !synced
    {
      this.store := store;
      sessions := [];
      synced := false;
      new;
      var entries := store.Load();
      var k := 0;
      while k < |entries|
        invariant 0 <= k <= |entries|
        invariant !synced && sessions == BootFrom(entries[..k])
      {
        var entry := entries[k];
        assert entries[..k + 1][..k] == entries[..k];
        sessions := Put(sessions, Slot(entry.instanceId, entry, Running));
        k := k + 1;
      }
      assert entries[..k] == entries;
    }

    method PersistRegistry(write: Write) returns (ok: bool)
      modifies this`synced, store
      ensures View() == Persist(old(View()), write) && ok == write.Written?
    {
      ok := store.Save(Entries(sessions), write);
      synced := ok;
    }

    method SetDesired(slot: Slot, desired: Desired)
      modifies this`sessions
      ensures sessions == Put(old(sessions), slot.(desired := desired))
    {
      sessions := Put(sessions, slot.(desired := desired));
    }

    method OnRegister(r: Request)
      requires r.Register?
      modifies this, store
      ensures View() == Handle(old(View()), r)
    {
      var id := Trim(r.entry.instanceId);
      if id == "" {
        return;
      }
      var existing := Find(sessions, id);
      var registryEntry := RegistryEntry(r.entry.(instanceId := id), r.defaultUrl, r.now, existing);
      var managed :=
        if existing.Some? then existing.value.(registry := registryEntry) else Slot(id, registryEntry, Running);
      if existing.Some? {
        FindHasKey(sessions, id);
      }
      sessions := Put(sessions, managed);
      var ok := PersistRegistry(r.write);
      if !ok {
        return;
      }
      if registryEntry.autoStart {
        SetDesired(managed, Running);
      } else if existing.Some? && !r.statusStopped {
        SetDesired(managed, Stopped);
      }
    }

    /** The start, connect and reconnect handlers; reconnecting first stops the session, then starts it. */
    method OnStart(id: string, now: string, startOk: bool, write: Write)
      modifies this, store
      ensures View() == HandleStart(old(View()), id, now, startOk, write)
    {
      var managed := Find(sessions, id);
      if managed.None? {
        return;
      }
      SetDesired(managed.value, Running);
      if !startOk {
        return;
      }
      var registry := managed.value.registry.(autoStart := true);
      registry := registry.(updatedAt := now);
      PutTwice(old(sessions), managed.value.(desired := Running), Slot(managed.value.key, registry, Running));
      sessions := Put(sessions, Slot(managed.value.key, registry, Running));
      var _ := PersistRegistry(write);
    }

    /** The disconnect and logout handlers. */
    method OnStop(id: string, now: string, stopOk: bool, write: Write)
      modifies this, store
      ensures View() == HandleStop(old(View()), id, now, stopOk, write)
    {
      var managed := Find(sessions, id);
      if managed.None? {
        return;
      }
      SetDesired(managed.value, Stopped);
      if !stopOk {
        return;
      }
      var registry := managed.value.registry.(autoStart := false);
      registry := registry.(updatedAt := now);
      PutTwice(old(sessions), managed.value.(desired := Stopped), Slot(managed.value.key, registry, Stopped));
      sessions := Put(sessions, Slot(managed.value.key, registry, Stopped));
      var _ := PersistRegistry(write);
    }

    method OnRefreshQr(id: string, connected: bool, startOk: bool)
      modifies this
      ensures View() == Handle(old(View()), RefreshQr(id, connected, startOk))
    {
      var managed := Find(sessions, id);
      if managed.Some? && !connected {
        SetDesired(managed.value, Stopped);
        PutTwice(old(sessions), managed.value.(desired := Stopped), managed.value.(desired := Running));
        SetDesired(managed.value, Running);
      }
    }

    /** A request that needs the client starts a session that has none. */
    method OnUseClient(id: string, hasClient: bool)
      modifies this`sessions
      ensures View() == Handle(old(View()), UseClient(id, hasClient))
    {
      var managed := Find(sessions, id);
      if managed.Some? && !hasClient {
        SetDesired(managed.value, Running);
      }
    }

    method OnUnregister(id: string, stopOk: bool, write: Write)
      modifies this, store
      ensures View() == Handle(old(View()), Unregister(id, stopOk, write))
    {
      hide Put, Remove, Find, Entries;
      var managed := Find(sessions, id);
      if managed.None? {
        return;
      }
      SetDesired(managed.value, Stopped);
      if !stopOk {
        return;
      }
      FindHasKey(old(sessions), id);
      RemovePut(old(sessions), managed.value.(desired := Stopped));
      sessions := Remove(sessions, id);
      var _ := PersistRegistry(write);
    }
  }

  // ---------- map facts ----------

  lemma {:induction false} FindHasKey(slots: seq<Slot>, key: string)
    ensures Find(slots, key).Some? ==> HasKey(slots, key) && Find(slots, key).value.key == key
                                       && Find(slots, key).value in slots
    ensures Find(slots, key).None? ==> !HasKey(slots, key)
  {
    if slots != [] && slots[0].key != key {
      FindHasKey(slots[1..], key);
      if HasKey(slots[1..], key) {
        var k :| 0 <= k < |slots[1..]| && slots[1..][k].key == key;
        assert slots[k + 1].key == key;
      }
      if HasKey(slots, key) {
        var k :| 0 <= k < |slots| && slots[k].key == key;
        assert slots[1..][k - 1].key == key;
      }
    }
  }

  lemma {:induction false} PutTwice(slots: seq<Slot>, a: Slot, b: Slot)
    requires a.key == b.key
    ensures Put(Put(slots, a), b) == Put(slots, b)
  {
    if slots != [] && slots[0].key != a.key {
      PutTwice(slots[1..], a, b);
      assert ([slots[0]] + Put(slots[1..], a))[1..] == Put(slots[1..], a);
    }
  }

  lemma {:induction false} RemovePut(slots: seq<Slot>, a: Slot)
    requires HasKey(slots, a.key)
    ensures Remove(Put(slots, a), a.key) == Remove(slots, a.key)
  {
    if slots[0].key == a.key {
      assert ([a] + slots[1..])[1..] == slots[1..];
    } else {
      var k :| 0 <= k < |slots| && slots[k].key == a.key;
      assert slots[1..][k - 1].key == a.key;
      RemovePut(slots[1..], a);
      assert ([slots[0]] + Put(slots[1..], a))[1..] == Put(slots[1..], a);
    }
  }
}
