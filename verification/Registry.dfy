/** The backend registry service: startup reconciliation, worker syncs and
    route lookup, over the shared Redis store. */
module Registry {
  import opened Text
  import opened Decimal
  import opened ListCodec
  import opened Records
  import opened Fetch
  import opened RedisStore
  import opened Routing

  datatype BackendDefinition = BackendDefinition(id: string, address: string, tags: seq<string>, weight: int)

  datatype Outcome =
    | Done
    | MissingField
    | DuplicateID(id: string)
    | ReusedAddress(address: string, holder: string, id: string)
    | MissingAddress(id: string)
    | BackendIDRequired
    | BackendNotFound(id: string)

  function DefID(def: BackendDefinition): string { TrimSpace(def.id) }
  function DefAddress(def: BackendDefinition): string { TrimSpace(def.address) }

  function DefinedIDs(defs: seq<BackendDefinition>): set<string> {
    set def | def in defs :: DefID(def)
  }

  /** Every id and address given, and no two alike. */
  ghost predicate ValidDefs(defs: seq<BackendDefinition>) {
    && (forall i | 0 <= i < |defs| :: DefID(defs[i]) != "" && DefAddress(defs[i]) != "")
    && (forall i, j | 0 <= i < j < |defs| :: DefID(defs[i]) != DefID(defs[j]))
    && (forall i, j | 0 <= i < j < |defs| :: DefAddress(defs[i]) != DefAddress(defs[j]))
  }

  /** Ids and addresses count without the white space around them. */
  lemma DefsValidity(defs: seq<BackendDefinition>)
    ensures ValidDefs(defs) <==>
            && (forall i | 0 <= i < |defs| :: TrimSpace(defs[i].id) != "" && TrimSpace(defs[i].address) != "")
            && (forall i, j | 0 <= i < j < |defs| :: TrimSpace(defs[i].id) != TrimSpace(defs[j].id))
            && (forall i, j | 0 <= i < j < |defs| :: TrimSpace(defs[i].address) != TrimSpace(defs[j].address))
    ensures forall x :: x in DefinedIDs(defs) <==> exists def | def in defs :: TrimSpace(def.id) == x
  {
    hide TrimSpace;
    assert forall def: BackendDefinition :: DefID(def) == TrimSpace(def.id) && DefAddress(def) == TrimSpace(def.address);
  }

  /** Definition `k` is the first one that spoils validity, for reason `why`. */
  ghost predicate FirstInvalid(defs: seq<BackendDefinition>, k: nat, why: Outcome)
    requires k < |defs|
  {
    var id, addr := DefID(defs[k]), DefAddress(defs[k]);
    && ValidDefs(defs[..k])
    && match why
       case MissingField => id == "" || addr == ""
       case DuplicateID(x) => id != "" && addr != "" && x == id && exists j | 0 <= j < k :: DefID(defs[j]) == id
       case ReusedAddress(a, holder, x) =>
         && id != "" && addr != "" && a == addr && x == id
         && (forall j | 0 <= j < k :: DefID(defs[j]) != id)
         && (exists j | 0 <= j < k :: DefAddress(defs[j]) == addr && DefID(defs[j]) == holder)
       case _ => false
  }

  /** The records of a listing by id, later ones winning. */
  function ByID(statuses: seq<BackendStatus>): map<string, BackendStatus> {
    if statuses == [] then map[]
    else
      var n := |statuses| - 1;
      ByID(statuses[..n])[statuses[n].id := statuses[n]]
  }

  /** The record saved for a definition: the one known under its id, or a new
      healthy and empty one, with the definition's own fields written in. */
  function Registered(existing: map<string, BackendStatus>, def: BackendDefinition, now: Time): BackendStatus {
    var prev := if DefID(def) in existing then existing[DefID(def)] else NO_STATUS.(healthy := true);
    prev.(id := DefID(def), address := DefAddress(def), tags := def.tags,
          weights := map["default" := def.weight], updatedAt := now)
  }

  /** The store after saving the definitions in order. */
  function Overlay(s: StoreState, existing: map<string, BackendStatus>, defs: seq<BackendDefinition>, now: Time): StoreState {
    if defs == [] then s
    else
      var n := |defs| - 1;
      Saved(Overlay(s, existing, defs[..n], now), Registered(existing, defs[n], now), 0.0)
  }

  function Without(s: StoreState, ids: set<string>): StoreState {
    StoreState(s.hashes - ids, s.index - ids)
  }

  /** The store after a registration that ran alone and went through. */
  function Reconciled(s: StoreState, defs: seq<BackendDefinition>, now: Time): StoreState {
    var existing := ByID(Listing(s));
    Without(Overlay(s, existing, defs, now), existing.Keys - DefinedIDs(defs))
  }

  /** What a poll changes in a record. */
  datatype Poll = Poll(ping: Ping, latencyMS: Int64, at: Time)

  function Synced(status: BackendStatus, poll: Poll): BackendStatus {
    var base := status.(healthy := poll.ping.Reached?, latencyMS := poll.latencyMS, updatedAt := poll.at);
    if poll.ping.Failed? then base
    else
      var t := Fetched(poll.ping);
      base.(models := t.models, loadedModels := t.loaded, modelMeta := t.meta)
  }

  /** The store after syncing `statuses` in order, stopping at a blank address. */
  function SyncedAll(s: StoreState, statuses: seq<BackendStatus>, polls: string -> Poll): (StoreState, Outcome)
    decreases |statuses|
  {
    if statuses == [] then (s, Done)
    else if TrimSpace(statuses[0].address) == "" then (s, MissingAddress(statuses[0].id))
    else SyncedAll(Saved(s, Synced(statuses[0], polls(statuses[0].id)), 0.0), statuses[1..], polls)
  }

  datatype BackendRoute = BackendRoute(id: string, address: string)
  datatype RouteLookup = Found(route: BackendRoute) | NotFound | BadGateway

  ghost predicate FirstWith(statuses: seq<BackendStatus>, id: string, i: nat)
    requires i < |statuses|
  {
    statuses[i].id == id && forall j | 0 <= j < i :: statuses[j].id != id
  }

  class Service {
    const store: Store

    constructor (store: Store)
      ensures this.store == store
    {
      this.store := store;
    }

    /** Seeds the store with the definitions and drops every other backend it
        knew. On the first invalid definition it stops, leaving the store
        overlaid with the definitions before it. */
    method RegisterBackends(defs: seq<BackendDefinition>, now: Time) returns (r: Outcome)
      modifies store
      ensures r == Done <==> ValidDefs(defs)
      ensures r == Done ==> store.State() == Reconciled(old(store.State()), defs, now)
      ensures r != Done ==> exists k: nat | k < |defs| ::
                && FirstInvalid(defs, k, r)
                && store.State() == Overlay(old(store.State()), ByID(Listing(old(store.State()))), defs[..k], now)
    {
      hide DefID, DefAddress, Listing, Overlay, Without, FirstInvalid, ValidDefs, DefinedIDs;
      var existing := store.ListBackends();
      var existingByID := IndexByID(existing);
      var desired;
      r, desired := SaveDefinitions(existingByID, defs, now);
      if r == Done {
        Prune(existingByID.Keys, desired);
      }
    }

    method IndexByID(statuses: seq<BackendStatus>) returns (byID: map<string, BackendStatus>)
      ensures byID == ByID(statuses)
    {
      byID := map[];
      for i := 0 to |statuses|
        invariant byID == ByID(statuses[..i])
      {
        assert statuses[..i + 1][..i] == statuses[..i];
        byID := byID[statuses[i].id := statuses[i]];
      }
      assert statuses[..|statuses|] == statuses;
    }

    method SaveDefinitions(existing: map<string, BackendStatus>, defs: seq<BackendDefinition>, now: Time)
      returns (r: Outcome, desired: set<string>)
      modifies store
      ensures r == Done <==> ValidDefs(defs)
      ensures r == Done ==> desired == DefinedIDs(defs) && store.State() == Overlay(old(store.State()), existing, defs, now)
      ensures r != Done ==> exists k: nat | k < |defs| ::
                && FirstInvalid(defs, k, r)
                && store.State() == Overlay(old(store.State()), existing, defs[..k], now)
    {
      hide DefID, DefAddress, FirstInvalid, ValidDefs, DefinedIDs, Registered, Saved;
      ghost var s0 := store.State();
      var seenIDs, seenAddresses: map<string, string> := {}, map[];
      desired := {};
      NoDefs(defs);
      for i := 0 to |defs|
        invariant ValidDefs(defs[..i])
        invariant desired == seenIDs == DefinedIDs(defs[..i])
        invariant Addresses(defs[..i], seenAddresses)
        invariant store.State() == Overlay(s0, existing, defs[..i], now)
      {
        DefsStep(defs, i);
        Classify(defs, i, seenAddresses);
        var id, addr := DefID(defs[i]), DefAddress(defs[i]);
        if id == "" || addr == "" { return MissingField, desired; }
        if id in seenIDs { return DuplicateID(id), desired; }
        seenIDs := seenIDs + {id};
        if addr in seenAddresses { return ReusedAddress(addr, seenAddresses[addr], id), desired; }
        seenAddresses := seenAddresses[addr := id];
        desired := desired + {id};
        store.SaveBackend(Registered(existing, defs[i], now), 0.0);
      }
      assert defs[..|defs|] == defs;
      r := Done;
    }

    /** Deletes the known backends that are not wanted, in any order. */
    method Prune(known: set<string>, desired: set<string>)
      modifies store
      ensures store.State() == Without(old(store.State()), known - desired)
    {
      ghost var s0 := store.State();
      var todo := known;
      while todo != {}
        invariant todo <= known
        invariant store.State() == Without(s0, known - todo - desired)
      {
        var id :| id in todo;
        ghost var done := known - todo - desired;
        todo := todo - {id};
        if id in desired {
          assert known - todo - desired == done;
          continue;
        }
        assert known - todo - desired == done + {id};
        WithoutOne(s0, done, id);
        store.DeleteBackend(id);
      }
      assert known - {} - desired == known - desired;
    }

    /** `syncBackend`: one poll, one save. The hash then says whether the poll
        was answered, and only an answered poll changes the models. */
    method SyncBackend(backend: BackendStatus, poll: Poll) returns (r: Outcome)
      modifies store
      ensures (store.State(), r) == SyncedAll(old(store.State()), [backend], _ => poll)
      ensures TrimSpace(backend.address) == "" ==> r == MissingAddress(backend.id) && store.State() == old(store.State())
      ensures TrimSpace(backend.address) != "" ==>
                && r == Done && backend.id in store.hashes && backend.id in store.index && store.index[backend.id] == 0.0
                && var h := store.hashes[backend.id];
                   && {Address, Healthy, LatencyMs, Tags, Models, LoadedModels, ModelsMeta, UpdatedAt} <= h.Keys
                   && h[Healthy] == Raw(if poll.ping.Reached? then "1" else "0")
                   && h[LatencyMs] == Raw(PrintInt(poll.latencyMS)) && h[UpdatedAt] == Raw(PrintInt(Unix(poll.at)))
                   && h[Address] == Raw(backend.address) && h[Tags] == Raw(Encode(backend.tags))
                   && h[Models] == Raw(Encode(if poll.ping.Reached? then Fetched(poll.ping).models else backend.models))
                   && h[LoadedModels] == Raw(Encode(if poll.ping.Reached? then Fetched(poll.ping).loaded else backend.loadedModels))
                   && h[ModelsMeta] == EncodeModelMeta(if poll.ping.Reached? then Fetched(poll.ping).meta else backend.modelMeta)
    {
      hide TrimSpace, Fetched, Saved, Fields, PrintInt, Encode, EncodeModelMeta, Unix;
      ghost var before := store.State();
      if TrimSpace(backend.address) == "" { return MissingAddress(backend.id); }
      var fetched := FetchInstalledModels(poll.ping);
      var b := backend.(healthy := fetched.Some?, latencyMS := poll.latencyMS);
      if fetched.Some? {
        b := b.(models := fetched.value.models, loadedModels := fetched.value.loaded, modelMeta := fetched.value.meta);
      }
      b := b.(updatedAt := poll.at);
      store.SaveBackend(b, 0.0);
      SavedHash(before, b);
      assert store.State().hashes == store.hashes && store.State().index == store.index;
      return Done;
    }

    method SyncBackends(polls: string -> Poll) returns (r: Outcome)
      modifies store
      ensures (store.State(), r) == SyncedAll(old(store.State()), Listing(old(store.State())), polls)
    {
      var backends := store.ListBackends();
      ghost var want := SyncedAll(store.State(), backends, polls);
      for i := 0 to |backends|
        invariant SyncedAll(store.State(), backends[i..], polls) == want
      {
        assert backends[i..][1..] == backends[i + 1..];
        r := SyncBackend(backends[i], polls(backends[i].id));
        if r != Done { return; }
      }
      return Done;
    }

    method SyncBackendByID(backendID: string, poll: Poll) returns (r: Outcome)
      modifies store
      ensures var id, s := TrimSpace(backendID), old(store.State());
              if id == "" then r == BackendIDRequired && store.State() == s
              else if Load(s, id).id == "" then r == BackendNotFound(id) && store.State() == s
              else (store.State(), r) == SyncedAll(s, [Load(s, id)], _ => poll)
    {
      var id := TrimSpace(backendID);
      if id == "" { return BackendIDRequired; }
      var status := store.GetBackend(id);
      if status.id == "" { return BackendNotFound(id); }
      r := SyncBackend(status, poll);
    }

    /** The first listed record of the trimmed id decides. */
    method LookupBackendRoute(backendID: string) returns (r: RouteLookup)
      ensures var id, all := TrimSpace(backendID), Listing(store.State());
              if r == NotFound then id == "" || forall s | s in all :: s.id != id
              else
                && id != ""
                && exists i: nat | i < |all| ::
                     && FirstWith(all, id, i)
                     && r == if TrimSpace(all[i].address) == "" then BadGateway else Found(BackendRoute(id, all[i].address))
    {
      hide TrimSpace;
      var id := TrimSpace(backendID);
      if id == "" { return NotFound; }
      var statuses := store.ListBackends();
      for i := 0 to |statuses|
        invariant forall j | 0 <= j < i :: statuses[j].id != id
      {
        var s := statuses[i];
        if s.id != id { continue; }
        assert FirstWith(statuses, id, i);
        if TrimSpace(s.address) == "" { return BadGateway; }
        return Found(BackendRoute(s.id, s.address));
      }
      return NotFound;
    }

    method RouteBackend(model: string) returns (r: Option<BackendRoute>)
      ensures var all := Listing(store.State());
              if r.None? then forall i | 0 <= i < |all| :: !all[i].healthy || TrimSpace(all[i].address) == ""
              else exists i: nat | i < |all| :: Best(all, model, i) && r.value == BackendRoute(all[i].id, all[i].address)
    {
      var statuses := store.ListBackends();
      var chosen := Select(statuses, model);
      if chosen.None? { return None; }
      return Some(BackendRoute(chosen.value.id, chosen.value.address));
    }
  }

  lemma FieldsAre(b: BackendStatus)
    ensures var h := Fields(b);
            && h.Keys == {Address, Healthy, LatencyMs, Tags, Models, LoadedModels, ModelsMeta, UpdatedAt}
            && h[Healthy] == Raw(if b.healthy then "1" else "0")
            && h[LatencyMs] == Raw(PrintInt(b.latencyMS)) && h[UpdatedAt] == Raw(PrintInt(Unix(b.updatedAt)))
            && h[Address] == Raw(b.address) && h[Tags] == Raw(Encode(b.tags))
            && h[Models] == Raw(Encode(b.models)) && h[LoadedModels] == Raw(Encode(b.loadedModels))
            && h[ModelsMeta] == EncodeModelMeta(b.modelMeta)
  {
    hide PrintInt, Encode, EncodeModelMeta, Unix;
  }

  /** The fields of a saved record's hash. */
  lemma SavedHash(s: StoreState, b: BackendStatus)
    ensures var r := Saved(s, b, 0.0);
            && b.id in r.hashes && b.id in r.index && r.index[b.id] == 0.0
            && var h := r.hashes[b.id];
               && {Address, Healthy, LatencyMs, Tags, Models, LoadedModels, ModelsMeta, UpdatedAt} <= h.Keys
               && h[Healthy] == Raw(if b.healthy then "1" else "0")
               && h[LatencyMs] == Raw(PrintInt(b.latencyMS)) && h[UpdatedAt] == Raw(PrintInt(Unix(b.updatedAt)))
               && h[Address] == Raw(b.address) && h[Tags] == Raw(Encode(b.tags))
               && h[Models] == Raw(Encode(b.models)) && h[LoadedModels] == Raw(Encode(b.loadedModels))
               && h[ModelsMeta] == EncodeModelMeta(b.modelMeta)
  {
    hide PrintInt, Encode, EncodeModelMeta, Unix, Fields;
    FieldsAre(b);
  }

  lemma DefsStep(defs: seq<BackendDefinition>, i: nat)
    requires i < |defs|
    ensures defs[..i + 1][..i] == defs[..i] && defs[..i + 1][i] == defs[i]
    ensures DefinedIDs(defs[..i + 1]) == DefinedIDs(defs[..i]) + {DefID(defs[i])}
    ensures forall x :: x in DefinedIDs(defs[..i]) <==> exists j | 0 <= j < i :: DefID(defs[j]) == x
    ensures forall j | 0 <= j < i :: defs[..i][j] == defs[j] && defs[..i + 1][j] == defs[j]
  {
    hide DefID;
    assert defs[..i + 1] == defs[..i] + [defs[i]];
    forall x ensures x in DefinedIDs(defs[..i]) <==> exists j | 0 <= j < i :: DefID(defs[j]) == x {
      if exists j | 0 <= j < i :: DefID(defs[j]) == x {
        var j :| 0 <= j < i && DefID(defs[j]) == x;
        assert defs[..i][j] in defs[..i];
      }
    }
  }

  /** `addresses` maps every address of `defs` to the id that uses it. */
  ghost predicate Addresses(defs: seq<BackendDefinition>, addresses: map<string, string>) {
    && (forall j | 0 <= j < |defs| :: DefAddress(defs[j]) in addresses)
    && (forall a | a in addresses :: exists j | 0 <= j < |defs| :: DefAddress(defs[j]) == a && DefID(defs[j]) == addresses[a])
  }

  lemma NoDefs(defs: seq<BackendDefinition>)
    ensures ValidDefs(defs[..0]) && DefinedIDs(defs[..0]) == {} && Addresses(defs[..0], map[])
    ensures !ValidDefs(defs) ==> defs != []
  {
  }

  /** The checks of one definition, in order, decide validity of the prefix. */
  lemma Classify(defs: seq<BackendDefinition>, i: nat, addresses: map<string, string>)
    requires i < |defs| && ValidDefs(defs[..i]) && Addresses(defs[..i], addresses)
    ensures var id, addr := DefID(defs[i]), DefAddress(defs[i]);
            if id == "" || addr == "" then FirstInvalid(defs, i, MissingField) && !ValidDefs(defs)
            else if id in DefinedIDs(defs[..i]) then FirstInvalid(defs, i, DuplicateID(id)) && !ValidDefs(defs)
            else if addr in addresses then FirstInvalid(defs, i, ReusedAddress(addr, addresses[addr], id)) && !ValidDefs(defs)
            else ValidDefs(defs[..i + 1]) && Addresses(defs[..i + 1], addresses[addr := id])
  {
    hide DefID, DefAddress, Addresses;
    DefsStep(defs, i);
    var id, addr := DefID(defs[i]), DefAddress(defs[i]);
    if addr in addresses { AddressHolder(defs[..i], addresses, addr); }
    AddressesStep(defs, i, addresses);
  }

  lemma AddressHolder(defs: seq<BackendDefinition>, addresses: map<string, string>, addr: string)
    requires Addresses(defs, addresses)
    ensures addr in addresses <==> exists j | 0 <= j < |defs| :: DefAddress(defs[j]) == addr
    ensures addr in addresses ==>
              exists j | 0 <= j < |defs| :: DefAddress(defs[j]) == addr && DefID(defs[j]) == addresses[addr]
  {
  }

  lemma AddressesStep(defs: seq<BackendDefinition>, i: nat, addresses: map<string, string>)
    requires i < |defs| && Addresses(defs[..i], addresses)
    ensures Addresses(defs[..i + 1], addresses[DefAddress(defs[i]) := DefID(defs[i])])
    ensures DefAddress(defs[i]) !in addresses ==> forall j | 0 <= j < i :: DefAddress(defs[j]) != DefAddress(defs[i])
  {
    hide DefID, DefAddress;
    var before, after, addr := defs[..i], defs[..i + 1], DefAddress(defs[i]);
    assert after[i] == defs[i] && forall j | 0 <= j < i :: after[j] == before[j] == defs[j];
    forall a | a in addresses && a != addr
      ensures exists j | 0 <= j < |after| :: DefAddress(after[j]) == a && DefID(after[j]) == addresses[a]
    {
      var j :| 0 <= j < |before| && DefAddress(before[j]) == a && DefID(before[j]) == addresses[a];
      assert DefAddress(after[j]) == a;
    }
  }

  lemma WithoutOne(s: StoreState, ids: set<string>, id: string)
    ensures Deleted(Without(s, ids), id) == Without(s, ids + {id})
  {
  }
}
