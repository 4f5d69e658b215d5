/** What registration and syncing leave in a consistent store. */
module Reconciliation {
  import opened Text
  import opened Decimal
  import opened Ordering
  import opened ListCodec
  import opened Records
  import opened Fetch
  import opened RedisStore
  import opened Registry

  lemma {:induction false} ByIDOfDistinct(statuses: seq<BackendStatus>, id: string)
    requires forall i, j | 0 <= i < j < |statuses| :: statuses[i].id != statuses[j].id
    ensures id in ByID(statuses) <==> exists i | 0 <= i < |statuses| :: statuses[i].id == id
    ensures forall i | 0 <= i < |statuses| && statuses[i].id == id :: ByID(statuses)[id] == statuses[i]
  {
    if statuses != [] {
      ByIDOfDistinct(statuses[..|statuses| - 1], id);
    }
  }

  /** In a consistent store the records known by id are the stored ones. */
  lemma KnownRecord(s: StoreState, id: string)
    requires Consistent(s)
    ensures id in ByID(Listing(s)) <==> id in s.hashes
    ensures id in s.hashes ==> ByID(Listing(s))[id] == Load(s, id)
  {
    hide Load, Listing, ByID, Ascending;
    var all, ids := Listing(s), Ascending(s.hashes.Keys);
    ListingOfConsistent(s);
    IncreasingDistinct(ids);
    assert |all| == |Ids(all)| == |ids|;
    assert forall i | 0 <= i < |all| :: all[i].id == Ids(all)[i] == ids[i];
    ByIDOfDistinct(all, id);
    if id in s.hashes {
      var i :| 0 <= i < |ids| && ids[i] == id;
      assert all[i].id == id;
    }
  }

  lemma KnownIDs(s: StoreState)
    requires Consistent(s)
    ensures ByID(Listing(s)).Keys == s.hashes.Keys
  {
    hide Listing, ByID;
    forall id ensures id in ByID(Listing(s)) <==> id in s.hashes { KnownRecord(s, id); }
  }

  /** Saving the definitions leaves every other backend alone. */
  lemma {:induction false} OverlayElsewhere(s: StoreState, existing: map<string, BackendStatus>, defs: seq<BackendDefinition>, now: Time, id: string)
    requires id !in DefinedIDs(defs)
    ensures var o := Overlay(s, existing, defs, now);
            && (id in o.hashes <==> id in s.hashes) && HashOf(o, id) == HashOf(s, id)
            && (id in o.index <==> id in s.index) && (id in s.index ==> o.index[id] == s.index[id])
  {
    if defs != [] {
      hide DefID, DefAddress, Fields, Registered;
      var n := |defs| - 1;
      DefsStep(defs, n);
      assert defs[..n + 1] == defs;
      OverlayElsewhere(s, existing, defs[..n], now, id);
      RegisteredID(existing, defs[n], now);
    }
  }

  /** Each definition is written once, over what its hash held. */
  lemma {:induction false} OverlayAt(s: StoreState, existing: map<string, BackendStatus>, defs: seq<BackendDefinition>, now: Time, k: nat)
    requires ValidDefs(defs) && k < |defs|
    ensures var o, id := Overlay(s, existing, defs, now), DefID(defs[k]);
            && id in o.hashes && o.hashes[id] == HashOf(s, id) + Fields(Registered(existing, defs[k], now))
            && id in o.index && o.index[id] == 0.0
  {
    hide DefID, DefAddress, Fields, Registered;
    var n := |defs| - 1;
    DefsStep(defs, n);
    assert defs[..n + 1] == defs;
    RegisteredID(existing, defs[n], now);
    if k < n {
      OverlayAt(s, existing, defs[..n], now, k);
    } else {
      OverlayElsewhere(s, existing, defs[..n], now, DefID(defs[n]));
    }
  }

  lemma RegisteredID(existing: map<string, BackendStatus>, def: BackendDefinition, now: Time)
    ensures Registered(existing, def, now).id == DefID(def)
  {
  }

  /** A registration that stops early has removed nothing: the store holds the
      old backends and the ids of the definitions before the invalid one. */
  lemma OverlayKeepsAll(s: StoreState, existing: map<string, BackendStatus>, defs: seq<BackendDefinition>, now: Time)
    requires ValidDefs(defs)
    ensures Overlay(s, existing, defs, now).hashes.Keys == s.hashes.Keys + DefinedIDs(defs)
    ensures Overlay(s, existing, defs, now).index.Keys == s.index.Keys + DefinedIDs(defs)
  {
    hide DefID, Overlay;
    var o := Overlay(s, existing, defs, now);
    forall id
      ensures id in o.hashes <==> id in s.hashes || id in DefinedIDs(defs)
      ensures id in o.index <==> id in s.index || id in DefinedIDs(defs)
    {
      if id in DefinedIDs(defs) {
        var k :| 0 <= k < |defs| && DefID(defs[k]) == id;
        OverlayAt(s, existing, defs, now, k);
      } else {
        OverlayElsewhere(s, existing, defs, now, id);
      }
    }
  }

  /** A registration that ran alone over a consistent store leaves exactly the
      defined backends, in a consistent store. */
  lemma ReconciledStore(s: StoreState, defs: seq<BackendDefinition>, now: Time)
    requires Consistent(s) && ValidDefs(defs)
    ensures Consistent(Reconciled(s, defs, now))
    ensures Reconciled(s, defs, now).hashes.Keys == DefinedIDs(defs)
  {
    hide Listing, DefID, DefAddress, Registered, Overlay, ByID;
    var existing := ByID(Listing(s));
    KnownIDs(s);
    OverlayKeepsAll(s, existing, defs, now);
    var r := Reconciled(s, defs, now);
    assert r.hashes.Keys == DefinedIDs(defs) == r.index.Keys;
    forall id | id in r.hashes ensures id != "" && r.hashes[id] != map[] && r.index[id] == 0.0 {
      var k :| 0 <= k < |defs| && DefID(defs[k]) == id;
      OverlayAt(s, existing, defs, now, k);
      assert Address in Fields(Registered(existing, defs[k], now));
    }
  }

  /** After a registration that ran alone a backend is stored exactly when some
      definition, its id trimmed, defines it. */
  lemma StoredIDs(s: StoreState, defs: seq<BackendDefinition>, now: Time, id: string)
    requires Consistent(s) && ValidDefs(defs)
    ensures id in Reconciled(s, defs, now).hashes <==> exists def | def in defs :: TrimSpace(def.id) == id
  {
    hide Reconciled, DefinedIDs, Consistent, TrimSpace;
    ReconciledStore(s, defs, now);
    DefsValidity(defs);
  }

  /** Each hash is the old one with the registered record over it. */
  lemma ReconciledHash(s: StoreState, defs: seq<BackendDefinition>, now: Time, def: BackendDefinition)
    requires Consistent(s) && ValidDefs(defs) && def in defs
    ensures HashOf(Reconciled(s, defs, now), DefID(def)) ==
            HashOf(s, DefID(def)) + Fields(Registered(ByID(Listing(s)), def, now))
  {
    hide Listing, DefID, DefAddress, Registered, Overlay, ByID, Fields;
    var k :| 0 <= k < |defs| && defs[k] == def;
    OverlayAt(s, ByID(Listing(s)), defs, now, k);
  }

  /** The record each definition ends up with: health, latency and models are
      those known before, or those of a new backend; address and tags are the
      definition's. */
  lemma ReconciledRecord(s: StoreState, defs: seq<BackendDefinition>, now: Time, def: BackendDefinition)
    requires Consistent(s) && ValidDefs(defs) && def in defs
    ensures var id := TrimSpace(def.id);
            var prev := if id in s.hashes then Load(s, id) else NO_STATUS.(id := id, healthy := true);
            Load(Reconciled(s, defs, now), id) ==
            prev.(address := TrimSpace(def.address), tags := Pieces(def.tags), updatedAt := Unix(now) * NANOS)
  {
    hide Listing, TrimSpace, Pieces, Decode, Fields, Overlay, Without, ParseLatency, ParseUnix;
    ReconciledStore(s, defs, now);
    ReconciledHash(s, defs, now, def);
    KnownRecord(s, DefID(def));
    var id, r := DefID(def), Reconciled(s, defs, now);
    var rec := Registered(ByID(Listing(s)), def, now);
    assert id in DefinedIDs(defs);
    RegisteredLists(s, def, now);
    LoadAfterSave(HashOf(s, id), rec);
    assert TrimSpace(rec.address) == rec.address;
  }

  /** A registered record lists clean models, and none only when no legacy list
      is stored either. */
  lemma RegisteredLists(s: StoreState, def: BackendDefinition, now: Time)
    requires Consistent(s)
    ensures var rec := Registered(ByID(Listing(s)), def, now);
            && Pieces(rec.models) == rec.models
            && Pieces(rec.loadedModels) == rec.loadedModels
            && (rec.models != [] || Decode(RawText(HashOf(s, DefID(def)), AvailableModels)) == [])
  {
    hide Listing, TrimSpace, Pieces, Decode;
    KnownRecord(s, DefID(def));
    var values := HashOf(s, DefID(def));
    DecodeClean(RawText(values, Models));
    DecodeClean(RawText(values, AvailableModels));
    DecodeClean(RawText(values, LoadedModels));
    var rec := Registered(ByID(Listing(s)), def, now);
    PiecesOfClean(rec.models);
    PiecesOfClean(rec.loadedModels);
    EmptyDecode();
  }

  /** The store with the time of registration moved to `now`. */
  function Stamped(s: StoreState, now: Time): StoreState {
    StoreState(map id | id in s.hashes :: s.hashes[id][UpdatedAt := Raw(PrintInt(Unix(now)))], s.index)
  }

  /** Running the same registration again changes the update times and nothing
      else. */
  lemma SecondRunStamps(s: StoreState, defs: seq<BackendDefinition>, t1: Time, t2: Time)
    requires Consistent(s) && ValidDefs(defs)
    ensures Reconciled(Reconciled(s, defs, t1), defs, t2) == Stamped(Reconciled(s, defs, t1), t2)
  {
    hide Listing, Load, DefID, DefAddress, Registered, Reconciled, ByID, Fields, Consistent;
    var r1 := Reconciled(s, defs, t1);
    ReconciledStore(s, defs, t1);
    ReconciledStore(r1, defs, t2);
    var r2 := Reconciled(r1, defs, t2);
    ConsistentKeys(r1);
    ConsistentKeys(r2);
    forall id | id in r1.hashes ensures r2.hashes[id] == Stamped(r1, t2).hashes[id] {
      var def :| def in defs && DefID(def) == id;
      SecondRunHash(s, defs, t1, t2, def);
    }
    forall id | id in r1.index ensures r2.index[id] == r1.index[id] {
      ConsistentScores(r1, id);
      ConsistentScores(r2, id);
    }
    assert r2.index == r1.index;
  }

  lemma ConsistentScores(s: StoreState, id: string)
    requires Consistent(s) && id in s.hashes
    ensures id in s.index && s.index[id] == 0.0
  {
  }

  lemma ConsistentKeys(s: StoreState)
    requires Consistent(s)
    ensures s.index.Keys == s.hashes.Keys
  {
  }

  lemma SecondRunHash(s: StoreState, defs: seq<BackendDefinition>, t1: Time, t2: Time, def: BackendDefinition)
    requires Consistent(s) && ValidDefs(defs) && def in defs
    ensures var r1 := Reconciled(s, defs, t1);
            HashOf(Reconciled(r1, defs, t2), DefID(def)) ==
            HashOf(r1, DefID(def))[UpdatedAt := Raw(PrintInt(Unix(t2)))]
  {
    hide Listing, Registered, Reconciled, ByID, DefID, PrintInt, Fields;
    var r1, id := Reconciled(s, defs, t1), DefID(def);
    ReconciledStore(s, defs, t1);
    ReconciledHash(s, defs, t1, def);
    ReconciledHash(r1, defs, t2, def);
    var first := Registered(ByID(Listing(s)), def, t1);
    RegisteredAgain(s, defs, t1, t2, def);
    FieldsRestamped(first, t2);
    FieldsCover(first, first.(updatedAt := t2));
  }

  /** The record of the second run is that of the first, restamped. */
  lemma RegisteredAgain(s: StoreState, defs: seq<BackendDefinition>, t1: Time, t2: Time, def: BackendDefinition)
    requires Consistent(s) && ValidDefs(defs) && def in defs
    ensures var r1 := Reconciled(s, defs, t1);
            Registered(ByID(Listing(r1)), def, t2) == Registered(ByID(Listing(s)), def, t1).(updatedAt := t2)
  {
    hide Listing, TrimSpace, Pieces, Decode, Fields, Reconciled, ByID;
    var r1, id := Reconciled(s, defs, t1), DefID(def);
    var first := Registered(ByID(Listing(s)), def, t1);
    ReconciledStore(s, defs, t1);
    ReconciledHash(s, defs, t1, def);
    RegisteredLists(s, def, t1);
    LoadAfterSave(HashOf(s, id), first);
    assert id in DefinedIDs(defs);
    KnownRecord(r1, id);
    LoadNonEmpty(r1, id);
    assert ByID(Listing(r1))[id] == Normalise(first);
  }

  lemma LoadNonEmpty(s: StoreState, id: string)
    requires Consistent(s) && id in s.hashes
    ensures Load(s, id) == Populate(id, HashOf(s, id))
  {
  }

  lemma FieldsRestamped(s: BackendStatus, now: Time)
    ensures Fields(s.(updatedAt := now)) == Fields(s)[UpdatedAt := Raw(PrintInt(Unix(now)))]
  {
  }

  lemma FieldsCover(a: BackendStatus, b: BackendStatus)
    ensures Fields(a).Keys == Fields(b).Keys && UpdatedAt in Fields(a)
  {
  }

  /** Syncing records of different ids with addresses goes through, writes each
      polled record over its hash, and touches no other backend. */
  lemma {:induction false} SyncedAllAt(s: StoreState, statuses: seq<BackendStatus>, polls: string -> Poll, id: string)
    requires forall i | 0 <= i < |statuses| :: TrimSpace(statuses[i].address) != ""
    requires forall i, j | 0 <= i < j < |statuses| :: statuses[i].id != statuses[j].id
    ensures var (r, out) := SyncedAll(s, statuses, polls);
            && out == Done
            && (forall i | 0 <= i < |statuses| && statuses[i].id == id ::
                  && HashOf(r, id) == HashOf(s, id) + Fields(Synced(statuses[i], polls(id)))
                  && id in r.hashes && id in r.index && r.index[id] == 0.0)
            && ((forall i | 0 <= i < |statuses| :: statuses[i].id != id) ==>
                  && HashOf(r, id) == HashOf(s, id)
                  && (id in r.hashes <==> id in s.hashes)
                  && (id in r.index <==> id in s.index) && (id in s.index ==> r.index[id] == s.index[id]))
    decreases |statuses|
  {
    hide TrimSpace, Fields, Synced;
    if statuses != [] {
      var b := Synced(statuses[0], polls(statuses[0].id));
      SyncedID(statuses[0], polls(statuses[0].id));
      SyncedAllAt(Saved(s, b, 0.0), statuses[1..], polls, id);
      assert forall i | 1 <= i < |statuses| :: statuses[1..][i - 1] == statuses[i];
    }
  }

  lemma SyncedID(status: BackendStatus, poll: Poll)
    ensures Synced(status, poll).id == status.id && Synced(status, poll).address == status.address
  {
  }

  /** A full sync stops at the first record without an address: those before it
      have been synced, it and the later ones have not. */
  lemma {:induction false} SyncStops(s: StoreState, statuses: seq<BackendStatus>, polls: string -> Poll, i: nat)
    requires i < |statuses| && TrimSpace(statuses[i].address) == ""
    requires forall j | 0 <= j < i :: TrimSpace(statuses[j].address) != ""
    ensures SyncedAll(s, statuses, polls) == (SyncedAll(s, statuses[..i], polls).0, MissingAddress(statuses[i].id))
    decreases i
  {
    hide TrimSpace, Saved, Synced;
    if i > 0 {
      assert statuses[1..][i - 1] == statuses[i] && statuses[1..][..i - 1] == statuses[..i][1..];
      SyncStops(Saved(s, Synced(statuses[0], polls(statuses[0].id)), 0.0), statuses[1..], polls, i - 1);
    }
  }

  /** What the store gives back of a record that was read, polled and saved:
      health, latency and time are the poll's, and so are the models if the poll
      was answered; all else is as it was read. */
  lemma PolledRecord(b: BackendStatus, poll: Poll)
    requires Normalise(b) == b
    ensures var a := Normalise(Synced(b, poll));
            && a.id == b.id && a.address == b.address && a.tags == b.tags
            && (a.healthy <==> poll.ping.Reached?)
            && a.latencyMS == poll.latencyMS && a.updatedAt == poll.at - poll.at % 1_000_000_000
            && (poll.ping.Reached? ==>
                  && a.models == Pieces(Fetched(poll.ping).models) && a.loadedModels == Pieces(Fetched(poll.ping).loaded)
                  && a.modelMeta == Fetched(poll.ping).meta)
            && (poll.ping.Failed? ==>
                  a.models == b.models && a.loadedModels == b.loadedModels && a.modelMeta == b.modelMeta)
  {
    hide TrimSpace, Pieces, Fetched;
  }

  /** A full sync of a quiet store: every backend stays, and each record shows
      the outcome of its poll, as the store can hold it. */
  lemma SyncedStore(s: StoreState, polls: string -> Poll, id: string)
    requires Consistent(s)
    requires forall x | x in s.hashes :: Load(s, x).address != "" && AvailableModels !in s.hashes[x]
    ensures var (r, out) := SyncedAll(s, Listing(s), polls);
            && out == Done
            && (id in r.hashes <==> id in s.hashes) && (id in r.index <==> id in s.index)
            && (id in s.hashes ==>
                  && r.index[id] == 0.0
                  && var b, a, poll := Load(s, id), Load(r, id), polls(id);
                     && a.id == id && a.address == b.address && a.tags == b.tags
                     && (a.healthy <==> poll.ping.Reached?)
                     && a.latencyMS == poll.latencyMS && a.updatedAt == poll.at - poll.at % 1_000_000_000
                     && (poll.ping.Reached? ==>
                           && a.models == Pieces(Fetched(poll.ping).models) && a.loadedModels == Pieces(Fetched(poll.ping).loaded)
                           && a.modelMeta == Fetched(poll.ping).meta)
                     && (poll.ping.Failed? ==>
                           a.models == b.models && a.loadedModels == b.loadedModels && a.modelMeta == b.modelMeta))
  {
    hide Listing, SyncedAll, Load, Synced, Normalise, Pieces, Fetched;
    SyncedNormal(s, polls, id);
    if id in s.hashes {
      LoadNonEmpty(s, id);
      LoadedIsNormal(id, HashOf(s, id));
      LoadPresent(s, id);
      PolledRecord(Load(s, id), polls(id));
    }
  }

  lemma SyncedNormal(s: StoreState, polls: string -> Poll, id: string)
    requires Consistent(s)
    requires forall x | x in s.hashes :: Load(s, x).address != "" && AvailableModels !in s.hashes[x]
    ensures var (r, out) := SyncedAll(s, Listing(s), polls);
            && out == Done
            && (id in r.hashes <==> id in s.hashes) && (id in r.index <==> id in s.index)
            && (id in s.hashes ==> Load(r, id) == Normalise(Synced(Load(s, id), polls(id))) && r.index[id] == 0.0)
  {
    hide Listing, SyncedAll, Load, Ascending, Synced, TrimSpace, Fields;
    var all, ids := Listing(s), Ascending(s.hashes.Keys);
    ListingOfConsistent(s);
    IncreasingDistinct(ids);
    assert |all| == |Ids(all)| == |ids|;
    assert forall i | 0 <= i < |all| :: all[i].id == Ids(all)[i] == ids[i];
    forall i | 0 <= i < |all| ensures TrimSpace(all[i].address) != "" {
      assert ids[i] in s.hashes;
      LoadedIsNormal(ids[i], HashOf(s, ids[i]));
      LoadNonEmpty(s, ids[i]);
    }
    SyncedAllAt(s, all, polls, id);
    if id in s.hashes {
      var i :| 0 <= i < |ids| && ids[i] == id;
      assert all[i].id == id;
      SyncedID(all[i], polls(id));
      SyncedLoad(s, SyncedAll(s, all, polls).0, id, Synced(all[i], polls(id)));
    }
  }

  lemma SyncedLoad(s: StoreState, r: StoreState, id: string, b: BackendStatus)
    requires id in s.hashes && AvailableModels !in s.hashes[id]
    requires b.id == id
    requires HashOf(r, id) == HashOf(s, id) + Fields(b)
    ensures Load(r, id) == Normalise(b)
  {
    hide TrimSpace, Pieces, Decode, Populate, Normalise;
    EmptyDecode();
    LoadAfterSave(HashOf(s, id), b);
    assert Address in Fields(b);
  }
}
