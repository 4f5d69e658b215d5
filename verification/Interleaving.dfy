/** The registry with its tasks running at the same time: every Redis round
    trip is one step and anything may happen between two steps. */
module Interleaving {
  import opened Text
  import opened Ordering
  import opened ListCodec
  import opened Records
  import opened Fetch
  import opened RedisStore
  import opened Registry

  /** Why a task lists the backends. */
  datatype Purpose = ForRegister(defs: seq<BackendDefinition>, now: Time) | ForSync | ForRead

  datatype Task =
    | Reading(purpose: Purpose, todo: seq<string>, got: seq<BackendStatus>)
    | Registering(existing: map<string, BackendStatus>, defs: seq<BackendDefinition>, now: Time, next: nat)
    | Pruning(defs: seq<BackendDefinition>, doomed: set<string>)
    | Syncing(queue: seq<BackendStatus>)
    | Answered(statuses: seq<BackendStatus>)
    | Finished
    | Stopped

  /** One step of one task. */
  datatype Event =
    | StartListing(t: nat, purpose: Purpose)      // ZRANGE
    | ReadNext(t: nat)                            // HGETALL
    | EndListing(t: nat)
    | SaveNext(t: nat)                            // the next definition
    | DeleteOne(t: nat, id: string)
    | StartSyncByID(t: nat, backendID: string)    // HGETALL
    | SyncNext(t: nat, poll: Poll)                // the next queued record
    | Crash(t: nat)                               // a failed reply, or the process going down

  /** A poll's triple as it comes back from the store: the name lists cut at
      their commas, the metadata as it was. */
  function AsStored(t: Triple): Triple {
    Triple(Pieces(t.models), Pieces(t.loaded), t.meta)
  }

  /** `fetched` is a history variable no step reads: for each backend the triples
      its polls have produced, as the store holds them. */
  datatype World = World(store: StoreState, tasks: map<nat, Task>, fetched: set<(string, Triple)>)

  const START := World(EMPTY_STORE, map[], {})

  function Put(w: World, t: nat, task: Task): World {
    w.(tasks := w.tasks[t := task])
  }

  function AfterListing(purpose: Purpose, got: seq<BackendStatus>): Task {
    match purpose
    case ForRegister(defs, now) => Registering(ByID(got), defs, now, 0)
    case ForSync => Syncing(got)
    case ForRead => Answered(got)
  }

  /** One step; an event that does not fit the state changes nothing. */
  ghost function Next(w: World, e: Event): World {
    match e
    case StartListing(t, purpose) =>
      if t in w.tasks then w else Put(w, t, Reading(purpose, ZRange(w.store.index), []))
    case ReadNext(t) =>
      if !(t in w.tasks && w.tasks[t].Reading? && w.tasks[t].todo != []) then w
      else
        var r := w.tasks[t];
        var b := Load(w.store, r.todo[0]);
        Put(w, t, Reading(r.purpose, r.todo[1..], if b.id == "" then r.got else r.got + [b]))
    case EndListing(t) =>
      if !(t in w.tasks && w.tasks[t].Reading? && w.tasks[t].todo == []) then w
      else Put(w, t, AfterListing(w.tasks[t].purpose, w.tasks[t].got))
    case SaveNext(t) =>
      if !(t in w.tasks && w.tasks[t].Registering?) then w
      else
        var r := w.tasks[t];
        if r.next >= |r.defs| then Put(w, t, Pruning(r.defs, r.existing.Keys - DefinedIDs(r.defs)))
        else if !ValidDefs(r.defs[..r.next + 1]) then Put(w, t, Stopped)
        else
          Put(w, t, r.(next := r.next + 1)).(store := Saved(w.store, Registered(r.existing, r.defs[r.next], r.now), 0.0))
    case DeleteOne(t, id) =>
      if !(t in w.tasks && w.tasks[t].Pruning?) then w
      else
        var p := w.tasks[t];
        if p.doomed == {} then Put(w, t, Finished)
        else if id !in p.doomed then w
        else Put(w, t, Pruning(p.defs, p.doomed - {id})).(store := Deleted(w.store, id))
    case StartSyncByID(t, backendID) =>
      if t in w.tasks then w
      else
        var b := Load(w.store, TrimSpace(backendID));
        Put(w, t, if b.id == "" then Stopped else Syncing([b]))
    case SyncNext(t, poll) =>
      if !(t in w.tasks && w.tasks[t].Syncing?) then w
      else
        var q := w.tasks[t].queue;
        if q == [] then Put(w, t, Finished)
        else if TrimSpace(q[0].address) == "" then Put(w, t, Stopped)
        else
          var seen := if poll.ping.Reached? then {(q[0].id, AsStored(Fetched(poll.ping)))} else {};
          World(Saved(w.store, Synced(q[0], poll), 0.0), w.tasks[t := Syncing(q[1..])], w.fetched + seen)
    case Crash(t) =>
      if t in w.tasks then Put(w, t, Stopped) else w
  }

  /** A run from the empty store: `ws[i+1]` follows `ws[i]` by `es[i]`. */
  ghost predicate IsRun(ws: seq<World>, es: seq<Event>) {
    && |ws| == |es| + 1
    && ws[0] == START
    && forall i | 0 <= i < |es| :: ws[i + 1] == Next(ws[i], es[i])
  }

  // ---- Commas in model names ----

  function TripleOf(b: BackendStatus): Triple {
    Triple(b.models, b.loadedModels, b.modelMeta)
  }

  /** No model name has a comma in it. */
  ghost predicate CommaFree(t: Triple) {
    forall x | x in t.models || x in t.loaded :: ',' !in x
  }

  lemma CommaFreeIsClean(t: Triple)
    requires GoodTriple(t)
    ensures CommaFree(t) <==> AllClean(t.models) && AllClean(t.loaded)
    ensures CommaFree(t) <==> forall m | m in t.meta :: ',' !in m.name
  {
    hide Trimmed, Less;
    assert forall i | 0 <= i < |t.models| :: t.models[i] in t.models;
    assert forall i | 0 <= i < |t.loaded| :: t.loaded[i] in t.loaded;
    assert forall x | x in t.models || x in t.loaded :: x in MetaNames(t.meta);
    assert forall m | m in t.meta :: m.name in MetaNames(t.meta);
  }

  /** A poll's triple survives the store exactly when no name has a comma, and
      otherwise the lists and the metadata that come back name different
      models. */
  lemma SurvivesUncut(t: Triple)
    requires GoodTriple(t)
    ensures AsStored(t) == t <==> CommaFree(t)
    ensures GoodTriple(AsStored(t)) <==> CommaFree(t)
  {
    hide Pieces, Trimmed, Less;
    CommaFreeIsClean(t);
    PiecesClean(t.models);
    PiecesClean(t.loaded);
    if CommaFree(t) {
      PiecesOfClean(t.models);
      PiecesOfClean(t.loaded);
    } else if GoodTriple(AsStored(t)) {
      assert CommaFree(AsStored(t));
      CommaFreeIsClean(AsStored(t));
      assert false;
    }
  }

  lemma AsStoredTwice(t: Triple)
    ensures AsStored(AsStored(t)) == AsStored(t)
  {
    hide Pieces;
    PiecesStable(t.models);
    PiecesStable(t.loaded);
  }

  /** Saving a record and loading it cuts its lists at their commas. */
  lemma LoadedTriple(s: StoreState, b: BackendStatus)
    requires AvailableModels !in HashOf(s, b.id)
    ensures Load(Saved(s, b, 0.0), b.id) == Normalise(b)
    ensures TripleOf(Normalise(b)) == AsStored(TripleOf(b))
  {
    hide Fields, Populate, Decode, Pieces, TrimSpace;
    FieldsNames(b);
    EmptyDecode();
    LoadAfterSave(HashOf(s, b.id), b);
  }

  /** A record's lists and metadata come back from the store as they were saved
      exactly when every listed name is clean. */
  lemma TripleSurvives(s: StoreState, b: BackendStatus)
    requires AvailableModels !in HashOf(s, b.id)
    ensures TripleOf(Load(Saved(s, b, 0.0), b.id)) == TripleOf(b) <==> AllClean(b.models) && AllClean(b.loadedModels)
  {
    hide Load, Saved, Pieces, Normalise;
    LoadedTriple(s, b);
    PiecesClean(b.models);
    PiecesClean(b.loadedModels);
    if AllClean(b.models) { PiecesOfClean(b.models); }
    if AllClean(b.loadedModels) { PiecesOfClean(b.loadedModels); }
  }

  /** A record that is well formed when saved is well formed when loaded if and
      only if none of its model names has a comma, and only then are its lists
      those that were saved. */
  lemma GoodTripleSurvives(s: StoreState, b: BackendStatus)
    requires AvailableModels !in HashOf(s, b.id) && GoodTriple(TripleOf(b))
    ensures var loaded := TripleOf(Load(Saved(s, b, 0.0), b.id));
            && (GoodTriple(loaded) <==> CommaFree(TripleOf(b)))
            && (loaded == TripleOf(b) <==> CommaFree(TripleOf(b)))
  {
    hide GoodTriple, CommaFree, Load, Saved, AsStored, TripleOf, Normalise;
    LoadedTriple(s, b);
    SurvivesUncut(TripleOf(b));
  }

  // ---- What every step keeps ----

  /** A record as the tasks and the store hold them: an id, a trimmed address,
      and a triple that is empty or what the store holds of one poll of that
      backend. */
  ghost predicate RecordOk(fetched: set<(string, Triple)>, b: BackendStatus) {
    && b.id != ""
    && b.address != "" && Trimmed(b.address)
    && (TripleOf(b) == EMPTY || (b.id, TripleOf(b)) in fetched)
  }

  ghost predicate FetchedOk(fetched: set<(string, Triple)>) {
    forall p | p in fetched :: exists ping: Ping | ping.Reached? :: p.1 == AsStored(Fetched(ping))
  }

  ghost predicate StoreOk(s: StoreState, fetched: set<(string, Triple)>) {
    && Consistent(s)
    && forall id | id in s.hashes :: AvailableModels !in s.hashes[id] && RecordOk(fetched, Load(s, id))
  }

  ghost predicate TaskOk(task: Task, fetched: set<(string, Triple)>) {
    match task
    case Reading(_, todo, got) =>
      (forall b | b in got :: RecordOk(fetched, b)) && Increasing(Ids(got) + todo)
    case Registering(existing, defs, _, next) =>
      && next <= |defs| && ValidDefs(defs[..next])
      && forall id | id in existing :: existing[id].id == id && RecordOk(fetched, existing[id])
    case Syncing(queue) => (forall b | b in queue :: RecordOk(fetched, b)) && Increasing(Ids(queue))
    case Answered(statuses) => (forall b | b in statuses :: RecordOk(fetched, b)) && Increasing(Ids(statuses))
    case _ => true
  }

  ghost predicate Inv(w: World) {
    && FetchedOk(w.fetched)
    && StoreOk(w.store, w.fetched)
    && forall t | t in w.tasks :: TaskOk(w.tasks[t], w.fetched)
  }

  /** Normalising changes nothing in an acceptable record but tags, weights and
      the fraction of its time stamp. */
  lemma NormaliseKeepsOk(fetched: set<(string, Triple)>, b: BackendStatus)
    requires FetchedOk(fetched) && RecordOk(fetched, b)
    ensures RecordOk(fetched, Normalise(b)) && TripleOf(Normalise(b)) == TripleOf(b)
  {
    hide Pieces, TrimSpace, Fetched;
    if TripleOf(b) == EMPTY {
      assert Pieces([]) == [] by { PiecesOfClean([]); }
    } else {
      var p := (b.id, TripleOf(b));
      var ping: Ping :| ping.Reached? && p.1 == AsStored(Fetched(ping));
      AsStoredTwice(Fetched(ping));
    }
  }

  lemma SaveKeepsStore(s: StoreState, fetched: set<(string, Triple)>, b: BackendStatus)
    requires StoreOk(s, fetched) && RecordOk(fetched, Normalise(b))
    ensures StoreOk(Saved(s, b, 0.0), fetched)
  {
    hide Fields, Populate, Normalise, RecordOk, Decode, TripleOf, AsStored;
    var r := Saved(s, b, 0.0);
    assert b.id != "" by { RecordHasID(fetched, b); }
    FieldsNames(b);
    LoadedTriple(s, b);
    forall id | id in r.hashes
      ensures id != "" && r.hashes[id] != map[] && r.index[id] == 0.0
      ensures AvailableModels !in r.hashes[id] && RecordOk(fetched, Load(r, id))
    {
      if id != b.id { assert Load(r, id) == Load(s, id); }
    }
  }

  lemma RecordHasID(fetched: set<(string, Triple)>, b: BackendStatus)
    requires RecordOk(fetched, Normalise(b))
    ensures b.id != ""
  {
    hide TrimSpace, Pieces;
  }

  lemma FieldsNames(b: BackendStatus)
    ensures Address in Fields(b) && AvailableModels !in Fields(b)
  {
  }

  lemma DeleteKeepsStore(s: StoreState, fetched: set<(string, Triple)>, id: string)
    requires StoreOk(s, fetched)
    ensures StoreOk(Deleted(s, id), fetched)
  {
    hide RecordOk, Populate;
  }

  lemma GrowFetched(w: World, more: set<(string, Triple)>)
    requires Inv(w) && FetchedOk(more) && w.fetched <= more
    ensures Inv(w.(fetched := more))
  {
    hide Load, Consistent, FetchedOk, ValidDefs;
  }

  /** Every step keeps the invariant. */
  lemma NextKeepsInv(w: World, e: Event)
    requires Inv(w)
    ensures Inv(Next(w, e))
  {
    hide Inv, Next;
    match e
    case StartListing(t, purpose) => StartListingKeeps(w, t, purpose);
    case ReadNext(t) => ReadNextKeeps(w, t);
    case EndListing(t) => EndListingKeeps(w, t);
    case SaveNext(t) => SaveNextKeeps(w, t);
    case DeleteOne(t, id) => DeleteOneKeeps(w, t, id);
    case StartSyncByID(t, id) => StartSyncByIDKeeps(w, t, id);
    case SyncNext(t, poll) => SyncNextKeeps(w, t, poll);
    case Crash(t) => CrashKeeps(w, t);
  }

  lemma CrashKeeps(w: World, t: nat)
    requires Inv(w)
    ensures Inv(Next(w, Crash(t)))
  {
    hide StoreOk, FetchedOk, RecordOk, ValidDefs;
  }

  lemma StartListingKeeps(w: World, t: nat, purpose: Purpose)
    requires Inv(w)
    ensures Inv(Next(w, StartListing(t, purpose)))
  {
    hide RecordOk, Load, FetchedOk, ValidDefs, ZRange, Ascending, TaskOk;
    RangeIsOk(w, purpose);
  }

  lemma RangeIsOk(w: World, purpose: Purpose)
    requires Consistent(w.store)
    ensures TaskOk(Reading(purpose, ZRange(w.store.index), []), w.fetched)
  {
    hide ZRange, RecordOk, Increasing;
    RangeIncreasing(w.store);
    assert Ids([]) + ZRange(w.store.index) == ZRange(w.store.index);
  }

  /** Reading the next id, present or gone, keeps the ids in order. */
  lemma LineAfter(got: seq<BackendStatus>, todo: seq<string>, b: BackendStatus)
    requires Increasing(Ids(got) + todo) && todo != []
    ensures Increasing(Ids(got) + todo[1..])
    ensures b.id == todo[0] ==> Increasing(Ids(got + [b]) + todo[1..])
  {
    hide Less;
    var line := Ids(got) + todo;
    assert Ids(got) + todo[1..] == line[..|got|] + line[|got| + 1..];
    assert b.id == todo[0] ==> Ids(got + [b]) + todo[1..] == line;
  }

  lemma ReadNextKeeps(w: World, t: nat)
    requires Inv(w)
    ensures Inv(Next(w, ReadNext(t)))
  {
    hide RecordOk, FetchedOk, ValidDefs, Populate, Increasing, Ids;
    if t in w.tasks && w.tasks[t].Reading? && w.tasks[t].todo != [] {
      var r := w.tasks[t];
      var b := Load(w.store, r.todo[0]);
      if b.id != "" { LoadPresent(w.store, r.todo[0]); }
      LineAfter(r.got, r.todo, b);
    }
  }

  lemma EndListingKeeps(w: World, t: nat)
    requires Inv(w)
    ensures Inv(Next(w, EndListing(t)))
  {
    hide RecordOk, FetchedOk, StoreOk;
    if t in w.tasks && w.tasks[t].Reading? && w.tasks[t].todo == [] {
      var got := w.tasks[t].got;
      ByIDValues(got);
      assert Ids(got) + [] == Ids(got);
    }
  }

  lemma {:induction false} ByIDValues(statuses: seq<BackendStatus>)
    ensures forall id | id in ByID(statuses) :: ByID(statuses)[id] in statuses && ByID(statuses)[id].id == id
  {
    if statuses != [] { ByIDValues(statuses[..|statuses| - 1]); }
  }

  lemma SaveNextKeeps(w: World, t: nat)
    requires Inv(w)
    ensures Inv(Next(w, SaveNext(t)))
  {
    hide FetchedOk, StoreOk, Saved, Registered, RecordOk, ValidDefs, DefinedIDs, Increasing, Ids;
    if t in w.tasks && w.tasks[t].Registering? {
      var r := w.tasks[t];
      if r.next < |r.defs| && ValidDefs(r.defs[..r.next + 1]) {
        RegisteredIsOk(w.fetched, r, r.defs[r.next]);
        NormaliseKeepsOk(w.fetched, Registered(r.existing, r.defs[r.next], r.now));
        SaveKeepsStore(w.store, w.fetched, Registered(r.existing, r.defs[r.next], r.now));
      }
    }
  }

  lemma RegisteredIsOk(fetched: set<(string, Triple)>, r: Task, def: BackendDefinition)
    requires r.Registering? && r.next < |r.defs| && def == r.defs[r.next] && ValidDefs(r.defs[..r.next + 1])
    requires TaskOk(r, fetched)
    ensures RecordOk(fetched, Registered(r.existing, def, r.now))
  {
    hide TrimSpace;
    assert r.defs[..r.next + 1][r.next] == def;
    assert DefID(def) != "" && DefAddress(def) != "";
    assert DefID(def) in r.existing ==> RecordOk(fetched, r.existing[DefID(def)]);
  }

  lemma DeleteOneKeeps(w: World, t: nat, id: string)
    requires Inv(w)
    ensures Inv(Next(w, DeleteOne(t, id)))
  {
    hide RecordOk, FetchedOk, StoreOk, Deleted;
    DeleteKeepsStore(w.store, w.fetched, id);
  }

  lemma StartSyncByIDKeeps(w: World, t: nat, backendID: string)
    requires Inv(w)
    ensures Inv(Next(w, StartSyncByID(t, backendID)))
  {
    hide RecordOk, FetchedOk, Populate, TrimSpace;
  }

  /** A record that was read and then polled is acceptable once it is stored. */
  lemma SyncedIsOk(fetched: set<(string, Triple)>, more: set<(string, Triple)>, b: BackendStatus, poll: Poll)
    requires RecordOk(fetched, b) && fetched <= more && FetchedOk(more)
    requires poll.ping.Reached? ==> (b.id, AsStored(Fetched(poll.ping))) in more
    ensures RecordOk(more, Normalise(Synced(b, poll)))
  {
    hide Fetched, Pieces, FetchedOk, TrimSpace;
    if poll.ping.Reached? {
      assert TripleOf(Normalise(Synced(b, poll))) == AsStored(Fetched(poll.ping));
      TrimmedStays(b.address);
    } else {
      NormaliseKeepsOk(more, Synced(b, poll));
    }
  }

  lemma SyncNextKeeps(w: World, t: nat, poll: Poll)
    requires Inv(w)
    ensures Inv(Next(w, SyncNext(t, poll)))
  {
    hide StoreOk, Saved, Fetched, TrimSpace, AsStored, Synced, RecordOk, Normalise, Increasing, Ids;
    if t in w.tasks && w.tasks[t].Syncing? && w.tasks[t].queue != [] {
      var q := w.tasks[t].queue;
      if TrimSpace(q[0].address) != "" {
        var seen := if poll.ping.Reached? then {(q[0].id, AsStored(Fetched(poll.ping)))} else {};
        var more := w.fetched + seen;
        GrowFetched(w, more);
        assert RecordOk(w.fetched, q[0]);
        SyncedIsOk(w.fetched, more, q[0], poll);
        SaveKeepsStore(w.store, more, Synced(q[0], poll));
        TailIncreasing(q);
      }
    }
  }

  lemma TailIncreasing(queue: seq<BackendStatus>)
    requires Increasing(Ids(queue)) && queue != []
    ensures Increasing(Ids(queue[1..]))
  {
    hide Less;
    assert Ids(queue[1..]) == Ids(queue)[1..];
  }

  /** The invariant holds all along every run. */
  lemma {:induction false} RunKeepsInv(ws: seq<World>, es: seq<Event>, n: nat)
    requires IsRun(ws, es) && n < |ws|
    ensures Inv(ws[n])
  {
    hide Next, Inv;
    if n == 0 {
      assert Inv(START) by { StartIsInv(); }
    } else {
      RunKeepsInv(ws, es, n - 1);
      NextKeepsInv(ws[n - 1], es[n - 1]);
    }
  }

  lemma StartIsInv()
    ensures Inv(START)
  {
  }
}
