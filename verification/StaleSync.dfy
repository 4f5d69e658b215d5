/** A run in which a sync brings a backend back for good: a finished
    registration need not leave exactly the defined backends when a sync is
    under way. */
module StaleSync {
  import opened Text
  import opened Ordering
  import opened ListCodec
  import opened Records
  import opened Fetch
  import opened RedisStore
  import opened Registry
  import opened Interleaving
  import opened Runs
  import Reconciliation

  const DEF := BackendDefinition("a", "host", [], 1)
  const RECORD := Registered(map[], DEF, 0)
  const STORED := Saved(EMPTY_STORE, RECORD, 0.0)
  const SNAPSHOT := Load(STORED, "a")
  const POLL := Poll(Failed, 0, 0)

  const FIRST := ForRegister([DEF], 0)
  const SECOND := ForRegister([], 1)

  function Alone(store: StoreState, task: Task): World {
    World(store, map[0 := task], {})
  }

  function Late(store: StoreState, sync: Task, task: Task): World {
    World(store, map[0 := Finished, 1 := sync, 2 := task], {})
  }

  function W1(): World { Alone(EMPTY_STORE, Reading(FIRST, [], [])) }
  function W2(): World { Alone(EMPTY_STORE, Registering(map[], [DEF], 0, 0)) }
  function W3(): World { Alone(STORED, Registering(map[], [DEF], 0, 1)) }
  function W4(): World { Alone(STORED, Pruning([DEF], {})) }
  function W5(): World { Alone(STORED, Finished) }
  function W6(): World { World(STORED, map[0 := Finished, 1 := Syncing([SNAPSHOT])], {}) }
  function W7(): World { Late(STORED, Syncing([SNAPSHOT]), Reading(SECOND, ["a"], [])) }
  function W8(): World { Late(STORED, Syncing([SNAPSHOT]), Reading(SECOND, [], [SNAPSHOT])) }
  function W9(): World { Late(STORED, Syncing([SNAPSHOT]), Registering(map["a" := SNAPSHOT], [], 1, 0)) }
  function W10(): World { Late(STORED, Syncing([SNAPSHOT]), Pruning([], {"a"})) }
  function W11(): World { Late(EMPTY_STORE, Syncing([SNAPSHOT]), Pruning([], {})) }
  function W12(): World { Late(EMPTY_STORE, Syncing([SNAPSHOT]), Finished) }
  function W13(): World { Late(Saved(EMPTY_STORE, Synced(SNAPSHOT, POLL), 0.0), Syncing([]), Finished) }

  lemma Trims()
    ensures TrimSpace("a") == "a" && TrimSpace("host") == "host"
  {
  }

  lemma DefIsValid()
    ensures ValidDefs([DEF]) && DefID(DEF) == "a" && DefAddress(DEF) == "host" && RECORD.id == "a"
  {
  }

  lemma SnapshotFacts()
    ensures SNAPSHOT.id == "a" && SNAPSHOT.address == "host"
    ensures STORED.hashes.Keys == {"a"} == STORED.index.Keys
  {
    hide TrimSpace, Fields, Decode;
    DefIsValid();
    Trims();
    assert STORED.hashes == map["a" := map[] + Fields(RECORD)];
    assert Fields(RECORD)[Address] == Raw("host") by { FieldsAddress(RECORD); }
  }

  lemma FieldsAddress(b: BackendStatus)
    ensures Address in Fields(b) && Fields(b)[Address] == Raw(b.address)
  {
  }

  lemma StoredRange()
    ensures ZRange(STORED.index) == ["a"]
  {
    hide ZRange, Ascending, Fields, Load;
    SnapshotFacts();
    ZRangeFlat(STORED.index, 0.0);
    AscendingIs(["a"], {"a"});
  }

  lemma FirstSteps()
    ensures Next(START, StartListing(0, FIRST)) == W1()
    ensures Next(W1(), EndListing(0)) == W2()
  {
  }

  lemma FirstSave()
    ensures Next(W2(), SaveNext(0)) == W3()
  {
    hide TrimSpace, Fields, Registered, Saved, ValidDefs;
    DefIsValid();
    assert [DEF][..1] == [DEF];
  }

  lemma FirstEnds()
    ensures Next(W3(), SaveNext(0)) == W4()
    ensures Next(W4(), DeleteOne(0, "")) == W5()
  {
    hide STORED, DefinedIDs;
    ghost var none: map<string, BackendStatus> := map[];
    assert none.Keys - DefinedIDs([DEF]) == {};
  }

  lemma SyncReads()
    ensures Next(W5(), StartSyncByID(1, "a")) == W6()
  {
    hide STORED, Load, TrimSpace;
    Trims();
    SnapshotFacts();
  }

  lemma LateTasks(store: StoreState, sync: Task, a: Task, b: Task)
    ensures var w := Late(store, sync, a);
            && w.store == store && w.fetched == {} && 1 in w.tasks && 2 in w.tasks && w.tasks[1] == sync && w.tasks[2] == a
            && Put(w, 2, b) == Late(store, sync, b) && Put(w, 1, b) == Late(store, b, a)
  {
  }

  lemma SecondReads()
    ensures Next(W6(), StartListing(2, SECOND)) == W7()
    ensures Next(W7(), ReadNext(2)) == W8()
  {
    hide STORED, Load, ZRange;
    SnapshotFacts();
    StoredRange();
    LateTasks(STORED, Syncing([SNAPSHOT]), Reading(SECOND, ["a"], []), Reading(SECOND, [], [SNAPSHOT]));
    assert ["a"][1..] == [] && [] + [SNAPSHOT] == [SNAPSHOT];
  }

  lemma SecondListed()
    ensures Next(W8(), EndListing(2)) == W9()
    ensures Next(W9(), SaveNext(2)) == W10()
  {
    SnapshotFacts();
    hide STORED, SNAPSHOT, ValidDefs, Late;
    var known := map["a" := SNAPSHOT];
    LateTasks(STORED, Syncing([SNAPSHOT]), Reading(SECOND, [], [SNAPSHOT]), Registering(known, [], 1, 0));
    LateTasks(STORED, Syncing([SNAPSHOT]), Registering(known, [], 1, 0), Pruning([], {"a"}));
    assert ByID([SNAPSHOT][..0]) == map[];
    assert ByID([SNAPSHOT]) == known;
    assert known.Keys - DefinedIDs([]) == {"a"};
  }

  lemma SecondEnds()
    ensures Next(W10(), DeleteOne(2, "a")) == W11()
    ensures Next(W11(), DeleteOne(2, "")) == W12()
  {
    SnapshotFacts();
    hide STORED, SNAPSHOT, Late;
    LateTasks(STORED, Syncing([SNAPSHOT]), Pruning([], {"a"}), Pruning([], {}));
    LateTasks(EMPTY_STORE, Syncing([SNAPSHOT]), Pruning([], {}), Finished);
    assert Late(STORED, Syncing([SNAPSHOT]), Pruning([], {})).(store := EMPTY_STORE) ==
           Late(EMPTY_STORE, Syncing([SNAPSHOT]), Pruning([], {})) by { LateStore(STORED, EMPTY_STORE, Syncing([SNAPSHOT]), Pruning([], {})); }
    assert {"a"} - {"a"} == {};
    assert Deleted(STORED, "a") == EMPTY_STORE;
  }

  lemma LateSave()
    ensures Next(W12(), SyncNext(1, POLL)) == W13()
  {
    SnapshotFacts();
    Trims();
    hide TrimSpace, Saved, Synced, SNAPSHOT, STORED, Late;
    var saved := Saved(EMPTY_STORE, Synced(SNAPSHOT, POLL), 0.0);
    LateTasks(EMPTY_STORE, Syncing([SNAPSHOT]), Finished, Syncing([]));
    LateStore(EMPTY_STORE, saved, Syncing([]), Finished);
    assert [SNAPSHOT][1..] == [];
  }

  lemma LateStore(a: StoreState, b: StoreState, sync: Task, task: Task)
    ensures Late(a, sync, task).(store := b) == Late(b, sync, task)
  {
  }

  /** A run of `n` steps ending in `w`, the second registration starting with
      the seventh. */
  ghost predicate Reaches(ws: seq<World>, es: seq<Event>, n: nat, w: World) {
    && IsRun(ws, es) && |es| == n && ws[n] == w
    && (n >= 6 ==> ws[6] == W6() && OnlyRegistrar(es, 2, 6, n))
    && (n > 6 ==> es[6] == StartListing(2, SECOND))
  }

  lemma Extend(ws: seq<World>, es: seq<Event>, n: nat, w: World, e: Event, x: World) returns (xs: seq<World>, fs: seq<Event>)
    requires Reaches(ws, es, n, w) && Next(w, e) == x
    requires n == 5 ==> x == W6()
    requires n == 6 ==> e == StartListing(2, SECOND)
    requires n > 6 && (e.SaveNext? || e.DeleteOne?) ==> e.t == 2
    ensures Reaches(xs, fs, n + 1, x)
  {
    hide Next, W6;
    xs, fs := ws + [x], es + [e];
  }

  /** The server registers "a"; the worker reads it for a sync; the server
      starts again with no backend defined, and that registration finishes; only
      then does the sync save what it read. "a" is stored at the end. */
  lemma LeftoverIsPossible() returns (ws: seq<World>, es: seq<Event>)
    ensures IsRun(ws, es) && Registration(ws, es, 2, SECOND.defs, SECOND.now, 6, 13) && OnlyRegistrar(es, 2, 6, 13)
    ensures Present(ws, 13, "a") && "a" !in DefinedIDs(SECOND.defs)
  {
    hide Next, Reaches, W1, W2, W3, W4, W5, W6, W7, W8, W9, W10, W11, W12, W13;
    ws, es := [START], [];
    assert Reaches(ws, es, 0, START) by { StartReached(); }
    FirstSteps();
    ws, es := Extend(ws, es, 0, START, StartListing(0, FIRST), W1());
    ws, es := Extend(ws, es, 1, W1(), EndListing(0), W2());
    FirstSave();
    ws, es := Extend(ws, es, 2, W2(), SaveNext(0), W3());
    FirstEnds();
    ws, es := Extend(ws, es, 3, W3(), SaveNext(0), W4());
    ws, es := Extend(ws, es, 4, W4(), DeleteOne(0, ""), W5());
    SyncReads();
    ws, es := Extend(ws, es, 5, W5(), StartSyncByID(1, "a"), W6());
    SecondReads();
    ws, es := Extend(ws, es, 6, W6(), StartListing(2, SECOND), W7());
    ws, es := Extend(ws, es, 7, W7(), ReadNext(2), W8());
    SecondListed();
    ws, es := Extend(ws, es, 8, W8(), EndListing(2), W9());
    ws, es := Extend(ws, es, 9, W9(), SaveNext(2), W10());
    SecondEnds();
    ws, es := Extend(ws, es, 10, W10(), DeleteOne(2, "a"), W11());
    ws, es := Extend(ws, es, 11, W11(), DeleteOne(2, ""), W12());
    LateSave();
    ws, es := Extend(ws, es, 12, W12(), SyncNext(1, POLL), W13());
    Reached(ws, es);
  }

  lemma StartReached()
    ensures Reaches([START], [], 0, START)
  {
    hide START;
  }

  lemma Reached(ws: seq<World>, es: seq<Event>)
    requires Reaches(ws, es, 13, W13())
    ensures IsRun(ws, es) && Registration(ws, es, 2, SECOND.defs, SECOND.now, 6, 13) && OnlyRegistrar(es, 2, 6, 13)
    ensures Present(ws, 13, "a") && "a" !in DefinedIDs(SECOND.defs)
  {
    LastWorld();
    hide Next, W6, W13;
  }

  lemma LastWorld()
    ensures 2 !in W6().tasks && 2 in W13().tasks && W13().tasks[2] == Finished
    ensures "a" in W13().store.hashes
  {
    hide Fields, STORED, SNAPSHOT;
    SnapshotFacts();
    Reconciliation.SyncedID(SNAPSHOT, POLL);
  }
}
