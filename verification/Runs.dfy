/** Theorems about whole runs of the interleaved registry. */
module Runs {
  import opened Text
  import opened Ordering
  import opened ListCodec
  import opened Records
  import opened Fetch
  import opened RedisStore
  import opened Routing
  import opened Registry
  import opened Interleaving
  import Reconciliation

  // ---- Stored triples come from one poll ----

  /** Step `k` polls backend `id` successfully and gets `triple`. */
  ghost predicate PolledAt(ws: seq<World>, es: seq<Event>, k: nat, id: string, triple: Triple)
    requires k < |es| == |ws| - 1
  {
    && es[k].SyncNext? && es[k].poll.ping.Reached?
    && es[k].t in ws[k].tasks && ws[k].tasks[es[k].t].Syncing?
    && var queue := ws[k].tasks[es[k].t].queue;
       queue != [] && queue[0].id == id && Fetched(es[k].poll.ping) == triple
  }

  lemma {:induction false} FetchedWasPolled(ws: seq<World>, es: seq<Event>, n: nat, id: string, kept: Triple)
    requires IsRun(ws, es) && n < |ws| && (id, kept) in ws[n].fetched
    ensures exists k: nat, t | k < n :: PolledAt(ws, es, k, id, t) && kept == AsStored(t)
  {
    hide Fetched, Saved, Load, ZRange, ValidDefs, TrimSpace, Registered, Synced, AsStored;
    assert n > 0;
    var m := n - 1;
    assert ws[n] == Next(ws[m], es[m]);
    if (id, kept) in ws[m].fetched {
      FetchedWasPolled(ws, es, m, id, kept);
      var k: nat, t :| k < m && PolledAt(ws, es, k, id, t) && kept == AsStored(t);
      assert k < n;
    } else {
      assert PolledAt(ws, es, m, id, Fetched(es[m].poll.ping));
    }
  }

  /** In every interleaving, the model lists and metadata a backend's record
      holds are all empty or all from one poll of that backend, the lists cut at
      commas. They are that poll's own, and the metadata names exactly the
      installed and the loaded models, if and only if the poll named no model
      with a comma. */
  lemma StoredTripleFromOnePoll(ws: seq<World>, es: seq<Event>, n: nat, id: string)
    requires IsRun(ws, es) && n < |ws| && id in ws[n].store.hashes
    ensures var stored := TripleOf(Load(ws[n].store, id));
            stored == EMPTY || exists k: nat, t | k < n ::
              && PolledAt(ws, es, k, id, t)
              && stored == AsStored(t)
              && (stored == t <==> CommaFree(t))
              && (GoodTriple(stored) <==> CommaFree(t))
  {
    hide Load, Fetched, Next, START, AsStored, CommaFree, GoodTriple;
    RunKeepsInv(ws, es, n);
    var b := Load(ws[n].store, id);
    LoadPresent(ws[n].store, id);
    assert RecordOk(ws[n].fetched, b);
    if TripleOf(b) != EMPTY {
      FetchedWasPolled(ws, es, n, id, TripleOf(b));
      var k: nat, t :| k < n && PolledAt(ws, es, k, id, t) && TripleOf(b) == AsStored(t);
      FetchedIsGood(es[k].poll.ping);
      SurvivesUncut(t);
    }
  }

  /** An acceptable record's triple is what the store holds of a well-formed
      one. */
  lemma RecordTriple(fetched: set<(string, Triple)>, b: BackendStatus) returns (t: Triple)
    requires FetchedOk(fetched) && RecordOk(fetched, b)
    ensures GoodTriple(t) && TripleOf(b) == AsStored(t)
  {
    hide Fetched, Pieces;
    if TripleOf(b) == EMPTY {
      PiecesOfClean([]);
      t := EMPTY;
    } else {
      var p := (b.id, TripleOf(b));
      var ping: Ping :| ping.Reached? && p.1 == AsStored(Fetched(ping));
      FetchedIsGood(ping);
      t := Fetched(ping);
    }
  }

  // ---- Index, hashes and listings ----

  /** In every interleaving the sorted set and the hashes name the same
      backends, all scores are zero, and every stored address is non-blank. */
  lemma IndexAgrees(ws: seq<World>, es: seq<Event>, n: nat)
    requires IsRun(ws, es) && n < |ws|
    ensures forall id :: id in ws[n].store.index <==> id in ws[n].store.hashes
    ensures forall id | id in ws[n].store.hashes :: id != "" && ws[n].store.hashes[id] != map[] && ws[n].store.index[id] == 0.0
    ensures forall id | id in ws[n].store.hashes :: TrimSpace(Load(ws[n].store, id).address) != ""
    ensures forall id | id in ws[n].store.hashes :: AvailableModels !in ws[n].store.hashes[id]
  {
    hide Load, FetchedOk, IsRun;
    RunKeepsInv(ws, es, n);
    forall id | id in ws[n].store.hashes ensures TrimSpace(Load(ws[n].store, id).address) != "" {
      assert RecordOk(ws[n].fetched, Load(ws[n].store, id));
    }
  }

  /** The records a listing or a sync has read and not yet given up. */
  function Held(task: Task): seq<BackendStatus> {
    match task
    case Reading(_, _, got) => got
    case Syncing(queue) => queue
    case Answered(statuses) => statuses
    case _ => []
  }

  /** At step `k` task `t` reads backend `b.id` and finds it as `b`. */
  ghost predicate ReadAt(ws: seq<World>, es: seq<Event>, k: nat, t: nat, b: BackendStatus)
    requires k < |es| == |ws| - 1
  {
    && b.id in ws[k].store.hashes && b == Load(ws[k].store, b.id)
    && match es[k]
       case ReadNext(u) => u == t && t in ws[k].tasks && ws[k].tasks[t].Reading?
       case StartSyncByID(u, _) => u == t && t !in ws[k].tasks
       case _ => false
  }

  /** Whatever a task holds was in the store, exactly so, at a moment during
      that task. */
  lemma {:induction false} HeldWasRead(ws: seq<World>, es: seq<Event>, n: nat, t: nat, b: BackendStatus)
    requires IsRun(ws, es) && n < |ws| && t in ws[n].tasks && b in Held(ws[n].tasks[t])
    ensures exists k: nat | k < n :: ReadAt(ws, es, k, t, b)
  {
    hide Fetched, Saved, Load, ZRange, ValidDefs, TrimSpace, Registered, Synced;
    assert n > 0;
    var m := n - 1;
    assert ws[n] == Next(ws[m], es[m]);
    if t in ws[m].tasks && b in Held(ws[m].tasks[t]) {
      HeldWasRead(ws, es, m, t, b);
      var k: nat :| k < m && ReadAt(ws, es, k, t, b);
      assert k < n;
    } else {
      NewlyHeld(ws[m], es[m], t, b);
      assert ReadAt(ws, es, m, t, b);
    }
  }

  lemma NewlyHeld(w: World, e: Event, t: nat, b: BackendStatus)
    requires t in Next(w, e).tasks && b in Held(Next(w, e).tasks[t])
    requires !(t in w.tasks && b in Held(w.tasks[t]))
    ensures b.id in w.store.hashes && b == Load(w.store, b.id)
    ensures match e
            case ReadNext(u) => u == t && t in w.tasks && w.tasks[t].Reading?
            case StartSyncByID(u, _) => u == t && t !in w.tasks
            case _ => false
  {
    hide Fetched, Saved, ZRange, ValidDefs, TrimSpace, Registered, Synced, Populate;
    match e
    case ReadNext(u) => LoadedHasID(w.store, w.tasks[u].todo[0]);
    case StartSyncByID(u, x) => LoadedHasID(w.store, TrimSpace(x));
    case _ =>
  }

  lemma LoadedHasID(s: StoreState, id: string)
    ensures Load(s, id).id != "" ==> Load(s, id).id == id && id in s.hashes
  {
  }

  /** A completed listing has strictly increasing ids, and each of its records
      was in the store at some moment of the call. */
  lemma AnswerWasRead(ws: seq<World>, es: seq<Event>, n: nat, t: nat)
    requires IsRun(ws, es) && n < |ws| && t in ws[n].tasks && ws[n].tasks[t].Answered?
    ensures var all := ws[n].tasks[t].statuses;
            && Increasing(Ids(all))
            && forall b | b in all :: exists k: nat | k < n :: ReadAt(ws, es, k, t, b)
  {
    hide FetchedOk, StoreOk, RecordOk, Increasing, ReadAt, Ids, Next, START;
    RunKeepsInv(ws, es, n);
    forall b | b in ws[n].tasks[t].statuses ensures exists k: nat | k < n :: ReadAt(ws, es, k, t, b) {
      HeldWasRead(ws, es, n, t, b);
    }
  }

  /** In every interleaving, routing over a completed listing picks the record
      of smallest id among the eligible ones of the best tier. */
  lemma RoutePicksLeastId(ws: seq<World>, es: seq<Event>, n: nat, t: nat, model: string, i: nat)
    requires IsRun(ws, es) && n < |ws| && t in ws[n].tasks && ws[n].tasks[t].Answered?
    requires i < |ws[n].tasks[t].statuses|
    ensures var all := ws[n].tasks[t].statuses;
            Best(all, model, i) <==>
              && Eligible(all[i])
              && forall s | s in all && Eligible(s) ::
                   || Tier(all[i], model) < Tier(s, model)
                   || (Tier(all[i], model) == Tier(s, model) && (s == all[i] || Less(all[i].id, s.id)))
  {
    hide ReadAt, Best, Eligible, Tier, Next, START, Less, IsRun;
    AnswerWasRead(ws, es, n, t);
    var all := ws[n].tasks[t].statuses;
    assert forall a | 0 <= a < |all| :: Ids(all)[a] == all[a].id;
    BestIsLeastId(all, model, i);
  }

  // ---- What a sync writes ----

  /** In every interleaving, a sync step saves what its poll found: the backend is
      healthy exactly when the poll was answered, with the poll's latency and
      time; an answered poll brings its models, an unanswered one keeps those of
      the record the task had read, and all else is that record's. */
  lemma SyncSavesPoll(ws: seq<World>, es: seq<Event>, k: nat)
    requires IsRun(ws, es) && k < |es| && es[k].SyncNext?
    requires es[k].t in ws[k].tasks && ws[k].tasks[es[k].t].Syncing? && ws[k].tasks[es[k].t].queue != []
    ensures var b, poll := ws[k].tasks[es[k].t].queue[0], es[k].poll;
            && (exists j: nat | j < k :: ReadAt(ws, es, j, es[k].t, b))
            && b.id in ws[k + 1].store.hashes
            && var a := Load(ws[k + 1].store, b.id);
               && a.id == b.id && a.address == b.address && a.tags == b.tags
               && (a.healthy <==> poll.ping.Reached?)
               && a.latencyMS == poll.latencyMS && a.updatedAt == poll.at - poll.at % 1_000_000_000
               && (poll.ping.Reached? ==> TripleOf(a) == AsStored(Fetched(poll.ping)))
               && (poll.ping.Failed? ==> TripleOf(a) == TripleOf(b))
  {
    hide Load, Saved, Fetched, Synced, Normalise, Pieces, START, RecordOk, TrimSpace, FetchedOk;
    var t, poll := es[k].t, es[k].poll;
    var b := ws[k].tasks[t].queue[0];
    HeldWasRead(ws, es, k, t, b);
    var j: nat :| j < k && ReadAt(ws, es, j, t, b);
    RunKeepsInv(ws, es, j);
    RunKeepsInv(ws, es, k);
    ReadIsNormal(ws[j].store, b.id);
    OkAddress(ws[k].fetched, b);
    assert ws[k + 1] == Next(ws[k], es[k]);
    NoLegacy(ws[k].store, ws[k].fetched, b.id);
    Reconciliation.SyncedID(b, poll);
    LoadedTriple(ws[k].store, Synced(b, poll));
    Reconciliation.PolledRecord(b, poll);
    SavedIsThere(ws[k].store, Synced(b, poll));
  }

  lemma ReadIsNormal(s: StoreState, id: string)
    requires Consistent(s) && id in s.hashes
    ensures Normalise(Load(s, id)) == Load(s, id)
  {
    hide Normalise, Populate;
    LoadedIsNormal(id, HashOf(s, id));
  }

  lemma OkAddress(fetched: set<(string, Triple)>, b: BackendStatus)
    requires RecordOk(fetched, b)
    ensures TrimSpace(b.address) != ""
  {
    TrimmedStays(b.address);
  }

  lemma NoLegacy(s: StoreState, fetched: set<(string, Triple)>, id: string)
    requires StoreOk(s, fetched)
    ensures AvailableModels !in HashOf(s, id)
  {
    hide RecordOk, Load;
  }

  lemma SavedIsThere(s: StoreState, b: BackendStatus)
    ensures b.id in Saved(s, b, 0.0).hashes
  {
  }

  /** In every interleaving, a task gives up only for cause: it crashed, or the
      next definition is missing a part or repeats an id or address, or the
      backend to sync is not stored. */
  lemma StopsOnlyForCause(ws: seq<World>, es: seq<Event>, k: nat, t: nat)
    requires IsRun(ws, es) && k < |es|
    requires t in ws[k + 1].tasks && ws[k + 1].tasks[t].Stopped?
    requires !(t in ws[k].tasks && ws[k].tasks[t].Stopped?)
    ensures match es[k]
            case Crash(u) => u == t
            case SaveNext(u) => u == t && t in ws[k].tasks && ws[k].tasks[t].Registering? && !ValidDefs(ws[k].tasks[t].defs)
            case StartSyncByID(u, x) => u == t && TrimSpace(x) !in ws[k].store.hashes
            case _ => false
  {
    hide Load, Saved, Fetched, Synced, ValidDefs, START, RecordOk, TrimSpace, FetchedOk, ZRange, Registered;
    RunKeepsInv(ws, es, k);
    assert ws[k + 1] == Next(ws[k], es[k]);
    match es[k]
    case SyncNext(u, _) =>
      if u == t && t in ws[k].tasks && ws[k].tasks[t].Syncing? && ws[k].tasks[t].queue != [] {
        OkAddress(ws[k].fetched, ws[k].tasks[t].queue[0]);
      }
    case SaveNext(u) =>
      if u == t && t in ws[k].tasks && ws[k].tasks[t].Registering? && ws[k].tasks[t].next < |ws[k].tasks[t].defs| {
        PrefixValid(ws[k].tasks[t].defs, ws[k].tasks[t].next + 1);
      }
    case StartSyncByID(_, x) => LoadedIfStored(ws[k].store, TrimSpace(x));
    case _ =>
  }

  lemma LoadedIfStored(s: StoreState, id: string)
    requires Consistent(s)
    ensures id in s.hashes ==> Load(s, id).id != ""
  {
  }

  lemma PrefixValid(defs: seq<BackendDefinition>, n: nat)
    requires n <= |defs|
    ensures ValidDefs(defs) ==> ValidDefs(defs[..n])
  {
    hide DefID, DefAddress;
  }

  // ---- Registration among running syncs ----

  ghost predicate Present(ws: seq<World>, k: nat, x: string)
    requires k < |ws|
  {
    x in ws[k].store.hashes
  }

  /** Between `z` and `e` only task `t` saves definitions or deletes. */
  ghost predicate OnlyRegistrar(es: seq<Event>, t: nat, z: nat, e: nat)
    requires e <= |es|
  {
    forall k | z <= k < e && (es[k].SaveNext? || es[k].DeleteOne?) :: es[k].t == t
  }

  /** Task `t` starts registering `defs` at step `z` and has finished by `e`. */
  ghost predicate Registration(ws: seq<World>, es: seq<Event>, t: nat, defs: seq<BackendDefinition>, now: Time, z: nat, e: nat)
    requires |ws| == |es| + 1
  {
    && z < e < |ws|
    && es[z] == StartListing(t, ForRegister(defs, now)) && t !in ws[z].tasks
    && t in ws[e].tasks && ws[e].tasks[t] == Finished
  }

  /** The last turn of `x` from present to absent, or from absent to present. */
  lemma {:induction false} Flip(ws: seq<World>, a: nat, c: nat, x: string) returns (k: nat)
    requires a < c < |ws| && Present(ws, a, x) != Present(ws, c, x)
    ensures a <= k < c && Present(ws, k, x) == Present(ws, a, x)
    ensures forall j: nat | k < j <= c :: Present(ws, j, x) == Present(ws, c, x)
    decreases c
  {
    k := c - 1;
    if Present(ws, k, x) != Present(ws, a, x) {
      k := Flip(ws, a, k, x);
    }
  }

  /** How far task `t` has come with `defs`, and that it still knows of `x`. */
  ghost predicate Tracks(w: World, t: nat, defs: seq<BackendDefinition>, now: Time, x: string) {
    && t in w.tasks
    && match w.tasks[t]
       case Reading(p, todo, got) => p == ForRegister(defs, now) && (x in todo || x in Ids(got))
       case Registering(existing, ds, _, _) => ds == defs && x in existing
       case Pruning(ds, doomed) => ds == defs && x in doomed
       case Stopped => true
       case _ => false
  }

  lemma TracksStep(w: World, e: Event, t: nat, defs: seq<BackendDefinition>, now: Time, x: string)
    requires Inv(w) && Tracks(w, t, defs, now, x) && x !in DefinedIDs(defs)
    requires x in w.store.hashes && x in Next(w, e).store.hashes
    ensures Tracks(Next(w, e), t, defs, now, x)
  {
    hide Fetched, Saved, ZRange, ValidDefs, TrimSpace, Registered, Synced, Load, RecordOk, FetchedOk, DefinedIDs, ByID, Ids, Inv;
    if e == ReadNext(t) {
      TracksRead(w, t, defs, now, x);
    } else if e == EndListing(t) && w.tasks[t].Reading? {
      ByIDKeys(w.tasks[t].got, x);
    }
  }

  lemma TracksRead(w: World, t: nat, defs: seq<BackendDefinition>, now: Time, x: string)
    requires Inv(w) && Tracks(w, t, defs, now, x) && x in w.store.hashes
    ensures Tracks(Next(w, ReadNext(t)), t, defs, now, x)
  {
    hide ZRange, Load, RecordOk, FetchedOk, DefinedIDs, Ids, Inv;
    if w.tasks[t].Reading? && w.tasks[t].todo != [] { ReadKeeps(w, t, x); }
  }

  /** Reading one id loses no backend that is stored. */
  lemma ReadKeeps(w: World, t: nat, x: string)
    requires Inv(w) && x in w.store.hashes
    requires t in w.tasks && w.tasks[t].Reading? && w.tasks[t].todo != []
    requires x in w.tasks[t].todo || x in Ids(w.tasks[t].got)
    ensures var r, b := w.tasks[t], Load(w.store, w.tasks[t].todo[0]);
            x in r.todo[1..] || x in Ids(if b.id == "" then r.got else r.got + [b])
  {
    hide Load, RecordOk, FetchedOk, Ids;
    var r := w.tasks[t];
    LoadPresent(w.store, x);
    LoadedHasID(w.store, r.todo[0]);
    IdsAppend(r.got, Load(w.store, r.todo[0]));
    assert r.todo == [r.todo[0]] + r.todo[1..];
  }

  lemma IdsAppend(got: seq<BackendStatus>, b: BackendStatus)
    ensures Ids(got + [b]) == Ids(got) + [b.id]
  {
  }

  lemma {:induction false} ByIDKeys(got: seq<BackendStatus>, x: string)
    ensures x in ByID(got) <==> x in Ids(got)
  {
    if got != [] {
      var n := |got| - 1;
      ByIDKeys(got[..n], x);
      assert got == got[..n] + [got[n]];
      IdsAppend(got[..n], got[n]);
    }
  }

  /** A backend that stays in the store from the start of a registration is
      still on its books. */
  lemma {:induction false} TracksThrough(ws: seq<World>, es: seq<Event>, t: nat, defs: seq<BackendDefinition>, now: Time, z: nat, k: nat, x: string)
    requires IsRun(ws, es) && z < k < |ws|
    requires es[z] == StartListing(t, ForRegister(defs, now)) && t !in ws[z].tasks
    requires x !in DefinedIDs(defs) && forall j: nat | z <= j <= k :: Present(ws, j, x)
    ensures Tracks(ws[k], t, defs, now, x)
    decreases k
  {
    hide Next, Tracks, Inv, DefinedIDs;
    assert ws[k] == Next(ws[k - 1], es[k - 1]);
    RunKeepsInv(ws, es, k - 1);
    assert Present(ws, k - 1, x) && Present(ws, k, x);
    if k - 1 == z {
      TracksStart(ws[z], t, defs, now, x);
    } else {
      TracksThrough(ws, es, t, defs, now, z, k - 1, x);
      TracksStep(ws[k - 1], es[k - 1], t, defs, now, x);
    }
  }

  lemma TracksStart(w: World, t: nat, defs: seq<BackendDefinition>, now: Time, x: string)
    requires Inv(w) && t !in w.tasks && x in w.store.hashes
    ensures Tracks(Next(w, StartListing(t, ForRegister(defs, now))), t, defs, now, x)
  {
    hide ZRange, RecordOk, FetchedOk, Load;
    ZRangeMembers(w.store.index, x);
  }

  /** A reader that has `x` on its list or has read it. */
  ghost predicate Lists(w: World, t: nat, x: string) {
    && t in w.tasks
    && match w.tasks[t]
       case Reading(p, todo, got) => p == ForRead && (x in todo || x in Ids(got))
       case Answered(statuses) => x in Ids(statuses)
       case Stopped => true
       case _ => false
  }

  lemma ListsStep(w: World, e: Event, t: nat, x: string)
    requires Inv(w) && Lists(w, t, x) && x in w.store.hashes
    ensures Lists(Next(w, e), t, x)
  {
    hide Fetched, Saved, ZRange, ValidDefs, TrimSpace, Registered, Synced, Load, DefinedIDs, ByID, Ids, Inv, AsStored;
    if e == ReadNext(t) && w.tasks[t].Reading? && w.tasks[t].todo != [] { ReadKeeps(w, t, x); }
  }

  lemma ListsStart(w: World, t: nat, x: string)
    requires Inv(w) && t !in w.tasks && x in w.store.hashes
    ensures Lists(Next(w, StartListing(t, ForRead)), t, x)
  {
    hide ZRange, RecordOk, FetchedOk, Load;
    ZRangeMembers(w.store.index, x);
  }

  lemma {:induction false} ListsThrough(ws: seq<World>, es: seq<Event>, z: nat, n: nat, t: nat, x: string)
    requires IsRun(ws, es) && z < n < |ws|
    requires es[z] == StartListing(t, ForRead) && t !in ws[z].tasks
    requires forall j: nat | z <= j < n :: Present(ws, j, x)
    ensures Lists(ws[n], t, x)
    decreases n
  {
    hide Next, Lists, Inv;
    assert ws[n] == Next(ws[n - 1], es[n - 1]) && Present(ws, n - 1, x);
    RunKeepsInv(ws, es, n - 1);
    if n - 1 == z {
      ListsStart(ws[z], t, x);
    } else {
      ListsThrough(ws, es, z, n - 1, t, x);
      ListsStep(ws[n - 1], es[n - 1], t, x);
    }
  }

  /** A backend that is stored all through a listing is in its answer. */
  lemma StoredThroughoutIsListed(ws: seq<World>, es: seq<Event>, z: nat, n: nat, t: nat, x: string)
    requires IsRun(ws, es) && z < n < |ws|
    requires es[z] == StartListing(t, ForRead) && t !in ws[z].tasks
    requires t in ws[n].tasks && ws[n].tasks[t].Answered?
    requires forall j: nat | z <= j < n :: Present(ws, j, x)
    ensures exists b | b in ws[n].tasks[t].statuses :: b.id == x
  {
    hide IsRun;
    ListsThrough(ws, es, z, n, t, x);
  }

  /** The definitions a registering task works through are the ones it started
      with. */
  ghost predicate WorksOn(w: World, t: nat, defs: seq<BackendDefinition>, now: Time) {
    && t in w.tasks
    && match w.tasks[t]
       case Reading(p, _, _) => p == ForRegister(defs, now)
       case Registering(_, ds, n, _) => ds == defs && n == now
       case Pruning(ds, _) => ds == defs
       case Finished => true
       case Stopped => true
       case _ => false
  }

  lemma {:induction false} WorksOnThrough(ws: seq<World>, es: seq<Event>, t: nat, defs: seq<BackendDefinition>, now: Time, z: nat, k: nat)
    requires IsRun(ws, es) && z < k < |ws|
    requires es[z] == StartListing(t, ForRegister(defs, now)) && t !in ws[z].tasks
    ensures WorksOn(ws[k], t, defs, now)
    decreases k
  {
    hide Fetched, Saved, ZRange, ValidDefs, TrimSpace, Registered, Synced, Load, DefinedIDs, Listing, ByID;
    assert ws[k] == Next(ws[k - 1], es[k - 1]);
    if k - 1 != z { WorksOnThrough(ws, es, t, defs, now, z, k - 1); }
  }

  /** Which steps can bring a backend into the store. */
  lemma Appears(w: World, e: Event, x: string)
    requires x !in w.store.hashes && x in Next(w, e).store.hashes
    ensures e.SaveNext? || e.SyncNext?
    ensures e.SaveNext? ==> e.t in w.tasks && w.tasks[e.t].Registering? && x in DefinedIDs(w.tasks[e.t].defs)
    ensures e.SyncNext? ==> e.t in w.tasks && w.tasks[e.t].Syncing? && w.tasks[e.t].queue != [] && x == w.tasks[e.t].queue[0].id
  {
    hide Fetched, ZRange, ValidDefs, TrimSpace, Load;
  }

  /** At `s` a task puts back the record of `x` that it read at `l`; meanwhile, at
      `d`, `x` was deleted, and it was absent from then on. */
  ghost predicate Resurrected(ws: seq<World>, es: seq<Event>, x: string, l: nat, d: nat, s: nat)
    requires l < d < s < |es| == |ws| - 1
  {
    && es[s].SyncNext? && !Present(ws, s, x) && Present(ws, s + 1, x)
    && Present(ws, d, x) && (forall j: nat | d < j <= s :: !Present(ws, j, x))
    && exists b: BackendStatus :: b.id == x && ReadAt(ws, es, l, es[s].t, b)
  }

  /** A sync that brings back an absent backend holds a reading older than that
      backend's last delete. */
  lemma ResurrectionIsStale(ws: seq<World>, es: seq<Event>, s: nat, x: string) returns (l: nat, d: nat)
    requires IsRun(ws, es) && s < |es| && es[s].SyncNext?
    requires !Present(ws, s, x) && Present(ws, s + 1, x)
    ensures l < d < s && Resurrected(ws, es, x, l, d, s)
  {
    hide ReadAt, Load, Next;
    assert ws[s + 1] == Next(ws[s], es[s]);
    Appears(ws[s], es[s], x);
    var u := es[s].t;
    var b := ws[s].tasks[u].queue[0];
    HeldWasRead(ws, es, s, u, b);
    l :| l < s && ReadAt(ws, es, l, u, b);
    ReadLeavesStore(ws, es, l, u, b);
    d := Flip(ws, l + 1, s, x);
  }

  lemma ReadLeavesStore(ws: seq<World>, es: seq<Event>, l: nat, u: nat, b: BackendStatus)
    requires IsRun(ws, es) && l < |es| && ReadAt(ws, es, l, u, b)
    ensures Present(ws, l, b.id) && Present(ws, l + 1, b.id)
  {
    hide Load;
    assert ws[l + 1] == Next(ws[l], es[l]);
  }

  /** `x` is stored all the way from `a` to `c`. */
  ghost predicate Stays(ws: seq<World>, a: nat, c: nat, x: string)
    requires c < |ws|
  {
    forall j: nat | a <= j <= c :: Present(ws, j, x)
  }

  /** When a registration has finished amid running syncs, a backend it does not
      define is still stored if and only if a sync that had read it before it was
      deleted put it back while the registration ran, and it stayed. */
  lemma ExtraBackendsAreStaleSyncs(ws: seq<World>, es: seq<Event>, t: nat, defs: seq<BackendDefinition>, now: Time, z: nat, e: nat, x: string)
    requires IsRun(ws, es) && Registration(ws, es, t, defs, now, z, e) && OnlyRegistrar(es, t, z, e)
    requires x !in DefinedIDs(defs)
    ensures Present(ws, e, x) <==>
            exists l: nat, d: nat, s: nat | l < d < s < e && z < s :: Resurrected(ws, es, x, l, d, s) && Stays(ws, s + 1, e, x)
  {
    hide Next, START, DefinedIDs, Resurrected, Load, OnlyRegistrar;
    if Present(ws, e, x) {
      if Stays(ws, z, e, x) {
        TracksThrough(ws, es, t, defs, now, z, e, x);
        assert false;
      } else {
        var j: nat :| z <= j <= e && !Present(ws, j, x);
        var s := Flip(ws, j, e, x);
        AppearsInRun(ws, es, t, defs, now, z, e, s, x);
        var l, d := ResurrectionIsStale(ws, es, s, x);
        assert Stays(ws, s + 1, e, x);
      }
    }
  }

  /** While a registration runs, only a sync brings in a backend it does not
      define. */
  lemma AppearsInRun(ws: seq<World>, es: seq<Event>, t: nat, defs: seq<BackendDefinition>, now: Time, z: nat, e: nat, s: nat, x: string)
    requires IsRun(ws, es) && Registration(ws, es, t, defs, now, z, e) && OnlyRegistrar(es, t, z, e)
    requires x !in DefinedIDs(defs) && z <= s < e
    requires !Present(ws, s, x) && Present(ws, s + 1, x)
    ensures es[s].SyncNext? && z < s
  {
    hide Next, DefinedIDs, Load;
    assert ws[s + 1] == Next(ws[s], es[s]);
    Appears(ws[s], es[s], x);
    if es[s].SaveNext? && s > z { WorksOnThrough(ws, es, t, defs, now, z, s); }
  }

  /** The definitions already dealt with are stored and will not be pruned. */
  ghost predicate KeepsDefined(w: World, t: nat, defs: seq<BackendDefinition>) {
    t in w.tasks ==>
      match w.tasks[t]
      case Registering(_, ds, _, n) => n <= |ds| && DefinedIDs(ds[..n]) <= w.store.hashes.Keys
      case Pruning(ds, doomed) => DefinedIDs(ds) <= w.store.hashes.Keys && DefinedIDs(ds) !! doomed
      case Finished => DefinedIDs(defs) <= w.store.hashes.Keys
      case _ => true
  }

  lemma KeepsDefinedStep(w: World, e: Event, t: nat, defs: seq<BackendDefinition>, now: Time)
    requires KeepsDefined(w, t, defs) && t in w.tasks && WorksOn(w, t, defs, now)
    requires (e.SaveNext? || e.DeleteOne?) ==> e.t == t
    ensures KeepsDefined(Next(w, e), t, defs)
  {
    hide Fetched, ZRange, ValidDefs, TrimSpace, Synced, Load, DefinedIDs, Fields, ByID;
    if e.SaveNext? && w.tasks[t].Registering? {
      var r := w.tasks[t];
      if r.next < |r.defs| {
        DefsStep(r.defs, r.next);
      } else {
        assert r.defs[..r.next] == r.defs;
      }
    } else if e == EndListing(t) {
      assert DefinedIDs(defs[..0]) == {} by { NoDefs(defs); }
    }
  }

  lemma {:induction false} KeepsDefinedThrough(ws: seq<World>, es: seq<Event>, t: nat, defs: seq<BackendDefinition>, now: Time, z: nat, k: nat)
    requires IsRun(ws, es) && z < k < |ws| && OnlyRegistrar(es, t, z, k)
    requires es[z] == StartListing(t, ForRegister(defs, now)) && t !in ws[z].tasks
    ensures KeepsDefined(ws[k], t, defs)
    decreases k
  {
    hide Load, ZRange, DefinedIDs;
    assert ws[k] == Next(ws[k - 1], es[k - 1]);
    if k - 1 != z {
      KeepsDefinedThrough(ws, es, t, defs, now, z, k - 1);
      WorksOnThrough(ws, es, t, defs, now, z, k - 1);
      KeepsDefinedStep(ws[k - 1], es[k - 1], t, defs, now);
    }
  }

  /** Syncs running alongside never cost a registration a backend it defines. */
  lemma DefinedBackendsAreStored(ws: seq<World>, es: seq<Event>, t: nat, defs: seq<BackendDefinition>, now: Time, z: nat, e: nat)
    requires IsRun(ws, es) && Registration(ws, es, t, defs, now, z, e) && OnlyRegistrar(es, t, z, e)
    ensures DefinedIDs(defs) <= ws[e].store.hashes.Keys
  {
    KeepsDefinedThrough(ws, es, t, defs, now, z, e);
  }

  // ---- Registration with nothing else writing ----

  /** Between `z` and `e` task `t` is the only one that writes. */
  ghost predicate OnlyWriter(es: seq<Event>, t: nat, z: nat, e: nat)
    requires e <= |es|
  {
    forall k | z <= k < e && (es[k].SaveNext? || es[k].DeleteOne? || es[k].SyncNext?) :: es[k].t == t
  }

  /** `got` is what reading `ids` in order gives, up to where `todo` begins. */
  ghost predicate ReadSoFar(s: StoreState, ids: seq<string>, todo: seq<string>, got: seq<BackendStatus>) {
    exists n: nat | n <= |ids| :: todo == ids[n..] && got == ReadAll(s, ids[..n])
  }

  /** How far a registration alone has taken the store `s0`. */
  ghost predicate AloneState(w: World, t: nat, s0: StoreState, defs: seq<BackendDefinition>, now: Time) {
    var existing := ByID(Listing(s0));
    && t in w.tasks
    && match w.tasks[t]
       case Reading(p, todo, got) =>
         && p == ForRegister(defs, now) && w.store == s0
         && ReadSoFar(s0, ZRange(s0.index), todo, got)
       case Registering(ex, ds, at, n) =>
         && ex == existing && ds == defs && at == now && n <= |defs| && ValidDefs(defs[..n])
         && w.store == Overlay(s0, existing, defs[..n], now)
       case Pruning(ds, doomed) =>
         && ds == defs && ValidDefs(defs) && doomed <= existing.Keys - DefinedIDs(defs)
         && w.store == Without(Overlay(s0, existing, defs, now), existing.Keys - DefinedIDs(defs) - doomed)
       case Finished => ValidDefs(defs) && w.store == Reconciled(s0, defs, now)
       case Stopped => true
       case _ => false
  }

  lemma AloneStep(w: World, e: Event, t: nat, s0: StoreState, defs: seq<BackendDefinition>, now: Time)
    requires AloneState(w, t, s0, defs, now)
    requires (e.SaveNext? || e.DeleteOne? || e.SyncNext?) ==> e.t == t
    ensures AloneState(Next(w, e), t, s0, defs, now)
  {
    hide Fetched, ZRange, ValidDefs, TrimSpace, Synced, Load, DefinedIDs, Fields, Registered, Saved, Deleted, Without;
    if e == ReadNext(t) { AloneReads(w, t, s0, defs, now); }
    if e == EndListing(t) { AloneLists(w, t, s0, defs, now); }
    if e == SaveNext(t) { AloneSaves(w, t, s0, defs, now); }
    if e.DeleteOne? { AlonePrunes(w, t, e.id, s0, defs, now); }
  }

  lemma AloneReads(w: World, t: nat, s0: StoreState, defs: seq<BackendDefinition>, now: Time)
    requires AloneState(w, t, s0, defs, now)
    ensures AloneState(Next(w, ReadNext(t)), t, s0, defs, now)
  {
    hide ZRange, Load, DefinedIDs, ValidDefs, Overlay, Without, ByID, Listing, Reconciled, ReadSoFar;
    if w.tasks[t].Reading? && w.tasks[t].todo != [] {
      ReadStep(s0, ZRange(s0.index), w.tasks[t].todo, w.tasks[t].got);
    }
  }

  lemma ReadStep(s: StoreState, ids: seq<string>, todo: seq<string>, got: seq<BackendStatus>)
    requires todo != [] && ReadSoFar(s, ids, todo, got)
    ensures var b := Load(s, todo[0]);
            ReadSoFar(s, ids, todo[1..], if b.id == "" then got else got + [b])
  {
    hide Load, ReadAll;
    var n: nat :| n <= |ids| && todo == ids[n..] && got == ReadAll(s, ids[..n]);
    assert todo[0] == ids[n] && todo[1..] == ids[n + 1..];
    ReadAllStep(s, ids, n);
  }

  lemma ReadAllStep(s: StoreState, ids: seq<string>, n: nat)
    requires n < |ids|
    ensures var b := Load(s, ids[n]);
            ReadAll(s, ids[..n + 1]) == if b.id == "" then ReadAll(s, ids[..n]) else ReadAll(s, ids[..n]) + [b]
  {
    hide Load;
    assert ids[..n + 1][..n] == ids[..n] && ids[..n + 1][n] == ids[n];
  }

  lemma AloneLists(w: World, t: nat, s0: StoreState, defs: seq<BackendDefinition>, now: Time)
    requires AloneState(w, t, s0, defs, now)
    ensures AloneState(Next(w, EndListing(t)), t, s0, defs, now)
  {
    hide ZRange, Load, DefinedIDs, ValidDefs, Without, ByID, Reconciled, Overlay, ReadAll, Listing, ReadSoFar;
    if w.tasks[t].Reading? && w.tasks[t].todo == [] {
      ReadEnd(s0, ZRange(s0.index), w.tasks[t].got);
      NoDefs(defs);
      NothingYet(s0, defs, now);
    }
  }

  lemma ReadEnd(s: StoreState, ids: seq<string>, got: seq<BackendStatus>)
    requires ReadSoFar(s, ids, [], got)
    ensures got == ReadAll(s, ids)
  {
    hide ReadAll;
    var n: nat :| n <= |ids| && [] == ids[n..] && got == ReadAll(s, ids[..n]);
    assert ids[..n] == ids;
  }

  lemma NothingYet(s0: StoreState, defs: seq<BackendDefinition>, now: Time)
    ensures Listing(s0) == ReadAll(s0, ZRange(s0.index))
    ensures forall existing :: Overlay(s0, existing, defs[..0], now) == s0
  {
  }

  lemma AloneSaves(w: World, t: nat, s0: StoreState, defs: seq<BackendDefinition>, now: Time)
    requires AloneState(w, t, s0, defs, now)
    ensures AloneState(Next(w, SaveNext(t)), t, s0, defs, now)
  {
    hide ZRange, Load, DefinedIDs, ValidDefs, ByID, Listing, Reconciled, Saved, Registered;
    if w.tasks[t].Registering? {
      var r, existing := w.tasks[t], ByID(Listing(s0));
      if r.next < |defs| {
        assert defs[..r.next + 1][..r.next] == defs[..r.next];
      } else {
        assert defs[..r.next] == defs;
        var gone := existing.Keys - DefinedIDs(defs);
        assert gone - gone == {};
        var o := Overlay(s0, existing, defs, now);
        assert Without(o, {}) == o;
      }
    }
  }

  lemma AlonePrunes(w: World, t: nat, id: string, s0: StoreState, defs: seq<BackendDefinition>, now: Time)
    requires AloneState(w, t, s0, defs, now)
    ensures AloneState(Next(w, DeleteOne(t, id)), t, s0, defs, now)
  {
    hide ZRange, Load, DefinedIDs, ValidDefs, ByID, Listing, Overlay, Deleted, Without;
    if w.tasks[t].Pruning? {
      var p, gone := w.tasks[t], ByID(Listing(s0)).Keys - DefinedIDs(defs);
      var o := Overlay(s0, ByID(Listing(s0)), defs, now);
      if p.doomed == {} {
        assert gone - p.doomed == gone;
      } else if id in p.doomed {
        WithoutOne(o, gone - p.doomed, id);
        assert gone - (p.doomed - {id}) == gone - p.doomed + {id};
      }
    }
  }

  lemma {:induction false} AloneThrough(ws: seq<World>, es: seq<Event>, t: nat, defs: seq<BackendDefinition>, now: Time, z: nat, k: nat)
    requires IsRun(ws, es) && z < k < |ws| && OnlyWriter(es, t, z, k)
    requires es[z] == StartListing(t, ForRegister(defs, now)) && t !in ws[z].tasks
    ensures AloneState(ws[k], t, ws[z].store, defs, now)
    decreases k
  {
    hide Next, AloneState;
    assert ws[k] == Next(ws[k - 1], es[k - 1]);
    if k - 1 == z {
      AloneStart(ws[z], t, defs, now);
    } else {
      AloneThrough(ws, es, t, defs, now, z, k - 1);
      AloneStep(ws[k - 1], es[k - 1], t, ws[z].store, defs, now);
    }
  }

  lemma AloneStart(w: World, t: nat, defs: seq<BackendDefinition>, now: Time)
    requires t !in w.tasks
    ensures AloneState(Next(w, StartListing(t, ForRegister(defs, now))), t, w.store, defs, now)
  {
    hide ZRange, Load, DefinedIDs, ValidDefs, Overlay, Without, ByID, Listing;
    var ids := ZRange(w.store.index);
    assert ids[0..] == ids && ids[..0] == [];
  }

  /** With nothing else writing, a registration that finishes has done what the
      sequential one does, in whatever order it deletes. */
  lemma RegistrationAlone(ws: seq<World>, es: seq<Event>, t: nat, defs: seq<BackendDefinition>, now: Time, z: nat, e: nat)
    requires IsRun(ws, es) && Registration(ws, es, t, defs, now, z, e) && OnlyWriter(es, t, z, e)
    ensures ValidDefs(defs)
    ensures ws[e].store == Reconciled(ws[z].store, defs, now)
  {
    AloneThrough(ws, es, t, defs, now, z, e);
  }

  // ---- A full sync with nothing else writing ----

  /** The polls of task `t` between `z` and `e` are those `polls` gives. */
  ghost predicate PolledAs(ws: seq<World>, es: seq<Event>, t: nat, polls: string -> Poll, z: nat, e: nat)
    requires e <= |es| == |ws| - 1
  {
    forall k: nat | z <= k < e && es[k].SyncNext? && es[k].t == t && t in ws[k].tasks ::
      PollsAs(ws[k].tasks[t], polls, es[k].poll)
  }

  predicate PollsAs(task: Task, polls: string -> Poll, poll: Poll) {
    task.Syncing? && task.queue != [] ==> poll == polls(task.queue[0].id)
  }

  /** How far a sync alone has taken the store `s0`. */
  ghost predicate SyncState(w: World, t: nat, s0: StoreState, polls: string -> Poll) {
    && t in w.tasks
    && match w.tasks[t]
       case Reading(p, todo, got) => p == ForSync && w.store == s0 && ReadSoFar(s0, ZRange(s0.index), todo, got)
       case Syncing(queue) => SyncedAll(w.store, queue, polls) == SyncedAll(s0, Listing(s0), polls)
       case Finished => (w.store, Done) == SyncedAll(s0, Listing(s0), polls)
       case Stopped => true
       case _ => false
  }

  lemma SyncStep(w: World, e: Event, t: nat, s0: StoreState, polls: string -> Poll)
    requires SyncState(w, t, s0, polls)
    requires (e.SaveNext? || e.DeleteOne? || e.SyncNext?) ==> e.t == t
    requires e.SyncNext? ==> PollsAs(w.tasks[t], polls, e.poll)
    ensures SyncState(Next(w, e), t, s0, polls)
  {
    hide Fetched, ZRange, ValidDefs, TrimSpace, Synced, Load, DefinedIDs, Registered, Saved, Deleted, Listing, ReadSoFar, ReadAll, AsStored;
    if e == ReadNext(t) && w.tasks[t].Reading? && w.tasks[t].todo != [] {
      ReadStep(s0, ZRange(s0.index), w.tasks[t].todo, w.tasks[t].got);
    }
    if e == EndListing(t) && w.tasks[t].Reading? && w.tasks[t].todo == [] {
      ReadEnd(s0, ZRange(s0.index), w.tasks[t].got);
      NothingYet(s0, [], 0);
    }
  }

  lemma SyncStart(w: World, t: nat, polls: string -> Poll)
    requires t !in w.tasks
    ensures SyncState(Next(w, StartListing(t, ForSync)), t, w.store, polls)
  {
    hide ZRange, Load, Listing, SyncedAll;
    var ids := ZRange(w.store.index);
    assert ids[0..] == ids && ids[..0] == [];
  }

  lemma {:induction false} SyncThrough(ws: seq<World>, es: seq<Event>, t: nat, polls: string -> Poll, z: nat, k: nat)
    requires IsRun(ws, es) && z < k < |ws| && OnlyWriter(es, t, z, k) && PolledAs(ws, es, t, polls, z, k)
    requires es[z] == StartListing(t, ForSync) && t !in ws[z].tasks
    ensures SyncState(ws[k], t, ws[z].store, polls)
    decreases k
  {
    hide Next, SyncState, PollsAs;
    assert ws[k] == Next(ws[k - 1], es[k - 1]);
    if k - 1 == z {
      SyncStart(ws[z], t, polls);
    } else {
      SyncThrough(ws, es, t, polls, z, k - 1);
      SyncKnown(ws[k - 1], t, ws[z].store, polls);
      SyncStep(ws[k - 1], es[k - 1], t, ws[z].store, polls);
    }
  }

  lemma SyncKnown(w: World, t: nat, s0: StoreState, polls: string -> Poll)
    requires SyncState(w, t, s0, polls)
    ensures t in w.tasks
  {
  }

  /** A sync polls a backend at most once: what is still queued comes after. */
  lemma {:induction false} QueueMovesOn(ws: seq<World>, es: seq<Event>, t: nat, k: nat, j: nat)
    requires IsRun(ws, es) && k < j < |ws| && es[k].SyncNext? && es[k].t == t
    requires t in ws[k].tasks && ws[k].tasks[t].Syncing? && ws[k].tasks[t].queue != []
    ensures t in ws[j].tasks && !ws[j].tasks[t].Reading?
    ensures ws[j].tasks[t].Syncing? ==>
              forall b | b in ws[j].tasks[t].queue :: Less(ws[k].tasks[t].queue[0].id, b.id)
    decreases j
  {
    hide Fetched, Saved, ZRange, ValidDefs, TrimSpace, Registered, Synced, Load, RecordOk, FetchedOk, Less, AsStored;
    assert ws[j] == Next(ws[j - 1], es[j - 1]);
    if k == j - 1 {
      RunKeepsInv(ws, es, k);
      HeadBelow(ws[k].tasks[t].queue);
    } else {
      QueueMovesOn(ws, es, t, k, j - 1);
    }
  }

  lemma HeadBelow(queue: seq<BackendStatus>)
    requires Increasing(Ids(queue)) && queue != []
    ensures forall b | b in queue[1..] :: Less(queue[0].id, b.id)
  {
    hide Less;
    forall i | 0 <= i < |queue[1..]| ensures Less(queue[0].id, queue[1..][i].id) {
      assert Less(Ids(queue)[0], Ids(queue)[i + 1]);
    }
  }

  lemma {:induction false} PollsByBackend(ws: seq<World>, es: seq<Event>, t: nat, z: nat, e: nat) returns (polls: string -> Poll)
    requires IsRun(ws, es) && z <= e < |ws|
    ensures PolledAs(ws, es, t, polls, z, e)
    decreases e
  {
    hide Next, START;
    if e == z {
      polls := _ => Poll(Failed, 0, 0);
    } else {
      var before := PollsByBackend(ws, es, t, z, e - 1);
      var w, ev := ws[e - 1], es[e - 1];
      polls := before;
      if ev.SyncNext? && ev.t == t && t in w.tasks && w.tasks[t].Syncing? && w.tasks[t].queue != [] {
        var x := w.tasks[t].queue[0].id;
        polls := y => if y == x then ev.poll else before(y);
        forall k: nat | z <= k < e - 1 && es[k].SyncNext? && es[k].t == t && t in ws[k].tasks
          ensures PollsAs(ws[k].tasks[t], polls, es[k].poll)
        {
          if ws[k].tasks[t].Syncing? && ws[k].tasks[t].queue != [] {
            QueueMovesOn(ws, es, t, k, e - 1);
            LessIrreflexive(x);
          }
        }
      }
    }
  }

  /** With nothing else writing, a sync task that finishes has done what the
      sequential sync does, given the outcomes of the task's own polls. */
  lemma SyncAlone(ws: seq<World>, es: seq<Event>, t: nat, z: nat, e: nat) returns (polls: string -> Poll)
    requires IsRun(ws, es) && z < e < |ws| && OnlyWriter(es, t, z, e)
    requires es[z] == StartListing(t, ForSync) && t !in ws[z].tasks
    requires t in ws[e].tasks && ws[e].tasks[t] == Finished
    ensures PolledAs(ws, es, t, polls, z, e)
    ensures (ws[e].store, Done) == SyncedAll(ws[z].store, Listing(ws[z].store), polls)
  {
    polls := PollsByBackend(ws, es, t, z, e);
    SyncThrough(ws, es, t, polls, z, e);
  }
}
