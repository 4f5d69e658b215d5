/** What one poll of an Ollama backend is turned into. */
module Fetch {
  import opened Text
  import opened Ordering
  import opened Decimal
  import opened Records

  const DEFAULT_MODEL_OWNER := "library"

  /** An entry of the installed-model list. `readAt` is what the clock shows
      should the entry need a time of its own. */
  datatype ListModel = ListModel(name: string, model: string, modifiedAt: Time, remoteHost: string, readAt: Time)

  /** An entry of the running-model list. */
  datatype ProcModel = ProcModel(name: string, model: string, expiresAt: Time, readAt: Time)

  /** The outcome of a poll: the installed list fails, or it arrives and the
      running list may or may not. */
  datatype Ping = Failed | Reached(installed: seq<ListModel>, running: Option<seq<ProcModel>>)

  /** The three lists a sync stores together. */
  datatype Triple = Triple(models: seq<string>, loaded: seq<string>, meta: seq<ModelInfo>)

  const EMPTY := Triple([], [], [])

  function FirstModelName(name: string, model: string): string {
    if TrimSpace(name) != "" then TrimSpace(name) else TrimSpace(model)
  }

  function InferOwner(remoteHost: string): string {
    if TrimSpace(remoteHost) == "" then DEFAULT_MODEL_OWNER else remoteHost
  }

  function ListName(m: ListModel): string { FirstModelName(m.name, m.model) }
  function ProcName(m: ProcModel): string { FirstModelName(m.name, m.model) }

  function ListInfo(m: ListModel): ModelInfo {
    ModelInfo(ListName(m), if m.modifiedAt == ZERO_TIME then m.readAt else m.modifiedAt, InferOwner(m.remoteHost))
  }

  function ProcInfo(m: ProcModel): ModelInfo {
    ModelInfo(ProcName(m), if m.expiresAt == ZERO_TIME then m.readAt else m.expiresAt, DEFAULT_MODEL_OWNER)
  }

  function Running(ping: Ping): seq<ProcModel>
    requires ping.Reached?
  {
    match ping.running case Some(ms) => ms case None => []
  }

  function InstalledNames(ms: seq<ListModel>): set<string> {
    if ms == [] then {} else NonEmpty(ListName(ms[|ms| - 1])) + InstalledNames(ms[..|ms| - 1])
  }

  function RunningNames(ms: seq<ProcModel>): set<string> {
    if ms == [] then {} else NonEmpty(ProcName(ms[|ms| - 1])) + RunningNames(ms[..|ms| - 1])
  }

  function NonEmpty(name: string): set<string> {
    if name == "" then {} else {name}
  }

  lemma {:induction false} InstalledAreNames(ms: seq<ListModel>, x: string)
    requires x in InstalledNames(ms)
    ensures x != "" && Trimmed(x)
  {
    if x in InstalledNames(ms[..|ms| - 1]) { InstalledAreNames(ms[..|ms| - 1], x); }
  }

  lemma {:induction false} RunningAreNames(ms: seq<ProcModel>, x: string)
    requires x in RunningNames(ms)
    ensures x != "" && Trimmed(x)
  {
    if x in RunningNames(ms[..|ms| - 1]) { RunningAreNames(ms[..|ms| - 1], x); }
  }

  lemma {:induction false} RunningHas(ms: seq<ProcModel>, j: nat)
    requires j < |ms| && ProcName(ms[j]) != ""
    ensures ProcName(ms[j]) in RunningNames(ms)
  {
    if j < |ms| - 1 { RunningHas(ms[..|ms| - 1], j); }
  }

  /** The info recorded for `name`: that of its last installed entry, or else of
      its first running entry. */
  function InfoOf(installed: seq<ListModel>, running: seq<ProcModel>, name: string): ModelInfo
    requires name in InstalledNames(installed) + RunningNames(running)
  {
    if name in InstalledNames(installed) then LastInstalled(installed, name) else FirstRunning(running, name)
  }

  function LastInstalled(ms: seq<ListModel>, name: string): (info: ModelInfo)
    requires name in InstalledNames(ms)
    ensures info.name == name
  {
    var n := |ms| - 1;
    if ListName(ms[n]) == name then ListInfo(ms[n]) else LastInstalled(ms[..n], name)
  }

  function FirstRunning(ms: seq<ProcModel>, name: string): (info: ModelInfo)
    requires name in RunningNames(ms)
    ensures info.name == name
  {
    var n := |ms| - 1;
    if name in RunningNames(ms[..n]) then FirstRunning(ms[..n], name) else ProcInfo(ms[n])
  }

  /** What a successful poll stands for. */
  function Fetched(ping: Ping): Triple
    requires ping.Reached?
  {
    var i, r := InstalledNames(ping.installed), RunningNames(Running(ping));
    var names := Ascending(i + r);
    Triple(Ascending(i), Ascending(r), MetaOf(ping.installed, Running(ping), names))
  }

  function MetaOf(installed: seq<ListModel>, running: seq<ProcModel>, names: seq<string>): (meta: seq<ModelInfo>)
    requires forall x | x in names :: x in InstalledNames(installed) + RunningNames(running)
    ensures |meta| == |names|
    ensures forall k | 0 <= k < |meta| :: meta[k] == InfoOf(installed, running, names[k])
    ensures forall k | 0 <= k < |meta| :: meta[k].name == names[k]
  {
    seq(|names|, k requires 0 <= k < |names| => InfoOf(installed, running, names[k]))
  }

  method AddListModels(registry: map<string, ModelInfo>, models: seq<ListModel>) returns (out: map<string, ModelInfo>)
    ensures out.Keys == registry.Keys + InstalledNames(models)
    ensures forall name | name in out ::
              out[name] == if name in InstalledNames(models) then LastInstalled(models, name) else registry[name]
  {
    hide ListName;
    out := registry;
    for k := 0 to |models|
      invariant out.Keys == registry.Keys + InstalledNames(models[..k]) && "" !in InstalledNames(models[..k])
      invariant forall name | name in out ::
                  out[name] == if name in InstalledNames(models[..k]) then LastInstalled(models[..k], name) else registry[name]
    {
      assert models[..k + 1][..k] == models[..k] && models[..k + 1][k] == models[k];
      var name := ListName(models[k]);
      if name == "" { continue; }
      out := out[name := ListInfo(models[k])];
    }
    assert models[..|models|] == models;
  }

  method AddProcessModels(registry: map<string, ModelInfo>, models: seq<ProcModel>) returns (out: map<string, ModelInfo>)
    ensures out.Keys == registry.Keys + RunningNames(models)
    ensures forall name | name in out ::
              out[name] == if name in registry then registry[name] else FirstRunning(models, name)
  {
    hide ProcName;
    out := registry;
    for k := 0 to |models|
      invariant out.Keys == registry.Keys + RunningNames(models[..k])
      invariant forall name | name in out ::
                  out[name] == if name in registry then registry[name] else FirstRunning(models[..k], name)
    {
      assert models[..k + 1][..k] == models[..k];
      var name := ProcName(models[k]);
      if name == "" { continue; }
      if name in out { continue; }
      out := out[name := ProcInfo(models[k])];
    }
    assert models[..|models|] == models;
  }

  /** The names of the entries, first appearances only. */
  method CollectInstalled(models: seq<ListModel>) returns (names: seq<string>)
    ensures forall i, j | 0 <= i < j < |names| :: names[i] != names[j]
    ensures forall x :: x in names <==> x in InstalledNames(models)
  {
    hide ListName;
    names := [];
    for k := 0 to |models|
      invariant forall i, j | 0 <= i < j < |names| :: names[i] != names[j]
      invariant forall x :: x in names <==> x in InstalledNames(models[..k])
    {
      assert models[..k + 1][..k] == models[..k];
      var name := ListName(models[k]);
      if name == "" || name in names { continue; }
      names := names + [name];
    }
    assert models[..|models|] == models;
  }

  method CollectRunning(models: seq<ProcModel>) returns (names: seq<string>)
    ensures forall i, j | 0 <= i < j < |names| :: names[i] != names[j]
    ensures forall x :: x in names <==> x in RunningNames(models)
  {
    hide ProcName;
    names := [];
    for k := 0 to |models|
      invariant forall i, j | 0 <= i < j < |names| :: names[i] != names[j]
      invariant forall x :: x in names <==> x in RunningNames(models[..k])
    {
      assert models[..k + 1][..k] == models[..k];
      var name := ProcName(models[k]);
      if name == "" || name in names { continue; }
      names := names + [name];
    }
    assert models[..|models|] == models;
  }

  lemma MetaIsSorted(m: map<string, ModelInfo>, installed: seq<ListModel>, running: seq<ProcModel>)
    requires m.Keys == InstalledNames(installed) + RunningNames(running)
    requires forall name | name in m :: m[name] == InfoOf(installed, running, name)
    ensures ByKey(m) == MetaOf(installed, running, Ascending(m.Keys))
  {
    hide InstalledNames, RunningNames, InfoOf, Ascending;
  }

  /** An unsorted listing of no names is the sorted one. */
  lemma NothingFetched(names: seq<string>, s: set<string>)
    requires s == {} && forall x :: x in names <==> x in s
    ensures names == [] && Ascending(s) == []
  {
    EnumerationEmpty(names, s);
    EnumerationEmpty(Ascending(s), s);
  }

  /** `fetchInstalledModels`; the early return on an empty registry skips
      sorting only lists that are empty. */
  method FetchInstalledModels(ping: Ping) returns (result: Option<Triple>)
    ensures result == if ping.Failed? then None else Some(Fetched(ping))
  {
    hide ListName, ProcName, Ascending, Sorted, LastInstalled, FirstRunning;
    if ping.Failed? { return None; }
    var metaMap := AddListModels(map[], ping.installed);
    var available := CollectInstalled(ping.installed);
    var loaded := [];
    if ping.running.Some? {
      metaMap := AddProcessModels(metaMap, ping.running.value);
      loaded := CollectRunning(ping.running.value);
    }
    ghost var i, r := InstalledNames(ping.installed), RunningNames(Running(ping));
    assert metaMap.Keys == i + r;
    assert forall name | name in metaMap :: metaMap[name] == InfoOf(ping.installed, Running(ping), name);
    hide InstalledNames, RunningNames, InfoOf, Running;
    SortedIs(available, i);
    SortedIs(loaded, r);
    if metaMap == map[] {
      NothingFetched(available, i);
      NothingFetched(loaded, r);
      NothingFetched([], i + r);
      return Some(Triple(available, loaded, []));
    }
    var out := SortedValues(metaMap, (info: ModelInfo) => info.name);
    MetaIsSorted(metaMap, ping.installed, Running(ping));
    return Some(Triple(Sorted(available), Sorted(loaded), out));
  }

  ghost function MetaNames(meta: seq<ModelInfo>): set<string> {
    set m | m in meta :: m.name
  }

  /** What every stored triple satisfies: both name lists increasing, trimmed
      and non-blank, the metadata increasing by name, and the metadata names
      exactly those of the two lists. */
  ghost predicate GoodTriple(t: Triple) {
    && Increasing(t.models) && Increasing(t.loaded)
    && (forall i, j | 0 <= i < j < |t.meta| :: Less(t.meta[i].name, t.meta[j].name))
    && (forall x | x in t.models || x in t.loaded :: x != "" && Trimmed(x))
    && MetaNames(t.meta) == (set x | x in t.models) + (set x | x in t.loaded)
  }

  lemma FetchedIsGood(ping: Ping)
    requires ping.Reached?
    ensures GoodTriple(Fetched(ping))
  {
    hide ListName, ProcName, InfoOf, MetaOf, InstalledNames, RunningNames, Ascending;
    var t := Fetched(ping);
    var i, r := InstalledNames(ping.installed), RunningNames(Running(ping));
    var names := Ascending(i + r);
    forall x | x in i + r ensures x != "" && Trimmed(x) {
      if x in i { InstalledAreNames(ping.installed, x); } else { RunningAreNames(Running(ping), x); }
    }
    forall x ensures x in MetaNames(t.meta) <==> x in i + r {
      if x in i + r {
        var k :| 0 <= k < |names| && names[k] == x;
        assert t.meta[k] in t.meta;
      }
    }
  }

  /** The three lists are empty together. */
  lemma GoodTripleEmpty(t: Triple)
    requires GoodTriple(t) && t.meta == []
    ensures t == EMPTY
  {
    var ms, ls := set x | x in t.models, set x | x in t.loaded;
    assert ms + ls == {};
    EnumerationEmpty(t.models, ms);
    EnumerationEmpty(t.loaded, ls);
  }

  /** What an entry's two name fields call it: the first one that is not blank. */
  predicate Called(name: string, model: string, x: string) {
    x != "" && (TrimSpace(name) == x || (TrimSpace(name) == "" && TrimSpace(model) == x))
  }

  lemma CalledName(name: string, model: string, x: string)
    ensures Called(name, model, x) <==> x != "" && FirstModelName(name, model) == x
  {
    hide TrimSpace;
  }

  lemma {:induction false} InstalledNamesAre(ms: seq<ListModel>, x: string)
    ensures x in InstalledNames(ms) <==> exists m | m in ms :: Called(m.name, m.model, x)
  {
    hide TrimSpace;
    if ms != [] {
      var n := |ms| - 1;
      InstalledNamesAre(ms[..n], x);
      assert ms == ms[..n] + [ms[n]];
    }
  }

  lemma {:induction false} RunningNamesAre(ms: seq<ProcModel>, x: string)
    ensures x in RunningNames(ms) <==> exists m | m in ms :: Called(m.name, m.model, x)
  {
    hide TrimSpace;
    if ms != [] {
      var n := |ms| - 1;
      RunningNamesAre(ms[..n], x);
      assert ms == ms[..n] + [ms[n]];
    }
  }

  /** The models are those some installed entry names, the loaded models those
      some running entry names, if the running list arrived. */
  lemma FetchedNames(ping: Ping, x: string)
    requires ping.Reached?
    ensures x in Fetched(ping).models <==> exists m | m in ping.installed :: Called(m.name, m.model, x)
    ensures x in Fetched(ping).loaded <==>
            ping.running.Some? && exists m | m in ping.running.value :: Called(m.name, m.model, x)
  {
    hide Called, InstalledNames, RunningNames, Ascending, MetaOf;
    InstalledNamesAre(ping.installed, x);
    RunningNamesAre(Running(ping), x);
  }

  ghost predicate LastEntry(ms: seq<ListModel>, k: nat, name: string)
    requires k < |ms|
  {
    Called(ms[k].name, ms[k].model, name) && forall j | k < j < |ms| :: !Called(ms[j].name, ms[j].model, name)
  }

  ghost predicate FirstEntry(ms: seq<ProcModel>, k: nat, name: string)
    requires k < |ms|
  {
    Called(ms[k].name, ms[k].model, name) && forall j | 0 <= j < k :: !Called(ms[j].name, ms[j].model, name)
  }

  /** Where each metadata entry comes from: the last installed entry of its
      name, with its time of change and its remote host, and only when none is
      installed the first running one, with its expiry. A missing time is that of
      the reading, a missing host the library. */
  lemma InstalledTakesPrecedence(ping: Ping, info: ModelInfo)
    requires ping.Reached? && info in Fetched(ping).meta
    ensures if exists m | m in ping.installed :: Called(m.name, m.model, info.name)
            then exists k: nat | k < |ping.installed| ::
                   && LastEntry(ping.installed, k, info.name)
                   && var m := ping.installed[k];
                      && info.createdAt == (if m.modifiedAt != ZERO_TIME then m.modifiedAt else m.readAt)
                      && info.ownedBy == (if TrimSpace(m.remoteHost) != "" then m.remoteHost else "library")
            else ping.running.Some? && exists k: nat | k < |ping.running.value| ::
                   && FirstEntry(ping.running.value, k, info.name)
                   && var m := ping.running.value[k];
                      && info.createdAt == (if m.expiresAt != ZERO_TIME then m.expiresAt else m.readAt)
                      && info.ownedBy == "library"
  {
    hide TrimSpace, LastEntry, FirstEntry, Called, MetaOf, Ascending, InstalledNames, Running;
    MetaSource(ping, info);
    InstalledNamesAre(ping.installed, info.name);
    if info.name in InstalledNames(ping.installed) {
      var k: nat :| k < |ping.installed| && LastEntry(ping.installed, k, info.name) && info == ListInfo(ping.installed[k]);
    } else {
      RunningIs(ping);
      var k: nat :| k < |Running(ping)| && FirstEntry(Running(ping), k, info.name) && info == ProcInfo(Running(ping)[k]);
    }
  }

  lemma RunningIs(ping: Ping)
    requires ping.Reached?
    ensures Running(ping) == if ping.running.Some? then ping.running.value else []
  {
  }

  lemma MetaSource(ping: Ping, info: ModelInfo)
    requires ping.Reached? && info in Fetched(ping).meta
    ensures if info.name in InstalledNames(ping.installed)
            then exists k: nat | k < |ping.installed| ::
                   LastEntry(ping.installed, k, info.name) && info == ListInfo(ping.installed[k])
            else exists k: nat | k < |Running(ping)| ::
                   FirstEntry(Running(ping), k, info.name) && info == ProcInfo(Running(ping)[k])
  {
    hide ListName, ProcName, ListInfo, ProcInfo, LastInstalled, FirstRunning, MetaOf, Ascending;
    var names := Ascending(InstalledNames(ping.installed) + RunningNames(Running(ping)));
    var k :| 0 <= k < |names| && Fetched(ping).meta[k] == info;
    assert info.name == names[k] && names[k] in names;
    if info.name in InstalledNames(ping.installed) {
      var _ := LastInstalledSource(ping.installed, info.name);
    } else {
      var _ := FirstRunningSource(Running(ping), info.name);
    }
  }

  lemma {:induction false} LastInstalledSource(ms: seq<ListModel>, name: string) returns (k: nat)
    requires name in InstalledNames(ms)
    ensures k < |ms| && LastEntry(ms, k, name) && LastInstalled(ms, name) == ListInfo(ms[k])
  {
    hide FirstModelName, ListInfo, Called;
    InstalledAreNames(ms, name);
    forall j | 0 <= j < |ms| { CalledName(ms[j].name, ms[j].model, name); }
    k := |ms| - 1;
    if ListName(ms[k]) != name {
      k := LastInstalledSource(ms[..k], name);
    }
  }

  lemma {:induction false} FirstRunningSource(ms: seq<ProcModel>, name: string) returns (k: nat)
    requires name in RunningNames(ms)
    ensures k < |ms| && FirstEntry(ms, k, name) && FirstRunning(ms, name) == ProcInfo(ms[k])
  {
    hide FirstModelName, ProcInfo, Called;
    RunningAreNames(ms, name);
    forall j | 0 <= j < |ms| { CalledName(ms[j].name, ms[j].model, name); }
    k := |ms| - 1;
    if name in RunningNames(ms[..k]) {
      k := FirstRunningSource(ms[..k], name);
    } else {
      forall j | 0 <= j < k ensures !Called(ms[j].name, ms[j].model, name) {
        if ProcName(ms[j]) != "" { RunningHas(ms[..k], j); }
      }
    }
  }
}
