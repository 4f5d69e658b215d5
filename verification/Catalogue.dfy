/** The model catalogue: all backend records folded into one map of models. */
module Catalogue {
  import opened Text
  import opened Ordering
  import opened Records
  import opened Fetch

  datatype Model = Model(id: string, created: int, ownedBy: string)

  /** One call of `addModel`: a name, a creation time in seconds, an owner. */
  datatype Contribution = Contribution(name: string, created: int, owner: string)

  function MetaContribution(meta: ModelInfo, now: int, owned: string): Contribution {
    var created := Unix(meta.createdAt);
    Contribution(meta.name, if created == 0 then now else created,
                 if TrimSpace(meta.ownedBy) == "" then owned else meta.ownedBy)
  }

  /** What one record contributes: its metadata or, failing that, its installed
      names. */
  function Given(s: BackendStatus): (cs: seq<Contribution>)
    ensures |cs| == if s.modelMeta == [] then |s.models| else |s.modelMeta|
  {
    var now, owned := Unix(s.updatedAt), if s.id == "" then DEFAULT_MODEL_OWNER else s.id;
    if s.modelMeta == [] then seq(|s.models|, i requires 0 <= i < |s.models| => Contribution(s.models[i], now, owned))
    else seq(|s.modelMeta|, i requires 0 <= i < |s.modelMeta| => MetaContribution(s.modelMeta[i], now, owned))
  }

  function Contributions(statuses: seq<BackendStatus>): seq<Contribution> {
    if statuses == [] then []
    else Contributions(statuses[..|statuses| - 1]) + Given(statuses[|statuses| - 1])
  }

  /** The catalogue after one more contribution; `clock` is the time a new entry
      takes when it is given none. */
  function Added(m: map<string, Model>, c: Contribution, clock: int): map<string, Model> {
    var name := TrimSpace(c.name);
    if name == "" then m
    else if name in m then
      var old0 := m[name];
      var created := if c.created != 0 && (old0.created == 0 || c.created < old0.created) then c.created else old0.created;
      var owner := if old0.ownedBy == "" && c.owner != "" then c.owner else old0.ownedBy;
      m[name := old0.(created := created, ownedBy := owner)]
    else
      m[name := Model(name, if c.created == 0 then clock else c.created,
                      if TrimSpace(c.owner) == "" then DEFAULT_MODEL_OWNER else c.owner)]
  }

  /** The catalogue of a list of contributions; the i-th reads `clock(i)`. */
  function Collected(cs: seq<Contribution>, clock: nat -> int): map<string, Model> {
    if cs == [] then map[]
    else
      var n := |cs| - 1;
      Added(Collected(cs[..n], clock), cs[n], clock(n))
  }

  /** The map `collectModels` fills. */
  class ModelMap {
    var entries: map<string, Model>

    constructor ()
      ensures entries == map[]
    {
      entries := map[];
    }

    method AddModel(name: string, created: int, ownedBy: string, clock: int)
      modifies this
      ensures entries == Added(old(entries), Contribution(name, created, ownedBy), clock)
    {
      var key := TrimSpace(name);
      if key == "" { return; }
      if key in entries {
        var existing := entries[key];
        if created != 0 && (existing.created == 0 || created < existing.created) {
          existing := existing.(created := created);
        }
        if existing.ownedBy == "" && ownedBy != "" {
          existing := existing.(ownedBy := ownedBy);
        }
        entries := entries[key := existing];
        return;
      }
      var at, owner := created, ownedBy;
      if at == 0 { at := clock; }
      if TrimSpace(owner) == "" { owner := DEFAULT_MODEL_OWNER; }
      entries := entries[key := Model(key, at, owner)];
    }

    method CollectModels(statuses: seq<BackendStatus>, clock: nat -> int)
      requires entries == map[]
      modifies this
      ensures entries == Collected(Contributions(statuses), clock)
    {
      hide TrimSpace, Added, Given;
      var k := 0;
      for i := 0 to |statuses|
        invariant k == |Contributions(statuses[..i])|
        invariant entries == Collected(Contributions(statuses[..i]), clock)
      {
        assert statuses[..i + 1][..i] == statuses[..i];
        AddStatus(statuses[i], Contributions(statuses[..i]), k, clock);
        k := k + if statuses[i].modelMeta == [] then |statuses[i].models| else |statuses[i].modelMeta|;
      }
      assert statuses[..|statuses|] == statuses;
    }

    /** One turn of the outer loop. `k` contributions came before. */
    method AddStatus(status: BackendStatus, ghost before: seq<Contribution>, k: nat, clock: nat -> int)
      requires k == |before| && entries == Collected(before, clock)
      modifies this
      ensures entries == Collected(before + Given(status), clock)
    {
      hide TrimSpace, Added, Collected;
      ghost var own := Given(status);
      assert before + own[..0] == before;
      var now, owned := Unix(status.updatedAt), status.id;
      if owned == "" { owned := DEFAULT_MODEL_OWNER; }
      if status.modelMeta == [] {
        for j := 0 to |status.models|
          invariant entries == Collected(before + own[..j], clock)
        {
          CollectedStep(before + own[..j], own[j], clock);
          assert before + own[..j] + [own[j]] == before + own[..j + 1];
          AddModel(status.models[j], now, owned, clock(k + j));
        }
      } else {
        for j := 0 to |status.modelMeta|
          invariant entries == Collected(before + own[..j], clock)
        {
          CollectedStep(before + own[..j], own[j], clock);
          assert before + own[..j] + [own[j]] == before + own[..j + 1];
          var meta := status.modelMeta[j];
          var created, owner := Unix(meta.createdAt), meta.ownedBy;
          if created == 0 { created := now; }
          if TrimSpace(owner) == "" { owner := owned; }
          AddModel(meta.name, created, owner, clock(k + j));
        }
      }
      assert own[..|own|] == own;
    }
  }

  datatype Answer = Got(model: Model) | BadRequest | NoSuchModel

  /** What a catalogue answers for an id. */
  function Lookup(m: map<string, Model>, id: string): Answer {
    if TrimSpace(id) == "" then BadRequest
    else if TrimSpace(id) in m then Got(m[TrimSpace(id)])
    else NoSuchModel
  }

  /** `ListModels`: the map's values in whatever order it gives them, sorted. */
  method ListModels(statuses: seq<BackendStatus>, clock: nat -> int) returns (data: seq<Model>)
    ensures data == ByKey(Collected(Contributions(statuses), clock))
  {
    var collected := new ModelMap();
    collected.CollectModels(statuses, clock);
    forall id | id in collected.entries ensures collected.entries[id].id == id {
      CatalogueClosedForm(Contributions(statuses), clock, id);
    }
    data := SortedValues(collected.entries, (model: Model) => model.id);
  }

  method GetModel(statuses: seq<BackendStatus>, clock: nat -> int, id: string) returns (r: Answer)
    ensures r == Lookup(Collected(Contributions(statuses), clock), id)
    ensures r == BadRequest <==> TrimSpace(id) == ""
    ensures r == NoSuchModel <==> TrimSpace(id) != "" && TrimSpace(id) !in Collected(Contributions(statuses), clock)
    ensures r.Got? ==> TrimSpace(id) in Collected(Contributions(statuses), clock)
                       && r.model == Collected(Contributions(statuses), clock)[TrimSpace(id)]
  {
    var name := TrimSpace(id);
    if name == "" { return BadRequest; }
    var collected := new ModelMap();
    collected.CollectModels(statuses, clock);
    if name in collected.entries { return Got(collected.entries[name]); }
    return NoSuchModel;
  }

  lemma CollectedStep(cs: seq<Contribution>, c: Contribution, clock: nat -> int)
    ensures Collected(cs + [c], clock) == Added(Collected(cs, clock), c, clock(|cs|))
  {
  }

  // ---- Closed form ----

  predicate Names(c: Contribution, name: string) {
    TrimSpace(c.name) == name
  }

  /** Position `i` is the first contribution of `name`. */
  ghost predicate IsFirst(cs: seq<Contribution>, name: string, i: nat)
    requires i < |cs|
  {
    Names(cs[i], name) && forall j | 0 <= j < i :: !Names(cs[j], name)
  }

  /** The time contribution `i` offers its entry: its own, or for the first one
      given none, the clock's. */
  ghost function Offer(cs: seq<Contribution>, clock: nat -> int, name: string, i: nat): int
    requires i < |cs|
  {
    if cs[i].created == 0 && IsFirst(cs, name, i) then clock(i) else cs[i].created
  }

  /** `v` is the least non-zero offer for `name`, or 0 when there is none. */
  ghost predicate IsEarliest(cs: seq<Contribution>, clock: nat -> int, name: string, v: int) {
    && (forall i | 0 <= i < |cs| && Names(cs[i], name) && Offer(cs, clock, name, i) != 0 ::
          v != 0 && v <= Offer(cs, clock, name, i))
    && (v != 0 ==> exists i | 0 <= i < |cs| :: Names(cs[i], name) && Offer(cs, clock, name, i) == v)
  }

  ghost predicate Mentioned(cs: seq<Contribution>, name: string) {
    exists i | 0 <= i < |cs| :: Names(cs[i], name)
  }

  lemma PrefixFacts(cs: seq<Contribution>, clock: nat -> int, name: string, n: nat)
    requires n + 1 == |cs|
    ensures forall i | 0 <= i < n :: cs[..n][i] == cs[i] && (IsFirst(cs[..n], name, i) <==> IsFirst(cs, name, i))
    ensures forall i | 0 <= i < n :: Offer(cs[..n], clock, name, i) == Offer(cs, clock, name, i)
    ensures Mentioned(cs, name) <==> Mentioned(cs[..n], name) || Names(cs[n], name)
    ensures IsFirst(cs, name, n) <==> Names(cs[n], name) && !Mentioned(cs[..n], name)
  {
    hide Names;
    if Mentioned(cs[..n], name) {
      var i :| 0 <= i < n && Names(cs[..n][i], name);
      assert Names(cs[i], name);
    }
    assert forall i | 0 <= i < n :: cs[..n][i] == cs[i];
  }

  /** The catalogue in closed form: its keys are the trimmed non-blank names
      contributed, each entry is owned by its first contributor and created at
      the least time offered. */
  lemma {:induction false} CatalogueClosedForm(cs: seq<Contribution>, clock: nat -> int, name: string)
    ensures var m := Collected(cs, clock);
            && (name in m <==> name != "" && Mentioned(cs, name))
            && (name in m ==>
                  && m[name].id == name
                  && IsEarliest(cs, clock, name, m[name].created)
                  && m[name].ownedBy != ""
                  && exists i: nat | i < |cs| :: IsFirst(cs, name, i) && m[name].ownedBy == OwnerOf(cs[i]))
  {
    if cs != [] {
      hide IsFirst, Offer, Added, OwnerOf, Names, IsEarliest;
      var n := |cs| - 1;
      var init := cs[..n];
      CatalogueClosedForm(init, clock, name);
      AddedEntry(Collected(init, clock), cs[n], clock(n), name);
      PrefixFacts(cs, clock, name, n);
      var m, before := Collected(cs, clock), Collected(init, clock);
      if name in m {
        if name in before {
          var i: nat :| i < n && IsFirst(init, name, i) && before[name].ownedBy == OwnerOf(init[i]);
          assert IsFirst(cs, name, i) && m[name].ownedBy == OwnerOf(cs[i]);
          OfferLater(cs, clock, name, n);
          EarliestStep(cs, clock, name, before[name].created, m[name].created);
        } else {
          OwnerNotEmpty(cs[n]);
          assert IsFirst(cs, name, n) && m[name].ownedBy == OwnerOf(cs[n]);
          EarliestFirst(cs, clock, name, m[name].created);
        }
      }
    }
  }

  /** One contribution, seen from one name. */
  lemma AddedEntry(m: map<string, Model>, c: Contribution, clock: int, name: string)
    requires name in m ==> name != "" && m[name].ownedBy != ""
    ensures var r := Added(m, c, clock);
            && (name in r <==> name in m || (name != "" && Names(c, name)))
            && (name in m ==>
                  && r[name].id == m[name].id && r[name].ownedBy == m[name].ownedBy
                  && r[name].created == if Names(c, name) && c.created != 0 && (m[name].created == 0 || c.created < m[name].created)
                                        then c.created else m[name].created)
            && (name in r && name !in m ==>
                  r[name] == Model(name, if c.created == 0 then clock else c.created, OwnerOf(c)))
  {
  }

  function OwnerOf(c: Contribution): string {
    if TrimSpace(c.owner) == "" then DEFAULT_MODEL_OWNER else c.owner
  }

  lemma OwnerNotEmpty(c: Contribution)
    ensures OwnerOf(c) != ""
  {
  }

  lemma OfferLater(cs: seq<Contribution>, clock: nat -> int, name: string, n: nat)
    requires n + 1 == |cs| && Mentioned(cs[..n], name)
    ensures Offer(cs, clock, name, n) == cs[n].created
  {
  }

  lemma EarliestStep(cs: seq<Contribution>, clock: nat -> int, name: string, v: int, w: int)
    requires cs != [] && IsEarliest(cs[..|cs| - 1], clock, name, v)
    requires var c := cs[|cs| - 1].created;
             w == if Names(cs[|cs| - 1], name) && c != 0 && (v == 0 || c < v) then c else v
    requires Offer(cs, clock, name, |cs| - 1) == cs[|cs| - 1].created
    ensures IsEarliest(cs, clock, name, w)
  {
    hide Names, Offer, IsFirst;
    var n := |cs| - 1;
    PrefixFacts(cs, clock, name, n);
    if v != 0 {
      var i :| 0 <= i < n && Names(cs[..n][i], name) && Offer(cs[..n], clock, name, i) == v;
      assert Names(cs[i], name) && Offer(cs, clock, name, i) == v;
    }
    forall i | 0 <= i < |cs| && Names(cs[i], name) && Offer(cs, clock, name, i) != 0
      ensures w != 0 && w <= Offer(cs, clock, name, i)
    {
      if i < n { assert Names(cs[..n][i], name); }
    }
  }

  lemma EarliestFirst(cs: seq<Contribution>, clock: nat -> int, name: string, w: int)
    requires cs != [] && !Mentioned(cs[..|cs| - 1], name) && Names(cs[|cs| - 1], name)
    requires w == if cs[|cs| - 1].created == 0 then clock(|cs| - 1) else cs[|cs| - 1].created
    ensures IsEarliest(cs, clock, name, w)
  {
    hide Names;
    var n := |cs| - 1;
    PrefixFacts(cs, clock, name, n);
    forall i | 0 <= i < n ensures !Names(cs[i], name) {
      assert cs[..n][i] == cs[i];
    }
    assert Offer(cs, clock, name, n) == w;
  }

  // ---- The list and the single answers agree ----

  /** The list has strictly increasing ids, and a model is in it exactly when
      asking for its id returns that model. */
  lemma ListAgreesWithGet(cs: seq<Contribution>, clock: nat -> int, model: Model)
    ensures var data := ByKey(Collected(cs, clock));
            && (forall i, j | 0 <= i < j < |data| :: Less(data[i].id, data[j].id))
            && (model in data <==> Lookup(Collected(cs, clock), model.id) == Got(model))
  {
    hide TrimSpace, Collected, IsEarliest, Less, Ascending, IsFirst;
    var m := Collected(cs, clock);
    var data, ids := ByKey(m), Ascending(m.Keys);
    forall id | id in m ensures m[id].id == id && TrimSpace(id) == id && id != "" {
      CatalogueClosedForm(cs, clock, id);
      MentionedTrimmed(cs, id);
    }
    assert forall k | 0 <= k < |data| :: ids[k] in m && data[k].id == ids[k];
    if Lookup(m, model.id) == Got(model) {
      var k :| 0 <= k < |ids| && ids[k] == TrimSpace(model.id);
      assert data[k] == model;
    }
  }

  lemma MentionedTrimmed(cs: seq<Contribution>, name: string)
    requires Mentioned(cs, name)
    ensures TrimSpace(name) == name
  {
  }
}
