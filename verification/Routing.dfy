/** Choosing a backend for a model. */
module Routing {
  import opened Text
  import opened Decimal
  import opened Ordering
  import opened Records

  predicate Eligible(s: BackendStatus) {
    s.healthy && TrimSpace(s.address) != ""
  }

  function Contains(values: seq<string>, target: string): bool {
    target != "" && target in values
  }

  /** 0 when the model is loaded, 1 when it is only installed, 2 otherwise. */
  function Tier(s: BackendStatus, model: string): nat {
    if Contains(s.loadedModels, model) then 0
    else if Contains(s.models, model) then 1
    else 2
  }

  /** Position `i` holds an eligible record and no eligible record has a smaller
      tier, or the same tier and an earlier position. */
  ghost predicate Best(statuses: seq<BackendStatus>, model: string, i: nat)
    requires i < |statuses|
  {
    && Eligible(statuses[i])
    && forall j | 0 <= j < |statuses| && Eligible(statuses[j]) ::
         || Tier(statuses[i], model) < Tier(statuses[j], model)
         || (Tier(statuses[i], model) == Tier(statuses[j], model) && i <= j)
  }

  datatype Kind = Any | Of(tier: nat)

  predicate Counts(s: BackendStatus, model: string, kind: Kind) {
    Eligible(s) && (kind == Any || Tier(s, model) == kind.tier)
  }

  /** The eligible records of a kind, in listing order. */
  function Those(xs: seq<BackendStatus>, model: string, kind: Kind): seq<BackendStatus> {
    if xs == [] then []
    else
      var n := |xs| - 1;
      Those(xs[..n], model, kind) + if Counts(xs[n], model, kind) then [xs[n]] else []
  }

  ghost predicate FirstOf(xs: seq<BackendStatus>, model: string, kind: Kind, i: nat)
    requires i < |xs|
  {
    Counts(xs[i], model, kind) && forall j | 0 <= j < i :: !Counts(xs[j], model, kind)
  }

  lemma {:induction false} ThoseHead(xs: seq<BackendStatus>, model: string, kind: Kind)
    ensures Those(xs, model, kind) == [] ==> forall i | 0 <= i < |xs| :: !Counts(xs[i], model, kind)
    ensures Those(xs, model, kind) != [] ==>
              exists i: nat | i < |xs| :: FirstOf(xs, model, kind, i) && Those(xs, model, kind)[0] == xs[i]
  {
    hide Counts;
    if xs != [] {
      var n := |xs| - 1;
      ThoseHead(xs[..n], model, kind);
      assert forall i | 0 <= i < n :: xs[..n][i] == xs[i];
      if Those(xs[..n], model, kind) != [] {
        var i: nat :| i < n && FirstOf(xs[..n], model, kind, i) && Those(xs[..n], model, kind)[0] == xs[..n][i];
        assert FirstOf(xs, model, kind, i);
      } else if Counts(xs[n], model, kind) {
        assert FirstOf(xs, model, kind, n);
      }
    }
  }

  /** The head of a kind's list is best when no better tier has a member. */
  lemma HeadIsBest(xs: seq<BackendStatus>, model: string, kind: Kind)
    requires Those(xs, model, kind) != []
    requires match kind
             case Of(t) => t == 0 || (t == 1 && Those(xs, model, Of(0)) == [])
             case Any => model == "" || (Those(xs, model, Of(0)) == [] && Those(xs, model, Of(1)) == [])
    ensures exists i: nat | i < |xs| :: Best(xs, model, i) && Those(xs, model, kind)[0] == xs[i]
  {
    hide TrimSpace, Those;
    ThoseHead(xs, model, Of(0));
    ThoseHead(xs, model, Of(1));
    ThoseHead(xs, model, kind);
    var i: nat :| i < |xs| && FirstOf(xs, model, kind, i) && Those(xs, model, kind)[0] == xs[i];
    assert forall j | 0 <= j < i :: !Counts(xs[j], model, kind);
    assert Those(xs, model, Of(0)) == [] ==> forall j | 0 <= j < |xs| :: !Counts(xs[j], model, Of(0));
    assert Those(xs, model, Of(1)) == [] ==> forall j | 0 <= j < |xs| :: !Counts(xs[j], model, Of(1));
    assert Best(xs, model, i);
  }

  /** `selectBackend`, given the listing it works on. */
  method Select(statuses: seq<BackendStatus>, model: string) returns (r: Option<BackendStatus>)
    ensures r.None? <==> forall i | 0 <= i < |statuses| :: !statuses[i].healthy || TrimSpace(statuses[i].address) == ""
    ensures r.Some? ==> exists i: nat | i < |statuses| :: Best(statuses, model, i) && r.value == statuses[i]
  {
    hide TrimSpace, Best;
    var healthy, loadedHits, modelHits: seq<BackendStatus> := [], [], [];
    for k := 0 to |statuses|
      invariant healthy == Those(statuses[..k], model, Any)
      invariant loadedHits == Those(statuses[..k], model, Of(0))
      invariant modelHits == Those(statuses[..k], model, Of(1))
    {
      assert statuses[..k + 1][..k] == statuses[..k] && statuses[..k + 1][k] == statuses[k];
      var status := statuses[k];
      if !status.healthy || TrimSpace(status.address) == "" { continue; }
      healthy := healthy + [status];
      if model == "" { continue; }
      if Contains(status.loadedModels, model) {
        loadedHits := loadedHits + [status];
        continue;
      }
      if Contains(status.models, model) {
        modelHits := modelHits + [status];
      }
    }
    assert statuses[..|statuses|] == statuses;
    ThoseHead(statuses, model, Any);
    if healthy == [] {
      assert forall i | 0 <= i < |statuses| :: !Counts(statuses[i], model, Any);
      return None;
    }
    ghost var i: nat :| i < |statuses| && FirstOf(statuses, model, Any, i);
    if model == "" {
      HeadIsBest(statuses, model, Any);
      return Some(healthy[0]);
    }
    if loadedHits != [] {
      HeadIsBest(statuses, model, Of(0));
      return Some(loadedHits[0]);
    }
    if modelHits != [] {
      HeadIsBest(statuses, model, Of(1));
      return Some(modelHits[0]);
    }
    HeadIsBest(statuses, model, Any);
    return Some(healthy[0]);
  }

  /** Best, said of the records: healthy with an address, and among all of those
      the first that has the model loaded; when none has, the first that has it
      installed; when none has that either or no model is asked for, the first. */
  lemma BestMeaning(statuses: seq<BackendStatus>, model: string, i: nat)
    requires i < |statuses|
    ensures Best(statuses, model, i) <==>
            && statuses[i].healthy && TrimSpace(statuses[i].address) != ""
            && forall j | 0 <= j < |statuses| && statuses[j].healthy && TrimSpace(statuses[j].address) != "" ::
                 if model != "" && model in statuses[i].loadedModels then
                   model in statuses[j].loadedModels ==> i <= j
                 else if model != "" && model in statuses[i].models then
                   model !in statuses[j].loadedModels && (model in statuses[j].models ==> i <= j)
                 else
                   && (model != "" ==> model !in statuses[j].loadedModels && model !in statuses[j].models)
                   && i <= j
  {
    hide TrimSpace;
  }

  /** There is at most one best position. */
  lemma BestUnique(statuses: seq<BackendStatus>, model: string, i: nat, k: nat)
    requires i < |statuses| && k < |statuses| && Best(statuses, model, i) && Best(statuses, model, k)
    ensures i == k
  {
  }

  /** When ids increase along the listing, the best record is the one of
      smallest id within the best tier. */
  lemma BestIsLeastId(statuses: seq<BackendStatus>, model: string, i: nat)
    requires forall a, b | 0 <= a < b < |statuses| :: Less(statuses[a].id, statuses[b].id)
    requires i < |statuses|
    ensures Best(statuses, model, i) <==>
            && Eligible(statuses[i])
            && forall s | s in statuses && Eligible(s) ::
                 || Tier(statuses[i], model) < Tier(s, model)
                 || (Tier(statuses[i], model) == Tier(s, model) && (s == statuses[i] || Less(statuses[i].id, s.id)))
  {
    hide Eligible, Tier;
    if Eligible(statuses[i]) && !Best(statuses, model, i) {
      var j: nat :| j < |statuses| && Eligible(statuses[j]) &&
        (Tier(statuses[j], model) < Tier(statuses[i], model) || (Tier(statuses[j], model) == Tier(statuses[i], model) && j < i));
      assert statuses[j] in statuses;
      if j < i { LessAsymmetric(statuses[j].id, statuses[i].id); }
    }
  }
}
