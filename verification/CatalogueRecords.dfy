/** The catalogue in terms of the backend records it is made of. */
module CatalogueRecords {
  import opened Text
  import opened Records
  import opened Catalogue

  lemma {:induction false} MentionedByStatus(statuses: seq<BackendStatus>, name: string)
    ensures Mentioned(Contributions(statuses), name) <==> exists s | s in statuses :: Mentioned(Given(s), name)
  {
    hide Names, Given, Mentioned;
    if statuses != [] {
      var n := |statuses| - 1;
      MentionedByStatus(statuses[..n], name);
      MentionedConcat(Contributions(statuses[..n]), Given(statuses[n]), name);
      assert statuses == statuses[..n] + [statuses[n]];
    } else {
      NoneMentioned(name);
    }
  }

  lemma NoneMentioned(name: string)
    ensures !Mentioned([], name)
  {
  }

  lemma MentionedConcat(a: seq<Contribution>, b: seq<Contribution>, name: string)
    ensures Mentioned(a + b, name) <==> Mentioned(a, name) || Mentioned(b, name)
  {
    hide Names;
    if Mentioned(a, name) {
      var i :| 0 <= i < |a| && Names(a[i], name);
      assert Names((a + b)[i], name);
    }
    if Mentioned(b, name) {
      var i :| 0 <= i < |b| && Names(b[i], name);
      assert Names((a + b)[|a| + i], name);
    }
  }

  /** Record `s` lists model `name`: in its metadata or, if it has none, among its
      installed models. */
  ghost predicate ListsModel(s: BackendStatus, name: string) {
    if s.modelMeta == [] then exists x | x in s.models :: TrimSpace(x) == name
    else exists info | info in s.modelMeta :: TrimSpace(info.name) == name
  }

  /** Record `s` dates model `name` at second `at`: by its metadata or, where that
      gives no time or there is none, by the record's update. */
  ghost predicate Dates(s: BackendStatus, name: string, at: int) {
    if s.modelMeta == [] then ListsModel(s, name) && at == Unix(s.updatedAt)
    else exists info | info in s.modelMeta ::
           && TrimSpace(info.name) == name
           && at == if Unix(info.createdAt) != 0 then Unix(info.createdAt) else Unix(s.updatedAt)
  }

  /** Entry `j` of record `s`. */
  ghost predicate EntryNames(s: BackendStatus, j: nat, name: string) {
    if s.modelMeta == [] then j < |s.models| && TrimSpace(s.models[j]) == name
    else j < |s.modelMeta| && TrimSpace(s.modelMeta[j].name) == name
  }

  /** Record `i` is the first to list `name`, and `j` the first entry of it that
      does. */
  ghost predicate FirstListed(all: seq<BackendStatus>, name: string, i: nat, j: nat) {
    && i < |all| && EntryNames(all[i], j, name)
    && (forall k | 0 <= k < i :: !ListsModel(all[k], name))
    && (forall l: nat | l < j :: !EntryNames(all[i], l, name))
  }

  /** What one entry of a record contributes. */
  lemma GivenEntry(s: BackendStatus, j: nat)
    requires j < |Given(s)|
    ensures forall name :: Names(Given(s)[j], name) <==> EntryNames(s, j, name)
    ensures s.modelMeta != [] ==>
              && j < |s.modelMeta|
              && var info := s.modelMeta[j];
                 && Given(s)[j].created == (if Unix(info.createdAt) != 0 then Unix(info.createdAt) else Unix(s.updatedAt))
                 && OwnerOf(Given(s)[j]) == (if TrimSpace(info.ownedBy) != "" then info.ownedBy
                                             else if TrimSpace(s.id) != "" then s.id else "library")
    ensures s.modelMeta == [] ==>
              && Given(s)[j].created == Unix(s.updatedAt)
              && OwnerOf(Given(s)[j]) == (if TrimSpace(s.id) != "" then s.id else "library")
  {
    assert TrimSpace("library") == "library" && TrimSpace("") == "";
    hide TrimSpace, Unix;
  }

  lemma GivenNames(s: BackendStatus, name: string)
    ensures ListsModel(s, name) <==> exists j: nat :: j < |Given(s)| && Names(Given(s)[j], name)
  {
    hide TrimSpace, Unix, Names;
    forall j: nat | j < |Given(s)| { GivenEntry(s, j); }
    if ListsModel(s, name) {
      if s.modelMeta == [] {
        var k: nat :| k < |s.models| && TrimSpace(s.models[k]) == name;
        assert EntryNames(s, k, name) && Names(Given(s)[k], name);
      } else {
        var k: nat :| k < |s.modelMeta| && TrimSpace(s.modelMeta[k].name) == name;
        assert EntryNames(s, k, name) && Names(Given(s)[k], name);
      }
    }
  }

  lemma GivenDates(s: BackendStatus, name: string, at: int)
    ensures Dates(s, name, at) <==> exists j: nat :: j < |Given(s)| && Names(Given(s)[j], name) && Given(s)[j].created == at
  {
    hide TrimSpace, Unix, Names;
    forall j: nat | j < |Given(s)| { GivenEntry(s, j); }
    GivenNames(s, name);
    if Dates(s, name, at) && s.modelMeta != [] {
      var k :| 0 <= k < |s.modelMeta| && TrimSpace(s.modelMeta[k].name) == name
               && at == if Unix(s.modelMeta[k].createdAt) != 0 then Unix(s.modelMeta[k].createdAt) else Unix(s.updatedAt);
      assert EntryNames(s, k, name);
    }
  }

  /** Which records a position among all contributions falls in. */
  lemma {:induction false} Located(all: seq<BackendStatus>, q: nat) returns (i: nat, j: nat)
    requires q < |Contributions(all)|
    ensures i < |all| && j < |Given(all[i])| && q == |Contributions(all[..i])| + j
    ensures Contributions(all)[q] == Given(all[i])[j]
  {
    hide Given;
    var n := |all| - 1;
    var before := |Contributions(all[..n])|;
    if q < before {
      i, j := Located(all[..n], q);
      assert all[..n][..i] == all[..i];
    } else {
      i, j := n, q - before;
    }
  }

  lemma {:induction false} Placed(all: seq<BackendStatus>, i: nat, j: nat)
    requires i < |all| && j < |Given(all[i])|
    ensures var q := |Contributions(all[..i])| + j; q < |Contributions(all)| && Contributions(all)[q] == Given(all[i])[j]
  {
    hide Given;
    var n := |all| - 1;
    if i < n {
      Placed(all[..n], i, j);
      assert all[..n][..i] == all[..i];
    }
  }

  lemma {:induction false} Earlier(all: seq<BackendStatus>, k: nat, j: nat, i: nat)
    requires k < i <= |all| && j < |Given(all[k])|
    ensures |Contributions(all[..k])| + j < |Contributions(all[..i])|
    decreases i
  {
    hide Given;
    assert all[..i][..i - 1] == all[..i - 1];
    if k < i - 1 { Earlier(all, k, j, i - 1); }
  }

  lemma FirstIsListed(all: seq<BackendStatus>, name: string, q: nat, i: nat, j: nat)
    requires q < |Contributions(all)| && IsFirst(Contributions(all), name, q)
    requires i < |all| && j < |Given(all[i])| && q == |Contributions(all[..i])| + j
    requires Contributions(all)[q] == Given(all[i])[j]
    ensures FirstListed(all, name, i, j)
  {
    hide TrimSpace, Names, Given, Contributions, ListsModel, EntryNames;
    GivenEntry(all[i], j);
    forall k | 0 <= k < i ensures !ListsModel(all[k], name) {
      GivenNames(all[k], name);
      forall l: nat | l < |Given(all[k])| ensures !Names(Given(all[k])[l], name) {
        Earlier(all, k, l, i);
        Placed(all, k, l);
      }
    }
    forall l: nat | l < j ensures !EntryNames(all[i], l, name) {
      GivenEntry(all[i], l);
      Placed(all, i, l);
    }
  }

  /** The names of the catalogue are those some record lists. */
  lemma CatalogueNames(all: seq<BackendStatus>, clock: nat -> int, name: string)
    ensures name in Collected(Contributions(all), clock) <==> name != "" && exists s | s in all :: ListsModel(s, name)
  {
    hide TrimSpace, Names, Given, Contributions, Collected, ListsModel, IsEarliest, IsFirst, OwnerOf;
    CatalogueClosedForm(Contributions(all), clock, name);
    MentionedByStatus(all, name);
    forall s | s in all { GivenNames(s, name); }
  }

  /** A model's creation time is the least non-zero time by which any record dates
      it, the clock's included when the very first entry gives none at all; its
      owner is the one the first entry names or, when that is blank, the backend,
      and when that is blank too the library. */
  lemma CatalogueFromRecords(all: seq<BackendStatus>, clock: nat -> int, name: string) returns (i: nat, j: nat, k: nat)
    requires name in Collected(Contributions(all), clock)
    ensures FirstListed(all, name, i, j)
    ensures var owner := Collected(Contributions(all), clock)[name].ownedBy;
            if all[i].modelMeta != [] && TrimSpace(all[i].modelMeta[j].ownedBy) != "" then owner == all[i].modelMeta[j].ownedBy
            else if TrimSpace(all[i].id) != "" then owner == all[i].id
            else owner == "library"
    ensures var created := Collected(Contributions(all), clock)[name].created;
            var undated := Unix(all[i].updatedAt) == 0 && (all[i].modelMeta != [] ==> Unix(all[i].modelMeta[j].createdAt) == 0);
            && (forall s, at | s in all && Dates(s, name, at) && at != 0 :: created != 0 && created <= at)
            && (undated && clock(k) != 0 ==> created != 0 && created <= clock(k))
            && (created != 0 ==> (exists s | s in all :: Dates(s, name, created)) || (undated && created == clock(k)))
  {
    hide TrimSpace, Names, Given, Contributions, Collected, ListsModel, IsEarliest, IsFirst, OwnerOf, Dates, Unix;
    var cs := Contributions(all);
    CatalogueClosedForm(cs, clock, name);
    k :| k < |cs| && IsFirst(cs, name, k) && Collected(cs, clock)[name].ownedBy == OwnerOf(cs[k]);
    i, j := Located(all, k);
    FirstIsListed(all, name, k, i, j);
    GivenEntry(all[i], j);
    EarliestFromRecords(all, clock, name, Collected(cs, clock)[name].created, k);
  }

  /** The least offer, in terms of the records. */
  lemma EarliestFromRecords(all: seq<BackendStatus>, clock: nat -> int, name: string, v: int, k: nat)
    requires var cs := Contributions(all); IsEarliest(cs, clock, name, v) && k < |cs| && IsFirst(cs, name, k)
    ensures forall s, at | s in all && Dates(s, name, at) && at != 0 :: v != 0 && v <= at
    ensures Contributions(all)[k].created == 0 && clock(k) != 0 ==> v != 0 && v <= clock(k)
    ensures v != 0 ==> (exists s | s in all :: Dates(s, name, v)) || (Contributions(all)[k].created == 0 && v == clock(k))
  {
    hide TrimSpace, Names, Given, Contributions, Dates;
    var cs := Contributions(all);
    forall s, at | s in all && Dates(s, name, at) && at != 0 ensures v != 0 && v <= at {
      GivenDates(s, name, at);
      var i: nat :| i < |all| && all[i] == s;
      var j: nat :| j < |Given(s)| && Names(Given(s)[j], name) && Given(s)[j].created == at;
      Placed(all, i, j);
      assert Offer(cs, clock, name, |Contributions(all[..i])| + j) == at;
    }
    assert cs[k].created == 0 ==> Offer(cs, clock, name, k) == clock(k);
    if v != 0 {
      var p: nat :| p < |cs| && Names(cs[p], name) && Offer(cs, clock, name, p) == v;
      if cs[p].created != 0 {
        var i, j := Located(all, p);
        GivenDates(all[i], name, v);
        assert all[i] in all;
      }
    }
  }
}
