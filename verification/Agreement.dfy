/** Agreement of the catalogue with what routing can hit. */
module Agreement {
  import opened Text
  import opened Decimal
  import opened Ordering
  import opened ListCodec
  import opened Records
  import opened Fetch
  import opened RedisStore
  import opened Routing
  import opened Registry
  import opened Interleaving
  import opened Runs
  import opened Catalogue
  import opened CatalogueRecords

  predicate Hit(s: BackendStatus, name: string) {
    Contains(s.loadedModels, name) || Contains(s.models, name)
  }

  lemma MetaContributionNames(s: BackendStatus)
    requires s.modelMeta != []
    ensures forall k | 0 <= k < |Given(s)| :: Given(s)[k].name == s.modelMeta[k].name
  {
  }

  /** A well-formed record contributes exactly the names routing can hit on it,
      although one reads the name lists and the other prefers the metadata. */
  lemma GoodRecordNames(s: BackendStatus, name: string)
    requires GoodTriple(TripleOf(s)) && name != ""
    ensures Mentioned(Given(s), name) <==> Hit(s, name)
  {
    hide TrimSpace, Less, Increasing, MetaContribution;
    var t, cs := TripleOf(s), Given(s);
    assert forall x | x in t.models || x in t.loaded :: TrimSpace(x) == x;
    if s.modelMeta == [] {
      GoodTripleEmpty(t);
    } else {
      MetaContributionNames(s);
      assert forall k | 0 <= k < |cs| :: s.modelMeta[k].name in MetaNames(s.modelMeta);
      if Hit(s, name) {
        assert name in MetaNames(s.modelMeta);
        var k :| 0 <= k < |s.modelMeta| && s.modelMeta[k].name == name;
        assert Names(cs[k], name);
      }
      if Mentioned(cs, name) {
        var k :| 0 <= k < |cs| && Names(cs[k], name);
        assert s.modelMeta[k].name in MetaNames(s.modelMeta);
      }
    }
  }

  /** Asking the catalogue `m` for a name finds it exactly when some record,
      healthy or not, has that name loaded or installed; in particular the
      catalogue shows whatever routing can hit. */
  ghost predicate AgreesOn(all: seq<BackendStatus>, m: map<string, Model>, name: string) {
    && (Lookup(m, name).Got? <==> exists s | s in all :: Hit(s, TrimSpace(name)))
    && ((exists s | s in all :: Hit(s, name)) ==> Lookup(m, name).Got?)
  }

  ghost predicate NoCommas(s: BackendStatus) {
    forall info | info in s.modelMeta :: ',' !in info.name
  }

  /** A record as the store gives it back. */
  ghost predicate Kept(s: BackendStatus, t: Triple) {
    GoodTriple(t) && TripleOf(s) == AsStored(t)
  }

  /** In every interleaving, over the answer of any listing, catalogue and
      routing agree on every name if and only if no metadata listed names a model
      with a comma. */
  lemma RoutingAndCatalogueAgree(ws: seq<World>, es: seq<Event>, n: nat, t: nat, clock: nat -> int)
    requires IsRun(ws, es) && n < |ws| && t in ws[n].tasks && ws[n].tasks[t].Answered?
    ensures var all := ws[n].tasks[t].statuses;
            (forall name :: AgreesOn(all, Collected(Contributions(all), clock), name)) <==> forall s | s in all :: NoCommas(s)
  {
    hide IsRun, Collected, Kept, NoCommas, AgreesOn, Contributions, StoreOk, RecordOk, FetchedOk, Increasing;
    RunKeepsInv(ws, es, n);
    var all := ws[n].tasks[t].statuses;
    forall s | s in all ensures exists u :: Kept(s, u) { AnsweredIsKept(ws[n].fetched, s); }
    if forall s | s in all :: NoCommas(s) {
      forall name ensures AgreesOn(all, Collected(Contributions(all), clock), name) {
        forall s | s in all ensures GoodTriple(TripleOf(s)) {
          var u :| Kept(s, u);
          KeptWhole(s, u);
        }
        GoodAgree(all, clock, name);
      }
    } else {
      var s :| s in all && !NoCommas(s);
      CommaDisagrees(all, clock, s);
    }
  }

  lemma AnsweredIsKept(fetched: set<(string, Triple)>, s: BackendStatus)
    requires FetchedOk(fetched) && RecordOk(fetched, s)
    ensures exists u :: Kept(s, u)
  {
    hide FetchedOk, RecordOk, GoodTriple, AsStored;
    var u := RecordTriple(fetched, s);
    assert Kept(s, u);
  }

  lemma KeptWhole(s: BackendStatus, t: Triple)
    requires Kept(s, t)
    ensures NoCommas(s) <==> GoodTriple(TripleOf(s))
  {
    hide GoodTriple, CommaFree, Pieces;
    CommaFreeIsClean(t);
    SurvivesUncut(t);
  }

  /** Records that are well formed agree with the catalogue made of them. */
  lemma GoodAgree(all: seq<BackendStatus>, clock: nat -> int, name: string)
    requires forall s | s in all :: GoodTriple(TripleOf(s))
    ensures AgreesOn(all, Collected(Contributions(all), clock), name)
  {
    hide TrimSpace, Collected, GoodTriple, Hit, Mentioned, Given, Contributions, IsEarliest, IsFirst;
    var id := TrimSpace(name);
    CatalogueClosedForm(Contributions(all), clock, id);
    MentionedByStatus(all, id);
    if id != "" {
      forall s | s in all ensures Mentioned(Given(s), id) <==> Hit(s, id) { GoodRecordNames(s, id); }
    } else {
      forall s | s in all ensures !Hit(s, id) { NoHit(s); }
    }
    forall s | s in all && Hit(s, name) ensures TrimSpace(name) == name { HitTrimmed(s, name); }
  }

  lemma NoHit(s: BackendStatus)
    ensures !Hit(s, "")
  {
  }

  lemma HitTrimmed(s: BackendStatus, name: string)
    requires GoodTriple(TripleOf(s)) && Hit(s, name)
    ensures TrimSpace(name) == name
  {
  }

  /** A name with a comma in the metadata is in the catalogue and out of reach of
      routing. */
  lemma CommaDisagrees(all: seq<BackendStatus>, clock: nat -> int, s: BackendStatus)
    requires s in all && !NoCommas(s) && forall r | r in all :: exists u :: Kept(r, u)
    ensures exists name :: !AgreesOn(all, Collected(Contributions(all), clock), name)
  {
    hide Collected, Kept, Contributions, Hit, Mentioned, Given, TrimSpace, IsEarliest, IsFirst;
    var info :| info in s.modelMeta && ',' in info.name;
    var name := info.name;
    var t :| Kept(s, t);
    MetaIsMentioned(s, t, info);
    CatalogueClosedForm(Contributions(all), clock, name);
    MentionedByStatus(all, name);
    forall r | r in all ensures !Hit(r, name) {
      var u :| Kept(r, u);
      CommaNotHit(r, u, name);
    }
    assert !AgreesOn(all, Collected(Contributions(all), clock), name);
  }

  lemma MetaIsMentioned(s: BackendStatus, t: Triple, info: ModelInfo)
    requires Kept(s, t) && info in s.modelMeta
    ensures info.name != "" && TrimSpace(info.name) == info.name && Mentioned(Given(s), info.name)
  {
    hide Less, Increasing, TrimSpace, Pieces, MetaContribution;
    assert info.name in MetaNames(t.meta);
    assert info.name in t.models || info.name in t.loaded;
    MetaContributionNames(s);
    var k :| 0 <= k < |s.modelMeta| && s.modelMeta[k] == info;
    assert Names(Given(s)[k], info.name);
  }

  lemma CommaNotHit(s: BackendStatus, t: Triple, name: string)
    requires Kept(s, t) && ',' in name
    ensures !Hit(s, name)
  {
    hide GoodTriple, Pieces;
    PiecesClean(t.models);
    PiecesClean(t.loaded);
  }

  /** What the store does to a model whose name has a comma: routing could hit it
      on the record that is saved, but not on the record that is loaded, which
      still gives the name to the catalogue. */
  lemma CommaNameUnroutable(s: StoreState, b: BackendStatus, name: string)
    requires AvailableModels !in HashOf(s, b.id) && GoodTriple(TripleOf(b))
    requires Hit(b, name) && ',' in name
    ensures var r := Load(Saved(s, b, 0.0), b.id); Mentioned(Given(r), name) && !Hit(r, name)
  {
    hide GoodTriple, Load, Saved, Normalise, Pieces;
    LoadedTriple(s, b);
    var r, t := Load(Saved(s, b, 0.0), b.id), TripleOf(b);
    assert Kept(r, t);
    CommaNotHit(r, t, name);
    var info := HitHasInfo(b, name);
    assert TripleOf(r).meta == t.meta;
    MetaIsMentioned(r, t, info);
  }

  lemma HitHasInfo(b: BackendStatus, name: string) returns (info: ModelInfo)
    requires GoodTriple(TripleOf(b)) && Hit(b, name)
    ensures info in b.modelMeta && info.name == name
  {
    hide Less, Increasing;
    assert name in TripleOf(b).models || name in TripleOf(b).loaded;
    assert name in MetaNames(b.modelMeta);
    info :| info in b.modelMeta && info.name == name;
  }

  /** Say a poll lists one model, "a,b". */
  lemma CommaWitness(clock: nat -> int)
    ensures var ping := Reached([ListModel("a,b", "", 1, "", 1)], None);
            var b := Synced(NO_STATUS.(id := "x", address := "host"), Poll(ping, 0, 1));
            var r := Load(Saved(EMPTY_STORE, b, 0.0), "x");
            Hit(b, "a,b") && Lookup(Collected(Contributions([r]), clock), "a,b").Got? && !Hit(r, "a,b")
  {
    var entry := ListModel("a,b", "", 1, "", 1);
    var ping := Reached([entry], None);
    var b := Synced(NO_STATUS.(id := "x", address := "host"), Poll(ping, 0, 1));
    assert TrimSpace("a,b") == "a,b";
    hide TrimSpace, Ascending, Load, Saved, Collected, Mentioned, Given, IsEarliest, IsFirst, GoodTriple;
    assert "a,b" in InstalledNames([entry]) by { assert [entry][..0] == []; }
    FetchedIsGood(ping);
    CommaNameUnroutable(EMPTY_STORE, b, "a,b");
    var r := Load(Saved(EMPTY_STORE, b, 0.0), "x");
    CatalogueClosedForm(Contributions([r]), clock, "a,b");
    MentionedByStatus([r], "a,b");
    assert r in [r];
  }
}
