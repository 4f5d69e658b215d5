/** How far the creation times of the catalogue depend on the order in which the
    contributions come. */
module CatalogueOrder {
  import opened Text
  import opened Catalogue

  /** A clock that shows `t` all along. */
  function At(t: int): nat -> int {
    (_: nat) => t
  }

  /** Whatever order the contributions come in, at clock reading `t` the name is
      listed with the same creation time, or not at all. */
  ghost predicate OrderIrrelevant(cs: seq<Contribution>, t: int, name: string) {
    forall ds | multiset(cs) == multiset(ds) :: SameTime(cs, At(t), ds, At(t), name)
  }

  ghost predicate SameTime(cs: seq<Contribution>, clock: nat -> int, ds: seq<Contribution>, clock2: nat -> int, name: string) {
    var m, n := Collected(cs, clock), Collected(ds, clock2);
    && (name in m <==> name in n)
    && (name in m ==> m[name].created == n[name].created)
  }

  ghost predicate Timed(cs: seq<Contribution>, name: string) {
    forall c | c in cs && Names(c, name) :: c.created != 0
  }

  ghost predicate Untimed(cs: seq<Contribution>, name: string) {
    forall c | c in cs && Names(c, name) :: c.created == 0
  }

  /** Some contribution gives a time that is not after `t`. */
  ghost predicate TimedBy(cs: seq<Contribution>, name: string, t: int) {
    exists c | c in cs :: Names(c, name) && c.created != 0 && c.created <= t
  }

  /** The creation time of a model does not depend on the order of the
      contributions exactly when all of them give a time, or none does, or the
      clock shows zero, which counts as no time, or it is already past the least
      time given. */
  lemma CreatedIgnoresOrder(cs: seq<Contribution>, t: int, name: string)
    requires name != ""
    ensures OrderIrrelevant(cs, t, name) <==> Timed(cs, name) || Untimed(cs, name) || t == 0 || TimedBy(cs, name, t)
  {
    hide SameTime, Names;
    if Timed(cs, name) || Untimed(cs, name) || t == 0 || TimedBy(cs, name, t) {
      forall ds | multiset(cs) == multiset(ds) ensures SameTime(cs, At(t), ds, At(t), name) {
        SameMembers(cs, ds);
        OneReading(cs, ds, t, name);
        OneReading(ds, cs, t, name);
        SameOffers(cs, ds, At(t), At(t), name);
      }
    } else {
      OrderMatters(cs, t, name);
    }
  }

  /** When every contribution gives a time, neither their order nor the clock
      changes which names are listed and with what time. */
  lemma TimesAgree(cs: seq<Contribution>, ds: seq<Contribution>, clock: nat -> int, clock2: nat -> int, name: string)
    requires multiset(cs) == multiset(ds) && Timed(cs, name)
    ensures SameTime(cs, clock, ds, clock2, name)
  {
    hide SameTime, Names;
    SameMembers(cs, ds);
    OwnTimes(cs, ds, clock, clock2, name);
    OwnTimes(ds, cs, clock2, clock, name);
    SameOffers(cs, ds, clock, clock2, name);
  }

  /** For every time `cs` offers `name`, `ds` offers one that is not later. */
  ghost predicate Undercuts(ds: seq<Contribution>, clock2: nat -> int, cs: seq<Contribution>, clock: nat -> int, name: string) {
    forall i | 0 <= i < |cs| && Names(cs[i], name) && Offer(cs, clock, name, i) != 0 ::
      Offers(ds, clock2, name, Offer(cs, clock, name, i))
  }

  ghost predicate Offers(ds: seq<Contribution>, clock: nat -> int, name: string, v: int) {
    exists j | 0 <= j < |ds| :: Names(ds[j], name) && Offer(ds, clock, name, j) != 0 && Offer(ds, clock, name, j) <= v
  }

  lemma SameOffers(cs: seq<Contribution>, ds: seq<Contribution>, clock: nat -> int, clock2: nat -> int, name: string)
    requires forall c :: c in cs <==> c in ds
    requires Undercuts(ds, clock2, cs, clock, name) && Undercuts(cs, clock, ds, clock2, name)
    ensures SameTime(cs, clock, ds, clock2, name)
  {
    hide TrimSpace, Collected, Names, Undercuts, Offer, OwnerOf, IsFirst, IsEarliest, Mentioned;
    CatalogueClosedForm(cs, clock, name);
    CatalogueClosedForm(ds, clock2, name);
    MentionedIn(cs, ds, name);
    MentionedIn(ds, cs, name);
    var m, n := Collected(cs, clock), Collected(ds, clock2);
    if name in m {
      EarliestBelow(cs, ds, clock, clock2, name, m[name].created, n[name].created);
      EarliestBelow(ds, cs, clock2, clock, name, n[name].created, m[name].created);
    }
  }

  lemma EarliestBelow(cs: seq<Contribution>, ds: seq<Contribution>, clock: nat -> int, clock2: nat -> int, name: string, v: int, w: int)
    requires Undercuts(ds, clock2, cs, clock, name)
    requires IsEarliest(cs, clock, name, v) && IsEarliest(ds, clock2, name, w)
    ensures v != 0 ==> w != 0 && w <= v
  {
    hide Names, Offer;
    if v != 0 {
      var i :| 0 <= i < |cs| && Names(cs[i], name) && Offer(cs, clock, name, i) == v;
      assert Offers(ds, clock2, name, v);
    }
  }

  /** A contribution's own time is offered wherever it stands. */
  lemma OwnOffer(ds: seq<Contribution>, clock: nat -> int, name: string, c: Contribution)
    requires c in ds && Names(c, name) && c.created != 0
    ensures Offers(ds, clock, name, c.created)
  {
    hide Names, IsFirst;
    var j :| 0 <= j < |ds| && ds[j] == c;
    assert Offer(ds, clock, name, j) == c.created;
  }

  lemma OwnTimes(cs: seq<Contribution>, ds: seq<Contribution>, clock: nat -> int, clock2: nat -> int, name: string)
    requires forall c :: c in cs <==> c in ds
    requires Timed(cs, name)
    ensures Undercuts(ds, clock2, cs, clock, name)
  {
    hide Names, Offers;
    forall i | 0 <= i < |cs| && Names(cs[i], name) ensures Offers(ds, clock2, name, Offer(cs, clock, name, i)) {
      assert cs[i] in cs;
      OwnOffer(ds, clock2, name, cs[i]);
    }
  }

  lemma OneReading(cs: seq<Contribution>, ds: seq<Contribution>, t: int, name: string)
    requires forall c :: c in cs <==> c in ds
    requires Timed(cs, name) || Untimed(cs, name) || t == 0 || TimedBy(cs, name, t)
    ensures Undercuts(ds, At(t), cs, At(t), name)
  {
    hide Names, Offers, IsFirst;
    forall i | 0 <= i < |cs| && Names(cs[i], name) && Offer(cs, At(t), name, i) != 0
      ensures Offers(ds, At(t), name, Offer(cs, At(t), name, i))
    {
      assert cs[i] in cs;
      if cs[i].created != 0 {
        OwnOffer(ds, At(t), name, cs[i]);
      } else if TimedBy(cs, name, t) {
        var c :| c in cs && Names(c, name) && c.created != 0 && c.created <= t;
        OwnOffer(ds, At(t), name, c);
        OffersLater(ds, At(t), name, c.created, t);
      } else {
        MentionedIn(cs, ds, name);
        ClockOffered(ds, t, name);
      }
    }
  }

  lemma OffersLater(ds: seq<Contribution>, clock: nat -> int, name: string, v: int, w: int)
    requires Offers(ds, clock, name, v) && v <= w
    ensures Offers(ds, clock, name, w)
  {
    hide Names, Offer;
  }

  /** Among contributions without times, the first one offers the clock's. */
  lemma ClockOffered(ds: seq<Contribution>, t: int, name: string)
    requires Mentioned(ds, name) && Untimed(ds, name) && t != 0
    ensures Offers(ds, At(t), name, t)
  {
    hide Names;
    var j :| 0 <= j < |ds| && Names(ds[j], name);
    j := FirstNaming(ds, name, j);
    assert ds[j] in ds;
    assert Offer(ds, At(t), name, j) == t;
  }

  lemma {:induction false} FirstNaming(ds: seq<Contribution>, name: string, k: nat) returns (j: nat)
    requires k < |ds| && Names(ds[k], name)
    ensures j <= k && IsFirst(ds, name, j)
  {
    hide Names;
    j := k;
    if i :| 0 <= i < k && Names(ds[i], name) { j := FirstNaming(ds, name, i); }
  }

  /** With a time given only after the clock's and one not given, who comes first
      decides. */
  lemma OrderMatters(cs: seq<Contribution>, t: int, name: string)
    requires name != "" && t != 0
    requires !Timed(cs, name) && !Untimed(cs, name) && !TimedBy(cs, name, t)
    ensures !OrderIrrelevant(cs, t, name)
  {
    hide Collected, Names;
    var u :| u in cs && Names(u, name) && u.created == 0;
    var c :| c in cs && Names(c, name) && c.created != 0;
    var clockFirst, timeFirst := MovedFirst(cs, u), MovedFirst(cs, c);
    SameMembers(cs, timeFirst);
    ClockDecides(clockFirst, At(t), name);
    TimeDecides(timeFirst, t, name);
    assert !SameTime(cs, At(t), clockFirst, At(t), name) || !SameTime(cs, At(t), timeFirst, At(t), name);
  }

  function MovedFirst(cs: seq<Contribution>, c: Contribution): (ds: seq<Contribution>)
    requires c in cs
    ensures multiset(cs) == multiset(ds) && ds != [] && ds[0] == c
  {
    if cs[0] == c then cs
    else
      var rest := MovedFirst(cs[1..], c);
      assert cs == [cs[0]] + cs[1..] && rest == [rest[0]] + rest[1..];
      [c] + ([cs[0]] + rest[1..])
  }

  lemma ClockDecides(ds: seq<Contribution>, clock: nat -> int, name: string)
    requires name != "" && ds != [] && Names(ds[0], name) && ds[0].created == 0 && clock(0) != 0
    ensures name in Collected(ds, clock) && Collected(ds, clock)[name].created <= clock(0)
  {
    hide TrimSpace, Collected, Names, OwnerOf;
    CatalogueClosedForm(ds, clock, name);
    assert Offer(ds, clock, name, 0) == clock(0);
  }

  lemma TimeDecides(ds: seq<Contribution>, t: int, name: string)
    requires name != "" && ds != [] && Names(ds[0], name) && ds[0].created != 0 && !TimedBy(ds, name, t)
    ensures name in Collected(ds, At(t)) && Collected(ds, At(t))[name].created > t
  {
    hide TrimSpace, Collected, Names, OwnerOf;
    CatalogueClosedForm(ds, At(t), name);
    var v := Collected(ds, At(t))[name].created;
    assert Offer(ds, At(t), name, 0) == ds[0].created;
    var i :| 0 <= i < |ds| && Names(ds[i], name) && Offer(ds, At(t), name, i) == v;
    assert ds[i] in ds && ds[i].created == v;
  }

  /** One backend gives no time, the other the time 5, and the clock shows 3: the
      model was created at 3 or at 5, as the first or the second comes first. */
  lemma OrderCanMatter(a: Contribution, b: Contribution)
    requires a == Contribution("m", 0, "x") && b == Contribution("m", 5, "y")
    ensures multiset([a, b]) == multiset([b, a])
    ensures "m" in Collected([a, b], At(3)) && Collected([a, b], At(3))["m"].created == 3
    ensures "m" in Collected([b, a], At(3)) && Collected([b, a], At(3))["m"].created == 5
  {
    assert TrimSpace("m") == "m";
    hide TrimSpace;
    assert [a, b][..1] == [a] && [b, a][..1] == [b] && [a][..0] == [] && [b][..0] == [];
    assert Collected([a], At(3)) == Added(map[], a, 3) && Collected([b], At(3)) == Added(map[], b, 3);
    assert multiset([a, b]) == multiset{a, b} == multiset([b, a]);
  }

  lemma SameMembers(cs: seq<Contribution>, ds: seq<Contribution>)
    requires multiset(cs) == multiset(ds)
    ensures forall c :: c in cs <==> c in ds
  {
    forall c ensures c in cs <==> c in ds {
      assert c in cs <==> c in multiset(cs);
      assert c in ds <==> c in multiset(ds);
    }
  }

  lemma MentionedIn(cs: seq<Contribution>, ds: seq<Contribution>, name: string)
    requires forall c | c in cs :: c in ds
    ensures Mentioned(cs, name) ==> Mentioned(ds, name)
  {
    hide Names;
    if Mentioned(cs, name) {
      var i :| 0 <= i < |cs| && Names(cs[i], name);
      assert cs[i] in ds;
    }
  }
}
