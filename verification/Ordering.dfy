/** Byte-wise string order, which for valid UTF-8 is the order of the code
    points, and the sorted enumeration of a set of strings. */
module Ordering {

  predicate Less(a: string, b: string) {
    if b == "" then false
    else if a == "" then true
    else a[0] < b[0] || (a[0] == b[0] && Less(a[1..], b[1..]))
  }

  /** The strings agree on `k` characters, and then `a` ends or has the smaller
      character. */
  ghost predicate PartAt(a: string, b: string, k: nat) {
    k <= |a| && k < |b| && a[..k] == b[..k] && (k == |a| || a[k] < b[k])
  }

  /** The order is that of a dictionary. */
  lemma {:induction false} LessIsLexicographic(a: string, b: string)
    ensures Less(a, b) <==> exists k: nat :: PartAt(a, b, k)
  {
    if a == "" || b == "" || a[0] != b[0] {
      assert PartAt(a, b, 0) <==> Less(a, b);
      assert forall k: nat | k > 0 && PartAt(a, b, k) :: a[..k][0] == a[0] && b[..k][0] == b[0];
    } else {
      LessIsLexicographic(a[1..], b[1..]);
      if k: nat :| PartAt(a[1..], b[1..], k) {
        assert a[..k + 1] == [a[0]] + a[1..][..k] && b[..k + 1] == [b[0]] + b[1..][..k];
        assert PartAt(a, b, k + 1);
      }
      if k: nat :| PartAt(a, b, k) {
        assert a[1..][..k - 1] == a[..k][1..] && b[1..][..k - 1] == b[..k][1..];
        assert PartAt(a[1..], b[1..], k - 1);
      }
    }
  }

  lemma {:induction false} LessIrreflexive(a: string)
    ensures !Less(a, a)
  {
    if a != "" { LessIrreflexive(a[1..]); }
  }

  lemma {:induction false} LessTransitive(a: string, b: string, c: string)
    requires Less(a, b) && Less(b, c)
    ensures Less(a, c)
  {
    if a != "" && a[0] == b[0] == c[0] { LessTransitive(a[1..], b[1..], c[1..]); }
  }

  lemma {:induction false} LessTotal(a: string, b: string)
    ensures a == b || Less(a, b) || Less(b, a)
  {
    if a != "" && b != "" && a[0] == b[0] {
      LessTotal(a[1..], b[1..]);
      assert a == [a[0]] + a[1..] && b == [b[0]] + b[1..];
    }
  }

  lemma LessAsymmetric(a: string, b: string)
    requires Less(a, b)
    ensures !Less(b, a) && a != b
  {
    LessIrreflexive(a);
    if Less(b, a) { LessTransitive(a, b, a); }
  }

  ghost predicate Increasing(xs: seq<string>) {
    forall i, j | 0 <= i < j < |xs| :: Less(xs[i], xs[j])
  }

  lemma IncreasingDistinct(xs: seq<string>)
    requires Increasing(xs)
    ensures forall i, j | 0 <= i < j < |xs| :: xs[i] != xs[j]
  {
    forall i, j | 0 <= i < j < |xs| ensures xs[i] != xs[j] { LessAsymmetric(xs[i], xs[j]); }
  }

  ghost predicate Enumerates(xs: seq<string>, s: set<string>) {
    Increasing(xs) && forall x :: x in xs <==> x in s
  }

  /** A set has one increasing enumeration. */
  lemma {:induction false} EnumerationUnique(xs: seq<string>, ys: seq<string>, s: set<string>)
    requires Enumerates(xs, s) && Enumerates(ys, s)
    ensures xs == ys
    decreases |xs|
  {
    assert xs != [] ==> xs[0] in s;
    assert ys != [] ==> ys[0] in s;
    if xs != [] && ys != [] {
      var i :| 0 <= i < |ys| && ys[i] == xs[0];
      var j :| 0 <= j < |xs| && xs[j] == ys[0];
      if i > 0 { LessAsymmetric(ys[0], xs[0]); }
      EnumerationTail(xs, s);
      EnumerationTail(ys, s);
      EnumerationUnique(xs[1..], ys[1..], s - {xs[0]});
    }
  }

  lemma EnumerationTail(xs: seq<string>, s: set<string>)
    requires Enumerates(xs, s) && xs != []
    ensures Enumerates(xs[1..], s - {xs[0]})
  {
    IncreasingDistinct(xs);
    forall x ensures x in xs[1..] <==> x in s - {xs[0]} {
      if x in s && x != xs[0] {
        var i :| 0 <= i < |xs| && xs[i] == x;
        assert xs[1..][i - 1] == x;
      }
    }
  }

  lemma EnumerationEmpty(xs: seq<string>, s: set<string>)
    requires forall x :: x in xs <==> x in s
    ensures xs == [] <==> s == {}
  {
    if xs != [] { assert xs[0] in s; }
  }

  function Keys<T>(xs: seq<T>, key: T -> string): seq<string> {
    seq(|xs|, i requires 0 <= i < |xs| => key(xs[i]))
  }

  function InsertBy<T>(x: T, xs: seq<T>, key: T -> string): seq<T> {
    if xs == [] then [x]
    else if Less(key(x), key(xs[0])) then [x] + xs
    else [xs[0]] + InsertBy(x, xs[1..], key)
  }

  /** `sort.Slice` on records whose keys are pairwise different. */
  function SortBy<T>(xs: seq<T>, key: T -> string): seq<T> {
    if xs == [] then [] else InsertBy(xs[0], SortBy(xs[1..], key), key)
  }

  lemma {:induction false} InsertByKeys<T>(x: T, xs: seq<T>, key: T -> string)
    ensures Keys(InsertBy(x, xs, key), key) == Insert(key(x), Keys(xs, key))
    ensures forall y :: y in InsertBy(x, xs, key) ==> y == x || y in xs
  {
    if xs == [] {
      assert Keys([x], key) == [key(x)];
    } else {
      assert Keys(xs, key)[1..] == Keys(xs[1..], key);
      InsertByKeys(x, xs[1..], key);
      assert Keys([x] + xs, key) == [key(x)] + Keys(xs, key);
      assert Keys([xs[0]] + InsertBy(x, xs[1..], key), key) == [key(xs[0])] + Keys(InsertBy(x, xs[1..], key), key);
    }
  }

  lemma {:induction false} SortByKeys<T>(xs: seq<T>, key: T -> string)
    ensures Keys(SortBy(xs, key), key) == Sorted(Keys(xs, key))
    ensures forall y :: y in SortBy(xs, key) ==> y in xs
  {
    if xs != [] {
      SortByKeys(xs[1..], key);
      InsertByKeys(xs[0], SortBy(xs[1..], key), key);
      assert Keys(xs, key)[1..] == Keys(xs[1..], key);
    }
  }

  /** The values of a map in increasing order of key. */
  function ByKey<T>(m: map<string, T>): (out: seq<T>)
    ensures |out| == |Ascending(m.Keys)|
    ensures forall k | 0 <= k < |out| :: out[k] == m[Ascending(m.Keys)[k]]
  {
    var ks := Ascending(m.Keys);
    seq(|ks|, k requires 0 <= k < |ks| => m[ks[k]])
  }

  /** Taking the values of a map in any order and sorting them by key: a map
      whose values carry their own key has one sorted listing. */
  method SortedValues<T>(m: map<string, T>, key: T -> string) returns (out: seq<T>)
    requires forall k | k in m :: key(m[k]) == k
    ensures out == ByKey(m)
  {
    var todo := m.Keys;
    var data := [];
    while todo != {}
      invariant todo <= m.Keys
      invariant forall v | v in data :: key(v) in m.Keys - todo && m[key(v)] == v
      invariant forall k :: k in Keys(data, key) <==> k in m.Keys - todo
      invariant forall i, j | 0 <= i < j < |data| :: key(data[i]) != key(data[j])
    {
      var k :| k in todo;
      assert Keys(data + [m[k]], key) == Keys(data, key) + [k];
      data := data + [m[k]];
      todo := todo - {k};
    }
    var ks := Keys(data, key);
    SortedIs(ks, m.Keys);
    SortByKeys(data, key);
    out := SortBy(data, key);
    forall i | 0 <= i < |out| ensures out[i] == m[Ascending(m.Keys)[i]] {
      assert out[i] in data;
      assert Keys(out, key)[i] == key(out[i]);
    }
    assert |out| == |Keys(out, key)|;
  }

  predicate IsLeast(m: string, s: set<string>) {
    m in s && forall x | x in s :: x == m || Less(m, x)
  }

  lemma {:induction false} LeastExists(s: set<string>)
    requires s != {}
    ensures exists m :: IsLeast(m, s)
  {
    var x :| x in s;
    if s == {x} {
      assert IsLeast(x, s);
    } else {
      LeastExists(s - {x});
      var m :| IsLeast(m, s - {x});
      LessTotal(x, m);
      if Less(x, m) {
        forall y | y in s ensures y == x || Less(x, y) {
          if y != x && y != m { LessTransitive(x, m, y); }
        }
        assert IsLeast(x, s);
      } else {
        assert IsLeast(m, s);
      }
    }
  }

  lemma LeastUnique(m: string, n: string, s: set<string>)
    requires IsLeast(m, s) && IsLeast(n, s)
    ensures m == n
  {
    if m != n { LessAsymmetric(m, n); }
  }

  function Least(s: set<string>): (m: string)
    requires s != {}
    ensures IsLeast(m, s)
  {
    LeastExists(s);
    assert forall m, n | IsLeast(m, s) && IsLeast(n, s) :: m == n by {
      forall m, n | IsLeast(m, s) && IsLeast(n, s) ensures m == n { LeastUnique(m, n, s); }
    }
    var m :| IsLeast(m, s);
    m
  }

  /** The increasing enumeration of a set. */
  function Ascending(s: set<string>): (xs: seq<string>)
    ensures Enumerates(xs, s)
  {
    if s == {} then [] else [Least(s)] + Ascending(s - {Least(s)})
  }

  function Insert(x: string, xs: seq<string>): seq<string> {
    if xs == [] then [x]
    else if Less(x, xs[0]) then [x] + xs
    else [xs[0]] + Insert(x, xs[1..])
  }

  lemma {:induction false} InsertKeepsOrder(x: string, xs: seq<string>)
    requires Increasing(xs) && x !in xs
    ensures Increasing(Insert(x, xs))
    ensures forall y :: y in Insert(x, xs) <==> y == x || y in xs
  {
    if xs != [] {
      assert xs == [xs[0]] + xs[1..];
      if Less(x, xs[0]) {
        forall i | 0 <= i < |xs| ensures Less(x, xs[i]) {
          if i > 0 { LessTransitive(x, xs[0], xs[i]); }
        }
      } else {
        LessTotal(x, xs[0]);
        InsertKeepsOrder(x, xs[1..]);
        var rest := Insert(x, xs[1..]);
        forall j | 0 <= j < |rest| ensures Less(xs[0], rest[j]) {
          assert rest[j] in rest;
          if rest[j] != x {
            var k :| 0 <= k < |xs[1..]| && xs[1..][k] == rest[j];
            assert Less(xs[0], xs[k + 1]);
          }
        }
      }
    }
  }

  /** `sort.Strings` on strings that are pairwise different. */
  function Sorted(xs: seq<string>): seq<string> {
    if xs == [] then [] else Insert(xs[0], Sorted(xs[1..]))
  }

  lemma {:induction false} SortedOrder(xs: seq<string>)
    requires forall i, j | 0 <= i < j < |xs| :: xs[i] != xs[j]
    ensures Increasing(Sorted(xs)) && forall x :: x in Sorted(xs) <==> x in xs
  {
    if xs != [] {
      SortedOrder(xs[1..]);
      assert xs == [xs[0]] + xs[1..];
      InsertKeepsOrder(xs[0], Sorted(xs[1..]));
    }
  }

  lemma AscendingIs(xs: seq<string>, s: set<string>)
    requires Enumerates(xs, s)
    ensures xs == Ascending(s)
  {
    EnumerationUnique(xs, Ascending(s), s);
  }

  /** Sorting a listing of a set, whatever its order, gives the one increasing
      enumeration. */
  lemma SortedIs(xs: seq<string>, s: set<string>)
    requires forall i, j | 0 <= i < j < |xs| :: xs[i] != xs[j]
    requires forall x :: x in xs <==> x in s
    ensures Sorted(xs) == Ascending(s)
  {
    SortedOrder(xs);
    AscendingIs(Sorted(xs), s);
  }
}
