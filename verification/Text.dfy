/** Strings as the Go services use them: trimming, splitting, joining and
    order-keeping removal of duplicates. A string is a sequence of Unicode
    scalar values. */
module Text {

  /** The code points Go's `unicode.IsSpace` accepts. */
  predicate IsSpace(c: char) {
    var n := c as int;
    || 0x09 <= n <= 0x0D
    || n == 0x20 || n == 0x85 || n == 0xA0 || n == 0x1680
    || n == 0x2028 || n == 0x2029 || n == 0x202F || n == 0x205F || n == 0x3000
    || 0x2000 <= n <= 0x200A
  }

  /** White space is the twenty-five characters of Unicode's White_Space. */
  lemma IsSpaceIsWhiteSpace(c: char)
    ensures IsSpace(c) <==>
            c in {'\t', '\n', '\U{0B}', '\U{0C}', '\r', ' ', '\U{85}', '\U{A0}', '\U{1680}',
                  '\U{2000}', '\U{2001}', '\U{2002}', '\U{2003}', '\U{2004}', '\U{2005}', '\U{2006}',
                  '\U{2007}', '\U{2008}', '\U{2009}', '\U{200A}', '\U{2028}', '\U{2029}', '\U{202F}',
                  '\U{205F}', '\U{3000}'}
  {
  }

  predicate Blank(s: string) {
    forall i | 0 <= i < |s| :: IsSpace(s[i])
  }

  /** No white space at either end; the empty string qualifies. */
  predicate Trimmed(s: string) {
    s != "" ==> !IsSpace(s[0]) && !IsSpace(s[|s| - 1])
  }

  function TrimLeft(s: string): (t: string)
    ensures |t| <= |s|
    ensures t != "" ==> !IsSpace(t[0])
  {
    if s != "" && IsSpace(s[0]) then TrimLeft(s[1..]) else s
  }

  function TrimRight(s: string): (t: string)
    ensures t <= s
    ensures t != "" ==> !IsSpace(t[|t| - 1])
  {
    if s != "" && IsSpace(s[|s| - 1]) then TrimRight(s[..|s| - 1]) else s
  }

  /** `strings.TrimSpace`. */
  function TrimSpace(s: string): (t: string)
    ensures Trimmed(t)
    ensures Trimmed(s) ==> t == s
  {
    TrimRight(TrimLeft(s))
  }

  lemma TrimmedStays(s: string)
    requires Trimmed(s)
    ensures TrimSpace(s) == s
  {
  }

  lemma {:induction false} TrimLeftOf(a: string, u: string)
    requires Blank(a) && (u != "" ==> !IsSpace(u[0]))
    ensures TrimLeft(a + u) == u
  {
    if a == "" {
      assert a + u == u;
    } else {
      assert (a + u)[0] == a[0] && (a + u)[1..] == a[1..] + u;
      TrimLeftOf(a[1..], u);
    }
  }

  lemma {:induction false} TrimRightOf(u: string, b: string)
    requires Blank(b) && (u != "" ==> !IsSpace(u[|u| - 1]))
    ensures TrimRight(u + b) == u
  {
    if b == "" {
      assert u + b == u;
    } else {
      var n := |b| - 1;
      assert (u + b)[|u + b| - 1] == b[n] && (u + b)[..|u + b| - 1] == u + b[..n];
      TrimRightOf(u, b[..n]);
    }
  }

  /** What trimming removes is white space, and all of it: whatever stands
      between blank ends and is itself trimmed is the result. */
  lemma TrimSpaceIsCore(s: string, a: string, t: string, b: string)
    requires s == a + t + b && Blank(a) && Blank(b) && Trimmed(t)
    ensures TrimSpace(s) == t
  {
    if t == "" {
      TrimLeftOf(a + b, "");
      assert s == (a + b) + "";
    } else {
      TrimLeftOf(a, t + b);
      assert s == a + (t + b);
      TrimRightOf(t, b);
    }
  }

  lemma {:induction false} TrimLeftSplits(s: string)
    ensures var k := |s| - |TrimLeft(s)|; TrimLeft(s) == s[k..] && Blank(s[..k])
  {
    hide IsSpace;
    if s != "" && IsSpace(s[0]) {
      TrimLeftSplits(s[1..]);
      var k := |s| - |TrimLeft(s)|;
      assert s[..k] == [s[0]] + s[1..][..k - 1] && s[k..] == s[1..][k - 1..];
    }
  }

  lemma TrimSpaceWithin(s: string, c: char)
    requires c in TrimSpace(s)
    ensures c in s
  {
    TrimLeftSplits(s);
  }

  /** `strings.Split` with a one-character separator. */
  function Split(s: string, sep: char): (parts: seq<string>)
    ensures parts != []
  {
    if s == "" then [""]
    else
      var rest := Split(s[1..], sep);
      if s[0] == sep then [""] + rest
      else [[s[0]] + rest[0]] + rest[1..]
  }

  /** `strings.Join` with a one-character separator. */
  function Join(xs: seq<string>, sep: char): string {
    if xs == [] then ""
    else if |xs| == 1 then xs[0]
    else xs[0] + [sep] + Join(xs[1..], sep)
  }

  lemma {:induction false} SplitParts(s: string, sep: char)
    ensures forall i | 0 <= i < |Split(s, sep)| :: sep !in Split(s, sep)[i]
  {
    if s != "" { SplitParts(s[1..], sep); }
  }

  lemma {:induction false} SplitWithout(s: string, sep: char)
    requires sep !in s
    ensures Split(s, sep) == [s]
  {
    if s != "" {
      SplitWithout(s[1..], sep);
      assert s == [s[0]] + s[1..];
    }
  }

  lemma {:induction false} SplitAcross(a: string, sep: char, b: string)
    ensures Split(a + [sep] + b, sep) == Split(a, sep) + Split(b, sep)
  {
    var s := a + [sep] + b;
    if a == "" {
      assert s[1..] == b;
    } else {
      assert s[1..] == a[1..] + [sep] + b;
      SplitAcross(a[1..], sep, b);
    }
  }

  /** Joining parts that hold no separator is undone by splitting. */
  lemma {:induction false} SplitOfJoin(xs: seq<string>, sep: char)
    requires xs != [] && forall i | 0 <= i < |xs| :: sep !in xs[i]
    ensures Split(Join(xs, sep), sep) == xs
  {
    SplitWithout(xs[0], sep);
    if |xs| > 1 {
      SplitOfJoin(xs[1..], sep);
      SplitAcross(xs[0], sep, Join(xs[1..], sep));
      assert xs == [xs[0]] + xs[1..];
    }
  }

  /** Splitting loses nothing: joining the parts gives the string back. */
  lemma {:induction false} JoinOfSplit(s: string, sep: char)
    ensures Join(Split(s, sep), sep) == s
  {
    if s != "" {
      JoinOfSplit(s[1..], sep);
      var rest := Split(s[1..], sep);
      assert s == [s[0]] + s[1..];
      if s[0] == sep {
        assert Split(s, sep)[1..] == rest;
      } else if |rest| > 1 {
        assert Split(s, sep)[1..] == rest[1..];
      }
    }
  }

  /** Trimmed, non-blank values in order of first appearance. */
  function Distinct(values: seq<string>): (out: seq<string>)
    ensures forall i | 0 <= i < |out| :: Trimmed(out[i]) && out[i] != ""
    ensures forall i, j | 0 <= i < j < |out| :: out[i] != out[j]
  {
    if values == [] then []
    else
      var out := Distinct(values[..|values| - 1]);
      var v := TrimSpace(values[|values| - 1]);
      if v == "" || v in out then out else out + [v]
  }

  /** The loop that handler, middleware, roles and config each carry. */
  method Dedupe(values: seq<string>) returns (out: seq<string>)
    ensures out == Distinct(values)
  {
    var seen := {};
    out := [];
    for i := 0 to |values|
      invariant out == Distinct(values[..i])
      invariant forall v :: v in seen <==> v in out
    {
      assert values[..i + 1][..i] == values[..i];
      var v := TrimSpace(values[i]);
      if v == "" || v in seen { continue; }
      seen := seen + {v};
      out := out + [v];
    }
    assert values[..|values|] == values;
  }

  ghost predicate Mentions(values: seq<string>, v: string) {
    exists i | 0 <= i < |values| :: TrimSpace(values[i]) == v
  }

  lemma MentionsStep(values: seq<string>, v: string)
    requires values != []
    ensures Mentions(values, v) <==>
            Mentions(values[..|values| - 1], v) || TrimSpace(values[|values| - 1]) == v
  {
    hide TrimSpace;
    var init := values[..|values| - 1];
    if Mentions(values, v) {
      var i :| 0 <= i < |values| && TrimSpace(values[i]) == v;
      if i < |init| { assert TrimSpace(init[i]) == v; }
    }
    if Mentions(init, v) {
      var i :| 0 <= i < |init| && TrimSpace(init[i]) == v;
      assert TrimSpace(values[i]) == v;
    }
  }

  /** Removing duplicates keeps exactly the trimmed non-blank values. */
  lemma {:induction false} DistinctMembers(values: seq<string>, v: string)
    ensures v in Distinct(values) <==> v != "" && Mentions(values, v)
  {
    if values != [] {
      MentionsStep(values, v);
      DistinctMembers(values[..|values| - 1], v);
    }
  }

  /** More values only ever add at the end, so the kept ones stand in the order
      in which each first appears. */
  lemma {:induction false} DistinctPrefix(values: seq<string>, n: nat)
    requires n <= |values|
    ensures Distinct(values[..n]) <= Distinct(values)
    decreases |values|
  {
    if n == |values| {
      assert values[..n] == values;
    } else {
      var m := |values| - 1;
      DistinctPrefix(values[..m], n);
      assert values[..m][..n] == values[..n];
      assert Distinct(values[..m]) <= Distinct(values);
    }
  }
}
