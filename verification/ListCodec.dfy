/** The comma-joined list codec of the backend hashes. */
module ListCodec {
  import opened Text

  /** A value the codec can carry unchanged. */
  predicate Clean(x: string) {
    x != "" && Trimmed(x) && ',' !in x
  }

  predicate AllClean(xs: seq<string>) {
    forall i | 0 <= i < |xs| :: Clean(xs[i])
  }

  function Encode(values: seq<string>): string {
    Join(values, ',')
  }

  /** The parts of `parts` that are not blank, trimmed. */
  function Kept(parts: seq<string>): seq<string> {
    if parts == [] then []
    else
      var n := |parts| - 1;
      var part := TrimSpace(parts[n]);
      Kept(parts[..n]) + if part == "" then [] else [part]
  }

  function Decode(raw: string): seq<string> {
    Kept(Split(raw, ','))
  }

  method DecodeStringSlice(raw: string) returns (out: seq<string>)
    ensures out == Decode(raw)
  {
    out := [];
    var parts := Split(raw, ',');
    for i := 0 to |parts|
      invariant out == Kept(parts[..i])
    {
      assert parts[..i + 1][..i] == parts[..i];
      var part := TrimSpace(parts[i]);
      if part != "" {
        out := out + [part];
      }
    }
    assert parts[..|parts|] == parts;
  }

  /** The clean pieces of a list: each element cut at its commas, trimmed, and
      dropped when blank. */
  function Pieces(xs: seq<string>): seq<string> {
    if xs == [] then [] else Decode(xs[0]) + Pieces(xs[1..])
  }

  lemma {:induction false} KeptClean(parts: seq<string>)
    requires forall i | 0 <= i < |parts| :: ',' !in parts[i]
    ensures AllClean(Kept(parts))
  {
    if parts != [] {
      var n := |parts| - 1;
      KeptClean(parts[..n]);
      var part := TrimSpace(parts[n]);
      if ',' in part { TrimSpaceWithin(parts[n], ','); }
    }
  }

  /** Decoding yields clean values only, whatever the text. */
  lemma DecodeClean(raw: string)
    ensures AllClean(Decode(raw))
  {
    SplitParts(raw, ',');
    KeptClean(Split(raw, ','));
  }

  lemma {:induction false} PiecesClean(xs: seq<string>)
    ensures AllClean(Pieces(xs))
  {
    if xs != [] {
      DecodeClean(xs[0]);
      PiecesClean(xs[1..]);
    }
  }

  lemma EmptyDecode()
    ensures Decode("") == []
  {
  }

  lemma {:induction false} KeptConcat(a: seq<string>, b: seq<string>)
    ensures Kept(a + b) == Kept(a) + Kept(b)
    decreases |b|
  {
    if b == [] {
      assert a + b == a;
    } else {
      var n := |b| - 1;
      assert (a + b)[..|a + b| - 1] == a + b[..n];
      KeptConcat(a, b[..n]);
    }
  }

  /** Decoding a join decodes the elements one by one. */
  lemma {:induction false} DecodeOfEncode(xs: seq<string>)
    ensures Decode(Encode(xs)) == Pieces(xs)
  {
    if xs == [] {
      assert Decode("") == Kept([""]) == [];
    } else if |xs| == 1 {
      assert Pieces(xs[1..]) == [];
    } else {
      DecodeOfEncode(xs[1..]);
      SplitAcross(xs[0], ',', Encode(xs[1..]));
      KeptConcat(Split(xs[0], ','), Split(Encode(xs[1..]), ','));
    }
  }

  lemma {:induction false} PiecesOfClean(xs: seq<string>)
    requires AllClean(xs)
    ensures Pieces(xs) == xs
  {
    if xs != [] {
      SplitWithout(xs[0], ',');
      assert Decode(xs[0]) == Kept([xs[0]]) == [xs[0]];
      PiecesOfClean(xs[1..]);
    }
  }

  /** The codec is lossless on exactly the lists of clean values. */
  lemma CodecRoundTrip(xs: seq<string>)
    ensures Decode(Encode(xs)) == xs <==> AllClean(xs)
  {
    DecodeOfEncode(xs);
    PiecesClean(xs);
    if AllClean(xs) { PiecesOfClean(xs); }
  }

  /** Re-encoding what was decoded, and decoding again, changes nothing. */
  lemma DecodeStable(raw: string)
    ensures Decode(Encode(Decode(raw))) == Decode(raw)
  {
    DecodeClean(raw);
    CodecRoundTrip(Decode(raw));
  }

  lemma PiecesStable(xs: seq<string>)
    ensures Pieces(Pieces(xs)) == Pieces(xs)
  {
    PiecesClean(xs);
    PiecesOfClean(Pieces(xs));
  }
}
