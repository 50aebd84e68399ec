/**
  What the storage pipeline needs from an erasure-coding library: the encoding is systematic, and
  any k consistent shards of a codeword determine all of it.
*/
module Codecs {
  import opened Wrappers
  import opened Bytes

  type Shard = seq<Byte>

  /** k data shards, m parity shards, and the two operations of the library. */
  datatype Codec = Codec(k: nat, m: nat,
                         parity: seq<Shard> -> seq<Shard>,
                         reconstruct: seq<Option<Shard>> -> Option<seq<Shard>>)
  {
    function Total(): nat { k + m }
  }

  predicate Uniform(shards: seq<Shard>, len: nat) {
    forall i | 0 <= i < |shards| :: |shards[i]| == len
  }

  function Codeword(c: Codec, data: seq<Shard>): seq<Shard> {
    data + c.parity(data)
  }

  /** Every shard present agrees with the codeword. */
  ghost predicate Consistent(avail: seq<Option<Shard>>, word: seq<Shard>) {
    |avail| == |word| && forall i | 0 <= i < |avail| :: avail[i].Some? ==> avail[i].value == word[i]
  }

  function Present(avail: seq<Option<Shard>>): nat {
    if avail == [] then 0 else (if avail[|avail| - 1].Some? then 1 else 0) + Present(avail[..|avail| - 1])
  }

  ghost predicate Shaped(c: Codec, data: seq<Shard>, len: nat) {
    |data| == c.k && Uniform(data, len)
  }

  ghost predicate ParityShaped(c: Codec, data: seq<Shard>, len: nat) {
    |c.parity(data)| == c.m && Uniform(c.parity(data), len)
  }

  ghost predicate Recovers(c: Codec, data: seq<Shard>, avail: seq<Option<Shard>>) {
    c.reconstruct(avail) == Some(Codeword(c, data))
  }

  /** The contract of the library for one (k, m). */
  ghost predicate ErasureCode(c: Codec) {
    && 0 < c.k && 0 < c.m && c.Total() <= 256
    && (forall data, len {:trigger Shaped(c, data, len)} :: Shaped(c, data, len) ==> ParityShaped(c, data, len))
    && (forall data, len, avail {:trigger Shaped(c, data, len), Recovers(c, data, avail)} ::
          Shaped(c, data, len) && Consistent(avail, Codeword(c, data)) && Present(avail) >= c.k
          ==> Recovers(c, data, avail))
  }
}

/**
  Reed-Solomon coding over the field with 256 elements meets the contract for every k and m with
  k + m <= 256.  Column by column, a codeword is a polynomial with k coefficients evaluated at
  k + m points; its first k values are the data.
*/
module ReedSolomon {
  import opened Wrappers
  import opened Bytes
  import opened Sequences
  import opened Fields
  import opened Codecs
  import opened Gf256Field
  import opened Gf256Points

  function Column(shards: seq<Shard>, col: nat): (s: seq<Byte>)
    requires forall i | 0 <= i < |shards| :: col < |shards[i]|
    ensures |s| == |shards|
  {
    seq(|shards|, i requires 0 <= i < |shards| => shards[i][col])
  }

  /** The shard at point x of the codeword that takes the values `shards` at the points xs. */
  function Extend(f: Field<Byte>, xs: seq<Byte>, shards: seq<Shard>, len: nat, x: Byte): (s: Shard)
    requires |xs| == |shards| && Uniform(shards, len)
    ensures |s| == len
  {
    seq(len, col requires 0 <= col < len => Eval(f, Interpolate(f, xs, Column(shards, col)), x))
  }

  function Parity(f: Field<Byte>, points: seq<Byte>, k: nat, data: seq<Shard>): (s: seq<Shard>)
    requires 0 < k <= |points|
  {
    if |data| == k && Uniform(data, |data[0]|)
    then seq(|points| - k, j requires 0 <= j < |points| - k => Extend(f, points[..k], data, |data[0]|, points[k + j]))
    else []
  }

  /** The positions of the shards present. */
  function Positions(avail: seq<Option<Shard>>, upTo: nat): (s: seq<nat>)
    requires upTo <= |avail|
    ensures forall i | 0 <= i < |s| :: s[i] < upTo && avail[s[i]].Some?
    ensures forall i, j | 0 <= i < j < |s| :: s[i] < s[j]
  {
    if upTo == 0 then [] else Positions(avail, upTo - 1) + (if avail[upTo - 1].Some? then [upTo - 1] else [])
  }

  function Reconstruct(f: Field<Byte>, points: seq<Byte>, k: nat, avail: seq<Option<Shard>>): Option<seq<Shard>> {
    var idx := Positions(avail, |avail|);
    if k == 0 || |idx| < k || |avail| != |points| then None
    else
      var shards := seq(k, i requires 0 <= i < k => avail[idx[i]].value);
      var xs := seq(k, i requires 0 <= i < k => points[idx[i]]);
      if Uniform(shards, |shards[0]|)
      then Some(seq(|avail|, i requires 0 <= i < |avail| =>
                  if avail[i].Some? then avail[i].value else Extend(f, xs, shards, |shards[0]|, points[i])))
      else None
  }

  function ReedSolomonCodec(f: Field<Byte>, points: seq<Byte>, k: nat): Codec
    requires 0 < k <= |points|
  {
    Codec(k, |points| - k, (data: seq<Shard>) => Parity(f, points, k, data),
          (avail: seq<Option<Shard>>) => Reconstruct(f, points, k, avail))
  }

  lemma {:induction false} PositionsCount(avail: seq<Option<Shard>>, upTo: nat)
    requires upTo <= |avail|
    ensures |Positions(avail, upTo)| == Present(avail[..upTo])
  {
    if upTo > 0 {
      PositionsCount(avail, upTo - 1);
      assert avail[..upTo][..upTo - 1] == avail[..upTo - 1];
    }
  }

  ghost predicate Layout(f: Field<Byte>, points: seq<Byte>, k: nat, data: seq<Shard>, len: nat) {
    IsField(f) && Distinct(points) && 0 < k <= |points| && |data| == k && Uniform(data, len)
  }

  lemma ParityAt(f: Field<Byte>, points: seq<Byte>, k: nat, data: seq<Shard>, len: nat)
    requires Layout(f, points, k, data, len)
    ensures var p := Parity(f, points, k, data);
            && |p| == |points| - k && Uniform(p, len)
            && forall j | 0 <= j < |p| :: p[j] == Extend(f, points[..k], data, len, points[k + j])
  {
    assert |data[0]| == len;
    var p := Parity(f, points, k, data);
    assert |p| == |points| - k;
    forall j | 0 <= j < |p| ensures |p[j]| == len && p[j] == Extend(f, points[..k], data, len, points[k + j]) {
      assert p[j] == Extend(f, points[..k], data, |data[0]|, points[k + j]);
    }
  }

  /** Column col of the codeword, position i, is the value at points[i] of one polynomial. */
  lemma CodewordAt(f: Field<Byte>, points: seq<Byte>, k: nat, data: seq<Shard>, len: nat, i: nat, col: nat)
    requires Layout(f, points, k, data, len) && i < |points| && col < len
    ensures var word := data + Parity(f, points, k, data);
            |word| == |points| && |word[i]| == len
            && word[i][col] == Eval(f, Interpolate(f, points[..k], Column(data, col)), points[i])
  {
    ParityAt(f, points, k, data, len);
    if i < k {
      InterpolateThrough(f, points[..k], Column(data, col), i);
    }
  }

  lemma ExtendAt(f: Field<Byte>, points: seq<Byte>, k: nat, data: seq<Shard>, len: nat,
                 idx: seq<nat>, shards: seq<Shard>, xs: seq<Byte>, i: nat)
    requires Layout(f, points, k, data, len) && |idx| == |shards| == |xs| == k && i < |points|
    requires forall a, b | 0 <= a < b < k :: idx[a] < idx[b]
    requires forall a | 0 <= a < k :: idx[a] < |points| && xs[a] == points[idx[a]]
    requires |Parity(f, points, k, data)| == |points| - k && Uniform(shards, len)
    requires forall a | 0 <= a < k :: shards[a] == (data + Parity(f, points, k, data))[idx[a]]
    ensures Extend(f, xs, shards, len, points[i]) == (data + Parity(f, points, k, data))[i]
  {
    var word := data + Parity(f, points, k, data);
    var s := Extend(f, xs, shards, len, points[i]);
    ParityAt(f, points, k, data, len);
    assert Distinct(xs);
    forall col | 0 <= col < len ensures s[col] == word[i][col] {
      var p := Interpolate(f, points[..k], Column(data, col));
      var q := Interpolate(f, xs, Column(shards, col));
      forall a | 0 <= a < k ensures Eval(f, p, xs[a]) == Eval(f, q, xs[a]) {
        CodewordAt(f, points, k, data, len, idx[a], col);
        InterpolateThrough(f, xs, Column(shards, col), a);
      }
      Agreement(f, p, q, xs, points[i]);
      CodewordAt(f, points, k, data, len, i, col);
    }
  }

  lemma ReconstructsCodeword(f: Field<Byte>, points: seq<Byte>, k: nat, data: seq<Shard>, len: nat,
                             avail: seq<Option<Shard>>)
    requires Layout(f, points, k, data, len)
    requires Consistent(avail, data + Parity(f, points, k, data)) && Present(avail) >= k
    ensures Reconstruct(f, points, k, avail) == Some(data + Parity(f, points, k, data))
  {
    var word := data + Parity(f, points, k, data);
    ParityAt(f, points, k, data, len);
    var idx := Positions(avail, |avail|);
    PositionsCount(avail, |avail|);
    assert avail[..|avail|] == avail;
    var shards := seq(k, i requires 0 <= i < k => avail[idx[i]].value);
    var xs := seq(k, i requires 0 <= i < k => points[idx[i]]);
    forall a | 0 <= a < k ensures shards[a] == word[idx[a]] && |shards[a]| == len {}
    forall i | 0 <= i < |points| ensures Extend(f, xs, shards, len, points[i]) == word[i] {
      ExtendAt(f, points, k, data, len, idx[..k], shards, xs, i);
    }
    ReconstructsFrom(f, points, k, avail, shards, xs, len, word);
  }

  /** Reconstruction keeps the shards present and computes the others from the first k of them. */
  lemma ReconstructsFrom(f: Field<Byte>, points: seq<Byte>, k: nat, avail: seq<Option<Shard>>, shards: seq<Shard>, xs: seq<Byte>,
                         len: nat, word: seq<Shard>)
    requires k > 0 && |avail| == |points| == |word| && |Positions(avail, |avail|)| >= k && Consistent(avail, word)
    requires shards == seq(k, i requires 0 <= i < k => avail[Positions(avail, |avail|)[i]].value) && Uniform(shards, len)
    requires xs == seq(k, i requires 0 <= i < k => points[Positions(avail, |avail|)[i]])
    requires forall i | 0 <= i < |points| :: Extend(f, xs, shards, len, points[i]) == word[i]
    ensures Reconstruct(f, points, k, avail) == Some(word)
  {
    assert Reconstruct(f, points, k, avail).value == word;
  }

  lemma MeetsContract(f: Field<Byte>, points: seq<Byte>, k: nat)
    requires IsField(f) && Distinct(points) && 0 < k < |points| <= 256
    ensures ErasureCode(ReedSolomonCodec(f, points, k))
  {
    var c := ReedSolomonCodec(f, points, k);
    forall data, len, avail | Shaped(c, data, len) && Consistent(avail, Codeword(c, data)) && Present(avail) >= c.k
      ensures Recovers(c, data, avail)
    {
      ReconstructsCodeword(f, points, k, data, len, avail);
    }
    forall data, len | Shaped(c, data, len) ensures ParityShaped(c, data, len) {
      ParityAt(f, points, k, data, len);
    }
  }

  /** The code over the bytes, with the first k + m bytes as points. */
  function ByteCodec(k: nat, m: nat): Codec
    requires 0 < k
  {
    ReedSolomonCodec(Gf(), seq(k + m, i requires 0 <= i < k + m => Point(i)), k)
  }

  lemma ByteCodecIsErasureCode(k: nat, m: nat)
    requires 0 < k && 0 < m && k + m <= 256
    ensures ErasureCode(ByteCodec(k, m)) && ByteCodec(k, m).k == k && ByteCodec(k, m).m == m
  {
    var points := seq(k + m, i requires 0 <= i < k + m => Point(i));
    forall i, j | 0 <= i < j < k + m ensures points[i] != points[j] { PointsDiffer(i, j); }
    GfIsField();
    MeetsContract(Gf(), points, k);
  }
}
