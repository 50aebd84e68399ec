/** Encoding a chunk into shards and decoding it again (cyxcloud-core/src/erasure.rs). */
module Erasure {
  import opened Wrappers
  import opened Bytes
  import opened Sequences
  import opened Codecs

  datatype ShardData = ShardData(index: nat, data: Shard, isParity: bool)

  datatype DecodeError =
    | ShardSizeMismatch(expected: nat, actual: nat)
    | InsufficientShards(available: nat, required: nat)
    | ReconstructionFailed

  function ShardSize(c: Codec, dataSize: nat): nat
    requires c.k > 0
  {
    CeilDiv(dataSize, c.k)
  }

  function Zeros(n: nat): (z: seq<Byte>)
    ensures |z| == n
  {
    seq(n, _ => ZERO)
  }

  /** The chunk, padded with zeros to k shards of equal size, cut into those shards. */
  function DataShards(c: Codec, data: seq<Byte>): seq<Shard>
    requires c.k > 0 && data != []
  {
    var size := ShardSize(c, |data|);
    PaddingFits(c, |data|);
    Pieces(data + Zeros(size * c.k - |data|), size)
  }

  /** All shards of a chunk: data, then parity. */
  function Shards(c: Codec, data: seq<Byte>): (s: seq<Shard>)
    requires ErasureCode(c) && data != []
    ensures |s| == c.Total()
  {
    DataShardsShape(c, data);
    assert ParityShaped(c, DataShards(c, data), ShardSize(c, |data|));
    Codeword(c, DataShards(c, data))
  }

  lemma PaddingFits(c: Codec, n: nat)
    requires c.k > 0 && n > 0
    ensures ShardSize(c, n) > 0 && ShardSize(c, n) * c.k >= n
  {
    var q := ShardSize(c, n);
    assert n + c.k - 1 == q * c.k + (n + c.k - 1) % c.k;
    assert q == 0 ==> q * c.k == 0;
  }

  lemma DataShardsShape(c: Codec, data: seq<Byte>)
    requires c.k > 0 && data != []
    ensures Shaped(c, DataShards(c, data), ShardSize(c, |data|))
    ensures data <= Flatten(DataShards(c, data))
  {
    var size := ShardSize(c, |data|);
    PaddingFits(c, |data|);
    var padded := data + Zeros(size * c.k - |data|);
    assert |padded| == c.k * size;
    EvenPieces(padded, size, c.k);
    FlattenPieces(padded, size);
  }

  /** All shards of a chunk have the same, positive, size. */
  lemma ShardsUniform(c: Codec, data: seq<Byte>)
    requires ErasureCode(c) && data != []
    ensures Uniform(Shards(c, data), ShardSize(c, |data|)) && ShardSize(c, |data|) > 0
  {
    DataShardsShape(c, data);
    PaddingFits(c, |data|);
    assert ParityShaped(c, DataShards(c, data), ShardSize(c, |data|));
  }

  method Encode(c: Codec, data: seq<Byte>) returns (result: seq<ShardData>)
    requires ErasureCode(c) && data != []
    ensures |result| == c.Total()
    ensures forall i | 0 <= i < c.Total() :: result[i] == ShardData(i, Shards(c, data)[i], i >= c.k)
  {
    DataShardsShape(c, data);
    var size := ShardSize(c, |data|);
    PaddingFits(c, |data|);
    var padded := data + Zeros(size * c.k - |data|);
    var shards := Pieces(padded, size);
    for j := 0 to c.m
      invariant shards == DataShards(c, data) + seq(j, _ => Zeros(size))
    {
      shards := shards + [Zeros(size)];
    }
    // the library overwrites the zeroed parity shards
    shards := shards[..c.k] + c.parity(shards[..c.k]);
    assert shards == Shards(c, data);
    result := WithNumbers(shards, c.k);
  }

  /** The shards with their 8-bit numbers, those from k on marked as parity. */
  method WithNumbers(shards: seq<Shard>, k: nat) returns (result: seq<ShardData>)
    requires |shards| <= 256
    ensures |result| == |shards|
    ensures forall i | 0 <= i < |shards| :: result[i] == ShardData(i, shards[i], i >= k)
  {
    result := [];
    for i := 0 to |shards|
      invariant |result| == i
      invariant forall j | 0 <= j < i :: result[j] == ShardData(j, shards[j], j >= k)
    {
      result := result + [ShardData(i % 256, shards[i], i >= k)];
    }
  }

  /** What decoding returns. */
  function Decoded(c: Codec, shards: seq<Option<Shard>>, originalSize: nat): Result<seq<Byte>, DecodeError> {
    if |shards| != c.Total() then Err(ShardSizeMismatch(c.Total(), |shards|))
    else if Present(shards) < c.k then Err(InsufficientShards(Present(shards), c.k))
    else
      match c.reconstruct(shards)
      case None => Err(ReconstructionFailed)
      case Some(word) =>
        if |word| < c.k then Err(ReconstructionFailed)
        else
          var bytes := Flatten(word[..c.k]);
          Ok(if originalSize < |bytes| then bytes[..originalSize] else bytes)
  }

  method Decode(c: Codec, shards: seq<Option<Shard>>, originalSize: nat) returns (r: Result<seq<Byte>, DecodeError>)
    ensures r == Decoded(c, shards, originalSize)
  {
    if |shards| != c.Total() {
      return Err(ShardSizeMismatch(c.Total(), |shards|));
    }
    var available := 0;
    for i := 0 to |shards|
      invariant available == Present(shards[..i])
    {
      assert shards[..i + 1][..i] == shards[..i];
      if shards[i].Some? { available := available + 1; }
    }
    assert shards[..|shards|] == shards;
    if available < c.k {
      return Err(InsufficientShards(available, c.k));
    }
    var reconstructed := c.reconstruct(shards);
    if reconstructed.None? || |reconstructed.value| < c.k {
      return Err(ReconstructionFailed);
    }
    var word := reconstructed.value;
    var bytes := [];
    for i := 0 to c.k
      invariant bytes == Flatten(word[..i])
    {
      FlattenAppend(word[..i], word[i]);
      assert word[..i + 1] == word[..i] + [word[i]];
      bytes := bytes + word[i];
    }
    if originalSize < |bytes| { bytes := bytes[..originalSize]; }
    r := Ok(bytes);
  }

  /**
    Decoding shards of a chunk, any of them missing, gives back the chunk exactly when at least k
    are present, and reports how many are missing otherwise.
  */
  lemma DecodeShards(c: Codec, data: seq<Byte>, avail: seq<Option<Shard>>)
    requires ErasureCode(c) && data != [] && Consistent(avail, Shards(c, data))
    ensures Decoded(c, avail, |data|) ==
            if Present(avail) >= c.k then Ok(data) else Err(InsufficientShards(Present(avail), c.k))
  {
    if Present(avail) >= c.k {
      ChunkRecovered(c, data, avail);
      DecodedWord(c, avail, Shards(c, data), data);
    }
  }

  lemma ChunkRecovered(c: Codec, data: seq<Byte>, avail: seq<Option<Shard>>)
    requires ErasureCode(c) && data != [] && Consistent(avail, Shards(c, data)) && Present(avail) >= c.k
    ensures c.reconstruct(avail) == Some(Shards(c, data))
    ensures data <= Flatten(Shards(c, data)[..c.k])
  {
    DataShardsShape(c, data);
    var pieces := DataShards(c, data);
    assert Recovers(c, pieces, avail);
    assert Shards(c, data)[..c.k] == pieces;
  }

  lemma DecodedWord(c: Codec, avail: seq<Option<Shard>>, word: seq<Shard>, data: seq<Byte>)
    requires |avail| == c.Total() == |word| && Present(avail) >= c.k && c.reconstruct(avail) == Some(word)
    requires data <= Flatten(word[..c.k])
    ensures Decoded(c, avail, |data|) == Ok(data)
  {
    var bytes := Flatten(word[..c.k]);
    assert bytes[..|data|] == data;
    assert |bytes| == |data| ==> bytes == data;
  }

  /** Any list of shards: it must have as many places as the code has shards and at least k of them filled; the result is no longer than asked. */
  lemma DecodeDemands(c: Codec, shards: seq<Option<Shard>>, originalSize: nat)
    ensures |shards| != c.Total() ==> Decoded(c, shards, originalSize) == Err(ShardSizeMismatch(c.Total(), |shards|))
    ensures |shards| == c.Total() && Present(shards) < c.k ==> Decoded(c, shards, originalSize) == Err(InsufficientShards(Present(shards), c.k))
    ensures Decoded(c, shards, originalSize).Ok? ==>
              |shards| == c.Total() && Present(shards) >= c.k && |Decoded(c, shards, originalSize).value| <= originalSize
  {}

  /** Asked for fewer bytes than the chunk has, decoding returns its first bytes. */
  lemma DecodePrefix(c: Codec, data: seq<Byte>, avail: seq<Option<Shard>>, n: nat)
    requires ErasureCode(c) && data != [] && Consistent(avail, Shards(c, data)) && Present(avail) >= c.k && n <= |data|
    ensures Decoded(c, avail, n) == Ok(data[..n])
  {
    ChunkRecovered(c, data, avail);
    DecodedWord(c, avail, Shards(c, data), data[..n]);
  }
}
