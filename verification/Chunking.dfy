/** Splitting a file into chunks and putting it together again (cyxcloud-core/src/chunk.rs). */
module Chunking {
  import opened Wrappers
  import opened Bytes
  import opened Sequences
  import opened Sorting

  const MIN_CHUNK_SIZE: nat := 256 * 1024
  const DEFAULT_CHUNK_SIZE: nat := 4 * 1024 * 1024
  const MAX_CHUNK_SIZE: nat := 64 * 1024 * 1024

  type u32 = n: nat | n < U32_LIMIT

  datatype Chunk = Chunk(index: u32, totalChunks: u32, data: seq<Byte>)

  datatype ChunkError =
    | ChunkTooLarge(size: nat, max: nat)
    | InsufficientShards(available: nat, required: nat)
    | InvalidShardIndex(index: nat, max: nat)

  function NewChunk(data: seq<Byte>, index: nat, totalChunks: nat): Result<Chunk, ChunkError> {
    if |data| > MAX_CHUNK_SIZE then Err(ChunkTooLarge(|data|, MAX_CHUNK_SIZE))
    else Ok(Chunk(index % U32_LIMIT, totalChunks % U32_LIMIT, data))
  }

  function Clamp(size: nat): nat {
    if size < MIN_CHUNK_SIZE then MIN_CHUNK_SIZE else if size > MAX_CHUNK_SIZE then MAX_CHUNK_SIZE else size
  }

  /** The pieces from index i on, as chunks; the first piece that is too large is reported. */
  function MakeChunks(pieces: seq<seq<Byte>>, i: nat, total: nat): Result<seq<Chunk>, ChunkError> {
    if pieces == [] then Ok([])
    else
      match NewChunk(pieces[0], i, total)
      case Err(e) => Err(e)
      case Ok(chunk) =>
        match MakeChunks(pieces[1..], i + 1, total)
        case Err(e) => Err(e)
        case Ok(rest) => Ok([chunk] + rest)
  }

  function SplitIntoChunks(data: seq<Byte>, chunkSize: nat): Result<seq<Chunk>, ChunkError> {
    var size := Clamp(chunkSize);
    MakeChunks(Pieces(data, size), 0, CeilDiv(|data|, size))
  }

  // ---------- reassembly ----------

  function ByIndex(): Before<Chunk> { (a: Chunk, b: Chunk) => a.index < b.index }

  /** A stable sort by index. */
  function SortByIndex(chunks: seq<Chunk>): (r: seq<Chunk>)
    ensures |r| == |chunks|
  {
    Sort(chunks, ByIndex())
  }

  ghost predicate Ascending(s: seq<Chunk>) {
    forall i, j | 0 <= i < j < |s| :: s[i].index <= s[j].index
  }

  lemma SortAscending(chunks: seq<Chunk>)
    ensures Ascending(SortByIndex(chunks)) && multiset(SortByIndex(chunks)) == multiset(chunks)
  {
    var r := SortByIndex(chunks);
    SortPermutes(chunks, ByIndex());
    SortSorted(chunks, ByIndex());
    forall i, j | 0 <= i < j < |r| ensures r[i].index <= r[j].index { assert !ByIndex()(r[j], r[i]); }
  }

  function Payloads(chunks: seq<Chunk>): (r: seq<seq<Byte>>)
    ensures |r| == |chunks|
  {
    seq(|chunks|, i requires 0 <= i < |chunks| => chunks[i].data)
  }

  /** Positions carry their own index. */
  ghost predicate InOrder(s: seq<Chunk>) {
    forall i | 0 <= i < |s| :: s[i].index == i
  }

  /** The first chunk from position i on whose index is not its position. */
  function FirstMisplaced(s: seq<Chunk>, i: nat): (r: Option<Chunk>)
    requires i <= |s|
    ensures r.None? <==> forall j | i <= j < |s| :: s[j].index == j % U32_LIMIT
    decreases |s| - i
  {
    if i == |s| then None else if s[i].index != i % U32_LIMIT then Some(s[i]) else FirstMisplaced(s, i + 1)
  }

  /** What reassembly returns. */
  function Reassembled(chunks: seq<Chunk>): Result<seq<Byte>, ChunkError> {
    if chunks == [] then Ok([])
    else
      var s := SortByIndex(chunks);
      if |s| != s[0].totalChunks then Err(InsufficientShards(|s|, s[0].totalChunks))
      else
        match FirstMisplaced(s, 0)
        case Some(chunk) => Err(InvalidShardIndex(chunk.index, s[0].totalChunks - 1))
        case None => Ok(Flatten(Payloads(s)))
  }

  method ReassembleChunks(chunks: seq<Chunk>) returns (r: Result<seq<Byte>, ChunkError>)
    ensures r == Reassembled(chunks)
  {
    if chunks == [] {
      return Ok([]);
    }
    var sorted := SortByIndex(chunks);
    var expectedTotal := sorted[0].totalChunks;
    if |sorted| != expectedTotal {
      return Err(InsufficientShards(|sorted|, expectedTotal));
    }
    for i := 0 to |sorted|
      invariant FirstMisplaced(sorted, 0) == FirstMisplaced(sorted, i)
    {
      if sorted[i].index != i % U32_LIMIT {
        return Err(InvalidShardIndex(sorted[i].index, expectedTotal - 1));
      }
    }
    var result := [];
    for i := 0 to |sorted|
      invariant result == Flatten(Payloads(sorted[..i]))
    {
      FlattenAppend(Payloads(sorted[..i]), sorted[i].data);
      assert Payloads(sorted[..i + 1]) == Payloads(sorted[..i]) + [sorted[i].data];
      result := result + sorted[i].data;
    }
    assert sorted[..|sorted|] == sorted;
    r := Ok(result);
  }

  // ---------- what splitting gives ----------

  lemma {:induction false} MakeChunksAt(pieces: seq<seq<Byte>>, i: nat, total: nat)
    requires forall j | 0 <= j < |pieces| :: |pieces[j]| <= MAX_CHUNK_SIZE
    ensures MakeChunks(pieces, i, total).Ok?
    ensures var s := MakeChunks(pieces, i, total).value;
            |s| == |pieces| && forall j | 0 <= j < |s| ::
              s[j] == Chunk((i + j) % U32_LIMIT, total % U32_LIMIT, pieces[j])
  {
    if pieces != [] { MakeChunksAt(pieces[1..], i + 1, total); }
  }

  /** A requested size is used as it is between 256 KB and 64 MB, and the nearer of the two otherwise. */
  lemma SizeUsed(size: nat)
    ensures 262144 <= size <= 67108864 ==> Clamp(size) == size
    ensures size < 262144 ==> Clamp(size) == 262144
    ensures size > 67108864 ==> Clamp(size) == 67108864
  {}

  /** A chunk of more than 64 MB is refused; any other keeps its bytes, with its position and the count modulo 2^32. */
  lemma ChunkMade(data: seq<Byte>, index: nat, total: nat)
    ensures |data| > 67108864 ==> NewChunk(data, index, total) == Err(ChunkTooLarge(|data|, 67108864))
    ensures |data| <= 67108864 ==> NewChunk(data, index, total) == Ok(Chunk(index % 0x1_0000_0000, total % 0x1_0000_0000, data))
  {}

  /** Splitting never fails: chunk j is the j-th piece, its position and the count taken modulo 2^32. */
  lemma SplitAt(data: seq<Byte>, chunkSize: nat)
    ensures SplitIntoChunks(data, chunkSize).Ok?
    ensures var s, size := SplitIntoChunks(data, chunkSize).value, Clamp(chunkSize);
            && |s| == CeilDiv(|data|, size)
            && Flatten(Payloads(s)) == data
            && (forall j | 0 <= j < |s| :: s[j].index == j % U32_LIMIT && s[j].totalChunks == |s| % U32_LIMIT)
            && (forall j | 0 <= j < |s| :: 0 < |s[j].data| <= size && (j < |s| - 1 ==> |s[j].data| == size))
  {
    var size := Clamp(chunkSize);
    var pieces := Pieces(data, size);
    PiecesNonEmpty(data, size);
    PiecesShape(data, size, 0);
    MakeChunksAt(pieces, 0, CeilDiv(|data|, size));
    FlattenPieces(data, size);
    assert Payloads(SplitIntoChunks(data, chunkSize).value) == pieces;
    forall j | 0 <= j < |pieces| - 1 ensures |pieces[j]| == size { PiecesShape(data, size, j); }
  }

  // ---------- reassembly undoes splitting ----------

  lemma TailMultiset(s: seq<Chunk>)
    requires s != []
    ensures multiset(s[1..]) == multiset(s) - multiset{s[0]}
  {
    assert s == [s[0]] + s[1..];
  }

  lemma SameLength(s: seq<Chunk>, t: seq<Chunk>)
    requires multiset(s) == multiset(t)
    ensures |s| == |t|
  {
    assert |multiset(s)| == |multiset(t)|;
  }

  lemma SameMembers(s: seq<Chunk>, t: seq<Chunk>, i: nat)
    requires multiset(s) == multiset(t) && i < |s|
    ensures s[i] in t
  {
    assert s[i] in multiset(s);
  }

  /** The only ascending arrangement of chunks with consecutive indices is the original one. */
  lemma {:induction false} AscendingUnique(s: seq<Chunk>, t: seq<Chunk>, base: nat)
    requires forall i | 0 <= i < |s| :: s[i].index == base + i
    requires Ascending(t) && multiset(t) == multiset(s)
    ensures t == s
  {
    SameLength(s, t);
    if s != [] {
      SameMembers(t, s, 0);
      SameMembers(s, t, 0);
      assert t[0] == s[0];
      TailMultiset(s);
      TailMultiset(t);
      AscendingUnique(s[1..], t[1..], base + 1);
    }
  }

  /**
    The chunks of a file, in any order, are put back together to the file exactly when there are
    fewer than 2^32 of them; beyond that the stored 32-bit count no longer matches and reassembly
    reports missing chunks.
  */
  lemma ReassembleSplit(data: seq<Byte>, chunkSize: nat, chunks: seq<Chunk>, shuffled: seq<Chunk>)
    requires SplitIntoChunks(data, chunkSize) == Ok(chunks) && multiset(shuffled) == multiset(chunks)
    ensures |chunks| == CeilDiv(|data|, Clamp(chunkSize))
    ensures Reassembled(shuffled) ==
            if |chunks| < U32_LIMIT then Ok(data) else Err(InsufficientShards(|chunks|, |chunks| % U32_LIMIT))
  {
    SplitAt(data, chunkSize);
    ReassembleShuffled(chunks, shuffled);
  }

  lemma ReassembleShuffled(s: seq<Chunk>, shuffled: seq<Chunk>)
    requires multiset(shuffled) == multiset(s)
    requires forall j | 0 <= j < |s| :: s[j].index == j % U32_LIMIT && s[j].totalChunks == |s| % U32_LIMIT
    ensures Reassembled(shuffled) ==
            if |s| < U32_LIMIT then Ok(Flatten(Payloads(s))) else Err(InsufficientShards(|s|, |s| % U32_LIMIT))
  {
    if |s| < U32_LIMIT { ReassembleFew(s, shuffled); } else { ReassembleMany(s, shuffled); }
  }

  lemma ReassembleFew(s: seq<Chunk>, shuffled: seq<Chunk>)
    requires multiset(shuffled) == multiset(s)
    requires forall j | 0 <= j < |s| :: s[j].index == j && s[j].totalChunks == |s|
    ensures Reassembled(shuffled) == Ok(Flatten(Payloads(s)))
  {
    SameLength(shuffled, s);
    SortAscending(shuffled);
    AscendingUnique(s, SortByIndex(shuffled), 0);
  }

  lemma ReassembleMany(s: seq<Chunk>, shuffled: seq<Chunk>)
    requires multiset(shuffled) == multiset(s) && |s| >= U32_LIMIT
    requires forall j | 0 <= j < |s| :: s[j].totalChunks == |s| % U32_LIMIT
    ensures Reassembled(shuffled) == Err(InsufficientShards(|s|, |s| % U32_LIMIT))
  {
    SameLength(shuffled, s);
    SortAscending(shuffled);
    SameMembers(SortByIndex(shuffled), s, 0);
  }

  /** Whatever is accepted is a complete set of chunks 0..n-1, each exactly once, joined in that order. */
  lemma AcceptedIsComplete(chunks: seq<Chunk>)
    requires chunks != [] && Reassembled(chunks).Ok?
    ensures exists s: seq<Chunk> :: multiset(s) == multiset(chunks) && InOrder(s)
              && Reassembled(chunks) == Ok(Flatten(Payloads(s)))
    ensures forall i | 0 <= i < |chunks| :: chunks[i].index < |chunks|
    ensures forall i, j | 0 <= i < j < |chunks| :: chunks[i].index != chunks[j].index
  {
    var s := SortByIndex(chunks);
    SortAscending(chunks);
    assert InOrder(s);
    forall i | 0 <= i < |chunks| ensures chunks[i].index < |chunks| {
      SameMembers(chunks, s, i);
    }
    forall i, j | 0 <= i < j < |chunks| ensures chunks[i].index != chunks[j].index {
      SameMembers(chunks, s, i);
      SameMembers(chunks, s, j);
      if chunks[i].index == chunks[j].index {
        OnceOnly(s, chunks[i].index);
        TwiceCounts(chunks, i, j);
      }
    }
  }

  /**
    Why a list is rejected: its length is not the count that a chunk of least index states, or it is and some chunk's
    index is not the next one.
  */
  lemma RejectedBecause(chunks: seq<Chunk>)
    requires Reassembled(chunks).Err?
    ensures match Reassembled(chunks).error
            case InsufficientShards(available, required) =>
              available == |chunks| != required && exists c :: c in chunks && c.totalChunks == required && forall d | d in chunks :: c.index <= d.index
            case InvalidShardIndex(index, max) => max == |chunks| - 1 && exists c :: c in chunks && c.index == index
            case ChunkTooLarge(_, _) => false
  {
    var s := SortByIndex(chunks);
    SortAscending(chunks);
    SameMembers(s, chunks, 0);
    forall d | d in chunks ensures s[0].index <= d.index {
      assert d in multiset(chunks);
      var j :| 0 <= j < |s| && s[j] == d;
    }
    MisplacedMember(s, 0);
    if Reassembled(chunks).error.InvalidShardIndex? { MisplacedIn(s, chunks); }
  }

  lemma {:induction false} MisplacedMember(s: seq<Chunk>, i: nat)
    requires i <= |s|
    ensures FirstMisplaced(s, i).Some? ==> FirstMisplaced(s, i).value in s
    decreases |s| - i
  {
    if i < |s| && s[i].index == i % U32_LIMIT { MisplacedMember(s, i + 1); }
  }

  lemma MisplacedIn(s: seq<Chunk>, chunks: seq<Chunk>)
    requires multiset(s) == multiset(chunks) && FirstMisplaced(s, 0).Some? && FirstMisplaced(s, 0).value in s
    ensures FirstMisplaced(s, 0).value in chunks
  {
    assert FirstMisplaced(s, 0).value in multiset(s);
  }

  lemma OnceOnly(s: seq<Chunk>, n: nat)
    requires InOrder(s) && n < |s|
    ensures multiset(s)[s[n]] == 1
  {
    assert s == s[..n] + [s[n]] + s[n + 1..];
    assert s[n] !in s[..n] && s[n] !in s[n + 1..];
  }

  lemma TwiceCounts(s: seq<Chunk>, i: nat, j: nat)
    requires i < j < |s| && s[i] == s[j]
    ensures multiset(s)[s[i]] >= 2
  {
    assert s == s[..i] + [s[i]] + s[i + 1..j] + [s[j]] + s[j + 1..];
  }
}
