/**
  Reading an object back from shard records and storage nodes: the database branch of
  `get_object` (cyxcloud-gateway/src/state.rs).
*/
module Retrieval {
  import opened Wrappers
  import opened Bytes
  import opened Sequences
  import opened Codecs
  import opened Erasure
  import opened Cluster

  /** How objects are cut, coded and addressed. */
  datatype Scheme = Scheme(codec: Codec, hash: Hash, chunkSize: nat)

  datatype FileRecord = FileRecord(id: nat, sizeBytes: nat, chunkCount: nat)

  /** A row of the chunks table: one shard of one chunk of a file.  The columns are signed integers. */
  datatype ChunkRow = ChunkRow(chunkId: ChunkId, fileId: nat, chunkIndex: int, shardIndex: int)

  datatype GetError =
    | NoSuchKey
    | NoShardsForFile
    | NoShardsForChunk(chunk: nat)
    | TooFewShards(chunk: nat, have: nat, need: nat)
    | DecodingFailed(chunk: nat, cause: DecodeError)

  /** What a request for a chunk id to the nodes recorded for it returns. */
  type Fetch = ChunkId -> Option<Shard>

  ghost predicate ValidScheme(sch: Scheme) {
    ErasureCode(sch.codec) && sch.chunkSize > 0
  }

  ghost predicate ValidFile(sch: Scheme, file: FileRecord) {
    sch.chunkSize > 0 && file.chunkCount == CeilDiv(file.sizeBytes, sch.chunkSize)
  }

  // ---------- what the loops compute ----------

  function OfChunk(rows: seq<ChunkRow>, c: int): seq<ChunkRow> {
    if rows == [] then []
    else OfChunk(rows[..|rows| - 1], c) + (if rows[|rows| - 1].chunkIndex == c then [rows[|rows| - 1]] else [])
  }

  /** A negative index, read as an unsigned number, is out of range too. */
  predicate InRange(sch: Scheme, row: ChunkRow) {
    0 <= row.shardIndex < sch.codec.Total()
  }

  /** The fetch loop: skip invalid records, fill slots, stop once k fetches succeeded. */
  function Collect(sch: Scheme, rows: seq<ChunkRow>, fetch: Fetch, opts: seq<Option<Shard>>, count: nat)
    : (r: (seq<Option<Shard>>, nat))
    requires |opts| == sch.codec.Total()
    ensures |r.0| == sch.codec.Total()
  {
    if rows == [] || count >= sch.codec.k then (opts, count)
    else if InRange(sch, rows[0]) && fetch(rows[0].chunkId).Some?
    then Collect(sch, rows[1..], fetch, opts[rows[0].shardIndex := fetch(rows[0].chunkId)], count + 1)
    else Collect(sch, rows[1..], fetch, opts, count)
  }

  function NoShards(sch: Scheme): (r: seq<Option<Shard>>)
    ensures |r| == sch.codec.Total()
  {
    seq(sch.codec.Total(), _ => None)
  }

  /** The last chunk holds the remaining bytes. */
  function ChunkLength(sch: Scheme, file: FileRecord, c: nat): nat
    requires ValidFile(sch, file) && c < file.chunkCount
  {
    LastChunkFits(file.sizeBytes, sch.chunkSize);
    if c == file.chunkCount - 1 then file.sizeBytes - (file.chunkCount - 1) * sch.chunkSize else sch.chunkSize
  }

  lemma LastChunkFits(n: nat, size: nat)
    requires size > 0
    ensures CeilDiv(n, size) > 0 ==> (CeilDiv(n, size) - 1) * size < n
  {
    PiecesShape(seq(n, _ => 0), size, 0);
    if n == 0 { DivUnique(size - 1, size, 0, size - 1); }
  }

  function ReadChunk(sch: Scheme, file: FileRecord, rows: seq<ChunkRow>, fetch: Fetch, c: nat): Result<seq<Byte>, GetError>
    requires ValidFile(sch, file) && c < file.chunkCount
  {
    var mine := OfChunk(rows, c);
    if mine == [] then Err(NoShardsForChunk(c))
    else
      var (opts, count) := Collect(sch, mine, fetch, NoShards(sch), 0);
      if count < sch.codec.k then Err(TooFewShards(c, count, sch.codec.k))
      else
        match Decoded(sch.codec, opts, ChunkLength(sch, file, c))
        case Err(e) => Err(DecodingFailed(c, e))
        case Ok(bytes) => Ok(bytes)
  }

  function ReadChunks(sch: Scheme, file: FileRecord, rows: seq<ChunkRow>, fetch: Fetch, upTo: nat): Result<seq<Byte>, GetError>
    requires ValidFile(sch, file) && upTo <= file.chunkCount
  {
    if upTo == 0 then Ok([])
    else
      match ReadChunks(sch, file, rows, fetch, upTo - 1)
      case Err(e) => Err(e)
      case Ok(before) =>
        match ReadChunk(sch, file, rows, fetch, upTo - 1)
        case Err(e) => Err(e)
        case Ok(bytes) => Ok(before + bytes)
  }

  function Truncated(bytes: seq<Byte>, n: nat): seq<Byte> {
    if n < |bytes| then bytes[..n] else bytes
  }

  /** The result of a read, given the rows of the file. */
  function ReadObject(sch: Scheme, file: FileRecord, rows: seq<ChunkRow>, fetch: Fetch): Result<seq<Byte>, GetError>
    requires ValidFile(sch, file)
  {
    if rows == [] then Err(NoShardsForFile)
    else
      match ReadChunks(sch, file, rows, fetch, file.chunkCount)
      case Err(e) => Err(e)
      case Ok(bytes) => Ok(Truncated(bytes, file.sizeBytes))
  }

  // ---------- the shards of an object ----------

  function Parts(sch: Scheme, data: seq<Byte>): seq<seq<Byte>>
    requires sch.chunkSize > 0
  {
    Pieces(data, sch.chunkSize)
  }

  lemma PartsShape(sch: Scheme, data: seq<Byte>, file: FileRecord)
    requires ValidFile(sch, file) && file.sizeBytes == |data|
    ensures |Parts(sch, data)| == file.chunkCount
    ensures forall c | 0 <= c < file.chunkCount :: Parts(sch, data)[c] != [] && |Parts(sch, data)[c]| == ChunkLength(sch, file, c)
  {
    var parts := Parts(sch, data);
    PiecesShape(data, sch.chunkSize, 0);
    PiecesNonEmpty(data, sch.chunkSize);
    forall c | 0 <= c < |parts| ensures |parts[c]| == ChunkLength(sch, file, c) {
      PiecesShape(data, sch.chunkSize, c);
    }
  }

  /** Shard j of chunk c. */
  function ShardOf(sch: Scheme, data: seq<Byte>, c: nat, j: nat): Shard
    requires ErasureCode(sch.codec) && sch.chunkSize > 0 && c < |Parts(sch, data)| && j < sch.codec.Total()
  {
    PiecesNonEmpty(data, sch.chunkSize);
    Shards(sch.codec, Parts(sch, data)[c])[j]
  }

  /** Every usable record names the shard it stands for; other records may say anything. */
  ghost predicate RowsDescribe(sch: Scheme, data: seq<Byte>, rows: seq<ChunkRow>)
    requires ValidScheme(sch)
  {
    forall i | 0 <= i < |rows| :: RowDescribes(sch, data, rows[i])
  }

  ghost predicate RowDescribes(sch: Scheme, data: seq<Byte>, row: ChunkRow)
    requires ValidScheme(sch)
  {
    0 <= row.chunkIndex < |Parts(sch, data)| && InRange(sch, row) ==>
      row.chunkId == sch.hash(ShardOf(sch, data, row.chunkIndex, row.shardIndex))
  }

  /** A fetch of an object's shard fails or returns that shard. */
  ghost predicate Genuine(sch: Scheme, data: seq<Byte>, fetch: Fetch)
    requires ValidScheme(sch)
  {
    forall c, j | 0 <= c < |Parts(sch, data)| && 0 <= j < sch.codec.Total() ::
      fetch(sch.hash(ShardOf(sch, data, c, j))) in {None, Some(ShardOf(sch, data, c, j))}
  }

  // ---------- one chunk ----------

  lemma {:induction false} PresentAfterUpdate(opts: seq<Option<Shard>>, j: nat, v: Option<Shard>)
    requires j < |opts| && v.Some?
    ensures Present(opts[j := v]) == Present(opts) + (if opts[j].Some? then 0 else 1)
  {
    var n, u := |opts| - 1, opts[j := v];
    if j < n {
      assert u[..n] == opts[..n][j := v];
      PresentAfterUpdate(opts[..n], j, v);
    } else {
      assert u[..n] == opts[..n];
    }
  }

  lemma {:induction false} PresentOfNone(opts: seq<Option<Shard>>)
    requires forall i | 0 <= i < |opts| :: opts[i].None?
    ensures Present(opts) == 0
  {
    if opts != [] { PresentOfNone(opts[..|opts| - 1]); }
  }

  /** Records whose shard can be fetched. */
  function Fetchable(sch: Scheme, rows: seq<ChunkRow>, fetch: Fetch): nat {
    if rows == [] then 0
    else (if InRange(sch, rows[0]) && fetch(rows[0].chunkId).Some? then 1 else 0) + Fetchable(sch, rows[1..], fetch)
  }

  ghost predicate MatchesWord(sch: Scheme, rows: seq<ChunkRow>, fetch: Fetch, word: seq<Shard>)
    requires |word| == sch.codec.Total()
  {
    forall i | 0 <= i < |rows| && InRange(sch, rows[i]) :: fetch(rows[i].chunkId) in {None, Some(word[rows[i].shardIndex])}
  }

  /** What is collected agrees with the codeword, is never more than was counted, and is counted up to k. */
  lemma {:induction false} CollectSound(sch: Scheme, rows: seq<ChunkRow>, fetch: Fetch, word: seq<Shard>,
                                        opts: seq<Option<Shard>>, count: nat)
    requires |opts| == |word| == sch.codec.Total() && MatchesWord(sch, rows, fetch, word)
    requires Consistent(opts, word) && Present(opts) <= count <= sch.codec.k
    ensures var (o, n) := Collect(sch, rows, fetch, opts, count);
            && Consistent(o, word) && Present(o) <= n
            && n == if count + Fetchable(sch, rows, fetch) < sch.codec.k then count + Fetchable(sch, rows, fetch) else sch.codec.k
    decreases |rows|
  {
    if rows != [] && count < sch.codec.k {
      var r := rows[0];
      forall i | 0 <= i < |rows[1..]| && InRange(sch, rows[1..][i])
        ensures fetch(rows[1..][i].chunkId) in {None, Some(word[rows[1..][i].shardIndex])}
      {
        assert rows[1..][i] == rows[i + 1];
      }
      if InRange(sch, r) && fetch(r.chunkId).Some? {
        PresentAfterUpdate(opts, r.shardIndex, fetch(r.chunkId));
        CollectSound(sch, rows[1..], fetch, word, opts[r.shardIndex := fetch(r.chunkId)], count + 1);
      } else {
        CollectSound(sch, rows[1..], fetch, word, opts, count);
      }
    }
  }

  /** The shard numbers of the first `want` usable records: in range and fetchable. */
  function Used(sch: Scheme, rows: seq<ChunkRow>, fetch: Fetch, want: nat): (r: seq<nat>)
    ensures |r| <= want && forall i | 0 <= i < |r| :: r[i] < sch.codec.Total()
    decreases |rows|
  {
    if rows == [] || want == 0 then []
    else if InRange(sch, rows[0]) && fetch(rows[0].chunkId).Some?
    then [rows[0].shardIndex] + Used(sch, rows[1..], fetch, want - 1)
    else Used(sch, rows[1..], fetch, want)
  }

  /** The loop has k records to use, and no two of those it uses stand for the same shard. */
  ghost predicate Suffices(sch: Scheme, rows: seq<ChunkRow>, fetch: Fetch) {
    |Used(sch, rows, fetch, sch.codec.k)| == sch.codec.k && Distinct(Used(sch, rows, fetch, sch.codec.k))
  }

  ghost predicate AllFree(opts: seq<Option<Shard>>, used: seq<nat>) {
    forall i | 0 <= i < |used| :: used[i] < |opts| && opts[used[i]].None?
  }

  lemma DistinctCons(j: nat, rest: seq<nat>)
    ensures Distinct([j] + rest) <==> j !in rest && Distinct(rest)
  {
    var all := [j] + rest;
    if Distinct(all) {
      forall a, b | 0 <= a < b < |rest| ensures rest[a] != rest[b] { assert all[a + 1] != all[b + 1]; }
      forall a | 0 <= a < |rest| ensures rest[a] != j { assert all[0] != all[a + 1]; }
    }
  }

  lemma FreeAfterUpdate(opts: seq<Option<Shard>>, j: nat, v: Option<Shard>, rest: seq<nat>)
    requires j < |opts| && v.Some? && forall i | 0 <= i < |rest| :: rest[i] < |opts|
    ensures AllFree(opts[j := v], rest) <==> AllFree(opts, rest) && j !in rest
    ensures AllFree(opts, [j] + rest) <==> opts[j].None? && AllFree(opts, rest)
  {
    var all := [j] + rest;
    if AllFree(opts, all) {
      assert opts[all[0]].None?;
      forall i | 0 <= i < |rest| ensures opts[rest[i]].None? { assert opts[all[i + 1]].None?; }
    }
  }

  /** The slots filled are as many as the records used if and only if these stand for different, still empty slots. */
  lemma {:induction false} CollectExact(sch: Scheme, rows: seq<ChunkRow>, fetch: Fetch, opts: seq<Option<Shard>>, count: nat)
    requires |opts| == sch.codec.Total() && count <= sch.codec.k
    ensures var (o, n) := Collect(sch, rows, fetch, opts, count); var used := Used(sch, rows, fetch, sch.codec.k - count);
            && n == count + |used| && Present(o) <= Present(opts) + |used|
            && (Present(o) == Present(opts) + |used| <==> Distinct(used) && AllFree(opts, used))
    decreases |rows|
  {
    if rows != [] && count < sch.codec.k {
      var r, rest := rows[0], rows[1..];
      if InRange(sch, r) && fetch(r.chunkId).Some? {
        var next := opts[r.shardIndex := fetch(r.chunkId)];
        var more := Used(sch, rest, fetch, sch.codec.k - count - 1);
        PresentAfterUpdate(opts, r.shardIndex, fetch(r.chunkId));
        CollectExact(sch, rest, fetch, next, count + 1);
        DistinctCons(r.shardIndex, more);
        FreeAfterUpdate(opts, r.shardIndex, fetch(r.chunkId), more);
      } else {
        CollectExact(sch, rest, fetch, opts, count);
      }
    }
  }

  // ---------- records without duplicates ----------

  /** No two in-range records of the list stand for the same shard. */
  ghost predicate NoDuplicates(sch: Scheme, rows: seq<ChunkRow>) {
    forall i, j | 0 <= i < j < |rows| && InRange(sch, rows[i]) && InRange(sch, rows[j]) ::
      rows[i].shardIndex != rows[j].shardIndex
  }

  lemma {:induction false} UsedAvoids(sch: Scheme, rows: seq<ChunkRow>, fetch: Fetch, want: nat, j: nat)
    requires forall i | 0 <= i < |rows| && InRange(sch, rows[i]) :: rows[i].shardIndex != j
    ensures j !in Used(sch, rows, fetch, want)
    decreases |rows|
  {
    if rows != [] && want > 0 {
      var rest := rows[1..];
      forall i | 0 <= i < |rest| && InRange(sch, rest[i]) ensures rest[i].shardIndex != j { assert rest[i] == rows[i + 1]; }
      UsedAvoids(sch, rest, fetch, if InRange(sch, rows[0]) && fetch(rows[0].chunkId).Some? then want - 1 else want, j);
    }
  }

  /** Then it is enough that k records are fetchable. */
  lemma {:induction false} UsedDistinct(sch: Scheme, rows: seq<ChunkRow>, fetch: Fetch, want: nat)
    requires NoDuplicates(sch, rows)
    ensures Distinct(Used(sch, rows, fetch, want))
    decreases |rows|
  {
    if rows != [] && want > 0 {
      var r, rest := rows[0], rows[1..];
      forall i, j | 0 <= i < j < |rest| && InRange(sch, rest[i]) && InRange(sch, rest[j]) ensures rest[i].shardIndex != rest[j].shardIndex {
        assert rows[i + 1] == rest[i] && rows[j + 1] == rest[j];
      }
      if InRange(sch, r) && fetch(r.chunkId).Some? {
        var more := Used(sch, rest, fetch, want - 1);
        UsedDistinct(sch, rest, fetch, want - 1);
        forall i | 0 <= i < |rest| && InRange(sch, rest[i]) ensures rest[i].shardIndex != r.shardIndex {
          assert rest[i] == rows[i + 1] && rows[0] == r;
        }
        UsedAvoids(sch, rest, fetch, want - 1, r.shardIndex);
        DistinctCons(r.shardIndex, more);
      } else {
        UsedDistinct(sch, rest, fetch, want);
      }
    }
  }

  lemma {:induction false} UsedCount(sch: Scheme, rows: seq<ChunkRow>, fetch: Fetch, want: nat)
    ensures |Used(sch, rows, fetch, want)| == if Fetchable(sch, rows, fetch) < want then Fetchable(sch, rows, fetch) else want
    decreases |rows|
  {
    if rows != [] && want > 0 {
      UsedCount(sch, rows[1..], fetch, if InRange(sch, rows[0]) && fetch(rows[0].chunkId).Some? then want - 1 else want);
    }
  }

  lemma SufficesWithoutDuplicates(sch: Scheme, rows: seq<ChunkRow>, fetch: Fetch)
    requires NoDuplicates(sch, rows)
    ensures Suffices(sch, rows, fetch) <==> Fetchable(sch, rows, fetch) >= sch.codec.k
  {
    UsedDistinct(sch, rows, fetch, sch.codec.k);
    UsedCount(sch, rows, fetch, sch.codec.k);
  }

  lemma {:induction false} OfChunkMembers(rows: seq<ChunkRow>, c: int)
    ensures forall i | 0 <= i < |OfChunk(rows, c)| :: OfChunk(rows, c)[i].chunkIndex == c && OfChunk(rows, c)[i] in rows
  {
    if rows != [] { OfChunkMembers(rows[..|rows| - 1], c); }
  }

  lemma ChunkMatches(sch: Scheme, file: FileRecord, data: seq<Byte>, rows: seq<ChunkRow>, fetch: Fetch, c: nat)
    requires ValidScheme(sch) && c < |Parts(sch, data)| && Parts(sch, data)[c] != []
    requires RowsDescribe(sch, data, rows) && Genuine(sch, data, fetch)
    ensures MatchesWord(sch, OfChunk(rows, c), fetch, Shards(sch.codec, Parts(sch, data)[c]))
  {
    var mine, word := OfChunk(rows, c), Shards(sch.codec, Parts(sch, data)[c]);
    OfChunkMembers(rows, c);
    forall i | 0 <= i < |mine| && InRange(sch, mine[i])
      ensures fetch(mine[i].chunkId) in {None, Some(word[mine[i].shardIndex])}
    {
      assert RowDescribes(sch, data, mine[i]);
      assert ShardOf(sch, data, c, mine[i].shardIndex) == word[mine[i].shardIndex];
    }
  }

  /**
    Reading one chunk gives its bytes or an error; its bytes exactly if k records can be used and the
    first k of these, in order, stand for different shards.
  */
  lemma ReadChunkExact(sch: Scheme, file: FileRecord, data: seq<Byte>, rows: seq<ChunkRow>, fetch: Fetch, c: nat)
    requires ValidScheme(sch) && ValidFile(sch, file) && file.sizeBytes == |data| && c < file.chunkCount
    requires RowsDescribe(sch, data, rows) && Genuine(sch, data, fetch)
    ensures c < |Parts(sch, data)|
    ensures var r := ReadChunk(sch, file, rows, fetch, c);
            && (r.Err? || r == Ok(Parts(sch, data)[c]))
            && (r.Ok? <==> Suffices(sch, OfChunk(rows, c), fetch))
  {
    PartsShape(sch, data, file);
    var mine, part := OfChunk(rows, c), Parts(sch, data)[c];
    ChunkMatches(sch, file, data, rows, fetch, c);
    PresentOfNone(NoShards(sch));
    CollectSound(sch, mine, fetch, Shards(sch.codec, part), NoShards(sch), 0);
    CollectExact(sch, mine, fetch, NoShards(sch), 0);
    var (opts, count) := Collect(sch, mine, fetch, NoShards(sch), 0);
    DecodeShards(sch.codec, part, opts);
    assert AllFree(NoShards(sch), Used(sch, mine, fetch, sch.codec.k));
  }

  // ---------- the whole object ----------

  ghost predicate ChunkSuffices(sch: Scheme, rows: seq<ChunkRow>, fetch: Fetch, c: nat) {
    Suffices(sch, OfChunk(rows, c), fetch)
  }

  ghost predicate ChunkFetchable(sch: Scheme, rows: seq<ChunkRow>, fetch: Fetch, c: nat) {
    Fetchable(sch, OfChunk(rows, c), fetch) >= sch.codec.k
  }

  ghost predicate Describes(sch: Scheme, file: FileRecord, data: seq<Byte>, rows: seq<ChunkRow>, fetch: Fetch) {
    ValidScheme(sch) && ValidFile(sch, file) && file.sizeBytes == |data|
    && RowsDescribe(sch, data, rows) && Genuine(sch, data, fetch)
  }

  lemma {:induction false} ReadChunksSound(sch: Scheme, file: FileRecord, data: seq<Byte>, rows: seq<ChunkRow>, fetch: Fetch, upTo: nat)
    requires Describes(sch, file, data, rows, fetch) && upTo <= file.chunkCount
    ensures upTo <= |Parts(sch, data)|
    ensures var r := ReadChunks(sch, file, rows, fetch, upTo); r.Err? || r == Ok(Flatten(Parts(sch, data)[..upTo]))
  {
    PartsShape(sch, data, file);
    if upTo > 0 {
      var parts := Parts(sch, data);
      ReadChunksSound(sch, file, data, rows, fetch, upTo - 1);
      ReadChunkExact(sch, file, data, rows, fetch, upTo - 1);
      FlattenAppend(parts[..upTo - 1], parts[upTo - 1]);
      assert parts[..upTo] == parts[..upTo - 1] + [parts[upTo - 1]];
    }
  }

  lemma {:induction false} ReadChunksFail(sch: Scheme, file: FileRecord, rows: seq<ChunkRow>, fetch: Fetch, upTo: nat, c: nat)
    requires ValidFile(sch, file) && c < upTo <= file.chunkCount && ReadChunk(sch, file, rows, fetch, c).Err?
    ensures ReadChunks(sch, file, rows, fetch, upTo).Err?
    decreases upTo
  {
    if c < upTo - 1 { ReadChunksFail(sch, file, rows, fetch, upTo - 1, c); }
  }

  lemma {:induction false} ReadChunksSucceed(sch: Scheme, file: FileRecord, rows: seq<ChunkRow>, fetch: Fetch, upTo: nat)
    requires ValidFile(sch, file) && upTo <= file.chunkCount
    requires forall c | 0 <= c < upTo :: ReadChunk(sch, file, rows, fetch, c).Ok?
    ensures ReadChunks(sch, file, rows, fetch, upTo).Ok?
  {
    if upTo > 0 { ReadChunksSucceed(sch, file, rows, fetch, upTo - 1); }
  }

  /**
    A read never returns wrong bytes: whichever fetches fail, and whichever records of the object
    are missing, duplicated or out of range, the result is an error or the object.
  */
  lemma ReadSound(sch: Scheme, file: FileRecord, data: seq<Byte>, rows: seq<ChunkRow>, fetch: Fetch)
    requires Describes(sch, file, data, rows, fetch)
    ensures var r := ReadObject(sch, file, rows, fetch); r.Err? || r == Ok(data)
  {
    ReadChunksSound(sch, file, data, rows, fetch, file.chunkCount);
    PartsShape(sch, data, file);
    assert Parts(sch, data)[..file.chunkCount] == Parts(sch, data);
    FlattenPieces(data, sch.chunkSize);
  }

  /**
    A read returns the object exactly when some record exists and, for every chunk, k records can be used
    and the first k of these stand for different shards.
  */
  lemma ReadExact(sch: Scheme, file: FileRecord, data: seq<Byte>, rows: seq<ChunkRow>, fetch: Fetch)
    requires Describes(sch, file, data, rows, fetch)
    ensures ReadObject(sch, file, rows, fetch) == Ok(data) <==>
            rows != [] && forall c | 0 <= c < file.chunkCount :: ChunkSuffices(sch, rows, fetch, c)
  {
    ReadSound(sch, file, data, rows, fetch);
    if forall c | 0 <= c < file.chunkCount :: ChunkSuffices(sch, rows, fetch, c) {
      forall c | 0 <= c < file.chunkCount ensures ReadChunk(sch, file, rows, fetch, c).Ok? {
        assert ChunkSuffices(sch, rows, fetch, c);
        ReadChunkExact(sch, file, data, rows, fetch, c);
      }
      ReadChunksSucceed(sch, file, rows, fetch, file.chunkCount);
    } else {
      var c :| 0 <= c < file.chunkCount && !ChunkSuffices(sch, rows, fetch, c);
      ReadChunkExact(sch, file, data, rows, fetch, c);
      ReadChunksFail(sch, file, rows, fetch, file.chunkCount, c);
    }
  }

  /** Without duplicate records: exactly when every chunk has k fetchable records. */
  lemma ReadWithoutDuplicates(sch: Scheme, file: FileRecord, data: seq<Byte>, rows: seq<ChunkRow>, fetch: Fetch)
    requires Describes(sch, file, data, rows, fetch)
    requires forall c | 0 <= c < file.chunkCount :: NoDuplicates(sch, OfChunk(rows, c))
    ensures ReadObject(sch, file, rows, fetch) == Ok(data) <==>
            rows != [] && forall c | 0 <= c < file.chunkCount :: ChunkFetchable(sch, rows, fetch, c)
  {
    ReadExact(sch, file, data, rows, fetch);
    forall c | 0 <= c < file.chunkCount ensures ChunkSuffices(sch, rows, fetch, c) <==> ChunkFetchable(sch, rows, fetch, c) {
      SufficesWithoutDuplicates(sch, OfChunk(rows, c), fetch);
    }
  }

  // ---------- why a read fails ----------

  lemma {:induction false} CollectCount(sch: Scheme, rows: seq<ChunkRow>, fetch: Fetch, opts: seq<Option<Shard>>, count: nat)
    requires |opts| == sch.codec.Total() && count <= sch.codec.k
    ensures var n := count + Fetchable(sch, rows, fetch);
            Collect(sch, rows, fetch, opts, count).1 == if n < sch.codec.k then n else sch.codec.k
    decreases |rows|
  {
    if rows != [] && count < sch.codec.k {
      if InRange(sch, rows[0]) && fetch(rows[0].chunkId).Some? {
        CollectCount(sch, rows[1..], fetch, opts[rows[0].shardIndex := fetch(rows[0].chunkId)], count + 1);
      } else {
        CollectCount(sch, rows[1..], fetch, opts, count);
      }
    }
  }

  lemma {:induction false} NoneOfChunk(rows: seq<ChunkRow>, c: int)
    ensures OfChunk(rows, c) == [] <==> forall r | r in rows :: r.chunkIndex != c
  {
    if rows != [] {
      NoneOfChunk(rows[..|rows| - 1], c);
      assert rows == rows[..|rows| - 1] + [rows[|rows| - 1]];
    }
  }

  /** A chunk without records is reported as such, one with fewer than k fetchable records with their number; no other is reported so. */
  lemma ChunkFailure(sch: Scheme, file: FileRecord, rows: seq<ChunkRow>, fetch: Fetch, c: nat)
    requires ValidFile(sch, file) && c < file.chunkCount
    ensures var r, n := ReadChunk(sch, file, rows, fetch, c), Fetchable(sch, OfChunk(rows, c), fetch);
            if forall x | x in rows :: x.chunkIndex != c then r == Err(NoShardsForChunk(c))
            else if n < sch.codec.k then r == Err(TooFewShards(c, n, sch.codec.k))
            else r.Ok? || (r.error.DecodingFailed? && r.error.chunk == c)
  {
    NoneOfChunk(rows, c);
    CollectCount(sch, OfChunk(rows, c), fetch, NoShards(sch), 0);
  }

  /** A failed read of an object reports its first chunk that fails, or that the file has no records. */
  lemma ObjectFailure(sch: Scheme, file: FileRecord, rows: seq<ChunkRow>, fetch: Fetch) returns (c: nat)
    requires ValidFile(sch, file) && ReadObject(sch, file, rows, fetch).Err? && rows != []
    ensures c < file.chunkCount && ReadChunk(sch, file, rows, fetch, c) == Err(ReadObject(sch, file, rows, fetch).error)
    ensures forall d | 0 <= d < c :: ReadChunk(sch, file, rows, fetch, d).Ok?
  {
    c := FirstFailure(sch, file, rows, fetch, file.chunkCount);
  }

  lemma {:induction false} FirstFailure(sch: Scheme, file: FileRecord, rows: seq<ChunkRow>, fetch: Fetch, upTo: nat) returns (c: nat)
    requires ValidFile(sch, file) && upTo <= file.chunkCount && ReadChunks(sch, file, rows, fetch, upTo).Err?
    ensures c < upTo && ReadChunk(sch, file, rows, fetch, c) == Err(ReadChunks(sch, file, rows, fetch, upTo).error)
    ensures forall d | 0 <= d < c :: ReadChunk(sch, file, rows, fetch, d).Ok?
  {
    if ReadChunks(sch, file, rows, fetch, upTo - 1).Err? {
      c := FirstFailure(sch, file, rows, fetch, upTo - 1);
    } else {
      c := upTo - 1;
      AllBefore(sch, file, rows, fetch, c);
    }
  }

  lemma {:induction false} AllBefore(sch: Scheme, file: FileRecord, rows: seq<ChunkRow>, fetch: Fetch, upTo: nat)
    requires ValidFile(sch, file) && upTo <= file.chunkCount && ReadChunks(sch, file, rows, fetch, upTo).Ok?
    ensures forall d | 0 <= d < upTo :: ReadChunk(sch, file, rows, fetch, d).Ok?
  {
    if upTo > 0 { AllBefore(sch, file, rows, fetch, upTo - 1); }
  }
}
