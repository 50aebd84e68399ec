/**
  What an upload leaves behind, as values: which shards get a record in the chunks table, how many
  are counted as stored, and what a later read then returns (`put_object` followed by `get_object`,
  cyxcloud-gateway/src/state.rs, on the schema of cyxcloud-metadata/migrations).
*/
module Upload {
  import opened Wrappers
  import opened Bytes
  import opened Sequences
  import opened Codecs
  import opened Erasure
  import opened Cluster
  import opened Retrieval
  import Orders

  /** A shard of an object and its place. */
  datatype Slot = Slot(chunk: nat, shard: nat, data: Shard)

  /** Shards as the shards of chunk c. */
  function SlotsFor(c: nat, shards: seq<Shard>): (s: seq<Slot>)
    ensures |s| == |shards|
  {
    seq(|shards|, j requires 0 <= j < |shards| => Slot(c, j, shards[j]))
  }

  function ChunkSlots(sch: Scheme, data: seq<Byte>, c: nat): (s: seq<Slot>)
    requires ValidScheme(sch) && c < |Parts(sch, data)|
    ensures |s| == sch.codec.Total()
    ensures forall j | 0 <= j < |s| :: s[j] == Slot(c, j, ShardOf(sch, data, c, j))
  {
    PiecesNonEmpty(data, sch.chunkSize);
    SlotsFor(c, Shards(sch.codec, Parts(sch, data)[c]))
  }

  /** The shards of the first upTo chunks, in the order they are uploaded. */
  function Slots(sch: Scheme, data: seq<Byte>, upTo: nat): seq<Slot>
    requires ValidScheme(sch) && upTo <= |Parts(sch, data)|
  {
    if upTo == 0 then [] else Slots(sch, data, upTo - 1) + ChunkSlots(sch, data, upTo - 1)
  }

  /**
    The shards that get a record: the ones stored on a node whose id is not yet in the table.  The
    column chunk_id is unique over all files, and a refused insert is only logged.
  */
  function Registered(hash: Hash, taken: set<ChunkId>, slots: seq<Slot>, ok: seq<bool>): seq<Slot>
    requires |slots| == |ok|
  {
    if slots == [] then []
    else
      var n := |slots| - 1;
      var before := Registered(hash, taken, slots[..n], ok[..n]);
      if ok[n] && hash(slots[n].data) !in taken && hash(slots[n].data) !in Ids(hash, before)
      then before + [slots[n]] else before
  }

  function Ids(hash: Hash, slots: seq<Slot>): set<ChunkId> {
    set s | s in slots :: hash(s.data)
  }

  function RowOf(hash: Hash, fileId: nat, s: Slot): ChunkRow {
    ChunkRow(hash(s.data), fileId, s.chunk, s.shard)
  }

  function RowsOf(hash: Hash, fileId: nat, slots: seq<Slot>): (r: seq<ChunkRow>)
    ensures |r| == |slots|
  {
    seq(|slots|, i requires 0 <= i < |slots| => RowOf(hash, fileId, slots[i]))
  }

  // ---------- shape of the registered shards ----------

  ghost predicate Before(a: Slot, b: Slot) {
    a.chunk < b.chunk || (a.chunk == b.chunk && a.shard < b.shard)
  }

  ghost predicate Ordered(slots: seq<Slot>) {
    forall i, j | 0 <= i < j < |slots| :: Before(slots[i], slots[j])
  }

  ghost predicate SlotsOf(sch: Scheme, data: seq<Byte>, slots: seq<Slot>)
    requires ValidScheme(sch)
  {
    forall i | 0 <= i < |slots| ::
      var s := slots[i];
      s.chunk < |Parts(sch, data)| && s.shard < sch.codec.Total() && s.data == ShardOf(sch, data, s.chunk, s.shard)
  }

  lemma {:induction false} SlotsShape(sch: Scheme, data: seq<Byte>, upTo: nat)
    requires ValidScheme(sch) && upTo <= |Parts(sch, data)|
    ensures var s := Slots(sch, data, upTo);
            && |s| == upTo * sch.codec.Total() && SlotsOf(sch, data, s) && Ordered(s)
            && forall i | 0 <= i < |s| :: s[i].chunk < upTo
  {
    if upTo > 0 {
      var front, last := Slots(sch, data, upTo - 1), ChunkSlots(sch, data, upTo - 1);
      SlotsShape(sch, data, upTo - 1);
      NextMultiple(upTo, sch.codec.Total());
      SlotsAppend(sch, data, front, last);
      OrderedAppend(front, last, upTo - 1);
    }
  }

  lemma SlotsNext(sch: Scheme, data: seq<Byte>, c: nat)
    requires ValidScheme(sch) && c < |Parts(sch, data)| && Parts(sch, data)[c] != []
    ensures Slots(sch, data, c + 1) == Slots(sch, data, c) + SlotsFor(c, Shards(sch.codec, Parts(sch, data)[c]))
  {}

  lemma NextMultiple(n: nat, k: nat)
    requires n > 0
    ensures n * k == (n - 1) * k + k
  {}

  lemma SlotsAppend(sch: Scheme, data: seq<Byte>, a: seq<Slot>, b: seq<Slot>)
    requires ValidScheme(sch) && SlotsOf(sch, data, a) && SlotsOf(sch, data, b)
    ensures SlotsOf(sch, data, a + b)
  {}

  lemma OrderedAppend(a: seq<Slot>, b: seq<Slot>, c: nat)
    requires Ordered(a) && forall i | 0 <= i < |a| :: a[i].chunk < c
    requires forall j | 0 <= j < |b| :: b[j].chunk == c && b[j].shard == j
    ensures Ordered(a + b) && forall i | 0 <= i < |a + b| :: (a + b)[i].chunk < c + 1
  {}

  lemma {:induction false} RegisteredShape(hash: Hash, taken: set<ChunkId>, slots: seq<Slot>, ok: seq<bool>)
    requires |slots| == |ok| && Ordered(slots)
    ensures var r := Registered(hash, taken, slots, ok); Ordered(r) && forall i | 0 <= i < |r| :: r[i] in slots
  {
    if slots != [] {
      var n := |slots| - 1;
      RegisteredShape(hash, taken, slots[..n], ok[..n]);
      var before := Registered(hash, taken, slots[..n], ok[..n]);
      forall i | 0 <= i < |before| ensures Before(before[i], slots[n]) {
        var k :| 0 <= k < n && slots[..n][k] == before[i];
        assert slots[k] == before[i];
      }
    }
  }

  // ---------- reading back what was registered ----------

  /** Registered shards of chunk c that can be fetched. */
  function Recoverable(hash: Hash, slots: seq<Slot>, fetch: Fetch, c: nat): nat {
    if slots == [] then 0
    else
      var n := |slots| - 1;
      Recoverable(hash, slots[..n], fetch, c)
      + (if slots[n].chunk == c && fetch(hash(slots[n].data)).Some? then 1 else 0)
  }

  lemma {:induction false} FetchableAppend(sch: Scheme, rows: seq<ChunkRow>, row: ChunkRow, fetch: Fetch)
    ensures Fetchable(sch, rows + [row], fetch) ==
            Fetchable(sch, rows, fetch) + (if InRange(sch, row) && fetch(row.chunkId).Some? then 1 else 0)
  {
    if rows != [] {
      assert (rows + [row])[1..] == rows[1..] + [row];
      FetchableAppend(sch, rows[1..], row, fetch);
    }
  }

  lemma RowsOfAppend(hash: Hash, fileId: nat, slots: seq<Slot>)
    requires slots != []
    ensures var n := |slots| - 1;
            RowsOf(hash, fileId, slots)[..n] == RowsOf(hash, fileId, slots[..n])
            && RowsOf(hash, fileId, slots)[n] == RowOf(hash, fileId, slots[n])
  {}

  /** The records of chunk c that are fetchable are the registered shards of c that are. */
  lemma {:induction false} FetchableRows(sch: Scheme, fileId: nat, slots: seq<Slot>, fetch: Fetch, c: nat)
    requires forall i | 0 <= i < |slots| :: slots[i].shard < sch.codec.Total()
    ensures Fetchable(sch, OfChunk(RowsOf(sch.hash, fileId, slots), c), fetch) == Recoverable(sch.hash, slots, fetch, c)
  {
    if slots != [] {
      var n := |slots| - 1;
      RowsOfAppend(sch.hash, fileId, slots);
      FetchableRows(sch, fileId, slots[..n], fetch, c);
      var rows, last := RowsOf(sch.hash, fileId, slots), RowOf(sch.hash, fileId, slots[n]);
      var before := OfChunk(rows[..n], c);
      FetchableAppend(sch, before, last, fetch);
      assert OfChunk(rows, c) == if slots[n].chunk == c then before + [last] else before;
    }
  }

  /** Records of one chunk come in increasing shard order: the order the table is queried in. */
  ghost predicate Increasing(rows: seq<ChunkRow>) {
    forall i, j | 0 <= i < j < |rows| :: rows[i].shardIndex < rows[j].shardIndex
  }

  lemma {:induction false} RowsIncreasing(hash: Hash, fileId: nat, slots: seq<Slot>, c: nat)
    requires Ordered(slots)
    ensures Increasing(OfChunk(RowsOf(hash, fileId, slots), c))
    ensures forall r | r in OfChunk(RowsOf(hash, fileId, slots), c) ::
              exists i :: 0 <= i < |slots| && slots[i].chunk == c && r == RowOf(hash, fileId, slots[i])
  {
    if slots != [] {
      var n := |slots| - 1;
      RowsOfAppend(hash, fileId, slots);
      RowsIncreasing(hash, fileId, slots[..n], c);
      var before, last := OfChunk(RowsOf(hash, fileId, slots[..n]), c), RowOf(hash, fileId, slots[n]);
      forall r | r in before
        ensures exists i :: 0 <= i < n && slots[i].chunk == c && r == RowOf(hash, fileId, slots[i])
      {
        var i :| 0 <= i < n && slots[..n][i].chunk == c && r == RowOf(hash, fileId, slots[..n][i]);
        assert slots[i] == slots[..n][i];
      }
      if slots[n].chunk == c {
        forall r | r in before ensures r.shardIndex < last.shardIndex {
          var i :| 0 <= i < n && slots[i].chunk == c && r == RowOf(hash, fileId, slots[i]);
          assert Before(slots[i], slots[n]);
        }
        forall r | r in before + [last]
          ensures exists i :: 0 <= i < |slots| && slots[i].chunk == c && r == RowOf(hash, fileId, slots[i])
        {
          if r == last { assert slots[n].chunk == c; }
        }
      }
    }
  }

  lemma RowsOfDescribe(sch: Scheme, data: seq<Byte>, fileId: nat, slots: seq<Slot>)
    requires ValidScheme(sch) && SlotsOf(sch, data, slots)
    ensures RowsDescribe(sch, data, RowsOf(sch.hash, fileId, slots))
  {
    var rows := RowsOf(sch.hash, fileId, slots);
    forall i | 0 <= i < |rows| ensures RowDescribes(sch, data, rows[i]) {
      assert rows[i] == RowOf(sch.hash, fileId, slots[i]);
    }
  }

  ghost predicate Readable(sch: Scheme, data: seq<Byte>, slots: seq<Slot>, fetch: Fetch)
    requires sch.chunkSize > 0
  {
    forall c | 0 <= c < |Parts(sch, data)| :: Recoverable(sch.hash, slots, fetch, c) >= sch.codec.k
  }

  /**
    The end-to-end law.  Upload a non-empty object into a table that already holds the ids `taken`,
    with any pattern `ok` of shards that reached a node, and read it back later with any pattern of
    failing fetches.  The read returns the object exactly when every chunk has at least k
    registered shards that can still be fetched, and an error otherwise.
  */
  lemma RoundTrip(sch: Scheme, data: seq<Byte>, file: FileRecord, taken: set<ChunkId>, ok: seq<bool>, fetch: Fetch)
    requires ValidScheme(sch) && ValidFile(sch, file) && file.sizeBytes == |data| > 0
    requires |ok| == |Slots(sch, data, |Parts(sch, data)|)| && Genuine(sch, data, fetch)
    ensures var registered := Registered(sch.hash, taken, Slots(sch, data, |Parts(sch, data)|), ok);
            var r := ReadObject(sch, file, RowsOf(sch.hash, file.id, registered), fetch);
            && (r == Ok(data) <==> Readable(sch, data, registered, fetch))
            && (r == Ok(data) || r.Err?)
  {
    var slots := Slots(sch, data, |Parts(sch, data)|);
    var registered := Registered(sch.hash, taken, slots, ok);
    SlotsShape(sch, data, |Parts(sch, data)|);
    RegisteredShape(sch.hash, taken, slots, ok);
    PartsShape(sch, data, file);
    RowsReadBack(sch, data, file, registered, fetch);
  }

  lemma RowsReadBack(sch: Scheme, data: seq<Byte>, file: FileRecord, slots: seq<Slot>, fetch: Fetch)
    requires ValidScheme(sch) && ValidFile(sch, file) && file.sizeBytes == |data| > 0 && Genuine(sch, data, fetch)
    requires SlotsOf(sch, data, slots) && Ordered(slots)
    ensures var r := ReadObject(sch, file, RowsOf(sch.hash, file.id, slots), fetch);
            && (r == Ok(data) <==> Readable(sch, data, slots, fetch))
            && (r == Ok(data) || r.Err?)
  {
    var rows := RowsOf(sch.hash, file.id, slots);
    RowsOfDescribe(sch, data, file.id, slots);
    PartsShape(sch, data, file);
    forall c | 0 <= c < file.chunkCount
      ensures NoDuplicates(sch, OfChunk(rows, c))
      ensures ChunkFetchable(sch, rows, fetch, c) <==> Recoverable(sch.hash, slots, fetch, c) >= sch.codec.k
    {
      FetchableRows(sch, file.id, slots, fetch, c);
      RowsIncreasing(sch.hash, file.id, slots, c);
    }
    ReadSound(sch, file, data, rows, fetch);
    ReadWithoutDuplicates(sch, file, data, rows, fetch);
    PiecesShape(data, sch.chunkSize, 0);
    if Readable(sch, data, slots, fetch) {
      assert Recoverable(sch.hash, slots, fetch, 0) >= sch.codec.k;
    }
  }

  // ---------- when every shard has an id of its own ----------

  /** No id is taken and no two shards share one. */
  ghost predicate DistinctIds(hash: Hash, taken: set<ChunkId>, slots: seq<Slot>) {
    && (forall i | 0 <= i < |slots| :: hash(slots[i].data) !in taken)
    && (forall i, j | 0 <= i < j < |slots| :: hash(slots[i].data) != hash(slots[j].data))
  }

  /** The shards that reached a node. */
  function Stored(slots: seq<Slot>, ok: seq<bool>): seq<Slot>
    requires |slots| == |ok|
  {
    if slots == [] then []
    else
      var n := |slots| - 1;
      Stored(slots[..n], ok[..n]) + (if ok[n] then [slots[n]] else [])
  }

  lemma {:induction false} StoredMembers(slots: seq<Slot>, ok: seq<bool>)
    requires |slots| == |ok|
    ensures forall s | s in Stored(slots, ok) :: s in slots
  {
    if slots != [] { StoredMembers(slots[..|slots| - 1], ok[..|slots| - 1]); }
  }

  /** Then every stored shard is registered. */
  lemma {:induction false} DistinctAllRegistered(hash: Hash, taken: set<ChunkId>, slots: seq<Slot>, ok: seq<bool>)
    requires |slots| == |ok| && DistinctIds(hash, taken, slots)
    ensures Registered(hash, taken, slots, ok) == Stored(slots, ok)
  {
    if slots != [] {
      var n := |slots| - 1;
      DistinctAllRegistered(hash, taken, slots[..n], ok[..n]);
      StoredMembers(slots[..n], ok[..n]);
    }
  }

  /**
    With ids of their own, an object is read back exactly when every chunk has at least k shards
    that were stored and can still be fetched.
  */
  lemma DistinctRoundTrip(sch: Scheme, data: seq<Byte>, file: FileRecord, taken: set<ChunkId>, ok: seq<bool>, fetch: Fetch)
    requires ValidScheme(sch) && ValidFile(sch, file) && file.sizeBytes == |data| > 0 && Genuine(sch, data, fetch)
    requires |ok| == |Slots(sch, data, |Parts(sch, data)|)|
    requires DistinctIds(sch.hash, taken, Slots(sch, data, |Parts(sch, data)|))
    ensures var slots := Slots(sch, data, |Parts(sch, data)|);
            var r := ReadObject(sch, file, RowsOf(sch.hash, file.id, Registered(sch.hash, taken, slots, ok)), fetch);
            r == Ok(data) <==> Readable(sch, data, Stored(slots, ok), fetch)
  {
    DistinctAllRegistered(sch.hash, taken, Slots(sch, data, |Parts(sch, data)|), ok);
    RoundTrip(sch, data, file, taken, ok, fetch);
  }

  // ---------- when shards share ids ----------

  /** The ids of registered shards are new and pairwise different. */
  lemma {:induction false} RegisteredIds(hash: Hash, taken: set<ChunkId>, slots: seq<Slot>, ok: seq<bool>)
    requires |slots| == |ok|
    ensures var r := Registered(hash, taken, slots, ok); DistinctIds(hash, taken, r) && forall i | 0 <= i < |r| :: r[i] in slots
  {
    if slots != [] {
      var n := |slots| - 1;
      RegisteredIds(hash, taken, slots[..n], ok[..n]);
      var before := Registered(hash, taken, slots[..n], ok[..n]);
      forall i | 0 <= i < |before| && hash(slots[n].data) !in Ids(hash, before)
        ensures hash(before[i].data) != hash(slots[n].data)
      {
        assert before[i] in before;
      }
    }
  }

  function ChunkIds(hash: Hash, slots: seq<Slot>, c: nat): set<ChunkId> {
    set s | s in slots && s.chunk == c :: hash(s.data)
  }

  lemma NewId(hash: Hash, taken: set<ChunkId>, r: seq<Slot>, c: nat)
    requires DistinctIds(hash, taken, r) && r != [] && r[|r| - 1].chunk == c
    ensures var id := hash(r[|r| - 1].data); var before := ChunkIds(hash, r[..|r| - 1], c);
            id !in before && before + {id} <= ChunkIds(hash, r, c)
  {
    assert r[|r| - 1] in r;
  }

  lemma MoreIds(hash: Hash, taken: set<ChunkId>, r: seq<Slot>, c: nat)
    requires DistinctIds(hash, taken, r) && r != []
    ensures |ChunkIds(hash, r[..|r| - 1], c)| + (if r[|r| - 1].chunk == c then 1 else 0) <= |ChunkIds(hash, r, c)|
  {
    var before, all := ChunkIds(hash, r[..|r| - 1], c), ChunkIds(hash, r, c);
    if r[|r| - 1].chunk == c {
      NewId(hash, taken, r, c);
      Orders.SubsetSize(before + {hash(r[|r| - 1].data)}, all);
    } else {
      Orders.SubsetSize(before, all);
    }
  }

  /** At most one shard per distinct id can ever be recovered. */
  lemma {:induction false} RecoverableBound(hash: Hash, taken: set<ChunkId>, r: seq<Slot>, fetch: Fetch, c: nat)
    requires DistinctIds(hash, taken, r)
    ensures Recoverable(hash, r, fetch, c) <= |ChunkIds(hash, r, c)|
  {
    if r != [] {
      var n := |r| - 1;
      RecoverableBound(hash, taken, r[..n], fetch, c);
      MoreIds(hash, taken, r, c);
    }
  }

  /**
    A chunk whose shards have fewer than k different contents can never be read back, even if every
    shard was stored and every node answers.
  */
  lemma RepeatedContentUnreadable(sch: Scheme, data: seq<Byte>, file: FileRecord, taken: set<ChunkId>, ok: seq<bool>,
                                  fetch: Fetch, c: nat)
    requires ValidScheme(sch) && ValidFile(sch, file) && file.sizeBytes == |data| > 0 && Genuine(sch, data, fetch)
    requires |ok| == |Slots(sch, data, |Parts(sch, data)|)| && c < |Parts(sch, data)|
    requires |ChunkIds(sch.hash, Slots(sch, data, |Parts(sch, data)|), c)| < sch.codec.k
    ensures var registered := Registered(sch.hash, taken, Slots(sch, data, |Parts(sch, data)|), ok);
            ReadObject(sch, file, RowsOf(sch.hash, file.id, registered), fetch).Err?
  {
    var slots := Slots(sch, data, |Parts(sch, data)|);
    var registered := Registered(sch.hash, taken, slots, ok);
    RegisteredIds(sch.hash, taken, slots, ok);
    RecoverableBound(sch.hash, taken, registered, fetch, c);
    Orders.SubsetSize(ChunkIds(sch.hash, registered, c), ChunkIds(sch.hash, slots, c));
    RoundTrip(sch, data, file, taken, ok, fetch);
    assert !Readable(sch, data, registered, fetch);
  }

  /**
    An object whose shards are all recorded already, for instance a second copy of an object under
    another key, or one uploaded again after deletion, can never be read back.
  */
  lemma SecondCopyUnreadable(sch: Scheme, data: seq<Byte>, file: FileRecord, taken: set<ChunkId>, ok: seq<bool>, fetch: Fetch)
    requires ValidScheme(sch) && ValidFile(sch, file)
    requires |ok| == |Slots(sch, data, |Parts(sch, data)|)|
    requires Ids(sch.hash, Slots(sch, data, |Parts(sch, data)|)) <= taken
    ensures var registered := Registered(sch.hash, taken, Slots(sch, data, |Parts(sch, data)|), ok);
            ReadObject(sch, file, RowsOf(sch.hash, file.id, registered), fetch) == Err(NoShardsForFile)
  {
    NothingRegistered(sch.hash, taken, Slots(sch, data, |Parts(sch, data)|), ok);
  }

  lemma NothingRegistered(hash: Hash, taken: set<ChunkId>, slots: seq<Slot>, ok: seq<bool>)
    requires |ok| == |slots| && Ids(hash, slots) <= taken
    ensures Registered(hash, taken, slots, ok) == []
  {
    var registered := Registered(hash, taken, slots, ok);
    RegisteredIds(hash, taken, slots, ok);
  }

  function ImageOf(f: nat -> ChunkId, n: nat): set<ChunkId> {
    set i | 0 <= i < n :: f(i)
  }

  lemma {:induction false} ImageBound(f: nat -> ChunkId, n: nat)
    ensures |ImageOf(f, n)| <= n
  {
    if n > 0 {
      ImageBound(f, n - 1);
      assert ImageOf(f, n) == ImageOf(f, n - 1) + {f(n - 1)};
    }
  }

  /** If the k data shards of a chunk are equal, and m + 1 < k, the object can never be read back. */
  lemma EqualDataShardsUnreadable(sch: Scheme, data: seq<Byte>, file: FileRecord, taken: set<ChunkId>, ok: seq<bool>,
                                  fetch: Fetch, c: nat)
    requires ValidScheme(sch) && ValidFile(sch, file) && file.sizeBytes == |data| > 0 && Genuine(sch, data, fetch)
    requires |ok| == |Slots(sch, data, |Parts(sch, data)|)| && c < |Parts(sch, data)|
    requires sch.codec.m + 1 < sch.codec.k
    requires forall j | 0 <= j < sch.codec.k :: ShardOf(sch, data, c, j) == ShardOf(sch, data, c, 0)
    ensures var registered := Registered(sch.hash, taken, Slots(sch, data, |Parts(sch, data)|), ok);
            ReadObject(sch, file, RowsOf(sch.hash, file.id, registered), fetch).Err?
  {
    FewContents(sch, data, c, {ShardOf(sch, data, c, 0)});
    RepeatedContentUnreadable(sch, data, file, taken, ok, fetch, c);
  }

  /** Data shards with few contents leave few ids: at most one for each content and each parity shard. */
  lemma FewContents(sch: Scheme, data: seq<Byte>, c: nat, contents: set<Shard>)
    requires ValidScheme(sch) && c < |Parts(sch, data)|
    requires forall j | 0 <= j < sch.codec.k :: ShardOf(sch, data, c, j) in contents
    ensures |ChunkIds(sch.hash, Slots(sch, data, |Parts(sch, data)|), c)| <= |contents| + sch.codec.m
  {
    var slots := Slots(sch, data, |Parts(sch, data)|);
    SlotsShape(sch, data, |Parts(sch, data)|);
    var word := seq(sch.codec.Total(), j requires 0 <= j < sch.codec.Total() => ShardOf(sch, data, c, j));
    forall i | 0 <= i < |slots| && slots[i].chunk == c ensures slots[i].shard < |word| && slots[i].data == word[slots[i].shard] {}
    IdsBound(sch.hash, slots, c, word, sch.codec.k, contents);
  }

  ghost function IdsOf(hash: Hash, contents: set<Shard>): set<ChunkId> {
    set x | x in contents :: hash(x)
  }

  lemma {:induction false} IdsOfBound(hash: Hash, contents: set<Shard>)
    ensures |IdsOf(hash, contents)| <= |contents|
  {
    if contents != {} {
      var x :| x in contents;
      IdsOfBound(hash, contents - {x});
      assert IdsOf(hash, contents) == IdsOf(hash, contents - {x}) + {hash(x)};
    }
  }

  lemma IdsBound(hash: Hash, slots: seq<Slot>, c: nat, word: seq<Shard>, k: nat, contents: set<Shard>)
    requires 0 < k <= |word| && forall j | 0 <= j < k :: word[j] in contents
    requires forall i | 0 <= i < |slots| && slots[i].chunk == c :: slots[i].shard < |word| && slots[i].data == word[slots[i].shard]
    ensures |ChunkIds(hash, slots, c)| <= |contents| + (|word| - k)
  {
    var ids, first, m := ChunkIds(hash, slots, c), hash(word[0]), |word| - k;
    var parity: nat -> ChunkId := (i: nat) => if i < m then hash(word[k + i]) else first;
    forall id | id in ids ensures id in IdsOf(hash, contents) + ImageOf(parity, m) {
      var s :| s in slots && s.chunk == c && hash(s.data) == id;
      if s.shard >= k {
        assert parity(s.shard - k) == id;
      } else {
        assert word[s.shard] in contents;
      }
    }
    IdsOfBound(hash, contents);
    ImageBound(parity, m);
    Orders.SubsetSize(ids, IdsOf(hash, contents) + ImageOf(parity, m));
  }

  // ---------- objects of one repeated byte ----------

  /** n copies of b followed by zeros. */
  function Filled(b: Byte, n: nat, size: nat): seq<Byte> {
    seq(size, i => if i < n then b else ZERO)
  }

  /**
    What the data shards of l copies of b can hold, k of them: only b; and, if l is not a multiple of k, also
    only padding, or the border between the two.
  */
  function ConstantContents(b: Byte, l: nat, k: nat, size: nat): set<Shard>
    requires size > 0 && k > 0
  {
    if l % k == 0 then {Filled(b, size, size)} else {Filled(b, size, size), Filled(b, 0, size), Filled(b, l % size, size)}
  }

  lemma BorderShard(b: Byte, padded: seq<Byte>, l: nat, k: nat, size: nat, j: nat)
    requires size > 0 && k > 0 && l <= |padded| && j * size + size <= |padded| && (l % k == 0 ==> l == |padded|)
    requires forall i | 0 <= i < |padded| :: padded[i] == if i < l then b else ZERO
    ensures padded[j * size..j * size + size] in ConstantContents(b, l, k, size)
  {
    var shard := padded[j * size..j * size + size];
    if j * size + size <= l {
      assert shard == Filled(b, size, size);
    } else if l <= j * size {
      assert shard == Filled(b, 0, size);
    } else {
      DivUnique(l, size, j, l - j * size);
      assert shard == Filled(b, l - j * size, size);
    }
  }

  lemma NoPadding(l: nat, k: nat)
    requires k > 0 && l % k == 0
    ensures CeilDiv(l, k) * k == l
  {
    var q := l / k;
    assert l == q * k;
    DivUnique(l + k - 1, k, q, k - 1);
  }

  lemma ConstantShard(c: Codec, data: seq<Byte>, b: Byte, j: nat)
    requires ErasureCode(c) && data != [] && j < c.k && forall i | 0 <= i < |data| :: data[i] == b
    ensures ShardSize(c, |data|) > 0 && Shards(c, data)[j] in ConstantContents(b, |data|, c.k, ShardSize(c, |data|))
  {
    PaddingFits(c, |data|);
    DataShardsShape(c, data);
    if |data| % c.k == 0 { NoPadding(|data|, c.k); }
    var size := ShardSize(c, |data|);
    var padded := data + Zeros(size * c.k - |data|);
    EvenPieceAt(padded, size, c.k, j);
    BorderShard(b, padded, |data|, c.k, size, j);
  }

  /** How many contents the data shards of a constant chunk can have. */
  function ConstantBound(sch: Scheme, length: nat): nat
    requires sch.codec.k > 0
  {
    var first := if length < sch.chunkSize then length else sch.chunkSize;
    if first % sch.codec.k == 0 then 1 else 3
  }

  /**
    An object of one repeated byte, of any length, can never be read back if the contents of the data shards
    of its first chunk, one or three, and the m parity shards are fewer than k, as with 10 and 4.
  */
  lemma ConstantObjectUnreadable(sch: Scheme, data: seq<Byte>, b: Byte, file: FileRecord, taken: set<ChunkId>, ok: seq<bool>, fetch: Fetch)
    requires ValidScheme(sch) && forall i | 0 <= i < |data| :: data[i] == b
    requires sch.codec.m + ConstantBound(sch, |data|) < sch.codec.k
    requires ValidFile(sch, file) && file.sizeBytes == |data| > 0 && Genuine(sch, data, fetch)
    requires |ok| == |Slots(sch, data, |Parts(sch, data)|)|
    ensures var registered := Registered(sch.hash, taken, Slots(sch, data, |Parts(sch, data)|), ok);
            ReadObject(sch, file, RowsOf(sch.hash, file.id, registered), fetch).Err?
  {
    FirstPiece(data, sch.chunkSize);
    ConstantIds(sch, data, b, Parts(sch, data)[0]);
    RepeatedContentUnreadable(sch, data, file, taken, ok, fetch, 0);
  }

  lemma FirstPiece(s: seq<Byte>, size: nat)
    requires size > 0 && s != []
    ensures Pieces(s, size) != [] && Pieces(s, size)[0] <= s
    ensures |Pieces(s, size)[0]| == if |s| < size then |s| else size
  {}

  lemma ConstantIds(sch: Scheme, data: seq<Byte>, b: Byte, part: seq<Byte>)
    requires ValidScheme(sch) && 0 < |Parts(sch, data)| && part == Parts(sch, data)[0] && part != []
    requires |part| == (if |data| < sch.chunkSize then |data| else sch.chunkSize) && forall i | 0 <= i < |part| :: part[i] == b
    ensures |ChunkIds(sch.hash, Slots(sch, data, |Parts(sch, data)|), 0)| <= ConstantBound(sch, |data|) + sch.codec.m
  {
    ConstantShard(sch.codec, part, b, 0);
    var contents := ConstantContents(b, |part|, sch.codec.k, ShardSize(sch.codec, |part|));
    forall j | 0 <= j < sch.codec.k ensures ShardOf(sch, data, 0, j) in contents { ConstantShard(sch.codec, part, b, j); }
    FewContents(sch, data, 0, contents);
    assert |contents| <= ConstantBound(sch, |data|);
  }
}
