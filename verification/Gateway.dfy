/**
  The gateway's database mode: objects are erasure-coded, placed and stored on nodes, and read back
  (`put_object` and `get_object` in cyxcloud-gateway/src/state.rs).
*/
module Gateway {
  import opened Wrappers
  import opened Bytes
  import opened Sequences
  import opened Codecs
  import opened Erasure
  import opened Cluster
  import opened Retrieval
  import opened Upload
  import Chunking
  import Placement
  import ReedSolomon

  datatype PutError = NoNodes | NotEnoughStored(stored: nat, needed: nat)

  /** Which node addresses accept shard j of chunk c during an upload. */
  type Works = (nat, nat, Addr) -> bool

  // ---------- tables as values ----------

  /** An insert into a table whose chunk_id is unique: a second row for an id is refused. */
  function InsertRow(rows: seq<ChunkRow>, row: ChunkRow): seq<ChunkRow> {
    if row.chunkId in TakenIds(rows) then rows else rows + [row]
  }

  function TakenIds(rows: seq<ChunkRow>): set<ChunkId> {
    set r | r in rows :: r.chunkId
  }

  function AddLocation(locations: map<ChunkId, seq<Addr>>, id: ChunkId, node: Addr): map<ChunkId, seq<Addr>> {
    var known := if id in locations then locations[id] else [];
    if node in known then locations else locations[id := known + [node]]
  }

  /** No node is recorded twice for a chunk. */
  ghost predicate RecordedOnce(locations: map<ChunkId, seq<Addr>>) {
    forall id | id in locations :: forall i, j | 0 <= i < j < |locations[id]| :: locations[id][i] != locations[id][j]
  }

  lemma LocationAdded(locations: map<ChunkId, seq<Addr>>, id: ChunkId, node: Addr)
    requires RecordedOnce(locations)
    ensures var l := AddLocation(locations, id, node);
            && RecordedOnce(l) && id in l && node in l[id]
            && forall i, a :: i in l && a in l[i] <==> (i in locations && a in locations[i]) || (i == id && a == node)
  {}

  function RowsOfFile(rows: seq<ChunkRow>, fileId: nat): seq<ChunkRow> {
    if rows == [] then []
    else RowsOfFile(rows[..|rows| - 1], fileId) + (if rows[|rows| - 1].fileId == fileId then [rows[|rows| - 1]] else [])
  }

  /** The node is recorded for the chunk and holds it. */
  ghost predicate HeldAt(locations: map<ChunkId, seq<Addr>>, stores: Stores, id: ChunkId, a: Addr) {
    id in locations && a in locations[id] && a in stores && id in stores[a]
  }

  /** Some recorded node holds the chunk. */
  ghost predicate Located(locations: map<ChunkId, seq<Addr>>, stores: Stores, id: ChunkId) {
    exists a :: HeldAt(locations, stores, id, a)
  }

  function OnlineAddresses(locations: map<ChunkId, seq<Addr>>, online: set<Addr>, id: ChunkId): seq<Addr> {
    if id in locations then Online(locations[id], online) else []
  }

  function Online(addresses: seq<Addr>, online: set<Addr>): seq<Addr> {
    if addresses == [] then []
    else Online(addresses[..|addresses| - 1], online)
         + (if addresses[|addresses| - 1] in online then [addresses[|addresses| - 1]] else [])
  }

  /** What asking the recorded online nodes for a chunk returns, when the nodes in `up` answer. */
  function FetchFrom(locations: map<ChunkId, seq<Addr>>, stores: Stores, online: set<Addr>, up: set<Addr>): Fetch {
    id => Fetched(stores, id, OnlineAddresses(locations, online, id), up)
  }

  function CountTrue(ok: seq<bool>): nat {
    if ok == [] then 0 else CountTrue(ok[..|ok| - 1]) + (if ok[|ok| - 1] then 1 else 0)
  }

  lemma CountTrueAppend(ok: seq<bool>, b: bool)
    ensures CountTrue(ok + [b]) == CountTrue(ok) + (if b then 1 else 0)
  {
    assert (ok + [b])[..|ok|] == ok;
  }

  /** Some node of the list takes shard j of chunk c. */
  ghost predicate Storable(addresses: set<Addr>, nodes: seq<Placement.Node>, works: Works, c: nat, j: nat) {
    exists i :: 0 <= i < |nodes| && nodes[i].address in addresses && works(c, j, nodes[i].address)
  }

  ghost predicate Takes(addresses: set<Addr>, works: Works, c: nat, j: nat, a: Addr) { a in addresses && works(c, j, a) }

  /** Where a shard goes: to its primary node if that takes it, else to the first listed node that does, if any. */
  ghost predicate GoesTo(addresses: set<Addr>, nodes: seq<Placement.Node>, works: Works, c: nat, j: nat, primary: Addr, at: Option<Addr>) {
    if Takes(addresses, works, c, j, primary) then at == Some(primary)
    else match at
         case None => forall i | 0 <= i < |nodes| :: !Takes(addresses, works, c, j, nodes[i].address)
         case Some(a) => FirstTaker(addresses, nodes, works, c, j, a)
  }

  ghost predicate FirstTaker(addresses: set<Addr>, nodes: seq<Placement.Node>, works: Works, c: nat, j: nat, a: Addr) {
    exists i :: 0 <= i < |nodes| && nodes[i].address == a && Takes(addresses, works, c, j, a)
                && forall k | 0 <= k < i :: !Takes(addresses, works, c, j, nodes[k].address)
  }

  /** Nodes are the same and every chunk that a recorded node held it still holds. */
  ghost predicate Keeps(locations: map<ChunkId, seq<Addr>>, stores: Stores, locations': map<ChunkId, seq<Addr>>, stores': Stores) {
    stores'.Keys == stores.Keys && forall i, a | HeldAt(locations, stores, i, a) :: HeldAt(locations', stores', i, a)
  }

  lemma KeepsNothing(locations: map<ChunkId, seq<Addr>>, stores: Stores)
    ensures Keeps(locations, stores, locations, stores)
  {}

  lemma PutAddressed(hash: Hash, stores: Stores, id: ChunkId, address: Addr, data: seq<Byte>)
    requires address in stores && data != [] && id == hash(data) && |id| == ID_LENGTH && Addressed(hash, stores)
    ensures Addressed(hash, Put(stores, address, id, data))
  {}

  lemma PutLocated(locations: map<ChunkId, seq<Addr>>, stores: Stores, id: ChunkId, address: Addr, data: seq<Byte>)
    requires address in stores
    ensures HeldAt(AddLocation(locations, id, address), Put(stores, address, id, data), id, address)
  {}

  lemma PutKeeps(locations: map<ChunkId, seq<Addr>>, stores: Stores, id: ChunkId, address: Addr, data: seq<Byte>)
    requires address in stores
    ensures Keeps(locations, stores, AddLocation(locations, id, address), Put(stores, address, id, data))
  {
    var l, s := AddLocation(locations, id, address), Put(stores, address, id, data);
    forall i, a | HeldAt(locations, stores, i, a) ensures HeldAt(l, s, i, a) {}
  }

  lemma AddingKeeps(hash: Hash, locations: map<ChunkId, seq<Addr>>, stores: Stores, id: ChunkId, address: Addr, data: seq<Byte>)
    requires address in stores && data != [] && id == hash(data) && |id| == ID_LENGTH && Addressed(hash, stores)
    ensures var l, s := AddLocation(locations, id, address), StoreChunk(hash, stores, address, id, data, true);
            Addressed(hash, s) && HeldAt(l, s, id, address) && Keeps(locations, stores, l, s)
  {
    PutAddressed(hash, stores, id, address, data);
    PutLocated(locations, stores, id, address, data);
    PutKeeps(locations, stores, id, address, data);
  }

  /** Every record belongs to a file already numbered. */
  ghost predicate Numbered(rows: seq<ChunkRow>, nextId: nat) {
    forall i | 0 <= i < |rows| :: rows[i].fileId < nextId
  }

  lemma InsertNumbered(rows: seq<ChunkRow>, row: ChunkRow, nextId: nat)
    requires Numbered(rows, nextId) && row.fileId < nextId
    ensures Numbered(InsertRow(rows, row), nextId)
  {}

  /**
    The history of one upload: the placement decisions of each chunk, the shards handled so far, which of
    them reached a node and which node that was, and the rows and stores there were before.
  */
  datatype UploadLog = UploadLog(before: seq<ChunkRow>, held: Stores, nodes: seq<Placement.Node>, works: Works, eligible: bool,
                                 addresses: set<Addr>, plans: seq<seq<Placement.Decision>>, slots: seq<Slot>, ok: seq<bool>,
                                 at: seq<Option<Addr>>)
  {
    ghost predicate SameUpload(u: UploadLog) {
      before == u.before && held == u.held && nodes == u.nodes && works == u.works && eligible == u.eligible && addresses == u.addresses
    }

    /** There is one node decided for shard j of chunk c. */
    ghost predicate Planned(c: nat, j: nat) {
      c < |plans| && j < |plans[c]| && |plans[c][j].nodes| == 1
    }

    function Primary(c: nat, j: nat): Addr
      requires Planned(c, j)
    {
      plans[c][j].nodes[0].address
    }

    /** A shard with this id was sent to the node. */
    ghost predicate SentTo(hash: Hash, a: Addr, id: ChunkId) {
      exists i :: 0 <= i < |slots| && i < |at| && at[i] == Some(a) && hash(slots[i].data) == id
    }

    /** Every shard is where its decision and the answers of the nodes put it, and the nodes hold nothing else that is new. */
    ghost predicate OnPlan(hash: Hash, locations: map<ChunkId, seq<Addr>>, stores: Stores) {
      && |slots| == |ok| == |at| && held.Keys == stores.Keys == addresses
      && (forall i | 0 <= i < |slots| :: ok[i] == at[i].Some?)
      && (forall i | 0 <= i < |slots| && eligible :: Planned(slots[i].chunk, slots[i].shard)
           && GoesTo(addresses, nodes, works, slots[i].chunk, slots[i].shard, Primary(slots[i].chunk, slots[i].shard), at[i]))
      && (forall i | 0 <= i < |slots| && at[i].Some? :: HeldAt(locations, stores, hash(slots[i].data), at[i].value))
      && (forall a, id | a in stores && id in stores[a] :: id in held[a] || SentTo(hash, a, id))
    }

    lemma Decided(hash: Hash, locations: map<ChunkId, seq<Addr>>, stores: Stores, decisions: seq<Placement.Decision>)
      requires OnPlan(hash, locations, stores)
      ensures this.(plans := plans + [decisions]).OnPlan(hash, locations, stores)
    {
      var u := this.(plans := plans + [decisions]);
      forall a, id | SentTo(hash, a, id) ensures u.SentTo(hash, a, id) {}
      forall i | 0 <= i < |slots| && eligible ensures u.Planned(slots[i].chunk, slots[i].shard) {
        assert Planned(slots[i].chunk, slots[i].shard);
      }
    }

    lemma Sent(hash: Hash, locations: map<ChunkId, seq<Addr>>, stores: Stores, locations': map<ChunkId, seq<Addr>>, stores': Stores,
               slot: Slot, a: Option<Addr>)
      requires OnPlan(hash, locations, stores) && Keeps(locations, stores, locations', stores')
      requires eligible ==> Planned(slot.chunk, slot.shard)
                            && GoesTo(addresses, nodes, works, slot.chunk, slot.shard, Primary(slot.chunk, slot.shard), a)
      requires a.Some? ==> HeldAt(locations', stores', hash(slot.data), a.value) && SameBut(stores, stores', a.value, hash(slot.data))
      requires a.None? ==> stores' == stores
      ensures this.(slots := slots + [slot], ok := ok + [a.Some?], at := at + [a]).OnPlan(hash, locations', stores')
    {
      var u := this.(slots := slots + [slot], ok := ok + [a.Some?], at := at + [a]);
      forall i | 0 <= i < |u.slots| && eligible ensures u.Planned(u.slots[i].chunk, u.slots[i].shard) {
        if i < |slots| { assert Planned(slots[i].chunk, slots[i].shard); }
      }
      forall n, id | n in stores' && id in stores'[n] ensures id in held[n] || u.SentTo(hash, n, id) {
        if a == Some(n) && id == hash(slot.data) {
          assert u.at[|slots|] == Some(n) && u.slots[|slots|] == slot;
        } else {
          assert Holds(stores', n, id, stores'[n][id]);
          if id !in held[n] { StillSent(u, hash, n, id); }
        }
      }
    }

    lemma StillSent(u: UploadLog, hash: Hash, n: Addr, id: ChunkId)
      requires slots <= u.slots && at <= u.at && SentTo(hash, n, id)
      ensures u.SentTo(hash, n, id)
    {
      var i :| 0 <= i < |slots| && i < |at| && at[i] == Some(n) && hash(slots[i].data) == id;
      assert u.at[i] == Some(n) && u.slots[i] == slots[i];
    }

    /** The tables and stores are exactly what the history says. */
    ghost predicate Describes(hash: Hash, fileId: nat, rows: seq<ChunkRow>, locations: map<ChunkId, seq<Addr>>, stores: Stores) {
      && |slots| == |ok| && stores.Keys == addresses
      && rows == before + RowsOf(hash, fileId, Registered(hash, TakenIds(before), slots, ok))
      && (forall i | 0 <= i < |slots| && ok[i] :: Located(locations, stores, hash(slots[i].data)))
      && (forall i | 0 <= i < |slots| :: ok[i] <==> eligible && Storable(addresses, nodes, works, slots[i].chunk, slots[i].shard))
    }

    lemma Skipped(hash: Hash, fileId: nat, rows: seq<ChunkRow>, locations: map<ChunkId, seq<Addr>>, stores: Stores, slot: Slot)
      requires Describes(hash, fileId, rows, locations, stores) && !eligible
      ensures this.(slots := slots + [slot], ok := ok + [false], at := at + [None]).Describes(hash, fileId, rows, locations, stores)
    {
      RegisterNext(hash, fileId, before, slots, ok, slot, false);
    }

    lemma Attempted(hash: Hash, fileId: nat, rows: seq<ChunkRow>, locations: map<ChunkId, seq<Addr>>, stores: Stores,
                    rows': seq<ChunkRow>, locations': map<ChunkId, seq<Addr>>, stores': Stores, slot: Slot, a: Option<Addr>)
      requires Describes(hash, fileId, rows, locations, stores) && eligible
      requires Keeps(locations, stores, locations', stores')
      requires a.Some? == Storable(addresses, nodes, works, slot.chunk, slot.shard)
      requires rows' == if a.Some? then InsertRow(rows, RowOf(hash, fileId, slot)) else rows
      requires a.Some? ==> HeldAt(locations', stores', hash(slot.data), a.value)
      ensures this.(slots := slots + [slot], ok := ok + [a.Some?], at := at + [a]).Describes(hash, fileId, rows', locations', stores')
    {
      RegisterNext(hash, fileId, before, slots, ok, slot, a.Some?);
    }
  }

  /** Registering one more shard is an insert into the table. */
  lemma RegisterNext(hash: Hash, fileId: nat, before: seq<ChunkRow>, slots: seq<Slot>, ok: seq<bool>, slot: Slot, done: bool)
    requires |slots| == |ok|
    ensures var taken := TakenIds(before);
            var rows := before + RowsOf(hash, fileId, Registered(hash, taken, slots, ok));
            before + RowsOf(hash, fileId, Registered(hash, taken, slots + [slot], ok + [done]))
            == if done then InsertRow(rows, RowOf(hash, fileId, slot)) else rows
  {
    var taken := TakenIds(before);
    var reg := Registered(hash, taken, slots, ok);
    var rows := before + RowsOf(hash, fileId, reg);
    assert (slots + [slot])[..|slots|] == slots && (ok + [done])[..|ok|] == ok;
    RowIds(hash, fileId, reg);
    assert TakenIds(rows) == taken + Ids(hash, reg) by { TakenAppend(before, RowsOf(hash, fileId, reg)); }
    assert RowsOf(hash, fileId, reg + [slot]) == RowsOf(hash, fileId, reg) + [RowOf(hash, fileId, slot)];
  }

  lemma TakenAppend(a: seq<ChunkRow>, b: seq<ChunkRow>)
    ensures TakenIds(a + b) == TakenIds(a) + TakenIds(b)
  {}

  lemma RowIds(hash: Hash, fileId: nat, slots: seq<Slot>)
    ensures TakenIds(RowsOf(hash, fileId, slots)) == Ids(hash, slots)
  {
    var rows := RowsOf(hash, fileId, slots);
    forall id | id in Ids(hash, slots) ensures id in TakenIds(rows) {
      var s :| s in slots && hash(s.data) == id;
      var i :| 0 <= i < |slots| && slots[i] == s;
      assert rows[i] in rows;
    }
    forall id | id in TakenIds(rows) ensures id in Ids(hash, slots) {
      var r :| r in rows && r.chunkId == id;
      var i :| 0 <= i < |rows| && rows[i] == r;
      assert slots[i] in slots;
    }
  }

  ghost function Contents(shards: seq<ShardData>): (r: seq<Shard>)
    ensures |r| == |shards|
  {
    seq(|shards|, j requires 0 <= j < |shards| => shards[j].data)
  }

  datatype FileEntry = FileEntry(path: string, record: FileRecord)

  predicate HasPath(files: seq<FileEntry>, path: string) {
    exists i: nat :: i < |files| && files[i].path == path
  }

  /** The files a read of the path may find. */
  ghost function Candidates(files: seq<FileEntry>, path: string): set<nat> {
    set i: nat | i < |files| && files[i].path == path
  }

  /** After an upload the new file is the only one a read may find if and only if the path was not in use. */
  lemma OnlyCandidateIff(files: seq<FileEntry>, path: string, record: FileRecord)
    ensures var all := files + [FileEntry(path, record)];
            && Candidates(all, path) == Candidates(files, path) + {|files|}
            && (Candidates(all, path) == {|files|} <==> !HasPath(files, path))
  {
    var all := files + [FileEntry(path, record)];
    assert all[|files|].path == path;
    if HasPath(files, path) {
      var i: nat :| i < |files| && files[i].path == path;
      assert all[i].path == path;
      assert i in Candidates(all, path);
    } else {
      assert Candidates(files, path) == {};
    }
  }

  /** One placement of the shards of each chunk. */
  ghost predicate Plans(cfg: Placement.Config, nodes: seq<Placement.Node>, total: nat, score: Placement.Score, plans: seq<seq<Placement.Decision>>) {
    forall c | 0 <= c < |plans| :: Placement.PlacesChunk(cfg, nodes, total, score, plans[c])
  }

  lemma PlansNext(cfg: Placement.Config, nodes: seq<Placement.Node>, total: nat, score: Placement.Score, plans: seq<seq<Placement.Decision>>,
                  more: seq<seq<Placement.Decision>>)
    requires Plans(cfg, nodes, total, score, plans) && |more| == |plans| + 1 && more[..|plans|] == plans
    requires Placement.PlacesChunk(cfg, nodes, total, score, more[|plans|])
    ensures Plans(cfg, nodes, total, score, more)
  {
    forall c | 0 <= c < |more| ensures Placement.PlacesChunk(cfg, nodes, total, score, more[c]) {
      if c < |plans| { assert more[c] == plans[c]; }
    }
  }

  lemma NextSlot(done: seq<Slot>, slots: seq<Slot>, j: nat)
    requires j < |slots|
    ensures done + slots[..j] + [slots[j]] == done + slots[..j + 1]
  {}

  class ObjectStore {
    const sch: Scheme
    const cfg: Placement.Config
    var files: seq<FileEntry>
    var nextId: nat
    var rows: seq<ChunkRow>
    var locations: map<ChunkId, seq<Addr>>
    var stores: Stores

    ghost predicate Valid()
      reads this
    {
      && ValidScheme(sch) && Chunking.Clamp(sch.chunkSize) == sch.chunkSize
      && cfg.maxPerDc > 0 && cfg.maxPerRack > 0
      && (forall x :: |sch.hash(x)| == ID_LENGTH)
      && Sound()
      && (forall i | 0 <= i < |files| :: ValidFile(sch, files[i].record) && files[i].record.id < nextId)
    }

    constructor (sch: Scheme, cfg: Placement.Config, addresses: set<Addr>)
      requires ValidScheme(sch) && Chunking.Clamp(sch.chunkSize) == sch.chunkSize
      requires cfg.maxPerDc > 0 && cfg.maxPerRack > 0 && forall x :: |sch.hash(x)| == ID_LENGTH
      ensures Valid() && this.sch == sch && this.cfg == cfg
      ensures files == [] && rows == [] && locations == map[] && stores == map a | a in addresses :: map[]
    {
      this.sch, this.cfg := sch, cfg;
      files, nextId, rows, locations := [], 0, [], map[];
      stores := map a | a in addresses :: map[];
    }

    /** The part of the state an upload of one shard may change. */
    ghost predicate Sound()
      reads this`rows, this`stores, this`nextId
    {
      Addressed(sch.hash, stores) && Numbered(rows, nextId)
    }

    /** One attempt to store a shard on one node, and its two records if it succeeds. */
    method TryStore(fileId: nat, c: nat, shard: ShardData, id: ChunkId, address: Addr, works: bool) returns (stored: bool)
      requires Sound() && fileId < nextId && shard.data != [] && id == sch.hash(shard.data) && |id| == ID_LENGTH
      modifies this`rows, this`locations, this`stores
      ensures Sound() && stored == (works && address in old(stores))
      ensures !stored ==> rows == old(rows) && locations == old(locations) && stores == old(stores)
      ensures stored ==> rows == InsertRow(old(rows), ChunkRow(id, fileId, c, shard.index)) && HeldAt(locations, stores, id, address)
      ensures stored ==> Holds(stores, address, id, shard.data) && SameBut(old(stores), stores, address, id)
      ensures Keeps(old(locations), old(stores), locations, stores)
    {
      KeepsNothing(locations, stores);
      if !works || address !in stores { return false; }
      AddingKeeps(sch.hash, locations, stores, id, address, shard.data);
      InsertNumbered(rows, ChunkRow(id, fileId, c, shard.index), nextId);
      var held := StoreChunk(sch.hash, stores, address, id, shard.data, true);
      var known := AddLocation(locations, id, address);
      var table := InsertRow(rows, ChunkRow(id, fileId, c, shard.index));
      stores, rows, locations, stored := held, table, known, true;
    }

    /** The primary node first, then every other node in order. */
    method StoreShard(fileId: nat, c: nat, shard: ShardData, primary: Placement.Node, nodes: seq<Placement.Node>, works: Works)
      returns (stored: bool, ghost at: Option<Addr>)
      requires Sound() && fileId < nextId && shard.data != [] && primary in nodes
      requires |sch.hash(shard.data)| == ID_LENGTH
      modifies this`rows, this`locations, this`stores
      ensures Sound() && stored == Storable(old(stores).Keys, nodes, works, c, shard.index)
      ensures !stored ==> rows == old(rows) && locations == old(locations) && stores == old(stores)
      ensures stored ==> rows == InsertRow(old(rows), ChunkRow(sch.hash(shard.data), fileId, c, shard.index))
      ensures GoesTo(old(stores).Keys, nodes, works, c, shard.index, primary.address, at) && stored == at.Some?
      ensures stored ==> HeldAt(locations, stores, sch.hash(shard.data), at.value) && Holds(stores, at.value, sch.hash(shard.data), shard.data)
      ensures stored ==> SameBut(old(stores), stores, at.value, sch.hash(shard.data))
      ensures Keeps(old(locations), old(stores), locations, stores)
    {
      var id := sch.hash(shard.data);
      at := None;
      stored := TryStore(fileId, c, shard, id, primary.address, works(c, shard.index, primary.address));
      if stored {
        at := Some(primary.address);
        var p :| 0 <= p < |nodes| && nodes[p] == primary;
        return;
      }
      KeepsNothing(locations, stores);
      for i := 0 to |nodes|
        invariant Sound() && rows == old(rows) && locations == old(locations) && stores == old(stores)
        invariant forall p | 0 <= p < i :: !Takes(stores.Keys, works, c, shard.index, nodes[p].address)
      {
        var backup := nodes[i].address;
        if backup == primary.address { continue; }
        stored := TryStore(fileId, c, shard, id, backup, works(c, shard.index, backup));
        if stored {
          at := Some(backup);
          return;
        }
      }
      stored := false;
    }

    /** Shard number j of a chunk: without a placement decision nothing is attempted. */
    method StoreOneShard(fileId: nat, c: nat, j: nat, shard: ShardData, decisions: seq<Placement.Decision>,
                         nodes: seq<Placement.Node>, works: Works, ghost u: UploadLog)
      returns (done: bool, ghost u': UploadLog)
      requires Sound() && fileId < nextId && u.Describes(sch.hash, fileId, rows, locations, stores)
      requires j < |decisions| <==> u.eligible
      requires j < |decisions| ==> |decisions[j].nodes| == 1 && decisions[j].nodes[0] in nodes
      requires u.OnPlan(sch.hash, locations, stores) && c < |u.plans| && u.plans[c] == decisions
      requires shard.index == j && shard.data != [] && |sch.hash(shard.data)| == ID_LENGTH
      requires u.nodes == nodes && u.works == works
      modifies this`rows, this`locations, this`stores
      ensures Sound() && u'.Describes(sch.hash, fileId, rows, locations, stores) && (done ==> u.eligible)
      ensures u'.SameUpload(u) && u'.plans == u.plans && u'.slots == u.slots + [Slot(c, j, shard.data)] && u'.OnPlan(sch.hash, locations, stores)
      ensures CountTrue(u'.ok) == CountTrue(u.ok) + (if done then 1 else 0)
    {
      ghost var slot, at: Option<Addr> := Slot(c, j, shard.data), None;
      ghost var before, l, s := rows, locations, stores;
      if j >= |decisions| {
        done := false;
        u.Skipped(sch.hash, fileId, rows, locations, stores, slot);
        KeepsNothing(locations, stores);
      } else {
        done, at := StoreShard(fileId, c, shard, decisions[j].nodes[0], nodes, works);
        u.Attempted(sch.hash, fileId, before, l, s, rows, locations, stores, slot, at);
      }
      u.Sent(sch.hash, l, s, locations, stores, slot, at);
      CountTrueAppend(u.ok, done);
      u' := u.(slots := u.slots + [slot], ok := u.ok + [done], at := u.at + [at]);
    }

    /** All shards of one chunk, each with its placement decision. */
    method StoreShards(fileId: nat, c: nat, shards: seq<ShardData>, decisions: seq<Placement.Decision>,
                       nodes: seq<Placement.Node>, works: Works, ghost u: UploadLog)
      returns (stored: nat, failed: nat, ghost u': UploadLog)
      requires Sound() && fileId < nextId && u.Describes(sch.hash, fileId, rows, locations, stores)
      requires |decisions| == (if u.eligible then |shards| else 0)
      requires forall j | 0 <= j < |decisions| :: |decisions[j].nodes| == 1 && decisions[j].nodes[0] in nodes
      requires forall j | 0 <= j < |shards| :: shards[j].index == j && shards[j].data != [] && |sch.hash(shards[j].data)| == ID_LENGTH
      requires u.nodes == nodes && u.works == works
      requires u.OnPlan(sch.hash, locations, stores) && c < |u.plans| && u.plans[c] == decisions
      modifies this`rows, this`locations, this`stores
      ensures Sound() && u'.Describes(sch.hash, fileId, rows, locations, stores) && u'.OnPlan(sch.hash, locations, stores)
      ensures u'.SameUpload(u) && u'.plans == u.plans && u'.slots == u.slots + SlotsFor(c, Contents(shards))
      ensures CountTrue(u'.ok) == CountTrue(u.ok) + stored
      ensures stored + failed == if u.eligible then |shards| else 0
    {
      stored, failed, u' := 0, 0, u;
      ghost var slots := SlotsFor(c, Contents(shards));
      for j := 0 to |shards|
        invariant Sound() && u'.Describes(sch.hash, fileId, rows, locations, stores) && u'.OnPlan(sch.hash, locations, stores)
        invariant u'.SameUpload(u) && u'.plans == u.plans && u'.slots == u.slots + slots[..j]
        invariant CountTrue(u'.ok) == CountTrue(u.ok) + stored
        invariant stored + failed == if u.eligible then j else 0
      {
        NextSlot(u.slots, slots, j);
        var done;
        done, u' := StoreOneShard(fileId, c, j, shards[j], decisions, nodes, works, u');
        if done {
          stored := stored + 1;
        } else if j < |decisions| {
          failed := failed + 1;
        }
      }
      assert slots[..|shards|] == slots;
    }

    /** Encode a chunk, place its shards, store them. */
    method StoreOneChunk(fileId: nat, c: nat, part: seq<Byte>, nodes: seq<Placement.Node>, score: Placement.Score,
                         works: Works, ghost u: UploadLog)
      returns (stored: nat, failed: nat, ghost u': UploadLog)
      requires Sound() && ErasureCode(sch.codec) && cfg.maxPerDc > 0 && cfg.maxPerRack > 0
      requires (forall x :: |sch.hash(x)| == ID_LENGTH) && part != []
      requires fileId < nextId && u.Describes(sch.hash, fileId, rows, locations, stores)
      requires u.nodes == nodes && u.works == works && u.eligible == (Placement.Eligible(cfg, nodes) != [])
      requires u.OnPlan(sch.hash, locations, stores) && |u.plans| == c
      modifies this`rows, this`locations, this`stores
      ensures Sound() && u'.Describes(sch.hash, fileId, rows, locations, stores) && u'.OnPlan(sch.hash, locations, stores)
      ensures |u'.plans| == c + 1 && u'.plans[..c] == u.plans && Placement.PlacesChunk(cfg, nodes, sch.codec.Total(), score, u'.plans[c])
      ensures u'.SameUpload(u) && u'.slots == u.slots + SlotsFor(c, Shards(sch.codec, part))
      ensures CountTrue(u'.ok) == CountTrue(u.ok) + stored
      ensures stored + failed == if u.eligible then sch.codec.Total() else 0
    {
      var shards := Encode(sch.codec, part);
      ShardsUniform(sch.codec, part);
      var decisions := Placement.SelectNodes(cfg, nodes, |shards|, 1, score);
      DecisionsUsable(cfg, nodes, score, decisions);
      assert Shards(sch.codec, part) == Contents(shards);
      u.Decided(sch.hash, locations, stores, decisions);
      stored, failed, u' := StoreShards(fileId, c, shards, decisions, nodes, works, u.(plans := u.plans + [decisions]));
    }

    /** Every chunk in turn. */
    method StoreChunks(fileId: nat, data: seq<Byte>, chunks: seq<Chunking.Chunk>, nodes: seq<Placement.Node>,
                       score: Placement.Score, works: Works, ghost u: UploadLog)
      returns (stored: nat, failed: nat, ghost u': UploadLog)
      requires Sound() && ValidScheme(sch) && cfg.maxPerDc > 0 && cfg.maxPerRack > 0 && forall x :: |sch.hash(x)| == ID_LENGTH
      requires |chunks| == |Parts(sch, data)|
      requires forall c | 0 <= c < |chunks| :: chunks[c].data == Parts(sch, data)[c] != []
      requires fileId < nextId && u.Describes(sch.hash, fileId, rows, locations, stores) && u.slots == []
      requires u.nodes == nodes && u.works == works && u.eligible == (Placement.Eligible(cfg, nodes) != [])
      requires u.OnPlan(sch.hash, locations, stores) && u.plans == []
      modifies this`rows, this`locations, this`stores
      ensures Sound() && u'.Describes(sch.hash, fileId, rows, locations, stores) && u'.OnPlan(sch.hash, locations, stores)
      ensures u'.SameUpload(u) && u'.slots == Slots(sch, data, |chunks|) && CountTrue(u'.ok) == stored
      ensures |u'.plans| == |chunks| && Plans(cfg, nodes, sch.codec.Total(), score, u'.plans)
      ensures stored + failed == if u.eligible then |chunks| * sch.codec.Total() else 0
    {
      stored, failed, u' := 0, 0, u;
      for c := 0 to |chunks|
        invariant Sound() && u'.Describes(sch.hash, fileId, rows, locations, stores) && u'.OnPlan(sch.hash, locations, stores)
        invariant u'.SameUpload(u) && u'.slots == Slots(sch, data, c) && CountTrue(u'.ok) == stored
        invariant |u'.plans| == c && Plans(cfg, nodes, sch.codec.Total(), score, u'.plans)
        invariant stored + failed == if u.eligible then c * sch.codec.Total() else 0
      {
        stored, failed, u' := StoreNextChunk(fileId, data, c, chunks[c].data, nodes, score, works, stored, failed, u');
      }
    }

    /** Chunk c of the object, after the chunks before it. */
    method StoreNextChunk(fileId: nat, data: seq<Byte>, c: nat, part: seq<Byte>, nodes: seq<Placement.Node>, score: Placement.Score,
                          works: Works, storedBefore: nat, failedBefore: nat, ghost u: UploadLog)
      returns (stored: nat, failed: nat, ghost u': UploadLog)
      requires Sound() && ValidScheme(sch) && cfg.maxPerDc > 0 && cfg.maxPerRack > 0 && forall x :: |sch.hash(x)| == ID_LENGTH
      requires storedBefore == CountTrue(u.ok) && storedBefore + failedBefore == if u.eligible then c * sch.codec.Total() else 0
      requires c < |Parts(sch, data)| && part == Parts(sch, data)[c] != []
      requires fileId < nextId && u.Describes(sch.hash, fileId, rows, locations, stores) && u.OnPlan(sch.hash, locations, stores)
      requires u.nodes == nodes && u.works == works && u.eligible == (Placement.Eligible(cfg, nodes) != [])
      requires u.slots == Slots(sch, data, c) && |u.plans| == c && Plans(cfg, nodes, sch.codec.Total(), score, u.plans)
      modifies this`rows, this`locations, this`stores
      ensures Sound() && u'.Describes(sch.hash, fileId, rows, locations, stores) && u'.OnPlan(sch.hash, locations, stores)
      ensures u'.SameUpload(u) && u'.slots == Slots(sch, data, c + 1) && CountTrue(u'.ok) == stored
      ensures |u'.plans| == c + 1 && Plans(cfg, nodes, sch.codec.Total(), score, u'.plans)
      ensures stored + failed == if u.eligible then (c + 1) * sch.codec.Total() else 0
    {
      stored, failed, u' := StoreOneChunk(fileId, c, part, nodes, score, works, u);
      stored, failed := storedBefore + stored, failedBefore + failed;
      NextMultiple(c + 1, sch.codec.Total());
      SlotsNext(sch, data, c);
      PlansNext(cfg, nodes, sch.codec.Total(), score, u.plans, u'.plans);
    }

    /**
      Uploads an object.  It is accepted exactly when the number of stored shards, summed over all
      chunks, reaches k per chunk.  A path may be used again: the table of files has no unique path.
    */
    method PutObject(path: string, data: seq<Byte>, nodes: seq<Placement.Node>, score: Placement.Score, works: Works)
      returns (r: Result<(), PutError>, stored: nat, failed: nat, ghost u: UploadLog)
      requires Valid()
      modifies this
      ensures Valid() && u.Describes(sch.hash, old(nextId), rows, locations, stores) && u.OnPlan(sch.hash, locations, stores)
      ensures u.before == old(rows) && u.held == old(stores) && u.nodes == nodes && u.works == works && u.addresses == old(stores).Keys
      ensures u.eligible == (Placement.Eligible(cfg, nodes) != []) && stored == CountTrue(u.ok)
      ensures nodes == [] ==> r == Err(NoNodes) && failed == 0 && files == old(files) && u.slots == []
      ensures nodes != [] ==>
                && files == old(files) + [FileEntry(path, FileRecord(old(nextId), |data|, |Parts(sch, data)|))]
                && u.slots == Slots(sch, data, |Parts(sch, data)|)
                && |u.plans| == |Parts(sch, data)| && Plans(cfg, nodes, sch.codec.Total(), score, u.plans)
                && stored + failed == (if u.eligible then |Parts(sch, data)| * sch.codec.Total() else 0)
                && r == (if stored >= |Parts(sch, data)| * sch.codec.k then Ok(())
                         else Err(NotEnoughStored(stored, |Parts(sch, data)| * sch.codec.k)))
    {
      stored, failed := 0, 0;
      u := UploadLog(rows, stores, nodes, works, Placement.Eligible(cfg, nodes) != [], stores.Keys, [], [], [], []);
      assert rows == rows + RowsOf(sch.hash, nextId, []);
      if nodes == [] {
        return Err(NoNodes), stored, failed, u;
      }
      ChunksAreParts(sch, data);
      var chunks := Chunking.SplitIntoChunks(data, sch.chunkSize).value;
      var fileId := nextId;
      nextId := nextId + 1;
      files := files + [FileEntry(path, FileRecord(fileId, |data|, |chunks|))];
      stored, failed, u := StoreChunks(fileId, data, chunks, nodes, score, works, u);
      var needed := |chunks| * sch.codec.k;
      if stored < needed {
        r := Err(NotEnoughStored(stored, needed));
      } else {
        r := Ok(());
      }
    }

    /**
      Reads an object back; `online` and `up` say which nodes are listed and which answer. Among several files
      under the path the query returns any one, here number `row`.
    */
    method GetObject(path: string, online: set<Addr>, up: set<Addr>) returns (r: Result<seq<Byte>, GetError>, row: Option<nat>)
      requires Valid()
      ensures row.None? <==> !HasPath(files, path)
      ensures row.Some? ==> row.value in Candidates(files, path)
      ensures r == if row.None? then Err(NoSuchKey)
                   else ReadObject(sch, files[row.value].record, RowsOfFile(rows, files[row.value].record.id),
                                   FetchFrom(locations, stores, online, up))
    {
      row := None;
      if !HasPath(files, path) { return Err(NoSuchKey), row; }
      var i: nat :| i < |files| && files[i].path == path;
      row := Some(i);
      r := ReadFile(files[i].record, FetchFrom(locations, stores, online, up));
    }

    /** All chunks of a file in order. */
    method ReadFile(file: FileRecord, fetch: Fetch) returns (r: Result<seq<Byte>, GetError>)
      requires ValidFile(sch, file)
      ensures r == ReadObject(sch, file, RowsOfFile(rows, file.id), fetch)
    {
      var records := RowsOfFile(rows, file.id);
      if records == [] { return Err(NoShardsForFile); }
      var groups := GroupByChunk(records);
      var result := [];
      for c := 0 to file.chunkCount
        invariant ReadChunks(sch, file, records, fetch, c) == Ok(result)
      {
        var chunk := ReadOneChunk(file, records, groups, fetch, c);
        if chunk.Err? {
          FailureSpreads(sch, file, records, fetch, c);
          return Err(chunk.error);
        }
        result := result + chunk.value;
      }
      r := Ok(Truncated(result, file.sizeBytes));
    }

    method ReadOneChunk(file: FileRecord, ghost records: seq<ChunkRow>, groups: map<int, seq<ChunkRow>>, fetch: Fetch, c: nat)
      returns (r: Result<seq<Byte>, GetError>)
      requires ValidFile(sch, file) && c < file.chunkCount
      requires forall i: int :: (if i in groups then groups[i] else []) == OfChunk(records, i)
      ensures r == ReadChunk(sch, file, records, fetch, c)
    {
      var none: seq<ChunkRow> := [];
      assert (if (c as int) in groups then groups[c] else none) == OfChunk(records, c);
      if c !in groups || groups[c] == [] { return Err(NoShardsForChunk(c)); }
      var mine := groups[c];
      var opts, count := NoShards(sch), 0;
      for i := 0 to |mine|
        invariant |opts| == sch.codec.Total()
        invariant Collect(sch, mine[i..], fetch, opts, count) == Collect(sch, mine, fetch, NoShards(sch), 0)
      {
        if count >= sch.codec.k { break; }
        var record := mine[i];
        assert mine[i..][1..] == mine[i + 1..];
        if !(0 <= record.shardIndex < sch.codec.Total()) { continue; }
        var shard := fetch(record.chunkId);
        if shard.Some? {
          opts := opts[record.shardIndex := shard];
          count := count + 1;
        }
      }
      if count < sch.codec.k { return Err(TooFewShards(c, count, sch.codec.k)); }
      var decoded := Decode(sch.codec, opts, ChunkLength(sch, file, c));
      r := match decoded case Ok(bytes) => Ok(bytes) case Err(e) => Err(DecodingFailed(c, e));
    }
  }

  /** Groups shard records by chunk index, keeping their order. */
  method GroupByChunk(records: seq<ChunkRow>) returns (groups: map<int, seq<ChunkRow>>)
    ensures forall c: int :: (if c in groups then groups[c] else []) == OfChunk(records, c)
  {
    groups := map[];
    for i := 0 to |records|
      invariant forall c: int :: (if c in groups then groups[c] else []) == OfChunk(records[..i], c)
    {
      var c := records[i].chunkIndex;
      assert records[..i + 1][..i] == records[..i];
      var known := if c in groups then groups[c] else [];
      groups := groups[c := known + [records[i]]];
    }
    assert records[..|records|] == records;
  }

  lemma {:induction false} FailureSpreads(sch: Scheme, file: FileRecord, rows: seq<ChunkRow>, fetch: Fetch, c: nat)
    requires ValidFile(sch, file) && c < file.chunkCount
    requires ReadChunks(sch, file, rows, fetch, c).Ok? && ReadChunk(sch, file, rows, fetch, c).Err?
    ensures ReadChunks(sch, file, rows, fetch, file.chunkCount) == Err(ReadChunk(sch, file, rows, fetch, c).error)
  {
    StaysFailed(sch, file, rows, fetch, c + 1, file.chunkCount);
  }

  lemma {:induction false} StaysFailed(sch: Scheme, file: FileRecord, rows: seq<ChunkRow>, fetch: Fetch, c: nat, upTo: nat)
    requires ValidFile(sch, file) && c <= upTo <= file.chunkCount && ReadChunks(sch, file, rows, fetch, c).Err?
    ensures ReadChunks(sch, file, rows, fetch, upTo) == ReadChunks(sch, file, rows, fetch, c)
    decreases upTo
  {
    if c < upTo { StaysFailed(sch, file, rows, fetch, c, upTo - 1); }
  }

  /** The chunks of an object are its pieces. */
  lemma ChunksAreParts(sch: Scheme, data: seq<Byte>)
    requires sch.chunkSize > 0 && Chunking.Clamp(sch.chunkSize) == sch.chunkSize
    ensures Chunking.SplitIntoChunks(data, sch.chunkSize).Ok?
    ensures var chunks := Chunking.SplitIntoChunks(data, sch.chunkSize).value;
            && |chunks| == |Parts(sch, data)| == CeilDiv(|data|, sch.chunkSize)
            && forall c | 0 <= c < |chunks| :: chunks[c].data == Parts(sch, data)[c] != []
  {
    PiecesNonEmpty(data, sch.chunkSize);
    PiecesShape(data, sch.chunkSize, 0);
    Chunking.MakeChunksAt(Pieces(data, sch.chunkSize), 0, CeilDiv(|data|, sch.chunkSize));
  }

  /** Whenever any node is eligible, every shard gets exactly one of the nodes. */
  lemma DecisionsUsable(cfg: Placement.Config, nodes: seq<Placement.Node>, score: Placement.Score, decisions: seq<Placement.Decision>)
    requires cfg.maxPerDc > 0 && cfg.maxPerRack > 0 && (Placement.Eligible(cfg, nodes) == [] ==> decisions == [])
    requires forall i | 0 <= i < |decisions| :: Placement.Scored(cfg, nodes, 1, score, decisions, i)
    ensures forall j | 0 <= j < |decisions| :: |decisions[j].nodes| == 1 && decisions[j].nodes[0] in nodes
  {
    if decisions != [] {
      Placement.EachPlacesOne(cfg, nodes, score, decisions);
      forall j | 0 <= j < |decisions| ensures |decisions[j].nodes| == 1 && decisions[j].nodes[0] in nodes {
        Placement.EligibleMembers(cfg, nodes, decisions[j].nodes[0]);
      }
    }
  }

  // ---------- upload, then read ----------

  lemma {:induction false} NewFileRows(before: seq<ChunkRow>, mine: seq<ChunkRow>, fileId: nat)
    requires forall i | 0 <= i < |before| :: before[i].fileId < fileId
    requires forall i | 0 <= i < |mine| :: mine[i].fileId == fileId
    ensures RowsOfFile(before + mine, fileId) == mine
    decreases |before| + |mine|
  {
    var all := before + mine;
    if mine != [] {
      var n := |mine| - 1;
      assert all[..|all| - 1] == before + mine[..n];
      NewFileRows(before, mine[..n], fileId);
    } else if before != [] {
      var n := |before| - 1;
      assert all[..|all| - 1] == before[..n] + mine;
      NewFileRows(before[..n], mine, fileId);
    }
  }

  /** No stored data other than the shard itself has the shard's hash. */
  ghost predicate OnlyPreimage(hash: Hash, stores: Stores, shard: Shard) {
    forall x | Contains(stores, x) && hash(x) == hash(shard) :: x == shard
  }

  ghost predicate NoCollisions(sch: Scheme, data: seq<Byte>, stores: Stores)
    requires ValidScheme(sch)
  {
    forall c, j | 0 <= c < |Parts(sch, data)| && 0 <= j < sch.codec.Total() ::
      OnlyPreimage(sch.hash, stores, ShardOf(sch, data, c, j))
  }

  lemma FetchesShard(hash: Hash, locations: map<ChunkId, seq<Addr>>, stores: Stores, online: set<Addr>, up: set<Addr>, shard: Shard)
    requires Addressed(hash, stores) && OnlyPreimage(hash, stores, shard)
    ensures FetchFrom(locations, stores, online, up)(hash(shard)) in {None, Some(shard)}
  {
    var id := hash(shard);
    var got := Fetched(stores, id, OnlineAddresses(locations, online, id), up);
    FetchedIsHeld(stores, id, OnlineAddresses(locations, online, id), up);
    if got.Some? {
      var n :| n in stores && id in stores[n] && stores[n][id] == got.value;
      assert Holds(stores, n, id, got.value);
      assert Contains(stores, got.value) && hash(got.value) == id;
      assert got.value == shard;
    }
    assert FetchFrom(locations, stores, online, up)(id) == got;
  }

  /** Content addressing makes every fetch genuine, whatever the location table says. */
  lemma FetchIsGenuine(sch: Scheme, data: seq<Byte>, locations: map<ChunkId, seq<Addr>>, stores: Stores, online: set<Addr>, up: set<Addr>)
    requires ValidScheme(sch) && Addressed(sch.hash, stores) && NoCollisions(sch, data, stores)
    ensures Genuine(sch, data, FetchFrom(locations, stores, online, up))
  {
    forall c, j | 0 <= c < |Parts(sch, data)| && 0 <= j < sch.codec.Total()
      ensures FetchFrom(locations, stores, online, up)(sch.hash(ShardOf(sch, data, c, j))) in {None, Some(ShardOf(sch, data, c, j))}
    {
      assert OnlyPreimage(sch.hash, stores, ShardOf(sch, data, c, j));
      FetchesShard(sch.hash, locations, stores, online, up, ShardOf(sch, data, c, j));
    }
  }

  /**
    Read an object some time after its upload: `rows`, `locations` and `stores` may have changed in
    any way that leaves the file's own records alone and the stores content-addressed.  The read
    returns the object exactly when every chunk has k registered shards that recorded, online,
    answering nodes still hold; otherwise it returns an error.
  */
  lemma PutThenGet(sch: Scheme, data: seq<Byte>, file: FileRecord, u: UploadLog, rows: seq<ChunkRow>,
                   locations: map<ChunkId, seq<Addr>>, stores: Stores, online: set<Addr>, up: set<Addr>)
    requires ValidScheme(sch) && ValidFile(sch, file) && file.sizeBytes == |data| > 0
    requires |u.slots| == |u.ok| && u.slots == Slots(sch, data, |Parts(sch, data)|)
    requires RowsOfFile(rows, file.id) == RowsOf(sch.hash, file.id, Registered(sch.hash, TakenIds(u.before), u.slots, u.ok))
    requires Addressed(sch.hash, stores) && NoCollisions(sch, data, stores)
    ensures var fetch := FetchFrom(locations, stores, online, up);
            var r := ReadObject(sch, file, RowsOfFile(rows, file.id), fetch);
            && (r == Ok(data) <==> Readable(sch, data, Registered(sch.hash, TakenIds(u.before), u.slots, u.ok), fetch))
            && (r == Ok(data) || r.Err?)
  {
    FetchIsGenuine(sch, data, locations, stores, online, up);
    RoundTrip(sch, data, file, TakenIds(u.before), u.ok, FetchFrom(locations, stores, online, up));
  }

  /** The records an upload leaves are found under its file id. */
  lemma UploadRows(sch: Scheme, fileId: nat, u: UploadLog, rows: seq<ChunkRow>, locations: map<ChunkId, seq<Addr>>, stores: Stores)
    requires u.Describes(sch.hash, fileId, rows, locations, stores)
    requires Numbered(u.before, fileId)
    ensures RowsOfFile(rows, fileId) == RowsOf(sch.hash, fileId, Registered(sch.hash, TakenIds(u.before), u.slots, u.ok))
  {
    NewFileRows(u.before, RowsOf(sch.hash, fileId, Registered(sch.hash, TakenIds(u.before), u.slots, u.ok)), fileId);
  }

  lemma {:induction false} OnlineMembers(addresses: seq<Addr>, online: set<Addr>)
    ensures forall a | a in addresses && a in online :: a in Online(addresses, online)
  {
    if addresses != [] { OnlineMembers(addresses[..|addresses| - 1], online); }
  }

  /** A located chunk is fetched as long as every node is online and answers. */
  lemma LocatedIsFetched(locations: map<ChunkId, seq<Addr>>, stores: Stores, id: ChunkId, online: set<Addr>, up: set<Addr>)
    requires Located(locations, stores, id) && stores.Keys <= online && stores.Keys <= up
    ensures FetchFrom(locations, stores, online, up)(id).Some?
  {
    var a :| HeldAt(locations, stores, id, a);
    OnlineMembers(locations[id], online);
    FetchedIsHeld(stores, id, OnlineAddresses(locations, online, id), up);
    assert a in OnlineAddresses(locations, online, id);
  }

  // ---------- counting stored shards ----------

  function OfChunkCount(slots: seq<Slot>, c: nat): nat {
    if slots == [] then 0 else OfChunkCount(slots[..|slots| - 1], c) + (if slots[|slots| - 1].chunk == c then 1 else 0)
  }

  lemma {:induction false} OfChunkCountAppend(a: seq<Slot>, b: seq<Slot>, c: nat)
    ensures OfChunkCount(a + b, c) == OfChunkCount(a, c) + OfChunkCount(b, c)
    decreases |b|
  {
    if b == [] {
      assert a + b == a;
    } else {
      assert (a + b)[..|a + b| - 1] == a + b[..|b| - 1];
      OfChunkCountAppend(a, b[..|b| - 1], c);
    }
  }

  lemma {:induction false} UniformChunkCount(slots: seq<Slot>, d: nat, c: nat)
    requires forall i | 0 <= i < |slots| :: slots[i].chunk == d
    ensures OfChunkCount(slots, c) == if c == d then |slots| else 0
  {
    if slots != [] { UniformChunkCount(slots[..|slots| - 1], d, c); }
  }

  /** Every chunk has k + m shards. */
  lemma {:induction false} SlotsPerChunk(sch: Scheme, data: seq<Byte>, upTo: nat, c: nat)
    requires ValidScheme(sch) && upTo <= |Parts(sch, data)|
    ensures OfChunkCount(Slots(sch, data, upTo), c) == if c < upTo then sch.codec.Total() else 0
  {
    if upTo > 0 {
      SlotsPerChunk(sch, data, upTo - 1, c);
      UniformChunkCount(ChunkSlots(sch, data, upTo - 1), upTo - 1, c);
      OfChunkCountAppend(Slots(sch, data, upTo - 1), ChunkSlots(sch, data, upTo - 1), c);
    }
  }

  /** What is stored of chunk c misses at most the failures, and if all slots are of chunk c is all that is stored. */
  lemma {:induction false} StoredPerChunk(slots: seq<Slot>, ok: seq<bool>, c: nat)
    requires |slots| == |ok|
    ensures OfChunkCount(Stored(slots, ok), c) + (|ok| - CountTrue(ok)) >= OfChunkCount(slots, c)
    ensures CountTrue(ok) <= |ok|
    ensures (forall i | 0 <= i < |slots| :: slots[i].chunk == c) ==> OfChunkCount(Stored(slots, ok), c) == CountTrue(ok)
  {
    if slots != [] {
      var n := |slots| - 1;
      StoredPerChunk(slots[..n], ok[..n], c);
      OfChunkCountAppend(Stored(slots[..n], ok[..n]), if ok[n] then [slots[n]] else [], c);
    }
  }

  ghost predicate EnoughOfEachChunk(slots: seq<Slot>, chunks: nat, k: nat) {
    forall c | 0 <= c < chunks :: OfChunkCount(slots, c) >= k
  }

  lemma {:induction false} AllFetchable(hash: Hash, slots: seq<Slot>, fetch: Fetch, c: nat)
    requires forall i | 0 <= i < |slots| :: fetch(hash(slots[i].data)).Some?
    ensures Recoverable(hash, slots, fetch, c) == OfChunkCount(slots, c)
  {
    if slots != [] { AllFetchable(hash, slots[..|slots| - 1], fetch, c); }
  }

  lemma {:induction false} RegisteredWereStored(hash: Hash, taken: set<ChunkId>, slots: seq<Slot>, ok: seq<bool>)
    requires |slots| == |ok|
    ensures forall s | s in Registered(hash, taken, slots, ok) :: exists i :: 0 <= i < |slots| && ok[i] && slots[i] == s
  {
    if slots != [] {
      var n := |slots| - 1;
      RegisteredWereStored(hash, taken, slots[..n], ok[..n]);
      forall s | s in Registered(hash, taken, slots[..n], ok[..n])
        ensures exists i :: 0 <= i < |slots| && ok[i] && slots[i] == s
      {
        var i :| 0 <= i < n && ok[..n][i] && slots[..n][i] == s;
        assert ok[i] && slots[i] == s;
      }
    }
  }

  /**
    Right after an upload, with every node online and answering, the object is readable exactly
    when every chunk has at least k registered shards.
  */
  lemma ReadAfterUpload(sch: Scheme, data: seq<Byte>, file: FileRecord, u: UploadLog, rows: seq<ChunkRow>,
                        locations: map<ChunkId, seq<Addr>>, stores: Stores, online: set<Addr>, up: set<Addr>)
    requires ValidScheme(sch) && ValidFile(sch, file) && file.sizeBytes == |data| > 0
    requires u.Describes(sch.hash, file.id, rows, locations, stores) && u.slots == Slots(sch, data, |Parts(sch, data)|)
    requires Numbered(u.before, file.id)
    requires Addressed(sch.hash, stores) && NoCollisions(sch, data, stores)
    requires stores.Keys <= online && stores.Keys <= up
    ensures ReadObject(sch, file, RowsOfFile(rows, file.id), FetchFrom(locations, stores, online, up)) == Ok(data)
            <==> EnoughOfEachChunk(Registered(sch.hash, TakenIds(u.before), u.slots, u.ok), |Parts(sch, data)|, sch.codec.k)
  {
    var registered := Registered(sch.hash, TakenIds(u.before), u.slots, u.ok);
    var fetch := FetchFrom(locations, stores, online, up);
    UploadRows(sch, file.id, u, rows, locations, stores);
    PutThenGet(sch, data, file, u, rows, locations, stores, online, up);
    ReadableRegistered(sch, data, file.id, u, rows, locations, stores, online, up);
  }

  lemma ReadableRegistered(sch: Scheme, data: seq<Byte>, fileId: nat, u: UploadLog, rows: seq<ChunkRow>,
                           locations: map<ChunkId, seq<Addr>>, stores: Stores, online: set<Addr>, up: set<Addr>)
    requires sch.chunkSize > 0 && u.Describes(sch.hash, fileId, rows, locations, stores)
    requires stores.Keys <= online && stores.Keys <= up
    ensures var registered := Registered(sch.hash, TakenIds(u.before), u.slots, u.ok);
            Readable(sch, data, registered, FetchFrom(locations, stores, online, up))
            <==> EnoughOfEachChunk(registered, |Parts(sch, data)|, sch.codec.k)
  {
    var registered := Registered(sch.hash, TakenIds(u.before), u.slots, u.ok);
    forall c | 0 <= c < |Parts(sch, data)|
      ensures Recoverable(sch.hash, registered, FetchFrom(locations, stores, online, up), c) == OfChunkCount(registered, c)
    {
      RegisteredRecoverable(sch.hash, fileId, u, rows, locations, stores, online, up, c);
    }
  }

  lemma RegisteredRecoverable(hash: Hash, fileId: nat, u: UploadLog, rows: seq<ChunkRow>,
                              locations: map<ChunkId, seq<Addr>>, stores: Stores, online: set<Addr>, up: set<Addr>, c: nat)
    requires u.Describes(hash, fileId, rows, locations, stores) && stores.Keys <= online && stores.Keys <= up
    ensures var registered := Registered(hash, TakenIds(u.before), u.slots, u.ok);
            Recoverable(hash, registered, FetchFrom(locations, stores, online, up), c) == OfChunkCount(registered, c)
  {
    var registered := Registered(hash, TakenIds(u.before), u.slots, u.ok);
    RegisteredWereStored(hash, TakenIds(u.before), u.slots, u.ok);
    forall i | 0 <= i < |registered| ensures FetchFrom(locations, stores, online, up)(hash(registered[i].data)).Some? {
      assert registered[i] in registered;
      var p :| 0 <= p < |u.slots| && u.ok[p] && u.slots[p] == registered[i];
      LocatedIsFetched(locations, stores, hash(registered[i].data), online, up);
    }
    AllFetchable(hash, registered, FetchFrom(locations, stores, online, up), c);
  }

  // ---------- what the acceptance test is worth ----------

  /** At most m shards failed in all, or the object has one chunk and the upload is accepted. */
  ghost predicate SafelyStored(sch: Scheme, data: seq<Byte>, ok: seq<bool>)
    requires sch.chunkSize > 0
  {
    |ok| - CountTrue(ok) <= sch.codec.m || (|Parts(sch, data)| == 1 && CountTrue(ok) >= sch.codec.k)
  }

  lemma SafelyStoredCounts(sch: Scheme, data: seq<Byte>, ok: seq<bool>)
    requires ValidScheme(sch) && |ok| == |Slots(sch, data, |Parts(sch, data)|)| && SafelyStored(sch, data, ok)
    ensures EnoughOfEachChunk(Stored(Slots(sch, data, |Parts(sch, data)|), ok), |Parts(sch, data)|, sch.codec.k)
  {
    var slots := Slots(sch, data, |Parts(sch, data)|);
    SlotsShape(sch, data, |Parts(sch, data)|);
    forall c | 0 <= c < |Parts(sch, data)| ensures OfChunkCount(Stored(slots, ok), c) >= sch.codec.k {
      SlotsPerChunk(sch, data, |Parts(sch, data)|, c);
      StoredPerChunk(slots, ok, c);
    }
  }

  lemma StoredLocated(hash: Hash, fileId: nat, u: UploadLog, rows: seq<ChunkRow>, locations: map<ChunkId, seq<Addr>>, stores: Stores, s: Slot)
    requires u.Describes(hash, fileId, rows, locations, stores) && s in Stored(u.slots, u.ok)
    ensures Located(locations, stores, hash(s.data))
  {
    StoredWereOk(u.slots, u.ok, s);
  }

  lemma {:induction false} StoredWereOk(slots: seq<Slot>, ok: seq<bool>, s: Slot)
    requires |slots| == |ok| && s in Stored(slots, ok)
    ensures exists i :: 0 <= i < |slots| && ok[i] && slots[i] == s
  {
    var n := |slots| - 1;
    if s in Stored(slots[..n], ok[..n]) {
      StoredWereOk(slots[..n], ok[..n], s);
      var i :| 0 <= i < n && ok[..n][i] && slots[..n][i] == s;
      assert ok[i] && slots[i] == s;
    } else {
      assert ok[n] && slots[n] == s;
    }
  }

  lemma FewFailuresAccepted(sch: Scheme, data: seq<Byte>, ok: seq<bool>)
    requires ValidScheme(sch) && |ok| == |Slots(sch, data, |Parts(sch, data)|)| && data != []
    requires |ok| - CountTrue(ok) <= sch.codec.m
    ensures CountTrue(ok) >= |Parts(sch, data)| * sch.codec.k
  {
    SlotsShape(sch, data, |Parts(sch, data)|);
    FirstPiece(data, sch.chunkSize);
    FewMissing(|Parts(sch, data)|, sch.codec.k, sch.codec.m, CountTrue(ok));
  }

  lemma FewMissing(n: nat, k: nat, m: nat, count: nat)
    requires n > 0 && n * (k + m) - count <= m
    ensures count >= n * k
  {
    assert n * (k + m) == n * k + n * m;
    MulGap(0, n, m);
  }

  /**
    After any upload, whatever its shards' ids: if at most m shards failed in all, or a single chunk was accepted,
    then k shards of every chunk are held on recorded nodes; and with at most m failures the upload is accepted.
  */
  lemma AcceptedIsHeld(sch: Scheme, data: seq<Byte>, fileId: nat, u: UploadLog, rows: seq<ChunkRow>,
                       locations: map<ChunkId, seq<Addr>>, stores: Stores)
    requires ValidScheme(sch) && data != [] && u.Describes(sch.hash, fileId, rows, locations, stores)
    requires u.slots == Slots(sch, data, |Parts(sch, data)|) && SafelyStored(sch, data, u.ok)
    ensures EnoughOfEachChunk(Stored(u.slots, u.ok), |Parts(sch, data)|, sch.codec.k)
    ensures forall s | s in Stored(u.slots, u.ok) :: Located(locations, stores, sch.hash(s.data))
    ensures |u.ok| - CountTrue(u.ok) <= sch.codec.m ==> CountTrue(u.ok) >= |Parts(sch, data)| * sch.codec.k
  {
    SafelyStoredCounts(sch, data, u.ok);
    forall s | s in Stored(u.slots, u.ok) ensures Located(locations, stores, sch.hash(s.data)) {
      StoredLocated(sch.hash, fileId, u, rows, locations, stores, s);
    }
    if |u.ok| - CountTrue(u.ok) <= sch.codec.m { FewFailuresAccepted(sch, data, u.ok); }
  }

  // ---------- accepted and lost ----------

  /** Nodes that refuse the first m + 1 shards of the first chunk and nothing else. */
  function Losing(m: nat): Works {
    (c: nat, j: nat, a: Addr) => !(c == 0 && j <= m)
  }

  /** What becomes of the shards then. */
  function Outcomes(m: nat, slots: seq<Slot>): (ok: seq<bool>)
    ensures |ok| == |slots|
  {
    seq(|slots|, i requires 0 <= i < |slots| => !(slots[i].chunk == 0 && slots[i].shard <= m))
  }

  lemma {:induction false} StoredAppend(a: seq<Slot>, b: seq<Slot>, oka: seq<bool>, okb: seq<bool>)
    requires |a| == |oka| && |b| == |okb|
    ensures Stored(a + b, oka + okb) == Stored(a, oka) + Stored(b, okb)
    ensures CountTrue(oka + okb) == CountTrue(oka) + CountTrue(okb)
    decreases |b|
  {
    if b == [] {
      assert a + b == a && oka + okb == oka;
    } else {
      var n := |b| - 1;
      assert (a + b)[..|a| + n] == a + b[..n] && (oka + okb)[..|oka| + n] == oka + okb[..n];
      StoredAppend(a, b[..n], oka, okb[..n]);
    }
  }

  lemma LosingAppend(a: seq<Slot>, b: seq<Slot>, m: nat)
    ensures CountTrue(Outcomes(m, a + b)) == CountTrue(Outcomes(m, a)) + CountTrue(Outcomes(m, b))
    ensures OfChunkCount(Stored(a + b, Outcomes(m, a + b)), 0)
         == OfChunkCount(Stored(a, Outcomes(m, a)), 0) + OfChunkCount(Stored(b, Outcomes(m, b)), 0)
  {
    assert Outcomes(m, a + b) == Outcomes(m, a) + Outcomes(m, b);
    StoredAppend(a, b, Outcomes(m, a), Outcomes(m, b));
    OfChunkCountAppend(Stored(a, Outcomes(m, a)), Stored(b, Outcomes(m, b)), 0);
  }

  lemma LosingOne(s: Slot, m: nat)
    ensures CountTrue(Outcomes(m, [s])) == if s.chunk == 0 && s.shard <= m then 0 else 1
    ensures OfChunkCount(Stored([s], Outcomes(m, [s])), 0) == if s.chunk == 0 && s.shard > m then 1 else 0
  {
    var ok := Outcomes(m, [s]);
    assert ok[..0] == [] && [s][..0] == [];
    assert Stored([s], ok) == if ok[0] then [s] else [];
  }

  /** Of the first shards of the first chunk all but the first m + 1 are stored; of other chunks all. */
  lemma {:induction false} LosingChunk(slots: seq<Slot>, c: nat, m: nat)
    requires forall j | 0 <= j < |slots| :: slots[j].chunk == c && slots[j].shard == j
    ensures CountTrue(Outcomes(m, slots)) == if c > 0 then |slots| else if |slots| <= m + 1 then 0 else |slots| - (m + 1)
    ensures OfChunkCount(Stored(slots, Outcomes(m, slots)), 0) == if c > 0 then 0 else CountTrue(Outcomes(m, slots))
  {
    if slots != [] {
      var n := |slots| - 1;
      LosingChunk(slots[..n], c, m);
      assert slots == slots[..n] + [slots[n]];
      LosingAppend(slots[..n], [slots[n]], m);
      LosingOne(slots[n], m);
    }
  }

  /** How many shards of the first n chunks are stored then, and how many of the first chunk. */
  ghost function LosingCount(sch: Scheme, data: seq<Byte>, n: nat): nat
    requires ValidScheme(sch) && n <= |Parts(sch, data)|
  {
    CountTrue(Outcomes(sch.codec.m, Slots(sch, data, n)))
  }

  ghost function LosingFirst(sch: Scheme, data: seq<Byte>, n: nat): nat
    requires ValidScheme(sch) && n <= |Parts(sch, data)|
  {
    OfChunkCount(Stored(Slots(sch, data, n), Outcomes(sch.codec.m, Slots(sch, data, n))), 0)
  }

  lemma LosingNext(sch: Scheme, data: seq<Byte>, c: nat)
    requires ValidScheme(sch) && c < |Parts(sch, data)|
    ensures LosingCount(sch, data, c + 1) == LosingCount(sch, data, c) + (if c == 0 then sch.codec.k - 1 else sch.codec.Total())
  {
    var front, last := Slots(sch, data, c), ChunkSlots(sch, data, c);
    assert Slots(sch, data, c + 1) == front + last;
    LosingAppend(front, last, sch.codec.m);
    LosingChunk(last, c, sch.codec.m);
  }

  lemma LosingFirstNext(sch: Scheme, data: seq<Byte>, c: nat)
    requires ValidScheme(sch) && c < |Parts(sch, data)|
    ensures LosingFirst(sch, data, c + 1) == LosingFirst(sch, data, c) + (if c == 0 then sch.codec.k - 1 else 0)
  {
    var front, last := Slots(sch, data, c), ChunkSlots(sch, data, c);
    assert Slots(sch, data, c + 1) == front + last;
    LosingAppend(front, last, sch.codec.m);
    LosingChunk(last, c, sch.codec.m);
  }

  lemma LosingNone(sch: Scheme, data: seq<Byte>)
    requires ValidScheme(sch)
    ensures LosingCount(sch, data, 0) == 0 && LosingFirst(sch, data, 0) == 0
  {
    assert Slots(sch, data, 0) == [];
  }

  /** What is stored of n chunks then. */
  function LosingTotal(n: nat, k: nat, m: nat): nat
    requires k > 0
  {
    if n <= 1 then k - 1 else LosingTotal(n - 1, k, m) + (k + m)
  }

  lemma {:induction false} LosingStored(sch: Scheme, data: seq<Byte>, upTo: nat)
    requires ValidScheme(sch) && 0 < upTo <= |Parts(sch, data)|
    ensures LosingCount(sch, data, upTo) == LosingTotal(upTo, sch.codec.k, sch.codec.m)
  {
    LosingNext(sch, data, upTo - 1);
    if upTo > 1 { LosingStored(sch, data, upTo - 1); } else { LosingNone(sch, data); }
  }

  lemma {:induction false} LosingFirsts(sch: Scheme, data: seq<Byte>, upTo: nat)
    requires ValidScheme(sch) && 0 < upTo <= |Parts(sch, data)|
    ensures LosingFirst(sch, data, upTo) == sch.codec.k - 1
  {
    LosingFirstNext(sch, data, upTo - 1);
    if upTo > 1 { LosingFirsts(sch, data, upTo - 1); } else { LosingNone(sch, data); }
  }

  lemma {:induction false} EnoughInTotal(n: nat, k: nat, m: nat)
    requires n >= 1 && m >= 1 && k >= 1
    ensures LosingTotal(n, k, m) + 1 >= n * k + (n - 1)
  {
    if n > 1 {
      EnoughInTotal(n - 1, k, m);
      assert n * k == (n - 1) * k + k;
    }
  }

  /** With two chunks or more the upload that loses them is accepted. */
  lemma LosingIsAccepted(sch: Scheme, data: seq<Byte>)
    requires ValidScheme(sch) && |Parts(sch, data)| >= 2
    ensures var slots := Slots(sch, data, |Parts(sch, data)|);
            CountTrue(Outcomes(sch.codec.m, slots)) >= |Parts(sch, data)| * sch.codec.k
  {
    LosingStored(sch, data, |Parts(sch, data)|);
    EnoughInTotal(|Parts(sch, data)|, sch.codec.k, sch.codec.m);
  }

  /** An accepted upload of the object always stores k shards of every chunk. */
  ghost predicate AcceptanceSuffices(sch: Scheme, data: seq<Byte>)
    requires ValidScheme(sch)
  {
    var n := |Parts(sch, data)|;
    forall ok: seq<bool> | |ok| == |Slots(sch, data, n)| && CountTrue(ok) >= n * sch.codec.k ::
      EnoughOfEachChunk(Stored(Slots(sch, data, n), ok), n, sch.codec.k)
  }

  /** The total guarantees k stored shards of every chunk if and only if the object has at most one chunk. */
  lemma AcceptanceGuarantee(sch: Scheme, data: seq<Byte>)
    requires ValidScheme(sch)
    ensures AcceptanceSuffices(sch, data) <==> |Parts(sch, data)| <= 1
  {
    var n := |Parts(sch, data)|;
    if n == 1 {
      forall ok: seq<bool> | |ok| == |Slots(sch, data, n)| && CountTrue(ok) >= n * sch.codec.k
        ensures EnoughOfEachChunk(Stored(Slots(sch, data, n), ok), n, sch.codec.k)
      {
        SafelyStoredCounts(sch, data, ok);
      }
    } else if n >= 2 {
      var ok := Outcomes(sch.codec.m, Slots(sch, data, n));
      LosingCounts(sch, data, ok);
      assert !EnoughOfEachChunk(Stored(Slots(sch, data, n), ok), n, sch.codec.k);
    }
  }

  lemma {:induction false} RegisteredAreFewer(hash: Hash, taken: set<ChunkId>, slots: seq<Slot>, ok: seq<bool>, fetch: Fetch, c: nat)
    requires |slots| == |ok|
    ensures Recoverable(hash, Registered(hash, taken, slots, ok), fetch, c) <= OfChunkCount(Stored(slots, ok), c)
  {
    if slots != [] {
      var n := |slots| - 1;
      var before := Registered(hash, taken, slots[..n], ok[..n]);
      RegisteredAreFewer(hash, taken, slots[..n], ok[..n], fetch, c);
      OfChunkCountAppend(Stored(slots[..n], ok[..n]), if ok[n] then [slots[n]] else [], c);
      assert (before + [slots[n]])[..|before|] == before;
    }
  }

  lemma LosingLog(sch: Scheme, fileId: nat, u: UploadLog, rows: seq<ChunkRow>, locations: map<ChunkId, seq<Addr>>, stores: Stores)
    requires u.Describes(sch.hash, fileId, rows, locations, stores) && u.eligible && u.works == Losing(sch.codec.m)
    requires exists i :: 0 <= i < |u.nodes| && u.nodes[i].address in u.addresses
    ensures u.ok == Outcomes(sch.codec.m, u.slots)
  {
    var a :| 0 <= a < |u.nodes| && u.nodes[a].address in u.addresses;
    forall i | 0 <= i < |u.slots| ensures u.ok[i] == Outcomes(sch.codec.m, u.slots)[i] {
      var s := u.slots[i];
      assert Outcomes(sch.codec.m, u.slots)[i] ==> u.works(s.chunk, s.shard, u.nodes[a].address);
    }
  }

  /**
    An upload of two chunks or more whose nodes refuse the first m + 1 shards of the first chunk is accepted, and can
    never be read, whatever nodes answer.
  */
  lemma AcceptedButUnreadable(sch: Scheme, data: seq<Byte>, file: FileRecord, u: UploadLog, rows: seq<ChunkRow>,
                              locations: map<ChunkId, seq<Addr>>, stores: Stores, online: set<Addr>, up: set<Addr>)
    requires ValidScheme(sch) && ValidFile(sch, file) && file.sizeBytes == |data| && |Parts(sch, data)| >= 2
    requires u.Describes(sch.hash, file.id, rows, locations, stores) && u.slots == Slots(sch, data, |Parts(sch, data)|)
    requires u.eligible && u.works == Losing(sch.codec.m) && exists i :: 0 <= i < |u.nodes| && u.nodes[i].address in u.addresses
    requires Numbered(u.before, file.id) && Addressed(sch.hash, stores) && NoCollisions(sch, data, stores)
    ensures CountTrue(u.ok) >= |Parts(sch, data)| * sch.codec.k
    ensures ReadObject(sch, file, RowsOfFile(rows, file.id), FetchFrom(locations, stores, online, up)).Err?
  {
    LosingLog(sch, file.id, u, rows, locations, stores);
    LosingCounts(sch, data, u.ok);
    UploadRows(sch, file.id, u, rows, locations, stores);
    PutThenGet(sch, data, file, u, rows, locations, stores, online, up);
    TooFewOfFirst(sch, data, TakenIds(u.before), u.slots, u.ok, FetchFrom(locations, stores, online, up));
  }

  lemma LosingCounts(sch: Scheme, data: seq<Byte>, ok: seq<bool>)
    requires ValidScheme(sch) && |Parts(sch, data)| >= 2
    requires ok == Outcomes(sch.codec.m, Slots(sch, data, |Parts(sch, data)|))
    ensures CountTrue(ok) >= |Parts(sch, data)| * sch.codec.k
    ensures OfChunkCount(Stored(Slots(sch, data, |Parts(sch, data)|), ok), 0) < sch.codec.k
  {
    LosingIsAccepted(sch, data);
    LosingFirsts(sch, data, |Parts(sch, data)|);
  }

  lemma TooFewOfFirst(sch: Scheme, data: seq<Byte>, taken: set<ChunkId>, slots: seq<Slot>, ok: seq<bool>, fetch: Fetch)
    requires sch.chunkSize > 0 && |Parts(sch, data)| > 0 && |slots| == |ok| && OfChunkCount(Stored(slots, ok), 0) < sch.codec.k
    ensures !Readable(sch, data, Registered(sch.hash, taken, slots, ok), fetch)
  {
    RegisteredAreFewer(sch.hash, taken, slots, ok, fetch, 0);
  }

  /**
    For an object whose shards have ids of their own, at most m failed shards in all, or a single
    chunk and an accepted upload, make it readable.
  */
  lemma AcceptedIsReadable(sch: Scheme, data: seq<Byte>, file: FileRecord, u: UploadLog, rows: seq<ChunkRow>,
                           locations: map<ChunkId, seq<Addr>>, stores: Stores, online: set<Addr>, up: set<Addr>)
    requires ValidScheme(sch) && ValidFile(sch, file) && file.sizeBytes == |data| > 0
    requires u.Describes(sch.hash, file.id, rows, locations, stores) && u.slots == Slots(sch, data, |Parts(sch, data)|)
    requires Numbered(u.before, file.id)
    requires Addressed(sch.hash, stores) && NoCollisions(sch, data, stores)
    requires stores.Keys <= online && stores.Keys <= up
    requires DistinctIds(sch.hash, TakenIds(u.before), u.slots) && SafelyStored(sch, data, u.ok)
    ensures ReadObject(sch, file, RowsOfFile(rows, file.id), FetchFrom(locations, stores, online, up)) == Ok(data)
  {
    ReadAfterUpload(sch, data, file, u, rows, locations, stores, online, up);
    DistinctAllRegistered(sch.hash, TakenIds(u.before), u.slots, u.ok);
    SafelyStoredCounts(sch, data, u.ok);
  }

  // ---------- the two requests together ----------

  /** The records of older files are as they were. */
  lemma {:induction false} OlderRows(before: seq<ChunkRow>, mine: seq<ChunkRow>, fileId: nat)
    requires forall i | 0 <= i < |mine| :: mine[i].fileId != fileId
    ensures RowsOfFile(before + mine, fileId) == RowsOfFile(before, fileId)
    decreases |mine|
  {
    if mine == [] {
      assert before + mine == before;
    } else {
      assert (before + mine)[..|before + mine| - 1] == before + mine[..|mine| - 1];
      OlderRows(before, mine[..|mine| - 1], fileId);
    }
  }

  /**
    Uploads an object and reads its path back. If the path was used before, the read may find an older file;
    then it reads that file's own records.
  */
  method PutThenGetObject(store: ObjectStore, path: string, data: seq<Byte>, nodes: seq<Placement.Node>, score: Placement.Score,
                          works: Works, online: set<Addr>, up: set<Addr>)
    returns (accepted: bool, r: Result<seq<Byte>, GetError>, row: Option<nat>, ghost u: UploadLog)
    requires store.Valid()
    modifies store
    ensures store.Valid() && u.works == works && u.nodes == nodes
    ensures |u.ok| == |u.slots| && (nodes != [] ==> u.slots == Slots(store.sch, data, |Parts(store.sch, data)|))
    ensures accepted <==> nodes != [] && CountTrue(u.ok) >= |Parts(store.sch, data)| * store.sch.codec.k
    ensures row.None? <==> nodes == [] && !HasPath(old(store.files), path)
    ensures row.None? ==> r == Err(NoSuchKey)
    ensures nodes != [] ==> row.Some? && row.value in Candidates(old(store.files), path) + {|old(store.files)|}
    ensures nodes != [] && !HasPath(old(store.files), path) ==> row == Some(|old(store.files)|)
    ensures row.Some? && row.value < |old(store.files)| ==>
              && old(store.files)[row.value].path == path
              && var file := old(store.files)[row.value].record;
                 && ValidFile(store.sch, file)
                 && r == ReadObject(store.sch, file, RowsOfFile(old(store.rows), file.id), FetchFrom(store.locations, store.stores, online, up))
    ensures row == Some(|old(store.files)|) && data == [] ==> r == Err(NoShardsForFile)
    ensures row == Some(|old(store.files)|) && data != [] && NoCollisions(store.sch, data, store.stores) ==>
              && (r == Ok(data) || r.Err?)
              && (r == Ok(data) <==>
                  Readable(store.sch, data, Registered(store.sch.hash, TakenIds(old(store.rows)), u.slots, u.ok),
                           FetchFrom(store.locations, store.stores, online, up)))
  {
    ghost var fileId := store.nextId;
    ghost var before, count := store.files, |store.files|;
    var put, stored, failed;
    put, stored, failed, u := store.PutObject(path, data, nodes, score, works);
    accepted := put.Ok?;
    r, row := store.GetObject(path, online, up);
    if nodes != [] { OnlyCandidateIff(before, path, store.files[count].record); }
    if row.Some? && row.value < count {
      ghost var mine := RowsOf(store.sch.hash, fileId, Registered(store.sch.hash, TakenIds(u.before), u.slots, u.ok));
      OlderRows(u.before, mine, store.files[row.value].record.id);
    } else if nodes != [] {
      UploadRows(store.sch, fileId, u, store.rows, store.locations, store.stores);
      if data != [] && NoCollisions(store.sch, data, store.stores) {
        PutThenGet(store.sch, data, store.files[count].record, u, store.rows, store.locations, store.stores, online, up);
      }
    }
  }

  /** The gateway's own parameters, 10 data and 4 parity shards and chunks of 4 MB, with the code over GF(2^8). */
  lemma DefaultScheme(hash: Hash)
    ensures var sch := Scheme(ReedSolomon.ByteCodec(10, 4), hash, Chunking.DEFAULT_CHUNK_SIZE);
            ValidScheme(sch) && Chunking.Clamp(sch.chunkSize) == sch.chunkSize && sch.codec.Total() == 14
  {
    ReedSolomon.ByteCodecIsErasureCode(10, 4);
  }
}
