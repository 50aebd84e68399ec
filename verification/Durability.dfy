/**
  Which nodes hold the shards of an uploaded object, and which losses of nodes the object survives: the placement
  decisions of cyxcloud-metadata/src/topology.rs through the upload and read of cyxcloud-gateway/src/state.rs.
*/
module Durability {
  import opened Wrappers
  import opened Bytes
  import opened Cluster
  import opened Retrieval
  import opened Upload
  import opened Gateway
  import Placement

  // ---------- fetching ----------

  lemma {:induction false} OnlineExact(addresses: seq<Addr>, online: set<Addr>, a: Addr)
    ensures a in Online(addresses, online) <==> a in addresses && a in online
  {
    if addresses != [] {
      OnlineExact(addresses[..|addresses| - 1], online, a);
      assert addresses == addresses[..|addresses| - 1] + [addresses[|addresses| - 1]];
    }
  }

  /** A shard is fetched if and only if a node that is recorded for it, online and answering holds it. */
  lemma FetchedIff(locations: map<ChunkId, seq<Addr>>, stores: Stores, online: set<Addr>, up: set<Addr>, id: ChunkId)
    ensures FetchFrom(locations, stores, online, up)(id).Some? <==> exists a :: HeldAt(locations, stores, id, a) && a in online && a in up
  {
    FetchedIsHeld(stores, id, OnlineAddresses(locations, online, id), up);
    if FetchFrom(locations, stores, online, up)(id).Some? {
      var a :| a in OnlineAddresses(locations, online, id) && a in up && a in stores && id in stores[a];
      OnlineExact(locations[id], online, a);
      assert HeldAt(locations, stores, id, a);
    }
    if a :| HeldAt(locations, stores, id, a) && a in online && a in up {
      OnlineExact(locations[id], online, a);
      assert a in OnlineAddresses(locations, online, id);
    }
  }

  // ---------- every shard on the node decided for it ----------

  lemma {:induction false} SlotAt(sch: Scheme, data: seq<Byte>, upTo: nat, c: nat, j: nat) returns (i: nat)
    requires ValidScheme(sch) && c < upTo <= |Parts(sch, data)| && j < sch.codec.Total()
    ensures i < |Slots(sch, data, upTo)| && Slots(sch, data, upTo)[i] == Slot(c, j, ShardOf(sch, data, c, j))
  {
    if c == upTo - 1 {
      i := |Slots(sch, data, c)| + j;
      assert Slots(sch, data, upTo)[i] == ChunkSlots(sch, data, c)[j];
    } else {
      i := SlotAt(sch, data, upTo - 1, c, j);
    }
  }

  /** Every listed node is known and takes every shard. */
  ghost predicate AllTake(u: UploadLog) {
    forall n, c, j | n in u.nodes :: Takes(u.addresses, u.works, c, j, n.address)
  }

  /** The log of a complete upload of the object, with a placement of the shards of each chunk. */
  ghost predicate Uploaded(cfg: Placement.Config, sch: Scheme, data: seq<Byte>, score: Placement.Score, u: UploadLog,
                           locations: map<ChunkId, seq<Addr>>, stores: Stores)
    requires ValidScheme(sch)
  {
    && cfg.maxPerDc > 0 && cfg.maxPerRack > 0 && u.eligible && u.eligible == (Placement.Eligible(cfg, u.nodes) != [])
    && u.OnPlan(sch.hash, locations, stores) && u.slots == Slots(sch, data, |Parts(sch, data)|)
    && |u.plans| == |Parts(sch, data)| && Plans(cfg, u.nodes, sch.codec.Total(), score, u.plans)
  }

  lemma DecidedNode(cfg: Placement.Config, sch: Scheme, data: seq<Byte>, score: Placement.Score, u: UploadLog,
                    locations: map<ChunkId, seq<Addr>>, stores: Stores, c: nat, j: nat)
    requires ValidScheme(sch) && Uploaded(cfg, sch, data, score, u, locations, stores) && c < |Parts(sch, data)| && j < sch.codec.Total()
    ensures u.Planned(c, j) && u.plans[c][j].nodes[0] in Placement.Eligible(cfg, u.nodes) && u.plans[c][j].nodes[0] in u.nodes
  {
    assert Placement.PlacesChunk(cfg, u.nodes, sch.codec.Total(), score, u.plans[c]);
    Placement.EachPlacesOne(cfg, u.nodes, score, u.plans[c]);
    Placement.EligibleMembers(cfg, u.nodes, u.plans[c][j].nodes[0]);
  }

  /** If all nodes take what they are sent, shard j of every chunk is on the eligible node of decision j, and recorded there. */
  lemma StoredAsDecided(cfg: Placement.Config, sch: Scheme, data: seq<Byte>, score: Placement.Score, u: UploadLog,
                        locations: map<ChunkId, seq<Addr>>, stores: Stores, c: nat, j: nat)
    requires ValidScheme(sch) && Uploaded(cfg, sch, data, score, u, locations, stores) && AllTake(u)
    requires c < |Parts(sch, data)| && j < sch.codec.Total()
    ensures u.Planned(c, j) && u.plans[c][j].nodes[0] in Placement.Eligible(cfg, u.nodes)
    ensures HeldAt(locations, stores, sch.hash(ShardOf(sch, data, c, j)), u.Primary(c, j))
  {
    DecidedNode(cfg, sch, data, score, u, locations, stores, c, j);
    var i := SlotAt(sch, data, |Parts(sch, data)|, c, j);
    assert Takes(u.addresses, u.works, c, j, u.plans[c][j].nodes[0].address);
  }

  lemma SentAsDecided(cfg: Placement.Config, sch: Scheme, data: seq<Byte>, score: Placement.Score, u: UploadLog,
                      locations: map<ChunkId, seq<Addr>>, stores: Stores, i: nat)
    requires ValidScheme(sch) && Uploaded(cfg, sch, data, score, u, locations, stores) && AllTake(u) && i < |u.slots|
    ensures u.Planned(u.slots[i].chunk, u.slots[i].shard) && u.at[i] == Some(u.Primary(u.slots[i].chunk, u.slots[i].shard))
  {
    SlotsShape(sch, data, |Parts(sch, data)|);
    var c, j := u.slots[i].chunk, u.slots[i].shard;
    DecidedNode(cfg, sch, data, score, u, locations, stores, c, j);
    assert Takes(u.addresses, u.works, c, j, u.plans[c][j].nodes[0].address);
  }

  /** And a node holds nothing new but the shards decided for it. */
  lemma NothingElseStored(cfg: Placement.Config, sch: Scheme, data: seq<Byte>, score: Placement.Score, u: UploadLog,
                          locations: map<ChunkId, seq<Addr>>, stores: Stores, a: Addr, id: ChunkId) returns (c: nat, j: nat)
    requires ValidScheme(sch) && Uploaded(cfg, sch, data, score, u, locations, stores) && AllTake(u)
    requires a in stores && id in stores[a] && !(a in u.held && id in u.held[a])
    ensures c < |Parts(sch, data)| && j < sch.codec.Total() && id == sch.hash(ShardOf(sch, data, c, j))
    ensures u.Planned(c, j) && u.Primary(c, j) == a
  {
    assert u.SentTo(sch.hash, a, id);
    var i :| 0 <= i < |u.slots| && i < |u.at| && u.at[i] == Some(a) && sch.hash(u.slots[i].data) == id;
    SentAsDecided(cfg, sch, data, score, u, locations, stores, i);
    SlotsShape(sch, data, |Parts(sch, data)|);
    c, j := u.slots[i].chunk, u.slots[i].shard;
  }

  // ---------- losing nodes ----------

  /** The shards of chunk c that reached no node or one that is lost. */
  function LostOf(slots: seq<Slot>, at: seq<Option<Addr>>, lost: set<Addr>, c: nat): nat
    requires |slots| == |at|
  {
    if slots == [] then 0
    else
      var n := |slots| - 1;
      LostOf(slots[..n], at[..n], lost, c) + (if slots[n].chunk == c && (at[n].None? || at[n].value in lost) then 1 else 0)
  }

  lemma {:induction false} KeptRecoverable(hash: Hash, slots: seq<Slot>, ok: seq<bool>, at: seq<Option<Addr>>, fetch: Fetch, lost: set<Addr>, c: nat)
    requires |slots| == |ok| == |at| && forall i | 0 <= i < |slots| :: ok[i] == at[i].Some?
    requires forall i | 0 <= i < |slots| && at[i].Some? && at[i].value !in lost :: fetch(hash(slots[i].data)).Some?
    ensures Recoverable(hash, Stored(slots, ok), fetch, c) + LostOf(slots, at, lost, c) >= OfChunkCount(slots, c)
  {
    if slots != [] {
      var n := |slots| - 1;
      KeptRecoverable(hash, slots[..n], ok[..n], at[..n], fetch, lost, c);
      var before := Stored(slots[..n], ok[..n]);
      assert (before + [slots[n]])[..|before|] == before && before + [] == before;
    }
  }

  /** All nodes but the lost ones are listed and answer. */
  ghost predicate Remaining(stores: Stores, lost: set<Addr>, online: set<Addr>, up: set<Addr>) {
    stores.Keys - lost <= online && stores.Keys - lost <= up
  }

  lemma KeptFetched(hash: Hash, u: UploadLog, locations: map<ChunkId, seq<Addr>>, stores: Stores, lost: set<Addr>, online: set<Addr>,
                    up: set<Addr>, i: nat)
    requires u.OnPlan(hash, locations, stores) && Remaining(stores, lost, online, up)
    requires i < |u.slots| && u.at[i].Some? && u.at[i].value !in lost
    ensures FetchFrom(locations, stores, online, up)(hash(u.slots[i].data)).Some?
  {
    FetchedIff(locations, stores, online, up, hash(u.slots[i].data));
    assert HeldAt(locations, stores, hash(u.slots[i].data), u.at[i].value);
  }

  lemma ReadableAfterLoss(sch: Scheme, data: seq<Byte>, u: UploadLog, locations: map<ChunkId, seq<Addr>>, stores: Stores, lost: set<Addr>,
                          online: set<Addr>, up: set<Addr>)
    requires ValidScheme(sch) && u.OnPlan(sch.hash, locations, stores) && u.slots == Slots(sch, data, |Parts(sch, data)|)
    requires Remaining(stores, lost, online, up) && forall c | 0 <= c < |Parts(sch, data)| :: LostOf(u.slots, u.at, lost, c) <= sch.codec.m
    ensures Readable(sch, data, Stored(u.slots, u.ok), FetchFrom(locations, stores, online, up))
  {
    var fetch := FetchFrom(locations, stores, online, up);
    forall c | 0 <= c < |Parts(sch, data)| ensures Recoverable(sch.hash, Stored(u.slots, u.ok), fetch, c) >= sch.codec.k {
      SlotsPerChunk(sch, data, |Parts(sch, data)|, c);
      forall i | 0 <= i < |u.slots| && u.at[i].Some? && u.at[i].value !in lost ensures fetch(sch.hash(u.slots[i].data)).Some? {
        KeptFetched(sch.hash, u, locations, stores, lost, online, up, i);
      }
      KeptRecoverable(sch.hash, u.slots, u.ok, u.at, fetch, lost, c);
    }
  }

  /**
    An uploaded object whose shards have ids of their own is still read back after any nodes are lost, as long as each
    chunk has at most m shards that were not stored or were stored on a lost node.
  */
  lemma SurvivesLosses(sch: Scheme, data: seq<Byte>, file: FileRecord, u: UploadLog, rows: seq<ChunkRow>,
                       locations: map<ChunkId, seq<Addr>>, stores: Stores, lost: set<Addr>, online: set<Addr>, up: set<Addr>)
    requires ValidScheme(sch) && ValidFile(sch, file) && file.sizeBytes == |data| > 0
    requires u.Describes(sch.hash, file.id, rows, locations, stores) && u.OnPlan(sch.hash, locations, stores)
    requires u.slots == Slots(sch, data, |Parts(sch, data)|) && Numbered(u.before, file.id)
    requires Addressed(sch.hash, stores) && NoCollisions(sch, data, stores) && DistinctIds(sch.hash, TakenIds(u.before), u.slots)
    requires Remaining(stores, lost, online, up) && forall c | 0 <= c < |Parts(sch, data)| :: LostOf(u.slots, u.at, lost, c) <= sch.codec.m
    ensures ReadObject(sch, file, RowsOfFile(rows, file.id), FetchFrom(locations, stores, online, up)) == Ok(data)
  {
    ReadableAfterLoss(sch, data, u, locations, stores, lost, online, up);
    DistinctAllRegistered(sch.hash, TakenIds(u.before), u.slots, u.ok);
    UploadRows(sch, file.id, u, rows, locations, stores);
    PutThenGet(sch, data, file, u, rows, locations, stores, online, up);
  }

  // ---------- in terms of the decisions ----------

  /** How many of the first n shards are decided for lost nodes. */
  ghost function DecidedFor(u: UploadLog, c: nat, n: nat, lost: set<Addr>): nat {
    if n == 0 then 0 else DecidedFor(u, c, n - 1, lost) + (if u.Planned(c, n - 1) && u.Primary(c, n - 1) in lost then 1 else 0)
  }

  lemma {:induction false} LostAppend(a: seq<Slot>, b: seq<Slot>, at: seq<Option<Addr>>, lost: set<Addr>, c: nat)
    requires |a| + |b| == |at|
    ensures LostOf(a + b, at, lost, c) == LostOf(a, at[..|a|], lost, c) + LostOf(b, at[|a|..], lost, c)
    decreases |b|
  {
    if b == [] {
      assert a + b == a && at[..|a|] == at;
    } else {
      var n := |b| - 1;
      assert (a + b)[..|a| + n] == a + b[..n] && at[..|a| + n][..|a|] == at[..|a|] && at[..|a| + n][|a|..] == at[|a|..][..n];
      LostAppend(a, b[..n], at[..|a| + n], lost, c);
    }
  }

  /** Every shard of the list went to the node decided for it. */
  ghost predicate AsDecided(u: UploadLog, slots: seq<Slot>, at: seq<Option<Addr>>) {
    |slots| == |at| && forall i | 0 <= i < |slots| ::
      u.Planned(slots[i].chunk, slots[i].shard) && at[i] == Some(u.Primary(slots[i].chunk, slots[i].shard))
  }

  lemma {:induction false} LostOfChunk(u: UploadLog, slots: seq<Slot>, at: seq<Option<Addr>>, lost: set<Addr>, d: nat, c: nat)
    requires AsDecided(u, slots, at) && forall i | 0 <= i < |slots| :: slots[i].chunk == d && slots[i].shard == i
    ensures LostOf(slots, at, lost, c) == if c == d then DecidedFor(u, d, |slots|, lost) else 0
  {
    if slots != [] { LostOfChunk(u, slots[..|slots| - 1], at[..|slots| - 1], lost, d, c); }
  }

  lemma {:induction false} LostIsDecided(sch: Scheme, data: seq<Byte>, u: UploadLog, at: seq<Option<Addr>>, lost: set<Addr>, upTo: nat, c: nat)
    requires ValidScheme(sch) && upTo <= |Parts(sch, data)| && AsDecided(u, Slots(sch, data, upTo), at)
    ensures LostOf(Slots(sch, data, upTo), at, lost, c) == if c < upTo then DecidedFor(u, c, sch.codec.Total(), lost) else 0
  {
    if upTo > 0 {
      var front, last := Slots(sch, data, upTo - 1), ChunkSlots(sch, data, upTo - 1);
      assert Slots(sch, data, upTo) == front + last;
      LostNext(u, front, last, at, lost, upTo - 1, c);
      LostIsDecided(sch, data, u, at[..|front|], lost, upTo - 1, c);
    }
  }

  lemma LostNext(u: UploadLog, front: seq<Slot>, last: seq<Slot>, at: seq<Option<Addr>>, lost: set<Addr>, d: nat, c: nat)
    requires AsDecided(u, front + last, at) && forall i | 0 <= i < |last| :: last[i].chunk == d && last[i].shard == i
    ensures AsDecided(u, front, at[..|front|])
    ensures LostOf(front + last, at, lost, c)
         == LostOf(front, at[..|front|], lost, c) + (if c == d then DecidedFor(u, d, |last|, lost) else 0)
  {
    DecidedParts(u, front, last, at);
    LostAppend(front, last, at, lost, c);
    LostOfChunk(u, last, at[|front|..], lost, d, c);
  }

  lemma DecidedParts(u: UploadLog, front: seq<Slot>, last: seq<Slot>, at: seq<Option<Addr>>)
    requires AsDecided(u, front + last, at)
    ensures AsDecided(u, front, at[..|front|]) && AsDecided(u, last, at[|front|..])
  {
    forall i | 0 <= i < |front| ensures u.Planned(front[i].chunk, front[i].shard) && at[i] == Some(u.Primary(front[i].chunk, front[i].shard)) {
      assert (front + last)[i] == front[i];
    }
    forall i | 0 <= i < |last|
      ensures u.Planned(last[i].chunk, last[i].shard) && at[|front| + i] == Some(u.Primary(last[i].chunk, last[i].shard))
    {
      assert (front + last)[|front| + i] == last[i];
    }
  }

  /**
    If all nodes took what they were sent, the object is still read back after losing any nodes that were decided for at
    most m shards of each chunk.
  */
  lemma SurvivesDecidedLosses(cfg: Placement.Config, sch: Scheme, data: seq<Byte>, score: Placement.Score, file: FileRecord, u: UploadLog,
                              rows: seq<ChunkRow>, locations: map<ChunkId, seq<Addr>>, stores: Stores, lost: set<Addr>, online: set<Addr>, up: set<Addr>)
    requires ValidScheme(sch) && ValidFile(sch, file) && file.sizeBytes == |data| > 0
    requires u.Describes(sch.hash, file.id, rows, locations, stores) && Uploaded(cfg, sch, data, score, u, locations, stores) && AllTake(u)
    requires Numbered(u.before, file.id) && Addressed(sch.hash, stores) && NoCollisions(sch, data, stores)
    requires DistinctIds(sch.hash, TakenIds(u.before), u.slots) && Remaining(stores, lost, online, up)
    requires forall c | 0 <= c < |Parts(sch, data)| :: DecidedFor(u, c, sch.codec.Total(), lost) <= sch.codec.m
    ensures ReadObject(sch, file, RowsOfFile(rows, file.id), FetchFrom(locations, stores, online, up)) == Ok(data)
  {
    forall i | 0 <= i < |u.slots|
      ensures u.Planned(u.slots[i].chunk, u.slots[i].shard) && u.at[i] == Some(u.Primary(u.slots[i].chunk, u.slots[i].shard))
    {
      SentAsDecided(cfg, sch, data, score, u, locations, stores, i);
    }
    forall c | 0 <= c < |Parts(sch, data)| ensures LostOf(u.slots, u.at, lost, c) <= sch.codec.m {
      LostIsDecided(sch, data, u, u.at, lost, |Parts(sch, data)|, c);
    }
    SurvivesLosses(sch, data, file, u, rows, locations, stores, lost, online, up);
  }
}
