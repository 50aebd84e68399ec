/**
  The content-addressed chunk stores of all nodes: the gRPC handlers that store and delete chunks
  (cyxcloud-network/src/grpc_server.rs) and the commands that repair, delete and transfer them
  (cyxcloud-node/src/command_executor.rs).

  A step carries what the outside world decides: which nodes answer, and whether the node's own
  disk accepts a write or a read.
*/
module Cluster {
  import opened Wrappers
  import opened Bytes
  import opened Histories

  type Addr = string
  type ChunkId = seq<Byte>
  type Store = map<ChunkId, seq<Byte>>
  type Stores = map<Addr, Store>
  type Hash = seq<Byte> -> ChunkId

  const ID_LENGTH: nat := 32

  datatype Status = InvalidId | EmptyData | HashMismatch | DiskError | NotFound | FetchFailed | Unreachable

  // ---------- steps as functions ----------

  predicate Accepts(hash: Hash, s: Stores, node: Addr, id: ChunkId, data: seq<Byte>, diskOk: bool) {
    node in s && |id| == ID_LENGTH && data != [] && hash(data) == id && diskOk
  }

  function Put(s: Stores, node: Addr, id: ChunkId, data: seq<Byte>): Stores
    requires node in s
  {
    s[node := s[node][id := data]]
  }

  /** The handler that stores a chunk: it re-hashes the data. */
  function StoreChunk(hash: Hash, s: Stores, node: Addr, id: ChunkId, data: seq<Byte>, diskOk: bool): Stores {
    if Accepts(hash, s, node, id, data, diskOk) then Put(s, node, id, data) else s
  }

  function DeleteChunk(s: Stores, node: Addr, id: ChunkId, diskOk: bool): Stores {
    if node in s && |id| == ID_LENGTH && diskOk then s[node := s[node] - {id}] else s
  }

  /** What an integrity check says of a chunk: whether its bytes are there and hash to the id, and how many there are. */
  function Verified(hash: Hash, store: Store, id: ChunkId): (bool, nat) {
    if id in store then (hash(store[id]) == id, |store[id]|) else (false, 0)
  }

  /** The bytes returned by the first source, in order, that answers and holds the chunk. */
  function Fetched(s: Stores, id: ChunkId, sources: seq<Addr>, up: set<Addr>): Option<seq<Byte>> {
    if sources == [] then None
    else if sources[0] in up && sources[0] in s && id in s[sources[0]] then Some(s[sources[0]][id])
    else Fetched(s, id, sources[1..], up)
  }

  /** Whether a repair command gets as far as writing, and what it writes: the data is not re-hashed. */
  function Repaired(s: Stores, node: Addr, id: ChunkId, sources: seq<Addr>, up: set<Addr>, existsOk: bool, diskOk: bool)
    : Option<seq<Byte>>
  {
    if node !in s || |id| != ID_LENGTH || (existsOk && id in s[node]) || !diskOk then None
    else Fetched(s, id, sources, up)
  }

  function RepairChunk(s: Stores, node: Addr, id: ChunkId, sources: seq<Addr>, up: set<Addr>, existsOk: bool, diskOk: bool)
    : Stores
  {
    match Repaired(s, node, id, sources, up, existsOk, diskOk)
    case None => s
    case Some(data) => Put(s, node, id, data)
  }

  function TransferChunk(hash: Hash, s: Stores, node: Addr, id: ChunkId, target: Addr, up: set<Addr>, readOk: bool, diskOk: bool)
    : Stores
  {
    if node in s && |id| == ID_LENGTH && readOk && id in s[node] && target in up
    then StoreChunk(hash, s, target, id, s[node][id], diskOk) else s
  }

  datatype Step =
    | Store(node: Addr, id: ChunkId, data: seq<Byte>, diskOk: bool)
    | Delete(node: Addr, id: ChunkId, diskOk: bool)
    | Repair(node: Addr, id: ChunkId, sources: seq<Addr>, up: set<Addr>, existsOk: bool, diskOk: bool)
    | Transfer(node: Addr, id: ChunkId, target: Addr, up: set<Addr>, readOk: bool, diskOk: bool)

  function Apply(hash: Hash, s: Stores, step: Step): Stores {
    match step
    case Store(node, id, data, diskOk) => StoreChunk(hash, s, node, id, data, diskOk)
    case Delete(node, id, diskOk) => DeleteChunk(s, node, id, diskOk)
    case Repair(node, id, sources, up, existsOk, diskOk) => RepairChunk(s, node, id, sources, up, existsOk, diskOk)
    case Transfer(node, id, target, up, readOk, diskOk) => TransferChunk(hash, s, node, id, target, up, readOk, diskOk)
  }

  function Run(hash: Hash, s: Stores, steps: seq<Step>): Stores {
    if steps == [] then s else Apply(hash, Run(hash, s, steps[..|steps| - 1]), steps[|steps| - 1])
  }

  // ---------- the handlers and commands ----------

  class Nodes {
    const hash: Hash
    var stores: Stores

    constructor (hash: Hash, addresses: set<Addr>)
      ensures this.hash == hash && stores == map a | a in addresses :: map[]
    {
      this.hash := hash;
      stores := map a | a in addresses :: map[];
    }

    method HandleStore(node: Addr, id: ChunkId, data: seq<Byte>, diskOk: bool) returns (r: Result<(), Status>)
      requires node in stores
      modifies this
      ensures stores == StoreChunk(hash, old(stores), node, id, data, diskOk)
      ensures r.Ok? <==> Accepts(hash, old(stores), node, id, data, diskOk)
      ensures r.Err? ==> match r.error
                         case InvalidId => |id| != ID_LENGTH
                         case EmptyData => |id| == ID_LENGTH && data == []
                         case HashMismatch => |id| == ID_LENGTH && data != [] && hash(data) != id
                         case DiskError => |id| == ID_LENGTH && data != [] && hash(data) == id && !diskOk
                         case _ => false
    {
      if |id| != ID_LENGTH { return Err(InvalidId); }
      if data == [] { return Err(EmptyData); }
      if hash(data) != id { return Err(HashMismatch); }
      if !diskOk { return Err(DiskError); }
      stores := stores[node := stores[node][id := data]];
      r := Ok(());
    }

    /** The caller gets the bytes exactly if the node holds the chunk, and bytes that hash to the id it asked for. */
    method HandleGet(node: Addr, id: ChunkId, readOk: bool) returns (r: Result<Option<seq<Byte>>, Status>)
      requires node in stores
      ensures r.Err? <==> |id| != ID_LENGTH || !readOk
      ensures r.Ok? ==> (r.value.Some? <==> node in Holders(stores, id))
      ensures r.Ok? && r.value.Some? ==> Holds(stores, node, id, r.value.value)
      ensures r.Ok? && r.value.Some? && Addressed(hash, stores) ==> hash(r.value.value) == id && r.value.value != []
    {
      if |id| != ID_LENGTH { return Err(InvalidId); }
      if !readOk { return Err(DiskError); }
      r := Ok(if id in stores[node] then Some(stores[node][id]) else None);
    }

    /** Integrity check: recompute the hash of what is stored. */
    method HandleVerify(node: Addr, id: ChunkId, readOk: bool) returns (r: Result<(bool, nat), Status>)
      requires node in stores
      ensures r.Err? <==> |id| != ID_LENGTH || !readOk
      ensures r.Ok? ==> r.value == Verified(hash, stores[node], id)
      ensures r.Ok? && Addressed(hash, stores) ==> (r.value.0 <==> node in Holders(stores, id)) && (r.value.0 <==> r.value.1 > 0)
    {
      if |id| != ID_LENGTH { return Err(InvalidId); }
      if !readOk { return Err(DiskError); }
      if id in stores[node] {
        var data := stores[node][id];
        r := Ok((hash(data) == id, |data|));
      } else {
        r := Ok((false, 0));
      }
    }

    method HandleDelete(node: Addr, id: ChunkId, diskOk: bool) returns (r: Result<bool, Status>)
      requires node in stores
      modifies this
      ensures stores == DeleteChunk(old(stores), node, id, diskOk)
      ensures r.Ok? <==> |id| == ID_LENGTH && diskOk
      ensures r.Err? ==> stores == old(stores)
      ensures r.Ok? ==> r.value == (node in Holders(old(stores), id)) && Holders(stores, id) == Holders(old(stores), id) - {node}
      ensures SameBut(old(stores), stores, node, id)
    {
      if |id| != ID_LENGTH { return Err(InvalidId); }
      if !diskOk { return Err(DiskError); }
      var existed := id in stores[node];
      stores := stores[node := stores[node] - {id}];
      r := Ok(existed);
    }

    method FetchFromSources(id: ChunkId, sources: seq<Addr>, up: set<Addr>) returns (r: Result<seq<Byte>, Status>)
      requires |id| == ID_LENGTH
      ensures r == match Fetched(stores, id, sources, up) case Some(data) => Ok(data) case None => Err(FetchFailed)
    {
      if sources == [] { return Err(FetchFailed); }
      for i := 0 to |sources|
        invariant Fetched(stores, id, sources, up) == Fetched(stores, id, sources[i..], up)
      {
        var source := sources[i];
        assert sources[i..][1..] == sources[i + 1..];
        if source in up && source in stores {
          var got := HandleGet(source, id, true);
          if got.Ok? && got.value.Some? { return Ok(got.value.value); }
        }
      }
      r := Err(FetchFailed);
    }

    method ExecuteRepair(node: Addr, id: ChunkId, sources: seq<Addr>, up: set<Addr>, existsOk: bool, diskOk: bool)
      returns (r: Result<(), Status>)
      requires node in stores
      modifies this
      ensures stores == RepairChunk(old(stores), node, id, sources, up, existsOk, diskOk)
      ensures r.Ok? ==> id in stores[node]
      ensures r.Ok? <==> |id| == ID_LENGTH && ((existsOk && id in old(stores[node]))
                           || (diskOk && Fetched(old(stores), id, sources, up).Some?))
    {
      if |id| != ID_LENGTH { return Err(InvalidId); }
      if existsOk && id in stores[node] { return Ok(()); }
      var fetched := FetchFromSources(id, sources, up);
      if fetched.Err? { return Err(fetched.error); }
      if !diskOk { return Err(DiskError); }
      stores := stores[node := stores[node][id := fetched.value]];
      r := Ok(());
    }

    method ExecuteTransfer(node: Addr, id: ChunkId, target: Addr, up: set<Addr>, readOk: bool, diskOk: bool)
      returns (r: Result<(), Status>)
      requires node in stores
      modifies this
      ensures stores == TransferChunk(hash, old(stores), node, id, target, up, readOk, diskOk)
      ensures r.Ok? <==> readOk && id in old(stores[node]) && target in up
                         && Accepts(hash, old(stores), target, id, old(stores)[node][id], diskOk)
    {
      if |id| != ID_LENGTH { return Err(InvalidId); }
      if !readOk { return Err(DiskError); }
      if id !in stores[node] { return Err(NotFound); }
      if target !in up || target !in stores { return Err(Unreachable); }
      r := HandleStore(target, id, stores[node][id], diskOk);
    }
  }

  // ---------- what every run keeps ----------

  /** Every stored entry is non-empty and its key is its hash. */
  ghost predicate Addressed(hash: Hash, s: Stores) {
    forall n, id | n in s && id in s[n] :: hash(s[n][id]) == id && |id| == ID_LENGTH && s[n][id] != []
  }

  lemma {:induction false} FetchedIsHeld(s: Stores, id: ChunkId, sources: seq<Addr>, up: set<Addr>)
    ensures var r := Fetched(s, id, sources, up);
            r.Some? ==> exists n :: n in sources && n in up && n in s && id in s[n] && s[n][id] == r.value
    ensures Fetched(s, id, sources, up).None? <==> forall n | n in sources && n in up && n in s :: id !in s[n]
  {
    if sources != [] { FetchedIsHeld(s, id, sources[1..], up); }
  }

  lemma ApplyAddressed(hash: Hash, s: Stores, step: Step)
    requires Addressed(hash, s)
    ensures Addressed(hash, Apply(hash, s, step))
  {
    if step.Repair? { FetchedIsHeld(s, step.id, step.sources, step.up); }
  }

  /** Over every run the stores stay content-addressed, although repair never re-hashes what it fetched. */
  lemma {:induction false} RunAddressed(hash: Hash, s: Stores, steps: seq<Step>)
    requires Addressed(hash, s)
    ensures Addressed(hash, Run(hash, s, steps))
  {
    if steps != [] {
      RunAddressed(hash, s, steps[..|steps| - 1]);
      ApplyAddressed(hash, Run(hash, s, steps[..|steps| - 1]), steps[|steps| - 1]);
    }
  }

  /** After any run an integrity check passes exactly on the nodes that hold the chunk, with the size of the bytes held. */
  lemma RunVerified(hash: Hash, s: Stores, steps: seq<Step>, n: Addr, id: ChunkId)
    requires Addressed(hash, s) && n in Run(hash, s, steps)
    ensures var t := Run(hash, s, steps); var (valid, size) := Verified(hash, t[n], id);
            && (valid <==> n in Holders(t, id)) && (valid <==> size > 0)
            && (valid ==> Holds(t, n, id, t[n][id]) && size == |t[n][id]|)
  {
    RunAddressed(hash, s, steps);
  }

  // ---------- where stored data comes from ----------

  /** The data a run was asked to store. */
  ghost predicate Submitted(steps: seq<Step>, data: seq<Byte>) {
    exists i :: 0 <= i < |steps| && steps[i].Store? && steps[i].data == data
  }

  ghost predicate Holds(s: Stores, n: Addr, id: ChunkId, data: seq<Byte>) {
    n in s && id in s[n] && s[n][id] == data
  }

  ghost predicate Contains(s: Stores, data: seq<Byte>) {
    exists n, id :: Holds(s, n, id, data)
  }

  lemma ApplyProvenance(hash: Hash, s: Stores, step: Step, data: seq<Byte>)
    requires Contains(Apply(hash, s, step), data)
    ensures Contains(s, data) || (step.Store? && step.data == data)
  {
    var t := Apply(hash, s, step);
    var n, id :| Holds(t, n, id, data);
    if Holds(s, n, id, data) {
    } else if step.Repair? {
      FetchedIsHeld(s, step.id, step.sources, step.up);
      var m :| m in s && step.id in s[m] && s[m][step.id] == data;
      assert Holds(s, m, step.id, data);
    } else if step.Transfer? {
      assert Holds(s, step.node, step.id, data);
    }
  }

  lemma {:induction false} RunProvenance(hash: Hash, s: Stores, steps: seq<Step>, data: seq<Byte>)
    requires Contains(Run(hash, s, steps), data)
    ensures Contains(s, data) || Submitted(steps, data)
  {
    if steps != [] {
      var m := |steps| - 1;
      ApplyProvenance(hash, Run(hash, s, steps[..m]), steps[m], data);
      if Contains(Run(hash, s, steps[..m]), data) {
        RunProvenance(hash, s, steps[..m], data);
        if Submitted(steps[..m], data) {
          var i :| 0 <= i < m && steps[..m][i].Store? && steps[..m][i].data == data;
          assert steps[i].data == data;
        }
      } else {
        assert steps[m].data == data;
      }
    }
  }

  /** The hash has no collision among the data initially stored or submitted. */
  ghost predicate CollisionFree(hash: Hash, s: Stores, steps: seq<Step>) {
    forall x, y | (Contains(s, x) || Submitted(steps, x)) && (Contains(s, y) || Submitted(steps, y)) ::
      hash(x) == hash(y) ==> x == y
  }

  /**
    At any two moments of a run, any two nodes that hold a chunk hold the same bytes for it.
  */
  lemma HoldersAgree(hash: Hash, s: Stores, steps: seq<Step>, i: nat, j: nat, n: Addr, m: Addr, id: ChunkId)
    requires Addressed(hash, s) && CollisionFree(hash, s, steps) && i <= |steps| && j <= |steps|
    requires var a, b := Run(hash, s, steps[..i]), Run(hash, s, steps[..j]);
             n in a && id in a[n] && m in b && id in b[m]
    ensures Run(hash, s, steps[..i])[n][id] == Run(hash, s, steps[..j])[m][id]
  {
    HeldIsKnown(hash, s, steps, i, n, id);
    HeldIsKnown(hash, s, steps, j, m, id);
  }

  lemma HeldIsKnown(hash: Hash, s: Stores, steps: seq<Step>, i: nat, n: Addr, id: ChunkId)
    requires Addressed(hash, s) && i <= |steps|
    requires var a := Run(hash, s, steps[..i]); n in a && id in a[n]
    ensures var x := Run(hash, s, steps[..i])[n][id]; hash(x) == id && (Contains(s, x) || Submitted(steps, x))
  {
    var a := Run(hash, s, steps[..i]);
    RunAddressed(hash, s, steps[..i]);
    assert Holds(a, n, id, a[n][id]);
    RunProvenance(hash, s, steps[..i], a[n][id]);
    if Submitted(steps[..i], a[n][id]) {
      var k :| 0 <= k < i && steps[..i][k].Store? && steps[..i][k].data == a[n][id];
      assert steps[k].data == a[n][id];
    }
  }

  /** Fetching a chunk from any sources, with any nodes answering, gives the bytes that any holder has. */
  lemma FetchAgrees(hash: Hash, s: Stores, steps: seq<Step>, id: ChunkId, sources: seq<Addr>, up: set<Addr>, m: Addr)
    requires Addressed(hash, s) && CollisionFree(hash, s, steps)
    requires var t := Run(hash, s, steps); m in t && id in t[m]
    ensures var t := Run(hash, s, steps); Fetched(t, id, sources, up) in {None, Some(t[m][id])}
    ensures var t := Run(hash, s, steps); m in sources && m in up ==> Fetched(t, id, sources, up) == Some(t[m][id])
  {
    var t := Run(hash, s, steps);
    FetchedIsHeld(t, id, sources, up);
    if Fetched(t, id, sources, up).Some? {
      var n :| n in t && id in t[n] && t[n][id] == Fetched(t, id, sources, up).value;
      assert steps[..|steps|] == steps;
      HoldersAgree(hash, s, steps, |steps|, |steps|, n, m, id);
    }
  }

  // ---------- holders are only lost by deletion ----------

  ghost function Holders(s: Stores, id: ChunkId): set<Addr> {
    set n | n in s && id in s[n]
  }

  /** Every entry but one is the same. */
  ghost predicate SameBut(s: Stores, t: Stores, node: Addr, id: ChunkId) {
    t.Keys == s.Keys && forall n, i, data | n != node || i != id :: Holds(t, n, i, data) <==> Holds(s, n, i, data)
  }

  /** The node and chunk a step may write or delete. */
  function Touched(step: Step): Addr {
    if step.Transfer? then step.target else step.node
  }

  /** A step changes no entry but one. */
  lemma ApplyTouches(hash: Hash, s: Stores, step: Step)
    ensures SameBut(s, Apply(hash, s, step), Touched(step), step.id)
  {}

  /** The step deletes chunk id on node n. */
  ghost predicate Deletes(step: Step, n: Addr, id: ChunkId) {
    step.Delete? && step.node == n && step.id == id && |id| == ID_LENGTH && step.diskOk
  }

  /** A source that answers holds the chunk. */
  ghost predicate Offered(s: Stores, step: Step)
    requires step.Repair?
  {
    exists m :: m in step.sources && m in step.up && m in s && step.id in s[m]
  }

  /** The step writes chunk id on node n: a store with the right hash, a repair of a missing chunk, or a transfer. */
  ghost predicate Writes(hash: Hash, s: Stores, step: Step, n: Addr, id: ChunkId) {
    && n in s && step.id == id && |id| == ID_LENGTH && step.diskOk
    && match step
       case Store(node, _, data, _) => node == n && data != [] && hash(data) == id
       case Delete(_, _, _) => false
       case Repair(node, _, _, _, existsOk, _) => node == n && !(existsOk && id in s[n]) && Offered(s, step)
       case Transfer(node, _, target, up, readOk, _) =>
         target == n && n in up && readOk && node in s && id in s[node] && s[node][id] != [] && hash(s[node][id]) == id
  }

  /** After a step a node holds a chunk exactly if the step writes it there, or it was there and the step does not delete it. */
  lemma HeldStep(hash: Hash, s: Stores, step: Step, n: Addr, id: ChunkId)
    requires n in s
    ensures n in Holders(Apply(hash, s, step), id) <==> Writes(hash, s, step, n, id) || (n in Holders(s, id) && !Deletes(step, n, id))
    ensures Deletes(step, n, id) ==> Holders(Apply(hash, s, step), id) == Holders(s, id) - {n}
  {
    if step.Repair? { FetchedIsHeld(s, step.id, step.sources, step.up); }
  }

  lemma {:induction false} RunNodes(hash: Hash, s: Stores, steps: seq<Step>)
    ensures Run(hash, s, steps).Keys == s.Keys
  {
    if steps != [] { RunNodes(hash, s, steps[..|steps| - 1]); }
  }

  /** Step i of the run writes the chunk on the node, or deletes it there. */
  ghost function WritesAt(hash: Hash, s: Stores, steps: seq<Step>, n: Addr, id: ChunkId): nat -> bool {
    (i: nat) => i < |steps| && Writes(hash, Run(hash, s, steps[..i]), steps[i], n, id)
  }

  ghost function DeletesAt(steps: seq<Step>, n: Addr, id: ChunkId): nat -> bool {
    (i: nat) => i < |steps| && Deletes(steps[i], n, id)
  }

  /** Some step writes the chunk on the node, and none behind it deletes it. */
  ghost predicate Written(hash: Hash, s: Stores, steps: seq<Step>, n: Addr, id: ChunkId) {
    Latest(WritesAt(hash, s, steps, n, id), DeletesAt(steps, n, id), |steps|)
  }

  lemma {:induction false} HeldUpTo(hash: Hash, s: Stores, steps: seq<Step>, k: nat, n: Addr, id: ChunkId)
    requires n in s && k <= |steps|
    ensures n in Holders(Run(hash, s, steps[..k]), id)
            <==> Latest(WritesAt(hash, s, steps, n, id), DeletesAt(steps, n, id), k)
                 || (n in Holders(s, id) && Undeleted(steps, k, n, id))
  {
    if k > 0 {
      HeldUpTo(hash, s, steps, k - 1, n, id);
      HeldNext(hash, s, steps, k - 1, n, id);
      LatestNext(WritesAt(hash, s, steps, n, id), DeletesAt(steps, n, id), k - 1);
      UndeletedNext(steps, k - 1, n, id);
    }
  }

  ghost predicate Undeleted(steps: seq<Step>, k: nat, n: Addr, id: ChunkId)
    requires k <= |steps|
  {
    forall j | 0 <= j < k :: !Deletes(steps[j], n, id)
  }

  lemma UndeletedNext(steps: seq<Step>, k: nat, n: Addr, id: ChunkId)
    requires k < |steps|
    ensures Undeleted(steps, k + 1, n, id) <==> Undeleted(steps, k, n, id) && !DeletesAt(steps, n, id)(k)
  {}

  lemma HeldNext(hash: Hash, s: Stores, steps: seq<Step>, k: nat, n: Addr, id: ChunkId)
    requires n in s && k < |steps|
    ensures n in Holders(Run(hash, s, steps[..k + 1]), id)
            <==> WritesAt(hash, s, steps, n, id)(k) || (n in Holders(Run(hash, s, steps[..k]), id) && !DeletesAt(steps, n, id)(k))
  {
    RunNodes(hash, s, steps[..k]);
    HeldStep(hash, Run(hash, s, steps[..k]), steps[k], n, id);
    assert steps[..k + 1][..k] == steps[..k];
  }

  /**
    After any run a node holds a chunk if and only if a step wrote it there, or it was there at the start, and no step
    deleted it since.
  */
  lemma HeldIff(hash: Hash, s: Stores, steps: seq<Step>, n: Addr, id: ChunkId)
    requires n in s
    ensures n in Holders(Run(hash, s, steps), id)
            <==> Written(hash, s, steps, n, id) || (n in Holders(s, id) && forall j | 0 <= j < |steps| :: !Deletes(steps[j], n, id))
  {
    HeldUpTo(hash, s, steps, |steps|, n, id);
    assert steps[..|steps|] == steps;
  }

  /** After a delete the node holds the chunk again if and only if a later step wrote it there and none deleted it since. */
  lemma DeletedUntilWritten(hash: Hash, s: Stores, delete: Step, steps: seq<Step>, n: Addr, id: ChunkId)
    requires n in s && Deletes(delete, n, id)
    ensures n in Holders(Run(hash, Apply(hash, s, delete), steps), id) <==> Written(hash, Apply(hash, s, delete), steps, n, id)
  {
    HeldStep(hash, s, delete, n, id);
    HeldIff(hash, Apply(hash, s, delete), steps, n, id);
  }

  /** Repair adds the node exactly when it wrote the chunk; transfer adds at most the target. */
  lemma RepairHolders(hash: Hash, s: Stores, step: Step, id: ChunkId)
    requires step.Repair? || step.Transfer?
    ensures Holders(Apply(hash, s, step), id) >= Holders(s, id)
    ensures (step.Repair? && id == step.id
             && Repaired(s, step.node, id, step.sources, step.up, step.existsOk, step.diskOk).Some?)
            ==> Holders(Apply(hash, s, step), id) == Holders(s, id) + {step.node}
    ensures step.Transfer? ==> Holders(Apply(hash, s, step), id) <= Holders(s, id) + {step.target}
  {}

  /** A transfer between content-addressed stores succeeds whenever both ends work: the hash always matches. */
  lemma TransferDelivers(hash: Hash, s: Stores, step: Step)
    requires Addressed(hash, s) && step.Transfer? && |step.id| == ID_LENGTH && step.readOk && step.diskOk
    requires step.node in s && step.id in s[step.node] && step.target in s && step.target in step.up
    ensures Holders(Apply(hash, s, step), step.id) == Holders(s, step.id) + {step.target}
    ensures Apply(hash, s, step)[step.target][step.id] == s[step.node][step.id]
  {}

  /** A chunk stays on a node, with the same bytes, until a delete step names that node and chunk. */
  lemma {:induction false} KeptUntilDeleted(hash: Hash, s: Stores, steps: seq<Step>, n: Addr, id: ChunkId)
    requires Addressed(hash, s) && CollisionFree(hash, s, steps) && n in s && id in s[n]
    requires forall i | 0 <= i < |steps| :: !(steps[i].Delete? && steps[i].node == n && steps[i].id == id)
    ensures n in Run(hash, s, steps) && id in Run(hash, s, steps)[n] && Run(hash, s, steps)[n][id] == s[n][id]
  {
    StillHeld(hash, s, steps, n, id);
    assert steps[..0] == [] && steps[..|steps|] == steps;
    HoldersAgree(hash, s, steps, 0, |steps|, n, n, id);
  }

  /** Store, then anything but a delete of that chunk on that node, then get: the node still returns the bytes stored. */
  lemma StoreThenGet(hash: Hash, s: Stores, store: Step, steps: seq<Step>)
    requires Addressed(hash, s) && store.Store? && Accepts(hash, s, store.node, store.id, store.data, store.diskOk)
    requires CollisionFree(hash, Apply(hash, s, store), steps)
    requires forall i | 0 <= i < |steps| :: !(steps[i].Delete? && steps[i].node == store.node && steps[i].id == store.id)
    ensures Holds(Run(hash, Apply(hash, s, store), steps), store.node, store.id, store.data)
  {
    ApplyAddressed(hash, s, store);
    KeptUntilDeleted(hash, Apply(hash, s, store), steps, store.node, store.id);
  }

  lemma {:induction false} StillHeld(hash: Hash, s: Stores, steps: seq<Step>, n: Addr, id: ChunkId)
    requires n in s && id in s[n]
    requires forall i | 0 <= i < |steps| :: !(steps[i].Delete? && steps[i].node == n && steps[i].id == id)
    ensures n in Run(hash, s, steps) && id in Run(hash, s, steps)[n]
  {
    if steps != [] { StillHeld(hash, s, steps[..|steps| - 1], n, id); }
  }
}
