/**
  The in-memory bucket store: the memory branches of cyxcloud-gateway/src/state.rs and the guards of
  the bucket handlers in cyxcloud-gateway/src/s3_api.rs, one request after the other.
*/
module MemoryStore {
  import opened Wrappers
  import opened Bytes
  import opened Histories

  /** Bucket and object names are only compared, so numbers stand for them. */
  datatype Name = Name(id: nat)
  type Data = seq<Byte>
  type Path = (Name, Name)

  const MAX_MEMORY_BUCKETS: nat := 1000
  const MAX_MEMORY_BYTES: nat := 268435456

  datatype Error = NoSuchBucket | NoSuchKey | BucketAlreadyExists | TooManyBuckets | BucketNotEmpty | OutOfMemory

  type Reply = Result<Data, Error>

  const DONE: Reply := Ok([])

  datatype Request =
    | CreateBucket(bucket: Name)
    | DeleteBucket(bucket: Name)
    | Put(bucket: Name, key: Name, data: Data)
    | Get(bucket: Name, key: Name)
    | Delete(bucket: Name, key: Name)

  // ---------- the plain store ----------

  /** Bucket names, and a plain map from (bucket, key) to bytes. */
  datatype Store = Store(names: set<Name>, objects: map<Path, Data>)

  /** The bytes of all objects together. */
  ghost function Total(objects: map<Path, Data>): nat {
    if objects == map[] then 0
    else
      var p :| p in objects;
      |objects[p]| + Total(objects - {p})
  }

  ghost predicate HasObjects(s: Store, b: Name) {
    exists p :: p in s.objects && p.0 == b
  }

  ghost function Handle(s: Store, r: Request): (Store, Reply) {
    match r
    case CreateBucket(b) =>
      if b in s.names then (s, Err(BucketAlreadyExists))
      else if |s.names| >= MAX_MEMORY_BUCKETS then (s, Err(TooManyBuckets))
      else (s.(names := s.names + {b}), DONE)
    case DeleteBucket(b) =>
      if b !in s.names then (s, Err(NoSuchBucket))
      else if HasObjects(s, b) then (s, Err(BucketNotEmpty))
      else (s.(names := s.names - {b}), DONE)
    case Put(b, k, data) =>
      if Total(s.objects) + |data| > MAX_MEMORY_BYTES then (s, Err(OutOfMemory))
      else if b !in s.names then (s, Err(NoSuchBucket))
      else (s.(objects := s.objects[(b, k) := data]), DONE)
    case Get(b, k) =>
      if b !in s.names then (s, Err(NoSuchBucket))
      else if (b, k) !in s.objects then (s, Err(NoSuchKey))
      else (s, Ok(s.objects[(b, k)]))
    case Delete(b, k) =>
      if b !in s.names then (s, Err(NoSuchBucket)) else (s.(objects := s.objects - {(b, k)}), DONE)
  }

  ghost function Run(s: Store, rs: seq<Request>): Store {
    if rs == [] then s else Handle(Run(s, rs[..|rs| - 1]), rs[|rs| - 1]).0
  }

  const EMPTY := Store({}, map[])

  // ---------- sizes ----------

  /** Taking any object out takes its bytes out. */
  lemma {:induction false} TotalWithout(m: map<Path, Data>, p: Path)
    requires p in m
    ensures Total(m) == |m[p]| + Total(m - {p})
    decreases |m|
  {
    var q :| q in m && Total(m) == |m[q]| + Total(m - {q});
    if q != p {
      var a, b := m - {q}, m - {p};
      assert |a| < |m| && |b| < |m|;
      TotalWithout(a, p);
      TotalWithout(b, q);
      assert a - {p} == b - {q};
    }
  }

  ghost function SizeAt(m: map<Path, Data>, p: Path): nat {
    if p in m then |m[p]| else 0
  }

  lemma TotalAfterPut(m: map<Path, Data>, p: Path, data: Data)
    ensures Total(m[p := data]) == Total(m) - SizeAt(m, p) + |data| && SizeAt(m, p) <= Total(m)
  {
    var u := m[p := data];
    TotalWithout(u, p);
    if p in m {
      TotalWithout(m, p);
      assert u - {p} == m - {p};
    } else {
      assert u - {p} == m;
    }
  }

  lemma TotalAfterDelete(m: map<Path, Data>, p: Path)
    ensures Total(m - {p}) == Total(m) - SizeAt(m, p)
  {
    if p in m { TotalWithout(m, p); } else { assert m - {p} == m; }
  }

  // ---------- what every run keeps ----------

  ghost predicate Sane(s: Store) {
    && |s.names| <= MAX_MEMORY_BUCKETS && Total(s.objects) <= MAX_MEMORY_BYTES
    && forall p | p in s.objects :: p.0 in s.names
  }

  lemma HandleSane(s: Store, r: Request)
    requires Sane(s)
    ensures Sane(Handle(s, r).0)
  {
    match r
    case Put(b, k, data) => TotalAfterPut(s.objects, (b, k), data);
    case Delete(b, k) => TotalAfterDelete(s.objects, (b, k));
    case _ =>
  }

  /** Every run keeps the limits, and every object's bucket exists. */
  lemma {:induction false} RunSane(rs: seq<Request>)
    ensures Sane(Run(EMPTY, rs))
  {
    if rs != [] {
      RunSane(rs[..|rs| - 1]);
      HandleSane(Run(EMPTY, rs[..|rs| - 1]), rs[|rs| - 1]);
    }
  }

  ghost predicate Writes(r: Request, b: Name, k: Name) {
    match r
    case Put(b', k', _) => b' == b && k' == k
    case Delete(b', k') => b' == b && k' == k
    case _ => false
  }

  /** The other requests leave an object as it is, and its bucket cannot be deleted. */
  lemma {:induction false} ObjectStays(s: Store, rs: seq<Request>, b: Name, k: Name)
    requires b in s.names && (b, k) in s.objects && forall i | 0 <= i < |rs| :: !Writes(rs[i], b, k)
    ensures var u := Run(s, rs); b in u.names && (b, k) in u.objects && u.objects[(b, k)] == s.objects[(b, k)]
  {
    if rs != [] {
      var front := rs[..|rs| - 1];
      ObjectStays(s, front, b, k);
      var u := Run(s, front);
      assert (b, k).0 == b;
      assert HasObjects(u, b);
    }
  }

  /** Read your writes: after an accepted put, and any requests that do not write that object, a get returns its bytes. */
  lemma GetAfterPut(s: Store, b: Name, k: Name, data: Data, rs: seq<Request>)
    requires Handle(s, Put(b, k, data)).1.Ok? && forall i | 0 <= i < |rs| :: !Writes(rs[i], b, k)
    ensures Handle(Run(Handle(s, Put(b, k, data)).0, rs), Get(b, k)).1 == Ok(data)
  {
    ObjectStays(Handle(s, Put(b, k, data)).0, rs, b, k);
  }

  // ---------- the state is what the accepted requests made it ----------

  ghost predicate At(s: Store, p: Path, data: Data) { p in s.objects && s.objects[p] == data }

  /** The request is accepted and makes the bucket. */
  ghost predicate Makes(s: Store, r: Request, b: Name) { r == CreateBucket(b) && b !in s.names && |s.names| < 1000 }

  /** The request is accepted and removes the bucket, which holds nothing. */
  ghost predicate Drops(s: Store, r: Request, b: Name) {
    r == DeleteBucket(b) && b in s.names && forall p | p in s.objects :: p.0 != b
  }

  /** The request is accepted and writes these bytes: the bucket exists and they fit beside all that is stored. */
  ghost predicate Saves(s: Store, r: Request, p: Path, data: Data) {
    r == Put(p.0, p.1, data) && p.0 in s.names && Total(s.objects) + |data| <= 268435456
  }

  ghost predicate Erases(s: Store, r: Request, p: Path) { r == Delete(p.0, p.1) && p.0 in s.names }

  ghost predicate Changes(s: Store, r: Request, p: Path) {
    Erases(s, r, p) || (r.Put? && Saves(s, r, p, r.data))
  }

  lemma StepExact(s: Store, r: Request, b: Name, p: Path, data: Data)
    ensures var u := Handle(s, r).0;
            && (b in u.names <==> Makes(s, r, b) || (b in s.names && !Drops(s, r, b)))
            && (At(u, p, data) <==> Saves(s, r, p, data) || (At(s, p, data) && !Changes(s, r, p)))
  {}

  /** Request number i of a run is accepted and writes these bytes, or changes the object, or makes or removes the bucket. */
  ghost function SavesAt(rs: seq<Request>, p: Path, data: Data): nat -> bool {
    (i: nat) => i < |rs| && Saves(Run(EMPTY, rs[..i]), rs[i], p, data)
  }

  ghost function ChangesAt(rs: seq<Request>, p: Path): nat -> bool {
    (i: nat) => i < |rs| && Changes(Run(EMPTY, rs[..i]), rs[i], p)
  }

  ghost function MakesAt(rs: seq<Request>, b: Name): nat -> bool {
    (i: nat) => i < |rs| && Makes(Run(EMPTY, rs[..i]), rs[i], b)
  }

  ghost function DropsAt(rs: seq<Request>, b: Name): nat -> bool {
    (i: nat) => i < |rs| && Drops(Run(EMPTY, rs[..i]), rs[i], b)
  }

  lemma RunNext(rs: seq<Request>, n: nat)
    requires n < |rs|
    ensures Run(EMPTY, rs[..n + 1]) == Handle(Run(EMPTY, rs[..n]), rs[n]).0
  {
    assert rs[..n + 1][..n] == rs[..n];
  }

  /** Over every run an object holds exactly the bytes of the latest accepted request that changed it, and none after a delete. */
  lemma {:induction false} HoldsLastSaved(rs: seq<Request>, n: nat, p: Path, data: Data)
    requires n <= |rs|
    ensures At(Run(EMPTY, rs[..n]), p, data) <==> Latest(SavesAt(rs, p, data), ChangesAt(rs, p), n)
  {
    if n > 0 {
      HoldsLastSaved(rs, n - 1, p, data);
      RunNext(rs, n - 1);
      StepExact(Run(EMPTY, rs[..n - 1]), rs[n - 1], p.0, p, data);
      LatestNext(SavesAt(rs, p, data), ChangesAt(rs, p), n - 1);
    }
  }

  /** Over every run a bucket exists exactly if an accepted request made it and none has removed it since. */
  lemma {:induction false} BucketIff(rs: seq<Request>, n: nat, b: Name)
    requires n <= |rs|
    ensures b in Run(EMPTY, rs[..n]).names <==> Latest(MakesAt(rs, b), DropsAt(rs, b), n)
  {
    if n > 0 {
      BucketIff(rs, n - 1, b);
      RunNext(rs, n - 1);
      StepExact(Run(EMPTY, rs[..n - 1]), rs[n - 1], b, (b, b), []);
      LatestNext(MakesAt(rs, b), DropsAt(rs, b), n - 1);
    }
  }

  /** What the client is told: success exactly if the request took effect, else the reason. */
  lemma ReplyExact(s: Store, r: Request)
    ensures var reply := Handle(s, r).1;
            match r
            case CreateBucket(b) => (reply == Ok([]) <==> Makes(s, r, b)) && (reply == Err(BucketAlreadyExists) <==> b in s.names)
            case DeleteBucket(b) => (reply == Ok([]) <==> Drops(s, r, b)) && (reply == Err(NoSuchBucket) <==> b !in s.names)
            case Put(b, k, data) => (reply == Ok([]) <==> Saves(s, r, (b, k), data)) && (reply == Err(OutOfMemory) <==> Total(s.objects) + |data| > 268435456)
            case Get(b, k) => (forall x :: reply == Ok(x) <==> b in s.names && At(s, (b, k), x)) && (reply == Err(NoSuchBucket) <==> b !in s.names)
            case Delete(b, k) => (reply == Ok([]) <==> b in s.names) && (reply == Err(NoSuchBucket) <==> b !in s.names)
    ensures Handle(s, r).1.Err? ==> Handle(s, r).0 == s
    ensures Handle(s, r).1.Err? ==> Handle(s, r).1.error in (match r
              case CreateBucket(_) => {BucketAlreadyExists, TooManyBuckets}
              case DeleteBucket(_) => {NoSuchBucket, BucketNotEmpty}
              case Put(_, _, _) => {OutOfMemory, NoSuchBucket}
              case Get(_, _) => {NoSuchBucket, NoSuchKey}
              case Delete(_, _) => {NoSuchBucket})
  {}

  /** After an accepted delete, and any requests that do not write that object, a get does not find it. */
  lemma GetAfterDelete(s: Store, b: Name, k: Name, rs: seq<Request>)
    requires Handle(s, Delete(b, k)).1.Ok? && forall i | 0 <= i < |rs| :: !Writes(rs[i], b, k)
    ensures Handle(Run(Handle(s, Delete(b, k)).0, rs), Get(b, k)).1 in {Err(NoSuchKey), Err(NoSuchBucket)}
  {
    StaysAway(Handle(s, Delete(b, k)).0, rs, b, k);
  }

  lemma {:induction false} StaysAway(s: Store, rs: seq<Request>, b: Name, k: Name)
    requires (b, k) !in s.objects && forall i | 0 <= i < |rs| :: !Writes(rs[i], b, k)
    ensures (b, k) !in Run(s, rs).objects
  {
    if rs != [] { StaysAway(s, rs[..|rs| - 1], b, k); }
  }

  // ---------- the store of the gateway ----------

  type Buckets = map<Name, map<Name, Data>>

  /** The objects of all buckets in one map. */
  ghost predicate Flattens(buckets: Buckets, objects: map<Path, Data>) {
    && (forall p: Path | p in objects :: p.0 in buckets && p.1 in buckets[p.0] && objects[p] == buckets[p.0][p.1])
    && (forall b, k {:trigger Holds(buckets, b, k)} | Holds(buckets, b, k) :: (b, k) in objects)
  }

  predicate Holds(buckets: Buckets, b: Name, k: Name) { b in buckets && k in buckets[b] }

  /** The counter is the total size of all objects, and the limits hold. */
  ghost predicate Accounted(buckets: Buckets, objects: map<Path, Data>, bytesUsed: nat) {
    Flattens(buckets, objects) && bytesUsed == Total(objects) && Sane(Store(buckets.Keys, objects))
  }

  lemma FlatPut(buckets: Buckets, objects: map<Path, Data>, b: Name, k: Name, data: Data)
    requires Flattens(buckets, objects) && b in buckets
    ensures Flattens(buckets[b := buckets[b][k := data]], objects[(b, k) := data])
    ensures SizeAt(objects, (b, k)) == if k in buckets[b] then |buckets[b][k]| else 0
  {
    var after := buckets[b := buckets[b][k := data]];
    assert Holds(buckets, b, k) ==> (b, k) in objects;
    forall b', k' | Holds(after, b', k') ensures (b', k') in objects[(b, k) := data] {
      if (b', k') != (b, k) { assert Holds(buckets, b', k'); }
    }
  }

  lemma FlatDelete(buckets: Buckets, objects: map<Path, Data>, b: Name, k: Name)
    requires Flattens(buckets, objects) && b in buckets
    ensures Flattens(buckets[b := buckets[b] - {k}], objects - {(b, k)})
    ensures SizeAt(objects, (b, k)) == if k in buckets[b] then |buckets[b][k]| else 0
  {
    var after := buckets[b := buckets[b] - {k}];
    assert Holds(buckets, b, k) ==> (b, k) in objects;
    forall b', k' | Holds(after, b', k') ensures (b', k') in objects - {(b, k)} {
      assert Holds(buckets, b', k');
    }
  }

  lemma FlatCreate(buckets: Buckets, objects: map<Path, Data>, b: Name)
    requires Flattens(buckets, objects) && b !in buckets
    ensures Flattens(buckets[b := map[]], objects)
  {
    forall b', k' | Holds(buckets[b := map[]], b', k') ensures (b', k') in objects { assert Holds(buckets, b', k'); }
  }

  /** Removing a bucket removes the objects inside it. */
  lemma FlatRemove(buckets: Buckets, objects: map<Path, Data>, b: Name)
    requires Flattens(buckets, objects)
    ensures Flattens(buckets - {b}, Outside(objects, b))
  {
    forall b', k' | Holds(buckets - {b}, b', k') ensures (b', k') in Outside(objects, b) { assert Holds(buckets, b', k'); }
  }

  lemma EmptyBucket(buckets: Buckets, objects: map<Path, Data>, b: Name)
    requires Flattens(buckets, objects) && b in buckets
    ensures HasObjects(Store(buckets.Keys, objects), b) <==> buckets[b] != map[]
    ensures buckets[b] == map[] ==> Outside(objects, b) == objects
  {
    if buckets[b] != map[] {
      var k :| k in buckets[b];
      assert Holds(buckets, b, k);
      assert (b, k) in objects && (b, k).0 == b;
    }
  }

  lemma PutAccounted(buckets: Buckets, objects: map<Path, Data>, used: nat, b: Name, k: Name, data: Data, oldSize: nat)
    requires Accounted(buckets, objects, used) && b in buckets && used + |data| <= MAX_MEMORY_BYTES
    requires oldSize == if k in buckets[b] then |buckets[b][k]| else 0
    ensures oldSize <= used
    ensures var after := buckets[b := buckets[b][k := data]];
            && Accounted(after, objects[(b, k) := data], used - oldSize + |data|)
            && (Store(after.Keys, objects[(b, k) := data]), DONE) == Handle(Store(buckets.Keys, objects), Put(b, k, data))
  {
    FlatPut(buckets, objects, b, k, data);
    TotalAfterPut(objects, (b, k), data);
    HandleSane(Store(buckets.Keys, objects), Put(b, k, data));
    assert buckets[b := buckets[b][k := data]].Keys == buckets.Keys;
  }

  class Memory {
    var buckets: Buckets
    var bytesUsed: nat
    ghost var objects: map<Path, Data>

    ghost predicate Valid()
      reads this
    {
      Accounted(buckets, objects, bytesUsed)
    }

    ghost function Value(): Store
      reads this
    {
      Store(buckets.Keys, objects)
    }

    constructor ()
      ensures Valid() && Value() == EMPTY
    {
      buckets, bytesUsed, objects := map[], 0, map[];
    }

    method CreateBucket(b: Name) returns (r: Reply)
      requires Valid()
      modifies this
      ensures Valid() && (Value(), r) == Handle(old(Value()), Request.CreateBucket(b))
    {
      assert |buckets.Keys| == |buckets|;
      if b in buckets { return Err(BucketAlreadyExists); }
      if |buckets| >= MAX_MEMORY_BUCKETS { return Err(TooManyBuckets); }
      FlatCreate(buckets, objects, b);
      HandleSane(Value(), Request.CreateBucket(b));
      buckets := buckets[b := map[]];
      assert buckets.Keys == old(buckets).Keys + {b};
      return DONE;
    }

    /** The bucket is removed whatever it holds, and the counter stays as it is. */
    method RemoveBucket(b: Name)
      requires Flattens(buckets, objects)
      modifies this`buckets, this`objects
      ensures buckets == old(buckets) - {b} && Flattens(buckets, objects) && objects == Outside(old(objects), b)
    {
      FlatRemove(buckets, objects, b);
      buckets := buckets - {b};
      objects := Outside(objects, b);
    }

    /** The handler of the request lets only an empty bucket be removed. */
    method DeleteBucket(b: Name) returns (r: Reply)
      requires Valid()
      modifies this
      ensures Valid() && (Value(), r) == Handle(old(Value()), Request.DeleteBucket(b))
    {
      if b !in buckets { return Err(NoSuchBucket); }
      EmptyBucket(buckets, objects, b);
      if buckets[b] != map[] { return Err(BucketNotEmpty); }
      HandleSane(Value(), Request.DeleteBucket(b));
      RemoveBucket(b);
      assert buckets.Keys == old(buckets).Keys - {b};
      return DONE;
    }

    method PutObject(b: Name, k: Name, data: Data) returns (r: Reply)
      requires Valid()
      modifies this
      ensures Valid() && (Value(), r) == Handle(old(Value()), Put(b, k, data))
    {
      if bytesUsed + |data| > MAX_MEMORY_BYTES { return Err(OutOfMemory); }
      if b !in buckets { return Err(NoSuchBucket); }
      var oldSize := if k in buckets[b] then |buckets[b][k]| else 0;
      PutAccounted(buckets, objects, bytesUsed, b, k, data, oldSize);
      buckets := buckets[b := buckets[b][k := data]];
      objects := objects[(b, k) := data];
      if |data| >= oldSize {
        bytesUsed := bytesUsed + (|data| - oldSize);
      } else {
        bytesUsed := bytesUsed - (oldSize - |data|);
      }
      return DONE;
    }

    method GetObject(b: Name, k: Name) returns (r: Reply)
      requires Valid()
      ensures (Value(), r) == Handle(Value(), Get(b, k))
    {
      if b !in buckets { return Err(NoSuchBucket); }
      assert Holds(buckets, b, k) <==> (b, k) in objects;
      if k !in buckets[b] { return Err(NoSuchKey); }
      return Ok(buckets[b][k]);
    }

    method DeleteObject(b: Name, k: Name) returns (r: Reply)
      requires Valid()
      modifies this
      ensures Valid() && (Value(), r) == Handle(old(Value()), Delete(b, k))
    {
      if b !in buckets { return Err(NoSuchBucket); }
      FlatDelete(buckets, objects, b, k);
      TotalAfterDelete(objects, (b, k));
      HandleSane(Value(), Delete(b, k));
      if k in buckets[b] { bytesUsed := bytesUsed - |buckets[b][k]|; }
      buckets := buckets[b := buckets[b] - {k}];
      objects := objects - {(b, k)};
      assert buckets.Keys == old(buckets).Keys;
      return DONE;
    }
  }

  // ---------- removing a bucket without the guard ----------

  ghost function Inside(objects: map<Path, Data>, b: Name): map<Path, Data> {
    map p | p in objects && p.0 == b :: objects[p]
  }

  ghost function Outside(objects: map<Path, Data>, b: Name): map<Path, Data> {
    map p | p in objects && p.0 != b :: objects[p]
  }

  lemma {:induction false} TotalSplits(objects: map<Path, Data>, b: Name)
    ensures Total(objects) == Total(Inside(objects, b)) + Total(Outside(objects, b))
    decreases |objects|
  {
    if objects == map[] {
      assert Inside(objects, b) == map[] && Outside(objects, b) == map[];
    } else {
      var p :| p in objects;
      var rest := objects - {p};
      assert |rest| < |objects|;
      TotalWithout(objects, p);
      TotalSplits(rest, b);
      if p.0 == b {
        assert Inside(objects, b) - {p} == Inside(rest, b) && Outside(objects, b) == Outside(rest, b);
        TotalWithout(Inside(objects, b), p);
      } else {
        assert Inside(objects, b) == Inside(rest, b) && Outside(objects, b) - {p} == Outside(rest, b);
        TotalWithout(Outside(objects, b), p);
      }
    }
  }

  /** Without the handler's guard the counter stays right exactly if the bucket holds no bytes. */
  lemma UnguardedRemoval(objects: map<Path, Data>, bytesUsed: nat, b: Name)
    requires bytesUsed == Total(objects)
    ensures bytesUsed == Total(Outside(objects, b)) <==> Total(Inside(objects, b)) == 0
  {
    TotalSplits(objects, b);
  }
}
