/** The payment daemon's own loops over the uptime, slashing and epoch tables. */
module PaymentDaemons {
  import opened Wrappers
  import opened Epochs
  import opened Orders

  /** Where the database stops answering during the end-of-epoch work. */
  datatype Stop = Never | AtEnd | AtSlash(k: nat) | AtPay | AtCreate | AtInitialize

  // ---------- one row at a time ----------

  /** The uptime table after crediting a set of nodes. */
  ghost function Crediting(cfg: Config, s: State): set<Id> -> map<Key, Record> {
    (done: set<Id>) => Credited(cfg, s, done, {})
  }

  /** Crediting one more node changes its row alone. */
  ghost predicate Credits(cfg: Config, s: State, after: set<Id> -> map<Key, Record>) {
    forall done: set<Id>, id: Id {:trigger after(done + {id})} | id !in done && id in s.nodes ::
      var k := (id, s.current);
      after(done + {id}) == after(done)[k := Credit(RecordOf(after(done), k), s.nodes[id], cfg.interval)]
  }

  lemma CreditKeys(done: set<Id>, id: Id, c: nat)
    ensures KeysOf(done + {id}, c) == KeysOf(done, c) + {(id, c)}
    ensures KeysOf({id}, c) == {(id, c)}
  {
    assert forall k :: k in KeysOf(done + {id}, c) <==> k in KeysOf(done, c) + {(id, c)};
  }

  lemma CreditNext(cfg: Config, s: State, done: set<Id>, id: Id)
    requires id !in done && id in s.nodes
    ensures var before := Credited(cfg, s, done, {}); var k := (id, s.current);
            Credited(cfg, s, done + {id}, {}) == before[k := Credit(RecordOf(before, k), s.nodes[id], cfg.interval)]
  {
    var k := (id, s.current);
    CreditKeys(done, id, s.current);
    assert RecordOf(Credited(cfg, s, done, {}), k) == RecordOf(s.uptime, k);
  }

  lemma TouchNext(cfg: Config, s: State, done: set<Id>, id: Id)
    requires id !in done
    ensures var before := Credited(cfg, s, done, {}); var k := (id, s.current);
            Credited(cfg, s, done, {id}) == before[k := RecordOf(before, k)]
  {
    var k := (id, s.current);
    CreditKeys(done, id, s.current);
    assert RecordOf(Credited(cfg, s, done, {}), k) == RecordOf(s.uptime, k);
  }

  lemma CreditPlan(cfg: Config, s: State)
    ensures Credits(cfg, s, Crediting(cfg, s)) && Crediting(cfg, s)({}) == s.uptime
  {
    forall done: set<Id>, id: Id | id !in done && id in s.nodes
      ensures var k := (id, s.current); var before := Crediting(cfg, s)(done);
              Crediting(cfg, s)(done + {id}) == before[k := Credit(RecordOf(before, k), s.nodes[id], cfg.interval)]
    {
      CreditNext(cfg, s, done, id);
    }
    assert Credited(cfg, s, {}, {}) == s.uptime;
  }

  /** The slashing table after slashing a set of nodes. */
  ghost function Slasher(slashes: map<Key, nat>, epoch: nat): set<Id> -> map<Key, nat> {
    (done: set<Id>) => SlashRows(slashes, epoch, done)
  }

  ghost predicate Slashing(epoch: nat, after: set<Id> -> map<Key, nat>) {
    forall done: set<Id>, id: Id {:trigger after(done + {id})} | id !in done ::
      var k := (id, epoch);
      after(done + {id}) == after(done)[k := RowCount(after(done), k) + 1]
  }

  lemma SlashNext(slashes: map<Key, nat>, epoch: nat, done: set<Id>, id: Id)
    requires id !in done
    ensures var before := SlashRows(slashes, epoch, done); var k := (id, epoch);
            SlashRows(slashes, epoch, done + {id}) == before[k := RowCount(before, k) + 1]
  {
    CreditKeys(done, id, epoch);
    assert RowCount(SlashRows(slashes, epoch, done), (id, epoch)) == RowCount(slashes, (id, epoch));
  }

  lemma SlashPlan(slashes: map<Key, nat>, epoch: nat)
    ensures Slashing(epoch, Slasher(slashes, epoch)) && Slasher(slashes, epoch)({}) == slashes
  {
    forall done: set<Id>, id: Id | id !in done
      ensures var k := (id, epoch); var before := Slasher(slashes, epoch)(done);
              Slasher(slashes, epoch)(done + {id}) == before[k := RowCount(before, k) + 1]
    {
      SlashNext(slashes, epoch, done, id);
    }
    assert SlashRows(slashes, epoch, {}) == slashes;
  }

  class PaymentDaemon {
    var now: int
    var nodes: map<Id, Lifecycle.Status>
    ghost var used: set<Id>
    var uptime: map<Key, Record>
    var slashes: map<Key, nat>
    var epochs: map<nat, Epoch>
    var current: nat
    var start: Option<int>

    ghost function Value(): State
      reads this
    {
      State(now, nodes, used, uptime, slashes, epochs, current, start)
    }

    /** The latest epoch that is not finalized. */
    method CurrentPaymentEpoch() returns (r: Option<nat>)
      ensures match r case Some(e) => LatestOpen(Value(), e) case None => forall e | e in epochs :: epochs[e].finalized
    {
      r := None;
      var left := epochs.Keys;
      while left != {}
        invariant left <= epochs.Keys
        invariant r.Some? ==> r.value in epochs && !epochs[r.value].finalized
        invariant forall e | e in epochs.Keys - left && !epochs[e].finalized :: r.Some? && e <= r.value
        decreases left
      {
        var e :| e in left;
        if !epochs[e].finalized && (r.None? || r.value < e) { r := Some(e); }
        left := left - {e};
      }
    }

    /** What the daemon does when its process starts, with nothing in memory; an error stops it where `fault` says. */
    method EnsureCurrentEpoch(cfg: Config, fault: StartFault) returns (found: Option<nat>)
      modifies this`uptime, this`epochs, this`current, this`start
      ensures Enabled(cfg, old(Value()), Restart(found, fault)) && Value() == Next(cfg, old(Value()), Restart(found, fault))
    {
      found := CurrentPaymentEpoch();
      current, start := 0, None;
      if fault.BeforeQuery? { return; }
      match found
      case Some(e) =>
        current, start := e, Some(epochs[e].startedAt);
      case None =>
        if 1 in epochs || fault.BeforeFirst? { return; }
        epochs := epochs[1 := Epoch(now, false)];
        if fault.BeforeFirstRecords? { return; }
        InitializeEpoch(1);
        current, start := 1, Some(now);
    }

    method InitializeEpoch(epoch: nat)
      modifies this`uptime
      ensures uptime == Initialized(old(Value()), epoch)
    {
      var active := set id | id in nodes && nodes[id] != Lifecycle.Maintenance;
      uptime := map k: Key | k in uptime.Keys + KeysOf(active, epoch) :: RecordOf(uptime, k);
    }

    /** Credits the listed nodes one after the other, up to node number `stop`. */
    method CreditEach(cfg: Config, order: seq<Id>, stop: nat, ghost s: State, ghost after: set<Id> -> map<Key, Record>)
      returns (reached: set<Id>)
      requires s == Value() && Lists(order, nodes.Keys) && after({}) == uptime && Credits(cfg, s, after)
      modifies this`uptime
      ensures uptime == after(reached) && reached == Done(order, {}, if stop < |order| then stop else |order|) <= nodes.Keys
    {
      reached := {};
      for i := 0 to |order|
        invariant reached == Done(order, {}, i) <= nodes.Keys && i <= stop
        invariant uptime == after(reached)
      {
        if i == stop { return; }
        var k := (order[i], current);
        DoneNext(order, nodes.Keys, {}, i);
        assert after(reached + {order[i]}) == after(reached)[k := Credit(RecordOf(after(reached), k), nodes[order[i]], cfg.interval)];
        uptime := uptime[k := RecordOf(uptime, k)];
        uptime := uptime[k := Credit(uptime[k], nodes[order[i]], cfg.interval)];
        reached := reached + {order[i]};
      }
    }

    /** One tick: an error at node number `stop` ends it, after that node's record was created if `touch`. */
    method AccumulateUptime(cfg: Config, stop: nat, touch: bool) returns (a: Action)
      modifies this`uptime
      ensures a.Accumulate? && Enabled(cfg, old(Value()), a) && Value() == Next(cfg, old(Value()), a)
      ensures current != 0 && stop >= |nodes| ==> a.reached == nodes.Keys
    {
      if current == 0 { return Accumulate({}, {}); }
      var order := Listed(nodes.Keys);
      ghost var s := Value();
      CreditPlan(cfg, s);
      var reached := CreditEach(cfg, order, stop, s, Crediting(cfg, s));
      ListedCount(order, nodes.Keys);
      DoneAll(order, nodes.Keys, {});
      if touch && stop < |order| {
        DoneNext(order, nodes.Keys, {}, stop);
        TouchNext(cfg, s, reached, order[stop]);
        uptime := uptime[(order[stop], current) := RecordOf(uptime, (order[stop], current))];
        return Accumulate(reached, {order[stop]});
      }
      return Accumulate(reached, {});
    }

    /** Adds a slashing row for each listed node, up to node number `stop`. */
    method SlashEach(order: seq<Id>, ghost ids: set<Id>, stop: nat, ghost after: set<Id> -> map<Key, nat>)
      returns (done: set<Id>)
      requires Lists(order, ids) && after({}) == slashes && Slashing(current, after)
      modifies this`slashes
      ensures slashes == after(done) && done == Done(order, {}, if stop < |order| then stop else |order|) <= ids
    {
      done := {};
      for i := 0 to |order|
        invariant done == Done(order, {}, i) <= ids && i <= stop
        invariant slashes == after(done)
      {
        if i == stop { return; }
        var k := (order[i], current);
        DoneNext(order, ids, {}, i);
        assert after(done + {order[i]}) == after(done)[k := RowCount(after(done), k) + 1];
        slashes := slashes[k := RowCount(slashes, k) + 1];
        done := done + {order[i]};
      }
    }

    /** Adds a slashing row for each node offline too long; stops after `stop` rows. */
    method CheckAndSlashNodes(cfg: Config, stop: nat) returns (done: set<Id>, ok: bool)
      modifies this`slashes
      ensures Value() == Slashed(old(Value()), done) && done <= OverdueNodes(cfg, old(Value()))
      ensures ok ==> done == OverdueNodes(cfg, old(Value()))
      ensures |OverdueNodes(cfg, old(Value()))| <= stop ==> ok
    {
      var overdue := set k: Key | k in uptime && k.1 == current && uptime[k].offline > cfg.threshold :: k.0;
      var order := Listed(overdue);
      SlashPlan(slashes, current);
      done := SlashEach(order, overdue, stop, Slasher(slashes, current));
      ListedCount(order, overdue);
      DoneAll(order, overdue, {});
      ok := |order| <= stop;
    }

    method FinalizePaymentEpoch()
      modifies this`epochs
      ensures Value() == Finalized(old(Value()))
    {
      if current in epochs && exists k :: k in uptime && k.1 == current {
        epochs := epochs[current := epochs[current].(finalized := true)];
      }
    }

    /** Creates and initializes the next epoch; the insertion fails if its row exists. */
    method StartNextEpoch(stop: Stop) returns (fault: Fault)
      modifies this`uptime, this`epochs, this`current, this`start
      ensures stop == Never ==> fault == NoFault
      ensures fault == NoFault ==> Value() == Advanced(old(Value()))
      ensures fault == BeforeCreating ==> Value() == old(Value())
      ensures fault == BeforeInitializing ==> old(current) + 1 !in old(epochs) && Value() == Created(old(Value()))
      ensures fault == NoFault || fault == BeforeCreating || fault == BeforeInitializing
    {
      var next := current + 1;
      if stop == AtCreate { return BeforeCreating; }
      if next in epochs { return NoFault; }
      epochs := epochs[next := Epoch(now, false)];
      if stop == AtInitialize { return BeforeInitializing; }
      InitializeEpoch(next);
      current, start := next, Some(now);
      return NoFault;
    }

    /** Payment of the epoch and the start of the next one. */
    method SettleEpoch(stop: Stop) returns (fault: Fault)
      modifies this`uptime, this`epochs, this`current, this`start
      ensures Value() == Settled(old(Value()), fault)
      ensures stop == Never ==> fault == NoFault
      ensures fault == NoFault || fault == InPayment || fault == BeforeCreating || fault == BeforeInitializing
    {
      if stop == AtPay { return InPayment; }
      FinalizePaymentEpoch();
      fault := StartNextEpoch(stop);
    }

    method CheckEpochEnd(cfg: Config, stop: Stop) returns (a: Action)
      modifies this`uptime, this`slashes, this`epochs, this`current, this`start
      ensures a.Check? && Enabled(cfg, old(Value()), a) && Value() == Next(cfg, old(Value()), a)
      ensures stop == Never ==> a.fault == NoFault
    {
      if current == 0 || start.None? || now - start.value < EPOCH_DURATION_SECONDS { return Check(NoFault); }
      if stop == AtEnd { return Check(BeforeSlashing); }
      var limit := if stop.AtSlash? then stop.k else |uptime|;
      OverdueFew(cfg, Value());
      var done, ok := CheckAndSlashNodes(cfg, limit);
      if !ok { return Check(InSlashing(done)); }
      var fault := SettleEpoch(stop);
      return Check(fault);
    }
  }

  lemma OverdueFew(cfg: Config, s: State)
    ensures |OverdueNodes(cfg, s)| <= |s.uptime|
  {
    var keys := KeysOf(OverdueNodes(cfg, s), s.current);
    KeysCount(OverdueNodes(cfg, s), s.current);
    assert keys <= s.uptime.Keys;
    var rest := s.uptime.Keys - keys;
    assert |rest| + |keys| == |s.uptime.Keys|;
  }

  lemma {:induction false} KeysCount(ids: set<Id>, epoch: nat)
    ensures |KeysOf(ids, epoch)| == |ids|
  {
    if ids != {} {
      var id :| id in ids;
      KeysCount(ids - {id}, epoch);
      assert (id, epoch) !in KeysOf(ids - {id}, epoch);
      assert KeysOf(ids, epoch) == KeysOf(ids - {id}, epoch) + {(id, epoch)};
    }
  }
}
