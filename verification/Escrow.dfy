/** The budget rows of a shard are a ledger: applying a budget command to the rows of a collection is one
    Ledger step. EscrowRuns carries this over whole runs. */
module Escrow {
  import opened Bytes
  import opened Codec
  import opened Rows
  import opened Machine
  import L = Ledger

  ghost function Leases(d: Data, c: Coll): map<bytes, L.Lease>
  {
    map r | r in d && r.BudLease? && r.coll == c && d[r].LeaseV? :: r.tail := d[r].l
  }

  ghost function Tombs(d: Data, c: Coll): map<bytes, L.Tomb>
  {
    map r | r in d && r.BudTomb? && r.coll == c && d[r].TombV? :: r.tail := d[r].t
  }

  /** Index rows carry the int64 deadline as its uint64 image. */
  ghost function Expiries(d: Data, c: Coll): set<(int, bytes)>
  {
    set r | r in d && r.BudExp? && r.coll == c && r.ms < TWO64 :: (WrapI64(r.ms), r.tail)
  }

  ghost function Collections(d: Data, c: Coll): set<(int, bytes)>
  {
    set r | r in d && r.BudGC? && r.coll == c && r.ms < TWO64 :: (WrapI64(r.ms), r.tail)
  }

  ghost function BookOf(d: Data, c: Coll): L.Book
  {
    L.Book(PoolOf(d, c), Leases(d, c), Tombs(d, c), Expiries(d, c), Collections(d, c))
  }

  lemma WrapInverse(v: int)
    requires L.I64(v)
    ensures L.U64(v) < TWO64 && WrapI64(L.U64(v)) == v
  {
  }

  lemma WrapInjective(a: nat, b: nat)
    requires a < TWO64 && b < TWO64 && WrapI64(a) == WrapI64(b)
    ensures a == b
  {
  }

  /** Deadlines kept in lease rows are int64. */
  ghost predicate DeadlinesFit(d: Data, c: Coll)
  {
    forall id :: id in Leases(d, c) ==> L.I64(Leases(d, c)[id].reclaimMs)
  }

  lemma GetAgrees(d: Data, c: Coll, id: bytes)
    ensures L.Get(Leases(d, c), id) == LeaseOf(d, c, id) && L.Get(Tombs(d, c), id) == TombOf(d, c, id)
  {
    assert BudLease(c, id) in d && d[BudLease(c, id)].LeaseV? ==> id in Leases(d, c);
    assert BudTomb(c, id) in d && d[BudTomb(c, id)].TombV? ==> id in Tombs(d, c);
  }

  ghost predicate OnlyAt(d: Data, d': Data, k: Row)
  {
    forall r :: r != k ==> (r in d <==> r in d') && (r in d ==> d[r] == d'[r])
  }

  /** Lease and tombstone maps are determined by their point reads. */
  lemma LeasesFrom(d: Data, c: Coll, m: map<bytes, L.Lease>)
    requires forall id :: LeaseOf(d, c, id) == L.Get(m, id)
    ensures Leases(d, c) == m
  {
    forall id ensures L.Get(Leases(d, c), id) == L.Get(m, id) { GetAgrees(d, c, id); }
    hide Leases;
    var a := Leases(d, c);
    forall id ensures id in a <==> id in m { assert L.Get(a, id) == L.Get(m, id); }
    forall id | id in m ensures a[id] == m[id] { assert L.Get(a, id) == L.Get(m, id); }
  }

  lemma TombsFrom(d: Data, c: Coll, m: map<bytes, L.Tomb>)
    requires forall id :: TombOf(d, c, id) == L.Get(m, id)
    ensures Tombs(d, c) == m
  {
    forall id ensures L.Get(Tombs(d, c), id) == L.Get(m, id) { GetAgrees(d, c, id); }
    hide Tombs;
    var a := Tombs(d, c);
    forall id ensures id in a <==> id in m { assert L.Get(a, id) == L.Get(m, id); }
    forall id | id in m ensures a[id] == m[id] { assert L.Get(a, id) == L.Get(m, id); }
  }

  lemma ApartLeases(d: Data, d': Data, c: Coll, k: Row)
    requires OnlyAt(d, d', k) && !k.BudLease?
    ensures Leases(d', c) == Leases(d, c)
  {
    hide Leases;
    forall id ensures LeaseOf(d', c, id) == L.Get(Leases(d, c), id)
    {
      GetAgrees(d, c, id);
      assert BudLease(c, id) != k;
    }
    LeasesFrom(d', c, Leases(d, c));
  }

  lemma ApartTombs(d: Data, d': Data, c: Coll, k: Row)
    requires OnlyAt(d, d', k) && !k.BudTomb?
    ensures Tombs(d', c) == Tombs(d, c)
  {
    hide Tombs;
    forall id ensures TombOf(d', c, id) == L.Get(Tombs(d, c), id) { GetAgrees(d, c, id); assert BudTomb(c, id) != k; }
    TombsFrom(d', c, Tombs(d, c));
  }

  lemma ApartIndexes(d: Data, d': Data, c: Coll, k: Row)
    requires OnlyAt(d, d', k)
    ensures !k.BudExp? ==> Expiries(d', c) == Expiries(d, c)
    ensures !k.BudGC? ==> Collections(d', c) == Collections(d, c)
  {
    hide WrapI64;
  }

  /** A row outside a family does not show in that family's part of the book. */
  lemma Apart(d: Data, d': Data, c: Coll, k: Row)
    requires OnlyAt(d, d', k)
    ensures !k.BudPool? ==> PoolOf(d', c) == PoolOf(d, c)
    ensures !k.BudLease? ==> Leases(d', c) == Leases(d, c)
    ensures !k.BudTomb? ==> Tombs(d', c) == Tombs(d, c)
    ensures !k.BudExp? ==> Expiries(d', c) == Expiries(d, c)
    ensures !k.BudGC? ==> Collections(d', c) == Collections(d, c)
  {
    hide Leases, Tombs, Expiries, Collections;
    if !k.BudLease? { ApartLeases(d, d', c, k); }
    if !k.BudTomb? { ApartTombs(d, d', c, k); }
    ApartIndexes(d, d', c, k);
  }

  lemma PutPool(d: Data, c: Coll, p: L.Pool)
    ensures BookOf(d[BudPool(c) := PoolV(p)], c) == BookOf(d, c).(pool := Some(p))
  {
    hide Leases, Tombs, Expiries, Collections;
    Apart(d, d[BudPool(c) := PoolV(p)], c, BudPool(c));
  }

  lemma PutLease(d: Data, c: Coll, id: bytes, l: L.Lease)
    ensures BookOf(d[BudLease(c, id) := LeaseV(l)], c) == BookOf(d, c).(leases := Leases(d, c)[id := l])
  {
    hide Leases, Tombs, Expiries, Collections, PoolOf;
    var d' := d[BudLease(c, id) := LeaseV(l)];
    Apart(d, d', c, BudLease(c, id));
    forall j ensures LeaseOf(d', c, j) == L.Get(Leases(d, c)[id := l], j) { GetAgrees(d, c, j); }
    LeasesFrom(d', c, Leases(d, c)[id := l]);
  }

  lemma DelLease(d: Data, c: Coll, id: bytes)
    ensures BookOf(d - {BudLease(c, id)}, c) == BookOf(d, c).(leases := Leases(d, c) - {id})
  {
    hide Leases, Tombs, Expiries, Collections, PoolOf;
    var d' := d - {BudLease(c, id)};
    Apart(d, d', c, BudLease(c, id));
    forall j ensures LeaseOf(d', c, j) == L.Get(Leases(d, c) - {id}, j) { GetAgrees(d, c, j); }
    LeasesFrom(d', c, Leases(d, c) - {id});
  }

  lemma PutTomb(d: Data, c: Coll, id: bytes, t: L.Tomb)
    ensures BookOf(d[BudTomb(c, id) := TombV(t)], c) == BookOf(d, c).(tombs := Tombs(d, c)[id := t])
  {
    hide Leases, Tombs, Expiries, Collections, PoolOf;
    var d' := d[BudTomb(c, id) := TombV(t)];
    Apart(d, d', c, BudTomb(c, id));
    forall j ensures TombOf(d', c, j) == L.Get(Tombs(d, c)[id := t], j) { GetAgrees(d, c, j); }
    TombsFrom(d', c, Tombs(d, c)[id := t]);
  }

  lemma DelTomb(d: Data, c: Coll, id: bytes)
    ensures BookOf(d - {BudTomb(c, id)}, c) == BookOf(d, c).(tombs := Tombs(d, c) - {id})
  {
    hide Leases, Tombs, Expiries, Collections, PoolOf;
    var d' := d - {BudTomb(c, id)};
    Apart(d, d', c, BudTomb(c, id));
    forall j ensures TombOf(d', c, j) == L.Get(Tombs(d, c) - {id}, j) { GetAgrees(d, c, j); }
    TombsFrom(d', c, Tombs(d, c) - {id});
  }

  lemma ExpRows(d: Data, c: Coll, ms: int, id: bytes)
    requires L.I64(ms)
    ensures BookOf(d[BudExp(L.U64(ms), c, id) := Raw([])], c) == BookOf(d, c).(exp := Expiries(d, c) + {(ms, id)})
    ensures BookOf(d - {BudExp(L.U64(ms), c, id)}, c) == BookOf(d, c).(exp := Expiries(d, c) - {(ms, id)})
  {
    hide WrapI64, L.U64, Leases, Tombs, Expiries, Collections, PoolOf;
    WrapInverse(ms);
    var k := BudExp(L.U64(ms), c, id);
    Apart(d, d[k := Raw([])], c, k);
    Apart(d, d - {k}, c, k);
    ExpSets(d, c, k);
  }

  lemma ExpSets(d: Data, c: Coll, k: Row)
    requires k.BudExp? && k.coll == c && k.ms < TWO64
    ensures Expiries(d[k := Raw([])], c) == Expiries(d, c) + {(WrapI64(k.ms), k.tail)}
    ensures Expiries(d - {k}, c) == Expiries(d, c) - {(WrapI64(k.ms), k.tail)}
  {
    forall r: Row | r.BudExp? && r.coll == c && r.ms < TWO64 && (WrapI64(r.ms), r.tail) == (WrapI64(k.ms), k.tail)
      ensures r == k
    {
      WrapInjective(r.ms, k.ms);
    }
    hide WrapI64;
  }

  lemma GCRows(d: Data, c: Coll, ms: int, id: bytes)
    requires L.I64(ms)
    ensures BookOf(d[BudGC(L.U64(ms), c, id) := Raw([])], c) == BookOf(d, c).(gc := Collections(d, c) + {(ms, id)})
    ensures BookOf(d - {BudGC(L.U64(ms), c, id)}, c) == BookOf(d, c).(gc := Collections(d, c) - {(ms, id)})
  {
    hide WrapI64, L.U64, Leases, Tombs, Expiries, Collections, PoolOf;
    WrapInverse(ms);
    var k := BudGC(L.U64(ms), c, id);
    Apart(d, d[k := Raw([])], c, k);
    Apart(d, d - {k}, c, k);
    GCSets(d, c, k);
  }

  lemma GCSets(d: Data, c: Coll, k: Row)
    requires k.BudGC? && k.coll == c && k.ms < TWO64
    ensures Collections(d[k := Raw([])], c) == Collections(d, c) + {(WrapI64(k.ms), k.tail)}
    ensures Collections(d - {k}, c) == Collections(d, c) - {(WrapI64(k.ms), k.tail)}
  {
    forall r: Row | r.BudGC? && r.coll == c && r.ms < TWO64 && (WrapI64(r.ms), r.tail) == (WrapI64(k.ms), k.tail)
      ensures r == k
    {
      WrapInjective(r.ms, k.ms);
    }
    hide WrapI64;
  }

  ghost predicate Fits64(o: Option<int>) { o.Some? ==> L.I64(o.value) }

  lemma RecordsStep(d: Data, c: Coll, id: bytes, e: L.Effect)
    requires e.Effect?
    ensures BookOf(WriteRecords(d, c, id, e), c) ==
      BookOf(d, c).(pool := if e.pool.Some? then e.pool else PoolOf(d, c),
                    leases := L.Changed(Leases(d, c), id, e.lease), tombs := L.Changed(Tombs(d, c), id, e.tomb))
  {
    hide Leases, Tombs, Expiries, Collections, PoolOf;
    var d1 := if e.pool.Some? then d[BudPool(c) := PoolV(e.pool.value)] else d;
    if e.pool.Some? { PutPool(d, c, e.pool.value); }
    var d2 := match e.lease
      case Keep => d1
      case Put(l) => d1[BudLease(c, id) := LeaseV(l)]
      case Del => d1 - {BudLease(c, id)};
    if e.lease.Put? { PutLease(d1, c, id, e.lease.v); }
    if e.lease.Del? { DelLease(d1, c, id); }
    if e.tomb.Put? { PutTomb(d2, c, id, e.tomb.v); }
    if e.tomb.Del? { DelTomb(d2, c, id); }
  }

  lemma IndexesStep(d: Data, c: Coll, id: bytes, e: L.Effect)
    requires e.Effect? && Fits64(e.expPut) && Fits64(e.expDel) && Fits64(e.gcPut) && Fits64(e.gcDel)
    ensures BookOf(WriteIndexes(d, c, id, e), c) ==
      BookOf(d, c).(exp := L.Indexed(Expiries(d, c), e.expPut, e.expDel, id),
        gc := L.Indexed(Collections(d, c), e.gcPut, e.gcDel, id))
  {
    hide Leases, Tombs, Expiries, Collections, PoolOf, L.U64;
    var d1 := if e.expDel.Some? then d - {BudExp(L.U64(e.expDel.value), c, id)} else d;
    if e.expDel.Some? { ExpRows(d, c, e.expDel.value, id); }
    var d2 := if e.expPut.Some? then d1[BudExp(L.U64(e.expPut.value), c, id) := Raw([])] else d1;
    if e.expPut.Some? { ExpRows(d1, c, e.expPut.value, id); }
    var d3 := if e.gcDel.Some? then d2 - {BudGC(L.U64(e.gcDel.value), c, id)} else d2;
    if e.gcDel.Some? { GCRows(d2, c, e.gcDel.value, id); }
    if e.gcPut.Some? { GCRows(d3, c, e.gcPut.value, id); }
  }

  /** The times an effect writes are int64 whenever the stored deadline is. */
  lemma EffectFits(bc: L.Cmd, p: Option<L.Pool>, l: Option<L.Lease>, t: Option<L.Tomb>)
    requires L.ValidCmd(bc) && (l.Some? ==> L.I64(l.value.reclaimMs))
    ensures var e := L.Apply(bc, p, l, t);
      e.Effect? ==>
        && Fits64(e.expPut) && Fits64(e.expDel) && Fits64(e.gcPut) && Fits64(e.gcDel)
        && (e.lease.Put? ==> L.I64(e.lease.v.reclaimMs))
  {
    hide L.GrantEcho, L.Refill, BE, L.U64;
  }

  lemma HeaderBook(d: Data, c: Coll)
    ensures BookOf(EnsureType(d, c, TBUDGET).0, c) == BookOf(d, c)
  {
    Apart(d, EnsureType(d, c, TBUDGET).0, c, Type(c));
    hide Leases, Tombs, Expiries, Collections, PoolOf;
  }

  /** A budget command on the rows of its collection is one ledger step with the ledger's result. */
  lemma BudgetIsLedgerStep(v: View, c: Command)
    requires var coll := Coll(c.ns, c.coll);
      DeadlinesFit(v.d, coll) && (TypeOf(v.d, coll) == 0 || TypeOf(v.d, coll) == TBUDGET)
    requires L.DecodeCmd(c.op, c.items).Some?
    ensures var coll, bc := Coll(c.ns, c.coll), L.DecodeCmd(c.op, c.items).value;
      var o, e := ApplyBudget(v, c), L.EffectOn(BookOf(v.d, coll), bc);
      && (o.Skip? <==> e.Corrupt?)
      && (o.Done? && !(e.header && TypeRow(v.d, coll) == Some(0)) ==>
            o.r == e.result && BookOf(o.v.d, coll) == L.Step(BookOf(v.d, coll), bc) && DeadlinesFit(o.v.d, coll))
  {
    hide L.Apply, L.DecodeCmd, Leases, Tombs, Expiries, Collections, PoolOf, LeaseOf, TombOf, WriteRecords,
      WriteIndexes, L.CmdId;
    var coll, bc := Coll(c.ns, c.coll), L.DecodeCmd(c.op, c.items).value;
    var id := L.CmdId(bc);
    L.DecodeCmdValid(c.op, c.items);
    GetAgrees(v.d, coll, id);
    var e := L.Apply(bc, PoolOf(v.d, coll), LeaseOf(v.d, coll, id), TombOf(v.d, coll, id));
    EffectFits(bc, PoolOf(v.d, coll), LeaseOf(v.d, coll, id), TombOf(v.d, coll, id));
    if e.Effect? {
      var d0 := if e.header then EnsureType(v.d, coll, TBUDGET).0 else v.d;
      HeaderBook(v.d, coll);
      RecordsStep(d0, coll, id, e);
      IndexesStep(WriteRecords(d0, coll, id, e), coll, id, e);
    }
  }
}
