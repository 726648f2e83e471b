/** What a command can touch: the rows of its own collection and the idempotency ring. Freezes touch only
    the frozen-range rows. */
module Frame {
  import opened Bytes
  import opened Codec
  import opened Rows
  import opened Machine
  import L = Ledger

  /** Rows a command on c may write before the commit. */
  ghost predicate Touches(c: Coll, r: Row)
  {
    (OfColl(r) && r.coll == c && !r.Card?) || r.Dedup? || r.Ring?
  }

  ghost predicate Framed(c: Coll, d: Data, d': Data)
  {
    forall r :: !Touches(c, r) ==> (r in d <==> r in d') && (r in d ==> d[r] == d'[r])
  }

  lemma ItemFramed(base: Data, d: Data, op: byte, c: Coll, it: Item)
    requires ValidItem(it)
    ensures Framed(c, d, ApplyItem(base, d, op, c, it).d)
  {
    hide ScoreTail, ScoreOf, ExpiryOf, TypeOf;
  }

  lemma {:induction false} ItemsFramed(base: Data, d: Data, op: byte, c: Coll, its: seq<Item>)
    requires forall i :: 0 <= i < |its| ==> ValidItem(its[i])
    ensures Framed(c, d, ApplyItems(base, d, op, c, its).d)
  {
    hide ApplyItem, Touches;
    if its != [] {
      var n := |its| - 1;
      ItemsFramed(base, d, op, c, its[..n]);
      ItemFramed(base, ApplyItems(base, d, op, c, its[..n]).d, op, c, its[n]);
    }
  }

  lemma RecordFramed(base: Data, v: View, key: bytes, r: PResult, c: Coll)
    ensures Framed(c, v.d, Record(base, v, key, r).d)
  {
    hide RingKey;
  }

  lemma HeaderFramed(d: Data, c: Coll, want: nat)
    ensures Framed(c, d, EnsureType(d, c, want).0)
  {
  }

  lemma CounterFramed(lib: Strconv, base: Data, v: View, c: Command)
    ensures var o := ApplyCounter(lib, base, v, c); o.Done? ==> Framed(Coll(c.ns, c.coll), v.d, o.v.d)
  {
    hide NextCount, Record, FieldOf;
    var coll := Coll(c.ns, c.coll);
    var o := ApplyCounter(lib, base, v, c);
    if o.Done? {
      var k := Elem(coll, c.items[0].key);
      var nx := NextCount(lib, c, FieldOf(v.d, k));
      if nx.Some? {
        var v1 := Bump(v, v.d[k := Raw(nx.value.0)], coll, o.r.value);
        RecordFramed(base, v1, c.idem, o.r, coll);
      }
    }
  }

  lemma WriteBudgetFramed(d: Data, c: Coll, id: bytes, e: L.Effect)
    requires e.Effect?
    ensures Framed(c, d, WriteBudget(d, c, id, e))
  {
    hide L.U64;
  }

  lemma BudgetFramed(v: View, c: Command)
    ensures var o := ApplyBudget(v, c); o.Done? ==> Framed(Coll(c.ns, c.coll), v.d, o.v.d)
  {
    hide L.Apply, L.DecodeCmd, WriteBudget, EnsureType, L.CmdId, PoolOf, LeaseOf, TombOf, Touches;
    var o := ApplyBudget(v, c);
    if o.Done? && o.v != v {
      var coll := Coll(c.ns, c.coll);
      var bc := L.DecodeCmd(c.op, c.items).value;
      var id := L.CmdId(bc);
      var e := L.Apply(bc, PoolOf(v.d, coll), LeaseOf(v.d, coll, id), TombOf(v.d, coll, id));
      HeaderFramed(v.d, coll, TBUDGET);
      WriteBudgetFramed(if e.header then EnsureType(v.d, coll, TBUDGET).0 else v.d, coll, id, e);
    }
  }

  lemma BodyFramed(lib: Strconv, base: Data, v: View, c: Command)
    requires ValidCommand(c)
    ensures var o := ApplyBody(lib, base, v, c); o.Done? ==> Framed(Coll(c.ns, c.coll), v.d, o.v.d)
  {
    hide ApplyCounter, ApplyBudget, ApplyItems, Record, EnsureType, Touches;
    var coll := Coll(c.ns, c.coll);
    HeaderFramed(v.d, coll, TypeForOp(c.op));
    var typed := c.op != EXPIRE && c.op != REMOVE && TypeForOp(c.op) != TBUDGET;
    var v1 := if typed then v.(d := EnsureType(v.d, coll, TypeForOp(c.op)).0) else v;
    CounterFramed(lib, base, v1, c);
    BudgetFramed(v1, c);
    ItemsFramed(base, v1.d, c.op, coll, c.items);
    var e := ApplyItems(base, v1.d, c.op, coll, c.items);
    RecordFramed(base, Bump(v1, e.d, coll, e.delta), c.idem, PResult(e.changed, []), coll);
  }

  /** The collection a command names. */
  function CollOf(cmd: bytes): Option<Coll>
  {
    if DecodeCommand(cmd).Some? then Some(Coll(DecodeCommand(cmd).value.ns, DecodeCommand(cmd).value.coll)) else None
  }

  /** A command leaves every row of every other collection, all counters, the applied index and the frozen
      ranges as they were; in a frozen range it leaves everything as it was. */
  lemma CommandFramed(lib: Strconv, base: Data, v: View, cmd: bytes)
    ensures var o := ApplyOne(lib, base, v, cmd);
      o.Done? ==>
        && CollOf(cmd).Some?
        && Framed(CollOf(cmd).value, v.d, o.v.d)
        && (FrozenCovers(base, RouteKey(CollOf(cmd).value)) ==> o.v == v && o.r.data == FROZEN_MARK)
  {
    hide ApplyBody, DecodeCommand, FrozenCovers, DedupGet;
    DecodeCommandValid(cmd);
    var c := DecodeCommand(cmd);
    if c.Some? { BodyFramed(lib, base, v, c.value); }
  }

  ghost predicate MetaFree(d: Data) { forall r :: r in d ==> !Meta(r) }

  lemma FramedMetaFree(c: Coll, d: Data, d': Data)
    requires MetaFree(d) && Framed(c, d, d')
    ensures MetaFree(d')
  {
  }

  lemma OneMetaFree(lib: Strconv, base: Data, v: View, cmd: bytes)
    requires MetaFree(v.d)
    ensures var o := ApplyOne(lib, base, v, cmd); o.Done? ==> MetaFree(o.v.d)
  {
    hide ApplyOne, CollOf, Framed, MetaFree, FrozenCovers;
    CommandFramed(lib, base, v, cmd);
    var o := ApplyOne(lib, base, v, cmd);
    if o.Done? { FramedMetaFree(CollOf(cmd).value, v.d, o.v.d); }
  }

  lemma {:induction false} SubsMetaFree(lib: Strconv, base: Data, v: View, subs: seq<bytes>)
    requires MetaFree(v.d)
    ensures var o := ApplySubs(lib, base, v, subs); o.SubDone? ==> MetaFree(o.v.d)
  {
    hide ApplyOne, MetaFree;
    if subs != [] {
      var n := |subs| - 1;
      SubsMetaFree(lib, base, v, subs[..n]);
      var h := ApplySubs(lib, base, v, subs[..n]);
      if h.SubDone? { OneMetaFree(lib, base, h.v, subs[n]); }
    }
  }

  lemma EntryMetaFree(lib: Strconv, base: Data, v: View, cmd: bytes)
    requires MetaFree(v.d) && !IsMigrate(cmd)
    ensures var o := ApplyEntry(lib, base, v, cmd); o.Done? ==> MetaFree(o.v.d)
  {
    hide ApplyOne, ApplySubs, DecodeBatch, DecodeBounds, EncodeBatchResult;
    if IsBatch(cmd) {
      if DecodeBatch(cmd).Some? { SubsMetaFree(lib, base, v, DecodeBatch(cmd).value); }
    } else if !IsFreeze(cmd) {
      OneMetaFree(lib, base, v, cmd);
    }
  }

  lemma {:induction false} FoldMetaFree(lib: Strconv, base: Data, v: View, es: seq<Entry>)
    requires MetaFree(v.d) && NoMigrate(es)
    ensures MetaFree(Fold(lib, base, v, es).d)
  {
    hide ApplyEntry, MetaFree;
    if es != [] {
      var n := |es| - 1;
      FoldMetaFree(lib, base, v, es[..n]);
      EntryMetaFree(lib, base, Fold(lib, base, v, es[..n]), es[n].cmd);
    }
  }
}
