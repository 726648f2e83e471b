/** The data shard's state machine as it runs: one store, and an Update that works through its entries on
    in-memory overlays, rolls failing entries back and commits one list of store operations. Every method
    is proved against the row-level meaning in Machine. */
module ShardSM {
  import opened Bytes
  import opened Codec
  import opened Rows
  import opened Machine
  import opened Overlays
  import B = Batching
  import C = Cardinality
  import F = Frame
  import L = Ledger

  datatype Op = PutOp(key: Row, val: Val) | DelOp(key: Row)

  function ApplyOp(d: Data, o: Op): Data
  {
    match o
    case PutOp(k, x) => d[k := x]
    case DelOp(k) => d - {k}
  }

  /** A batch is a left fold of puts and deletes. */
  function ApplyOps(d: Data, ops: seq<Op>): Data
  {
    if ops == [] then d else ApplyOp(ApplyOps(d, ops[..|ops| - 1]), ops[|ops| - 1])
  }

  lemma ApplySnoc(d: Data, ops: seq<Op>, o: Op)
    ensures ApplyOps(d, ops + [o]) == ApplyOp(ApplyOps(d, ops), o)
  {
    hide ApplyOp;
    assert (ops + [o])[..|ops|] == ops;
  }

  ghost predicate PureOps(ops: seq<Op>) { forall i :: 0 <= i < |ops| ==> !Meta(ops[i].key) }

  function DeltaOf(m: map<Coll, int>, c: Coll): int { if c in m then m[c] else 0 }

  lemma BumpBump(v: View, d1: Data, d2: Data, c: Coll, x: int, y: int)
    ensures Bump(Bump(v, d1, c, x), d2, c, y) == Bump(v, d2, c, x + y)
  {
  }

  /** updateSnapshot. */
  datatype Saved = Saved(opsLen: nat, dedupSeq: nat, exist: map<Row, bool>, zscore: map<Row, Option<nat>>,
                         cardDelta: map<Coll, int>, htype: map<Coll, nat>, vals: map<Row, Option<Val>>,
                         inBatch: map<bytes, PResult>)

  class UpdateCtx {
    const lib: Strconv
    const store: Data
    var ops: seq<Op>
    var exist: map<Row, bool>
    var zscore: map<Row, Option<nat>>
    var cardDelta: map<Coll, int>
    var htype: map<Coll, nat>
    var vals: map<Row, Option<Val>>
    var dedupSeq: nat
    var inBatch: map<bytes, PResult>
    ghost var v: View  // the view the overlays stand for

    ghost predicate Valid()
      reads this
    {
      && C.Typed(Strip(store))
      && PureOps(ops) && v.d == ApplyOps(Strip(store), ops)
      && (forall c :: DeltaOf(cardDelta, c) == Delta(v, c))
      && dedupSeq == v.seqNo && inBatch == v.cached
      && Coherent(Strip(store), v.d, htype, exist, vals, zscore)
    }

    constructor (lib: Strconv, store: Data)
      requires C.Typed(Strip(store))
      ensures Valid() && this.lib == lib && this.store == store && v == Start(store) && ops == []
    {
      this.lib, this.store := lib, store;
      ops, exist, zscore, cardDelta, htype, vals, inBatch := [], map[], map[], map[], map[], map[], map[];
      dedupSeq := SeqOf(store);
      v := Start(store);
      new;
      StartCoherent(Strip(store));
    }

    // -------------------------------------------------------------- reads

    method ElemExists(k: Row) returns (found: bool)
      requires Valid() && k.Elem? && TypeOf(v.d, k.coll) != TZSET
      ensures found <==> k in v.d
    {
      if k in exist { return exist[k]; }
      assert k in Strip(store) <==> k in store;
      return k in store;
    }

    method ZScore(c: Coll, m: bytes) returns (s: Option<nat>)
      requires Valid()
      ensures s == ScoreOf(v.d, c, m)
    {
      hide FieldsOk, ElemsOk, BudgetsOk, TypesOk, ApplyOps;
      if ZPtr(c, m) in zscore { return zscore[ZPtr(c, m)]; }
      StripScore(store, c, m);
      return ScoreOf(store, c, m);
    }

    method FieldVal(k: Row) returns (f: Option<bytes>)
      requires Valid() && k.Elem? && TypeOf(v.d, k.coll) == THASH
      ensures f == FieldOf(v.d, k)
    {
      if k in vals {
        return if vals[k].Some? then Some(if vals[k].value.Raw? then vals[k].value.b else []) else None;
      }
      assert Same(v.d, Strip(store), k);
      return FieldOf(store, k);
    }

    /** typeOf: caches what the store says. */
    method TypeOfColl(c: Coll) returns (t: nat)
      requires Valid()
      modifies `htype
      ensures Valid() && t == TypeOf(v.d, c)
    {
      hide FieldsOk, ElemsOk, BudgetsOk, ScoresOk, ApplyOps;
      if c in htype { return htype[c]; }
      StripType(store, c);
      var row := TypeRow(store, c);
      if row.None? { return 0; }
      CacheType(Strip(store), v.d, htype, exist, vals, zscore, c);
      htype := htype[c := row.value];
      return row.value;
    }

    // -------------------------------------------------------------- rows without an overlay

    /** Appends one store operation. */
    method Emit(o: Op)
      requires PureOps(ops) && !Meta(o.key)
      modifies `ops
      ensures PureOps(ops) && ops == old(ops) + [o]
      ensures ApplyOps(Strip(store), ops) == ApplyOp(ApplyOps(Strip(store), old(ops)), o)
    {
      ApplySnoc(Strip(store), ops, o);
      ops := ops + [o];
    }

    /** setTTL. */
    method PutTTL(c: Coll, m: bytes, expiry: nat)
      requires Valid()
      modifies `ops, `v
      ensures Valid() && old(ops) <= ops
      ensures v == old(v).(d := SetTTL(Strip(store), old(v).d, c, m, expiry))
    {
      hide Coherent, C.Typed, ApplyOps;
      StripExpiry(store, c, m);
      var prior := ExpiryOf(store, c, m);
      ghost var d0 := v.d;
      if prior.Some? {
        Emit(DelOp(TTLIdx(prior.value, c, m)));
      }
      Emit(PutOp(TTLIdx(expiry, c, m), Raw([])));
      Emit(PutOp(TTLPtr(c, m), Num(expiry)));
      v := v.(d := SetTTL(Strip(store), d0, c, m, expiry));
      TTLCoherent(Strip(store), d0, htype, exist, vals, zscore, c, m, expiry);
    }

    /** clearTTL. */
    method DropTTL(c: Coll, m: bytes)
      requires Valid()
      modifies `ops, `v
      ensures Valid() && old(ops) <= ops
      ensures v == old(v).(d := ClearTTL(Strip(store), old(v).d, c, m))
    {
      hide Coherent, C.Typed, ApplyOps;
      StripExpiry(store, c, m);
      var prior := ExpiryOf(store, c, m);
      if prior.None? { return; }
      ghost var d0 := v.d;
      Emit(DelOp(TTLIdx(prior.value, c, m)));
      Emit(DelOp(TTLPtr(c, m)));
      v := v.(d := ClearTTL(Strip(store), d0, c, m));
      assert v.d == d0 - {TTLIdx(prior.value, c, m)} - {TTLPtr(c, m)};
      TTLCoherent(Strip(store), d0, htype, exist, vals, zscore, c, m, 0);
    }

    /** ensureType. */
    method EnsureHeader(c: Coll, want: nat) returns (ok: bool)
      requires Valid() && want != 0
      modifies `ops, `htype, `v
      ensures Valid() && old(ops) <= ops
      ensures v == old(v).(d := EnsureType(old(v).d, c, want).0) && ok == EnsureType(old(v).d, c, want).1
    {
      hide FieldsOk, ElemsOk, BudgetsOk, ScoresOk, ApplyOps, C.Typed, C.Grown;
      if c in htype { return htype[c] == want; }
      StripType(store, c);
      var row := TypeRow(store, c);
      if row.Some? {
        CacheType(Strip(store), v.d, htype, exist, vals, zscore, c);
        htype := htype[c := row.value];
        return row.value == want;
      }
      WriteType(Strip(store), v.d, htype, exist, vals, zscore, c, want);
      Emit(PutOp(Type(c), Num(want)));
      htype := htype[c := want];
      v := v.(d := v.d[Type(c) := Num(want)]);
      return true;
    }

    // -------------------------------------------------------------- element rows

    /** Puts an element row; a hash also keeps its value overlay. */
    method PutElem(k: Row, x: Val, keepVal: bool)
      requires Valid() && k.Elem? && (TypeOf(v.d, k.coll) == TSET || TypeOf(v.d, k.coll) == THASH)
      requires TypeOf(v.d, k.coll) == THASH ==> keepVal
      modifies `ops, `exist, `vals, `v
      ensures Valid() && old(ops) <= ops
      ensures v == old(v).(d := old(v).d[k := x])
    {
      hide Coherent, C.Typed, ApplyOps;
      ghost var d', vals' := v.d[k := x], if keepVal then vals[k := Some(x)] else vals;
      WriteElem(Strip(store), v.d, d', htype, exist, vals, vals', zscore, k);
      Emit(PutOp(k, x));
      exist := exist[k := true];
      if keepVal { vals := vals[k := Some(x)]; }
      v := v.(d := d');
    }

    method DelElem(k: Row, keepVal: bool)
      requires Valid() && k.Elem? && (TypeOf(v.d, k.coll) == TSET || TypeOf(v.d, k.coll) == THASH)
      requires TypeOf(v.d, k.coll) == THASH ==> keepVal
      modifies `ops, `exist, `vals, `v
      ensures Valid() && old(ops) <= ops
      ensures v == old(v).(d := old(v).d - {k})
    {
      hide Coherent, C.Typed, ApplyOps;
      ghost var d', vals' := v.d - {k}, if keepVal then vals[k := None] else vals;
      WriteElem(Strip(store), v.d, d', htype, exist, vals, vals', zscore, k);
      Emit(DelOp(k));
      exist := exist[k := false];
      if keepVal { vals := vals[k := None]; }
      v := v.(d := d');
    }

    /** Moves the collection's pending counter. */
    method Count(c: Coll, by_: int)
      requires Valid()
      modifies `cardDelta, `v
      ensures Valid() && v == Bump(old(v), old(v).d, c, by_)
    {
      hide Coherent, C.Typed, ApplyOps;
      ghost var was, m := v, cardDelta;
      cardDelta := cardDelta[c := DeltaOf(cardDelta, c) + by_];
      v := Bump(v, v.d, c, by_);
      forall o ensures DeltaOf(cardDelta, o) == Delta(v, o) { assert DeltaOf(m, o) == Delta(was, o); }
    }

    method AddOne(c: Coll, it: Item) returns (changed: nat)
      requires Valid() && TypeOf(v.d, c) == TSET
      modifies this
      ensures Valid() && old(ops) <= ops
      ensures var e := AddMember(Strip(store), old(v).d, c, it);
        v == Bump(old(v), e.d, c, e.delta) && changed == e.changed
    {
      hide Valid, SetTTL, TypeOf;
      var k := Elem(c, it.key);
      var present := ElemExists(k);
      changed := 0;
      if !present {
        PutElem(k, Raw([]), false);
        Count(c, 1);
        changed := 1;
      } else {
        Count(c, 0);
      }
      if it.expiryMs > 0 { PutTTL(c, it.key, it.expiryMs); }
    }

    /** opSRem, opHDel and opRemove clear the value overlay too; opExpire does not. */
    method DropOne(c: Coll, it: Item, keepVal: bool) returns (changed: nat)
      requires Valid() && (TypeOf(v.d, c) == TSET || TypeOf(v.d, c) == THASH)
      requires TypeOf(v.d, c) == THASH ==> keepVal
      modifies this
      ensures Valid() && old(ops) <= ops
      ensures var e := DropElem(Strip(store), old(v).d, c, it);
        v == Bump(old(v), e.d, c, e.delta) && changed == e.changed
    {
      hide Valid, ClearTTL, TypeOf;
      var k := Elem(c, it.key);
      var present := ElemExists(k);
      changed := 0;
      if present {
        DelElem(k, keepVal);
        Count(c, -1);
        changed := 1;
      } else {
        Count(c, 0);
      }
      DropTTL(c, it.key);
    }

    method ExpireOne(c: Coll, it: Item) returns (changed: nat)
      requires Valid()
      modifies this
      ensures Valid() && old(ops) <= ops
      ensures var e := ExpireElem(Strip(store), old(v).d, c, it);
        v == Bump(old(v), e.d, c, e.delta) && changed == e.changed
    {
      hide ApplyOps, TypesOk, ElemsOk, FieldsOk, BudgetsOk, ScoresOk, DropElem;
      StripExpiry(store, c, it.key);
      var exp := ExpiryOf(store, c, it.key);
      if exp.None? || exp.value > L.U64(it.expiryMs) {
        Count(c, 0);
        return 0;
      }
      assert TTLPtr(c, it.key) in Strip(store);
      assert TypeOf(v.d, c) == TSET;
      changed := DropOne(c, it, false);
    }

    method SetOne(c: Coll, it: Item) returns (changed: nat)
      requires Valid() && TypeOf(v.d, c) == THASH
      modifies this
      ensures Valid() && old(ops) <= ops
      ensures var e := SetField(old(v).d, c, it); v == Bump(old(v), e.d, c, e.delta) && changed == e.changed
    {
      hide Valid, TypeOf;
      var k := Elem(c, it.key);
      var present := ElemExists(k);
      PutElem(k, Raw(it.val), true);
      changed := if present then 0 else 1;
      Count(c, changed);
    }

    /** Moves a member's index row and pointer to its new score. */
    method Repoint(c: Coll, it: Item, prior: Option<nat>)
      requires Valid() && TypeOf(v.d, c) == TZSET && ValidItem(it) && prior == ScoreOf(v.d, c, it.key)
      modifies `ops, `zscore, `v
      ensures Valid() && old(ops) <= ops && v == old(v).(d := AddScored(old(v).d, c, it).d)
    {
      hide Coherent, C.Typed, ApplyOps, ScoreTail, ScoreOf, TypeOf, DeltaOf, PureOps;
      ghost var d0 := v.d;
      if prior.Some? {
        Emit(DelOp(Elem(c, ScoreTail(prior.value, it.key))));
      }
      Emit(PutOp(Elem(c, ScoreTail(it.score, it.key)), Raw([])));
      Emit(PutOp(ZPtr(c, it.key), Num(it.score)));
      AddScoredCoherent(Strip(store), d0, htype, exist, vals, zscore, c, it);
      v := v.(d := AddScored(d0, c, it).d);
      zscore := zscore[ZPtr(c, it.key) := Some(it.score)];
    }

    /** Deletes a member's index row and pointer. */
    method Unpoint(c: Coll, it: Item, prior: nat)
      requires Valid() && TypeOf(v.d, c) == TZSET && Some(prior) == ScoreOf(v.d, c, it.key)
      modifies `ops, `zscore, `v
      ensures Valid() && old(ops) <= ops && v == old(v).(d := DropScored(old(v).d, c, it).d)
    {
      hide Coherent, C.Typed, ApplyOps, ScoreTail, ScoreOf, TypeOf, DeltaOf, PureOps;
      ghost var d0 := v.d;
      Emit(DelOp(Elem(c, ScoreTail(prior, it.key))));
      Emit(DelOp(ZPtr(c, it.key)));
      assert DropScored(d0, c, it).d == d0 - {Elem(c, ScoreTail(prior, it.key))} - {ZPtr(c, it.key)};
      DropScoredCoherent(Strip(store), d0, htype, exist, vals, zscore, c, it);
      v := v.(d := DropScored(d0, c, it).d);
      zscore := zscore[ZPtr(c, it.key) := None];
    }

    method AddScoredOne(c: Coll, it: Item) returns (changed: nat)
      requires Valid() && TypeOf(v.d, c) == TZSET && ValidItem(it)
      modifies this
      ensures Valid() && old(ops) <= ops
      ensures var e := AddScored(old(v).d, c, it); v == Bump(old(v), e.d, c, e.delta) && changed == e.changed
    {
      hide Valid, ScoreTail, ScoreOf, TypeOf;
      var prior := ZScore(c, it.key);
      Repoint(c, it, prior);
      changed := if prior.Some? then 0 else 1;
      Count(c, changed);
    }

    method DropScoredOne(c: Coll, it: Item) returns (changed: nat)
      requires Valid() && TypeOf(v.d, c) == TZSET
      modifies this
      ensures Valid() && old(ops) <= ops
      ensures var e := DropScored(old(v).d, c, it); v == Bump(old(v), e.d, c, e.delta) && changed == e.changed
    {
      hide Valid, ScoreTail, ScoreOf, TypeOf;
      var prior := ZScore(c, it.key);
      changed := 0;
      if prior.Some? {
        Unpoint(c, it, prior.value);
        Count(c, -1);
        changed := 1;
      } else {
        Count(c, 0);
      }
    }

    /** applyCommand's switch for one item. */
    method ApplyOneItem(op: byte, c: Coll, it: Item) returns (changed: nat)
      requires Valid() && ValidItem(it) && C.TypeFits(v.d, op, c) && Mutates(op)
      modifies this
      ensures Valid() && old(ops) <= ops
      ensures var e := ApplyItem(Strip(store), old(v).d, op, c, it);
        v == Bump(old(v), e.d, c, e.delta) && changed == e.changed
    {
      hide Valid, TypeOf, AddMember, DropElem, ExpireElem, SetField, AddScored, DropScored, Bump;
      if op == SADD { changed := AddOne(c, it); }
      else if op == SREM || op == HDEL { changed := DropOne(c, it, true); }
      else if op == EXPIRE { changed := ExpireOne(c, it); }
      else if op == HSET { changed := SetOne(c, it); }
      else if op == ZADD { changed := AddScoredOne(c, it); }
      else if op == ZREM { changed := DropScoredOne(c, it); }
      else {
        var t := 0;
        if op == REMOVE { t := TypeOfColl(c); }
        if t == TSET || t == THASH { changed := DropOne(c, it, true); }
        else if t == TZSET { changed := DropScoredOne(c, it); }
        else { Count(c, 0); changed := 0; }
      }
    }

    /** applyCommand: the loop over a command's items. */
    method ApplyAllItems(op: byte, c: Coll, its: seq<Item>) returns (changed: nat)
      requires Valid() && C.TypeFits(v.d, op, c) && Mutates(op)
      requires forall i :: 0 <= i < |its| ==> ValidItem(its[i])
      modifies this
      ensures Valid() && old(ops) <= ops
      ensures var e := ApplyItems(Strip(store), old(v).d, op, c, its);
        v == Bump(old(v), e.d, c, e.delta) && changed == e.changed
    {
      hide Valid, ApplyItem, Mutates, C.TypeFits;
      ghost var v0 := v;
      changed := 0;
      Count(c, 0);
      for i := 0 to |its|
        invariant Valid() && old(ops) <= ops
        invariant var e := ApplyItems(Strip(store), v0.d, op, c, its[..i]);
          v == Bump(v0, e.d, c, e.delta) && changed == e.changed
      {
        ghost var e := ApplyItems(Strip(store), v0.d, op, c, its[..i]);
        ItemsKeepTypes(Strip(store), v0.d, op, c, its[..i]);
        assert its[..i + 1][..i] == its[..i];
        ghost var f := ApplyItem(Strip(store), e.d, op, c, its[i]);
        var k := ApplyOneItem(op, c, its[i]);
        changed := changed + k;
        BumpBump(v0, e.d, f.d, c, e.delta, f.delta);
      }
      assert its[..|its|] == its;
    }

    // -------------------------------------------------------------- idempotency ring

    /** dedupRecord, and the in-batch record applyOne keeps beside it. */
    method DedupRecord(key: bytes, r: PResult)
      requires Valid()
      modifies `ops, `dedupSeq, `inBatch, `v
      ensures Valid() && old(ops) <= ops
      ensures v == Record(Strip(store), old(v), key, r)
    {
      hide Coherent, C.Typed, ApplyOps, DeltaOf, PureOps;
      var slot := dedupSeq % RING_SIZE;
      StripRing(store, slot);
      var prior := RingKey(store, slot);
      ghost var v0 := v;
      if prior.Some? {
        Emit(DelOp(Dedup(prior.value)));
      }
      Emit(PutOp(Ring(slot), Raw(key)));
      Emit(PutOp(Dedup(key), Cached(r)));
      dedupSeq := dedupSeq + 1;
      inBatch := inBatch[key := r];
      v := Record(Strip(store), v0, key, r);
      RecordCoherent(Strip(store), v0, htype, exist, vals, zscore, key, r);
    }

    // -------------------------------------------------------------- counters

    /** applyHIncrInt and applyHIncrFloat; None is an error. */
    method HIncr(c: Command) returns (res: Option<PResult>)
      requires Valid() && (c.op == HINCRBY || c.op == HINCRBYFLOAT) && TypeOf(v.d, Coll(c.ns, c.coll)) == THASH
      modifies this
      ensures old(ops) <= ops
      ensures var o := ApplyCounter(lib, Strip(store), old(v), c);
        res.Some? == o.Done? && (o.Done? ==> Valid() && v == o.v && res.value == o.r)
    {
      hide Valid, NextCount, FieldOf, Record, TypeOf;
      if c.items == [] || (c.op == HINCRBY && |c.items[0].val| < 8) { return None; }
      var coll := Coll(c.ns, c.coll);
      var k := Elem(coll, c.items[0].key);
      var cur := FieldVal(k);
      var nx := NextCount(lib, c, cur);
      if nx.None? { return Some(PResult(0, NOT_NUMBER)); }
      PutElem(k, Raw(nx.value.0), true);
      var changed := if cur.None? then 1 else 0;
      Count(coll, changed);
      var r := PResult(changed, nx.value.1);
      if |c.idem| > 0 { DedupRecord(c.idem, r); }
      return Some(r);
    }

    // -------------------------------------------------------------- budgets

    method PoolRow(c: Coll) returns (p: Option<L.Pool>)
      requires Valid()
      ensures p == PoolOf(v.d, c)
    {
      hide FieldsOk, ElemsOk, ScoresOk, TypesOk, ApplyOps, C.Typed;
      var k := BudPool(c);
      assert BudRow(k);
      if k in vals { return if vals[k].Some? && vals[k].value.PoolV? then Some(vals[k].value.p) else None; }
      StripKeeps(store, k);
      return PoolOf(store, c);
    }

    method LeaseRow(c: Coll, id: bytes) returns (l: Option<L.Lease>)
      requires Valid()
      ensures l == LeaseOf(v.d, c, id)
    {
      hide FieldsOk, ElemsOk, ScoresOk, TypesOk, ApplyOps, C.Typed;
      var k := BudLease(c, id);
      assert BudRow(k);
      if k in vals { return if vals[k].Some? && vals[k].value.LeaseV? then Some(vals[k].value.l) else None; }
      StripKeeps(store, k);
      return LeaseOf(store, c, id);
    }

    method TombRow(c: Coll, id: bytes) returns (t: Option<L.Tomb>)
      requires Valid()
      ensures t == TombOf(v.d, c, id)
    {
      hide FieldsOk, ElemsOk, ScoresOk, TypesOk, ApplyOps, C.Typed;
      var k := BudTomb(c, id);
      assert BudRow(k);
      if k in vals { return if vals[k].Some? && vals[k].value.TombV? then Some(vals[k].value.t) else None; }
      StripKeeps(store, k);
      return TombOf(store, c, id);
    }

    /** setPool, setLease, setTomb. */
    method PutBud(k: Row, x: Val)
      requires Valid() && BudRow(k)
      modifies `ops, `vals, `v
      ensures Valid() && old(ops) <= ops && v == old(v).(d := old(v).d[k := x])
    {
      hide Coherent, C.Typed, ApplyOps, DeltaOf, PureOps;
      WriteBud(Strip(store), v.d, v.d[k := x], htype, exist, vals, zscore, k);
      Emit(PutOp(k, x));
      vals := vals[k := Some(x)];
      v := v.(d := v.d[k := x]);
    }

    /** delLease, delTomb. */
    method DelBud(k: Row)
      requires Valid() && BudRow(k)
      modifies `ops, `vals, `v
      ensures Valid() && old(ops) <= ops && v == old(v).(d := old(v).d - {k})
    {
      hide Coherent, C.Typed, ApplyOps, DeltaOf, PureOps;
      WriteBud(Strip(store), v.d, v.d - {k}, htype, exist, vals, zscore, k);
      Emit(DelOp(k));
      vals := vals[k := None];
      v := v.(d := v.d - {k});
    }

    /** setBudExp, delBudExp, setBudTombGC, delBudTombGC: index rows have no overlay. */
    method IndexOp(o: Op)
      requires Valid() && (o.key.BudExp? || o.key.BudGC?)
      modifies `ops, `v
      ensures Valid() && old(ops) <= ops && v == old(v).(d := ApplyOp(old(v).d, o))
    {
      hide Coherent, C.Typed, ApplyOps, DeltaOf, PureOps;
      NeutralWrite(Strip(store), v.d, ApplyOp(v.d, o), htype, exist, vals, zscore);
      Emit(o);
      v := v.(d := ApplyOp(v.d, o));
    }

    method PutRecords(c: Coll, id: bytes, e: L.Effect)
      requires Valid() && e.Effect?
      modifies `ops, `vals, `v
      ensures Valid() && old(ops) <= ops && v == old(v).(d := WriteRecords(old(v).d, c, id, e))
    {
      hide Valid;
      if e.pool.Some? { PutBud(BudPool(c), PoolV(e.pool.value)); }
      if e.lease.Put? { PutBud(BudLease(c, id), LeaseV(e.lease.v)); }
      if e.lease.Del? { DelBud(BudLease(c, id)); }
      if e.tomb.Put? { PutBud(BudTomb(c, id), TombV(e.tomb.v)); }
      if e.tomb.Del? { DelBud(BudTomb(c, id)); }
    }

    method PutIndexes(c: Coll, id: bytes, e: L.Effect)
      requires Valid() && e.Effect?
      modifies `ops, `v
      ensures Valid() && old(ops) <= ops && v == old(v).(d := WriteIndexes(old(v).d, c, id, e))
    {
      hide Valid, L.U64;
      if e.expDel.Some? { IndexOp(DelOp(BudExp(L.U64(e.expDel.value), c, id))); }
      if e.expPut.Some? { IndexOp(PutOp(BudExp(L.U64(e.expPut.value), c, id), Raw([]))); }
      if e.gcDel.Some? { IndexOp(DelOp(BudGC(L.U64(e.gcDel.value), c, id))); }
      if e.gcPut.Some? { IndexOp(PutOp(BudGC(L.U64(e.gcPut.value), c, id), Raw([]))); }
    }

    /** applyOne's budget block. */
    method Budget(c: Command) returns (res: Option<PResult>)
      requires Valid()
      modifies this
      ensures old(ops) <= ops
      ensures var o := ApplyBudget(old(v), c);
        res.Some? == o.Done? && (o.Done? ==> Valid() && v == o.v && res.value == o.r)
    {
      hide Valid, L.Apply, L.DecodeCmd, WriteRecords, WriteIndexes, EnsureType, L.CmdId, PoolOf, LeaseOf, TombOf,
        TypeOf;
      var coll := Coll(c.ns, c.coll);
      var t := TypeOfColl(coll);
      if t != 0 && t != TBUDGET { return Some(PResult(0, WRONG_TYPE)); }
      var bc := L.DecodeCmd(c.op, c.items);
      if bc.None? { return None; }
      var id := L.CmdId(bc.value);
      var p := PoolRow(coll);
      var l := LeaseRow(coll, id);
      var tb := TombRow(coll, id);
      var e := L.Apply(bc.value, p, l, tb);
      if e.Corrupt? { return None; }
      if e.header {
        var ok := EnsureHeader(coll, TBUDGET);
        if !ok { WrongHeader(old(v).d, coll, TBUDGET); return Some(PResult(0, WRONG_TYPE)); }
      }
      PutRecords(coll, id, e);
      PutIndexes(coll, id, e);
      return Some(e.result);
    }

    // -------------------------------------------------------------- one command

    /** applyOne; None is a non-fatal error. */
    method ApplyCmd(cmd: bytes, frozen: seq<(bytes, bytes)>) returns (res: Option<PResult>)
      requires Valid() && Loaded(frozen, Strip(store))
      modifies this
      ensures old(ops) <= ops
      ensures var o := ApplyOne(lib, Strip(store), old(v), cmd);
        res.Some? == o.Done? && (o.Done? ==> Valid() && v == o.v && res.value == o.r)
    {
      hide Coherent, C.Typed, ApplyOps, DecodeCommand, ApplyBody, FrozenCovers, Loaded;
      DecodeCommandValid(cmd);
      var dc := DecodeCommandInto(cmd);
      if dc.None? { return None; }
      var c := dc.value;
      var stop := Covers(frozen, RouteKey(Coll(c.ns, c.coll)), Strip(store));
      if stop { return Some(PResult(0, FROZEN_MARK)); }
      if |c.idem| > 0 {
        if c.idem in inBatch { return Some(inBatch[c.idem]); }
        StripDedup(store, c.idem);
        var hit := DedupGet(store, c.idem);
        if hit.Some? { return hit; }
      }
      res := ApplyDecoded(c);
    }

    method ApplyDecoded(c: Command) returns (res: Option<PResult>)
      requires Valid() && ValidCommand(c)
      modifies this
      ensures old(ops) <= ops
      ensures var o := ApplyBody(lib, Strip(store), old(v), c);
        res.Some? == o.Done? && (o.Done? ==> Valid() && v == o.v && res.value == o.r)
    {
      hide Valid, ApplyCounter, ApplyBudget, ApplyItems, Record, EnsureType, Bump, Strip;
      var coll := Coll(c.ns, c.coll);
      if c.op != EXPIRE && c.op != REMOVE && TypeForOp(c.op) != TBUDGET {
        var ok := EnsureHeader(coll, TypeForOp(c.op));
        if !ok { WrongHeader(old(v).d, coll, TypeForOp(c.op)); return Some(PResult(0, WRONG_TYPE)); }
        HeaderIs(old(v).d, coll, TypeForOp(c.op));
      }
      if c.op == HINCRBY || c.op == HINCRBYFLOAT { res := HIncr(c); return; }
      if TypeForOp(c.op) == TBUDGET { res := Budget(c); return; }
      var changed := ApplyAllItems(c.op, coll, c.items);
      var r := PResult(changed, []);
      if |c.idem| > 0 { DedupRecord(c.idem, r); }
      return Some(r);
    }

    // -------------------------------------------------------------- one entry

    method Freeze(cmd: bytes) returns (res: Option<PResult>)
      requires Valid() && IsFreeze(cmd)
      modifies this
      ensures old(ops) <= ops
      ensures var o := ApplyFreeze(old(v), cmd);
        res.Some? == o.Done? && (o.Done? ==> Valid() && v == o.v && res.value == o.r)
    {
      hide Coherent, C.Typed, ApplyOps, DeltaOf, PureOps, DecodeBounds;
      var b := DecodeBounds(cmd);
      if b.None? { return None; }
      var o := if cmd[0] == FREEZE then PutOp(Frozen(b.value.0), Raw(b.value.1)) else DelOp(Frozen(b.value.0));
      NeutralWrite(Strip(store), v.d, ApplyOp(v.d, o), htype, exist, vals, zscore);
      Emit(o);
      v := v.(d := ApplyOp(v.d, o));
      return Some(PResult(1, []));
    }

    /** The opBatch branch of applyEntry. */
    method ApplyBatch(cmd: bytes, frozen: seq<(bytes, bytes)>) returns (res: Option<PResult>)
      requires Valid() && Loaded(frozen, Strip(store)) && IsBatch(cmd) && !IsMigrate(cmd) && !IsFreeze(cmd)
      modifies this
      ensures old(ops) <= ops
      ensures var o := ApplyEntry(lib, Strip(store), old(v), cmd);
        res.Some? == o.Done? && (o.Done? ==> Valid() && v == o.v && res.value == o.r)
    {
      hide Valid, ApplyOne, DecodeBatch, Loaded, EncodeBatchResult, Strip;
      var subs := SplitBatch(cmd);
      if subs.None? { return None; }
      var ss := subs.value;
      var rs: seq<PResult> := [];
      ghost var v0 := v;
      for i := 0 to |ss|
        invariant Valid() && old(ops) <= ops
        invariant ApplySubs(lib, Strip(store), v0, ss[..i]) == SubDone(v, rs)
      {
        assert ss[..i + 1][..i] == ss[..i];
        var r := ApplyCmd(ss[i], frozen);
        if r.None? {
          SubsPrefixSkips(lib, Strip(store), v0, ss, i + 1);
          return None;
        }
        rs := rs + [r.value];
      }
      assert ss[..|ss|] == ss;
      return Some(PResult(0, EncodeBatchResult(rs)));
    }

    /** applyEntry without the migration opcodes, applyEntrySafe's panics counted as errors. */
    method ApplyLogEntry(cmd: bytes, frozen: seq<(bytes, bytes)>) returns (res: Option<PResult>)
      requires Valid() && Loaded(frozen, Strip(store)) && !IsMigrate(cmd)
      modifies this
      ensures old(ops) <= ops
      ensures var o := ApplyEntry(lib, Strip(store), old(v), cmd);
        res.Some? == o.Done? && (o.Done? ==> Valid() && v == o.v && res.value == o.r)
    {
      hide Valid, ApplyOne, ApplyFreeze, ApplySubs, DecodeBatch, Loaded, EncodeBatchResult, Strip;
      if MigrateOp(cmd) { return None; }
      if IsFreeze(cmd) { res := Freeze(cmd); }
      else if IsBatch(cmd) { res := ApplyBatch(cmd, frozen); }
      else { res := ApplyCmd(cmd, frozen); }
    }

    // -------------------------------------------------------------- rollback

    method Snapshot() returns (s: Saved)
      ensures s == Saved(|ops|, dedupSeq, exist, zscore, cardDelta, htype, vals, inBatch)
    {
      return Saved(|ops|, dedupSeq, exist, zscore, cardDelta, htype, vals, inBatch);
    }

    /** restore: whatever a failed entry did, the context is the one the snapshot was taken of. */
    method Restore(s: Saved, ghost wasOps: seq<Op>, ghost wasView: View)
      requires s.opsLen == |wasOps| && wasOps <= ops
      modifies this
      ensures ops == wasOps && v == wasView
      ensures Saved(|ops|, dedupSeq, exist, zscore, cardDelta, htype, vals, inBatch) == s
    {
      if |ops| > s.opsLen { ops := ops[..s.opsLen]; }
      dedupSeq, exist, zscore, cardDelta := s.dedupSeq, s.exist, s.zscore, s.cardDelta;
      htype, vals, inBatch := s.htype, s.vals, s.inBatch;
      v := wasView;
    }

    /** One turn of Update's loop: apply the entry, or roll it back and report the zero result. */
    method Turn(e: Entry, frozen: seq<(bytes, bytes)>) returns (r: PResult)
      requires Valid() && Loaded(frozen, Strip(store)) && !IsMigrate(e.cmd)
      modifies this
      ensures Valid() && v == Fold(lib, Strip(store), old(v), [e]) && [r] == Results(lib, Strip(store), old(v), [e])
    {
      hide ApplyEntry, Coherent, C.Typed, ApplyOps, Loaded, Strip, PureOps;
      B.SingleFold(lib, Strip(store), v, e);
      var s := Snapshot();
      ghost var wasOps, wasView := ops, v;
      var res := ApplyLogEntry(e.cmd, frozen);
      if res.None? {
        Restore(s, wasOps, wasView);
        return PResult(0, []);
      }
      return res.value;
    }
  }

  lemma StripScore(st: Data, c: Coll, m: bytes)
    ensures ScoreOf(Strip(st), c, m) == ScoreOf(st, c, m)
  {
    assert !Meta(ZPtr(c, m));
  }

  lemma StripType(st: Data, c: Coll)
    ensures TypeRow(Strip(st), c) == TypeRow(st, c)
  {
    assert !Meta(Type(c));
  }

  lemma StripExpiry(st: Data, c: Coll, m: bytes)
    ensures ExpiryOf(Strip(st), c, m) == ExpiryOf(st, c, m)
  {
    assert !Meta(TTLPtr(c, m));
  }

  lemma NewScore(d: Data, c: Coll, it: Item)
    requires ValidItem(it)
    ensures ScoreOf(AddScored(d, c, it).d, c, it.key) == Some(it.score)
  {
    hide ScoreTail;
  }

  lemma NoScore(d: Data, c: Coll, it: Item)
    requires ScoreOf(d, c, it.key).Some?
    ensures ScoreOf(DropScored(d, c, it).d, c, it.key) == None
  {
    hide ScoreTail;
  }

  lemma AddScoredCoherent(base: Data, d: Data, htype: map<Coll, nat>, exist: map<Row, bool>,
                          vals: map<Row, Option<Val>>, zscore: map<Row, Option<nat>>, c: Coll, it: Item)
    requires Coherent(base, d, htype, exist, vals, zscore) && TypeOf(d, c) == TZSET && ValidItem(it)
    ensures Coherent(base, AddScored(d, c, it).d, htype, exist, vals, zscore[ZPtr(c, it.key) := Some(it.score)])
  {
    hide Coherent, TypeOf, ScoreTail, ScoreOf;
    NewScore(d, c, it);
    WriteScored(base, d, AddScored(d, c, it).d, htype, exist, vals, zscore, c, it.key);
  }

  lemma DropScoredCoherent(base: Data, d: Data, htype: map<Coll, nat>, exist: map<Row, bool>,
                           vals: map<Row, Option<Val>>, zscore: map<Row, Option<nat>>, c: Coll, it: Item)
    requires Coherent(base, d, htype, exist, vals, zscore) && TypeOf(d, c) == TZSET && ScoreOf(d, c, it.key).Some?
    ensures Coherent(base, DropScored(d, c, it).d, htype, exist, vals, zscore[ZPtr(c, it.key) := None])
  {
    hide Coherent, TypeOf, ScoreTail, ScoreOf;
    NoScore(d, c, it);
    WriteScored(base, d, DropScored(d, c, it).d, htype, exist, vals, zscore, c, it.key);
  }

  lemma TTLCoherent(base: Data, d: Data, htype: map<Coll, nat>, exist: map<Row, bool>,
                    vals: map<Row, Option<Val>>, zscore: map<Row, Option<nat>>, c: Coll, m: bytes, expiry: nat)
    requires Coherent(base, d, htype, exist, vals, zscore)
    ensures Coherent(base, SetTTL(base, d, c, m, expiry), htype, exist, vals, zscore)
    ensures Coherent(base, ClearTTL(base, d, c, m), htype, exist, vals, zscore)
  {
    hide Coherent, ExpiryOf;
    NeutralWrite(base, d, SetTTL(base, d, c, m, expiry), htype, exist, vals, zscore);
    NeutralWrite(base, d, ClearTTL(base, d, c, m), htype, exist, vals, zscore);
  }

  lemma ItemKeepsTypes(base: Data, d: Data, op: byte, c: Coll, it: Item)
    requires ValidItem(it)
    ensures C.SameTypes(d, ApplyItem(base, d, op, c, it).d)
  {
    hide ScoreTail, ScoreOf, ExpiryOf;
  }

  lemma {:induction false} ItemsKeepTypes(base: Data, d: Data, op: byte, c: Coll, its: seq<Item>)
    requires forall i :: 0 <= i < |its| ==> ValidItem(its[i])
    ensures C.SameTypes(d, ApplyItems(base, d, op, c, its).d)
    ensures C.TypeFits(d, op, c) ==> C.TypeFits(ApplyItems(base, d, op, c, its).d, op, c)
  {
    hide ApplyItem, TypeRow;
    if its != [] {
      var n := |its| - 1;
      ItemsKeepTypes(base, d, op, c, its[..n]);
      ItemKeepsTypes(base, ApplyItems(base, d, op, c, its[..n]).d, op, c, its[n]);
    }
  }

  lemma StripRing(st: Data, slot: nat)
    ensures RingKey(Strip(st), slot) == RingKey(st, slot)
  {
    assert !Meta(Ring(slot));
  }

  lemma RecordCoherent(base: Data, v: View, htype: map<Coll, nat>, exist: map<Row, bool>,
                       vals: map<Row, Option<Val>>, zscore: map<Row, Option<nat>>, key: bytes, r: PResult)
    requires Coherent(base, v.d, htype, exist, vals, zscore)
    ensures Coherent(base, Record(base, v, key, r).d, htype, exist, vals, zscore)
  {
    hide Coherent, RingKey;
    NeutralWrite(base, v.d, Record(base, v, key, r).d, htype, exist, vals, zscore);
  }

  lemma StripKeeps(st: Data, r: Row)
    requires !Meta(r)
    ensures Same(Strip(st), st, r)
  {
  }

  lemma StripDedup(st: Data, key: bytes)
    ensures DedupGet(Strip(st), key) == DedupGet(st, key)
  {
    assert !Meta(Dedup(key));
  }

  lemma WrongHeader(d: Data, c: Coll, want: nat)
    requires !EnsureType(d, c, want).1
    ensures EnsureType(d, c, want).0 == d
  {
  }

  lemma HeaderIs(d: Data, c: Coll, want: nat)
    requires EnsureType(d, c, want).1
    ensures TypeOf(EnsureType(d, c, want).0, c) == want
  {
  }

  /** frozen lists the frozen ranges of the rows. */
  ghost predicate Loaded(frozen: seq<(bytes, bytes)>, base: Data)
  {
    forall rk :: FrozenCovers(base, rk) <==> exists i :: 0 <= i < |frozen| && InRoute(rk, frozen[i].0, frozen[i].1)
  }

  /** frozenCovers. */
  method Covers(frozen: seq<(bytes, bytes)>, rk: bytes, ghost base: Data) returns (yes: bool)
    requires Loaded(frozen, base)
    ensures yes == FrozenCovers(base, rk)
  {
    hide FrozenCovers, InRoute;
    for i := 0 to |frozen|
      invariant forall j :: 0 <= j < i ==> !InRoute(rk, frozen[j].0, frozen[j].1)
    {
      if InRoute(rk, frozen[i].0, frozen[i].1) { return true; }
    }
    return false;
  }

  lemma {:induction false} SubsPrefixSkips(lib: Strconv, base: Data, v: View, ss: seq<bytes>, n: nat)
    requires n <= |ss| && ApplySubs(lib, base, v, ss[..n]).SubSkip?
    ensures ApplySubs(lib, base, v, ss).SubSkip?
  {
    hide ApplyOne;
    if n == |ss| {
      assert ss[..n] == ss;
    } else {
      var m := |ss| - 1;
      assert ss[..m][..n] == ss[..n];
      SubsPrefixSkips(lib, base, v, ss[..m], n);
    }
  }

  /** PureOps leave the bookkeeping rows alone and act on the others as on the stripped store. */
  lemma {:induction false} OpsOnStore(st: Data, ops: seq<Op>)
    requires PureOps(ops)
    ensures forall r ::
      if Meta(r) then Same(ApplyOps(st, ops), st, r) else Same(ApplyOps(st, ops), ApplyOps(Strip(st), ops), r)
  {
    hide Meta;
    if ops == [] {
      forall r | !Meta(r) ensures Same(st, Strip(st), r) { StripKeeps(st, r); }
    } else {
      var n := |ops| - 1;
      OpsOnStore(st, ops[..n]);
      var a, b := ApplyOps(st, ops[..n]), ApplyOps(Strip(st), ops[..n]);
      forall r
        ensures if Meta(r) then Same(ApplyOps(st, ops), st, r) else Same(ApplyOps(st, ops), ApplyOps(Strip(st), ops), r)
      {
        assert if Meta(r) then Same(a, st, r) else Same(a, b, r);
      }
    }
  }

  class Shard {
    const lib: Strconv
    var store: Data

    constructor (lib: Strconv)
      ensures this.lib == lib && store == map[]
    {
      this.lib, store := lib, map[];
    }

    /** loadFrozen: collects the frozen-range rows. */
    method LoadFrozen() returns (frozen: seq<(bytes, bytes)>)
      ensures Loaded(frozen, Strip(store))
    {
      hide InRoute, Strip;
      frozen := [];
      var todo := store.Keys;
      while todo != {}
        invariant todo <= store.Keys
        invariant forall i :: 0 <= i < |frozen| ==>
          Frozen(frozen[i].0) in store && store[Frozen(frozen[i].0)] == Raw(frozen[i].1)
        invariant forall r :: r in store && r !in todo && r.Frozen? && store[r].Raw? ==> (r.start, store[r].b) in frozen
        decreases todo
      {
        var r :| r in todo;
        if r.Frozen? && store[r].Raw? { frozen := frozen + [(r.start, store[r].b)]; }
        todo := todo - {r};
      }
      FrozenLoaded(store, frozen);
    }

    /** Update's flush of the counter deltas; the map is visited in any order. */
    method FlushCards(m: map<Coll, int>, ops0: seq<Op>) returns (ops: seq<Op>)
      ensures ApplyOps(store, ops) == ApplyOps(store, ops0) + CardsOn(store, m, m.Keys)
    {
      hide ApplyOps, NewCard, CardOf;
      ops := ops0;
      ghost var A := ApplyOps(store, ops0);
      var todo := m.Keys;
      assert A == A + CardsOn(store, m, {});
      while todo != {}
        invariant todo <= m.Keys
        invariant ApplyOps(store, ops) == A + CardsOn(store, m, m.Keys - todo)
        decreases todo
      {
        var c :| c in todo;
        ghost var did := m.Keys - todo;
        CardsOnAdd(store, m, did, c, A);
        if m[c] != 0 {
          var nv := NewCard(CardOf(store, c), m[c]);
          ApplySnoc(store, ops, PutOp(Card(c), Num(nv)));
          ops := ops + [PutOp(Card(c), Num(nv))];
        }
        todo := todo - {c};
        assert m.Keys - todo == did + {c};
      }
      assert m.Keys - todo == m.Keys;
    }

    /** The tail of Update: ring sequence, counters and applied index join the operations, then one batch. */
    method CommitBatch(ops0: seq<Op>, dedupSeq: nat, cardDelta: map<Coll, int>, last: nat, ghost v: View)
      requires PureOps(ops0) && v.d == ApplyOps(Strip(store), ops0) && v.seqNo == dedupSeq
      requires forall c :: DeltaOf(cardDelta, c) == Delta(v, c)
      modifies this
      ensures store == Commit(old(store), v, last)
    {
      FlushIsCommit(store, ops0, v, cardDelta, last);
      hide ApplyOps, PureOps, Commit, DeltaOf, Delta, CardsOn, SeqOf, Strip;
      var ops := ops0;
      if dedupSeq != SeqOf(store) {
        ApplySnoc(store, ops, PutOp(DedupSeq, Num(dedupSeq)));
        ops := ops + [PutOp(DedupSeq, Num(dedupSeq))];
      }
      ops := FlushCards(cardDelta, ops);
      ApplySnoc(store, ops, PutOp(Applied, Num(last)));
      store := ApplyOps(store, ops + [PutOp(Applied, Num(last))]);
    }

    /** Applies committed entries in one batch. The store and the results are the row-level meaning of the
        list: overlays, rollback and the single commit are invisible. */
    method Update(es: seq<Entry>) returns (rs: seq<PResult>)
      requires C.Typed(Strip(store)) && NoMigrate(es)
      modifies this
      ensures store == Machine.Update(lib, old(store), es)
      ensures rs == UpdateResults(lib, old(store), es)
    {
      hide ApplyEntry, ApplyOps, Coherent, C.Typed, Strip, Commit, Loaded, SeqOf;
      rs := [];
      if es == [] { return; }
      var u := new UpdateCtx(lib, store);
      var frozen := LoadFrozen();
      for i := 0 to |es|
        invariant u.Valid() && u.lib == lib && u.store == store == old(store)
        invariant u.v == Fold(lib, Strip(store), Start(store), es[..i])
        invariant rs == Results(lib, Strip(store), Start(store), es[..i])
      {
        assert es[..i + 1][..i] == es[..i];
        B.SingleFold(lib, Strip(store), u.v, es[i]);
        var r := u.Turn(es[i], frozen);
        rs := rs + [r];
      }
      assert es[..|es|] == es;
      CommitBatch(u.ops, u.dedupSeq, u.cardDelta, es[|es| - 1].index, u.v);
    }
  }

  lemma FrozenLoaded(st: Data, frozen: seq<(bytes, bytes)>)
    requires forall i :: 0 <= i < |frozen| ==> Frozen(frozen[i].0) in st && st[Frozen(frozen[i].0)] == Raw(frozen[i].1)
    requires forall r :: r in st && r.Frozen? && st[r].Raw? ==> (r.start, st[r].b) in frozen
    ensures Loaded(frozen, Strip(st))
  {
    hide InRoute;
    forall rk
      ensures FrozenCovers(Strip(st), rk) <==> exists i :: 0 <= i < |frozen| && InRoute(rk, frozen[i].0, frozen[i].1)
    {
      if FrozenCovers(Strip(st), rk) {
        var r :| r in Strip(st) && r.Frozen? && Strip(st)[r].Raw? && InRoute(rk, r.start, Strip(st)[r].b);
        var i :| 0 <= i < |frozen| && frozen[i] == (r.start, st[r].b);
      }
      if i :| 0 <= i < |frozen| && InRoute(rk, frozen[i].0, frozen[i].1) {
        var r := Frozen(frozen[i].0);
        assert r in Strip(st) && r.Frozen? && Strip(st)[r].Raw? && InRoute(rk, r.start, Strip(st)[r].b);
      }
    }
  }

  /** The counter rows of the collections in `did`. */
  ghost function CardsOn(st: Data, m: map<Coll, int>, did: set<Coll>): Data
  {
    map c | c in m && c in did && m[c] != 0 :: Card(c) := Num(NewCard(CardOf(st, c), m[c]))
  }

  lemma CardsOnAdd(st: Data, m: map<Coll, int>, did: set<Coll>, c: Coll, A: Data)
    requires c in m
    ensures A + CardsOn(st, m, did + {c}) ==
      if m[c] != 0 then (A + CardsOn(st, m, did))[Card(c) := Num(NewCard(CardOf(st, c), m[c]))]
      else A + CardsOn(st, m, did)
  {
    hide NewCard, CardOf;
    if m[c] == 0 {
      assert CardsOn(st, m, did + {c}) == CardsOn(st, m, did);
    } else {
      assert CardsOn(st, m, did + {c}) == CardsOn(st, m, did)[Card(c) := Num(NewCard(CardOf(st, c), m[c]))];
    }
  }

  /** Deltas that agree pointwise flush alike. */
  lemma SameCards(st: Data, m: map<Coll, int>, v: View)
    requires forall c :: DeltaOf(m, c) == Delta(v, c)
    ensures CardsOn(st, m, m.Keys) == CardRows(st, v)
  {
    hide NewCard, CardOf;
    var a, b := CardsOn(st, m, m.Keys), CardRows(st, v);
    forall c ensures Card(c) in a <==> Card(c) in b { assert DeltaOf(m, c) == Delta(v, c); }
    assert a.Keys == b.Keys;
    forall r | r in a ensures a[r] == b[r] { assert DeltaOf(m, r.coll) == Delta(v, r.coll); }
  }

  lemma OpsBeside(st: Data, ops: seq<Op>, d: Data)
    requires PureOps(ops) && d == ApplyOps(Strip(st), ops)
    ensures ApplyOps(st, ops) == d + (map r | r in st && Meta(r) :: st[r])
    ensures F.MetaFree(d)
  {
    OpsOnStore(st, ops);
    OpsMetaFree(Strip(st), ops);
    hide ApplyOps, Strip, Meta;
    var a, b := ApplyOps(st, ops), d + (map r | r in st && Meta(r) :: st[r]);
    forall r ensures Same(a, b, r) { assert if Meta(r) then Same(a, st, r) else Same(a, d, r); }
    SameMaps(a, b);
  }

  lemma SameMaps(a: Data, b: Data)
    requires forall r :: Same(a, b, r)
    ensures a == b
  {
    assert forall r :: r in a ==> Same(a, b, r);
    assert forall r :: r in b ==> Same(a, b, r);
  }

  /** The order of the last layers of a commit does not matter. */
  lemma Layers(d: Data, meta: Data, cards: Data, sq: Option<Val>, ap: Val)
    requires forall r :: r in cards ==> r.Card?
    ensures var b := if sq.Some? then (d + meta)[DedupSeq := sq.value] else d + meta;
      var tail := if sq.Some? then map[DedupSeq := sq.value] else map[];
      (b + cards)[Applied := ap] == d + (meta + cards + tail + map[Applied := ap])
  {
    assert DedupSeq !in cards && Applied !in cards;
  }

  lemma {:induction false} OpsMetaFree(d: Data, ops: seq<Op>)
    requires PureOps(ops) && F.MetaFree(d)
    ensures F.MetaFree(ApplyOps(d, ops))
  {
    if ops != [] { OpsMetaFree(d, ops[..|ops| - 1]); }
  }

  lemma FlushIsCommit(st: Data, ops: seq<Op>, v: View, m: map<Coll, int>, last: nat)
    requires PureOps(ops) && v.d == ApplyOps(Strip(st), ops) && forall c :: DeltaOf(m, c) == Delta(v, c)
    ensures var a := ApplyOps(st, ops);
      var b := if v.seqNo != SeqOf(st) then a[DedupSeq := Num(v.seqNo)] else a;
      (b + CardsOn(st, m, m.Keys))[Applied := Num(last)] == Commit(st, v, last)
  {
    OpsBeside(st, ops, v.d);
    SameCards(st, m, v);
    CardRowsAre(st, v);
    hide ApplyOps, Strip, DeltaOf, Delta, CardRows, CardsOn, SeqOf, PureOps;
    Layers(v.d, map r | r in st && Meta(r) :: st[r], CardRows(st, v),
      if v.seqNo != SeqOf(st) then Some(Num(v.seqNo)) else None, Num(last));
  }

  lemma CardRowsAre(st: Data, v: View)
    ensures forall r :: r in CardRows(st, v) ==> r.Card?
  {
  }
}
