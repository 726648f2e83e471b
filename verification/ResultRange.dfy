/** Every result the state machine answers or remembers fits the uint64 of the packed batch result. */
module ResultRange {
  import opened Bytes
  import opened Codec
  import opened Rows
  import opened Machine
  import C = Cardinality
  import F = Frame
  import I = Idempotency
  import L = Ledger

  ghost predicate Remembered(d: Data)
  {
    forall k :: DedupGet(d, k).Some? ==> DedupGet(d, k).value.value < TWO64
  }

  /** All results remembered before and during a running Update fit. */
  ghost predicate InRange(base: Data, v: View)
  {
    Remembered(base) && Remembered(v.d) && forall k :: k in v.cached ==> v.cached[k].value < TWO64
  }

  lemma {:induction false} ItemCount(n: nat, b: bytes)
    ensures TakeItems(n, b).Some? ==> |TakeItems(n, b).value.0| == n
  {
    hide TakeItem;
    if n > 0 && TakeItem(b).Some? { ItemCount(n - 1, TakeItem(b).value.1); }
  }

  lemma FewItems(cmd: bytes)
    ensures DecodeCommand(cmd).Some? ==> |DecodeCommand(cmd).value.items| < TWO32
  {
    hide FromBE, TakeItems, TakeChunk;
    var h := TakeHead(cmd);
    if h.Some? {
      ItemCount(h.value.1, h.value.2);
      HeadCount(cmd);
    }
  }

  lemma HeadCount(cmd: bytes)
    ensures TakeHead(cmd).Some? ==> TakeHead(cmd).value.1 < TWO32
  {
    hide FromBE, TakeChunk;
    var h := TakeHead(cmd);
    if h.Some? {
      var rest := TakeChunk(TakeChunk(TakeChunk(cmd[1..]).value.1).value.1).value.1;
      Pow256Values();
      FromBERange(rest[..4]);
    }
  }

  lemma {:induction false} ChangedFew(base: Data, d: Data, op: byte, c: Coll, its: seq<Item>)
    requires forall i :: 0 <= i < |its| ==> ValidItem(its[i])
    ensures ApplyItems(base, d, op, c, its).changed <= |its|
  {
    hide ScoreTail, ScoreOf, ExpiryOf, TypeOf, SetTTL, ClearTTL;
    if its != [] { ChangedFew(base, d, op, c, its[..|its| - 1]); }
  }

  lemma BudgetInRange(c: L.Cmd, pool: Option<L.Pool>, lease: Option<L.Lease>, tomb: Option<L.Tomb>)
    ensures var e := L.Apply(c, pool, lease, tomb); e.Effect? ==> e.result.value < TWO64
  {
  }

  lemma BodyInRange(lib: Strconv, base: Data, v: View, c: Command)
    requires ValidCommand(c) && |c.items| < TWO32
    ensures var o := ApplyBody(lib, base, v, c); o.Done? ==> o.r.value < TWO64
  {
    hide ApplyItems, L.Apply, L.DecodeCmd, L.CmdId, PoolOf, LeaseOf, TombOf, EnsureType, NextCount, FieldOf, Record,
      Bump, WriteBudget;
    var coll := Coll(c.ns, c.coll);
    var typed := c.op != EXPIRE && c.op != REMOVE && TypeForOp(c.op) != TBUDGET;
    var v1 := if typed then v.(d := EnsureType(v.d, coll, TypeForOp(c.op)).0) else v;
    ChangedFew(base, v1.d, c.op, coll, c.items);
    var bc := L.DecodeCmd(c.op, c.items);
    if bc.Some? {
      var id := L.CmdId(bc.value);
      BudgetInRange(bc.value, PoolOf(v1.d, coll), LeaseOf(v1.d, coll, id), TombOf(v1.d, coll, id));
    }
  }

  lemma AsideInRange(base: Data, v: View, w: View)
    requires InRange(base, v) && I.Aside(v, w)
    ensures InRange(base, w)
  {
    forall k ensures DedupGet(w.d, k) == DedupGet(v.d, k) { assert I.RingRow(Dedup(k)); }
  }

  lemma RecordInRange(base: Data, v: View, key: bytes, r: PResult)
    requires InRange(base, v) && r.value < TWO64
    ensures InRange(base, Record(base, v, key, r))
  {
    hide RingKey;
    forall k ensures DedupGet(Record(base, v, key, r).d, k) in {Some(r), None, DedupGet(v.d, k)}
    {
      I.RecordResults(base, v, key, r, k);
    }
  }

  /** A command's result fits, new or remembered. */
  lemma OneInRange(lib: Strconv, base: Data, v: View, cmd: bytes)
    requires InRange(base, v)
    ensures var o := ApplyOne(lib, base, v, cmd); o.Done? ==> o.r.value < TWO64 && InRange(base, o.v)
  {
    hide ApplyBody, DecodeCommand, FrozenCovers, I.Aside, Record;
    DecodeCommandValid(cmd);
    FewItems(cmd);
    var dc, o := DecodeCommand(cmd), ApplyOne(lib, base, v, cmd);
    if dc.Some? && Shortcut(base, v, dc.value).None? {
      var c := dc.value;
      I.BodyMoves(lib, base, v, c);
      BodyInRange(lib, base, v, c);
      if o.Done? {
        var w: View :| I.Aside(v, w) && (o.v == w || (|c.idem| > 0 && o.v == Record(base, w, c.idem, o.r)));
        AsideInRange(base, v, w);
        if o.v != w { RecordInRange(base, w, c.idem, o.r); }
      }
    }
  }

  /** So do all results of a batch entry. */
  lemma {:induction false} SubsInRange(lib: Strconv, base: Data, v: View, subs: seq<bytes>)
    requires InRange(base, v)
    ensures var o := ApplySubs(lib, base, v, subs); o.SubDone? ==> ValidResults(o.rs) && InRange(base, o.v)
  {
    hide ApplyOne, InRange;
    if subs != [] {
      var n := |subs| - 1;
      SubsInRange(lib, base, v, subs[..n]);
      var h := ApplySubs(lib, base, v, subs[..n]);
      if h.SubDone? { OneInRange(lib, base, h.v, subs[n]); }
    }
  }

  lemma EntryInRange(lib: Strconv, base: Data, v: View, cmd: bytes)
    requires InRange(base, v) && !IsMigrate(cmd)
    ensures var o := ApplyEntry(lib, base, v, cmd); o.Done? ==> InRange(base, o.v)
  {
    hide ApplyOne, ApplySubs, DecodeBatch, EncodeBatchResult, IsMigrate;
    if IsFreeze(cmd) {
      var o := ApplyFreeze(v, cmd);
      if o.Done? { assert I.Aside(v, o.v); AsideInRange(base, v, o.v); }
    } else if IsBatch(cmd) {
      if DecodeBatch(cmd).Some? { SubsInRange(lib, base, v, DecodeBatch(cmd).value); }
    } else {
      OneInRange(lib, base, v, cmd);
    }
  }

  lemma {:induction false} FoldInRange(lib: Strconv, base: Data, v: View, es: seq<Entry>)
    requires InRange(base, v) && NoMigrate(es)
    ensures InRange(base, Fold(lib, base, v, es))
  {
    hide ApplyEntry, InRange, IsMigrate;
    if es != [] {
      var n := |es| - 1;
      FoldInRange(lib, base, v, es[..n]);
      EntryInRange(lib, base, Fold(lib, base, v, es[..n]), es[n].cmd);
    }
  }

  lemma UpdateInRange(lib: Strconv, st: Data, es: seq<Entry>)
    requires Remembered(Strip(st)) && NoMigrate(es)
    ensures Remembered(Strip(Update(lib, st, es)))
  {
    hide Strip, Fold, Commit, NoMigrate, Remembered, SeqOf;
    if es != [] {
      var w := Fold(lib, Strip(st), Start(st), es);
      FoldInRange(lib, Strip(st), Start(st), es);
      C.StartMetaFree(st);
      F.FoldMetaFree(lib, Strip(st), Start(st), es);
      C.CommitStrips(st, w, es[|es| - 1].index);
    }
  }

  lemma {:induction false} RunInRange(lib: Strconv, st: Data, batches: seq<seq<Entry>>)
    requires Remembered(Strip(st)) && forall i :: 0 <= i < |batches| ==> NoMigrate(batches[i])
    ensures Remembered(Strip(C.UpdateAll(lib, st, batches)))
    decreases |batches|
  {
    hide Strip, Update, NoMigrate, Remembered;
    if batches != [] {
      UpdateInRange(lib, st, batches[0]);
      RunInRange(lib, Update(lib, st, batches[0]), batches[1..]);
    }
  }

  /** At every point of every run from the empty store, every remembered result fits. */
  lemma ReachedInRange(lib: Strconv, batches: seq<seq<Entry>>, es: seq<Entry>)
    requires (forall i :: 0 <= i < |batches| ==> NoMigrate(batches[i])) && NoMigrate(es)
    ensures var st := C.UpdateAll(lib, map[], batches); InRange(Strip(st), Fold(lib, Strip(st), Start(st), es))
  {
    hide Fold, C.UpdateAll, NoMigrate;
    RunInRange(lib, map[], batches);
    var st := C.UpdateAll(lib, map[], batches);
    FoldInRange(lib, Strip(st), Start(st), es);
  }
}
