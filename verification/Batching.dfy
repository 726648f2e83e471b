/** One Update over a list of plain commands agrees with one Update per command, and skipped entries leave
    no trace. */
module Batching {
  import opened Bytes
  import opened Codec
  import opened Rows
  import opened Machine
  import opened Frame
  import C = Cardinality
  import L = Ledger

  // ---------------------------------------------------------------- what the base decides

  /** Against rows d, base can only lag: a pointer it still shows is either d's own or was cleared in d
      together with its index row. */
  ghost predicate Lags(base: Data, d: Data)
  {
    forall c, m ::
      && (ExpiryOf(base, c, m).None? ==> ExpiryOf(d, c, m).None?)
      && (ExpiryOf(base, c, m).Some? ==>
            ExpiryOf(d, c, m) == ExpiryOf(base, c, m)
            || (TTLPtr(c, m) !in d && TTLIdx(ExpiryOf(base, c, m).value, c, m) !in d))
  }

  ghost predicate SameFrozen(a: Data, b: Data)
  {
    forall s :: (Frozen(s) in a <==> Frozen(s) in b) && (Frozen(s) in a ==> a[Frozen(s)] == b[Frozen(s)])
  }

  ghost predicate Follows(base: Data, d: Data) { Lags(base, d) && SameFrozen(base, d) }

  lemma FollowsSelf(d: Data)
    ensures Follows(d, d)
  {
  }

  /** Clearing an expiry through a lagging base has the effect of clearing the current one. */
  lemma ClearThroughBase(base: Data, d: Data, c: Coll, m: bytes)
    requires Lags(base, d)
    ensures ClearTTL(base, d, c, m) == ClearTTL(d, d, c, m)
    ensures Lags(base, ClearTTL(base, d, c, m))
  {
    var d' := ClearTTL(d, d, c, m);
    assert ExpiryOf(d, c, m).Some? ==> d' == d - {TTLIdx(ExpiryOf(d, c, m).value, c, m), TTLPtr(c, m)};
    if ExpiryOf(base, c, m).Some? && ExpiryOf(d, c, m) != ExpiryOf(base, c, m) {
      assert ExpiryOf(d, c, m).None?;
      assert d - {TTLIdx(ExpiryOf(base, c, m).value, c, m), TTLPtr(c, m)} == d;
    }
    assert ExpiryOf(d', c, m).None?;
    forall o, n | (o, n) != (c, m) ensures ExpiryOf(d', o, n) == ExpiryOf(d, o, n) { }
  }

  /** Rows of the TTL families and frozen ranges. */
  ghost predicate Timing(r: Row) { r.TTLPtr? || r.TTLIdx? || r.Frozen? }

  lemma LagsKept(base: Data, d: Data, d': Data)
    requires Follows(base, d)
    requires forall r :: Timing(r) ==> (r in d <==> r in d') && (r in d ==> d[r] == d'[r])
    ensures Follows(base, d')
  {
    forall c, m ensures ExpiryOf(d', c, m) == ExpiryOf(d, c, m) && (TTLPtr(c, m) in d <==> TTLPtr(c, m) in d')
    {
      assert Timing(TTLPtr(c, m));
    }
    forall ms, c, m ensures TTLIdx(ms, c, m) in d <==> TTLIdx(ms, c, m) in d' { assert Timing(TTLIdx(ms, c, m)); }
    forall s ensures (Frozen(s) in d <==> Frozen(s) in d') && (Frozen(s) in d ==> d[Frozen(s)] == d'[Frozen(s)])
    {
      assert Timing(Frozen(s));
    }
  }

  ghost predicate PlainItem(it: Item) { ValidItem(it) && it.expiryMs <= 0 }

  lemma DropThroughBase(a: Data, b: Data, d: Data, c: Coll, it: Item)
    requires Follows(a, d) && Follows(b, d)
    ensures DropElem(a, d, c, it) == DropElem(b, d, c, it)
    ensures Follows(a, DropElem(a, d, c, it).d)
  {
    hide ClearTTL, Lags;
    var k := Elem(c, it.key);
    var d1 := if k in d then d - {k} else d;
    LagsKept(a, d, d1);
    LagsKept(b, d, d1);
    ClearThroughBase(a, d1, c, it.key);
    ClearThroughBase(b, d1, c, it.key);
    assert SameFrozen(a, ClearTTL(a, d1, c, it.key)) by { ClearKeepsFrozen(a, d1, c, it.key); }
  }

  lemma ClearKeepsFrozen(a: Data, d: Data, c: Coll, m: bytes)
    requires SameFrozen(a, d)
    ensures SameFrozen(a, ClearTTL(a, d, c, m))
  {
  }

  /** A plain item does not see which lagging base it runs against. */
  lemma ItemThroughBase(a: Data, b: Data, d: Data, op: byte, c: Coll, it: Item)
    requires Follows(a, d) && Follows(b, d) && PlainItem(it) && op != EXPIRE
    ensures ApplyItem(a, d, op, c, it) == ApplyItem(b, d, op, c, it)
    ensures Follows(a, ApplyItem(a, d, op, c, it).d)
  {
    hide DropElem, Follows, ScoreTail, ScoreOf, TypeOf;
    DropThroughBase(a, b, d, c, it);
    if op == SADD { LagsKept(a, d, AddMember(a, d, c, it).d); }
    else if op == HSET { LagsKept(a, d, SetField(d, c, it).d); }
    else if op == ZADD { LagsKept(a, d, AddScored(d, c, it).d); }
    else if op == ZREM || op == REMOVE { LagsKept(a, d, DropScored(d, c, it).d); }
  }

  lemma {:induction false} ItemsThroughBase(a: Data, b: Data, d: Data, op: byte, c: Coll, its: seq<Item>)
    requires Follows(a, d) && Follows(b, d) && op != EXPIRE
    requires forall i :: 0 <= i < |its| ==> ValidItem(its[i]) && PlainItem(its[i])
    ensures ApplyItems(a, d, op, c, its) == ApplyItems(b, d, op, c, its)
    ensures Follows(a, ApplyItems(a, d, op, c, its).d) && Follows(b, ApplyItems(a, d, op, c, its).d)
  {
    hide ApplyItem, Follows;
    if its != [] {
      var n := |its| - 1;
      ItemsThroughBase(a, b, d, op, c, its[..n]);
      var e := ApplyItems(a, d, op, c, its[..n]);
      ItemThroughBase(a, b, e.d, op, c, its[n]);
      ItemThroughBase(b, a, e.d, op, c, its[n]);
    }
  }

  /** No idempotency key, no expiry, no opExpire. */
  ghost predicate PlainCommand(c: Command)
  {
    ValidCommand(c) && c.idem == [] && c.op != EXPIRE && forall i :: 0 <= i < |c.items| ==> c.items[i].expiryMs <= 0
  }

  lemma FrozenAlike(a: Data, b: Data, rk: bytes)
    requires SameFrozen(a, b)
    ensures FrozenCovers(a, rk) == FrozenCovers(b, rk)
  {
    hide InRoute;
    if FrozenCovers(a, rk) {
      var r :| r in a && r.Frozen? && a[r].Raw? && InRoute(rk, r.start, a[r].b);
      assert r == Frozen(r.start);
    }
    if FrozenCovers(b, rk) {
      var r :| r in b && r.Frozen? && b[r].Raw? && InRoute(rk, r.start, b[r].b);
      assert r == Frozen(r.start);
    }
  }

  lemma CounterTiming(lib: Strconv, base: Data, v: View, c: Command)
    requires c.idem == []
    ensures var o := ApplyCounter(lib, base, v, c);
      o.Done? ==> forall r :: Timing(r) ==> (r in v.d <==> r in o.v.d) && (r in v.d ==> v.d[r] == o.v.d[r])
  {
    hide NextCount, FieldOf;
  }

  lemma BudgetTiming(v: View, c: Command)
    ensures var o := ApplyBudget(v, c);
      o.Done? ==> forall r :: Timing(r) ==> (r in v.d <==> r in o.v.d) && (r in v.d ==> v.d[r] == o.v.d[r])
  {
    hide L.Apply, L.DecodeCmd, L.CmdId, PoolOf, LeaseOf, TombOf, WriteBudget, EnsureType, Timing;
    var o := ApplyBudget(v, c);
    if o.Done? && o.v != v {
      var coll := Coll(c.ns, c.coll);
      var bc := L.DecodeCmd(c.op, c.items).value;
      var id := L.CmdId(bc);
      var e := L.Apply(bc, PoolOf(v.d, coll), LeaseOf(v.d, coll, id), TombOf(v.d, coll, id));
      HeaderTiming(v.d, coll, TBUDGET);
      WriteBudgetTiming(if e.header then EnsureType(v.d, coll, TBUDGET).0 else v.d, coll, id, e);
    }
  }

  lemma WriteBudgetTiming(d: Data, c: Coll, id: bytes, e: L.Effect)
    requires e.Effect?
    ensures var d' := WriteBudget(d, c, id, e);
      forall r :: Timing(r) ==> (r in d <==> r in d') && (r in d ==> d[r] == d'[r])
  {
    hide L.U64;
  }

  lemma BodyThroughBase(lib: Strconv, a: Data, b: Data, v: View, c: Command)
    requires Follows(a, v.d) && Follows(b, v.d) && PlainCommand(c)
    ensures ApplyBody(lib, a, v, c) == ApplyBody(lib, b, v, c)
    ensures var o := ApplyBody(lib, a, v, c); o.Done? ==> Follows(a, o.v.d) && Follows(b, o.v.d)
  {
    hide ApplyCounter, ApplyBudget, ApplyItems, Follows, Timing, TypeRow;
    var coll := Coll(c.ns, c.coll);
    var typed := c.op != REMOVE && TypeForOp(c.op) != TBUDGET;
    var v1 := if typed then v.(d := EnsureType(v.d, coll, TypeForOp(c.op)).0) else v;
    HeaderTiming(v.d, coll, TypeForOp(c.op));
    LagsKept(a, v.d, v1.d);
    LagsKept(b, v.d, v1.d);
    if c.op == HINCRBY || c.op == HINCRBYFLOAT {
      CounterBase(lib, a, b, v1, c);
      CounterTiming(lib, a, v1, c);
      var o := ApplyCounter(lib, a, v1, c);
      if o.Done? { LagsKept(a, v1.d, o.v.d); LagsKept(b, v1.d, o.v.d); }
    } else if TypeForOp(c.op) == TBUDGET {
      BudgetTiming(v1, c);
      var o := ApplyBudget(v1, c);
      if o.Done? { LagsKept(a, v1.d, o.v.d); LagsKept(b, v1.d, o.v.d); }
    } else {
      ItemsThroughBase(a, b, v1.d, c.op, coll, c.items);
    }
  }

  lemma HeaderTiming(d: Data, c: Coll, want: nat)
    ensures var d' := EnsureType(d, c, want).0;
      forall r :: Timing(r) ==> (r in d <==> r in d') && (r in d ==> d[r] == d'[r])
  {
  }

  lemma CounterBase(lib: Strconv, a: Data, b: Data, v: View, c: Command)
    requires c.idem == []
    ensures ApplyCounter(lib, a, v, c) == ApplyCounter(lib, b, v, c)
  {
    hide NextCount, FieldOf;
  }

  ghost predicate PlainCmd(cmd: bytes)
  {
    DecodeCommand(cmd).Some? ==> PlainCommand(DecodeCommand(cmd).value)
  }

  lemma OneThroughBase(lib: Strconv, a: Data, b: Data, v: View, cmd: bytes)
    requires Follows(a, v.d) && Follows(b, v.d) && PlainCmd(cmd)
    ensures ApplyOne(lib, a, v, cmd) == ApplyOne(lib, b, v, cmd)
    ensures var o := ApplyOne(lib, a, v, cmd); o.Done? ==> Follows(a, o.v.d) && Follows(b, o.v.d)
  {
    hide ApplyBody, DecodeCommand, FrozenCovers, Lags;
    var c := DecodeCommand(cmd);
    if c.Some? {
      assert SameFrozen(a, b);
      FrozenAlike(a, b, RouteKey(Coll(c.value.ns, c.value.coll)));
      BodyThroughBase(lib, a, b, v, c.value);
    }
  }

  lemma {:induction false} SubsThroughBase(lib: Strconv, a: Data, b: Data, v: View, subs: seq<bytes>)
    requires Follows(a, v.d) && Follows(b, v.d) && forall i :: 0 <= i < |subs| ==> PlainCmd(subs[i])
    ensures ApplySubs(lib, a, v, subs) == ApplySubs(lib, b, v, subs)
    ensures var o := ApplySubs(lib, a, v, subs); o.SubDone? ==> Follows(a, o.v.d) && Follows(b, o.v.d)
  {
    hide ApplyOne, Follows, PlainCmd;
    if subs != [] {
      var n := |subs| - 1;
      SubsThroughBase(lib, a, b, v, subs[..n]);
      var h := ApplySubs(lib, a, v, subs[..n]);
      if h.SubDone? { OneThroughBase(lib, a, b, h.v, subs[n]); }
    }
  }

  /** A plain set, hash, sorted-set or budget command, or a coalesced batch of them; undecodable bytes too. */
  ghost predicate PlainEntry(cmd: bytes)
  {
    && !IsMigrate(cmd) && !IsFreeze(cmd)
    && if IsBatch(cmd) then
         DecodeBatch(cmd).Some? ==>
           forall i :: 0 <= i < |DecodeBatch(cmd).value| ==> PlainCmd(DecodeBatch(cmd).value[i])
       else PlainCmd(cmd)
  }

  lemma EntryThroughBase(lib: Strconv, a: Data, b: Data, v: View, cmd: bytes)
    requires Follows(a, v.d) && Follows(b, v.d) && PlainEntry(cmd)
    ensures ApplyEntry(lib, a, v, cmd) == ApplyEntry(lib, b, v, cmd)
    ensures var o := ApplyEntry(lib, a, v, cmd); o.Done? ==> Follows(a, o.v.d)
  {
    hide ApplyOne, ApplySubs, Follows, DecodeBatch, EncodeBatchResult, PlainCmd;
    if IsBatch(cmd) {
      if DecodeBatch(cmd).Some? { SubsThroughBase(lib, a, b, v, DecodeBatch(cmd).value); }
    } else {
      OneThroughBase(lib, a, b, v, cmd);
    }
  }

  // ---------------------------------------------------------------- what the rest of the view decides

  /** Two outcomes with the same rows and the same answer. */
  ghost predicate Alike(a: Outcome, b: Outcome)
  {
    (a.Skip? <==> b.Skip?) && (a.Done? ==> a.v.d == b.v.d && a.r == b.r)
  }

  lemma OneAlike(lib: Strconv, base: Data, v: View, w: View, cmd: bytes)
    requires v.d == w.d && PlainCmd(cmd)
    ensures Alike(ApplyOne(lib, base, v, cmd), ApplyOne(lib, base, w, cmd))
  {
    hide DecodeCommand, FrozenCovers, ApplyItems, NextCount, WriteBudget, L.Apply, L.DecodeCmd, EnsureType, FieldOf,
      DedupGet;
    var c := DecodeCommand(cmd);
    if c.Some? {
      assert |c.value.idem| == 0;
      BodyAlike(lib, base, v, w, c.value);
    }
  }

  lemma BodyAlike(lib: Strconv, base: Data, v: View, w: View, c: Command)
    requires v.d == w.d && PlainCommand(c)
    ensures Alike(ApplyBody(lib, base, v, c), ApplyBody(lib, base, w, c))
  {
    hide ApplyItems, ApplyCounter, ApplyBudget, EnsureType;
    var coll := Coll(c.ns, c.coll);
    var typed := c.op != EXPIRE && c.op != REMOVE && TypeForOp(c.op) != TBUDGET;
    var d := if typed then EnsureType(v.d, coll, TypeForOp(c.op)).0 else v.d;
    CounterAlike(lib, base, v.(d := d), w.(d := d), c);
    BudgetAlike(v.(d := d), w.(d := d), c);
  }

  lemma CounterAlike(lib: Strconv, base: Data, v: View, w: View, c: Command)
    requires v.d == w.d && PlainCommand(c)
    ensures Alike(ApplyCounter(lib, base, v, c), ApplyCounter(lib, base, w, c))
  {
    hide NextCount, FieldOf;
  }

  lemma BudgetAlike(v: View, w: View, c: Command)
    requires v.d == w.d
    ensures Alike(ApplyBudget(v, c), ApplyBudget(w, c))
  {
    hide WriteBudget, L.Apply, L.DecodeCmd, EnsureType, TypeOf, PoolOf, LeaseOf, TombOf, L.CmdId;
  }

  lemma {:induction false} SubsAlike(lib: Strconv, base: Data, v: View, w: View, subs: seq<bytes>)
    requires v.d == w.d && forall i :: 0 <= i < |subs| ==> PlainCmd(subs[i])
    ensures var a, b := ApplySubs(lib, base, v, subs), ApplySubs(lib, base, w, subs);
      (a.SubSkip? <==> b.SubSkip?) && (a.SubDone? ==> a.v.d == b.v.d && a.rs == b.rs)
  {
    hide ApplyOne, PlainCmd;
    if subs != [] {
      var n := |subs| - 1;
      SubsAlike(lib, base, v, w, subs[..n]);
      var a, b := ApplySubs(lib, base, v, subs[..n]), ApplySubs(lib, base, w, subs[..n]);
      if a.SubDone? { OneAlike(lib, base, a.v, b.v, subs[n]); }
    }
  }

  lemma EntryAlike(lib: Strconv, base: Data, v: View, w: View, cmd: bytes)
    requires v.d == w.d && PlainEntry(cmd)
    ensures Alike(ApplyEntry(lib, base, v, cmd), ApplyEntry(lib, base, w, cmd))
  {
    hide ApplyOne, ApplySubs, DecodeBatch, EncodeBatchResult, PlainCmd;
    if IsBatch(cmd) {
      if DecodeBatch(cmd).Some? { SubsAlike(lib, base, v, w, DecodeBatch(cmd).value); }
    } else {
      OneAlike(lib, base, v, w, cmd);
    }
  }

  // ---------------------------------------------------------------- the refinement

  ghost predicate Plain(es: seq<Entry>) { forall i :: 0 <= i < |es| ==> PlainEntry(es[i].cmd) }

  /** One Update per entry. */
  ghost function OneByOne(lib: Strconv, st: Data, es: seq<Entry>): Data
    requires NoMigrate(es)
  {
    if es == [] then st else
    var n := |es| - 1;
    Update(lib, OneByOne(lib, st, es[..n]), [es[n]])
  }

  ghost function OneByOneResults(lib: Strconv, st: Data, es: seq<Entry>): seq<PResult>
    requires NoMigrate(es)
  {
    if es == [] then [] else
    var n := |es| - 1;
    OneByOneResults(lib, st, es[..n]) + UpdateResults(lib, OneByOne(lib, st, es[..n]), [es[n]])
  }

  lemma SingleFold(lib: Strconv, base: Data, v: View, e: Entry)
    requires !IsMigrate(e.cmd)
    ensures var o := ApplyEntry(lib, base, v, e.cmd);
      && Fold(lib, base, v, [e]) == (if o.Skip? then v else o.v)
      && Results(lib, base, v, [e]) == [if o.Skip? then PResult(0, []) else o.r]
  {
    hide ApplyEntry;
    assert [e][..0] == [];
  }

  lemma SingleUpdate(lib: Strconv, st: Data, e: Entry)
    requires !IsMigrate(e.cmd)
    ensures var o := ApplyEntry(lib, Strip(st), Start(st), e.cmd);
      && Strip(Update(lib, st, [e])) == (if o.Skip? then Strip(st) else o.v.d)
      && UpdateResults(lib, st, [e]) == [if o.Skip? then PResult(0, []) else o.r]
  {
    hide ApplyEntry, Commit, Strip, Fold, Results;
    SingleFold(lib, Strip(st), Start(st), e);
    var v := Fold(lib, Strip(st), Start(st), [e]);
    C.StartMetaFree(st);
    FoldMetaFree(lib, Strip(st), Start(st), [e]);
    C.CommitStrips(st, v, e.index);
  }

  /** Rows and results of the two runs coincide, entry after entry. */
  lemma {:induction false} BatchRows(lib: Strconv, st: Data, es: seq<Entry>)
    requires Plain(es) && NoMigrate(es)
    ensures var v := Fold(lib, Strip(st), Start(st), es);
      && Strip(OneByOne(lib, st, es)) == v.d
      && OneByOneResults(lib, st, es) == UpdateResults(lib, st, es)
      && Follows(Strip(st), v.d)
  {
    hide ApplyEntry, Strip, Follows, PlainEntry, Update;
    if es == [] {
      FollowsSelf(Strip(st));
    } else {
      var n := |es| - 1;
      BatchRows(lib, st, es[..n]);
      var v, st' := Fold(lib, Strip(st), Start(st), es[..n]), OneByOne(lib, st, es[..n]);
      SingleUpdate(lib, st', es[n]);
      EntryAlike(lib, v.d, v, Start(st'), es[n].cmd);
      FollowsSelf(v.d);
      EntryThroughBase(lib, Strip(st), v.d, v, es[n].cmd);
    }
  }

  /** Equal stores, except that a counter of zero may be stored or absent. */
  ghost predicate SameState(a: Data, b: Data)
  {
    && (forall r: Row :: !r.Card? ==> (r in a <==> r in b) && (r in a ==> a[r] == b[r]))
    && forall c :: CardOf(a, c) == CardOf(b, c)
  }

  lemma {:induction false} OneByOneRight(lib: Strconv, st: Data, es: seq<Entry>)
    requires C.Right(st) && NoMigrate(es)
    ensures C.Right(OneByOne(lib, st, es))
  {
    hide C.Right, Update;
    if es != [] {
      var n := |es| - 1;
      OneByOneRight(lib, st, es[..n]);
      C.UpdateRight(lib, OneByOne(lib, st, es[..n]), [es[n]]);
    }
  }

  // ---------------------------------------------------------------- bookkeeping rows

  lemma OneKeepsSeq(lib: Strconv, base: Data, v: View, cmd: bytes)
    requires PlainCmd(cmd)
    ensures var o := ApplyOne(lib, base, v, cmd); o.Done? ==> o.v.seqNo == v.seqNo
  {
    hide DecodeCommand, FrozenCovers, ApplyItems, NextCount, WriteBudget, L.Apply, L.DecodeCmd, EnsureType, FieldOf,
      DedupGet;
  }

  lemma {:induction false} SubsKeepSeq(lib: Strconv, base: Data, v: View, subs: seq<bytes>)
    requires forall i :: 0 <= i < |subs| ==> PlainCmd(subs[i])
    ensures var o := ApplySubs(lib, base, v, subs); o.SubDone? ==> o.v.seqNo == v.seqNo
  {
    hide ApplyOne, PlainCmd;
    if subs != [] {
      var n := |subs| - 1;
      SubsKeepSeq(lib, base, v, subs[..n]);
      var h := ApplySubs(lib, base, v, subs[..n]);
      if h.SubDone? { OneKeepsSeq(lib, base, h.v, subs[n]); }
    }
  }

  lemma {:induction false} FoldKeepsSeq(lib: Strconv, base: Data, v: View, es: seq<Entry>)
    requires Plain(es) && NoMigrate(es)
    ensures Fold(lib, base, v, es).seqNo == v.seqNo
  {
    hide ApplyOne, ApplySubs, DecodeBatch, EncodeBatchResult, PlainCmd;
    if es != [] {
      var n := |es| - 1;
      FoldKeepsSeq(lib, base, v, es[..n]);
      var h, cmd := Fold(lib, base, v, es[..n]), es[n].cmd;
      assert PlainEntry(cmd);
      if IsBatch(cmd) {
        if DecodeBatch(cmd).Some? { SubsKeepSeq(lib, base, h, DecodeBatch(cmd).value); }
      } else {
        OneKeepsSeq(lib, base, h, cmd);
      }
    }
  }

  ghost predicate SameBooks(a: Data, b: Data, last: nat)
  {
    && Applied in b && b[Applied] == Num(last)
    && (DedupSeq in b <==> DedupSeq in a) && (DedupSeq in a ==> b[DedupSeq] == a[DedupSeq])
  }

  lemma PlainBooks(lib: Strconv, st: Data, es: seq<Entry>)
    requires Plain(es) && NoMigrate(es) && es != []
    ensures SameBooks(st, Update(lib, st, es), es[|es| - 1].index)
  {
    hide Fold, Strip, MetaRows, Plain;
    var v := Fold(lib, Strip(st), Start(st), es);
    FoldKeepsSeq(lib, Strip(st), Start(st), es);
    C.StartMetaFree(st);
    FoldMetaFree(lib, Strip(st), Start(st), es);
    C.Bookkeeping(st, v, es[|es| - 1].index);
    assert Meta(Applied) && Meta(DedupSeq);
  }

  lemma {:induction false} OneByOneBooks(lib: Strconv, st: Data, es: seq<Entry>)
    requires Plain(es) && NoMigrate(es) && es != []
    ensures SameBooks(st, OneByOne(lib, st, es), es[|es| - 1].index)
  {
    hide Update, PlainEntry;
    var n := |es| - 1;
    if n == 0 {
      assert es[..n] == [] && es == [es[0]];
    } else {
      OneByOneBooks(lib, st, es[..n]);
    }
    PlainBooks(lib, OneByOne(lib, st, es[..n]), [es[n]]);
  }

  lemma StripAlike(a: Data, b: Data)
    requires Strip(a) == Strip(b)
    ensures forall r :: !Meta(r) ==> (r in a <==> r in b) && (r in a ==> a[r] == b[r])
  {
    forall r | !Meta(r) ensures (r in a <==> r in b) && (r in a ==> a[r] == b[r])
    {
      assert r in a <==> r in Strip(a);
      assert r in b <==> r in Strip(b);
    }
  }

  lemma UpdateStrips(lib: Strconv, st: Data, es: seq<Entry>)
    requires NoMigrate(es)
    ensures Strip(Update(lib, st, es)) == Fold(lib, Strip(st), Start(st), es).d
  {
    hide Strip, Commit, ApplyEntry;
    C.StartMetaFree(st);
    FoldMetaFree(lib, Strip(st), Start(st), es);
    if es != [] { C.CommitStrips(st, Fold(lib, Strip(st), Start(st), es), es[|es| - 1].index); }
  }

  /** Batch refinement: from a state with right counters, one Update over plain entries and one Update per
      entry give every entry the same result and leave the same store, up to counters of zero. */
  lemma BatchRefines(lib: Strconv, st: Data, es: seq<Entry>)
    requires C.Right(st) && Plain(es) && NoMigrate(es)
    ensures UpdateResults(lib, st, es) == OneByOneResults(lib, st, es)
    ensures SameState(Update(lib, st, es), OneByOne(lib, st, es))
  {
    hide Update, Strip, Plain, UpdateResults, Fold, NoMigrate;
    var a, b := Update(lib, st, es), OneByOne(lib, st, es);
    BatchRows(lib, st, es);
    UpdateStrips(lib, st, es);
    StripAlike(a, b);
    C.UpdateRight(lib, st, es);
    OneByOneRight(lib, st, es);
    if es == [] {
      assert a == st == b by { EmptyUpdate(lib, st, es); }
    } else {
      PlainBooks(lib, st, es);
      OneByOneBooks(lib, st, es);
    }
  }

  lemma EmptyUpdate(lib: Strconv, st: Data, es: seq<Entry>)
    requires es == []
    ensures Update(lib, st, es) == st == OneByOne(lib, st, es)
  {
  }

  // ---------------------------------------------------------------- poison isolation

  /** Bytes that do not decode are skipped in every state. */
  lemma UndecodableSkips(lib: Strconv, base: Data, v: View, cmd: bytes)
    requires !IsMigrate(cmd) && !IsFreeze(cmd) && !IsBatch(cmd) && DecodeCommand(cmd).None?
    ensures ApplyEntry(lib, base, v, cmd).Skip?
  {
    hide DecodeCommand;
  }

  lemma {:induction false} BadSubSkips(lib: Strconv, base: Data, v: View, subs: seq<bytes>, i: nat)
    requires i < |subs| && DecodeCommand(subs[i]).None?
    ensures ApplySubs(lib, base, v, subs).SubSkip?
  {
    hide DecodeCommand, ApplyBody, Shortcut;
    var n := |subs| - 1;
    if i < n { BadSubSkips(lib, base, v, subs[..n], i); }
  }

  /** One undecodable sub-command, wherever it stands, drops its whole batch entry. */
  lemma BadBatchSkips(lib: Strconv, base: Data, v: View, cmd: bytes, i: nat)
    requires IsBatch(cmd) && !IsMigrate(cmd) && !IsFreeze(cmd)
    requires DecodeBatch(cmd).None? || (i < |DecodeBatch(cmd).value| && DecodeCommand(DecodeBatch(cmd).value[i]).None?)
    ensures ApplyEntry(lib, base, v, cmd).Skip?
  {
    hide DecodeCommand, DecodeBatch, ApplySubs;
    if DecodeBatch(cmd).Some? { BadSubSkips(lib, base, v, DecodeBatch(cmd).value, i); }
  }

  lemma {:induction false} FoldConcat(lib: Strconv, base: Data, v: View, a: seq<Entry>, b: seq<Entry>)
    requires NoMigrate(a) && NoMigrate(b) && NoMigrate(a + b)
    ensures Fold(lib, base, v, a + b) == Fold(lib, base, Fold(lib, base, v, a), b)
    ensures Results(lib, base, v, a + b) == Results(lib, base, v, a) + Results(lib, base, Fold(lib, base, v, a), b)
  {
    hide ApplyEntry;
    if b == [] {
      assert a + b == a;
    } else {
      var n := |b| - 1;
      assert (a + b)[..|a| + n] == a + b[..n] && (a + b)[|a| + n] == b[n];
      assert NoMigrate(a + b[..n]);
      FoldConcat(lib, base, v, a, b[..n]);
    }
  }

  /** An Update records the index of its last entry as applied, skipped or not; an empty one records nothing. */
  lemma UpdateApplied(lib: Strconv, st: Data, es: seq<Entry>)
    requires NoMigrate(es)
    ensures es == [] ==> Update(lib, st, es) == st
    ensures es != [] ==> Applied in Update(lib, st, es) && Update(lib, st, es)[Applied] == Num(es[|es| - 1].index)
  {
    hide Fold, CardRows, SeqOf;
  }

  /** Poison isolation: an entry that is skipped where it stands, anywhere before the last entry of a batch,
      leaves the stored state and all other results as if it were absent; its own result is the zero one. */
  lemma PoisonIsolated(lib: Strconv, st: Data, a: seq<Entry>, x: Entry, b: seq<Entry>)
    requires NoMigrate(a) && NoMigrate(b) && !IsMigrate(x.cmd) && b != []
    requires ApplyEntry(lib, Strip(st), Fold(lib, Strip(st), Start(st), a), x.cmd).Skip?
    ensures NoMigrate(a + ([x] + b)) && NoMigrate(a + b)
    ensures Update(lib, st, a + ([x] + b)) == Update(lib, st, a + b)
    ensures var with_, without := UpdateResults(lib, st, a + ([x] + b)), UpdateResults(lib, st, a + b);
      with_ == without[..|a|] + [PResult(0, [])] + without[|a|..]
  {
    hide ApplyEntry, Strip, Commit, Fold, Results;
    var base, v := Strip(st), Start(st);
    var w := Fold(lib, base, v, a);
    FoldConcat(lib, base, v, a, b);
    FoldConcat(lib, base, v, a, [x] + b);
    FoldConcat(lib, base, w, [x], b);
    SingleFold(lib, base, w, x);
  }
}
