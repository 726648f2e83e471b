/** The idempotency ring (dedup.go): ring slots and cached results stay in bijection, and a replayed key
    gets its original result without effect while fewer than 4096 newer keys have been recorded. */
module Idempotency {
  import opened Bytes
  import opened Codec
  import opened Rows
  import opened Machine
  import F = Frame
  import C = Cardinality
  import L = Ledger

  /** The oldest recorded position the ring still holds after n records. */
  function Oldest(n: nat): nat { if n <= RING_SIZE then 0 else n - RING_SIZE }

  /** The key recorded at position p. */
  function KeyAt(d: Data, p: nat): Option<bytes> { RingKey(d, p % RING_SIZE) }

  ghost predicate Held(d: Data, p: nat)
  {
    KeyAt(d, p).Some? && DedupGet(d, KeyAt(d, p).value).Some?
  }

  ghost predicate AllHeld(d: Data, n: nat)
  {
    forall p :: Oldest(n) <= p < n ==> Held(d, p)
  }

  ghost predicate Distinct(d: Data, n: nat)
  {
    forall p, q :: Oldest(n) <= p < n && Oldest(n) <= q < n && KeyAt(d, p) == KeyAt(d, q) ==> p == q
  }

  ghost predicate AllFound(d: Data, n: nat)
  {
    forall k :: Dedup(k) in d ==> exists p :: Oldest(n) <= p < n && KeyAt(d, p) == Some(k)
  }

  /** After n records: the last 4096 positions hold distinct keys, each with its cached result, and there is
      no other cached result and no other slot. */
  ghost predicate RingInv(d: Data, n: nat)
  {
    AllHeld(d, n) && Distinct(d, n) && AllFound(d, n) && forall s: nat :: Ring(s) in d ==> s < RING_SIZE && s < n
  }

  /** Positions recorded before the running Update are as base has them. */
  ghost predicate AsBase(base: Data, n0: nat, v: View)
  {
    forall p :: Oldest(v.seqNo) <= p < n0 ==>
      && KeyAt(v.d, p) == KeyAt(base, p)
      && (KeyAt(base, p).Some? ==> DedupGet(v.d, KeyAt(base, p).value) == DedupGet(base, KeyAt(base, p).value))
  }

  /** Keys recorded by the running Update were new, and its in-batch overlay has their results. */
  ghost predicate InBatch(base: Data, n0: nat, v: View)
  {
    && (forall p :: n0 <= p < v.seqNo ==> KeyAt(v.d, p).Some? && KeyAt(v.d, p).value in v.cached)
    && (forall k :: k in v.cached ==> Dedup(k) !in base && DedupGet(v.d, k) == Some(v.cached[k]))
  }

  /** A view inside an Update that began with base after n0 records. */
  ghost predicate Running(base: Data, n0: nat, v: View)
  {
    && RingInv(base, n0) && RingInv(v.d, v.seqNo) && n0 <= v.seqNo <= n0 + RING_SIZE
    && AsBase(base, n0, v) && InBatch(base, n0, v)
  }

  lemma SlotsDiffer(p: nat, q: nat)
    requires p < q < p + RING_SIZE
    ensures p % RING_SIZE != q % RING_SIZE
  {
  }

  lemma SlotReused(n: nat)
    requires n >= RING_SIZE
    ensures (n - RING_SIZE) % RING_SIZE == n % RING_SIZE
  {
  }

  /** What one record does to the positions: the new key sits at position n, its predecessor in the slot is
      gone, every other held position is untouched. */
  lemma RecordPositions(base: Data, v: View, key: bytes, r: PResult, p: nat)
    requires p < v.seqNo < p + RING_SIZE && key != []
    ensures var v' := Record(base, v, key, r);
      KeyAt(v'.d, p) == KeyAt(v.d, p) && KeyAt(v'.d, v.seqNo) == Some(key)
  {
    SlotsDiffer(p, v.seqNo);
  }

  lemma RecordResults(base: Data, v: View, key: bytes, r: PResult, k: bytes)
    ensures var v' := Record(base, v, key, r);
      DedupGet(v'.d, k) ==
      if k == key then Some(r)
      else if RingKey(base, v.seqNo % RING_SIZE) == Some(k) then None
      else DedupGet(v.d, k)
  {
  }

  /** The slot a record takes over: nothing while the ring fills, then the oldest key, still as base has it. */
  lemma SlotOwner(base: Data, n0: nat, v: View)
    requires Running(base, n0, v) && v.seqNo < n0 + RING_SIZE
    ensures var prior := RingKey(base, v.seqNo % RING_SIZE);
      && (v.seqNo < RING_SIZE ==> prior.None?)
      && (v.seqNo >= RING_SIZE ==>
          prior.Some? && prior == KeyAt(v.d, v.seqNo - RING_SIZE) && Dedup(prior.value) in base)
  {
    hide DedupGet;
    var n := v.seqNo;
    if n >= RING_SIZE {
      SlotReused(n);
      assert Held(base, n - RING_SIZE);
      HeldRow(base, n - RING_SIZE);
      assert KeyAt(v.d, n - RING_SIZE) == KeyAt(base, n - RING_SIZE);
    }
  }

  lemma HeldRow(d: Data, p: nat)
    requires Held(d, p)
    ensures Dedup(KeyAt(d, p).value) in d
  {
  }

  /** A fresh key is at no held position. */
  lemma FreshKey(base: Data, n0: nat, v: View, key: bytes, p: nat)
    requires Running(base, n0, v) && key !in v.cached && Dedup(key) !in base && Oldest(v.seqNo) <= p < v.seqNo
    ensures KeyAt(v.d, p) != Some(key)
  {
    if p < n0 {
      assert Held(base, p);
      HeldRow(base, p);
    }
  }

  ghost predicate Kept(base: Data, n0: nat, v: View, v': View, p: nat)
  {
    && KeyAt(v'.d, p) == KeyAt(v.d, p) && KeyAt(v.d, p).Some?
    && DedupGet(v'.d, KeyAt(v.d, p).value) == DedupGet(v.d, KeyAt(v.d, p).value)
  }

  lemma RecordKeeps(base: Data, n0: nat, v: View, key: bytes, r: PResult, p: nat)
    requires Running(base, n0, v) && v.seqNo < n0 + RING_SIZE && key != [] && key !in v.cached && Dedup(key) !in base
    requires Oldest(v.seqNo + 1) <= p < v.seqNo
    ensures Kept(base, n0, v, Record(base, v, key, r), p) && KeyAt(v.d, p) != Some(key)
  {
    hide Record, RingKey;
    SlotOwner(base, n0, v);
    FreshKey(base, n0, v, key, p);
    RecordPositions(base, v, key, r, p);
    assert Held(v.d, p);
    RecordResults(base, v, key, r, KeyAt(v.d, p).value);
  }

  lemma KeptHeld(base: Data, n0: nat, v: View, v': View, p: nat)
    requires Kept(base, n0, v, v', p) && Held(v.d, p)
    ensures Held(v'.d, p)
  {
  }

  lemma RecordRows(base: Data, v: View, key: bytes, r: PResult)
    requires key != []
    ensures var v', slot := Record(base, v, key, r), v.seqNo % RING_SIZE;
      && v'.seqNo == v.seqNo + 1 && v'.cached == v.cached[key := r]
      && Held(v'.d, v.seqNo) && KeyAt(v'.d, v.seqNo) == Some(key)
      && (forall k :: Dedup(k) in v'.d <==> k == key || (Dedup(k) in v.d && RingKey(base, slot) != Some(k)))
      && (forall s: nat :: Ring(s) in v'.d <==> s == slot || Ring(s) in v.d)
  {
  }

  lemma RecordedKeyFound(base: Data, n0: nat, v: View, key: bytes, r: PResult, k: bytes)
    requires Running(base, n0, v) && v.seqNo < n0 + RING_SIZE && key != [] && key !in v.cached && Dedup(key) !in base
    requires Dedup(k) in Record(base, v, key, r).d
    ensures exists p :: Oldest(v.seqNo + 1) <= p < v.seqNo + 1 && KeyAt(Record(base, v, key, r).d, p) == Some(k)
  {
    RecordRows(base, v, key, r);
    hide Record, RingKey, DedupGet, KeyAt, Held;
    var n, v' := v.seqNo, Record(base, v, key, r);
    if k == key {
      assert KeyAt(v'.d, n) == Some(k);
    } else {
      SlotOwner(base, n0, v);
      var p :| Oldest(n) <= p < n && KeyAt(v.d, p) == Some(k);
      assert p >= Oldest(n + 1);
      RecordKeeps(base, n0, v, key, r, p);
      assert KeyAt(v'.d, p) == Some(k);
    }
  }

  lemma RecordHeld(base: Data, n0: nat, v: View, key: bytes, r: PResult)
    requires Running(base, n0, v) && v.seqNo < n0 + RING_SIZE && key != [] && key !in v.cached && Dedup(key) !in base
    ensures AllHeld(Record(base, v, key, r).d, v.seqNo + 1) && Distinct(Record(base, v, key, r).d, v.seqNo + 1)
  {
    RecordRows(base, v, key, r);
    hide Record, RingKey, DedupGet, KeyAt, Held, AllFound;
    var n, v' := v.seqNo, Record(base, v, key, r);
    forall p | Oldest(n + 1) <= p < n
      ensures Held(v'.d, p) && KeyAt(v'.d, p) == KeyAt(v.d, p) != Some(key)
    {
      RecordKeeps(base, n0, v, key, r, p);
      KeptHeld(base, n0, v, v', p);
    }
    assert Distinct(v.d, n);
    hide Running;
  }

  lemma RecordInv(base: Data, n0: nat, v: View, key: bytes, r: PResult)
    requires Running(base, n0, v) && v.seqNo < n0 + RING_SIZE && key != [] && key !in v.cached && Dedup(key) !in base
    ensures RingInv(Record(base, v, key, r).d, v.seqNo + 1)
  {
    RecordHeld(base, n0, v, key, r);
    RecordRows(base, v, key, r);
    hide Record, RingKey, DedupGet, KeyAt, Held, AllHeld, Distinct;
    forall k | Dedup(k) in Record(base, v, key, r).d
      ensures exists p :: Oldest(v.seqNo + 1) <= p < v.seqNo + 1 && KeyAt(Record(base, v, key, r).d, p) == Some(k)
    {
      RecordedKeyFound(base, n0, v, key, r, k);
    }
  }

  lemma RecordAsBase(base: Data, n0: nat, v: View, key: bytes, r: PResult)
    requires Running(base, n0, v) && v.seqNo < n0 + RING_SIZE && key != [] && key !in v.cached && Dedup(key) !in base
    ensures AsBase(base, n0, Record(base, v, key, r))
  {
    RecordRows(base, v, key, r);
    hide Record, RingInv, RingKey, DedupGet, KeyAt, InBatch;
    var v' := Record(base, v, key, r);
    forall p | Oldest(v.seqNo + 1) <= p < n0
      ensures KeyAt(v'.d, p) == KeyAt(base, p) &&
        (KeyAt(base, p).Some? ==> DedupGet(v'.d, KeyAt(base, p).value) == DedupGet(base, KeyAt(base, p).value))
    {
      RecordKeeps(base, n0, v, key, r, p);
    }
  }

  lemma RecordInBatch(base: Data, n0: nat, v: View, key: bytes, r: PResult)
    requires Running(base, n0, v) && v.seqNo < n0 + RING_SIZE && key != [] && key !in v.cached && Dedup(key) !in base
    ensures InBatch(base, n0, Record(base, v, key, r))
  {
    SlotOwner(base, n0, v);
    RecordRows(base, v, key, r);
    hide Record, RingInv, Held, RingKey, DedupGet, KeyAt, AsBase;
    var n, v' := v.seqNo, Record(base, v, key, r);
    forall p | n0 <= p < n + 1
      ensures KeyAt(v'.d, p).Some? && KeyAt(v'.d, p).value in v'.cached
    {
      if p < n { RecordKeeps(base, n0, v, key, r, p); }
    }
    forall k | k in v'.cached
      ensures Dedup(k) !in base && DedupGet(v'.d, k) == Some(v'.cached[k])
    {
      RecordResults(base, v, key, r, k);
    }
  }

  lemma RecordRunning(base: Data, n0: nat, v: View, key: bytes, r: PResult)
    requires Running(base, n0, v) && v.seqNo < n0 + RING_SIZE && key != [] && key !in v.cached && Dedup(key) !in base
    ensures Running(base, n0, Record(base, v, key, r))
  {
    RecordInv(base, n0, v, key, r);
    RecordAsBase(base, n0, v, key, r);
    RecordInBatch(base, n0, v, key, r);
    RecordRows(base, v, key, r);
    hide Record, RingInv, AsBase, InBatch;
  }

  // ---------------------------------------------------------------- commands

  ghost predicate RingRow(r: Row) { r.Dedup? || r.Ring? }

  ghost predicate SameRing(a: Data, b: Data)
  {
    forall r :: RingRow(r) ==> (r in a <==> r in b) && (r in a ==> a[r] == b[r])
  }

  /** A step that leaves the ring alone. */
  ghost predicate Aside(v: View, w: View)
  {
    SameRing(v.d, w.d) && w.seqNo == v.seqNo && w.cached == v.cached
  }

  lemma AsideRunning(base: Data, n0: nat, v: View, w: View)
    requires Running(base, n0, v) && Aside(v, w)
    ensures Running(base, n0, w)
  {
    forall k ensures DedupGet(w.d, k) == DedupGet(v.d, k) && (Dedup(k) in w.d <==> Dedup(k) in v.d)
    {
      assert RingRow(Dedup(k));
    }
    forall s: nat ensures RingKey(w.d, s) == RingKey(v.d, s) && (Ring(s) in w.d <==> Ring(s) in v.d)
    {
      assert RingRow(Ring(s));
    }
    assert forall p: nat :: KeyAt(w.d, p) == KeyAt(v.d, p);
    assert forall p: nat :: Held(w.d, p) == Held(v.d, p);
    hide RingKey, DedupGet, KeyAt, Held, SameRing;
  }

  lemma ItemRing(base: Data, d: Data, op: byte, c: Coll, it: Item)
    requires ValidItem(it)
    ensures SameRing(d, ApplyItem(base, d, op, c, it).d)
  {
    hide ScoreTail, ScoreOf, ExpiryOf, TypeOf;
  }

  lemma {:induction false} ItemsRing(base: Data, d: Data, op: byte, c: Coll, its: seq<Item>)
    requires forall i :: 0 <= i < |its| ==> ValidItem(its[i])
    ensures SameRing(d, ApplyItems(base, d, op, c, its).d)
  {
    hide ApplyItem, RingRow;
    if its != [] {
      var n := |its| - 1;
      ItemsRing(base, d, op, c, its[..n]);
      ItemRing(base, ApplyItems(base, d, op, c, its[..n]).d, op, c, its[n]);
    }
  }

  lemma BudgetRing(v: View, c: Command)
    ensures var o := ApplyBudget(v, c); o.Done? ==> Aside(v, o.v)
  {
    hide L.Apply, L.DecodeCmd, L.CmdId, PoolOf, LeaseOf, TombOf, WriteBudget, EnsureType, RingRow;
    var o := ApplyBudget(v, c);
    if o.Done? && o.v != v {
      var coll := Coll(c.ns, c.coll);
      var bc := L.DecodeCmd(c.op, c.items).value;
      var id := L.CmdId(bc);
      var e := L.Apply(bc, PoolOf(v.d, coll), LeaseOf(v.d, coll, id), TombOf(v.d, coll, id));
      HeaderRing(v, coll, TBUDGET);
      WriteBudgetRing(if e.header then EnsureType(v.d, coll, TBUDGET).0 else v.d, coll, id, e);
    }
  }

  lemma WriteBudgetRing(d: Data, c: Coll, id: bytes, e: L.Effect)
    requires e.Effect?
    ensures SameRing(d, WriteBudget(d, c, id, e))
  {
    hide L.U64;
  }

  /** A counter or items command moves the rows aside and then records at most its own key. */
  ghost predicate Moves(base: Data, v: View, c: Command, o: Outcome)
  {
    o.Done? ==> exists w: View :: Aside(v, w) && (o.v == w || (|c.idem| > 0 && o.v == Record(base, w, c.idem, o.r)))
  }

  lemma CounterMoves(lib: Strconv, base: Data, v: View, c: Command)
    ensures Moves(base, v, c, ApplyCounter(lib, base, v, c))
  {
    hide NextCount, FieldOf, Record;
    var o := ApplyCounter(lib, base, v, c);
    if o.Done? {
      var k := Elem(Coll(c.ns, c.coll), c.items[0].key);
      var nx := NextCount(lib, c, FieldOf(v.d, k));
      if nx.None? {
        assert Aside(v, v);
      } else {
        assert Aside(v, Bump(v, v.d[k := Raw(nx.value.0)], Coll(c.ns, c.coll), o.r.value));
      }
    }
  }

  lemma BodyMoves(lib: Strconv, base: Data, v: View, c: Command)
    requires ValidCommand(c)
    ensures Moves(base, v, c, ApplyBody(lib, base, v, c))
  {
    hide ApplyCounter, ApplyBudget, ApplyItems, Record, Aside, TypeRow;
    var coll := Coll(c.ns, c.coll);
    var typed := c.op != EXPIRE && c.op != REMOVE && TypeForOp(c.op) != TBUDGET;
    var v1 := if typed then v.(d := EnsureType(v.d, coll, TypeForOp(c.op)).0) else v;
    HeaderRing(v, coll, TypeForOp(c.op));
    var o := ApplyBody(lib, base, v, c);
    if typed && !EnsureType(v.d, coll, TypeForOp(c.op)).1 {
      assert o.v == v;
    } else if c.op == HINCRBY || c.op == HINCRBYFLOAT {
      CounterMoves(lib, base, v1, c);
      if o.Done? {
        var w: View :| Aside(v1, w) && (o.v == w || (|c.idem| > 0 && o.v == Record(base, w, c.idem, o.r)));
        AsideTransitive(v, v1, w);
      }
    } else if TypeForOp(c.op) == TBUDGET {
      BudgetRing(v1, c);
      if o.Done? { AsideTransitive(v, v1, o.v); }
    } else {
      var e := ApplyItems(base, v1.d, c.op, coll, c.items);
      ItemsRing(base, v1.d, c.op, coll, c.items);
      BumpAside(v1, e, coll);
      AsideTransitive(v, v1, Bump(v1, e.d, coll, e.delta));
    }
  }

  lemma BumpAside(v: View, e: ItemEff, c: Coll)
    requires SameRing(v.d, e.d)
    ensures Aside(v, Bump(v, e.d, c, e.delta))
  {
  }

  lemma HeaderRing(v: View, c: Coll, want: nat)
    ensures Aside(v, v) && Aside(v, v.(d := EnsureType(v.d, c, want).0))
  {
  }

  lemma RowCached(base: Data, n0: nat, key: bytes)
    requires RingInv(base, n0) && Dedup(key) in base
    ensures DedupGet(base, key).Some?
  {
    var p :| Oldest(n0) <= p < n0 && KeyAt(base, p) == Some(key);
    assert Held(base, p);
  }

  /** An uncached key has no row. */
  lemma NoRow(base: Data, n0: nat, key: bytes)
    requires RingInv(base, n0) && DedupGet(base, key).None?
    ensures Dedup(key) !in base
  {
    if Dedup(key) in base { RowCached(base, n0, key); }
  }

  lemma AsideTransitive(v: View, w: View, x: View)
    requires Aside(v, w) && Aside(w, x)
    ensures Aside(v, x)
  {
  }

  lemma OneRunning(lib: Strconv, base: Data, n0: nat, v: View, cmd: bytes)
    requires Running(base, n0, v)
    ensures var o := ApplyOne(lib, base, v, cmd);
      o.Done? ==> v.seqNo <= o.v.seqNo && (o.v.seqNo <= n0 + RING_SIZE ==> Running(base, n0, o.v))
  {
    hide ApplyBody, DecodeCommand, FrozenCovers, Aside, RingInv, AsBase, InBatch, Record, DedupGet;
    DecodeCommandValid(cmd);
    var dc, o := DecodeCommand(cmd), ApplyOne(lib, base, v, cmd);
    if dc.Some? && Shortcut(base, v, dc.value).None? {
      var c := dc.value;
      BodyMoves(lib, base, v, c);
      if o.Done? {
        var w: View :| Aside(v, w) && (o.v == w || (|c.idem| > 0 && o.v == Record(base, w, c.idem, o.r)));
        AsideRunning(base, n0, v, w);
        AsideSeq(v, w);
        if o.v != w {
          NoRow(base, n0, c.idem);
          RecordSeq(base, w, c.idem, o.r);
          if w.seqNo < n0 + RING_SIZE { RecordRunning(base, n0, w, c.idem, o.r); }
        }
      }
    }
  }

  lemma AsideSeq(v: View, w: View)
    requires Aside(v, w)
    ensures w.seqNo == v.seqNo && w.cached == v.cached
  {
  }

  lemma RecordSeq(base: Data, w: View, key: bytes, r: PResult)
    ensures Record(base, w, key, r).seqNo == w.seqNo + 1
  {
  }

  lemma {:induction false} SubsRunning(lib: Strconv, base: Data, n0: nat, v: View, subs: seq<bytes>)
    requires Running(base, n0, v)
    ensures var o := ApplySubs(lib, base, v, subs);
      o.SubDone? ==> v.seqNo <= o.v.seqNo && (o.v.seqNo <= n0 + RING_SIZE ==> Running(base, n0, o.v))
  {
    hide ApplyOne, Running;
    if subs != [] {
      var n := |subs| - 1;
      SubsRunning(lib, base, n0, v, subs[..n]);
      var h := ApplySubs(lib, base, v, subs[..n]);
      if h.SubDone? {
        OneSeq(lib, base, h.v, subs[n]);
        if h.v.seqNo <= n0 + RING_SIZE { OneRunning(lib, base, n0, h.v, subs[n]); }
      }
    }
  }

  lemma OneSeq(lib: Strconv, base: Data, v: View, cmd: bytes)
    ensures var o := ApplyOne(lib, base, v, cmd); o.Done? ==> v.seqNo <= o.v.seqNo
  {
    hide ApplyBody, DecodeCommand, FrozenCovers, Record, DedupGet;
    DecodeCommandValid(cmd);
    var dc, o := DecodeCommand(cmd), ApplyOne(lib, base, v, cmd);
    if dc.Some? && o.Done? {
      BodyMoves(lib, base, v, dc.value);
      if Shortcut(base, v, dc.value).None? {
        var w: View :| Aside(v, w) && (o.v == w || (|dc.value.idem| > 0 && o.v == Record(base, w, dc.value.idem, o.r)));
        RecordSeq(base, w, dc.value.idem, o.r);
      }
    }
  }

  lemma EntryRunning(lib: Strconv, base: Data, n0: nat, v: View, cmd: bytes)
    requires Running(base, n0, v) && !IsMigrate(cmd)
    ensures var o := ApplyEntry(lib, base, v, cmd);
      o.Done? ==> v.seqNo <= o.v.seqNo && (o.v.seqNo <= n0 + RING_SIZE ==> Running(base, n0, o.v))
  {
    hide ApplyOne, ApplySubs, DecodeBatch, DecodeBounds, EncodeBatchResult, Running;
    if IsFreeze(cmd) {
      var o := ApplyFreeze(v, cmd);
      if o.Done? { assert Aside(v, o.v); AsideRunning(base, n0, v, o.v); }
    } else if IsBatch(cmd) {
      if DecodeBatch(cmd).Some? { SubsRunning(lib, base, n0, v, DecodeBatch(cmd).value); }
    } else {
      OneRunning(lib, base, n0, v, cmd);
    }
  }

  lemma {:induction false} FoldRunning(lib: Strconv, base: Data, n0: nat, v: View, es: seq<Entry>)
    requires Running(base, n0, v) && NoMigrate(es)
    ensures var w := Fold(lib, base, v, es); v.seqNo <= w.seqNo && (w.seqNo <= n0 + RING_SIZE ==> Running(base, n0, w))
  {
    hide ApplyEntry, Running;
    if es != [] {
      var n := |es| - 1;
      FoldRunning(lib, base, n0, v, es[..n]);
      var h := Fold(lib, base, v, es[..n]);
      EntrySeq(lib, base, h, es[n].cmd);
      if h.seqNo <= n0 + RING_SIZE { EntryRunning(lib, base, n0, h, es[n].cmd); }
    }
  }

  lemma {:induction false} SubsSeq(lib: Strconv, base: Data, v: View, subs: seq<bytes>)
    ensures var o := ApplySubs(lib, base, v, subs); o.SubDone? ==> v.seqNo <= o.v.seqNo
  {
    hide ApplyOne;
    if subs != [] {
      var n := |subs| - 1;
      SubsSeq(lib, base, v, subs[..n]);
      var h := ApplySubs(lib, base, v, subs[..n]);
      if h.SubDone? { OneSeq(lib, base, h.v, subs[n]); }
    }
  }

  lemma EntrySeq(lib: Strconv, base: Data, v: View, cmd: bytes)
    requires !IsMigrate(cmd)
    ensures var o := ApplyEntry(lib, base, v, cmd); o.Done? ==> v.seqNo <= o.v.seqNo
  {
    hide ApplyOne, ApplySubs, DecodeBatch, DecodeBounds, EncodeBatchResult;
    if IsBatch(cmd) {
      if DecodeBatch(cmd).Some? { SubsSeq(lib, base, v, DecodeBatch(cmd).value); }
    } else if !IsFreeze(cmd) {
      OneSeq(lib, base, v, cmd);
    }
  }

  // ---------------------------------------------------------------- updates and runs

  ghost predicate Sane(st: Data) { RingInv(Strip(st), SeqOf(st)) }

  lemma StartRunning(st: Data)
    requires Sane(st)
    ensures Running(Strip(st), SeqOf(st), Start(st))
  {
    hide Strip, SeqOf, RingInv;
  }

  /** The Update records no more keys than the ring has slots. */
  ghost predicate Modest(lib: Strconv, st: Data, es: seq<Entry>)
    requires NoMigrate(es)
  {
    Fold(lib, Strip(st), Start(st), es).seqNo <= SeqOf(st) + RING_SIZE
  }

  /** Position p of st holds key k with result r. */
  ghost predicate Recorded(st: Data, p: nat, k: bytes, r: PResult)
  {
    Oldest(SeqOf(st)) <= p < SeqOf(st) && KeyAt(Strip(st), p) == Some(k) && DedupGet(Strip(st), k) == Some(r)
  }

  /** Whatever st holds and fewer than 4096 newer records have followed, st' holds. */
  ghost predicate Remembers(st: Data, st': Data)
  {
    forall p: nat, k, r :: Recorded(st, p, k, r) && SeqOf(st') <= p + RING_SIZE ==> Recorded(st', p, k, r)
  }

  /** One Update keeps ring and cached results in bijection, and keeps every recorded key that fewer than
      4096 newer ones have followed. */
  lemma UpdateSane(lib: Strconv, st: Data, es: seq<Entry>)
    requires Sane(st) && NoMigrate(es) && Modest(lib, st, es)
    ensures var st' := Update(lib, st, es);
      Sane(st') && SeqOf(st) <= SeqOf(st') && Remembers(st, st')
  {
    hide Strip, RingInv, KeyAt, DedupGet, Commit, ApplyEntry, SeqOf;
    var st', w := Update(lib, st, es), Fold(lib, Strip(st), Start(st), es);
    StartRunning(st);
    FoldRunning(lib, Strip(st), SeqOf(st), Start(st), es);
    if es != [] {
      C.StartMetaFree(st);
      F.FoldMetaFree(lib, Strip(st), Start(st), es);
      C.CommitStrips(st, w, es[|es| - 1].index);
    }
  }

  ghost predicate ModestRun(lib: Strconv, st: Data, batches: seq<seq<Entry>>)
    decreases |batches|
  {
    batches != [] ==>
      && NoMigrate(batches[0]) && Modest(lib, st, batches[0])
      && ModestRun(lib, Update(lib, st, batches[0]), batches[1..])
  }

  ghost function After(lib: Strconv, st: Data, batches: seq<seq<Entry>>): Data
    requires ModestRun(lib, st, batches)
    decreases |batches|
  {
    if batches == [] then st else After(lib, Update(lib, st, batches[0]), batches[1..])
  }

  /** Bounded memory of the ring over whole runs. */
  lemma {:induction false} RunsRemember(lib: Strconv, st: Data, batches: seq<seq<Entry>>, p: nat, k: bytes, r: PResult)
    requires Sane(st) && ModestRun(lib, st, batches) && Recorded(st, p, k, r)
    requires SeqOf(After(lib, st, batches)) <= p + RING_SIZE
    ensures Sane(After(lib, st, batches)) && Recorded(After(lib, st, batches), p, k, r)
    decreases |batches|
  {
    hide Update, Recorded, Sane, Modest, SeqOf;
    if batches != [] {
      UpdateSane(lib, st, batches[0]);
      SeqGrows(lib, Update(lib, st, batches[0]), batches[1..]);
      RunsRemember(lib, Update(lib, st, batches[0]), batches[1..], p, k, r);
    }
  }

  lemma {:induction false} SeqGrows(lib: Strconv, st: Data, batches: seq<seq<Entry>>)
    requires Sane(st) && ModestRun(lib, st, batches)
    ensures SeqOf(st) <= SeqOf(After(lib, st, batches))
    decreases |batches|
  {
    hide Update, Recorded, Sane, Modest, SeqOf;
    if batches != [] {
      UpdateSane(lib, st, batches[0]);
      SeqGrows(lib, Update(lib, st, batches[0]), batches[1..]);
    }
  }

  /** The empty shard is where runs start. */
  lemma EmptySane()
    ensures Sane(map[])
  {
    assert Strip(map[]) == map[] && SeqOf(map[]) == 0;
  }
}
