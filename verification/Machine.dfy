/** What committed entries mean for a data shard's rows (statemachine.go, hincr.go, dedup.go, ttl.go,
    freeze.go, sm_fatal.go), written as direct reads and writes of the rows. Reads that the code sends to
    the store instead of its in-batch overlays -- TTL pointers, dedup rows, ring slots, frozen ranges --
    go to `base`, the rows as the running Update found them. */
module Machine {
  import opened Bytes
  import opened Codec
  import opened Rows
  import L = Ledger

  datatype Val =
    | Raw(b: bytes)
    | Num(n: nat)
    | PoolV(p: L.Pool)
    | LeaseV(l: L.Lease)
    | TombV(t: L.Tomb)
    | Cached(r: PResult)

  type Data = map<Row, Val>

  /** strconv and float addition, as the parameters of the counters. */
  datatype Strconv = Strconv(parseInt: bytes -> Option<int>, formatInt: int -> bytes,
                             parseFloat: bytes -> Option<nat>, addFloat: (nat, nat) -> nat, formatFloat: nat -> bytes)

  const WRONG_TYPE: bytes := [87, 82, 79, 78, 71, 84, 89, 80, 69]
  const FROZEN_MARK: bytes := [70, 82, 79, 90, 69, 78]
  const NOT_NUMBER: bytes := [78, 79, 84, 78, 85, 77]
  const RING_SIZE: nat := 4096

  // ---------------------------------------------------------------- reads

  function TypeRow(d: Data, c: Coll): Option<nat>
  {
    if Type(c) in d && d[Type(c)].Num? then Some(d[Type(c)].n) else None
  }

  function TypeOf(d: Data, c: Coll): nat
  {
    if TypeRow(d, c).Some? then TypeRow(d, c).value else 0
  }

  function ScoreOf(d: Data, c: Coll, m: bytes): (r: Option<nat>)
    ensures r.Some? ==> r.value < TWO64
  {
    if ZPtr(c, m) in d && d[ZPtr(c, m)].Num? && d[ZPtr(c, m)].n < TWO64 then Some(d[ZPtr(c, m)].n) else None
  }

  function ExpiryOf(base: Data, c: Coll, m: bytes): Option<nat>
  {
    if TTLPtr(c, m) in base && base[TTLPtr(c, m)].Num? then Some(base[TTLPtr(c, m)].n) else None
  }

  function FieldOf(d: Data, k: Row): Option<bytes>
  {
    if k in d then Some(if d[k].Raw? then d[k].b else []) else None
  }

  predicate FrozenCovers(base: Data, rk: bytes)
  {
    exists r :: r in base && r.Frozen? && base[r].Raw? && InRoute(rk, r.start, base[r].b)
  }

  function DedupGet(base: Data, key: bytes): Option<PResult>
  {
    if Dedup(key) in base && base[Dedup(key)].Cached? then Some(base[Dedup(key)].r) else None
  }

  function RingKey(base: Data, slot: nat): Option<bytes>
  {
    if Ring(slot) in base && base[Ring(slot)].Raw? && |base[Ring(slot)].b| > 0 then Some(base[Ring(slot)].b) else None
  }

  function PoolOf(d: Data, c: Coll): Option<L.Pool>
  {
    if BudPool(c) in d && d[BudPool(c)].PoolV? then Some(d[BudPool(c)].p) else None
  }

  function LeaseOf(d: Data, c: Coll, id: bytes): Option<L.Lease>
  {
    if BudLease(c, id) in d && d[BudLease(c, id)].LeaseV? then Some(d[BudLease(c, id)].l) else None
  }

  function TombOf(d: Data, c: Coll, id: bytes): Option<L.Tomb>
  {
    if BudTomb(c, id) in d && d[BudTomb(c, id)].TombV? then Some(d[BudTomb(c, id)].t) else None
  }

  // ---------------------------------------------------------------- one item of a set, hash or zset command

  /** The rows after an item, the change of the collection's element count, and the reported change. */
  datatype ItemEff = ItemEff(d: Data, delta: int, changed: nat)

  function SetTTL(base: Data, d: Data, c: Coll, m: bytes, expiry: nat): Data
  {
    var prior := ExpiryOf(base, c, m);
    var d1 := if prior.Some? then d - {TTLIdx(prior.value, c, m)} else d;
    d1[TTLIdx(expiry, c, m) := Raw([])][TTLPtr(c, m) := Num(expiry)]
  }

  function ClearTTL(base: Data, d: Data, c: Coll, m: bytes): Data
  {
    var prior := ExpiryOf(base, c, m);
    if prior.Some? then d - {TTLIdx(prior.value, c, m), TTLPtr(c, m)} else d
  }

  function AddMember(base: Data, d: Data, c: Coll, it: Item): ItemEff
  {
    var k := Elem(c, it.key);
    var d1 := if k in d then d else d[k := Raw([])];
    var d2 := if it.expiryMs > 0 then SetTTL(base, d1, c, it.key, it.expiryMs) else d1;
    if k in d then ItemEff(d2, 0, 0) else ItemEff(d2, 1, 1)
  }

  function DropElem(base: Data, d: Data, c: Coll, it: Item): ItemEff
  {
    var k := Elem(c, it.key);
    if k in d then ItemEff(ClearTTL(base, d - {k}, c, it.key), -1, 1)
    else ItemEff(ClearTTL(base, d, c, it.key), 0, 0)
  }

  function ExpireElem(base: Data, d: Data, c: Coll, it: Item): ItemEff
  {
    var exp := ExpiryOf(base, c, it.key);
    if exp.None? || exp.value > L.U64(it.expiryMs) then ItemEff(d, 0, 0)
    else DropElem(base, d, c, it)
  }

  function SetField(d: Data, c: Coll, it: Item): ItemEff
  {
    var k := Elem(c, it.key);
    if k in d then ItemEff(d[k := Raw(it.val)], 0, 0) else ItemEff(d[k := Raw(it.val)], 1, 1)
  }

  function AddScored(d: Data, c: Coll, it: Item): ItemEff
    requires ValidItem(it)
  {
    var prior := ScoreOf(d, c, it.key);
    var d1 := if prior.Some? then d - {Elem(c, ScoreTail(prior.value, it.key))} else d;
    var d2 := d1[Elem(c, ScoreTail(it.score, it.key)) := Raw([])][ZPtr(c, it.key) := Num(it.score)];
    if prior.Some? then ItemEff(d2, 0, 0) else ItemEff(d2, 1, 1)
  }

  function DropScored(d: Data, c: Coll, it: Item): ItemEff
  {
    var prior := ScoreOf(d, c, it.key);
    if prior.Some? then ItemEff(d - {Elem(c, ScoreTail(prior.value, it.key)), ZPtr(c, it.key)}, -1, 1)
    else ItemEff(d, 0, 0)
  }

  function ApplyItem(base: Data, d: Data, op: byte, c: Coll, it: Item): ItemEff
    requires ValidItem(it)
  {
    if op == SADD then AddMember(base, d, c, it)
    else if op == SREM || op == HDEL then DropElem(base, d, c, it)
    else if op == EXPIRE then ExpireElem(base, d, c, it)
    else if op == HSET then SetField(d, c, it)
    else if op == ZADD then AddScored(d, c, it)
    else if op == ZREM then DropScored(d, c, it)
    else if op == REMOVE && (TypeOf(d, c) == TSET || TypeOf(d, c) == THASH) then DropElem(base, d, c, it)
    else if op == REMOVE && TypeOf(d, c) == TZSET then DropScored(d, c, it)
    else ItemEff(d, 0, 0)
  }

  /** applyCommand: the items in order. */
  function ApplyItems(base: Data, d: Data, op: byte, c: Coll, its: seq<Item>): ItemEff
    requires forall i :: 0 <= i < |its| ==> ValidItem(its[i])
  {
    if its == [] then ItemEff(d, 0, 0) else
    var n := |its| - 1;
    var e := ApplyItems(base, d, op, c, its[..n]);
    var f := ApplyItem(base, e.d, op, c, its[n]);
    ItemEff(f.d, e.delta + f.delta, e.changed + f.changed)
  }

  // ---------------------------------------------------------------- one command

  /** The running Update: rows without counters, counter deltas, ring sequence, results recorded so far. */
  datatype View = View(d: Data, delta: map<Coll, int>, seqNo: nat, cached: map<bytes, PResult>)

  /** Skip stands for a non-fatal error or a panic: the entry is dropped. */
  datatype Outcome = Skip | Done(v: View, r: PResult)

  function Delta(v: View, c: Coll): int
  {
    if c in v.delta then v.delta[c] else 0
  }

  function Bump(v: View, d: Data, c: Coll, by_: int): View
  {
    v.(d := d, delta := v.delta[c := Delta(v, c) + by_])
  }

  /** ensureType: the rows with the header written if it was absent, and whether the type fits. */
  function EnsureType(d: Data, c: Coll, want: nat): (Data, bool)
  {
    var t := TypeRow(d, c);
    if t.Some? then (d, t.value == want) else (d[Type(c) := Num(want)], true)
  }

  /** dedupRecord: evict the slot's previous key, write the slot and the cached result. */
  function Record(base: Data, v: View, key: bytes, r: PResult): View
  {
    var slot := v.seqNo % RING_SIZE;
    var prior := RingKey(base, slot);
    var d1 := if prior.Some? then v.d - {Dedup(prior.value)} else v.d;
    View(d1[Ring(slot) := Raw(key)][Dedup(key) := Cached(r)], v.delta, v.seqNo + 1, v.cached[key := r])
  }

  /** The new value of a counter field and its encoding; None is NOTNUM. */
  function NextCount(lib: Strconv, c: Command, cur: Option<bytes>): Option<(bytes, bytes)>
    requires c.items != [] && (c.op == HINCRBY ==> |c.items[0].val| >= 8)
  {
    var it := c.items[0];
    if c.op == HINCRBY then
      var n := if cur.None? then Some(0) else lib.parseInt(cur.value);
      if n.None? then None else
      var nv := WrapI64(n.value + GetI64(it.val));
      Some((lib.formatInt(nv), BE(L.U64(nv), 8)))
    else
      var f := if cur.None? then Some(0) else lib.parseFloat(cur.value);
      if f.None? then None else
      var nv := lib.addFloat(f.value, it.score);
      Some((lib.formatFloat(nv), BE(nv % TWO64, 8)))
  }

  function ApplyCounter(lib: Strconv, base: Data, v: View, c: Command): Outcome
  {
    if c.items == [] || (c.op == HINCRBY && |c.items[0].val| < 8) then Skip else
    var coll := Coll(c.ns, c.coll);
    var k := Elem(coll, c.items[0].key);
    var cur := FieldOf(v.d, k);
    var nx := NextCount(lib, c, cur);
    if nx.None? then Done(v, PResult(0, NOT_NUMBER)) else
    var changed := if cur.None? then 1 else 0;
    var r := PResult(changed, nx.value.1);
    var v1 := Bump(v, v.d[k := Raw(nx.value.0)], coll, changed);
    Done(if |c.idem| > 0 then Record(base, v1, c.idem, r) else v1, r)
  }

  function WriteRecords(d: Data, c: Coll, id: bytes, e: L.Effect): Data
    requires e.Effect?
  {
    var d1 := if e.pool.Some? then d[BudPool(c) := PoolV(e.pool.value)] else d;
    var d2 := match e.lease
      case Keep => d1
      case Put(l) => d1[BudLease(c, id) := LeaseV(l)]
      case Del => d1 - {BudLease(c, id)};
    match e.tomb case Keep => d2 case Put(t) => d2[BudTomb(c, id) := TombV(t)] case Del => d2 - {BudTomb(c, id)}
  }

  function WriteIndexes(d: Data, c: Coll, id: bytes, e: L.Effect): Data
    requires e.Effect?
  {
    var d1 := if e.expDel.Some? then d - {BudExp(L.U64(e.expDel.value), c, id)} else d;
    var d2 := if e.expPut.Some? then d1[BudExp(L.U64(e.expPut.value), c, id) := Raw([])] else d1;
    var d3 := if e.gcDel.Some? then d2 - {BudGC(L.U64(e.gcDel.value), c, id)} else d2;
    if e.gcPut.Some? then d3[BudGC(L.U64(e.gcPut.value), c, id) := Raw([])] else d3
  }

  function WriteBudget(d: Data, c: Coll, id: bytes, e: L.Effect): Data
    requires e.Effect?
  {
    WriteIndexes(WriteRecords(d, c, id, e), c, id, e)
  }

  function ApplyBudget(v: View, c: Command): Outcome
  {
    var coll := Coll(c.ns, c.coll);
    var t := TypeOf(v.d, coll);
    if t != 0 && t != TBUDGET then Done(v, PResult(0, WRONG_TYPE)) else
    var bc := L.DecodeCmd(c.op, c.items);
    if bc.None? then Skip else
    var id := L.CmdId(bc.value);
    var e := L.Apply(bc.value, PoolOf(v.d, coll), LeaseOf(v.d, coll, id), TombOf(v.d, coll, id));
    if e.Corrupt? then Skip else
    var hd := if e.header then EnsureType(v.d, coll, TBUDGET) else (v.d, true);
    if !hd.1 then Done(v, PResult(0, WRONG_TYPE))
    else Done(v.(d := WriteBudget(hd.0, coll, id, e)), e.result)
  }

  /** applyOne after freeze and dedup have let the command through. */
  function ApplyBody(lib: Strconv, base: Data, v: View, c: Command): Outcome
    requires ValidCommand(c)
  {
    var coll := Coll(c.ns, c.coll);
    var typed := c.op != EXPIRE && c.op != REMOVE && TypeForOp(c.op) != TBUDGET;
    var hd := if typed then EnsureType(v.d, coll, TypeForOp(c.op)) else (v.d, true);
    if !hd.1 then Done(v, PResult(0, WRONG_TYPE)) else
    var v1 := v.(d := hd.0);
    if c.op == HINCRBY || c.op == HINCRBYFLOAT then ApplyCounter(lib, base, v1, c)
    else if TypeForOp(c.op) == TBUDGET then ApplyBudget(v1, c)
    else
      var e := ApplyItems(base, v1.d, c.op, coll, c.items);
      var v2 := Bump(v1, e.d, coll, e.delta);
      var r := PResult(e.changed, []);
      Done(if |c.idem| > 0 then Record(base, v2, c.idem, r) else v2, r)
  }

  /** The answer a command gets without running: frozen range, or a key already recorded. */
  function Shortcut(base: Data, v: View, c: Command): Option<PResult>
  {
    if FrozenCovers(base, RouteKey(Coll(c.ns, c.coll))) then Some(PResult(0, FROZEN_MARK))
    else if |c.idem| == 0 then None
    else if c.idem in v.cached then Some(v.cached[c.idem])
    else DedupGet(base, c.idem)
  }

  /** applyOne. */
  function ApplyOne(lib: Strconv, base: Data, v: View, cmd: bytes): Outcome
  {
    var c := DecodeCommand(cmd);
    if c.None? then Skip else
    DecodeCommandValid(cmd);
    var s := Shortcut(base, v, c.value);
    if s.Some? then Done(v, s.value) else ApplyBody(lib, base, v, c.value)
  }

  // ---------------------------------------------------------------- one entry

  datatype SubOutcome = SubSkip | SubDone(v: View, rs: seq<PResult>)

  /** The sub-commands of a batch entry in order; one bad sub-command drops the whole entry. */
  function ApplySubs(lib: Strconv, base: Data, v: View, subs: seq<bytes>): SubOutcome
  {
    if subs == [] then SubDone(v, []) else
    var n := |subs| - 1;
    var h := ApplySubs(lib, base, v, subs[..n]);
    if h.SubSkip? then SubSkip else
    var t := ApplyOne(lib, base, h.v, subs[n]);
    if t.Skip? then SubSkip else SubDone(t.v, h.rs + [t.r])
  }

  predicate MigrateOp(cmd: bytes) { cmd != [] && (cmd[0] == INGEST || cmd[0] == PURGE) }

  /** A migration command that decodes. */
  predicate IsMigrate(cmd: bytes)
  {
    MigrateOp(cmd) && if cmd[0] == INGEST then DecodeIngest(cmd).Some? else DecodeBounds(cmd).Some?
  }
  predicate IsFreeze(cmd: bytes) { cmd != [] && (cmd[0] == FREEZE || cmd[0] == UNFREEZE) }
  predicate IsBatch(cmd: bytes) { cmd != [] && cmd[0] == BATCH }

  function ApplyFreeze(v: View, cmd: bytes): Outcome
    requires IsFreeze(cmd)
  {
    var b := DecodeBounds(cmd);
    if b.None? then Skip
    else if cmd[0] == FREEZE then Done(v.(d := v.d[Frozen(b.value.0) := Raw(b.value.1)]), PResult(1, []))
    else Done(v.(d := v.d - {Frozen(b.value.0)}), PResult(1, []))
  }

  /** applyEntry, except for the raw-row migration opcodes. */
  function ApplyEntry(lib: Strconv, base: Data, v: View, cmd: bytes): Outcome
    requires !IsMigrate(cmd)
  {
    if MigrateOp(cmd) then Skip
    else if IsFreeze(cmd) then ApplyFreeze(v, cmd)
    else if IsBatch(cmd) then
      var subs := DecodeBatch(cmd);
      if subs.None? then Skip else
      var o := ApplySubs(lib, base, v, subs.value);
      if o.SubSkip? then Skip else Done(o.v, PResult(0, EncodeBatchResult(o.rs)))
    else ApplyOne(lib, base, v, cmd)
  }

  // ---------------------------------------------------------------- one Update

  datatype Entry = Entry(index: nat, cmd: bytes)

  predicate NoMigrate(es: seq<Entry>)
  {
    forall i :: 0 <= i < |es| ==> !IsMigrate(es[i].cmd)
  }

  /** The view after the entries: a skipped entry has no effect. */
  function Fold(lib: Strconv, base: Data, v: View, es: seq<Entry>): View
    requires NoMigrate(es)
  {
    if es == [] then v else
    var n := |es| - 1;
    var h := Fold(lib, base, v, es[..n]);
    var o := ApplyEntry(lib, base, h, es[n].cmd);
    if o.Skip? then h else o.v
  }

  /** The entries' results: a skipped entry gets the zero result. */
  function Results(lib: Strconv, base: Data, v: View, es: seq<Entry>): (rs: seq<PResult>)
    requires NoMigrate(es)
    ensures |rs| == |es|
  {
    if es == [] then [] else
    var n := |es| - 1;
    var o := ApplyEntry(lib, base, Fold(lib, base, v, es[..n]), es[n].cmd);
    Results(lib, base, v, es[..n]) + [if o.Skip? then PResult(0, []) else o.r]
  }

  /** Counters, applied index and ring sequence: rows an Update writes only when it commits. */
  predicate Meta(r: Row) { r.Card? || r.Applied? || r.DedupSeq? }

  function Strip(st: Data): Data { map r | r in st && !Meta(r) :: st[r] }

  function CardOf(st: Data, c: Coll): nat
  {
    if Card(c) in st && st[Card(c)].Num? then st[Card(c)].n else 0
  }

  function SeqOf(st: Data): nat
  {
    if DedupSeq in st && st[DedupSeq].Num? then st[DedupSeq].n else 0
  }

  function NewCard(cur: nat, delta: int): nat
  {
    if cur + delta < 0 then 0 else cur + delta
  }

  function Start(st: Data): View { View(Strip(st), map[], SeqOf(st), map[]) }

  /** The counter rows a commit writes: one per collection with a non-zero delta. */
  function CardRows(st: Data, v: View): Data
  {
    map c | c in v.delta && v.delta[c] != 0 :: Card(c) := Num(NewCard(CardOf(st, c), v.delta[c]))
  }

  /** The bookkeeping rows after the commit. */
  function MetaRows(st: Data, v: View, last: nat): Data
  {
    (map r | r in st && Meta(r) :: st[r]) + CardRows(st, v)
    + (if v.seqNo != SeqOf(st) then map[DedupSeq := Num(v.seqNo)] else map[])
    + map[Applied := Num(last)]
  }

  /** The store after the commit of a view reached from st. */
  function Commit(st: Data, v: View, last: nat): Data { v.d + MetaRows(st, v, last) }

  /** Update: the whole list against one base, committed once. */
  function Update(lib: Strconv, st: Data, es: seq<Entry>): Data
    requires NoMigrate(es)
  {
    if es == [] then st
    else Commit(st, Fold(lib, Strip(st), Start(st), es), es[|es| - 1].index)
  }

  function UpdateResults(lib: Strconv, st: Data, es: seq<Entry>): seq<PResult>
    requires NoMigrate(es)
  {
    Results(lib, Strip(st), Start(st), es)
  }
}
