/** The leased-budget escrow of budget.go: what one committed command does to a pool, its leases, its
    tombstones and the two due indexes of one collection. Arithmetic is over int; WrapI64 marks the sums
    whose int64 wrap-around the code can reach: deadlines, the refill clock and Spent. The other pool sums stay
    within the cap, as BudgetRuns.Inv says of every run. */
module Ledger {
  import opened Bytes
  import opened Codec

  const STRICT: byte := 1
  const MAX_CLOCK_SKEW_MS: int := 500
  const PACING_BURST_CEIL: int := 0x4_0000_0000_0000
  const MIN_DEDUP_WINDOW_MS: int := 30_000
  const REASON_RETURN: byte := 1
  const REASON_EXPIRE: byte := 2

  // result sentinels, as the bytes of the source's strings
  const NO_CAPACITY: bytes := [66, 85, 68, 78, 79, 67, 65, 80]
  const EXISTS: bytes := [66, 85, 68, 69, 88, 73, 83, 84, 83]
  const NO_LEASE: bytes := [66, 85, 68, 78, 79, 76, 69, 65, 83, 69]
  const NO_BUDGET: bytes := [66, 85, 68, 78, 79, 66, 85, 68, 71, 69, 84]
  const BAD_MODE: bytes := [66, 85, 68, 66, 65, 68, 77, 79, 68, 69]
  const BAD_PARAM: bytes := [66, 85, 68, 66, 65, 68, 80, 65, 82, 65, 77]
  const SETTLED: bytes := [66, 85, 68, 83, 69, 84, 84, 76, 69, 68]
  const WRONG_HOLDER: bytes := [66, 85, 68, 87, 82, 79, 78, 71, 72, 79, 76, 68, 69, 82]

  datatype Pool = Pool(
    cap: int, available: int, leasedOut: int, spent: int, epoch: nat, mode: byte, rate: int, burst: int,
    lastRefillMs: int, tokens: int, selfGuardMs: int, maxPauseMs: int, defaultTTLMs: int,
    dedupWindowMs: int, spentReported: int)

  datatype Lease = Lease(
    holder: bytes, amount: int, spent: int, epoch: nat, grantedMs: int, reclaimMs: int, expiresMs: int)

  datatype Tomb = Tomb(finalSpent: int, reason: byte)

  datatype Cmd =
    | Init(mode: byte, cap: int, rate: int, burst: int, selfGuardMs: int, maxPauseMs: int, defaultTTLMs: int,
           dedupWindowMs: int)
    | Grant(id: bytes, amount: int, stampMs: int, ttlMs: int, holder: bytes)
    | Report(id: bytes, cumulative: int, caller: bytes)
    | Return(id: bytes, final: Option<(int, bytes)>)
    | Expire(id: bytes, nowMs: int)
    | TombGC(id: bytes, dueMs: int)
    | Reconcile(acked: int)

  /** The argument layouts of the seven opcodes; None stands for errShortCommand. */
  function DecodeCmd(op: byte, items: seq<Item>): (r: Option<Cmd>)
  {
    if items == [] then None else
    var k, v := items[0].key, items[0].val;
    if op == BUDINIT then
      if |k| < 25 then None
      else if |k| >= 57 then
        Some(Init(k[0], GetI64(k[1..]), GetI64(k[9..]), GetI64(k[17..]), GetI64(k[25..]), GetI64(k[33..]),
                  GetI64(k[41..]), GetI64(k[49..])))
      else Some(Init(k[0], GetI64(k[1..]), GetI64(k[9..]), GetI64(k[17..]), 0, 0, 0, 0))
    else if op == BUDRECONCILE then
      if |v| < 8 then None else Some(Reconcile(GetI64(v)))
    else if |k| == 0 then None
    else if op == BUDGRANT then
      if |v| < 24 then None else Some(Grant(k, GetI64(v), GetI64(v[8..]), GetI64(v[16..]), v[24..]))
    else if op == BUDRETURN then
      Some(Return(k, if |v| >= 8 then Some((GetI64(v), v[8..])) else None))
    else if |v| < 8 then None
    else if op == BUDREPORT then Some(Report(k, GetI64(v), v[8..]))
    else if op == BUDEXPIRE then Some(Expire(k, GetI64(v)))
    else if op == BUDTOMBGC then Some(TombGC(k, GetI64(v)))
    else None
  }

  predicate I64(v: int) { -TWO63 <= v < TWO63 }

  /** The integer fields of a decoded command are int64. */
  predicate ValidCmd(c: Cmd)
  {
    match c
    case Init(_, cap, rate, burst, g, p, t, d) =>
      I64(cap) && I64(rate) && I64(burst) && I64(g) && I64(p) && I64(t) && I64(d)
    case Grant(_, a, s, t, _) => I64(a) && I64(s) && I64(t)
    case Report(_, n, _) => I64(n)
    case Return(_, f) => f.Some? ==> I64(f.value.0)
    case Expire(_, n) => I64(n)
    case TombGC(_, d) => I64(d)
    case Reconcile(a) => I64(a)
  }

  lemma DecodeCmdValid(op: byte, items: seq<Item>)
    ensures DecodeCmd(op, items).Some? ==> ValidCmd(DecodeCmd(op, items).value)
  {
  }

  function CmdId(c: Cmd): bytes
  {
    match c
    case Grant(id, _, _, _, _) => id
    case Report(id, _, _) => id
    case Return(id, _) => id
    case Expire(id, _) => id
    case TombGC(id, _) => id
    case _ => []
  }

  // ---------------------------------------------------------------- one command

  datatype Change<T> = Keep | Put(v: T) | Del

  /** What a command writes, row by row; the lease and tombstone rows are those of CmdId. */
  datatype Effect =
    | Corrupt
    | Effect(header: bool, pool: Option<Pool>, lease: Change<Lease>, tomb: Change<Tomb>,
             expPut: Option<int>, expDel: Option<int>, gcPut: Option<int>, gcDel: Option<int>, result: PResult)

  function U64(v: int): nat { v % TWO64 }

  function Nothing(r: PResult): (e: Effect)
    ensures e.Effect? && e.result == r && e.pool.None? && e.lease.Keep? && e.tomb.Keep?
  {
    Effect(false, None, Keep, Keep, None, None, None, None, r)
  }

  function Sentinel(data: bytes): Effect { Nothing(PResult(0, data)) }

  function Min(a: int, b: int): int { if a < b then a else b }

  function Clamp(v: int, lo: int, hi: int): int
  {
    if v < lo then lo else if v > hi then hi else v
  }

  function PacingMaxElapsedMs(rate: int, burst: int): int
  {
    if rate <= 0 then 0 else (4 * burst * 1000) / rate
  }

  function ApplyInit(c: Cmd, pool: Option<Pool>): Effect
    requires c.Init?
  {
    if c.mode != STRICT || c.cap < 0 then Sentinel(BAD_MODE)
    else if c.rate < 0 || c.burst < 0 || c.burst > PACING_BURST_CEIL
      || (c.defaultTTLMs > 0 && c.selfGuardMs < MAX_CLOCK_SKEW_MS)
      || (c.defaultTTLMs > 0 && c.dedupWindowMs < MIN_DEDUP_WINDOW_MS) then Sentinel(BAD_PARAM)
    else if pool.Some? then Sentinel(EXISTS)
    else
      var p := Pool(c.cap, c.cap, 0, 0, 1, c.mode, c.rate, c.burst, 0, if c.rate > 0 then c.burst else 0,
                    c.selfGuardMs, c.maxPauseMs, c.defaultTTLMs, c.dedupWindowMs, 0);
      Nothing(PResult(1, [])).(header := true, pool := Some(p))
  }

  /** Token accrual of one paced grant; state is kept only when the grant succeeds. */
  function Refill(p: Pool, stampMs: int): Pool
  {
    if p.rate <= 0 then p else
    var last := if p.lastRefillMs == 0 then stampMs else p.lastRefillMs;
    var elapsed := Clamp(WrapI64(stampMs - last), 0, PacingMaxElapsedMs(p.rate, p.burst));
    var accrued := p.rate * elapsed / 1000;
    var t := Min(Min(p.burst, WrapI64(p.cap - p.spent)), p.tokens + accrued);
    p.(tokens := if t < 0 then 0 else t, lastRefillMs := if stampMs > last then stampMs else last)
  }

  /** The 40-byte grant echo. */
  function GrantEcho(granted: int, grantedMs: int, ttl: int, guard: int, pause: int): bytes
  {
    BE(U64(granted), 8) + BE(U64(grantedMs), 8) + BE(U64(ttl), 8) + BE(U64(guard), 8) + BE(U64(pause), 8)
  }

  function EchoGrant(l: Lease, pool: Option<Pool>): Effect
  {
    var ttl := if l.expiresMs > 0 then WrapI64(l.expiresMs - l.grantedMs) else 0;
    var guard := if pool.Some? then pool.value.selfGuardMs else 0;
    var pause := if pool.Some? then pool.value.maxPauseMs else 0;
    Nothing(PResult(U64(l.amount), GrantEcho(l.amount, l.grantedMs, ttl, guard, pause)))
  }

  /** The effective ttl of a draw: its override, else the budget's default. */
  function TTLOf(p: Pool, c: Cmd): int
    requires c.Grant?
  {
    if c.ttlMs == 0 then p.defaultTTLMs else c.ttlMs
  }

  function ReclaimOf(p: Pool, c: Cmd): int
    requires c.Grant?
  {
    WrapI64(c.stampMs + TTLOf(p, c) + 3 * MAX_CLOCK_SKEW_MS + p.maxPauseMs)
  }

  /** How much a fresh draw receives. */
  function GrantSize(p: Pool, c: Cmd): int
    requires c.Grant?
  {
    var q := Refill(p, c.stampMs);
    Min(if p.rate > 0 then Min(c.amount, q.tokens) else c.amount, p.available)
  }

  function FreshGrant(p: Pool, c: Cmd): Effect
    requires c.Grant?
  {
    var ttl := TTLOf(p, c);
    if ttl > 0 && p.selfGuardMs < MAX_CLOCK_SKEW_MS then Sentinel(BAD_PARAM) else
    var q, g := Refill(p, c.stampMs), GrantSize(p, c);
    if g <= 0 then Sentinel(NO_CAPACITY) else
    var p' := q.(available := q.available - g, leasedOut := q.leasedOut + g,
                 tokens := if p.rate > 0 then q.tokens - g else q.tokens);
    var timed := ttl > 0;
    var l := Lease(c.holder, g, 0, p.epoch, c.stampMs, if timed then ReclaimOf(p, c) else 0,
                   if timed then WrapI64(c.stampMs + ttl) else 0);
    Nothing(PResult(U64(g), GrantEcho(g, c.stampMs, ttl, p.selfGuardMs, p.maxPauseMs)))
      .(pool := Some(p'), lease := Put(l), expPut := if timed then Some(l.reclaimMs) else None)
  }

  function ApplyGrant(c: Cmd, pool: Option<Pool>, lease: Option<Lease>, tomb: Option<Tomb>): Effect
    requires c.Grant?
  {
    if c.amount < 0 then Sentinel(NO_CAPACITY)
    else if tomb.Some? then Sentinel(SETTLED)
    else if lease.Some? then EchoGrant(lease.value, pool)
    else if pool.None? then Sentinel(NO_BUDGET)
    else FreshGrant(pool.value, c)
  }

  predicate HolderClash(caller: bytes, l: Lease)
  {
    |caller| > 0 && |l.holder| > 0 && caller != l.holder
  }

  /** The max-fold of a cumulative report, clamped to the lease. */
  function Folded(l: Lease, reported: int): int
  {
    if reported <= l.spent then l.spent else Min(reported, l.amount)
  }

  /** Moves a lease's spend to s: leasedOut -> spent, attested. */
  function Book1(p: Pool, l: Lease, s: int): Pool
  {
    p.(leasedOut := p.leasedOut - (s - l.spent), spent := WrapI64(p.spent + (s - l.spent)),
       spentReported := p.spentReported + (s - l.spent))
  }

  function ApplyReport(c: Cmd, pool: Option<Pool>, lease: Option<Lease>): Effect
    requires c.Report?
  {
    if lease.None? then Sentinel(NO_LEASE) else
    var l := lease.value;
    if HolderClash(c.caller, l) then Sentinel(WRONG_HOLDER)
    else if c.cumulative <= l.spent then Nothing(PResult(U64(l.amount - l.spent), []))
    else if pool.None? then Corrupt
    else
      var s := Folded(l, c.cumulative);
      Nothing(PResult(U64(l.amount - s), [])).(pool := Some(Book1(pool.value, l, s)), lease := Put(l.(spent := s)))
  }

  function FinalSpent(l: Lease, c: Cmd): int
  {
    if c.Return? && c.final.Some? then Folded(l, c.final.value.0) else l.spent
  }

  function ApplyReturn(c: Cmd, pool: Option<Pool>, lease: Option<Lease>, tomb: Option<Tomb>): Effect
    requires c.Return?
  {
    if tomb.Some? then Nothing(PResult(0, []))
    else if lease.None? then Sentinel(NO_LEASE) else
    var l := lease.value;
    if c.final.Some? && HolderClash(c.final.value.1, l) then Sentinel(WRONG_HOLDER)
    else if pool.None? then Corrupt
    else
      var s := FinalSpent(l, c);
      var p := Book1(pool.value, l, s);
      var rem := l.amount - s;
      var p' := p.(available := p.available + rem, leasedOut := p.leasedOut - rem);
      var timed := l.reclaimMs > 0;
      Nothing(PResult(U64(rem), [])).(pool := Some(p'), lease := Del,
        tomb := if timed then Put(Tomb(s, REASON_RETURN)) else Keep,
        expDel := if timed then Some(l.reclaimMs) else None,
        gcPut := if timed then Some(WrapI64(l.reclaimMs + p.dedupWindowMs)) else None)
  }

  function ApplyExpire(c: Cmd, pool: Option<Pool>, lease: Option<Lease>, tomb: Option<Tomb>): Effect
    requires c.Expire?
  {
    if tomb.Some? then Nothing(PResult(0, []))
    else if lease.None? then
      var due := if pool.Some? then Some(WrapI64(c.nowMs + pool.value.dedupWindowMs)) else None;
      Effect(false, None, Keep, Put(Tomb(0, REASON_EXPIRE)), None, None, due, None, PResult(0, []))
    else
      var l := lease.value;
      if c.nowMs < l.reclaimMs then Nothing(PResult(U64(l.amount - l.spent), []))
      else if pool.None? then Corrupt
      else
        var p, rem := pool.value, l.amount - l.spent;
        Nothing(PResult(U64(rem), [])).(
          pool := Some(p.(spent := WrapI64(p.spent + rem), leasedOut := p.leasedOut - rem)), lease := Del,
          tomb := Put(Tomb(l.spent, REASON_EXPIRE)),
          expDel := if l.reclaimMs > 0 then Some(l.reclaimMs) else None,
          gcPut := Some(WrapI64(l.reclaimMs + p.dedupWindowMs)))
  }

  /** The spend a reconcile settles on. */
  function ReconcileTarget(p: Pool, acked: int): int
  {
    Clamp(acked, p.spentReported, p.cap)
  }

  function ApplyReconcile(c: Cmd, pool: Option<Pool>): Effect
    requires c.Reconcile?
  {
    if pool.None? then Sentinel(NO_BUDGET) else
    var p := pool.value;
    var target := ReconcileTarget(p, c.acked);
    var room := p.cap - target - p.leasedOut;
    Nothing(PResult(U64(p.spent - target), BE(U64(p.spent - target), 8)))
      .(pool := Some(p.(spent := target, available := if room < 0 then 0 else room)))
  }

  /** applyOne's budget dispatch, given the rows the command reads. */
  function Apply(c: Cmd, pool: Option<Pool>, lease: Option<Lease>, tomb: Option<Tomb>): Effect
  {
    match c
    case Init(_, _, _, _, _, _, _, _) => ApplyInit(c, pool)
    case Grant(_, _, _, _, _) => ApplyGrant(c, pool, lease, tomb)
    case Report(_, _, _) => ApplyReport(c, pool, lease)
    case Return(_, _) => ApplyReturn(c, pool, lease, tomb)
    case Expire(_, _) => ApplyExpire(c, pool, lease, tomb)
    case TombGC(_, due) => Nothing(PResult(0, [])).(tomb := Del, gcDel := Some(due))
    case Reconcile(_) => ApplyReconcile(c, pool)
  }

  // ---------------------------------------------------------------- the rows of one budget

  /** Pool, leases, tombstones, the expiry index and the tombstone-GC index of one collection. */
  datatype Book = Book(pool: Option<Pool>, leases: map<bytes, Lease>, tombs: map<bytes, Tomb>,
                       exp: set<(int, bytes)>, gc: set<(int, bytes)>)

  const EMPTY := Book(None, map[], map[], {}, {})

  function Get<T>(m: map<bytes, T>, k: bytes): Option<T>
  {
    if k in m then Some(m[k]) else None
  }

  function Changed<T>(m: map<bytes, T>, k: bytes, c: Change<T>): map<bytes, T>
  {
    match c
    case Keep => m
    case Put(v) => m[k := v]
    case Del => m - {k}
  }

  function Indexed(s: set<(int, bytes)>, put: Option<int>, del: Option<int>, id: bytes): set<(int, bytes)>
  {
    var s1 := if del.Some? then s - {(del.value, id)} else s;
    if put.Some? then s1 + {(put.value, id)} else s1
  }

  function Write(b: Book, id: bytes, e: Effect): Book
  {
    if e.Corrupt? then b else
    Book(if e.pool.Some? then e.pool else b.pool, Changed(b.leases, id, e.lease), Changed(b.tombs, id, e.tomb),
         Indexed(b.exp, e.expPut, e.expDel, id), Indexed(b.gc, e.gcPut, e.gcDel, id))
  }

  function EffectOn(b: Book, c: Cmd): Effect
  {
    Apply(c, b.pool, Get(b.leases, CmdId(c)), Get(b.tombs, CmdId(c)))
  }

  function Step(b: Book, c: Cmd): Book
  {
    Write(b, CmdId(c), EffectOn(b, c))
  }

  function Run(b: Book, cs: seq<Cmd>): Book
    decreases |cs|
  {
    if cs == [] then b else Run(Step(b, cs[0]), cs[1..])
  }
}
