/** The stored form of budget records (budget.go). Fields were appended in stages, and a decoder reads as
    many stages as the bytes hold: older records decode with the later fields zero, newer ones with their
    extra bytes ignored. */
module Records {
  import opened Bytes
  import opened Ledger
  import R = BudgetRuns

  predicate ValidPool(p: Pool)
  {
    && I64(p.cap) && I64(p.available) && I64(p.leasedOut) && I64(p.spent) && p.epoch < TWO64
    && I64(p.rate) && I64(p.burst) && I64(p.lastRefillMs) && I64(p.tokens) && I64(p.selfGuardMs)
    && I64(p.maxPauseMs) && I64(p.defaultTTLMs) && I64(p.dedupWindowMs) && I64(p.spentReported)
  }

  function I64s(vs: seq<int>): (r: bytes)
    requires forall i :: 0 <= i < |vs| ==> I64(vs[i])
    ensures |r| == 8 * |vs|
  {
    if vs == [] then [] else assert I64(vs[0]); PutI64(vs[0]) + I64s(vs[1..])
  }

  lemma {:induction false} I64sAt(vs: seq<int>, i: nat)
    requires i < |vs| && forall i :: 0 <= i < |vs| ==> I64(vs[i])
    ensures I64s(vs)[8 * i..8 * i + 8] == PutI64(vs[i])
    decreases i
  {
    hide PutI64;
    if i > 0 {
      I64sAt(vs[1..], i - 1);
      var h, t := PutI64(vs[0]), I64s(vs[1..]);
      assert (h + t)[8 * i..8 * i + 8] == t[8 * (i - 1)..8 * (i - 1) + 8];
    }
  }

  function Front(p: Pool): seq<int> { [p.cap, p.available, p.leasedOut, p.spent] }

  function Back(p: Pool): seq<int>
  {
    [p.rate, p.burst, p.lastRefillMs, p.tokens, p.selfGuardMs, p.maxPauseMs, p.defaultTTLMs, p.dedupWindowMs,
     p.spentReported]
  }

  function EncodePool(p: Pool): (r: bytes)
    requires ValidPool(p)
    ensures |r| == 113
  {
    I64s(Front(p)) + BE(p.epoch, 8) + [p.mode] + I64s(Back(p))
  }

  function At(b: bytes, k: nat): int
    requires k + 8 <= |b|
  {
    GetI64(b[k..])
  }

  /** decodePool; None stands for errShortPool. */
  function DecodePool(b: bytes): (r: Option<Pool>)
  {
    if |b| < 57 then None else
    var p := Pool(At(b, 0), At(b, 8), At(b, 16), At(b, 24), FromBE(b[32..40]), b[40], At(b, 41), At(b, 49), 0, 0, 0, 0,
                  0, 0, 0);
    var p1 := if |b| >= 73 then p.(lastRefillMs := At(b, 57), tokens := At(b, 65)) else p;
    var p2 := if |b| >= 105 then
        p1.(selfGuardMs := At(b, 73), maxPauseMs := At(b, 81), defaultTTLMs := At(b, 89), dedupWindowMs := At(b, 97))
      else p1;
    Some(if |b| >= 113 then p2.(spentReported := At(b, 105)) else p2)
  }

  /** The fields a record of n bytes carries. */
  function Known(p: Pool, n: nat): Pool
  {
    var q := if n >= 113 then p else p.(spentReported := 0);
    var q1 := if n >= 105 then q else q.(selfGuardMs := 0, maxPauseMs := 0, defaultTTLMs := 0, dedupWindowMs := 0);
    if n >= 73 then q1 else q1.(lastRefillMs := 0, tokens := 0)
  }

  lemma AtIs(b: bytes, k: nat, v: int)
    requires k + 8 <= |b| && I64(v) && b[k..k + 8] == PutI64(v)
    ensures At(b, k) == v
  {
    hide PutI64, GetI64;
    assert b[k..] == PutI64(v) + b[k + 8..];
    I64RoundTrip(v, b[k + 8..]);
  }

  lemma FrontAt(p: Pool, b: bytes, i: nat)
    requires ValidPool(p) && i < 4 && 8 * i + 8 <= |b| <= 113 && b == EncodePool(p)[..|b|]
    ensures At(b, 8 * i) == Front(p)[i]
  {
    hide I64s, BE, PutI64;
    I64sAt(Front(p), i);
    assert b[8 * i..8 * i + 8] == I64s(Front(p))[8 * i..8 * i + 8];
    AtIs(b, 8 * i, Front(p)[i]);
  }

  lemma BackAt(p: Pool, b: bytes, i: nat)
    requires ValidPool(p) && i < 9 && 41 + 8 * i + 8 <= |b| <= 113 && b == EncodePool(p)[..|b|]
    ensures At(b, 41 + 8 * i) == Back(p)[i]
  {
    hide I64s, BE, PutI64;
    I64sAt(Back(p), i);
    var head := I64s(Front(p)) + BE(p.epoch, 8) + [p.mode];
    assert EncodePool(p) == head + I64s(Back(p)) && |head| == 41;
    assert b[41 + 8 * i..41 + 8 * i + 8] == I64s(Back(p))[8 * i..8 * i + 8];
    AtIs(b, 41 + 8 * i, Back(p)[i]);
  }

  lemma MiddleAt(p: Pool, b: bytes)
    requires ValidPool(p) && 57 <= |b| <= 113 && b == EncodePool(p)[..|b|]
    ensures FromBE(b[32..40]) == p.epoch && b[40] == p.mode
  {
    hide I64s, BE, FromBE, PutI64;
    var front, e := I64s(Front(p)), EncodePool(p);
    var rest := [p.mode] + I64s(Back(p));
    assert e == front + (BE(p.epoch, 8) + rest) && |front| == 32 && |BE(p.epoch, 8)| == 8;
    assert e[32..40] == BE(p.epoch, 8) && e[40] == p.mode;
    assert b[32..40] == e[32..40] && b[40] == e[40];
    U64RoundTrip(p.epoch);
  }

  /** A record cut at any stage boundary, or between two, decodes to the fields it carries. */
  lemma PoolStages(p: Pool, n: nat)
    requires ValidPool(p) && n <= 113
    ensures DecodePool(EncodePool(p)[..n]) == if n < 57 then None else Some(Known(p, n))
  {
    hide EncodePool, At, ValidPool;
    var b := EncodePool(p)[..n];
    if n >= 57 {
      MiddleAt(p, b);
      FrontAt(p, b, 0);
      FrontAt(p, b, 1);
      FrontAt(p, b, 2);
      FrontAt(p, b, 3);
      BackAt(p, b, 0);
      BackAt(p, b, 1);
      if n >= 73 { BackAt(p, b, 2); BackAt(p, b, 3); }
      if n >= 105 { BackAt(p, b, 4); BackAt(p, b, 5); BackAt(p, b, 6); BackAt(p, b, 7); }
      if n >= 113 { BackAt(p, b, 8); }
    }
  }

  /** Bytes appended by a later stage are ignored. */
  lemma PoolRoundTrip(p: Pool, extra: bytes)
    requires ValidPool(p)
    ensures DecodePool(EncodePool(p) + extra) == Some(p)
  {
    hide EncodePool, ValidPool, FromBE, GetI64;
    PoolStages(p, 113);
    var e := EncodePool(p);
    assert e[..113] == e;
    SameFields(e, extra);
  }

  lemma SameFields(e: bytes, extra: bytes)
    requires |e| == 113
    ensures DecodePool(e + extra) == DecodePool(e)
  {
    hide FromBE;
    var b := e + extra;
    assert b[32..40] == e[32..40];
    forall k: nat | k + 8 <= 113 ensures At(b, k) == At(e, k) { assert b[k..][..8] == e[k..][..8]; }
  }

  // ---------------------------------------------------------------- leases and tombstones

  predicate LeaseFits(l: Lease)
  {
    I64(l.amount) && I64(l.spent) && l.epoch < TWO64 && I64(l.grantedMs) && I64(l.reclaimMs) && I64(l.expiresMs)
  }

  predicate ValidLease(l: Lease) { LeaseFits(l) && |l.holder| + 64 < TWO32 }

  function EncodeLease(l: Lease): bytes
    requires ValidLease(l)
  {
    I64s([l.amount, l.spent]) + BE(l.epoch, 8) + (Chunk(l.holder) + I64s([l.grantedMs, l.reclaimMs, l.expiresMs]))
  }

  /** decodeLease; a lease that ends at its holder has no times. */
  function DecodeLease(b: bytes): (r: Option<Lease>)
  {
    if |b| < 24 then None else
    var h := TakeChunk(b[24..]);
    if h.None? then None else
    var rest := h.value.1;
    var l := Lease(h.value.0, At(b, 0), At(b, 8), FromBE(b[16..24]), 0, 0, 0);
    Some(if |rest| >= 24 then l.(grantedMs := At(rest, 0), reclaimMs := At(rest, 8), expiresMs := At(rest, 16)) else l)
  }

  /** A lease survives storage; one written before leases had times decodes with none. */
  lemma LeaseRoundTrip(l: Lease, timed: bool)
    requires ValidLease(l)
    ensures var b :=
        if timed then EncodeLease(l) else I64s([l.amount, l.spent]) + BE(l.epoch, 8) + (Chunk(l.holder) + []);
      DecodeLease(b) == Some(if timed then l else l.(grantedMs := 0, reclaimMs := 0, expiresMs := 0))
  {
    hide I64s, BE, FromBE, PutI64, GetI64, Chunk, TakeChunk;
    var nums, times := [l.amount, l.spent], [l.grantedMs, l.reclaimMs, l.expiresMs];
    var tail := if timed then I64s(times) else [];
    var b := I64s(nums) + BE(l.epoch, 8) + (Chunk(l.holder) + tail);
    assert b[24..] == Chunk(l.holder) + tail && b[16..24] == BE(l.epoch, 8);
    TakeChunkOfChunk(l.holder, tail);
    U64RoundTrip(l.epoch);
    I64sAt(nums, 0);
    I64sAt(nums, 1);
    assert b[0..8] == I64s(nums)[0..8] && b[8..16] == I64s(nums)[8..16];
    AtIs(b, 0, l.amount);
    AtIs(b, 8, l.spent);
    if timed { TimesAt(times, tail); }
  }

  lemma TimesAt(vs: seq<int>, b: bytes)
    requires |vs| == 3 && (forall i :: 0 <= i < |vs| ==> I64(vs[i])) && b == I64s(vs)
    ensures At(b, 0) == vs[0] && At(b, 8) == vs[1] && At(b, 16) == vs[2]
  {
    hide I64s, PutI64, GetI64;
    I64sAt(vs, 0);
    I64sAt(vs, 1);
    I64sAt(vs, 2);
    AtIs(b, 0, vs[0]);
    AtIs(b, 8, vs[1]);
    AtIs(b, 16, vs[2]);
  }

  function EncodeTomb(t: Tomb): bytes
    requires I64(t.finalSpent)
  {
    PutI64(t.finalSpent) + [t.reason]
  }

  function DecodeTomb(b: bytes): (r: Option<Tomb>)
  {
    if |b| < 9 then None else Some(Tomb(GetI64(b), b[8]))
  }

  lemma TombRoundTrip(t: Tomb)
    requires I64(t.finalSpent)
    ensures DecodeTomb(EncodeTomb(t)) == Some(t)
  {
    hide PutI64, GetI64;
    I64RoundTrip(t.finalSpent, [t.reason]);
  }

  // ---------------------------------------------------------------- every record of a run can be stored

  ghost predicate Storable(b: Book)
  {
    && (b.pool.Some? ==> ValidPool(b.pool.value))
    && (forall id :: id in b.leases ==> LeaseFits(b.leases[id]))
    && (forall id :: id in b.tombs ==> I64(b.tombs[id].finalSpent))
  }

  /** What a command can do to a pool, beyond what the invariant says of it. */
  ghost predicate PoolMoves(p: Pool, q: Pool)
  {
    && q.cap == p.cap && q.epoch == p.epoch && q.rate == p.rate && q.burst == p.burst && q.selfGuardMs == p.selfGuardMs
    && q.maxPauseMs == p.maxPauseMs && q.defaultTTLMs == p.defaultTTLMs && q.dedupWindowMs == p.dedupWindowMs
    && I64(q.spent) && I64(q.tokens) && I64(q.lastRefillMs)
  }

  lemma RefillFits(p: Pool, stampMs: int)
    requires ValidPool(p) && I64(stampMs)
    ensures PoolMoves(p, Refill(p, stampMs))
  {
    hide WrapI64, Clamp, PacingMaxElapsedMs;
  }

  lemma PoolStepFits(b: Book, c: Cmd)
    requires R.Inv(b) && Storable(b) && ValidCmd(c) && b.pool.Some?
    ensures Step(b, c).pool.Some? && PoolMoves(b.pool.value, Step(b, c).pool.value)
  {
    hide GrantEcho, WrapI64, U64, BE, Refill, R.Sum, R.Unspent;
    var p := b.pool.value;
    if c.Grant? {
      RefillFits(p, c.stampMs);
      R.RefillKeeps(p, c.stampMs);
    }
  }

  lemma LeaseStepFits(b: Book, c: Cmd)
    requires R.Inv(b) && Storable(b) && ValidCmd(c) && R.Inv(Step(b, c))
    ensures forall id :: id in Step(b, c).leases ==> LeaseFits(Step(b, c).leases[id])
    ensures forall id :: id in Step(b, c).tombs ==> I64(Step(b, c).tombs[id].finalSpent)
  {
    hide GrantEcho, WrapI64, U64, BE, Refill, R.Sum, R.Unspent, R.GoodPool;
  }

  lemma StepStorable(b: Book, c: Cmd)
    requires R.Inv(b) && Storable(b) && ValidCmd(c)
    ensures Storable(Step(b, c))
  {
    R.StepConserves(b, c);
    LeaseStepFits(b, c);
    if b.pool.Some? {
      PoolStepFits(b, c);
      R.LeasedOutBounds(Step(b, c));
    } else {
      FirstPoolFits(b, c);
    }
  }

  lemma FirstPoolFits(b: Book, c: Cmd)
    requires b.pool.None? && ValidCmd(c)
    ensures Step(b, c).pool.Some? ==> ValidPool(Step(b, c).pool.value)
  {
    hide GrantEcho, WrapI64, U64, BE, Refill;
  }

  /** Every pool, lease and tombstone of every run, wrapped Spent included, is a record the formats carry. */
  lemma {:induction false} RunStorable(b: Book, cs: seq<Cmd>)
    requires R.Inv(b) && Storable(b) && R.AllValid(cs)
    ensures R.Inv(Run(b, cs)) && Storable(Run(b, cs))
    decreases |cs|
  {
    hide Step, Storable, R.Inv, ValidCmd;
    if cs != [] {
      R.StepConserves(b, cs[0]);
      StepStorable(b, cs[0]);
      RunStorable(Step(b, cs[0]), cs[1..]);
    }
  }
}
