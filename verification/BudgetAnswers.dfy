/** What budget commands answer and move (budget.go): command by command, in the fields of pool, lease, tombstone and
    index; how much a draw gets, that a retried draw is answered with the same bytes, and that cumulative reports fold
    to their maximum in any order. */
module BudgetAnswers {
  import opened Bytes
  import opened Codec
  import opened Ledger
  import R = BudgetRuns

  /** What a fresh draw can be given: the available units, and with pacing the tokens. */
  function Room(p: Pool, c: Cmd): int
    requires c.Grant?
  {
    if p.rate > 0 then Min(p.available, Refill(p, c.stampMs).tokens) else p.available
  }

  /** A fresh draw gets the largest positive amount that fits the request and the room, held by the caller; when
      there is none it is refused and nothing changes. */
  lemma DrawIsMaximal(b: Book, c: Cmd, g: int)
    requires R.FreshDraw(b, c)
    ensures var room, b' := Room(b.pool.value, c), Step(b, c);
      if Min(c.amount, room) > 0 then
        && c.id in b'.leases && b'.leases[c.id].holder == c.holder
        && (g <= c.amount && g <= room ==> g <= b'.leases[c.id].amount)
        && b'.leases[c.id].amount <= c.amount && b'.leases[c.id].amount <= room
        && EffectOn(b, c).result.value == U64(b'.leases[c.id].amount)
      else b' == b && EffectOn(b, c).result == PResult(0, NO_CAPACITY)
  {
    hide Refill, GrantEcho;
  }

  // ---------------------------------------------------------------- retried draws

  /** The echo of a stored lease can name the ttl that the first answer named: an untimed draw without a negative
      override, or a timed one whose expiry is a positive time. */
  predicate EchoesTtl(p: Pool, c: Cmd)
    requires c.Grant?
  {
    var ttl := TTLOf(p, c);
    ttl == 0 || (ttl > 0 && WrapI64(c.stampMs + ttl) > 0)
  }

  lemma EchoInjective(a: int, s: int, t: int, g: int, p: int, u: int)
    requires -TWO63 <= t < TWO63 && -TWO63 <= u < TWO63
    ensures GrantEcho(a, s, t, g, p) == GrantEcho(a, s, u, g, p) <==> t == u
  {
    hide BE;
    var x, y := GrantEcho(a, s, t, g, p), GrantEcho(a, s, u, g, p);
    assert x[16..24] == BE(U64(t), 8) && y[16..24] == BE(U64(u), 8);
    if x == y { U64Injective(U64(t), U64(u)); }
  }

  lemma WrapBack(s: int, t: int)
    requires -TWO63 <= s < TWO63 && -TWO63 <= t < TWO63
    ensures WrapI64(WrapI64(s + t) - s) == t
  {
  }

  /** A draw repeated at once gets the first answer, byte for byte, and changes nothing, if and only if the echo
      can name its ttl. */
  lemma RetryEchoes(b: Book, c: Cmd)
    requires R.Granted(b, c) && -TWO63 <= c.stampMs < TWO63 && -TWO63 <= TTLOf(b.pool.value, c) < TWO63
    ensures Step(Step(b, c), c) == Step(b, c)
    ensures EffectOn(Step(b, c), c).result == EffectOn(b, c).result <==> EchoesTtl(b.pool.value, c)
  {
    hide Refill, GrantEcho, WrapI64;
    var p := b.pool.value;
    var ttl, g := TTLOf(p, c), GrantSize(p, c);
    R.RefillConfig(p, c.stampMs);
    WrapBack(c.stampMs, ttl);
    EchoInjective(g, c.stampMs, ttl, p.selfGuardMs, p.maxPauseMs, 0);
    assert Write(Step(b, c), c.id, EffectOn(Step(b, c), c)) == Step(b, c);
  }

  /** A negative ttl override is answered with itself, and on the retry with zero. */
  lemma NegativeOverrideAnswersDiffer()
    ensures var b := Step(EMPTY, Init(STRICT, 100, 0, 0, 0, 0, 0, 0)); var c := Grant([1], 10, 1000, -1, []);
      EffectOn(Step(b, c), c).result != EffectOn(b, c).result
  {
    hide GrantEcho, WrapI64, Refill;
    var b, c := Step(EMPTY, Init(STRICT, 100, 0, 0, 0, 0, 0, 0)), Grant([1], 10, 1000, -1, []);
    R.RefillConfig(b.pool.value, 1000);
    RetryEchoes(b, c);
  }

  /** What a stored lease answers to a retried draw. */
  ghost function Answer(b: Book, id: bytes): PResult
    requires id in b.leases
  {
    EchoGrant(b.leases[id], b.pool).result
  }

  /** The answer of a lease is the same after any command that leaves the lease there. */
  lemma AnswerStays(b: Book, c: Cmd, id: bytes)
    requires R.Inv(b) && id in b.leases && id in Step(b, c).leases
    ensures Answer(Step(b, c), id) == Answer(b, id)
  {
    hide Refill, GrantEcho, WrapI64, R.Sum, R.Unspent;
    if c.Grant? && b.pool.Some? { R.RefillConfig(b.pool.value, c.stampMs); }
  }

  ghost predicate LiveThroughout(b: Book, cs: seq<Cmd>, id: bytes)
    decreases |cs|
  {
    id in b.leases && (cs == [] || LiveThroughout(Step(b, cs[0]), cs[1..], id))
  }

  /** Over any run in which the lease is not settled, retrying its draw returns the bytes of the first answer and
      changes nothing. */
  lemma {:induction false} RetryAfterRun(b: Book, cs: seq<Cmd>, c: Cmd)
    requires R.Inv(b) && c.Grant? && c.amount >= 0 && LiveThroughout(b, cs, c.id)
    ensures var b' := Run(b, cs); c.id in b'.leases && EffectOn(b', c).result == Answer(b, c.id) && Step(b', c) == b'
    decreases |cs|
  {
    hide GrantEcho, EchoGrant, R.Inv;
    if cs == [] {
      NotSettled(b, c.id);
      assert Write(b, c.id, EffectOn(b, c)) == b by { EchoWritesNothing(b, c); }
    } else {
      assert LiveThroughout(Step(b, cs[0]), cs[1..], c.id);
      assert c.id in Step(b, cs[0]).leases;
      R.StepConserves(b, cs[0]);
      AnswerStays(b, cs[0], c.id);
      RetryAfterRun(Step(b, cs[0]), cs[1..], c);
    }
  }

  lemma NotSettled(b: Book, id: bytes)
    requires R.Inv(b) && id in b.leases
    ensures id !in b.tombs
  {
  }

  lemma EchoWritesNothing(b: Book, c: Cmd)
    requires c.Grant? && c.amount >= 0 && c.id in b.leases && c.id !in b.tombs
    ensures Write(b, c.id, EffectOn(b, c)) == b && EffectOn(b, c).result == Answer(b, c.id)
  {
    hide GrantEcho, WrapI64;
  }

  // ---------------------------------------------------------------- reports

  function Reports(id: bytes, rs: seq<int>): seq<Cmd>
  {
    seq(|rs|, i requires 0 <= i < |rs| => Report(id, rs[i], []))
  }

  /** s is the largest of a lease's spend and the reports, each counted at most up to the lease's amount. */
  ghost predicate IsFold(l: Lease, rs: seq<int>, s: int)
  {
    && s >= l.spent && (forall i :: 0 <= i < |rs| ==> s >= Min(rs[i], l.amount))
    && (s == l.spent || exists i :: 0 <= i < |rs| && s == Min(rs[i], l.amount))
  }

  lemma FoldNext(l: Lease, rs: seq<int>, s: int)
    requires rs != [] && l.spent <= l.amount
    requires IsFold(l.(spent := Folded(l, rs[0])), rs[1..], s)
    ensures IsFold(l, rs, s)
  {
    var t := rs[1..];
    forall i | 0 <= i < |rs| ensures s >= Min(rs[i], l.amount) { if i > 0 { assert rs[i] == t[i - 1]; } }
    if i :| 0 <= i < |t| && s == Min(t[i], l.amount) { assert rs[i + 1] == t[i]; }
    assert s == Folded(l, rs[0]) ==> s == l.spent || s == Min(rs[0], l.amount);
  }

  lemma OneReport(b: Book, id: bytes, n: int)
    requires R.Inv(b) && id in b.leases
    ensures var b' := Step(b, Report(id, n, []));
      id in b'.leases && b'.leases[id] == b.leases[id].(spent := Folded(b.leases[id], n))
  {
    hide R.Sum, R.Unspent;
  }

  /** Cumulative reports of one lease, in any order and with any repetition: the lease ends at their maximum, never
      above its amount. */
  lemma {:induction false} ReportsFold(b: Book, id: bytes, rs: seq<int>)
    requires R.Inv(b) && id in b.leases
    ensures var b' := Run(b, Reports(id, rs));
      id in b'.leases && b'.leases[id] == b.leases[id].(spent := b'.leases[id].spent)
      && IsFold(b.leases[id], rs, b'.leases[id].spent)
    decreases |rs|
  {
    hide IsFold, Folded;
    if rs == [] {
      NoFold(b.leases[id]);
    } else {
      var c := Report(id, rs[0], []);
      assert Reports(id, rs)[0] == c && Reports(id, rs)[1..] == Reports(id, rs[1..]);
      OneReport(b, id, rs[0]);
      R.StepConserves(b, c);
      ReportsFold(Step(b, c), id, rs[1..]);
      var l := b.leases[id];
      FoldNext(l, rs, Run(b, Reports(id, rs)).leases[id].spent);
    }
  }

  lemma NoFold(l: Lease)
    ensures IsFold(l, [], l.spent)
  {
  }

  // ---------------------------------------------------------------- command by command

  /** The answers that are no number. */
  lemma SentinelsSpell()
    ensures NO_CAPACITY == Ascii("BUDNOCAP") && EXISTS == Ascii("BUDEXISTS") && NO_LEASE == Ascii("BUDNOLEASE")
    ensures NO_BUDGET == Ascii("BUDNOBUDGET")
  {
  }

  lemma MoreSentinelsSpell()
    ensures BAD_MODE == Ascii("BUDBADMODE") && BAD_PARAM == Ascii("BUDBADPARAM") && SETTLED == Ascii("BUDSETTLED")
    ensures WRONG_HOLDER == Ascii("BUDWRONGHOLDER")
  {
  }

  ghost predicate Refused(b: Book, c: Cmd, why: bytes)
  {
    Step(b, c) == b && EffectOn(b, c).Effect? && EffectOn(b, c).result == PResult(0, why)
  }

  /** A definition is accepted exactly when there is no pool yet, the mode is strict, cap, rate and burst are not
      negative, the burst is at most 2^50, and a timed budget has a guard of 500 ms and a window of 30 s. The whole cap
      is then available. */
  lemma InitAnswers(b: Book, c: Cmd)
    requires c.Init?
    ensures var timed := c.defaultTTLMs > 0;
      if c.mode != 1 || c.cap < 0 then Refused(b, c, BAD_MODE)
      else if c.rate < 0 || c.burst < 0 || c.burst > 0x4_0000_0000_0000 then Refused(b, c, BAD_PARAM)
      else if timed && (c.selfGuardMs < 500 || c.dedupWindowMs < 30000) then Refused(b, c, BAD_PARAM)
      else if b.pool.Some? then Refused(b, c, EXISTS)
      else
        && EffectOn(b, c).result == PResult(1, []) && EffectOn(b, c).header
        && Step(b, c) == b.(pool := Some(Pool(
             c.cap, c.cap, 0, 0, 1, 1, c.rate, c.burst, 0, if c.rate > 0 then c.burst else 0, c.selfGuardMs,
             c.maxPauseMs, c.defaultTTLMs, c.dedupWindowMs, 0)))
  {
  }

  /** What a draw is refused with. */
  lemma DrawRefusals(b: Book, c: Cmd)
    requires c.Grant?
    ensures c.amount < 0 ==> Refused(b, c, NO_CAPACITY)
    ensures c.amount >= 0 && c.id in b.tombs ==> Refused(b, c, SETTLED)
    ensures c.amount >= 0 && c.id !in b.tombs && c.id !in b.leases && b.pool.None? ==> Refused(b, c, NO_BUDGET)
    ensures c.amount >= 0 && c.id !in b.tombs && c.id !in b.leases && b.pool.Some? ==>
      var p := b.pool.value;
      (if c.ttlMs == 0 then p.defaultTTLMs else c.ttlMs) > 0 && p.selfGuardMs < 500 ==> Refused(b, c, BAD_PARAM)
  {
    hide GrantEcho, Refill;
  }

  /** A granted draw of g moves g from available to leased, and takes g tokens from a paced pool. */
  lemma DrawMoves(b: Book, c: Cmd)
    requires R.Granted(b, c)
    ensures var p, g, p' := b.pool.value, Step(b, c).leases[c.id].amount, Step(b, c).pool.value;
      && p'.available == p.available - g && p'.leasedOut == p.leasedOut + g && p'.spent == p.spent
      && p'.spentReported == p.spentReported && p'.cap == p.cap && p'.epoch == p.epoch && p'.mode == p.mode
      && (p.rate > 0 ==> p'.tokens == Refill(p, c.stampMs).tokens - g)
      && (p.rate <= 0 ==> p'.tokens == p.tokens && p'.lastRefillMs == p.lastRefillMs)
  {
    hide GrantEcho, WrapI64, U64;
  }

  /** What a refill leaves in the bucket: the tokens there and the rate over the time since the last refill, at most
      four bursts of it, but not more than the burst nor than is left of the cap. */
  lemma RefillMeans(p: Pool, stampMs: int, elapsed: int, full: int)
    requires p.rate > 0 && p.burst >= 0 && p.tokens >= 0 && I64(p.cap - p.spent)
    requires elapsed == if p.lastRefillMs == 0 then 0 else stampMs - p.lastRefillMs
    requires I64(elapsed) && full == 4 * p.burst * 1000 / p.rate
    ensures var credit := if elapsed < 0 then 0 else if elapsed < full then elapsed else full;
      var t := Refill(p, stampMs).tokens;
      && 0 <= t <= p.tokens + p.rate * credit / 1000 && t <= p.burst && (p.spent <= p.cap ==> t <= p.cap - p.spent)
      && (t == p.tokens + p.rate * credit / 1000 || t == p.burst || t == p.cap - p.spent || (t == 0 && p.spent > p.cap))
  {
    hide WrapI64;
    R.MulMonotone(p.rate, 0, if elapsed < 0 then 0 else if elapsed < full then elapsed else full);
  }

  /** The lease of a granted draw and its answer: the amount, the stamp, the ttl in force, the guard and the pause. A
      timed lease is due at stamp + ttl + 3 * 500 ms + pause, an untimed one never. */
  lemma DrawAnswers(b: Book, c: Cmd)
    requires R.Granted(b, c)
    ensures var p, g := b.pool.value, Step(b, c).leases[c.id].amount;
      var ttl := if c.ttlMs == 0 then p.defaultTTLMs else c.ttlMs;
      var due := WrapI64(c.stampMs + ttl + 1500 + p.maxPauseMs);
      var r := EffectOn(b, c).result;
      && Step(b, c).leases == b.leases[c.id := Lease(c.holder, g, 0, p.epoch, c.stampMs, if ttl > 0 then due else 0,
                                                     if ttl > 0 then WrapI64(c.stampMs + ttl) else 0)]
      && Step(b, c).exp == (if ttl > 0 then b.exp + {(due, c.id)} else b.exp)
      && Step(b, c).tombs == b.tombs && Step(b, c).gc == b.gc
      && r.value == U64(g) && Echoes(r.data, g, c.stampMs, ttl, p.selfGuardMs, p.maxPauseMs)
  {
    hide GrantEcho, Refill, WrapI64, U64, Echoes;
    var p := b.pool.value;
    R.RefillConfig(p, c.stampMs);
    EchoSays(GrantSize(p, c), c.stampMs, if c.ttlMs == 0 then p.defaultTTLMs else c.ttlMs, p.selfGuardMs, p.maxPauseMs);
  }

  /** decodeGrantResult: five int64 fields of eight bytes. */
  ghost predicate Echoes(b: bytes, granted: int, stampMs: int, ttlMs: int, guardMs: int, pauseMs: int)
  {
    && |b| == 40
    && GetI64(b) == WrapI64(granted) && GetI64(b[8..]) == WrapI64(stampMs) && GetI64(b[16..]) == WrapI64(ttlMs)
    && GetI64(b[24..]) == WrapI64(guardMs) && GetI64(b[32..]) == WrapI64(pauseMs)
  }

  lemma EchoField(v: int, rest: bytes)
    ensures GetI64(BE(U64(v), 8) + rest) == WrapI64(v)
  {
    hide BE, FromBE;
    var s := BE(U64(v), 8) + rest;
    assert s[..8] == BE(U64(v), 8);
    U64RoundTrip(U64(v));
    assert WrapI64(U64(v)) == WrapI64(v) by { WrapImage(v); }
  }

  lemma WrapImage(v: int)
    ensures WrapI64(U64(v)) == WrapI64(v)
  {
    var q := v / TWO64;
    assert U64(v) == v - q * TWO64;
    var x := v + TWO63;
    assert (x - q * TWO64) % TWO64 == x % TWO64;
  }

  lemma EchoSays(granted: int, stampMs: int, ttlMs: int, guardMs: int, pauseMs: int)
    ensures Echoes(GrantEcho(granted, stampMs, ttlMs, guardMs, pauseMs), granted, stampMs, ttlMs, guardMs, pauseMs)
  {
    hide BE, GetI64, WrapI64, U64;
    var e4 := BE(U64(pauseMs), 8);
    var e3 := BE(U64(guardMs), 8) + e4;
    var e2 := BE(U64(ttlMs), 8) + e3;
    var e1 := BE(U64(stampMs), 8) + e2;
    var b := GrantEcho(granted, stampMs, ttlMs, guardMs, pauseMs);
    assert b == BE(U64(granted), 8) + e1 && b[8..] == e1 && b[16..] == e2 && b[24..] == e3 && b[32..] == e4 + [];
    EchoField(granted, e1);
    EchoField(stampMs, e2);
    EchoField(ttlMs, e3);
    EchoField(guardMs, e4);
    EchoField(pauseMs, []);
  }

  /** The caller named a holder, the lease has one, and they differ. */
  ghost predicate Stranger(caller: bytes, l: Lease) { caller != [] && l.holder != [] && caller != l.holder }

  /** The largest of what was reported and what is now, up to the lease's amount. */
  ghost function SpentAfter(l: Lease, reported: int): int
  {
    if reported <= l.spent then l.spent else if reported < l.amount then reported else l.amount
  }

  /** A report moves what is newly spent from leased to spent and attested, and answers what is left of the lease. */
  lemma ReportAnswers(b: Book, c: Cmd)
    requires R.Inv(b) && c.Report?
    ensures c.id !in b.leases ==> Refused(b, c, NO_LEASE)
    ensures c.id in b.leases && Stranger(c.caller, b.leases[c.id]) ==> Refused(b, c, WRONG_HOLDER)
    ensures c.id in b.leases && !Stranger(c.caller, b.leases[c.id]) ==>
      var l, p, b' := b.leases[c.id], b.pool.value, Step(b, c);
      var s := SpentAfter(l, c.cumulative);
      && EffectOn(b, c).result == PResult(U64(l.amount - s), []) && b'.leases == b.leases[c.id := l.(spent := s)]
      && b' == b.(leases := b'.leases, pool := b'.pool)
      && (s > l.spent ==>
          b'.pool == Some(p.(leasedOut := p.leasedOut - (s - l.spent), spent := WrapI64(p.spent + (s - l.spent)),
                             spentReported := p.spentReported + (s - l.spent))))
      && (s == l.spent && I64(p.spent) ==> b'.pool == b.pool)
  {
    hide R.Sum, R.Unspent, WrapI64, U64;
  }

  /** A return settles the lease at its last report: what is left becomes available again and is the answer. A timed one
      leaves a tombstone, to be collected a window after its deadline. */
  lemma ReturnAnswers(b: Book, c: Cmd)
    requires R.Inv(b) && c.Return?
    ensures c.id in b.tombs ==> Refused(b, c, [])
    ensures c.id !in b.tombs && c.id !in b.leases ==> Refused(b, c, NO_LEASE)
    ensures c.id in b.leases && c.final.Some? && Stranger(c.final.value.1, b.leases[c.id]) ==>
      Refused(b, c, WRONG_HOLDER)
    ensures c.id in b.leases && !(c.final.Some? && Stranger(c.final.value.1, b.leases[c.id])) ==>
      var l, p, b' := b.leases[c.id], b.pool.value, Step(b, c);
      var s := if c.final.Some? then SpentAfter(l, c.final.value.0) else l.spent;
      && EffectOn(b, c).result == PResult(U64(l.amount - s), []) && b'.leases == b.leases - {c.id}
      && b'.pool == Some(p.(available := p.available + (l.amount - s), leasedOut := p.leasedOut - (l.amount - l.spent),
                            spent := WrapI64(p.spent + (s - l.spent)),
                            spentReported := p.spentReported + (s - l.spent)))
      && (if l.reclaimMs > 0 then
            && b'.tombs == b.tombs[c.id := Tomb(s, 1)] && b'.exp == b.exp - {(l.reclaimMs, c.id)}
            && b'.gc == b.gc + {(WrapI64(l.reclaimMs + p.dedupWindowMs), c.id)}
          else b'.tombs == b.tombs && b'.exp == b.exp && b'.gc == b.gc)
  {
    hide R.Sum, R.Unspent, WrapI64, U64;
  }

  /** An expiry before the lease's deadline changes nothing and answers what is left; after it the rest counts as spent,
      unattested, and a tombstone stays until a window after the deadline. Of an unknown lease it leaves a tombstone. */
  lemma ExpireAnswers(b: Book, c: Cmd)
    requires R.Inv(b) && c.Expire?
    ensures c.id in b.tombs ==> Refused(b, c, [])
    ensures c.id in b.leases && c.nowMs < b.leases[c.id].reclaimMs ==>
      Step(b, c) == b && EffectOn(b, c).result == PResult(U64(b.leases[c.id].amount - b.leases[c.id].spent), [])
    ensures c.id in b.leases && c.nowMs >= b.leases[c.id].reclaimMs ==>
      var l, p, b' := b.leases[c.id], b.pool.value, Step(b, c);
      var rest := l.amount - l.spent;
      && EffectOn(b, c).result == PResult(U64(rest), []) && b'.leases == b.leases - {c.id}
      && b'.pool == Some(p.(leasedOut := p.leasedOut - rest, spent := WrapI64(p.spent + rest)))
      && b'.tombs == b.tombs[c.id := Tomb(l.spent, 2)]
      && b'.exp == (if l.reclaimMs > 0 then b.exp - {(l.reclaimMs, c.id)} else b.exp)
      && b'.gc == b.gc + {(WrapI64(l.reclaimMs + p.dedupWindowMs), c.id)}
    ensures c.id !in b.leases && c.id !in b.tombs ==>
      var b' := Step(b, c);
      && EffectOn(b, c).result == PResult(0, []) && b' == b.(tombs := b.tombs[c.id := Tomb(0, 2)], gc := b'.gc)
      && b'.gc == if b.pool.Some? then b.gc + {(WrapI64(c.nowMs + b.pool.value.dedupWindowMs), c.id)} else b.gc
  {
    hide R.Sum, R.Unspent, WrapI64, U64;
  }

  /** Collecting a tombstone removes it and the index row it names, and touches nothing else. */
  lemma CollectAnswers(b: Book, c: Cmd)
    requires c.TombGC?
    ensures Step(b, c) == b.(tombs := b.tombs - {c.id}, gc := b.gc - {(c.dueMs, c.id)})
    ensures EffectOn(b, c).result == PResult(0, [])
  {
  }

  /** A reconcile sets what is spent to the acknowledged total, but not below what was attested nor above the cap, makes
      the rest that is not leased available, and answers how much that recovered. */
  lemma ReconcileAnswers(b: Book, c: Cmd)
    requires c.Reconcile? && (b.pool.Some? ==> b.pool.value.spentReported <= b.pool.value.cap)
    ensures b.pool.None? ==> Refused(b, c, NO_BUDGET)
    ensures b.pool.Some? ==>
      var p, b', r := b.pool.value, Step(b, c), EffectOn(b, c).result;
      var s := b'.pool.value.spent;
      && b' == b.(pool := b'.pool) && b'.pool == Some(p.(spent := s, available := b'.pool.value.available))
      && p.spentReported <= s <= p.cap && (s == c.acked || (c.acked < s == p.spentReported) || (c.acked > s == p.cap))
      && b'.pool.value.available == (if s + p.leasedOut <= p.cap then p.cap - s - p.leasedOut else 0)
      && r.value == U64(p.spent - s) && |r.data| == 8 && GetI64(r.data) == WrapI64(p.spent - s)
  {
    hide BE, GetI64, WrapI64, U64;
    if b.pool.Some? {
      var d := b.pool.value.spent - Step(b, c).pool.value.spent;
      EchoField(d, []);
      assert BE(U64(d), 8) + [] == BE(U64(d), 8);
    }
  }
}
