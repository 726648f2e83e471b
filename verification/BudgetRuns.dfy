/** Whole-run properties of the escrow: conservation, no overspend, pacing, single settlement and the
    expiry index. */
module BudgetRuns {
  import opened Bytes
  import opened Ledger

  // ---------------------------------------------------------------- sums over lease rows

  ghost function Sum(m: map<bytes, int>): int
  {
    if m == map[] then 0 else
    var k :| k in m;
    m[k] + Sum(m - {k})
  }

  lemma {:induction false} SumRemove(m: map<bytes, int>, k: bytes)
    requires k in m
    ensures Sum(m) == m[k] + Sum(m - {k})
    decreases |m|
  {
    var j :| j in m && Sum(m) == m[j] + Sum(m - {j});
    if j != k {
      SumRemove(m - {j}, k);
      SumRemove(m - {k}, j);
      assert (m - {j}) - {k} == (m - {k}) - {j};
    }
  }

  lemma SumPut(m: map<bytes, int>, k: bytes, v: int)
    ensures Sum(m[k := v]) == Sum(m) - (if k in m then m[k] else 0) + v
  {
    SumRemove(m[k := v], k);
    if k in m {
      SumRemove(m, k);
      assert m[k := v] - {k} == m - {k};
    } else {
      assert m[k := v] - {k} == m;
    }
  }

  ghost function Unspent(ls: map<bytes, Lease>): map<bytes, int>
  {
    map id | id in ls :: ls[id].amount - ls[id].spent
  }

  ghost function Amounts(ls: map<bytes, Lease>): map<bytes, int>
  {
    map id | id in ls :: ls[id].amount
  }

  lemma PutSums(ls: map<bytes, Lease>, id: bytes, l: Lease)
    ensures Sum(Unspent(ls[id := l])) ==
      Sum(Unspent(ls)) - (if id in ls then ls[id].amount - ls[id].spent else 0) + l.amount - l.spent
    ensures Sum(Amounts(ls[id := l])) == Sum(Amounts(ls)) - (if id in ls then ls[id].amount else 0) + l.amount
  {
    assert Unspent(ls[id := l]) == Unspent(ls)[id := l.amount - l.spent];
    assert Amounts(ls[id := l]) == Amounts(ls)[id := l.amount];
    SumPut(Unspent(ls), id, l.amount - l.spent);
    SumPut(Amounts(ls), id, l.amount);
  }

  lemma DelSums(ls: map<bytes, Lease>, id: bytes)
    requires id in ls
    ensures Sum(Unspent(ls)) == ls[id].amount - ls[id].spent + Sum(Unspent(ls - {id}))
    ensures Sum(Amounts(ls)) == ls[id].amount + Sum(Amounts(ls - {id}))
  {
    assert Unspent(ls - {id}) == Unspent(ls) - {id};
    assert Amounts(ls - {id}) == Amounts(ls) - {id};
    SumRemove(Unspent(ls), id);
    SumRemove(Amounts(ls), id);
  }

  lemma {:induction false} SumNonNegative(m: map<bytes, int>)
    requires forall k :: k in m ==> m[k] >= 0
    ensures Sum(m) >= 0
    decreases |m|
  {
    if m != map[] {
      var k :| k in m && Sum(m) == m[k] + Sum(m - {k});
      SumNonNegative(m - {k});
    }
  }

  // ---------------------------------------------------------------- the state invariant

  ghost predicate GoodLease(l: Lease)
  {
    l.amount > 0 && 0 <= l.spent <= l.amount
  }

  ghost predicate GoodPool(p: Pool)
  {
    && p.cap >= 0 && p.available >= 0 && p.spentReported >= 0
    && p.available + p.leasedOut + p.spentReported <= p.cap
    && p.rate >= 0 && 0 <= p.burst <= PACING_BURST_CEIL && 0 <= p.tokens
  }

  /** Holds in every reachable budget: the pool's LeasedOut is the unspent total of the live lease rows and,
      with what is available and what was reported, within the cap; leases never overspend themselves; no id
      is both live and settled. It says nothing of Spent, which may wrap. */
  ghost predicate Inv(b: Book)
  {
    && (forall id :: id in b.leases ==> GoodLease(b.leases[id]))
    && b.leases.Keys !! b.tombs.Keys
    && (b.pool.None? ==> b.leases == map[])
    && (b.pool.Some? ==> GoodPool(b.pool.value) && b.pool.value.leasedOut == Sum(Unspent(b.leases)))
  }

  /** The three buckets fit int64 together, so that no settlement can wrap Spent. */
  ghost predicate Narrow(b: Book)
  {
    b.pool.Some? ==>
      var p := b.pool.value;
      && p.spentReported <= p.spent
      && p.cap <= p.available + p.leasedOut + p.spent < TWO63
  }

  /** A reconcile leaves room for the outstanding leases to settle as spent. */
  ghost predicate RoomFor(b: Book, c: Cmd)
  {
    c.Reconcile? && b.pool.Some? ==> ReconcileTarget(b.pool.value, c.acked) + b.pool.value.leasedOut < TWO63
  }

  /** How far the three buckets exceed the cap. */
  ghost function Excess(b: Book): int
  {
    if b.pool.None? then 0 else
    var p := b.pool.value;
    p.available + p.leasedOut + p.spent - p.cap
  }

  lemma LeasedOutBounds(b: Book)
    requires Inv(b) && b.pool.Some?
    ensures b.pool.value.leasedOut >= 0
    ensures forall id :: id in b.leases ==> b.leases[id].amount - b.leases[id].spent <= b.pool.value.leasedOut
  {
    SumNonNegative(Unspent(b.leases));
    forall id | id in b.leases
      ensures b.leases[id].amount - b.leases[id].spent <= b.pool.value.leasedOut
    {
      DelSums(b.leases, id);
      SumNonNegative(Unspent(b.leases - {id}));
    }
  }

  // ---------------------------------------------------------------- what each command keeps

  lemma InitKeeps(b: Book, c: Cmd)
    requires Inv(b) && c.Init?
    ensures Inv(Step(b, c)) && Excess(Step(b, c)) == Excess(b)
    ensures Narrow(b) && ValidCmd(c) ==> Narrow(Step(b, c))
  {
    if EffectOn(b, c).pool.Some? {
      assert Unspent(b.leases) == map[];
    }
  }

  lemma RefillKeeps(p: Pool, stampMs: int)
    requires GoodPool(p)
    ensures var q := Refill(p, stampMs);
      q == p.(tokens := q.tokens, lastRefillMs := q.lastRefillMs) && q.tokens >= 0
  {
    hide WrapI64, Clamp, PacingMaxElapsedMs;
  }

  lemma GrantKeeps(b: Book, c: Cmd)
    requires Inv(b) && c.Grant?
    ensures Inv(Step(b, c))
    ensures Narrow(b) ==> Narrow(Step(b, c)) && Excess(Step(b, c)) == Excess(b)
  {
    hide GrantEcho, WrapI64, Refill, U64, Sum, Unspent, Amounts;
    if EffectOn(b, c).pool.Some? {
      var p := b.pool.value;
      RefillKeeps(p, c.stampMs);
      PutSums(b.leases, c.id, EffectOn(b, c).lease.v);
    }
  }

  lemma ReportKeeps(b: Book, c: Cmd)
    requires Inv(b) && c.Report?
    ensures Inv(Step(b, c))
    ensures Narrow(b) ==> Narrow(Step(b, c)) && Excess(Step(b, c)) == Excess(b)
  {
    hide U64, WrapI64, Sum, Unspent, Amounts;
    if EffectOn(b, c).Effect? && EffectOn(b, c).pool.Some? {
      LeasedOutBounds(b);
      PutSums(b.leases, c.id, EffectOn(b, c).lease.v);
    }
  }

  lemma ReturnKeeps(b: Book, c: Cmd)
    requires Inv(b) && c.Return?
    ensures Inv(Step(b, c))
    ensures Narrow(b) ==> Narrow(Step(b, c)) && Excess(Step(b, c)) == Excess(b)
  {
    hide U64, WrapI64, Sum, Unspent, Amounts;
    if EffectOn(b, c).Effect? && EffectOn(b, c).pool.Some? {
      LeasedOutBounds(b);
      DelSums(b.leases, c.id);
    }
  }

  lemma ExpireKeeps(b: Book, c: Cmd)
    requires Inv(b) && c.Expire?
    ensures Inv(Step(b, c))
    ensures Narrow(b) ==> Narrow(Step(b, c)) && Excess(Step(b, c)) == Excess(b)
  {
    hide U64, WrapI64, Sum, Unspent, Amounts;
    if EffectOn(b, c).Effect? && EffectOn(b, c).pool.Some? {
      LeasedOutBounds(b);
      DelSums(b.leases, c.id);
    }
  }

  lemma ReconcileSets(b: Book, c: Cmd)
    requires Inv(b) && c.Reconcile?
    ensures Inv(Step(b, c))
    ensures Narrow(b) ==> (Narrow(Step(b, c)) <==> RoomFor(b, c))
    ensures b.pool.Some? ==>
      var p := b.pool.value;
      var over := p.leasedOut + ReconcileTarget(p, c.acked) - p.cap;
      Excess(Step(b, c)) == if over > 0 then over else 0
  {
    hide U64, BE;
    if b.pool.Some? { LeasedOutBounds(b); }
  }

  /** Conservation, command by command. The invariant holds of every command. As long as Spent cannot wrap only a
      reconcile moves the excess; and whether Spent can wrap is decided by reconciles alone. */
  lemma StepConserves(b: Book, c: Cmd)
    requires Inv(b)
    ensures Inv(Step(b, c))
    ensures Narrow(b) && !c.Reconcile? ==> Excess(Step(b, c)) == Excess(b)
    ensures c.Reconcile? && b.pool.Some? ==>
      var p := b.pool.value;
      var over := p.leasedOut + ReconcileTarget(p, c.acked) - p.cap;
      Excess(Step(b, c)) == if over > 0 then over else 0
    ensures Narrow(b) && ValidCmd(c) ==> (Narrow(Step(b, c)) <==> RoomFor(b, c))
  {
    match c
    case Init(_, _, _, _, _, _, _, _) => InitKeeps(b, c);
    case Grant(_, _, _, _, _) => GrantKeeps(b, c);
    case Report(_, _, _) => ReportKeeps(b, c);
    case Return(_, _) => ReturnKeeps(b, c);
    case Expire(_, _) => ExpireKeeps(b, c);
    case TombGC(_, _) =>
    case Reconcile(_) => ReconcileSets(b, c);
  }

  ghost predicate Calm(b: Book, c: Cmd)
  {
    c.Reconcile? && b.pool.Some? ==> ReconcileTarget(b.pool.value, c.acked) <= b.pool.value.cap - b.pool.value.leasedOut
  }

  /** The commands of a run carry int64 fields, as every decoded command does. */
  ghost predicate AllValid(cs: seq<Cmd>)
  {
    forall i :: 0 <= i < |cs| ==> ValidCmd(cs[i])
  }

  /** No reconcile of the run settles on more than the cap leaves beside the outstanding leases. */
  ghost predicate CalmRun(b: Book, cs: seq<Cmd>)
    decreases |cs|
  {
    cs == [] || (Calm(b, cs[0]) && CalmRun(Step(b, cs[0]), cs[1..]))
  }

  /** lookupBudCheck's OK flag. */
  predicate BudCheckOK(p: Pool)
  {
    && p.available + p.leasedOut + p.spent == p.cap && p.spent <= p.cap
    && p.available >= 0 && p.leasedOut >= 0 && p.spent >= 0
  }

  ghost predicate Balanced(b: Book)
  {
    Inv(b) && Narrow(b) && Excess(b) == 0
  }

  lemma BalancedMeans(b: Book)
    requires Balanced(b) && b.pool.Some?
    ensures BudCheckOK(b.pool.value)
    ensures 0 <= b.pool.value.spentReported <= b.pool.value.spent <= b.pool.value.cap
  {
    LeasedOutBounds(b);
  }

  lemma PoolStays(b: Book, c: Cmd)
    ensures b.pool.Some? ==> Step(b, c).pool.Some?
  {
    hide GrantEcho, WrapI64, U64, BE, Refill;
  }

  /** From a balanced book a reconcile keeps the books balanced exactly when its target fits. */
  lemma StepStaysBalanced(b: Book, c: Cmd)
    requires Balanced(b) && ValidCmd(c)
    ensures Balanced(Step(b, c)) <==> Calm(b, c)
  {
    hide Sum, Unspent, Amounts, GrantEcho, WrapI64, U64, BE, Refill;
    StepConserves(b, c);
    PoolStays(b, c);
    hide Step;
    if b.pool.Some? { LeasedOutBounds(b); }
  }

  /** Conservation over whole runs: with no over-target reconcile the buckets always add up to the cap and
      the conservation probe reports OK. */
  lemma {:induction false} CalmRunsBalance(b: Book, cs: seq<Cmd>)
    requires Balanced(b) && CalmRun(b, cs) && AllValid(cs)
    ensures Balanced(Run(b, cs))
    ensures Run(b, cs).pool.Some? ==> BudCheckOK(Run(b, cs).pool.value)
    decreases |cs|
  {
    hide Step, Balanced;
    if cs == [] {
      if b.pool.Some? { BalancedMeans(b); }
    } else {
      StepStaysBalanced(b, cs[0]);
      CalmRunsBalance(Step(b, cs[0]), cs[1..]);
    }
  }

  lemma {:induction false} RunKeepsInv(b: Book, cs: seq<Cmd>)
    requires Inv(b)
    ensures Inv(Run(b, cs))
    decreases |cs|
  {
    if cs != [] {
      StepConserves(b, cs[0]);
      RunKeepsInv(Step(b, cs[0]), cs[1..]);
    }
  }

  lemma RunCons(b: Book, c: Cmd, cs: seq<Cmd>)
    ensures Run(b, [c] + cs) == Run(Step(b, c), cs)
  {
    hide Step;
    assert ([c] + cs)[1..] == cs;
  }

  lemma RunOfThree(b: Book, c0: Cmd, c1: Cmd, c2: Cmd)
    ensures Run(b, [c0, c1, c2]) == Step(Step(Step(b, c0), c1), c2)
  {
    hide Step, Run;
    assert [c0, c1, c2] == [c0] + [c1, c2] && [c1, c2] == [c1] + [c2] && [c2] == [c2] + [];
    RunCons(b, c0, [c1, c2]);
    RunCons(Step(b, c0), c1, [c2]);
    RunCons(Step(Step(b, c0), c1), c2, []);
    RunNone(Step(Step(Step(b, c0), c1), c2));
  }

  lemma RunNone(b: Book)
    ensures Run(b, []) == b
  {
  }

  /** An untimed, unpaced pool and one draw of its whole cap. */
  lemma WholeCapDrawn(cap: int)
    requires cap > 0
    ensures var b := Step(Step(EMPTY, Init(STRICT, cap, 0, 0, 0, 0, 0, 0)), Grant([1], cap, 0, 0, []));
      && b.pool == Some(Pool(cap, 0, cap, 0, 1, STRICT, 0, 0, 0, 0, 0, 0, 0, 0, 0))
      && b.leases == map[[1] := Lease([], cap, 0, 1, 0, 0, 0)] && b.tombs == map[]
  {
    hide GrantEcho;
  }

  /** The raising reconcile the calm condition rules out, in a run from nothing: a draw of the whole cap, then
      a ledger total equal to the cap, leaves twice the cap in the buckets. */
  lemma RaisingReconcileOvercommits()
    ensures var b := Run(EMPTY, [Init(STRICT, 100, 0, 0, 0, 0, 0, 0), Grant([1], 100, 0, 0, []), Reconcile(100)]);
      Inv(b) && Excess(b) == 100 && b.pool.Some? && !BudCheckOK(b.pool.value)
  {
    var c0, c1 := Init(STRICT, 100, 0, 0, 0, 0, 0, 0), Grant([1], 100, 0, 0, []);
    RunOfThree(EMPTY, c0, c1, Reconcile(100));
    WholeCapDrawn(100);
    assert Unspent(EMPTY.leases) == map[];
    assert Inv(EMPTY);
    hide GrantEcho, Inv;
    StepConserves(EMPTY, c0);
    StepConserves(Step(EMPTY, c0), c1);
    StepConserves(Step(Step(EMPTY, c0), c1), Reconcile(100));
  }

  // ---------------------------------------------------------------- the range of Spent

  /** Every reconcile of the run leaves room. */
  ghost predicate RoomyRun(b: Book, cs: seq<Cmd>)
    decreases |cs|
  {
    cs == [] || (RoomFor(b, cs[0]) && RoomyRun(Step(b, cs[0]), cs[1..]))
  }

  lemma {:induction false} RoomyRunsStayNarrow(b: Book, cs: seq<Cmd>)
    requires Inv(b) && Narrow(b) && AllValid(cs) && RoomyRun(b, cs)
    ensures Inv(Run(b, cs)) && Narrow(Run(b, cs))
    decreases |cs|
  {
    hide Step, Inv, Narrow, RoomFor, ValidCmd;
    if cs != [] {
      StepConserves(b, cs[0]);
      RoomyRunsStayNarrow(Step(b, cs[0]), cs[1..]);
    }
  }

  ghost predicate SmallCap(b: Book) { b.pool.Some? ==> 2 * b.pool.value.cap < TWO63 }

  /** Every budget of the run is initialised below 2^62. */
  ghost predicate SmallCaps(cs: seq<Cmd>)
  {
    forall i :: 0 <= i < |cs| ==> (cs[i].Init? ==> 2 * cs[i].cap < TWO63)
  }

  lemma CapStays(b: Book, c: Cmd)
    requires SmallCap(b) && (c.Init? ==> 2 * c.cap < TWO63)
    ensures SmallCap(Step(b, c))
  {
    hide GrantEcho, WrapI64, U64, BE, Refill;
    if c.Grant? && b.pool.Some? { RefillConfig(b.pool.value, c.stampMs); }
  }

  lemma RefillConfig(p: Pool, stampMs: int)
    ensures var q := Refill(p, stampMs); q == p.(tokens := q.tokens, lastRefillMs := q.lastRefillMs)
  {
    hide WrapI64, Clamp, PacingMaxElapsedMs;
  }

  /** With caps below 2^62 Spent never wraps, whatever is reconciled. */
  lemma {:induction false} SmallCapRunsStayNarrow(b: Book, cs: seq<Cmd>)
    requires Inv(b) && Narrow(b) && SmallCap(b) && AllValid(cs) && SmallCaps(cs)
    ensures Narrow(Run(b, cs))
    decreases |cs|
  {
    hide Step, ValidCmd;
    if cs != [] {
      if b.pool.Some? { LeasedOutBounds(b); }
      StepConserves(b, cs[0]);
      CapStays(b, cs[0]);
      hide Inv, Narrow;
      SmallCapRunsStayNarrow(Step(b, cs[0]), cs[1..]);
    }
  }

  /** At the top of int64 it does: an admitted run whose forced expiry stores a negative Spent and so moves the sum
      of the buckets by 2^64, which otherwise only a reconcile moves. */
  lemma WideReconcileWraps()
    ensures var m := TWO63 - 1;
      var cs := [Init(STRICT, m, 0, 0, 0, 0, 0, 0), Grant([1], m, 0, 0, []), Reconcile(m)];
      var b := Run(EMPTY, cs);
      var b' := Step(b, Expire([1], 0));
      && AllValid(cs) && !Narrow(b) && b.pool.Some? && b'.pool.Some?
      && b'.pool.value.spent == -2 && Excess(b') == Excess(b) - TWO64
  {
    var m := TWO63 - 1;
    RunOfThree(EMPTY, Init(STRICT, m, 0, 0, 0, 0, 0, 0), Grant([1], m, 0, 0, []), Reconcile(m));
    WholeCapDrawn(m);
    hide GrantEcho, BE;
    var b := Run(EMPTY, [Init(STRICT, m, 0, 0, 0, 0, 0, 0), Grant([1], m, 0, 0, []), Reconcile(m)]);
    assert b.pool.value.spent == m && b.pool.value.leasedOut == m;
    assert WrapI64(m + m) == -2;
  }

  // ---------------------------------------------------------------- no overspend

  /** A settled lease: what was granted, what was finally booked, and whether it was force-expired. */
  datatype Closed = Closed(amount: int, finalSpent: int, expired: bool)

  /** What an outside observer of the run records. */
  datatype Hist = Hist(closed: seq<Closed>, granted: int, first: Option<int>, latest: int)

  const START := Hist([], 0, None, 0)

  ghost predicate Fresh(b: Book, c: Cmd)
  {
    c.Grant? && c.id !in b.leases && c.id in Step(b, c).leases
  }

  ghost predicate Closes(b: Book, c: Cmd)
  {
    CmdId(c) in b.leases && CmdId(c) !in Step(b, c).leases
  }

  ghost function Observe(b: Book, h: Hist, c: Cmd): Hist
  {
    if Fresh(b, c) then
      h.(granted := h.granted + Step(b, c).leases[c.id].amount,
         first := if h.first.None? then Some(c.stampMs) else h.first,
         latest := if h.first.None? || c.stampMs > h.latest then c.stampMs else h.latest)
    else if Closes(b, c) then
      var l := b.leases[CmdId(c)];
      h.(closed := h.closed + [Closed(l.amount, FinalSpent(l, c), c.Expire?)])
    else h
  }

  ghost function HistOf(b: Book, h: Hist, cs: seq<Cmd>): Hist
    decreases |cs|
  {
    if cs == [] then h else HistOf(Step(b, cs[0]), Observe(b, h, cs[0]), cs[1..])
  }

  /** What a settled lease is charged: the full amount when it was force-expired, else its final report. */
  ghost function Charge(k: Closed): int
  {
    if k.expired then k.amount else k.finalSpent
  }

  ghost function Charged(ks: seq<Closed>): int
  {
    if ks == [] then 0 else Charged(ks[..|ks| - 1]) + Charge(ks[|ks| - 1])
  }

  lemma ChargedSnoc(ks: seq<Closed>, k: Closed)
    ensures Charged(ks + [k]) == Charged(ks) + Charge(k)
  {
    assert (ks + [k])[..|ks|] == ks;
  }

  ghost predicate Accounted(b: Book, h: Hist)
  {
    if b.pool.None? then h.closed == []
    else b.pool.value.spent + b.pool.value.leasedOut == Sum(Amounts(b.leases)) + Charged(h.closed)
  }

  lemma GrantAccounts(b: Book, h: Hist, c: Cmd)
    requires Inv(b) && Accounted(b, h) && c.Grant?
    ensures Accounted(Step(b, c), Observe(b, h, c))
  {
    hide GrantEcho, WrapI64, Refill, U64, Sum, Unspent, Amounts, Charged;
    if EffectOn(b, c).pool.Some? {
      RefillKeeps(b.pool.value, c.stampMs);
      PutSums(b.leases, c.id, EffectOn(b, c).lease.v);
    }
  }

  lemma ReportAccounts(b: Book, h: Hist, c: Cmd)
    requires Inv(b) && Narrow(b) && Accounted(b, h) && c.Report?
    ensures Accounted(Step(b, c), Observe(b, h, c))
  {
    hide U64, WrapI64, Sum, Unspent, Amounts, Charged;
    if EffectOn(b, c).Effect? && EffectOn(b, c).pool.Some? {
      LeasedOutBounds(b);
      PutSums(b.leases, c.id, EffectOn(b, c).lease.v);
    }
  }

  lemma SettleAccounts(b: Book, h: Hist, c: Cmd)
    requires Inv(b) && Narrow(b) && Accounted(b, h) && (c.Return? || c.Expire?)
    ensures Accounted(Step(b, c), Observe(b, h, c))
  {
    hide U64, WrapI64, Sum, Unspent, Amounts, Charged;
    if EffectOn(b, c).Effect? && EffectOn(b, c).pool.Some? {
      LeasedOutBounds(b);
      DelSums(b.leases, c.id);
      var l := b.leases[c.id];
      ChargedSnoc(h.closed, Closed(l.amount, FinalSpent(l, c), c.Expire?));
    }
  }

  lemma StepAccounts(b: Book, h: Hist, c: Cmd)
    requires Inv(b) && Narrow(b) && Accounted(b, h) && !c.Reconcile?
    ensures Accounted(Step(b, c), Observe(b, h, c))
  {
    match c
    case Init(_, _, _, _, _, _, _, _) => assert b.pool.None? ==> Amounts(b.leases) == map[];
    case Grant(_, _, _, _, _) => GrantAccounts(b, h, c);
    case Report(_, _, _) => ReportAccounts(b, h, c);
    case Return(_, _) => SettleAccounts(b, h, c);
    case Expire(_, _) => SettleAccounts(b, h, c);
    case TombGC(_, _) =>
  }

  ghost predicate ReconcileFree(cs: seq<Cmd>)
  {
    forall i :: 0 <= i < |cs| ==> !cs[i].Reconcile?
  }

  lemma {:induction false} RunAccounts(b: Book, h: Hist, cs: seq<Cmd>)
    requires Balanced(b) && Accounted(b, h) && ReconcileFree(cs) && AllValid(cs)
    ensures Balanced(Run(b, cs)) && Accounted(Run(b, cs), HistOf(b, h, cs))
    decreases |cs|
  {
    hide Step, Observe, Inv, Excess, Accounted;
    if cs != [] {
      StepAccounts(b, h, cs[0]);
      StepStaysBalanced(b, cs[0]);
      RunAccounts(Step(b, cs[0]), Observe(b, h, cs[0]), cs[1..]);
    }
  }

  /** Every reconcile-free run: what is spent or out on lease is exactly the live amounts plus the charges
      of the settled leases, and never more than the cap. */
  lemma NoOverspend(cs: seq<Cmd>)
    requires ReconcileFree(cs) && AllValid(cs) && Run(EMPTY, cs).pool.Some?
    ensures var b, h := Run(EMPTY, cs), HistOf(EMPTY, START, cs);
      b.pool.value.spent + b.pool.value.leasedOut == Sum(Amounts(b.leases)) + Charged(h.closed) <= b.pool.value.cap
  {
    RunAccounts(EMPTY, START, cs);
    BalancedMeans(Run(EMPTY, cs));
  }

  ghost function Total(s: seq<int>): int
  {
    if s == [] then 0 else Total(s[..|s| - 1]) + s[|s| - 1]
  }

  lemma {:induction false} TotalBelowCharges(used: seq<int>, ks: seq<Closed>)
    requires |used| == |ks| && forall i :: 0 <= i < |ks| ==> used[i] <= Charge(ks[i])
    ensures Total(used) <= Charged(ks)
  {
    if ks != [] {
      var n := |ks| - 1;
      assert used[..n] == used[..|used| - 1];
      TotalBelowCharges(used[..n], ks[..n]);
    }
  }

  lemma {:induction false} SumMonotone(m: map<bytes, int>, n: map<bytes, int>)
    requires m.Keys == n.Keys && forall k :: k in m ==> m[k] <= n[k]
    ensures Sum(m) <= Sum(n)
    decreases |m|
  {
    if m != map[] {
      var k :| k in m;
      SumRemove(m, k);
      SumRemove(n, k);
      SumMonotone(m - {k}, n - {k});
    }
  }

  /** Whatever the holders really consumed -- no more than their amount while the lease lives or after a
      forced expiry, and the attested final total after a return -- adds up to at most the cap. */
  lemma ConsumptionBelowCap(cs: seq<Cmd>, live: map<bytes, int>, settled: seq<int>)
    requires ReconcileFree(cs) && AllValid(cs) && Run(EMPTY, cs).pool.Some?
    requires live.Keys == Run(EMPTY, cs).leases.Keys
    requires forall id :: id in live ==> live[id] <= Run(EMPTY, cs).leases[id].amount
    requires |settled| == |HistOf(EMPTY, START, cs).closed|
    requires forall i :: 0 <= i < |settled| ==> settled[i] <= Charge(HistOf(EMPTY, START, cs).closed[i])
    ensures Sum(live) + Total(settled) <= Run(EMPTY, cs).pool.value.cap
  {
    NoOverspend(cs);
    SumMonotone(live, Amounts(Run(EMPTY, cs).leases));
    TotalBelowCharges(settled, HistOf(EMPTY, START, cs).closed);
  }

  // ---------------------------------------------------------------- pacing

  /** With an admitted burst the pacing products stay inside int64. */
  lemma PacingFitsI64(p: Pool, stampMs: int)
    requires GoodPool(p) && p.rate > 0
    ensures 0 <= 4 * p.burst * 1000 < TWO63
    ensures forall e :: 0 <= e <= PacingMaxElapsedMs(p.rate, p.burst) ==> 0 <= p.rate * e <= 4 * p.burst * 1000
  {
    var top := 4 * p.burst * 1000;
    forall e | 0 <= e <= PacingMaxElapsedMs(p.rate, p.burst)
      ensures 0 <= p.rate * e <= top
    {
      MulMonotone(p.rate, e, top / p.rate);
      assert p.rate * (top / p.rate) <= top;
    }
  }

  lemma MulMonotone(r: int, a: int, b: int)
    requires 0 <= r && 0 <= a <= b
    ensures 0 <= r * a <= r * b
  {
  }

  /** The time a refill credits. */
  function Credited(p: Pool, stampMs: int): int
  {
    var last := if p.lastRefillMs == 0 then stampMs else p.lastRefillMs;
    Clamp(WrapI64(stampMs - last), 0, PacingMaxElapsedMs(p.rate, p.burst))
  }

  /** A stamp that the refill misreads: a negative one while the clock stands at 0, which reads as "never refilled" and
      is moved back; or one so far behind the clock that their difference wraps to a credit, if any is given. */
  ghost predicate BadStamp(p: Pool, stampMs: int)
  {
    || (p.lastRefillMs == 0 && stampMs < 0)
    || (p.lastRefillMs != 0 && stampMs - p.lastRefillMs < -TWO63 && 4 * p.burst * 1000 >= p.rate)
  }

  /** A refill credits no more time than its clock moves on if and only if the stamp is not a bad one. */
  lemma CreditExact(p: Pool, stampMs: int)
    requires GoodPool(p) && p.rate > 0 && I64(stampMs) && I64(p.lastRefillMs)
    ensures 0 <= Credited(p, stampMs) <= Refill(p, stampMs).lastRefillMs - p.lastRefillMs <==> !BadStamp(p, stampMs)
  {
    var top := PacingMaxElapsedMs(p.rate, p.burst);
    assert top >= 0 && (top == 0 <==> 4 * p.burst * 1000 < p.rate) by { DivZero(4 * p.burst * 1000, p.rate); }
    hide PacingMaxElapsedMs;
  }

  lemma DivZero(a: int, b: int)
    requires a >= 0 && b > 0
    ensures a / b >= 0 && (a / b == 0 <==> a < b)
  {
  }

  /** The token-bucket account: what was granted plus what is left in the bucket never exceeds the burst
      plus the accrual since the first grant. */
  ghost predicate Paced(b: Book, h: Hist)
  {
    b.pool.Some? && b.pool.value.rate > 0 ==>
      var p := b.pool.value;
      && I64(p.lastRefillMs)
      && (h.first.None? ==> h.granted == 0 && p.tokens <= p.burst && p.lastRefillMs == 0)
      && (h.first.Some? ==>
          && h.first.value <= h.latest == p.lastRefillMs
          && 1000 * (h.granted + p.tokens) <= 1000 * p.burst + p.rate * (h.latest - h.first.value))
  }

  /** The tokens after a refill are bounded by the accrual over the time it credits. */
  lemma RefillAccrual(p: Pool, stampMs: int)
    requires GoodPool(p) && p.rate > 0
    ensures var q := Refill(p, stampMs);
      && q.lastRefillMs == (if p.lastRefillMs == 0 || stampMs > p.lastRefillMs then stampMs else p.lastRefillMs)
      && 1000 * q.tokens <= 1000 * p.tokens + p.rate * Credited(p, stampMs)
      && (p.lastRefillMs == 0 ==> q.tokens <= p.tokens)
  {
    assert 0 <= PacingMaxElapsedMs(p.rate, p.burst) by { PacingFitsI64(p, stampMs); }
    var e := Credited(p, stampMs);
    MulMonotone(p.rate, 0, e);
    assert 1000 * (p.rate * e / 1000) <= p.rate * e;
  }

  /** The account of one paced draw of g tokens, as plain arithmetic. */
  lemma DrawAccount(rate: int, burst: int, granted: int, tokens: int, first: int, was: int, credit: int, now: int,
                    left: int)
    requires rate >= 0 && first <= was && 0 <= credit <= now - was
    requires 1000 * (granted + tokens) <= 1000 * burst + rate * (was - first)
    requires 1000 * left <= 1000 * tokens + rate * credit
    ensures 1000 * (granted + left) <= 1000 * burst + rate * (now - first)
  {
    MulSplit(rate, credit, was - first, now - first);
  }

  lemma GrantPaced(b: Book, h: Hist, c: Cmd)
    requires Inv(b) && Paced(b, h) && Fresh(b, c) && ValidCmd(c)
    requires b.pool.Some? && b.pool.value.rate > 0 && (h.first.Some? ==> !BadStamp(b.pool.value, c.stampMs))
    ensures Paced(Step(b, c), Observe(b, h, c))
  {
    var p := b.pool.value;
    RefillKeeps(p, c.stampMs);
    RefillAccrual(p, c.stampMs);
    CreditExact(p, c.stampMs);
    hide GrantEcho, WrapI64, Refill, U64, Sum, Unspent, Credited;
    var q := Refill(p, c.stampMs);
    var p', h' := Step(b, c).pool.value, Observe(b, h, c);
    assert p' == q.(available := p'.available, leasedOut := p'.leasedOut, tokens := p'.tokens);
    assert h'.granted + p'.tokens == h.granted + q.tokens;
    if h.first.Some? {
      DrawAccount(p.rate, p.burst, h.granted, p.tokens, h.first.value, p.lastRefillMs, Credited(p, c.stampMs),
        q.lastRefillMs, q.tokens);
    }
  }

  lemma MulSplit(r: int, a: int, b: int, c: int)
    requires r >= 0 && a >= 0 && b >= 0 && a + b <= c
    ensures r * a + r * b <= r * c
  {
    MulMonotone(r, a + b, c);
  }

  /** A draw after the first that is granted on a paced pool with a bad stamp. */
  ghost predicate Mistimed(b: Book, h: Hist, c: Cmd)
  {
    h.first.Some? && Granted(b, c) && b.pool.value.rate > 0 && BadStamp(b.pool.value, c.stampMs)
  }

  lemma StepPaced(b: Book, h: Hist, c: Cmd)
    requires Inv(b) && Paced(b, h) && ValidCmd(c) && !Mistimed(b, h, c)
    requires h.first.Some? ==> b.pool.Some?
    requires h.first.None? ==> h.granted == 0
    ensures Paced(Step(b, c), Observe(b, h, c))
    ensures Observe(b, h, c).first.Some? ==> Step(b, c).pool.Some?
    ensures Observe(b, h, c).first.None? ==> Observe(b, h, c).granted == 0
  {
    FreshMeansGranted(b, c);
    hide U64, BE, WrapI64, GrantEcho, Refill, Sum, Unspent, BadStamp, Granted;
    if Fresh(b, c) {
      RefillKeeps(b.pool.value, c.stampMs);
      if b.pool.value.rate > 0 { GrantPaced(b, h, c); }
    }
  }

  ghost predicate WellTimed(b: Book, h: Hist, cs: seq<Cmd>)
    decreases |cs|
  {
    cs == [] || (!Mistimed(b, h, cs[0]) && WellTimed(Step(b, cs[0]), Observe(b, h, cs[0]), cs[1..]))
  }

  lemma {:induction false} RunPaced(b: Book, h: Hist, cs: seq<Cmd>)
    requires Inv(b) && Paced(b, h) && AllValid(cs) && WellTimed(b, h, cs)
    requires h.first.Some? ==> b.pool.Some?
    requires h.first.None? ==> h.granted == 0
    ensures Inv(Run(b, cs)) && Paced(Run(b, cs), HistOf(b, h, cs))
    decreases |cs|
  {
    hide Step, Observe, Inv, Paced, Mistimed, ValidCmd;
    if cs != [] {
      StepConserves(b, cs[0]);
      StepPaced(b, h, cs[0]);
      RunPaced(Step(b, cs[0]), Observe(b, h, cs[0]), cs[1..]);
    }
  }

  /** Token-bucket pacing over whole runs, stamps arriving in any order and of any sign but the bad ones: the fresh
      grants never exceed the burst plus the rate over the time between the first and the latest granting stamp. */
  lemma PacingBound(cs: seq<Cmd>)
    requires AllValid(cs) && WellTimed(EMPTY, START, cs)
    requires Run(EMPTY, cs).pool.Some? && Run(EMPTY, cs).pool.value.rate > 0
    requires HistOf(EMPTY, START, cs).first.Some?
    ensures var p, h := Run(EMPTY, cs).pool.value, HistOf(EMPTY, START, cs);
      1000 * h.granted <= 1000 * p.burst + p.rate * (h.latest - h.first.value)
  {
    assert Unspent(EMPTY.leases) == map[];
    RunPaced(EMPTY, START, cs);
  }

  ghost predicate Stamped(cs: seq<Cmd>) { forall i :: 0 <= i < |cs| ==> (cs[i].Grant? ==> cs[i].stampMs >= 0) }

  /** Stamps that are not negative are all good. */
  lemma {:induction false} StampedWellTimed(b: Book, h: Hist, cs: seq<Cmd>)
    requires AllValid(cs) && Stamped(cs) && Inv(b) && (b.pool.Some? ==> 0 <= b.pool.value.lastRefillMs < TWO63)
    ensures WellTimed(b, h, cs)
    decreases |cs|
  {
    hide Inv;
    if cs != [] {
      StepConserves(b, cs[0]);
      ClockNotNegative(b, cs[0]);
      hide Step, Observe;
      StampedWellTimed(Step(b, cs[0]), Observe(b, h, cs[0]), cs[1..]);
    }
  }

  lemma ClockNotNegative(b: Book, c: Cmd)
    requires b.pool.Some? ==> 0 <= b.pool.value.lastRefillMs < TWO63
    requires ValidCmd(c) && (c.Grant? ==> c.stampMs >= 0)
    ensures var b' := Step(b, c); b'.pool.Some? ==> 0 <= b'.pool.value.lastRefillMs < TWO63
  {
    hide GrantEcho, WrapI64, U64, BE, Clamp, PacingMaxElapsedMs;
  }

  /** The first kind of bad stamp breaks the bound: a refill clock at exactly 0 is moved back, so the same ten
      milliseconds accrue twice. */
  lemma NegativeStampsOverGrant()
    ensures var cs := [Init(STRICT, 1000, 1000, 10, 0, 0, 0, 0), Grant([1], 10, -10, 0, []), Grant([2], 9, 0, 0, []),
                       Grant([3], 1, -10, 0, []), Grant([4], 10, 0, 0, [])];
      var p, h := Run(EMPTY, cs).pool, HistOf(EMPTY, START, cs);
      p.Some? && h.first.Some? && 1000 * h.granted > 1000 * p.value.burst + p.value.rate * (h.latest - h.first.value)
  {
    hide Step, Observe, Fresh, GrantEcho;
    var c0, c1 := Init(STRICT, 1000, 1000, 10, 0, 0, 0, 0), Grant([1], 10, -10, 0, []);
    var c2, c3, c4 := Grant([2], 9, 0, 0, []), Grant([3], 1, -10, 0, []), Grant([4], 10, 0, 0, []);
    RunOfFive(EMPTY, START, c0, c1, c2, c3, c4);
    var p := Pool(1000, 1000, 0, 0, 1, STRICT, 1000, 10, 0, 10, 0, 0, 0, 0, 0);
    InitStep(c0, p);
    var b1 := Step(EMPTY, c0);
    DrawStep(b1, START, c1, p.(lastRefillMs := -10), 10);
    var b2 := Step(b1, c1);
    DrawStep(b2, Observe(b1, START, c1), c2, p.(available := 990, leasedOut := 10, lastRefillMs := 0, tokens := 10), 9);
    var b3 := Step(b2, c2);
    DrawStep(b3, Observe(b2, Observe(b1, START, c1), c2), c3,
      p.(available := 981, leasedOut := 19, lastRefillMs := -10, tokens := 1), 1);
    var b4 := Step(b3, c3);
    DrawStep(b4, Observe(b3, Observe(b2, Observe(b1, START, c1), c2), c3), c4,
      p.(available := 980, leasedOut := 20, lastRefillMs := 0, tokens := 10), 10);
  }

  /** So does the second: no time has passed at the second draw, and it is granted a full burst. */
  lemma FarStampOverGrants()
    ensures var cs := [Init(STRICT, 1000, 1000, 10, 0, 0, 0, 0), Grant([1], 10, 0x4000_0000_0000_0000, 0, []),
                       Grant([2], 10, -TWO63, 0, [])];
      var p, h := Run(EMPTY, cs).pool, HistOf(EMPTY, START, cs);
      p.Some? && h.first.Some? && 1000 * h.granted > 1000 * p.value.burst + p.value.rate * (h.latest - h.first.value)
  {
    hide Step, Observe, Fresh, GrantEcho;
    var t := 0x4000_0000_0000_0000;
    var c0, c1, c2 := Init(STRICT, 1000, 1000, 10, 0, 0, 0, 0), Grant([1], 10, t, 0, []), Grant([2], 10, -TWO63, 0, []);
    assert [c0, c1, c2] == [c0] + [c1, c2] && [c1, c2] == [c1] + [c2] && [c2] == [c2] + [];
    var p := Pool(1000, 1000, 0, 0, 1, STRICT, 1000, 10, 0, 10, 0, 0, 0, 0, 0);
    InitStep(c0, p);
    var b1 := Step(EMPTY, c0);
    HistCons(EMPTY, START, c0, [c1, c2]);
    HistCons(b1, START, c1, [c2]);
    DrawStep(b1, START, c1, p.(lastRefillMs := t), 10);
    var b2, h2 := Step(b1, c1), Observe(b1, START, c1);
    HistCons(b2, h2, c2, []);
    DrawStep(b2, h2, c2, p.(available := 990, leasedOut := 10, lastRefillMs := t, tokens := 10), 10);
  }

  lemma InitStep(c: Cmd, p: Pool)
    requires c == Init(STRICT, 1000, 1000, 10, 0, 0, 0, 0)
    requires p == Pool(1000, 1000, 0, 0, 1, STRICT, 1000, 10, 0, 10, 0, 0, 0, 0, 0)
    ensures Step(EMPTY, c) == EMPTY.(pool := Some(p)) && Observe(EMPTY, START, c) == START
  {
  }

  /** A fresh untimed draw on a paced pool, with its refill and its size given. */
  lemma DrawStep(b: Book, h: Hist, c: Cmd, q: Pool, g: int)
    requires c.Grant? && c.id !in b.leases && c.id !in b.tombs && c.amount == g > 0
    requires b.pool.Some? && b.pool.value.rate > 0 && TTLOf(b.pool.value, c) == 0
    requires q == Refill(b.pool.value, c.stampMs) && g <= q.tokens && g <= b.pool.value.available == q.available
    ensures var b', h' := Step(b, c), Observe(b, h, c);
      && b'.pool == Some(q.(available := q.available - g, leasedOut := q.leasedOut + g, tokens := q.tokens - g))
      && b'.leases.Keys == b.leases.Keys + {c.id} && b'.tombs == b.tombs
      && h'.granted == h.granted + g && h'.first == (if h.first.None? then Some(c.stampMs) else h.first)
      && h'.latest == (if h.first.None? || c.stampMs > h.latest then c.stampMs else h.latest)
  {
    hide GrantEcho, U64, Refill;
  }

  lemma HistCons(b: Book, h: Hist, c: Cmd, cs: seq<Cmd>)
    ensures Run(b, [c] + cs) == Run(Step(b, c), cs) &&
      HistOf(b, h, [c] + cs) == HistOf(Step(b, c), Observe(b, h, c), cs)
  {
    hide Step, Observe;
    assert ([c] + cs)[1..] == cs;
  }

  lemma RunOfFive(b: Book, h: Hist, c0: Cmd, c1: Cmd, c2: Cmd, c3: Cmd, c4: Cmd)
    ensures var cs := [c0, c1, c2, c3, c4];
      var b1, h1 := Step(b, c0), Observe(b, h, c0);
      var b2, h2 := Step(b1, c1), Observe(b1, h1, c1);
      var b3, h3 := Step(b2, c2), Observe(b2, h2, c2);
      var b4, h4 := Step(b3, c3), Observe(b3, h3, c3);
      Run(b, cs) == Step(b4, c4) && HistOf(b, h, cs) == Observe(b4, h4, c4)
  {
    hide Step, Observe;
    var b1, h1 := Step(b, c0), Observe(b, h, c0);
    var b2, h2 := Step(b1, c1), Observe(b1, h1, c1);
    var b3, h3 := Step(b2, c2), Observe(b2, h2, c2);
    var b4, h4 := Step(b3, c3), Observe(b3, h3, c3);
    assert [c0, c1, c2, c3, c4] == [c0] + [c1, c2, c3, c4];
    HistCons(b, h, c0, [c1, c2, c3, c4]);
    assert [c1, c2, c3, c4] == [c1] + [c2, c3, c4];
    HistCons(b1, h1, c1, [c2, c3, c4]);
    assert [c2, c3, c4] == [c2] + [c3, c4];
    HistCons(b2, h2, c2, [c3, c4]);
    assert [c3, c4] == [c3] + [c4];
    HistCons(b3, h3, c3, [c4]);
    assert [c4] == [c4] + [];
    HistCons(b4, h4, c4, []);
  }

  // ---------------------------------------------------------------- settlement

  /** A settled id is dead: no draw, report, return or expiry naming it changes any pool, lease or index
      row until its tombstone is collected. */
  lemma SettledIsFinal(b: Book, c: Cmd)
    requires Inv(b) && CmdId(c) in b.tombs && (c.Grant? || c.Report? || c.Return? || c.Expire?)
    ensures Step(b, c) == b
  {
  }

  ghost predicate NeverCollected(cs: seq<Cmd>, id: bytes)
  {
    forall i :: 0 <= i < |cs| ==> !(cs[i].TombGC? && cs[i].id == id)
  }

  /** A settled lease stays settled, and is never granted again, over any run without its tombstone GC. */
  lemma {:induction false} SettledStaysSettled(b: Book, cs: seq<Cmd>, id: bytes)
    requires Inv(b) && id in b.tombs && NeverCollected(cs, id)
    ensures id in Run(b, cs).tombs && Run(b, cs).tombs[id] == b.tombs[id] && id !in Run(b, cs).leases
    decreases |cs|
  {
    hide U64, BE, WrapI64, GrantEcho, Refill, Sum, Unspent;
    if cs != [] {
      StepConserves(b, cs[0]);
      SettledStaysSettled(Step(b, cs[0]), cs[1..], id);
    }
  }

  // ---------------------------------------------------------------- the expiry index

  /** (ms, id) names a live timed lease and its deadline. */
  ghost predicate TimedLease(b: Book, ms: int, id: bytes)
  {
    id in b.leases && b.leases[id].reclaimMs == ms > 0
  }

  /** The expiry index holds exactly the (deadline, id) pairs of the live timed leases. */
  ghost predicate IndexExact(b: Book)
  {
    forall ms, id :: (ms, id) in b.exp <==> TimedLease(b, ms, id)
  }

  /** A draw that is let through to the pool: no lease or tombstone of its id, and a safe guard when timed. */
  ghost predicate FreshDraw(b: Book, c: Cmd)
  {
    && c.Grant? && c.amount >= 0 && c.id !in b.leases && c.id !in b.tombs && b.pool.Some?
    && !(TTLOf(b.pool.value, c) > 0 && b.pool.value.selfGuardMs < MAX_CLOCK_SKEW_MS)
  }

  /** ... and finds something to give. */
  ghost predicate Granted(b: Book, c: Cmd)
  {
    FreshDraw(b, c) && GrantSize(b.pool.value, c) > 0
  }

  lemma FreshMeansGranted(b: Book, c: Cmd)
    ensures Fresh(b, c) <==> Granted(b, c)
  {
    hide GrantEcho, WrapI64, U64, Refill, BE;
  }

  /** A draw whose deadline sum is not positive; init does not bound maxPauseMs, so a caller must. */
  ghost predicate BadDeadline(b: Book, c: Cmd)
  {
    c.Grant? && b.pool.Some? && TTLOf(b.pool.value, c) > 0 && ReclaimOf(b.pool.value, c) <= 0
  }

  lemma GrantIndex(b: Book, c: Cmd)
    requires Inv(b) && IndexExact(b) && c.Grant?
    ensures IndexExact(Step(b, c)) <==> !(Fresh(b, c) && BadDeadline(b, c))
  {
    hide GrantEcho, WrapI64, Refill, U64, Sum, Unspent, GoodPool;
    var b' := Step(b, c);
    if Fresh(b, c) {
      assert TTLOf(b.pool.value, c) > 0 ==> (b'.leases[c.id].reclaimMs, c.id) in b'.exp;
    }
  }

  lemma SettleIndex(b: Book, c: Cmd)
    requires Inv(b) && IndexExact(b) && !c.Grant?
    ensures IndexExact(Step(b, c))
  {
    hide U64, BE, WrapI64, Sum, Unspent, GoodPool;
  }

  /** The expiry index stays exactly the set of live timed leases under every command, except for a granted
      timed draw with a non-positive deadline. */
  lemma StepIndex(b: Book, c: Cmd)
    requires Inv(b) && IndexExact(b)
    ensures IndexExact(Step(b, c)) <==> !(Granted(b, c) && BadDeadline(b, c))
  {
    hide Step, IndexExact, Granted, BadDeadline, Inv;
    FreshMeansGranted(b, c);
    if c.Grant? { GrantIndex(b, c); } else { SettleIndex(b, c); NoGrant(b, c); }
  }

  lemma NoGrant(b: Book, c: Cmd)
    requires !c.Grant?
    ensures !Granted(b, c)
  {
  }

  ghost predicate GoodDeadlines(b: Book, cs: seq<Cmd>)
    decreases |cs|
  {
    cs == [] || (!(Granted(b, cs[0]) && BadDeadline(b, cs[0])) && GoodDeadlines(Step(b, cs[0]), cs[1..]))
  }

  lemma {:induction false} RunIndex(b: Book, cs: seq<Cmd>)
    requires Inv(b) && IndexExact(b) && GoodDeadlines(b, cs)
    ensures Inv(Run(b, cs)) && IndexExact(Run(b, cs))
    decreases |cs|
  {
    hide Step, Inv, IndexExact, BadDeadline, Granted;
    if cs != [] {
      StepConserves(b, cs[0]);
      StepIndex(b, cs[0]);
      RunIndex(Step(b, cs[0]), cs[1..]);
    }
  }

  /** No command removes an index row at a non-positive time. */
  lemma {:induction false} LeakedRowStays(b: Book, cs: seq<Cmd>, ms: int, id: bytes)
    requires (ms, id) in b.exp && ms <= 0
    ensures (ms, id) in Run(b, cs).exp
    decreases |cs|
  {
    hide GrantEcho, WrapI64, U64, BE, Refill;
    if cs != [] { LeakedRowStays(Step(b, cs[0]), cs[1..], ms, id); }
  }

  /** Init admits a negative maxPauseMs, and one draw then leaves an index row for ever, whatever commands follow:
      it outlives the lease. */
  lemma NegativePauseLeaksIndex(cs: seq<Cmd>)
    ensures var b := Step(EMPTY, Init(STRICT, 100, 0, 0, 500, -100000, 60000, 30000));
      var b1 := Step(b, Grant([1], 10, 1000, 0, []));
      IndexExact(b) && (-37500, [1]) in Run(b1, cs).exp && !IndexExact(Run(b1, cs))
  {
    hide GrantEcho, U64, Run;
    var b := Step(EMPTY, Init(STRICT, 100, 0, 0, 500, -100000, 60000, 30000));
    var b1 := Step(b, Grant([1], 10, 1000, 0, []));
    assert b1.leases[[1]].reclaimMs == -37500;
    assert (-37500, [1]) in b1.exp;
    LeakedRowStays(b1, cs, -37500, [1]);
    assert !TimedLease(Run(b1, cs), -37500, [1]);
  }

  // ---------------------------------------------------------------- the sweep

  /** sweepBudget's first pass: one forced expiry per listed lease, stamped with the sweep's clock. */
  function Sweep(due: seq<bytes>, nowMs: int): (cs: seq<Cmd>)
    ensures |cs| == |due| && forall i :: 0 <= i < |due| ==> cs[i] == Expire(due[i], nowMs)
  {
    seq(|due|, i requires 0 <= i < |due| => Expire(due[i], nowMs))
  }

  /** One expiry stamped now settles its lease when it is overdue and touches no other lease. */
  lemma ExpireSettles(b: Book, id: bytes, nowMs: int)
    requires Inv(b)
    ensures var b' := Step(b, Expire(id, nowMs));
      && (forall j :: j in b'.leases ==> j in b.leases && b'.leases[j] == b.leases[j])
      && (forall j :: j in b.leases && (j != id || b.leases[j].reclaimMs > nowMs) ==> j in b'.leases)
      && (id in b'.leases ==> b'.leases[id].reclaimMs > nowMs)
  {
    hide U64, WrapI64, Sum, Unspent, GoodPool;
  }

  /** Whatever (possibly stale) list the sweep works from, it settles every listed overdue lease and no
      lease whose replicated deadline has not passed. */
  lemma {:induction false} SweepSettles(b: Book, due: seq<bytes>, nowMs: int)
    requires Inv(b)
    ensures var b' := Run(b, Sweep(due, nowMs));
      && Inv(b')
      && (forall j :: j in b'.leases ==> j in b.leases && b'.leases[j] == b.leases[j])
      && (forall j :: j in b.leases && (j !in due || b.leases[j].reclaimMs > nowMs) ==> j in b'.leases)
      && (forall j :: j in b'.leases && j in due ==> b'.leases[j].reclaimMs > nowMs)
    decreases |due|
  {
    hide Step, Inv;
    if due != [] {
      var b1 := Step(b, Expire(due[0], nowMs));
      ExpireSettles(b, due[0], nowMs);
      StepConserves(b, Expire(due[0], nowMs));
      SweepSettles(b1, due[1..], nowMs);
      assert Sweep(due, nowMs)[1..] == Sweep(due[1..], nowMs);
    }
  }
}
