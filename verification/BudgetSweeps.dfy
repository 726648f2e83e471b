/** The budget expiry pass of a shard (scanBudDue, sweepBudget): what the due scan reads from the stored keys is
    exactly the overdue leases, and the commands it leads to settle exactly those. */
module BudgetSweeps {
  import opened Bytes
  import opened Codec
  import opened Rows
  import opened Machine
  import opened Escrow
  import opened EscrowRuns
  import B = Batching
  import C = Cardinality
  import F = Frame
  import L = Ledger
  import R = BudgetRuns
  import S = ShardSM

  datatype DueLease = DueLease(coll: Coll, id: bytes, reclaimMs: int)

  // ---------------------------------------------------------------- reading one key

  /** What an index key says behind its sub-space; None for a key the loop passes over. */
  function ParseDue(suffix: bytes): Option<DueLease>
  {
    if |suffix| < 8 then None else
    var ns := TakeChunk(suffix[8..]);
    if ns.None? then None else
    var name := TakeChunk(ns.value.1);
    if name.None? then None else
    Some(DueLease(Coll(ns.value.0, name.value.0), name.value.1, WrapI64(FromBE(suffix[..8]))))
  }

  lemma ParseBody(r: Row)
    requires InDue(r) && Fits(r)
    ensures ParseDue(Body(r)) == Some(DueLease(r.coll, r.tail, WrapI64(r.ms)))
  {
    hide BE, FromBE, Chunk, TakeChunk, WrapI64;
    var b := Body(r);
    assert b[..8] == BE(r.ms, 8) && b[8..] == RouteKey(r.coll) + r.tail;
    U64RoundTrip(r.ms);
    assert RouteKey(r.coll) + r.tail == Chunk(r.coll.ns) + (Chunk(r.coll.name) + r.tail);
    ChunkLength(r.coll.name);
    TakeChunkOfChunk(r.coll.ns, Chunk(r.coll.name) + r.tail);
    TakeChunkOfChunk(r.coll.name, r.tail);
  }

  lemma ChunkLength(b: bytes)
    ensures |Chunk(b)| == 4 + |b|
  {
  }

  // ---------------------------------------------------------------- the scan loop

  /** The entries that keys yield, in order. */
  function DueOf(keys: seq<bytes>, off: nat): seq<DueLease>
  {
    if keys == [] then [] else
    var n := |keys| - 1;
    var d := if off <= |keys[n]| then ParseDue(keys[n][off..]) else None;
    DueOf(keys[..n], off) + if d.Some? then [d.value] else []
  }

  /** scanBudDue over the keys its iterator gives. */
  method ScanBudDue(keys: seq<bytes>, space: bytes) returns (out: seq<DueLease>)
    requires forall i :: 0 <= i < |keys| ==> space <= keys[i]
    ensures out == DueOf(keys, |space|)
  {
    hide TakeChunk, FromBE, WrapI64;
    out := [];
    for i := 0 to |keys|
      invariant out == DueOf(keys[..i], |space|)
    {
      assert keys[..i + 1][..i] == keys[..i];
      var suffix := keys[i][|space|..];
      if |suffix| >= 8 {
        var ns := TakeChunk(suffix[8..]);
        if ns.Some? {
          var name := TakeChunk(ns.value.1);
          if name.Some? {
            out := out + [DueLease(Coll(ns.value.0, name.value.0), name.value.1, WrapI64(FromBE(suffix[..8])))];
          }
        }
      }
    }
    assert keys[..|keys|] == keys;
  }

  lemma {:induction false} DueOfHas(keys: seq<bytes>, off: nat, d: DueLease)
    ensures d in DueOf(keys, off) <==> exists k :: k in keys && off <= |k| && ParseDue(k[off..]) == Some(d)
  {
    hide ParseDue;
    if keys != [] {
      var n := |keys| - 1;
      DueOfHas(keys[..n], off, d);
      assert keys == keys[..n] + [keys[n]];
    }
  }

  // ---------------------------------------------------------------- what the scan meets

  /** The shards whose keys one store holds. */
  type Shards = map<nat, Data>

  ghost predicate Laid(all: Shards)
  {
    forall s :: s in all ==> s < TWO64 && forall r :: r in all[s] ==> Fits(r)
  }

  /** r of shard s lies in the interval of the expiry scan at now. */
  ghost predicate Met(all: Shards, shard: nat, nowMs: int, s: nat, r: Row)
  {
    s in all && r in all[s] && InDueScan(shard, SUB_BUDEXP, L.U64(nowMs), Key(s, r))
  }

  /** keys are of the interval; a limit may have cut them off. */
  ghost predicate Scanned(keys: seq<bytes>, all: Shards, shard: nat, nowMs: int)
  {
    forall k :: k in keys ==> exists s, r :: Met(all, shard, nowMs, s, r) && k == Key(s, r)
  }

  /** keys are the whole interval. */
  ghost predicate AllScanned(keys: seq<bytes>, all: Shards, shard: nat, nowMs: int)
  {
    Scanned(keys, all, shard, nowMs) && forall s, r :: Met(all, shard, nowMs, s, r) ==> Key(s, r) in keys
  }

  /** A live timed lease with the deadline d names, which has passed. */
  ghost predicate Overdue(st: Data, d: DueLease, nowMs: int)
  {
    var l := LeaseOf(st, d.coll, d.id);
    l.Some? && l.value.reclaimMs == d.reclaimMs && 0 < d.reclaimMs <= nowMs
  }

  ghost predicate IndexesExact(st: Data) { forall c :: R.IndexExact(BookOf(st, c)) }

  /** An expiry row is in the scan, and of this shard, exactly when its deadline is not after now. */
  lemma MetMeans(all: Shards, shard: nat, nowMs: int, s: nat, r: Row)
    requires Laid(all) && shard in all && 0 <= nowMs < TWO63 && s in all && r in all[s]
    ensures Met(all, shard, nowMs, s, r) <==> s == shard && r.BudExp? && r.ms <= nowMs
  {
    hide InDueScan, Key;
    if Met(all, shard, nowMs, s, r) { OnlyDueKeysInScan(shard, SUB_BUDEXP, s, r, nowMs); }
    if s == shard && r.BudExp? { DueKeyInScan(shard, r, nowMs); }
  }

  /** With a negative clock the bound is the int64's uint64 image: unless it is -1 every row whose deadline is not
      negative is met, due or not. The replicated deadline decides at apply. */
  lemma NegativeClockMeetsAll(all: Shards, shard: nat, nowMs: int, r: Row)
    requires Laid(all) && shard in all && -TWO63 <= nowMs < -1 && r in all[shard] && r.BudExp? && r.ms < TWO63
    ensures Met(all, shard, nowMs, shard, r) && r.ms > nowMs
  {
    hide InDueScan, Key;
    DueKeyInScan(shard, r, L.U64(nowMs));
  }

  lemma KeySplit(s: nat, r: Row)
    ensures |Key(s, r)| >= 9 && Key(s, r)[9..] == Body(r)
  {
    hide Body;
    assert Key(s, r) == ShardPrefix(s) + [Sub(r)] + Body(r);
  }

  /** The keys the scan gives all lie under its space, as the loop presumes. */
  lemma ScannedUnder(keys: seq<bytes>, all: Shards, shard: nat, nowMs: int, i: nat)
    requires Laid(all) && shard in all && 0 <= nowMs < TWO63 && Scanned(keys, all, shard, nowMs) && i < |keys|
    ensures ShardPrefix(shard) + [SUB_BUDEXP] <= keys[i]
  {
    hide Body, InDueScan;
    assert keys[i] in keys;
    var s, r :| Met(all, shard, nowMs, s, r) && keys[i] == Key(s, r);
    MetMeans(all, shard, nowMs, s, r);
    assert keys[i] == ShardPrefix(shard) + [SUB_BUDEXP] + Body(r);
  }

  /** Index rows of a collection, read as the book's index. */
  lemma RowIndexed(st: Data, r: Row)
    requires r in st && r.BudExp? && r.ms < TWO63
    ensures WrapI64(r.ms) == r.ms && (r.ms as int, r.tail) in BookOf(st, r.coll).exp
  {
    assert (WrapI64(r.ms), r.tail) in Expiries(st, r.coll);
  }

  lemma IndexedRow(st: Data, c: Coll, ms: int, id: bytes)
    requires 0 <= ms < TWO63 && (ms, id) in BookOf(st, c).exp
    ensures BudExp(ms, c, id) in st
  {
    var r :| r in st && r.BudExp? && r.coll == c && r.ms < TWO64 && (WrapI64(r.ms), r.tail) == (ms, id);
    WrapInjective(r.ms, ms);
  }

  lemma TimedIsOverdue(st: Data, c: Coll, ms: int, id: bytes, nowMs: int)
    requires R.IndexExact(BookOf(st, c))
    ensures (ms, id) in BookOf(st, c).exp && ms <= nowMs <==> Overdue(st, DueLease(c, id, ms), nowMs)
  {
    hide Tombs, Expiries, Collections, PoolOf;
    GetAgrees(st, c, id);
    assert (ms, id) in BookOf(st, c).exp <==> R.TimedLease(BookOf(st, c), ms, id);
  }

  /** The due scan returns only overdue leases of the shard, with their deadlines, and without a limit all of them:
      no other shard's row, no other family's and no stale entry. */
  lemma ScanExact(all: Shards, shard: nat, nowMs: int, keys: seq<bytes>, d: DueLease)
    requires Laid(all) && shard in all && 0 <= nowMs < TWO63 && Scanned(keys, all, shard, nowMs)
    requires IndexesExact(all[shard])
    ensures d in DueOf(keys, 9) ==> Overdue(all[shard], d, nowMs)
    ensures AllScanned(keys, all, shard, nowMs) ==> (d in DueOf(keys, 9) <==> Overdue(all[shard], d, nowMs))
  {
    hide Key, ParseDue, Body, Met, BookOf, R.IndexExact, Overdue, InDue, Fits;
    DueOfHas(keys, 9, d);
    if d in DueOf(keys, 9) { ScanSound(all, shard, nowMs, keys, d); }
    if AllScanned(keys, all, shard, nowMs) && Overdue(all[shard], d, nowMs) {
      ScanComplete(all, shard, nowMs, keys, d);
    }
  }

  lemma ScanSound(all: Shards, shard: nat, nowMs: int, keys: seq<bytes>, d: DueLease)
    requires Laid(all) && shard in all && 0 <= nowMs < TWO63 && Scanned(keys, all, shard, nowMs)
    requires IndexesExact(all[shard]) && d in DueOf(keys, 9)
    ensures Overdue(all[shard], d, nowMs)
  {
    hide Key, ParseDue, Body, BookOf, R.IndexExact, Overdue, WrapI64, InDueScan;
    DueOfHas(keys, 9, d);
    var k :| k in keys && 9 <= |k| && ParseDue(k[9..]) == Some(d);
    var s, r :| Met(all, shard, nowMs, s, r) && k == Key(s, r);
    MetMeans(all, shard, nowMs, s, r);
    KeySplit(s, r);
    ParseBody(r);
    RowIndexed(all[shard], r);
    TimedIsOverdue(all[shard], r.coll, r.ms, r.tail, nowMs);
  }

  lemma ScanComplete(all: Shards, shard: nat, nowMs: int, keys: seq<bytes>, d: DueLease)
    requires Laid(all) && shard in all && 0 <= nowMs < TWO63 && AllScanned(keys, all, shard, nowMs)
    requires IndexesExact(all[shard]) && Overdue(all[shard], d, nowMs)
    ensures d in DueOf(keys, 9)
  {
    assert 0 < d.reclaimMs <= nowMs;
    hide Key, ParseDue, Body, BookOf, R.IndexExact, Overdue, WrapI64, InDueScan;
    TimedIsOverdue(all[shard], d.coll, d.reclaimMs, d.id, nowMs);
    IndexedRow(all[shard], d.coll, d.reclaimMs, d.id);
    var r := BudExp(d.reclaimMs, d.coll, d.id);
    MetMeans(all, shard, nowMs, shard, r);
    assert Met(all, shard, nowMs, shard, r);
    KeySplit(shard, r);
    ParseBody(r);
    RowIndexed(all[shard], r);
    DueOfHas(keys, 9, d);
    assert Key(shard, r) in keys;
  }

  /** In every state a shard reaches from nothing by draws with good deadlines. */
  lemma ReachedScanExact(lib: Strconv, batches: seq<seq<Entry>>, all: Shards, shard: nat, nowMs: int, keys: seq<bytes>,
                         d: DueLease)
    requires forall i :: 0 <= i < |batches| ==> NoMigrate(batches[i])
    requires forall c :: R.GoodDeadlines(L.EMPTY, PutRun(lib, map[], batches, c))
    requires Laid(all) && shard in all && all[shard] == C.UpdateAll(lib, map[], batches)
    requires 0 <= nowMs < TWO63 && AllScanned(keys, all, shard, nowMs)
    ensures d in DueOf(keys, 9) <==> Overdue(all[shard], d, nowMs)
  {
    hide DueOf, Overdue, AllScanned, Laid, BookOf, R.IndexExact, Bookish, R.GoodDeadlines, PutRun, C.UpdateAll,
      NoMigrate, L.Run, R.AllValid, R.Inv, R.CalmRun, R.BudCheckOK;
    forall c ensures R.IndexExact(BookOf(all[shard], c)) { StoredBudgets(lib, batches, c); }
    assert Scanned(keys, all, shard, nowMs) by { AllAreSome(keys, all, shard, nowMs); }
    ScanExact(all, shard, nowMs, keys, d);
  }

  lemma AllAreSome(keys: seq<bytes>, all: Shards, shard: nat, nowMs: int)
    requires AllScanned(keys, all, shard, nowMs)
    ensures Scanned(keys, all, shard, nowMs)
  {
  }

  // ---------------------------------------------------------------- the sweep

  /** The forced expiry proposed for a due lease. */
  function ExpireCommand(d: DueLease, nowMs: int): (c: Command)
    requires L.I64(nowMs)
    ensures ValidCommand(c)
  {
    Command(BUDEXPIRE, d.coll.ns, d.coll.name, [], [Item(d.id, PutI64(nowMs), 0, 0)])
  }

  function ExpireEntry(d: DueLease, nowMs: int, index: nat): Entry
    requires L.I64(nowMs)
  {
    Entry(index, EncodeCommand(ExpireCommand(d, nowMs)))
  }

  /** One proposal per due lease, each waited for before the next. */
  function Proposals(due: seq<DueLease>, nowMs: int, first: nat): (bs: seq<seq<Entry>>)
    requires L.I64(nowMs)
    ensures |bs| == |due| && forall i :: 0 <= i < |bs| ==> NoMigrate(bs[i])
  {
    seq(|due|, i requires 0 <= i < |due| => [ExpireEntry(due[i], nowMs, first + i)])
  }

  lemma {:induction false} UpdateAllSnoc(lib: Strconv, st: Data, bs: seq<seq<Entry>>, es: seq<Entry>)
    requires NoMigrate(es) && forall i :: 0 <= i < |bs| ==> NoMigrate(bs[i])
    ensures C.UpdateAll(lib, st, bs + [es]) == Update(lib, C.UpdateAll(lib, st, bs), es)
    decreases |bs|
  {
    hide Update, NoMigrate;
    if bs == [] {
      assert bs + [es] == [es] && [es][1..] == [];
    } else {
      UpdateAllSnoc(lib, Update(lib, st, bs[0]), bs[1..], es);
      assert (bs + [es])[1..] == bs[1..] + [es];
    }
  }

  /** sweepBudget's first pass. */
  method SweepBudget(sh: S.Shard, due: seq<DueLease>, nowMs: int, first: nat) returns (worked: bool)
    requires C.Right(sh.store) && L.I64(nowMs)
    modifies sh
    ensures sh.store == C.UpdateAll(sh.lib, old(sh.store), Proposals(due, nowMs, first)) && C.Right(sh.store)
    ensures worked == (due != [])
  {
    hide C.Right, C.UpdateAll, Update, EncodeCommand, NoMigrate;
    worked := false;
    ghost var bs := Proposals(due, nowMs, first);
    NoneApplied(sh.lib, sh.store);
    for i := 0 to |due|
      invariant sh.store == C.UpdateAll(sh.lib, old(sh.store), bs[..i]) && C.Right(sh.store)
      invariant worked == (i > 0)
    {
      var es := [ExpireEntry(due[i], nowMs, first + i)];
      assert bs[i] == es && bs[..i + 1] == bs[..i] + [es];
      UpdateAllSnoc(sh.lib, old(sh.store), bs[..i], es);
      C.UpdateRight(sh.lib, sh.store, es);
      assert C.Typed(Strip(sh.store)) by { RightTyped(sh.store); }
      var _ := sh.Update(es);
      worked := true;
    }
    assert bs[..|due|] == bs;
  }

  lemma NoneApplied(lib: Strconv, st: Data)
    ensures C.UpdateAll(lib, st, []) == st
  {
  }

  lemma RightTyped(st: Data)
    requires C.Right(st)
    ensures C.Typed(Strip(st))
  {
  }

  ghost predicate Sendable(d: DueLease, nowMs: int)
  {
    L.I64(nowMs) && d.id != [] && |EncodeCommand(ExpireCommand(d, nowMs))| < TWO32
  }

  /** A collection with a pool whose rows are a book. */
  ghost predicate Ready(st: Data, c: Coll) { Bookish(st, c) && PoolOf(st, c).Some? }

  lemma ExpireDecodes(d: DueLease, nowMs: int)
    requires Sendable(d, nowMs)
    ensures var b := EncodeCommand(ExpireCommand(d, nowMs));
      && DecodeCommand(b) == Some(ExpireCommand(d, nowMs)) && b[0] == BUDEXPIRE
      && L.DecodeCmd(BUDEXPIRE, ExpireCommand(d, nowMs).items) == Some(L.Expire(d.id, nowMs))
  {
    hide DecodeCommand, EncodeItems, Chunk, GetI64, PutI64;
    var b := EncodeCommand(ExpireCommand(d, nowMs));
    CommandRoundTrip(ExpireCommand(d, nowMs), []);
    assert b + [] == b;
    I64RoundTrip(nowMs, []);
    assert PutI64(nowMs) + [] == PutI64(nowMs);
  }

  /** Such an entry puts its expiry to the book of its collection, unless the range is frozen, and nothing to others. */
  lemma ExpirePuts(lib: Strconv, base: Data, v: View, d: DueLease, nowMs: int, index: nat, c: Coll)
    requires Sendable(d, nowMs) && Ready(v.d, d.coll)
    ensures !IsMigrate(ExpireEntry(d, nowMs, index).cmd)
    ensures PutEntry(lib, base, v, ExpireEntry(d, nowMs, index).cmd, c) ==
      if c == d.coll && !FrozenCovers(base, RouteKey(c)) then [L.Expire(d.id, nowMs)] else []
  {
    hide DecodeCommand, EncodeCommand, L.DecodeCmd, FrozenCovers, PoolOf, LeaseOf, TombOf, ApplyBudget, DeadlinesFit,
      Leases, ApplyCounter, ApplyItems, RouteKey;
    ExpireDecodes(d, nowMs);
    var dc := ExpireCommand(d, nowMs);
    BudgetBody(lib, base, v, dc);
    NotCorrupt(v, dc, d.id, nowMs);
  }

  lemma NotCorrupt(v: View, cmd: Command, id: bytes, nowMs: int)
    requires PoolOf(v.d, Coll(cmd.ns, cmd.coll)).Some? && L.DecodeCmd(cmd.op, cmd.items) == Some(L.Expire(id, nowMs))
    ensures ApplyBudget(v, cmd).Done?
  {
    hide L.DecodeCmd, PoolOf, LeaseOf, TombOf, WriteBudget, EnsureType, WrapI64, L.U64;
  }

  ghost predicate SameFreezes(st: Data, st': Data)
  {
    forall rk :: FrozenCovers(Strip(st'), rk) == FrozenCovers(Strip(st), rk)
  }

  lemma ExpireKeepsFreezes(lib: Strconv, st: Data, d: DueLease, nowMs: int, index: nat)
    requires Sendable(d, nowMs)
    ensures NoMigrate([ExpireEntry(d, nowMs, index)])
    ensures SameFreezes(st, Update(lib, st, [ExpireEntry(d, nowMs, index)]))
  {
    hide DecodeCommand, EncodeCommand, FrozenCovers, ApplyOne, Strip, Commit, F.Framed, SeqOf;
    ExpireDecodes(d, nowMs);
    var e, base := ExpireEntry(d, nowMs, index), Strip(st);
    B.SingleFold(lib, base, Start(st), e);
    F.CommandFramed(lib, base, Start(st), e.cmd);
    C.StartMetaFree(st);
    F.FoldMetaFree(lib, base, Start(st), [e]);
    var w := Fold(lib, base, Start(st), [e]);
    C.CommitStrips(st, w, index);
    assert w.d == base || F.Framed(F.CollOf(e.cmd).value, base, w.d);
    if w.d != base { FramedFreezes(F.CollOf(e.cmd).value, base, w.d); }
  }

  lemma FramedFreezes(c: Coll, d: Data, d': Data)
    requires F.Framed(c, d, d')
    ensures forall rk :: FrozenCovers(d', rk) == FrozenCovers(d, rk)
  {
    forall s ensures !F.Touches(c, Frozen(s)) { }
    assert B.SameFrozen(d', d);
    forall rk ensures FrozenCovers(d', rk) == FrozenCovers(d, rk) { B.FrozenAlike(d', d, rk); }
  }

  /** One proposal of the sweep, as the book of any collection sees it. */
  lemma SweepStep(lib: Strconv, st: Data, d: DueLease, nowMs: int, index: nat, c: Coll)
    requires Sendable(d, nowMs) && Ready(st, d.coll) && Bookish(st, c)
    ensures NoMigrate([ExpireEntry(d, nowMs, index)])
    ensures var st' := Update(lib, st, [ExpireEntry(d, nowMs, index)]);
      && Bookish(st', c)
      && BookOf(st', c) ==
         if c == d.coll && !FrozenCovers(Strip(st), RouteKey(c)) then L.Step(BookOf(st, c), L.Expire(d.id, nowMs))
         else BookOf(st, c)
  {
    hide DecodeCommand, EncodeCommand, FrozenCovers, ApplyEntry, Strip, Commit, Update, PutEntry, Bookish, BookOf,
      PoolOf, L.Step, RouteKey, SeqOf, Leaves;
    var e := ExpireEntry(d, nowMs, index);
    StripLeaves(st, d.coll);
    LeavesBook(st, Strip(st), d.coll);
    assert PoolOf(Strip(st), d.coll) == PoolOf(st, d.coll) by { SamePools(st, Strip(st), d.coll); }
    ExpirePuts(lib, Strip(st), Start(st), d, nowMs, index, c);
    UpdatePuts(lib, st, [e], c);
    PutSingle(lib, Strip(st), Start(st), e, c);
    RunOne(BookOf(st, c), L.Expire(d.id, nowMs));
    RunNone(BookOf(st, c));
  }

  lemma SamePools(d: Data, d': Data, c: Coll)
    requires BookOf(d', c) == BookOf(d, c)
    ensures PoolOf(d', c) == PoolOf(d, c)
  {
    assert BookOf(d', c).pool == BookOf(d, c).pool;
  }

  lemma RunNone(b: L.Book)
    ensures L.Run(b, []) == b
  {
  }

  lemma PutSingle(lib: Strconv, base: Data, v: View, e: Entry, c: Coll)
    requires !IsMigrate(e.cmd)
    ensures NoMigrate([e]) && PutAll(lib, base, v, [e], c) == PutEntry(lib, base, v, e.cmd, c)
  {
    hide PutEntry, ApplyEntry, IsMigrate;
    assert [e][..0] == [] && Fold(lib, base, v, []) == v && PutAll(lib, base, v, [], c) == [];
  }

  /** The listed ids of one collection, in order. */
  ghost function IdsOf(due: seq<DueLease>, c: Coll): seq<bytes>
  {
    if due == [] then [] else (if due[0].coll == c then [due[0].id] else []) + IdsOf(due[1..], c)
  }

  lemma {:induction false} IdsOfHas(due: seq<DueLease>, c: Coll, id: bytes)
    ensures id in IdsOf(due, c) <==> exists d :: d in due && d.coll == c && d.id == id
  {
    if due != [] {
      IdsOfHas(due[1..], c, id);
      assert due == [due[0]] + due[1..];
    }
  }

  /** The whole sweep is, for the book of every collection outside the frozen ranges, the ledger's sweep of its own
      listed ids; in a frozen range it is nothing. */
  lemma {:induction false} SweepRun(lib: Strconv, st: Data, due: seq<DueLease>, nowMs: int, first: nat, c: Coll)
    requires L.I64(nowMs) && (forall d :: d in due ==> Sendable(d, nowMs) && Ready(st, d.coll)) && Bookish(st, c)
    ensures BookOf(C.UpdateAll(lib, st, Proposals(due, nowMs, first)), c) ==
      if FrozenCovers(Strip(st), RouteKey(c)) then BookOf(st, c)
      else L.Run(BookOf(st, c), R.Sweep(IdsOf(due, c), nowMs))
    decreases |due|
  {
    hide Sendable, Bookish, BookOf, FrozenCovers, Strip, Update, EncodeCommand, L.Step, NoMigrate, RouteKey, PoolOf;
    if due != [] {
      var d, bs := due[0], Proposals(due, nowMs, first);
      var st' := Update(lib, st, bs[0]);
      SweepStep(lib, st, d, nowMs, first, c);
      ExpireKeepsFreezes(lib, st, d, nowMs, first);
      forall e | e in due[1..] ensures Ready(st', e.coll)
      {
        SweepStep(lib, st, d, nowMs, first, e.coll);
        StillPool(st, st', e.coll, d.id, nowMs);
      }
      SweepRun(lib, st', due[1..], nowMs, first + 1, c);
      assert bs[1..] == Proposals(due[1..], nowMs, first + 1);
      SweepCons(BookOf(st, c), d.id, IdsOf(due[1..], c), nowMs);
      assert [] + IdsOf(due[1..], c) == IdsOf(due[1..], c);
    }
  }

  lemma StillPool(st: Data, st': Data, c: Coll, id: bytes, nowMs: int)
    requires PoolOf(st, c).Some?
    requires BookOf(st', c) == BookOf(st, c) || BookOf(st', c) == L.Step(BookOf(st, c), L.Expire(id, nowMs))
    ensures PoolOf(st', c).Some?
  {
    hide L.Step, Leases, Tombs, Expiries, Collections, PoolOf;
    R.PoolStays(BookOf(st, c), L.Expire(id, nowMs));
    assert BookOf(st', c).pool == PoolOf(st', c) && BookOf(st, c).pool == PoolOf(st, c);
  }

  lemma SweepCons(b: L.Book, id: bytes, ids: seq<bytes>, nowMs: int)
    ensures L.Run(b, R.Sweep([id] + ids, nowMs)) == L.Run(L.Step(b, L.Expire(id, nowMs)), R.Sweep(ids, nowMs))
  {
    hide L.Step;
    assert ([id] + ids)[1..] == ids;
    assert R.Sweep([id] + ids, nowMs)[1..] == R.Sweep(ids, nowMs);
  }

  ghost predicate Lists(due: seq<DueLease>, c: Coll, id: bytes) { exists d :: d in due && d.coll == c && d.id == id }

  /** From any list, stale or not: the sweep settles exactly the listed leases whose replicated deadline has passed,
      except in frozen ranges, and leaves every other lease as it is. */
  lemma SweepStored(lib: Strconv, st: Data, due: seq<DueLease>, nowMs: int, first: nat, c: Coll, id: bytes)
    requires L.I64(nowMs) && (forall d :: d in due ==> Sendable(d, nowMs) && Ready(st, d.coll)) && Bookish(st, c)
    requires R.Inv(BookOf(st, c))
    ensures var l := LeaseOf(st, c, id);
      LeaseOf(C.UpdateAll(lib, st, Proposals(due, nowMs, first)), c, id) ==
      if l.Some? && Lists(due, c, id) && l.value.reclaimMs <= nowMs && !FrozenCovers(Strip(st), RouteKey(c)) then None
      else l
  {
    hide Sendable, Bookish, FrozenCovers, Strip, C.UpdateAll, Proposals, RouteKey, PoolOf, R.Inv, L.Run, R.Sweep, IdsOf,
      Leases, Tombs, Expiries, Collections, LeaseOf, TombOf;
    var st' := C.UpdateAll(lib, st, Proposals(due, nowMs, first));
    SweepRun(lib, st, due, nowMs, first, c);
    IdsOfHas(due, c, id);
    GetAgrees(st, c, id);
    GetAgrees(st', c, id);
    R.SweepSettles(BookOf(st, c), IdsOf(due, c), nowMs);
    assert BookOf(st, c).leases == Leases(st, c) && BookOf(st', c).leases == Leases(st', c);
  }

  /** In every state a shard reaches from nothing by draws with good deadlines, with the list an unlimited scan gives:
      outside the frozen ranges the sweep leaves no overdue lease, and it settles no other. */
  lemma SweepLeavesNoneOverdue(lib: Strconv, batches: seq<seq<Entry>>, all: Shards, shard: nat, nowMs: int,
                               keys: seq<bytes>, first: nat, c: Coll, id: bytes)
    requires forall i :: 0 <= i < |batches| ==> NoMigrate(batches[i])
    requires forall c :: R.GoodDeadlines(L.EMPTY, PutRun(lib, map[], batches, c))
    requires Laid(all) && shard in all && all[shard] == C.UpdateAll(lib, map[], batches)
    requires 0 <= nowMs < TWO63 && AllScanned(keys, all, shard, nowMs)
    requires forall d :: d in DueOf(keys, 9) ==> |EncodeCommand(ExpireCommand(d, nowMs))| < TWO32
    ensures var l := LeaseOf(all[shard], c, id);
      var st' := C.UpdateAll(lib, all[shard], Proposals(DueOf(keys, 9), nowMs, first));
      LeaseOf(st', c, id) ==
      if l.Some? && 0 < l.value.reclaimMs <= nowMs && !FrozenCovers(Strip(all[shard]), RouteKey(c)) then None else l
  {
    hide DueOf, AllScanned, Laid, BookOf, R.IndexExact, Bookish, R.GoodDeadlines, PutRun, C.UpdateAll, NoMigrate, L.Run,
      R.AllValid, R.Inv, R.CalmRun, R.BudCheckOK, LeaseOf, EncodeCommand, Proposals, FrozenCovers, Strip, RouteKey,
      PoolOf;
    var st, due := all[shard], DueOf(keys, 9);
    forall d ensures d in due <==> Overdue(st, d, nowMs) { ReachedScanExact(lib, batches, all, shard, nowMs, keys, d); }
    forall d | d in due ensures Sendable(d, nowMs) && Ready(st, d.coll)
    {
      StoredBudgets(lib, batches, d.coll);
      LeasedReady(st, d.coll, d.id);
    }
    StoredBudgets(lib, batches, c);
    SweepStored(lib, st, due, nowMs, first, c, id);
    var l := LeaseOf(st, c, id);
    if l.Some? {
      assert Overdue(st, DueLease(c, id, l.value.reclaimMs), nowMs) <==> 0 < l.value.reclaimMs <= nowMs;
      assert DueLease(c, id, l.value.reclaimMs) in due ==> Lists(due, c, id);
    }
  }

  /** A live lease has an id and a pool. */
  lemma LeasedReady(st: Data, c: Coll, id: bytes)
    requires Bookish(st, c) && R.Inv(BookOf(st, c)) && LeaseOf(st, c, id).Some?
    ensures id != [] && Ready(st, c)
  {
    hide Tombs, Expiries, Collections, PoolOf, LeaseOf, TombOf, DeadlinesFit, R.GoodPool, R.GoodLease;
    GetAgrees(st, c, id);
    assert BookOf(st, c).pool == PoolOf(st, c) && BookOf(st, c).leases == Leases(st, c);
    hide Leases;
  }
}
