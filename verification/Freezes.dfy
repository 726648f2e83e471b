/** Frozen ranges (freeze.go): what freeze and unfreeze entries cover, and what a range that stays frozen keeps over
    whole runs of the shard. */
module Freezes {
  import opened Bytes
  import opened Codec
  import opened Rows
  import opened Machine
  import F = Frame
  import C = Cardinality

  /** At or after the start and before the end; an empty bound is none. */
  predicate Between(rk: bytes, start: bytes, end: bytes)
  {
    (start == [] || !Less(rk, start)) && (end == [] || Less(rk, end))
  }

  /** A frozen range other than the one that begins at start covers rk. */
  ghost predicate Besides(d: Data, rk: bytes, start: bytes)
  {
    exists s: bytes :: s != start && Frozen(s) in d && d[Frozen(s)].Raw? && Between(rk, s, d[Frozen(s)].b)
  }

  ghost predicate Fence(d: Data, start: bytes, end: bytes)
  {
    Frozen(start) in d && d[Frozen(start)] == Raw(end)
  }

  lemma InRouteIsBetween(rk: bytes, start: bytes, end: bytes)
    ensures InRoute(rk, start, end) <==> Between(rk, start, end)
  {
    LessTotal(start, rk);
  }

  lemma CoversMeans(d: Data, rk: bytes)
    ensures FrozenCovers(d, rk) <==>
      exists s: bytes :: Frozen(s) in d && d[Frozen(s)].Raw? && Between(rk, s, d[Frozen(s)].b)
  {
    hide InRoute, Between;
    if FrozenCovers(d, rk) {
      var r :| r in d && r.Frozen? && d[r].Raw? && InRoute(rk, r.start, d[r].b);
      InRouteIsBetween(rk, r.start, d[r].b);
      assert Frozen(r.start) in d;
    }
    forall s: bytes | Frozen(s) in d && d[Frozen(s)].Raw? && Between(rk, s, d[Frozen(s)].b)
      ensures FrozenCovers(d, rk)
    {
      InRouteIsBetween(rk, s, d[Frozen(s)].b);
    }
  }

  ghost predicate OnlyFence(d: Data, d': Data, start: bytes)
  {
    forall r :: r != Frozen(start) ==> (r in d <==> r in d') && (r in d ==> d[r] == d'[r])
  }

  lemma CoversElse(d: Data, d': Data, rk: bytes, start: bytes)
    requires OnlyFence(d, d', start)
    ensures FrozenCovers(d', rk) <==>
      || Besides(d, rk, start)
      || (Frozen(start) in d' && d'[Frozen(start)].Raw? && Between(rk, start, d'[Frozen(start)].b))
  {
    hide Between, FrozenCovers;
    CoversMeans(d', rk);
    if FrozenCovers(d', rk) {
      var s: bytes :| Frozen(s) in d' && d'[Frozen(s)].Raw? && Between(rk, s, d'[Frozen(s)].b);
      if s != start { assert Frozen(s) in d; }
    }
    if Besides(d, rk, start) {
      var s: bytes :| s != start && Frozen(s) in d && d[Frozen(s)].Raw? && Between(rk, s, d[Frozen(s)].b);
      assert Frozen(s) in d';
    }
  }

  lemma BoundsEntry(lib: Strconv, base: Data, v: View, op: byte, start: bytes, end: bytes)
    requires (op == FREEZE || op == UNFREEZE) && |start| + |end| + 8 < TWO32
    ensures var cmd := EncodeBounds(op, start, end);
      && !IsMigrate(cmd)
      && var o := ApplyEntry(lib, base, v, cmd);
         && o.Done? && o.r == PResult(1, []) && o.v == v.(d := o.v.d) && OnlyFence(v.d, o.v.d, start)
         && (if op == FREEZE then Fence(o.v.d, start, end) else Frozen(start) !in o.v.d)
  {
    hide Chunk, DecodeBounds;
    BoundsRoundTrip(op, start, end);
    assert EncodeBounds(op, start, end)[0] == op;
  }

  /** A freeze adds exactly the keys from its start up to its end to what is frozen, in place of a freeze that began at
      the same key. */
  lemma FreezeMeans(lib: Strconv, base: Data, v: View, start: bytes, end: bytes, rk: bytes)
    requires |start| + |end| + 8 < TWO32
    ensures var cmd := EncodeBounds(FREEZE, start, end);
      && !IsMigrate(cmd) && ApplyEntry(lib, base, v, cmd).Done?
      && var w := ApplyEntry(lib, base, v, cmd).v;
         FrozenCovers(w.d, rk) <==> Besides(v.d, rk, start) || Between(rk, start, end)
  {
    hide EncodeBounds, ApplyEntry, IsMigrate, FrozenCovers, Besides, Between, OnlyFence;
    BoundsEntry(lib, base, v, FREEZE, start, end);
    CoversElse(v.d, ApplyEntry(lib, base, v, EncodeBounds(FREEZE, start, end)).v.d, rk, start);
  }

  /** An unfreeze leaves frozen exactly what other freezes cover; its own end is not looked at. */
  lemma UnfreezeMeans(lib: Strconv, base: Data, v: View, start: bytes, end: bytes, rk: bytes)
    requires |start| + |end| + 8 < TWO32
    ensures var cmd := EncodeBounds(UNFREEZE, start, end);
      && !IsMigrate(cmd) && ApplyEntry(lib, base, v, cmd).Done?
      && var w := ApplyEntry(lib, base, v, cmd).v;
         FrozenCovers(w.d, rk) <==> Besides(v.d, rk, start)
  {
    hide EncodeBounds, ApplyEntry, IsMigrate, FrozenCovers, Besides, Between, OnlyFence;
    BoundsEntry(lib, base, v, UNFREEZE, start, end);
    CoversElse(v.d, ApplyEntry(lib, base, v, EncodeBounds(UNFREEZE, start, end)).v.d, rk, start);
  }

  // ---------------------------------------------------------------- while a range stays frozen

  /** The collection's routing key lies in the range. */
  predicate Inside(c: Coll, start: bytes, end: bytes) { Between(RouteKey(c), start, end) }

  /** The entry is no freeze or unfreeze that begins at start. */
  ghost predicate LeavesFence(cmd: bytes, start: bytes)
  {
    IsFreeze(cmd) && DecodeBounds(cmd).Some? ==> DecodeBounds(cmd).value.0 != start
  }

  /** The rows and the counter deltas of the collections in the range are the same in both views. */
  ghost predicate SameInside(v: View, w: View, start: bytes, end: bytes)
  {
    && (forall r :: OfColl(r) && Inside(r.coll, start, end) ==>
          (r in v.d <==> r in w.d) && (r in v.d ==> v.d[r] == w.d[r]))
    && (forall c :: Inside(c, start, end) ==> Delta(v, c) == Delta(w, c))
  }

  lemma FenceCovers(base: Data, start: bytes, end: bytes, c: Coll)
    requires Fence(base, start, end) && Inside(c, start, end)
    ensures FrozenCovers(base, RouteKey(c))
  {
    hide RouteKey, Between, FrozenCovers;
    CoversMeans(base, RouteKey(c));
    assert Frozen(start) in base;
  }

  lemma BodyDelta(lib: Strconv, base: Data, v: View, c: Command, o: Coll)
    requires ValidCommand(c) && Coll(c.ns, c.coll) != o
    ensures var w := ApplyBody(lib, base, v, c); w.Done? ==> Delta(w.v, o) == Delta(v, o)
  {
    hide EnsureType, ApplyItems, WriteBudget, NextCount, FieldOf, L.Apply, L.DecodeCmd, PoolOf, LeaseOf, TombOf,
      RingKey;
  }

  /** A command on a collection of the range is answered with the frozen mark and changes nothing; any other leaves
      the range alone. */
  lemma OneFenced(lib: Strconv, base: Data, v: View, cmd: bytes, start: bytes, end: bytes)
    requires Fence(base, start, end) && Fence(v.d, start, end)
    ensures var o := ApplyOne(lib, base, v, cmd);
      && (o.Done? ==> Fence(o.v.d, start, end) && SameInside(v, o.v, start, end) && F.CollOf(cmd).Some?)
      && (F.CollOf(cmd).Some? && Inside(F.CollOf(cmd).value, start, end) ==> o == Done(v, PResult(0, FROZEN_MARK)))
  {
    hide ApplyBody, DecodeCommand, FrozenCovers, DedupGet, Between, RouteKey;
    var o := ApplyOne(lib, base, v, cmd);
    if F.CollOf(cmd).Some? && Inside(F.CollOf(cmd).value, start, end) {
      FenceCovers(base, start, end, F.CollOf(cmd).value);
    }
    if o.Done? {
      F.CommandFramed(lib, base, v, cmd);
      var k := F.CollOf(cmd).value;
      assert !F.Touches(k, Frozen(start));
      if !Inside(k, start, end) {
        DecodeCommandValid(cmd);
        forall c | Inside(c, start, end) ensures Delta(v, c) == Delta(o.v, c)
        {
          BodyDelta(lib, base, v, DecodeCommand(cmd).value, c);
        }
        forall r | OfColl(r) && Inside(r.coll, start, end) ensures !F.Touches(k, r) {}
      }
    }
  }

  lemma SameInsideThen(u: View, v: View, w: View, start: bytes, end: bytes)
    requires SameInside(u, v, start, end) && SameInside(v, w, start, end)
    ensures SameInside(u, w, start, end)
  {
    hide Inside, Delta;
  }

  lemma {:induction false} SubsFenced(lib: Strconv, base: Data, v: View, subs: seq<bytes>, start: bytes, end: bytes)
    requires Fence(base, start, end) && Fence(v.d, start, end)
    ensures var o := ApplySubs(lib, base, v, subs);
      o.SubDone? ==>
        && Fence(o.v.d, start, end) && SameInside(v, o.v, start, end) && |o.rs| == |subs|
        && forall i :: 0 <= i < |subs| ==>
             F.CollOf(subs[i]).Some?
             && (Inside(F.CollOf(subs[i]).value, start, end) ==> o.rs[i] == PResult(0, FROZEN_MARK))
  {
    hide ApplyOne, Fence, Inside, F.CollOf, Delta;
    if subs != [] {
      hide SameInside;
      var n := |subs| - 1;
      SubsFenced(lib, base, v, subs[..n], start, end);
      var h := ApplySubs(lib, base, v, subs[..n]);
      if h.SubDone? && ApplyOne(lib, base, h.v, subs[n]).Done? {
        OneFenced(lib, base, h.v, subs[n], start, end);
        SameInsideThen(v, h.v, ApplyOne(lib, base, h.v, subs[n]).v, start, end);
      }
    }
  }

  /** A command of its own on a collection of the range is told that it is frozen. */
  ghost predicate TellsFrozen(cmd: bytes, r: PResult, start: bytes, end: bytes)
  {
    !IsBatch(cmd) && F.CollOf(cmd).Some? && Inside(F.CollOf(cmd).value, start, end) ==> r == PResult(0, FROZEN_MARK)
  }

  lemma FreezeIsNoCommand(cmd: bytes)
    requires IsFreeze(cmd) || MigrateOp(cmd)
    ensures F.CollOf(cmd).None?
  {
  }

  lemma FreezeAside(v: View, cmd: bytes, start: bytes, end: bytes)
    requires IsFreeze(cmd) && Fence(v.d, start, end) && LeavesFence(cmd, start)
    ensures var o := ApplyFreeze(v, cmd); o.Done? ==> Fence(o.v.d, start, end) && SameInside(v, o.v, start, end)
  {
    hide DecodeBounds, Inside;
  }

  lemma EntryFenced(lib: Strconv, base: Data, v: View, cmd: bytes, start: bytes, end: bytes)
    requires Fence(base, start, end) && Fence(v.d, start, end) && LeavesFence(cmd, start) && !IsMigrate(cmd)
    ensures var o := ApplyEntry(lib, base, v, cmd);
      && (o.Done? ==> Fence(o.v.d, start, end) && SameInside(v, o.v, start, end))
      && TellsFrozen(cmd, if o.Done? then o.r else PResult(0, []), start, end)
  {
    hide ApplyOne, ApplySubs, DecodeBatch, ApplyFreeze, EncodeBatchResult, Fence, SameInside, LeavesFence, F.CollOf,
      Inside;
    if MigrateOp(cmd) {
      FreezeIsNoCommand(cmd);
    } else if IsFreeze(cmd) {
      FreezeAside(v, cmd, start, end);
      FreezeIsNoCommand(cmd);
    } else if IsBatch(cmd) {
      if DecodeBatch(cmd).Some? { SubsFenced(lib, base, v, DecodeBatch(cmd).value, start, end); }
    } else {
      OneFenced(lib, base, v, cmd, start, end);
    }
  }

  lemma {:induction false} FoldFenced(lib: Strconv, base: Data, v: View, es: seq<Entry>, start: bytes, end: bytes)
    requires Fence(base, start, end) && Fence(v.d, start, end) && NoMigrate(es)
    requires forall i :: 0 <= i < |es| ==> LeavesFence(es[i].cmd, start)
    ensures var w := Fold(lib, base, v, es); Fence(w.d, start, end) && SameInside(v, w, start, end)
  {
    hide ApplyEntry, Fence, LeavesFence, IsMigrate, Inside, Delta;
    if es != [] {
      hide SameInside;
      var n := |es| - 1;
      FoldFenced(lib, base, v, es[..n], start, end);
      var h := Fold(lib, base, v, es[..n]);
      EntryFenced(lib, base, h, es[n].cmd, start, end);
      if ApplyEntry(lib, base, h, es[n].cmd).Done? {
        SameInsideThen(v, h, ApplyEntry(lib, base, h, es[n].cmd).v, start, end);
      }
    }
  }

  lemma {:induction false} ResultsFenced(lib: Strconv, base: Data, v: View, es: seq<Entry>, start: bytes, end: bytes,
                                         i: nat)
    requires Fence(base, start, end) && Fence(v.d, start, end) && NoMigrate(es) && i < |es|
    requires forall j :: 0 <= j < |es| ==> LeavesFence(es[j].cmd, start)
    ensures TellsFrozen(es[i].cmd, Results(lib, base, v, es)[i], start, end)
    decreases |es|
  {
    hide ApplyEntry, Fence, LeavesFence, IsMigrate, Inside, TellsFrozen, SameInside, Fold;
    var n := |es| - 1;
    if i < n {
      ResultsFenced(lib, base, v, es[..n], start, end, i);
    } else {
      FoldFenced(lib, base, v, es[..n], start, end);
      EntryFenced(lib, base, Fold(lib, base, v, es[..n]), es[n].cmd, start, end);
    }
  }

  /** The rows and the counter of every collection in the range are the same in both stores. */
  ghost predicate Intact(st: Data, st': Data, start: bytes, end: bytes)
  {
    && (forall r :: OfColl(r) && !r.Card? && Inside(r.coll, start, end) ==>
          (r in st <==> r in st') && (r in st ==> st[r] == st'[r]))
    && (forall c :: Inside(c, start, end) ==> CardOf(st, c) == CardOf(st', c))
  }

  /** While a range is frozen an Update keeps its rows and counts, and tells the callers of its collections so. */
  lemma UpdateFenced(lib: Strconv, st: Data, es: seq<Entry>, start: bytes, end: bytes)
    requires Fence(st, start, end) && NoMigrate(es)
    requires forall i :: 0 <= i < |es| ==> LeavesFence(es[i].cmd, start)
    ensures var st' := Update(lib, st, es); Fence(st', start, end) && Intact(st, st', start, end)
    ensures forall i :: 0 <= i < |es| ==> TellsFrozen(es[i].cmd, UpdateResults(lib, st, es)[i], start, end)
  {
    hide Fold, Results, LeavesFence, Inside, TellsFrozen, IsMigrate, Commit, CardOf, SeqOf, NewCard;
    if es != [] {
      var v := Start(st);
      var w := Fold(lib, Strip(st), v, es);
      var st' := Update(lib, st, es);
      FoldFenced(lib, Strip(st), v, es, start, end);
      C.StartMetaFree(st);
      F.FoldMetaFree(lib, Strip(st), v, es);
      C.CommitStrips(st, w, es[|es| - 1].index);
      assert Strip(st') == w.d;
      assert forall r :: !Meta(r) ==> (r in st <==> r in Strip(st)) && (r in st' <==> r in Strip(st'));
      forall i | 0 <= i < |es| ensures TellsFrozen(es[i].cmd, UpdateResults(lib, st, es)[i], start, end)
      {
        ResultsFenced(lib, Strip(st), v, es, start, end, i);
      }
    }
  }

  /** As long as no entry freezes or unfreezes at its start, a frozen range keeps every row and count over any run. */
  lemma {:induction false} FenceHolds(lib: Strconv, st: Data, batches: seq<seq<Entry>>, start: bytes, end: bytes)
    requires Fence(st, start, end)
    requires forall i :: 0 <= i < |batches| ==>
      NoMigrate(batches[i]) && forall j :: 0 <= j < |batches[i]| ==> LeavesFence(batches[i][j].cmd, start)
    ensures var st' := C.UpdateAll(lib, st, batches); Fence(st', start, end) && Intact(st, st', start, end)
    decreases |batches|
  {
    hide Update, NoMigrate, LeavesFence, Inside, Fence, CardOf, TellsFrozen;
    if batches != [] {
      UpdateFenced(lib, st, batches[0], start, end);
      FenceHolds(lib, Update(lib, st, batches[0]), batches[1..], start, end);
    }
  }
}
