/** Runs of the split protocol that show where its promises end: a split given up between its two directory
    writes, a split given up before its purge, and a client that missed a merge. */
module SplitRuns {
  import opened Bytes
  import opened Codec
  import opened Rows
  import opened Directory
  import opened Migrate
  import opened Split

  /** The first split of a fresh cluster, at the routing key of c. */
  function FirstCut(c: Coll): Job { Job([], RouteKey(c), [], FIRST_SHARD, FIRST_SHARD + 1) }

  lemma RouteKeyNonEmpty(c: Coll)
    ensures RouteKey(c) != []
  {
    hide BE;
  }

  lemma FirstCutEnabled(w: World, c: Coll)
    requires w.phase.Idle? && w.dir == INIT.dir
    ensures Enabled(w, Start(FirstCut(c)))
  {
    hide RouteKey;
    RouteKeyNonEmpty(c);
    assert w.dir[[]].shard == FIRST_SHARD;
  }

  lemma NothingScanned(lo: bytes, hi: bytes)
    ensures Enumerates([], Span(map[], lo, hi))
  {
  }

  /** A split given up between its two directory writes: the collection it was cut at has no shard. */
  lemma TornRun(c: Coll) returns (steps: seq<Step>)
    ensures Runs(INIT, steps)
    ensures var w := Final(INIT, steps);
      w.phase.Idle? && w.torn && !Routed(w.dir, RouteKey(c)) && OwnerOf(w.dir, RouteKey(c)) == 0 && !Partition(w.dir)
  {
    hide RouteKey, Enumerates, Span, CanSplit, MaxShard, Runs, Final;
    var j := FirstCut(c);
    var head, tail := [Start(j), CommitFreeze, Scan([])], [Shrink, GiveUp];
    RouteKeyNonEmpty(c);
    FirstCutEnabled(INIT, c);
    NothingScanned(j.key, j.end);
    FinalThree(INIT, Start(j), CommitFreeze, Scan([]));
    var v := Final(INIT, head);
    FinalTwo(v, Shrink, GiveUp);
    RunsConcat(INIT, head, tail);
    steps := head + tail;
    var w := Final(INIT, steps);
    assert w.dir == map[[] := Range(j.key, FIRST_SHARD)];
    ShrunkAway(w.dir, j.key);
  }

  lemma ShrunkAway(d: Dir, key: bytes)
    requires d == map[[] := Range(key, FIRST_SHARD)] && key != []
    ensures !Routed(d, key)
  {
    LessTotal(key, key);
  }

  // ---------------------------------------------------------------- given up before the purge

  ghost predicate OneRow(w: World, x: bytes)
  {
    && w == INIT.(rows := w.rows, truth := w.truth)
    && RowsAt(w.rows, FIRST_SHARD) == map[x := []] && RowsAt(w.rows, FIRST_SHARD + 1) == map[]
    && w.truth == map[x := []]
  }

  /** A fresh cluster with one member added. */
  lemma AddOne(x: bytes, rk: bytes)
    requires RouteKeyOf(x) == Some(rk)
    ensures var st := Write(INIT.dir, rk, map[x := []], {});
      Enabled(INIT, st) && OneRow(After(INIT, st), x)
  {
    hide RouteKeyOf;
    InitialPartition(FIRST_SHARD);
    assert Covers(INIT.dir, [], rk);
    OwnerIs(INIT.dir, [], rk);
    hide OwnerOf;
    assert Accepted(INIT, INIT.dir, rk);
    assert Written(map[], map[x := []], {}) == map[x := []];
  }

  lemma OneScanned(w: World, x: bytes, c: Coll)
    requires OneRow(w, x) && RouteKeyOf(x) == Some(RouteKey(c))
    ensures InSpan(x, RouteKey(c), []) && Span(map[x := []], RouteKey(c), []) == map[x := []]
    ensures Enumerates([RawKV(x, [])], Span(RowsAt(w.rows, FIRST_SHARD), RouteKey(c), []))
  {
    hide RouteKeyOf, RouteKey;
    assert Span(map[x := []], RouteKey(c), []) == map[x := []];
    assert RawKV(x, []) in [RawKV(x, [])];
  }

  /** Up to the published directory, with the row still on both shards. */
  lemma PublishedRun(x: bytes, c: Coll) returns (steps: seq<Step>)
    requires RouteKeyOf(x) == Some(RouteKey(c))
    ensures Runs(INIT, steps)
    ensures var w := Final(INIT, steps);
      && w.phase == Published(FirstCut(c)) && w.dir == SplitDir(INIT.dir, [], RouteKey(c), FIRST_SHARD + 1)
      && x in RowsAt(w.rows, FIRST_SHARD) && FrozenAt(w.frozen, FIRST_SHARD + 1) == map[]
  {
    hide RouteKey, RouteKeyOf, Enumerates, Span, CanSplit, MaxShard, Runs, Final, Ingest, Written, OwnerOf;
    var rk, j, kvs := RouteKey(c), FirstCut(c), [RawKV(x, [])];
    var add := Write(INIT.dir, rk, map[x := []], {});
    AddOne(x, rk);
    var w1 := After(INIT, add);
    FinalOne(INIT, add);
    FirstCutEnabled(w1, c);
    OneScanned(w1, x, c);
    FinalThree(w1, Start(j), CommitFreeze, Scan(kvs));
    var head := [Start(j), CommitFreeze, Scan(kvs)];
    var w2 := Final(w1, head);
    FinalThree(w2, IngestBatch, Shrink, Publish);
    RunsConcat(INIT, [add], head);
    RunsConcat(INIT, [add] + head, [IngestBatch, Shrink, Publish]);
    steps := [add] + head + [IngestBatch, Shrink, Publish];
  }

  /** A run from nothing: a member is added, the range is split, the split is given up before its purge, the member is
      removed through the new directory. It is on the old shard still, so merging the range back would bring it
      back. */
  lemma UnpurgedRun(c: Coll, m: bytes, it: seq<RawKV>) returns (steps: seq<Step>)
    requires Fits(Elem(c, m))
    ensures Runs(INIT, steps)
    ensures var w, x := Final(INIT, steps), Suffix(Elem(c, m));
      && w.phase.Idle? && x !in w.truth
      && (Enumerates(it, RowsAt(w.rows, FIRST_SHARD + 1)) ==>
          x in Ingest(RowsAt(w.rows, FIRST_SHARD), Filtered(it, RouteKey(c), [])))
  {
    hide RouteKey, RouteKeyOf, Enumerates, Runs, Final, Ingest, Filtered, Suffix, Inv, OwnerOf, InRoute;
    var x, rk := Suffix(Elem(c, m)), RouteKey(c);
    RouteOfRow(Elem(c, m));
    var first := PublishedRun(x, c);
    var w := Final(INIT, first);
    InitInv();
    RunsKeep(INIT, first);
    PublishedAccepts(w, x, c);
    UnpurgedRowSurvives(w, x, it);
    var rest := [GiveUp, Write(w.dir, rk, map[], {x})];
    RunsConcat(INIT, first, rest);
    steps := first + rest;
    StillIdle(w, rk, x);
  }

  lemma StillIdle(w: World, rk: bytes, x: bytes)
    requires !w.phase.Idle? && w.dir in w.seen && RouteKeyOf(x) == Some(rk)
    requires Runs(w, [GiveUp, Write(w.dir, rk, map[], {x})])
    ensures Final(w, [GiveUp, Write(w.dir, rk, map[], {x})]).phase.Idle?
  {
    hide RouteKeyOf, OwnerOf, Accepted;
    FinalTwo(w, GiveUp, Write(w.dir, rk, map[], {x}));
  }

  lemma PublishedAccepts(w: World, x: bytes, c: Coll)
    requires Inv(w) && w.phase == Published(FirstCut(c)) && RouteKeyOf(x) == Some(RouteKey(c))
    requires w.dir == SplitDir(INIT.dir, [], RouteKey(c), FIRST_SHARD + 1) &&
      FrozenAt(w.frozen, FIRST_SHARD + 1) == map[]
    ensures InSpan(x, RouteKey(c), []) && Accepted(w, w.dir, RouteKey(c)) && w.dir in w.seen
  {
    hide RouteKey, RouteKeyOf, StaleFenced, StoredHome, LeftoversOk, RoutedHome, CutsOk, Whole, TornOk;
    assert Covers(w.dir, RouteKey(c), RouteKey(c));
    OwnerIs(w.dir, RouteKey(c), RouteKey(c));
    hide OwnerOf;
  }

  // ---------------------------------------------------------------- clients that missed a merge

  /** The world after a merge with no write under way: the right range is copied into the left shard, the left
      shard's freeze of it is lifted, both directory writes are published, the right shard is purged. */
  ghost function Merged(w: World, left: bytes, boundary: bytes, it: seq<RawKV>): World
    requires CanMerge(w.dir, left, boundary)
  {
    var l, r, hi := w.dir[left].shard, w.dir[boundary].shard, w.dir[boundary].end;
    var d1, d2 := ApplyRange(w.dir, MetaPut(left, hi, l)), MergeDir(w.dir, left, boundary);
    var rows1 := w.rows[l := Ingest(RowsAt(w.rows, l), Filtered(it, boundary, hi))];
    w.(rows := rows1[r := Purge(RowsAt(rows1, r), boundary, hi)],
       frozen := w.frozen[l := FrozenAt(w.frozen, l) - {boundary}], dir := d2, seen := w.seen + {d1, d2})
  }

  /** A client still using the directory from before the merge is sent to the right shard, which no step of the
      merge freezes. Its write is refused if and only if an earlier split had frozen the routing key there;
      otherwise it is acknowledged, while the rows at the shard the directory names stay as they were. */
  lemma MergeMissesStaleWrites(w: World, left: bytes, boundary: bytes, it: seq<RawKV>, rk: bytes, puts: Raw,
                               dels: set<bytes>)
    requires Partition(w.dir) && CanMerge(w.dir, left, boundary)
    requires Covers(w.dir, boundary, rk) && w.dir[boundary].shard != 0
    ensures var m := Merged(w, left, boundary, it);
      && OwnerOf(m.dir, rk) == w.dir[left].shard != OwnerOf(w.dir, rk)
      && (Accepted(m, w.dir, rk) <==> !Blocked(w.frozen, w.dir[boundary].shard, rk))
      && RowsAt(AfterWrite(m, w.dir, rk, puts, dels).rows, OwnerOf(m.dir, rk)) == RowsAt(m.rows, OwnerOf(m.dir, rk))
      && AfterWrite(m, w.dir, rk, puts, dels).truth == Written(m.truth, puts, dels)
  {
    hide Partition, Ingest, Filtered, Purge, Written, InRoute, MergeDir;
    var m := Merged(w, left, boundary, it);
    assert Disjoint(w.dir) by { PartitionDisjoint(w.dir); }
    OwnerIs(w.dir, boundary, rk);
    MergeOwners(w.dir, left, boundary, rk);
    hide OwnerOf, Disjoint;
    var r := w.dir[boundary].shard;
    assert FrozenAt(m.frozen, r) == FrozenAt(w.frozen, r);
    SameBlocks(m.frozen, w.frozen, r, rk);
  }

  lemma PartitionDisjoint(d: Dir)
    requires Partition(d)
    ensures Disjoint(d)
  {
  }

  lemma SameBlocks(f: Freezes, g: Freezes, s: nat, rk: bytes)
    requires FrozenAt(f, s) == FrozenAt(g, s)
    ensures Blocked(f, s, rk) <==> Blocked(g, s, rk)
  {
    assert forall k :: Blocks(f, s, k, rk) <==> Blocks(g, s, k, rk);
  }

  /** Such a merge, in a run from nothing: after a completed split of a fresh cluster the new shard has no freeze. */
  lemma SplitThenMerge(c: Coll, it: seq<RawKV>) returns (steps: seq<Step>)
    ensures Runs(INIT, steps)
    ensures var w, rk := Final(INIT, steps), RouteKey(c);
      && w.phase.Idle? && Partition(w.dir) && CanMerge(w.dir, [], rk)
      && Accepted(Merged(w, [], rk, it), w.dir, rk) && OwnerOf(Merged(w, [], rk, it).dir, rk) != OwnerOf(w.dir, rk)
  {
    hide RouteKey, Enumerates, Span, Runs, Final, Ingest, Filtered, Purge, Partition, OwnerOf, Accepted;
    var rk, j := RouteKey(c), FirstCut(c);
    FirstCutEnabled(INIT, c);
    RouteKeyNonEmpty(c);
    NothingScanned(j.key, j.end);
    steps := SplitCompletes(INIT, j, []);
    IdlePartition(steps);
    var w := Final(INIT, steps);
    assert Covers(w.dir, rk, rk);
    MergeMissesStaleWrites(w, [], rk, it, rk, map[], {});
    assert !Blocked(w.frozen, FIRST_SHARD + 1, rk);
  }

  // ---------------------------------------------------------------- fences that a merge lifts

  /** Another freeze of the left shard keeps rk fenced. */
  ghost predicate FencedElsewhere(w: World, left: bytes, boundary: bytes, rk: bytes)
    requires left in w.dir
  {
    exists k :: k != boundary && Blocks(w.frozen, w.dir[left].shard, k, rk)
  }

  /** The freeze row keyed by the boundary reaches past the end of the range that is merged, over rk. */
  ghost predicate Overreaches(w: World, left: bytes, boundary: bytes, rk: bytes)
    requires left in w.dir && boundary in w.dir
  {
    var fz, hi := FrozenAt(w.frozen, w.dir[left].shard), w.dir[boundary].end;
    boundary in fz && hi != [] && Leq(hi, rk) && (fz[boundary] == [] || Less(rk, fz[boundary]))
  }

  /** Outside the range it absorbs, a merge lifts the left shard's fence at exactly the routing keys between the end of
      that range and the end of the freeze row keyed by its start, save those another freeze covers: nowhere if the
      two ends are equal. */
  lemma MergeLifts(w: World, left: bytes, boundary: bytes, it: seq<RawKV>, rk: bytes)
    requires Proper(w.dir) && CanMerge(w.dir, left, boundary)
    ensures var m, l := Merged(w, left, boundary, it), w.dir[left].shard;
      Blocked(w.frozen, l, rk) && !Blocked(m.frozen, l, rk) && !InRoute(rk, boundary, w.dir[boundary].end) <==>
      Overreaches(w, left, boundary, rk) && !FencedElsewhere(w, left, boundary, rk)
    ensures var fz := FrozenAt(w.frozen, w.dir[left].shard);
      boundary in fz && fz[boundary] == w.dir[boundary].end ==> !Overreaches(w, left, boundary, rk)
  {
    hide Ingest, Filtered, Purge, MergeDir, Less;
    var m, l, hi := Merged(w, left, boundary, it), w.dir[left].shard, w.dir[boundary].end;
    assert FrozenAt(m.frozen, l) == FrozenAt(w.frozen, l) - {boundary};
    forall k ensures Blocks(m.frozen, l, k, rk) <==> k != boundary && Blocks(w.frozen, l, k, rk) { }
    if k :| Blocks(m.frozen, l, k, rk) { assert FencedElsewhere(w, left, boundary, rk); }
    if k :| k != boundary && Blocks(w.frozen, l, k, rk) { assert Blocks(m.frozen, l, k, rk); }
    LessTotal(rk, hi);
    if Overreaches(w, left, boundary, rk) {
      if Less(hi, rk) { LessTransitive(boundary, hi, rk); }
      assert Blocks(w.frozen, l, boundary, rk);
    }
  }

  lemma {:induction false} SeenStays(w: World, steps: seq<Step>, d: Dir)
    requires Runs(w, steps) && d in w.seen
    ensures d in Final(w, steps).seen
    decreases |steps|
  {
    hide Enabled, After;
    if steps != [] {
      StepSeen(w, steps[0], d);
      SeenStays(After(w, steps[0]), steps[1..], d);
    }
  }

  lemma StepSeen(w: World, st: Step, d: Dir)
    requires Enabled(w, st) && d in w.seen
    ensures d in After(w, st).seen
  {
    hide Enumerates, CanSplit, MaxShard, Ingest, Purge, Written, Accepted;
  }

  /** A shard that owns a range of a store nobody wrote to has nothing in it. */
  lemma NothingStored(steps: seq<Step>, s: bytes, lo: bytes)
    requires Runs(INIT, steps) && Final(INIT, steps).truth == map[] && s in Final(INIT, steps).dir
    requires Final(INIT, steps).dir[s].shard != 0
    requires forall rk :: InRoute(rk, lo, []) ==> Covers(Final(INIT, steps).dir, s, rk)
    ensures var w := Final(INIT, steps); Enumerates([], Span(RowsAt(w.rows, w.dir[s].shard), lo, []))
  {
    var w := Final(INIT, steps);
    hide Runs, Final, InRoute, Covers;
    InitInv();
    RunsKeep(INIT, steps);
    assert Disjoint(w.dir) && w.dir in w.seen;
    hide Inv, Disjoint;
    forall x | x in RowsAt(w.rows, w.dir[s].shard) ensures !InSpan(x, lo, [])
    {
      if InSpan(x, lo, []) {
        NoAckedWriteLost(steps, x, w.dir);
        OwnerIs(w.dir, s, RouteKeyOf(x).value);
      }
    }
    assert Span(RowsAt(w.rows, w.dir[s].shard), lo, []) == map[];
  }

  /** A run from nothing: the first shard is split at c, its new shard at d, and the middle range merged back. That
      lifts the first shard's fence beyond d too, so a client with the very first directory is accepted there again
      and its write is at no shard the directory names. */
  lemma FenceLiftedRun(c: Coll, d: Coll, it: seq<RawKV>) returns (steps: seq<Step>)
    requires Less(RouteKey(c), RouteKey(d))
    ensures Runs(INIT, steps)
    ensures var w, k, rk := Final(INIT, steps), RouteKey(c), RouteKey(d);
      && w.phase.Idle? && Partition(w.dir) && CanMerge(w.dir, [], k) && INIT.dir in w.seen
      && !Accepted(w, INIT.dir, rk) && Accepted(Merged(w, [], k, it), INIT.dir, rk)
      && OwnerOf(Merged(w, [], k, it).dir, rk) == FIRST_SHARD + 2 != OwnerOf(INIT.dir, rk)
  {
    hide RouteKey, Enumerates, Span, Runs, Final, Ingest, Filtered, Purge, Partition, Less;
    var k, rk := RouteKey(c), RouteKey(d);
    var j := FirstCut(c);
    RouteKeyNonEmpty(c);
    RouteKeyNonEmpty(d);
    FirstCutEnabled(INIT, c);
    NothingScanned(j.key, j.end);
    var head := SplitCompletes(INIT, j, []);
    var v := Final(INIT, head);
    assert v.dir == map[[] := Range(k, FIRST_SHARD), k := Range([], FIRST_SHARD + 1)];
    NothingStored(head, k, rk) by { forall x | InRoute(x, rk, []) ensures Covers(v.dir, k, x) { UpFrom(k, rk, x); } }
    var i := Job(k, rk, [], FIRST_SHARD + 1, FIRST_SHARD + 2);
    LessTotal(k, rk);
    assert Covers(v.dir, k, rk);
    assert MaxShard(v.dir, FIRST_SHARD + 1) by { assert v.dir[k].shard == FIRST_SHARD + 1; }
    var tail := SplitCompletes(v, i, []);
    RunsConcat(INIT, head, tail);
    steps := head + tail;
    SeenStays(INIT, steps, INIT.dir);
    IdlePartition(steps);
    TwiceSplit(Final(INIT, steps), k, rk, it);
  }

  lemma UpFrom(k: bytes, rk: bytes, x: bytes)
    requires Less(k, rk) && rk != [] && InRoute(x, rk, [])
    ensures Leq(k, x)
  {
    if rk != x { LessTransitive(k, rk, x); }
  }

  lemma TwiceSplit(w: World, k: bytes, rk: bytes, it: seq<RawKV>)
    requires k != [] && rk != [] && Less(k, rk) && Partition(w.dir)
    requires w.dir ==
      map[[] := Range(k, FIRST_SHARD), k := Range(rk, FIRST_SHARD + 1), rk := Range([], FIRST_SHARD + 2)]
    requires w.frozen == map[FIRST_SHARD := map[k := []], FIRST_SHARD + 1 := map[rk := []]]
    ensures CanMerge(w.dir, [], k) && !Accepted(w, INIT.dir, rk) && Accepted(Merged(w, [], k, it), INIT.dir, rk)
    ensures OwnerOf(Merged(w, [], k, it).dir, rk) == FIRST_SHARD + 2 != OwnerOf(INIT.dir, rk)
  {
    hide Ingest, Filtered, Purge, Less, Partition;
    LessTotal(k, rk);
    InitialPartition(FIRST_SHARD);
    assert Covers(INIT.dir, [], rk);
    OwnerIs(INIT.dir, [], rk);
    assert Blocks(w.frozen, FIRST_SHARD, k, rk);
    var m := Merged(w, [], k, it);
    assert FrozenAt(m.frozen, FIRST_SHARD) == map[];
    assert forall s :: !Blocks(m.frozen, FIRST_SHARD, s, rk);
    PartitionDisjoint(w.dir);
    assert Covers(w.dir, rk, rk);
    OwnerIs(w.dir, rk, rk);
    MergeOwners(w.dir, [], k, rk);
    assert !Covers(w.dir, k, rk);
  }
}
