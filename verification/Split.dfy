/** The online split as a protocol (control.go, freeze.go, migrate.go, meta.go). Clients write through any
    directory that was ever published, while one coordinator freezes a range, copies it to a new shard,
    cuts the directory over in two separate writes and purges the old copy; it may give up after any step
    and a later split starts from what it left. */
module Split {
  import opened Bytes
  import opened Codec
  import opened Rows
  import opened Directory
  import opened Migrate

  /** The split in progress: range [start, end) of shard src is cut at key; dst receives [key, end). */
  datatype Job = Job(start: bytes, key: bytes, end: bytes, src: nat, dst: nat)

  datatype Phase =
    | Idle
    | Started(j: Job)
    | Frozen(j: Job)
    | Copying(j: Job, kvs: seq<RawKV>, done: nat)
    | Shrunk(j: Job)
    | Published(j: Job)

  datatype Cut = Cut(key: bytes, end: bytes, shard: nat)

  /** rows and frozen: each shard's rows and effective freezes. dir: the meta shard's directory. seen:
      every directory ever published. The last four fields are history: the highest shard id named so
      far, the completed cut-overs, whether a split was given up between the two directory writes, and
      the rows that the acknowledged writes alone produce. */
  datatype World = World(
    rows: Stores, frozen: Freezes, dir: Dir, seen: set<Dir>, phase: Phase,
    top: nat, cuts: seq<Cut>, torn: bool, truth: Raw)

  type Stores = map<nat, Raw>
  type Freezes = map<nat, map<bytes, bytes>>

  ghost function RowsAt(rows: Stores, s: nat): Raw { if s in rows then rows[s] else map[] }

  ghost function FrozenAt(fz: Freezes, s: nat): map<bytes, bytes> { if s in fz then fz[s] else map[] }

  ghost predicate Blocks(fz: Freezes, s: nat, k: bytes, rk: bytes)
  {
    k in FrozenAt(fz, s) && InRoute(rk, k, FrozenAt(fz, s)[k])
  }

  /** frozenCovers on shard s. */
  ghost predicate Blocked(fz: Freezes, s: nat, rk: bytes)
  {
    exists k :: Blocks(fz, s, k, rk)
  }

  const FIRST_SHARD: nat := 2

  /** The shard that the last completed cut-over covering rk gave it to. */
  ghost function Home(cuts: seq<Cut>, rk: bytes): nat
  {
    if cuts == [] then FIRST_SHARD else
    var c := cuts[|cuts| - 1];
    if InRoute(rk, c.key, c.end) then c.shard else Home(cuts[..|cuts| - 1], rk)
  }

  // ---------------------------------------------------------------- steps

  datatype Step =
    | Write(d: Dir, rk: bytes, puts: Raw, dels: set<bytes>)
    | Start(j: Job)
    | CommitFreeze
    | Scan(kvs: seq<RawKV>)
    | IngestBatch
    | Shrink
    | Publish
    | PurgeOld
    | GiveUp

  function Written(m: Raw, puts: Raw, dels: set<bytes>): Raw { m + puts - dels }

  ghost predicate MaxShard(d: Dir, top: nat)
  {
    (forall s :: s in d ==> d[s].shard <= top) && exists s :: s in d && d[s].shard == top
  }

  ghost predicate Enabled(w: World, st: Step)
  {
    match st
    case Write(d, rk, puts, dels) =>
      && d in w.seen
      && (forall x :: x in puts || x in dels ==> RouteKeyOf(x) == Some(rk))
    case Start(j) =>
      && w.phase.Idle? && CanSplit(w.dir, j.start, j.key) && w.dir[j.start] == Range(j.end, j.src)
      && j.dst > 0 && MaxShard(w.dir, j.dst - 1)
    case CommitFreeze => w.phase.Started?
    case Scan(kvs) =>
      w.phase.Frozen? && Enumerates(kvs, Span(RowsAt(w.rows, w.phase.j.src), w.phase.j.key, w.phase.j.end))
    case IngestBatch => w.phase.Copying? && w.phase.done < |w.phase.kvs|
    case Shrink => w.phase.Copying? && w.phase.done >= |w.phase.kvs|
    case Publish => w.phase.Shrunk?
    case PurgeOld => w.phase.Published?
    case GiveUp => !w.phase.Idle?
  }

  /** A client write goes to the shard its directory names; a frozen routing key refuses it. */
  ghost predicate Accepted(w: World, d: Dir, rk: bytes)
  {
    OwnerOf(d, rk) != 0 && !Blocked(w.frozen, OwnerOf(d, rk), rk)
  }

  ghost function AfterWrite(w: World, d: Dir, rk: bytes, puts: Raw, dels: set<bytes>): World
  {
    var s := OwnerOf(d, rk);
    w.(rows := w.rows[s := Written(RowsAt(w.rows, s), puts, dels)], truth := Written(w.truth, puts, dels))
  }

  ghost function AfterIngest(w: World): World
    requires w.phase.Copying? && w.phase.done < |w.phase.kvs|
  {
    var kvs, n := w.phase.kvs, w.phase.done;
    var m := if n + INGEST_BATCH > |kvs| then |kvs| else n + INGEST_BATCH;
    w.(rows := w.rows[w.phase.j.dst := Ingest(RowsAt(w.rows, w.phase.j.dst), kvs[n..m])],
       phase := w.phase.(done := m))
  }

  ghost function Redirected(w: World, s: bytes, e: bytes, shard: nat): World
  {
    var d := ApplyRange(w.dir, MetaPut(s, e, shard));
    w.(dir := d, seen := w.seen + {d})
  }

  ghost function After(w: World, st: Step): World
    requires Enabled(w, st)
  {
    match st
    case Write(d, rk, puts, dels) => if Accepted(w, d, rk) then AfterWrite(w, d, rk, puts, dels) else w
    case Start(j) => w.(phase := Started(j))
    case CommitFreeze =>
      var j := w.phase.j;
      w.(frozen := w.frozen[j.src := FrozenAt(w.frozen, j.src)[j.key := j.end]], phase := Phase.Frozen(j))
    case Scan(kvs) => w.(phase := Copying(w.phase.j, kvs, 0))
    case IngestBatch => AfterIngest(w)
    case Shrink =>
      var j := w.phase.j;
      Redirected(w, j.start, j.key, j.src).(phase := Shrunk(j))
    case Publish =>
      var j := w.phase.j;
      Redirected(w, j.key, j.end, j.dst)
        .(phase := Published(j), top := j.dst, cuts := w.cuts + [Cut(j.key, j.end, j.dst)])
    case PurgeOld =>
      var j := w.phase.j;
      w.(rows := w.rows[j.src := Purge(RowsAt(w.rows, j.src), j.key, j.end)], phase := Idle)
    case GiveUp => w.(phase := Idle, torn := w.torn || w.phase.Shrunk?)
  }

  // ---------------------------------------------------------------- the invariant

  /** Published directories name only shards up to top, one per routing key. */
  ghost predicate DirsOk(dir: Dir, seen: set<Dir>, top: nat)
  {
    && dir in seen && Proper(dir) && MaxShard(dir, top)
    && (forall d :: d in seen ==> Disjoint(d))
    && (forall d: Dir, s :: d in seen && s in d ==> 0 < d[s].shard <= top)
  }

  ghost predicate CutsOk(cuts: seq<Cut>, top: nat)
  {
    FIRST_SHARD <= top && forall i :: 0 <= i < |cuts| ==> cuts[i].shard <= top
  }

  /** The current directory sends a routing key home. */
  ghost predicate RoutedHome(dir: Dir, cuts: seq<Cut>)
  {
    forall s, rk :: Covers(dir, s, rk) ==> dir[s].shard == Home(cuts, rk)
  }

  ghost predicate Fence(dir: Dir, fz: Freezes, s: nat, k: bytes, rk: bytes) { k in dir && Blocks(fz, s, k, rk) }

  ghost predicate FencedOff(dir: Dir, fz: Freezes, s: nat, rk: bytes) { exists k :: Fence(dir, fz, s, k, rk) }

  /** A stale directory that sends it elsewhere meets a freeze that no later split can move. */
  ghost predicate StaleFenced(dir: Dir, fz: Freezes, seen: set<Dir>, cuts: seq<Cut>)
  {
    forall d: Dir, s, rk :: d in seen && Covers(d, s, rk) ==>
      d[s].shard == Home(cuts, rk) || FencedOff(dir, fz, d[s].shard, rk)
  }

  /** At home, the stored rows are those of the acknowledged writes. */
  ghost predicate StoredHome(rows: Stores, cuts: seq<Cut>, truth: Raw)
  {
    forall x :: RouteKeyOf(x).Some? ==> Same(RowsAt(rows, Home(cuts, RouteKeyOf(x).value)), truth, x)
  }

  ghost predicate Guard(dir: Dir, fz: Freezes, s: bytes, k: bytes, rk: bytes)
  {
    s in dir && Leq(s, k) && Blocks(fz, dir[s].shard, k, rk)
  }

  ghost predicate Guarded(dir: Dir, fz: Freezes, s: bytes, rk: bytes) { exists k :: Guard(dir, fz, s, k, rk) }

  /** A copy left in the next shard by an abandoned split is still exact while a range covers it. */
  ghost predicate LeftoverOk(next: Raw, truth: Raw, dir: Dir, fz: Freezes, x: bytes, s: bytes)
  {
    RouteKeyOf(x).Some? && Covers(dir, s, RouteKeyOf(x).value) ==>
      Same(next, truth, x) && Guarded(dir, fz, s, RouteKeyOf(x).value)
  }

  ghost predicate LeftoversOk(next: Raw, truth: Raw, dir: Dir, fz: Freezes)
  {
    forall x, s :: x in next && s in dir ==> LeftoverOk(next, truth, dir, fz, x, s)
  }

  ghost predicate Unused(rows: Stores, top: nat)
  {
    forall n: nat :: n > top + 1 ==> RowsAt(rows, n) == map[]
  }

  /** The job's range is intact, and its key lies strictly inside. */
  ghost predicate Pending(dir: Dir, top: nat, j: Job)
  {
    CanSplit(dir, j.start, j.key) && dir[j.start] == Range(j.end, j.src) && j.dst == top + 1
  }

  ghost predicate Fixed(fz: Freezes, j: Job)
  {
    j.key in FrozenAt(fz, j.src) && FrozenAt(fz, j.src)[j.key] == j.end
  }

  ghost predicate HomeIs(cuts: seq<Cut>, j: Job, s: nat)
  {
    forall rk :: InRoute(rk, j.key, j.end) ==> Home(cuts, rk) == s
  }

  ghost predicate Copied(next: Raw, truth: Raw, j: Job)
  {
    forall x :: InSpan(x, j.key, j.end) ==> Same(next, truth, x)
  }

  /** Between the two directory writes nothing covers the job's range. */
  ghost predicate Hole(dir: Dir, j: Job)
  {
    && j.start in dir && dir[j.start] == Range(j.key, j.src)
    && (forall s, rk :: Covers(dir, s, rk) ==> !InRoute(rk, j.key, j.end))
    && (j.end == [] || Less(j.key, j.end)) && j.key != []
    && j.key !in dir
  }

  ghost predicate Progress(next: Raw, kvs: seq<RawKV>, done: nat)
  {
    done <= |kvs| && forall i :: 0 <= i < done ==> kvs[i].suffix in next
  }

  ghost predicate PhaseOk(w: World)
  {
    match w.phase
    case Idle => true
    case Started(j) => Pending(w.dir, w.top, j)
    case Frozen(j) => Pending(w.dir, w.top, j) && Fixed(w.frozen, j)
    case Copying(j, kvs, done) =>
      && Pending(w.dir, w.top, j) && Fixed(w.frozen, j)
      && Enumerates(kvs, Span(w.truth, j.key, j.end)) && Progress(RowsAt(w.rows, j.dst), kvs, done)
    case Shrunk(j) =>
      && j.dst == w.top + 1 && Fixed(w.frozen, j) && Hole(w.dir, j)
      && HomeIs(w.cuts, j, j.src) && Copied(RowsAt(w.rows, j.dst), w.truth, j)
    case Published(j) => j.src < j.dst == w.top && HomeIs(w.cuts, j, j.dst)
  }

  /** No routing key is without a shard, but for a split between its two directory writes. */
  ghost predicate WholeAt(dir: Dir, phase: Phase, rk: bytes)
  {
    Routed(dir, rk) || (phase.Shrunk? && InRoute(rk, phase.j.key, phase.j.end))
  }

  ghost predicate Whole(dir: Dir, phase: Phase, torn: bool) { torn || forall rk :: WholeAt(dir, phase, rk) }

  /** rk has no shard, and no split under way is about to give it one. */
  ghost predicate LostAt(dir: Dir, phase: Phase, rk: bytes)
  {
    !Routed(dir, rk) && !(phase.Shrunk? && InRoute(rk, phase.j.key, phase.j.end))
  }

  /** A split given up between its two directory writes leaves some routing key without a shard for good. */
  ghost predicate TornOk(dir: Dir, phase: Phase, torn: bool) { torn ==> exists rk :: LostAt(dir, phase, rk) }

  ghost predicate Inv(w: World)
  {
    && TornOk(w.dir, w.phase, w.torn)
    && DirsOk(w.dir, w.seen, w.top) && CutsOk(w.cuts, w.top)
    && RoutedHome(w.dir, w.cuts) && StaleFenced(w.dir, w.frozen, w.seen, w.cuts)
    && StoredHome(w.rows, w.cuts, w.truth)
    && Unused(w.rows, w.top) && LeftoversOk(RowsAt(w.rows, w.top + 1), w.truth, w.dir, w.frozen)
    && PhaseOk(w) && Whole(w.dir, w.phase, w.torn)
  }

  const INIT: World := World(map[], map[], map[[] := Range([], FIRST_SHARD)], {map[[] := Range([], FIRST_SHARD)]},
                             Idle, FIRST_SHARD, [], false, map[])

  lemma InitInv()
    ensures Inv(INIT)
  {
    InitialPartition(FIRST_SHARD);
    assert FIRST_SHARD == INIT.dir[[]].shard;
    forall rk ensures WholeAt(INIT.dir, INIT.phase, rk) { assert Routed(INIT.dir, rk); }
  }

  lemma {:induction false} HomeBound(cuts: seq<Cut>, top: nat, rk: bytes)
    requires CutsOk(cuts, top)
    ensures Home(cuts, rk) <= top
  {
    if cuts != [] { HomeBound(cuts[..|cuts| - 1], top, rk); }
  }

  /** A pending job's range lives on its source shard. */
  lemma PendingHome(dir: Dir, top: nat, cuts: seq<Cut>, j: Job)
    requires Pending(dir, top, j) && RoutedHome(dir, cuts) && Disjoint(dir) && Proper(dir)
    ensures HomeIs(cuts, j, j.src)
    ensures forall rk :: InRoute(rk, j.key, j.end) ==> Covers(dir, j.start, rk)
  {
    hide Home, InRoute;
    forall rk | InRoute(rk, j.key, j.end) ensures Covers(dir, j.start, rk)
    {
      SplitCovers(dir, j.start, j.key, j.dst, j.start, rk);
    }
  }

  /** Moving on in a split changes nothing about who has a shard, but for the two directory writes. */
  lemma PhaseMoves(dir: Dir, a: Phase, b: Phase, torn: bool)
    requires Whole(dir, a, torn) && TornOk(dir, a, torn) && !a.Shrunk? && !b.Shrunk?
    ensures Whole(dir, b, torn) && TornOk(dir, b, torn)
  {
    hide Routed;
    if torn {
      var rk :| LostAt(dir, a, rk);
      assert LostAt(dir, b, rk);
    } else {
      forall rk ensures WholeAt(dir, b, rk) { assert WholeAt(dir, a, rk); }
    }
  }

  lemma KeepUnused(rows: Stores, top: nat, s: nat, m: Raw)
    requires Unused(rows, top) && s <= top + 1
    ensures Unused(rows[s := m], top)
  {
    var rows' := rows[s := m];
    forall n: nat | n > top + 1 ensures RowsAt(rows', n) == map[] { assert RowsAt(rows, n) == map[]; }
  }

  // ---------------------------------------------------------------- client writes

  /** An accepted write lands at home, and home has not frozen its routing key. */
  lemma AcceptedAtHome(w: World, d: Dir, rk: bytes)
    requires Inv(w) && d in w.seen && Accepted(w, d, rk)
    ensures OwnerOf(d, rk) == Home(w.cuts, rk) <= w.top
    ensures !Blocked(w.frozen, Home(w.cuts, rk), rk)
  {
    hide InRoute, Home, StoredHome, LeftoversOk, PhaseOk, Whole, RoutedHome, Blocks;
    assert Routed(d, rk);
    var s :| Covers(d, s, rk);
    InDir(d, s, rk);
    OwnerIs(d, s, rk);
  }

  lemma WriteStored(rows: Stores, cuts: seq<Cut>, truth: Raw, rk: bytes, puts: Raw, dels: set<bytes>)
    requires StoredHome(rows, cuts, truth)
    requires forall x :: x in puts || x in dels ==> RouteKeyOf(x) == Some(rk)
    ensures var s := Home(cuts, rk);
      StoredHome(rows[s := Written(RowsAt(rows, s), puts, dels)], cuts, Written(truth, puts, dels))
  {
    hide Home, RouteKeyOf;
  }

  lemma WriteLeftovers(next: Raw, truth: Raw, dir: Dir, fz: Freezes, cuts: seq<Cut>, rk: bytes, puts: Raw,
                       dels: set<bytes>)
    requires LeftoversOk(next, truth, dir, fz) && RoutedHome(dir, cuts) && !Blocked(fz, Home(cuts, rk), rk)
    requires forall x :: x in puts || x in dels ==> RouteKeyOf(x) == Some(rk)
    ensures LeftoversOk(next, Written(truth, puts, dels), dir, fz)
  {
    hide Home, RouteKeyOf, Blocks, Covers;
    var truth' := Written(truth, puts, dels);
    forall x, s | x in next && s in dir ensures LeftoverOk(next, truth', dir, fz, x, s)
    {
      assert LeftoverOk(next, truth, dir, fz, x, s);
    }
  }

  /** While the source has the job's range frozen, no accepted write falls into it. */
  lemma FrozenOut(fz: Freezes, cuts: seq<Cut>, j: Job, rk: bytes)
    requires Fixed(fz, j) && HomeIs(cuts, j, j.src) && !Blocked(fz, Home(cuts, rk), rk)
    ensures !InRoute(rk, j.key, j.end)
  {
    hide Home, InRoute;
    assert InRoute(rk, j.key, j.end) ==> Blocks(fz, j.src, j.key, rk);
  }

  lemma WriteElsewhere(truth: Raw, j: Job, rk: bytes, puts: Raw, dels: set<bytes>)
    requires !InRoute(rk, j.key, j.end)
    requires forall x :: x in puts || x in dels ==> RouteKeyOf(x) == Some(rk)
    ensures Span(Written(truth, puts, dels), j.key, j.end) == Span(truth, j.key, j.end)
    ensures forall x :: InSpan(x, j.key, j.end) ==> Same(truth, Written(truth, puts, dels), x)
  {
    hide InRoute, RouteKeyOf;
  }

  lemma WritePhase(w: World, d: Dir, rk: bytes, puts: Raw, dels: set<bytes>)
    requires Inv(w) && Enabled(w, Write(d, rk, puts, dels)) && Accepted(w, d, rk)
    ensures PhaseOk(AfterWrite(w, d, rk, puts, dels))
  {
    hide Home, InRoute, RouteKeyOf, Covers, StaleFenced, StoredHome, LeftoversOk, Whole, Accepted, OwnerOf, Span,
      Enumerates, InSpan, Written, CanSplit, Blocked;
    AcceptedAtHome(w, d, rk);
    if w.phase.Copying? {
      PendingHome(w.dir, w.top, w.cuts, w.phase.j);
    }
    if w.phase.Copying? || w.phase.Shrunk? {
      FrozenOut(w.frozen, w.cuts, w.phase.j, rk);
      WriteElsewhere(w.truth, w.phase.j, rk, puts, dels);
    }
  }

  lemma WriteKeeps(w: World, d: Dir, rk: bytes, puts: Raw, dels: set<bytes>)
    requires Inv(w) && Enabled(w, Write(d, rk, puts, dels))
    ensures Inv(After(w, Write(d, rk, puts, dels)))
  {
    hide Home, InRoute, RouteKeyOf, Covers, StaleFenced, StoredHome, LeftoversOk, Whole, Accepted, OwnerOf, PhaseOk,
      DirsOk, CutsOk, RoutedHome, Blocked, Written;
    if Accepted(w, d, rk) {
      AcceptedAtHome(w, d, rk);
      WriteStored(w.rows, w.cuts, w.truth, rk, puts, dels);
      WriteLeftovers(RowsAt(w.rows, w.top + 1), w.truth, w.dir, w.frozen, w.cuts, rk, puts, dels);
      WritePhase(w, d, rk, puts, dels);
      var w' := After(w, Write(d, rk, puts, dels));
      assert RowsAt(w'.rows, w.top + 1) == RowsAt(w.rows, w.top + 1);
      KeepUnused(w.rows, w.top, OwnerOf(d, rk), RowsAt(w'.rows, OwnerOf(d, rk)));
    }
  }

  // ---------------------------------------------------------------- freeze, scan, ingest

  lemma StartKeeps(w: World, j: Job)
    requires Inv(w) && Enabled(w, Start(j))
    ensures Inv(After(w, Start(j)))
  {
    hide Home, InRoute, RouteKeyOf, Covers, StaleFenced, StoredHome, LeftoversOk, RoutedHome, CanSplit;
    PhaseMoves(w.dir, w.phase, Started(j), w.torn);
  }

  ghost function Refrozen(fz: Freezes, j: Job): Freezes { fz[j.src := FrozenAt(fz, j.src)[j.key := j.end]] }

  /** A freeze under a key that no range starts at removes no fence. */
  lemma FreezeFences(dir: Dir, fz: Freezes, seen: set<Dir>, cuts: seq<Cut>, j: Job)
    requires StaleFenced(dir, fz, seen, cuts) && j.key !in dir
    ensures StaleFenced(dir, Refrozen(fz, j), seen, cuts)
  {
    hide Home, InRoute, Covers;
    forall d: Dir, s, rk | d in seen && s in d && Covers(d, s, rk)
      ensures d[s].shard == Home(cuts, rk) || FencedOff(dir, Refrozen(fz, j), d[s].shard, rk)
    {
      if d[s].shard != Home(cuts, rk) {
        var k :| Fence(dir, fz, d[s].shard, k, rk);
        assert Fence(dir, Refrozen(fz, j), d[s].shard, k, rk);
      }
    }
    forall d: Dir, s, rk | d in seen && Covers(d, s, rk) ensures s in d { InDir(d, s, rk); }
  }

  /** A guard that the freeze overwrites guards the same range, up to its current end. */
  lemma FreezeGuard(dir: Dir, top: nat, fz: Freezes, j: Job, s: bytes, k: bytes, rk: bytes)
    requires Disjoint(dir) && Pending(dir, top, j) && Guard(dir, fz, s, k, rk) && Covers(dir, s, rk)
    ensures Guard(dir, Refrozen(fz, j), s, k, rk)
  {
    if k == j.key && dir[s].shard == j.src {
      if dir[s].end != [] {
        LessTotal(k, rk);
        if k != rk { LessTransitive(k, rk, dir[s].end); }
      }
      assert Covers(dir, s, j.key);
    }
  }

  lemma FreezeLeftovers(next: Raw, truth: Raw, dir: Dir, top: nat, fz: Freezes, j: Job)
    requires LeftoversOk(next, truth, dir, fz) && Disjoint(dir) && Pending(dir, top, j)
    ensures LeftoversOk(next, truth, dir, Refrozen(fz, j))
  {
    hide InRoute, Covers, RouteKeyOf, Pending, Disjoint, Guard, Refrozen, Same;
    forall x, s | x in next && s in dir ensures LeftoverOk(next, truth, dir, Refrozen(fz, j), x, s)
    {
      assert LeftoverOk(next, truth, dir, fz, x, s);
      if RouteKeyOf(x).Some? && Covers(dir, s, RouteKeyOf(x).value) {
        var k :| Guard(dir, fz, s, k, RouteKeyOf(x).value);
        FreezeGuard(dir, top, fz, j, s, k, RouteKeyOf(x).value);
      }
    }
  }

  lemma FreezeKeeps(w: World)
    requires Inv(w) && Enabled(w, CommitFreeze)
    ensures Inv(After(w, CommitFreeze))
  {
    hide Home, InRoute, RouteKeyOf, Covers, StaleFenced, StoredHome, LeftoversOk, RoutedHome;
    var j := w.phase.j;
    FreshStart(w.dir, j.start, j.key);
    FreezeFences(w.dir, w.frozen, w.seen, w.cuts, j);
    FreezeLeftovers(RowsAt(w.rows, w.top + 1), w.truth, w.dir, w.top, w.frozen, j);
    PhaseMoves(w.dir, w.phase, Phase.Frozen(j), w.torn);
  }

  /** After the freeze the source's rows of the range are those of the acknowledged writes. */
  lemma ScannedIsTruth(w: World, j: Job)
    requires StoredHome(w.rows, w.cuts, w.truth) && HomeIs(w.cuts, j, j.src)
    ensures Span(RowsAt(w.rows, j.src), j.key, j.end) == Span(w.truth, j.key, j.end)
  {
    hide Home, InRoute, RouteKeyOf;
    var a, b := RowsAt(w.rows, j.src), w.truth;
    forall x | InSpan(x, j.key, j.end) ensures Same(a, b, x)
    {
      assert Same(RowsAt(w.rows, Home(w.cuts, RouteKeyOf(x).value)), w.truth, x);
    }
  }

  lemma ScanKeeps(w: World, kvs: seq<RawKV>)
    requires Inv(w) && Enabled(w, Scan(kvs))
    ensures Inv(After(w, Scan(kvs)))
  {
    hide Home, InRoute, RouteKeyOf, Covers, StaleFenced, StoredHome, LeftoversOk, RoutedHome, Enumerates, Span,
      CanSplit;
    var j := w.phase.j;
    PendingHome(w.dir, w.top, w.cuts, j);
    ScannedIsTruth(w, j);
    PhaseMoves(w.dir, w.phase, Copying(j, kvs, 0), w.torn);
  }

  lemma IngestLeftovers(next: Raw, truth: Raw, dir: Dir, top: nat, fz: Freezes, cuts: seq<Cut>, j: Job,
                        kvs: seq<RawKV>, n: nat, m: nat)
    requires LeftoversOk(next, truth, dir, fz) && Disjoint(dir) && Proper(dir) && RoutedHome(dir, cuts)
    requires Pending(dir, top, j) && Fixed(fz, j) && n <= m <= |kvs| && Enumerates(kvs, Span(truth, j.key, j.end))
    ensures LeftoversOk(Ingest(next, kvs[n..m]), truth, dir, fz)
  {
    PendingHome(dir, top, cuts, j);
    assert Leq(j.start, j.key);
    hide Home, InRoute, Covers, RouteKeyOf, Ingest, Proper, RoutedHome, Leq, CanSplit;
    var next' := Ingest(next, kvs[n..m]);
    forall x, s | x in next' && s in dir ensures LeftoverOk(next', truth, dir, fz, x, s)
    {
      IngestRow(next, kvs[n..m], x);
      if i :| 0 <= i < m - n && kvs[n..m][i].suffix == x {
        assert kvs[n + i].suffix == x;
        assert InSpan(x, j.key, j.end);
        if Covers(dir, s, RouteKeyOf(x).value) {
          assert s == j.start;
          assert Guard(dir, fz, s, j.key, RouteKeyOf(x).value);
        }
      } else {
        assert LeftoverOk(next, truth, dir, fz, x, s);
      }
    }
  }

  lemma IngestProgress(next: Raw, kvs: seq<RawKV>, n: nat, m: nat)
    requires Progress(next, kvs, n) && n <= m <= |kvs|
    ensures Progress(Ingest(next, kvs[n..m]), kvs, m)
  {
    hide Ingest;
    forall i | 0 <= i < m ensures kvs[i].suffix in Ingest(next, kvs[n..m])
    {
      IngestRow(next, kvs[n..m], kvs[i].suffix);
      if i >= n { assert kvs[n..m][i - n] == kvs[i]; }
    }
  }

  lemma IngestStored(w: World, s: nat, next: Raw)
    requires StoredHome(w.rows, w.cuts, w.truth) && CutsOk(w.cuts, w.top) && s > w.top
    ensures StoredHome(w.rows[s := next], w.cuts, w.truth)
  {
    hide Home, RouteKeyOf, Same;
    forall x | RouteKeyOf(x).Some?
      ensures Same(RowsAt(w.rows[s := next], Home(w.cuts, RouteKeyOf(x).value)), w.truth, x)
    {
      HomeBound(w.cuts, w.top, RouteKeyOf(x).value);
    }
  }

  lemma IngestKeeps(w: World)
    requires Inv(w) && Enabled(w, IngestBatch)
    ensures Inv(After(w, IngestBatch))
  {
    hide Home, InRoute, RouteKeyOf, Covers, StaleFenced, StoredHome, LeftoversOk, RoutedHome, Enumerates, Span,
      CanSplit, Progress, Ingest;
    var j, kvs, n := w.phase.j, w.phase.kvs, w.phase.done;
    var w' := After(w, IngestBatch);
    var m := w'.phase.done;
    assert n <= |kvs| by { assert Progress(RowsAt(w.rows, j.dst), kvs, n); }
    KeepUnused(w.rows, w.top, j.dst, RowsAt(w'.rows, j.dst));
    IngestStored(w, j.dst, RowsAt(w'.rows, j.dst));
    IngestProgress(RowsAt(w.rows, j.dst), kvs, n, m);
    IngestLeftovers(RowsAt(w.rows, j.dst), w.truth, w.dir, w.top, w.frozen, w.cuts, j, kvs, n, m);
    PhaseMoves(w.dir, w.phase, w'.phase, w.torn);
  }

  // ---------------------------------------------------------------- the two directory writes

  /** The first write takes [key, end) away from the range and changes nothing else. */
  lemma ShrinkCovers(dir: Dir, top: nat, j: Job, t: bytes, rk: bytes)
    requires Disjoint(dir) && Proper(dir) && Pending(dir, top, j)
    ensures Covers(dir[j.start := Range(j.key, j.src)], t, rk) <==> Covers(dir, t, rk) && !InRoute(rk, j.key, j.end)
  {
    FreshStart(dir, j.start, j.key);
    SplitCovers(dir, j.start, j.key, j.dst, t, rk);
    SplitCovers(dir, j.start, j.key, j.dst, j.start, rk);
    hide InRoute;
    assert Covers(dir, t, rk) && Covers(dir, j.start, rk) ==> t == j.start;
  }

  lemma ShrinkDirs(dir: Dir, seen: set<Dir>, top: nat, j: Job)
    requires DirsOk(dir, seen, top) && Pending(dir, top, j)
    ensures var d' := dir[j.start := Range(j.key, j.src)]; DirsOk(d', seen + {d'}, top) && Hole(d', j)
  {
    var d' := dir[j.start := Range(j.key, j.src)];
    FreshStart(dir, j.start, j.key);
    SplitOrder(dir, j.start, j.key);
    assert Proper(d');
    hide InRoute, Less, Leq, Covers;
    forall t, rk ensures Covers(d', t, rk) <==> Covers(dir, t, rk) && !InRoute(rk, j.key, j.end)
    {
      ShrinkCovers(dir, top, j, t, rk);
    }
    assert Disjoint(d');
    var s :| s in dir && dir[s].shard == top;
    assert s in d' && d'[s].shard == top;
  }

  /** A directory that covers less, with the same shards, keeps fences and leftovers. */
  lemma ShrinkFences(dir: Dir, d': Dir, fz: Freezes, seen: set<Dir>, cuts: seq<Cut>)
    requires RoutedHome(dir, cuts) && StaleFenced(dir, fz, seen, cuts) && d'.Keys == dir.Keys
    requires forall t, rk :: Covers(d', t, rk) ==> Covers(dir, t, rk)
    requires forall t :: t in dir ==> d'[t].shard == dir[t].shard
    ensures RoutedHome(d', cuts) && StaleFenced(d', fz, seen + {d'}, cuts)
  {
    hide Home, Covers, Blocks;
    forall t, rk | Covers(d', t, rk) ensures t in d' && d'[t].shard == Home(cuts, rk) { InDir(d', t, rk); }
    forall d: Dir, s, rk | d in seen && s in d && Covers(d, s, rk)
      ensures d[s].shard == Home(cuts, rk) || FencedOff(d', fz, d[s].shard, rk)
    {
      if d[s].shard != Home(cuts, rk) {
        var k :| Fence(dir, fz, d[s].shard, k, rk);
        assert Fence(d', fz, d[s].shard, k, rk);
      }
    }
    forall d: Dir, s, rk | d in seen && Covers(d, s, rk) ensures s in d { InDir(d, s, rk); }
  }

  lemma ShrinkLeftovers(next: Raw, truth: Raw, dir: Dir, d': Dir, fz: Freezes)
    requires LeftoversOk(next, truth, dir, fz) && d'.Keys == dir.Keys
    requires forall t, rk :: Covers(d', t, rk) ==> Covers(dir, t, rk)
    requires forall t :: t in dir ==> d'[t].shard == dir[t].shard
    ensures LeftoversOk(next, truth, d', fz)
  {
    hide Covers, Blocks, RouteKeyOf, Same;
    forall x, s | x in next && s in d' ensures LeftoverOk(next, truth, d', fz, x, s)
    {
      assert LeftoverOk(next, truth, dir, fz, x, s);
      if RouteKeyOf(x).Some? && Covers(d', s, RouteKeyOf(x).value) {
        var k :| Guard(dir, fz, s, k, RouteKeyOf(x).value);
        assert Guard(d', fz, s, k, RouteKeyOf(x).value);
      }
    }
  }

  /** Once every scanned row is ingested, the new shard agrees with the acknowledged writes on the range. */
  lemma CopyComplete(next: Raw, truth: Raw, dir: Dir, top: nat, fz: Freezes, cuts: seq<Cut>, j: Job, kvs: seq<RawKV>)
    requires LeftoversOk(next, truth, dir, fz) && Disjoint(dir) && Proper(dir) && RoutedHome(dir, cuts)
    requires Pending(dir, top, j) && Enumerates(kvs, Span(truth, j.key, j.end)) && Progress(next, kvs, |kvs|)
    ensures Copied(next, truth, j)
  {
    PendingHome(dir, top, cuts, j);
    hide Home, InRoute, Covers, RouteKeyOf, Proper, RoutedHome, CanSplit;
    var m := Span(truth, j.key, j.end);
    forall x | InSpan(x, j.key, j.end) ensures Same(next, truth, x)
    {
      if x in truth {
        assert RawKV(x, m[x]) in kvs;
        var i :| 0 <= i < |kvs| && kvs[i] == RawKV(x, m[x]);
        assert kvs[i].suffix in next;
      }
      if x in next { assert LeftoverOk(next, truth, dir, fz, x, j.start); }
    }
  }

  lemma ShrinkWhole(dir: Dir, seen: set<Dir>, top: nat, j: Job, kvs: seq<RawKV>, done: nat, torn: bool)
    requires DirsOk(dir, seen, top) && Pending(dir, top, j) && Whole(dir, Copying(j, kvs, done), torn)
    ensures Whole(dir[j.start := Range(j.key, j.src)], Shrunk(j), torn)
  {
    hide InRoute, Covers, Pending;
    var d' := dir[j.start := Range(j.key, j.src)];
    forall rk | !torn ensures WholeAt(d', Shrunk(j), rk)
    {
      assert WholeAt(dir, Copying(j, kvs, done), rk);
      var t :| Covers(dir, t, rk);
      ShrinkCovers(dir, top, j, t, rk);
    }
  }

  lemma ShrinkTorn(dir: Dir, top: nat, cuts: seq<Cut>, j: Job, kvs: seq<RawKV>, done: nat, torn: bool)
    requires Disjoint(dir) && Proper(dir) && RoutedHome(dir, cuts) && Pending(dir, top, j)
    requires TornOk(dir, Copying(j, kvs, done), torn)
    ensures TornOk(dir[j.start := Range(j.key, j.src)], Shrunk(j), torn)
  {
    PendingHome(dir, top, cuts, j);
    hide InRoute, Covers, Pending, RoutedHome, Disjoint, Proper;
    if torn {
      var d' := dir[j.start := Range(j.key, j.src)];
      var rk :| LostAt(dir, Copying(j, kvs, done), rk);
      forall t ensures !Covers(d', t, rk) { ShrinkCovers(dir, top, j, t, rk); }
      assert LostAt(d', Shrunk(j), rk);
    }
  }

  lemma ShrinkFacts(w: World)
    requires Inv(w) && Enabled(w, Shrink)
    ensures w.phase.done == |w.phase.kvs| && Disjoint(w.dir) && Proper(w.dir) && w.phase.j.dst == w.top + 1
    ensures var j := w.phase.j; var d' := w.dir[j.start := Range(j.key, j.src)];
      d'.Keys == w.dir.Keys && forall t :: t in w.dir ==> d'[t].shard == w.dir[t].shard
  {
    hide RoutedHome, StaleFenced, StoredHome, Unused, LeftoversOk, Whole, Enumerates, Span, Fixed;
  }

  lemma ShrinkKeeps(w: World)
    requires Inv(w) && Enabled(w, Shrink)
    ensures Inv(After(w, Shrink))
  {
    hide Home, InRoute, RouteKeyOf, Covers, StaleFenced, StoredHome, LeftoversOk, RoutedHome, Enumerates, Span, Hole,
      Progress, Pending, Fixed, Whole, Unused, CutsOk, Copied, DirsOk, Disjoint, Proper, HomeIs, TornOk;
    ShrinkFacts(w);
    var j, kvs := w.phase.j, w.phase.kvs;
    var d' := w.dir[j.start := Range(j.key, j.src)];
    forall t, rk | Covers(d', t, rk) ensures Covers(w.dir, t, rk) { ShrinkCovers(w.dir, w.top, j, t, rk); }
    PendingHome(w.dir, w.top, w.cuts, j);
    ShrinkDirs(w.dir, w.seen, w.top, j);
    ShrinkFences(w.dir, d', w.frozen, w.seen, w.cuts);
    ShrinkLeftovers(RowsAt(w.rows, w.top + 1), w.truth, w.dir, d', w.frozen);
    CopyComplete(RowsAt(w.rows, w.top + 1), w.truth, w.dir, w.top, w.frozen, w.cuts, j, kvs);
    ShrinkWhole(w.dir, w.seen, w.top, j, kvs, w.phase.done, w.torn);
    ShrinkTorn(w.dir, w.top, w.cuts, j, kvs, w.phase.done, w.torn);
  }

  /** The second write adds exactly [key, end). */
  lemma PublishCovers(dir: Dir, j: Job, t: bytes, rk: bytes)
    requires Hole(dir, j)
    ensures Covers(dir[j.key := Range(j.end, j.dst)], t, rk) <==>
      if t == j.key then InRoute(rk, j.key, j.end) else Covers(dir, t, rk)
  {
  }

  lemma PublishDirs(dir: Dir, seen: set<Dir>, top: nat, j: Job)
    requires DirsOk(dir, seen, top) && Hole(dir, j) && j.dst == top + 1
    ensures var d' := dir[j.key := Range(j.end, j.dst)]; DirsOk(d', seen + {d'}, j.dst)
  {
    var d' := dir[j.key := Range(j.end, j.dst)];
    assert Proper(d');
    forall t, rk ensures Covers(d', t, rk) <==> if t == j.key then InRoute(rk, j.key, j.end) else Covers(dir, t, rk)
    {
      PublishCovers(dir, j, t, rk);
    }
    hide InRoute, Less, Leq, Covers;
    assert Disjoint(d');
    assert j.key in d' && d'[j.key].shard == j.dst;
  }

  lemma PublishHome(cuts: seq<Cut>, j: Job, rk: bytes)
    ensures Home(cuts + [Cut(j.key, j.end, j.dst)], rk) == if InRoute(rk, j.key, j.end) then j.dst else Home(cuts, rk)
  {
    var cs := cuts + [Cut(j.key, j.end, j.dst)];
    assert cs[..|cs| - 1] == cuts;
  }

  lemma PublishRoutes(dir: Dir, cuts: seq<Cut>, j: Job)
    requires RoutedHome(dir, cuts) && Hole(dir, j)
    ensures RoutedHome(dir[j.key := Range(j.end, j.dst)], cuts + [Cut(j.key, j.end, j.dst)])
  {
    hide Home, InRoute, Covers;
    var d' := dir[j.key := Range(j.end, j.dst)];
    forall t, rk | Covers(d', t, rk)
      ensures t in d' && d'[t].shard == Home(cuts + [Cut(j.key, j.end, j.dst)], rk)
    {
      InDir(d', t, rk);
      PublishCovers(dir, j, t, rk);
      PublishHome(cuts, j, rk);
    }
  }

  /** A directory published before the cut-over sends the moved range to the source, which fences it. */
  lemma PublishFence(dir: Dir, fz: Freezes, cuts: seq<Cut>, j: Job, s: nat, rk: bytes)
    requires s == Home(cuts, rk) || FencedOff(dir, fz, s, rk)
    requires Fixed(fz, j) && HomeIs(cuts, j, j.src)
    ensures s == Home(cuts + [Cut(j.key, j.end, j.dst)], rk) || FencedOff(dir[j.key := Range(j.end, j.dst)], fz, s, rk)
  {
    hide Home, InRoute;
    var d' := dir[j.key := Range(j.end, j.dst)];
    PublishHome(cuts, j, rk);
    if s == Home(cuts, rk) {
      if InRoute(rk, j.key, j.end) { assert Fence(d', fz, s, j.key, rk); }
    } else {
      var k :| Fence(dir, fz, s, k, rk);
      assert Fence(d', fz, s, k, rk);
    }
  }

  lemma PublishFences(dir: Dir, fz: Freezes, seen: set<Dir>, cuts: seq<Cut>, j: Job)
    requires StaleFenced(dir, fz, seen, cuts) && RoutedHome(dir, cuts) && Hole(dir, j)
    requires Fixed(fz, j) && HomeIs(cuts, j, j.src)
    ensures var d' := dir[j.key := Range(j.end, j.dst)];
      StaleFenced(d', fz, seen + {d'}, cuts + [Cut(j.key, j.end, j.dst)])
  {
    hide Home, InRoute, Covers, Hole, FencedOff, Fixed, HomeIs;
    var d' := dir[j.key := Range(j.end, j.dst)];
    PublishRoutes(dir, cuts, j);
    forall d: Dir, s, rk | d in seen && Covers(d, s, rk)
      ensures s in d && (d[s].shard == Home(cuts + [Cut(j.key, j.end, j.dst)], rk) || FencedOff(d', fz, d[s].shard, rk))
    {
      InDir(d, s, rk);
      PublishFence(dir, fz, cuts, j, d[s].shard, rk);
    }
    forall s, rk | Covers(d', s, rk) ensures s in d' { InDir(d', s, rk); }
  }

  lemma PublishStored(rows: Stores, cuts: seq<Cut>, truth: Raw, j: Job)
    requires StoredHome(rows, cuts, truth) && Copied(RowsAt(rows, j.dst), truth, j)
    ensures StoredHome(rows, cuts + [Cut(j.key, j.end, j.dst)], truth)
  {
    hide Home, InRoute, RouteKeyOf, Same;
    forall x | RouteKeyOf(x).Some?
      ensures Same(RowsAt(rows, Home(cuts + [Cut(j.key, j.end, j.dst)], RouteKeyOf(x).value)), truth, x)
    {
      PublishHome(cuts, j, RouteKeyOf(x).value);
      assert InRoute(RouteKeyOf(x).value, j.key, j.end) ==> InSpan(x, j.key, j.end);
    }
  }

  lemma PublishWhole(dir: Dir, j: Job, torn: bool)
    requires Hole(dir, j) && Whole(dir, Shrunk(j), torn)
    ensures Whole(dir[j.key := Range(j.end, j.dst)], Published(j), torn)
  {
    hide InRoute, Covers;
    var d' := dir[j.key := Range(j.end, j.dst)];
    forall rk | !torn ensures WholeAt(d', Published(j), rk)
    {
      assert WholeAt(dir, Shrunk(j), rk);
      PublishCovers(dir, j, j.key, rk);
      if !InRoute(rk, j.key, j.end) {
        var t :| Covers(dir, t, rk);
        InDir(dir, t, rk);
        PublishCovers(dir, j, t, rk);
      }
    }
  }

  lemma PublishTorn(dir: Dir, j: Job, torn: bool)
    requires Hole(dir, j) && TornOk(dir, Shrunk(j), torn)
    ensures TornOk(dir[j.key := Range(j.end, j.dst)], Published(j), torn)
  {
    hide InRoute, Covers;
    if torn {
      var d' := dir[j.key := Range(j.end, j.dst)];
      var rk :| LostAt(dir, Shrunk(j), rk);
      forall t ensures !Covers(d', t, rk) { PublishCovers(dir, j, t, rk); }
      assert LostAt(d', Published(j), rk);
    }
  }

  lemma PublishKeeps(w: World)
    requires Inv(w) && Enabled(w, Publish)
    ensures Inv(After(w, Publish))
  {
    var j := w.phase.j;
    var d' := w.dir[j.key := Range(j.end, j.dst)];
    var cs := w.cuts + [Cut(j.key, j.end, j.dst)];
    assert j.src < j.dst;
    hide Home, InRoute, RouteKeyOf, Covers, StaleFenced, StoredHome, LeftoversOk, RoutedHome, Whole, Copied, Fixed,
      Hole, DirsOk, TornOk;
    PublishDirs(w.dir, w.seen, w.top, j);
    PublishRoutes(w.dir, w.cuts, j);
    PublishFences(w.dir, w.frozen, w.seen, w.cuts, j);
    PublishStored(w.rows, w.cuts, w.truth, j);
    PublishWhole(w.dir, j, w.torn);
    PublishTorn(w.dir, j, w.torn);
    forall rk | InRoute(rk, j.key, j.end) ensures Home(cs, rk) == j.dst { PublishHome(w.cuts, j, rk); }
    NextEmpty(w.rows, w.top, w.truth, d', w.frozen);
  }

  /** The shard after the next has no rows. */
  lemma NextEmpty(rows: Stores, top: nat, truth: Raw, dir: Dir, fz: Freezes)
    requires Unused(rows, top)
    ensures Unused(rows, top + 1) && LeftoversOk(RowsAt(rows, top + 2), truth, dir, fz)
  {
    assert RowsAt(rows, top + 2) == map[];
  }

  // ---------------------------------------------------------------- purge and give up

  lemma PurgeKeeps(w: World)
    requires Inv(w) && Enabled(w, PurgeOld)
    ensures Inv(After(w, PurgeOld))
  {
    hide Home, InRoute, RouteKeyOf, Covers, StaleFenced, LeftoversOk, RoutedHome, CutsOk, DirsOk;
    var j := w.phase.j;
    var w' := After(w, PurgeOld);
    forall x | RouteKeyOf(x).Some? ensures Same(RowsAt(w'.rows, Home(w.cuts, RouteKeyOf(x).value)), w.truth, x)
    {
      assert Same(RowsAt(w.rows, Home(w.cuts, RouteKeyOf(x).value)), w.truth, x);
    }
    KeepUnused(w.rows, w.top, j.src, RowsAt(w'.rows, j.src));
    assert RowsAt(w'.rows, w.top + 1) == RowsAt(w.rows, w.top + 1);
    PhaseMoves(w.dir, w.phase, Idle, w.torn);
  }

  lemma HoleLost(dir: Dir, j: Job)
    requires Hole(dir, j)
    ensures LostAt(dir, Idle, j.key)
  {
  }

  lemma GiveUpKeeps(w: World)
    requires Inv(w) && Enabled(w, GiveUp)
    ensures Inv(After(w, GiveUp))
  {
    hide Home, InRoute, RouteKeyOf, Covers, StaleFenced, StoredHome, LeftoversOk, RoutedHome, CutsOk, DirsOk, Unused,
      Hole, Routed;
    if w.phase.Shrunk? {
      HoleLost(w.dir, w.phase.j);
    } else {
      PhaseMoves(w.dir, w.phase, Idle, w.torn);
    }
  }

  // ---------------------------------------------------------------- runs

  lemma StepKeeps(w: World, st: Step)
    requires Inv(w) && Enabled(w, st)
    ensures Inv(After(w, st))
  {
    hide Inv, After;
    match st
    case Write(d, rk, puts, dels) => WriteKeeps(w, d, rk, puts, dels);
    case Start(j) => StartKeeps(w, j);
    case CommitFreeze => FreezeKeeps(w);
    case Scan(kvs) => ScanKeeps(w, kvs);
    case IngestBatch => IngestKeeps(w);
    case Shrink => ShrinkKeeps(w);
    case Publish => PublishKeeps(w);
    case PurgeOld => PurgeKeeps(w);
    case GiveUp => GiveUpKeeps(w);
  }

  ghost predicate Runs(w: World, steps: seq<Step>)
    decreases |steps|
  {
    steps == [] || (Enabled(w, steps[0]) && Runs(After(w, steps[0]), steps[1..]))
  }

  ghost function Final(w: World, steps: seq<Step>): World
    requires Runs(w, steps)
    decreases |steps|
  {
    if steps == [] then w else Final(After(w, steps[0]), steps[1..])
  }

  lemma {:induction false} RunsKeep(w: World, steps: seq<Step>)
    requires Inv(w) && Runs(w, steps)
    ensures Inv(Final(w, steps))
    decreases |steps|
  {
    hide Inv, Enabled, After;
    if steps != [] {
      StepKeeps(w, steps[0]);
      RunsKeep(After(w, steps[0]), steps[1..]);
    }
  }

  /** No acknowledged write is lost, in any run of clients, splits and abandoned splits: the rows of each
      routing key at the shard the last completed cut-over gave it are exactly those the acknowledged writes
      produce. The directory names that shard or none, and a client using any earlier directory reaches it or is
      refused. */
  lemma NoAckedWriteLost(steps: seq<Step>, x: bytes, d: Dir)
    requires Runs(INIT, steps) && RouteKeyOf(x).Some? && d in Final(INIT, steps).seen
    ensures var w := Final(INIT, steps); var rk := RouteKeyOf(x).value;
      && Same(RowsAt(w.rows, Home(w.cuts, rk)), w.truth, x)
      && (OwnerOf(w.dir, rk) == 0 || OwnerOf(w.dir, rk) == Home(w.cuts, rk))
      && (Accepted(w, d, rk) ==> OwnerOf(d, rk) == Home(w.cuts, rk))
  {
    var w, rk := Final(INIT, steps), RouteKeyOf(x).value;
    hide Final, Runs;
    InitInv();
    RunsKeep(INIT, steps);
    hide Home, InRoute, RouteKeyOf, StaleFenced, LeftoversOk, CutsOk, PhaseOk, Whole, Same, Accepted;
    if Accepted(w, d, rk) { AcceptedAtHome(w, d, rk); }
    if Routed(w.dir, rk) {
      var s :| Covers(w.dir, s, rk);
      OwnerIs(w.dir, s, rk);
    }
  }

  /** Between splits every routing key has exactly one shard if and only if no split was given up between its two
      directory writes. */
  lemma IdlePartition(steps: seq<Step>)
    requires Runs(INIT, steps) && Final(INIT, steps).phase.Idle?
    ensures Partition(Final(INIT, steps).dir) <==> !Final(INIT, steps).torn
  {
    var w := Final(INIT, steps);
    hide Final, Runs;
    InitInv();
    RunsKeep(INIT, steps);
    hide StaleFenced, LeftoversOk, CutsOk, StoredHome, RoutedHome, Routed;
    if w.torn {
      var rk :| LostAt(w.dir, w.phase, rk);
      assert !Routed(w.dir, rk);
    } else {
      forall rk ensures Routed(w.dir, rk) { assert WholeAt(w.dir, w.phase, rk); }
    }
  }

  lemma FinalTwo(w: World, a: Step, b: Step)
    requires Enabled(w, a) && Enabled(After(w, a), b)
    ensures Runs(w, [a, b]) && Final(w, [a, b]) == After(After(w, a), b)
  {
    hide Enabled, After;
    var v := After(w, a);
    assert [a, b][1..] == [b] && [b][1..] == [];
    assert Runs(After(v, b), []) && Runs(v, [b]);
    assert Final(v, [b]) == Final(After(v, b), []);
  }

  /** What a split given up before its purge leaves behind outlives later removals: a row removed through
      the new directory is still on the source, so merging the range back would bring it back. */
  lemma UnpurgedRowSurvives(w: World, x: bytes, it: seq<RawKV>)
    requires Inv(w) && w.phase.Published? && InSpan(x, w.phase.j.key, w.phase.j.end)
    requires x in RowsAt(w.rows, w.phase.j.src) && Accepted(w, w.dir, RouteKeyOf(x).value)
    ensures Runs(w, [GiveUp, Write(w.dir, RouteKeyOf(x).value, map[], {x})])
    ensures var j := w.phase.j; var w' := Final(w, [GiveUp, Write(w.dir, RouteKeyOf(x).value, map[], {x})]);
      && x !in w'.truth
      && (Enumerates(it, RowsAt(w'.rows, j.dst)) ==>
          x in Ingest(RowsAt(w'.rows, j.src), Filtered(it, j.key, j.end)))
  {
    hide InRoute, RouteKeyOf, Ingest, Filtered, OwnerOf, Home;
    var j, rk := w.phase.j, RouteKeyOf(x).value;
    var g := After(w, GiveUp);
    var st := Write(w.dir, rk, map[], {x});
    assert Enabled(g, st);
    FinalTwo(w, GiveUp, st);
    AcceptedAtHome(w, w.dir, rk);
    var w' := After(g, st);
    assert x in RowsAt(w'.rows, j.src);
    if Enumerates(it, RowsAt(w'.rows, j.dst)) {
      MoveRange(RowsAt(w'.rows, j.dst), RowsAt(w'.rows, j.src), it, j.key, j.end);
    }
  }

  // ---------------------------------------------------------------- a split can complete

  lemma {:induction false} RunsConcat(w: World, a: seq<Step>, b: seq<Step>)
    requires Runs(w, a) && Runs(Final(w, a), b)
    ensures Runs(w, a + b) && Final(w, a + b) == Final(Final(w, a), b)
    decreases |a|
  {
    hide Enabled, After;
    if a == [] {
      assert a + b == b;
    } else {
      RunsConcat(After(w, a[0]), a[1..], b);
      assert (a + b)[0] == a[0] && (a + b)[1..] == a[1..] + b;
    }
  }

  lemma FinalOne(w: World, a: Step)
    requires Enabled(w, a)
    ensures Runs(w, [a]) && Final(w, [a]) == After(w, a)
  {
    hide Enabled, After;
    var v := After(w, a);
    assert [a][1..] == [];
    assert Runs(v, []) && Final(v, []) == v;
  }

  lemma FinalThree(w: World, a: Step, b: Step, c: Step)
    requires Enabled(w, a) && Enabled(After(w, a), b) && Enabled(After(After(w, a), b), c)
    ensures Runs(w, [a, b, c]) && Final(w, [a, b, c]) == After(After(After(w, a), b), c)
  {
    hide Enabled, After, Runs, Final;
    FinalTwo(w, a, b);
    FinalOne(After(After(w, a), b), c);
    RunsConcat(w, [a, b], [c]);
    assert [a, b] + [c] == [a, b, c];
  }

  /** Ingesting goes on until every scanned row is in, and touches nothing but the new shard. */
  lemma IngestsFinish(w: World) returns (steps: seq<Step>)
    requires w.phase.Copying? && w.phase.done <= |w.phase.kvs|
    ensures Runs(w, steps)
    ensures var v := Final(w, steps);
      && v == w.(rows := v.rows, phase := w.phase.(done := |w.phase.kvs|))
      && forall s: nat :: s != w.phase.j.dst ==> RowsAt(v.rows, s) == RowsAt(w.rows, s)
    decreases |w.phase.kvs| - w.phase.done
  {
    hide Ingest;
    if w.phase.done == |w.phase.kvs| {
      steps := [];
    } else {
      var v := After(w, IngestBatch);
      var rest := IngestsFinish(v);
      FinalOne(w, IngestBatch);
      RunsConcat(w, [IngestBatch], rest);
      steps := [IngestBatch] + rest;
    }
  }

  lemma CutOver(d: World) returns (v: World)
    requires d.phase.Copying? && d.phase.done >= |d.phase.kvs|
    ensures Runs(d, [Shrink, Publish, PurgeOld]) && v == Final(d, [Shrink, Publish, PurgeOld])
    ensures var j := d.phase.j;
      && v.phase.Idle? && v.truth == d.truth && v.torn == d.torn && v.frozen == d.frozen
      && v.dir == ApplyRange(ApplyRange(d.dir, MetaPut(j.start, j.key, j.src)), MetaPut(j.key, j.end, j.dst))
      && Span(RowsAt(v.rows, j.src), j.key, j.end) == map[]
  {
    hide InSpan, Runs, Final;
    FinalThree(d, Shrink, Publish, PurgeOld);
    v := Final(d, [Shrink, Publish, PurgeOld]);
    assert RowsAt(v.rows, d.phase.j.src) == Purge(RowsAt(d.rows, d.phase.j.src), d.phase.j.key, d.phase.j.end);
  }

  /** From every idle state a split inside a range can run to its end: the directory is then the one with the
      range cut in two, and the old shard holds nothing of what moved. */
  lemma SplitCompletes(w: World, j: Job, kvs: seq<RawKV>) returns (steps: seq<Step>)
    requires Enabled(w, Start(j)) && Enumerates(kvs, Span(RowsAt(w.rows, j.src), j.key, j.end))
    ensures Runs(w, steps)
    ensures var v := Final(w, steps);
      && v.phase.Idle? && v.dir == SplitDir(w.dir, j.start, j.key, j.dst)
      && v.truth == w.truth && v.torn == w.torn
      && v.frozen == w.frozen[j.src := FrozenAt(w.frozen, j.src)[j.key := j.end]]
      && Span(RowsAt(v.rows, j.src), j.key, j.end) == map[]
  {
    hide Enumerates, CanSplit, MaxShard, InSpan, Runs, Final, Span;
    FinalThree(w, Start(j), CommitFreeze, Scan(kvs));
    var head := [Start(j), CommitFreeze, Scan(kvs)];
    var c := Final(w, head);
    var mid := IngestsFinish(c);
    var d := Final(c, mid);
    var v := CutOver(d);
    RunsConcat(w, head, mid);
    RunsConcat(w, head + mid, [Shrink, Publish, PurgeOld]);
    steps := head + mid + [Shrink, Publish, PurgeOld];
  }
}
