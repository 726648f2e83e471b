/** The range directory: the meta shard's state machine, the cached lookup, and what splits and merges do
    to the ownership of routing keys (meta.go, control.go). */
module Directory {
  import opened Bytes
  import opened Rows

  /** One range [start, end) -> shard, stored under its start; an empty end is unbounded. */
  datatype Range = Range(end: bytes, shard: nat)
  type Dir = map<bytes, Range>

  datatype RangeEntry = RangeEntry(start: bytes, end: bytes, shard: nat)

  predicate Covers(d: Dir, s: bytes, rk: bytes)
  {
    s in d && InRoute(rk, s, d[s].end)
  }

  ghost predicate Disjoint(d: Dir)
  {
    forall s, t, rk :: Covers(d, s, rk) && Covers(d, t, rk) ==> s == t
  }

  ghost predicate Routed(d: Dir, rk: bytes)
  {
    exists s :: Covers(d, s, rk)
  }

  ghost predicate Total(d: Dir)
  {
    forall rk :: Routed(d, rk)
  }

  /** No range is empty. */
  ghost predicate Proper(d: Dir)
  {
    forall s :: s in d ==> d[s].end == [] || Less(s, d[s].end)
  }

  /** Every routing key lies in exactly one range. */
  ghost predicate Partition(d: Dir) { Disjoint(d) && Total(d) && Proper(d) }

  /** The shard a routing key is sent to; 0 is "no range covers it", as ShardFor reports it. */
  ghost function OwnerOf(d: Dir, rk: bytes): nat
  {
    if Routed(d, rk) then (var s :| Covers(d, s, rk); d[s].shard) else 0
  }

  lemma OwnerIs(d: Dir, s: bytes, rk: bytes)
    requires Disjoint(d) && Covers(d, s, rk)
    ensures OwnerOf(d, rk) == d[s].shard
  {
  }

  // ---------------------------------------------------------------- intervals

  /** A cut inside an interval divides it. */
  lemma Cut(rk: bytes, s: bytes, k: bytes, e: bytes)
    requires Less(s, k) && (e == [] || Less(k, e)) && k != []
    ensures InRoute(rk, s, e) <==> InRoute(rk, s, k) || InRoute(rk, k, e)
    ensures !(InRoute(rk, s, k) && InRoute(rk, k, e))
  {
    LessTotal(rk, k);
    if Less(rk, k) && e != [] { LessTransitive(rk, k, e); }
    if Less(k, rk) { LessTransitive(s, k, rk); }
  }

  // ---------------------------------------------------------------- the meta shard

  /** The meta shard's commands: directory ranges, and blobs of the backup catalog. */
  datatype MetaCmd = MetaPut(start: bytes, end: bytes, shard: nat)
                   | MetaDelete(start: bytes)
                   | BackupPut(start: bytes, blob: bytes)
                   | BackupDelete(start: bytes)

  datatype MetaState = MetaState(ranges: Dir, catalog: map<bytes, bytes>)

  function ApplyRange(d: Dir, c: MetaCmd): Dir
  {
    match c
    case MetaPut(s, e, sh) => d[s := Range(e, sh)]
    case MetaDelete(s) => d - {s}
    case _ => d
  }

  function ApplyMeta(m: MetaState, c: MetaCmd): MetaState
  {
    match c
    case BackupPut(k, v) => m.(catalog := m.catalog[k := v])
    case BackupDelete(k) => m.(catalog := m.catalog - {k})
    case _ => m.(ranges := ApplyRange(m.ranges, c))
  }

  function MetaOp(c: MetaCmd): byte
  {
    match c case MetaPut(_, _, _) => 1 case MetaDelete(_) => 2 case BackupPut(_, _) => 3 case BackupDelete(_) => 4
  }

  /** The second chunk: a range's end or a catalog blob. */
  function MetaEnd(c: MetaCmd): bytes
  {
    match c case MetaPut(_, e, _) => e case BackupPut(_, v) => v case _ => []
  }

  /** encodeMetaCommand: opcode, chunk(start), chunk(end), be(shard). */
  function EncodeMeta(c: MetaCmd): bytes
    requires c.MetaPut? ==> c.shard < TWO64
  {
    [MetaOp(c)] + (Chunk(c.start) + (Chunk(MetaEnd(c)) + BE(if c.MetaPut? then c.shard else 0, 8)))
  }

  /** decodeMetaCommand and the opcode switch; None stands for either error. */
  function DecodeMeta(b: bytes): (r: Option<MetaCmd>)
  {
    if |b| < 1 then None else
    var s := TakeChunk(b[1..]);
    if s.None? then None else
    var e := TakeChunk(s.value.1);
    if e.None? || |e.value.1| < 8 then None else
    if b[0] == 1 then Some(MetaPut(s.value.0, e.value.0, FromBE(e.value.1[..8])))
    else if b[0] == 2 then Some(MetaDelete(s.value.0))
    else if b[0] == 3 then Some(BackupPut(s.value.0, e.value.0))
    else if b[0] == 4 then Some(BackupDelete(s.value.0))
    else None
  }

  lemma MetaRoundTrip(c: MetaCmd)
    requires c.MetaPut? ==> c.shard < TWO64
    requires |c.start| + |MetaEnd(c)| + 16 < TWO32
    ensures DecodeMeta(EncodeMeta(c)) == Some(c)
  {
    hide BE, FromBE, Chunk, TakeChunk;
    var e, sh := MetaEnd(c), if c.MetaPut? then c.shard else 0;
    var tail := Chunk(e) + BE(sh, 8);
    assert EncodeMeta(c)[1..] == Chunk(c.start) + tail;
    TakeChunkOfChunk(c.start, tail);
    TakeChunkOfChunk(e, BE(sh, 8));
    U64RoundTrip(sh);
    assert BE(sh, 8)[..8] == BE(sh, 8);
  }

  ghost function ApplyMetas(m: MetaState, cs: seq<bytes>): Option<MetaState>
  {
    if cs == [] then Some(m) else
    var n := |cs| - 1;
    var h := ApplyMetas(m, cs[..n]);
    var c := DecodeMeta(cs[n]);
    if h.None? || c.None? then None else Some(ApplyMeta(h.value, c.value))
  }

  lemma {:induction false} MetasFail(d: MetaState, cs: seq<bytes>, n: nat)
    requires n <= |cs| && ApplyMetas(d, cs[..n]).None?
    ensures ApplyMetas(d, cs).None?
  {
    if n == |cs| {
      assert cs[..n] == cs;
    } else {
      var m := |cs| - 1;
      assert cs[..m][..n] == cs[..n];
      MetasFail(d, cs[..m], n);
    }
  }

  /** A batch takes effect if and only if every command of it decodes. */
  lemma {:induction false} AllOrNone(m: MetaState, cs: seq<bytes>)
    ensures ApplyMetas(m, cs).Some? <==> forall i :: 0 <= i < |cs| ==> DecodeMeta(cs[i]).Some?
  {
    hide DecodeMeta;
    if cs != [] {
      var n := |cs| - 1;
      AllOrNone(m, cs[..n]);
      assert forall i :: 0 <= i < n ==> cs[..n][i] == cs[i];
    }
  }

  predicate OnCatalog(c: MetaCmd) { c.BackupPut? || c.BackupDelete? }

  /** No command of the batch after position i names the key that command i names, in the same table. */
  ghost predicate LastNaming(cs: seq<bytes>, i: nat, c: MetaCmd)
  {
    && i < |cs| && DecodeMeta(cs[i]) == Some(c)
    && forall j :: i < j < |cs| && DecodeMeta(cs[j]).Some? && DecodeMeta(cs[j]).value.start == c.start ==>
         (OnCatalog(DecodeMeta(cs[j]).value) <==> !OnCatalog(c))
  }

  /** After a batch that was accepted, a range or a backup blob is what the last command naming it said. */
  lemma {:induction false} LastNamingStays(m: MetaState, cs: seq<bytes>, i: nat, c: MetaCmd)
    requires ApplyMetas(m, cs).Some? && LastNaming(cs, i, c)
    ensures var t := ApplyMetas(m, cs).value;
      match c
      case MetaPut(s, e, shard) => s in t.ranges && t.ranges[s] == Range(e, shard)
      case MetaDelete(s) => s !in t.ranges
      case BackupPut(k, v) => k in t.catalog && t.catalog[k] == v
      case BackupDelete(k) => k !in t.catalog
  {
    hide DecodeMeta;
    var n := |cs| - 1;
    if i < n {
      assert forall j :: 0 <= j < n ==> cs[..n][j] == cs[j];
      LastNamingStays(m, cs[..n], i, c);
    }
  }

  /** What no command of the batch names stays as it was. */
  lemma {:induction false} UnnamedStays(m: MetaState, cs: seq<bytes>, k: bytes)
    requires ApplyMetas(m, cs).Some?
    requires forall j :: 0 <= j < |cs| && DecodeMeta(cs[j]).Some? ==> DecodeMeta(cs[j]).value.start != k
    ensures var t := ApplyMetas(m, cs).value;
      && (k in t.ranges <==> k in m.ranges) && (k in m.ranges ==> t.ranges[k] == m.ranges[k])
      && (k in t.catalog <==> k in m.catalog) && (k in m.catalog ==> t.catalog[k] == m.catalog[k])
  {
    hide DecodeMeta;
    if cs != [] {
      var n := |cs| - 1;
      assert forall j :: 0 <= j < n ==> cs[..n][j] == cs[j];
      UnnamedStays(m, cs[..n], k);
    }
  }

  class MetaSM {
    var state: MetaState

    constructor ()
      ensures state == MetaState(map[], map[])
    {
      state := MetaState(map[], map[]);
    }

    /** metaSM.Update: all commands of the batch, or none when one is malformed or unknown. */
    method Update(cmds: seq<bytes>) returns (ok: bool)
      modifies this
      ensures ok == ApplyMetas(old(state), cmds).Some?
      ensures state == if ok then ApplyMetas(old(state), cmds).value else old(state)
    {
      hide DecodeMeta;
      var next := state;
      for i := 0 to |cmds|
        invariant state == old(state) && ApplyMetas(state, cmds[..i]) == Some(next)
      {
        assert cmds[..i + 1][..i] == cmds[..i];
        var c := DecodeMeta(cmds[i]);
        if c.None? {
          MetasFail(state, cmds, i + 1);
          return false;
        }
        next := ApplyMeta(next, c.value);
      }
      assert cmds[..|cmds|] == cmds;
      state := next;
      return true;
    }
  }

  // ---------------------------------------------------------------- the cached directory

  /** es lists the ranges of d once each (metaListQuery scans them in start order). */
  ghost predicate Lists(es: seq<RangeEntry>, d: Dir)
  {
    && (forall i :: 0 <= i < |es| ==> es[i].start in d && d[es[i].start] == Range(es[i].end, es[i].shard))
    && (forall s :: s in d ==> RangeEntry(s, d[s].end, d[s].shard) in es)
  }

  class RangeDirectory {
    var ranges: seq<RangeEntry>
    ghost var dir: Dir

    ghost predicate Valid()
      reads this
    {
      Lists(ranges, dir)
    }

    /** Refresh: replaces the cached ranges by the meta shard's listing. */
    constructor (listing: seq<RangeEntry>, ghost d: Dir)
      requires Lists(listing, d)
      ensures Valid() && dir == d
    {
      ranges, dir := listing, d;
    }

    /** rangeContaining; None stands for ok = false. */
    method RangeContaining(rk: bytes) returns (r: Option<RangeEntry>)
      requires Valid()
      ensures r.Some? ==> Covers(dir, r.value.start, rk) && dir[r.value.start] == Range(r.value.end, r.value.shard)
      ensures r.None? ==> forall s :: !Covers(dir, s, rk)
    {
      hide InRoute;
      for i := 0 to |ranges|
        invariant forall j :: 0 <= j < i ==> !InRoute(rk, ranges[j].start, ranges[j].end)
      {
        if InRoute(rk, ranges[i].start, ranges[i].end) { return Some(ranges[i]); }
      }
      forall s | s in dir ensures !Covers(dir, s, rk)
      {
        var j :| 0 <= j < |ranges| && ranges[j] == RangeEntry(s, dir[s].end, dir[s].shard);
      }
      return None;
    }

    /** ShardFor finds the owner of a collection, or 0. */
    method ShardFor(c: Coll) returns (shard: nat)
      requires Valid() && Disjoint(dir)
      ensures shard == OwnerOf(dir, RouteKey(c))
    {
      hide RouteKey, InRoute, Covers;
      var r := RangeContaining(RouteKey(c));
      if r.None? { return 0; }
      OwnerIs(dir, r.value.start, RouteKey(c));
      return r.value.shard;
    }

    method MaxShardID() returns (mx: nat)
      requires Valid()
      ensures forall s :: s in dir ==> dir[s].shard <= mx
      ensures mx == 0 || exists s :: s in dir && dir[s].shard == mx
    {
      mx := 0;
      for i := 0 to |ranges|
        invariant forall j :: 0 <= j < i ==> ranges[j].shard <= mx
        invariant mx == 0 || exists s :: s in dir && dir[s].shard == mx
      {
        if ranges[i].shard > mx {
          mx := ranges[i].shard;
          assert ranges[i].start in dir && dir[ranges[i].start].shard == mx;
        }
      }
      forall s | s in dir ensures dir[s].shard <= mx
      {
        var j :| 0 <= j < |ranges| && ranges[j] == RangeEntry(s, dir[s].end, dir[s].shard);
      }
    }
  }

  // ---------------------------------------------------------------- splits and merges

  /** Split's guard: the key lies strictly inside the range starting at s. */
  ghost predicate CanSplit(d: Dir, s: bytes, key: bytes)
  {
    key != [] && Covers(d, s, key) && s != key
  }

  /** The directory after Split's two puts. */
  function SplitDir(d: Dir, s: bytes, key: bytes, newShard: nat): Dir
    requires s in d
  {
    ApplyRange(ApplyRange(d, MetaPut(s, key, d[s].shard)), MetaPut(key, d[s].end, newShard))
  }

  lemma SplitOrder(d: Dir, s: bytes, key: bytes)
    requires CanSplit(d, s, key)
    ensures Less(s, key) && (d[s].end == [] || Less(key, d[s].end))
  {
  }

  /** In a partition no other range starts at a key strictly inside one. */
  lemma FreshStart(d: Dir, s: bytes, key: bytes)
    requires Disjoint(d) && Proper(d) && CanSplit(d, s, key)
    ensures key !in d
  {
    assert key in d ==> Covers(d, key, key);
  }

  /** Who covers what after a split. */
  lemma SplitCovers(d: Dir, s: bytes, key: bytes, newShard: nat, t: bytes, rk: bytes)
    requires Disjoint(d) && Proper(d) && CanSplit(d, s, key)
    ensures var d' := SplitDir(d, s, key, newShard);
      && (t == s ==> (Covers(d', t, rk) <==> Covers(d, s, rk) && !InRoute(rk, key, d[s].end)))
      && (t == key ==> (Covers(d', t, rk) <==> InRoute(rk, key, d[s].end)))
      && (t != s && t != key ==> (Covers(d', t, rk) <==> Covers(d, t, rk)))
      && (InRoute(rk, key, d[s].end) ==> Covers(d, s, rk))
  {
    FreshStart(d, s, key);
    SplitOrder(d, s, key);
    hide InRoute, Less, Leq;
    Cut(rk, s, key, d[s].end);
  }

  lemma SplitProper(d: Dir, s: bytes, key: bytes, newShard: nat)
    requires Proper(d) && CanSplit(d, s, key)
    ensures Proper(SplitDir(d, s, key, newShard))
  {
    SplitOrder(d, s, key);
  }

  lemma SplitPartition(d: Dir, s: bytes, key: bytes, newShard: nat)
    requires Partition(d) && CanSplit(d, s, key)
    ensures Partition(SplitDir(d, s, key, newShard))
  {
    var d' := SplitDir(d, s, key, newShard);
    hide InRoute, Proper, CanSplit, Covers, SplitDir;
    SplitProper(d, s, key, newShard);
    forall rk, t, u | Covers(d', t, rk) && Covers(d', u, rk) ensures t == u
    {
      SplitCovers(d, s, key, newShard, t, rk);
      SplitCovers(d, s, key, newShard, u, rk);
    }
    forall rk ensures Routed(d', rk)
    {
      assert Routed(d, rk);
      var t :| Covers(d, t, rk);
      SplitStill(d, s, key, newShard, t, rk);
    }
  }

  lemma SplitStill(d: Dir, s: bytes, key: bytes, newShard: nat, t: bytes, rk: bytes)
    requires Disjoint(d) && Proper(d) && CanSplit(d, s, key) && Covers(d, t, rk)
    ensures Covers(SplitDir(d, s, key, newShard), if InRoute(rk, key, d[s].end) then key else t, rk)
    ensures InRoute(rk, key, d[s].end) ==> t == s
  {
    FreshStart(d, s, key);
    SplitCovers(d, s, key, newShard, t, rk);
    SplitCovers(d, s, key, newShard, key, rk);
    hide InRoute, Proper;
  }

  /** A split hands exactly [splitKey, old end) to the new shard. */
  lemma SplitOwners(d: Dir, s: bytes, key: bytes, newShard: nat, rk: bytes)
    requires Partition(d) && CanSplit(d, s, key)
    ensures OwnerOf(SplitDir(d, s, key, newShard), rk) ==
      if InRoute(rk, key, d[s].end) then newShard else OwnerOf(d, rk)
  {
    var d' := SplitDir(d, s, key, newShard);
    hide InRoute, Proper, Covers, OwnerOf, CanSplit;
    assert Routed(d, rk);
    var t :| Covers(d, t, rk);
    OwnerIs(d, t, rk);
    InDir(d, t, rk);
    SplitStill(d, s, key, newShard, t, rk);
    SplitPartition(d, s, key, newShard);
    FreshStart(d, s, key);
    OwnerIs(d', if InRoute(rk, key, d[s].end) then key else t, rk);
    SplitCovers(d, s, key, newShard, t, rk);
  }

  /** Merge's guard: left ends where right begins, on another shard. */
  ghost predicate CanMerge(d: Dir, left: bytes, boundary: bytes)
  {
    boundary != [] && left in d && boundary in d && d[left].end == boundary
    && d[left].shard != d[boundary].shard
  }

  /** The directory after Merge's put and delete. */
  function MergeDir(d: Dir, left: bytes, boundary: bytes): Dir
    requires left in d && boundary in d
  {
    ApplyRange(ApplyRange(d, MetaPut(left, d[boundary].end, d[left].shard)), MetaDelete(boundary))
  }

  lemma MergeCovers(d: Dir, left: bytes, boundary: bytes, t: bytes, rk: bytes)
    requires Proper(d) && CanMerge(d, left, boundary)
    ensures var d' := MergeDir(d, left, boundary);
      && (t == left ==> (Covers(d', t, rk) <==> Covers(d, left, rk) || Covers(d, boundary, rk)))
      && (t == boundary ==> !Covers(d', t, rk))
      && (t != left && t != boundary ==> (Covers(d', t, rk) <==> Covers(d, t, rk)))
  {
    LessTotal(left, boundary);
    Cut(rk, left, boundary, d[boundary].end);
  }

  lemma MergeProper(d: Dir, left: bytes, boundary: bytes)
    requires Proper(d) && CanMerge(d, left, boundary)
    ensures Proper(MergeDir(d, left, boundary))
  {
    hide Less;
    if d[boundary].end != [] { LessTransitive(left, boundary, d[boundary].end); }
  }

  lemma MergePartition(d: Dir, left: bytes, boundary: bytes)
    requires Partition(d) && CanMerge(d, left, boundary)
    ensures Partition(MergeDir(d, left, boundary))
  {
    var d' := MergeDir(d, left, boundary);
    hide InRoute, Proper, Covers, CanMerge, MergeDir;
    MergeProper(d, left, boundary);
    forall rk, t, u | Covers(d', t, rk) && Covers(d', u, rk) ensures t == u
    {
      MergeCovers(d, left, boundary, t, rk);
      MergeCovers(d, left, boundary, u, rk);
    }
    forall rk ensures Routed(d', rk)
    {
      assert Routed(d, rk);
      var t :| Covers(d, t, rk);
      MergeStill(d, left, boundary, t, rk);
    }
  }

  lemma MergeStill(d: Dir, left: bytes, boundary: bytes, t: bytes, rk: bytes)
    requires Proper(d) && CanMerge(d, left, boundary) && Covers(d, t, rk)
    ensures Covers(MergeDir(d, left, boundary), if t == boundary then left else t, rk)
  {
    hide Proper;
    MergeCovers(d, left, boundary, t, rk);
    MergeCovers(d, left, boundary, left, rk);
    hide InRoute, MergeDir;
  }

  /** A merge hands exactly the right range to the left shard. */
  lemma MergeOwners(d: Dir, left: bytes, boundary: bytes, rk: bytes)
    requires Partition(d) && CanMerge(d, left, boundary)
    ensures OwnerOf(MergeDir(d, left, boundary), rk) ==
      if InRoute(rk, boundary, d[boundary].end) then d[left].shard else OwnerOf(d, rk)
  {
    assert InRoute(rk, boundary, d[boundary].end) <==> Covers(d, boundary, rk);
    assert left != boundary by { LessTotal(left, boundary); }
    hide InRoute, Proper, Covers, OwnerOf;
    assert Routed(d, rk);
    var t :| Covers(d, t, rk);
    OwnerIs(d, t, rk);
    MergeStill(d, left, boundary, t, rk);
    MergePartition(d, left, boundary);
    OwnerIs(MergeDir(d, left, boundary), if t == boundary then left else t, rk);
    assert Covers(d, boundary, rk) <==> t == boundary;
    assert t in d by { InDir(d, t, rk); }
  }

  lemma InDir(d: Dir, t: bytes, rk: bytes)
    requires Covers(d, t, rk)
    ensures t in d
  {
  }

  // ---------------------------------------------------------------- runs

  datatype DirOp = SplitAt(s: bytes, key: bytes, newShard: nat) | MergeAt(left: bytes, boundary: bytes)

  ghost predicate Allowed(d: Dir, op: DirOp)
  {
    match op
    case SplitAt(s, key, _) => CanSplit(d, s, key)
    case MergeAt(left, b) => CanMerge(d, left, b)
  }

  ghost function Done(d: Dir, op: DirOp): Dir
    requires Allowed(d, op)
  {
    match op
    case SplitAt(s, key, n) => SplitDir(d, s, key, n)
    case MergeAt(left, b) => MergeDir(d, left, b)
  }

  ghost predicate AllAllowed(d: Dir, ops: seq<DirOp>)
    decreases |ops|
  {
    ops == [] || (Allowed(d, ops[0]) && AllAllowed(Done(d, ops[0]), ops[1..]))
  }

  ghost function AllDone(d: Dir, ops: seq<DirOp>): Dir
    requires AllAllowed(d, ops)
    decreases |ops|
  {
    if ops == [] then d else AllDone(Done(d, ops[0]), ops[1..])
  }

  /** ensureInitialRange: [-inf, +inf) on the first data shard. */
  lemma InitialPartition(shard: nat)
    ensures Partition(map[[] := Range([], shard)])
  {
    var d := map[[] := Range([], shard)];
    forall rk ensures Routed(d, rk) { assert Covers(d, [], rk); }
  }

  /** After any sequence of completed splits and merges every routing key lies in exactly one range. */
  lemma {:induction false} RunsPartition(d: Dir, ops: seq<DirOp>)
    requires Partition(d) && AllAllowed(d, ops)
    ensures Partition(AllDone(d, ops))
    decreases |ops|
  {
    hide Partition;
    if ops != [] {
      match ops[0]
      case SplitAt(s, key, n) => SplitPartition(d, s, key, n); RunsPartition(Done(d, ops[0]), ops[1..]);
      case MergeAt(left, b) => MergePartition(d, left, b); RunsPartition(Done(d, ops[0]), ops[1..]);
    }
  }
}
