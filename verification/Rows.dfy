/** The row families of a data shard and the byte layout of their keys. The state machine is modelled over
    rows; SuffixInjective is what makes a map keyed by rows the same thing as the byte-keyed store. */
module Rows {
  import opened Bytes

  datatype Coll = Coll(ns: bytes, name: bytes)

  datatype Row =
    // under subData|chunk(ns)|chunk(coll)
    | Card(coll: Coll)
    | Elem(coll: Coll, tail: bytes)
    | ZPtr(coll: Coll, tail: bytes)
    | Type(coll: Coll)
    | TTLPtr(coll: Coll, tail: bytes)
    | BudPool(coll: Coll)
    | BudLease(coll: Coll, tail: bytes)
    | BudTomb(coll: Coll, tail: bytes)
    // shard-level due indexes
    | TTLIdx(ms: nat, coll: Coll, tail: bytes)
    | BudExp(ms: nat, coll: Coll, tail: bytes)
    | BudGC(ms: nat, coll: Coll, tail: bytes)
    // shard-level bookkeeping
    | Dedup(key: bytes)
    | Ring(slot: nat)
    | Applied
    | DedupSeq
    | Frozen(start: bytes)

  // sub-spaces
  const SUB_META: byte := 0
  const SUB_DATA: byte := 1
  const SUB_TTL: byte := 2
  const SUB_DEDUP: byte := 3
  const SUB_RING: byte := 4
  const SUB_BUDEXP: byte := 5
  const SUB_BUDGC: byte := 6

  const APPLIED_NAME: bytes := [97, 112, 112, 108, 105, 101, 100]
  const DEDUPSEQ_NAME: bytes := [100, 101, 100, 117, 112, 115, 101, 113]
  const FROZEN_TAG: byte := 1

  predicate InData(r: Row)
  {
    r.Card? || r.Elem? || r.ZPtr? || r.Type? || r.TTLPtr? || r.BudPool? || r.BudLease? || r.BudTomb?
  }

  predicate InDue(r: Row) { r.TTLIdx? || r.BudExp? || r.BudGC? }

  /** Rows that belong to one collection. */
  predicate OfColl(r: Row) { InData(r) || InDue(r) }

  function Scope(r: Row): byte
    requires InData(r)
  {
    if r.Card? then 0 else if r.Elem? then 1 else if r.ZPtr? then 2 else if r.Type? then 3
    else if r.TTLPtr? then 4 else if r.BudPool? then 5 else if r.BudLease? then 6 else 7
  }

  function Tail(r: Row): bytes
    requires OfColl(r)
  {
    if r.Card? || r.Type? || r.BudPool? then [] else r.tail
  }

  function Sub(r: Row): byte
  {
    if InData(r) then SUB_DATA else if r.TTLIdx? then SUB_TTL else if r.BudExp? then SUB_BUDEXP
    else if r.BudGC? then SUB_BUDGC else if r.Dedup? then SUB_DEDUP else if r.Ring? then SUB_RING else SUB_META
  }

  /** chunk(ns) || chunk(coll): a collection's place in the routing order. */
  function RouteKey(c: Coll): bytes { Chunk(c.ns) + Chunk(c.name) }

  /** The bytes of a key after its sub-space byte. */
  function Body(r: Row): bytes
  {
    if InData(r) then RouteKey(r.coll) + ([Scope(r)] + Tail(r))
    else if InDue(r) then BE(r.ms, 8) + (RouteKey(r.coll) + r.tail)
    else if r.Dedup? then r.key
    else if r.Ring? then BE(r.slot, 8)
    else if r.Applied? then APPLIED_NAME
    else if r.DedupSeq? then DEDUPSEQ_NAME
    else [FROZEN_TAG] + r.start
  }

  /** A key without its eight-byte shard prefix. */
  function Suffix(r: Row): bytes { [Sub(r)] + Body(r) }

  function ShardPrefix(shard: nat): bytes { BE(shard, 8) }

  function Key(shard: nat, r: Row): bytes { ShardPrefix(shard) + Suffix(r) }

  /** The size bounds the uint32 and uint64 fields of the layout presume. */
  predicate Fits(r: Row)
  {
    && (OfColl(r) ==> Short(r.coll.ns) && Short(r.coll.name) && |r.coll.ns| + |r.coll.name| + |Tail(r)| + 17 < TWO32)
    && (InDue(r) ==> r.ms < TWO64)
    && (r.Ring? ==> r.slot < TWO64)
  }

  lemma RouteKeyPrefixFree(c: Coll, x: bytes, d: Coll, y: bytes)
    requires Short(c.ns) && Short(c.name) && Short(d.ns) && Short(d.name)
    requires RouteKey(c) + x == RouteKey(d) + y
    ensures c == d && x == y
  {
    hide Chunk;
    assert RouteKey(c) + x == Chunk(c.ns) + (Chunk(c.name) + x);
    assert RouteKey(d) + y == Chunk(d.ns) + (Chunk(d.name) + y);
    ChunkPrefixFree(c.ns, Chunk(c.name) + x, d.ns, Chunk(d.name) + y);
    ChunkPrefixFree(c.name, x, d.name, y);
  }

  lemma DataInjective(r: Row, q: Row)
    requires InData(r) && InData(q) && Fits(r) && Fits(q) && Body(r) == Body(q)
    ensures r == q
  {
    hide RouteKey;
    RouteKeyPrefixFree(r.coll, [Scope(r)] + Tail(r), q.coll, [Scope(q)] + Tail(q));
    assert ([Scope(r)] + Tail(r))[1..] == Tail(r) && ([Scope(q)] + Tail(q))[1..] == Tail(q);
    assert ([Scope(r)] + Tail(r))[0] == Scope(r) && ([Scope(q)] + Tail(q))[0] == Scope(q);
  }

  lemma DueInjective(r: Row, q: Row)
    requires InDue(r) && InDue(q) && Fits(r) && Fits(q) && Body(r) == Body(q)
    ensures r.ms == q.ms && r.coll == q.coll && r.tail == q.tail
  {
    hide RouteKey, BE;
    assert Body(r)[..8] == BE(r.ms, 8) && Body(q)[..8] == BE(q.ms, 8);
    assert Body(r)[8..] == RouteKey(r.coll) + r.tail && Body(q)[8..] == RouteKey(q.coll) + q.tail;
    U64Injective(r.ms, q.ms);
    RouteKeyPrefixFree(r.coll, r.tail, q.coll, q.tail);
  }

  lemma MetaInjective(r: Row, q: Row)
    requires !OfColl(r) && !OfColl(q) && Sub(r) == Sub(q) && Fits(r) && Fits(q) && Body(r) == Body(q)
    ensures r == q
  {
    hide BE;
    if r.Ring? {
      U64Injective(r.slot, q.slot);
    } else if r.Frozen? {
      assert Body(r)[0] == Body(q)[0] == FROZEN_TAG;
      assert q.Frozen? && Body(r)[1..] == r.start && Body(q)[1..] == q.start;
    } else if !r.Dedup? {
      assert Body(r)[0] == Body(q)[0] != FROZEN_TAG;
      assert |APPLIED_NAME| != |DEDUPSEQ_NAME|;
    }
  }

  /** Keys of different collections, scopes and families never collide. */
  lemma SuffixInjective(r: Row, q: Row)
    requires Fits(r) && Fits(q) && Suffix(r) == Suffix(q)
    ensures r == q
  {
    hide Body;
    assert Suffix(r)[0] == Sub(r) && Suffix(q)[0] == Sub(q);
    assert Suffix(r)[1..] == Body(r) && Suffix(q)[1..] == Body(q);
    if InData(r) { DataInjective(r, q); } else if InDue(r) { DueInjective(r, q); } else { MetaInjective(r, q); }
  }

  /** Keys of different shards never collide either. */
  lemma KeyInjective(s: nat, r: Row, t: nat, q: Row)
    requires s < TWO64 && t < TWO64 && Fits(r) && Fits(q) && Key(s, r) == Key(t, q)
    ensures s == t && r == q
  {
    hide Suffix, BE;
    assert Key(s, r)[..8] == BE(s, 8) && Key(t, q)[..8] == BE(t, 8);
    assert Key(s, r)[8..] == Suffix(r) && Key(t, q)[8..] == Suffix(q);
    U64Injective(s, t);
    SuffixInjective(r, q);
  }

  // ---------------------------------------------------------------- routing keys

  /** routeKeyOf: the routing key of a data or TTL-index key; every other key has none. */
  function RouteKeyOf(suffix: bytes): (r: Option<bytes>)
  {
    if suffix == [] then None
    else if suffix[0] == SUB_DATA then RouteOfBody(suffix[1..])
    else if suffix[0] == SUB_TTL then if |suffix| < 9 then None else RouteOfBody(suffix[9..])
    else None
  }

  function RouteOfBody(body: bytes): (r: Option<bytes>)
  {
    var c := CollOfBody(body);
    if c.None? then None else Some(RouteKey(c.value))
  }

  /** The (ns, coll) two leading chunks spell. */
  function CollOfBody(body: bytes): (r: Option<Coll>)
  {
    var ns := TakeChunk(body);
    if ns.None? then None else
    var name := TakeChunk(ns.value.1);
    if name.None? then None else Some(Coll(ns.value.0, name.value.0))
  }

  lemma CollOfBodyExact(c: Coll, rest: bytes)
    requires |c.ns| + |c.name| + |rest| + 8 < TWO32
    ensures CollOfBody(RouteKey(c) + rest) == Some(c)
  {
    hide Chunk, TakeChunk;
    assert RouteKey(c) + rest == Chunk(c.ns) + (Chunk(c.name) + rest);
    assert |Chunk(c.name)| == 4 + |c.name|;
    TakeChunkOfChunk(c.ns, Chunk(c.name) + rest);
    TakeChunkOfChunk(c.name, rest);
  }

  /** A migrated row is routed by its own collection; the families a split does not carry have no route. */
  lemma RouteOfRow(r: Row)
    requires Fits(r)
    ensures RouteKeyOf(Suffix(r)) == if InData(r) || r.TTLIdx? then Some(RouteKey(r.coll)) else None
  {
    hide RouteKey, CollOfBody, BE;
    assert Suffix(r)[0] == Sub(r) && Suffix(r)[1..] == Body(r);
    if InData(r) {
      CollOfBodyExact(r.coll, [Scope(r)] + Tail(r));
    } else if r.TTLIdx? {
      assert Suffix(r)[9..] == RouteKey(r.coll) + r.tail;
      CollOfBodyExact(r.coll, r.tail);
    }
  }

  /** Routing keys identify collections. */
  lemma RouteKeyInjective(c: Coll, d: Coll)
    requires Short(c.ns) && Short(c.name) && Short(d.ns) && Short(d.name) && RouteKey(c) == RouteKey(d)
    ensures c == d
  {
    hide RouteKey;
    assert RouteKey(c) + [] == RouteKey(d) + [];
    RouteKeyPrefixFree(c, [], d, []);
  }

  /** inRoute and frozenCovers' interval test; empty bounds are unbounded. */
  predicate InRoute(rk: bytes, start: bytes, end: bytes)
  {
    (start == [] || Leq(start, rk)) && (end == [] || Less(rk, end))
  }

  // ---------------------------------------------------------------- due scans

  /** The half-open key interval scanBudDue and scanDue read: [space, space || be(now + 1)). */
  predicate InDueScan(shard: nat, sub: byte, nowMs: nat, key: bytes)
  {
    var space := ShardPrefix(shard) + [sub];
    Leq(space, key) && Less(key, space + BE(nowMs + 1, 8))
  }

  /** An index key falls into the scanned interval exactly when its time is at or before now. */
  lemma DueKeyInScan(shard: nat, r: Row, nowMs: nat)
    requires shard < TWO64 && Fits(r) && InDue(r) && nowMs + 1 < TWO64
    ensures InDueScan(shard, Sub(r), nowMs, Key(shard, r)) <==> r.ms <= nowMs
  {
    hide RouteKey, BE, Less;
    var space := ShardPrefix(shard) + [Sub(r)];
    var end := BE(nowMs + 1, 8);
    var rest := RouteKey(r.coll) + r.tail;
    assert Key(shard, r) == space + (BE(r.ms, 8) + rest);
    assert space <= Key(shard, r);
    LeqPrefix(space, Key(shard, r));
    LessAfterPrefix(space, BE(r.ms, 8) + rest, end);
    U64Order(r.ms, nowMs + 1);
    if r.ms == nowMs + 1 {
      LeqPrefix(end, BE(r.ms, 8) + rest);
      LessTotal(end, BE(r.ms, 8) + rest);
    } else {
      if BE(r.ms, 8) == end { U64Injective(r.ms, nowMs + 1); }
      assert end + [] == end;
      LessByHead(BE(r.ms, 8), rest, end, []);
    }
  }

  /** No row of another family or shard falls into the interval. */
  lemma OnlyDueKeysInScan(shard: nat, sub: byte, s: nat, r: Row, nowMs: nat)
    requires shard < TWO64 && s < TWO64 && Fits(r) && nowMs + 1 < TWO64
    requires InDueScan(shard, sub, nowMs, Key(s, r))
    ensures s == shard && Sub(r) == sub
  {
    hide Body, BE, Less;
    var space := ShardPrefix(shard) + [sub];
    var k := Key(s, r);
    var head := ShardPrefix(s) + [Sub(r)];
    assert k == head + Body(r);
    assert |head| == |space| == 9;
    if head != space {
      LessByHead(head, Body(r), space, BE(nowMs + 1, 8));
      assert space + [] == space;
      LessByHead(space, [], head, Body(r));
      assert k[..9] == head;
      LessTotal(head, space);
      assert false;
    }
    assert head[..8] == ShardPrefix(s) && space[..8] == ShardPrefix(shard) && head[8] == Sub(r) && space[8] == sub;
    U64Injective(s, shard);
  }

  // ---------------------------------------------------------------- sorted-set index keys

  /** sortableScore on bit patterns: flip the sign bit of positives, every bit of negatives. */
  function SortBits(bits: nat): (r: nat)
    requires bits < TWO64
    ensures r < TWO64
  {
    if bits >= TWO63 then TWO64 - 1 - bits else bits + TWO63
  }

  function UnsortBits(s: nat): (r: nat)
    requires s < TWO64
    ensures r < TWO64
  {
    if s >= TWO63 then s - TWO63 else TWO64 - 1 - s
  }

  /** sortableScore(score) || member: a member's place in the score-ordered index. */
  function ScoreTail(bits: nat, member: bytes): bytes
    requires bits < TWO64
  {
    BE(SortBits(bits), 8) + member
  }

  lemma ScoreTailInjective(a: nat, m: bytes, b: nat, n: bytes)
    requires a < TWO64 && b < TWO64 && ScoreTail(a, m) == ScoreTail(b, n)
    ensures a == b && m == n
  {
    hide BE;
    assert ScoreTail(a, m)[..8] == BE(SortBits(a), 8) && ScoreTail(b, n)[..8] == BE(SortBits(b), 8);
    assert ScoreTail(a, m)[8..] == m && ScoreTail(b, n)[8..] == n;
    U64Injective(SortBits(a), SortBits(b));
  }

  /** ZRANGE reads the score back from the index key. */
  lemma ScoreRoundTrip(bits: nat, member: bytes)
    requires bits < TWO64
    ensures var t := ScoreTail(bits, member);
      FromBE(t[..8]) == SortBits(bits) && UnsortBits(SortBits(bits)) == bits && t[8..] == member
  {
    hide BE;
    assert ScoreTail(bits, member)[..8] == BE(SortBits(bits), 8);
    U64RoundTrip(SortBits(bits));
  }
}
