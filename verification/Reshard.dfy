/** Logical restore of the collection rows into a cluster with another number of data shards: the re-routing
    of a key and the restore loop (reshard.go, directory.go, logical_restore.go). */
module Reshard {
  import opened Bytes
  import opened Codec
  import opened Rows
  import opened Snapshot

  const FIRST_DATA_SHARD: nat := 2

  /** One byte of FNV-1a, 64 bit: exclusive or, then the prime. */
  function Mixed(h: bv64, x: byte): bv64 { (h ^ (x as bv64)) * 0x100000001b3 }

  function Fnv64a(b: bytes): bv64
  {
    if b == [] then 0xcbf29ce484222325 else Mixed(Fnv64a(b[..|b| - 1]), b[|b| - 1])
  }

  /** The data shard of a collection among n; 0 counts as 1. */
  function ShardForKey(c: Coll, n: nat): (r: nat)
    ensures FIRST_DATA_SHARD <= r < FIRST_DATA_SHARD + (if n < 1 then 1 else n)
  {
    FIRST_DATA_SHARD + (Fnv64a(RouteKey(c)) as nat) % (if n < 1 then 1 else n)
  }

  lemma FnvNext(b: bytes, x: byte)
    ensures Fnv64a(b + [x]) == Mixed(Fnv64a(b), x)
  {
    hide Mixed;
    assert (b + [x])[..|b|] == b;
  }

  lemma FirstLetters()
    ensures Mixed(0xcbf29ce484222325, 97) == 0xaf63dc4c8601ec8c
    ensures Mixed(0xcbf29ce484222325, 98) == 0xaf63df4c8601f1a5
    ensures Mixed(0xcbf29ce484222325, 102) == 0xaf63db4c8601ead9
  {
  }

  lemma NextLetters()
    ensures Mixed(0xaf63db4c8601ead9, 111) == 0x8985907b541d342
    ensures Mixed(0x8985907b541d342, 111) == 0xdcb27518fed9d577
  {
  }

  lemma LastLetters()
    ensures Mixed(0xdcb27518fed9d577, 98) == 0xdd120e790c2512af
    ensures Mixed(0xdd120e790c2512af, 97) == 0xcac165afa2fef40a
    ensures Mixed(0xcac165afa2fef40a, 114) == 0x85944171f73967e8
  {
  }

  /** The published FNV-1a vectors of "", "a", "b" and "foobar". */
  lemma FnvVectors()
    ensures Fnv64a([]) == 0xcbf29ce484222325
    ensures Fnv64a(Ascii("a")) == 0xaf63dc4c8601ec8c && Fnv64a(Ascii("b")) == 0xaf63df4c8601f1a5
    ensures Fnv64a(Ascii("foobar")) == 0x85944171f73967e8
  {
    hide Mixed;
    FirstLetters();
    NextLetters();
    LastLetters();
    var w: bytes := [102, 111, 111, 98, 97, 114];
    assert Ascii("foobar") == w && Ascii("a") == [] + [97] && Ascii("b") == [] + [98];
    assert Fnv64a([]) == 0xcbf29ce484222325;
    hide Fnv64a;
    FnvNext([], 97);
    FnvNext([], 98);
    forall i | 0 <= i < 6 ensures w[..i + 1] == w[..i] + [w[i]] {}
    FnvNext(w[..0], w[0]);
    FnvNext(w[..1], w[1]);
    FnvNext(w[..2], w[2]);
    FnvNext(w[..3], w[3]);
    FnvNext(w[..4], w[4]);
    FnvNext(w[..5], w[5]);
    assert w[..6] == w;
  }

  function Times(q: int, m: nat): int { q * m }

  lemma AtLeastOnce(k: int, m: nat)
    ensures k >= 1 ==> Times(k, m) >= m
    ensures k <= -1 ==> Times(k, m) <= -(m as int)
  {
  }

  lemma Remainder(h: nat, m: nat, q: nat, r: nat)
    requires r < m && h == Times(q, m) + r
    ensures h % m == r
  {
    assert h == Times(h / m, m) + h % m;
    assert Times(h / m - q, m) == Times(h / m, m) - Times(q, m);
    AtLeastOnce(h / m - q, m);
  }

  /** The shard of a collection is two more than the remainder of its hash by the number of shards. */
  lemma ShardOfHash(c: Coll, n: nat, q: nat, r: nat)
    requires r < (if n < 1 then 1 else n) && Fnv64a(RouteKey(c)) as nat == Times(q, if n < 1 then 1 else n) + r
    ensures ShardForKey(c, n) == 2 + r
  {
    hide Fnv64a, RouteKey, Times;
    Remainder(Fnv64a(RouteKey(c)) as nat, if n < 1 then 1 else n, q, r);
  }

  function CollOfSuffix(x: bytes): (r: Option<Coll>)
  {
    if x == [] then None
    else if x[0] == SUB_DATA then CollOfBody(x[1..])
    else if x[0] == SUB_TTL || x[0] == SUB_BUDEXP || x[0] == SUB_BUDGC then
      if |x| < 9 then None else CollOfBody(x[9..])
    else None
  }

  datatype Route = Dropped | To(shard: nat) | Unroutable

  function RerouteSuffix(x: bytes, n: nat): (r: Route)
  {
    if x == [] then Unroutable
    else if x[0] == SUB_META || x[0] == SUB_DEDUP || x[0] == SUB_RING then Dropped
    else var c := CollOfSuffix(x); if c.None? then Unroutable else To(ShardForKey(c.value, n))
  }

  datatype NewKey = Skip | Moved(key: bytes) | BadKey

  function ReshardKey(k: bytes, n: nat): (r: NewKey)
  {
    if |k| < 8 then BadKey
    else if FromBE(k[..8]) < FIRST_DATA_SHARD then Skip
    else match RerouteSuffix(k[8..], n)
         case Unroutable => BadKey
         case Dropped => Skip
         case To(s) => Moved(ShardPrefix(s) + k[8..])
  }

  lemma CollOfRow(r: Row)
    requires Fits(r)
    ensures CollOfSuffix(Suffix(r)) == if OfColl(r) then Some(r.coll) else None
  {
    hide RouteKey, CollOfBody, BE;
    assert Suffix(r)[0] == Sub(r) && Suffix(r)[1..] == Body(r);
    if InData(r) {
      CollOfBodyExact(r.coll, [Scope(r)] + Tail(r));
    } else if InDue(r) {
      assert Suffix(r)[9..] == RouteKey(r.coll) + r.tail;
      CollOfBodyExact(r.coll, r.tail);
    }
  }

  /** Every row of a data shard is decided: collection rows go to the collection's shard under the new
      count with the same suffix, bookkeeping is dropped, and nothing is an error. Rows of the meta shard
      are dropped whatever they are. */
  lemma RowsReshard(s: nat, r: Row, n: nat)
    requires s < TWO64 && Fits(r)
    ensures ReshardKey(Key(s, r), n) ==
      if s < FIRST_DATA_SHARD || !OfColl(r) then Skip else Moved(Key(ShardForKey(r.coll, n), r))
  {
    hide BE, FromBE, ShardForKey, Fnv64a, CollOfSuffix, Suffix;
    CollOfRow(r);
    var k := Key(s, r);
    assert k[..8] == BE(s, 8) && k[8..] == Suffix(r);
    U64RoundTrip(s);
    SuffixHead(r);
  }

  /** A key stops the restore if and only if it has no shard prefix, or belongs to a data shard and has no sub-space, an
      unknown one, or no collection where one must be. */
  lemma BadKeys(k: bytes, n: nat)
    ensures ReshardKey(k, n).BadKey? <==>
      || |k| < 8
      || (FromBE(k[..8]) >= 2
          && (|k| == 8 || k[8] > 6 || (k[8] == 1 && CollOfBody(k[9..]).None?)
              || (k[8] in {2, 5, 6} && (|k| < 17 || CollOfBody(k[17..]).None?))))
  {
    hide FromBE, CollOfBody, ShardForKey;
    if |k| > 8 {
      assert k[8..][0] == k[8] && k[8..][1..] == k[9..];
      if |k| >= 17 { assert k[8..][9..] == k[17..]; }
    }
  }

  lemma SuffixHead(r: Row)
    ensures Suffix(r) != [] && Suffix(r)[0] == Sub(r)
  {
  }

  // ---------------------------------------------------------------- the restore loop

  const RESTORE_BATCH: nat := 1000

  ghost predicate AllDecided(es: seq<RawKV>, n: nat)
  {
    forall i :: 0 <= i < |es| ==> ReshardKey(es[i].suffix, n) != BadKey
  }

  /** The store after re-sharding the entries es. */
  ghost function Restored(m: Store, es: seq<RawKV>, n: nat): Store
  {
    if es == [] then m else
    var e := es[|es| - 1];
    var h := Restored(m, es[..|es| - 1], n);
    var k := ReshardKey(e.suffix, n);
    if k.Moved? then h[k.key := e.value] else h
  }

  lemma RestoredSnoc(m: Store, es: seq<RawKV>, e: RawKV, n: nat)
    ensures Restored(m, es + [e], n) == var k := ReshardKey(e.suffix, n);
      if k.Moved? then Restored(m, es, n)[k.key := e.value] else Restored(m, es, n)
  {
    hide ReshardKey;
    assert (es + [e])[..|es|] == es;
  }

  /** restoreCFObject for the collection rows with a target shard count. es are the pairs the reader
      decodes before it reports the end; broken is a read error after them. */
  method Restore(dst: KVStore, es: seq<RawKV>, broken: bool, want: nat, n: nat) returns (ok: bool)
    modifies dst
    ensures ok == (AllDecided(es, n) && !broken && |es| == want)
    ensures ok ==> dst.m == Restored(old(dst.m), es, n)
  {
    hide ReshardKey;
    ghost var was := dst.m;
    var ops: seq<StoreOp> := [];
    for i := 0 to |es|
      invariant forall j :: 0 <= j < i ==> ReshardKey(es[j].suffix, n) != BadKey
      invariant ApplyAll(dst.m, ops) == Restored(was, es[..i], n)
    {
      var k := ReshardKey(es[i].suffix, n);
      if k.BadKey? { return false; }
      assert es[..i + 1] == es[..i] + [es[i]];
      RestoredSnoc(was, es[..i], es[i], n);
      if k.Moved? {
        ApplySnoc(dst.m, ops, Put(k.key, es[i].value));
        ops := ops + [Put(k.key, es[i].value)];
        if |ops| >= RESTORE_BATCH {
          dst.BatchRC(ops);
          ops := [];
        }
      }
    }
    if broken || |es| != want { return false; }
    dst.BatchRC(ops);
    assert es[..|es|] == es;
    return true;
  }

  // ---------------------------------------------------------------- meaning

  ghost predicate EntriesOf(es: seq<RawKV>, src: Store)
  {
    && (forall i :: 0 <= i < |es| ==> es[i].suffix in src && src[es[i].suffix] == es[i].value)
    && (forall k :: k in src ==> RawKV(k, src[k]) in es)
  }

  /** k of the source ends up under key t. */
  ghost predicate Lands(src: Store, k: bytes, t: bytes, n: nat) { k in src && ReshardKey(k, n) == Moved(t) }

  /** No two source rows end up under one key. */
  ghost predicate Apart(src: Store, n: nat)
  {
    forall k, l, t :: Lands(src, k, t, n) && Lands(src, l, t, n) ==> k == l
  }

  /** Without collisions the target holds, under each key, the value of the one row that lands there. */
  lemma {:induction false} RestoredRow(m: Store, es: seq<RawKV>, src: Store, n: nat, t: bytes)
    requires forall i :: 0 <= i < |es| ==> es[i].suffix in src && src[es[i].suffix] == es[i].value
    requires Apart(src, n)
    ensures forall i :: 0 <= i < |es| && Lands(src, es[i].suffix, t, n) ==>
      t in Restored(m, es, n) && Restored(m, es, n)[t] == es[i].value
    ensures (forall i :: 0 <= i < |es| ==> !Lands(src, es[i].suffix, t, n)) ==>
      (t in Restored(m, es, n) <==> t in m) && (t in m ==> Restored(m, es, n)[t] == m[t])
  {
    hide ReshardKey, Apart;
    if es != [] {
      var h := es[..|es| - 1];
      RestoredRow(m, h, src, n, t);
      assert forall i :: 0 <= i < |h| ==> h[i] == es[i];
      if ReshardKey(es[|es| - 1].suffix, n) == Moved(t) { LastLands(es, src, n, t); }
    }
  }

  lemma LastLands(es: seq<RawKV>, src: Store, n: nat, t: bytes)
    requires es != [] && forall i :: 0 <= i < |es| ==> es[i].suffix in src && src[es[i].suffix] == es[i].value
    requires Apart(src, n) && ReshardKey(es[|es| - 1].suffix, n) == Moved(t)
    ensures forall i :: 0 <= i < |es| && Lands(src, es[i].suffix, t, n) ==> es[i].value == es[|es| - 1].value
  {
    hide ReshardKey;
    assert Lands(src, es[|es| - 1].suffix, t, n);
  }

  ghost predicate IsKey(k: bytes, s: nat, r: Row) { s < TWO64 && Fits(r) && k == Key(s, r) }

  ghost predicate IsRow(k: bytes) { exists s: nat, r :: IsKey(k, s, r) }

  /** A key of the meta shard, whose layout is its own. */
  ghost predicate IsSystem(k: bytes) { |k| >= 8 && FromBE(k[..8]) < FIRST_DATA_SHARD }

  /** The source store: meta shard keys and rows of data shards. */
  ghost predicate RowStore(src: Store) { forall k :: k in src ==> IsSystem(k) || IsRow(k) }

  lemma SystemSkips(k: bytes, n: nat)
    requires IsSystem(k)
    ensures ReshardKey(k, n) == Skip
  {
  }

  ghost predicate Holds(src: Store, s: nat, r: Row)
  {
    FIRST_DATA_SHARD <= s < TWO64 && Fits(r) && OfColl(r) && Key(s, r) in src
  }

  /** No two data shards hold one and the same row of a collection. */
  ghost predicate NoTwins(src: Store)
  {
    forall s: nat, s': nat, r :: Holds(src, s, r) && Holds(src, s', r) ==> s == s'
  }

  /** Every collection lives on one data shard. */
  ghost predicate OneHome(src: Store)
  {
    forall s: nat, s': nat, r, r' :: Holds(src, s, r) && Holds(src, s', r') && r.coll == r'.coll ==> s == s'
  }

  /** Where a row lands; only rows held by a data shard land anywhere. */
  lemma LandsAt(src: Store, s: nat, r: Row, n: nat, t: bytes)
    requires Key(s, r) in src && s < TWO64 && Fits(r)
    ensures Lands(src, Key(s, r), t, n) <==> Holds(src, s, r) && t == Key(ShardForKey(r.coll, n), r)
  {
    hide Key, ReshardKey, ShardForKey;
    RowsReshard(s, r, n);
  }

  lemma ShardBound(c: Coll, n: nat)
    requires n + FIRST_DATA_SHARD < TWO64
    ensures ShardForKey(c, n) < TWO64
  {
  }

  lemma ApartPair(src: Store, n: nat, k: bytes, l: bytes, t: bytes)
    requires RowStore(src) && NoTwins(src) && n + FIRST_DATA_SHARD < TWO64
    requires Lands(src, k, t, n) && Lands(src, l, t, n)
    ensures k == l
  {
    hide Key, ReshardKey, ShardForKey, Lands;
    LandsIn(src, k, t, n);
    LandsIn(src, l, t, n);
    var s: nat, r :| IsKey(k, s, r);
    var s': nat, r' :| IsKey(l, s', r');
    LandsAt(src, s, r, n, t);
    LandsAt(src, s', r', n, t);
    ShardBound(r.coll, n);
    ShardBound(r'.coll, n);
    KeyInjective(ShardForKey(r.coll, n), r, ShardForKey(r'.coll, n), r');
  }

  lemma LandsIn(src: Store, k: bytes, t: bytes, n: nat)
    requires Lands(src, k, t, n) && RowStore(src)
    ensures k in src && IsRow(k)
  {
    hide ReshardKey, IsRow;
    if IsSystem(k) { SystemSkips(k, n); }
  }

  /** Re-sharding merges no rows exactly when no row is held by two data shards. */
  lemma ApartExactly(src: Store, n: nat)
    requires RowStore(src) && n + FIRST_DATA_SHARD < TWO64
    ensures Apart(src, n) <==> NoTwins(src)
  {
    hide Key, ReshardKey, ShardForKey, Lands, RowStore;
    if NoTwins(src) {
      forall k, l, t | Lands(src, k, t, n) && Lands(src, l, t, n) ensures k == l { ApartPair(src, n, k, l, t); }
    }
    if Apart(src, n) {
      forall s: nat, s': nat, r | Holds(src, s, r) && Holds(src, s', r) ensures s == s'
      {
        var t := Key(ShardForKey(r.coll, n), r);
        LandsAt(src, s, r, n, t);
        LandsAt(src, s', r, n, t);
        KeyInjective(s, r, s', r);
      }
    }
  }

  lemma OneHomeNoTwins(src: Store)
    requires OneHome(src)
    ensures NoTwins(src)
  {
    hide Holds;
  }

  lemma AllRowsDecided(es: seq<RawKV>, src: Store, n: nat)
    requires RowStore(src) && EntriesOf(es, src)
    ensures AllDecided(es, n)
  {
    hide Key, ReshardKey, ShardForKey;
    forall i | 0 <= i < |es| ensures ReshardKey(es[i].suffix, n) != BadKey
    {
      if IsSystem(es[i].suffix) {
        SystemSkips(es[i].suffix, n);
      } else {
        var s: nat, r :| IsKey(es[i].suffix, s, r);
        RowsReshard(s, r, n);
      }
    }
  }

  /** Re-sharding preserves meaning: each row of a collection is on the shard that clients compute for it,
      with its value. */
  lemma ReshardPlaces(m: Store, es: seq<RawKV>, src: Store, n: nat, s: nat, r: Row)
    requires RowStore(src) && NoTwins(src) && EntriesOf(es, src) && n + FIRST_DATA_SHARD < TWO64
    requires Holds(src, s, r)
    ensures var t := Key(ShardForKey(r.coll, n), r);
      t in Restored(m, es, n) && Restored(m, es, n)[t] == src[Key(s, r)]
  {
    hide Key, ReshardKey, ShardForKey, Lands, RowStore, NoTwins, Restored, Apart;
    var t := Key(ShardForKey(r.coll, n), r);
    ApartExactly(src, n);
    RestoredRow(m, es, src, n, t);
    LandsAt(src, s, r, n, t);
    assert RawKV(Key(s, r), src[Key(s, r)]) in es;
    var i :| 0 <= i < |es| && es[i] == RawKV(Key(s, r), src[Key(s, r)]);
  }

  /** ... and everything else in the target was there before. */
  lemma ReshardAddsOnly(m: Store, es: seq<RawKV>, src: Store, n: nat, t: bytes)
    requires RowStore(src) && NoTwins(src) && EntriesOf(es, src) && n + FIRST_DATA_SHARD < TWO64
    requires forall s: nat, r :: Holds(src, s, r) ==> t != Key(ShardForKey(r.coll, n), r)
    ensures t in Restored(m, es, n) <==> t in m
    ensures t in m ==> Restored(m, es, n)[t] == m[t]
  {
    hide Key, ReshardKey, ShardForKey, Lands, NoTwins, Restored, Apart;
    ApartExactly(src, n);
    RestoredRow(m, es, src, n, t);
    forall i | 0 <= i < |es| ensures !Lands(src, es[i].suffix, t, n)
    {
      if Lands(src, es[i].suffix, t, n) {
        LandsIn(src, es[i].suffix, t, n);
        var s: nat, r :| IsKey(es[i].suffix, s, r);
        LandsAt(src, s, r, n, t);
      }
    }
  }
}
