/** Saving a shard and installing the snapshot on a replica (base_sm.go): the framed stream, the clearing of
    the shard's prefix, and the batches flushed at 1024 operations. */
module Snapshot {
  import opened Bytes
  import opened Codec
  import opened Rows
  import opened Migrate

  /** The whole store: full keys, shard prefix included. */
  type Store = map<bytes, bytes>

  datatype StoreOp = Put(key: bytes, value: bytes) | Del(key: bytes)

  function ApplyOp(m: Store, op: StoreOp): Store
  {
    match op case Put(k, v) => m[k := v] case Del(k) => m - {k}
  }

  function ApplyAll(m: Store, ops: seq<StoreOp>): Store
  {
    if ops == [] then m else ApplyOp(ApplyAll(m, ops[..|ops| - 1]), ops[|ops| - 1])
  }

  lemma ApplySnoc(m: Store, ops: seq<StoreOp>, op: StoreOp)
    ensures ApplyAll(m, ops + [op]) == ApplyOp(ApplyAll(m, ops), op)
  {
    assert (ops + [op])[..|ops|] == ops;
  }

  class KVStore {
    var m: Store

    constructor ()
      ensures m == map[]
    {
      m := map[];
    }

    method BatchRC(ops: seq<StoreOp>)
      modifies this
      ensures m == ApplyAll(old(m), ops)
    {
      for i := 0 to |ops|
        invariant m == ApplyAll(old(m), ops[..i])
      {
        assert ops[..i + 1][..i] == ops[..i];
        m := ApplyOp(m, ops[i]);
      }
      assert ops[..|ops|] == ops;
    }
  }

  const FLUSH_AT: nat := 1024
  const APPLIED: bytes := [SUB_META] + APPLIED_NAME

  /** rows are what the store holds under prefix p. */
  ghost predicate Views(rows: Raw, m: Store, p: bytes)
  {
    forall x :: (x in rows <==> p + x in m) && (x in rows ==> rows[x] == m[p + x])
  }

  /** What the store's iterator over [p, prefixEnd(p)) yields. */
  ghost predicate Scans(it: seq<RawKV>, m: Store, p: bytes)
  {
    && (forall i :: 0 <= i < |it| ==> it[i].suffix in m && m[it[i].suffix] == it[i].value
                                      && InScan(it[i].suffix, p, PrefixEnd(p)))
    && (forall k :: k in m && InScan(k, p, PrefixEnd(p)) ==> RawKV(k, m[k]) in it)
    && (forall i, j :: 0 <= i < j < |it| ==> it[i].suffix != it[j].suffix)
  }

  /** baseSM.Open: the persisted applied index, 0 when the shard is new, None when it is corrupt. */
  function Open(m: Store, p: bytes): (r: Option<nat>)
  {
    var k := p + APPLIED;
    if k !in m then Some(0) else if |m[k]| != 8 then None else Some(FromBE(m[k]))
  }

  /** A shard that never stored an index opens at 0, any other at the index whose eight bytes it stored; anything else
      in that row is an error. */
  lemma OpenExactly(m: Store, p: bytes, n: nat)
    ensures Open(m, p) == Some(n) <==>
      if p + APPLIED in m then n < TWO64 && m[p + APPLIED] == BE(n, 8) else n == 0
  {
    hide BE, FromBE;
    var k := p + APPLIED;
    if k in m {
      if n < TWO64 { U64RoundTrip(n); }
      if |m[k]| == 8 {
        FromBERoundTrip(m[k]);
        FromBERange(m[k]);
        Pow256Values();
      }
    }
  }

  // ---------------------------------------------------------------- save

  function Stripped(it: seq<RawKV>, n: nat): seq<RawKV>
  {
    seq(|it|, i requires 0 <= i < |it| => RawKV(if n <= |it[i].suffix| then it[i].suffix[n..] else [], it[i].value))
  }

  lemma {:induction false} EncodeKVsSnoc(kvs: seq<RawKV>, kv: RawKV)
    ensures EncodeKVs(kvs + [kv]) == EncodeKVs(kvs) + (Chunk(kv.suffix) + Chunk(kv.value))
  {
    hide Chunk;
    if kvs == [] {
      assert kvs + [kv] == [kv] && [kv][1..] == [];
      assert EncodeKVs([kv]) == Chunk(kv.suffix) + (Chunk(kv.value) + EncodeKVs([]));
    } else {
      assert (kvs + [kv])[0] == kvs[0] && (kvs + [kv])[1..] == kvs[1..] + [kv];
      EncodeKVsSnoc(kvs[1..], kv);
    }
  }

  /** SaveSnapshot: the applied index, then every row under the prefix. */
  method SaveSnapshot(it: seq<RawKV>, p: bytes, applied: nat) returns (out: bytes)
    requires applied < TWO64
    requires forall i :: 0 <= i < |it| ==> p <= it[i].suffix
    ensures out == Chunk(BE(applied, 8)) + EncodeKVs(Stripped(it, |p|))
  {
    hide Chunk, BE;
    var head := Chunk(BE(applied, 8));
    out := head;
    for i := 0 to |it|
      invariant out == head + EncodeKVs(Stripped(it[..i], |p|))
    {
      var kv := RawKV(it[i].suffix[|p|..], it[i].value);
      assert Stripped(it[..i + 1], |p|) == Stripped(it[..i], |p|) + [kv];
      EncodeKVsSnoc(Stripped(it[..i], |p|), kv);
      out := out + Chunk(kv.suffix) + Chunk(kv.value);
    }
    assert it[..|it|] == it;
  }

  /** The rows written are exactly the shard's. */
  lemma SavedRows(it: seq<RawKV>, m: Store, p: bytes, rows: Raw)
    requires Scans(it, m, p) && Views(rows, m, p)
    ensures Enumerates(Stripped(it, |p|), rows) && forall i :: 0 <= i < |it| ==> p <= it[i].suffix
  {
    hide InScan, PrefixEnd;
    var kvs := Stripped(it, |p|);
    forall i | 0 <= i < |it| ensures p <= it[i].suffix && it[i].suffix == p + kvs[i].suffix
    {
      PrefixEndExact(p, it[i].suffix);
    }
    forall i | 0 <= i < |kvs| ensures kvs[i].suffix in rows && rows[kvs[i].suffix] == kvs[i].value
    {
      assert it[i].suffix in m;
    }
    forall x | x in rows ensures RawKV(x, rows[x]) in kvs
    {
      PrefixEndExact(p, p + x);
      assert RawKV(p + x, m[p + x]) in it;
      var i :| 0 <= i < |it| && it[i] == RawKV(p + x, m[p + x]);
      assert kvs[i].suffix == x;
    }
  }

  // ---------------------------------------------------------------- the stream

  datatype Read = Eof | Bad | Got(chunk: bytes, rest: bytes)

  /** readChunk: a clean end is told apart from a torn frame. */
  function ReadChunk(b: bytes): (r: Read)
    ensures r.Got? ==> |r.rest| < |b|
  {
    if b == [] then Eof
    else if |b| < 4 then Bad
    else var n := FromBE(b[..4]); if |b| - 4 < n then Bad else Got(b[4..4 + n], b[4 + n..])
  }

  lemma ReadOfChunk(c: bytes, rest: bytes)
    requires Short(c)
    ensures ReadChunk(Chunk(c) + rest) == Got(c, rest)
  {
    hide BE, FromBE;
    var b := Chunk(c) + rest;
    assert b[..4] == BE(|c|, 4);
    U32RoundTrip(|c|);
    assert b[4..4 + |c|] == c && b[4 + |c|..] == rest;
  }

  /** The rows of a stream, or None when it is torn. */
  function ReadKVs(b: bytes): (r: Option<seq<RawKV>>)
    decreases |b|
  {
    var k := ReadChunk(b);
    if k.Eof? then Some([]) else if k.Bad? then None else
    var v := ReadChunk(k.rest);
    if !v.Got? then None else
    var t := ReadKVs(v.rest);
    if t.None? then None else Some([RawKV(k.chunk, v.chunk)] + t.value)
  }

  ghost predicate ShortRows(kvs: seq<RawKV>)
  {
    forall i :: 0 <= i < |kvs| ==> Short(kvs[i].suffix) && Short(kvs[i].value)
  }

  lemma {:induction false} StreamRoundTrip(kvs: seq<RawKV>)
    requires ShortRows(kvs)
    ensures ReadKVs(EncodeKVs(kvs)) == Some(kvs)
  {
    hide Chunk, Short;
    if kvs != [] {
      var tail := EncodeKVs(kvs[1..]);
      ReadOfChunk(kvs[0].suffix, Chunk(kvs[0].value) + tail);
      ReadOfChunk(kvs[0].value, tail);
      StreamRoundTrip(kvs[1..]);
      assert kvs == [kvs[0]] + kvs[1..];
    }
  }

  lemma CutChunk(c: bytes, rest: bytes, n: nat)
    requires Short(c) && n < |Chunk(c)|
    ensures ReadChunk((Chunk(c) + rest)[..n]) == if n == 0 then Eof else Bad
  {
    hide BE, FromBE;
    var b := (Chunk(c) + rest)[..n];
    if n >= 4 {
      assert b[..4] == BE(|c|, 4);
      U32RoundTrip(|c|);
    }
  }

  lemma FirstRow(kvs: seq<RawKV>, i: nat)
    requires 0 < i <= |kvs|
    ensures |EncodeKVs(kvs[..i])| == |Chunk(kvs[0].suffix)| + |Chunk(kvs[0].value)| + |EncodeKVs(kvs[1..][..i - 1])|
  {
    hide Chunk;
    assert kvs[..i][0] == kvs[0] && kvs[..i][1..] == kvs[1..][..i - 1];
  }

  lemma CutFirstRow(kvs: seq<RawKV>, n: nat)
    requires ShortRows(kvs) && kvs != [] && 0 < n < |Chunk(kvs[0].suffix)| + |Chunk(kvs[0].value)|
    ensures n <= |EncodeKVs(kvs)| && ReadKVs(EncodeKVs(kvs)[..n]).None?
  {
    hide Chunk, Short, ReadChunk;
    var k, v, tail := Chunk(kvs[0].suffix), Chunk(kvs[0].value), EncodeKVs(kvs[1..]);
    var e := EncodeKVs(kvs);
    assert e == k + (v + tail);
    if n < |k| {
      CutChunk(kvs[0].suffix, v + tail, n);
    } else {
      assert e[..n] == k + (v + tail)[..n - |k|];
      ReadOfChunk(kvs[0].suffix, (v + tail)[..n - |k|]);
      CutChunk(kvs[0].value, tail, n - |k|);
    }
  }

  /** A stream that is cut off is refused if and only if the cut is inside a row; cut between two rows it reads as a
      complete stream of the rows before. */
  lemma {:induction false} CutStream(kvs: seq<RawKV>, n: nat)
    requires ShortRows(kvs) && n <= |EncodeKVs(kvs)|
    ensures ReadKVs(EncodeKVs(kvs)[..n]).Some? <==> exists i: nat :: i <= |kvs| && n == |EncodeKVs(kvs[..i])|
    ensures forall i: nat :: i <= |kvs| && n == |EncodeKVs(kvs[..i])| ==> ReadKVs(EncodeKVs(kvs)[..n]) == Some(kvs[..i])
    decreases |kvs|
  {
    hide Chunk, Short, ReadChunk;
    var e := EncodeKVs(kvs);
    forall i: nat | i <= |kvs| && n == |EncodeKVs(kvs[..i])|
      ensures ReadKVs(e[..n]) == Some(kvs[..i])
    {
      CutBetween(kvs, i);
    }
    if ReadKVs(e[..n]).Some? {
      if n == 0 {
        assert kvs[..0] == [] && EncodeKVs(kvs[..0]) == [];
      } else {
        var k, v, tail := Chunk(kvs[0].suffix), Chunk(kvs[0].value), EncodeKVs(kvs[1..]);
        if n < |k| + |v| {
          CutFirstRow(kvs, n);
        } else {
          var m := n - |k| - |v|;
          assert e[..n] == k + (v + tail[..m]);
          ReadOfChunk(kvs[0].suffix, v + tail[..m]);
          ReadOfChunk(kvs[0].value, tail[..m]);
          CutStream(kvs[1..], m);
          var i: nat :| i <= |kvs[1..]| && m == |EncodeKVs(kvs[1..][..i])|;
          FirstRow(kvs, i + 1);
        }
      }
    }
  }

  lemma {:induction false} EncodeKVsConcat(a: seq<RawKV>, b: seq<RawKV>)
    ensures EncodeKVs(a + b) == EncodeKVs(a) + EncodeKVs(b)
  {
    hide Chunk;
    if a == [] {
      assert a + b == b;
    } else {
      assert (a + b)[0] == a[0] && (a + b)[1..] == a[1..] + b;
      EncodeKVsConcat(a[1..], b);
    }
  }

  lemma CutBetween(kvs: seq<RawKV>, i: nat)
    requires ShortRows(kvs) && i <= |kvs|
    ensures |EncodeKVs(kvs[..i])| <= |EncodeKVs(kvs)|
    ensures ReadKVs(EncodeKVs(kvs)[..|EncodeKVs(kvs[..i])|]) == Some(kvs[..i])
  {
    hide EncodeKVs, ReadKVs, Short;
    assert kvs == kvs[..i] + kvs[i..];
    EncodeKVsConcat(kvs[..i], kvs[i..]);
    StreamRoundTrip(kvs[..i]);
    assert EncodeKVs(kvs)[..|EncodeKVs(kvs[..i])|] == EncodeKVs(kvs[..i]);
  }

  // ---------------------------------------------------------------- recover

  ghost function Cleared(m: Store, p: bytes): Store { map k | k in m && !(p <= k) :: m[k] }

  ghost function Puts(m: Store, p: bytes, kvs: seq<RawKV>): Store
  {
    if kvs == [] then m else
    var n := |kvs| - 1;
    Puts(m, p, kvs[..n])[p + kvs[n].suffix := kvs[n].value]
  }

  method ClearPrefix(kv: KVStore, p: bytes, it: seq<RawKV>)
    requires Scans(it, kv.m, p)
    modifies kv
    ensures kv.m == Cleared(old(kv.m), p)
  {
    hide InScan, PrefixEnd;
    ghost var was := kv.m;
    var ops: seq<StoreOp> := [];
    for i := 0 to |it|
      invariant WithoutKeys(ApplyAll(kv.m, ops), was, it[..i])
    {
      ApplySnoc(kv.m, ops, Del(it[i].suffix));
      ops := ops + [Del(it[i].suffix)];
      assert it[..i + 1] == it[..i] + [it[i]];
      if |ops| >= FLUSH_AT {
        kv.BatchRC(ops);
        ops := [];
      }
    }
    kv.BatchRC(ops);
    assert it[..|it|] == it;
    ClearedAll(kv.m, was, p, it);
  }

  ghost predicate WithoutKeys(m: Store, was: Store, it: seq<RawKV>)
  {
    && (forall k :: k in m <==> k in was && forall j :: 0 <= j < |it| ==> it[j].suffix != k)
    && (forall k :: k in m ==> m[k] == was[k])
  }

  lemma ClearedAll(m: Store, was: Store, p: bytes, it: seq<RawKV>)
    requires Scans(it, was, p) && WithoutKeys(m, was, it)
    ensures m == Cleared(was, p)
  {
    hide InScan, PrefixEnd;
    forall k ensures k in m <==> k in Cleared(was, p)
    {
      PrefixEndExact(p, k);
      if k in was && p <= k {
        assert RawKV(k, was[k]) in it;
        var j :| 0 <= j < |it| && it[j] == RawKV(k, was[k]);
      }
      if k in was && !(p <= k) {
        forall j | 0 <= j < |it| ensures it[j].suffix != k { }
      }
    }
  }

  /** RecoverFromSnapshot. A stream whose head is torn changes nothing; one torn later has already cleared
      the shard. */
  method Recover(kv: KVStore, p: bytes, stream: bytes, it: seq<RawKV>) returns (ok: bool)
    requires Scans(it, kv.m, p)
    modifies kv
    ensures var h := ReadChunk(stream);
      && ok == (h.Got? && ReadKVs(h.rest).Some?)
      && (!h.Got? ==> kv.m == old(kv.m))
      && (ok ==> kv.m == Puts(Cleared(old(kv.m), p), p, ReadKVs(h.rest).value)[p + APPLIED := h.chunk])
      && Outside(kv.m, old(kv.m), p)
  {
    hide InScan, PrefixEnd, ReadChunk;
    var h := ReadChunk(stream);
    if !h.Got? { return false; }
    ghost var was := kv.m;
    ClearPrefix(kv, p, it);
    ghost var base := kv.m;
    assert Outside(base, was, p);
    var rest := h.rest;
    var ops: seq<StoreOp> := [];
    ghost var got: seq<RawKV> := [];
    ghost var all := ReadKVs(h.rest);
    while true
      invariant ReadKVs(rest).Some? <==> all.Some?
      invariant all.Some? ==> all.value == got + ReadKVs(rest).value
      invariant ApplyAll(kv.m, ops) == Puts(base, p, got)
      invariant Outside(kv.m, was, p) && Local(ops, p)
      decreases |rest|
    {
      var k := ReadChunk(rest);
      if k.Eof? { break; }
      if k.Bad? { return false; }
      var v := ReadChunk(k.rest);
      if !v.Got? { return false; }
      rest := v.rest;
      ApplySnoc(kv.m, ops, Put(p + k.chunk, v.chunk));
      ops := ops + [Put(p + k.chunk, v.chunk)];
      Grown(got, RawKV(k.chunk, v.chunk), ReadKVs(rest));
      PutsSnoc(base, p, got, RawKV(k.chunk, v.chunk));
      got := got + [RawKV(k.chunk, v.chunk)];
      if |ops| >= FLUSH_AT {
        OutsideOps(kv.m, was, ops, p);
        kv.BatchRC(ops);
        ops := [];
      }
    }
    ApplySnoc(kv.m, ops, Put(p + APPLIED, h.chunk));
    ops := ops + [Put(p + APPLIED, h.chunk)];
    OutsideOps(kv.m, was, ops, p);
    kv.BatchRC(ops);
    assert got + [] == got;
    return true;
  }

  lemma Grown(got: seq<RawKV>, kv: RawKV, t: Option<seq<RawKV>>)
    ensures t.Some? ==> got + ([kv] + t.value) == (got + [kv]) + t.value
  {
  }

  lemma PutsSnoc(m: Store, p: bytes, kvs: seq<RawKV>, kv: RawKV)
    ensures Puts(m, p, kvs + [kv]) == Puts(m, p, kvs)[p + kv.suffix := kv.value]
  {
    assert (kvs + [kv])[..|kvs|] == kvs;
  }

  /** Keys of other shards are untouched. */
  ghost predicate Outside(m: Store, was: Store, p: bytes)
  {
    forall k :: !(p <= k) ==> Same(m, was, k)
  }

  ghost predicate Local(ops: seq<StoreOp>, p: bytes) { forall i :: 0 <= i < |ops| ==> p <= ops[i].key }

  lemma {:induction false} OutsideOps(m: Store, was: Store, ops: seq<StoreOp>, p: bytes)
    requires Outside(m, was, p) && Local(ops, p)
    ensures Outside(ApplyAll(m, ops), was, p)
  {
    if ops != [] {
      var n := |ops| - 1;
      OutsideOps(m, was, ops[..n], p);
      forall k | !(p <= k) ensures Same(ApplyAll(m, ops), was, k) { assert Same(ApplyAll(m, ops[..n]), was, k); }
    }
  }

  // ---------------------------------------------------------------- install replaces

  lemma {:induction false} PutsRow(m: Store, p: bytes, kvs: seq<RawKV>, x: bytes)
    ensures p + x in Puts(m, p, kvs) <==> x in Ingest(map[], kvs) || p + x in m
    ensures x in Ingest(map[], kvs) ==> Puts(m, p, kvs)[p + x] == Ingest(map[], kvs)[x]
    ensures p + x in m && x !in Ingest(map[], kvs) ==> Puts(m, p, kvs)[p + x] == m[p + x]
  {
    if kvs != [] {
      var n := |kvs| - 1;
      PutsRow(m, p, kvs[..n], x);
      assert p + x == p + kvs[n].suffix ==> x == kvs[n].suffix by {
        assert (p + x)[|p|..] == x && (p + kvs[n].suffix)[|p|..] == kvs[n].suffix;
      }
    }
  }

  /** Recovering a saved shard replaces: whatever rows the replica held under the prefix, it ends with the
      snapshot's rows and the snapshot's applied index, and Open then reports that index. */
  lemma SnapshotReplaces(dst: Store, p: bytes, kvs: seq<RawKV>, rows: Raw, applied: nat)
    requires Enumerates(kvs, rows) && ShortRows(kvs) && applied < TWO64
    ensures var stream := Chunk(BE(applied, 8)) + EncodeKVs(kvs);
      ReadChunk(stream) == Got(BE(applied, 8), EncodeKVs(kvs)) && ReadKVs(EncodeKVs(kvs)) == Some(kvs)
    ensures var m := Puts(Cleared(dst, p), p, kvs)[p + APPLIED := BE(applied, 8)];
      Views(rows[APPLIED := BE(applied, 8)], m, p) && Open(m, p) == Some(applied)
  {
    hide BE, FromBE, Ingest, Puts, EncodeKVs, Chunk, ReadChunk, ReadKVs;
    StreamRoundTrip(kvs);
    assert |BE(applied, 8)| == 8 && Short(BE(applied, 8));
    ReadOfChunk(BE(applied, 8), EncodeKVs(kvs));
    U64RoundTrip(applied);
    IngestIsUnion(map[], kvs, rows);
    assert map[] + rows == rows;
    var base := Cleared(dst, p);
    var m := Puts(base, p, kvs)[p + APPLIED := BE(applied, 8)];
    var rows' := rows[APPLIED := BE(applied, 8)];
    forall x ensures (x in rows' <==> p + x in m) && (x in rows' ==> rows'[x] == m[p + x])
    {
      PutsRow(base, p, kvs, x);
      assert p + x !in base;
      assert p + x == p + APPLIED ==> x == APPLIED by {
        assert (p + x)[|p|..] == x && (p + APPLIED)[|p|..] == APPLIED;
      }
    }
  }

  /** An install that stopped part-way, having touched only this shard, is made good by running it again. */
  lemma ReinstallAfterCrash(dst: Store, torn: Store, p: bytes, kvs: seq<RawKV>)
    requires Outside(torn, dst, p)
    ensures Puts(Cleared(torn, p), p, kvs) == Puts(Cleared(dst, p), p, kvs)
  {
    hide Puts;
    forall k ensures k in Cleared(torn, p) <==> k in Cleared(dst, p) { assert p <= k || Same(torn, dst, k); }
    forall k | k in Cleared(torn, p) ensures Cleared(torn, p)[k] == Cleared(dst, p)[k] { assert Same(torn, dst, k); }
    assert Cleared(torn, p) == Cleared(dst, p);
  }
}
