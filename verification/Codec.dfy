/** The log-entry wire formats of command.go, migrate.go and proposer.go: single commands, coalesced
    batches, packed batch results and the raw-row ingest payload. Functions give the format; the methods
    are the encode and decode loops. */
module Codec {
  import opened Bytes

  // opcodes
  const SADD: byte := 1
  const SREM: byte := 2
  const HSET: byte := 3
  const HDEL: byte := 4
  const ZADD: byte := 5
  const ZREM: byte := 6
  const EXPIRE: byte := 7
  const INGEST: byte := 8
  const PURGE: byte := 9
  const FREEZE: byte := 10
  const UNFREEZE: byte := 11
  const HINCRBY: byte := 12
  const HINCRBYFLOAT: byte := 13
  const REMOVE: byte := 14
  const BATCH: byte := 15
  const BUDINIT: byte := 16
  const BUDGRANT: byte := 17
  const BUDREPORT: byte := 18
  const BUDRETURN: byte := 19
  const BUDEXPIRE: byte := 20
  const BUDTOMBGC: byte := 21
  const BUDRECONCILE: byte := 22

  // collection types; 0 is "no type"
  const TSET: byte := 1
  const THASH: byte := 2
  const TZSET: byte := 3
  const TBUDGET: byte := 4

  function TypeForOp(op: byte): (t: byte)
  {
    if op == SADD || op == SREM then TSET
    else if op == HSET || op == HDEL || op == HINCRBY || op == HINCRBYFLOAT then THASH
    else if op == ZADD || op == ZREM then TZSET
    else if BUDINIT <= op <= BUDRECONCILE then TBUDGET
    else 0
  }

  predicate Mutates(op: byte)
  {
    TypeForOp(op) != 0 || op == EXPIRE || op == REMOVE
  }

  /** manager.go: the commands the proposer may wrap into a batch. */
  predicate Coalescable(cmd: bytes)
  {
    cmd != [] && cmd[0] in {SADD, SREM, HSET, HDEL, ZADD, ZREM, HINCRBY, HINCRBYFLOAT, EXPIRE, REMOVE}
  }

  /** score is the 64-bit pattern of the float; expiryMs an int64. */
  datatype Item = Item(key: bytes, val: bytes, score: nat, expiryMs: int)
  datatype Command = Command(op: byte, ns: bytes, coll: bytes, idem: bytes, items: seq<Item>)
  datatype PResult = PResult(value: nat, data: bytes)
  datatype RawKV = RawKV(suffix: bytes, value: bytes)

  predicate ValidItem(it: Item)
  {
    it.score < TWO64 && -TWO63 <= it.expiryMs < TWO63
  }

  predicate ValidCommand(c: Command)
  {
    Mutates(c.op) && forall i :: 0 <= i < |c.items| ==> ValidItem(c.items[i])
  }

  // ---------------------------------------------------------------- single commands

  function EncodeItem(it: Item): bytes
    requires ValidItem(it)
  {
    Chunk(it.key) + (Chunk(it.val) + (BE(it.score, 8) + PutI64(it.expiryMs)))
  }

  function EncodeItems(its: seq<Item>): bytes
    requires forall i :: 0 <= i < |its| ==> ValidItem(its[i])
  {
    if its == [] then [] else EncodeItem(its[0]) + EncodeItems(its[1..])
  }

  function EncodeCommand(c: Command): bytes
    requires ValidCommand(c)
  {
    [c.op] + (Chunk(c.ns) + (Chunk(c.coll) + (Chunk(c.idem) + (BE(|c.items| % TWO32, 4) + EncodeItems(c.items)))))
  }

  function TakeItem(b: bytes): (r: Option<(Item, bytes)>)
    ensures r.Some? ==> ValidItem(r.value.0)
  {
    var k := TakeChunk(b);
    if k.None? then None else
    var v := TakeChunk(k.value.1);
    if v.None? then None else
    var rest := v.value.1;
    if |rest| < 16 then None else
    Pow256Values(); FromBERange(rest[..8]);
    Some((Item(k.value.0, v.value.0, FromBE(rest[..8]), GetI64(rest[8..16])), rest[16..]))
  }

  function TakeItems(n: nat, b: bytes): (r: Option<(seq<Item>, bytes)>)
  {
    if n == 0 then Some(([], b)) else
    var h := TakeItem(b);
    if h.None? then None else
    var t := TakeItems(n - 1, h.value.1);
    if t.None? then None else Some(([h.value.0] + t.value.0, t.value.1))
  }

  /** The fixed head of a command: opcode, three chunks, item count. */
  function TakeHead(b: bytes): (r: Option<(Command, nat, bytes)>)
  {
    if |b| < 1 || !Mutates(b[0]) then None else
    var ns := TakeChunk(b[1..]);
    if ns.None? then None else
    var coll := TakeChunk(ns.value.1);
    if coll.None? then None else
    var idem := TakeChunk(coll.value.1);
    if idem.None? || |idem.value.1| < 4 then None else
    var rest := idem.value.1;
    Some((Command(b[0], ns.value.0, coll.value.0, idem.value.0, []), FromBE(rest[..4]), rest[4..]))
  }

  /** decodeCommandInto; None stands for errShortCommand and errUnknownOp. Trailing bytes are ignored. */
  function DecodeCommand(b: bytes): (r: Option<Command>)
  {
    var h := TakeHead(b);
    if h.None? then None else
    var its := TakeItems(h.value.1, h.value.2);
    if its.None? then None else Some(h.value.0.(items := its.value.0))
  }

  lemma {:induction false} TakeItemsValid(n: nat, b: bytes)
    ensures TakeItems(n, b).Some? ==>
      forall i :: 0 <= i < |TakeItems(n, b).value.0| ==> ValidItem(TakeItems(n, b).value.0[i])
  {
    if n > 0 && TakeItem(b).Some? { TakeItemsValid(n - 1, TakeItem(b).value.1); }
  }

  lemma DecodeCommandValid(b: bytes)
    ensures DecodeCommand(b).Some? ==> ValidCommand(DecodeCommand(b).value)
  {
    if TakeHead(b).Some? { TakeItemsValid(TakeHead(b).value.1, TakeHead(b).value.2); }
  }

  lemma ItemRoundTrip(it: Item, tail: bytes)
    requires ValidItem(it) && |EncodeItem(it)| + |tail| < TWO32
    ensures TakeItem(EncodeItem(it) + tail) == Some((it, tail))
  {
    hide BE, FromBE;
    var num := BE(it.score, 8) + PutI64(it.expiryMs);
    assert EncodeItem(it) + tail == Chunk(it.key) + (Chunk(it.val) + (num + tail));
    TakeChunkOfChunk(it.key, Chunk(it.val) + (num + tail));
    TakeChunkOfChunk(it.val, num + tail);
    var rest := num + tail;
    assert rest[..8] == BE(it.score, 8) && rest[8..16] == PutI64(it.expiryMs) + [] && rest[16..] == tail;
    U64RoundTrip(it.score);
    I64RoundTrip(it.expiryMs, []);
  }

  lemma {:induction false} ItemsRoundTrip(its: seq<Item>, tail: bytes)
    requires forall i :: 0 <= i < |its| ==> ValidItem(its[i])
    requires |EncodeItems(its)| + |tail| < TWO32
    ensures TakeItems(|its|, EncodeItems(its) + tail) == Some((its, tail))
  {
    hide BE, FromBE, EncodeItem, TakeItem;
    if its == [] {
      assert EncodeItems(its) + tail == tail;
    } else {
      assert EncodeItems(its) + tail == EncodeItem(its[0]) + (EncodeItems(its[1..]) + tail);
      ItemRoundTrip(its[0], EncodeItems(its[1..]) + tail);
      ItemsRoundTrip(its[1..], tail);
      assert its == [its[0]] + its[1..];
    }
  }

  lemma HeadRoundTrip(c: Command, body: bytes)
    requires Mutates(c.op) && |c.items| < TWO32
    requires |c.ns| + |c.coll| + |c.idem| + |body| + 16 < TWO32
    ensures TakeHead([c.op] + (Chunk(c.ns) + (Chunk(c.coll) + (Chunk(c.idem) + (BE(|c.items|, 4) + body)))))
         == Some((c.(items := []), |c.items|, body))
  {
    hide BE, FromBE;
    var r3 := BE(|c.items|, 4) + body;
    var r2 := Chunk(c.idem) + r3;
    var r1 := Chunk(c.coll) + r2;
    var r0 := Chunk(c.ns) + r1;
    assert ([c.op] + r0)[1..] == r0;
    TakeChunkOfChunk(c.ns, r1);
    TakeChunkOfChunk(c.coll, r2);
    TakeChunkOfChunk(c.idem, r3);
    assert r3[..4] == BE(|c.items|, 4) && r3[4..] == body;
    U32RoundTrip(|c.items|);
  }

  lemma {:induction false} EncodeItemsLength(its: seq<Item>)
    requires forall i :: 0 <= i < |its| ==> ValidItem(its[i])
    ensures |its| <= |EncodeItems(its)|
  {
    if its != [] { EncodeItemsLength(its[1..]); }
  }

  /** decodeCommand undoes appendCommand, whatever bytes follow. */
  lemma CommandRoundTrip(c: Command, tail: bytes)
    requires ValidCommand(c) && |EncodeCommand(c)| + |tail| < TWO32
    ensures DecodeCommand(EncodeCommand(c) + tail) == Some(c)
  {
    hide BE, FromBE, EncodeItems, TakeItems, TakeHead, Chunk;
    EncodeItemsLength(c.items);
    var body := EncodeItems(c.items) + tail;
    assert EncodeCommand(c) + tail ==
      [c.op] + (Chunk(c.ns) + (Chunk(c.coll) + (Chunk(c.idem) + (BE(|c.items|, 4) + body))));
    HeadRoundTrip(c, body);
    ItemsRoundTrip(c.items, tail);
  }

  lemma {:induction false} EncodeItemsAppend(a: seq<Item>, it: Item)
    requires ValidItem(it) && forall i :: 0 <= i < |a| ==> ValidItem(a[i])
    ensures EncodeItems(a + [it]) == EncodeItems(a) + EncodeItem(it)
  {
    hide BE, FromBE;
    if a == [] {
      assert a + [it] == [it] && [it][1..] == [];
      assert EncodeItems([it]) == EncodeItem(it) + EncodeItems([]);
    } else {
      assert (a + [it])[0] == a[0] && (a + [it])[1..] == a[1..] + [it];
      EncodeItemsAppend(a[1..], it);
    }
  }

  method AppendCommand(dst: bytes, c: Command) returns (out: bytes)
    requires ValidCommand(c)
    ensures out == dst + EncodeCommand(c)
  {
    hide BE, FromBE, PutI64, Chunk;
    var head := [c.op] + Chunk(c.ns) + Chunk(c.coll) + Chunk(c.idem) + BE(|c.items| % TWO32, 4);
    var body: bytes := [];
    for i := 0 to |c.items|
      invariant body == EncodeItems(c.items[..i])
    {
      var it := c.items[i];
      assert c.items[..i + 1] == c.items[..i] + [it];
      EncodeItemsAppend(c.items[..i], it);
      body := body + EncodeItem(it);
    }
    assert c.items[..|c.items|] == c.items;
    out := dst + (head + body);
    assert head + body == EncodeCommand(c);
  }

  method DecodeCommandInto(b: bytes) returns (r: Option<Command>)
    ensures r == DecodeCommand(b)
  {
    hide BE, FromBE, TakeItem, TakeHead;
    var h := TakeHead(b);
    if h.None? { return None; }
    var n := h.value.1;
    var rest := h.value.2;
    var items: seq<Item> := [];
    for i := 0 to n
      invariant TakeItems(n, h.value.2).Some? <==> TakeItems(n - i, rest).Some?
      invariant TakeItems(n, h.value.2).Some? ==>
        TakeItems(n, h.value.2).value.0 == items + TakeItems(n - i, rest).value.0
    {
      var t := TakeItem(rest);
      if t.None? { return None; }
      ghost var was := items;
      items := items + [t.value.0];
      rest := t.value.1;
      assert TakeItems(n - i - 1, rest).Some? ==>
          was + ([t.value.0] + TakeItems(n - i - 1, rest).value.0) == items + TakeItems(n - i - 1, rest).value.0;
    }
    assert items + [] == items;
    return Some(h.value.0.(items := items));
  }

  /** The opcodes by number: sets 1 and 2, hashes 3, 4, 12 and 13, sorted sets 5 and 6, budgets 16 to 22; expiry 7 and
      removal 14 have no type of their own. Nothing else is a command. */
  lemma OpTypes(op: byte)
    ensures TypeForOp(op) == (if op in {1, 2} then 1 else if op in {3, 4, 12, 13} then 2 else if op in {5, 6} then 3
                              else if 16 <= op <= 22 then 4 else 0)
    ensures Mutates(op) <==> 1 <= op <= 7 || 12 <= op <= 14 || 16 <= op <= 22
  {
  }

  /** Bytes that begin with no opcode of a command are refused. */
  lemma UnknownRefused(b: bytes)
    ensures DecodeCommand(b).Some? ==> b != [] && (1 <= b[0] <= 7 || 12 <= b[0] <= 14 || 16 <= b[0] <= 22)
    ensures DecodeCommand(b).Some? ==> DecodeCommand(b).value.op == b[0]
  {
    hide TakeItems, TakeChunk, FromBE;
  }

  // ---------------------------------------------------------------- chunk lists: coalesced batches

  function EncodeChunks(cs: seq<bytes>): bytes
  {
    if cs == [] then [] else Chunk(cs[0]) + EncodeChunks(cs[1..])
  }

  function TakeChunks(n: nat, b: bytes): (r: Option<(seq<bytes>, bytes)>)
  {
    if n == 0 then Some(([], b)) else
    var h := TakeChunk(b);
    if h.None? then None else
    var t := TakeChunks(n - 1, h.value.1);
    if t.None? then None else Some(([h.value.0] + t.value.0, t.value.1))
  }

  function EncodeBatch(cmds: seq<bytes>): bytes
  {
    [BATCH] + (BE(|cmds| % TWO32, 4) + EncodeChunks(cmds))
  }

  function DecodeBatch(b: bytes): (r: Option<seq<bytes>>)
  {
    if |b| < 1 || b[0] != BATCH || |b| < 5 then None else
    var t := TakeChunks(FromBE(b[1..5]), b[5..]);
    if t.None? then None else Some(t.value.0)
  }

  lemma {:induction false} ChunksRoundTrip(cs: seq<bytes>, tail: bytes)
    requires |EncodeChunks(cs)| + |tail| < TWO32
    ensures TakeChunks(|cs|, EncodeChunks(cs) + tail) == Some((cs, tail))
    ensures |cs| <= |EncodeChunks(cs)|
  {
    hide BE, FromBE;
    if cs == [] {
      assert EncodeChunks(cs) + tail == tail;
    } else {
      assert EncodeChunks(cs) + tail == Chunk(cs[0]) + (EncodeChunks(cs[1..]) + tail);
      TakeChunkOfChunk(cs[0], EncodeChunks(cs[1..]) + tail);
      ChunksRoundTrip(cs[1..], tail);
      assert cs == [cs[0]] + cs[1..];
    }
  }

  /** decodeBatch returns the sub-commands of a wrapper in order. */
  lemma BatchRoundTrip(cmds: seq<bytes>)
    requires |EncodeBatch(cmds)| < TWO32
    ensures DecodeBatch(EncodeBatch(cmds)) == Some(cmds)
  {
    hide BE, FromBE, EncodeChunks, TakeChunks;
    ChunksRoundTrip(cmds, []);
    var b := EncodeBatch(cmds);
    assert b[1..5] == BE(|cmds|, 4) && b[5..] == EncodeChunks(cmds) + [];
    U32RoundTrip(|cmds|);
  }

  lemma {:induction false} EncodeChunksAppend(a: seq<bytes>, c: bytes)
    ensures EncodeChunks(a + [c]) == EncodeChunks(a) + Chunk(c)
  {
    hide BE, FromBE;
    if a == [] {
      assert a + [c] == [c] && [c][1..] == [];
      assert EncodeChunks([c]) == Chunk(c) + EncodeChunks([]);
    } else {
      assert (a + [c])[0] == a[0] && (a + [c])[1..] == a[1..] + [c];
      EncodeChunksAppend(a[1..], c);
    }
  }

  method EncodeBatchInto(cmds: seq<bytes>) returns (out: bytes)
    ensures out == EncodeBatch(cmds)
  {
    hide BE, FromBE;
    var head := [BATCH] + BE(|cmds| % TWO32, 4);
    out := head;
    for i := 0 to |cmds|
      invariant out == head + EncodeChunks(cmds[..i])
    {
      assert cmds[..i + 1] == cmds[..i] + [cmds[i]];
      EncodeChunksAppend(cmds[..i], cmds[i]);
      out := out + Chunk(cmds[i]);
    }
    assert cmds[..|cmds|] == cmds;
  }

  method SplitBatch(b: bytes) returns (r: Option<seq<bytes>>)
    ensures r == DecodeBatch(b)
  {
    hide BE, FromBE;
    if |b| < 1 || b[0] != BATCH || |b| < 5 { return None; }
    var n := FromBE(b[1..5]);
    var rest := b[5..];
    var out: seq<bytes> := [];
    for i := 0 to n
      invariant TakeChunks(n, b[5..]).Some? <==> TakeChunks(n - i, rest).Some?
      invariant TakeChunks(n, b[5..]).Some? ==> TakeChunks(n, b[5..]).value.0 == out + TakeChunks(n - i, rest).value.0
    {
      var t := TakeChunk(rest);
      if t.None? { return None; }
      ghost var was := out;
      out := out + [t.value.0];
      rest := t.value.1;
      assert TakeChunks(n - i - 1, rest).Some? ==>
          was + ([t.value.0] + TakeChunks(n - i - 1, rest).value.0) == out + TakeChunks(n - i - 1, rest).value.0;
    }
    assert out + [] == out;
    return Some(out);
  }

  /** Only a wrapper is read as one. */
  lemma NoWrapper(b: bytes)
    ensures DecodeBatch(b).Some? ==> |b| >= 5 && b[0] == 15
    ensures DecodeBatch(b).Some? ==> DecodeCommand(b).None? && |DecodeBatch(b).value| == FromBE(b[1..5])
  {
    hide TakeChunk, FromBE, TakeItems;
    if |b| >= 5 { ChunkCount(FromBE(b[1..5]), b[5..]); }
  }

  lemma {:induction false} ChunkCount(n: nat, b: bytes)
    ensures TakeChunks(n, b).Some? ==> |TakeChunks(n, b).value.0| == n
  {
    hide TakeChunk;
    if n > 0 && TakeChunk(b).Some? { ChunkCount(n - 1, TakeChunk(b).value.1); }
  }

  // ---------------------------------------------------------------- packed batch results

  function EncodeResults(rs: seq<PResult>): bytes
  {
    if rs == [] then [] else BE(rs[0].value, 8) + (Chunk(rs[0].data) + EncodeResults(rs[1..]))
  }

  function EncodeBatchResult(rs: seq<PResult>): bytes
  {
    BE(|rs| % TWO32, 4) + EncodeResults(rs)
  }

  function TakeResults(n: nat, b: bytes): (r: Option<(seq<PResult>, bytes)>)
  {
    if n == 0 then Some(([], b)) else
    if |b| < 8 then None else
    var d := TakeChunk(b[8..]);
    if d.None? then None else
    var t := TakeResults(n - 1, d.value.1);
    if t.None? then None else Some(([PResult(FromBE(b[..8]), d.value.0)] + t.value.0, t.value.1))
  }

  /** decodeBatchResult: refuses a count other than the one expected. */
  function DecodeBatchResult(b: bytes, want: nat): (r: Option<seq<PResult>>)
  {
    if |b| < 4 || FromBE(b[..4]) != want then None else
    var t := TakeResults(want, b[4..]);
    if t.None? then None else Some(t.value.0)
  }

  predicate ValidResults(rs: seq<PResult>)
  {
    forall i :: 0 <= i < |rs| ==> rs[i].value < TWO64
  }

  lemma {:induction false} ResultsRoundTrip(rs: seq<PResult>)
    requires ValidResults(rs) && |EncodeResults(rs)| < TWO32
    ensures TakeResults(|rs|, EncodeResults(rs)) == Some((rs, []))
    ensures |rs| <= |EncodeResults(rs)|
  {
    hide BE, FromBE;
    if rs != [] {
      var b := EncodeResults(rs);
      assert b[..8] == BE(rs[0].value, 8) && b[8..] == Chunk(rs[0].data) + EncodeResults(rs[1..]);
      U64RoundTrip(rs[0].value);
      TakeChunkOfChunk(rs[0].data, EncodeResults(rs[1..]));
      ResultsRoundTrip(rs[1..]);
      assert rs == [rs[0]] + rs[1..];
    }
  }

  lemma BatchResultRoundTrip(rs: seq<PResult>)
    requires ValidResults(rs) && |EncodeBatchResult(rs)| < TWO32
    ensures DecodeBatchResult(EncodeBatchResult(rs), |rs|) == Some(rs)
  {
    hide BE, FromBE, EncodeResults, TakeResults;
    ResultsRoundTrip(rs);
    var b := EncodeBatchResult(rs);
    assert b[..4] == BE(|rs|, 4) && b[4..] == EncodeResults(rs);
    U32RoundTrip(|rs|);
  }

  /** Results packed for another number of callers are refused. */
  lemma OtherCountRefused(rs: seq<PResult>, want: nat)
    requires |rs| < TWO32 && want != |rs|
    ensures DecodeBatchResult(EncodeBatchResult(rs), want).None?
  {
    hide BE, FromBE, EncodeResults, TakeResults;
    assert EncodeBatchResult(rs)[..4] == BE(|rs|, 4);
    U32RoundTrip(|rs|);
  }

  // ---------------------------------------------------------------- migration payloads

  function EncodeKVs(kvs: seq<RawKV>): bytes
  {
    if kvs == [] then [] else Chunk(kvs[0].suffix) + (Chunk(kvs[0].value) + EncodeKVs(kvs[1..]))
  }

  function EncodeIngest(kvs: seq<RawKV>): bytes
  {
    [INGEST] + (BE(|kvs| % TWO32, 4) + EncodeKVs(kvs))
  }

  function TakeKVs(n: nat, b: bytes): (r: Option<seq<RawKV>>)
  {
    if n == 0 then Some([]) else
    var k := TakeChunk(b);
    if k.None? then None else
    var v := TakeChunk(k.value.1);
    if v.None? then None else
    var t := TakeKVs(n - 1, v.value.1);
    if t.None? then None else Some([RawKV(k.value.0, v.value.0)] + t.value)
  }

  function DecodeIngest(b: bytes): (r: Option<seq<RawKV>>)
  {
    if |b| < 5 then None else TakeKVs(FromBE(b[1..5]), b[5..])
  }

  lemma {:induction false} KVsRoundTrip(kvs: seq<RawKV>)
    requires |EncodeKVs(kvs)| < TWO32
    ensures TakeKVs(|kvs|, EncodeKVs(kvs)) == Some(kvs)
    ensures |kvs| <= |EncodeKVs(kvs)|
  {
    hide BE, FromBE;
    if kvs != [] {
      var rest := EncodeKVs(kvs[1..]);
      TakeChunkOfChunk(kvs[0].suffix, Chunk(kvs[0].value) + rest);
      TakeChunkOfChunk(kvs[0].value, rest);
      KVsRoundTrip(kvs[1..]);
      assert kvs == [kvs[0]] + kvs[1..];
    }
  }

  lemma IngestRoundTrip(kvs: seq<RawKV>)
    requires |EncodeIngest(kvs)| < TWO32
    ensures DecodeIngest(EncodeIngest(kvs)) == Some(kvs)
  {
    hide BE, FromBE, EncodeKVs, TakeKVs;
    KVsRoundTrip(kvs);
    var b := EncodeIngest(kvs);
    assert b[1..5] == BE(|kvs|, 4) && b[5..] == EncodeKVs(kvs);
    U32RoundTrip(|kvs|);
  }

  /** opPurge, opFreeze and opUnfreeze share one layout: opcode, chunk(start), chunk(end). */
  function EncodeBounds(op: byte, start: bytes, end: bytes): bytes
  {
    [op] + (Chunk(start) + Chunk(end))
  }

  function DecodeBounds(b: bytes): (r: Option<(bytes, bytes)>)
  {
    if |b| < 1 then None else
    var s := TakeChunk(b[1..]);
    if s.None? then None else
    var e := TakeChunk(s.value.1);
    if e.None? then None else Some((s.value.0, e.value.0))
  }

  lemma BoundsRoundTrip(op: byte, start: bytes, end: bytes)
    requires |start| + |end| + 8 < TWO32
    ensures DecodeBounds(EncodeBounds(op, start, end)) == Some((start, end))
  {
    hide BE, FromBE;
    var b := EncodeBounds(op, start, end);
    assert b[1..] == Chunk(start) + Chunk(end);
    assert Chunk(end) == Chunk(end) + [];
    TakeChunkOfChunk(start, Chunk(end));
    TakeChunkOfChunk(end, []);
  }
}
