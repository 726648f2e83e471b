/** Moving a routing range from one shard to another: the range scan, the batched ingest and the purge
    (migrate.go, control.go). A shard's rows are keyed by their suffix, the key after the shard prefix. */
module Migrate {
  import opened Bytes
  import opened Codec
  import opened Rows

  type Raw = map<bytes, bytes>

  predicate InSpan(x: bytes, lo: bytes, hi: bytes)
  {
    var rk := RouteKeyOf(x);
    rk.Some? && InRoute(rk.value, lo, hi)
  }

  /** The rows of a routing range. */
  function Span(rows: Raw, lo: bytes, hi: bytes): Raw
  {
    map x | x in rows && InSpan(x, lo, hi) :: rows[x]
  }

  /** What an iterator over m yields: every row once (kvs may come in any order). */
  ghost predicate Enumerates(kvs: seq<RawKV>, m: Raw)
  {
    && (forall i :: 0 <= i < |kvs| ==> kvs[i].suffix in m && m[kvs[i].suffix] == kvs[i].value)
    && (forall x :: x in m ==> RawKV(x, m[x]) in kvs)
    && (forall i, j :: 0 <= i < j < |kvs| ==> kvs[i].suffix != kvs[j].suffix)
  }

  // ---------------------------------------------------------------- scan

  function Filtered(kvs: seq<RawKV>, lo: bytes, hi: bytes): seq<RawKV>
  {
    if kvs == [] then [] else
    var n := |kvs| - 1;
    Filtered(kvs[..n], lo, hi) + if InSpan(kvs[n].suffix, lo, hi) then [kvs[n]] else []
  }

  /** scanRange; a limit of 0 is no limit. */
  method ScanRange(it: seq<RawKV>, lo: bytes, hi: bytes, limit: nat) returns (out: seq<RawKV>)
    ensures limit == 0 ==> out == Filtered(it, lo, hi)
    ensures limit > 0 ==> |out| <= limit
    ensures exists n: nat :: n <= |it| && out == Filtered(it[..n], lo, hi) && (n < |it| ==> |out| == limit)
  {
    hide InSpan;
    out := [];
    for i := 0 to |it|
      invariant out == Filtered(it[..i], lo, hi)
      invariant limit > 0 ==> |out| < limit
    {
      assert it[..i + 1][..i] == it[..i];
      if InSpan(it[i].suffix, lo, hi) {
        out := out + [it[i]];
        if limit > 0 && |out| >= limit { return; }
      }
    }
    assert it[..|it|] == it;
  }

  lemma {:induction false} FilteredMembers(kvs: seq<RawKV>, lo: bytes, hi: bytes, kv: RawKV)
    ensures kv in Filtered(kvs, lo, hi) <==> kv in kvs && InSpan(kv.suffix, lo, hi)
  {
    hide InSpan;
    if kvs != [] {
      var n := |kvs| - 1;
      FilteredMembers(kvs[..n], lo, hi, kv);
      assert kvs == kvs[..n] + [kvs[n]];
    }
  }

  lemma {:induction false} FilteredDistinct(kvs: seq<RawKV>, lo: bytes, hi: bytes)
    requires forall i, j :: 0 <= i < j < |kvs| ==> kvs[i].suffix != kvs[j].suffix
    ensures var f := Filtered(kvs, lo, hi); forall i, j :: 0 <= i < j < |f| ==> f[i].suffix != f[j].suffix
  {
    hide InSpan;
    if kvs != [] {
      var n := |kvs| - 1;
      FilteredDistinct(kvs[..n], lo, hi);
      var f := Filtered(kvs[..n], lo, hi);
      forall i | 0 <= i < |f| ensures f[i].suffix != kvs[n].suffix
      {
        FilteredMembers(kvs[..n], lo, hi, f[i]);
        var j :| 0 <= j < n && kvs[..n][j] == f[i];
        assert kvs[j] == f[i];
      }
    }
  }

  /** A scan of the shard yields exactly the rows of the range. */
  lemma ScanIsSpan(it: seq<RawKV>, rows: Raw, lo: bytes, hi: bytes)
    requires Enumerates(it, rows)
    ensures Enumerates(Filtered(it, lo, hi), Span(rows, lo, hi))
  {
    hide InSpan, Filtered;
    var f, m := Filtered(it, lo, hi), Span(rows, lo, hi);
    FilteredDistinct(it, lo, hi);
    forall i | 0 <= i < |f| ensures f[i].suffix in m && m[f[i].suffix] == f[i].value
    {
      FilteredMembers(it, lo, hi, f[i]);
    }
    forall x | x in m ensures RawKV(x, m[x]) in f
    {
      FilteredMembers(it, lo, hi, RawKV(x, m[x]));
    }
  }

  // ---------------------------------------------------------------- ingest

  function Ingest(rows: Raw, kvs: seq<RawKV>): Raw
  {
    if kvs == [] then rows else
    var n := |kvs| - 1;
    Ingest(rows, kvs[..n])[kvs[n].suffix := kvs[n].value]
  }

  lemma {:induction false} IngestConcat(rows: Raw, a: seq<RawKV>, b: seq<RawKV>)
    ensures Ingest(rows, a + b) == Ingest(Ingest(rows, a), b)
  {
    if b == [] {
      assert a + b == a;
    } else {
      var n := |b| - 1;
      assert (a + b)[..|a + b| - 1] == a + b[..n];
      IngestConcat(rows, a, b[..n]);
    }
  }

  /** Rows not ingested keep their values; an ingested row has some ingested value. */
  lemma {:induction false} IngestRow(rows: Raw, kvs: seq<RawKV>, x: bytes)
    ensures (forall i :: 0 <= i < |kvs| ==> kvs[i].suffix != x) ==>
      (x in Ingest(rows, kvs) <==> x in rows) && (x in rows ==> Ingest(rows, kvs)[x] == rows[x])
    ensures (exists i :: 0 <= i < |kvs| && kvs[i].suffix == x) ==>
      x in Ingest(rows, kvs) && exists i :: 0 <= i < |kvs| && kvs[i] == RawKV(x, Ingest(rows, kvs)[x])
  {
    if kvs != [] {
      var n := |kvs| - 1;
      IngestRow(rows, kvs[..n], x);
      assert forall i :: 0 <= i < n ==> kvs[i] == kvs[..n][i];
      if kvs[n].suffix == x { assert kvs[n] == RawKV(x, Ingest(rows, kvs)[x]); }
    }
  }

  lemma IngestIsUnion(rows: Raw, kvs: seq<RawKV>, m: Raw)
    requires Enumerates(kvs, m)
    ensures Ingest(rows, kvs) == rows + m
  {
    hide Ingest;
    var r := Ingest(rows, kvs);
    forall x ensures x in r <==> x in rows + m
    {
      IngestRow(rows, kvs, x);
      if x in m { assert RawKV(x, m[x]).suffix == x; }
    }
    forall x | x in r ensures r[x] == (rows + m)[x]
    {
      IngestRow(rows, kvs, x);
      if x in m { assert RawKV(x, m[x]).suffix == x; }
    }
  }

  function Purge(rows: Raw, lo: bytes, hi: bytes): Raw
  {
    map x | x in rows && !InSpan(x, lo, hi) :: rows[x]
  }

  // ---------------------------------------------------------------- the shard's side

  const INGEST_BATCH: nat := 256

  /** Every batch's command is shorter than 4 GiB, the range of its length prefixes. */
  predicate FitsCommand(kvs: seq<RawKV>)
  {
    forall lo: nat, hi: nat :: lo <= hi <= |kvs| && hi <= lo + INGEST_BATCH ==> |EncodeIngest(kvs[lo..hi])| < TWO32
  }

  class RawShard {
    var rows: Raw

    constructor ()
      ensures rows == map[]
    {
      rows := map[];
    }

    /** opIngest: all rows of the command, or none when it does not decode. */
    method ApplyIngest(cmd: bytes) returns (n: nat)
      modifies this
      ensures rows == if DecodeIngest(cmd).Some? then Ingest(old(rows), DecodeIngest(cmd).value) else old(rows)
      ensures n == if DecodeIngest(cmd).Some? then |DecodeIngest(cmd).value| else 0
    {
      hide DecodeIngest;
      var d := DecodeIngest(cmd);
      if d.None? { return 0; }
      var kvs := d.value;
      for i := 0 to |kvs|
        invariant rows == Ingest(old(rows), kvs[..i])
      {
        assert kvs[..i + 1][..i] == kvs[..i];
        rows := rows[kvs[i].suffix := kvs[i].value];
      }
      assert kvs[..|kvs|] == kvs;
      n := |kvs|;
    }

    /** opPurge: deletes what a scan of the range yields. */
    method ApplyPurge(cmd: bytes, it: seq<RawKV>) returns (n: nat)
      requires Enumerates(it, rows)
      modifies this
      ensures rows == if DecodeBounds(cmd).Some?
        then Purge(old(rows), DecodeBounds(cmd).value.0, DecodeBounds(cmd).value.1) else old(rows)
      ensures n == if DecodeBounds(cmd).Some?
        then |Filtered(it, DecodeBounds(cmd).value.0, DecodeBounds(cmd).value.1)| else 0
    {
      hide DecodeBounds, InSpan, Filtered;
      var b := DecodeBounds(cmd);
      if b.None? { return 0; }
      ghost var was := rows;
      var kvs := ScanRange(it, b.value.0, b.value.1, 0);
      ScanIsSpan(it, rows, b.value.0, b.value.1);
      for i := 0 to |kvs|
        invariant forall x :: x in rows <==> x in was && forall j :: 0 <= j < i ==> kvs[j].suffix != x
        invariant forall x :: x in rows ==> rows[x] == was[x]
      {
        rows := rows - {kvs[i].suffix};
      }
      PurgedAll(was, rows, kvs, b.value.0, b.value.1);
      n := |kvs|;
    }
  }

  lemma PurgedAll(was: Raw, now: Raw, kvs: seq<RawKV>, lo: bytes, hi: bytes)
    requires Enumerates(kvs, Span(was, lo, hi))
    requires forall x :: x in now <==> x in was && forall j :: 0 <= j < |kvs| ==> kvs[j].suffix != x
    requires forall x :: x in now ==> now[x] == was[x]
    ensures now == Purge(was, lo, hi)
  {
    hide InSpan;
    var m := Span(was, lo, hi);
    forall x ensures x in now <==> x in Purge(was, lo, hi)
    {
      if x in m {
        assert RawKV(x, m[x]) in kvs;
        var j :| 0 <= j < |kvs| && kvs[j] == RawKV(x, m[x]);
      }
    }
  }

  /** ingestInto: proposes the rows in batches of 256. */
  method IngestInto(shard: RawShard, kvs: seq<RawKV>)
    requires FitsCommand(kvs)
    modifies shard
    ensures shard.rows == Ingest(old(shard.rows), kvs)
  {
    hide EncodeIngest, DecodeIngest;
    var off := 0;
    while off < |kvs|
      invariant 0 <= off <= |kvs|
      invariant shard.rows == Ingest(old(shard.rows), kvs[..off])
    {
      var end := if off + INGEST_BATCH > |kvs| then |kvs| else off + INGEST_BATCH;
      IngestRoundTrip(kvs[off..end]);
      var _ := shard.ApplyIngest(EncodeIngest(kvs[off..end]));
      IngestConcat(old(shard.rows), kvs[..off], kvs[off..end]);
      assert kvs[..off] + kvs[off..end] == kvs[..end];
      off := end;
    }
    assert kvs[..|kvs|] == kvs;
  }

  // ---------------------------------------------------------------- the whole move

  /** Scan, ingest and purge move exactly the rows of the range: the target gains them with their values,
      the source keeps everything else. */
  lemma MoveRange(src: Raw, dst: Raw, it: seq<RawKV>, lo: bytes, hi: bytes)
    requires Enumerates(it, src)
    ensures var dst' := Ingest(dst, Filtered(it, lo, hi)); var src' := Purge(src, lo, hi);
      && dst' == dst + Span(src, lo, hi)
      && src' + Span(src, lo, hi) == src
      && src'.Keys !! Span(src, lo, hi).Keys
      && Span(src', lo, hi) == map[]
  {
    hide InSpan, Ingest;
    ScanIsSpan(it, src, lo, hi);
    IngestIsUnion(dst, Filtered(it, lo, hi), Span(src, lo, hi));
  }

  /** Which rows of a collection a split moves: its data rows and its expiry index. Dedup records, the
      eviction ring and a budget's deadline and tombstone indexes have no routing key and stay behind. */
  lemma MovesWhichRows(r: Row, lo: bytes, hi: bytes)
    requires Fits(r)
    ensures InSpan(Suffix(r), lo, hi) <==> (InData(r) || r.TTLIdx?) && InRoute(RouteKey(r.coll), lo, hi)
  {
    hide InRoute, RouteKeyOf, RouteKey, Suffix;
    RouteOfRow(r);
  }

  /** A row without a routing key is in neither side's change: the target has it afterwards only if it
      had it before, and the source keeps it. */
  lemma UnroutedRowsStay(src: Raw, dst: Raw, it: seq<RawKV>, r: Row, lo: bytes, hi: bytes)
    requires Enumerates(it, src) && Fits(r) && !InData(r) && !r.TTLIdx?
    ensures Suffix(r) in Ingest(dst, Filtered(it, lo, hi)) <==> Suffix(r) in dst
    ensures Suffix(r) in Purge(src, lo, hi) <==> Suffix(r) in src
  {
    hide InSpan, Ingest, Filtered, Suffix;
    MovesWhichRows(r, lo, hi);
    MoveRange(src, dst, it, lo, hi);
  }

  /** A merge copies the right range into the left shard without clearing it first. The merged range is the
      right shard's exactly when every row the left shard still holds in the range is one of the right's. */
  lemma MergeExact(left: Raw, right: Raw, it: seq<RawKV>, lo: bytes, hi: bytes)
    requires Enumerates(it, right)
    ensures Span(Ingest(left, Filtered(it, lo, hi)), lo, hi) == Span(right, lo, hi) <==>
      Span(left, lo, hi).Keys <= right.Keys
    ensures Purge(Ingest(left, Filtered(it, lo, hi)), lo, hi) == Purge(left, lo, hi)
  {
    hide InSpan, Ingest, Filtered;
    MoveRange(right, left, it, lo, hi);
    var m := left + Span(right, lo, hi);
    if Span(left, lo, hi).Keys <= right.Keys {
      assert forall x :: x in Span(m, lo, hi) ==> x in Span(right, lo, hi);
      assert Span(m, lo, hi) == Span(right, lo, hi);
    } else {
      var x :| x in Span(left, lo, hi) && x !in right;
      assert x in Span(m, lo, hi) && x !in Span(right, lo, hi);
    }
    assert Purge(m, lo, hi) == Purge(left, lo, hi);
  }

  /** A member left on the left shard and removed on the right comes back. */
  lemma MergeRevives()
    ensures var x := Suffix(Elem(Coll([], []), []));
      x in Span(Ingest(map[x := []], Filtered([], [], [])), [], []) && x !in Span(map[], [], [])
  {
    hide Suffix, RouteKey, RouteKeyOf;
    MovesWhichRows(Elem(Coll([], []), []), [], []);
  }
}
