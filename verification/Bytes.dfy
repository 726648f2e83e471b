/** Byte strings: big-endian numbers, lexicographic order, length-prefixed chunks and prefix bounds.
    Every storage key and log entry of the system is built from these. */
module Bytes {

  type byte = x: int | 0 <= x < 256
  type bytes = seq<byte>

  datatype Option<+T> = None | Some(value: T)

  /** The bytes of a string of ASCII characters. */
  function Ascii(s: string): bytes { seq(|s|, i requires 0 <= i < |s| => s[i] as int % 256) }

  /** a and b agree at k. */
  ghost predicate Same<K, V>(a: map<K, V>, b: map<K, V>, k: K) { (k in a <==> k in b) && (k in a ==> a[k] == b[k]) }

  const TWO32: int := 0x1_0000_0000
  const TWO63: int := 0x8000_0000_0000_0000
  const TWO64: int := 0x1_0000_0000_0000_0000

  /** Two's-complement reading of an arbitrary integer as int64. */
  function WrapI64(v: int): (r: int)
    ensures -TWO63 <= r < TWO63
    ensures -TWO63 <= v < TWO63 ==> r == v
  {
    (v + TWO63) % TWO64 - TWO63
  }

  function Pow256(n: nat): (r: nat)
    ensures r >= 1
  {
    if n == 0 then 1 else 256 * Pow256(n - 1)
  }

  lemma Pow256Values()
    ensures Pow256(4) == TWO32 && Pow256(8) == TWO64
  {
    assert Pow256(4) == TWO32;
    assert Pow256(5) == 256 * TWO32;
    assert Pow256(6) == 256 * 256 * TWO32;
    assert Pow256(7) == 256 * 256 * 256 * TWO32;
  }

  /** The low n bytes of v, most significant first. */
  function BE(v: nat, n: nat): (r: bytes)
    ensures |r| == n
  {
    if n == 0 then [] else BE(v / 256, n - 1) + [v % 256]
  }

  function FromBE(b: bytes): (r: nat)
  {
    if b == [] then 0 else 256 * FromBE(b[..|b| - 1]) + b[|b| - 1]
  }

  lemma {:induction false} FromBERange(b: bytes)
    ensures FromBE(b) < Pow256(|b|)
  {
    if b != [] { FromBERange(b[..|b| - 1]); }
  }

  lemma {:induction false} BERoundTrip(v: nat, n: nat)
    requires v < Pow256(n)
    ensures FromBE(BE(v, n)) == v
  {
    if n > 0 {
      BERoundTrip(v / 256, n - 1);
      assert BE(v, n)[..n - 1] == BE(v / 256, n - 1);
    }
  }

  lemma {:induction false} FromBERoundTrip(b: bytes)
    ensures BE(FromBE(b), |b|) == b
  {
    if b != [] {
      FromBERoundTrip(b[..|b| - 1]);
      assert b == b[..|b| - 1] + [b[|b| - 1]];
    }
  }

  lemma FromBEInjective(a: bytes, b: bytes)
    requires |a| == |b| && FromBE(a) == FromBE(b)
    ensures a == b
  {
    FromBERoundTrip(a);
    FromBERoundTrip(b);
  }

  lemma U64RoundTrip(v: nat)
    requires v < TWO64
    ensures FromBE(BE(v, 8)) == v
  {
    Pow256Values();
    BERoundTrip(v, 8);
  }

  lemma U32RoundTrip(v: nat)
    requires v < TWO32
    ensures FromBE(BE(v, 4)) == v
  {
    Pow256Values();
    BERoundTrip(v, 4);
  }

  lemma U64Injective(a: nat, b: nat)
    requires a < TWO64 && b < TWO64 && BE(a, 8) == BE(b, 8)
    ensures a == b
  {
    U64RoundTrip(a);
    U64RoundTrip(b);
  }

  /** int64 fields travel as their two's-complement image. */
  function U64OfI64(v: int): (r: nat)
    requires -TWO63 <= v < TWO63
    ensures r < TWO64
  {
    if v < 0 then v + TWO64 else v
  }

  function PutI64(v: int): (r: bytes)
    requires -TWO63 <= v < TWO63
    ensures |r| == 8
  {
    BE(U64OfI64(v), 8)
  }

  function GetI64(b: bytes): (r: int)
    requires |b| >= 8
    ensures -TWO63 <= r < TWO63
  {
    FromBERange(b[..8]);
    Pow256Values();
    WrapI64(FromBE(b[..8]))
  }

  lemma I64RoundTrip(v: int, tail: bytes)
    requires -TWO63 <= v < TWO63
    ensures GetI64(PutI64(v) + tail) == v
  {
    U64RoundTrip(U64OfI64(v));
    assert (PutI64(v) + tail)[..8] == PutI64(v);
  }

  // ---------------------------------------------------------------- lexicographic order

  /** bytes.Compare(a, b) < 0. */
  predicate Less(a: bytes, b: bytes)
  {
    b != [] && (a == [] || a[0] < b[0] || (a[0] == b[0] && Less(a[1..], b[1..])))
  }

  predicate Leq(a: bytes, b: bytes)
  {
    a == b || Less(a, b)
  }

  /** The order in plain terms: at the first difference a has the smaller byte, or ends. */
  lemma {:induction false} LessMeans(a: bytes, b: bytes)
    ensures Less(a, b) <==> exists k: nat :: DiffersAt(a, b, k)
  {
    if a != [] && b != [] && a[0] == b[0] {
      LessMeans(a[1..], b[1..]);
      if k: nat :| DiffersAt(a[1..], b[1..], k) {
        assert a[..k + 1] == [a[0]] + a[1..][..k] && b[..k + 1] == [b[0]] + b[1..][..k];
        assert DiffersAt(a, b, k + 1);
      }
      if k: nat :| DiffersAt(a, b, k) {
        assert k > 0 && a[1..][..k - 1] == a[1..k] && b[1..][..k - 1] == b[1..k];
        assert a[..k][1..] == a[1..k] && b[..k][1..] == b[1..k];
        assert DiffersAt(a[1..], b[1..], k - 1);
      }
    } else {
      if Less(a, b) { assert DiffersAt(a, b, 0); }
      if k: nat :| DiffersAt(a, b, k) { assert k > 0 ==> a[..k][0] == b[..k][0]; }
    }
  }

  ghost predicate DiffersAt(a: bytes, b: bytes, k: nat)
  {
    k <= |a| && k < |b| && a[..k] == b[..k] && (k == |a| || a[k] < b[k])
  }

  lemma {:induction false} LessTotal(a: bytes, b: bytes)
    ensures Less(a, b) || a == b || Less(b, a)
    ensures !(Less(a, b) && Less(b, a))
    ensures Less(a, b) ==> a != b
  {
    if a != [] && b != [] {
      LessTotal(a[1..], b[1..]);
      assert a == [a[0]] + a[1..] && b == [b[0]] + b[1..];
    }
  }

  lemma {:induction false} LessTransitive(a: bytes, b: bytes, c: bytes)
    requires Less(a, b) && Less(b, c)
    ensures Less(a, c)
  {
    if a != [] && a[0] == b[0] && b[0] == c[0] {
      LessTransitive(a[1..], b[1..], c[1..]);
    }
  }

  /** Cutting a shared prefix off both sides keeps the order. */
  lemma {:induction false} LessAfterPrefix(p: bytes, a: bytes, b: bytes)
    ensures Less(p + a, p + b) <==> Less(a, b)
  {
    if p == [] {
      assert p + a == a && p + b == b;
    } else {
      LessAfterPrefix(p[1..], a, b);
      assert (p + a)[1..] == p[1..] + a && (p + b)[1..] == p[1..] + b;
    }
  }

  /** Strings whose equal-length heads differ are ordered by their heads. */
  lemma {:induction false} LessByHead(h: bytes, a: bytes, k: bytes, b: bytes)
    requires |h| == |k| && h != k
    ensures Less(h + a, k + b) <==> Less(h, k)
  {
    assert (h + a)[0] == h[0] && (k + b)[0] == k[0];
    if h[0] == k[0] {
      assert h[1..] != k[1..] by { assert h == [h[0]] + h[1..] && k == [k[0]] + k[1..]; }
      LessByHead(h[1..], a, k[1..], b);
      assert (h + a)[1..] == h[1..] + a && (k + b)[1..] == k[1..] + b;
    }
  }

  /** Big-endian numbers of one width sort like the numbers. */
  lemma {:induction false} FromBEOrder(a: bytes, b: bytes)
    requires |a| == |b|
    ensures Less(a, b) <==> FromBE(a) < FromBE(b)
  {
    if a != [] {
      var n := |a| - 1;
      var x, y := a[..n], b[..n];
      FromBEOrder(x, y);
      assert a == x + [a[n]] && b == y + [b[n]];
      if x == y {
        LessAfterPrefix(x, [a[n]], [b[n]]);
        assert Less([a[n]], [b[n]]) <==> a[n] < b[n] || (a[n] == b[n] && Less([a[n]][1..], [b[n]][1..]));
      } else {
        LessByHead(x, [a[n]], y, [b[n]]);
        if FromBE(x) == FromBE(y) { FromBEInjective(x, y); }
      }
    }
  }

  lemma U64Order(a: nat, b: nat)
    requires a < TWO64 && b < TWO64
    ensures Less(BE(a, 8), BE(b, 8)) <==> a < b
  {
    U64RoundTrip(a);
    U64RoundTrip(b);
    FromBEOrder(BE(a, 8), BE(b, 8));
  }

  // ---------------------------------------------------------------- prefixEnd

  /** The value prefixEnd computes: drop trailing 0xff bytes, then add one to the last byte; None stands
      for the nil bound (no upper limit). */
  function PrefixEnd(p: bytes): (r: Option<bytes>)
  {
    if p == [] then None
    else if p[|p| - 1] != 255 then Some(p[..|p| - 1] + [p[|p| - 1] + 1])
    else PrefixEnd(p[..|p| - 1])
  }

  /** A scan bound: the key lies in [start, end), an absent end being unbounded. */
  predicate InScan(k: bytes, start: bytes, end: Option<bytes>)
  {
    Leq(start, k) && (end.Some? ==> Less(k, end.value))
  }

  /** command.go's prefixEnd, walking a copy of the prefix from its end. */
  method ComputePrefixEnd(prefix: bytes) returns (end: Option<bytes>)
    ensures end == PrefixEnd(prefix)
  {
    var buf := prefix;
    var i := |buf|;
    assert prefix[..i] == prefix;
    while i > 0
      invariant 0 <= i <= |prefix|
      invariant buf == prefix
      invariant PrefixEnd(prefix) == PrefixEnd(prefix[..i])
    {
      i := i - 1;
      assert prefix[..i + 1][..i] == prefix[..i];
      if buf[i] != 255 {
        buf := buf[i := buf[i] + 1];
        assert buf[..i + 1] == prefix[..i] + [prefix[i] + 1];
        return Some(buf[..i + 1]);
      }
    }
    return None;
  }

  /** [prefix, prefixEnd(prefix)) holds exactly the keys that start with the prefix. */
  lemma {:induction false} PrefixEndExact(p: bytes, k: bytes)
    ensures InScan(k, p, PrefixEnd(p)) <==> p <= k
  {
    LeqPrefix(p, k);
    if p <= k {
      BelowPrefixEnd(p, k);
    } else if Leq(p, k) {
      AbovePrefixEnd(p, k);
    }
  }

  lemma {:induction false} LeqPrefix(p: bytes, k: bytes)
    ensures p <= k ==> Leq(p, k)
  {
    if p <= k && p != k && p != [] {
      assert p[1..] <= k[1..];
      LeqPrefix(p[1..], k[1..]);
      assert p == [p[0]] + p[1..] && k == [k[0]] + k[1..];
    }
  }

  lemma {:induction false} BelowPrefixEnd(p: bytes, k: bytes)
    requires p <= k
    ensures PrefixEnd(p).Some? ==> Less(k, PrefixEnd(p).value)
  {
    if p != [] {
      var n := |p| - 1;
      if p[n] != 255 {
        assert k == p[..n] + k[n..];
        LessAfterPrefix(p[..n], k[n..], [p[n] + 1]);
      } else {
        BelowPrefixEnd(p[..n], k);
      }
    }
  }

  /** k agrees with p except that its n-th byte, where p ends, is larger. */
  lemma AboveAtLast(q: bytes, x: byte, k: bytes)
    requires Less(q + [x], k) && q <= k && !(q + [x] <= k)
    ensures x < 255 && !Less(k, q + [x + 1])
  {
    var t := k[|q|..];
    assert k == q + t;
    LessAfterPrefix(q, [x], t);
    assert t[0] != x by { assert k[|q|] == t[0]; }
    assert t[0] > x;
    LessAfterPrefix(q, t, [x + 1]);
    assert !Less(t[1..], []);
  }

  lemma {:induction false} AbovePrefixEnd(p: bytes, k: bytes)
    requires Less(p, k) && !(p <= k)
    ensures PrefixEnd(p).Some? && !Less(k, PrefixEnd(p).value)
  {
    hide Less;
    var n := |p| - 1;
    var q := p[..n];
    assert p == q + [p[n]];
    if q <= k {
      AboveAtLast(q, p[n], k);
    } else {
      LeqPrefix(q, p);
      LessTransitive(q, p, k);
      AbovePrefixEnd(q, k);
      if p[n] != 255 { AboveHead(q, [p[n] + 1], k); }
    }
  }

  /** A string above q that does not extend q is above every extension of q. */
  lemma {:induction false} AboveHead(q: bytes, t: bytes, k: bytes)
    requires Less(q, k) && !(q <= k)
    ensures !Less(k, q + t)
  {
    assert (q + t)[0] == q[0];
    if q[0] == k[0] {
      assert (q + t)[1..] == q[1..] + t;
      assert q == [q[0]] + q[1..] && k == [k[0]] + k[1..];
      assert !(q[1..] <= k[1..]);
      AboveHead(q[1..], t, k[1..]);
    }
  }

  // ---------------------------------------------------------------- chunks

  /** appendChunk: a four-byte length, truncated as uint32(len(b)) truncates it, then the bytes. */
  function Chunk(b: bytes): (r: bytes)
    ensures |r| == 4 + |b|
  {
    BE(|b| % TWO32, 4) + b
  }

  /** takeChunk; None stands for errShortCommand. */
  function TakeChunk(b: bytes): (r: Option<(bytes, bytes)>)
    ensures r.Some? ==> |r.value.0| + |r.value.1| + 4 == |b|
  {
    if |b| < 4 then None
    else
      var n := FromBE(b[..4]);
      if (|b| - 4) % TWO32 < n then None
      else Some((b[4..4 + n], b[4 + n..]))
  }

  predicate Short(b: bytes)
  {
    |b| < TWO32
  }

  /** The frame is self-delimiting: what follows a chunk is returned untouched. */
  lemma TakeChunkOfChunk(b: bytes, rest: bytes)
    requires Short(b) && |b| + |rest| < TWO32
    ensures TakeChunk(Chunk(b) + rest) == Some((b, rest))
  {
    ChunkParts(b, rest);
  }

  lemma ChunkParts(b: bytes, rest: bytes)
    requires Short(b)
    ensures var s := Chunk(b) + rest;
      FromBE(s[..4]) == |b| && s[4..4 + |b|] == b && s[4 + |b|..] == rest
  {
    hide BE, FromBE;
    U32RoundTrip(|b|);
    assert (Chunk(b) + rest)[..4] == BE(|b|, 4);
  }

  /** Chunks are prefix-free: two strings that open with chunks are equal only if the chunks and the
      remainders are. */
  lemma ChunkPrefixFree(a: bytes, x: bytes, b: bytes, y: bytes)
    requires Short(a) && Short(b)
    requires Chunk(a) + x == Chunk(b) + y
    ensures a == b && x == y
  {
    ChunkParts(a, x);
    ChunkParts(b, y);
  }
}
