/** The order of a sorted set's index rows is the numeric order of their IEEE 754 double scores. */
module Scores {
  import opened Bytes
  import opened Rows

  const TWO52: int := 0x10_0000_0000_0000

  function Pow2(n: nat): (r: nat)
    ensures r > 0
  {
    if n == 0 then 1 else 2 * Pow2(n - 1)
  }

  /** The size of a double with the bits m and no sign, in units of the smallest one: m / 2^52 is the biased
      exponent, 0 for subnormals, and m % 2^52 the fraction. Infinity is the size the next exponent would have. */
  ghost function Size(m: nat): nat
  {
    var e, f := m / TWO52, m % TWO52;
    if e == 0 then f else (TWO52 + f) * Pow2(e - 1)
  }

  /** The number a double stands for, if it is not a NaN, in the same units. */
  ghost function Number(bits: nat): int
  {
    if bits >= TWO63 then 0 - Size(bits - TWO63) else Size(bits)
  }

  lemma {:induction false} PowMonotone(a: nat, b: nat)
    requires a <= b
    ensures Pow2(a) <= Pow2(b)
    decreases b
  {
    if a < b { PowMonotone(a, b - 1); }
  }

  lemma Times(x: nat, y: nat, z: nat)
    ensures x < y && z > 0 ==> x * z < y * z
    ensures x <= y ==> x * z <= y * z && z * x <= z * y
  {
  }

  /** A size lies between those of its exponent and of the next. */
  lemma SizeBounds(m: nat)
    requires m >= TWO52
    ensures TWO52 * Pow2(m / TWO52 - 1) <= Size(m) < TWO52 * Pow2(m / TWO52)
  {
    var e, f := m / TWO52, m % TWO52;
    Times(TWO52, TWO52 + f, Pow2(e - 1));
    Times(TWO52 + f, 2 * TWO52, Pow2(e - 1));
    assert Pow2(e) == 2 * Pow2(e - 1);
  }

  lemma SizeMonotone(a: nat, b: nat)
    requires a < b
    ensures Size(a) < Size(b)
  {
    var e, d := a / TWO52, b / TWO52;
    assert a == e * TWO52 + a % TWO52 && b == d * TWO52 + b % TWO52;
    assert e <= d;
    if e == d {
      assert a % TWO52 < b % TWO52;
      if e > 0 { Times(TWO52 + a % TWO52, TWO52 + b % TWO52, Pow2(e - 1)); }
    } else {
      SizeBounds(b);
      PowMonotone(e, d - 1);
      Times(Pow2(e), Pow2(d - 1), TWO52);
      if e > 0 { SizeBounds(a); } else { assert Pow2(0) == 1; }
    }
  }

  lemma SizeOrder(a: nat, b: nat)
    ensures a < b <==> Size(a) < Size(b)
    ensures a == b <==> Size(a) == Size(b)
  {
    hide Size;
    if a < b { SizeMonotone(a, b); }
    if b < a { SizeMonotone(b, a); }
  }

  /** a comes before b: by number, and the negative zero before the positive. */
  ghost predicate Before(a: nat, b: nat) { Number(a) < Number(b) || (a == TWO63 && b == 0) }

  lemma SortOrder(a: nat, b: nat)
    requires a < TWO64 && b < TWO64
    ensures SortBits(a) < SortBits(b) <==> Before(a, b)
    ensures Number(a) == Number(b) <==> a == b || (a == TWO63 && b == 0) || (a == 0 && b == TWO63)
  {
    assert Size(0) == 0;
    hide Size;
    var x, y := if a >= TWO63 then a - TWO63 else a, if b >= TWO63 then b - TWO63 else b;
    SizeOrder(x, y);
    SizeOrder(0, x);
    SizeOrder(0, y);
  }

  lemma TailOrder(a: nat, m: bytes, b: nat, n: bytes)
    requires a < TWO64 && b < TWO64
    ensures Less(ScoreTail(a, m), ScoreTail(b, n)) <==> Before(a, b) || (a == b && Less(m, n))
  {
    hide BE, Number, Less;
    var s, t := BE(SortBits(a), 8), BE(SortBits(b), 8);
    SortOrder(a, b);
    if a == b {
      LessAfterPrefix(s, m, n);
    } else {
      U64Order(SortBits(a), SortBits(b));
      if s == t { U64Injective(SortBits(a), SortBits(b)); }
      LessByHead(s, m, t, n);
    }
  }

  lemma ElemKey(shard: nat, c: Coll, tail: bytes)
    ensures Key(shard, Elem(c, tail)) == ShardPrefix(shard) + [SUB_DATA] + RouteKey(c) + [1] + tail
  {
    hide BE, RouteKey;
  }

  /** The rows of a sorted set lie in the order of their scores' numbers, members of one score in the order of
      their bytes; only the two zeros are told apart. */
  lemma IndexOrder(shard: nat, c: Coll, a: nat, m: bytes, b: nat, n: bytes)
    requires a < TWO64 && b < TWO64
    ensures Less(Key(shard, Elem(c, ScoreTail(a, m))), Key(shard, Elem(c, ScoreTail(b, n)))) <==>
      Before(a, b) || (a == b && Less(m, n))
  {
    hide Key, ScoreTail, RouteKey, Before, Less, ShardPrefix;
    ElemKey(shard, c, ScoreTail(a, m));
    ElemKey(shard, c, ScoreTail(b, n));
    LessAfterPrefix(ShardPrefix(shard) + [SUB_DATA] + RouteKey(c) + [1], ScoreTail(a, m), ScoreTail(b, n));
    TailOrder(a, m, b, n);
  }
}
