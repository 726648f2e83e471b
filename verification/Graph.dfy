/** The property graph's derived indexes (internal/graph): keys, the batch that writes a node with its index
    entries, and the seeks that filter index hits against the live records. Index entries are never deleted,
    so hits may be stale. */
module Graph {
  import opened Bytes
  import N = Scores

  // ---------------------------------------------------------------- length-prefixed strings

  /** LEB128, as binary.PutUvarint writes it. */
  function Uvarint(n: nat): (r: bytes)
    ensures r != []
  {
    if n < 128 then [n] else [n % 128 + 128] + Uvarint(n / 128)
  }

  /** binary.Uvarint after i bytes; None on a short buffer and on more than 64 bits. */
  function TakeUvarint(b: bytes, i: nat): (r: Option<(nat, bytes)>)
    ensures r.Some? ==> |r.value.1| < |b|
  {
    if b == [] || i >= 10 then None
    else if b[0] < 128 then if i == 9 && b[0] > 1 then None else Some((b[0], b[1..]))
    else
      var t := TakeUvarint(b[1..], i + 1);
      if t.None? then None else Some((b[0] - 128 + 128 * t.value.0, t.value.1))
  }

  /** The values that still fit after i bytes. */
  function Room(i: nat): (r: nat)
    ensures r >= 2
    decreases 9 - i
  {
    if i >= 9 then 2 else 128 * Room(i + 1)
  }

  lemma {:induction false} UvarintRoundTrip(n: nat, rest: bytes, i: nat)
    requires i <= 9 && n < Room(i)
    ensures TakeUvarint(Uvarint(n) + rest, i) == Some((n, rest))
    decreases n
  {
    if n < 128 {
      assert (Uvarint(n) + rest)[1..] == rest;
    } else {
      assert Uvarint(n) + rest == [n % 128 + 128] + (Uvarint(n / 128) + rest);
      assert n / 128 < Room(i + 1);
      UvarintRoundTrip(n / 128, rest, i + 1);
    }
  }

  lemma RoomForU64()
    ensures Room(0) == TWO64
  {
    assert Room(8) == 256 && Room(7) == 32768 && Room(6) == 4194304 && Room(5) == 536870912;
    assert Room(4) == 68719476736 && Room(3) == 8796093022208 && Room(2) == 1125899906842624;
    assert Room(1) == 144115188075855872;
  }

  /** A length that is read fits 64 bits. */
  lemma {:induction false} UvarintFits(b: bytes, i: nat)
    requires i <= 9
    ensures TakeUvarint(b, i).Some? ==> TakeUvarint(b, i).value.0 < Room(i)
    decreases |b|
  {
    if b != [] && i < 9 {
      assert Room(i) == 128 * Room(i + 1);
      if b[0] >= 128 { UvarintFits(b[1..], i + 1); }
    }
  }

  function Lp(s: bytes): bytes { Uvarint(|s|) + s }

  /** decodeLP; a malformed prefix yields the empty string. */
  function DecodeLp(b: bytes): (bytes, bytes)
  {
    var t := TakeUvarint(b, 0);
    if t.None? || t.value.0 > |t.value.1| then ([], []) else (t.value.1[..t.value.0], t.value.1[t.value.0..])
  }

  lemma LpRoundTrip(s: bytes, rest: bytes)
    requires |s| < TWO64
    ensures DecodeLp(Lp(s) + rest) == (s, rest)
  {
    hide Uvarint, TakeUvarint;
    RoomForU64();
    assert Lp(s) + rest == Uvarint(|s|) + (s + rest);
    UvarintRoundTrip(|s|, s + rest, 0);
    assert (s + rest)[..|s|] == s && (s + rest)[|s|..] == rest;
  }

  lemma LpPrefixFree(a: bytes, x: bytes, b: bytes, y: bytes)
    requires |a| < TWO64 && |b| < TWO64 && Lp(a) + x == Lp(b) + y
    ensures a == b && x == y
  {
    hide Lp, DecodeLp;
    LpRoundTrip(a, x);
    LpRoundTrip(b, y);
  }

  // ---------------------------------------------------------------- values

  /** Doubles by their bit pattern. */
  datatype Value = Null | BoolV(b: bool) | IntV(i: int) | DoubleV(bits: nat) | StrV(s: bytes) | BytesV(s: bytes)

  predicate ValidValue(v: Value)
  {
    (v.IntV? ==> -TWO63 <= v.i < TWO63) && (v.DoubleV? ==> v.bits < TWO64)
  }

  const TAG_INT: byte := 2

  function EncodeOrdered(v: Value): bytes
    requires ValidValue(v)
  {
    match v
    case Null => [0]
    case BoolV(b) => [1, if b then 1 else 0]
    case IntV(i) => [TAG_INT] + BE(i + TWO63, 8)
    case DoubleV(bits) => [3] + BE(if bits >= TWO63 then TWO64 - 1 - bits else bits + TWO63, 8)
    case StrV(s) => [4] + s
    case BytesV(s) => [5] + s
  }

  predicate IsNaN(bits: nat) { bits % TWO63 > 0x7ff0000000000000 }

  predicate IsZero(bits: nat) { bits % TWO63 == 0 }

  /** valueEqual; == on doubles. Bytes and null never compare equal. */
  predicate ValueEqual(a: Value, b: Value)
  {
    match a
    case IntV(i) => b.IntV? && i == b.i
    case StrV(s) => b.StrV? && s == b.s
    case BoolV(x) => b.BoolV? && x == b.b
    case DoubleV(x) => b.DoubleV? && !IsNaN(x) && !IsNaN(b.bits) && (x == b.bits || (IsZero(x) && IsZero(b.bits)))
    case _ => false
  }

  /** A double that is a number: its exponent field is not all ones, or its fraction is zero. */
  ghost predicate Numeric(bits: nat) { bits % TWO63 / N.TWO52 < 2047 || bits % N.TWO52 == 0 }

  /** Equal values: the same int, string or bool, or doubles that stand for the same number. */
  ghost predicate Equal(a: Value, b: Value)
  {
    match b
    case Null => false
    case BytesV(_) => false
    case DoubleV(y) => a.DoubleV? && Numeric(a.bits) && Numeric(y) && N.Number(a.bits) == N.Number(y)
    case _ => a == b
  }

  lemma ValueEqualMeans(a: Value, b: Value)
    requires ValidValue(a) && ValidValue(b)
    ensures ValueEqual(a, b) <==> Equal(a, b)
  {
    if a.DoubleV? && b.DoubleV? {
      NumericMeans(a.bits);
      NumericMeans(b.bits);
      N.SortOrder(a.bits, b.bits);
      hide N.Number;
    }
  }

  lemma NumericMeans(bits: nat)
    requires bits < TWO64
    ensures Numeric(bits) <==> !IsNaN(bits)
  {
    var m := bits % TWO63;
    assert m % N.TWO52 == bits % N.TWO52;
    assert m == N.TWO52 * (m / N.TWO52) + m % N.TWO52;
  }

  /** propMatches for an equality seek, or for an integer range seek. */
  datatype Want = Eq(v: Value) | Gte(from: int)

  predicate Matches(cur: Value, w: Want)
  {
    match w case Eq(v) => ValueEqual(cur, v) case Gte(f) => cur.IntV? && cur.i >= f
  }

  // ---------------------------------------------------------------- nodes and keys

  datatype Node = Node(graph: bytes, id: bytes, labels: seq<bytes>, props: map<bytes, Value>, tombstone: bool)

  predicate Fits(s: bytes) { |s| < TWO64 }

  ghost predicate ValidNode(n: Node)
  {
    && Fits(n.graph) && Fits(n.id) && (forall i :: 0 <= i < |n.labels| ==> Fits(n.labels[i]))
    && (forall p :: p in n.props ==> Fits(p) && ValidValue(n.props[p]))
  }

  function NodeKey(graph: bytes, id: bytes): bytes { [110] + (Lp(graph) + (Lp(id) + [])) }

  function LabelPrefix(graph: bytes, lab: bytes): bytes { [108] + (Lp(graph) + Lp(lab)) }

  function LabelKey(graph: bytes, lab: bytes, id: bytes): bytes { LabelPrefix(graph, lab) + Lp(id) }

  function PropSpace(graph: bytes, lab: bytes, prop: bytes): bytes { [112] + (Lp(graph) + (Lp(lab) + Lp(prop))) }

  function PropKey(graph: bytes, lab: bytes, prop: bytes, v: Value, id: bytes): bytes
    requires ValidValue(v)
  {
    PropSpace(graph, lab, prop) + EncodeOrdered(v) + id
  }

  lemma NodeKeyInjective(g: bytes, i: bytes, h: bytes, j: bytes)
    requires Fits(g) && Fits(i) && Fits(h) && Fits(j) && NodeKey(g, i) == NodeKey(h, j)
    ensures g == h && i == j
  {
    hide Lp;
    assert NodeKey(g, i)[1..] == Lp(g) + (Lp(i) + []) && NodeKey(h, j)[1..] == Lp(h) + (Lp(j) + []);
    LpPrefixFree(g, Lp(i) + [], h, Lp(j) + []);
    LpPrefixFree(i, [], j, []);
  }

  // ---------------------------------------------------------------- the store

  datatype State = State(data: map<bytes, Node>, index: set<bytes>)

  datatype Op = PutRecord(key: bytes, n: Node) | PutIndex(key: bytes)

  function ApplyOp(s: State, op: Op): State
  {
    match op
    case PutRecord(k, n) => s.(data := s.data[k := n])
    case PutIndex(k) => s.(index := s.index + {k})
  }

  function ApplyOps(s: State, ops: seq<Op>): State
  {
    if ops == [] then s else ApplyOp(ApplyOps(s, ops[..|ops| - 1]), ops[|ops| - 1])
  }

  /** A node's own index entries are present. */
  ghost predicate Indexed(n: Node, index: set<bytes>)
    requires ValidNode(n)
  {
    forall i :: 0 <= i < |n.labels| ==>
      && LabelKey(n.graph, n.labels[i], n.id) in index
      && forall p :: p in n.props ==> PropKey(n.graph, n.labels[i], p, n.props[p], n.id) in index
  }

  ghost predicate Entry(s: State, k: bytes)
  {
    k in s.data ==>
      && ValidNode(s.data[k]) && k == NodeKey(s.data[k].graph, s.data[k].id)
      && (!s.data[k].tombstone ==> Indexed(s.data[k], s.index))
  }

  /** Records sit under their own key, and live ones are indexed. */
  ghost predicate Inv(s: State) { forall k :: Entry(s, k) }

  // ---------------------------------------------------------------- writing nodes

  /** What PutNode appends: the record, then, unless it is a tombstone, the index entries in any order. */
  ghost predicate WritesNode(n: Node, ops: seq<Op>)
    requires ValidNode(n)
  {
    && ops != [] && ops[0] == PutRecord(NodeKey(n.graph, n.id), n)
    && (forall i :: 1 <= i < |ops| ==> ops[i].PutIndex?)
    && (forall k :: k in Keys(ops) ==> Owned(n, k))
    && (!n.tombstone ==> Indexed(n, Keys(ops)))
  }

  /** k is the entry of n under its i-th label, or under that label and one of its properties. */
  ghost predicate OwnedAt(n: Node, i: nat, k: bytes)
    requires ValidNode(n) && i < |n.labels|
  {
    || k == LabelKey(n.graph, n.labels[i], n.id)
    || exists p :: p in n.props && k == PropKey(n.graph, n.labels[i], p, n.props[p], n.id)
  }

  /** An index entry of the live node n. */
  ghost predicate Owned(n: Node, k: bytes)
    requires ValidNode(n)
  {
    !n.tombstone && exists i: nat :: i < |n.labels| && OwnedAt(n, i, k)
  }

  ghost function Keys(ops: seq<Op>): set<bytes> { set i | 0 <= i < |ops| && ops[i].PutIndex? :: ops[i].key }

  /** The batch's operations write the nodes ns in order. */
  ghost predicate Writes(ns: seq<Node>, ops: seq<Op>)
    decreases |ns|
  {
    if ns == [] then ops == [] else
    var h, n := ns[..|ns| - 1], ns[|ns| - 1];
    ValidNode(n) && exists k: nat :: k <= |ops| && Writes(h, ops[..k]) && WritesNode(n, ops[k..])
  }

  class Batch {
    var ops: seq<Op>
    ghost var nodes: seq<Node>

    ghost predicate Valid()
      reads this
    {
      Writes(nodes, ops)
    }

    constructor ()
      ensures Valid() && nodes == []
    {
      ops, nodes := [], [];
    }

    method PutNode(n: Node)
      requires Valid() && ValidNode(n)
      modifies this
      ensures Valid() && nodes == old(nodes) + [n]
    {
      var mine := [PutRecord(NodeKey(n.graph, n.id), n)];
      if !n.tombstone {
        for i := 0 to |n.labels|
          invariant ops == old(ops) && nodes == old(nodes)
          invariant mine != [] && mine[0] == PutRecord(NodeKey(n.graph, n.id), n)
          invariant forall j :: 1 <= j < |mine| ==> mine[j].PutIndex?
          invariant Indexed(n.(labels := n.labels[..i]), Keys(mine)) && forall k :: k in Keys(mine) ==> Owned(n, k)
        {
          ghost var was := mine;
          mine := mine + [PutIndex(LabelKey(n.graph, n.labels[i], n.id))];
          var rest := PutProps(n, i);
          mine := mine + rest;
          MoreIndexed(n, i, was, PutIndex(LabelKey(n.graph, n.labels[i], n.id)), rest);
        }
        assert n.(labels := n.labels[..|n.labels|]) == n;
      } else {
        assert Keys(mine) == {};
      }
      ghost var k := |ops|;
      ops := ops + mine;
      assert ops[..k] == old(ops) && ops[k..] == mine;
      nodes := nodes + [n];
      assert nodes[..|nodes| - 1] == old(nodes);
    }

    /** The inner loop: one entry per property under the i-th label. */
    method PutProps(n: Node, i: nat) returns (out: seq<Op>)
      requires ValidNode(n) && i < |n.labels|
      ensures forall j :: 0 <= j < |out| ==> out[j].PutIndex?
      ensures forall p :: p in n.props ==> PropKey(n.graph, n.labels[i], p, n.props[p], n.id) in Keys(out)
      ensures forall k :: k in Keys(out) ==> OwnedAt(n, i, k)
    {
      hide PropKey;
      out := [];
      var left := n.props.Keys;
      while left != {}
        invariant left <= n.props.Keys && forall j :: 0 <= j < |out| ==> out[j].PutIndex?
        invariant forall p :: p in n.props && p !in left ==>
          PropKey(n.graph, n.labels[i], p, n.props[p], n.id) in Keys(out)
        invariant forall k :: k in Keys(out) ==> OwnedAt(n, i, k)
        decreases |left|
      {
        var p :| p in left;
        var op := PutIndex(PropKey(n.graph, n.labels[i], p, n.props[p], n.id));
        KeysAppend(out, [op]);
        assert [op][0].key in Keys([op]);
        out := out + [op];
        left := left - {p};
      }
    }
  }

  lemma KeysAppend(a: seq<Op>, b: seq<Op>)
    ensures Keys(a + b) == Keys(a) + Keys(b)
  {
    forall k | k in Keys(b) ensures k in Keys(a + b)
    {
      var i :| 0 <= i < |b| && b[i].PutIndex? && b[i].key == k;
      assert (a + b)[|a| + i] == b[i];
    }
    forall k | k in Keys(a) ensures k in Keys(a + b)
    {
      var i :| 0 <= i < |a| && a[i].PutIndex? && a[i].key == k;
      assert (a + b)[i] == a[i];
    }
  }

  lemma MoreIndexed(n: Node, i: nat, was: seq<Op>, l: Op, rest: seq<Op>)
    requires ValidNode(n) && i < |n.labels| && l == PutIndex(LabelKey(n.graph, n.labels[i], n.id))
    requires Indexed(n.(labels := n.labels[..i]), Keys(was))
    requires forall p :: p in n.props ==> PropKey(n.graph, n.labels[i], p, n.props[p], n.id) in Keys(rest)
    requires !n.tombstone && forall k :: k in Keys(was) ==> Owned(n, k)
    requires forall k :: k in Keys(rest) ==> OwnedAt(n, i, k)
    ensures Indexed(n.(labels := n.labels[..i + 1]), Keys(was + [l] + rest))
    ensures forall k :: k in Keys(was + [l] + rest) ==> Owned(n, k)
  {
    hide PropKey, LabelKey;
    KeysAppend(was + [l], rest);
    KeysAppend(was, [l]);
    assert [l][0].key in Keys([l]);
    var m := n.(labels := n.labels[..i]);
    assert forall j :: 0 <= j < i ==> m.labels[j] == n.labels[..i + 1][j];
  }

  // ---------------------------------------------------------------- the invariant over all batches

  lemma {:induction false} IndexOnly(s: State, ops: seq<Op>)
    requires forall i :: 0 <= i < |ops| ==> ops[i].PutIndex?
    ensures ApplyOps(s, ops) == s.(index := s.index + Keys(ops))
  {
    if ops != [] {
      var n := |ops| - 1;
      IndexOnly(s, ops[..n]);
      KeysAppend(ops[..n], [ops[n]]);
      assert ops == ops[..n] + [ops[n]];
      assert Keys([ops[n]]) == {ops[n].key} by { assert [ops[n]][0] == ops[n]; }
    }
  }

  lemma {:induction false} ApplyConcat(s: State, a: seq<Op>, b: seq<Op>)
    ensures ApplyOps(s, a + b) == ApplyOps(ApplyOps(s, a), b)
  {
    if b == [] {
      assert a + b == a;
    } else {
      var n := |b| - 1;
      assert (a + b)[..|a + b| - 1] == a + b[..n];
      ApplyConcat(s, a, b[..n]);
    }
  }

  lemma NodeState(s: State, n: Node, ops: seq<Op>)
    requires ValidNode(n) && WritesNode(n, ops)
    ensures ApplyOps(s, ops) == State(s.data[NodeKey(n.graph, n.id) := n], s.index + Keys(ops[1..]))
    ensures !n.tombstone ==> Indexed(n, ApplyOps(s, ops).index)
    ensures Keys(ops[1..]) == Keys(ops)
  {
    hide NodeKey, Owned, Indexed;
    var one := [ops[0]];
    assert ops == one + ops[1..] && one[..0] == [];
    ApplyConcat(s, one, ops[1..]);
    assert ApplyOps(s, one) == ApplyOp(ApplyOps(s, one[..0]), ops[0]);
    IndexOnly(ApplyOps(s, one), ops[1..]);
    KeysAppend(one, ops[1..]);
    assert Keys(one) == {};
    if !n.tombstone { IndexedMore(n, Keys(ops), ApplyOps(s, ops).index); }
  }

  lemma IndexedMore(n: Node, a: set<bytes>, b: set<bytes>)
    requires ValidNode(n) && Indexed(n, a) && a <= b
    ensures Indexed(n, b)
  {
    hide LabelKey, PropKey;
  }

  lemma NodeKeeps(s: State, n: Node, ops: seq<Op>)
    requires Inv(s) && ValidNode(n) && WritesNode(n, ops)
    ensures Inv(ApplyOps(s, ops))
  {
    hide NodeKey, LabelKey, PropKey, ApplyOps, WritesNode;
    NodeState(s, n, ops);
    var t := ApplyOps(s, ops);
    forall k ensures Entry(t, k) { assert Entry(s, k); }
  }

  lemma OwnedIndexed(n: Node, index: set<bytes>, k: bytes)
    requires ValidNode(n) && Indexed(n, index) && Owned(n, k)
    ensures k in index
  {
    hide LabelKey, PropKey;
  }

  ghost predicate OwnedBy(ns: seq<Node>, i: int, k: bytes)
  {
    0 <= i < |ns| && ValidNode(ns[i]) && Owned(ns[i], k)
  }

  /** A batch adds to the index exactly the entries of the live nodes it writes, and removes none. */
  lemma {:induction false} BatchIndex(s: State, ns: seq<Node>, ops: seq<Op>, key: bytes)
    requires Writes(ns, ops)
    ensures key in ApplyOps(s, ops).index <==> key in s.index || exists i :: OwnedBy(ns, i, key)
    decreases |ns|
  {
    hide Owned, WritesNode, OwnedBy;
    if ns == [] {
      NoneOwned(key);
    } else {
      var h, n := ns[..|ns| - 1], ns[|ns| - 1];
      var k: nat :| k <= |ops| && Writes(h, ops[..k]) && WritesNode(n, ops[k..]);
      BatchIndex(s, h, ops[..k], key);
      ApplyConcat(s, ops[..k], ops[k..]);
      assert ops == ops[..k] + ops[k..];
      NodeIndex(ApplyOps(s, ops[..k]), n, ops[k..], key);
      OwnedByLast(ns, h, n, key);
    }
  }

  lemma NoneOwned(key: bytes)
    ensures forall i :: !OwnedBy([], i, key)
  {
  }

  lemma OwnedByLast(ns: seq<Node>, h: seq<Node>, n: Node, key: bytes)
    requires ns == h + [n] && ValidNode(n)
    ensures (exists i :: OwnedBy(ns, i, key)) <==> (exists i :: OwnedBy(h, i, key)) || Owned(n, key)
  {
    hide Owned, ValidNode;
    if i :| OwnedBy(h, i, key) { assert OwnedBy(ns, i, key); }
    if i :| OwnedBy(ns, i, key) { assert i < |h| ==> OwnedBy(h, i, key); }
    if Owned(n, key) { assert OwnedBy(ns, |h|, key); }
  }

  lemma NodeIndex(s: State, n: Node, ops: seq<Op>, key: bytes)
    requires ValidNode(n) && WritesNode(n, ops)
    ensures key in ApplyOps(s, ops).index <==> key in s.index || Owned(n, key)
  {
    NodeState(s, n, ops);
    assert Owned(n, key) ==> !n.tombstone;
    hide Owned, Indexed, ApplyOps, Keys, NodeKey;
    if Owned(n, key) { OwnedIndexed(n, Keys(ops), key); }
  }

  /** Every batch of node writes keeps the invariant, with overwrites and tombstones. */
  lemma {:induction false} BatchKeeps(s: State, ns: seq<Node>, ops: seq<Op>)
    requires Inv(s) && Writes(ns, ops)
    ensures Inv(ApplyOps(s, ops))
    decreases |ns|
  {
    hide Inv, WritesNode;
    if ns != [] {
      var h, n := ns[..|ns| - 1], ns[|ns| - 1];
      var k: nat :| k <= |ops| && Writes(h, ops[..k]) && WritesNode(n, ops[k..]);
      BatchKeeps(s, h, ops[..k]);
      NodeKeeps(ApplyOps(s, ops[..k]), n, ops[k..]);
      ApplyConcat(s, ops[..k], ops[k..]);
      assert ops == ops[..k] + ops[k..];
    }
  }

  class Store {
    var s: State

    constructor ()
      ensures s == State(map[], {}) && Inv(s)
    {
      s := State(map[], {});
    }

    /** Commit: all operations of the batch. */
    method Commit(b: Batch)
      requires Inv(s) && b.Valid()
      modifies this
      ensures s == ApplyOps(old(s), b.ops) && Inv(s)
    {
      ghost var ns := b.nodes;
      var ops := b.ops;
      BatchKeeps(s, ns, ops);
      hide Inv;
      for i := 0 to |ops|
        invariant s == ApplyOps(old(s), ops[..i])
      {
        assert ops[..i + 1][..i] == ops[..i];
        s := ApplyOp(s, ops[i]);
      }
      assert ops[..|ops|] == ops;
    }
  }

  // ---------------------------------------------------------------- seeks

  /** GetNode finds a record that is no tombstone. */
  predicate Live(s: State, g: bytes, id: bytes)
  {
    NodeKey(g, id) in s.data && !s.data[NodeKey(g, id)].tombstone
  }

  predicate Carries(s: State, g: bytes, lab: bytes, id: bytes)
  {
    Live(s, g, id) && lab in s.data[NodeKey(g, id)].labels
  }

  predicate Hit(s: State, g: bytes, lab: bytes, prop: bytes, w: Want, id: bytes)
  {
    Carries(s, g, lab, id) && var n := s.data[NodeKey(g, id)]; prop in n.props && Matches(n.props[prop], w)
  }

  datatype Test = HasLabel(lab: bytes) | HasProp(lab: bytes, prop: bytes, w: Want)

  predicate Keeps(n: Node, t: Test)
  {
    t.lab in n.labels && (t.HasProp? ==> t.prop in n.props && Matches(n.props[t.prop], t.w))
  }

  /** What a filter over all node records of the graph would return. */
  ghost predicate Filtered(s: State, g: bytes, id: bytes, t: Test)
  {
    exists k :: k in s.data && s.data[k].graph == g && s.data[k].id == id && !s.data[k].tombstone && Keeps(s.data[k], t)
  }

  lemma LookupIsFilter(s: State, g: bytes, id: bytes, t: Test)
    requires Inv(s) && Fits(g) && Fits(id)
    ensures Filtered(s, g, id, t) <==> Live(s, g, id) && Keeps(s.data[NodeKey(g, id)], t)
  {
    hide NodeKey, Indexed;
    if Filtered(s, g, id, t) {
      var k :| k in s.data && s.data[k].graph == g && s.data[k].id == id && !s.data[k].tombstone && Keeps(s.data[k], t);
      assert Entry(s, k);
    }
    if Live(s, g, id) {
      var n := s.data[NodeKey(g, id)];
      assert Entry(s, NodeKey(g, id));
      NodeKeyInjective(g, id, n.graph, n.id);
    }
  }

  /** k holds a live record of the node. */
  ghost predicate LiveAt(s: State, g: bytes, id: bytes, k: bytes)
  {
    k in s.data && s.data[k].graph == g && s.data[k].id == id && !s.data[k].tombstone
  }

  /** Some live record of the node carries the label. */
  ghost predicate Labelled(s: State, g: bytes, lab: bytes, id: bytes)
  {
    exists k :: LiveAt(s, g, id, k) && lab in s.data[k].labels
  }

  /** ... and a value equal to v under the property. */
  ghost predicate Holding(s: State, g: bytes, lab: bytes, prop: bytes, v: Value, id: bytes)
  {
    exists k :: LiveAt(s, g, id, k) && lab in s.data[k].labels && prop in s.data[k].props
                && Equal(s.data[k].props[prop], v)
  }

  /** ... or an integer not below from. */
  ghost predicate AtLeast(s: State, g: bytes, lab: bytes, prop: bytes, from: int, id: bytes)
  {
    exists k, i :: LiveAt(s, g, id, k) && lab in s.data[k].labels && prop in s.data[k].props
                   && s.data[k].props[prop] == IntV(i) && i >= from
  }

  lemma FilteredMeans(s: State, g: bytes, lab: bytes, prop: bytes, id: bytes)
    requires Inv(s)
    ensures Filtered(s, g, id, HasLabel(lab)) <==> Labelled(s, g, lab, id)
    ensures forall v :: ValidValue(v) ==>
      (Filtered(s, g, id, HasProp(lab, prop, Eq(v))) <==> Holding(s, g, lab, prop, v, id))
    ensures forall from :: Filtered(s, g, id, HasProp(lab, prop, Gte(from))) <==> AtLeast(s, g, lab, prop, from, id)
  {
    hide NodeKey, Indexed, ValueEqual, Equal;
    if k :| LiveAt(s, g, id, k) && lab in s.data[k].labels { assert Filtered(s, g, id, HasLabel(lab)); }
    forall v | ValidValue(v) ensures Filtered(s, g, id, HasProp(lab, prop, Eq(v))) <==> Holding(s, g, lab, prop, v, id)
    {
      forall k | k in s.data && prop in s.data[k].props
        ensures Matches(s.data[k].props[prop], Eq(v)) <==> Equal(s.data[k].props[prop], v)
      {
        assert Entry(s, k);
        ValueEqualMeans(s.data[k].props[prop], v);
      }
      if Filtered(s, g, id, HasProp(lab, prop, Eq(v))) {
        var k :| LiveAt(s, g, id, k) && Keeps(s.data[k], HasProp(lab, prop, Eq(v)));
      }
      if k :| LiveAt(s, g, id, k) && lab in s.data[k].labels && prop in s.data[k].props
              && Equal(s.data[k].props[prop], v) {
        assert Keeps(s.data[k], HasProp(lab, prop, Eq(v)));
      }
    }
    forall from ensures Filtered(s, g, id, HasProp(lab, prop, Gte(from))) <==> AtLeast(s, g, lab, prop, from, id)
    {
      if Filtered(s, g, id, HasProp(lab, prop, Gte(from))) {
        var k :| LiveAt(s, g, id, k) && Keeps(s.data[k], HasProp(lab, prop, Gte(from)));
        assert s.data[k].props[prop] == IntV(s.data[k].props[prop].i);
      }
      if k, i :| LiveAt(s, g, id, k) && lab in s.data[k].labels && prop in s.data[k].props
                 && s.data[k].props[prop] == IntV(i) && i >= from {
        assert Keeps(s.data[k], HasProp(lab, prop, Gte(from)));
      }
    }
  }

  ghost predicate NoDup(s: seq<bytes>) { forall i, j :: 0 <= i < j < |s| ==> s[i] != s[j] }

  /** What an index scan of [start, end) yields. */
  ghost predicate Scanned(it: seq<bytes>, index: set<bytes>, start: bytes, end: Option<bytes>)
  {
    forall k :: k in it <==> k in index && InScan(k, start, end)
  }

  ghost predicate SameSet(out: seq<bytes>, seen: set<bytes>) { forall x :: x in out <==> x in seen }

  method ScanLabel(s: State, it: seq<bytes>, g: bytes, lab: bytes) returns (out: seq<bytes>)
    requires Inv(s) && Fits(g) && Fits(lab)
    requires Scanned(it, s.index, LabelPrefix(g, lab), PrefixEnd(LabelPrefix(g, lab)))
    ensures NoDup(out)
    ensures forall id :: Fits(id) ==> (id in out <==> Labelled(s, g, lab, id))
  {
    hide NodeKey, Inv, InScan, PrefixEnd, DecodeLp, LabelPrefix, Carries, Labelled, Holding, AtLeast, Filtered;
    var p := LabelPrefix(g, lab);
    var seen: set<bytes> := {};
    out := [];
    for i := 0 to |it|
      invariant NoDup(out) && SameSet(out, seen)
      invariant forall x :: x in out <==> exists j :: 0 <= j < i && LabelId(it[j], p) == x && Carries(s, g, lab, x)
    {
      var id := LabelId(it[i], p);
      if id !in seen && Carries(s, g, lab, id) {
        seen := seen + {id};
        out := out + [id];
      }
    }
    forall id | Fits(id) ensures id in out <==> Labelled(s, g, lab, id)
    {
      LabelHit(s, it, g, lab, id);
      FilteredMeans(s, g, lab, [], id);
    }
  }

  function LabelId(k: bytes, p: bytes): bytes { if |p| <= |k| then DecodeLp(k[|p|..]).0 else [] }

  lemma LabelHit(s: State, it: seq<bytes>, g: bytes, lab: bytes, id: bytes)
    requires Inv(s) && Fits(g) && Fits(lab) && Fits(id)
    requires Scanned(it, s.index, LabelPrefix(g, lab), PrefixEnd(LabelPrefix(g, lab)))
    ensures Filtered(s, g, id, HasLabel(lab)) <==> Carries(s, g, lab, id)
    ensures Carries(s, g, lab, id) ==>
      exists j :: 0 <= j < |it| && LabelId(it[j], LabelPrefix(g, lab)) == id
  {
    hide NodeKey, InScan, PrefixEnd, DecodeLp, LabelPrefix, PropKey, Lp;
    LookupIsFilter(s, g, id, HasLabel(lab));
    if Carries(s, g, lab, id) {
      var n := s.data[NodeKey(g, id)];
      assert Entry(s, NodeKey(g, id));
      NodeKeyInjective(g, id, n.graph, n.id);
      var i :| 0 <= i < |n.labels| && n.labels[i] == lab;
      var k := LabelKey(g, lab, id);
      assert k in s.index;
      PrefixEndExact(LabelPrefix(g, lab), k);
      assert k[|LabelPrefix(g, lab)|..] == Lp(id) + [];
      LpRoundTrip(id, []);
      assert k in it;
      var j :| 0 <= j < |it| && it[j] == k;
      assert LabelId(it[j], LabelPrefix(g, lab)) == id;
    }
  }

  /** seekProp: the loop shared by the equality and the range seek. */
  method SeekProp(s: State, it: seq<bytes>, g: bytes, lab: bytes, prop: bytes, off: nat, w: Want)
    returns (out: seq<bytes>)
    ensures NoDup(out)
    ensures forall id :: id in out <==> Hit(s, g, lab, prop, w, id) && exists j :: 0 <= j < |it| && IdAt(it[j], off, id)
  {
    hide Hit;
    var seen: set<bytes> := {};
    out := [];
    for i := 0 to |it|
      invariant NoDup(out) && SameSet(out, seen)
      invariant forall x :: x in out <==> Hit(s, g, lab, prop, w, x) && exists j :: 0 <= j < i && IdAt(it[j], off, x)
    {
      if |it[i]| >= off {
        var id := it[i][off..];
        assert forall x :: IdAt(it[i], off, x) <==> x == id;
        if id !in seen && Hit(s, g, lab, prop, w, id) {
          seen := seen + {id};
          out := out + [id];
        }
      }
    }
  }

  predicate IdAt(k: bytes, off: nat, id: bytes) { |k| >= off && k[off..] == id }

  /** A hit's own index key. */
  lemma OwnKey(s: State, g: bytes, lab: bytes, prop: bytes, w: Want, id: bytes)
    requires Inv(s) && Fits(g) && Fits(id) && Hit(s, g, lab, prop, w, id)
    ensures var v := s.data[NodeKey(g, id)].props[prop];
      ValidValue(v) && Matches(v, w) && PropKey(g, lab, prop, v, id) in s.index
  {
    hide NodeKey, PropKey, LabelKey, Matches;
    var n := s.data[NodeKey(g, id)];
    assert Entry(s, NodeKey(g, id));
    NodeKeyInjective(g, id, n.graph, n.id);
    var i :| 0 <= i < |n.labels| && n.labels[i] == lab;
  }

  lemma HitIsFilter(s: State, g: bytes, lab: bytes, prop: bytes, w: Want, id: bytes)
    requires Inv(s) && Fits(g) && Fits(id)
    ensures Hit(s, g, lab, prop, w, id) <==>
      Filtered(s, g, id, HasProp(lab, prop, w))
  {
    hide NodeKey, Matches;
    LookupIsFilter(s, g, id, HasProp(lab, prop, w));
  }

  /** Equal values share their index bytes, but for the two zeros. */
  lemma EqualEncodes(a: Value, b: Value)
    requires ValidValue(a) && ValidValue(b) && ValueEqual(a, b) && !(b.DoubleV? && IsZero(b.bits))
    ensures EncodeOrdered(a) == EncodeOrdered(b)
  {
    hide BE;
  }

  /** The two zeros are equal values with different index bytes: a seek for 0.0 does not scan the entry of a
      node that holds -0.0. */
  lemma ZerosIndexedApart(g: bytes, lab: bytes, prop: bytes, id: bytes)
    ensures ValueEqual(DoubleV(TWO63), DoubleV(0))
    ensures var p := PropSpace(g, lab, prop) + EncodeOrdered(DoubleV(0));
      !InScan(PropKey(g, lab, prop, DoubleV(TWO63), id), p, PrefixEnd(p))
  {
    ZeroBytes();
    hide BE, EncodeOrdered, PropSpace, InScan, PrefixEnd;
    var sp, a, b := PropSpace(g, lab, prop), BE(TWO63, 8), BE(TWO63 - 1, 8);
    var p := sp + EncodeOrdered(DoubleV(0));
    var k := PropKey(g, lab, prop, DoubleV(TWO63), id);
    assert p == (sp + [3]) + a && k == (sp + [3]) + (b + id);
    PrefixEndExact(p, k);
    if p <= k { SamePrefix(sp + [3], a, b, id); }
  }

  lemma ZeroBytes()
    ensures EncodeOrdered(DoubleV(0)) == [3] + BE(TWO63, 8)
    ensures EncodeOrdered(DoubleV(TWO63)) == [3] + BE(TWO63 - 1, 8)
    ensures BE(TWO63, 8) != BE(TWO63 - 1, 8)
    ensures ValueEqual(DoubleV(TWO63), DoubleV(0))
  {
    hide BE, FromBE;
    U64RoundTrip(TWO63);
    U64RoundTrip(TWO63 - 1);
  }

  lemma SamePrefix(h: bytes, a: bytes, b: bytes, t: bytes)
    requires |a| == |b| && h + a <= h + (b + t)
    ensures a == b
  {
    var p, k := h + a, h + (b + t);
    assert p == k[..|p|] && p[|h|..] == a && k[..|p|][|h|..] == b;
  }

  /** A seek returns a matching node exactly when the index still has an entry for it under the value sought:
      always, but for the two zeros. */
  method SeekProperty(s: State, it: seq<bytes>, g: bytes, lab: bytes, prop: bytes, v: Value) returns (out: seq<bytes>)
    requires Inv(s) && Fits(g) && ValidValue(v)
    requires var p := PropSpace(g, lab, prop) + EncodeOrdered(v); Scanned(it, s.index, p, PrefixEnd(p))
    ensures NoDup(out)
    ensures forall id :: Fits(id) ==> (id in out <==>
      Holding(s, g, lab, prop, v, id) && PropKey(g, lab, prop, v, id) in s.index)
    ensures v != DoubleV(0) && v != DoubleV(TWO63) ==> forall id :: Fits(id) ==> (id in out <==>
      Holding(s, g, lab, prop, v, id))
  {
    hide Inv, Hit, Filtered, PrefixEnd, PropSpace, EncodeOrdered, Matches, InScan, Labelled, Holding, AtLeast;
    var p := PropSpace(g, lab, prop) + EncodeOrdered(v);
    out := SeekProp(s, it, g, lab, prop, |p|, Eq(v));
    forall id | Fits(id)
      ensures Hit(s, g, lab, prop, Eq(v), id) <==> Holding(s, g, lab, prop, v, id)
      ensures (exists j :: 0 <= j < |it| && IdAt(it[j], |p|, id)) <==> PropKey(g, lab, prop, v, id) in s.index
      ensures !(v.DoubleV? && IsZero(v.bits)) && Hit(s, g, lab, prop, Eq(v), id) ==>
        PropKey(g, lab, prop, v, id) in s.index
    {
      HitIsFilter(s, g, lab, prop, Eq(v), id);
      FilteredMeans(s, g, lab, prop, id);
      ScannedAt(it, s.index, p, id);
      if !(v.DoubleV? && IsZero(v.bits)) && Hit(s, g, lab, prop, Eq(v), id) { EqHit(s, g, lab, prop, v, id); }
    }
  }

  /** The entries of a prefix scan with the rest id: p + id, if it is there. */
  lemma ScannedAt(it: seq<bytes>, index: set<bytes>, p: bytes, id: bytes)
    requires Scanned(it, index, p, PrefixEnd(p))
    ensures (exists j :: 0 <= j < |it| && IdAt(it[j], |p|, id)) <==> p + id in index
  {
    hide InScan, PrefixEnd;
    if j :| 0 <= j < |it| && IdAt(it[j], |p|, id) {
      assert it[j] in it;
      PrefixEndExact(p, it[j]);
      assert it[j] == p + id;
    }
    if p + id in index {
      PrefixEndExact(p, p + id);
      assert p + id in it;
      var j :| 0 <= j < |it| && it[j] == p + id;
      assert IdAt(it[j], |p|, id);
    }
  }

  lemma EqHit(s: State, g: bytes, lab: bytes, prop: bytes, v: Value, id: bytes)
    requires Inv(s) && Fits(g) && Fits(id) && ValidValue(v) && !(v.DoubleV? && IsZero(v.bits))
    requires Hit(s, g, lab, prop, Eq(v), id)
    ensures PropKey(g, lab, prop, v, id) in s.index
  {
    hide NodeKey, Inv, PropSpace, EncodeOrdered, ValueEqual;
    OwnKey(s, g, lab, prop, Eq(v), id);
    EqualEncodes(s.data[NodeKey(g, id)].props[prop], v);
  }

  /** The range seek starts at the value's bytes and runs to the end of the integers. */
  method SeekPropertyGTE(s: State, it: seq<bytes>, g: bytes, lab: bytes, prop: bytes, from: int)
    returns (out: seq<bytes>)
    requires Inv(s) && Fits(g) && ValidValue(IntV(from))
    requires var p := PropSpace(g, lab, prop);
      Scanned(it, s.index, p + EncodeOrdered(IntV(from)), PrefixEnd(p + [TAG_INT]))
    ensures NoDup(out)
    ensures forall id :: Fits(id) ==> (id in out <==> AtLeast(s, g, lab, prop, from, id))
  {
    hide Inv, Hit, Filtered, PrefixEnd, PropSpace, EncodeOrdered, Matches, Labelled, Holding, AtLeast;
    var off := |PropSpace(g, lab, prop) + [TAG_INT]| + 8;
    out := SeekProp(s, it, g, lab, prop, off, Gte(from));
    forall id | Fits(id)
      ensures Hit(s, g, lab, prop, Gte(from), id) <==> AtLeast(s, g, lab, prop, from, id)
      ensures Hit(s, g, lab, prop, Gte(from), id) ==> exists j :: 0 <= j < |it| && IdAt(it[j], off, id)
    {
      HitIsFilter(s, g, lab, prop, Gte(from), id);
      FilteredMeans(s, g, lab, prop, id);
      if Hit(s, g, lab, prop, Gte(from), id) { GteHit(s, it, g, lab, prop, from, id); }
    }
  }

  lemma GteHit(s: State, it: seq<bytes>, g: bytes, lab: bytes, prop: bytes, from: int, id: bytes)
    requires Inv(s) && Fits(g) && Fits(id) && ValidValue(IntV(from))
    requires var p := PropSpace(g, lab, prop);
      Scanned(it, s.index, p + EncodeOrdered(IntV(from)), PrefixEnd(p + [TAG_INT]))
    requires Hit(s, g, lab, prop, Gte(from), id)
    ensures exists j :: 0 <= j < |it| && IdAt(it[j], |PropSpace(g, lab, prop) + [TAG_INT]| + 8, id)
  {
    hide NodeKey, Inv, PrefixEnd, PropSpace, BE, Less;
    OwnKey(s, g, lab, prop, Gte(from), id);
    var cur := s.data[NodeKey(g, id)].props[prop];
    var p := PropSpace(g, lab, prop);
    var k := PropKey(g, lab, prop, cur, id);
    IntKeyInScan(p, from, cur.i, id);
    assert k == p + EncodeOrdered(cur) + id;
    assert k in it;
    var j :| 0 <= j < |it| && it[j] == k;
    assert |BE(cur.i + TWO63, 8)| == 8;
    assert k[|p + [TAG_INT]| + 8..] == id;
    assert IdAt(it[j], |p + [TAG_INT]| + 8, id);
  }

  lemma IntKey(p: bytes, i: int, id: bytes)
    requires -TWO63 <= i < TWO63
    ensures p + EncodeOrdered(IntV(i)) + id == p + [TAG_INT] + (BE(i + TWO63, 8) + id)
  {
    hide BE;
  }

  /** Index bytes of integers sort like the integers. */
  lemma IntKeyInScan(p: bytes, from: int, i: int, id: bytes)
    requires -TWO63 <= from <= i < TWO63
    ensures InScan(p + EncodeOrdered(IntV(i)) + id, p + EncodeOrdered(IntV(from)), PrefixEnd(p + [TAG_INT]))
  {
    hide BE, PrefixEnd, Less, EncodeOrdered;
    var a, b := BE(from + TWO63, 8), BE(i + TWO63, 8);
    var k := p + EncodeOrdered(IntV(i)) + id;
    var start := p + EncodeOrdered(IntV(from));
    var t := p + [TAG_INT];
    IntKey(p, i, id);
    IntKey(p, from, []);
    assert start + [] == start;
    PrefixEndExact(t, k);
    U64Order(from + TWO63, i + TWO63);
    LessAfterPrefix(t, a + [], b + id);
    if from < i {
      LessTotal(a, b);
      LessByHead(a, [], b, id);
    } else {
      assert start <= k;
      LeqPrefix(start, k);
    }
  }
}
