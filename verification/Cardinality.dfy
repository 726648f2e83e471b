/** Counters and sorted sets: in every state any Update can reach, each stored counter is the number of
    element rows, the negative clamp has never fired, and the score index mirrors the member pointers. */
module Cardinality {
  import opened Bytes
  import opened Codec
  import opened Rows
  import opened Machine
  import L = Ledger
  import opened Frame

  ghost function Elems(d: Data, c: Coll): set<Row>
  {
    set r | r in d && r.Elem? && r.coll == c
  }

  ghost function Count(d: Data, c: Coll): nat { |Elems(d, c)| }

  /** Elements live only under a header of their kind; expiries only under sets. */
  ghost predicate Typed(d: Data)
  {
    && (forall c, x :: Elem(c, x) in d ==> TypeOf(d, c) == TSET || TypeOf(d, c) == THASH || TypeOf(d, c) == TZSET)
    && (forall c, m :: ZPtr(c, m) in d ==> TypeOf(d, c) == TZSET && ScoreOf(d, c, m).Some?)
    && (forall c, m :: TTLPtr(c, m) in d ==> TypeOf(d, c) == TSET)
  }

  /** The index row a zset row must be: its member's pointer holds its score. */
  ghost predicate Pointed(d: Data, c: Coll, x: bytes)
  {
    |x| >= 8 && ScoreOf(d, c, x[8..]).Some? && x == ScoreTail(ScoreOf(d, c, x[8..]).value, x[8..])
  }

  /** Score-index rows and member pointers are in bijection with equal scores. */
  ghost predicate Mirrored(d: Data)
  {
    && (forall c, m :: ScoreOf(d, c, m).Some? ==> Elem(c, ScoreTail(ScoreOf(d, c, m).value, m)) in d)
    && (forall c, x :: Elem(c, x) in d && TypeOf(d, c) == TZSET ==> Pointed(d, c, x))
  }

  ghost predicate Sound(d: Data) { Typed(d) && Mirrored(d) }

  /** Headers found by the running Update are still there. */
  ghost predicate Grown(base: Data, d: Data)
  {
    forall c :: TypeRow(base, c).Some? ==> TypeRow(d, c) == TypeRow(base, c)
  }

  ghost predicate SameTypes(a: Data, b: Data)
  {
    forall c :: TypeRow(a, c) == TypeRow(b, c)
  }

  /** The step of one item: sound rows, unchanged headers, counts moved by delta in its own collection only. */
  ghost predicate Counts(d: Data, c: Coll, e: ItemEff)
  {
    && Sound(e.d) && SameTypes(d, e.d)
    && Count(e.d, c) == Count(d, c) + e.delta
    && (forall o :: o != c ==> Elems(e.d, o) == Elems(d, o))
  }

  lemma ElemAdded(a: Data, b: Data, c: Coll, k: Row)
    requires Elems(b, c) == Elems(a, c) + {k} && k !in Elems(a, c)
    ensures Count(b, c) == Count(a, c) + 1
  {
  }

  lemma ElemDropped(a: Data, b: Data, c: Coll, k: Row)
    requires Elems(b, c) == Elems(a, c) - {k} && k in Elems(a, c)
    ensures Count(b, c) == Count(a, c) - 1
  {
  }

  /** Rows outside the element, pointer and header families do not matter to soundness or counts. */
  ghost predicate SameCore(a: Data, b: Data)
  {
    forall r: Row :: r.Elem? || r.ZPtr? || r.Type? ==> (r in a <==> r in b) && (r in a ==> a[r] == b[r])
  }

  lemma CoreCounts(a: Data, b: Data)
    requires SameCore(a, b)
    ensures SameTypes(a, b) && forall c :: Elems(a, c) == Elems(b, c)
  {
    forall c ensures Elems(a, c) == Elems(b, c)
    {
      forall r: Row ensures r in Elems(a, c) <==> r in Elems(b, c) { }
    }
  }

  /** ... except that expiry pointers stay under sets. */
  lemma CoreSound(a: Data, b: Data)
    requires Sound(a) && SameCore(a, b)
    requires forall c, m :: TTLPtr(c, m) in b ==> TTLPtr(c, m) in a || TypeOf(b, c) == TSET
    ensures Sound(b)
  {
    hide ScoreTail;
    assert forall c :: TypeOf(b, c) == TypeOf(a, c);
    assert forall c, m :: ScoreOf(b, c, m) == ScoreOf(a, c, m);
  }

  lemma TTLKeepsCore(base: Data, d: Data, c: Coll, m: bytes, expiry: nat)
    ensures SameCore(d, SetTTL(base, d, c, m, expiry)) && SameCore(d, ClearTTL(base, d, c, m))
    ensures forall o, n :: TTLPtr(o, n) in SetTTL(base, d, c, m, expiry) ==> TTLPtr(o, n) in d || o == c
    ensures forall o, n :: TTLPtr(o, n) in ClearTTL(base, d, c, m) ==> TTLPtr(o, n) in d
  {
  }

  lemma PutElemCounts(d: Data, c: Coll, m: bytes, v: Val)
    requires Sound(d) && (TypeOf(d, c) == TSET || TypeOf(d, c) == THASH)
    ensures Counts(d, c, ItemEff(d[Elem(c, m) := v], if Elem(c, m) in d then 0 else 1, 0))
  {
    hide ScoreTail;
    var k := Elem(c, m);
    var d' := d[k := v];
    assert SameTypes(d, d');
    assert forall o, n :: ScoreOf(d', o, n) == ScoreOf(d, o, n);
    assert Elems(d', c) == Elems(d, c) + {k};
    if k !in d { ElemAdded(d, d', c, k); } else { assert Elems(d', c) == Elems(d, c); }
    forall o | o != c ensures Elems(d', o) == Elems(d, o) { }
  }

  lemma DropElemCounts(d: Data, c: Coll, m: bytes)
    requires Sound(d) && (TypeOf(d, c) == TSET || TypeOf(d, c) == THASH) && Elem(c, m) in d
    ensures Counts(d, c, ItemEff(d - {Elem(c, m)}, -1, 0))
  {
    hide ScoreTail;
    var k := Elem(c, m);
    var d' := d - {k};
    assert SameTypes(d, d');
    assert forall o, n :: ScoreOf(d', o, n) == ScoreOf(d, o, n);
    assert Elems(d', c) == Elems(d, c) - {k};
    ElemDropped(d, d', c, k);
    forall o | o != c ensures Elems(d', o) == Elems(d, o) { }
  }

  /** Clearing or setting an expiry after an element write keeps what the write established. */
  lemma CoreKeepsCounts(d: Data, c: Coll, e: ItemEff, d': Data)
    requires Counts(d, c, e) && SameCore(e.d, d')
    requires forall o, m :: TTLPtr(o, m) in d' ==> TTLPtr(o, m) in e.d || TypeOf(e.d, o) == TSET
    ensures Counts(d, c, e.(d := d'))
  {
    hide Sound;
    CoreCounts(e.d, d');
    assert forall o :: TypeOf(d', o) == TypeOf(e.d, o);
    CoreSound(e.d, d');
  }

  lemma AddMemberCounts(base: Data, d: Data, c: Coll, it: Item)
    requires Sound(d) && TypeOf(d, c) == TSET
    ensures Counts(d, c, AddMember(base, d, c, it))
  {
    hide Sound, SetTTL;
    var k := Elem(c, it.key);
    var e := AddMember(base, d, c, it);
    var d1 := if k in d then d else d[k := Raw([])];
    if k !in d { PutElemCounts(d, c, it.key, Raw([])); }
    assert Counts(d, c, ItemEff(d1, e.delta, 0));
    if it.expiryMs > 0 {
      TTLKeepsCore(base, d1, c, it.key, it.expiryMs);
      CoreKeepsCounts(d, c, ItemEff(d1, e.delta, 0), e.d);
    }
  }

  lemma DropCounts(base: Data, d: Data, c: Coll, it: Item)
    requires Sound(d) && (TypeOf(d, c) == TSET || TypeOf(d, c) == THASH)
    ensures Counts(d, c, DropElem(base, d, c, it))
  {
    hide Sound, ClearTTL;
    var k := Elem(c, it.key);
    var e := DropElem(base, d, c, it);
    var d1 := if k in d then d - {k} else d;
    if k in d { DropElemCounts(d, c, it.key); }
    assert Counts(d, c, ItemEff(d1, e.delta, 0));
    TTLKeepsCore(base, d1, c, it.key, 0);
    CoreKeepsCounts(d, c, ItemEff(d1, e.delta, 0), e.d);
  }

  lemma TailParts(bits: nat, m: bytes)
    requires bits < TWO64
    ensures |ScoreTail(bits, m)| >= 8 && ScoreTail(bits, m)[8..] == m
  {
  }

  /** A zset index row of member m is the one its pointer names. */
  lemma OnlyRowOfMember(d: Data, c: Coll, m: bytes, bits: nat)
    requires Sound(d) && TypeOf(d, c) == TZSET && bits < TWO64 && Elem(c, ScoreTail(bits, m)) in d
    ensures ScoreOf(d, c, m).Some? && ScoreTail(ScoreOf(d, c, m).value, m) == ScoreTail(bits, m)
  {
    TailParts(bits, m);
    hide ScoreTail;
    assert Pointed(d, c, ScoreTail(bits, m));
  }

  /** Re-pointing member m from its old index row (if any) to the row of a new score keeps the mirror. */
  lemma RepointSound(d: Data, c: Coll, m: bytes, bits: nat, d': Data)
    requires Sound(d) && TypeOf(d, c) == TZSET && bits < TWO64
    requires var prior := ScoreOf(d, c, m);
      var d1 := if prior.Some? then d - {Elem(c, ScoreTail(prior.value, m))} else d;
      d' == d1[Elem(c, ScoreTail(bits, m)) := Raw([])][ZPtr(c, m) := Num(bits)]
    ensures Sound(d') && SameTypes(d, d')
  {
    hide ScoreTail;
    assert SameTypes(d, d');
    assert ScoreOf(d', c, m) == Some(bits);
    assert forall o, n :: (o, n) != (c, m) ==> ScoreOf(d', o, n) == ScoreOf(d, o, n);
    forall o, n | ScoreOf(d', o, n).Some?
      ensures Elem(o, ScoreTail(ScoreOf(d', o, n).value, n)) in d'
    {
      if (o, n) != (c, m) && ScoreOf(d, c, m).Some? &&
         ScoreTail(ScoreOf(d, o, n).value, n) == ScoreTail(ScoreOf(d, c, m).value, m) {
        ScoreTailInjective(ScoreOf(d, o, n).value, n, ScoreOf(d, c, m).value, m);
      }
    }
    TailParts(bits, m);
    forall o, x | Elem(o, x) in d' && TypeOf(d', o) == TZSET
      ensures Pointed(d', o, x)
    {
      if (o, x) != (c, ScoreTail(bits, m)) { assert Pointed(d, o, x); }
    }
  }

  lemma SwapSize(s: set<Row>, a: Row, b: Row)
    requires a in s && (b in s ==> b == a)
    ensures |s - {a} + {b}| == |s|
  {
    assert |s - {a}| == |s| - 1;
  }

  lemma PutRowElems(d: Data, r: Row, v: Val, c: Coll)
    ensures Elems(d[r := v], c) == if r.Elem? && r.coll == c then Elems(d, c) + {r} else Elems(d, c)
  {
  }

  lemma DelRowElems(d: Data, r: Row, c: Coll)
    ensures Elems(d - {r}, c) == if r.Elem? && r.coll == c then Elems(d, c) - {r} else Elems(d, c)
  {
  }

  lemma AddScoredElems(d: Data, c: Coll, it: Item)
    requires ValidItem(it)
    requires var prior := ScoreOf(d, c, it.key);
      var kNew := Elem(c, ScoreTail(it.score, it.key));
      && (prior.Some? ==> Elem(c, ScoreTail(prior.value, it.key)) in d)
      && (kNew in d ==> prior.Some? && kNew == Elem(c, ScoreTail(prior.value, it.key)))
    ensures var e := AddScored(d, c, it);
      Count(e.d, c) == Count(d, c) + e.delta && forall o :: o != c ==> Elems(e.d, o) == Elems(d, o)
  {
    var kNew := Elem(c, ScoreTail(it.score, it.key));
    var prior := ScoreOf(d, c, it.key);
    assert kNew in Elems(d, c) <==> kNew in d;
    assert prior.Some? ==> Elem(c, ScoreTail(prior.value, it.key)) in Elems(d, c);
    hide ScoreTail, ScoreOf, Elems;
    var d1 := if prior.Some? then d - {Elem(c, ScoreTail(prior.value, it.key))} else d;
    var d2 := d1[kNew := Raw([])];
    forall o
      ensures Elems(AddScored(d, c, it).d, o) == if o == c then Elems(d1, o) + {kNew} else Elems(d, o)
    {
      if prior.Some? { DelRowElems(d, Elem(c, ScoreTail(prior.value, it.key)), o); }
      PutRowElems(d1, kNew, Raw([]), o);
      PutRowElems(d2, ZPtr(c, it.key), Num(it.score), o);
    }
    if prior.Some? {
      DelRowElems(d, Elem(c, ScoreTail(prior.value, it.key)), c);
      SwapSize(Elems(d, c), Elem(c, ScoreTail(prior.value, it.key)), kNew);
    } else {
      ElemAdded(d, AddScored(d, c, it).d, c, kNew);
    }
  }

  lemma AddScoredCounts(d: Data, c: Coll, it: Item)
    requires Sound(d) && TypeOf(d, c) == TZSET && ValidItem(it)
    ensures Counts(d, c, AddScored(d, c, it))
  {
    hide ScoreTail, Typed, Elems;
    RepointSound(d, c, it.key, it.score, AddScored(d, c, it).d);
    if Elem(c, ScoreTail(it.score, it.key)) in d { OnlyRowOfMember(d, c, it.key, it.score); }
    AddScoredElems(d, c, it);
  }

  lemma DropScoredCounts(d: Data, c: Coll, it: Item)
    requires Sound(d) && TypeOf(d, c) == TZSET
    ensures Counts(d, c, DropScored(d, c, it))
  {
    hide ScoreTail;
    var prior := ScoreOf(d, c, it.key);
    var d' := DropScored(d, c, it).d;
    if prior.Some? {
      var m := it.key;
      var k := Elem(c, ScoreTail(prior.value, m));
      assert SameTypes(d, d');
      assert ScoreOf(d', c, m) == None;
      assert forall o, n :: (o, n) != (c, m) ==> ScoreOf(d', o, n) == ScoreOf(d, o, n);
      forall o, n | ScoreOf(d', o, n).Some?
        ensures Elem(o, ScoreTail(ScoreOf(d', o, n).value, n)) in d'
      {
        if ScoreTail(ScoreOf(d, o, n).value, n) == ScoreTail(prior.value, m) {
          ScoreTailInjective(ScoreOf(d, o, n).value, n, prior.value, m);
        }
      }
      forall o, x | Elem(o, x) in d' && TypeOf(d', o) == TZSET
        ensures Pointed(d', o, x)
      {
        assert Pointed(d, o, x);
      }
      assert Elems(d', c) == Elems(d, c) - {k};
      ElemDropped(d, d', c, k);
      forall o | o != c ensures Elems(d', o) == Elems(d, o) { }
    }
  }

  /** The header a command's items run under. */
  ghost predicate TypeFits(d: Data, op: byte, c: Coll)
  {
    op == EXPIRE || op == REMOVE || TypeOf(d, c) == TypeForOp(op)
  }

  lemma NothingCounts(d: Data, c: Coll)
    requires Sound(d)
    ensures Counts(d, c, ItemEff(d, 0, 0))
  {
  }

  lemma ItemCounts(base: Data, d: Data, op: byte, c: Coll, it: Item)
    requires Sound(base) && Grown(base, d) && Sound(d) && ValidItem(it) && Mutates(op) && TypeFits(d, op, c)
    ensures Counts(d, c, ApplyItem(base, d, op, c, it))
  {
    hide Sound, Counts, AddMember, AddScored, DropScored, DropElem, SetField, Count, Elems;
    NothingCounts(d, c);
    if op == SADD { AddMemberCounts(base, d, c, it); }
    else if op == SREM || op == HDEL { DropCounts(base, d, c, it); }
    else if op == EXPIRE { ExpireCounts(base, d, c, it); }
    else if op == HSET { FieldCounts(d, c, it); }
    else if op == ZADD { AddScoredCounts(d, c, it); }
    else if op == ZREM { DropScoredCounts(d, c, it); }
    else if op == REMOVE && (TypeOf(d, c) == TSET || TypeOf(d, c) == THASH) { DropCounts(base, d, c, it); }
    else if op == REMOVE && TypeOf(d, c) == TZSET { DropScoredCounts(d, c, it); }
  }

  lemma FieldCounts(d: Data, c: Coll, it: Item)
    requires Sound(d) && TypeOf(d, c) == THASH
    ensures Counts(d, c, SetField(d, c, it))
  {
    hide Sound;
    PutElemCounts(d, c, it.key, Raw(it.val));
  }

  lemma ExpireCounts(base: Data, d: Data, c: Coll, it: Item)
    requires Sound(base) && Grown(base, d) && Sound(d)
    ensures Counts(d, c, ExpireElem(base, d, c, it))
  {
    hide Mirrored, Counts, DropElem;
    NothingCounts(d, c);
    if ExpiryOf(base, c, it.key).Some? {
      assert TypeOf(base, c) == TSET;
      assert TypeRow(d, c) == TypeRow(base, c);
      DropCounts(base, d, c, it);
    }
  }

  lemma {:induction false} ItemsCount(base: Data, d: Data, op: byte, c: Coll, its: seq<Item>)
    requires Sound(base) && Grown(base, d) && Sound(d) && Mutates(op) && TypeFits(d, op, c)
    requires forall i :: 0 <= i < |its| ==> ValidItem(its[i])
    ensures Counts(d, c, ApplyItems(base, d, op, c, its))
  {
    hide Sound, ApplyItem, Elems, Mutates, TypeForOp;
    if its != [] {
      var n := |its| - 1;
      ItemsCount(base, d, op, c, its[..n]);
      var e := ApplyItems(base, d, op, c, its[..n]);
      assert forall o :: TypeOf(e.d, o) == TypeOf(d, o);
      ItemCounts(base, e.d, op, c, its[n]);
    }
  }

  // ---------------------------------------------------------------- commands, entries, updates

  /** The counters a commit would store are the element counts of the view. */
  ghost predicate Tallied(st: Data, v: View)
  {
    && Sound(v.d) && Grown(Strip(st), v.d)
    && forall c :: CardOf(st, c) + Delta(v, c) == Count(v.d, c)
  }

  lemma HeaderCounts(d: Data, c: Coll, want: nat)
    requires Sound(d)
    ensures var d' := EnsureType(d, c, want).0;
      Sound(d') && Grown(d, d') && (forall o :: Elems(d', o) == Elems(d, o)) &&
        (EnsureType(d, c, want).1 ==> TypeOf(d', c) == want)
  {
    hide ScoreTail;
    var d' := EnsureType(d, c, want).0;
    forall o ensures Elems(d', o) == Elems(d, o) { }
    assert forall o, n :: ScoreOf(d', o, n) == ScoreOf(d, o, n);
    assert forall o :: o != c ==> TypeOf(d', o) == TypeOf(d, o);
  }

  lemma GrownTransitive(a: Data, b: Data, c: Data)
    requires Grown(a, b) && Grown(b, c)
    ensures Grown(a, c)
  {
  }

  lemma CoreTallied(st: Data, v: View, v': View)
    requires Tallied(st, v) && SameCore(v.d, v'.d) && v'.delta == v.delta
    requires forall c, m :: TTLPtr(c, m) in v'.d ==> TTLPtr(c, m) in v.d
    ensures Tallied(st, v')
  {
    hide Sound;
    CoreCounts(v.d, v'.d);
    CoreSound(v.d, v'.d);
    assert forall c :: TypeRow(v'.d, c) == TypeRow(v.d, c);
  }

  lemma HeaderTallied(st: Data, v: View, c: Coll, want: nat)
    requires Tallied(st, v)
    ensures Tallied(st, v.(d := EnsureType(v.d, c, want).0))
  {
    hide Sound, EnsureType, Elems;
    HeaderCounts(v.d, c, want);
    GrownTransitive(Strip(st), v.d, EnsureType(v.d, c, want).0);
  }

  lemma BumpTallied(st: Data, v: View, c: Coll, e: ItemEff)
    requires Tallied(st, v) && Counts(v.d, c, e)
    ensures Tallied(st, Bump(v, e.d, c, e.delta))
  {
    hide Sound, Elems;
    var v' := Bump(v, e.d, c, e.delta);
    forall o ensures CardOf(st, o) + Delta(v', o) == Count(v'.d, o)
    {
      assert o != c ==> Elems(e.d, o) == Elems(v.d, o);
    }
  }

  lemma RecordTallied(st: Data, base: Data, v: View, key: bytes, r: PResult)
    requires Tallied(st, v)
    ensures Tallied(st, Record(base, v, key, r))
  {
    hide Tallied, RingKey;
    CoreTallied(st, v, Record(base, v, key, r));
  }

  lemma CounterTallied(lib: Strconv, st: Data, v: View, c: Command)
    requires Tallied(st, v) && TypeOf(v.d, Coll(c.ns, c.coll)) == THASH
    ensures var o := ApplyCounter(lib, Strip(st), v, c); o.Done? ==> Tallied(st, o.v)
  {
    hide Tallied, NextCount, Record, Counts, Bump;
    var coll := Coll(c.ns, c.coll);
    if ApplyCounter(lib, Strip(st), v, c).Done? {
      var cur := FieldOf(v.d, Elem(coll, c.items[0].key));
      var nx := NextCount(lib, c, cur);
      if nx.Some? {
        var e := ItemEff(v.d[Elem(coll, c.items[0].key) := Raw(nx.value.0)], if cur.None? then 1 else 0, 0);
        assert Sound(v.d) by { TalliedSound(st, v); }
        PutElemCounts(v.d, coll, c.items[0].key, Raw(nx.value.0));
        BumpTallied(st, v, coll, e);
        if |c.idem| > 0 {
          RecordTallied(st, Strip(st), Bump(v, e.d, coll, e.delta), c.idem, PResult(e.delta, nx.value.1));
        }
      }
    }
  }

  lemma TalliedSound(st: Data, v: View)
    requires Tallied(st, v)
    ensures Sound(v.d) && Grown(Strip(st), v.d)
  {
  }

  lemma WriteBudgetCore(d: Data, c: Coll, id: bytes, e: L.Effect)
    requires e.Effect?
    ensures SameCore(d, WriteBudget(d, c, id, e))
    ensures forall o, m :: TTLPtr(o, m) in WriteBudget(d, c, id, e) ==> TTLPtr(o, m) in d
  {
    hide L.U64;
  }

  lemma BudgetTallied(st: Data, v: View, c: Command)
    requires Tallied(st, v)
    ensures var o := ApplyBudget(v, c); o.Done? ==> Tallied(st, o.v)
  {
    hide Tallied, L.Apply, L.DecodeCmd, WriteBudget, EnsureType, L.CmdId, PoolOf, LeaseOf, TombOf;
    var o := ApplyBudget(v, c);
    if o.Done? && o.v != v {
      var coll := Coll(c.ns, c.coll);
      var bc := L.DecodeCmd(c.op, c.items).value;
      var id := L.CmdId(bc);
      var e := L.Apply(bc, PoolOf(v.d, coll), LeaseOf(v.d, coll, id), TombOf(v.d, coll, id));
      var v1 := v.(d := if e.header then EnsureType(v.d, coll, TBUDGET).0 else v.d);
      if e.header { HeaderTallied(st, v, coll, TBUDGET); }
      WriteBudgetCore(v1.d, coll, id, e);
      CoreTallied(st, v1, o.v);
    }
  }

  lemma BodyTallied(lib: Strconv, st: Data, v: View, c: Command)
    requires Tallied(st, v) && Sound(Strip(st)) && ValidCommand(c)
    ensures var o := ApplyBody(lib, Strip(st), v, c); o.Done? ==> Tallied(st, o.v)
  {
    hide Tallied, ApplyCounter, ApplyBudget, ApplyItems, Record, Bump, EnsureType, Counts, Strip;
    var coll := Coll(c.ns, c.coll);
    var typed := c.op != EXPIRE && c.op != REMOVE && TypeForOp(c.op) != TBUDGET;
    var v1 := if typed then v.(d := EnsureType(v.d, coll, TypeForOp(c.op)).0) else v;
    TalliedSound(st, v);
    if typed {
      HeaderTallied(st, v, coll, TypeForOp(c.op));
      HeaderCounts(v.d, coll, TypeForOp(c.op));
    }
    if !typed || EnsureType(v.d, coll, TypeForOp(c.op)).1 {
      BodyAfterHeader(lib, st, v1, c);
    }
  }

  lemma BodyAfterHeader(lib: Strconv, st: Data, v: View, c: Command)
    requires Tallied(st, v) && Sound(Strip(st)) && ValidCommand(c)
    requires TypeForOp(c.op) != TBUDGET ==> TypeFits(v.d, c.op, Coll(c.ns, c.coll))
    ensures TypeForOp(c.op) == TBUDGET ==> var o := ApplyBudget(v, c); o.Done? ==> Tallied(st, o.v)
    ensures c.op == HINCRBY || c.op == HINCRBYFLOAT ==>
      var o := ApplyCounter(lib, Strip(st), v, c); o.Done? ==> Tallied(st, o.v)
    ensures TypeForOp(c.op) != TBUDGET ==>
      var coll := Coll(c.ns, c.coll);
      var e := ApplyItems(Strip(st), v.d, c.op, coll, c.items);
      var v2 := Bump(v, e.d, coll, e.delta);
      Tallied(st, v2) && Tallied(st, Record(Strip(st), v2, c.idem, PResult(e.changed, [])))
  {
    hide Tallied, ApplyCounter, ApplyBudget, ApplyItems, Record, Bump, Counts, Strip;
    TalliedSound(st, v);
    var coll := Coll(c.ns, c.coll);
    if TypeForOp(c.op) == TBUDGET {
      BudgetTallied(st, v, c);
    } else {
      if c.op == HINCRBY || c.op == HINCRBYFLOAT { CounterTallied(lib, st, v, c); }
      ItemsCount(Strip(st), v.d, c.op, coll, c.items);
      var e := ApplyItems(Strip(st), v.d, c.op, coll, c.items);
      BumpTallied(st, v, coll, e);
      RecordTallied(st, Strip(st), Bump(v, e.d, coll, e.delta), c.idem, PResult(e.changed, []));
    }
  }

  lemma OneTallied(lib: Strconv, st: Data, v: View, cmd: bytes)
    requires Tallied(st, v) && Sound(Strip(st))
    ensures var o := ApplyOne(lib, Strip(st), v, cmd); o.Done? ==> Tallied(st, o.v)
  {
    hide Tallied, ApplyBody, Shortcut, DecodeCommand, Strip;
    DecodeCommandValid(cmd);
    var c := DecodeCommand(cmd);
    if c.Some? { BodyTallied(lib, st, v, c.value); }
  }

  lemma {:induction false} SubsTallied(lib: Strconv, st: Data, v: View, subs: seq<bytes>)
    requires Tallied(st, v) && Sound(Strip(st))
    ensures var o := ApplySubs(lib, Strip(st), v, subs); o.SubDone? ==> Tallied(st, o.v)
  {
    hide Tallied, ApplyOne, Strip;
    if subs != [] {
      var n := |subs| - 1;
      SubsTallied(lib, st, v, subs[..n]);
      var h := ApplySubs(lib, Strip(st), v, subs[..n]);
      if h.SubDone? { OneTallied(lib, st, h.v, subs[n]); }
    }
  }

  lemma EntryTallied(lib: Strconv, st: Data, v: View, cmd: bytes)
    requires Tallied(st, v) && Sound(Strip(st)) && !IsMigrate(cmd)
    ensures var o := ApplyEntry(lib, Strip(st), v, cmd); o.Done? ==> Tallied(st, o.v)
  {
    hide Tallied, ApplyOne, ApplySubs, DecodeBatch, DecodeBounds, Strip, EncodeBatchResult;
    if IsFreeze(cmd) {
      var o := ApplyFreeze(v, cmd);
      if o.Done? { CoreTallied(st, v, o.v); }
    } else if IsBatch(cmd) {
      if DecodeBatch(cmd).Some? { SubsTallied(lib, st, v, DecodeBatch(cmd).value); }
    } else {
      OneTallied(lib, st, v, cmd);
    }
  }

  lemma {:induction false} FoldTallied(lib: Strconv, st: Data, v: View, es: seq<Entry>)
    requires Tallied(st, v) && Sound(Strip(st)) && NoMigrate(es)
    ensures Tallied(st, Fold(lib, Strip(st), v, es))
  {
    hide Tallied, ApplyEntry, Strip;
    if es != [] {
      var n := |es| - 1;
      FoldTallied(lib, st, v, es[..n]);
      EntryTallied(lib, st, Fold(lib, Strip(st), v, es[..n]), es[n].cmd);
    }
  }

  /** A state whose rows are sound and whose counters are the element counts. */
  ghost predicate Right(st: Data)
  {
    Sound(Strip(st)) && forall c :: CardOf(st, c) == Count(Strip(st), c)
  }

  lemma StartTallied(st: Data)
    requires Right(st)
    ensures Tallied(st, Start(st))
  {
    hide Sound, Elems;
  }

  lemma MetaRowsAre(st: Data, v: View, last: nat)
    ensures forall r :: r in MetaRows(st, v, last) ==> Meta(r)
    ensures SeqOf(MetaRows(st, v, last)) == v.seqNo
  {
    hide CardRows;
    CardRowsOnly(st, v);
    var m := MetaRows(st, v, last);
    assert Applied in m && m[Applied] == Num(last);
  }

  lemma CardRowsOnly(st: Data, v: View)
    ensures forall r :: r in CardRows(st, v) ==> r.Card?
  {
  }

  lemma CardRowAt(st: Data, v: View, c: Coll)
    ensures Card(c) in CardRows(st, v) <==> Delta(v, c) != 0
    ensures Delta(v, c) != 0 ==> CardRows(st, v)[Card(c)] == Num(NewCard(CardOf(st, c), Delta(v, c)))
  {
    hide NewCard, CardOf;
  }

  lemma Bookkeeping(st: Data, v: View, last: nat)
    ensures var m := MetaRows(st, v, last);
      && Applied in m && m[Applied] == Num(last)
      && (v.seqNo == SeqOf(st) ==>
        (DedupSeq in m <==> DedupSeq in st) && (DedupSeq in st ==> m[DedupSeq] == st[DedupSeq]))
  {
    assert DedupSeq !in CardRows(st, v);
    assert Meta(DedupSeq);
  }

  lemma MetaCards(st: Data, v: View, last: nat, c: Coll)
    ensures CardOf(MetaRows(st, v, last), c) ==
      if Delta(v, c) == 0 then CardOf(st, c) else NewCard(CardOf(st, c), Delta(v, c))
  {
    hide CardRows, NewCard, Delta, SeqOf;
    CardRowAt(st, v, c);
    assert Meta(Card(c));
  }

  /** Commit writes counters and bookkeeping beside the view's rows and nothing over them. */
  lemma CommitStrips(st: Data, v: View, last: nat)
    requires MetaFree(v.d)
    ensures Strip(Commit(st, v, last)) == v.d
    ensures SeqOf(Commit(st, v, last)) == v.seqNo
    ensures forall c ::
      CardOf(Commit(st, v, last), c) ==
      if Delta(v, c) == 0 then CardOf(st, c) else NewCard(CardOf(st, c), Delta(v, c))
  {
    hide MetaRows, NewCard, Delta;
    var full, m := Commit(st, v, last), MetaRows(st, v, last);
    MetaRowsAre(st, v, last);
    assert forall r :: Meta(r) ==> (r in full <==> r in m) && (r in m ==> full[r] == m[r]);
    assert Meta(DedupSeq);
    forall c ensures CardOf(full, c) == if Delta(v, c) == 0 then CardOf(st, c) else NewCard(CardOf(st, c), Delta(v, c))
    {
      MetaCards(st, v, last, c);
      assert Meta(Card(c));
    }
  }

  /** A tallied view commits without the negative clamp firing. */
  lemma CommitRight(st: Data, v: View, last: nat)
    requires Tallied(st, v) && MetaFree(v.d)
    ensures Right(Commit(st, v, last))
    ensures forall c :: CardOf(st, c) + Delta(v, c) >= 0
  {
    hide Sound, Elems, Commit, Strip;
    CommitStrips(st, v, last);
  }

  /** One Update, whatever its entries: right counters and mirrored sorted sets stay so, and every counter
      it stores is a sum that needed no clamping. */
  lemma UpdateRight(lib: Strconv, st: Data, es: seq<Entry>)
    requires Right(st) && NoMigrate(es)
    ensures Right(Update(lib, st, es))
    ensures forall c :: CardOf(st, c) + Delta(Fold(lib, Strip(st), Start(st), es), c) >= 0
  {
    hide Sound, Elems, Commit, Fold, Strip, Tallied;
    StartTallied(st);
    FoldTallied(lib, st, Start(st), es);
    assert MetaFree(Start(st).d) by { StartMetaFree(st); }
    FoldMetaFree(lib, Strip(st), Start(st), es);
    CommitRight(st, Fold(lib, Strip(st), Start(st), es), if es == [] then 0 else es[|es| - 1].index);
  }

  lemma StartMetaFree(st: Data)
    ensures MetaFree(Start(st).d)
  {
  }

  ghost function UpdateAll(lib: Strconv, st: Data, batches: seq<seq<Entry>>): Data
    requires forall i :: 0 <= i < |batches| ==> NoMigrate(batches[i])
    decreases |batches|
  {
    if batches == [] then st else UpdateAll(lib, Update(lib, st, batches[0]), batches[1..])
  }

  /** Over every run, in any batching, with TTL commands and skipped entries: each stored counter equals the
      number of element rows, and score-index rows mirror member pointers. */
  lemma {:induction false} RunsStayRight(lib: Strconv, st: Data, batches: seq<seq<Entry>>)
    requires Right(st) && forall i :: 0 <= i < |batches| ==> NoMigrate(batches[i])
    ensures Right(UpdateAll(lib, st, batches))
    decreases |batches|
  {
    hide Right, Update;
    if batches != [] {
      UpdateRight(lib, st, batches[0]);
      RunsStayRight(lib, Update(lib, st, batches[0]), batches[1..]);
    }
  }

  /** The empty shard is right, so everything reached from it is. */
  /** A commit moves every counter by its delta, but never below zero. */
  lemma CounterAfter(st: Data, v: View, last: nat, c: Coll)
    requires MetaFree(v.d)
    ensures var n := CardOf(st, c) + Delta(v, c); CardOf(Commit(st, v, last), c) == if n < 0 then 0 else n
  {
    hide Commit, Delta, CardOf;
    CommitStrips(st, v, last);
  }

  lemma UpdateKeepsTypes(lib: Strconv, st: Data, es: seq<Entry>)
    requires Right(st) && NoMigrate(es)
    ensures Grown(Strip(st), Strip(Update(lib, st, es)))
  {
    hide Sound, Elems, Commit, Fold, Strip, TypeRow;
    if es != [] {
      StartTallied(st);
      FoldTallied(lib, st, Start(st), es);
      assert MetaFree(Start(st).d) by { StartMetaFree(st); }
      FoldMetaFree(lib, Strip(st), Start(st), es);
      CommitStrips(st, Fold(lib, Strip(st), Start(st), es), es[|es| - 1].index);
    }
  }

  /** Once a collection has a type it keeps it over any run. */
  lemma {:induction false} TypesStay(lib: Strconv, st: Data, batches: seq<seq<Entry>>, c: Coll)
    requires Right(st) && TypeRow(Strip(st), c).Some?
    requires forall i :: 0 <= i < |batches| ==> NoMigrate(batches[i])
    ensures TypeRow(Strip(UpdateAll(lib, st, batches)), c) == TypeRow(Strip(st), c)
    decreases |batches|
  {
    hide Right, Update, Strip, TypeRow, NoMigrate;
    if batches != [] {
      UpdateKeepsTypes(lib, st, batches[0]);
      UpdateRight(lib, st, batches[0]);
      TypesStay(lib, Update(lib, st, batches[0]), batches[1..], c);
    }
  }

  lemma EmptyRight()
    ensures Right(map[])
  {
    forall c ensures Count(Strip(map[]), c) == 0 { assert Elems(Strip(map[]), c) == {}; }
  }
}
