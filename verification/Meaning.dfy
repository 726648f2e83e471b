/** What commands mean to a client: a set is its members, a hash its fields, a sorted set its scores, a counter
    the sum of its increments. Each operation is related to that value, member by member, without reference to
    how the rows are written; the reported number is the number of members that came or went. */
module Meaning {
  import opened Bytes
  import opened Codec
  import opened Rows
  import opened Machine
  import C = Cardinality
  import L = Ledger

  ghost predicate Names(its: seq<Item>, m: bytes) { exists i :: 0 <= i < |its| && its[i].key == m }

  /** its[i] is the last item for m. */
  ghost predicate LastFor(its: seq<Item>, m: bytes, i: int)
  {
    0 <= i < |its| && its[i].key == m && forall j :: i < j < |its| ==> its[j].key != m
  }

  /** m is a member afterwards if it was one or is named; members keep what they hold. */
  ghost predicate Added(d: Data, d': Data, c: Coll, its: seq<Item>, m: bytes)
  {
    var k := Elem(c, m);
    if k in d then Same(d, d', k) else (k in d' <==> Names(its, m))
  }

  /** Some item takes m out: for an expiry, one whose time has come for the deadline the store holds. */
  ghost predicate Takes(base: Data, op: byte, c: Coll, its: seq<Item>, m: bytes)
  {
    exists i :: 0 <= i < |its| && its[i].key == m && (op == EXPIRE ==> Overdue(base, c, its[i]))
  }

  predicate Overdue(base: Data, c: Coll, it: Item)
  {
    var e := ExpiryOf(base, c, it.key);
    e.Some? && e.value <= L.U64(it.expiryMs)
  }

  ghost predicate Taken(base: Data, d: Data, d': Data, op: byte, c: Coll, its: seq<Item>, m: bytes)
  {
    var k := Elem(c, m);
    if Takes(base, op, c, its, m) then k !in d' else Same(d, d', k)
  }

  /** A field holds the last value written to it. */
  ghost predicate Stored(d: Data, d': Data, c: Coll, its: seq<Item>, m: bytes)
  {
    && (forall i :: LastFor(its, m, i) ==> FieldOf(d', Elem(c, m)) == Some(its[i].val))
    && (!Names(its, m) ==> Same(d, d', Elem(c, m)))
  }

  /** A member has the last score given to it. */
  ghost predicate Scored(d: Data, d': Data, c: Coll, its: seq<Item>, m: bytes)
  {
    && (forall i :: LastFor(its, m, i) ==> ScoreOf(d', c, m) == Some(its[i].score))
    && (!Names(its, m) ==> ScoreOf(d', c, m) == ScoreOf(d, c, m))
  }

  ghost predicate Unscored(d: Data, d': Data, c: Coll, its: seq<Item>, m: bytes)
  {
    ScoreOf(d', c, m) == if Names(its, m) then None else ScoreOf(d, c, m)
  }

  predicate DropsElems(d: Data, op: byte, c: Coll)
  {
    op == SREM || op == HDEL || op == EXPIRE || (op == REMOVE && (TypeOf(d, c) == TSET || TypeOf(d, c) == THASH))
  }

  predicate DropsScores(d: Data, op: byte, c: Coll) { op == ZREM || (op == REMOVE && TypeOf(d, c) == TZSET) }

  /** What a command's items do to the value of the collection at m. */
  ghost predicate Means(base: Data, d: Data, d': Data, op: byte, c: Coll, its: seq<Item>, m: bytes)
  {
    && (op == SADD ==> Added(d, d', c, its, m))
    && (op == HSET ==> Stored(d, d', c, its, m))
    && (op == ZADD ==> Scored(d, d', c, its, m))
    && (DropsElems(d, op, c) ==> Taken(base, d, d', op, c, its, m))
    && (DropsScores(d, op, c) ==> Unscored(d, d', c, its, m))
  }

  // ---------------------------------------------------------------- one more item

  lemma NamesNext(its: seq<Item>, m: bytes)
    requires its != []
    ensures var n := |its| - 1; Names(its, m) <==> Names(its[..n], m) || its[n].key == m
  {
    var n := |its| - 1;
    if i :| 0 <= i < |its| && its[i].key == m { assert i < n ==> its[..n][i] == its[i]; }
    if i :| 0 <= i < n && its[..n][i].key == m { assert its[i].key == m; }
  }

  lemma TakesNext(base: Data, op: byte, c: Coll, its: seq<Item>, m: bytes)
    requires its != []
    ensures var n := |its| - 1; Takes(base, op, c, its, m) <==>
      Takes(base, op, c, its[..n], m) || (its[n].key == m && (op == EXPIRE ==> Overdue(base, c, its[n])))
  {
    hide Overdue;
    var n := |its| - 1;
    if i :| 0 <= i < |its| && its[i].key == m && (op == EXPIRE ==> Overdue(base, c, its[i])) {
      assert i < n ==> its[..n][i] == its[i];
    }
    if i :| 0 <= i < n && its[..n][i].key == m && (op == EXPIRE ==> Overdue(base, c, its[..n][i])) {
      assert its[i] == its[..n][i];
    }
  }

  lemma LastForNext(its: seq<Item>, m: bytes, i: int)
    requires its != [] && LastFor(its, m, i)
    ensures var n := |its| - 1; if its[n].key == m then i == n else i < n && LastFor(its[..n], m, i)
  {
  }

  /** Header rows are no item's business. */
  lemma ItemKeepsType(base: Data, d: Data, op: byte, c: Coll, it: Item)
    requires ValidItem(it)
    ensures TypeOf(ApplyItem(base, d, op, c, it).d, c) == TypeOf(d, c)
  {
    hide ScoreTail;
  }

  lemma {:induction false} ItemsKeepType(base: Data, d: Data, op: byte, c: Coll, its: seq<Item>)
    requires forall i :: 0 <= i < |its| ==> ValidItem(its[i])
    ensures TypeOf(ApplyItems(base, d, op, c, its).d, c) == TypeOf(d, c)
  {
    hide ApplyItem;
    if its != [] {
      var n := |its| - 1;
      ItemsKeepType(base, d, op, c, its[..n]);
      ItemKeepsType(base, ApplyItems(base, d, op, c, its[..n]).d, op, c, its[n]);
    }
  }

  /** One item at one member. */
  ghost predicate ItemMeans(base: Data, d: Data, d': Data, op: byte, c: Coll, it: Item, m: bytes)
  {
    var k := Elem(c, m);
    && (op == SADD ==> if k in d || it.key != m then Same(d, d', k) else k in d')
    && (op == HSET ==> if it.key == m then FieldOf(d', k) == Some(it.val) else Same(d, d', k))
    && (op == ZADD ==> ScoreOf(d', c, m) == if it.key == m then Some(it.score) else ScoreOf(d, c, m))
    && (DropsElems(d, op, c) ==>
         if it.key == m && (op == EXPIRE ==> Overdue(base, c, it)) then k !in d' else Same(d, d', k))
    && (DropsScores(d, op, c) ==> ScoreOf(d', c, m) == if it.key == m then None else ScoreOf(d, c, m))
  }

  lemma ItemMeaning(base: Data, d: Data, op: byte, c: Coll, it: Item, m: bytes)
    requires ValidItem(it)
    ensures ItemMeans(base, d, ApplyItem(base, d, op, c, it).d, op, c, it, m)
  {
    hide ScoreTail;
  }

  lemma AddedNext(d: Data, e: Data, d': Data, c: Coll, its: seq<Item>, m: bytes)
    requires its != [] && Added(d, e, c, its[..|its| - 1], m)
    requires var k := Elem(c, m); if k in e || its[|its| - 1].key != m then Same(e, d', k) else k in d'
    ensures Added(d, d', c, its, m)
  {
    hide Names;
    NamesNext(its, m);
  }

  lemma TakenNext(base: Data, d: Data, e: Data, d': Data, op: byte, c: Coll, its: seq<Item>, m: bytes)
    requires its != [] && Taken(base, d, e, op, c, its[..|its| - 1], m)
    requires var it := its[|its| - 1]; var k := Elem(c, m);
      if it.key == m && (op == EXPIRE ==> Overdue(base, c, it)) then k !in d' else Same(e, d', k)
    ensures Taken(base, d, d', op, c, its, m)
  {
    hide Takes, Overdue;
    TakesNext(base, op, c, its, m);
  }

  lemma StoredNext(d: Data, e: Data, d': Data, c: Coll, its: seq<Item>, m: bytes)
    requires its != [] && Stored(d, e, c, its[..|its| - 1], m)
    requires var it := its[|its| - 1]; var k := Elem(c, m);
      if it.key == m then FieldOf(d', k) == Some(it.val) else Same(e, d', k)
    ensures Stored(d, d', c, its, m)
  {
    hide Names;
    NamesNext(its, m);
    forall i | LastFor(its, m, i) ensures FieldOf(d', Elem(c, m)) == Some(its[i].val) { LastForNext(its, m, i); }
  }

  lemma ScoredNext(d: Data, e: Data, d': Data, c: Coll, its: seq<Item>, m: bytes)
    requires its != [] && Scored(d, e, c, its[..|its| - 1], m)
    requires var it := its[|its| - 1];
      ScoreOf(d', c, m) == if it.key == m then Some(it.score) else ScoreOf(e, c, m)
    ensures Scored(d, d', c, its, m)
  {
    hide Names, ScoreOf;
    NamesNext(its, m);
    forall i | LastFor(its, m, i) ensures ScoreOf(d', c, m) == Some(its[i].score) { LastForNext(its, m, i); }
  }

  lemma MeansNext(base: Data, d: Data, e: Data, d': Data, op: byte, c: Coll, its: seq<Item>, m: bytes)
    requires its != [] && Means(base, d, e, op, c, its[..|its| - 1], m) && TypeOf(e, c) == TypeOf(d, c)
    requires ItemMeans(base, e, d', op, c, its[|its| - 1], m)
    ensures Means(base, d, d', op, c, its, m)
  {
    hide Added, Taken, Stored, Scored, Names, ScoreOf, TypeOf, FieldOf, Overdue, Same;
    if op == SADD { AddedNext(d, e, d', c, its, m); }
    if op == HSET { StoredNext(d, e, d', c, its, m); }
    if op == ZADD { ScoredNext(d, e, d', c, its, m); }
    if DropsElems(d, op, c) { TakenNext(base, d, e, d', op, c, its, m); }
    if DropsScores(d, op, c) { NamesNext(its, m); }
  }

  lemma NothingMeans(base: Data, d: Data, op: byte, c: Coll, m: bytes)
    ensures Means(base, d, d, op, c, [], m)
  {
  }

  /** The items of a command in order, at every member. */
  lemma {:induction false} ItemsMeaning(base: Data, d: Data, op: byte, c: Coll, its: seq<Item>, m: bytes)
    requires forall i :: 0 <= i < |its| ==> ValidItem(its[i])
    ensures Means(base, d, ApplyItems(base, d, op, c, its).d, op, c, its, m)
  {
    hide ApplyItem, Means, ItemMeans, TypeOf;
    if its == [] {
      NothingMeans(base, d, op, c, m);
    } else {
      var n := |its| - 1;
      var e := ApplyItems(base, d, op, c, its[..n]).d;
      ItemsMeaning(base, d, op, c, its[..n], m);
      ItemsKeepType(base, d, op, c, its[..n]);
      ItemMeaning(base, e, op, c, its[n], m);
      MeansNext(base, d, e, ApplyItem(base, e, op, c, its[n]).d, op, c, its, m);
    }
  }

  // ---------------------------------------------------------------- the reported number

  ghost function Ranked(d: Data, c: Coll): set<Row>
  {
    set r | r in d && r.ZPtr? && r.coll == c && ScoreOf(d, c, r.tail).Some?
  }

  ghost predicate Grew(a: set<Row>, b: set<Row>, n: nat) { a <= b && n == |b - a| }

  lemma GrewBy(a: set<Row>, k: Row)
    ensures Grew(a, a + {k}, if k in a then 0 else 1)
  {
    assert a + {k} - a == if k in a then {} else {k};
  }

  lemma GrewAgain(a: set<Row>, b: set<Row>, c: set<Row>, n: nat, m: nat)
    requires Grew(a, b, n) && Grew(b, c, m)
    ensures Grew(a, c, n + m)
  {
    assert c - a == (b - a) + (c - b) && (b - a) !! (c - b);
  }

  /** n members came, or went, between d and d'. */
  ghost predicate Reports(d: Data, d': Data, n: nat, op: byte, c: Coll)
  {
    && (op == SADD || op == HSET ==> Grew(C.Elems(d, c), C.Elems(d', c), n))
    && (op == ZADD ==> Grew(Ranked(d, c), Ranked(d', c), n))
    && (DropsElems(d, op, c) ==> Grew(C.Elems(d', c), C.Elems(d, c), n))
    && (DropsScores(d, op, c) ==> Grew(Ranked(d', c), Ranked(d, c), n))
  }

  lemma TTLKeepsMembers(base: Data, d: Data, c: Coll, m: bytes, expiry: nat)
    ensures C.Elems(SetTTL(base, d, c, m, expiry), c) == C.Elems(d, c) == C.Elems(ClearTTL(base, d, c, m), c)
  {
  }

  lemma AddReports(base: Data, d: Data, c: Coll, it: Item)
    ensures Grew(C.Elems(d, c), C.Elems(AddMember(base, d, c, it).d, c), AddMember(base, d, c, it).changed)
  {
    hide SetTTL;
    var k := Elem(c, it.key);
    var d1 := if k in d then d else d[k := Raw([])];
    assert C.Elems(d1, c) == C.Elems(d, c) + {k};
    GrewBy(C.Elems(d, c), k);
    TTLKeepsMembers(base, d1, c, it.key, if it.expiryMs > 0 then it.expiryMs else 0);
  }

  lemma SetReports(d: Data, c: Coll, it: Item)
    ensures Grew(C.Elems(d, c), C.Elems(SetField(d, c, it).d, c), SetField(d, c, it).changed)
  {
    var k := Elem(c, it.key);
    assert C.Elems(d[k := Raw(it.val)], c) == C.Elems(d, c) + {k};
    GrewBy(C.Elems(d, c), k);
  }

  lemma DropReports(base: Data, d: Data, c: Coll, it: Item)
    ensures Grew(C.Elems(DropElem(base, d, c, it).d, c), C.Elems(d, c), DropElem(base, d, c, it).changed)
  {
    hide ClearTTL;
    var k := Elem(c, it.key);
    TTLKeepsMembers(base, d - {k}, c, it.key, 0);
    TTLKeepsMembers(base, d, c, it.key, 0);
    if k in d {
      assert C.Elems(d - {k}, c) + {k} == C.Elems(d, c);
      GrewBy(C.Elems(d - {k}, c), k);
    }
  }

  lemma ScoreReports(d: Data, c: Coll, it: Item)
    requires ValidItem(it)
    ensures Grew(Ranked(d, c), Ranked(AddScored(d, c, it).d, c), AddScored(d, c, it).changed)
  {
    hide ScoreTail;
    var k := ZPtr(c, it.key);
    var d' := AddScored(d, c, it).d;
    forall r: Row | r.ZPtr? && r.coll == c && r != k ensures r in Ranked(d', c) <==> r in Ranked(d, c) { }
    assert Ranked(d', c) == Ranked(d, c) + {k};
    GrewBy(Ranked(d, c), k);
  }

  lemma RankedWithout(d: Data, c: Coll, m: bytes, x: Row)
    requires ScoreOf(d, c, m).Some? && x.Elem?
    ensures Ranked(d - {x, ZPtr(c, m)}, c) + {ZPtr(c, m)} == Ranked(d, c) &&
      ZPtr(c, m) !in Ranked(d - {x, ZPtr(c, m)}, c)
  {
    var k := ZPtr(c, m);
    var d' := d - {x, k};
    forall r: Row | r.ZPtr? && r != k ensures r in d' <==> r in d { }
    forall r: Row ensures r in Ranked(d', c) + {k} <==> r in Ranked(d, c) { }
  }

  lemma UnscoreReports(d: Data, c: Coll, it: Item)
    ensures Grew(Ranked(DropScored(d, c, it).d, c), Ranked(d, c), DropScored(d, c, it).changed)
  {
    hide ScoreTail, Ranked;
    var prior := ScoreOf(d, c, it.key);
    if prior.Some? {
      var x, k := Elem(c, ScoreTail(prior.value, it.key)), ZPtr(c, it.key);
      RankedWithout(d, c, it.key, x);
      GrewBy(Ranked(d - {x, k}, c), k);
    }
  }

  lemma ItemReports(base: Data, d: Data, op: byte, c: Coll, it: Item)
    requires ValidItem(it)
    ensures Reports(d, ApplyItem(base, d, op, c, it).d, ApplyItem(base, d, op, c, it).changed, op, c)
  {
    hide Grew, C.Elems, Ranked, AddMember, SetField, DropElem, AddScored, DropScored, TypeOf;
    AddReports(base, d, c, it);
    SetReports(d, c, it);
    DropReports(base, d, c, it);
    ScoreReports(d, c, it);
    UnscoreReports(d, c, it);
    NoReport(d, c);
  }

  lemma NoReport(d: Data, c: Coll)
    ensures Grew(C.Elems(d, c), C.Elems(d, c), 0) && Grew(Ranked(d, c), Ranked(d, c), 0)
  {
  }

  /** The number a command reports is the number of members, fields or scores that came or went: items that
      repeat a member count once. */
  lemma {:induction false} ItemsReport(base: Data, d: Data, op: byte, c: Coll, its: seq<Item>)
    requires forall i :: 0 <= i < |its| ==> ValidItem(its[i])
    ensures var e := ApplyItems(base, d, op, c, its); Reports(d, e.d, e.changed, op, c)
  {
    hide ApplyItem, Reports, TypeOf;
    if its == [] {
      NothingReported(d, op, c);
    } else {
      var n := |its| - 1;
      var e := ApplyItems(base, d, op, c, its[..n]);
      ItemsReport(base, d, op, c, its[..n]);
      ItemReports(base, e.d, op, c, its[n]);
      ItemsKeepType(base, d, op, c, its[..n]);
      ReportsAgain(d, e.d, ApplyItem(base, e.d, op, c, its[n]).d, e.changed,
        ApplyItem(base, e.d, op, c, its[n]).changed, op, c);
    }
  }

  lemma NothingReported(d: Data, op: byte, c: Coll)
    ensures Reports(d, d, 0, op, c)
  {
    hide Grew;
    NoReport(d, c);
  }

  lemma ReportsAgain(d: Data, e: Data, f: Data, n: nat, m: nat, op: byte, c: Coll)
    requires Reports(d, e, n, op, c) && Reports(e, f, m, op, c) && TypeOf(e, c) == TypeOf(d, c)
    ensures Reports(d, f, n + m, op, c)
  {
    hide Grew, C.Elems, Ranked, TypeOf;
    if op == SADD || op == HSET { GrewAgain(C.Elems(d, c), C.Elems(e, c), C.Elems(f, c), n, m); }
    if op == ZADD { GrewAgain(Ranked(d, c), Ranked(e, c), Ranked(f, c), n, m); }
    if DropsElems(d, op, c) { GrewAgain(C.Elems(f, c), C.Elems(e, c), C.Elems(d, c), m, n); }
    if DropsScores(d, op, c) { GrewAgain(Ranked(f, c), Ranked(e, c), Ranked(d, c), m, n); }
  }

  // ---------------------------------------------------------------- whole commands

  predicate OnItems(op: byte)
  {
    op == SADD || op == SREM || op == HSET || op == HDEL || op == ZADD || op == ZREM || op == EXPIRE || op == REMOVE
  }

  /** Rows that carry a collection's value. */
  ghost predicate SameValue(d: Data, d': Data, c: Coll)
  {
    forall m :: Same(d, d', Elem(c, m)) && Same(d, d', ZPtr(c, m))
  }

  lemma RecordAside(base: Data, v: View, key: bytes, r: PResult, c: Coll)
    ensures SameValue(v.d, Record(base, v, key, r).d, c) && SameValue(Record(base, v, key, r).d, v.d, c)
  {
    hide RingKey;
  }

  lemma SameItself(d: Data, c: Coll)
    ensures SameValue(d, d, c)
  {
  }

  lemma HeaderAside(d: Data, c: Coll, want: nat)
    ensures SameValue(d, EnsureType(d, c, want).0, c)
  {
  }

  lemma SameSets(d: Data, d': Data, c: Coll)
    requires SameValue(d, d', c)
    ensures C.Elems(d, c) == C.Elems(d', c) && Ranked(d, c) == Ranked(d', c)
  {
    forall r: Row ensures r in C.Elems(d, c) <==> r in C.Elems(d', c)
    {
      if r.Elem? && r.coll == c { assert Same(d, d', Elem(c, r.tail)); }
    }
    forall r: Row ensures r in Ranked(d, c) <==> r in Ranked(d', c)
    {
      if r.ZPtr? && r.coll == c { assert Same(d, d', ZPtr(c, r.tail)); }
    }
  }

  /** The meaning looks at the rows of the value, and at the type only to remove. */
  lemma MeansAlike(base: Data, d: Data, e: Data, d': Data, e': Data, op: byte, c: Coll, its: seq<Item>, m: bytes)
    requires Means(base, e, e', op, c, its, m) && SameValue(d, e, c) && SameValue(d', e', c)
    requires op == REMOVE ==> TypeOf(d, c) == TypeOf(e, c)
    ensures Means(base, d, d', op, c, its, m)
  {
    hide Names, Takes, TypeOf;
    assert Same(d, e, Elem(c, m)) && Same(d', e', Elem(c, m));
    assert Same(d, e, ZPtr(c, m)) && Same(d', e', ZPtr(c, m));
  }

  lemma ReportsAlike(d: Data, e: Data, d': Data, e': Data, n: nat, op: byte, c: Coll)
    requires Reports(e, e', n, op, c) && SameValue(d, e, c) && SameValue(d', e', c)
    requires op == REMOVE ==> TypeOf(d, c) == TypeOf(e, c)
    ensures Reports(d, d', n, op, c)
  {
    hide Grew, TypeOf;
    SameSets(d, e, c);
    SameSets(d', e', c);
    hide C.Elems, Ranked;
  }

  ghost predicate Mistyped(d: Data, c: Command)
  {
    var coll := Coll(c.ns, c.coll);
    c.op != EXPIRE && c.op != REMOVE && TypeRow(d, coll).Some? && TypeOf(d, coll) != TypeForOp(c.op)
  }

  /** The rows the items of a command start from. */
  ghost function Headed(d: Data, c: Command): Data
  {
    if c.op != EXPIRE && c.op != REMOVE then EnsureType(d, Coll(c.ns, c.coll), TypeForOp(c.op)).0 else d
  }

  lemma BodyOnItems(lib: Strconv, base: Data, v: View, c: Command)
    requires ValidCommand(c) && OnItems(c.op)
    ensures Mistyped(v.d, c) ==> ApplyBody(lib, base, v, c) == Done(v, PResult(0, WRONG_TYPE))
    ensures !Mistyped(v.d, c) ==>
      var coll := Coll(c.ns, c.coll);
      var e := ApplyItems(base, Headed(v.d, c), c.op, coll, c.items);
      var o := ApplyBody(lib, base, v, c);
      o.Done? && o.r == PResult(e.changed, []) && SameValue(o.v.d, e.d, coll)
  {
    hide ApplyItems, ApplyCounter, ApplyBudget, Record, SameValue;
    if !Mistyped(v.d, c) {
      var coll := Coll(c.ns, c.coll);
      var hd := Headed(v.d, c);
      var e := ApplyItems(base, hd, c.op, coll, c.items);
      SameItself(e.d, coll);
      RecordAside(base, Bump(v.(d := hd), e.d, coll, e.delta), c.idem, PResult(e.changed, []), coll);
    }
  }

  /** A set, hash or sorted-set command that is let through and finds its type does to the collection's value
      what the reference semantics says, and reports how many members came or went; with another type it
      answers so and does nothing. */
  lemma CommandMeaning(lib: Strconv, base: Data, v: View, c: Command, m: bytes)
    requires ValidCommand(c) && OnItems(c.op)
    ensures var coll, o := Coll(c.ns, c.coll), ApplyBody(lib, base, v, c);
      if Mistyped(v.d, c) then o == Done(v, PResult(0, WRONG_TYPE))
      else
        && o.Done? && o.r.data == []
        && Means(base, v.d, o.v.d, c.op, coll, c.items, m)
        && Reports(v.d, o.v.d, o.r.value, c.op, coll)
  {
    hide ApplyItems, Means, Reports, EnsureType, TypeOf, ApplyBody, Mistyped;
    BodyOnItems(lib, base, v, c);
    if !Mistyped(v.d, c) {
      var coll, hd := Coll(c.ns, c.coll), Headed(v.d, c);
      var e := ApplyItems(base, hd, c.op, coll, c.items);
      var d' := ApplyBody(lib, base, v, c).v.d;
      HeaderAside(v.d, coll, TypeForOp(c.op));
      ItemsMeaning(base, hd, c.op, coll, c.items, m);
      ItemsReport(base, hd, c.op, coll, c.items);
      MeansAlike(base, v.d, hd, d', e.d, c.op, coll, c.items, m);
      ReportsAlike(v.d, hd, d', e.d, e.changed, c.op, coll);
    }
  }

  /** A budget command on a collection of another type is answered so and does nothing. A definition that succeeds makes
      the collection a budget, and no other budget command gives it a type. */
  lemma BudgetTypes(lib: Strconv, base: Data, v: View, c: Command)
    requires ValidCommand(c) && TypeForOp(c.op) == TBUDGET
    ensures var coll, o := Coll(c.ns, c.coll), ApplyBody(lib, base, v, c);
      && (TypeOf(v.d, coll) != 0 && TypeOf(v.d, coll) != TBUDGET ==> o == Done(v, PResult(0, WRONG_TYPE)))
      && (o.Done? && TypeRow(v.d, coll).None? ==>
            TypeRow(o.v.d, coll) == if c.op == BUDINIT && o.r == PResult(1, []) then Some(TBUDGET as nat) else None)
  {
    hide L.Apply, L.DecodeCmd, WriteBudget, PoolOf, LeaseOf, TombOf, ApplyItems, ApplyCounter;
    var coll, bc := Coll(c.ns, c.coll), L.DecodeCmd(c.op, c.items);
    if bc.Some? {
      var id := L.CmdId(bc.value);
      var e := L.Apply(bc.value, PoolOf(v.d, coll), LeaseOf(v.d, coll, id), TombOf(v.d, coll, id));
      InitOpcode(c.op, c.items);
      HeaderOfInit(bc.value, PoolOf(v.d, coll), LeaseOf(v.d, coll, id), TombOf(v.d, coll, id));
      if e.Effect? {
        WriteKeepsType(v.d, coll, id, e);
        WriteKeepsType(EnsureType(v.d, coll, TBUDGET).0, coll, id, e);
      }
    }
  }

  lemma InitOpcode(op: byte, items: seq<Item>)
    ensures L.DecodeCmd(op, items).Some? ==> (L.DecodeCmd(op, items).value.Init? <==> op == BUDINIT)
  {
    hide GetI64;
  }

  lemma HeaderOfInit(c: L.Cmd, pool: Option<L.Pool>, lease: Option<L.Lease>, tomb: Option<L.Tomb>)
    ensures var e := L.Apply(c, pool, lease, tomb); e.Effect? ==> (e.header <==> c.Init? && e.result == PResult(1, []))
  {
    hide L.GrantEcho, L.Refill, BE, WrapI64, L.U64;
  }

  lemma WriteKeepsType(d: Data, c: Coll, id: bytes, e: L.Effect)
    requires e.Effect?
    ensures TypeRow(WriteBudget(d, c, id, e), c) == TypeRow(d, c)
  {
    hide L.U64;
  }

  // ---------------------------------------------------------------- expiries

  ghost predicate LastTimed(its: seq<Item>, m: bytes, i: int)
  {
    && 0 <= i < |its| && its[i].key == m && its[i].expiryMs > 0
    && forall j :: i < j < |its| ==> !(its[j].key == m && its[j].expiryMs > 0)
  }

  ghost predicate Timed(its: seq<Item>, m: bytes)
  {
    exists i :: 0 <= i < |its| && its[i].key == m && its[i].expiryMs > 0
  }

  /** A member added with an expiry is due at the last one given, and the due index says so. */
  ghost predicate DueAt(d: Data, d': Data, c: Coll, its: seq<Item>, m: bytes)
  {
    && (forall i :: LastTimed(its, m, i) ==>
         ExpiryOf(d', c, m) == Some(its[i].expiryMs as nat) && TTLIdx(its[i].expiryMs, c, m) in d')
    && (!Timed(its, m) ==> ExpiryOf(d', c, m) == ExpiryOf(d, c, m))
  }

  lemma TimedNext(its: seq<Item>, m: bytes)
    requires its != []
    ensures var n := |its| - 1; Timed(its, m) <==> Timed(its[..n], m) || (its[n].key == m && its[n].expiryMs > 0)
  {
    var n := |its| - 1;
    if i :| 0 <= i < |its| && its[i].key == m && its[i].expiryMs > 0 { assert i < n ==> its[..n][i] == its[i]; }
    if i :| 0 <= i < n && its[..n][i].key == m && its[..n][i].expiryMs > 0 { assert its[i] == its[..n][i]; }
  }

  lemma AddedNone(base: Data, d: Data, c: Coll, m: bytes)
    ensures DueAt(d, ApplyItems(base, d, SADD, c, []).d, c, [], m)
  {
  }

  lemma AddsNext(base: Data, d: Data, c: Coll, its: seq<Item>)
    requires its != [] && forall i :: 0 <= i < |its| ==> ValidItem(its[i])
    ensures var n := |its| - 1;
      ApplyItems(base, d, SADD, c, its).d == AddMember(base, ApplyItems(base, d, SADD, c, its[..n]).d, c, its[n]).d
  {
    hide AddMember;
  }

  lemma {:induction false} AddedExpiries(base: Data, d: Data, c: Coll, its: seq<Item>, m: bytes)
    requires forall i :: 0 <= i < |its| ==> ValidItem(its[i])
    ensures DueAt(d, ApplyItems(base, d, SADD, c, its).d, c, its, m)
  {
    hide ApplyItems, ExpiryOf, AddMember, Timed;
    if its == [] {
      AddedNone(base, d, c, m);
    } else {
      var n := |its| - 1;
      var e := ApplyItems(base, d, SADD, c, its[..n]).d;
      var d' := ApplyItems(base, d, SADD, c, its).d;
      AddsNext(base, d, c, its);
      AddedExpiries(base, d, c, its[..n], m);
      OneExpiry(base, e, c, its[n], m);
      TimedNext(its, m);
      forall i | LastTimed(its, m, i)
        ensures ExpiryOf(d', c, m) == Some(its[i].expiryMs as nat) && TTLIdx(its[i].expiryMs, c, m) in d'
      {
        if i < n { EarlierTimed(its, m, i); }
      }
    }
  }

  lemma EarlierTimed(its: seq<Item>, m: bytes, i: nat)
    requires LastTimed(its, m, i) && i < |its| - 1
    ensures LastTimed(its[..|its| - 1], m, i) && its[..|its| - 1][i] == its[i]
    ensures !(its[|its| - 1].key == m && its[|its| - 1].expiryMs > 0)
  {
  }

  lemma OneExpiry(base: Data, d: Data, c: Coll, it: Item, m: bytes)
    ensures var d' := AddMember(base, d, c, it).d;
      if it.key == m && it.expiryMs > 0 then
        ExpiryOf(d', c, m) == Some(it.expiryMs as nat) && TTLIdx(it.expiryMs, c, m) in d'
      else ExpiryOf(d', c, m) == ExpiryOf(d, c, m) && forall t: nat :: TTLIdx(t, c, m) in d ==> TTLIdx(t, c, m) in d'
  {
  }

  // ---------------------------------------------------------------- counters

  /** strconv reads back the integers it prints. */
  ghost predicate ReadsBack(lib: Strconv)
  {
    forall n :: -TWO63 <= n < TWO63 ==> lib.parseInt(lib.formatInt(n)) == Some(n)
  }

  /** The number a field holds; an absent field counts as zero. */
  function Number(lib: Strconv, d: Data, k: Row): Option<int>
  {
    var f := FieldOf(d, k);
    if f.None? then Some(0) else lib.parseInt(f.value)
  }

  ghost predicate Increments(c: Command, coll: Coll, field: bytes)
  {
    && ValidCommand(c) && c.op == HINCRBY && Coll(c.ns, c.coll) == coll
    && c.items != [] && c.items[0].key == field && |c.items[0].val| >= 8
  }

  function By(c: Command): int
    requires c.items != [] && |c.items[0].val| >= 8
  {
    GetI64(c.items[0].val)
  }

  lemma CounterMeaning(lib: Strconv, base: Data, v: View, c: Command, coll: Coll, field: bytes)
    requires ReadsBack(lib) && Increments(c, coll, field) && Number(lib, v.d, Elem(coll, field)).Some?
    ensures var o := ApplyCounter(lib, base, v, c);
      var sum := WrapI64(Number(lib, v.d, Elem(coll, field)).value + By(c));
      && o.Done? && o.r == PResult(if Elem(coll, field) in v.d then 0 else 1, BE(L.U64(sum), 8))
      && Number(lib, o.v.d, Elem(coll, field)) == Some(sum)
      && TypeRow(o.v.d, coll) == TypeRow(v.d, coll)
  {
    hide BE, GetI64, WrapI64, L.U64;
  }

  /** One increment: the field afterwards reads as the wrapped sum, which is also the answer. */
  lemma IncrementMeaning(lib: Strconv, base: Data, v: View, c: Command, coll: Coll, field: bytes)
    requires ReadsBack(lib) && Increments(c, coll, field) && !Mistyped(v.d, c)
    requires Number(lib, v.d, Elem(coll, field)).Some?
    ensures var o := ApplyBody(lib, base, v, c);
      var sum := WrapI64(Number(lib, v.d, Elem(coll, field)).value + By(c));
      && o.Done? && o.r == PResult(if Elem(coll, field) in v.d then 0 else 1, BE(L.U64(sum), 8))
      && Number(lib, o.v.d, Elem(coll, field)) == Some(sum)
      && !Mistyped(o.v.d, c)
  {
    hide BE, GetI64, ApplyItems, ApplyBudget, ApplyCounter, ReadsBack;
    var v1 := v.(d := EnsureType(v.d, coll, THASH).0);
    CounterMeaning(lib, base, v1, c, coll, field);
  }

  /** The number a field holds as a double; an absent field counts as zero. */
  function Double(lib: Strconv, d: Data, k: Row): Option<nat>
  {
    if k !in d then Some(0) else if d[k].Raw? then lib.parseFloat(d[k].b) else lib.parseFloat([])
  }

  /** One float increment: the field afterwards holds the sum as strconv prints it, whose bits are the answer. */
  lemma FloatMeaning(lib: Strconv, base: Data, v: View, c: Command, coll: Coll, field: bytes)
    requires ValidCommand(c) && c.op == HINCRBYFLOAT && Coll(c.ns, c.coll) == coll && !Mistyped(v.d, c)
    requires c.items != [] && c.items[0].key == field && Double(lib, v.d, Elem(coll, field)).Some?
    ensures var o, k := ApplyBody(lib, base, v, c), Elem(coll, field);
      var sum := lib.addFloat(Double(lib, v.d, k).value, c.items[0].score);
      && o.Done? && o.r == PResult(if k in v.d then 0 else 1, BE(sum % TWO64, 8))
      && k in o.v.d && o.v.d[k] == Raw(lib.formatFloat(sum))
  {
    hide BE, ApplyItems, ApplyBudget;
  }

  /** A field that is no number is left as it is, and the caller is told so. */
  lemma NotANumber(lib: Strconv, base: Data, v: View, c: Command, coll: Coll, field: bytes)
    requires ValidCommand(c) && (c.op == HINCRBY || c.op == HINCRBYFLOAT) && Coll(c.ns, c.coll) == coll
    requires !Mistyped(v.d, c) && c.items != [] && c.items[0].key == field && |c.items[0].val| >= 8
    requires var k := Elem(coll, field);
      if c.op == HINCRBY then Number(lib, v.d, k).None? else Double(lib, v.d, k).None?
    ensures var o := ApplyBody(lib, base, v, c);
      o.Done? && o.r == PResult(0, NOT_NUMBER) && Same(v.d, o.v.d, Elem(coll, field)) && SameValue(v.d, o.v.d, coll)
  {
    hide BE, ApplyItems, ApplyBudget;
  }

  lemma MarksSpell()
    ensures WRONG_TYPE == Ascii("WRONGTYPE") && FROZEN_MARK == Ascii("FROZEN") && NOT_NUMBER == Ascii("NOTNUM")
  {
  }

  ghost predicate AllIncrement(cs: seq<Command>, coll: Coll, field: bytes)
  {
    forall i :: 0 <= i < |cs| ==> Increments(cs[i], coll, field)
  }

  /** Increments of one field, run one after another. */
  ghost function RunIncrements(lib: Strconv, base: Data, v: View, cs: seq<Command>, coll: Coll, field: bytes): View
    requires AllIncrement(cs, coll, field)
  {
    if cs == [] then v else
    var h := RunIncrements(lib, base, v, cs[..|cs| - 1], coll, field);
    var o := ApplyBody(lib, base, h, cs[|cs| - 1]);
    if o.Done? then o.v else h
  }

  ghost function TotalOf(cs: seq<Command>, coll: Coll, field: bytes): int
    requires AllIncrement(cs, coll, field)
  {
    if cs == [] then 0 else TotalOf(cs[..|cs| - 1], coll, field) + By(cs[|cs| - 1])
  }

  lemma WrapAgain(a: int, b: int)
    ensures WrapI64(WrapI64(a) + b) == WrapI64(a + b)
  {
    var q := (a + TWO63) / TWO64;
    assert WrapI64(a) == a - q * TWO64;
    var x := a + b + TWO63;
    assert (x - q * TWO64) % TWO64 == x % TWO64;
  }

  /** A counter is the sum of its increments, wrapped once, whatever their order or number. */
  lemma {:induction false} CounterSums(lib: Strconv, base: Data, v: View, cs: seq<Command>, coll: Coll, field: bytes)
    requires ReadsBack(lib) && AllIncrement(cs, coll, field)
    requires TypeRow(v.d, coll).None? || TypeRow(v.d, coll) == Some(THASH)
    requires var n := Number(lib, v.d, Elem(coll, field)); n.Some? && -TWO63 <= n.value < TWO63
    ensures var w := RunIncrements(lib, base, v, cs, coll, field);
      && Number(lib, w.d, Elem(coll, field)) ==
        Some(WrapI64(Number(lib, v.d, Elem(coll, field)).value + TotalOf(cs, coll, field)))
      && (TypeRow(w.d, coll).None? || TypeRow(w.d, coll) == Some(THASH))
  {
    hide ApplyBody, Number, GetI64, WrapI64, ReadsBack;
    if cs != [] {
      var n := |cs| - 1;
      CounterSums(lib, base, v, cs[..n], coll, field);
      var h := RunIncrements(lib, base, v, cs[..n], coll, field);
      IncrementMeaning(lib, base, h, cs[n], coll, field);
      WrapAgain(Number(lib, v.d, Elem(coll, field)).value + TotalOf(cs[..n], coll, field), By(cs[n]));
    }
  }
}
