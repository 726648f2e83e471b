/** Member expiries (ttl.go): every deadline has its one row in the due index and belongs to a member, and what has no
    deadline is never taken by an expiry. Expiry pointers are read from the store, not from the running Update, so
    this depends on what one Update does to one member; the exact condition is stated. */
module Expiries {
  import opened Bytes
  import opened Codec
  import opened Rows
  import opened Machine
  import B = Batching
  import C = Cardinality
  import F = Frame
  import L = Ledger
  import N = Meaning

  /** The due index names exactly m's deadline, and only a member has one. */
  ghost predicate TidyAt(d: Data, c: Coll, m: bytes)
  {
    && (forall t: nat :: TTLIdx(t, c, m) in d <==> ExpiryOf(d, c, m) == Some(t))
    && (ExpiryOf(d, c, m).Some? ==> Elem(c, m) in d)
  }

  ghost predicate Tidy(d: Data) { forall c, m :: TidyAt(d, c, m) }

  // ---------------------------------------------------------------- one item

  /** The item gives its member a deadline. */
  predicate Sets(op: byte, it: Item) { op == SADD && it.expiryMs > 0 }

  /** The item takes its member out: always for a removal, and for an expiry when the stored deadline has come. */
  predicate Takes(base: Data, d: Data, op: byte, c: Coll, it: Item)
  {
    || op == SREM || op == HDEL
    || (op == REMOVE && (TypeOf(d, c) == TSET || TypeOf(d, c) == THASH))
    || (op == EXPIRE && ExpiryOf(base, c, it.key).Some? && ExpiryOf(base, c, it.key).value <= L.U64(it.expiryMs))
  }

  predicate OnScores(d: Data, op: byte, c: Coll) { op == ZADD || op == ZREM || (op == REMOVE && TypeOf(d, c) == TZSET) }

  /** The member's deadline so far is not the one in the store, so replacing or clearing it misses it. */
  predicate Forgets(base: Data, d: Data, op: byte, c: Coll, it: Item)
  {
    var p := ExpiryOf(d, c, it.key);
    && p.Some? && p != ExpiryOf(base, c, it.key)
    && (Takes(base, d, op, c, it) || (Sets(op, it) && p.value != it.expiryMs))
  }

  /** What one item leaves of its member's deadline and index rows: with the stored deadline up to date, a removal
      leaves neither, a new deadline has its own row and no other, and anything else leaves them as they were. */
  lemma ItemDeadline(base: Data, d: Data, op: byte, c: Coll, it: Item)
    requires ValidItem(it)
    requires ExpiryOf(d, c, it.key).None? || ExpiryOf(d, c, it.key) == ExpiryOf(base, c, it.key)
    requires TidyAt(d, c, it.key) && !OnScores(d, op, c)
    ensures var d' := ApplyItem(base, d, op, c, it).d;
      && ExpiryOf(d', c, it.key) == (if Sets(op, it) then Some(it.expiryMs as nat)
                                     else if Takes(base, d, op, c, it) then None else ExpiryOf(d, c, it.key))
      && (forall t: nat :: TTLIdx(t, c, it.key) in d' <==> ExpiryOf(d', c, it.key) == Some(t))
      && (Takes(base, d, op, c, it) ==> Elem(c, it.key) !in d')
  {
    hide L.U64;
  }

  /** The rows of a member stay tidy if and only if the item does not forget a deadline. */
  lemma ItemTidyExact(base: Data, d: Data, op: byte, c: Coll, it: Item)
    requires ValidItem(it) && TidyAt(d, c, it.key) && !OnScores(d, op, c)
    ensures TidyAt(ApplyItem(base, d, op, c, it).d, c, it.key) <==> !Forgets(base, d, op, c, it)
  {
    hide L.U64;
    var m, d' := it.key, ApplyItem(base, d, op, c, it).d;
    var p := ExpiryOf(d, c, m);
    if Forgets(base, d, op, c, it) {
      assert TTLIdx(p.value, c, m) in d;
      if Sets(op, it) { assert TTLIdx(p.value, c, m) in d'; }
    }
  }

  /** Another member's deadline, index rows and membership are not touched. */
  lemma ItemAside(base: Data, d: Data, op: byte, c: Coll, it: Item, o: Coll, m: bytes)
    requires ValidItem(it) && (o, m) != (c, it.key)
    ensures var d' := ApplyItem(base, d, op, c, it).d;
      && ExpiryOf(d', o, m) == ExpiryOf(d, o, m)
      && (forall t: nat :: TTLIdx(t, o, m) in d' <==> TTLIdx(t, o, m) in d)
      && (!OnScores(d, op, c) || o != c ==> (Elem(o, m) in d' <==> Elem(o, m) in d))
  {
    hide ScoreTail, L.U64;
  }

  /** Sorted-set items touch no deadline at all. */
  lemma ScoresAside(base: Data, d: Data, op: byte, c: Coll, it: Item, o: Coll, m: bytes)
    requires ValidItem(it) && OnScores(d, op, c)
    ensures var d' := ApplyItem(base, d, op, c, it).d;
      ExpiryOf(d', o, m) == ExpiryOf(d, o, m) && forall t: nat :: TTLIdx(t, o, m) in d' <==> TTLIdx(t, o, m) in d
  {
    hide ScoreTail;
  }

  // ---------------------------------------------------------------- one command's items

  ghost predicate Untimed(d: Data, c: Coll) { forall m :: ExpiryOf(d, c, m).None? }

  ghost predicate DistinctKeys(its: seq<Item>) { forall i, j :: 0 <= i < j < |its| ==> its[i].key != its[j].key }

  lemma ItemTidy(base: Data, d: Data, op: byte, c: Coll, it: Item)
    requires ValidItem(it) && Tidy(d) && (OnScores(d, op, c) ==> Untimed(d, c))
    requires ExpiryOf(d, c, it.key) == ExpiryOf(base, c, it.key)
    ensures Tidy(ApplyItem(base, d, op, c, it).d)
  {
    hide ApplyItem, ExpiryOf, Takes;
    var d' := ApplyItem(base, d, op, c, it).d;
    forall o, m ensures TidyAt(d', o, m)
    {
      assert TidyAt(d, o, m);
      if OnScores(d, op, c) { ScoresAside(base, d, op, c, it, o, m); }
      if (o, m) == (c, it.key) {
        if !OnScores(d, op, c) { ItemTidyExact(base, d, op, c, it); }
      } else {
        ItemAside(base, d, op, c, it, o, m);
      }
    }
  }

  lemma {:induction false} ItemsTidy(base: Data, d: Data, op: byte, c: Coll, its: seq<Item>)
    requires forall i :: 0 <= i < |its| ==> ValidItem(its[i])
    requires forall i :: 0 <= i < |its| ==> ExpiryOf(d, c, its[i].key) == ExpiryOf(base, c, its[i].key)
    requires Tidy(d) && DistinctKeys(its) && (OnScores(d, op, c) ==> Untimed(d, c))
    ensures Tidy(ApplyItems(base, d, op, c, its).d)
    decreases |its|
  {
    hide ApplyItem, ExpiryOf, Tidy, OnScores;
    if its != [] {
      var n := |its| - 1;
      var e := ApplyItems(base, d, op, c, its[..n]).d;
      ItemsTidy(base, d, op, c, its[..n]);
      ItemsAside(base, d, op, c, its[..n], c, its[n].key);
      N.ItemsKeepType(base, d, op, c, its[..n]);
      SameKind(d, e, op, c);
      if OnScores(d, op, c) {
        forall m ensures ExpiryOf(e, c, m).None? { ItemsOnScores(base, d, op, c, its[..n], m); }
      }
      ItemTidy(base, e, op, c, its[n]);
    }
  }

  lemma SameKind(d: Data, e: Data, op: byte, c: Coll)
    requires TypeOf(d, c) == TypeOf(e, c)
    ensures OnScores(d, op, c) <==> OnScores(e, op, c)
  {
  }

  lemma {:induction false} ItemsOnScores(base: Data, d: Data, op: byte, c: Coll, its: seq<Item>, m: bytes)
    requires (forall i :: 0 <= i < |its| ==> ValidItem(its[i])) && OnScores(d, op, c)
    ensures ExpiryOf(ApplyItems(base, d, op, c, its).d, c, m) == ExpiryOf(d, c, m)
    decreases |its|
  {
    hide ApplyItem, ExpiryOf, OnScores;
    if its != [] {
      var n := |its| - 1;
      var e := ApplyItems(base, d, op, c, its[..n]).d;
      ItemsOnScores(base, d, op, c, its[..n], m);
      N.ItemsKeepType(base, d, op, c, its[..n]);
      SameKind(d, e, op, c);
      ScoresAside(base, e, op, c, its[n], c, m);
    }
  }

  /** A member the items do not name keeps its deadline. */
  lemma {:induction false} ItemsAside(base: Data, d: Data, op: byte, c: Coll, its: seq<Item>, o: Coll, m: bytes)
    requires forall i :: 0 <= i < |its| ==> ValidItem(its[i])
    requires o != c || forall i :: 0 <= i < |its| ==> its[i].key != m
    ensures ExpiryOf(ApplyItems(base, d, op, c, its).d, o, m) == ExpiryOf(d, o, m)
    decreases |its|
  {
    hide ApplyItem, ExpiryOf;
    if its != [] {
      var n := |its| - 1;
      ItemsAside(base, d, op, c, its[..n], o, m);
      ItemAside(base, ApplyItems(base, d, op, c, its[..n]).d, op, c, its[n], o, m);
    }
  }

  /** After a removal, or an expiry whose time has come, the member is gone with its deadline and its index row. */
  lemma {:induction false} TakenForGood(base: Data, d: Data, op: byte, c: Coll, its: seq<Item>, m: bytes)
    requires forall i :: 0 <= i < |its| ==> ValidItem(its[i])
    requires TidyAt(d, c, m) && ExpiryOf(d, c, m) == ExpiryOf(base, c, m)
    requires !OnScores(d, op, c) && op != SADD && op != HSET
    ensures var d' := ApplyItems(base, d, op, c, its).d;
      if exists i :: 0 <= i < |its| && its[i].key == m && Takes(base, d, op, c, its[i]) then
        Elem(c, m) !in d' && ExpiryOf(d', c, m).None? && forall t: nat :: TTLIdx(t, c, m) !in d'
      else
        && ExpiryOf(d', c, m) == ExpiryOf(d, c, m) && (Elem(c, m) in d' <==> Elem(c, m) in d)
        && forall t: nat :: TTLIdx(t, c, m) in d' <==> TTLIdx(t, c, m) in d
    decreases |its|
  {
    hide ApplyItem, ExpiryOf, Takes, OnScores;
    if its != [] {
      var n := |its| - 1;
      var e := ApplyItems(base, d, op, c, its[..n]).d;
      var d' := ApplyItems(base, d, op, c, its).d;
      TakenForGood(base, d, op, c, its[..n], m);
      N.ItemsKeepType(base, d, op, c, its[..n]);
      SameKind(d, e, op, c);
      SameTakes(base, d, e, op, c, its[n]);
      if i :| 0 <= i < |its| && its[i].key == m && Takes(base, d, op, c, its[i]) {
        assert i < n ==> its[..n][i] == its[i];
      }
      if i :| 0 <= i < n && its[..n][i].key == m && Takes(base, d, op, c, its[..n][i]) { assert its[i] == its[..n][i]; }
      if its[n].key == m {
        ItemDeadline(base, e, op, c, its[n]);
        DropKeeps(base, e, op, c, its[n]);
      } else {
        ItemAside(base, e, op, c, its[n], c, m);
      }
    }
  }

  lemma SameTakes(base: Data, d: Data, e: Data, op: byte, c: Coll, it: Item)
    requires TypeOf(d, c) == TypeOf(e, c)
    ensures Takes(base, d, op, c, it) <==> Takes(base, e, op, c, it)
  {
  }

  lemma DropKeeps(base: Data, d: Data, op: byte, c: Coll, it: Item)
    requires ValidItem(it) && !OnScores(d, op, c) && op != SADD && op != HSET
    ensures !Takes(base, d, op, c, it) ==> ApplyItem(base, d, op, c, it).d == d
    ensures Elem(c, it.key) !in d ==> Elem(c, it.key) !in ApplyItem(base, d, op, c, it).d
  {
    hide L.U64;
  }

  // ---------------------------------------------------------------- one command

  /** No deadline changes and no member goes. */
  ghost predicate Quiet(d: Data, d': Data)
  {
    && (forall c, m :: ExpiryOf(d', c, m) == ExpiryOf(d, c, m) && (Elem(c, m) in d ==> Elem(c, m) in d'))
    && (forall t: nat, c, m :: TTLIdx(t, c, m) in d' <==> TTLIdx(t, c, m) in d)
  }

  lemma QuietTidy(d: Data, d': Data)
    requires Tidy(d) && Quiet(d, d')
    ensures Tidy(d')
  {
    hide ExpiryOf;
    forall c, m ensures TidyAt(d', c, m) { assert TidyAt(d, c, m); }
  }

  lemma QuietAgain(a: Data, b: Data, d: Data)
    requires Quiet(a, b) && Quiet(b, d)
    ensures Quiet(a, d)
  {
    hide ExpiryOf;
  }

  lemma HeaderQuiet(d: Data, c: Coll, want: nat)
    ensures Quiet(d, EnsureType(d, c, want).0)
  {
  }

  lemma RecordQuiet(base: Data, v: View, key: bytes, r: PResult)
    ensures Quiet(v.d, Record(base, v, key, r).d)
  {
    hide RingKey;
  }

  lemma CounterQuiet(lib: Strconv, base: Data, v: View, c: Command)
    ensures var o := ApplyCounter(lib, base, v, c); o.Done? ==> Quiet(v.d, o.v.d)
  {
    hide NextCount, Record, FieldOf, Quiet;
    var o := ApplyCounter(lib, base, v, c);
    if o.Done? {
      QuietItself(v.d);
      var coll := Coll(c.ns, c.coll);
      var k := Elem(coll, c.items[0].key);
      var nx := NextCount(lib, c, FieldOf(v.d, k));
      if nx.Some? {
        var v1 := Bump(v, v.d[k := Raw(nx.value.0)], coll, o.r.value);
        ElemQuiet(v.d, k, nx.value.0);
        RecordQuiet(base, v1, c.idem, o.r);
        QuietAgain(v.d, v1.d, Record(base, v1, c.idem, o.r).d);
      }
    }
  }

  lemma QuietItself(d: Data)
    ensures Quiet(d, d)
  {
  }

  lemma ElemQuiet(d: Data, k: Row, b: bytes)
    requires k.Elem?
    ensures Quiet(d, d[k := Raw(b)])
  {
  }

  lemma WriteQuiet(d: Data, c: Coll, id: bytes, e: L.Effect)
    requires e.Effect?
    ensures Quiet(d, WriteBudget(d, c, id, e))
  {
    hide L.U64;
  }

  lemma BudgetQuiet(v: View, c: Command)
    ensures var o := ApplyBudget(v, c); o.Done? ==> Quiet(v.d, o.v.d)
  {
    hide L.Apply, L.DecodeCmd, WriteBudget, EnsureType, L.CmdId, PoolOf, LeaseOf, TombOf, Quiet;
    var o := ApplyBudget(v, c);
    QuietItself(v.d);
    if o.Done? && o.v != v {
      var coll := Coll(c.ns, c.coll);
      var bc := L.DecodeCmd(c.op, c.items).value;
      var id := L.CmdId(bc);
      var e := L.Apply(bc, PoolOf(v.d, coll), LeaseOf(v.d, coll, id), TombOf(v.d, coll, id));
      var d := if e.header then EnsureType(v.d, coll, TBUDGET).0 else v.d;
      HeaderQuiet(v.d, coll, TBUDGET);
      WriteQuiet(d, coll, id, e);
      QuietAgain(v.d, d, o.v.d);
    }
  }

  /** Every deadline the command does not name is as it was. */
  ghost predicate OthersKept(d: Data, d': Data, c: Coll, its: seq<Item>)
  {
    forall o, m ::
      o != c || (forall i :: 0 <= i < |its| ==> its[i].key != m) ==> ExpiryOf(d', o, m) == ExpiryOf(d, o, m)
  }

  lemma QuietOthers(d: Data, d': Data, c: Coll, its: seq<Item>)
    requires Quiet(d, d')
    ensures OthersKept(d, d', c, its)
  {
    hide ExpiryOf;
  }

  lemma OthersAgain(a: Data, b: Data, d: Data, c: Coll, its: seq<Item>)
    requires OthersKept(a, b, c, its) && OthersKept(b, d, c, its)
    ensures OthersKept(a, d, c, its)
  {
    hide ExpiryOf;
  }

  /** The store's deadlines of the named members are up to date. */
  ghost predicate Current(base: Data, d: Data, c: Coll, its: seq<Item>)
  {
    forall i :: 0 <= i < |its| ==> ExpiryOf(d, c, its[i].key) == ExpiryOf(base, c, its[i].key)
  }

  lemma QuietCurrent(base: Data, d: Data, d': Data, c: Coll, its: seq<Item>)
    requires Quiet(d, d') && Current(base, d, c, its)
    ensures Current(base, d', c, its)
  {
    hide ExpiryOf;
  }

  lemma ItemsBodyTidy(base: Data, v: View, c: Command)
    requires ValidCommand(c) && Tidy(v.d) && DistinctKeys(c.items) && Current(base, v.d, Coll(c.ns, c.coll), c.items)
    requires OnScores(v.d, c.op, Coll(c.ns, c.coll)) ==> Untimed(v.d, Coll(c.ns, c.coll))
    ensures var coll := Coll(c.ns, c.coll);
      var e := ApplyItems(base, v.d, c.op, coll, c.items);
      var v2 := Bump(v, e.d, coll, e.delta);
      var w := if |c.idem| > 0 then Record(base, v2, c.idem, PResult(e.changed, [])) else v2;
      Tidy(w.d) && OthersKept(v.d, w.d, coll, c.items)
  {
    hide ApplyItems, Record, Quiet, ExpiryOf, OnScores, Tidy;
    var coll := Coll(c.ns, c.coll);
    var e := ApplyItems(base, v.d, c.op, coll, c.items);
    var v2 := Bump(v, e.d, coll, e.delta);
    ItemsTidy(base, v.d, c.op, coll, c.items);
    forall o, m | o != coll || forall i :: 0 <= i < |c.items| ==> c.items[i].key != m
      ensures ExpiryOf(e.d, o, m) == ExpiryOf(v.d, o, m)
    {
      ItemsAside(base, v.d, c.op, coll, c.items, o, m);
    }
    assert OthersKept(v.d, e.d, coll, c.items);
    hide OthersKept;
    var r := PResult(e.changed, []);
    RecordQuiet(base, v2, c.idem, r);
    QuietTidy(v2.d, Record(base, v2, c.idem, r).d);
    QuietOthers(v2.d, Record(base, v2, c.idem, r).d, coll, c.items);
    OthersAgain(v.d, v2.d, Record(base, v2, c.idem, r).d, coll, c.items);
  }

  /** Only sets have deadlines. */
  lemma ScoresUntimed(d: Data, op: byte, c: Coll)
    requires C.Typed(d) && OnScores(d, op, c) && TypeOf(d, c) == TZSET
    ensures Untimed(d, c)
  {
    hide ScoreOf, TypeOf;
  }

  lemma BodyTidy(lib: Strconv, st: Data, v: View, c: Command)
    requires C.Tallied(st, v) && ValidCommand(c) && Tidy(v.d) && DistinctKeys(c.items)
    requires Current(Strip(st), v.d, Coll(c.ns, c.coll), c.items)
    ensures var o := ApplyBody(lib, Strip(st), v, c);
      o.Done? ==> Tidy(o.v.d) && OthersKept(v.d, o.v.d, Coll(c.ns, c.coll), c.items)
  {
    hide ApplyCounter, ApplyBudget, ApplyItems, Record, EnsureType, Quiet, Tidy, OthersKept, Strip, C.Sound, Current,
      Untimed, OnScores, C.Elems;
    var base, coll := Strip(st), Coll(c.ns, c.coll);
    var typed := c.op != EXPIRE && c.op != REMOVE && TypeForOp(c.op) != TBUDGET;
    var hd := EnsureType(v.d, coll, TypeForOp(c.op));
    var v1 := if typed then v.(d := hd.0) else v;
    QuietItself(v.d);
    HeaderQuiet(v.d, coll, TypeForOp(c.op));
    QuietTidy(v.d, v1.d);
    QuietOthers(v.d, v1.d, coll, c.items);
    QuietCurrent(base, v.d, v1.d, coll, c.items);
    C.HeaderCounts(v.d, coll, TypeForOp(c.op));
    QuietOthers(v.d, v.d, coll, c.items);
    var o := ApplyBody(lib, base, v, c);
    if o.Done? && (!typed || hd.1) {
      if c.op == HINCRBY || c.op == HINCRBYFLOAT {
        CounterQuiet(lib, base, v1, c);
        QuietTidy(v1.d, o.v.d);
        QuietOthers(v1.d, o.v.d, coll, c.items);
      } else if TypeForOp(c.op) == TBUDGET {
        BudgetQuiet(v1, c);
        QuietTidy(v1.d, o.v.d);
        QuietOthers(v1.d, o.v.d, coll, c.items);
      } else {
        if OnScores(v1.d, c.op, coll) { KindUntimed(v1.d, c.op, coll, typed); }
        ItemsBodyTidy(base, v1, c);
      }
      OthersAgain(v.d, v1.d, o.v.d, coll, c.items);
    }
  }

  lemma KindUntimed(d: Data, op: byte, c: Coll, typed: bool)
    requires C.Sound(d) && OnScores(d, op, c) && (typed ==> TypeOf(d, c) == TypeForOp(op))
    requires typed == (op != EXPIRE && op != REMOVE && TypeForOp(op) != TBUDGET)
    ensures Untimed(d, c)
  {
    hide C.Mirrored, TypeOf, C.Typed;
    ScoresUntimed(d, op, c);
  }

  // ---------------------------------------------------------------- Updates and runs

  ghost predicate Names(cmd: bytes, c: Coll, m: bytes)
  {
    var dc := DecodeCommand(cmd);
    && dc.Some? && Coll(dc.value.ns, dc.value.coll) == c
    && exists i :: 0 <= i < |dc.value.items| && dc.value.items[i].key == m
  }

  ghost predicate NamedIn(cs: seq<bytes>, c: Coll, m: bytes) { exists i :: 0 <= i < |cs| && Names(cs[i], c, m) }

  /** No two of the commands, and no two items of one, name the same member of the same collection. */
  ghost predicate Apart(cs: seq<bytes>)
  {
    cs != [] ==>
      var n := |cs| - 1;
      && Apart(cs[..n])
      && (DecodeCommand(cs[n]).Some? ==> DistinctKeys(DecodeCommand(cs[n]).value.items))
      && forall c, m :: Names(cs[n], c, m) ==> !NamedIn(cs[..n], c, m)
  }

  /** The commands of an entry. */
  ghost function Parts(cmd: bytes): seq<bytes>
  {
    if MigrateOp(cmd) || IsFreeze(cmd) then []
    else if IsBatch(cmd) then (if DecodeBatch(cmd).Some? then DecodeBatch(cmd).value else [])
    else [cmd]
  }

  ghost function AllParts(es: seq<Entry>): seq<bytes>
  {
    if es == [] then [] else AllParts(es[..|es| - 1]) + Parts(es[|es| - 1].cmd)
  }

  /** Tidy so far, and what no command has named yet is as the store has it. */
  ghost predicate Kept(base: Data, d: Data, done: seq<bytes>)
  {
    Tidy(d) && forall c, m :: !NamedIn(done, c, m) ==> ExpiryOf(d, c, m) == ExpiryOf(base, c, m)
  }

  lemma NamedMore(a: seq<bytes>, b: seq<bytes>, c: Coll, m: bytes)
    ensures NamedIn(a, c, m) ==> NamedIn(a + b, c, m)
    ensures b != [] && Names(b[|b| - 1], c, m) ==> NamedIn(a + b, c, m)
  {
    hide Names;
    if i :| 0 <= i < |a| && Names(a[i], c, m) { assert (a + b)[i] == a[i]; }
    if b != [] { assert (a + b)[|a + b| - 1] == b[|b| - 1]; }
  }

  lemma KeptMore(base: Data, d: Data, done: seq<bytes>, more: seq<bytes>)
    requires Kept(base, d, done)
    ensures Kept(base, d, done + more)
  {
    hide ExpiryOf, Tidy, NamedIn;
    forall c, m | !NamedIn(done + more, c, m) ensures !NamedIn(done, c, m) { NamedMore(done, more, c, m); }
  }

  lemma {:induction false} ApartPrefix(a: seq<bytes>, b: seq<bytes>)
    requires Apart(a + b)
    ensures Apart(a)
    decreases |b|
  {
    hide Names, NamedIn;
    if b == [] {
      assert a + b == a;
    } else {
      var n := |b| - 1;
      assert (a + b)[..|a + b| - 1] == a + b[..n];
      ApartPrefix(a, b[..n]);
    }
  }

  lemma OneTidy(lib: Strconv, st: Data, v: View, done: seq<bytes>, cmd: bytes)
    requires C.Tallied(st, v) && Kept(Strip(st), v.d, done) && Apart(done + [cmd])
    ensures var o := ApplyOne(lib, Strip(st), v, cmd); o.Done? ==> Kept(Strip(st), o.v.d, done + [cmd])
  {
    hide ApplyBody, DecodeCommand, Shortcut, Strip, Tidy, ExpiryOf, C.Tallied, NamedIn, DistinctKeys;
    var base, o := Strip(st), ApplyOne(lib, Strip(st), v, cmd);
    assert (done + [cmd])[..|done|] == done;
    if o.Done? {
      DecodeCommandValid(cmd);
      var c := DecodeCommand(cmd).value;
      if Shortcut(base, v, c).Some? {
        KeptMore(base, v.d, done, [cmd]);
      } else {
        var coll := Coll(c.ns, c.coll);
        forall i | 0 <= i < |c.items|
          ensures ExpiryOf(v.d, coll, c.items[i].key) == ExpiryOf(base, coll, c.items[i].key)
        {
          assert Names(cmd, coll, c.items[i].key);
        }
        BodyTidy(lib, st, v, c);
        forall k, m | !NamedIn(done + [cmd], k, m) ensures ExpiryOf(o.v.d, k, m) == ExpiryOf(base, k, m)
        {
          NamedMore(done, [cmd], k, m);
          assert !Names(cmd, k, m);
        }
      }
    }
  }

  lemma {:induction false} SubsTidy(lib: Strconv, st: Data, v: View, done: seq<bytes>, subs: seq<bytes>)
    requires C.Tallied(st, v) && C.Sound(Strip(st)) && Kept(Strip(st), v.d, done) && Apart(done + subs)
    ensures var o := ApplySubs(lib, Strip(st), v, subs); o.SubDone? ==> Kept(Strip(st), o.v.d, done + subs)
    decreases |subs|
  {
    hide ApplyOne, Strip, C.Tallied, C.Sound, Kept, Apart;
    if subs == [] {
      assert done + subs == done;
    } else {
      var n := |subs| - 1;
      assert done + subs == (done + subs[..n]) + [subs[n]];
      ApartPrefix(done + subs[..n], [subs[n]]);
      SubsTidy(lib, st, v, done, subs[..n]);
      C.SubsTallied(lib, st, v, subs[..n]);
      var h := ApplySubs(lib, Strip(st), v, subs[..n]);
      if h.SubDone? { OneTidy(lib, st, h.v, done + subs[..n], subs[n]); }
    }
  }

  lemma FreezeQuiet(v: View, cmd: bytes)
    requires IsFreeze(cmd)
    ensures var o := ApplyFreeze(v, cmd); o.Done? ==> Quiet(v.d, o.v.d)
  {
    hide DecodeBounds;
  }

  lemma QuietKept(base: Data, d: Data, d': Data, done: seq<bytes>)
    requires Kept(base, d, done) && Quiet(d, d')
    ensures Kept(base, d', done)
  {
    QuietTidy(d, d');
    hide Tidy, ExpiryOf, NamedIn;
  }

  lemma EntryTidy(lib: Strconv, st: Data, v: View, done: seq<bytes>, cmd: bytes)
    requires C.Tallied(st, v) && C.Sound(Strip(st)) && Kept(Strip(st), v.d, done)
    requires Apart(done + Parts(cmd)) && !IsMigrate(cmd)
    ensures var o := ApplyEntry(lib, Strip(st), v, cmd);
      Kept(Strip(st), if o.Skip? then v.d else o.v.d, done + Parts(cmd))
  {
    hide ApplyOne, ApplySubs, ApplyFreeze, Strip, C.Tallied, C.Sound, Kept, Apart, DecodeBatch, EncodeBatchResult,
      DecodeIngest, DecodeBounds, Quiet;
    KeptMore(Strip(st), v.d, done, Parts(cmd));
    if IsFreeze(cmd) {
      FreezeQuiet(v, cmd);
      var o := ApplyFreeze(v, cmd);
      if o.Done? { QuietKept(Strip(st), v.d, o.v.d, done); }
      assert done + [] == done;
    } else if IsBatch(cmd) {
      if DecodeBatch(cmd).Some? { SubsTidy(lib, st, v, done, DecodeBatch(cmd).value); }
    } else if !MigrateOp(cmd) {
      OneTidy(lib, st, v, done, cmd);
    }
  }

  lemma {:induction false} FoldTidy(lib: Strconv, st: Data, v: View, es: seq<Entry>)
    requires C.Tallied(st, v) && C.Sound(Strip(st)) && Kept(Strip(st), v.d, []) && NoMigrate(es) && Apart(AllParts(es))
    ensures Kept(Strip(st), Fold(lib, Strip(st), v, es).d, AllParts(es))
    decreases |es|
  {
    hide ApplyEntry, Strip, C.Tallied, C.Sound, Kept, Apart, IsMigrate, Parts;
    if es != [] {
      var n := |es| - 1;
      ApartPrefix(AllParts(es[..n]), Parts(es[n].cmd));
      FoldTidy(lib, st, v, es[..n]);
      C.FoldTallied(lib, st, v, es[..n]);
      EntryTidy(lib, st, Fold(lib, Strip(st), v, es[..n]), AllParts(es[..n]), es[n].cmd);
    }
  }

  /** An Update that names no member twice keeps every deadline in the index once and with its member. */
  lemma UpdateTidy(lib: Strconv, st: Data, es: seq<Entry>)
    requires C.Right(st) && Tidy(Strip(st)) && NoMigrate(es) && Apart(AllParts(es))
    ensures Tidy(Strip(Update(lib, st, es)))
  {
    hide Strip, Fold, Commit, NoMigrate, Tidy, SeqOf, Apart, AllParts, C.Sound, C.Tallied, ExpiryOf;
    if es != [] {
      var w := Fold(lib, Strip(st), Start(st), es);
      C.StartTallied(st);
      FoldTidy(lib, st, Start(st), es);
      C.StartMetaFree(st);
      F.FoldMetaFree(lib, Strip(st), Start(st), es);
      C.CommitStrips(st, w, es[|es| - 1].index);
    }
  }

  lemma {:induction false} RunsTidy(lib: Strconv, st: Data, batches: seq<seq<Entry>>)
    requires C.Right(st) && Tidy(Strip(st))
    requires forall i :: 0 <= i < |batches| ==> NoMigrate(batches[i]) && Apart(AllParts(batches[i]))
    ensures Tidy(Strip(C.UpdateAll(lib, st, batches)))
    decreases |batches|
  {
    hide Strip, Update, NoMigrate, Tidy, C.Right, Apart, AllParts;
    if batches != [] {
      UpdateTidy(lib, st, batches[0]);
      C.UpdateRight(lib, st, batches[0]);
      RunsTidy(lib, Update(lib, st, batches[0]), batches[1..]);
    }
  }

  lemma EmptyTidy()
    ensures Tidy(Strip(map[]))
  {
  }

  // ---------------------------------------------------------------- members without a deadline

  /** m is a member of the set c and has no deadline. */
  ghost predicate Stays(d: Data, c: Coll, m: bytes)
  {
    Elem(c, m) in d && ExpiryOf(d, c, m).None? && TypeRow(d, c) == Some(TSET)
  }

  /** The command neither removes m nor gives it a deadline; it may well be an expiry. */
  ghost predicate Spares(cmd: bytes, c: Coll, m: bytes)
  {
    var dc := DecodeCommand(cmd);
    dc.Some? && Coll(dc.value.ns, dc.value.coll) == c ==>
      forall i :: 0 <= i < |dc.value.items| && dc.value.items[i].key == m ==>
        dc.value.op != SREM && dc.value.op != REMOVE && !Sets(dc.value.op, dc.value.items[i])
  }

  lemma ItemSpares(base: Data, d: Data, op: byte, c: Coll, it: Item, m: bytes)
    requires ValidItem(it) && Stays(base, c, m) && Stays(d, c, m) && op in {SADD, SREM, EXPIRE, REMOVE}
    requires it.key == m ==> op != SREM && op != REMOVE && !Sets(op, it)
    ensures Stays(ApplyItem(base, d, op, c, it).d, c, m)
  {
    hide L.U64;
    N.ItemKeepsType(base, d, op, c, it);
  }

  lemma {:induction false} ItemsSpare(base: Data, d: Data, op: byte, c: Coll, its: seq<Item>, m: bytes)
    requires forall i :: 0 <= i < |its| ==> ValidItem(its[i])
    requires Stays(base, c, m) && Stays(d, c, m) && op in {SADD, SREM, EXPIRE, REMOVE}
    requires forall i :: 0 <= i < |its| && its[i].key == m ==> op != SREM && op != REMOVE && !Sets(op, its[i])
    ensures Stays(ApplyItems(base, d, op, c, its).d, c, m)
    decreases |its|
  {
    hide ApplyItem, Stays, Sets;
    if its != [] {
      var n := |its| - 1;
      ItemsSpare(base, d, op, c, its[..n], m);
      ItemSpares(base, ApplyItems(base, d, op, c, its[..n]).d, op, c, its[n], m);
    }
  }

  lemma ElsewhereStays(d: Data, d': Data, k: Coll, c: Coll, m: bytes)
    requires F.Framed(k, d, d') && k != c && Stays(d, c, m)
    ensures Stays(d', c, m)
  {
    assert !F.Touches(k, Elem(c, m)) && !F.Touches(k, TTLPtr(c, m)) && !F.Touches(k, Type(c));
  }

  lemma RecordStays(base: Data, v: View, key: bytes, r: PResult, c: Coll, m: bytes)
    requires Stays(v.d, c, m)
    ensures Stays(Record(base, v, key, r).d, c, m)
  {
    hide RingKey;
  }

  lemma BodySpares(lib: Strconv, base: Data, v: View, cmd: Command, m: bytes)
    requires ValidCommand(cmd)
    requires var c := Coll(cmd.ns, cmd.coll); Stays(base, c, m) && Stays(v.d, c, m)
    requires forall i :: 0 <= i < |cmd.items| && cmd.items[i].key == m ==>
      cmd.op != SREM && cmd.op != REMOVE && !Sets(cmd.op, cmd.items[i])
    ensures var o := ApplyBody(lib, base, v, cmd); o.Done? ==> Stays(o.v.d, Coll(cmd.ns, cmd.coll), m)
  {
    hide ApplyCounter, ApplyItems, Record, L.DecodeCmd, L.Apply, PoolOf, LeaseOf, TombOf, WriteBudget, L.CmdId,
      ExpiryOf;
    var c := Coll(cmd.ns, cmd.coll);
    if cmd.op in {SADD, SREM, EXPIRE, REMOVE} {
      ItemsSpare(base, v.d, cmd.op, c, cmd.items, m);
      var e := ApplyItems(base, v.d, cmd.op, c, cmd.items);
      RecordStays(base, Bump(v, e.d, c, e.delta), cmd.idem, PResult(e.changed, []), c, m);
    }
  }

  lemma OneSpares(lib: Strconv, base: Data, v: View, cmd: bytes, c: Coll, m: bytes)
    requires Stays(base, c, m) && Stays(v.d, c, m) && Spares(cmd, c, m)
    ensures var o := ApplyOne(lib, base, v, cmd); o.Done? ==> Stays(o.v.d, c, m)
  {
    hide ApplyBody, DecodeCommand, Shortcut, Stays, F.Framed, FrozenCovers, Sets;
    DecodeCommandValid(cmd);
    var o := ApplyOne(lib, base, v, cmd);
    if o.Done? && Shortcut(base, v, DecodeCommand(cmd).value).None? {
      var dc := DecodeCommand(cmd).value;
      if Coll(dc.ns, dc.coll) == c {
        BodySpares(lib, base, v, dc, m);
      } else {
        F.CommandFramed(lib, base, v, cmd);
        ElsewhereStays(v.d, o.v.d, Coll(dc.ns, dc.coll), c, m);
      }
    }
  }

  lemma {:induction false} SubsSpare(lib: Strconv, base: Data, v: View, subs: seq<bytes>, c: Coll, m: bytes)
    requires Stays(base, c, m) && Stays(v.d, c, m) && forall i :: 0 <= i < |subs| ==> Spares(subs[i], c, m)
    ensures var o := ApplySubs(lib, base, v, subs); o.SubDone? ==> Stays(o.v.d, c, m)
    decreases |subs|
  {
    hide ApplyOne, Stays, Spares;
    if subs != [] {
      var n := |subs| - 1;
      SubsSpare(lib, base, v, subs[..n], c, m);
      var h := ApplySubs(lib, base, v, subs[..n]);
      if h.SubDone? { OneSpares(lib, base, h.v, subs[n], c, m); }
    }
  }

  ghost predicate AllSpare(cs: seq<bytes>, c: Coll, m: bytes) { forall i :: 0 <= i < |cs| ==> Spares(cs[i], c, m) }

  lemma FreezeStays(v: View, cmd: bytes, c: Coll, m: bytes)
    requires IsFreeze(cmd) && Stays(v.d, c, m)
    ensures var o := ApplyFreeze(v, cmd); o.Done? ==> Stays(o.v.d, c, m)
  {
    hide DecodeBounds;
  }

  lemma EntrySpares(lib: Strconv, base: Data, v: View, cmd: bytes, c: Coll, m: bytes)
    requires Stays(base, c, m) && Stays(v.d, c, m) && AllSpare(Parts(cmd), c, m) && !IsMigrate(cmd)
    ensures var o := ApplyEntry(lib, base, v, cmd); o.Done? ==> Stays(o.v.d, c, m)
  {
    hide ApplyOne, ApplySubs, ApplyFreeze, DecodeBatch, EncodeBatchResult, Stays, Spares, DecodeIngest, DecodeBounds;
    if IsFreeze(cmd) {
      FreezeStays(v, cmd, c, m);
    } else if IsBatch(cmd) {
      if DecodeBatch(cmd).Some? { SubsSpare(lib, base, v, DecodeBatch(cmd).value, c, m); }
    } else if !MigrateOp(cmd) {
      assert Parts(cmd)[0] == cmd;
      OneSpares(lib, base, v, cmd, c, m);
    }
  }

  lemma {:induction false} FoldSpares(lib: Strconv, base: Data, v: View, es: seq<Entry>, c: Coll, m: bytes)
    requires Stays(base, c, m) && Stays(v.d, c, m) && AllSpare(AllParts(es), c, m) && NoMigrate(es)
    ensures Stays(Fold(lib, base, v, es).d, c, m)
    decreases |es|
  {
    hide ApplyEntry, Stays, Spares, Parts, IsMigrate;
    if es != [] {
      var n := |es| - 1;
      var a, b := AllParts(es[..n]), Parts(es[n].cmd);
      forall i | 0 <= i < |a| ensures Spares(a[i], c, m) { assert AllParts(es)[i] == a[i]; }
      forall i | 0 <= i < |b| ensures Spares(b[i], c, m) { assert AllParts(es)[|a| + i] == b[i]; }
      FoldSpares(lib, base, v, es[..n], c, m);
      EntrySpares(lib, base, Fold(lib, base, v, es[..n]), es[n].cmd, c, m);
    }
  }

  lemma UpdateSpares(lib: Strconv, st: Data, es: seq<Entry>, c: Coll, m: bytes)
    requires Stays(Strip(st), c, m) && AllSpare(AllParts(es), c, m) && NoMigrate(es)
    ensures Stays(Strip(Update(lib, st, es)), c, m)
  {
    hide Strip, Fold, Commit, NoMigrate, SeqOf, AllSpare, AllParts, Stays;
    if es != [] {
      var w := Fold(lib, Strip(st), Start(st), es);
      FoldSpares(lib, Strip(st), Start(st), es, c, m);
      C.StartMetaFree(st);
      F.FoldMetaFree(lib, Strip(st), Start(st), es);
      C.CommitStrips(st, w, es[|es| - 1].index);
    }
  }

  /** A member without a deadline is never taken by an expiry: over any run it stays, without one, until it is
      removed or given one. */
  lemma {:induction false} UntimedStays(lib: Strconv, st: Data, batches: seq<seq<Entry>>, c: Coll, m: bytes)
    requires Stays(Strip(st), c, m)
    requires forall i :: 0 <= i < |batches| ==> NoMigrate(batches[i]) && AllSpare(AllParts(batches[i]), c, m)
    ensures Stays(Strip(C.UpdateAll(lib, st, batches)), c, m)
    decreases |batches|
  {
    hide Strip, Update, NoMigrate, Stays, AllSpare, AllParts;
    if batches != [] {
      UpdateSpares(lib, st, batches[0], c, m);
      UntimedStays(lib, Update(lib, st, batches[0]), batches[1..], c, m);
    }
  }

  // ---------------------------------------------------------------- removed and added again

  lemma OneItem(base: Data, d: Data, op: byte, c: Coll, it: Item)
    requires ValidItem(it)
    ensures ApplyItems(base, d, op, c, [it]) == ApplyItem(base, d, op, c, it)
  {
    hide ApplyItem;
    assert [it][..0] == [];
  }

  /** The bytes of a command with one item and no idempotency key. */
  function CommandOf(op: byte, c: Coll, it: Item): bytes
    requires Mutates(op) && ValidItem(it)
  {
    EncodeCommand(Command(op, c.ns, c.name, [], [it]))
  }

  ghost predicate Unfrozen(d: Data) { forall r :: r in d ==> !r.Frozen? }

  lemma NoneFrozen(d: Data, rk: bytes)
    requires Unfrozen(d)
    ensures !FrozenCovers(d, rk)
  {
  }

  lemma PlainEntry(lib: Strconv, base: Data, v: View, op: byte, c: Coll, it: Item)
    requires op in {SADD, SREM, EXPIRE} && ValidItem(it) && |CommandOf(op, c, it)| < TWO32
    requires !FrozenCovers(base, RouteKey(c))
    requires TypeRow(v.d, c).None? || TypeRow(v.d, c) == Some(TSET)
    ensures !IsMigrate(CommandOf(op, c, it))
    ensures var d1 := if op == EXPIRE then v.d else EnsureType(v.d, c, TSET).0;
      var e := ApplyItem(base, d1, op, c, it);
      ApplyEntry(lib, base, v, CommandOf(op, c, it)) == Done(Bump(v.(d := d1), e.d, c, e.delta), PResult(e.changed, []))
  {
    hide EncodeItems, Chunk, DecodeCommand, ApplyItem, ApplyItems, BE, RouteKey, FrozenCovers;
    var cmd := CommandOf(op, c, it);
    CommandRoundTrip(Command(op, c.ns, c.name, [], [it]), []);
    assert cmd + [] == cmd && cmd[0] == op;
    OneItem(base, if op == EXPIRE then v.d else EnsureType(v.d, c, TSET).0, op, c, it);
  }

  lemma OneUpdate(lib: Strconv, st: Data, op: byte, c: Coll, it: Item, index: nat)
    requires op in {SADD, SREM, EXPIRE} && ValidItem(it) && |CommandOf(op, c, it)| < TWO32
    requires !FrozenCovers(Strip(st), RouteKey(c))
    requires TypeRow(Strip(st), c) == Some(TSET)
    ensures NoMigrate([Entry(index, CommandOf(op, c, it))])
    ensures var es, e := [Entry(index, CommandOf(op, c, it))], ApplyItem(Strip(st), Strip(st), op, c, it);
      Strip(Update(lib, st, es)) == e.d && UpdateResults(lib, st, es) == [PResult(e.changed, [])]
  {
    hide CommandOf, ApplyEntry, ApplyItem, Strip, SeqOf, Commit, IsMigrate, FrozenCovers, RouteKey;
    var x, v := Entry(index, CommandOf(op, c, it)), Start(st);
    PlainEntry(lib, Strip(st), v, op, c, it);
    B.SingleFold(lib, Strip(st), v, x);
    C.StartMetaFree(st);
    F.FoldMetaFree(lib, Strip(st), v, [x]);
    C.CommitStrips(st, Fold(lib, Strip(st), v, [x]), index);
  }

  lemma ItemThaws(base: Data, d: Data, op: byte, c: Coll, it: Item, rk: bytes)
    requires ValidItem(it)
    ensures FrozenCovers(ApplyItem(base, d, op, c, it).d, rk) == FrozenCovers(d, rk)
  {
    hide ApplyItem, FrozenCovers;
    var d' := ApplyItem(base, d, op, c, it).d;
    F.ItemFramed(base, d, op, c, it);
    forall s ensures (Frozen(s) in d <==> Frozen(s) in d') && (Frozen(s) in d ==> d[Frozen(s)] == d'[Frozen(s)])
    {
      assert !F.Touches(c, Frozen(s));
    }
    B.FrozenAlike(d', d, rk);
  }

  lemma Readded(d: Data, c: Coll, m: bytes)
    requires TidyAt(d, c, m) && TypeRow(d, c) == Some(TSET)
    ensures var d1 := ApplyItem(d, d, SREM, c, Item(m, [], 0, 0)).d;
      && TypeRow(d1, c) == Some(TSET) && Stays(ApplyItem(d1, d1, SADD, c, Item(m, [], 0, 0)).d, c, m)
  {
    ItemDeadline(d, d, SREM, c, Item(m, [], 0, 0));
  }

  /** A member that is removed and added again without a deadline is not taken by the deadline it had before: over any
      run that spares it, it stays. */
  lemma ReaddedStays(lib: Strconv, st: Data, c: Coll, m: bytes, i: nat, j: nat, batches: seq<seq<Entry>>)
    requires Tidy(Strip(st)) && TypeRow(Strip(st), c) == Some(TSET) && !FrozenCovers(Strip(st), RouteKey(c))
    requires |c.ns| + |c.name| + |m| + 41 < TWO32
    requires forall k :: 0 <= k < |batches| ==> NoMigrate(batches[k]) && AllSpare(AllParts(batches[k]), c, m)
    ensures var off := Item(m, [], 0, 0);
      var x, y := Entry(i, CommandOf(SREM, c, off)), Entry(j, CommandOf(SADD, c, off));
      && NoMigrate([x]) && NoMigrate([y])
      && Stays(Strip(C.UpdateAll(lib, Update(lib, Update(lib, st, [x]), [y]), batches)), c, m)
  {
    var off: Item := Item(m, [], 0, 0);
    CommandSize(SREM, c, off);
    CommandSize(SADD, c, off);
    hide CommandOf, Update, Strip, NoMigrate, UpdateResults, ApplyItem, ExpiryOf, FrozenCovers, RouteKey, AllSpare,
      AllParts, Stays, C.UpdateAll;
    var x, y := Entry(i, CommandOf(SREM, c, off)), Entry(j, CommandOf(SADD, c, off));
    OneUpdate(lib, st, SREM, c, off, i);
    ItemThaws(Strip(st), Strip(st), SREM, c, off, RouteKey(c));
    assert TidyAt(Strip(st), c, m);
    hide TidyAt;
    Readded(Strip(st), c, m);
    var st1 := Update(lib, st, [x]);
    OneUpdate(lib, st1, SADD, c, off, j);
    UntimedStays(lib, Update(lib, st1, [y]), batches, c, m);
  }

  lemma CommandSize(op: byte, c: Coll, it: Item)
    requires Mutates(op) && ValidItem(it) && it.val == []
    ensures |CommandOf(op, c, it)| == |c.ns| + |c.name| + |it.key| + 41
  {
    hide BE;
    assert EncodeItems([it]) == EncodeItem(it) + EncodeItems([]) by { assert [it][1..] == []; }
  }

  // ---------------------------------------------------------------- one Update that forgets

  /** A set with a deadline of m that m is not in. */
  ghost predicate Orphaned(d: Data, c: Coll, m: bytes)
  {
    Elem(c, m) !in d && ExpiryOf(d, c, m) == Some(1000) && TypeRow(d, c) == Some(TSET) && Unfrozen(d)
  }

  lemma AddedRemoved(base: Data, c: Coll, m: bytes)
    requires base == map[]
    ensures var d1 := ApplyItem(base, EnsureType(base, c, TSET).0, SADD, c, Item(m, [], 0, 1000)).d;
      && TypeRow(d1, c) == Some(TSET)
      && Orphaned(ApplyItem(base, EnsureType(d1, c, TSET).0, SREM, c, Item(m, [], 0, 0)).d, c, m)
  {
  }

  lemma AddedBack(d: Data, c: Coll, m: bytes)
    requires Orphaned(d, c, m)
    ensures var e := ApplyItem(d, d, SADD, c, Item(m, [], 0, 0)).d;
      && Elem(c, m) in e && TypeRow(e, c) == Some(TSET) && Unfrozen(e)
      && var x := ApplyItem(e, e, EXPIRE, c, Item(m, [], 0, 2000)); Elem(c, m) !in x.d && x.changed == 1
  {
    var e := ApplyItem(d, d, SADD, c, Item(m, [], 0, 0)).d;
    assert ExpiryOf(e, c, m) == Some(1000);
  }

  lemma FirstUpdate(lib: Strconv, c: Coll, m: bytes, x: Entry, y: Entry)
    requires |c.ns| + |c.name| + |m| + 41 < TWO32
    requires x == Entry(1, CommandOf(SADD, c, Item(m, [], 0, 1000)))
    requires y == Entry(2, CommandOf(SREM, c, Item(m, [], 0, 0)))
    ensures NoMigrate([x, y]) && Orphaned(Strip(Update(lib, map[], [x, y])), c, m)
  {
    CommandSize(SADD, c, Item(m, [], 0, 1000));
    CommandSize(SREM, c, Item(m, [], 0, 0));
    AddedRemoved(map[], c, m);
    NothingStripped();
    assert !FrozenCovers(map[], RouteKey(c));
    hide CommandOf, SeqOf, Commit, IsMigrate, ApplyItem, EnsureType, ApplyEntry, Orphaned, Strip;
    var v := Start(map[]);
    PlainEntry(lib, map[], v, SADD, c, Item(m, [], 0, 1000));
    B.SingleFold(lib, map[], v, x);
    var w := Fold(lib, map[], v, [x]);
    PlainEntry(lib, map[], w, SREM, c, Item(m, [], 0, 0));
    assert [x, y][..1] == [x];
    C.StartMetaFree(map[]);
    F.FoldMetaFree(lib, map[], v, [x, y]);
    C.CommitStrips(map[], Fold(lib, map[], v, [x, y]), 2);
  }

  lemma NothingStripped()
    ensures Strip(map[]) == map[]
  {
  }

  /** A member added with a deadline and removed in one Update leaves the deadline behind, since the removal looks in
      the store. Added again without one, it is taken when that deadline comes. A run from nothing. */
  lemma ForgottenRun(lib: Strconv, c: Coll, m: bytes, x: Entry, y: Entry, z: Entry, w: Entry)
    requires |c.ns| + |c.name| + |m| + 41 < TWO32
    requires x == Entry(1, CommandOf(SADD, c, Item(m, [], 0, 1000)))
    requires y == Entry(2, CommandOf(SREM, c, Item(m, [], 0, 0)))
    requires z == Entry(3, CommandOf(SADD, c, Item(m, [], 0, 0)))
    requires w == Entry(4, CommandOf(EXPIRE, c, Item(m, [], 0, 2000)))
    ensures NoMigrate([x, y]) && NoMigrate([z]) && NoMigrate([w])
    ensures var st := Update(lib, Update(lib, map[], [x, y]), [z]);
      && Elem(c, m) in Strip(st) && Elem(c, m) !in Strip(Update(lib, st, [w]))
      && UpdateResults(lib, st, [w]) == [PResult(1, [])]
  {
    CommandSize(SADD, c, Item(m, [], 0, 0));
    CommandSize(EXPIRE, c, Item(m, [], 0, 2000));
    FirstUpdate(lib, c, m, x, y);
    hide CommandOf, Update, Strip, NoMigrate, UpdateResults, ApplyItem, ExpiryOf;
    var st1 := Update(lib, map[], [x, y]);
    AddedBack(Strip(st1), c, m);
    NoneFrozen(Strip(st1), RouteKey(c));
    OneUpdate(lib, st1, SADD, c, Item(m, [], 0, 0), 3);
    NoneFrozen(Strip(Update(lib, st1, [z])), RouteKey(c));
    OneUpdate(lib, Update(lib, st1, [z]), EXPIRE, c, Item(m, [], 0, 2000), 4);
  }
}
