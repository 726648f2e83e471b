/** Budgets in the store over whole runs of Update: the budget rows of every collection are at all times the book
    of one ledger run, the budget commands that got through to it, whatever other commands, batches, skipped
    entries and commits lie between. The run properties of BudgetRuns therefore hold of the store. */
module EscrowRuns {
  import opened Bytes
  import opened Codec
  import opened Rows
  import opened Machine
  import opened Frame
  import opened Escrow
  import C = Cardinality
  import L = Ledger
  import R = BudgetRuns
  import S = Records

  predicate IsBud(r: Row) { r.BudPool? || r.BudLease? || r.BudTomb? || r.BudExp? || r.BudGC? }

  /** The budget rows of c are the same. */
  ghost predicate SameBook(d: Data, d': Data, c: Coll)
  {
    forall r: Row :: IsBud(r) && r.coll == c ==> (r in d <==> r in d') && (r in d ==> d[r] == d'[r])
  }

  lemma SameBooks(d: Data, d': Data, c: Coll)
    requires SameBook(d, d', c)
    ensures BookOf(d', c) == BookOf(d, c)
  {
    SamePool(d, d', c);
    hide SameBook, Leases, Tombs, Expiries, Collections, PoolOf;
    SameLeases(d, d', c);
    SameTombs(d, d', c);
    SameIndexes(d, d', c);
  }

  lemma SamePool(d: Data, d': Data, c: Coll)
    requires SameBook(d, d', c)
    ensures PoolOf(d', c) == PoolOf(d, c)
  {
    assert IsBud(BudPool(c));
  }

  lemma SameLeases(d: Data, d': Data, c: Coll)
    requires SameBook(d, d', c)
    ensures Leases(d', c) == Leases(d, c)
  {
    hide Leases, Tombs;
    forall id ensures LeaseOf(d', c, id) == L.Get(Leases(d, c), id)
    {
      GetAgrees(d, c, id);
      assert IsBud(BudLease(c, id));
    }
    LeasesFrom(d', c, Leases(d, c));
  }

  lemma SameTombs(d: Data, d': Data, c: Coll)
    requires SameBook(d, d', c)
    ensures Tombs(d', c) == Tombs(d, c)
  {
    hide Leases, Tombs;
    forall id ensures TombOf(d', c, id) == L.Get(Tombs(d, c), id)
    {
      GetAgrees(d, c, id);
      assert IsBud(BudTomb(c, id));
    }
    TombsFrom(d', c, Tombs(d, c));
  }

  lemma SameIndexes(d: Data, d': Data, c: Coll)
    requires SameBook(d, d', c)
    ensures Expiries(d', c) == Expiries(d, c) && Collections(d', c) == Collections(d, c)
  {
    hide WrapI64;
    forall r: Row | r.BudExp? && r.coll == c ensures r in d <==> r in d' { assert IsBud(r); }
    forall r: Row | r.BudGC? && r.coll == c ensures r in d <==> r in d' { assert IsBud(r); }
  }

  /** What keeps a collection's rows readable as a book: int64 deadlines, no lease without an id, no header of type
      zero, and the budget header beside every pool. */
  ghost predicate Bookish(d: Data, c: Coll)
  {
    && DeadlinesFit(d, c) && [] !in Leases(d, c)
    && TypeRow(d, c) != Some(0) && (PoolOf(d, c).Some? ==> TypeRow(d, c) == Some(TBUDGET))
  }

  /** A step that leaves the book of c alone. */
  ghost predicate Leaves(d: Data, d': Data, c: Coll)
  {
    && SameBook(d, d', c)
    && (TypeRow(d', c) == TypeRow(d, c) || (TypeRow(d, c).None? && TypeRow(d', c).Some? && TypeRow(d', c).value != 0))
  }

  lemma LeavesBook(d: Data, d': Data, c: Coll)
    requires Leaves(d, d', c)
    ensures BookOf(d', c) == BookOf(d, c) && (Bookish(d, c) ==> Bookish(d', c))
  {
    hide Leases, SameBook, TypeRow;
    SameBooks(d, d', c);
    assert BookOf(d', c).leases == BookOf(d, c).leases;
  }

  // ---------------------------------------------------------------- commands that leave a book alone

  predicate ItemRow(r: Row) { r.Elem? || r.ZPtr? || r.TTLIdx? || r.TTLPtr? }

  ghost predicate OnlyItemRows(d: Data, d': Data)
  {
    forall r: Row :: !ItemRow(r) ==> (r in d <==> r in d') && (r in d ==> d[r] == d'[r])
  }

  lemma ItemOnlyItemRows(base: Data, d: Data, op: byte, k: Coll, it: Item)
    requires ValidItem(it)
    ensures OnlyItemRows(d, ApplyItem(base, d, op, k, it).d)
  {
    hide ScoreTail, ScoreOf, ExpiryOf, TypeOf;
  }

  lemma ItemLeaves(base: Data, d: Data, op: byte, k: Coll, it: Item, c: Coll)
    requires ValidItem(it)
    ensures Leaves(d, ApplyItem(base, d, op, k, it).d, c)
  {
    hide ApplyItem;
    ItemOnlyItemRows(base, d, op, k, it);
    assert !ItemRow(Type(c));
  }

  lemma LeavesAgain(a: Data, b: Data, d: Data, c: Coll)
    requires Leaves(a, b, c) && Leaves(b, d, c)
    ensures Leaves(a, d, c)
  {
    hide TypeRow, IsBud;
  }

  lemma {:induction false} ItemsLeave(base: Data, d: Data, op: byte, k: Coll, its: seq<Item>, c: Coll)
    requires forall i :: 0 <= i < |its| ==> ValidItem(its[i])
    ensures Leaves(d, ApplyItems(base, d, op, k, its).d, c)
  {
    hide ApplyItem, IsBud, TypeRow;
    if its != [] {
      var n := |its| - 1;
      var e := ApplyItems(base, d, op, k, its[..n]).d;
      ItemsLeave(base, d, op, k, its[..n], c);
      ItemLeaves(base, e, op, k, its[n], c);
      hide Leaves;
      LeavesAgain(d, e, ApplyItem(base, e, op, k, its[n]).d, c);
    }
  }

  lemma RecordLeaves(base: Data, v: View, key: bytes, r: PResult, c: Coll)
    ensures Leaves(v.d, Record(base, v, key, r).d, c)
  {
    hide RingKey;
  }

  lemma HeaderLeaves(d: Data, k: Coll, want: nat, c: Coll)
    requires want != 0
    ensures Leaves(d, EnsureType(d, k, want).0, c)
  {
  }

  lemma CounterLeaves(lib: Strconv, base: Data, v: View, cmd: Command, c: Coll)
    ensures var o := ApplyCounter(lib, base, v, cmd); o.Done? ==> Leaves(v.d, o.v.d, c)
  {
    hide NextCount, Record, FieldOf, Leaves;
    var k := Coll(cmd.ns, cmd.coll);
    var o := ApplyCounter(lib, base, v, cmd);
    if o.Done? {
      var e := Elem(k, cmd.items[0].key);
      var nx := NextCount(lib, cmd, FieldOf(v.d, e));
      if nx.Some? {
        var v1 := Bump(v, v.d[e := Raw(nx.value.0)], k, o.r.value);
        ElemLeaves(v.d, e, nx.value.0, c);
        RecordLeaves(base, v1, cmd.idem, o.r, c);
        LeavesAgain(v.d, v1.d, Record(base, v1, cmd.idem, o.r).d, c);
      } else {
        LeavesItself(v.d, c);
      }
    }
  }

  lemma ElemLeaves(d: Data, e: Row, b: bytes, c: Coll)
    requires e.Elem?
    ensures Leaves(d, d[e := Raw(b)], c)
  {
  }

  lemma LeavesItself(d: Data, c: Coll)
    ensures Leaves(d, d, c)
  {
  }

  /** A command of another kind leaves every book alone. */
  lemma OtherKindLeaves(lib: Strconv, base: Data, v: View, cmd: Command, c: Coll)
    requires ValidCommand(cmd) && TypeForOp(cmd.op) != TBUDGET
    ensures var o := ApplyBody(lib, base, v, cmd); o.Done? ==> Leaves(v.d, o.v.d, c)
  {
    hide ApplyCounter, ApplyBudget, ApplyItems, Record, EnsureType, Leaves;
    var k := Coll(cmd.ns, cmd.coll);
    var typed := cmd.op != EXPIRE && cmd.op != REMOVE;
    LeavesItself(v.d, c);
    if typed { HeaderLeaves(v.d, k, TypeForOp(cmd.op), c); }
    var v1 := if typed then v.(d := EnsureType(v.d, k, TypeForOp(cmd.op)).0) else v;
    assert Leaves(v.d, v1.d, c);
    CounterLeaves(lib, base, v1, cmd, c);
    ItemsLeave(base, v1.d, cmd.op, k, cmd.items, c);
    var e := ApplyItems(base, v1.d, cmd.op, k, cmd.items);
    var v2 := Bump(v1, e.d, k, e.delta);
    RecordLeaves(base, v2, cmd.idem, PResult(e.changed, []), c);
    LeavesAgain(v1.d, v2.d, Record(base, v2, cmd.idem, PResult(e.changed, [])).d, c);
    var o := ApplyBody(lib, base, v, cmd);
    if o.Done? && o.v != v && Leaves(v1.d, o.v.d, c) { LeavesAgain(v.d, v1.d, o.v.d, c); }
  }

  /** A command on another collection leaves the book of c alone. */
  lemma ElsewhereLeaves(d: Data, d': Data, k: Coll, c: Coll)
    requires Framed(k, d, d') && k != c
    ensures Leaves(d, d', c)
  {
    forall r: Row | IsBud(r) && r.coll == c ensures !Touches(k, r) { }
    assert !Touches(k, Type(c));
  }

  // ---------------------------------------------------------------- one command

  /** The ledger command that a command puts to the book of c: none when it is answered beforehand, names another
      collection, is of another kind, or does not decode as a budget command. */
  ghost function Put1(base: Data, v: View, cmd: bytes, c: Coll): seq<L.Cmd>
  {
    var dc := DecodeCommand(cmd);
    if dc.None? || Coll(dc.value.ns, dc.value.coll) != c || Shortcut(base, v, dc.value).Some?
      || TypeForOp(dc.value.op) != TBUDGET || (TypeOf(v.d, c) != 0 && TypeOf(v.d, c) != TBUDGET) then []
    else
      var bc := L.DecodeCmd(dc.value.op, dc.value.items);
      if bc.None? then [] else [bc.value]
  }

  lemma Put1Valid(base: Data, v: View, cmd: bytes, c: Coll)
    ensures R.AllValid(Put1(base, v, cmd, c))
  {
    hide DecodeCommand, Shortcut, L.DecodeCmd, L.ValidCmd;
    var dc := DecodeCommand(cmd);
    if dc.Some? { L.DecodeCmdValid(dc.value.op, dc.value.items); }
  }

  lemma RunOne(b: L.Book, c: L.Cmd)
    ensures L.Run(b, [c]) == L.Step(b, c)
  {
    hide L.Step;
    assert [c][1..] == [];
  }

  /** The ledger's answer; None when its rows are corrupt. */
  ghost function Answered(b: L.Book, c: L.Cmd): Option<PResult>
  {
    var e := L.EffectOn(b, c);
    if e.Corrupt? then None else Some(e.result)
  }

  /** A budget command let through on its own collection. */
  lemma BudgetPuts(base: Data, v: View, cmd: Command)
    requires var c := Coll(cmd.ns, cmd.coll); Bookish(v.d, c)
    ensures var c, o := Coll(cmd.ns, cmd.coll), ApplyBudget(v, cmd);
      var bc := L.DecodeCmd(cmd.op, cmd.items);
      o.Done? ==>
        && Bookish(o.v.d, c)
        && (if bc.None? || (TypeOf(v.d, c) != 0 && TypeOf(v.d, c) != TBUDGET) then BookOf(o.v.d, c) == BookOf(v.d, c)
            else BookOf(o.v.d, c) == L.Step(BookOf(v.d, c), bc.value)
                 && Some(o.r) == Answered(BookOf(v.d, c), bc.value))
  {
    hide L.DecodeCmd, L.Apply, BookOf, L.Step, L.EffectOn, DeadlinesFit, WriteBudget, PoolOf, LeaseOf, TombOf;
    var c, o := Coll(cmd.ns, cmd.coll), ApplyBudget(v, cmd);
    var bc := L.DecodeCmd(cmd.op, cmd.items);
    if bc.Some? && (TypeOf(v.d, c) == 0 || TypeOf(v.d, c) == TBUDGET) {
      BudgetIsLedgerStep(v, cmd);
      BudgetKeepsKind(v, cmd);
    }
  }

  lemma BudgetKeepsKind(v: View, cmd: Command)
    requires Bookish(v.d, Coll(cmd.ns, cmd.coll))
    ensures var c, o := Coll(cmd.ns, cmd.coll), ApplyBudget(v, cmd);
      o.Done? ==>
        && [] !in Leases(o.v.d, c) && TypeRow(o.v.d, c) != Some(0)
        && (PoolOf(o.v.d, c).Some? ==> TypeRow(o.v.d, c) == Some(TBUDGET))
  {
    hide L.DecodeCmd, L.Apply, L.CmdId, WriteBudget, PoolOf, LeaseOf, TombOf, Leases;
    var c := Coll(cmd.ns, cmd.coll);
    var bc := L.DecodeCmd(cmd.op, cmd.items);
    if bc.Some? {
      var id := L.CmdId(bc.value);
      var e := L.Apply(bc.value, PoolOf(v.d, c), LeaseOf(v.d, c, id), TombOf(v.d, c, id));
      NamedLeases(cmd.op, cmd.items, PoolOf(v.d, c), LeaseOf(v.d, c, id), TombOf(v.d, c, id));
      if e.Effect? {
        var d := if e.header then EnsureType(v.d, c, TBUDGET).0 else v.d;
        HeaderBook(v.d, c);
        WriteKeepsKind(d, c, id, e);
      }
    }
  }

  /** Only init makes a pool, and it writes the header; only a command with an id makes a lease. */
  lemma NamedLeases(op: byte, items: seq<Item>, pool: Option<L.Pool>, lease: Option<L.Lease>, tomb: Option<L.Tomb>)
    requires L.DecodeCmd(op, items).Some?
    ensures var bc := L.DecodeCmd(op, items).value;
      var e := L.Apply(bc, pool, lease, tomb);
      e.Effect? ==> (e.lease.Put? ==> L.CmdId(bc) != []) && (e.pool.Some? && pool.None? ==> e.header)
  {
    hide L.GrantEcho, L.Refill, BE, L.U64, GetI64;
  }

  lemma WriteKeepsKind(d: Data, c: Coll, id: bytes, e: L.Effect)
    requires e.Effect?
    ensures var d' := WriteBudget(d, c, id, e);
      && TypeRow(d', c) == TypeRow(d, c)
      && PoolOf(d', c) == (if e.pool.Some? then e.pool else PoolOf(d, c))
      && ([] !in Leases(d, c) && (e.lease.Put? ==> id != []) ==> [] !in Leases(d', c))
  {
    WritePool(d, c, id, e);
    hide WriteBudget, Leases, Tombs, LeaseOf, TombOf;
    GetAgrees(d, c, []);
    GetAgrees(WriteBudget(d, c, id, e), c, []);
    WriteLease(d, c, id, e, []);
  }

  lemma WritePool(d: Data, c: Coll, id: bytes, e: L.Effect)
    requires e.Effect?
    ensures var d' := WriteBudget(d, c, id, e);
      TypeRow(d', c) == TypeRow(d, c) && PoolOf(d', c) == if e.pool.Some? then e.pool else PoolOf(d, c)
  {
    hide L.U64;
  }

  lemma WriteLease(d: Data, c: Coll, id: bytes, e: L.Effect, j: bytes)
    requires e.Effect?
    ensures LeaseOf(WriteBudget(d, c, id, e), c, j) ==
      if j != id || e.lease.Keep? then LeaseOf(d, c, j) else if e.lease.Del? then None else Some(e.lease.v)
  {
    hide L.U64;
  }

  /** o is what the ledger commands cs do to the book of c. */
  ghost predicate Follows(v: View, o: Outcome, c: Coll, cs: seq<L.Cmd>)
  {
    o.Done? ==>
      && BookOf(o.v.d, c) == L.Run(BookOf(v.d, c), cs) && Bookish(o.v.d, c)
      && (|cs| == 1 ==> Some(o.r) == Answered(BookOf(v.d, c), cs[0]))
  }

  /** Every command either leaves the book of c alone or is one step of its ledger, with the ledger's answer. */
  lemma OnePuts(lib: Strconv, base: Data, v: View, cmd: bytes, c: Coll)
    requires Bookish(v.d, c)
    ensures Follows(v, ApplyOne(lib, base, v, cmd), c, Put1(base, v, cmd, c))
  {
    hide DecodeCommand, Shortcut, ApplyBudget, L.DecodeCmd, BookOf, Bookish, L.Step, Answered, Framed;
    DecodeCommandValid(cmd);
    var o := ApplyOne(lib, base, v, cmd);
    if o.Done? && Shortcut(base, v, DecodeCommand(cmd).value).None? {
      var dc := DecodeCommand(cmd).value;
      if Coll(dc.ns, dc.coll) != c {
        CommandFramed(lib, base, v, cmd);
        ElsewhereLeaves(v.d, o.v.d, Coll(dc.ns, dc.coll), c);
        LeavesBook(v.d, o.v.d, c);
      } else if TypeForOp(dc.op) != TBUDGET {
        OtherKindLeaves(lib, base, v, dc, c);
        LeavesBook(v.d, o.v.d, c);
      } else {
        BudgetBody(lib, base, v, dc);
        BudgetPuts(base, v, dc);
        if L.DecodeCmd(dc.op, dc.items).Some? { RunOne(BookOf(v.d, c), L.DecodeCmd(dc.op, dc.items).value); }
      }
    }
  }

  lemma BudgetBody(lib: Strconv, base: Data, v: View, cmd: Command)
    requires ValidCommand(cmd) && TypeForOp(cmd.op) == TBUDGET
    ensures ApplyBody(lib, base, v, cmd) == ApplyBudget(v, cmd)
  {
    hide ApplyBudget, ApplyCounter, ApplyItems;
  }

  // ---------------------------------------------------------------- entries and batches

  lemma {:induction false} RunConcat(b: L.Book, a: seq<L.Cmd>, d: seq<L.Cmd>)
    ensures L.Run(b, a + d) == L.Run(L.Run(b, a), d)
    decreases |a|
  {
    hide L.Step;
    if a == [] {
      assert a + d == d;
    } else {
      RunConcat(L.Step(b, a[0]), a[1..], d);
      assert (a + d)[0] == a[0] && (a + d)[1..] == a[1..] + d;
    }
  }

  /** The ledger commands the sub-commands of a batch put to the book of c. */
  ghost function PutSubs(lib: Strconv, base: Data, v: View, subs: seq<bytes>, c: Coll): seq<L.Cmd>
  {
    if subs == [] then [] else
    var n := |subs| - 1;
    var h := ApplySubs(lib, base, v, subs[..n]);
    if h.SubSkip? then [] else PutSubs(lib, base, v, subs[..n], c) + Put1(base, h.v, subs[n], c)
  }

  lemma {:induction false} SubsPut(lib: Strconv, base: Data, v: View, subs: seq<bytes>, c: Coll)
    requires Bookish(v.d, c)
    ensures R.AllValid(PutSubs(lib, base, v, subs, c))
    ensures var o := ApplySubs(lib, base, v, subs);
      o.SubDone? ==> BookOf(o.v.d, c) == L.Run(BookOf(v.d, c), PutSubs(lib, base, v, subs, c)) && Bookish(o.v.d, c)
  {
    hide ApplyOne, Put1, BookOf, Bookish, L.Step, L.EffectOn, L.ValidCmd;
    if subs != [] {
      var n := |subs| - 1;
      SubsPut(lib, base, v, subs[..n], c);
      var h := ApplySubs(lib, base, v, subs[..n]);
      if h.SubDone? {
        OnePuts(lib, base, h.v, subs[n], c);
        Put1Valid(base, h.v, subs[n], c);
        RunConcat(BookOf(v.d, c), PutSubs(lib, base, v, subs[..n], c), Put1(base, h.v, subs[n], c));
      }
    }
  }

  /** ... and those of an entry, which are none when it is skipped. */
  ghost function PutEntry(lib: Strconv, base: Data, v: View, cmd: bytes, c: Coll): seq<L.Cmd>
    requires !IsMigrate(cmd)
  {
    if ApplyEntry(lib, base, v, cmd).Skip? || IsFreeze(cmd) then []
    else if IsBatch(cmd) then (if DecodeBatch(cmd).None? then [] else PutSubs(lib, base, v, DecodeBatch(cmd).value, c))
    else Put1(base, v, cmd, c)
  }

  ghost predicate Advanced(b: L.Book, d: Data, c: Coll, cs: seq<L.Cmd>)
  {
    BookOf(d, c) == L.Run(b, cs) && Bookish(d, c) && R.AllValid(cs)
  }

  lemma FreezeLeaves(v: View, cmd: bytes, c: Coll)
    requires IsFreeze(cmd)
    ensures var o := ApplyFreeze(v, cmd); o.Done? ==> Leaves(v.d, o.v.d, c)
  {
    hide DecodeBounds;
  }

  lemma EntryPuts(lib: Strconv, base: Data, v: View, cmd: bytes, c: Coll)
    requires Bookish(v.d, c) && !IsMigrate(cmd)
    ensures var o := ApplyEntry(lib, base, v, cmd);
      Advanced(BookOf(v.d, c), if o.Done? then o.v.d else v.d, c, PutEntry(lib, base, v, cmd, c))
  {
    hide ApplyOne, ApplySubs, ApplyFreeze, DecodeBatch, EncodeBatchResult, Put1, PutSubs, BookOf, Bookish, L.Step,
      L.EffectOn, L.ValidCmd, Leaves, DecodeIngest, DecodeBounds;
    var o := ApplyEntry(lib, base, v, cmd);
    if o.Done? {
      if IsFreeze(cmd) {
        FreezeLeaves(v, cmd, c);
        LeavesBook(v.d, o.v.d, c);
      } else if IsBatch(cmd) {
        SubsPut(lib, base, v, DecodeBatch(cmd).value, c);
      } else {
        OnePuts(lib, base, v, cmd, c);
        Put1Valid(base, v, cmd, c);
      }
    }
  }

  ghost function PutAll(lib: Strconv, base: Data, v: View, es: seq<Entry>, c: Coll): seq<L.Cmd>
    requires NoMigrate(es)
  {
    if es == [] then [] else
    var n := |es| - 1;
    PutAll(lib, base, v, es[..n], c) + PutEntry(lib, base, Fold(lib, base, v, es[..n]), es[n].cmd, c)
  }

  lemma {:induction false} FoldPuts(lib: Strconv, base: Data, v: View, es: seq<Entry>, c: Coll)
    requires Bookish(v.d, c) && NoMigrate(es)
    ensures Advanced(BookOf(v.d, c), Fold(lib, base, v, es).d, c, PutAll(lib, base, v, es, c))
  {
    hide ApplyEntry, PutEntry, BookOf, Bookish, L.Step, L.ValidCmd, IsMigrate;
    if es != [] {
      var n := |es| - 1;
      FoldPuts(lib, base, v, es[..n], c);
      var h := Fold(lib, base, v, es[..n]);
      EntryPuts(lib, base, h, es[n].cmd, c);
      RunConcat(BookOf(v.d, c), PutAll(lib, base, v, es[..n], c), PutEntry(lib, base, h, es[n].cmd, c));
    }
  }

  // ---------------------------------------------------------------- Updates and runs

  lemma StripLeaves(st: Data, c: Coll)
    ensures Leaves(st, Strip(st), c)
  {
  }

  lemma CommitLeaves(st: Data, v: View, last: nat, c: Coll)
    ensures Leaves(v.d, Commit(st, v, last), c)
  {
    var m := MetaRows(st, v, last);
    MetaRowsMeta(st, v, last);
    hide MetaRows;
    assert Type(c) !in m;
    forall r: Row | IsBud(r) ensures r !in m { }
  }

  lemma MetaRowsMeta(st: Data, v: View, last: nat)
    ensures forall r :: r in MetaRows(st, v, last) ==> Meta(r)
  {
  }

  /** One Update is a run of the ledger of c. */
  lemma UpdatePuts(lib: Strconv, st: Data, es: seq<Entry>, c: Coll)
    requires Bookish(st, c) && NoMigrate(es)
    ensures Advanced(BookOf(st, c), Update(lib, st, es), c, PutAll(lib, Strip(st), Start(st), es, c))
  {
    hide Fold, PutAll, BookOf, Bookish, L.Step, Commit, Strip, Leaves, IsMigrate;
    StripLeaves(st, c);
    LeavesBook(st, Strip(st), c);
    FoldPuts(lib, Strip(st), Start(st), es, c);
    if es == [] {
      NothingPut(lib, st, c);
    } else {
      var v := Fold(lib, Strip(st), Start(st), es);
      CommitLeaves(st, v, es[|es| - 1].index, c);
      LeavesBook(v.d, Commit(st, v, es[|es| - 1].index), c);
    }
  }

  lemma NothingPut(lib: Strconv, st: Data, c: Coll)
    ensures PutAll(lib, Strip(st), Start(st), [], c) == []
  {
  }

  ghost function PutRun(lib: Strconv, st: Data, batches: seq<seq<Entry>>, c: Coll): seq<L.Cmd>
    requires forall i :: 0 <= i < |batches| ==> NoMigrate(batches[i])
    decreases |batches|
  {
    if batches == [] then [] else
    PutAll(lib, Strip(st), Start(st), batches[0], c) + PutRun(lib, Update(lib, st, batches[0]), batches[1..], c)
  }

  lemma {:induction false} RunPuts(lib: Strconv, st: Data, batches: seq<seq<Entry>>, c: Coll)
    requires Bookish(st, c) && forall i :: 0 <= i < |batches| ==> NoMigrate(batches[i])
    ensures Advanced(BookOf(st, c), C.UpdateAll(lib, st, batches), c, PutRun(lib, st, batches, c))
    decreases |batches|
  {
    hide Update, PutAll, BookOf, Bookish, L.Step, L.ValidCmd, NoMigrate;
    if batches != [] {
      var st' := Update(lib, st, batches[0]);
      UpdatePuts(lib, st, batches[0], c);
      RunPuts(lib, st', batches[1..], c);
      RunConcat(BookOf(st, c), PutAll(lib, Strip(st), Start(st), batches[0], c), PutRun(lib, st', batches[1..], c));
    }
  }

  lemma EmptyBook(c: Coll)
    ensures BookOf(map[], c) == L.EMPTY && Bookish(map[], c)
  {
    assert Leases(map[], c) == map[] && Tombs(map[], c) == map[];
  }

  lemma EmptyStarts()
    ensures R.Inv(L.EMPTY) && S.Storable(L.EMPTY) && R.Balanced(L.EMPTY) && R.IndexExact(L.EMPTY)
  {
    assert R.Unspent(map[]) == map[];
  }

  /** In every state any run of Updates reaches from the empty shard, and for every collection: the budget rows are
      the book of the ledger run its budget commands make; they satisfy the invariant and can be stored; the expiry
      index is exact when no draw of that run has a bad deadline; and when no reconcile of it settles on too much the
      conservation probe reports OK. */
  lemma StoredBudgets(lib: Strconv, batches: seq<seq<Entry>>, c: Coll)
    requires forall i :: 0 <= i < |batches| ==> NoMigrate(batches[i])
    ensures var st, cs := C.UpdateAll(lib, map[], batches), PutRun(lib, map[], batches, c);
      && BookOf(st, c) == L.Run(L.EMPTY, cs) && R.AllValid(cs)
      && Bookish(st, c) && R.Inv(BookOf(st, c)) && S.Storable(BookOf(st, c))
      && (R.GoodDeadlines(L.EMPTY, cs) ==> R.IndexExact(BookOf(st, c)))
      && (R.CalmRun(L.EMPTY, cs) && PoolOf(st, c).Some? ==> R.BudCheckOK(PoolOf(st, c).value))
  {
    hide PutRun, C.UpdateAll, R.Inv, S.Storable, L.Run, R.Balanced, R.BudCheckOK, R.CalmRun, R.AllValid, NoMigrate,
      R.GoodDeadlines, R.IndexExact, Bookish;
    var cs := PutRun(lib, map[], batches, c);
    EmptyBook(c);
    RunPuts(lib, map[], batches, c);
    EmptyStarts();
    S.RunStorable(L.EMPTY, cs);
    if R.GoodDeadlines(L.EMPTY, cs) { R.RunIndex(L.EMPTY, cs); }
    if R.CalmRun(L.EMPTY, cs) { R.CalmRunsBalance(L.EMPTY, cs); }
  }
}
