/** How budget calls travel (collections.go, manager.go): the key and value bytes each of the seven callers writes, read
    back by the state machine as the command that was meant, and the answers as the callers read them. */
module BudgetWire {
  import opened Bytes
  import opened Codec
  import opened Ledger

  // ---------------------------------------------------------------- what callers write

  /** BudgetDefine's key. */
  function DefineKey(mode: byte, cap: int, rate: int, burst: int, selfGuardMs: int, maxPauseMs: int, defaultTTLMs: int,
                     dedupWindowMs: int): bytes
    requires I64(cap) && I64(rate) && I64(burst) && I64(selfGuardMs) && I64(maxPauseMs) && I64(defaultTTLMs)
    requires I64(dedupWindowMs)
  {
    [mode] + (PutI64(cap) + (PutI64(rate) + (PutI64(burst) + (PutI64(selfGuardMs) + (PutI64(maxPauseMs) +
    (PutI64(defaultTTLMs) + PutI64(dedupWindowMs)))))))
  }

  /** The key of the first stage, without the timing fields. */
  function ShortDefineKey(mode: byte, cap: int, rate: int, burst: int): bytes
    requires I64(cap) && I64(rate) && I64(burst)
  {
    [mode] + (PutI64(cap) + (PutI64(rate) + PutI64(burst)))
  }

  /** A command with an id, as BudgetGrant, BudgetReport, BudgetReturn and the sweep put it in one item. */
  function CallKey(c: Cmd): bytes
    requires ValidCmd(c)
  {
    match c
    case Init(m, cap, rate, burst, g, p, t, w) => DefineKey(m, cap, rate, burst, g, p, t, w)
    case Reconcile(_) => []
    case _ => CmdId(c)
  }

  function CallVal(c: Cmd): bytes
    requires ValidCmd(c)
  {
    match c
    case Init(_, _, _, _, _, _, _, _) => []
    case Grant(_, amount, stampMs, ttlMs, holder) => PutI64(amount) + (PutI64(stampMs) + (PutI64(ttlMs) + holder))
    case Report(_, cumulative, caller) => PutI64(cumulative) + caller
    case Return(_, final) => if final.Some? then PutI64(final.value.0) + final.value.1 else []
    case Expire(_, nowMs) => PutI64(nowMs)
    case TombGC(_, dueMs) => PutI64(dueMs)
    case Reconcile(acked) => PutI64(acked)
  }

  function CallOp(c: Cmd): byte
  {
    match c
    case Init(_, _, _, _, _, _, _, _) => BUDINIT
    case Grant(_, _, _, _, _) => BUDGRANT
    case Report(_, _, _) => BUDREPORT
    case Return(_, _) => BUDRETURN
    case Expire(_, _) => BUDEXPIRE
    case TombGC(_, _) => BUDTOMBGC
    case Reconcile(_) => BUDRECONCILE
  }

  // ---------------------------------------------------------------- read back

  /** An int64 at an offset of a longer string. */
  lemma FieldAt(s: bytes, off: nat, v: int, rest: bytes)
    requires I64(v) && off <= |s| && s[off..] == PutI64(v) + rest
    ensures off + 8 <= |s| && GetI64(s[off..]) == v && s[off + 8..] == rest
  {
    hide GetI64, PutI64;
    I64RoundTrip(v, rest);
    assert s[off..][8..] == s[off + 8..];
    assert (PutI64(v) + rest)[8..] == rest;
  }

  lemma LastField(s: bytes, off: nat, v: int)
    requires I64(v) && off <= |s| && s[off..] == PutI64(v)
    ensures GetI64(s[off..]) == v
  {
    hide GetI64, PutI64;
    assert PutI64(v) + [] == PutI64(v);
    FieldAt(s, off, v, []);
  }

  lemma DefineReadsBack(c: Cmd, val: bytes, score: nat, expiryMs: int, more: seq<Item>)
    requires c.Init? && ValidCmd(c)
    ensures DecodeCmd(BUDINIT, [Item(CallKey(c), val, score, expiryMs)] + more) == Some(c)
  {
    hide GetI64, PutI64;
    var k := CallKey(c);
    var r7 := PutI64(c.dedupWindowMs);
    var r6 := PutI64(c.defaultTTLMs) + r7;
    var r5 := PutI64(c.maxPauseMs) + r6;
    var r4 := PutI64(c.selfGuardMs) + r5;
    var r3 := PutI64(c.burst) + r4;
    var r2 := PutI64(c.rate) + r3;
    assert k[1..] == PutI64(c.cap) + r2;
    FieldAt(k, 1, c.cap, r2);
    FieldAt(k, 9, c.rate, r3);
    FieldAt(k, 17, c.burst, r4);
    FieldAt(k, 25, c.selfGuardMs, r5);
    FieldAt(k, 33, c.maxPauseMs, r6);
    FieldAt(k, 41, c.defaultTTLMs, r7);
    LastField(k, 49, c.dedupWindowMs);
  }

  /** A key of the first stage, and any key cut before the last timing field, reads as an untimed budget. */
  lemma ShortDefineReadsBack(mode: byte, cap: int, rate: int, burst: int, tail: bytes, it: Item, more: seq<Item>)
    requires I64(cap) && I64(rate) && I64(burst)
    requires |tail| < 32 && it.key == ShortDefineKey(mode, cap, rate, burst) + tail
    ensures DecodeCmd(BUDINIT, [it] + more) == Some(Init(mode, cap, rate, burst, 0, 0, 0, 0))
  {
    hide GetI64, PutI64;
    var k := it.key;
    var r3 := PutI64(burst) + tail;
    var r2 := PutI64(rate) + r3;
    assert k[1..] == PutI64(cap) + r2;
    FieldAt(k, 1, cap, r2);
    FieldAt(k, 9, rate, r3);
    FieldAt(k, 17, burst, tail);
  }

  lemma GrantReadsBack(c: Cmd)
    requires c.Grant? && ValidCmd(c)
    ensures var v := CallVal(c);
      && |v| >= 24 && GetI64(v) == c.amount && GetI64(v[8..]) == c.stampMs && GetI64(v[16..]) == c.ttlMs
      && v[24..] == c.holder
  {
    hide GetI64, PutI64;
    var v := CallVal(c);
    var r2 := PutI64(c.ttlMs) + c.holder;
    var r1 := PutI64(c.stampMs) + r2;
    assert v[0..] == v;
    FieldAt(v, 0, c.amount, r1);
    FieldAt(v, 8, c.stampMs, r2);
    FieldAt(v, 16, c.ttlMs, c.holder);
  }

  lemma FirstField(v: int, rest: bytes)
    requires I64(v)
    ensures |PutI64(v) + rest| >= 8 && GetI64(PutI64(v) + rest) == v && (PutI64(v) + rest)[8..] == rest
  {
    hide GetI64, PutI64;
    var s := PutI64(v) + rest;
    assert s[0..] == s;
    FieldAt(s, 0, v, rest);
  }

  /** Every call is read as the command it was: mode, cap, rate and burst of a definition, amount, stamp, ttl and holder
      of a draw, and so on, with or without a final report; only init and reconcile need no id. */
  lemma CallReadsBack(c: Cmd, score: nat, expiryMs: int, more: seq<Item>)
    requires ValidCmd(c) && (c.Init? || c.Reconcile? || CmdId(c) != [])
    ensures DecodeCmd(CallOp(c), [Item(CallKey(c), CallVal(c), score, expiryMs)] + more) == Some(c)
  {
    hide GetI64, PutI64;
    match c
    case Init(_, _, _, _, _, _, _, _) => DefineReadsBack(c, [], score, expiryMs, more);
    case Grant(_, _, _, _, _) => GrantReadsBack(c);
    case Report(_, n, caller) => FirstField(n, caller);
    case Return(_, final) => if final.Some? { FirstField(final.value.0, final.value.1); }
    case Expire(_, n) => FirstField(n, []); assert PutI64(n) + [] == PutI64(n);
    case TombGC(_, n) => FirstField(n, []); assert PutI64(n) + [] == PutI64(n);
    case Reconcile(n) => FirstField(n, []); assert PutI64(n) + [] == PutI64(n);
  }

  /** ... and a budget command is refused exactly when it has no item, when its fields do not fit, or when it names no
      lease where it must. */
  lemma RefusedExactly(op: byte, items: seq<Item>)
    requires op in {BUDINIT, BUDGRANT, BUDREPORT, BUDRETURN, BUDEXPIRE, BUDTOMBGC, BUDRECONCILE}
    ensures DecodeCmd(op, items).None? <==>
      || items == []
      || (op == BUDINIT && |items[0].key| < 25)
      || (op != BUDINIT && op != BUDRECONCILE && items[0].key == [])
      || (op == BUDGRANT && |items[0].val| < 24)
      || (op in {BUDREPORT, BUDEXPIRE, BUDTOMBGC, BUDRECONCILE} && |items[0].val| < 8)
  {
  }
}
