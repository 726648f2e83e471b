/** Exactly once within the ring's window. A keyed command may be a log entry of its own or any sub-command of a
    coalesced one; so may its retry, in the same entry, in the same Update or in a later one. */
module ExactlyOnce {
  import opened Bytes
  import opened Codec
  import opened Rows
  import opened Machine
  import opened Idempotency
  import B = Batching
  import C = Cardinality
  import F = Frame

  // ---------------------------------------------------------------- recorded results and positions stay

  /** The results recorded so far by the running Update stay as they are. */
  ghost predicate Grows(v: View, w: View)
  {
    forall k :: k in v.cached ==> k in w.cached && w.cached[k] == v.cached[k]
  }

  /** A command leaves the recorded results alone, or adds the one it answers with under its own key. */
  lemma OneGrows(lib: Strconv, base: Data, v: View, cmd: bytes)
    ensures var o := ApplyOne(lib, base, v, cmd);
      o.Done? ==>
        && Grows(v, o.v) && DecodeCommand(cmd).Some?
        && (o.v.seqNo != v.seqNo ==>
            var k := DecodeCommand(cmd).value.idem; |k| > 0 && k in o.v.cached && o.v.cached[k] == o.r)
  {
    hide ApplyBody, DecodeCommand, FrozenCovers, DedupGet, Record;
    DecodeCommandValid(cmd);
    var o := ApplyOne(lib, base, v, cmd);
    if o.Done? && Shortcut(base, v, DecodeCommand(cmd).value).None? {
      var c := DecodeCommand(cmd).value;
      BodyMoves(lib, base, v, c);
      var w: View :| Aside(v, w) && (o.v == w || (|c.idem| > 0 && o.v == Record(base, w, c.idem, o.r)));
      if |c.idem| > 0 { RecordRows(base, w, c.idem, o.r); }
    }
  }

  lemma {:induction false} SubsGrow(lib: Strconv, base: Data, v: View, subs: seq<bytes>)
    ensures var o := ApplySubs(lib, base, v, subs); o.SubDone? ==> Grows(v, o.v)
  {
    hide ApplyOne, DecodeCommand;
    if subs != [] {
      var n := |subs| - 1;
      SubsGrow(lib, base, v, subs[..n]);
      var h := ApplySubs(lib, base, v, subs[..n]);
      if h.SubDone? { OneGrows(lib, base, h.v, subs[n]); }
    }
  }

  lemma EntryGrows(lib: Strconv, base: Data, v: View, cmd: bytes)
    requires !IsMigrate(cmd)
    ensures var o := ApplyEntry(lib, base, v, cmd); o.Done? ==> Grows(v, o.v)
  {
    hide ApplyOne, ApplySubs, DecodeBatch, DecodeBounds, DecodeIngest, EncodeBatchResult;
    if IsBatch(cmd) {
      if DecodeBatch(cmd).Some? { SubsGrow(lib, base, v, DecodeBatch(cmd).value); }
    } else if !IsFreeze(cmd) {
      OneGrows(lib, base, v, cmd);
    }
  }

  lemma {:induction false} FoldGrows(lib: Strconv, base: Data, v: View, es: seq<Entry>)
    requires NoMigrate(es)
    ensures Grows(v, Fold(lib, base, v, es))
  {
    hide ApplyEntry, IsMigrate;
    if es != [] {
      var n := |es| - 1;
      FoldGrows(lib, base, v, es[..n]);
      EntryGrows(lib, base, Fold(lib, base, v, es[..n]), es[n].cmd);
    }
  }

  /** Positions taken by the running Update stay as they are. */
  ghost predicate Onward(n0: nat, v: View, w: View)
  {
    && v.seqNo <= w.seqNo
    && (forall p: nat :: n0 <= p < v.seqNo ==> KeyAt(w.d, p) == KeyAt(v.d, p))
  }

  lemma AsideOnward(n0: nat, v: View, w: View)
    requires Aside(v, w)
    ensures Onward(n0, v, w)
  {
    forall s: nat ensures RingKey(w.d, s) == RingKey(v.d, s) { assert RingRow(Ring(s)); }
  }

  lemma RecordOnward(base: Data, n0: nat, v: View, key: bytes, r: PResult)
    requires Running(base, n0, v) && v.seqNo < n0 + RING_SIZE && key != [] && key !in v.cached && Dedup(key) !in base
    ensures Onward(n0, v, Record(base, v, key, r))
  {
    RecordRows(base, v, key, r);
    hide Record, RingInv, Held, RingKey, DedupGet, KeyAt, AsBase, InBatch;
    forall p: nat | n0 <= p < v.seqNo ensures KeyAt(Record(base, v, key, r).d, p) == KeyAt(v.d, p)
    {
      RecordKeeps(base, n0, v, key, r, p);
    }
  }

  lemma OnwardAgain(n0: nat, v: View, w: View, x: View)
    requires Onward(n0, v, w) && Onward(n0, w, x)
    ensures Onward(n0, v, x)
  {
    hide KeyAt;
  }

  /** What a keyed command that was let through does to the ring: nothing, or one record of its own result. */
  lemma OneOnward(lib: Strconv, base: Data, n0: nat, v: View, cmd: bytes)
    requires Running(base, n0, v)
    requires var o := ApplyOne(lib, base, v, cmd); o.Done? && o.v.seqNo <= n0 + RING_SIZE
    ensures var o := ApplyOne(lib, base, v, cmd);
      && Running(base, n0, o.v) && Onward(n0, v, o.v)
      && (o.v.seqNo != v.seqNo ==>
          DecodeCommand(cmd).Some? && KeyAt(o.v.d, v.seqNo) == Some(DecodeCommand(cmd).value.idem))
  {
    hide ApplyBody, DecodeCommand, FrozenCovers, Aside, RingInv, AsBase, InBatch, Record, DedupGet, Running, Onward,
      KeyAt;
    OneRunning(lib, base, n0, v, cmd);
    DecodeCommandValid(cmd);
    var dc, o := DecodeCommand(cmd), ApplyOne(lib, base, v, cmd);
    if Shortcut(base, v, dc.value).Some? {
      OnwardItself(n0, v);
    } else {
      var c := dc.value;
      BodyMoves(lib, base, v, c);
      var w: View :| Aside(v, w) && (o.v == w || (|c.idem| > 0 && o.v == Record(base, w, c.idem, o.r)));
      AsideRunning(base, n0, v, w);
      AsideSeq(v, w);
      AsideOnward(n0, v, w);
      if o.v != w {
        RunningRing(base, n0, v);
        NoRow(base, n0, c.idem);
        RecordRows(base, w, c.idem, o.r);
        RecordOnward(base, n0, w, c.idem, o.r);
        OnwardAgain(n0, v, w, o.v);
      }
    }
  }

  lemma OnwardItself(n0: nat, v: View)
    ensures Onward(n0, v, v)
  {
  }

  lemma RunningRing(base: Data, n0: nat, v: View)
    requires Running(base, n0, v)
    ensures RingInv(base, n0)
  {
  }

  lemma {:induction false} SubsOnward(lib: Strconv, base: Data, n0: nat, v: View, subs: seq<bytes>)
    requires Running(base, n0, v)
    requires var o := ApplySubs(lib, base, v, subs); o.SubDone? && o.v.seqNo <= n0 + RING_SIZE
    ensures var o := ApplySubs(lib, base, v, subs); Running(base, n0, o.v) && Onward(n0, v, o.v)
  {
    hide ApplyOne, Running, Onward;
    if subs == [] {
      OnwardItself(n0, v);
    } else {
      var n := |subs| - 1;
      var h := ApplySubs(lib, base, v, subs[..n]);
      OneSeq(lib, base, h.v, subs[n]);
      SubsOnward(lib, base, n0, v, subs[..n]);
      OneOnward(lib, base, n0, h.v, subs[n]);
      OnwardAgain(n0, v, h.v, ApplySubs(lib, base, v, subs).v);
    }
  }

  lemma EntryOnward(lib: Strconv, base: Data, n0: nat, v: View, cmd: bytes)
    requires Running(base, n0, v) && !IsMigrate(cmd)
    requires var o := ApplyEntry(lib, base, v, cmd); o.Done? && o.v.seqNo <= n0 + RING_SIZE
    ensures Onward(n0, v, ApplyEntry(lib, base, v, cmd).v)
  {
    hide ApplyOne, ApplySubs, DecodeBatch, DecodeBounds, DecodeIngest, EncodeBatchResult, Running, Onward;
    if IsFreeze(cmd) {
      var o := ApplyFreeze(v, cmd);
      assert Aside(v, o.v);
      AsideOnward(n0, v, o.v);
    } else if IsBatch(cmd) {
      SubsOnward(lib, base, n0, v, DecodeBatch(cmd).value);
    } else {
      OneOnward(lib, base, n0, v, cmd);
    }
  }

  lemma {:induction false} FoldOnward(lib: Strconv, base: Data, n0: nat, v: View, es: seq<Entry>)
    requires Running(base, n0, v) && NoMigrate(es) && Fold(lib, base, v, es).seqNo <= n0 + RING_SIZE
    ensures Running(base, n0, Fold(lib, base, v, es)) && Onward(n0, v, Fold(lib, base, v, es))
  {
    hide ApplyEntry, Running, Onward, IsMigrate;
    FoldRunning(lib, base, n0, v, es);
    if es == [] {
      OnwardItself(n0, v);
    } else {
      var n := |es| - 1;
      var h := Fold(lib, base, v, es[..n]);
      EntrySeq(lib, base, h, es[n].cmd);
      FoldOnward(lib, base, n0, v, es[..n]);
      if ApplyEntry(lib, base, h, es[n].cmd).Done? {
        EntryOnward(lib, base, n0, h, es[n].cmd);
        OnwardAgain(n0, v, h, Fold(lib, base, v, es));
      }
    }
  }

  lemma OnwardMeans(n0: nat, v: View, w: View, p: nat)
    requires Onward(n0, v, w)
    ensures v.seqNo <= w.seqNo && (n0 <= p < v.seqNo ==> KeyAt(w.d, p) == KeyAt(v.d, p))
  {
  }

  lemma {:induction false} FoldSeq(lib: Strconv, base: Data, v: View, es: seq<Entry>)
    requires NoMigrate(es)
    ensures v.seqNo <= Fold(lib, base, v, es).seqNo
  {
    hide ApplyEntry, IsMigrate;
    if es != [] {
      var n := |es| - 1;
      FoldSeq(lib, base, v, es[..n]);
      EntrySeq(lib, base, Fold(lib, base, v, es[..n]), es[n].cmd);
    }
  }

  // ---------------------------------------------------------------- where a command stands

  predicate Single(cmd: bytes) { !MigrateOp(cmd) && !IsFreeze(cmd) && !IsBatch(cmd) && DecodeCommand(cmd).Some? }

  /** A command is an entry by itself, or a sub-command with others before and behind it. */
  datatype Spot = Lone | Within(before: seq<bytes>, behind: seq<bytes>)

  ghost predicate Carries(x: Entry, cmd: bytes, at: Spot)
  {
    match at
    case Lone => Single(cmd) && x.cmd == cmd
    case Within(s, t) => IsBatch(x.cmd) && DecodeBatch(x.cmd) == Some(s + [cmd] + t) && DecodeCommand(cmd).Some?
  }

  ghost function KeyOf(cmd: bytes): bytes
    requires DecodeCommand(cmd).Some?
  {
    DecodeCommand(cmd).value.idem
  }

  /** What the command meets when its entry is applied at v. */
  ghost function Before(lib: Strconv, base: Data, v: View, at: Spot): SubOutcome
  {
    if at.Lone? then SubDone(v, []) else ApplySubs(lib, base, v, at.before)
  }

  /** What the entry goes on to after the command left w. */
  ghost function Behind(lib: Strconv, base: Data, w: View, at: Spot): SubOutcome
  {
    if at.Lone? then SubDone(w, []) else ApplySubs(lib, base, w, at.behind)
  }

  /** What the entry would do without the command; a lone one leaves nothing. */
  ghost function Bare(lib: Strconv, base: Data, v: View, at: Spot): SubOutcome
  {
    if at.Lone? then SubDone(v, []) else ApplySubs(lib, base, v, at.before + at.behind)
  }

  /** In the result r of its entry, applied at v, the command is answered q. */
  ghost predicate Told(lib: Strconv, base: Data, v: View, at: Spot, cmd: bytes, r: PResult, q: PResult)
  {
    if at.Lone? then r == q else
    var o := ApplySubs(lib, base, v, at.before + [cmd] + at.behind);
    && o.SubDone? && |o.rs| == |at.before| + 1 + |at.behind|
    && r == PResult(0, EncodeBatchResult(o.rs)) && o.rs[|at.before|] == q
  }

  lemma {:induction false} SubsConcat(lib: Strconv, base: Data, v: View, a: seq<bytes>, b: seq<bytes>)
    ensures var h, o := ApplySubs(lib, base, v, a), ApplySubs(lib, base, v, a + b);
      if h.SubSkip? then o.SubSkip? else
      var g := ApplySubs(lib, base, h.v, b);
      if g.SubSkip? then o.SubSkip? else o == SubDone(g.v, h.rs + g.rs)
    decreases |b|
  {
    hide ApplyOne;
    if b == [] {
      assert a + b == a;
    } else {
      var n := |b| - 1;
      assert (a + b)[..|a| + n] == a + b[..n] && (a + b)[|a| + n] == b[n];
      SubsConcat(lib, base, v, a, b[..n]);
    }
  }

  lemma {:induction false} SubsLength(lib: Strconv, base: Data, v: View, subs: seq<bytes>)
    ensures var o := ApplySubs(lib, base, v, subs); o.SubDone? ==> |o.rs| == |subs|
  {
    hide ApplyOne;
    if subs != [] { SubsLength(lib, base, v, subs[..|subs| - 1]); }
  }

  lemma SubsOne(lib: Strconv, base: Data, v: View, cmd: bytes)
    ensures var o, g := ApplyOne(lib, base, v, cmd), ApplySubs(lib, base, v, [cmd]);
      if o.Skip? then g.SubSkip? else g == SubDone(o.v, [o.r])
  {
    hide ApplyOne;
    assert [cmd][..0] == [];
    assert ApplySubs(lib, base, v, []) == SubDone(v, []);
  }

  /** A batch around one of its sub-commands. */
  lemma SubsAround(lib: Strconv, base: Data, v: View, s: seq<bytes>, cmd: bytes, t: seq<bytes>)
    ensures var h, o := ApplySubs(lib, base, v, s), ApplySubs(lib, base, v, s + [cmd] + t);
      if h.SubSkip? then o.SubSkip? else
      var m := ApplyOne(lib, base, h.v, cmd);
      if m.Skip? then o.SubSkip? else
      var g := ApplySubs(lib, base, m.v, t);
      if g.SubSkip? then o.SubSkip? else o == SubDone(g.v, h.rs + [m.r] + g.rs) && |h.rs| == |s| && |g.rs| == |t|
  {
    hide ApplyOne, ApplySubs;
    SubsConcat(lib, base, v, s, [cmd]);
    SubsConcat(lib, base, v, s + [cmd], t);
    var h := ApplySubs(lib, base, v, s);
    SubsLength(lib, base, v, s);
    if h.SubDone? {
      SubsOne(lib, base, h.v, cmd);
      var m := ApplyOne(lib, base, h.v, cmd);
      if m.Done? { SubsLength(lib, base, m.v, t); }
    }
  }

  /** An entry takes effect when what stands before the command, the command and what stands behind it do. */
  lemma EntryAround(lib: Strconv, base: Data, v: View, x: Entry, at: Spot, cmd: bytes)
    requires Carries(x, cmd, at)
    ensures !IsMigrate(x.cmd)
    ensures var o, h := ApplyEntry(lib, base, v, x.cmd), Before(lib, base, v, at);
      if h.SubSkip? then o.Skip? else
      var m := ApplyOne(lib, base, h.v, cmd);
      if m.Skip? then o.Skip? else
      var g := Behind(lib, base, m.v, at);
      if g.SubSkip? then o.Skip? else o.Done? && o.v == g.v && Told(lib, base, v, at, cmd, o.r, m.r)
  {
    hide ApplyOne, ApplySubs, DecodeCommand, DecodeBatch, EncodeBatchResult, DecodeBounds, DecodeIngest;
    if at.Within? { SubsAround(lib, base, v, at.before, cmd, at.behind); }
  }

  /** Entries with one more before or after them. */
  lemma Joined(a: seq<Entry>, x: Entry, b: seq<Entry>)
    requires NoMigrate(a) && NoMigrate(b) && !IsMigrate(x.cmd)
    ensures NoMigrate([x]) && NoMigrate(a + [x]) && NoMigrate(a + [x] + b)
  {
    hide IsMigrate;
  }

  lemma NoMigrateConcat(a: seq<Entry>, b: seq<Entry>)
    requires NoMigrate(a) && NoMigrate(b)
    ensures NoMigrate(a + b)
  {
    hide IsMigrate;
  }

  lemma CommitAgain(st: Data, v: View, i: nat, j: nat)
    ensures Commit(st, v, j) == Commit(st, v, i)[Applied := Num(j)]
  {
    hide CardRows;
  }

  lemma FoldNothing(lib: Strconv, base: Data, v: View)
    ensures Fold(lib, base, v, []) == v
  {
  }

  /** The view after a + [x] + b, and x's result. */
  lemma FoldAround(lib: Strconv, base: Data, v0: View, a: seq<Entry>, x: Entry, b: seq<Entry>)
    requires NoMigrate(a) && NoMigrate(b) && !IsMigrate(x.cmd)
    ensures NoMigrate(a + [x]) && NoMigrate(a + [x] + b)
    ensures var v := Fold(lib, base, v0, a);
      var o := ApplyEntry(lib, base, v, x.cmd);
      && Fold(lib, base, v0, a + [x] + b) == Fold(lib, base, if o.Skip? then v else o.v, b)
      && Results(lib, base, v0, a + [x] + b)[|a|] == if o.Skip? then PResult(0, []) else o.r
  {
    hide ApplyEntry, Fold, Results, IsMigrate;
    Joined(a, x, b);
    B.FoldConcat(lib, base, v0, a, [x]);
    B.FoldConcat(lib, base, v0, a + [x], b);
    B.SingleFold(lib, base, Fold(lib, base, v0, a), x);
  }

  // ---------------------------------------------------------------- a command that might as well be absent

  /** The command is answered q, and its entry, applied at v, does what it would do without the command: it takes
      effect if it would then, with the same rows and the same answers to all the others. */
  ghost predicate Inert(lib: Strconv, base: Data, v: View, x: Entry, at: Spot, cmd: bytes, q: PResult)
  {
    && !IsMigrate(x.cmd)
    && var o, u := ApplyEntry(lib, base, v, x.cmd), Bare(lib, base, v, at);
       && (o.Done? <==> u.SubDone?)
       && (o.Done? ==> o.v == u.v && Told(lib, base, v, at, cmd, o.r, q) && Among(at, u.rs, o.r, q))
  }

  /** r packs rs with q put in at the command's place. */
  ghost predicate Among(at: Spot, rs: seq<PResult>, r: PResult, q: PResult)
  {
    at.Within? ==>
      && |rs| == |at.before| + |at.behind|
      && r == PResult(0, EncodeBatchResult(rs[..|at.before|] + [q] + rs[|at.before|..]))
  }

  lemma InertEntry(lib: Strconv, base: Data, v: View, x: Entry, at: Spot, cmd: bytes, q: PResult)
    requires Carries(x, cmd, at)
    requires var h := Before(lib, base, v, at); h.SubDone? ==> ApplyOne(lib, base, h.v, cmd) == Done(h.v, q)
    ensures Inert(lib, base, v, x, at, cmd, q)
  {
    hide ApplyOne, ApplySubs, ApplyEntry, DecodeCommand, DecodeBatch, EncodeBatchResult, IsMigrate;
    EntryAround(lib, base, v, x, at, cmd);
    if at.Within? {
      var s, t := at.before, at.behind;
      SubsConcat(lib, base, v, s, t);
      SubsAround(lib, base, v, s, cmd, t);
      BatchResult(lib, base, v, x, s + [cmd] + t);
      var h := ApplySubs(lib, base, v, s);
      if h.SubDone? {
        var g := ApplySubs(lib, base, h.v, t);
        if g.SubDone? { assert (h.rs + g.rs)[..|s|] == h.rs && (h.rs + g.rs)[|s|..] == g.rs; }
      }
    }
  }

  lemma BatchResult(lib: Strconv, base: Data, v: View, x: Entry, subs: seq<bytes>)
    requires IsBatch(x.cmd) && DecodeBatch(x.cmd) == Some(subs)
    ensures !IsMigrate(x.cmd)
    ensures var o, g := ApplyEntry(lib, base, v, x.cmd), ApplySubs(lib, base, v, subs);
      if g.SubSkip? then o.Skip? else o == Done(g.v, PResult(0, EncodeBatchResult(g.rs)))
  {
    hide ApplySubs, DecodeBatch, EncodeBatchResult, DecodeIngest, DecodeBounds;
  }

  /** In an Update of es + [x] + d on st. */
  ghost predicate Absent(lib: Strconv, st: Data, es: seq<Entry>, x: Entry, at: Spot, cmd: bytes, d: seq<Entry>,
                         q: PResult)
  {
    && NoMigrate(es) && NoMigrate(d) && NoMigrate(es + [x] + d)
    && var v := Fold(lib, Strip(st), Start(st), es);
       var u := Bare(lib, Strip(st), v, at);
       && Inert(lib, Strip(st), v, x, at, cmd, q)
       && (u.SubDone? ==> Told(lib, Strip(st), v, at, cmd, UpdateResults(lib, st, es + [x] + d)[|es|], q))
       && Fold(lib, Strip(st), Start(st), es + [x] + d) == Fold(lib, Strip(st), if u.SubDone? then u.v else v, d)
  }

  lemma InertAbsent(lib: Strconv, st: Data, es: seq<Entry>, x: Entry, at: Spot, cmd: bytes, d: seq<Entry>, q: PResult)
    requires NoMigrate(es) && NoMigrate(d) && Inert(lib, Strip(st), Fold(lib, Strip(st), Start(st), es), x, at, cmd, q)
    ensures Absent(lib, st, es, x, at, cmd, d, q)
  {
    hide ApplyEntry, Fold, Results, IsMigrate, Strip, Told, Among, Bare;
    FoldAround(lib, Strip(st), Start(st), es, x, d);
  }

  /** y is x without the command at its place. */
  ghost predicate Trimmed(x: Entry, at: Spot, y: Entry)
  {
    at.Within? && y.index == x.index && IsBatch(y.cmd) && DecodeBatch(y.cmd) == Some(at.before + at.behind)
  }

  /** What is stored is what would be without the command: with the entry taken out when the command is alone in it,
      up to the applied index, and with the sub-command taken out of its batch otherwise. */
  lemma NoTrace(lib: Strconv, st: Data, es: seq<Entry>, x: Entry, at: Spot, cmd: bytes, d: seq<Entry>, q: PResult,
                y: Entry)
    requires Absent(lib, st, es, x, at, cmd, d, q)
    ensures at.Lone? && d != [] ==> NoMigrate(es + d) && Update(lib, st, es + [x] + d) == Update(lib, st, es + d)
    ensures at.Lone? && d == [] ==> Update(lib, st, es + [x] + d) == Update(lib, st, es)[Applied := Num(x.index)]
    ensures Trimmed(x, at, y) ==>
      NoMigrate(es + [y] + d) && Update(lib, st, es + [x] + d) == Update(lib, st, es + [y] + d)
  {
    hide ApplyEntry, ApplySubs, Fold, Results, IsMigrate, DecodeBatch, Strip, Told, Inert, Commit, Start;
    var base, v0 := Strip(st), Start(st);
    var v := Fold(lib, base, v0, es);
    assert (es + [x] + d)[|es + [x] + d| - 1] == if d == [] then x else d[|d| - 1];
    if at.Lone? {
      if d == [] {
        FoldNothing(lib, base, v);
        FoldNothing(lib, base, v0);
        CommitStart(st, x.index);
        if es != [] { CommitAgain(st, v, es[|es| - 1].index, x.index); }
      } else {
        NoMigrateConcat(es, d);
        B.FoldConcat(lib, base, v0, es, d);
      }
    } else if Trimmed(x, at, y) {
      BatchResult(lib, base, v, y, at.before + at.behind);
      FoldAround(lib, base, v0, es, y, d);
      assert (es + [y] + d)[|es + [y] + d| - 1] == if d == [] then y else d[|d| - 1];
    }
  }

  lemma CommitStart(st: Data, i: nat)
    ensures Commit(st, Start(st), i) == st[Applied := Num(i)]
  {
    NoCards(st);
    hide CardRows, SeqOf;
    var m := MetaRows(st, Start(st), i);
    assert m == (map r | r in st && Meta(r) :: st[r])[Applied := Num(i)];
    hide MetaRows;
    assert Meta(Applied);
  }

  lemma NoCards(st: Data)
    ensures CardRows(st, Start(st)) == map[]
  {
  }

  // ---------------------------------------------------------------- recording a key

  /** x, applied at v, takes effect, and the command in it runs and records its key. */
  ghost predicate Ran(lib: Strconv, base: Data, v: View, x: Entry, at: Spot, cmd: bytes)
  {
    && Carries(x, cmd, at) && !IsMigrate(x.cmd) && ApplyEntry(lib, base, v, x.cmd).Done?
    && var h := Before(lib, base, v, at);
       && h.SubDone?
       && var o := ApplyOne(lib, base, h.v, cmd); o.Done? && o.v.seqNo != h.v.seqNo
  }

  /** The collection is untyped or has the command's type; expiries and removals take any. */
  ghost predicate TypeFits(d: Data, c: Command)
  {
    c.op == EXPIRE || c.op == REMOVE || TypeRow(d, Coll(c.ns, c.coll)) in {None, Some(TypeForOp(c.op) as nat)}
  }

  /** The field is absent or holds a number of the counter's kind. */
  ghost predicate Countable(lib: Strconv, d: Data, c: Command)
    requires c.items != []
  {
    var k := Elem(Coll(c.ns, c.coll), c.items[0].key);
    k in d ==>
      var b := if d[k].Raw? then d[k].b else [];
      if c.op == HINCRBY then lib.parseInt(b).Some? else lib.parseFloat(b).Some?
  }

  /** A command records its key exactly when it has one, is no budget command, is in no frozen range, is no repetition,
      finds its type and, as an increment, a number. The key then stands for its answer. */
  lemma RecordsExactly(lib: Strconv, base: Data, v: View, cmd: bytes)
    requires DecodeCommand(cmd).Some? && ApplyOne(lib, base, v, cmd).Done?
    ensures var c, o := DecodeCommand(cmd).value, ApplyOne(lib, base, v, cmd);
      && (o.v.seqNo != v.seqNo <==>
            && |c.idem| > 0 && TypeForOp(c.op) != TBUDGET && !FrozenCovers(base, RouteKey(Coll(c.ns, c.coll)))
            && c.idem !in v.cached && DedupGet(base, c.idem).None? && TypeFits(v.d, c)
            && ((c.op == HINCRBY || c.op == HINCRBYFLOAT) && c.items != [] ==> Countable(lib, v.d, c)))
      && (o.v.seqNo != v.seqNo ==> o.v.seqNo == v.seqNo + 1 && Cached(o.v, c.idem, o.r))
  {
    hide DecodeCommand, FrozenCovers, DedupGet, ApplyItems, ApplyBudget, ApplyCounter, Countable, RingKey;
    DecodeCommandValid(cmd);
    var c := DecodeCommand(cmd).value;
    BudgetKeepsSeq(v, c);
    var v1 := v.(d := EnsureType(v.d, Coll(c.ns, c.coll), THASH).0);
    CounterRecords(lib, base, v1, c);
    if c.items != [] { CountableHeaded(lib, v.d, c); }
  }

  lemma CountableHeaded(lib: Strconv, d: Data, c: Command)
    requires c.items != []
    ensures Countable(lib, EnsureType(d, Coll(c.ns, c.coll), THASH).0, c) == Countable(lib, d, c)
  {
  }

  lemma CounterRecords(lib: Strconv, base: Data, v: View, c: Command)
    ensures var o := ApplyCounter(lib, base, v, c);
      o.Done? ==>
        && c.items != []
        && (o.v.seqNo != v.seqNo <==> |c.idem| > 0 && Countable(lib, v.d, c))
        && (o.v.seqNo != v.seqNo ==> o.v.seqNo == v.seqNo + 1 && Cached(o.v, c.idem, o.r))
  {
    hide RingKey, BE, GetI64, WrapI64;
  }

  lemma BudgetKeepsSeq(v: View, c: Command)
    ensures var o := ApplyBudget(v, c); o.Done? ==> o.v.seqNo == v.seqNo
  {
    hide L.DecodeCmd, L.Apply, EnsureType, WriteBudget, PoolOf, LeaseOf, TombOf;
  }

  /** The command's own answer. */
  ghost function Answer(lib: Strconv, base: Data, v: View, at: Spot, cmd: bytes): PResult
  {
    var h := Before(lib, base, v, at);
    if h.SubSkip? then PResult(0, []) else
    var o := ApplyOne(lib, base, h.v, cmd);
    if o.Skip? then PResult(0, []) else o.r
  }

  /** Both are keyed alike, and the retry lies outside every range frozen when its Update began. */
  ghost predicate Retries(base: Data, first: bytes, again: bytes)
  {
    && DecodeCommand(first).Some? && DecodeCommand(again).Some? && KeyOf(again) == KeyOf(first)
    && var c := DecodeCommand(again).value; !FrozenCovers(base, RouteKey(Coll(c.ns, c.coll)))
  }

  /** A keyed command whose key the running Update has recorded gets the recorded result and changes nothing. */
  lemma KeyedAgain(lib: Strconv, base: Data, w: View, cmd: bytes)
    requires DecodeCommand(cmd).Some?
    requires var c := DecodeCommand(cmd).value;
      |c.idem| > 0 && c.idem in w.cached && !FrozenCovers(base, RouteKey(Coll(c.ns, c.coll)))
    ensures ApplyOne(lib, base, w, cmd) == Done(w, w.cached[KeyOf(cmd)])
  {
    hide ApplyBody, DecodeCommand, FrozenCovers;
  }

  ghost predicate Cached(w: View, k: bytes, q: PResult) { |k| > 0 && k in w.cached && w.cached[k] == q }

  lemma CachedGrows(v: View, w: View, k: bytes, q: PResult)
    requires Cached(v, k, q) && Grows(v, w)
    ensures Cached(w, k, q)
  {
  }

  /** After the entry that ran it, the command's answer is recorded under its key. */
  lemma RanCached(lib: Strconv, base: Data, v: View, x: Entry, at: Spot, cmd: bytes)
    requires Ran(lib, base, v, x, at, cmd)
    ensures var o := ApplyEntry(lib, base, v, x.cmd);
      && Cached(o.v, KeyOf(cmd), Answer(lib, base, v, at, cmd))
      && Told(lib, base, v, at, cmd, o.r, Answer(lib, base, v, at, cmd))
  {
    hide ApplyOne, ApplySubs, ApplyEntry, DecodeCommand, DecodeBatch, IsMigrate, Grows, Told;
    EntryAround(lib, base, v, x, at, cmd);
    var h := Before(lib, base, v, at);
    var m := ApplyOne(lib, base, h.v, cmd);
    OneGrows(lib, base, h.v, cmd);
    if at.Within? {
      SubsGrow(lib, base, m.v, at.behind);
      CachedGrows(m.v, ApplySubs(lib, base, m.v, at.behind).v, KeyOf(cmd), m.r);
    }
  }

  /** A command at any place of an entry meets the recorded results of the view the entry was applied at. */
  lemma BeforeGrows(lib: Strconv, base: Data, v: View, at: Spot)
    ensures var h := Before(lib, base, v, at); h.SubDone? ==> Grows(v, h.v)
  {
    hide ApplySubs;
    if at.Within? { SubsGrow(lib, base, v, at.before); }
  }

  lemma CachedInert(lib: Strconv, base: Data, v: View, x: Entry, at: Spot, first: bytes, cmd: bytes, q: PResult)
    requires Carries(x, cmd, at) && Retries(base, first, cmd) && Cached(v, KeyOf(first), q)
    ensures Inert(lib, base, v, x, at, cmd, q)
  {
    hide ApplyOne, ApplySubs, ApplyEntry, DecodeCommand, DecodeBatch, IsMigrate, Grows, FrozenCovers, Inert, Carries;
    BeforeGrows(lib, base, v, at);
    var h := Before(lib, base, v, at);
    if h.SubDone? {
      CachedGrows(v, h.v, KeyOf(first), q);
      KeyedAgain(lib, base, h.v, cmd);
    }
    InertEntry(lib, base, v, x, at, cmd, q);
  }

  /** Two equal keys coalesced into one entry apply once: the second sub-command gets the answer of the first, and
      the entry does what it would do without the second. */
  lemma SameEntryOnce(lib: Strconv, base: Data, v: View, x: Entry, s: seq<bytes>, first: bytes, t: seq<bytes>,
                      again: bytes, u: seq<bytes>)
    requires Carries(x, again, Within(s + [first] + t, u)) && Retries(base, first, again)
    requires var h := ApplySubs(lib, base, v, s);
      && h.SubDone?
      && var o := ApplyOne(lib, base, h.v, first); o.Done? && o.v.seqNo != h.v.seqNo
    ensures var q := Answer(lib, base, v, Within(s, t + [again] + u), first);
      && Inert(lib, base, v, x, Within(s + [first] + t, u), again, q)
      && (var o := ApplyEntry(lib, base, v, x.cmd);
          o.Done? ==> Told(lib, base, v, Within(s, t + [again] + u), first, o.r, q))
  {
    hide ApplyOne, ApplySubs, ApplyEntry, DecodeCommand, DecodeBatch, IsMigrate, Grows, FrozenCovers, Inert, Told;
    var at, bt := Within(s, t + [again] + u), Within(s + [first] + t, u);
    assert s + [first] + (t + [again] + u) == s + [first] + t + [again] + u;
    EntryAround(lib, base, v, x, at, first);
    var h := ApplySubs(lib, base, v, s);
    var o := ApplyOne(lib, base, h.v, first);
    OneGrows(lib, base, h.v, first);
    SubsAround(lib, base, v, s, first, t);
    SubsGrow(lib, base, o.v, t);
    var g := ApplySubs(lib, base, v, s + [first] + t);
    if g.SubDone? {
      CachedGrows(o.v, g.v, KeyOf(first), o.r);
      KeyedAgain(lib, base, g.v, again);
    }
    InertEntry(lib, base, v, x, bt, again, o.r);
  }

  /** x is answered q in the Update of a + [x] + d on st. */
  ghost predicate Served(lib: Strconv, st: Data, a: seq<Entry>, x: Entry, at: Spot, cmd: bytes, d: seq<Entry>,
                         q: PResult)
  {
    && NoMigrate(a) && NoMigrate(d) && NoMigrate(a + [x] + d)
    && Told(lib, Strip(st), Fold(lib, Strip(st), Start(st), a), at, cmd, UpdateResults(lib, st, a + [x] + d)[|a|], q)
  }

  /** Two equal keys in one Update apply once, whatever other commands, batches and skipped entries stand around them:
      the second gets the first one's answer and leaves everything as if it were absent. */
  lemma SameBatchOnce(lib: Strconv, st: Data, a: seq<Entry>, x: Entry, at: Spot, first: bytes, b: seq<Entry>,
                      y: Entry, bt: Spot, again: bytes, c: seq<Entry>)
    requires NoMigrate(a) && NoMigrate(b) && NoMigrate(c)
    requires Ran(lib, Strip(st), Fold(lib, Strip(st), Start(st), a), x, at, first)
    requires Carries(y, again, bt) && Retries(Strip(st), first, again)
    ensures var q := Answer(lib, Strip(st), Fold(lib, Strip(st), Start(st), a), at, first);
      && Served(lib, st, a, x, at, first, b + [y] + c, q)
      && Absent(lib, st, a + [x] + b, y, bt, again, c, q)
  {
    hide ApplyOne, ApplyEntry, ApplySubs, Fold, Results, DecodeCommand, FrozenCovers, Strip, IsMigrate, Inert, Absent,
      Told, Answer, Before, Carries, Start;
    var base, v0 := Strip(st), Start(st);
    var v := Fold(lib, base, v0, a);
    var q := Answer(lib, base, v, at, first);
    var w := ApplyEntry(lib, base, v, x.cmd).v;
    RanCached(lib, base, v, x, at, first);
    FoldAround(lib, base, v0, a, x, b);
    FoldGrows(lib, base, w, b);
    CachedGrows(w, Fold(lib, base, w, b), KeyOf(first), q);
    CachedInert(lib, base, Fold(lib, base, w, b), y, bt, first, again, q);
    InertAbsent(lib, st, a + [x] + b, y, bt, again, c, q);
    CarriedNoMigrate(lib, y, bt, again);
    Joined(b, y, c);
    FoldAround(lib, base, v0, a, x, b + [y] + c);
  }

  lemma CarriedNoMigrate(lib: Strconv, x: Entry, at: Spot, cmd: bytes)
    requires Carries(x, cmd, at)
    ensures !IsMigrate(x.cmd)
  {
    hide DecodeBatch, DecodeCommand, DecodeIngest, DecodeBounds;
  }

  // ---------------------------------------------------------------- what later Updates find

  /** Where the entry stood in the ring's sequence when the command came. */
  ghost function PlaceOf(lib: Strconv, base: Data, v: View, at: Spot): nat
  {
    var h := Before(lib, base, v, at);
    if h.SubDone? then h.v.seqNo else v.seqNo
  }

  /** The part of the entry before the command keeps the positions taken, and so does the part behind it. */
  lemma SpotOnward(lib: Strconv, base: Data, n0: nat, v: View, x: Entry, at: Spot, cmd: bytes)
    requires Running(base, n0, v) && Ran(lib, base, v, x, at, cmd)
    requires ApplyEntry(lib, base, v, x.cmd).v.seqNo <= n0 + RING_SIZE
    ensures var w, n := ApplyEntry(lib, base, v, x.cmd).v, PlaceOf(lib, base, v, at);
      v.seqNo <= n < w.seqNo && Running(base, n0, w) && KeyAt(w.d, n) == Some(KeyOf(cmd))
  {
    hide ApplyOne, ApplySubs, ApplyEntry, DecodeCommand, DecodeBatch, IsMigrate, Running, Onward, KeyAt, Told;
    EntryAround(lib, base, v, x, at, cmd);
    var h := Before(lib, base, v, at).v;
    var m := ApplyOne(lib, base, h, cmd).v;
    var w := Behind(lib, base, m, at).v;
    OneSeq(lib, base, h, cmd);
    BehindSeq(lib, base, m, at);
    BeforeRuns(lib, base, n0, v, at);
    OneOnward(lib, base, n0, h, cmd);
    BehindRuns(lib, base, n0, m, at);
    RunsFrom(base, n0, h);
    OnwardMeans(n0, m, w, h.seqNo);
  }

  lemma RunsFrom(base: Data, n0: nat, v: View)
    requires Running(base, n0, v)
    ensures n0 <= v.seqNo <= n0 + RING_SIZE
  {
  }

  lemma BehindSeq(lib: Strconv, base: Data, w: View, at: Spot)
    ensures var g := Behind(lib, base, w, at); g.SubDone? ==> w.seqNo <= g.v.seqNo
  {
    hide ApplySubs;
    if at.Within? { SubsSeq(lib, base, w, at.behind); }
  }

  lemma BeforeRuns(lib: Strconv, base: Data, n0: nat, v: View, at: Spot)
    requires Running(base, n0, v)
    requires var h := Before(lib, base, v, at); h.SubDone? && h.v.seqNo <= n0 + RING_SIZE
    ensures var h := Before(lib, base, v, at); Running(base, n0, h.v) && v.seqNo <= h.v.seqNo
  {
    hide ApplySubs, Running;
    if at.Within? {
      SubsRunning(lib, base, n0, v, at.before);
    }
  }

  lemma BehindRuns(lib: Strconv, base: Data, n0: nat, w: View, at: Spot)
    requires Running(base, n0, w)
    requires var g := Behind(lib, base, w, at); g.SubDone? && g.v.seqNo <= n0 + RING_SIZE
    ensures var g := Behind(lib, base, w, at); Running(base, n0, g.v) && Onward(n0, w, g.v)
  {
    hide ApplySubs, Running, Onward;
    if at.Within? { SubsOnward(lib, base, n0, w, at.behind); } else { OnwardItself(n0, w); }
  }

  /** The entry x, after a, takes effect on st, and its Update of a + [x] + b fits the ring. */
  ghost predicate RanIn(lib: Strconv, st: Data, a: seq<Entry>, x: Entry, at: Spot, cmd: bytes, b: seq<Entry>)
  {
    && NoMigrate(a) && NoMigrate(b) && NoMigrate(a + [x] + b) && Modest(lib, st, a + [x] + b)
    && Ran(lib, Strip(st), Fold(lib, Strip(st), Start(st), a), x, at, cmd)
  }

  lemma PositionKept(lib: Strconv, st: Data, a: seq<Entry>, x: Entry, at: Spot, cmd: bytes, b: seq<Entry>)
    requires Sane(st) && RanIn(lib, st, a, x, at, cmd, b)
    ensures var v, w := Fold(lib, Strip(st), Start(st), a), Fold(lib, Strip(st), Start(st), a + [x] + b);
      var n := PlaceOf(lib, Strip(st), v, at);
      && Running(Strip(st), SeqOf(st), w) && SeqOf(st) <= n < w.seqNo <= n + RING_SIZE
      && KeyAt(w.d, n) == Some(KeyOf(cmd))
  {
    hide ApplyOne, ApplyEntry, ApplySubs, Fold, Results, DecodeCommand, Strip, IsMigrate, Running, Onward, KeyAt, SeqOf,
      Sane, Before, PlaceOf, Carries;
    var base, v0, n0 := Strip(st), Start(st), SeqOf(st);
    var v := Fold(lib, base, v0, a);
    var u := ApplyEntry(lib, base, v, x.cmd).v;
    FoldAround(lib, base, v0, a, x, b);
    StartRunning(st);
    FoldSeq(lib, base, u, b);
    EntrySeq(lib, base, v, x.cmd);
    FoldOnward(lib, base, n0, v0, a);
    RunsFrom(base, n0, v);
    SpotOnward(lib, base, n0, v, x, at, cmd);
    FoldOnward(lib, base, n0, u, b);
    OnwardMeans(n0, u, Fold(lib, base, u, b), PlaceOf(lib, base, v, at));
  }

  /** What the command was answered is what the shard remembers of its key, whatever else was in its entry and
      whatever followed. */
  lemma RecordedAfter(lib: Strconv, st: Data, a: seq<Entry>, x: Entry, at: Spot, cmd: bytes, b: seq<Entry>)
    requires Sane(st) && RanIn(lib, st, a, x, at, cmd, b)
    ensures var v := Fold(lib, Strip(st), Start(st), a);
      var q := Answer(lib, Strip(st), v, at, cmd);
      && Served(lib, st, a, x, at, cmd, b, q)
      && Recorded(Update(lib, st, a + [x] + b), PlaceOf(lib, Strip(st), v, at), KeyOf(cmd), q)
  {
    hide ApplyOne, ApplyEntry, ApplySubs, Fold, Results, DecodeCommand, Strip, IsMigrate, Commit, KeyAt, DedupGet,
      SeqOf, RingInv, AsBase, Told, Answer, Before, PlaceOf, DecodeBatch, Grows;
    var base, v0, es := Strip(st), Start(st), a + [x] + b;
    var v, w := Fold(lib, base, v0, a), Fold(lib, base, v0, es);
    var q := Answer(lib, base, v, at, cmd);
    FoldAround(lib, base, v0, a, x, b);
    PositionKept(lib, st, a, x, at, cmd, b);
    RanCached(lib, base, v, x, at, cmd);
    FoldGrows(lib, base, ApplyEntry(lib, base, v, x.cmd).v, b);
    CachedGrows(ApplyEntry(lib, base, v, x.cmd).v, w, KeyOf(cmd), q);
    C.StartMetaFree(st);
    F.FoldMetaFree(lib, base, v0, es);
    C.CommitStrips(st, w, es[|es| - 1].index);
  }

  // ---------------------------------------------------------------- a key the store holds

  /** A key with a stored result is never recorded again while the store holds it. */
  lemma OneOut(lib: Strconv, base: Data, v: View, cmd: bytes, k: bytes)
    requires DedupGet(base, k).Some? && k !in v.cached
    ensures var o := ApplyOne(lib, base, v, cmd); o.Done? ==> k !in o.v.cached
  {
    hide ApplyBody, DecodeCommand, FrozenCovers, DedupGet;
    DecodeCommandValid(cmd);
    var o := ApplyOne(lib, base, v, cmd);
    if o.Done? && Shortcut(base, v, DecodeCommand(cmd).value).None? {
      var c := DecodeCommand(cmd).value;
      BodyMoves(lib, base, v, c);
      var w: View :| Aside(v, w) && (o.v == w || (|c.idem| > 0 && o.v == Record(base, w, c.idem, o.r)));
    }
  }

  lemma {:induction false} SubsOut(lib: Strconv, base: Data, v: View, subs: seq<bytes>, k: bytes)
    requires DedupGet(base, k).Some? && k !in v.cached
    ensures var o := ApplySubs(lib, base, v, subs); o.SubDone? ==> k !in o.v.cached
  {
    hide ApplyOne, DedupGet;
    if subs != [] {
      var n := |subs| - 1;
      SubsOut(lib, base, v, subs[..n], k);
      var h := ApplySubs(lib, base, v, subs[..n]);
      if h.SubDone? { OneOut(lib, base, h.v, subs[n], k); }
    }
  }

  lemma EntryOut(lib: Strconv, base: Data, v: View, cmd: bytes, k: bytes)
    requires DedupGet(base, k).Some? && k !in v.cached && !IsMigrate(cmd)
    ensures var o := ApplyEntry(lib, base, v, cmd); o.Done? ==> k !in o.v.cached
  {
    hide ApplyOne, ApplySubs, DecodeBatch, DecodeBounds, DecodeIngest, EncodeBatchResult, DedupGet;
    if IsBatch(cmd) {
      if DecodeBatch(cmd).Some? { SubsOut(lib, base, v, DecodeBatch(cmd).value, k); }
    } else if !IsFreeze(cmd) {
      OneOut(lib, base, v, cmd, k);
    }
  }

  lemma {:induction false} FoldOut(lib: Strconv, base: Data, v: View, es: seq<Entry>, k: bytes)
    requires DedupGet(base, k).Some? && k !in v.cached && NoMigrate(es)
    ensures k !in Fold(lib, base, v, es).cached
  {
    hide ApplyEntry, IsMigrate, DedupGet;
    if es != [] {
      var n := |es| - 1;
      FoldOut(lib, base, v, es[..n], k);
      EntryOut(lib, base, Fold(lib, base, v, es[..n]), es[n].cmd, k);
    }
  }

  lemma StoredAgain(lib: Strconv, base: Data, v: View, cmd: bytes, q: PResult)
    requires DecodeCommand(cmd).Some? && KeyOf(cmd) !in v.cached
    requires |KeyOf(cmd)| > 0 && DedupGet(base, KeyOf(cmd)) == Some(q)
    requires var c := DecodeCommand(cmd).value; !FrozenCovers(base, RouteKey(Coll(c.ns, c.coll)))
    ensures ApplyOne(lib, base, v, cmd) == Done(v, q)
  {
    hide ApplyBody, DecodeCommand, FrozenCovers, DedupGet;
  }

  /** A keyed command outside every frozen range, wherever it stands in an Update whose base holds its key, in an
      entry of its own or in the middle of any batch, gets the stored result and might as well be absent. */
  lemma ReplayIsInert(lib: Strconv, st: Data, es: seq<Entry>, x: Entry, at: Spot, cmd: bytes, d: seq<Entry>, q: PResult)
    requires NoMigrate(es) && NoMigrate(d) && Carries(x, cmd, at) && Retries(Strip(st), cmd, cmd)
    requires |KeyOf(cmd)| > 0 && DedupGet(Strip(st), KeyOf(cmd)) == Some(q)
    ensures Absent(lib, st, es, x, at, cmd, d, q)
  {
    hide ApplyOne, ApplySubs, Fold, DecodeCommand, DecodeBatch, DedupGet, FrozenCovers, Strip, Inert, Absent, Carries,
      NoMigrate;
    var base := Strip(st);
    var v := Fold(lib, base, Start(st), es);
    FoldOut(lib, base, Start(st), es, KeyOf(cmd));
    var h := Before(lib, base, v, at);
    if h.SubDone? {
      if at.Within? { SubsOut(lib, base, v, at.before, KeyOf(cmd)); }
      StoredAgain(lib, base, h.v, cmd, q);
    }
    InertEntry(lib, base, v, x, at, cmd, q);
    InertAbsent(lib, st, es, x, at, cmd, d, q);
  }

  /** Exactly-once within the window: after any run with fewer than 4096 newer keys, replaying a recorded key
      anywhere returns the original value and data and has no effect. */
  lemma ReplayAfterRun(lib: Strconv, st: Data, batches: seq<seq<Entry>>, p: nat, st': Data, es: seq<Entry>, x: Entry,
                       at: Spot, cmd: bytes, d: seq<Entry>, q: PResult)
    requires Sane(st) && ModestRun(lib, st, batches) && st' == After(lib, st, batches) && SeqOf(st') <= p + RING_SIZE
    requires NoMigrate(es) && NoMigrate(d) && Carries(x, cmd, at) && Retries(Strip(st'), cmd, cmd)
    requires |KeyOf(cmd)| > 0 && Recorded(st, p, KeyOf(cmd), q)
    ensures Absent(lib, st', es, x, at, cmd, d, q)
  {
    hide Strip, Sane, DecodeCommand, FrozenCovers, SeqOf, After, ModestRun, Absent, Carries, NoMigrate, KeyAt, DedupGet;
    RunsRemember(lib, st, batches, p, KeyOf(cmd), q);
    ReplayIsInert(lib, st', es, x, at, cmd, d, q);
  }

  /** st' is reached from the Update of es on st by further Updates. */
  ghost predicate Later(lib: Strconv, st: Data, es: seq<Entry>, batches: seq<seq<Entry>>, st': Data)
  {
    NoMigrate(es) && ModestRun(lib, Update(lib, st, es), batches) && st' == After(lib, Update(lib, st, es), batches)
  }

  /** Exactly once, as two callers see it: a command runs in one Update; any Updates follow, recording fewer than 4096
      newer keys; then its key is retried anywhere in another Update. Each is a log entry of its own or any sub-command
      of a coalesced one. The retry is answered with the bytes the first was answered with, and its Update goes on as
      if it were absent. */
  lemma RetryGetsFirstAnswer(lib: Strconv, st: Data, a: seq<Entry>, x: Entry, at: Spot, first: bytes, b: seq<Entry>,
                             batches: seq<seq<Entry>>, st': Data, c: seq<Entry>, y: Entry, bt: Spot, again: bytes,
                             d: seq<Entry>)
    requires Sane(st) && RanIn(lib, st, a, x, at, first, b) && Later(lib, st, a + [x] + b, batches, st')
    requires SeqOf(st') <= PlaceOf(lib, Strip(st), Fold(lib, Strip(st), Start(st), a), at) + RING_SIZE
    requires NoMigrate(c) && NoMigrate(d) && Carries(y, again, bt) && Retries(Strip(st'), first, again)
    ensures var q := Answer(lib, Strip(st), Fold(lib, Strip(st), Start(st), a), at, first);
      Served(lib, st, a, x, at, first, b, q) && Absent(lib, st', c, y, bt, again, d, q)
  {
    hide ApplyOne, ApplyEntry, ApplySubs, Fold, Results, DecodeCommand, FrozenCovers, Strip, IsMigrate, Update,
      Recorded, Sane, SeqOf, After, ModestRun, Modest, Served, Absent, Before, PlaceOf, Answer, Carries, NoMigrate;
    var v := Fold(lib, Strip(st), Start(st), a);
    RecordedAfter(lib, st, a, x, at, first, b);
    RanCached(lib, Strip(st), v, x, at, first);
    UpdateSane(lib, st, a + [x] + b);
    ReplayAfterRun(lib, Update(lib, st, a + [x] + b), batches, PlaceOf(lib, Strip(st), v, at), st', c, y, bt, again, d,
      Answer(lib, Strip(st), v, at, first));
  }
}
