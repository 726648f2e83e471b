/** Conflict resolution of replicated records (internal/conflict, internal/version): the version order, the
    two resolvers, and convergence when survivors are fed back as the existing records. */
module Conflict {
  import opened Bytes

  /** Identifiers are byte strings, compared as such. */
  datatype Version = Version(physicalMs: nat, logical: nat, cluster: bytes, member: bytes, sequence: nat)

  datatype Record = Record(v: Version, tombstone: bool, payload: bytes)

  function CmpNat(a: nat, b: nat): int { if a < b then -1 else if a > b then 1 else 0 }

  function CmpBytes(a: bytes, b: bytes): int { if a == b then 0 else if Less(a, b) then -1 else 1 }

  /** hlc-last-write-wins: the clock pair first, the writer as tie-break. */
  function Compare(a: Version, b: Version): int
  {
    if a.physicalMs != b.physicalMs then CmpNat(a.physicalMs, b.physicalMs)
    else if a.logical != b.logical then CmpNat(a.logical, b.logical)
    else if a.cluster != b.cluster then CmpBytes(a.cluster, b.cluster)
    else if a.member != b.member then CmpBytes(a.member, b.member)
    else CmpNat(a.sequence, b.sequence)
  }

  /** Versions are totally ordered. */
  lemma CompareTotal(a: Version, b: Version)
    ensures Compare(a, b) == 0 <==> a == b
    ensures Compare(a, b) == -Compare(b, a)
  {
    LessTotal(a.cluster, b.cluster);
    LessTotal(a.member, b.member);
    hide Less;
  }

  lemma BytesTransitive(a: bytes, b: bytes, c: bytes)
    requires CmpBytes(a, b) <= 0 && CmpBytes(b, c) <= 0
    ensures CmpBytes(a, c) <= 0 && (CmpBytes(a, c) == 0 ==> a == b && b == c)
  {
    LessTotal(a, b);
    LessTotal(b, c);
    hide Less;
    if a != b && b != c {
      LessTransitive(a, b, c);
      LessTotal(a, c);
    }
  }

  lemma CompareTransitive(a: Version, b: Version, c: Version)
    requires Compare(a, b) <= 0 && Compare(b, c) <= 0
    ensures Compare(a, c) <= 0
  {
    hide Less;
    if CmpBytes(a.cluster, b.cluster) <= 0 && CmpBytes(b.cluster, c.cluster) <= 0 {
      BytesTransitive(a.cluster, b.cluster, c.cluster);
    }
    if CmpBytes(a.member, b.member) <= 0 && CmpBytes(b.member, c.member) <= 0 {
      BytesTransitive(a.member, b.member, c.member);
    }
  }

  /** a is later than b, field by field: a higher clock pair, or under equal clocks the later cluster, member and
      sequence in turn. */
  ghost predicate Later(a: Version, b: Version)
  {
    || a.physicalMs > b.physicalMs
    || (a.physicalMs == b.physicalMs && (a.logical > b.logical || (a.logical == b.logical && LaterWriter(a, b))))
  }

  ghost predicate LaterWriter(a: Version, b: Version)
  {
    || Less(b.cluster, a.cluster)
    || (a.cluster == b.cluster &&
        (Less(b.member, a.member) || (a.member == b.member && a.sequence > b.sequence)))
  }

  /** Compare is positive exactly for the later version and negative exactly for the earlier. */
  lemma CompareMeans(a: Version, b: Version)
    ensures Compare(a, b) > 0 <==> Later(a, b)
    ensures Compare(a, b) < 0 <==> Later(b, a)
  {
    LessTotal(a.cluster, b.cluster);
    LessTotal(a.member, b.member);
    hide Less;
  }

  datatype Result = Reject | Winner(record: Record) | Tombstone(record: Record) | Siblings(records: seq<Record>)

  function Single(r: Record): Result { if r.tombstone then Tombstone(r) else Winner(r) }

  function Present(rs: seq<Option<Record>>): seq<Record>
  {
    if rs == [] then [] else
    var r := rs[|rs| - 1];
    Present(rs[..|rs| - 1]) + if r.Some? then [r.value] else []
  }

  lemma PresentNext(rs: seq<Option<Record>>, i: nat)
    requires i < |rs|
    ensures rs[i].Some? ==> Present(rs[..i + 1]) == Present(rs[..i]) + [rs[i].value]
    ensures rs[i].None? ==> Present(rs[..i + 1]) == Present(rs[..i])
  {
    assert rs[..i + 1][..i] == rs[..i];
  }

  lemma {:induction false} PresentHas(rs: seq<Option<Record>>, r: Record)
    ensures r in Present(rs) <==> Some(r) in rs
  {
    if rs != [] {
      PresentHas(rs[..|rs| - 1], r);
      assert rs == rs[..|rs| - 1] + [rs[|rs| - 1]];
    }
  }

  /** A delivered record with none later. */
  ghost predicate Latest(r: Record, existing: seq<Option<Record>>, incoming: Option<Record>)
  {
    && (Some(r) in existing || incoming == Some(r))
    && (forall i :: 0 <= i < |existing| && existing[i].Some? ==> !Later(existing[i].value.v, r.v))
    && (incoming.Some? ==> !Later(incoming.value.v, r.v))
  }

  // ---------------------------------------------------------------- last write wins

  /** The record that stands after the existing ones challenged cur; ties keep cur. */
  function Standing(cur: Option<Record>, rs: seq<Record>): Option<Record>
  {
    if rs == [] then cur else
    var h := Standing(cur, rs[..|rs| - 1]);
    var e := rs[|rs| - 1];
    if h.None? || Compare(e.v, h.value.v) > 0 then Some(e) else h
  }

  lemma StandingNext(cur: Option<Record>, rs: seq<Record>, e: Record)
    ensures var h := Standing(cur, rs);
      Standing(cur, rs + [e]) == if h.None? || Compare(e.v, h.value.v) > 0 then Some(e) else h
  {
    hide Compare;
    assert (rs + [e])[..|rs|] == rs;
  }

  method ResolveLww(existing: seq<Option<Record>>, incoming: Option<Record>) returns (res: Result)
    ensures var w := Standing(incoming, Present(existing));
      res == if w.None? then Reject else Single(w.value)
    ensures res.Reject? <==> incoming.None? && forall i :: 0 <= i < |existing| ==> existing[i].None?
    ensures !res.Reject? ==> !res.Siblings? && Latest(res.record, existing, incoming)
    ensures !res.Reject? ==> (res.Tombstone? <==> res.record.tombstone)
    ensures incoming.Some? && Latest(incoming.value, existing, incoming) ==> res.record == incoming.value
  {
    StandingLatest(existing, incoming);
    assert Standing(incoming, Present(existing[..0])) == incoming;
    hide Compare, Latest, Standing, Present;
    var winner := incoming;
    for i := 0 to |existing|
      invariant winner == Standing(incoming, Present(existing[..i]))
    {
      PresentNext(existing, i);
      var e := existing[i];
      if e.Some? {
        StandingNext(incoming, Present(existing[..i]), e.value);
        if winner.None? || Compare(e.value.v, winner.value.v) > 0 { winner := e; }
      }
    }
    assert existing[..|existing|] == existing;
    if winner.None? { return Reject; }
    return Single(winner.value);
  }

  lemma {:induction false} StandingTop(cur: Option<Record>, rs: seq<Record>)
    ensures var w := Standing(cur, rs);
      && (w.None? <==> cur.None? && rs == [])
      && (w.Some? ==>
          && (cur == w || w.value in rs)
          && (cur.Some? ==> Compare(cur.value.v, w.value.v) <= 0)
          && (forall i :: 0 <= i < |rs| ==> Compare(rs[i].v, w.value.v) <= 0))
      && (cur.Some? && (forall i :: 0 <= i < |rs| ==> Compare(rs[i].v, cur.value.v) <= 0) ==> w == cur)
  {
    hide Compare;
    if rs == [] {
      if cur.Some? { CompareTotal(cur.value.v, cur.value.v); }
    } else {
      var n := |rs| - 1;
      StandingTop(cur, rs[..n]);
      var h := Standing(cur, rs[..n]);
      CompareTotal(rs[n].v, rs[n].v);
      if h.Some? {
        CompareTotal(rs[n].v, h.value.v);
        forall i | 0 <= i < n && Compare(rs[n].v, h.value.v) > 0 ensures Compare(rs[i].v, rs[n].v) <= 0
        {
          assert rs[i] == rs[..n][i];
          CompareTransitive(rs[i].v, h.value.v, rs[n].v);
        }
        if cur.Some? && Compare(rs[n].v, h.value.v) > 0 { CompareTransitive(cur.value.v, h.value.v, rs[n].v); }
      }
      assert forall i :: 0 <= i < n ==> rs[..n][i] == rs[i];
    }
  }

  lemma StandingLatest(existing: seq<Option<Record>>, incoming: Option<Record>)
    ensures var w := Standing(incoming, Present(existing));
      && (w.None? <==> incoming.None? && forall i :: 0 <= i < |existing| ==> existing[i].None?)
      && (w.Some? ==> Latest(w.value, existing, incoming))
      && (incoming.Some? && Latest(incoming.value, existing, incoming) ==> w == incoming)
  {
    hide Compare, Later, Standing, Present;
    var rs := Present(existing);
    var w := Standing(incoming, rs);
    StandingTop(incoming, rs);
    forall r ensures r in rs <==> Some(r) in existing { PresentHas(existing, r); }
    forall i | 0 <= i < |existing| && existing[i].Some? ensures existing[i].value in rs
    {
      assert existing[i] in existing;
    }
    if w.Some? {
      forall r | r in rs ensures !Later(r.v, w.value.v) { CompareMeans(r.v, w.value.v); }
      if incoming.Some? { CompareMeans(incoming.value.v, w.value.v); }
    }
    if incoming.Some? && Latest(incoming.value, existing, incoming) {
      forall i | 0 <= i < |rs| ensures Compare(rs[i].v, incoming.value.v) <= 0
      {
        assert rs[i] in rs && Some(rs[i]) in existing;
        var k :| 0 <= k < |existing| && existing[k] == Some(rs[i]);
        CompareMeans(rs[i].v, incoming.value.v);
      }
    }
    if rs == [] { forall i | 0 <= i < |existing| ensures existing[i].None? { } }
    if rs != [] { assert rs[0] in rs && Some(rs[0]) in existing; }
  }

  /** The survivor after the deliveries ds, each resolved against the previous survivor. */
  function Survivor(ds: seq<Record>): Option<Record>
  {
    if ds == [] then None else
    var h := Survivor(ds[..|ds| - 1]);
    Standing(Some(ds[|ds| - 1]), if h.Some? then [h.value] else [])
  }

  ghost predicate Top(r: Record, ds: seq<Record>)
  {
    r in ds && forall i :: 0 <= i < |ds| ==> Compare(ds[i].v, r.v) <= 0
  }

  lemma SurvivorStep(ds: seq<Record>)
    requires |ds| > 0
    ensures var n := |ds| - 1; var h := Survivor(ds[..n]);
      Survivor(ds) == if h.Some? && Compare(h.value.v, ds[n].v) > 0 then h else Some(ds[n])
  {
    hide Compare;
    var h := Survivor(ds[..|ds| - 1]);
    if h.Some? {
      var one := [h.value];
      assert one[..0] == [];
      assert Standing(Some(ds[|ds| - 1]), one[..0]) == Some(ds[|ds| - 1]);
    }
  }

  lemma {:induction false} SurvivorIsTop(ds: seq<Record>)
    requires ds != []
    ensures Survivor(ds).Some? && Top(Survivor(ds).value, ds)
  {
    hide Compare;
    var n := |ds| - 1;
    SurvivorStep(ds);
    CompareTotal(ds[n].v, ds[n].v);
    if n > 0 {
      SurvivorIsTop(ds[..n]);
      var h := Survivor(ds[..n]).value;
      CompareTotal(h.v, ds[n].v);
      forall i | 0 <= i < n ensures Compare(ds[i].v, Survivor(ds).value.v) <= 0
      {
        assert ds[i] == ds[..n][i];
        if Compare(h.v, ds[n].v) <= 0 { CompareTransitive(ds[i].v, h.v, ds[n].v); }
      }
    }
  }

  /** After any deliveries the survivor is one of them, and none of them is later. */
  lemma SurvivorLatest(ds: seq<Record>, i: nat)
    requires i < |ds|
    ensures Survivor(ds).Some? && Survivor(ds).value in ds && !Later(ds[i].v, Survivor(ds).value.v)
  {
    hide Compare, Later;
    SurvivorIsTop(ds);
    CompareMeans(ds[i].v, Survivor(ds).value.v);
  }

  ghost predicate SameRecords(a: seq<Record>, b: seq<Record>) { forall r :: r in a <==> r in b }

  /** No other record carries the highest version. */
  ghost predicate OneTop(ds: seq<Record>) { forall r, s :: Top(r, ds) && Top(s, ds) ==> r == s }

  /** Last-write-wins converges: deliveries of the same records, in any order and with any repetition, end
      in the one record with the highest version. */
  lemma LwwConverges(a: seq<Record>, b: seq<Record>)
    requires SameRecords(a, b) && OneTop(a)
    ensures Survivor(a) == Survivor(b)
  {
    hide Compare;
    assert a != [] ==> a[0] in a;
    if b != [] {
      assert b[0] in a;
      SurvivorIsTop(a);
      SurvivorIsTop(b);
      var s := Survivor(b).value;
      forall i | 0 <= i < |a| ensures Compare(a[i].v, s.v) <= 0 { assert a[i] in b; }
      assert Top(s, a);
    }
  }

  /** ... and only then: two records sharing the highest version win in turn. */
  lemma LwwNeedsOneTop(ds: seq<Record>, r: Record, s: Record)
    requires Top(r, ds) && Top(s, ds) && r != s
    ensures SameRecords(ds + [r], ds + [s]) && Survivor(ds + [r]) != Survivor(ds + [s])
  {
    hide Compare;
    LastTopWins(ds, r);
    LastTopWins(ds, s);
  }

  lemma LastTopWins(ds: seq<Record>, r: Record)
    requires Top(r, ds)
    ensures Survivor(ds + [r]) == Some(r)
  {
    hide Compare;
    assert (ds + [r])[..|ds|] == ds;
    SurvivorStep(ds + [r]);
    SurvivorIsTop(ds);
  }

  // ---------------------------------------------------------------- keep siblings

  /** The writer's map key; identifiers with a zero byte may share one. */
  function Writer(r: Record): bytes { r.v.cluster + [0] + r.v.member }

  /** s's cluster name goes on where r's ends, past a zero byte, with what r's member name begins with. */
  ghost predicate RunsOn(r: Record, s: Record, x: bytes)
  {
    s.v.cluster == r.v.cluster + [0] + x && r.v.member == x + [0] + s.v.member
  }

  lemma RunsOnBetween(r: Record, s: Record) returns (x: bytes)
    requires Writer(r) == Writer(s) && |r.v.cluster| < |s.v.cluster|
    ensures RunsOn(r, s, x)
  {
    var a, b, w := r.v.cluster, s.v.cluster, Writer(r);
    x := b[|a| + 1..];
    assert w[..|a|] == a && w[..|b|] == b && w[|a|] == 0;
    assert b[|a|] == w[|a|];
    assert b == b[..|a|] + [b[|a|]] + x && b[..|a|] == w[..|a|];
    assert r.v.member == w[|a| + 1..] && s.v.member == w[|b| + 1..] && w[|b|] == 0;
    assert r.v.member == w[|a| + 1..|b|] + [w[|b|]] + w[|b| + 1..];
    assert w[|a| + 1..|b|] == x;
  }

  /** The key tells writers apart, but for names that run on into each other past a zero byte. */
  lemma WriterMeans(r: Record, s: Record)
    ensures Writer(r) == Writer(s) <==>
      || (r.v.cluster == s.v.cluster && r.v.member == s.v.member)
      || (exists x :: RunsOn(r, s, x))
      || (exists x :: RunsOn(s, r, x))
  {
    var a, b := r.v.cluster, s.v.cluster;
    if Writer(r) == Writer(s) {
      if |a| == |b| {
        assert Writer(r)[..|a|] == a && Writer(s)[..|b|] == b;
        assert Writer(r)[|a| + 1..] == r.v.member && Writer(s)[|b| + 1..] == s.v.member;
      } else if |a| < |b| {
        var x := RunsOnBetween(r, s);
      } else {
        var x := RunsOnBetween(s, r);
      }
    }
    if x :| RunsOn(r, s, x) { assert Writer(r) == a + [0] + (x + [0] + s.v.member); }
    if x :| RunsOn(s, r, x) { assert Writer(s) == b + [0] + (x + [0] + r.v.member); }
  }

  function Consider(m: map<bytes, Record>, r: Record): map<bytes, Record>
  {
    var w := Writer(r);
    if w !in m || Compare(r.v, m[w].v) > 0 then m[w := r] else m
  }

  function ByWriter(rs: seq<Record>): map<bytes, Record>
  {
    if rs == [] then map[] else Consider(ByWriter(rs[..|rs| - 1]), rs[|rs| - 1])
  }

  lemma ByWriterNext(rs: seq<Record>, r: Record)
    ensures ByWriter(rs + [r]) == Consider(ByWriter(rs), r)
  {
    hide Consider;
    assert (rs + [r])[..|rs|] == rs;
  }

  ghost predicate Increasing(s: seq<Record>)
  {
    forall i, j :: 0 <= i < j < |s| ==> Compare(s[i].v, s[j].v) < 0
  }

  /** s lists the map's records in version order. */
  ghost predicate Lists(s: seq<Record>, m: map<bytes, Record>)
  {
    && Increasing(s)
    && (forall i :: 0 <= i < |s| ==> Writer(s[i]) in m && m[Writer(s[i])] == s[i])
    && (forall w :: w in m ==> m[w] in s)
  }

  ghost predicate Keyed(m: map<bytes, Record>) { forall w :: w in m ==> Writer(m[w]) == w }

  lemma {:induction false} ByWriterKeyed(rs: seq<Record>)
    ensures Keyed(ByWriter(rs))
  {
    hide Compare;
    if rs != [] { ByWriterKeyed(rs[..|rs| - 1]); }
  }

  /** Inserts r into a list in version order. */
  method Insert(s: seq<Record>, r: Record) returns (out: seq<Record>)
    requires Increasing(s) && forall i :: 0 <= i < |s| ==> s[i].v != r.v
    ensures Increasing(out) && forall x :: x in out <==> x in s || x == r
  {
    hide Compare;
    var k := 0;
    while k < |s| && Compare(s[k].v, r.v) < 0
      invariant 0 <= k <= |s| && forall i :: 0 <= i < k ==> Compare(s[i].v, r.v) < 0
    {
      k := k + 1;
    }
    out := s[..k] + [r] + s[k..];
    forall i | k <= i < |s| ensures Compare(r.v, s[i].v) < 0
    {
      CompareTotal(s[k].v, r.v);
      if i > k { CompareLess(r.v, s[k].v, s[i].v); }
    }
  }

  lemma CompareLess(a: Version, b: Version, c: Version)
    requires Compare(a, b) < 0 && Compare(b, c) < 0
    ensures Compare(a, c) < 0
  {
    hide Compare;
    CompareTransitive(a, b, c);
    CompareTotal(a, c);
    CompareTotal(a, b);
  }

  /** Collects the map's values and sorts them. Distinct writers never tie. */
  method SortedValues(m: map<bytes, Record>) returns (s: seq<Record>)
    requires Keyed(m)
    ensures Lists(s, m)
  {
    hide Compare;
    s := [];
    var left := m.Keys;
    while left != {}
      invariant left <= m.Keys && Increasing(s)
      invariant forall x :: x in s <==> exists w :: w in m && w !in left && m[w] == x
      decreases |left|
    {
      var w :| w in left;
      forall i | 0 <= i < |s| ensures s[i].v != m[w].v
      {
        assert s[i] in s;
        var u :| u in m && u !in left && m[u] == s[i];
      }
      s := Insert(s, m[w]);
      left := left - {w};
    }
    forall i | 0 <= i < |s| ensures Writer(s[i]) in m && m[Writer(s[i])] == s[i] { assert s[i] in s; }
  }

  /** KeepSiblings.Resolve. */
  method ResolveSiblings(existing: seq<Option<Record>>, incoming: Option<Record>)
    returns (res: Result, sibs: seq<Record>)
    ensures Lists(sibs, ByWriter(Present(existing + [incoming])))
    ensures res == if |sibs| == 0 then Reject else if |sibs| == 1 then Single(sibs[0]) else Siblings(sibs)
    ensures |sibs| == 1 ==> res.Tombstone? || res.Winner?
    ensures |sibs| == 1 ==> (res.Tombstone? <==> sibs[0].tombstone)
    ensures forall i :: 0 <= i < |sibs| ==> Kept(sibs[i], existing + [incoming])
    ensures forall r :: Some(r) in existing + [incoming] ==> exists i :: 0 <= i < |sibs| && Writer(sibs[i]) == Writer(r)
    ensures forall i, j :: 0 <= i < j < |sibs| ==> Later(sibs[j].v, sibs[i].v) && Writer(sibs[i]) != Writer(sibs[j])
  {
    hide Compare, Later, Kept, Writer;
    var all := existing + [incoming];
    var m: map<bytes, Record> := map[];
    for i := 0 to |all|
      invariant m == ByWriter(Present(all[..i]))
    {
      PresentNext(all, i);
      if all[i].Some? {
        ByWriterNext(Present(all[..i]), all[i].value);
        m := Consider(m, all[i].value);
      }
    }
    assert all[..|all|] == all;
    ByWriterKeyed(Present(all));
    sibs := SortedValues(m);
    SiblingsMean(sibs, all);
    if |sibs| == 0 { res := Reject; }
    else if |sibs| == 1 { res := Single(sibs[0]); }
    else { res := Siblings(sibs); }
  }

  /** A delivered record, and none of its writer is later. */
  ghost predicate Kept(r: Record, all: seq<Option<Record>>)
  {
    Some(r) in all && forall s :: Some(s) in all && Writer(s) == Writer(r) ==> !Later(s.v, r.v)
  }

  lemma SiblingsMean(sibs: seq<Record>, all: seq<Option<Record>>)
    requires Lists(sibs, ByWriter(Present(all)))
    ensures forall i :: 0 <= i < |sibs| ==> Kept(sibs[i], all)
    ensures forall r :: Some(r) in all ==> exists i :: 0 <= i < |sibs| && Writer(sibs[i]) == Writer(r)
    ensures forall i, j :: 0 <= i < j < |sibs| ==> Later(sibs[j].v, sibs[i].v) && Writer(sibs[i]) != Writer(sibs[j])
  {
    hide Compare, Later, ByWriter, Present, Writer;
    var rs := Present(all);
    var m := ByWriter(rs);
    ByWriterKeyed(rs);
    forall r ensures r in rs <==> Some(r) in all { PresentHas(all, r); }
    forall i | 0 <= i < |sibs| ensures Kept(sibs[i], all)
    {
      ByWriterTops(rs, Writer(sibs[i]));
      TopKept(sibs[i], rs, all);
    }
    forall r | Some(r) in all ensures exists i :: 0 <= i < |sibs| && Writer(sibs[i]) == Writer(r)
    {
      ByWriterTops(rs, Writer(r));
      assert m[Writer(r)] in sibs;
    }
    forall i, j | 0 <= i < j < |sibs| ensures Later(sibs[j].v, sibs[i].v) && Writer(sibs[i]) != Writer(sibs[j])
    {
      CompareMeans(sibs[i].v, sibs[j].v);
      CompareTotal(sibs[i].v, sibs[j].v);
    }
  }

  lemma TopKept(r: Record, rs: seq<Record>, all: seq<Option<Record>>)
    requires WriterTop(r, rs, Writer(r)) && forall s :: s in rs <==> Some(s) in all
    ensures Kept(r, all)
  {
    hide Compare, Later, Writer;
    forall s | Some(s) in all && Writer(s) == Writer(r) ensures !Later(s.v, r.v)
    {
      var k :| 0 <= k < |rs| && rs[k] == s;
      CompareMeans(s.v, r.v);
    }
  }

  /** What the map holds: for each writer seen, a record of that writer that no other one beats. */
  lemma {:induction false} ByWriterTops(rs: seq<Record>, w: bytes)
    ensures w in ByWriter(rs) <==> exists i :: 0 <= i < |rs| && Writer(rs[i]) == w
    ensures w in ByWriter(rs) ==> WriterTop(ByWriter(rs)[w], rs, w)
  {
    hide Compare;
    if rs != [] {
      var n := |rs| - 1;
      var h, r := ByWriter(rs[..n]), rs[n];
      ByWriterTops(rs[..n], w);
      assert forall i :: 0 <= i < n ==> rs[i] == rs[..n][i];
      if Writer(r) == w {
        CompareTotal(r.v, r.v);
        if w in h { StillTop(h[w], rs, w); }
      }
    }
  }

  ghost predicate WriterTop(r: Record, rs: seq<Record>, w: bytes)
  {
    r in rs && Writer(r) == w && forall i :: 0 <= i < |rs| && Writer(rs[i]) == w ==> Compare(rs[i].v, r.v) <= 0
  }

  lemma StillTop(h: Record, rs: seq<Record>, w: bytes)
    requires rs != [] && WriterTop(h, rs[..|rs| - 1], w) && Writer(rs[|rs| - 1]) == w
    ensures WriterTop(if Compare(rs[|rs| - 1].v, h.v) > 0 then rs[|rs| - 1] else h, rs, w)
  {
    hide Compare;
    var n := |rs| - 1;
    CompareTotal(rs[n].v, rs[n].v);
    CompareTotal(rs[n].v, h.v);
    forall i | 0 <= i < n && Writer(rs[i]) == w && Compare(rs[n].v, h.v) > 0 ensures Compare(rs[i].v, rs[n].v) <= 0
    {
      assert rs[i] == rs[..n][i];
      CompareTransitive(rs[i].v, h.v, rs[n].v);
    }
    assert forall i :: 0 <= i < n ==> rs[i] == rs[..n][i];
  }

  // ---------------------------------------------------------------- survivors fed back

  /** Survivors as existing records rebuild the map they came from. */
  lemma Refeed(s: seq<Record>, m: map<bytes, Record>)
    requires Lists(s, m) && Keyed(m)
    ensures ByWriter(s) == m
  {
    hide Compare, ByWriter, Writer;
    forall w ensures w in ByWriter(s) <==> w in m
    {
      ByWriterTops(s, w);
      if w in m { var i :| 0 <= i < |s| && s[i] == m[w]; }
    }
    forall w | w in m ensures ByWriter(s)[w] == m[w] { ByWriterTops(s, w); }
  }

  lemma {:induction false} ListsUnique(a: seq<Record>, b: seq<Record>)
    requires Increasing(a) && Increasing(b) && forall r :: r in a <==> r in b
    ensures a == b
    decreases |a|
  {
    hide Compare;
    assert (a != [] ==> a[0] in a) && (b != [] ==> b[0] in b);
    if a != [] {
      var n, k := |a| - 1, |b| - 1;
      SameLast(a, b);
      forall r ensures r in a[..n] <==> r in b[..k]
      {
        NotLast(a, r);
        NotLast(b, r);
      }
      ListsUnique(a[..n], b[..k]);
      assert a == a[..n] + [a[n]] && b == b[..k] + [b[k]];
    }
  }

  lemma NotLast(a: seq<Record>, r: Record)
    requires Increasing(a) && a != []
    ensures r in a[..|a| - 1] <==> r in a && r != a[|a| - 1]
  {
    hide Compare;
    var n := |a| - 1;
    if r in a[..n] {
      var i :| 0 <= i < n && a[..n][i] == r;
      CompareTotal(a[i].v, a[n].v);
    }
    if r in a && r != a[n] {
      var i :| 0 <= i < |a| && a[i] == r;
      assert a[..n][i] == r;
    }
  }

  lemma SameLast(a: seq<Record>, b: seq<Record>)
    requires Increasing(a) && Increasing(b) && a != [] && b != [] && forall r :: r in a <==> r in b
    ensures a[|a| - 1] == b[|b| - 1]
  {
    hide Compare;
    var x, y := a[|a| - 1], b[|b| - 1];
    assert x in b && y in a;
    var i :| 0 <= i < |b| && b[i] == x;
    var j :| 0 <= j < |a| && a[j] == y;
    CompareTotal(x.v, y.v);
  }

  /** ResolveSiblings of the survivors prev and the record r leaves out. */
  ghost predicate Resolved(prev: seq<Record>, r: Record, out: seq<Record>) { Lists(out, ByWriter(prev + [r])) }

  /** out is the list of survivors after the deliveries ds. */
  ghost predicate Delivered(ds: seq<Record>, out: seq<Record>)
    decreases |ds|
  {
    if ds == [] then out == [] else
    var h, r := ds[..|ds| - 1], ds[|ds| - 1];
    exists prev :: Delivered(h, prev) && Resolved(prev, r, out)
  }

  /** Feeding survivors back loses nothing: they list the per-writer maxima of all deliveries so far. */
  lemma {:induction false} DeliveredLists(ds: seq<Record>, out: seq<Record>)
    requires Delivered(ds, out)
    ensures Lists(out, ByWriter(ds))
  {
    hide Compare;
    if ds != [] {
      var n := |ds| - 1;
      var prev :| Delivered(ds[..n], prev) && Resolved(prev, ds[n], out);
      DeliveredLists(ds[..n], prev);
      ByWriterKeyed(ds[..n]);
      Refeed(prev, ByWriter(ds[..n]));
      ByWriterNext(prev, ds[n]);
    }
  }

  /** Each writer's highest version is carried by one record only. */
  ghost predicate OneTopPerWriter(ds: seq<Record>)
  {
    forall r, s, w :: WriterTop(r, ds, w) && WriterTop(s, ds, w) ==> r == s
  }

  lemma SameMap(a: seq<Record>, b: seq<Record>)
    requires SameRecords(a, b) && OneTopPerWriter(a)
    ensures ByWriter(a) == ByWriter(b)
  {
    hide Compare, ByWriter;
    forall w ensures w in ByWriter(a) <==> w in ByWriter(b)
    {
      ByWriterTops(a, w);
      ByWriterTops(b, w);
      if i :| 0 <= i < |a| && Writer(a[i]) == w { assert a[i] in b; }
      if i :| 0 <= i < |b| && Writer(b[i]) == w { assert b[i] in a; }
    }
    forall w | w in ByWriter(a) ensures ByWriter(a)[w] == ByWriter(b)[w]
    {
      ByWriterTops(a, w);
      ByWriterTops(b, w);
      TopAcross(ByWriter(b)[w], b, a, w);
    }
  }

  lemma TopAcross(r: Record, b: seq<Record>, a: seq<Record>, w: bytes)
    requires SameRecords(a, b) && WriterTop(r, b, w)
    ensures WriterTop(r, a, w)
  {
    hide Compare;
    forall i | 0 <= i < |a| && Writer(a[i]) == w ensures Compare(a[i].v, r.v) <= 0 { assert a[i] in b; }
  }

  /** Keep-siblings converges: deliveries of the same records, in any order and with any repetition, end in
      the same list, one maximum record per writer in version order. */
  lemma SiblingsConverge(a: seq<Record>, b: seq<Record>, out: seq<Record>, out': seq<Record>)
    requires SameRecords(a, b) && OneTopPerWriter(a) && Delivered(a, out) && Delivered(b, out')
    ensures out == out'
    ensures forall i :: 0 <= i < |out| ==> WriterTop(out[i], a, Writer(out[i]))
    ensures forall i :: 0 <= i < |a| ==> exists k :: 0 <= k < |out| && Writer(out[k]) == Writer(a[i])
  {
    hide Compare, ByWriter, Delivered;
    DeliveredLists(a, out);
    DeliveredLists(b, out');
    SameMap(a, b);
    var m := ByWriter(a);
    ByWriterKeyed(a);
    ListsUnique(out, out');
    forall i | 0 <= i < |out| ensures WriterTop(out[i], a, Writer(out[i])) { ByWriterTops(a, Writer(out[i])); }
    forall i | 0 <= i < |a| ensures exists k :: 0 <= k < |out| && Writer(out[k]) == Writer(a[i])
    {
      ByWriterTops(a, Writer(a[i]));
      assert m[Writer(a[i])] in out;
    }
  }

  /** ... and only then: of two records sharing a writer's highest version the first delivered survives. */
  lemma SiblingsNeedOneTop(ds: seq<Record>, r: Record, s: Record, w: bytes, out: seq<Record>, out': seq<Record>)
    requires WriterTop(r, ds, w) && WriterTop(s, ds, w) && r != s
    requires Delivered([r] + ds, out) && Delivered([s] + ds, out')
    ensures SameRecords([r] + ds, [s] + ds) && out != out'
  {
    hide Compare, ByWriter, Delivered;
    DeliveredLists([r] + ds, out);
    DeliveredLists([s] + ds, out');
    FirstTopStays(ds, r, w, |ds|);
    FirstTopStays(ds, s, w, |ds|);
    assert ds[..|ds|] == ds;
    assert r in out && s in out';
  }

  lemma {:induction false} FirstTopStays(ds: seq<Record>, r: Record, w: bytes, k: nat)
    requires WriterTop(r, ds, w) && k <= |ds|
    ensures w in ByWriter([r] + ds[..k]) && ByWriter([r] + ds[..k])[w] == r
    decreases k
  {
    hide Compare;
    if k > 0 {
      FirstTopStays(ds, r, w, k - 1);
      assert [r] + ds[..k] == ([r] + ds[..k - 1]) + [ds[k - 1]];
      ByWriterNext([r] + ds[..k - 1], ds[k - 1]);
      CompareTotal(ds[k - 1].v, r.v);
    } else {
      assert [r] + ds[..0] == [r] && [r][..0] == [];
    }
  }
}
