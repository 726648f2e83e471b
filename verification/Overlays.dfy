/** When the in-batch overlays of updateCtx answer for the rows: each overlay map against the rows the
    running Update stands for (d) and the rows it started from (base). */
module Overlays {
  import opened Bytes
  import opened Codec
  import opened Rows
  import opened Machine
  import C = Cardinality

  /** htype: resolved headers; anything unresolved is as the store has it. */
  ghost predicate TypesOk(htype: map<Coll, nat>, d: Data, base: Data)
  {
    forall c :: if c in htype then TypeRow(d, c) == Some(htype[c]) else TypeRow(d, c) == TypeRow(base, c)
  }

  /** exists: element presence, asked only for sets and hashes. */
  ghost predicate ElemsOk(exist: map<Row, bool>, d: Data, base: Data)
  {
    && (forall k :: k in exist ==>
        k.Elem? && TypeOf(d, k.coll) != TZSET && TypeOf(d, k.coll) != 0 && (exist[k] <==> k in d))
    && (forall k :: k !in exist && k.Elem? && TypeOf(d, k.coll) != TZSET ==> (k in d <==> k in base))
  }

  /** vals: field values, asked only for hashes. */
  ghost predicate FieldsOk(vals: map<Row, Option<Val>>, d: Data, base: Data)
  {
    forall k: Row :: k.Elem? && (TypeOf(d, k.coll) == THASH || TypeOf(d, k.coll) == 0) ==>
      if k in vals then (vals[k].Some? <==> k in d) && (k in d ==> vals[k].value == d[k]) else Same(d, base, k)
  }

  ghost predicate BudRow(r: Row) { r.BudPool? || r.BudLease? || r.BudTomb? }

  /** vals again: pool, lease and tombstone records. */
  ghost predicate BudgetsOk(vals: map<Row, Option<Val>>, d: Data, base: Data)
  {
    forall k: Row :: BudRow(k) ==>
      if k in vals then (vals[k].Some? <==> k in d) && (k in d ==> vals[k].value == d[k]) else Same(d, base, k)
  }

  /** zscore: current scores by member pointer. */
  ghost predicate ScoresOk(zscore: map<Row, Option<nat>>, d: Data, base: Data)
  {
    forall c, m :: ScoreOf(d, c, m) == if ZPtr(c, m) in zscore then zscore[ZPtr(c, m)] else ScoreOf(base, c, m)
  }

  ghost predicate Coherent(base: Data, d: Data, htype: map<Coll, nat>, exist: map<Row, bool>,
                           vals: map<Row, Option<Val>>, zscore: map<Row, Option<nat>>)
  {
    && TypesOk(htype, d, base) && ElemsOk(exist, d, base) && FieldsOk(vals, d, base)
    && BudgetsOk(vals, d, base) && ScoresOk(zscore, d, base) && C.Grown(base, d)
  }

  lemma StartCoherent(base: Data)
    ensures Coherent(base, base, map[], map[], map[], map[])
  {
  }

  /** Rows no overlay speaks for. */
  ghost predicate Neutral(r: Row)
  {
    !(r.Type? || r.Elem? || r.ZPtr? || BudRow(r))
  }

  lemma NeutralWrite(base: Data, d: Data, d': Data, htype: map<Coll, nat>, exist: map<Row, bool>,
                     vals: map<Row, Option<Val>>, zscore: map<Row, Option<nat>>)
    requires Coherent(base, d, htype, exist, vals, zscore)
    requires forall r :: !Neutral(r) ==> Same(d, d', r)
    ensures Coherent(base, d', htype, exist, vals, zscore)
  {
    hide TypesOk, ElemsOk, FieldsOk, BudgetsOk, ScoresOk;
    forall c ensures TypeRow(d', c) == TypeRow(d, c) { assert !Neutral(Type(c)); }
    forall c, m ensures ScoreOf(d', c, m) == ScoreOf(d, c, m) { assert !Neutral(ZPtr(c, m)); }
    assert forall k: Row :: k.Elem? || BudRow(k) ==> Same(d, d', k);
    KeepTypes(base, d, d', htype);
    KeepElems(base, d, d', exist);
    KeepFields(base, d, d', vals, vals);
    KeepBudgets(base, d, d', vals, vals);
    KeepScores(base, d, d', zscore);
  }

  /** Caching a header read. */
  lemma CacheType(base: Data, d: Data, htype: map<Coll, nat>, exist: map<Row, bool>,
                  vals: map<Row, Option<Val>>, zscore: map<Row, Option<nat>>, c: Coll)
    requires Coherent(base, d, htype, exist, vals, zscore) && TypeRow(d, c).Some?
    ensures Coherent(base, d, htype[c := TypeRow(d, c).value], exist, vals, zscore)
  {
    hide ElemsOk, FieldsOk, BudgetsOk, ScoresOk, C.Grown;
  }

  ghost predicate SameScores(a: Data, b: Data)
  {
    forall c, m :: ScoreOf(a, c, m) == ScoreOf(b, c, m)
  }

  /** Overlays that read only headers and scores do not see other rows change. */
  lemma KeepTypes(base: Data, d: Data, d': Data, htype: map<Coll, nat>)
    requires TypesOk(htype, d, base) && C.Grown(base, d) && C.SameTypes(d, d')
    ensures TypesOk(htype, d', base) && C.Grown(base, d')
  {
    hide TypeRow;
  }

  lemma KeepElems(base: Data, d: Data, d': Data, exist: map<Row, bool>)
    requires ElemsOk(exist, d, base) && C.SameTypes(d, d')
    requires forall k: Row :: k.Elem? && TypeOf(d, k.coll) != TZSET ==> (k in d <==> k in d')
    ensures ElemsOk(exist, d', base)
  {
    hide TypeRow;
  }

  lemma KeepFields(base: Data, d: Data, d': Data, vals: map<Row, Option<Val>>, vals': map<Row, Option<Val>>)
    requires FieldsOk(vals, d, base) && C.SameTypes(d, d')
    requires forall k: Row :: k.Elem? ==> (k in vals <==> k in vals') && (k in vals ==> vals[k] == vals'[k])
    requires forall k: Row :: k.Elem? && TypeOf(d, k.coll) != TZSET ==> Same(d, d', k)
    ensures FieldsOk(vals', d', base)
  {
    hide TypeRow;
  }

  lemma KeepBudgets(base: Data, d: Data, d': Data, vals: map<Row, Option<Val>>, vals': map<Row, Option<Val>>)
    requires BudgetsOk(vals, d, base)
    requires forall k: Row :: BudRow(k) ==> (k in vals <==> k in vals') && (k in vals ==> vals[k] == vals'[k])
    requires forall k: Row :: BudRow(k) ==> Same(d, d', k)
    ensures BudgetsOk(vals', d', base)
  {
  }

  lemma KeepScores(base: Data, d: Data, d': Data, zscore: map<Row, Option<nat>>)
    requires ScoresOk(zscore, d, base) && SameScores(d, d')
    ensures ScoresOk(zscore, d', base)
  {
    hide ScoreOf;
  }

  lemma AlikeRows(d: Data, d': Data, k: Row)
    requires forall r :: r != k ==> Same(d, d', r)
    ensures !k.Type? ==> C.SameTypes(d, d')
    ensures !k.ZPtr? ==> SameScores(d, d')
  {
    if !k.Type? { forall c ensures TypeRow(d, c) == TypeRow(d', c) { assert Same(d, d', Type(c)); } }
    if !k.ZPtr? { forall c, m ensures ScoreOf(d, c, m) == ScoreOf(d', c, m) { assert Same(d, d', ZPtr(c, m)); } }
  }

  /** Writing the header of a new collection. */
  lemma WriteType(base: Data, d: Data, htype: map<Coll, nat>, exist: map<Row, bool>,
                  vals: map<Row, Option<Val>>, zscore: map<Row, Option<nat>>, c: Coll, want: nat)
    requires Coherent(base, d, htype, exist, vals, zscore) && TypeRow(d, c).None? && want != 0
    ensures Coherent(base, d[Type(c) := Num(want)], htype[c := want], exist, vals, zscore)
  {
    var d' := d[Type(c) := Num(want)];
    assert TypeRow(d', c) == Some(want);
    assert forall o :: o != c ==> TypeRow(d', o) == TypeRow(d, o);
    AlikeRows(d, d', Type(c));
    KeepScores(base, d, d', zscore);
    KeepBudgets(base, d, d', vals, vals);
    HeaderElems(base, d, d', exist, vals, c);
    hide ScoresOk, BudgetsOk, ElemsOk, FieldsOk;
  }

  lemma HeaderElems(base: Data, d: Data, d': Data, exist: map<Row, bool>, vals: map<Row, Option<Val>>, c: Coll)
    requires ElemsOk(exist, d, base) && FieldsOk(vals, d, base) && TypeOf(d, c) == 0 && TypeOf(d', c) != 0
    requires forall o :: o != c ==> TypeOf(d', o) == TypeOf(d, o)
    requires forall k: Row :: k.Elem? ==> Same(d, d', k)
    ensures ElemsOk(exist, d', base) && FieldsOk(vals, d', base)
  {
    hide TypeOf;
  }

  lemma ElemPresence(base: Data, d: Data, d': Data, exist: map<Row, bool>, k: Row)
    requires ElemsOk(exist, d, base) && C.SameTypes(d, d')
    requires k.Elem? && TypeOf(d, k.coll) != TZSET && TypeOf(d, k.coll) != 0
    requires forall r :: r != k ==> Same(d, d', r)
    ensures ElemsOk(exist[k := k in d'], d', base)
  {
    hide TypeRow;
    forall r | r != k ensures r in d <==> r in d' { assert Same(d, d', r); }
  }

  lemma ElemValue(base: Data, d: Data, d': Data, vals: map<Row, Option<Val>>, vals': map<Row, Option<Val>>, k: Row)
    requires FieldsOk(vals, d, base) && C.SameTypes(d, d') && k.Elem? && TypeOf(d, k.coll) != 0
    requires forall r :: r != k ==> Same(d, d', r)
    requires vals' == vals || (k in vals' && vals' == vals[k := vals'[k]])
    requires TypeOf(d, k.coll) == THASH ==>
      k in vals' && (vals'[k].Some? <==> k in d') && (k in d' ==> vals'[k].value == d'[k])
    ensures FieldsOk(vals', d', base)
  {
    hide TypeRow;
    assert forall r: Row :: r.Elem? && r != k ==> Same(d, d', r);
    assert forall r: Row :: r != k ==> (r in vals <==> r in vals') && (r in vals ==> vals[r] == vals'[r]);
  }

  /** An element row of a set or hash is written or deleted, with the exists overlay, and the value overlay
      kept current where the collection is a hash. */
  lemma WriteElem(base: Data, d: Data, d': Data, htype: map<Coll, nat>, exist: map<Row, bool>,
                  vals: map<Row, Option<Val>>, vals': map<Row, Option<Val>>, zscore: map<Row, Option<nat>>, k: Row)
    requires Coherent(base, d, htype, exist, vals, zscore)
    requires k.Elem? && (TypeOf(d, k.coll) == TSET || TypeOf(d, k.coll) == THASH)
    requires forall r :: r != k ==> Same(d, d', r)
    requires vals' == vals || (k in vals' && vals' == vals[k := vals'[k]])
    requires TypeOf(d, k.coll) == THASH ==>
      k in vals' && (vals'[k].Some? <==> k in d') && (k in d' ==> vals'[k].value == d'[k])
    ensures Coherent(base, d', htype, exist[k := k in d'], vals', zscore)
  {
    hide TypesOk, ElemsOk, FieldsOk, BudgetsOk, ScoresOk, Same, TypeOf;
    AlikeRows(d, d', k);
    KeepTypes(base, d, d', htype);
    ElemPresence(base, d, d', exist, k);
    ElemValue(base, d, d', vals, vals', k);
    KeepBudgets(base, d, d', vals, vals');
    KeepScores(base, d, d', zscore);
  }

  lemma ScorePointer(base: Data, d: Data, d': Data, zscore: map<Row, Option<nat>>, c: Coll, m: bytes)
    requires ScoresOk(zscore, d, base)
    requires forall o, n :: (o, n) != (c, m) ==> ScoreOf(d', o, n) == ScoreOf(d, o, n)
    ensures ScoresOk(zscore[ZPtr(c, m) := ScoreOf(d', c, m)], d', base)
  {
    hide ScoreOf;
  }

  /** A sorted-set member is re-pointed or dropped. */
  lemma WriteScored(base: Data, d: Data, d': Data, htype: map<Coll, nat>, exist: map<Row, bool>,
                    vals: map<Row, Option<Val>>, zscore: map<Row, Option<nat>>, c: Coll, m: bytes)
    requires Coherent(base, d, htype, exist, vals, zscore) && TypeOf(d, c) == TZSET
    requires forall r: Row :: !(r.Elem? && r.coll == c) && r != ZPtr(c, m) ==> Same(d, d', r)
    ensures Coherent(base, d', htype, exist, vals, zscore[ZPtr(c, m) := ScoreOf(d', c, m)])
  {
    hide TypesOk, ElemsOk, FieldsOk, BudgetsOk, ScoresOk;
    forall o ensures TypeRow(d', o) == TypeRow(d, o) { assert Same(d, d', Type(o)); }
    forall o, n | (o, n) != (c, m) ensures ScoreOf(d', o, n) == ScoreOf(d, o, n) { assert Same(d, d', ZPtr(o, n)); }
    KeepTypes(base, d, d', htype);
    assert forall k: Row :: k.Elem? && TypeOf(d, k.coll) != TZSET ==> Same(d, d', k);
    KeepElems(base, d, d', exist);
    KeepFields(base, d, d', vals, vals);
    KeepBudgets(base, d, d', vals, vals);
    ScorePointer(base, d, d', zscore, c, m);
  }

  /** A budget record is written or deleted. */
  lemma WriteBud(base: Data, d: Data, d': Data, htype: map<Coll, nat>, exist: map<Row, bool>,
                 vals: map<Row, Option<Val>>, zscore: map<Row, Option<nat>>, k: Row)
    requires Coherent(base, d, htype, exist, vals, zscore) && BudRow(k)
    requires forall r :: r != k ==> Same(d, d', r)
    ensures Coherent(base, d', htype, exist, vals[k := if k in d' then Some(d'[k]) else None], zscore)
  {
    hide TypesOk, ElemsOk, FieldsOk, ScoresOk;
    var vals' := vals[k := if k in d' then Some(d'[k]) else None];
    AlikeRows(d, d', k);
    KeepTypes(base, d, d', htype);
    assert forall e: Row :: e.Elem? ==> Same(d, d', e);
    KeepElems(base, d, d', exist);
    KeepFields(base, d, d', vals, vals');
    KeepScores(base, d, d', zscore);
    assert forall e: Row :: BudRow(e) && e != k ==> Same(d, d', e);
  }
}
