/** Backup lifecycle (internal/backup): resolving an incremental chain, chain-aware deletion and the
    retention sweep, over one object store. */
module Backup {
  import opened Bytes

  // ---------------------------------------------------------------- chains

  /** chain leads from a base to id by parent links, without repetition; "" is no parent. */
  ghost predicate IsChain(parent: map<string, string>, chain: seq<string>, id: string)
  {
    && (forall i :: 0 <= i < |chain| ==> chain[i] in parent && chain[i] != "")
    && (forall i :: 0 < i < |chain| ==> parent[chain[i]] == chain[i - 1])
    && (forall i, j :: 0 <= i < j < |chain| ==> chain[i] != chain[j])
    && (if id == "" then chain == [] else chain != [] && chain[|chain| - 1] == id && parent[chain[0]] == "")
  }

  /** The leaf-to-base walk seen so far, and where it stands. */
  ghost predicate Walked(parent: map<string, string>, walk: seq<string>, id: string, cur: string)
  {
    && (forall i :: 0 <= i < |walk| ==> walk[i] in parent && walk[i] != "")
    && (forall i :: 0 < i < |walk| ==> parent[walk[i - 1]] == walk[i])
    && (forall i, j :: 0 <= i < j < |walk| ==> walk[i] != walk[j])
    && (if walk == [] then cur == id else walk[0] == id && parent[walk[|walk| - 1]] == cur)
  }

  /** Any chain of id agrees with the walk as far as it got. */
  lemma {:induction false} WalkFollows(parent: map<string, string>, walk: seq<string>, id: string, cur: string,
                                       c: seq<string>)
    requires Walked(parent, walk, id, cur) && IsChain(parent, c, id)
    ensures |walk| <= |c| && forall t :: 0 <= t < |walk| ==> walk[t] == c[|c| - 1 - t]
    ensures cur == if |walk| < |c| then c[|c| - 1 - |walk|] else ""
    decreases |walk|
  {
    if walk != [] {
      var n := |walk| - 1;
      WalkFollows(parent, walk[..n], id, walk[n], c);
      assert forall t :: 0 <= t < n ==> walk[..n][t] == walk[t];
    }
  }

  /** A walk that revisits a backup or meets a missing one belongs to no chain. */
  lemma WalkStuck(parent: map<string, string>, walk: seq<string>, id: string, cur: string, c: seq<string>)
    requires Walked(parent, walk, id, cur) && cur != "" && (cur in walk || cur !in parent)
    ensures !IsChain(parent, c, id)
  {
    if IsChain(parent, c, id) { WalkFollows(parent, walk, id, cur, c); }
  }

  lemma WalkNext(parent: map<string, string>, walk: seq<string>, id: string, cur: string)
    requires Walked(parent, walk, id, cur) && cur != "" && cur !in walk && cur in parent
    ensures Walked(parent, walk + [cur], id, parent[cur])
  {
  }

  lemma WalkReversed(parent: map<string, string>, walk: seq<string>, id: string, c: seq<string>)
    requires Walked(parent, walk, id, "") && |c| == |walk| && forall k :: 0 <= k < |c| ==> c[k] == walk[|c| - 1 - k]
    ensures IsChain(parent, c, id)
  {
  }

  method Reverse(a: array<string>)
    modifies a
    ensures forall k :: 0 <= k < a.Length ==> a[k] == old(a[a.Length - 1 - k])
  {
    var i, j := 0, a.Length - 1;
    while i < j
      invariant 0 <= i <= j + 1 && j == a.Length - 1 - i
      invariant forall k :: 0 <= k < i || j < k < a.Length ==> a[k] == old(a[a.Length - 1 - k])
      invariant forall k :: i <= k <= j ==> a[k] == old(a[k])
    {
      a[i], a[j] := a[j], a[i];
      i, j := i + 1, j - 1;
    }
  }

  /** ResolveChain over the stored manifests. It ends on any store, and finds the chain whenever there is
      one; None stands for a broken link or a cycle. */
  method ResolveChain(parent: map<string, string>, id: string) returns (r: Option<seq<string>>)
    ensures r.Some? ==> IsChain(parent, r.value, id)
    ensures r.None? ==> forall c :: !IsChain(parent, c, id)
  {
    var walk: seq<string> := [];
    var seen: set<string> := {};
    var cur := id;
    assert Walked(parent, walk, id, cur);
    hide Walked, IsChain;
    while cur != ""
      invariant Walked(parent, walk, id, cur) && seen <= parent.Keys
      invariant forall x :: x in seen <==> x in walk
      decreases parent.Keys - seen
    {
      if cur in seen || cur !in parent {
        forall c ensures !IsChain(parent, c, id) { WalkStuck(parent, walk, id, cur, c); }
        return None;
      }
      WalkNext(parent, walk, id, cur);
      seen := seen + {cur};
      walk := walk + [cur];
      cur := parent[cur];
    }
    var a := new string[|walk|](i requires 0 <= i < |walk| => walk[i]);
    Reverse(a);
    WalkReversed(parent, walk, id, a[..]);
    return Some(a[..]);
  }

  // ---------------------------------------------------------------- the catalog

  datatype Status = Unspecified | Running | Complete | Partial | Failed

  datatype Intent = Intent(parent: string, status: Status, leaseDeadlineMs: int, retainUntilMs: int, finishedMs: int)

  type Catalog = map<string, Intent>

  predicate IsTerminal(s: Status) { s == Complete || s == Partial || s == Failed }

  /** n parent links, all recorded, lead from x to id. */
  ghost predicate Hops(cat: Catalog, x: string, id: string, n: nat)
    decreases n
  {
    x in cat && if n == 0 then x == id else cat[x].parent in cat && Hops(cat, cat[x].parent, id, n - 1)
  }

  /** x is id or depends on it through recorded parents. */
  ghost predicate Below(cat: Catalog, x: string, id: string) { exists n: nat :: Hops(cat, x, id, n) }

  /** id depends on itself. */
  ghost predicate OnCycle(cat: Catalog, id: string) { exists n: nat :: n > 0 && Hops(cat, id, id, n) }

  ghost predicate ChildOf(cat: Catalog, x: string, id: string) { x in cat && cat[x].parent == id }

  predicate Under(o: string, id: string) { id + "/" <= o }

  /** Two backups can share an object exactly when one's prefix extends the other's; ids without a slash
      never do. */
  lemma ObjectsApart(a: string, b: string)
    ensures (exists o :: Under(o, a) && Under(o, b)) <==> a + "/" <= b + "/" || b + "/" <= a + "/"
    ensures '/' !in a && '/' !in b && a != b ==> !(a + "/" <= b + "/")
  {
    var p, q := a + "/", b + "/";
    if o :| Under(o, a) && Under(o, b) {
      if |p| <= |q| { assert p == o[..|p|] && q == o[..|q|] && p == q[..|p|]; }
      else { assert q == p[..|q|]; }
    }
    if p <= q { assert Under(q, a) && Under(q, b); }
    if q <= p { assert Under(p, a) && Under(p, b); }
    if p <= q && '/' !in a && '/' !in b {
      assert q[|a|] == p[|a|] == '/';
      assert |a| == |b| ==> a == p[..|a|] && b == q[..|a|];
    }
  }

  // ---------------------------------------------------------------- removing dependants

  /** R holds, with every backup, all that name it as parent. */
  ghost predicate DownClosed(cat: Catalog, R: set<string>)
  {
    forall x, y :: ChildOf(cat, x, y) && y in R && y in cat ==> x in R
  }

  /** Removing a down-closed set changes no one else's ancestry. */
  lemma {:induction false} HopsAfter(cat: Catalog, R: set<string>, x: string, id: string, n: nat)
    requires DownClosed(cat, R) && x in cat && x !in R
    ensures Hops(cat - R, x, id, n) <==> Hops(cat, x, id, n)
    decreases n
  {
    if n > 0 && cat[x].parent in cat {
      assert ChildOf(cat, x, cat[x].parent);
      HopsAfter(cat, R, cat[x].parent, id, n - 1);
    }
  }

  lemma BelowAfter(cat: Catalog, R: set<string>, x: string, id: string)
    requires DownClosed(cat, R) && x in cat && x !in R
    ensures Below(cat - R, x, id) <==> Below(cat, x, id)
  {
    hide Hops, DownClosed;
    if n: nat :| Hops(cat, x, id, n) { HopsAfter(cat, R, x, id, n); assert Hops(cat - R, x, id, n); }
    if n: nat :| Hops(cat - R, x, id, n) { HopsAfter(cat, R, x, id, n); assert Hops(cat, x, id, n); }
  }

  lemma {:induction false} HopsLess(cat: Catalog, R: set<string>, x: string, id: string, n: nat)
    requires Hops(cat - R, x, id, n)
    ensures Hops(cat, x, id, n)
    decreases n
  {
    if n > 0 { HopsLess(cat, R, cat[x].parent, id, n - 1); }
  }

  lemma {:induction false} HopsJoin(cat: Catalog, x: string, y: string, z: string, n: nat, m: nat)
    requires Hops(cat, x, y, n) && Hops(cat, y, z, m)
    ensures Hops(cat, x, z, n + m)
    decreases n
  {
    if n > 0 { HopsJoin(cat, cat[x].parent, y, z, n - 1, m); }
  }

  lemma OneHop(cat: Catalog, ch: string, id: string)
    requires ChildOf(cat, ch, id) && id in cat
    ensures Hops(cat, ch, id, 1)
  {
    assert Hops(cat, id, id, 0);
  }

  /** The last link into id comes from a child of id. */
  lemma {:induction false} HopsLast(cat: Catalog, x: string, id: string, n: nat) returns (ch: string)
    requires n > 0 && Hops(cat, x, id, n)
    ensures ChildOf(cat, ch, id) && Hops(cat, x, ch, n - 1)
    decreases n
  {
    if n == 1 {
      ch := x;
    } else {
      ch := HopsLast(cat, cat[x].parent, id, n - 1);
    }
  }

  lemma {:induction false} HopsEnd(cat: Catalog, x: string, id: string, n: nat)
    requires Hops(cat, x, id, n)
    ensures id in cat
    decreases n
  {
    if n > 0 { HopsEnd(cat, cat[x].parent, id, n - 1); }
  }

  /** A cycle through a child goes through its parent too. */
  lemma ChildLoop(cat: Catalog, id: string, ch: string, n: nat)
    requires ChildOf(cat, ch, id) && id in cat && n > 0 && Hops(cat, ch, ch, n)
    ensures Hops(cat, id, id, n)
  {
    OneHop(cat, ch, id);
    HopsJoin(cat, ch, ch, id, n, 1);
    FirstHop(cat, ch, id, id, n + 1);
  }

  /** A backup that is on no cycle does not depend on its own child, and the child is on no cycle either. */
  lemma NoWayBack(cat: Catalog, id: string, ch: string, n: nat)
    requires ChildOf(cat, ch, id) && id in cat && !OnCycle(cat, id)
    ensures !Hops(cat, id, ch, n) && (n > 0 ==> !Hops(cat, ch, ch, n))
  {
    hide Hops;
    OneHop(cat, ch, id);
    if Hops(cat, id, ch, n) { HopsJoin(cat, id, ch, id, n, 1); }
    if n > 0 && Hops(cat, ch, ch, n) { ChildLoop(cat, id, ch, n); }
  }

  lemma FirstHop(cat: Catalog, ch: string, id: string, z: string, n: nat)
    requires ChildOf(cat, ch, id) && n > 0 && Hops(cat, ch, z, n)
    ensures Hops(cat, id, z, n - 1)
  {
  }

  lemma ChildOffCycle(cat: Catalog, id: string, ch: string)
    requires ChildOf(cat, ch, id) && id in cat && !OnCycle(cat, id)
    ensures !OnCycle(cat, ch) && id !in Desc(cat, ch) && Desc(cat, ch) <= Desc(cat, id)
  {
    hide Hops, OnCycle;
    forall n: nat ensures !Hops(cat, id, ch, n) && (n > 0 ==> !Hops(cat, ch, ch, n)) { NoWayBack(cat, id, ch, n); }
    assert !OnCycle(cat, ch) by { NoCycle(cat, ch); }
    OneHop(cat, ch, id);
    forall x | x in Desc(cat, ch) ensures x in Desc(cat, id)
    {
      var n: nat :| Hops(cat, x, ch, n);
      HopsJoin(cat, x, ch, id, n, 1);
    }
  }

  lemma NoCycle(cat: Catalog, x: string)
    requires forall n: nat :: n > 0 ==> !Hops(cat, x, x, n)
    ensures !OnCycle(cat, x)
  {
  }

  lemma OffCycleLess(cat: Catalog, R: set<string>, x: string)
    requires !OnCycle(cat, x)
    ensures !OnCycle(cat - R, x)
  {
    hide Hops;
    if n: nat :| n > 0 && Hops(cat - R, x, x, n) { HopsLess(cat, R, x, x, n); }
  }

  /** Forcing the deletion of a backup on a cycle never ends: it always has a child on the cycle to delete first. */
  lemma CyclicDeleteGoesOn(cat: Catalog, id: string)
    requires OnCycle(cat, id)
    ensures exists ch :: ChildOf(cat, ch, id) && OnCycle(cat, ch)
  {
    hide Hops;
    var n: nat :| n > 0 && Hops(cat, id, id, n);
    HopsEnd(cat, id, id, n);
    var ch := HopsLast(cat, id, id, n);
    OneHop(cat, ch, id);
    HopsJoin(cat, ch, id, ch, 1, n - 1);
    assert OnCycle(cat, ch);
  }

  ghost function Desc(cat: Catalog, id: string): set<string>
  {
    set x | x in cat && Below(cat, x, id)
  }

  lemma DescDownClosed(cat: Catalog, id: string)
    ensures DownClosed(cat, Desc(cat, id))
  {
    forall x, y | ChildOf(cat, x, y) && y in Desc(cat, id) && y in cat ensures x in Desc(cat, id)
    {
      BelowChild(cat, x, y, id);
    }
  }

  lemma BelowChild(cat: Catalog, x: string, y: string, id: string)
    requires ChildOf(cat, x, y) && Below(cat, y, id)
    ensures Below(cat, x, id)
  {
    hide Hops;
    var n: nat :| Hops(cat, y, id, n);
    HopsIn(cat, y, id, n);
    OneHop(cat, x, y);
    HopsJoin(cat, x, y, id, 1, n);
  }

  lemma HopsIn(cat: Catalog, x: string, id: string, n: nat)
    requires Hops(cat, x, id, n)
    ensures x in cat
  {
  }

  lemma {:induction false} CycleAbove(cat: Catalog, x: string, s: string, n: nat)
    requires OnCycle(cat, x) && Hops(cat, x, s, n)
    ensures OnCycle(cat, s)
    decreases n
  {
    if n > 0 {
      var p := cat[x].parent;
      OneHop(cat, x, p);
      var m: nat :| m > 0 && Hops(cat, x, x, m);
      FirstHop(cat, x, p, x, m);
      HopsJoin(cat, p, x, p, m - 1, 1);
      assert OnCycle(cat, p);
      CycleAbove(cat, p, s, n - 1);
    }
  }

  /** And no deletion that does end, of a backup on no cycle, breaks the cycle. */
  lemma CycleSurvives(cat: Catalog, id: string, s: string)
    requires OnCycle(cat, id) && !OnCycle(cat, s)
    ensures OnCycle(cat - Desc(cat, s), id)
  {
    var m: nat :| m > 0 && Hops(cat, id, id, m);
    DescDownClosed(cat, s);
    hide Hops, DownClosed, OnCycle;
    if n: nat :| Hops(cat, id, s, n) { CycleAbove(cat, id, s, n); }
    HopsIn(cat, id, id, m);
    HopsAfter(cat, Desc(cat, s), id, id, m);
    assert OnCycle(cat - Desc(cat, s), id) by { Cycle(cat - Desc(cat, s), id, m); }
  }

  lemma Cycle(cat: Catalog, id: string, n: nat)
    requires n > 0 && Hops(cat, id, id, n)
    ensures OnCycle(cat, id)
  {
  }

  /** Removing a backup with its dependants leaves no remaining backup without its parent. */
  lemma DeleteKeepsChains(cat: Catalog, id: string)
    requires ChainClosed(cat)
    ensures ChainClosed(cat - Desc(cat, id))
  {
    hide Below;
    DescDownClosed(cat, id);
    var R := Desc(cat, id);
    forall x | x in cat - R && (cat - R)[x].parent != "" ensures (cat - R)[x].parent in cat - R
    {
      assert ChildOf(cat, x, cat[x].parent);
    }
  }

  /** A dependant other than id itself depends on one child of id, and a dependant of a child on id. */
  lemma DescByChild(cat: Catalog, x: string, id: string)
    requires x in cat && id in cat
    ensures Below(cat, x, id) <==> x == id || exists ch :: ChildOf(cat, ch, id) && Below(cat, x, ch)
  {
    assert Hops(cat, id, id, 0);
    assert Hops(cat, x, id, 0) ==> x == id;
    hide Hops;
    if n: nat :| Hops(cat, x, id, n) {
      if n > 0 {
        var ch := HopsLast(cat, x, id, n);
        assert Below(cat, x, ch);
      }
    }
    if ch :| ChildOf(cat, ch, id) && Below(cat, x, ch) {
      var n: nat :| Hops(cat, x, ch, n);
      OneHop(cat, ch, id);
      HopsJoin(cat, x, ch, id, n, 1);
    }
  }

  datatype Outcome = Unknown | Refused | Deleted

  class Node {
    var cat: Catalog
    var objs: set<string>

    constructor ()
      ensures cat == map[] && objs == {}
    {
      cat, objs := map[], {};
    }

    method LiveChildren(id: string) returns (out: seq<string>)
      ensures forall x :: x in out <==> ChildOf(cat, x, id)
      ensures forall i, j :: 0 <= i < j < |out| ==> out[i] != out[j]
    {
      out := [];
      var left := cat.Keys;
      while left != {}
        invariant left <= cat.Keys && forall x :: x in out <==> x !in left && ChildOf(cat, x, id)
        invariant forall i, j :: 0 <= i < j < |out| ==> out[i] != out[j]
        decreases |left|
      {
        var x :| x in left;
        if cat[x].parent == id { out := out + [x]; }
        left := left - {x};
      }
    }

    method DeletePrefix(id: string)
      modifies this`objs
      ensures objs == set o | o in old(objs) && !Under(o, id)
    {
      var left := set o | o in objs && Under(o, id);
      while left != {}
        invariant left <= objs && forall o :: o in left ==> Under(o, id)
        invariant forall o :: o in objs <==> o in old(objs) && (o in left || !Under(o, id))
        decreases |left|
      {
        var o :| o in left;
        objs := objs - {o};
        left := left - {o};
      }
    }

    /** DeleteBackup. Without force a backup with live children is refused; with force exactly the backup
        and everything that depends on it goes, records and objects. */
    method DeleteBackup(id: string, force: bool) returns (r: Outcome)
      requires force ==> !OnCycle(cat, id)
      modifies this
      ensures r == if id !in old(cat) then Unknown
                   else if !force && exists x :: ChildOf(old(cat), x, id) then Refused else Deleted
      ensures r != Deleted ==> cat == old(cat) && objs == old(objs)
      ensures r == Deleted ==> Removed(cat, objs, old(cat), old(objs), Desc(old(cat), id))
      ensures r == Deleted && !force ==> Desc(old(cat), id) == {id}
      decreases |Desc(cat, id)|
    {
      hide Below, Desc, DescAny, Under, OnCycle;
      if id !in cat { return Unknown; }
      ghost var was, wasObjs := cat, objs;
      var children := LiveChildren(id);
      if |children| > 0 && !force {
        assert ChildOf(cat, children[0], id);
        return Refused;
      }
      NoDescAny(cat);
      for i := 0 to |children|
        invariant Removed(cat, objs, was, wasObjs, DescAny(was, children[..i]))
      {
        NextChild(cat, was, id, children, i);
        ghost var mid, midObjs := cat, objs;
        var _ := DeleteBackup(children[i], true);
        RemovedTwice(cat, objs, mid, midObjs, was, wasObjs, DescAny(was, children[..i]),
          Desc(mid, children[i]));
        DescAnyNext(was, children, i);
      }
      assert children[..|children|] == children;
      AllButSelf(was, id, children);
      ghost var mid, midObjs := cat, objs;
      DeletePrefix(id);
      cat := cat - {id};
      RemovedTwice(cat, objs, mid, midObjs, was, wasObjs, DescAny(was, children), {id});
      return Deleted;
    }
  }

  /** The records in R are gone, with the objects under them, and nothing else. */
  ghost predicate Removed(cat: Catalog, objs: set<string>, was: Catalog, wasObjs: set<string>, R: set<string>)
  {
    && cat == was - R
    && (forall o :: o in objs <==> o in wasObjs && forall x :: x in R ==> !Under(o, x))
  }

  lemma RemovedTwice(cat: Catalog, objs: set<string>, mid: Catalog, midObjs: set<string>, was: Catalog,
                     wasObjs: set<string>, R: set<string>, S: set<string>)
    requires Removed(mid, midObjs, was, wasObjs, R)
    requires cat == mid - S && forall o :: o in objs <==> o in midObjs && forall x :: x in S ==> !Under(o, x)
    ensures Removed(cat, objs, was, wasObjs, R + S)
  {
    hide Under;
  }

  /** The dependants of any of ids. */
  ghost function DescAny(cat: Catalog, ids: seq<string>): set<string>
  {
    set x | x in cat && exists i :: 0 <= i < |ids| && Below(cat, x, ids[i])
  }

  lemma NoDescAny(cat: Catalog)
    ensures DescAny(cat, []) == {}
  {
  }

  lemma DescAnyNext(cat: Catalog, ids: seq<string>, i: nat)
    requires i < |ids|
    ensures DescAny(cat, ids[..i + 1]) == DescAny(cat, ids[..i]) + Desc(cat, ids[i])
  {
    hide Below;
    var a, b := ids[..i], ids[..i + 1];
    assert forall k :: 0 <= k < i ==> a[k] == b[k];
    forall x | x in DescAny(cat, b) && x !in Desc(cat, ids[i])
      ensures x in DescAny(cat, a)
    {
      var k :| 0 <= k < |b| && Below(cat, x, b[k]);
      assert Below(cat, x, a[k]);
    }
    forall x | x in DescAny(cat, a) ensures x in DescAny(cat, b)
    {
      var k :| 0 <= k < |a| && Below(cat, x, a[k]);
      assert Below(cat, x, b[k]);
    }
    forall x | x in Desc(cat, ids[i]) ensures x in DescAny(cat, b)
    {
      assert Below(cat, x, b[i]);
    }
  }

  lemma DescAnyDownClosed(cat: Catalog, ids: seq<string>)
    ensures DownClosed(cat, DescAny(cat, ids))
  {
    forall x, y | ChildOf(cat, x, y) && y in DescAny(cat, ids) && y in cat
      ensures x in DescAny(cat, ids)
    {
      var k :| 0 <= k < |ids| && Below(cat, y, ids[k]);
      BelowChild(cat, x, y, ids[k]);
      assert Below(cat, x, ids[k]);
    }
  }

  /** When the i-th child's turn comes it is still there, and with the earlier ones gone its own removal
      completes theirs; it has fewer dependants than the backup had. */
  lemma NextChild(cat: Catalog, was: Catalog, id: string, children: seq<string>, i: nat)
    requires i < |children| && id in was && !OnCycle(was, id)
    requires cat == was - DescAny(was, children[..i])
    requires forall x :: x in children <==> ChildOf(was, x, id)
    requires forall i, j :: 0 <= i < j < |children| ==> children[i] != children[j]
    ensures children[i] in cat && !OnCycle(cat, children[i]) && |Desc(cat, children[i])| < |Desc(was, id)|
    ensures var R := DescAny(was, children[..i]); R + Desc(cat, children[i]) == R + Desc(was, children[i])
  {
    var R, ch := DescAny(was, children[..i]), children[i];
    assert ch in children && ChildOf(was, ch, id);
    forall k | 0 <= k < i ensures !Below(was, ch, children[k])
    {
      assert children[k] in children;
      SiblingsApart(was, id, ch, children[k]);
    }
    DescAnyDownClosed(was, children[..i]);
    ChildOffCycle(was, id, ch);
    OffCycleLess(was, R, ch);
    SelfBelow(was, id);
    hide Below, OnCycle;
    forall x | x in cat ensures Below(cat, x, ch) <==> Below(was, x, ch)
    {
      BelowAfter(was, R, x, ch);
    }
    FewerElements(Desc(cat, ch), Desc(was, id), id);
  }

  lemma SelfBelow(cat: Catalog, id: string)
    requires id in cat
    ensures id in Desc(cat, id)
  {
    assert Hops(cat, id, id, 0);
  }

  lemma SiblingsApart(cat: Catalog, id: string, a: string, b: string)
    requires ChildOf(cat, a, id) && ChildOf(cat, b, id) && id in cat && a != b && !OnCycle(cat, id)
    ensures !Below(cat, a, b)
  {
    forall n: nat ensures !Hops(cat, a, b, n)
    {
      if n > 0 && Hops(cat, a, b, n) {
        FirstHop(cat, a, id, b, n);
        NoWayBack(cat, id, b, n - 1);
      }
    }
  }

  lemma FewerElements(a: set<string>, b: set<string>, x: string)
    requires a <= b && x in b && x !in a
    ensures |a| < |b|
  {
    assert a <= b - {x};
    SubsetSize(a, b - {x});
  }

  lemma {:induction false} SubsetSize(a: set<string>, b: set<string>)
    requires a <= b
    ensures |a| <= |b|
    decreases a
  {
    if a != {} {
      var x :| x in a;
      SubsetSize(a - {x}, b - {x});
    }
  }

  lemma AllButSelf(cat: Catalog, id: string, children: seq<string>)
    requires id in cat && forall x :: x in children <==> ChildOf(cat, x, id)
    ensures DescAny(cat, children) + {id} == Desc(cat, id)
  {
    forall x | x in cat ensures x in DescAny(cat, children) + {id} <==> Below(cat, x, id)
    {
      DescByChild(cat, x, id);
      hide Below;
      if ch :| ChildOf(cat, ch, id) && Below(cat, x, ch) {
        assert ch in children;
        var k :| 0 <= k < |children| && children[k] == ch;
        assert Below(cat, x, children[k]);
      }
      if k :| 0 <= k < |children| && Below(cat, x, children[k]) { assert children[k] in children; }
    }
  }

  // ---------------------------------------------------------------- the sweep

  /** Every backup's parent is still in the catalog. */
  ghost predicate ChainClosed(cat: Catalog) { forall x :: x in cat && cat[x].parent != "" ==> cat[x].parent in cat }

  predicate LeaseOver(i: Intent, nowMs: int)
  {
    i.status == Running && i.leaseDeadlineMs > 0 && nowMs > i.leaseDeadlineMs
  }

  predicate RetentionOver(i: Intent, nowMs: int)
  {
    IsTerminal(i.status) && i.retainUntilMs > 0 && nowMs > i.retainUntilMs
  }

  function GivenUp(i: Intent, nowMs: int, retainMs: int): Intent
  {
    i.(status := Failed, finishedMs := nowMs, retainUntilMs := nowMs + retainMs)
  }

  /** One row of the listing the sweep works from; the listing may be older than the catalog. */
  datatype Listed = Listed(id: string, i: Intent)

  /** The sweep's state: the catalog, the objects, the ids it believes live, and whether it goes on. */
  datatype Sweep = Sweep(cat: Catalog, objs: set<string>, live: set<string>, ok: bool)

  ghost predicate ListedChild(snap: seq<Listed>, live: set<string>, id: string)
  {
    exists k :: 0 <= k < |snap| && snap[k].i.parent == id && id != "" && snap[k].id in live
  }

  ghost function SweepOne(snap: seq<Listed>, st: Sweep, e: Listed, nowMs: int, retainMs: int): Sweep
  {
    if !st.ok then st
    else if LeaseOver(e.i, nowMs) then st.(cat := st.cat[e.id := GivenUp(e.i, nowMs, retainMs)])
    else if !RetentionOver(e.i, nowMs) || ListedChild(snap, st.live, e.id) || e.id !in st.cat then st
    else if exists x :: ChildOf(st.cat, x, e.id) then st.(ok := false)
    else Sweep(st.cat - {e.id}, (set o | o in st.objs && !Under(o, e.id)), st.live - {e.id}, true)
  }

  ghost function SweepAll(was: Catalog, objs: set<string>, snap: seq<Listed>, n: nat, nowMs: int, retainMs: int): Sweep
    requires n <= |snap|
  {
    if n == 0 then Sweep(was, objs, (set k | 0 <= k < |snap| :: snap[k].id), true)
    else SweepOne(snap, SweepAll(was, objs, snap, n - 1, nowMs, retainMs), snap[n - 1], nowMs, retainMs)
  }

  /** SweepIntents. The recorded children and the live flags come from the listing; deletion looks at the
      catalog again. */
  method SweepIntents(n: Node, snap: seq<Listed>, nowMs: int, retainMs: int)
    returns (ok: bool)
    modifies n
    ensures var r := SweepAll(old(n.cat), old(n.objs), snap, |snap|, nowMs, retainMs);
      n.cat == r.cat && n.objs == r.objs && ok == r.ok
  {
    hide Desc;
    var childrenOf, live := IndexListing(snap);
    for k := 0 to |snap|
      invariant SweepAll(old(n.cat), old(n.objs), snap, k, nowMs, retainMs) == Sweep(n.cat, n.objs, live, true)
    {
      var e := snap[k];
      if LeaseOver(e.i, nowMs) {
        n.cat := n.cat[e.id := GivenUp(e.i, nowMs, retainMs)];
      } else if RetentionOver(e.i, nowMs) {
        var held := HasLiveChild(e.id, childrenOf, live, snap);
        if !held {
          ghost var was := n.objs;
          var r := n.DeleteBackup(e.id, false);
          if r == Refused {
            StaysStopped(old(n.cat), old(n.objs), snap, k + 1, |snap|, nowMs, retainMs);
            return false;
          }
          if r == Deleted {
            assert n.objs == set o | o in was && !Under(o, e.id);
            live := live - {e.id};
          }
        }
      }
    }
    return true;
  }

  ghost predicate Names(snap: seq<Listed>, k: nat, p: string, x: string)
    requires k <= |snap|
  {
    exists t :: 0 <= t < k && snap[t].i.parent == p && snap[t].id == x
  }

  /** childrenOf lists, under each named parent, the ids of the first k rows that name it. */
  ghost predicate Recorded(childrenOf: map<string, seq<string>>, snap: seq<Listed>, k: nat)
    requires k <= |snap|
  {
    forall p, x :: Records(childrenOf, p, x) <==> p != "" && Names(snap, k, p, x)
  }

  predicate Records(childrenOf: map<string, seq<string>>, p: string, x: string)
  {
    p in childrenOf && x in childrenOf[p]
  }

  function ChildrenIn(childrenOf: map<string, seq<string>>, p: string): seq<string>
  {
    if p in childrenOf then childrenOf[p] else []
  }

  lemma RecordNext(childrenOf: map<string, seq<string>>, snap: seq<Listed>, k: nat)
    requires k < |snap| && Recorded(childrenOf, snap, k)
    ensures var p := snap[k].i.parent;
      Recorded(if p == "" then childrenOf else childrenOf[p := ChildrenIn(childrenOf, p) + [snap[k].id]], snap, k + 1)
  {
    var q := snap[k].i.parent;
    var c' := if q == "" then childrenOf else childrenOf[q := ChildrenIn(childrenOf, q) + [snap[k].id]];
    forall p, x ensures Records(c', p, x) <==> p != "" && Names(snap, k + 1, p, x)
    {
      assert Records(childrenOf, p, x) <==> p != "" && Names(snap, k, p, x);
    }
  }

  method IndexListing(snap: seq<Listed>) returns (childrenOf: map<string, seq<string>>, live: set<string>)
    ensures Recorded(childrenOf, snap, |snap|)
    ensures live == set t | 0 <= t < |snap| :: snap[t].id
  {
    hide Recorded;
    live, childrenOf := {}, map[];
    assert Recorded(childrenOf, snap, 0) by { RecordNone(snap); }
    for k := 0 to |snap|
      invariant live == set t | 0 <= t < k :: snap[t].id
      invariant Recorded(childrenOf, snap, k)
    {
      RecordNext(childrenOf, snap, k);
      live := live + {snap[k].id};
      var p := snap[k].i.parent;
      if p != "" { childrenOf := childrenOf[p := ChildrenIn(childrenOf, p) + [snap[k].id]]; }
    }
  }

  lemma RecordNone(snap: seq<Listed>)
    ensures Recorded(map[], snap, 0)
  {
  }

  method HasLiveChild(id: string, childrenOf: map<string, seq<string>>, live: set<string>, ghost snap: seq<Listed>)
    returns (b: bool)
    requires Recorded(childrenOf, snap, |snap|)
    ensures b == ListedChild(snap, live, id)
  {
    var cs := ChildrenIn(childrenOf, id);
    for i := 0 to |cs|
      invariant forall j :: 0 <= j < i ==> cs[j] !in live
    {
      if cs[i] in live {
        assert Records(childrenOf, id, cs[i]);
        assert Names(snap, |snap|, id, cs[i]);
        return true;
      }
    }
    forall k | 0 <= k < |snap| && snap[k].i.parent == id && id != "" ensures snap[k].id !in live
    {
      assert Names(snap, |snap|, id, snap[k].id);
      assert Records(childrenOf, id, snap[k].id);
    }
    return false;
  }

  lemma {:induction false} StaysStopped(was: Catalog, objs: set<string>, snap: seq<Listed>, k: nat, n: nat, nowMs: int,
                                        retainMs: int)
    requires k <= n <= |snap| && !SweepAll(was, objs, snap, k, nowMs, retainMs).ok
    ensures SweepAll(was, objs, snap, n, nowMs, retainMs) == SweepAll(was, objs, snap, k, nowMs, retainMs)
    decreases n
  {
    if k < n { StaysStopped(was, objs, snap, k, n - 1, nowMs, retainMs); }
  }

  // ---------------------------------------------------------------- what a sweep does

  ghost predicate OnceEach(snap: seq<Listed>) { forall j, k :: 0 <= j < k < |snap| ==> snap[j].id != snap[k].id }

  /** The listing is the catalog. */
  ghost predicate Fresh(snap: seq<Listed>, cat: Catalog)
  {
    && OnceEach(snap)
    && (forall k :: 0 <= k < |snap| ==> snap[k].id in cat && cat[snap[k].id] == snap[k].i)
    && (forall x :: x in cat ==> Listed(x, cat[x]) in snap)
  }

  /** A recorded intent is as it was, or was given up because its lease is over. */
  ghost predicate Aged(st: Sweep, was: Catalog, nowMs: int, retainMs: int, x: string)
  {
    && (x in st.cat ==> x in was)
    && (x in st.cat && st.cat[x] != was[x] ==>
        LeaseOver(was[x], nowMs) && st.cat[x] == GivenUp(was[x], nowMs, retainMs))
    && (x in was && x !in st.cat ==> RetentionOver(was[x], nowMs))
  }

  ghost predicate Midway(st: Sweep, was: Catalog, snap: seq<Listed>, n: nat, nowMs: int, retainMs: int)
  {
    && st.ok && st.live == st.cat.Keys && ChainClosed(st.cat)
    && (forall x :: Aged(st, was, nowMs, retainMs, x))
    && (forall k :: n <= k < |snap| ==> snap[k].id in st.cat && st.cat[snap[k].id] == snap[k].i)
  }

  lemma HeldExactly(st: Sweep, was: Catalog, snap: seq<Listed>, n: nat, nowMs: int, retainMs: int, id: string)
    requires Fresh(snap, was) && Midway(st, was, snap, n, nowMs, retainMs) && id != ""
    ensures ListedChild(snap, st.live, id) <==> exists x :: ChildOf(st.cat, x, id)
  {
    if k :| 0 <= k < |snap| && snap[k].i.parent == id && snap[k].id in st.live {
      assert Aged(st, was, nowMs, retainMs, snap[k].id);
      assert ChildOf(st.cat, snap[k].id, id);
    }
    if x :| ChildOf(st.cat, x, id) {
      assert Aged(st, was, nowMs, retainMs, x);
      var k :| 0 <= k < |snap| && snap[k] == Listed(x, was[x]);
      assert snap[k].i.parent == id && snap[k].id in st.live;
    }
  }

  lemma SweepStepFresh(st: Sweep, was: Catalog, snap: seq<Listed>, n: nat, nowMs: int, retainMs: int)
    requires Fresh(snap, was) && n < |snap| && Midway(st, was, snap, n, nowMs, retainMs) && "" !in was
    ensures Midway(SweepOne(snap, st, snap[n], nowMs, retainMs), was, snap, n + 1, nowMs, retainMs)
  {
    hide ListedChild, LeaseOver, RetentionOver;
    var e := snap[n];
    HeldExactly(st, was, snap, n, nowMs, retainMs, e.id);
    var t := SweepOne(snap, st, e, nowMs, retainMs);
    forall x ensures Aged(t, was, nowMs, retainMs, x) { assert Aged(st, was, nowMs, retainMs, x); }
    forall x | x in t.cat && t.cat[x].parent != "" ensures t.cat[x].parent in t.cat
    {
      assert st.cat[x].parent == t.cat[x].parent;
      assert t.cat[x].parent == e.id ==> ChildOf(st.cat, x, e.id);
    }
  }

  /** A sweep of the current catalog never stops, removes only backups past their retention, never one that a
      remaining backup names as parent, and changes no record but those whose lease is over. */
  lemma {:induction false} SweepFresh(was: Catalog, objs: set<string>, snap: seq<Listed>, n: nat, nowMs: int,
                                      retainMs: int)
    requires Fresh(snap, was) && n <= |snap| && ChainClosed(was) && "" !in was
    ensures Midway(SweepAll(was, objs, snap, n, nowMs, retainMs), was, snap, n, nowMs, retainMs)
    decreases n
  {
    hide Aged;
    if n == 0 {
      var st := SweepAll(was, objs, snap, 0, nowMs, retainMs);
      forall x ensures Aged(st, was, nowMs, retainMs, x) { UnchangedAged(st, was, nowMs, retainMs, x); }
      forall x | x in was ensures x in st.live { assert Listed(x, was[x]) in snap; }
    } else {
      SweepFresh(was, objs, snap, n - 1, nowMs, retainMs);
      SweepStepFresh(SweepAll(was, objs, snap, n - 1, nowMs, retainMs), was, snap, n - 1, nowMs, retainMs);
    }
  }

  lemma UnchangedAged(st: Sweep, was: Catalog, nowMs: int, retainMs: int, x: string)
    requires st.cat == was
    ensures Aged(st, was, nowMs, retainMs, x)
  {
  }

  /** The sweep of a current listing, record by record. One that is gone was complete, partial or failed and past its
      retention time; one that changed was running past its lease, and is failed from now on and kept for the
      retention period; and every such lease is given up. */
  lemma SweepFields(was: Catalog, objs: set<string>, snap: seq<Listed>, nowMs: int, retainMs: int, x: string)
    requires Fresh(snap, was) && ChainClosed(was) && "" !in was && x in was
    ensures var c, i := SweepAll(was, objs, snap, |snap|, nowMs, retainMs).cat, was[x];
      && (x !in c ==> i.status in {Complete, Partial, Failed} && 0 < i.retainUntilMs < nowMs)
      && (i.status == Running && 0 < i.leaseDeadlineMs < nowMs ==>
          x in c && c[x] == Intent(i.parent, Failed, i.leaseDeadlineMs, nowMs + retainMs, nowMs))
      && (x in c && !(i.status == Running && 0 < i.leaseDeadlineMs < nowMs) ==> c[x] == i)
  {
    hide SweepAll, ChainClosed, OnceEach;
    SweepFresh(was, objs, snap, |snap|, nowMs, retainMs);
    var st := SweepAll(was, objs, snap, |snap|, nowMs, retainMs);
    assert Aged(st, was, nowMs, retainMs, x);
    SweepRewrites(was, objs, snap, |snap|, nowMs, retainMs, x);
    var k :| 0 <= k < |snap| && snap[k] == Listed(x, was[x]);
  }

  /** ... and a backup past its retention time that no record names as parent when its row comes is gone. */
  lemma SweepCollects(was: Catalog, objs: set<string>, snap: seq<Listed>, k: nat, nowMs: int, retainMs: int)
    requires Fresh(snap, was) && ChainClosed(was) && "" !in was && k < |snap|
    requires snap[k].i.status in {Complete, Partial, Failed} && 0 < snap[k].i.retainUntilMs < nowMs
    requires var c := SweepAll(was, objs, snap, k, nowMs, retainMs).cat;
      forall y :: y in c ==> c[y].parent != snap[k].id
    ensures snap[k].id !in SweepAll(was, objs, snap, |snap|, nowMs, retainMs).cat
  {
    var st := SweepAll(was, objs, snap, k, nowMs, retainMs);
    SweepFresh(was, objs, snap, k, nowMs, retainMs);
    HeldExactly(st, was, snap, k, nowMs, retainMs, snap[k].id);
    assert snap[k].id in st.cat;
    assert snap[k].id !in SweepOne(snap, st, snap[k], nowMs, retainMs).cat;
    StaysGone(was, objs, snap, k, |snap|, nowMs, retainMs);
  }

  lemma {:induction false} StaysGone(was: Catalog, objs: set<string>, snap: seq<Listed>, k: nat, n: nat, nowMs: int,
                                     retainMs: int)
    requires OnceEach(snap) && k < n <= |snap| && snap[k].id !in SweepAll(was, objs, snap, k + 1, nowMs, retainMs).cat
    ensures snap[k].id !in SweepAll(was, objs, snap, n, nowMs, retainMs).cat
    decreases n
  {
    hide ListedChild, LeaseOver, RetentionOver;
    if k + 1 < n { StaysGone(was, objs, snap, k, n - 1, nowMs, retainMs); }
  }

  /** From any listing: exactly the objects under removed backups are gone, and a backup is removed only when its row
      says it is complete, partial or failed and past its retention time. */
  lemma {:induction false} SweepObjects(was: Catalog, objs: set<string>, snap: seq<Listed>, n: nat, nowMs: int,
                                        retainMs: int)
    requires OnceEach(snap) && n <= |snap|
    ensures var st := SweepAll(was, objs, snap, n, nowMs, retainMs);
      && (forall o :: o in st.objs <==> o in objs && forall x :: x in was && x !in st.cat ==> !Under(o, x))
      && (forall x :: x in was && x !in st.cat ==> Collectable(snap, n, nowMs, x))
      && (forall x :: x in st.cat && x !in was ==> x in Ids(snap, n))
    decreases n
  {
    hide ListedChild, Under;
    if n > 0 {
      SweepObjects(was, objs, snap, n - 1, nowMs, retainMs);
      var st := SweepAll(was, objs, snap, n - 1, nowMs, retainMs);
      var e := snap[n - 1];
      assert e.id !in Ids(snap, n - 1);
      assert Ids(snap, n) == Ids(snap, n - 1) + {e.id};
      forall x | Collectable(snap, n - 1, nowMs, x) ensures Collectable(snap, n, nowMs, x)
      {
        var k :| 0 <= k < n - 1 && snap[k].id == x && snap[k].i.status in {Complete, Partial, Failed}
          && 0 < snap[k].i.retainUntilMs < nowMs;
      }
    }
  }

  ghost function Ids(snap: seq<Listed>, n: nat): set<string>
    requires n <= |snap|
  {
    set k | 0 <= k < n :: snap[k].id
  }

  ghost predicate Collectable(snap: seq<Listed>, n: nat, nowMs: int, x: string)
    requires n <= |snap|
  {
    exists k :: 0 <= k < n && snap[k].id == x && snap[k].i.status in {Complete, Partial, Failed}
                && 0 < snap[k].i.retainUntilMs < nowMs
  }

  /** From any listing, however old: a record is rewritten exactly when a listed row with an expired lease names
      it, and then from the listing, whatever the catalog says. */
  lemma {:induction false} SweepRewrites(was: Catalog, objs: set<string>, snap: seq<Listed>, n: nat, nowMs: int,
                                         retainMs: int, x: string)
    requires OnceEach(snap) && n <= |snap| && SweepAll(was, objs, snap, n, nowMs, retainMs).ok
    ensures var c := SweepAll(was, objs, snap, n, nowMs, retainMs).cat;
      && (forall k :: 0 <= k < n && snap[k].id == x && LeaseOver(snap[k].i, nowMs) ==>
           x in c && c[x] == GivenUp(snap[k].i, nowMs, retainMs))
      && ((forall k :: 0 <= k < n && snap[k].id == x ==> !LeaseOver(snap[k].i, nowMs)) && x in c ==>
           x in was && c[x] == was[x])
    decreases n
  {
    hide ListedChild, LeaseOver, RetentionOver, GivenUp;
    if n > 0 { SweepRewrites(was, objs, snap, n - 1, nowMs, retainMs, x); }
  }

  /** Rows n and later are still believed live, and a removed parent is named by no record and by none of them. */
  ghost predicate Held(st: Sweep, was: Catalog, snap: seq<Listed>, n: nat)
  {
    && (forall k :: n <= k < |snap| ==> snap[k].id in st.live)
    && (forall p :: p in was && p !in st.cat && p != "" ==> Unnamed(st, snap, n, p))
  }

  ghost predicate Unnamed(st: Sweep, snap: seq<Listed>, n: nat, p: string)
  {
    && (forall x :: !ChildOf(st.cat, x, p))
    && (forall k :: n <= k < |snap| ==> snap[k].i.parent != p)
  }

  lemma SweepStepHeld(st: Sweep, was: Catalog, snap: seq<Listed>, n: nat, nowMs: int, retainMs: int)
    requires OnceEach(snap) && n < |snap| && Held(st, was, snap, n)
    ensures Held(SweepOne(snap, st, snap[n], nowMs, retainMs), was, snap, n + 1)
  {
    hide LeaseOver, RetentionOver;
    var e, t := snap[n], SweepOne(snap, st, snap[n], nowMs, retainMs);
    forall p | p in was && p !in t.cat && p != "" ensures Unnamed(t, snap, n + 1, p)
    {
      assert p !in st.cat ==> Unnamed(st, snap, n, p);
      forall x ensures !ChildOf(t.cat, x, p) { assert x != e.id && ChildOf(t.cat, x, p) ==> ChildOf(st.cat, x, p); }
    }
  }

  lemma {:induction false} SweepHeld(was: Catalog, objs: set<string>, snap: seq<Listed>, n: nat, nowMs: int,
                                     retainMs: int)
    requires OnceEach(snap) && n <= |snap|
    ensures Held(SweepAll(was, objs, snap, n, nowMs, retainMs), was, snap, n)
    decreases n
  {
    if n > 0 {
      SweepHeld(was, objs, snap, n - 1, nowMs, retainMs);
      SweepStepHeld(SweepAll(was, objs, snap, n - 1, nowMs, retainMs), was, snap, n - 1, nowMs, retainMs);
    }
  }

  /** From any listing, however old, and at any point of the sweep: no record names as parent a backup the sweep
      removed. */
  lemma SweepSafe(was: Catalog, objs: set<string>, snap: seq<Listed>, n: nat, nowMs: int, retainMs: int, p: string,
                  x: string)
    requires OnceEach(snap) && n <= |snap| && p != ""
    ensures var c := SweepAll(was, objs, snap, n, nowMs, retainMs).cat; p in was && p !in c ==> !ChildOf(c, x, p)
  {
    SweepHeld(was, objs, snap, n, nowMs, retainMs);
    var st := SweepAll(was, objs, snap, n, nowMs, retainMs);
    if p in was && p !in st.cat { assert Unnamed(st, snap, n, p); }
  }

  ghost predicate GaveUp(snap: seq<Listed>, n: nat, nowMs: int, k: int)
  {
    0 <= k < n <= |snap| && LeaseOver(snap[k].i, nowMs)
  }

  /** Every listed row the sweep gives up has its parent in the catalog, or gives that up too. */
  ghost predicate GivesUpParented(was: Catalog, snap: seq<Listed>, n: nat, nowMs: int)
  {
    forall k :: GaveUp(snap, n, nowMs, k) && snap[k].i.parent != "" ==>
      snap[k].i.parent in was || exists j :: GaveUp(snap, n, nowMs, j) && snap[j].id == snap[k].i.parent
  }

  /** A sweep keeps every chain whole exactly when no row it gives up names a parent that is no longer there. */
  lemma SweepChains(was: Catalog, objs: set<string>, snap: seq<Listed>, n: nat, nowMs: int, retainMs: int)
    requires OnceEach(snap) && n <= |snap| && ChainClosed(was) && SweepAll(was, objs, snap, n, nowMs, retainMs).ok
    ensures ChainClosed(SweepAll(was, objs, snap, n, nowMs, retainMs).cat) <==> GivesUpParented(was, snap, n, nowMs)
  {
    hide SweepAll, LeaseOver, OnceEach;
    var c := SweepAll(was, objs, snap, n, nowMs, retainMs).cat;
    forall x ensures RowOf(was, c, snap, n, nowMs, x) { SweepRow(was, objs, snap, n, nowMs, retainMs, x); }
    forall p, x | p != "" && p in was && p !in c ensures !ChildOf(c, x, p)
    {
      SweepSafe(was, objs, snap, n, nowMs, retainMs, p, x);
    }
    ChainsExactly(was, c, snap, n, nowMs);
  }

  /** The record of x: from the row that gave it up, or as it was. */
  ghost predicate RowOf(was: Catalog, c: Catalog, snap: seq<Listed>, n: nat, nowMs: int, x: string)
  {
    && (forall k :: GaveUp(snap, n, nowMs, k) && snap[k].id == x ==> x in c && c[x].parent == snap[k].i.parent)
    && (x in c && (forall k :: GaveUp(snap, n, nowMs, k) ==> snap[k].id != x) ==> x in was && c[x] == was[x])
  }

  lemma SweepRow(was: Catalog, objs: set<string>, snap: seq<Listed>, n: nat, nowMs: int, retainMs: int, x: string)
    requires OnceEach(snap) && n <= |snap| && SweepAll(was, objs, snap, n, nowMs, retainMs).ok
    ensures RowOf(was, SweepAll(was, objs, snap, n, nowMs, retainMs).cat, snap, n, nowMs, x)
  {
    hide SweepAll, LeaseOver, OnceEach;
    SweepRewrites(was, objs, snap, n, nowMs, retainMs, x);
    var c := SweepAll(was, objs, snap, n, nowMs, retainMs).cat;
    if x in c && forall k :: GaveUp(snap, n, nowMs, k) ==> snap[k].id != x {
      forall k | 0 <= k < n && snap[k].id == x ensures !LeaseOver(snap[k].i, nowMs)
      {
        assert !GaveUp(snap, n, nowMs, k);
      }
    }
  }

  lemma ChainsExactly(was: Catalog, c: Catalog, snap: seq<Listed>, n: nat, nowMs: int)
    requires ChainClosed(was) && forall x :: RowOf(was, c, snap, n, nowMs, x)
    requires forall p, x :: p != "" && p in was && p !in c ==> !ChildOf(c, x, p)
    ensures ChainClosed(c) <==> GivesUpParented(was, snap, n, nowMs)
  {
    hide LeaseOver;
    if ChainClosed(c) {
      forall k | GaveUp(snap, n, nowMs, k) && snap[k].i.parent != ""
        ensures snap[k].i.parent in was || exists j :: GaveUp(snap, n, nowMs, j) && snap[j].id == snap[k].i.parent
      {
        assert RowOf(was, c, snap, n, nowMs, snap[k].id) && RowOf(was, c, snap, n, nowMs, snap[k].i.parent);
      }
    }
    if GivesUpParented(was, snap, n, nowMs) {
      forall x | x in c && c[x].parent != "" ensures c[x].parent in c
      {
        assert RowOf(was, c, snap, n, nowMs, x) && RowOf(was, c, snap, n, nowMs, c[x].parent);
        assert ChildOf(c, x, c[x].parent);
      }
    }
  }

  /** So a listing taken before a chain was deleted brings its running child back, without the parent. */
  lemma StaleSweepBreaksAChain()
    ensures var r := SweepAll(map[], {}, [Listed("b", Intent("a", Running, 10, 0, 0))], 1, 11, 1000);
      ChainClosed(map[]) && r.ok && !ChainClosed(r.cat)
  {
    var snap := [Listed("b", Intent("a", Running, 10, 0, 0))];
    var st := SweepAll(map[], {}, snap, 0, 11, 1000);
    var t := SweepOne(snap, st, snap[0], 11, 1000);
    assert ChildOf(t.cat, "b", "a") && "a" !in t.cat;
  }

  /** And a listing taken before a backup completed turns the completed backup into a failed one. */
  lemma StaleSweepFailsACompletedBackup()
    ensures var done := Intent("", Complete, 10, 0, 5);
      var snap := [Listed("b", Intent("", Running, 10, 0, 0))];
      var r := SweepAll(map["b" := done], {}, snap, 1, 11, 1000);
      r.ok && "b" in r.cat && r.cat["b"].status == Failed && r.cat["b"].retainUntilMs == 1011
  {
    var snap := [Listed("b", Intent("", Running, 10, 0, 0))];
    var st := SweepAll(map["b" := Intent("", Complete, 10, 0, 5)], {}, snap, 0, 11, 1000);
    assert SweepOne(snap, st, snap[0], 11, 1000).ok;
  }
}
