/** Write coalescing (proposer.go): several callers' commands become one Raft entry, and each caller gets the
    result of its own command back. */
module Proposer {
  import opened Bytes
  import opened Codec
  import M = Machine
  import C = Cardinality
  import E = ExactlyOnce
  import G = ResultRange

  /** The error of a cancelled context, a failed proposal, or a result that does not decode. */
  datatype Error = Cancelled(code: nat) | Failed(code: nat) | ShortResult

  datatype Reply = Ok(r: PResult) | Err(e: Error)

  /** What proposing an entry to the shard returns. */
  type Answer = bytes -> Reply

  class Channel {
    var sent: seq<Reply>

    constructor ()
      ensures sent == []
    {
      sent := [];
    }
  }

  /** A queued proposal; done is the error of its context once that is over. */
  datatype Job = Job(cmd: bytes, done: Option<nat>, ch: Channel)

  // ---------------------------------------------------------------- specification

  /** The jobs whose context is not over, in order. */
  function Live(jobs: seq<Job>): seq<Job>
  {
    if jobs == [] then [] else
    var j := jobs[|jobs| - 1];
    Live(jobs[..|jobs| - 1]) + if j.done.None? then [j] else []
  }

  function Cmds(jobs: seq<Job>): (cs: seq<bytes>)
    ensures |cs| == |jobs|
  {
    seq(|jobs|, i requires 0 <= i < |jobs| => jobs[i].cmd)
  }

  /** A live job stands at the place its rank among the live ones says. */
  lemma {:induction false} LiveRank(jobs: seq<Job>, i: nat)
    requires i < |jobs| && jobs[i].done.None?
    ensures |Live(jobs[..i])| < |Live(jobs)| && Live(jobs)[|Live(jobs[..i])|] == jobs[i]
    decreases |jobs|
  {
    var n := |jobs| - 1;
    if i < n {
      LiveRank(jobs[..n], i);
      assert jobs[..n][..i] == jobs[..i];
    }
  }

  /** The replies to the live commands, in order. */
  function LiveReplies(cmds: seq<bytes>, ask: Answer): (rs: seq<Reply>)
    ensures |rs| == |cmds|
  {
    if cmds == [] then []
    else if |cmds| == 1 then [ask(cmds[0])]
    else
      var a := ask(EncodeBatch(cmds));
      if a.Err? then seq(|cmds|, _ => a) else
      var rs := DecodeBatchResult(a.r.data, |cmds|);
      if rs.None? || |rs.value| != |cmds| then seq(|cmds|, _ => Err(ShortResult))
      else seq(|cmds|, i requires 0 <= i < |cmds| => Ok(rs.value[i]))
  }

  /** The one reply of the i-th job. */
  function ReplyTo(jobs: seq<Job>, ask: Answer, i: nat): Reply
    requires i < |jobs|
  {
    if jobs[i].done.Some? then Err(Cancelled(jobs[i].done.value)) else
    LiveRank(jobs, i);
    LiveReplies(Cmds(Live(jobs)), ask)[|Live(jobs[..i])|]
  }

  // ---------------------------------------------------------------- dispatch

  ghost predicate Distinct(jobs: seq<Job>)
  {
    forall i, j :: 0 <= i < j < |jobs| ==> jobs[i].ch != jobs[j].ch
  }

  ghost function Channels(jobs: seq<Job>): set<Channel> { set i | 0 <= i < |jobs| :: jobs[i].ch }

  lemma {:induction false} LiveMembers(jobs: seq<Job>, t: nat)
    requires t < |Live(jobs)|
    ensures Live(jobs)[t] in jobs && Live(jobs)[t].done.None?
  {
    var n := |jobs| - 1;
    if t < |Live(jobs[..n])| { LiveMembers(jobs[..n], t); }
  }

  lemma {:induction false} LiveDistinct(jobs: seq<Job>)
    requires Distinct(jobs)
    ensures Distinct(Live(jobs)) && Channels(Live(jobs)) <= Channels(jobs)
  {
    if jobs != [] {
      var n := |jobs| - 1;
      var h := Live(jobs[..n]);
      LiveDistinct(jobs[..n]);
      forall t | 0 <= t < |h| ensures h[t].ch != jobs[n].ch { LiveMembers(jobs[..n], t); }
      forall c | c in Channels(Live(jobs)) ensures c in Channels(jobs)
      {
        var t :| 0 <= t < |Live(jobs)| && Live(jobs)[t].ch == c;
        LiveMembers(jobs, t);
      }
    }
  }

  /** Sends rs[t] to the t-th job. */
  method SendAll(jobs: seq<Job>, rs: seq<Reply>)
    requires Distinct(jobs) && |rs| == |jobs|
    modifies Channels(jobs)
    ensures forall t :: 0 <= t < |jobs| ==> jobs[t].ch.sent == old(jobs[t].ch.sent) + [rs[t]]
  {
    for i := 0 to |jobs|
      invariant forall t :: 0 <= t < i ==> jobs[t].ch.sent == old(jobs[t].ch.sent) + [rs[t]]
      invariant forall t :: i <= t < |jobs| ==> jobs[t].ch.sent == old(jobs[t].ch.sent)
    {
      jobs[i].ch.sent := jobs[i].ch.sent + [rs[i]];
    }
  }

  lemma LiveNone()
    ensures Live([]) == []
  {
  }

  lemma LiveNext(js: seq<Job>, i: nat)
    requires i < |js|
    ensures Live(js[..i + 1]) == Live(js[..i]) + if js[i].done.None? then [js[i]] else []
  {
    assert js[..i + 1][..i] == js[..i];
  }

  /** The first loop of dispatch: answers cancelled jobs and moves the others to the front of the slice. */
  method FilterLive(jobs: array<Job>) returns (n: nat)
    requires Distinct(jobs[..])
    modifies jobs, Channels(jobs[..])
    ensures n <= jobs.Length && jobs[..n] == Live(old(jobs[..]))
    ensures forall i :: 0 <= i < jobs.Length ==> var j := old(jobs[i]);
      j.ch.sent == old(jobs[i].ch.sent) + if j.done.Some? then [Err(Cancelled(j.done.value))] else []
  {
    hide Live;
    ghost var js := jobs[..];
    LiveNone();
    n := 0;
    for i := 0 to jobs.Length
      invariant n <= i && jobs[..n] == Live(js[..i])
      invariant forall k :: i <= k < jobs.Length ==> jobs[k] == js[k]
      invariant forall k :: i <= k < jobs.Length ==> js[k].ch.sent == old(js[k].ch.sent)
      invariant forall k :: 0 <= k < i ==>
        js[k].ch.sent == old(js[k].ch.sent) + if js[k].done.Some? then [Err(Cancelled(js[k].done.value))] else []
    {
      var j := jobs[i];
      LiveNext(js, i);
      if j.done.Some? {
        j.ch.sent := j.ch.sent + [Err(Cancelled(j.done.value))];
      } else {
        jobs[n] := j;
        n := n + 1;
        assert jobs[..n] == jobs[..n - 1] + [j];
      }
    }
    assert js[..jobs.Length] == js;
  }

  method Propose(live: seq<Job>, ask: Answer)
    requires Distinct(live)
    modifies Channels(live)
    ensures forall t :: 0 <= t < |live| ==>
      live[t].ch.sent == old(live[t].ch.sent) + [LiveReplies(Cmds(live), ask)[t]]
  {
    hide DecodeBatchResult, EncodeBatch;
    if |live| == 0 { return; }
    if |live| == 1 {
      SendAll(live, [ask(live[0].cmd)]);
      return;
    }
    var cmds: seq<bytes> := [];
    for i := 0 to |live|
      invariant cmds == Cmds(live[..i])
    {
      cmds := cmds + [live[i].cmd];
    }
    assert live[..|live|] == live;
    var enc := EncodeBatchInto(cmds);
    var a := ask(enc);
    if a.Err? {
      SendAll(live, seq(|live|, _ => a));
      return;
    }
    var rs := DecodeBatchResult(a.r.data, |live|);
    if rs.None? || |rs.value| != |live| {
      SendAll(live, seq(|live|, _ => Err(ShortResult)));
      return;
    }
    SendAll(live, seq(|live|, i requires 0 <= i < |live| => Ok(rs.value[i])));
  }

  /** dispatch: every job gets exactly one reply, its own. */
  method Dispatch(jobs: array<Job>, ask: Answer)
    requires Distinct(jobs[..])
    modifies jobs, Channels(jobs[..])
    ensures forall i :: 0 <= i < jobs.Length ==>
      old(jobs[i]).ch.sent == old(jobs[i].ch.sent) + [ReplyTo(old(jobs[..]), ask, i)]
  {
    ghost var js := jobs[..];
    LiveDistinct(js);
    var n := FilterLive(jobs);
    var live := jobs[..n];
    label mid:
    Propose(live, ask);
    forall i | 0 <= i < |js| ensures js[i].ch.sent == old(js[i].ch.sent) + [ReplyTo(js, ask, i)]
    {
      if js[i].done.None? {
        LiveRank(js, i);
      } else {
        NotLive(js, i);
      }
    }
  }

  lemma NotLive(jobs: seq<Job>, i: nat)
    requires Distinct(jobs) && i < |jobs| && jobs[i].done.Some?
    ensures jobs[i].ch !in Channels(Live(jobs))
  {
    forall t | 0 <= t < |Live(jobs)| ensures Live(jobs)[t].ch != jobs[i].ch { LiveMembers(jobs, t); }
  }

  /** Every command on a set, hash, sorted set or counter may share an entry; no budget command, freeze, migration or
      batch may. */
  lemma CoalescesExactly(cmd: bytes)
    ensures Coalescable(cmd) <==> cmd != [] && Mutates(cmd[0]) && !(16 <= cmd[0] <= 22)
    ensures Coalescable(cmd) ==> !M.IsBatch(cmd) && !M.IsFreeze(cmd) && !M.MigrateOp(cmd)
  {
  }

  /** A caller that gave up is told its own error, a caller alone gets the answer to its command, and when a
      coalesced proposal fails every caller in it is told why. */
  lemma OneReplyEach(jobs: seq<Job>, ask: Answer, i: nat)
    requires i < |jobs|
    ensures var live, r := Cmds(Live(jobs)), ReplyTo(jobs, ask, i);
      && (jobs[i].done.Some? ==> r == Err(Cancelled(jobs[i].done.value)))
      && (jobs[i].done.None? && |live| == 1 ==> r == ask(jobs[i].cmd))
      && (jobs[i].done.None? && |live| >= 2 && ask(EncodeBatch(live)).Err? ==> r == ask(EncodeBatch(live)))
  {
    hide Live, EncodeBatch, DecodeBatchResult;
    if jobs[i].done.None? { LiveRank(jobs, i); }
  }

  /** A caller that gave up changes no one else's reply. */
  lemma {:induction false} GoneUnheard(a: seq<Job>, j: Job, b: seq<Job>)
    requires j.done.Some?
    ensures Live(a + [j] + b) == Live(a + b)
    decreases |b|
  {
    if b == [] {
      assert (a + [j] + b)[..|a|] == a && a + b == a;
    } else {
      var n := |b| - 1;
      GoneUnheard(a, j, b[..n]);
      assert (a + [j] + b)[..|a| + 1 + n] == a + [j] + b[..n] && (a + b)[..|a| + n] == a + b[..n];
    }
  }

  // ---------------------------------------------------------------- through the state machine

  /** Proposing an entry that the state machine applies at view v of a batch begun on base. */
  function Asked(lib: M.Strconv, base: M.Data, v: M.View, cmd: bytes): Reply
  {
    if M.IsMigrate(cmd) then Err(Failed(0)) else
    var o := M.ApplyEntry(lib, base, v, cmd);
    Ok(if o.Skip? then PResult(0, []) else o.r)
  }

  lemma {:induction false} SubResults(lib: M.Strconv, base: M.Data, v: M.View, subs: seq<bytes>, k: nat)
    requires k < |subs| && M.ApplySubs(lib, base, v, subs).SubDone?
    ensures |M.ApplySubs(lib, base, v, subs).rs| == |subs|
    ensures var h := M.ApplySubs(lib, base, v, subs[..k]);
      && h.SubDone?
      && M.ApplyOne(lib, base, h.v, subs[k]).Done?
      && M.ApplySubs(lib, base, v, subs).rs[k] == M.ApplyOne(lib, base, h.v, subs[k]).r
    decreases |subs|
  {
    hide M.ApplyOne;
    var n := |subs| - 1;
    if k < n {
      SubResults(lib, base, v, subs[..n], k);
      assert subs[..n][..k] == subs[..k];
    } else if n > 0 {
      SubResults(lib, base, v, subs[..n], 0);
    }
  }

  /** The wrapper and the packed results are shorter than the 4 GiB that takeChunk's comparison allows. */
  ghost predicate Packable(lib: M.Strconv, base: M.Data, v: M.View, cmds: seq<bytes>)
  {
    && |EncodeBatch(cmds)| < TWO32
    && (var o := M.ApplySubs(lib, base, v, cmds); o.SubDone? ==> |EncodeBatchResult(o.rs)| < TWO32)
  }

  ghost predicate Served(lib: M.Strconv, base: M.Data, v: M.View, cmds: seq<bytes>, k: nat)
    requires k < |cmds|
  {
    var rs := LiveReplies(cmds, c => Asked(lib, base, v, c));
    if M.ApplySubs(lib, base, v, cmds).SubDone? then
      var h := M.ApplySubs(lib, base, v, cmds[..k]);
      h.SubDone? && M.ApplyOne(lib, base, h.v, cmds[k]).Done? && rs[k] == Ok(M.ApplyOne(lib, base, h.v, cmds[k]).r)
    else rs[k] == Err(ShortResult)
  }

  /** Coalescing is transparent: of two or more live commands, the k-th caller gets exactly the result its
      own command has when the commands run one after another; if one of them is refused by the state
      machine every caller is told so. */
  lemma Transparent(lib: M.Strconv, base: M.Data, v: M.View, cmds: seq<bytes>, k: nat)
    requires |cmds| >= 2 && k < |cmds| && Packable(lib, base, v, cmds) && G.InRange(base, v)
    ensures Served(lib, base, v, cmds, k)
  {
    hide M.ApplyOne, M.ApplySubs, EncodeBatchResult, DecodeBatchResult, DecodeBatch, EncodeChunks, BE, G.InRange;
    var b := EncodeBatch(cmds);
    BatchRoundTrip(cmds);
    assert b[0] == BATCH;
    var o := M.ApplySubs(lib, base, v, cmds);
    if o.SubDone? {
      SubResults(lib, base, v, cmds, k);
      G.SubsInRange(lib, base, v, cmds);
      BatchResultRoundTrip(o.rs);
    } else {
      ShortRefused(|cmds|);
    }
  }

  /** So it is at every point of every run from the empty store. */
  lemma TransparentInRuns(lib: M.Strconv, batches: seq<seq<M.Entry>>, es: seq<M.Entry>, cmds: seq<bytes>, k: nat)
    requires (forall i :: 0 <= i < |batches| ==> M.NoMigrate(batches[i])) && M.NoMigrate(es)
    requires |cmds| >= 2 && k < |cmds|
    requires var st := C.UpdateAll(lib, map[], batches);
      Packable(lib, M.Strip(st), M.Fold(lib, M.Strip(st), M.Start(st), es), cmds)
    ensures var st := C.UpdateAll(lib, map[], batches);
      Served(lib, M.Strip(st), M.Fold(lib, M.Strip(st), M.Start(st), es), cmds, k)
  {
    hide Packable, Served, C.UpdateAll, M.Fold, M.NoMigrate, G.InRange;
    G.ReachedInRange(lib, batches, es);
    var st := C.UpdateAll(lib, map[], batches);
    Transparent(lib, M.Strip(st), M.Fold(lib, M.Strip(st), M.Start(st), es), cmds, k);
  }

  /** The caller of a coalesced command reads from its entry's result the answer the command was given. */
  lemma CallerReads(lib: M.Strconv, base: M.Data, v: M.View, at: E.Spot, cmd: bytes, r: PResult, q: PResult)
    requires at.Within? && G.InRange(base, v) && E.Told(lib, base, v, at, cmd, r, q) && |r.data| < TWO32
    ensures var rs := DecodeBatchResult(r.data, |at.before| + 1 + |at.behind|);
      rs.Some? && |rs.value| == |at.before| + 1 + |at.behind| && rs.value[|at.before|] == q
  {
    hide M.ApplyOne, M.ApplySubs, EncodeBatchResult, DecodeBatchResult, G.InRange;
    var subs := at.before + [cmd] + at.behind;
    G.SubsInRange(lib, base, v, subs);
    BatchResultRoundTrip(M.ApplySubs(lib, base, v, subs).rs);
  }

  /** A command dispatched alone gets the same result; but when the state machine refuses it the caller sees
      a success with the zero result, where a batch reports an error. */
  lemma TransparentAlone(lib: M.Strconv, base: M.Data, v: M.View, cmd: bytes)
    requires Coalescable(cmd)
    ensures var o := M.ApplyOne(lib, base, v, cmd);
      LiveReplies([cmd], c => Asked(lib, base, v, c)) == [Ok(if o.Done? then o.r else PResult(0, []))]
  {
    hide M.ApplyOne;
  }

  lemma ShortRefused(n: nat)
    ensures DecodeBatchResult([], n) == None
  {
  }
}
