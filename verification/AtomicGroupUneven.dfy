/**
 The condition on tables is needed: every run that starts to dispatch a table that does
 not cut evenly can be continued to one that starts an event without the lock.
 */
module AtomicGroupUneven {
  import opened AtomicGroupModel
  import opened AtomicGroupWork
  import opened AtomicGroupTheorems
  import opened Traces

  type Run = Trace<State, Action>

  ghost predicate IsTrace(tr: Run) {
    IsRun(tr.run, tr.who, tr.acts)
  }

  /** One more step. */
  lemma Then(tr: Run, c: nat, a: Action) returns (u: Run)
    requires IsTrace(tr) && Enabled(Last(tr), c, a)
    ensures IsTrace(u) && Continues(tr, u) && |u.run| == |tr.run| + 1 && Last(u) == Step(Last(tr), c, a)
  {
    u := Longer(tr, c, a, Step(Last(tr), c, a));
    forall i | 0 <= i < |u.who|
      ensures Enabled(u.run[i], u.who[i], u.acts[i]) && u.run[i + 1] == Step(u.run[i], u.who[i], u.acts[i])
    {
      if i < |tr.who| {
        assert Enabled(tr.run[i], tr.who[i], tr.acts[i]) && tr.run[i + 1] == Step(tr.run[i], tr.who[i], tr.acts[i]);
      }
    }
  }

  lemma Begin(run: seq<State>, who: seq<nat>, acts: seq<Action>, k: nat) returns (tr: Run)
    requires IsRun(run, who, acts) && k <= |who|
    ensures IsTrace(tr) && Continues(tr, Trace(run, who, acts)) && |tr.run| == k + 1 && Last(tr) == run[k]
  {
    tr := First(Trace(run, who, acts), k);
    forall i | 0 <= i < k
      ensures Enabled(tr.run[i], tr.who[i], tr.acts[i]) && tr.run[i + 1] == Step(tr.run[i], tr.who[i], tr.acts[i])
    {
      assert Enabled(run[i], who[i], acts[i]) && run[i + 1] == Step(run[i], who[i], acts[i]);
    }
  }

  /** Core c is in a dispatch that it started under the lock, with this work. */
  ghost predicate Works(s: State, c: nat, w: Work) {
    c < |s.cores| && s.cores[c].pc == Dispatching(w) && !s.cores[c].released
  }

  lemma ReceiveOnce(tr: Run, c: nat, w: Work) returns (u: Run)
    requires IsTrace(tr) && Works(Last(tr), c, w) && WorkFits(w) && CanReceive(w)
    ensures IsTrace(u) && Continues(tr, u) && Works(Last(u), c, Receive(w)) && WorkFits(Receive(w))
  {
    ReceiveFits(w);
    u := Then(tr, c, Go(0));
  }

  lemma {:induction false} StillFits(w: Work, n: nat)
    requires WorkFits(w)
    ensures WorkFits(AfterReceives(w, n))
    decreases n
  {
    if n > 0 && CanReceive(w) {
      ReceiveFits(w);
      StillFits(Receive(w), n - 1);
    }
  }

  /** n receive calls, or as many as there are. */
  lemma {:induction false} ReceiveOn(tr: Run, c: nat, w: Work, n: nat) returns (u: Run)
    requires IsTrace(tr) && Works(Last(tr), c, w) && WorkFits(w)
    ensures IsTrace(u) && Continues(tr, u)
    ensures Works(Last(u), c, AfterReceives(w, n))
    decreases n
  {
    u := tr;
    if n > 0 && CanReceive(w) {
      var mid := ReceiveOnce(tr, c, w);
      u := ReceiveOn(mid, c, Receive(w), n - 1);
      StillContinues(tr, mid, u);
    }
  }

  lemma Release(tr: Run, c: nat, w: Work) returns (u: Run)
    requires IsTrace(tr) && Works(Last(tr), c, w) && w.burst == 0
    ensures IsTrace(u) && Continues(tr, u) && c < |Last(u).cores| && Last(u).word.lock == 0
    ensures Last(u).cores[c].pc == Dispatching(w) && Last(u).cores[c].released
  {
    u := Then(tr, c, ProcessingEnd);
    u := Then(u, c, Go(0));
    u := Then(u, c, Go(0));
  }

  /** With `event_burst_cnt` 0 and events left: the lock is released, and the next event started. */
  lemma EarlyZeroStarts(tr: Run, c: nat, w: Work) returns (u: Run, v: Run)
    requires IsTrace(tr) && Works(Last(tr), c, w) && WorkFits(w) && w.burst == 0 && w.rest != []
    ensures IsTrace(u) && Continues(tr, u) && IsTrace(v) && Continues(u, v) && |v.run| == |u.run| + 1
    ensures StartsWithoutLock(Last(u), Last(v), c)
  {
    u := Release(tr, c, w);
    ReceiveFits(w);
    v := Then(u, c, Go(0));
    var len := w.plan[0].len;
    assert Last(v).log == Last(u).log + w.rest[..len] && |w.rest[..len]| == len;
  }

  /** Nobody has the lock, and core c starts an event. */
  ghost predicate StartsWithoutLock(s: State, t: State, c: nat) {
    c < |s.cores| && s.word.lock == 0 && !Holds(s.cores[c]) && s.log <= t.log && |s.log| < |t.log|
  }

  lemma EmptyCutsEvenly(s: State)
    ensures TableCutsEvenly(s, [])
  {
  }

  /** The core has just taken an uneven table. */
  lemma StartsUneven(s: State, c: nat, a: Action) returns (w: Work)
    requires Enabled(s, c, a) && Inv(s) && !StartsEvenly(s, c, a)
    ensures Works(Step(s, c, a), c, w) && WorkFits(w) && !EndsOnlyAtEnd(w)
  {
    var tbl := if s.cores[c].pc.AcquireIfIdle? then s.cores[c].pc.burst else s.cores[c].pc.tbl;
    EmptyCutsEvenly(s);
    w := NewWork(s.queues, s.group, tbl);
    EarlyEndIff(s, tbl);
    NewWorkFits(s, tbl);
  }

  /**
   Whenever a run starts a table that does not cut evenly, it can go on from there to a
   state in which nobody has the lock, and the core starts an event.
   */
  lemma UnevenStartsWithoutLock(run: seq<State>, who: seq<nat>, acts: seq<Action>, i: nat) returns (u: Run, v: Run)
    requires IsRun(run, who, acts) && i < |who| && !StartsEvenly(run[i], who[i], acts[i])
    ensures IsTrace(u) && run[..i + 2] <= u.run && IsTrace(v) && Continues(u, v) && |v.run| == |u.run| + 1
    ensures StartsWithoutLock(Last(u), Last(v), who[i])
  {
    RunInv(run, who, acts, i);
    assert Enabled(run[i], who[i], acts[i]);
    var w := StartsUneven(run[i], who[i], acts[i]);
    var n: nat :| AfterReceives(w, n).burst == 0 && AfterReceives(w, n).rest != [];
    var tr := Begin(run, who, acts, i + 1);
    assert tr.run == run[..i + 2];
    StillFits(w, n);
    u := ReceiveOn(tr, who[i], w, n);
    u, v := EarlyZeroStarts(u, who[i], AfterReceives(w, n));
  }
}
