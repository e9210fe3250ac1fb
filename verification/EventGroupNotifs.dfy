/**
 Which notifications a finished group sends. The table is written before the
 compare-and-swap that decides whose apply it is, so an apply that loses can leave its
 notifications behind: exactly when that happens, and that it cannot while at most one
 core has read that the group is free and not yet tried to apply it.
 */
module EventGroupNotifs {
  import opened EventGroupModel
  import opened EventGroupTheorems
  import opened EventGroupRuns
  import opened Traces

  /** An applied group has the notifications in its table that its apply asked for. */
  ghost predicate TableRight(s: State) {
    s.counter.applied ==> s.ordered != [] && s.table == s.ordered[|s.ordered| - 1]
  }

  /** An apply writes other notifications over those of an applied group, or succeeds with other ones in the table. */
  predicate Mixes(s: State, c: nat, a: Action)
    requires c < |s.cores|
  {
    var pc := s.cores[c];
    a.Go? && (pc.ApplyWrite? || pc.ApplyCas?) && pc.notifs != s.table
    && if pc.ApplyWrite? then s.counter.applied else pc.seen == s.counter
  }

  lemma MixesIff(s: State, c: nat, a: Action)
    requires Enabled(s, c, a) && CoresOk(s) && TableRight(s)
    ensures TableRight(Step(s, c, a)) <==> !Mixes(s, c, a)
  {
    assert CoreOk(s.cores[c]);
  }

  /** In its first k steps the run mixes nothing up. */
  ghost predicate NeverMixes(run: seq<State>, who: seq<nat>, acts: seq<Action>, k: nat)
    requires IsRun(run, who, acts) && k <= |who|
  {
    forall i :: 0 <= i < k ==> !Mixes(run[i], who[i], acts[i])
  }

  ghost predicate AlwaysRight(run: seq<State>, k: nat)
    requires k < |run|
  {
    forall i :: 0 <= i <= k ==> TableRight(run[i])
  }

  /** For every run: the table is right all along if and only if no step mixes it up. */
  lemma {:induction false} TableRightIff(run: seq<State>, who: seq<nat>, acts: seq<Action>, k: nat)
    requires IsRun(run, who, acts) && k <= |who|
    ensures AlwaysRight(run, k) <==> NeverMixes(run, who, acts, k)
  {
    if k > 0 {
      TableRightIff(run, who, acts, k - 1);
      assert AlwaysRight(run, k) <==> AlwaysRight(run, k - 1) && TableRight(run[k]);
      assert NeverMixes(run, who, acts, k) <==>
             NeverMixes(run, who, acts, k - 1) && !Mixes(run[k - 1], who[k - 1], acts[k - 1]);
      if AlwaysRight(run, k - 1) {
        RunCoresOk(run, who, acts, k - 1);
        MixesIff(run[k - 1], who[k - 1], acts[k - 1]);
      }
    }
  }

  // ----- from the table to what is sent

  /** A core that is about to end the last receive has copied the table of its cycle. */
  ghost predicate CopyOk(s: State, c: nat)
    requires c < |s.cores| == |s.since|
  {
    var pc := s.cores[c];
    pc.PostCas? && Live(s, c) && PostTaken(pc.seen, pc.decr).post == 0 ==> pc.notifs == s.table
  }

  ghost predicate SentInv(s: State) {
    && TableRight(s) && s.sent <= s.ordered && |s.cores| == |s.since|
    && forall c :: 0 <= c < |s.cores| ==> CopyOk(s, c)
  }

  lemma StepKeepsCopies(s: State, c: nat, a: Action, d: nat)
    requires Enabled(s, c, a) && Inv(s) && SentInv(s) && !Mixes(s, c, a) && d < |s.cores|
    ensures var t := Step(s, c, a); |t.cores| == |t.since| == |s.cores| && CopyOk(t, d)
  {
    assert CoreOk(s.cores[c]) && CopyOk(s, d) && GenOk(s, d);
  }

  lemma StepKeepsSent(s: State, c: nat, a: Action)
    requires Enabled(s, c, a) && Inv(s) && NoneOutlives(s) && SentInv(s) && !Mixes(s, c, a)
    ensures Step(s, c, a).sent <= Step(s, c, a).ordered
  {
    var pc := s.cores[c];
    assert CoreOk(pc) && CopyOk(s, c);
    if pc.PostCas? && Exchanges(s, c, a) && s.counter.post == pc.decr {
      LastFinishes(s, c);
      assert s.ordered == s.sent + [s.table];
    }
  }

  lemma StepKeepsSentInv(s: State, c: nat, a: Action)
    requires Enabled(s, c, a) && Inv(s) && NoneOutlives(s) && SentInv(s) && !Mixes(s, c, a)
    ensures SentInv(Step(s, c, a))
  {
    MixesIff(s, c, a);
    StepKeepsSent(s, c, a);
    forall d | 0 <= d < |s.cores| ensures CopyOk(Step(s, c, a), d) {
      StepKeepsCopies(s, c, a, d);
    }
  }

  /** While nothing is mixed up, what was obtained to send is what the applies asked for:
      the first apply's notifications first, and so on, except those that were aborted. */
  lemma {:induction false} SentAsOrdered(run: seq<State>, who: seq<nat>, acts: seq<Action>, i: nat)
    requires IsRun(run, who, acts) && i < |run| && Timely(run, i) && NeverMixes(run, who, acts, i)
    ensures SentInv(run[i]) && run[i].sent <= run[i].ordered
    ensures |run[i].ordered| <= |run[i].sent| + 1
  {
    RunInv(run, who, acts, i);
    if i > 0 {
      SentAsOrdered(run, who, acts, i - 1);
      RunInv(run, who, acts, i - 1);
      StepKeepsSentInv(run[i - 1], who[i - 1], acts[i - 1]);
    }
  }

  // ----- one core past its load

  /** The core has read that the group is free, and has not tried to apply it yet. */
  predicate PastLoad(pc: Pc) {
    pc.ApplyWrite? || pc.ApplyCas?
  }

  ghost predicate OnePastLoad(s: State) {
    forall c, d :: 0 <= c < |s.cores| && 0 <= d < |s.cores| && PastLoad(s.cores[c]) && PastLoad(s.cores[d]) ==> c == d
  }

  ghost predicate Undisturbed(s: State, pc: Pc) {
    && (PastLoad(pc) ==> !s.counter.applied)
    && (pc.ApplyCas? ==> s.table == pc.notifs)
  }

  ghost predicate AllUndisturbed(s: State) {
    forall c :: 0 <= c < |s.cores| ==> Undisturbed(s, s.cores[c])
  }

  lemma StepKeepsUndisturbed(s: State, c: nat, a: Action)
    requires Enabled(s, c, a) && CoresOk(s) && AllUndisturbed(s) && OnePastLoad(s)
    ensures AllUndisturbed(Step(s, c, a)) && !Mixes(s, c, a)
  {
    var t := Step(s, c, a);
    assert CoreOk(s.cores[c]) && Undisturbed(s, s.cores[c]);
    forall d | 0 <= d < |t.cores| ensures Undisturbed(t, t.cores[d]) {
      if d != c {
        assert t.cores[d] == s.cores[d] && Undisturbed(s, s.cores[d]);
      }
    }
  }

  lemma {:induction false} OneNeverMixes(run: seq<State>, who: seq<nat>, acts: seq<Action>, k: nat)
    requires IsRun(run, who, acts) && k <= |who| && forall i :: 0 <= i < k ==> OnePastLoad(run[i])
    ensures NeverMixes(run, who, acts, k) && AllUndisturbed(run[k])
  {
    if k > 0 {
      OneNeverMixes(run, who, acts, k - 1);
      RunCoresOk(run, who, acts, k - 1);
      StepKeepsUndisturbed(run[k - 1], who[k - 1], acts[k - 1]);
    }
  }

  /** While at most one core at a time is past its load, the notifications sent are those ordered. */
  lemma NotifiedAsOrdered(run: seq<State>, who: seq<nat>, acts: seq<Action>, i: nat)
    requires IsRun(run, who, acts) && i < |run| && Timely(run, i)
    requires forall k :: 0 <= k < i ==> OnePastLoad(run[k])
    ensures run[i].sent <= run[i].ordered && |run[i].ordered| <= |run[i].sent| + 1
    ensures TableRight(run[i])
  {
    OneNeverMixes(run, who, acts, i);
    SentAsOrdered(run, who, acts, i);
  }

  // ----- two cores past their load

  /** Core c can still apply the group, and d is about to write other notifications. */
  ghost predicate Overlap(s: State, c: nat, d: nat) {
    && c < |s.cores| == |s.since| && d < |s.cores| && c != d
    && PastLoad(s.cores[c]) && s.cores[c].seen == s.counter
    && s.cores[d].ApplyWrite? && s.cores[d].notifs != s.cores[c].notifs
  }

  /** Core c applies the group with the notifications of core d in the table. */
  lemma AppliesWithOther(tr: Run, c: nat, d: nat) returns (u: Run)
    requires IsTrace(tr) && Overlap(Last(tr), c, d)
    ensures IsTrace(u) && Continues(tr, u)
    ensures var s, t := Last(tr), Last(u);
      && t.ordered == s.ordered + [s.cores[c].notifs] && t.table == s.cores[d].notifs && t.sent == s.sent
      && t.counter == Applied(s.counter, s.cores[c].count)
      && |t.cores| == |t.since| == |s.cores| && t.cores[c].Outside?
  {
    u := tr;
    if Last(tr).cores[c].ApplyWrite? {
      u := Then(tr, c, Go);
    }
    u := Then(u, d, Go);
    u := Then(u, c, Go);
  }

  /** Every run that comes to such an overlap can be continued to one that sends the wrong notifications. */
  lemma OverlapMixesUp(tr: Run, c: nat, d: nat) returns (u: Run)
    requires IsTrace(tr) && Overlap(Last(tr), c, d) && Timely(tr.run, |tr.run| - 1)
    ensures IsTrace(u) && Continues(tr, u)
    ensures var s, t := Last(tr), Last(u);
      && t.ordered == s.ordered + [s.cores[c].notifs] && t.sent == s.sent + [s.cores[d].notifs]
      && |t.sent| == |t.ordered| && !(t.sent <= t.ordered)
  {
    RunInv(tr.run, tr.who, tr.acts, |tr.run| - 1);
    assert CoreOk(Last(tr).cores[c]);
    u := AppliesWithOther(tr, c, d);
    u := ReceiveAll(u, c);
    var t := Last(u);
    assert t.sent[|t.sent| - 1] != t.ordered[|t.sent| - 1];
  }

  /** From the start: two cores apply at once, one succeeds and the other's notifications are sent. */
  lemma WrongNotifsRun(s: State, m: seq<Notif>, n: seq<Notif>) returns (u: Run)
    requires Init(s) && |s.cores| >= 2 && |m| <= MAX_NOTIF && |n| <= MAX_NOTIF && m != n
    ensures IsTrace(u) && u.run[0] == s && Last(u).ordered == [m] && Last(u).sent == [n]
  {
    u := Trace([s], [], []);
    u := Then(u, 0, Apply(1, m));
    u := Then(u, 1, Apply(1, n));
    u := Then(u, 0, Go);
    u := Then(u, 1, Go);
    u := AppliesWithOther(u, 0, 1);
    u := ReceiveAll(u, 0);
  }
}
