/**
 Fork and join is exact, over any number of applies and aborts: every apply that is
 not aborted is notified once, after its last receive, and a receive of an aborted
 cycle never counts for a later one.
 */
module EventGroupTheorems {
  import opened EventGroupModel
  import opened Seqs
  import G = GroupCount

  /** Admitted, and not yet off the post-count or turned away. */
  predicate InProgress(pc: Pc) {
    || pc.Receiving? || pc.IncLoad? || pc.IncCas? || pc.PostLoad? || pc.PostCopy? || pc.PostCas?
    || ((pc.AbortLoad? || pc.AbortCas?) && pc.decr > 0)
  }

  /** In em_event_group_apply(). */
  predicate InApply(pc: Pc) {
    pc.ApplyLoad? || pc.ApplyWrite? || pc.ApplyCas?
  }

  /** On the way to be admitted. */
  predicate Arriving(pc: Pc) {
    pc.PreLoad? || pc.PreCas? || pc.AssignLoad? || pc.AssignCas?
  }

  /** In progress in the cycle that the group is in. */
  ghost predicate Live(s: State, c: nat)
    requires c < |s.cores| == |s.since|
  {
    InProgress(s.cores[c]) && s.since[c] == s.applies && s.counter.applied
  }

  /** The events in progress of each core, of the cycle that the group is in. */
  ghost function Parts(s: State): (r: seq<nat>)
    requires |s.cores| == |s.since|
    ensures |r| == |s.cores|
    ensures forall c :: 0 <= c < |r| ==> r[c] == if Live(s, c) then s.cores[c].decr else 0
  {
    seq(|s.cores|, c requires 0 <= c < |s.cores| => if Live(s, c) then s.cores[c].decr else 0)
  }

  function Same(n: nat): nat { n }

  ghost function SumLive(s: State): nat
    requires |s.cores| == |s.since|
  {
    Sum(Parts(s), Same)
  }

  // ----- the invariants

  /** The generation of so many applies ago. */
  function GenBefore(gen: nat, applies: int): nat { (gen - applies) % GEN_MOD }

  /** What a core holds is of the generation in which it was admitted. */
  ghost predicate GenOk(s: State, c: nat)
    requires c < |s.cores| == |s.since|
  {
    && s.since[c] <= s.applies
    && (InProgress(s.cores[c]) ==> s.cores[c].gen == GenBefore(s.counter.gen, s.applies - s.since[c]))
  }

  /** What a core has read was valid for it when it read it, and it counts for something. */
  ghost predicate CoreOk(pc: Pc) {
    && (InProgress(pc) || Arriving(pc) ==> pc.decr >= 1)
    && (InApply(pc) ==> 1 <= pc.count <= CNT_MAX && |pc.notifs| <= MAX_NOTIF)
    && (pc.ApplyWrite? || pc.ApplyCas? ==> !pc.seen.applied)
    && (pc.PreCas? ==> ValidPre(pc.seen, pc.decr, pc.gen))
    && (pc.AssignCas? ==> ValidAssign(pc.seen, pc.decr))
    && (pc.IncCas? ==> ValidInc(pc.seen, pc.incr, pc.gen))
    && (pc.IncLoad? || pc.IncCas? ==> pc.incr >= 1)
    && (pc.PostCopy? || pc.PostCas? ==> ValidPost(pc.seen, pc.decr, pc.gen))
    && (pc.AbortCas? ==> pc.seen.applied)
  }

  /** What holds in every run whatsoever. */
  ghost predicate CoresOk(s: State) {
    && |s.cores| == |s.since| && s.counter.gen < GEN_MOD
    && (forall c :: 0 <= c < |s.cores| ==> CoreOk(s.cores[c]))
    && (forall c :: 0 <= c < |s.cores| ==> GenOk(s, c))
  }

  ghost predicate CountInv(s: State) {
    && |s.cores| == |s.since|
    && s.counter.post == s.counter.pre + SumLive(s)
    && (s.counter.applied <==> s.counter.post > 0)
    && s.counter.post <= CNT_MAX
    && |s.sent| + (if s.counter.applied then 1 else 0) == |s.ordered|
    && s.finished + s.counter.post == s.budget
  }

  ghost predicate Inv(s: State) {
    CoresOk(s) && CountInv(s)
  }

  /** No receive is in progress for as many applies as there are generations. */
  ghost predicate NoneOutlives(s: State) {
    forall c :: 0 <= c < |s.cores| == |s.since| && InProgress(s.cores[c]) ==> s.applies - s.since[c] < GEN_MOD
  }

  // ----- generations

  lemma GenAfterApply(gen: nat, k: int)
    requires gen < GEN_MOD
    ensures GenBefore((gen + 1) % GEN_MOD, k + 1) == GenBefore(gen, k)
  {
  }

  lemma GenEqualIff(gen: nat, k: nat)
    requires gen < GEN_MOD
    ensures GenBefore(gen, k) == gen <==> k % GEN_MOD == 0
  {
    var q := (gen - k) / GEN_MOD;
    assert gen - k == q * GEN_MOD + GenBefore(gen, k);
  }

  /** A core in progress has the group's generation just if it was admitted in this cycle, or whole periods ago. */
  lemma GenTells(s: State, c: nat)
    requires CoresOk(s) && c < |s.cores| && InProgress(s.cores[c])
    ensures s.cores[c].gen == s.counter.gen <==> (s.applies - s.since[c]) % GEN_MOD == 0
    ensures NoneOutlives(s) ==> (s.cores[c].gen == s.counter.gen <==> s.since[c] == s.applies)
  {
    assert GenOk(s, c);
    GenEqualIff(s.counter.gen, s.applies - s.since[c]);
  }

  // ----- steps: what every core knows

  lemma StepKeepsGenOf(s: State, c: nat, a: Action, d: nat)
    requires Enabled(s, c, a) && CoresOk(s) && d < |s.cores| && d != c
    ensures var t := Step(s, c, a);
      && |t.cores| == |s.cores| == |t.since| && t.cores[d] == s.cores[d] && t.since[d] == s.since[d]
      && GenOk(t, d)
  {
    assert GenOk(s, d) && CoreOk(s.cores[c]);
    GenAfterApply(s.counter.gen, s.applies - s.since[d]);
  }

  lemma CasKeepsOwn(s: State, c: nat)
    requires Enabled(s, c, Go) && CoresOk(s) && IsCas(s.cores[c])
    ensures CoreOk(Step(s, c, Go).cores[c])
  {
    assert CoreOk(s.cores[c]);
  }

  lemma QuietKeepsOwn(s: State, c: nat, a: Action)
    requires Enabled(s, c, a) && CoresOk(s) && (a.Go? ==> !IsCas(s.cores[c]))
    ensures CoreOk(Step(s, c, a).cores[c])
  {
    assert CoreOk(s.cores[c]);
  }

  lemma StepKeepsOwn(s: State, c: nat, a: Action)
    requires Enabled(s, c, a) && CoresOk(s)
    ensures CoreOk(Step(s, c, a).cores[c])
  {
    if a.Go? && IsCas(s.cores[c]) {
      CasKeepsOwn(s, c);
    } else {
      QuietKeepsOwn(s, c, a);
    }
  }

  lemma StepKeepsOwnGen(s: State, c: nat, a: Action)
    requires Enabled(s, c, a) && CoresOk(s)
    ensures var t := Step(s, c, a); |t.cores| == |t.since| == |s.cores| && GenOk(t, c) && t.counter.gen < GEN_MOD
  {
    assert CoreOk(s.cores[c]) && GenOk(s, c);
    GenEqualIff(s.counter.gen, 0);
    GenAfterApply(s.counter.gen, s.applies - s.since[c]);
  }

  lemma StepKeepsCoresOk(s: State, c: nat, a: Action)
    requires Enabled(s, c, a) && CoresOk(s)
    ensures CoresOk(Step(s, c, a))
  {
    var t := Step(s, c, a);
    StepKeepsOwnGen(s, c, a);
    StepKeepsOwn(s, c, a);
    forall d | 0 <= d < |t.cores| ensures GenOk(t, d) && CoreOk(t.cores[d]) {
      if d != c {
        StepKeepsGenOf(s, c, a, d);
        assert CoreOk(s.cores[d]);
      }
    }
  }

  // ----- steps: the counts

  lemma PartWithinSum(s: State, c: nat)
    requires |s.cores| == |s.since| && c < |s.cores|
    ensures Parts(s)[c] <= SumLive(s)
  {
    SumUpdate(Parts(s), Same, c, 0);
  }

  /** Only core c's part has changed. */
  lemma PartChanges(s: State, t: State, c: nat)
    requires |s.cores| == |s.since| == |t.cores| == |t.since| && c < |s.cores|
    requires forall d :: 0 <= d < |s.cores| && d != c ==> Parts(t)[d] == Parts(s)[d]
    ensures SumLive(t) == SumLive(s) - Parts(s)[c] + Parts(t)[c]
  {
    assert Parts(t) == Parts(s)[c := Parts(t)[c]];
    SumUpdate(Parts(s), Same, c, Parts(t)[c]);
  }

  lemma NoneLive(s: State)
    requires |s.cores| == |s.since| && forall d :: 0 <= d < |s.cores| ==> !Live(s, d)
    ensures SumLive(s) == 0
  {
    SumZeroIff(Parts(s), Same);
  }

  /** A core that is alone in progress. */
  lemma OthersNotLive(s: State, c: nat)
    requires CoresOk(s) && c < |s.cores| && SumLive(s) == Parts(s)[c]
    ensures forall d :: 0 <= d < |s.cores| && d != c ==> !Live(s, d)
  {
    var rest := Parts(s)[c := 0];
    SumUpdate(Parts(s), Same, c, 0);
    SumZeroIff(rest, Same);
    forall d | 0 <= d < |s.cores| && d != c ensures !Live(s, d) {
      assert rest[d] == Parts(s)[d] && CoreOk(s.cores[d]);
      assert Same(rest[d]) == 0;
    }
  }

  predicate IsCas(pc: Pc) {
    pc.ApplyCas? || pc.PreCas? || pc.AssignCas? || pc.IncCas? || pc.PostCas? || pc.AbortCas?
  }

  /** A core that may exchange the counter word finds it as it read it. */
  predicate Exchanges(s: State, c: nat, a: Action)
    requires c < |s.cores|
  {
    a.Go? && IsCas(s.cores[c]) && s.cores[c].seen == s.counter
  }

  /** The post-check passes exactly the receives of the cycle that the group is in. */
  lemma PostCheckTells(s: State, c: nat)
    requires Inv(s) && NoneOutlives(s) && c < |s.cores| && InProgress(s.cores[c])
    ensures ValidPost(s.counter, s.cores[c].decr, s.cores[c].gen) <==> Live(s, c)
  {
    GenTells(s, c);
    PartWithinSum(s, c);
    assert CoreOk(s.cores[c]);
  }

  /** What the step does to c's own part. */
  lemma QuietPart(s: State, c: nat, a: Action)
    requires Enabled(s, c, a) && Inv(s) && NoneOutlives(s) && !Exchanges(s, c, a)
    ensures var t := Step(s, c, a);
      && t == s.(cores := s.cores[c := t.cores[c]], table := t.table)
      && Parts(t)[c] == Parts(s)[c]
  {
    assert CoreOk(s.cores[c]);
    if InProgress(s.cores[c]) {
      PostCheckTells(s, c);
    }
  }

  lemma QuietKeepsCounts(s: State, c: nat, a: Action)
    requires Enabled(s, c, a) && Inv(s) && NoneOutlives(s) && !Exchanges(s, c, a)
    ensures CountInv(Step(s, c, a))
  {
    var t := Step(s, c, a);
    QuietPart(s, c, a);
    forall d | 0 <= d < |s.cores| && d != c ensures Parts(t)[d] == Parts(s)[d] {
      assert Live(t, d) <==> Live(s, d);
    }
    PartChanges(s, t, c);
  }

  lemma ApplyKeepsCounts(s: State, c: nat)
    requires Enabled(s, c, Go) && Inv(s) && s.cores[c].ApplyCas? && s.cores[c].seen == s.counter
    ensures CountInv(Step(s, c, Go))
  {
    var t := Step(s, c, Go);
    assert CoreOk(s.cores[c]);
    forall d | 0 <= d < |t.cores| ensures !Live(t, d) {
      assert GenOk(s, d);
    }
    NoneLive(t);
  }

  lemma AbortKeepsCounts(s: State, c: nat)
    requires Enabled(s, c, Go) && Inv(s) && s.cores[c].AbortCas? && s.cores[c].seen == s.counter
    ensures CountInv(Step(s, c, Go))
  {
    assert CoreOk(s.cores[c]);
    NoneLive(Step(s, c, Go));
  }

  lemma AdmitKeepsCounts(s: State, c: nat)
    requires Enabled(s, c, Go) && Inv(s) && (s.cores[c].PreCas? || s.cores[c].AssignCas?)
    requires s.cores[c].seen == s.counter
    ensures CountInv(Step(s, c, Go))
  {
    var t := Step(s, c, Go);
    assert CoreOk(s.cores[c]);
    forall d | 0 <= d < |s.cores| && d != c ensures Parts(t)[d] == Parts(s)[d] {
      assert Live(t, d) <==> Live(s, d);
    }
    PartChanges(s, t, c);
    assert Live(t, c) && !Live(s, c);
  }

  lemma IncKeepsCounts(s: State, c: nat)
    requires Enabled(s, c, Go) && Inv(s) && s.cores[c].IncCas? && s.cores[c].seen == s.counter
    ensures CountInv(Step(s, c, Go))
  {
    var t := Step(s, c, Go);
    assert CoreOk(s.cores[c]);
    forall d | 0 <= d < |s.cores| && d != c ensures Parts(t)[d] == Parts(s)[d] {
      assert Live(t, d) <==> Live(s, d);
    }
    PartChanges(s, t, c);
    assert Live(t, c) <==> Live(s, c);
  }

  /** The end of a receive that is not the last: the others go on. */
  lemma FinishKeepsCounts(s: State, c: nat)
    requires Enabled(s, c, Go) && Inv(s) && NoneOutlives(s) && s.cores[c].PostCas? && s.cores[c].seen == s.counter
    requires s.counter.post != s.cores[c].decr
    ensures CountInv(Step(s, c, Go))
  {
    var t := Step(s, c, Go);
    assert CoreOk(s.cores[c]);
    PostCheckTells(s, c);
    forall d | 0 <= d < |s.cores| && d != c ensures Parts(t)[d] == Parts(s)[d] {
      assert Live(t, d) <==> Live(s, d);
    }
    PartChanges(s, t, c);
  }

  /** The end of the last receive of the cycle. */
  lemma LastFinishes(s: State, c: nat)
    requires Enabled(s, c, Go) && Inv(s) && NoneOutlives(s) && s.cores[c].PostCas? && s.cores[c].seen == s.counter
    requires s.counter.post == s.cores[c].decr
    ensures CountInv(Step(s, c, Go)) && s.counter.pre == 0 && Live(s, c)
    ensures forall d :: 0 <= d < |s.cores| && d != c ==> !Live(s, d)
  {
    assert CoreOk(s.cores[c]);
    PostCheckTells(s, c);
    PartWithinSum(s, c);
    OthersNotLive(s, c);
    NoneLive(Step(s, c, Go));
  }

  lemma StepKeepsInv(s: State, c: nat, a: Action)
    requires Enabled(s, c, a) && Inv(s) && NoneOutlives(s)
    ensures Inv(Step(s, c, a))
  {
    StepKeepsCoresOk(s, c, a);
    var pc := s.cores[c];
    if !Exchanges(s, c, a) {
      QuietKeepsCounts(s, c, a);
    } else if pc.ApplyCas? {
      ApplyKeepsCounts(s, c);
    } else if pc.AbortCas? {
      AbortKeepsCounts(s, c);
    } else if pc.IncCas? {
      IncKeepsCounts(s, c);
    } else if pc.PostCas? && s.counter.post == pc.decr {
      LastFinishes(s, c);
    } else if pc.PostCas? {
      FinishKeepsCounts(s, c);
    } else {
      AdmitKeepsCounts(s, c);
    }
  }

  lemma InitInv(s: State)
    requires Init(s)
    ensures Inv(s)
  {
    NoneLive(s);
  }

  // ----- runs

  /** In the first k states of the run no receive outlives a period of generations. */
  ghost predicate Timely(run: seq<State>, k: nat)
    requires k <= |run|
  {
    forall i :: 0 <= i < k ==> NoneOutlives(run[i])
  }

  lemma {:induction false} RunCoresOk(run: seq<State>, who: seq<nat>, acts: seq<Action>, i: nat)
    requires IsRun(run, who, acts) && i < |run|
    ensures CoresOk(run[i])
  {
    if i == 0 {
      InitInv(run[0]);
    } else {
      RunCoresOk(run, who, acts, i - 1);
      StepKeepsCoresOk(run[i - 1], who[i - 1], acts[i - 1]);
    }
  }

  lemma {:induction false} RunInv(run: seq<State>, who: seq<nat>, acts: seq<Action>, i: nat)
    requires IsRun(run, who, acts) && i < |run| && Timely(run, i)
    ensures Inv(run[i])
  {
    if i == 0 {
      InitInv(run[0]);
    } else {
      RunInv(run, who, acts, i - 1);
      StepKeepsInv(run[i - 1], who[i - 1], acts[i - 1]);
    }
  }

  /** post_cnt = pre_cnt + what is in progress; everything applied and incremented
      is either still to finish or finished. */
  lemma CountsExact(run: seq<State>, who: seq<nat>, acts: seq<Action>, i: nat)
    requires IsRun(run, who, acts) && i < |run| && Timely(run, i)
    ensures |run[i].cores| == |run[i].since|
    ensures run[i].counter.post == run[i].counter.pre + SumLive(run[i]) <= CNT_MAX
    ensures run[i].finished + run[i].counter.pre + SumLive(run[i]) == run[i].budget
  {
    RunInv(run, who, acts, i);
  }

  /** In every run whatsoever, the post-check passes a receive just if it was admitted in this
      cycle, or whole periods of applies ago, and the count is there. */
  lemma CheckedIff(run: seq<State>, who: seq<nat>, acts: seq<Action>, i: nat, c: nat)
    requires IsRun(run, who, acts) && i < |run| && c < |run[i].cores| && InProgress(run[i].cores[c])
    ensures |run[i].cores| == |run[i].since|
    ensures var s, pc := run[i], run[i].cores[c];
      ValidPost(s.counter, pc.decr, pc.gen) <==>
        (s.applies - s.since[c]) % GEN_MOD == 0 && pc.decr <= s.counter.post
  {
    RunCoresOk(run, who, acts, i);
    GenTells(run[i], c);
  }

  /** A receive that was admitted is counted at its end just if its cycle was not aborted meanwhile. */
  lemma AdmittedIsCounted(run: seq<State>, who: seq<nat>, acts: seq<Action>, i: nat)
    requires IsRun(run, who, acts) && i < |who| && Timely(run, i + 1)
    requires acts[i].Go? && run[i].cores[who[i]].PostLoad?
    ensures |run[i].cores| == |run[i].since| && who[i] < |run[i].cores| == |run[i + 1].cores|
    ensures run[i + 1].cores[who[i]].PostCopy? <==> Live(run[i], who[i])
    ensures run[i + 1].cores[who[i]].Outside? <==> !Live(run[i], who[i])
  {
    RunInv(run, who, acts, i);
    assert Enabled(run[i], who[i], acts[i]);
    PostCheckTells(run[i], who[i]);
  }

  /** Each apply that is not aborted is notified exactly once: all but the one that is still applied. */
  lemma NotifiedOncePerApply(run: seq<State>, who: seq<nat>, acts: seq<Action>, i: nat)
    requires IsRun(run, who, acts) && i < |run| && Timely(run, i)
    ensures |run[i].ordered| == |run[i].sent| + (if run[i].counter.applied then 1 else 0)
  {
    RunInv(run, who, acts, i);
  }

  /** All that is in progress, if anything, was admitted in an earlier cycle. */
  ghost predicate NoneOfThisCycle(s: State) {
    |s.cores| == |s.since| && forall d :: 0 <= d < |s.cores| && InProgress(s.cores[d]) ==> s.since[d] < s.applies
  }

  /** The notifications are obtained in the step that ends the last receive of the cycle:
      nothing is left to start, nothing of it is in progress, and all that was counted is finished. */
  lemma NotifiedAfterLastReceive(run: seq<State>, who: seq<nat>, acts: seq<Action>, i: nat)
    requires IsRun(run, who, acts) && i < |who| && Timely(run, i + 1) && run[i + 1].sent != run[i].sent
    ensures |run[i + 1].sent| == |run[i].sent| + 1 && run[i + 1].sent[..|run[i].sent|] == run[i].sent
    ensures run[i].counter.applied && run[i + 1].counter.pre == 0 && !run[i + 1].counter.applied
    ensures run[i + 1].finished == run[i + 1].budget
    ensures NoneOfThisCycle(run[i + 1])
  {
    RunInv(run, who, acts, i);
    var s, c, t := run[i], who[i], run[i + 1];
    assert Enabled(s, c, acts[i]) && t == Step(s, c, acts[i]) && s.cores[c].PostCas?;
    assert CoreOk(s.cores[c]);
    LastFinishes(s, c);
    forall d | 0 <= d < |t.cores| && InProgress(t.cores[d]) ensures t.since[d] < t.applies {
      assert GenOk(s, d) && !Live(s, d);
    }
  }

  /** A group is done exactly when everything that was applied or incremented has finished, or was given up. */
  lemma DoneMeansAllFinished(run: seq<State>, who: seq<nat>, acts: seq<Action>, i: nat)
    requires IsRun(run, who, acts) && i < |run| && Timely(run, i)
    ensures !run[i].counter.applied <==> run[i].finished == run[i].budget
  {
    RunInv(run, who, acts, i);
  }

  // ----- without aborts, every receive in progress is of the present cycle

  ghost predicate AllLive(s: State)
    requires |s.cores| == |s.since|
  {
    forall c :: 0 <= c < |s.cores| && InProgress(s.cores[c]) ==> Live(s, c)
  }

  ghost predicate NeverAborts(run: seq<State>, who: seq<nat>, acts: seq<Action>)
    requires IsRun(run, who, acts)
  {
    forall i :: 0 <= i < |who| ==> !(run[i].cores[who[i]].AbortCas? && Exchanges(run[i], who[i], acts[i]))
  }

  lemma OwnStaysLive(s: State, c: nat, a: Action)
    requires Enabled(s, c, a) && Inv(s) && AllLive(s)
    requires !(s.cores[c].AbortCas? && Exchanges(s, c, a))
    ensures var t := Step(s, c, a); |t.cores| == |t.since| == |s.cores| && (InProgress(t.cores[c]) ==> Live(t, c))
  {
    assert CoreOk(s.cores[c]);
    assert InProgress(s.cores[c]) ==> Live(s, c);
  }

  lemma StepKeepsAllLive(s: State, c: nat, a: Action)
    requires Enabled(s, c, a) && Inv(s) && NoneOutlives(s) && AllLive(s)
    requires !(s.cores[c].AbortCas? && Exchanges(s, c, a))
    ensures AllLive(Step(s, c, a))
  {
    var t := Step(s, c, a);
    if a.Go? && s.cores[c].PostCas? && Exchanges(s, c, a) && s.counter.post == s.cores[c].decr {
      assert CoreOk(s.cores[c]);
      LastFinishes(s, c);
    }
    OwnStaysLive(s, c, a);
    forall d | 0 <= d < |t.cores| && InProgress(t.cores[d]) ensures Live(t, d) {
      assert InProgress(s.cores[d]) ==> Live(s, d);
    }
  }

  /** A run in which no abort succeeds meets the condition of the other results. */
  lemma {:induction false} NeverAbortsTimely(run: seq<State>, who: seq<nat>, acts: seq<Action>, k: nat)
    requires IsRun(run, who, acts) && NeverAborts(run, who, acts) && k < |run|
    ensures Timely(run, k + 1) && Inv(run[k]) && AllLive(run[k])
  {
    if k == 0 {
      InitInv(run[0]);
    } else {
      NeverAbortsTimely(run, who, acts, k - 1);
      StepKeepsInv(run[k - 1], who[k - 1], acts[k - 1]);
      StepKeepsAllLive(run[k - 1], who[k - 1], acts[k - 1]);
    }
  }

  // ----- the count as its users see it

  function CountOf(s: State): G.Group {
    G.Group(s.counter.applied, s.counter.post)
  }

  /** What a step means for the users' count: nothing, or just what one call means. */
  ghost predicate IsCountStep(s: State, c: nat, a: Action)
    requires Enabled(s, c, a)
  {
    var g, h, pc := CountOf(s), CountOf(Step(s, c, a)), s.cores[c];
    if !Exchanges(s, c, a) then h == g
    else if pc.ApplyCas? then !g.applied && h == G.Apply(pc.count)
    else if pc.IncCas? then h == G.Increment(g, pc.incr)
    else if pc.AbortCas? then g.applied && h == G.Abort(g)
    else if pc.PostCas? then h == G.Finish(g, pc.decr)
    else h == g
  }

  /** The counters are the users' count: the exchanges are its steps, nothing else changes it,
      and the notifications go to the one that ends the last receive. */
  lemma CounterIsCount(s: State, c: nat, a: Action)
    requires Enabled(s, c, a) && Inv(s) && NoneOutlives(s)
    ensures IsCountStep(s, c, a)
    ensures var t := Step(s, c, a);
      |t.sent| - |s.sent| ==
        if s.cores[c].PostCas? && Exchanges(s, c, a) && G.IsLast(CountOf(s), s.cores[c].decr) then 1 else 0
  {
    assert CoreOk(s.cores[c]);
    if s.cores[c].PostCas? && Exchanges(s, c, a) {
      PostCheckTells(s, c);
    }
  }
}
