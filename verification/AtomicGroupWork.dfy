/**
 The event tables being dispatched, and when user code may drop the atomic context:
 `em_atomic_processing_end()` goes by `event_burst_cnt`, which is right about the
 rest of a table exactly when the table cuts evenly.
 */
module AtomicGroupWork {
  import P = DispatchPlan
  import opened AtomicGroupModel
  import opened AtomicGroupLock

  // ----- the plan always fits the rest of the table

  ghost predicate WorkFits(w: Work) {
    if w.plan == [] then w.rest == []
    else w.rest != [] && P.Tiles(w.plan, w.plan[0].at, w.plan[0].at + |w.rest|)
  }

  lemma NewWorkFits(s: State, tbl: seq<Entry>)
    ensures WorkFits(NewWork(s.queues, s.group, tbl))
  {
    var t := Items(s.group, tbl);
    P.PlanTiles(t, s.queues, 0, 0, 1, |t|, |t|);
    P.TilesOrder(NewWork(s.queues, s.group, tbl).plan, 0, |tbl|);
  }

  lemma ReceiveFits(w: Work)
    requires WorkFits(w) && w.rest != []
    ensures CanReceive(w) && w.plan[0].len >= 1 && WorkFits(Receive(w))
    ensures Receive(w).plan != [] ==> Receive(w).plan[0].at == w.plan[0].at + w.plan[0].len
  {
    var lo := w.plan[0].at + w.plan[0].len;
    P.TilesOrder(w.plan[1..], lo, w.plan[0].at + |w.rest|);
    assert w.plan[1..] != [] ==> w.plan[1..][0].at == lo;
  }

  ghost predicate WorksFit(s: State) {
    forall c :: 0 <= c < |s.cores| && HasWork(s.cores[c].pc) ==> WorkFits(s.cores[c].pc.work)
  }

  lemma StepKeepsWorksFit(s: State, c: nat, a: Action)
    requires Enabled(s, c, a) && WorksFit(s)
    ensures WorksFit(Step(s, c, a))
  {
    OthersKept(s, c, a);
    var pc := s.cores[c].pc;
    if a.Go? && pc.AcquireIfIdle? {
      NewWorkFits(s, pc.burst);
    } else if a.Go? && pc.DeqSub? {
      NewWorkFits(s, pc.tbl);
    } else if a.Go? && pc.Dispatching? && pc.work.rest != [] {
      ReceiveFits(pc.work);
    }
  }

  /** The dispatcher never gets stuck with events left in its table. */
  lemma CanAlwaysReceive(s: State, c: nat)
    requires WorksFit(s) && c < |s.cores| && s.cores[c].pc.Dispatching?
    ensures Enabled(s, c, Go(0))
  {
    if s.cores[c].pc.work.rest != [] {
      ReceiveFits(s.cores[c].pc.work);
    }
  }

  // ----- event_burst_cnt and the rest of the table

  /** What can be checked of a table before it is dispatched. */
  ghost predicate TableCutsEvenly(s: State, tbl: seq<Entry>) {
    P.AllCutEvenly(Items(s.group, tbl), s.queues, 0, |tbl|)
  }

  /** After n receive calls. */
  function AfterReceives(w: Work, n: nat): Work
    decreases n
  {
    if n == 0 || !CanReceive(w) then w else AfterReceives(Receive(w), n - 1)
  }

  /** Whenever `event_burst_cnt` is 0, now or in a later receive, nothing is left. */
  ghost predicate EndsOnlyAtEnd(w: Work) {
    forall n: nat :: AfterReceives(w, n).burst == 0 ==> AfterReceives(w, n).rest == []
  }

  /** The same, said of the plan. */
  ghost predicate EvenWork(w: Work) {
    && (w.burst == 0 ==> w.rest == [])
    && (w.plan != [] ==> P.NoEarlyZero(w.plan, w.plan[0].at + |w.rest|))
  }

  lemma ReceiveEven(w: Work)
    requires WorkFits(w) && w.rest != [] && CanReceive(w)
    ensures EvenWork(w) ==> EvenWork(Receive(w))
    ensures w.burst != 0 && EvenWork(Receive(w)) ==> EvenWork(w)
  {
    ReceiveFits(w);
    var r := Receive(w);
    var hi := w.plan[0].at + |w.rest|;
    assert w.plan == [w.plan[0]] + r.plan;
    assert forall x :: x in w.plan <==> x == w.plan[0] || x in r.plan;
  }

  lemma {:induction false} EvenEndsAtEnd(w: Work, n: nat)
    requires WorkFits(w) && EvenWork(w)
    ensures AfterReceives(w, n).burst == 0 ==> AfterReceives(w, n).rest == []
    decreases n
  {
    if n > 0 && CanReceive(w) {
      ReceiveFits(w);
      ReceiveEven(w);
      EvenEndsAtEnd(Receive(w), n - 1);
    }
  }

  lemma {:induction false} EndsAtEndEven(w: Work)
    requires WorkFits(w) && EndsOnlyAtEnd(w)
    ensures EvenWork(w)
    decreases |w.plan|
  {
    assert AfterReceives(w, 0) == w;
    if w.rest != [] {
      ReceiveFits(w);
      forall n: nat ensures AfterReceives(Receive(w), n) == AfterReceives(w, n + 1) {
      }
      EndsAtEndEven(Receive(w));
      ReceiveEven(w);
    }
  }

  lemma NewWorkEvenIff(s: State, tbl: seq<Entry>)
    requires tbl != []
    ensures EvenWork(NewWork(s.queues, s.group, tbl)) <==> TableCutsEvenly(s, tbl)
  {
    var w := NewWork(s.queues, s.group, tbl);
    NewWorkFits(s, tbl);
    ReceiveFits(w);
    P.PlanTiles(Items(s.group, tbl), s.queues, 0, 0, 1, |tbl|, |tbl|);
    P.BurstCountIff(Items(s.group, tbl), s.queues);
  }

  /**
   For every table: `event_burst_cnt` being 0 in some receive implies that nothing is
   left of the table, if and only if the table cuts evenly.
   */
  lemma EarlyEndIff(s: State, tbl: seq<Entry>)
    requires tbl != []
    ensures EndsOnlyAtEnd(NewWork(s.queues, s.group, tbl)) <==> TableCutsEvenly(s, tbl)
  {
    var w := NewWork(s.queues, s.group, tbl);
    NewWorkFits(s, tbl);
    NewWorkEvenIff(s, tbl);
    if EvenWork(w) {
      forall n: nat ensures AfterReceives(w, n).burst == 0 ==> AfterReceives(w, n).rest == [] {
        EvenEndsAtEnd(w, n);
      }
    }
    if EndsOnlyAtEnd(w) {
      EndsAtEndEven(w);
    }
  }

  // ----- runs in which all tables cut evenly

  /** If the step starts to dispatch a table, it is one that cuts evenly. */
  ghost predicate StartsEvenly(s: State, c: nat, a: Action)
    requires c < |s.cores|
  {
    a.Go? ==>
      match s.cores[c].pc
      case AcquireIfIdle(b) => s.word == Word(0, WRAP_PROTECT, 0) ==> TableCutsEvenly(s, b)
      case DeqSub(tbl) => TableCutsEvenly(s, tbl)
      case _ => true
  }

  ghost predicate AllEven(run: seq<State>, who: seq<nat>, acts: seq<Action>)
    requires IsRun(run, who, acts)
  {
    forall i :: 0 <= i < |who| ==> StartsEvenly(run[i], who[i], acts[i])
  }

  ghost predicate CoreEven(c: CoreState) {
    && (HasWork(c.pc) ==> EvenWork(c.pc.work))
    && (c.pc.ReleaseLoad? || c.pc.ReleaseCas? ==> c.pc.work.burst == 0)
    && (c.released ==> Table(c.pc) == [])
  }

  ghost predicate EvenInv(s: State) {
    forall c :: 0 <= c < |s.cores| ==> CoreEven(s.cores[c])
  }

  lemma StepKeepsEven(s: State, c: nat, a: Action)
    requires Enabled(s, c, a) && StartsEvenly(s, c, a) && WorksFit(s) && EvenInv(s) && ReleasedInDispatch(s)
    requires a.Go? && s.cores[c].pc.AcquireIfIdle? ==> s.cores[c].pc.burst != []
    ensures EvenInv(Step(s, c, a))
  {
    OthersKept(s, c, a);
    var pc := s.cores[c].pc;
    assert CoreEven(s.cores[c]);
    if a.Go? && pc.AcquireIfIdle? && s.word == Word(0, WRAP_PROTECT, 0) {
      NewWorkEvenIff(s, pc.burst);
    } else if a.Go? && pc.DeqSub? && pc.tbl != [] {
      NewWorkEvenIff(s, pc.tbl);
    } else if a.Go? && pc.Dispatching? && pc.work.rest != [] {
      ReceiveEven(pc.work);
    }
    assert CoreEven(Step(s, c, a).cores[c]);
  }

  lemma {:induction false} ConfigKept(run: seq<State>, who: seq<nat>, acts: seq<Action>, i: nat)
    requires IsRun(run, who, acts) && i < |run|
    ensures run[i].queues == run[0].queues
  {
    if i > 0 {
      ConfigKept(run, who, acts, i - 1);
      OthersKept(run[i - 1], who[i - 1], acts[i - 1]);
    }
  }

  lemma SingleReceiveCutsEvenly(s: State, tbl: seq<Entry>)
    requires forall q :: !s.queues(q).multiRcv
    ensures TableCutsEvenly(s, tbl)
  {
    P.SingleReceiveCountsExactly(Items(s.group, tbl), s.queues);
    P.BurstCountIff(Items(s.group, tbl), s.queues);
  }

  /** A group of queues that receive one event at a time meets the condition in every run. */
  lemma SingleReceiveAllEven(run: seq<State>, who: seq<nat>, acts: seq<Action>)
    requires IsRun(run, who, acts) && forall q :: !run[0].queues(q).multiRcv
    ensures AllEven(run, who, acts)
  {
    forall i | 0 <= i < |who| ensures StartsEvenly(run[i], who[i], acts[i]) {
      ConfigKept(run, who, acts, i);
      assert Enabled(run[i], who[i], acts[i]);
      var pc := run[i].cores[who[i]].pc;
      if pc.AcquireIfIdle? {
        SingleReceiveCutsEvenly(run[i], pc.burst);
      } else if pc.DeqSub? {
        SingleReceiveCutsEvenly(run[i], pc.tbl);
      }
    }
  }
}
