/** What every run of the atomic-group dispatch protocol keeps, for any number of cores. */
module AtomicGroupTheorems {
  import opened AtomicGroupModel
  import opened AtomicGroupLock
  import opened AtomicGroupFifo
  import opened AtomicGroupWork
  import opened AtomicGroupOrder
  import opened EntrySeqs
  import opened Seqs

  ghost predicate Inv(s: State) {
    LockInv(s) && FifoInv(s) && WorksFit(s) && forall e :: TakenOnce(s, e)
  }

  lemma InitInv(s: State)
    requires Init(s)
    ensures Inv(s)
  {
    InitLockInv(s);
    forall q ensures Flow(s, q) == Accepted(s, q) {
      InitFlow(s, q);
    }
    forall e ensures TakenOnce(s, e) {
      SumZeroIff(s.cores, InTable(e));
    }
  }

  lemma InitFlow(s: State, q: Queue)
    requires Init(s)
    ensures Flow(s, q) == Accepted(s, q)
  {
    GatherNone(q, Hands(s.cores), |s.cores|);
  }

  lemma StepConserves(s: State, c: nat, a: Action, q: Queue)
    requires Enabled(s, c, a) && Inv(s)
    ensures Flow(Step(s, c, a), q) == Accepted(Step(s, c, a), q)
  {
    assert Flow(s, q) == Accepted(s, q);
    if MovesNothing(s, c, a) {
      QuietStep(s, c, a, q);
    } else if a.Schedule? {
      ScheduleConserves(s, c, a.q, a.n, q);
    } else {
      match s.cores[c].pc
      case AcquireIfIdle(_) => AcquireConserves(s, c, q);
      case EnqPut(_) => EnqPutConserves(s, c, a.k, q);
      case EnqUncount(_) => EnqUncountConserves(s, c, q);
      case DeqHi => DeqHiConserves(s, c, a.k, q);
      case DeqLo(_) => DeqLoConserves(s, c, a.k, q);
    }
  }

  lemma StepKeepsLockInv(s: State, c: nat, a: Action)
    requires Enabled(s, c, a) && LockInv(s)
    ensures LockInv(Step(s, c, a))
  {
    StepKeepsHolder(s, c, a);
    StepKeepsFlags(s, c, a);
    StepKeepsCount(s, c, a);
    StepKeepsNotStranded(s, c, a);
  }

  lemma StepKeepsFifoInv(s: State, c: nat, a: Action)
    requires Enabled(s, c, a) && Inv(s)
    ensures FifoInv(Step(s, c, a))
  {
    StepKeepsHandsOwn(s, c, a);
    StepKeepsHandsArrived(s, c, a);
    StepKeepsCtx(s, c, a);
    StepKeepsStashes(s, c, a);
    StepKeepsNumbered(s, c, a);
    forall q ensures Flow(Step(s, c, a), q) == Accepted(Step(s, c, a), q) {
      StepConserves(s, c, a, q);
    }
  }

  lemma StepKeepsInv(s: State, c: nat, a: Action)
    requires Enabled(s, c, a) && Inv(s)
    ensures Inv(Step(s, c, a))
  {
    StepKeepsLockInv(s, c, a);
    StepKeepsFifoInv(s, c, a);
    StepKeepsWorksFit(s, c, a);
    forall e ensures TakenOnce(Step(s, c, a), e) {
      StepKeepsTakenOnce(s, c, a, e);
    }
  }

  /** The invariant holds in every state of every run. */
  lemma {:induction false} RunInv(run: seq<State>, who: seq<nat>, acts: seq<Action>, i: nat)
    requires IsRun(run, who, acts) && i < |run|
    ensures Inv(run[i])
  {
    if i == 0 {
      InitInv(run[0]);
    } else {
      RunInv(run, who, acts, i - 1);
      StepKeepsInv(run[i - 1], who[i - 1], acts[i - 1]);
    }
  }

  /** While every table that is dispatched cuts evenly, events are started under the lock and in order. */
  lemma {:induction false} RunEven(run: seq<State>, who: seq<nat>, acts: seq<Action>, i: nat)
    requires IsRun(run, who, acts) && AllEven(run, who, acts) && i < |run|
    ensures EvenInv(run[i]) && StartedInOrder(run[i])
  {
    if i > 0 {
      var s, c, a := run[i - 1], who[i - 1], acts[i - 1];
      RunInv(run, who, acts, i - 1);
      RunInv(run, who, acts, i);
      RunEven(run, who, acts, i - 1);
      assert StartsEvenly(s, c, a) && HandIsOwn(s.cores[c]);
      StepKeepsEven(s, c, a);
      StepKeepsStartedInOrder(s, c, a);
    }
  }

  // ----- mutual exclusion

  /** At most one core holds the lock, the word says so exactly, and no core
      re-enters the dispatch with its "released" flag still set. */
  lemma MutualExclusion(run: seq<State>, who: seq<nat>, acts: seq<Action>, i: nat)
    requires IsRun(run, who, acts) && i < |run|
    ensures forall c, d ::
      0 <= c < |run[i].cores| && 0 <= d < |run[i].cores| && Holds(run[i].cores[c]) && Holds(run[i].cores[d]) ==> c == d
    ensures run[i].word.lock == 1 <==> exists c :: 0 <= c < |run[i].cores| && Holds(run[i].cores[c])
    ensures run[i].word.lock == 0 || run[i].word.lock == 1
    ensures forall c :: 0 <= c < |run[i].cores| && (run[i].cores[c].pc.Idle? || run[i].cores[c].pc.AcquireIfIdle?)
                        ==> !run[i].cores[c].released
  {
    RunInv(run, who, acts, i);
  }

  /** Only the holder takes from a stash; everyone else can only add to one. */
  lemma OnlyHolderTakes(run: seq<State>, who: seq<nat>, acts: seq<Action>, i: nat)
    requires IsRun(run, who, acts) && i < |who|
    ensures var s, t := run[i], run[i + 1];
      (s.hi <= t.hi && s.lo <= t.lo) || (Holds(s.cores[who[i]]) && s.word.lock == 1)
  {
    RunInv(run, who, acts, i);
    var s := run[i];
    assert Holds(s.cores[who[i]]) ==> s.word.lock == 1;
  }

  /** Only the holder starts an event, if all tables cut evenly. */
  lemma OnlyHolderStarts(run: seq<State>, who: seq<nat>, acts: seq<Action>, i: nat)
    requires IsRun(run, who, acts) && AllEven(run, who, acts) && i < |who|
    ensures var s, t := run[i], run[i + 1];
      s.log == t.log || (Holds(s.cores[who[i]]) && s.word.lock == 1)
  {
    RunInv(run, who, acts, i);
    RunEven(run, who, acts, i);
    var s, c, a := run[i], who[i], acts[i];
    assert Enabled(s, c, a) && run[i + 1] == Step(s, c, a);
    assert Holds(s.cores[c]) ==> s.word.lock == 1;
    EvenTables(s, c);
    StepMoves(s, c, a);
    if !Holds(s.cores[c]) {
      assert Started(s, c, a) == [];
      assert s.log + [] == s.log;
    }
  }

  /** User code drops the atomic context only with nothing left to dispatch, if all tables cut evenly. */
  lemma DroppedOnlyAtEnd(run: seq<State>, who: seq<nat>, acts: seq<Action>, i: nat)
    requires IsRun(run, who, acts) && AllEven(run, who, acts) && i < |who| && acts[i].ProcessingEnd?
    ensures run[i].cores[who[i]].pc.Dispatching? && run[i].cores[who[i]].pc.work.rest == []
  {
    RunEven(run, who, acts, i);
    assert Enabled(run[i], who[i], acts[i]);
    assert CoreEven(run[i].cores[who[i]]);
  }

  /** The holder's unlocking compare-and-swap fails only because events are counted. */
  lemma UnlockFailsOnlyOnEvents(run: seq<State>, who: seq<nat>, acts: seq<Action>, i: nat)
    requires IsRun(run, who, acts) && i < |who|
    requires acts[i].Go? && run[i].cores[who[i]].pc.UnlockCas?
    ensures run[i + 1].cores[who[i]].pc.Idle? <==> run[i].word.evcnt == 0
    ensures run[i + 1].cores[who[i]].pc.DeqHi? <==> run[i].word.evcnt > 0
  {
    RunInv(run, who, acts, i);
    assert Holds(run[i].cores[who[i]]);
  }

  /** A compare-and-swap of the lock field that fails changes nothing: the core reads the word again. */
  lemma LostExchange(run: seq<State>, who: seq<nat>, acts: seq<Action>, i: nat)
    requires IsRun(run, who, acts) && i < |who| && acts[i].Go?
    requires var pc := run[i].cores[who[i]].pc;
      (pc.TrylockCas? || pc.ReleaseCas? || pc.UnlockRecas?) && pc.seen != run[i].word
    ensures var me := run[i].cores[who[i]];
      var next := match me.pc
        case TrylockCas(_) => TrylockLoad
        case ReleaseCas(work, _) => ReleaseLoad(work)
        case _ => UnlockReload;
      run[i + 1] == run[i].(cores := run[i].cores[who[i] := me.(pc := next)])
  {
    assert Enabled(run[i], who[i], acts[i]);
  }

  /** One that succeeds takes a free lock or gives it up, and leaves the event count as it is. */
  lemma WonExchange(run: seq<State>, who: seq<nat>, acts: seq<Action>, i: nat)
    requires IsRun(run, who, acts) && i < |who| && acts[i].Go?
    requires var pc := run[i].cores[who[i]].pc;
      (pc.TrylockCas? || pc.ReleaseCas? || pc.UnlockRecas?) && pc.seen == run[i].word
    ensures var me, next, w, v := run[i].cores[who[i]], run[i + 1].cores[who[i]], run[i].word, run[i + 1].word;
      && v.evcnt == w.evcnt && v.wrap == w.wrap
      && match me.pc
         case TrylockCas(_) => v.lock == 1 && next == me.(pc := if w.lock == 0 then DeqHi else Idle)
         case ReleaseCas(work, _) => v.lock == 0 && next == me.(pc := Dispatching(work), released := true)
         case _ => w.lock == 0 && v.lock == 1 && next == me.(pc := DeqHi)
  {
    RunInv(run, who, acts, i);
    assert Enabled(run[i], who[i], acts[i]);
  }

  // ----- counting and progress

  /** The event count is what is stashed, plus what is counted but not put, plus
      what is taken but not subtracted. It is never negative. */
  lemma ExactCounting(run: seq<State>, who: seq<nat>, acts: seq<Action>, i: nat)
    requires IsRun(run, who, acts) && i < |run|
    ensures run[i].word.evcnt == |run[i].hi| + |run[i].lo| + SumCounted(run[i].cores) >= 0
    ensures run[i].word.wrap == WRAP_PROTECT
  {
    RunInv(run, who, acts, i);
  }

  /** Events counted or stashed behind a free lock: some core is still committed to look at the lock. */
  lemma NoStrandedEvents(run: seq<State>, who: seq<nat>, acts: seq<Action>, i: nat)
    requires IsRun(run, who, acts) && i < |run|
    requires run[i].word.lock == 0 && (run[i].word.evcnt > 0 || run[i].hi != [] || run[i].lo != [])
    ensures exists c :: 0 <= c < |run[i].cores| && Committed(run[i].cores[c])
  {
    RunInv(run, who, acts, i);
  }

  ghost predicate AllOutside(s: State) {
    forall c :: 0 <= c < |s.cores| ==> s.cores[c].pc.Idle?
  }

  /** When every core is outside the dispatch, nothing is left behind. */
  lemma NothingLeftBehind(run: seq<State>, who: seq<nat>, acts: seq<Action>, i: nat)
    requires IsRun(run, who, acts) && i < |run| && AllOutside(run[i])
    ensures run[i].word == Word(0, WRAP_PROTECT, 0) && run[i].hi == [] && run[i].lo == []
  {
    RunInv(run, who, acts, i);
  }

  /** A core that dispatches can always go on: it has the calls planned for what is left of its table. */
  lemma DispatchGoesOn(run: seq<State>, who: seq<nat>, acts: seq<Action>, i: nat, c: nat)
    requires IsRun(run, who, acts) && i < |run| && c < |run[i].cores| && run[i].cores[c].pc.Dispatching?
    ensures Enabled(run[i], c, Go(0))
  {
    RunInv(run, who, acts, i);
    CanAlwaysReceive(run[i], c);
  }

  // ----- order, and exactly once

  /** Strictly increasing arrival numbers: arrival order, no repetition. */
  ghost predicate InArrivalOrder(q: Queue, s: seq<Entry>) {
    && (forall i :: 0 <= i < |s| ==> s[i].qidx == q)
    && (forall i, j :: 0 <= i < j < |s| ==> s[i].n < s[j].n)
  }

  lemma {:induction false} WithoutKeepsOrder(q: Queue, s: seq<Entry>, d: set<Entry>)
    requires InArrivalOrder(q, s)
    ensures InArrivalOrder(q, Without(s, d))
  {
    if s != [] {
      var k := |s| - 1;
      WithoutKeepsOrder(q, s[..k], d);
      WithoutMembers(s[..k], d);
      var w := Without(s[..k], d);
      forall i | 0 <= i < |w| ensures w[i].n < s[k].n {
        assert w[i] in w;
        var j :| 0 <= j < k && s[..k][j] == w[i];
      }
    }
  }

  lemma AcceptedInOrder(s: State, q: Queue)
    requires Numbered(s)
    ensures InArrivalOrder(q, Accepted(s, q))
    ensures forall e :: e in Accepted(s, q) <==> e in s.arrived && e.qidx == q && e !in s.dropped
  {
    forall i | 0 <= i < |Of(q, s.arrived)| ensures Of(q, s.arrived)[i] == Entry(q, i) {
    }
    WithoutKeepsOrder(q, Of(q, s.arrived), s.dropped);
    WithoutMembers(Of(q, s.arrived), s.dropped);
    OfMembers(q, s.arrived);
  }

  lemma PrefixInOrder(q: Queue, s: seq<Entry>, t: seq<Entry>)
    requires InArrivalOrder(q, s) && t <= s
    ensures InArrivalOrder(q, t)
  {
  }

  lemma FlowFromTaken(s: State, q: Queue)
    ensures Of(q, s.taken) <= Flow(s, q)
  {
  }

  /** Per queue, the arrivals that were not dropped are, in order, those taken for
      dispatch, those stashed, and those in a core's hand. */
  lemma TakenInOrder(run: seq<State>, who: seq<nat>, acts: seq<Action>, i: nat, q: Queue)
    requires IsRun(run, who, acts) && i < |run|
    ensures var s := run[i];
      && Accepted(s, q) == Of(q, s.taken) + Of(q, StashOf(s, q)) + HandsOf(q, s.cores)
      && InArrivalOrder(q, Accepted(s, q)) && InArrivalOrder(q, Of(q, s.taken))
      && forall e :: e in Accepted(s, q) <==> e in s.arrived && e.qidx == q && e !in s.dropped
  {
    RunInv(run, who, acts, i);
    var s := run[i];
    AcceptedInOrder(s, q);
    assert Flow(s, q) == Accepted(s, q);
    FlowFromTaken(s, q);
    PrefixInOrder(q, Accepted(s, q), Of(q, s.taken));
  }

  /** How often e was taken: once, if its place in its queue's order says so. */
  lemma TakenCount(s: State, e: Entry)
    requires InArrivalOrder(e.qidx, Of(e.qidx, s.taken))
    ensures multiset(s.taken)[e] == if e in Of(e.qidx, s.taken) then 1 else 0
  {
    OfCount(e, s.taken);
    DistinctCount(e, Of(e.qidx, s.taken));
  }

  /** Every arrival is started at most once, never after being dropped, and once taken it is not lost:
      it is in the log or in exactly one table. */
  lemma StartedAtMostOnce(run: seq<State>, who: seq<nat>, acts: seq<Action>, i: nat, e: Entry)
    requires IsRun(run, who, acts) && i < |run|
    ensures multiset(run[i].log)[e] + Sum(run[i].cores, InTable(e)) == (if e in run[i].taken then 1 else 0)
    ensures e in run[i].taken ==> e in run[i].arrived && e !in run[i].dropped
  {
    RunInv(run, who, acts, i);
    TakenInOrder(run, who, acts, i, e.qidx);
    assert TakenOnce(run[i], e);
    TakenCount(run[i], e);
    OfMembers(e.qidx, run[i].taken);
    assert e in run[i].taken ==> e in Of(e.qidx, run[i].taken);
    assert e in run[i].taken ==> e in Accepted(run[i], e.qidx);
  }

  /** Once every core is outside, all that was accepted has been taken, and no table has anything. */
  lemma AllTaken(run: seq<State>, who: seq<nat>, acts: seq<Action>, i: nat, q: Queue)
    requires IsRun(run, who, acts) && i < |run| && AllOutside(run[i])
    ensures Of(q, run[i].taken) == Accepted(run[i], q) && InArrivalOrder(q, Of(q, run[i].taken))
    ensures forall e :: e in Accepted(run[i], q) <==> e in run[i].arrived && e.qidx == q && e !in run[i].dropped
  {
    var s := run[i];
    NothingLeftBehind(run, who, acts, i);
    TakenInOrder(run, who, acts, i, q);
    GatherNone(q, Hands(s.cores), |s.cores|);
    assert Of(q, s.taken) + [] + [] == Of(q, s.taken);
  }

  /** Once every core is outside, each arrival was dispatched exactly once or dropped. */
  lemma AllDispatchedOrDropped(run: seq<State>, who: seq<nat>, acts: seq<Action>, i: nat, e: Entry)
    requires IsRun(run, who, acts) && i < |run| && AllOutside(run[i]) && e in run[i].arrived
    ensures multiset(run[i].log)[e] == if e in run[i].dropped then 0 else 1
  {
    var s := run[i];
    AllTaken(run, who, acts, i, e.qidx);
    TakenCount(s, e);
    RunInv(run, who, acts, i);
    assert TakenOnce(s, e);
    SumZeroIff(s.cores, InTable(e));
  }

  /** What was started is the first part of what was taken, if all tables cut evenly. */
  lemma StartedIsFirstTaken(s: State, q: Queue)
    requires LockInv(s) && StartedInOrder(s)
    ensures s.log <= s.taken && Of(q, s.log) <= Of(q, s.taken)
  {
    if s.word.lock == 1 {
      var c :| 0 <= c < |s.cores| && Holds(s.cores[c]);
      assert s.taken == s.log + Table(s.cores[c].pc);
      OfConcat(q, s.log, Table(s.cores[c].pc));
    }
  }

  /** If all tables cut evenly: per queue, the dispatched events are an initial part of the
      arrivals that were not dropped, in arrival order and without repetition; over all
      queues they are an initial part of what was taken, and the rest of that is in the
      holder's table. */
  lemma FifoExactlyOnce(run: seq<State>, who: seq<nat>, acts: seq<Action>, i: nat, q: Queue)
    requires IsRun(run, who, acts) && AllEven(run, who, acts) && i < |run|
    ensures var s := run[i];
      && s.log <= s.taken
      && (forall c :: 0 <= c < |s.cores| && Holds(s.cores[c]) ==> s.taken == s.log + Table(s.cores[c].pc))
      && (s.word.lock == 0 ==> s.taken == s.log)
      && Of(q, s.log) <= Accepted(s, q) && InArrivalOrder(q, Of(q, s.log))
  {
    RunInv(run, who, acts, i);
    RunEven(run, who, acts, i);
    TakenInOrder(run, who, acts, i, q);
    var s := run[i];
    StartedIsFirstTaken(s, q);
    PrefixInOrder(q, Of(q, s.taken), Of(q, s.log));
  }

  /** If all tables cut evenly, once every core is outside each queue's arrivals were
      dispatched in order, all but the dropped ones. */
  lemma AllDispatchedInOrder(run: seq<State>, who: seq<nat>, acts: seq<Action>, i: nat, q: Queue)
    requires IsRun(run, who, acts) && AllEven(run, who, acts) && i < |run| && AllOutside(run[i])
    ensures Of(q, run[i].log) == Accepted(run[i], q)
  {
    RunEven(run, who, acts, i);
    NothingLeftBehind(run, who, acts, i);
    AllTaken(run, who, acts, i, q);
  }

  /** Events are dropped only after a failed put, and then as the youngest of their queue. */
  lemma DroppedIsYoungest(run: seq<State>, who: seq<nat>, acts: seq<Action>, i: nat)
    requires IsRun(run, who, acts) && i < |who| && run[i + 1].dropped != run[i].dropped
    ensures var pc := run[i].cores[who[i]].pc;
      && pc.EnqUncount? && pc.tail != []
      && run[i + 1].dropped == run[i].dropped + Entries(pc.tail)
      && Accepted(run[i], pc.tail[0].qidx) == Accepted(run[i + 1], pc.tail[0].qidx) + pc.tail
  {
    RunInv(run, who, acts, i);
    RunInv(run, who, acts, i + 1);
    var s, c := run[i], who[i];
    assert Enabled(s, c, acts[i]) && run[i + 1] == Step(s, c, acts[i]);
    assert HandIsOwn(s.cores[c]);
    var tail := s.cores[c].pc.tail;
    var q := tail[0].qidx;
    assert tail[0] in tail;
    OfOwn(q, tail);
    TailIsYoungest(s, c, q);
    assert Flow(s, q) == Accepted(s, q);
    assert Flow(run[i + 1], q) == Accepted(run[i + 1], q);
  }
}
