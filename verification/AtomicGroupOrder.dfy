/** From the tables to the EOs: every event taken for dispatch is started once, and in order if tables cut evenly. */
module AtomicGroupOrder {
  import opened AtomicGroupModel
  import opened AtomicGroupLock
  import opened AtomicGroupWork
  import opened Seqs

  /** What a step of core c takes for dispatch, and what it starts. */
  function Got(s: State, c: nat, a: Action): seq<Entry>
    requires c < |s.cores|
  {
    if !a.Go? then []
    else
      match s.cores[c].pc
      case AcquireIfIdle(b) => if s.word == Word(0, WRAP_PROTECT, 0) then b else []
      case DeqHi => if a.k <= |s.hi| then s.hi[..a.k] else []
      case DeqLo(_) => if a.k <= |s.lo| then s.lo[..a.k] else []
      case _ => []
  }

  function Started(s: State, c: nat, a: Action): seq<Entry>
    requires c < |s.cores|
  {
    if a.Go? && s.cores[c].pc.Dispatching? && CanReceive(s.cores[c].pc.work)
    then s.cores[c].pc.work.rest[..s.cores[c].pc.work.plan[0].len]
    else []
  }

  /** The steps that move no entry to or from a table. */
  predicate Idles(s: State, c: nat, a: Action)
    requires c < |s.cores|
  {
    a.Go? ==>
      match s.cores[c].pc
      case AcquireIfIdle(_) => s.word != Word(0, WRAP_PROTECT, 0)
      case DeqHi => false
      case DeqLo(_) => false
      case Dispatching(w) => w.rest == []
      case _ => true
  }

  lemma IdleStep(s: State, c: nat, a: Action)
    requires Enabled(s, c, a) && Idles(s, c, a)
    ensures var t := Step(s, c, a);
            t.taken == s.taken && t.log == s.log && Table(t.cores[c].pc) == Table(s.cores[c].pc)
  {
  }

  lemma NothingMoves(s: State, c: nat, a: Action)
    requires Enabled(s, c, a) && Idles(s, c, a)
    requires HasWork(s.cores[c].pc) ==> WorkFits(s.cores[c].pc.work)
    ensures Got(s, c, a) == [] && Started(s, c, a) == []
  {
  }

  ghost predicate Moved(s: State, t: State, c: nat, got: seq<Entry>, started: seq<Entry>)
    requires c < |s.cores| && c < |t.cores|
  {
    && t.taken == s.taken + got && t.log == s.log + started
    && Table(s.cores[c].pc) + got == started + Table(t.cores[c].pc)
  }

  lemma MovedNothing(s: State, t: State, c: nat)
    requires c < |s.cores| && c < |t.cores|
    requires t.taken == s.taken && t.log == s.log && Table(t.cores[c].pc) == Table(s.cores[c].pc)
    ensures Moved(s, t, c, [], [])
  {
    var table := Table(s.cores[c].pc);
    assert table + [] == [] + table;
  }

  lemma ReceiveMoves(s: State, c: nat, w: Work)
    requires c < |s.cores| && s.cores[c].pc == Dispatching(w) && w.rest != [] && CanReceive(w)
    ensures Moved(s, DispatchingStep(s, c, w), c, [], w.rest[..w.plan[0].len])
  {
    assert w.rest + [] == w.rest[..w.plan[0].len] + w.rest[w.plan[0].len..];
  }

  lemma TakeMoves(s: State, t: State, c: nat, got: seq<Entry>)
    requires c < |s.cores| && c < |t.cores|
    requires t.taken == s.taken + got && t.log == s.log && Table(t.cores[c].pc) == Table(s.cores[c].pc) + got
    ensures Moved(s, t, c, got, [])
  {
    assert [] + Table(t.cores[c].pc) == Table(t.cores[c].pc);
  }

  lemma AcquireMoves(s: State, c: nat, b: seq<Entry>)
    requires c < |s.cores| && s.cores[c].pc == AcquireIfIdle(b) && s.word == Word(0, WRAP_PROTECT, 0)
    ensures Moved(s, AcquireIfIdleStep(s, c, b), c, b, [])
  {
    assert [] + b == b;
    TakeMoves(s, AcquireIfIdleStep(s, c, b), c, b);
  }

  lemma DeqHiMoves(s: State, c: nat, k: nat)
    requires c < |s.cores| && s.cores[c].pc.DeqHi? && k <= |s.hi|
    ensures Moved(s, DeqHiStep(s, c, k), c, s.hi[..k], [])
  {
    assert [] + s.hi[..k] == s.hi[..k];
    TakeMoves(s, DeqHiStep(s, c, k), c, s.hi[..k]);
  }

  lemma DeqLoMoves(s: State, c: nat, k: nat)
    requires c < |s.cores| && s.cores[c].pc.DeqLo? && k <= |s.lo|
    ensures Moved(s, DeqLoStep(s, c, s.cores[c].pc.tbl, k), c, s.lo[..k], [])
  {
    TakeMoves(s, DeqLoStep(s, c, s.cores[c].pc.tbl, k), c, s.lo[..k]);
  }

  /** A step's core takes at the end of its table and starts at the front of it. */
  lemma StepMoves(s: State, c: nat, a: Action)
    requires Enabled(s, c, a)
    requires HasWork(s.cores[c].pc) ==> WorkFits(s.cores[c].pc.work)
    ensures Moved(s, Step(s, c, a), c, Got(s, c, a), Started(s, c, a))
  {
    if Idles(s, c, a) {
      IdleStep(s, c, a);
      NothingMoves(s, c, a);
      MovedNothing(s, Step(s, c, a), c);
    } else {
      match s.cores[c].pc
      case AcquireIfIdle(b) => AcquireMoves(s, c, b);
      case DeqHi => DeqHiMoves(s, c, a.k);
      case DeqLo(_) => DeqLoMoves(s, c, a.k);
      case Dispatching(w) => ReceiveMoves(s, c, w);
    }
  }

  // ----- in every run: started once

  /** How often e is in a core's table. */
  ghost function InTable(e: Entry): CoreState -> nat {
    (c: CoreState) => multiset(Table(c.pc))[e]
  }

  /** What was taken for dispatch is started or still in a table. */
  ghost predicate TakenOnce(s: State, e: Entry) {
    multiset(s.taken)[e] == multiset(s.log)[e] + Sum(s.cores, InTable(e))
  }

  lemma CountsMove(taken: seq<Entry>, got: seq<Entry>, log: seq<Entry>, started: seq<Entry>,
                   before: seq<Entry>, after: seq<Entry>, e: Entry)
    requires before + got == started + after
    ensures multiset(taken + got)[e] + multiset(log)[e] + multiset(before)[e]
            == multiset(taken)[e] + multiset(log + started)[e] + multiset(after)[e]
  {
    assert multiset(before + got)[e] == multiset(started + after)[e];
  }

  lemma StepKeepsTakenOnce(s: State, c: nat, a: Action, e: Entry)
    requires Enabled(s, c, a) && WorksFit(s) && TakenOnce(s, e)
    ensures TakenOnce(Step(s, c, a), e)
  {
    var t := Step(s, c, a);
    StepMoves(s, c, a);
    CountsMove(s.taken, Got(s, c, a), s.log, Started(s, c, a), Table(s.cores[c].pc), Table(t.cores[c].pc), e);
    OthersKept(s, c, a);
    SumUpdate(s.cores, InTable(e), c, t.cores[c]);
  }

  // ----- when all tables cut evenly: started in the order in which they were taken

  ghost predicate StartedInOrder(s: State) {
    && (forall c :: 0 <= c < |s.cores| && Holds(s.cores[c]) ==> s.taken == s.log + Table(s.cores[c].pc))
    && (s.word.lock == 0 ==> s.taken == s.log)
  }

  /** Only the holder has anything in its table. */
  ghost predicate OnlyHolderHasTable(c: CoreState) {
    Table(c.pc) != [] ==> Holds(c)
  }

  lemma EvenTables(s: State, c: nat)
    requires EvenInv(s) && c < |s.cores|
    ensures OnlyHolderHasTable(s.cores[c])
  {
    assert CoreEven(s.cores[c]);
  }

  /** Taking at the end of the table and starting at its front keeps the order. */
  lemma OrderMoves(log: seq<Entry>, got: seq<Entry>, started: seq<Entry>, before: seq<Entry>, after: seq<Entry>)
    requires before + got == started + after
    ensures (log + before) + got == (log + started) + after
  {
    assert (log + before) + got == log + (before + got);
    assert (log + started) + after == log + (started + after);
  }

  lemma StepKeepsStartedInOrder(s: State, c: nat, a: Action)
    requires Enabled(s, c, a) && LockInv(s) && LockInv(Step(s, c, a)) && WorksFit(s)
    requires EvenInv(s) && EvenInv(Step(s, c, a)) && StartedInOrder(s)
    ensures StartedInOrder(Step(s, c, a))
  {
    var t := Step(s, c, a);
    OthersKept(s, c, a);
    LockMoves(s, c, a);
    EvenTables(s, c);
    EvenTables(t, c);
    StepMoves(s, c, a);
    if Holds(s.cores[c]) || Holds(t.cores[c]) {
      OrderMoves(s.log, Got(s, c, a), Started(s, c, a), Table(s.cores[c].pc), Table(t.cores[c].pc));
      assert s.log + [] == s.log;
      assert t.taken == t.log + Table(t.cores[c].pc);
    } else {
      assert Got(s, c, a) == Started(s, c, a) == [];
      assert s.taken + [] == s.taken && s.log + [] == s.log;
    }
    OrderKept(s, t, c);
  }

  /** With c's part settled, the other cores follow. */
  lemma OrderKept(s: State, t: State, c: nat)
    requires c < |s.cores| && |t.cores| == |s.cores| && t.cores == s.cores[c := t.cores[c]]
    requires AtMostOneHolder(s) && LockMeansHolder(s) && AtMostOneHolder(t) && LockMeansHolder(t) && StartedInOrder(s)
    requires if Holds(s.cores[c]) || Holds(t.cores[c]) then t.taken == t.log + Table(t.cores[c].pc)
             else t.taken == s.taken && t.log == s.log
    requires Holds(t.cores[c]) == Holds(s.cores[c]) ==> t.word.lock == s.word.lock
    requires OnlyHolderHasTable(t.cores[c])
    ensures StartedInOrder(t)
  {
    forall d | 0 <= d < |t.cores| && Holds(t.cores[d]) ensures t.taken == t.log + Table(t.cores[d].pc) {
      if d != c {
        assert t.cores[d] == s.cores[d] && Holds(s.cores[d]);
      }
    }
    if t.word.lock == 0 {
      assert !Holds(t.cores[c]);
      assert t.log + [] == t.log;
    }
  }
}
