/**
 Mutual exclusion, exact counting and "no event is left behind" of the
 atomic-group dispatch protocol: one inductive invariant.
 */
module AtomicGroupLock {
  import opened AtomicGroupModel
  import opened Seqs

  function CountedBy(c: CoreState): nat {
    Counted(c.pc)
  }

  /** The entries counted by the lock word without being in a stash. */
  ghost function SumCounted(cores: seq<CoreState>): nat {
    Sum(cores, CountedBy)
  }

  ghost predicate AtMostOneHolder(s: State) {
    forall c, d :: 0 <= c < |s.cores| && 0 <= d < |s.cores| && Holds(s.cores[c]) && Holds(s.cores[d]) ==> c == d
  }

  /** lock = 1 exactly when some core is the holder. */
  ghost predicate LockMeansHolder(s: State) {
    && s.word.lock <= 1
    && (s.word.lock == 1 <==> exists c :: 0 <= c < |s.cores| && Holds(s.cores[c]))
  }

  /** The core-local "released" flag is set only from the hand-off to `ag_unlock()`. */
  ghost predicate ReleasedInDispatch(s: State) {
    forall c :: 0 <= c < |s.cores| && s.cores[c].released ==> s.cores[c].pc.Dispatching?
  }

  /** evcnt = stashed + counted but not yet put + taken but not yet subtracted. */
  ghost predicate ExactCount(s: State) {
    s.word.evcnt == |s.hi| + |s.lo| + SumCounted(s.cores)
  }

  /** A free lock with events behind it has some core that will look at it again. */
  ghost predicate NotStranded(s: State) {
    s.word.lock == 0 && s.word.evcnt > 0 ==> exists c :: 0 <= c < |s.cores| && Committed(s.cores[c])
  }

  /** After a hand-off the lock is taken back only from a word that had it free. */
  ghost predicate RetakenFromFree(s: State) {
    forall c :: 0 <= c < |s.cores| && s.cores[c].pc.UnlockRecas? ==> s.cores[c].pc.seen.lock == 0
  }

  ghost predicate LockInv(s: State) {
    && s.word.wrap == WRAP_PROTECT
    && RetakenFromFree(s)
    && AtMostOneHolder(s)
    && LockMeansHolder(s)
    && ReleasedInDispatch(s)
    && ExactCount(s)
    && NotStranded(s)
  }

  lemma InitLockInv(s: State)
    requires Init(s)
    ensures LockInv(s)
  {
    SumZeroIff(s.cores, CountedBy);
  }

  /** What one step of core c does to the other cores: nothing. */
  lemma OthersKept(s: State, c: nat, a: Action)
    requires Enabled(s, c, a)
    ensures var t := Step(s, c, a);
      && |t.cores| == |s.cores| && t.hiQueues == s.hiQueues && t.queues == s.queues && t.group == s.group
      && t.cores == s.cores[c := t.cores[c]]
  {
  }

  /** The event count that is neither stashed nor on the account of core c. */
  function Unaccounted(s: State, c: nat): int
    requires c < |s.cores|
  {
    s.word.evcnt - |s.hi| - |s.lo| - Counted(s.cores[c].pc)
  }

  /** The core is on its way to put events into a stash, or to take some. */
  predicate MovesCount(pc: Pc) {
    pc.EnqCount? || pc.EnqPut? || pc.EnqUncount? || pc.DeqHi? || pc.DeqLo? || pc.DeqSub?
  }

  lemma CountMoves(s: State, c: nat, k: nat)
    requires Enabled(s, c, Go(k)) && MovesCount(s.cores[c].pc)
    ensures Unaccounted(Step(s, c, Go(k)), c) == Unaccounted(s, c)
  {
  }

  lemma CountStays(s: State, c: nat, a: Action)
    requires Enabled(s, c, a) && (a.Go? ==> !MovesCount(s.cores[c].pc))
    ensures Unaccounted(Step(s, c, a), c) == Unaccounted(s, c)
  {
  }

  /** What leaves the event count leaves the stashes or this core's account, and the other way round. */
  lemma StepBalances(s: State, c: nat, a: Action)
    requires Enabled(s, c, a)
    ensures Unaccounted(Step(s, c, a), c) == Unaccounted(s, c)
  {
    if a.Go? && MovesCount(s.cores[c].pc) {
      CountMoves(s, c, a.k);
    } else {
      CountStays(s, c, a);
    }
  }

  lemma StepKeepsCount(s: State, c: nat, a: Action)
    requires Enabled(s, c, a) && ExactCount(s)
    ensures ExactCount(Step(s, c, a))
  {
    StepBalances(s, c, a);
    OthersKept(s, c, a);
    SumUpdate(s.cores, CountedBy, c, Step(s, c, a).cores[c]);
  }

  /** What one step can do to the lock field and to who holds it. */
  lemma LockMoves(s: State, c: nat, a: Action)
    requires Enabled(s, c, a) && LockMeansHolder(s) && ReleasedInDispatch(s) && RetakenFromFree(s)
    ensures var t := Step(s, c, a);
      && t.word.lock <= 1
      && (Holds(t.cores[c]) && !Holds(s.cores[c]) ==> s.word.lock == 0 && t.word.lock == 1)
      && (Holds(t.cores[c]) == Holds(s.cores[c]) ==> t.word.lock == s.word.lock)
      && (Holds(s.cores[c]) && !Holds(t.cores[c]) ==> t.word.lock == 0)
  {
    assert Holds(s.cores[c]) ==> s.word.lock == 1;
  }

  lemma StepKeepsFlags(s: State, c: nat, a: Action)
    requires Enabled(s, c, a) && LockMeansHolder(s) && ReleasedInDispatch(s) && RetakenFromFree(s)
    requires s.word.wrap == WRAP_PROTECT
    ensures ReleasedInDispatch(Step(s, c, a)) && RetakenFromFree(Step(s, c, a))
    ensures Step(s, c, a).word.wrap == WRAP_PROTECT
  {
    OthersKept(s, c, a);
  }

  /** A step keeps mutual exclusion, through every acquire, release and hand-off. */
  lemma StepKeepsHolder(s: State, c: nat, a: Action)
    requires Enabled(s, c, a) && AtMostOneHolder(s) && LockMeansHolder(s) && ReleasedInDispatch(s) && RetakenFromFree(s)
    ensures var t := Step(s, c, a); AtMostOneHolder(t) && LockMeansHolder(t)
  {
    var t := Step(s, c, a);
    OthersKept(s, c, a);
    LockMoves(s, c, a);
    assert forall d :: 0 <= d < |s.cores| && d != c ==> t.cores[d] == s.cores[d];
    if t.word.lock == 1 && !Holds(t.cores[c]) {
      var d :| 0 <= d < |s.cores| && Holds(s.cores[d]);
      assert Holds(t.cores[d]);
    }
  }

  lemma StepKeepsNotStranded(s: State, c: nat, a: Action)
    requires Enabled(s, c, a) && LockMeansHolder(s) && NotStranded(s) && s.word.wrap == WRAP_PROTECT
    ensures NotStranded(Step(s, c, a))
  {
    var t := Step(s, c, a);
    OthersKept(s, c, a);
    if t.word.lock == 0 && t.word.evcnt > 0 {
      if Committed(t.cores[c]) {
      } else {
        assert s.word.lock == 0 && s.word.evcnt > 0;
        var d :| 0 <= d < |s.cores| && Committed(s.cores[d]);
        assert d != c;
        assert Committed(t.cores[d]);
      }
    }
  }
}
