/**
 Order and conservation up to the start of a dispatch: per queue, what was taken
 for dispatch, what is stashed and what a core has in hand is, in this order,
 exactly what arrived and was not dropped. This holds of every run.
 */
module AtomicGroupFifo {
  import opened Wrappers
  import opened AtomicGroupModel
  import opened AtomicGroupLock
  import opened EntrySeqs
  import opened Seqs

  /** The entries of q in the first m of the given sequences. */
  ghost function Gather(q: Queue, parts: seq<seq<Entry>>, m: nat): seq<Entry>
    requires m <= |parts|
  {
    if m == 0 then [] else Gather(q, parts, m - 1) + Of(q, parts[m - 1])
  }

  /** What all cores have in hand. */
  ghost function Hands(cores: seq<CoreState>): (r: seq<seq<Entry>>)
    ensures |r| == |cores| && forall c :: 0 <= c < |cores| ==> r[c] == Hand(cores[c].pc)
  {
    seq(|cores|, c requires 0 <= c < |cores| => Hand(cores[c].pc))
  }

  ghost function HandsOf(q: Queue, cores: seq<CoreState>): seq<Entry> {
    Gather(q, Hands(cores), |cores|)
  }

  ghost function StashOf(s: State, q: Queue): seq<Entry> {
    if q in s.hiQueues then s.hi else s.lo
  }

  /** What of q was taken for dispatch, is stashed, or is in hand, from the oldest to the youngest. */
  ghost function Flow(s: State, q: Queue): seq<Entry> {
    Of(q, s.taken) + Of(q, StashOf(s, q)) + HandsOf(q, s.cores)
  }

  /** The arrivals of q, in order, without those dropped by a failed put. */
  ghost function Accepted(s: State, q: Queue): seq<Entry> {
    Without(Of(q, s.arrived), s.dropped)
  }

  /** A core's scheduled burst is of the queue whose atomic context it has. */
  ghost predicate HandIsOwn(cs: CoreState) {
    && (Hand(cs.pc) != [] ==> cs.ctx.Some? && forall e :: e in Hand(cs.pc) ==> e.qidx == cs.ctx.value)
    && (cs.pc.AcquireIfIdle? || cs.pc.EnqCount? || cs.pc.EnqPut? || cs.pc.EnqUncount? ==> Hand(cs.pc) != [])
  }

  ghost predicate HandsOwn(s: State) {
    forall c :: 0 <= c < |s.cores| ==> HandIsOwn(s.cores[c])
  }

  ghost predicate CtxExclusive(s: State) {
    forall c, d :: 0 <= c < |s.cores| && 0 <= d < |s.cores| && s.cores[c].ctx.Some? && s.cores[c].ctx == s.cores[d].ctx ==> c == d
  }

  ghost predicate StashesByPrio(s: State) {
    && (forall e :: e in s.hi ==> e.qidx in s.hiQueues)
    && (forall e :: e in s.lo ==> e.qidx !in s.hiQueues)
  }

  /** The n-th arrival of a queue is numbered n; only arrivals are dropped. */
  ghost predicate Numbered(s: State) {
    && (forall q, i {:trigger Of(q, s.arrived)[i]} :: 0 <= i < |Of(q, s.arrived)| ==> Of(q, s.arrived)[i] == Entry(q, i))
    && (forall e :: e in s.dropped ==> e in s.arrived)
  }

  /** What a core has in hand has arrived. */
  ghost predicate HandsArrived(s: State) {
    forall c, e :: 0 <= c < |s.cores| && e in Hand(s.cores[c].pc) ==> e in s.arrived
  }

  ghost predicate Conserved(s: State) {
    forall q :: Flow(s, q) == Accepted(s, q)
  }

  ghost predicate FifoInv(s: State) {
    && HandsOwn(s) && CtxExclusive(s) && StashesByPrio(s) && Numbered(s) && HandsArrived(s)
    && Conserved(s)
  }

  // ----- gathering over cores

  lemma {:induction false} GatherSame(q: Queue, a: seq<seq<Entry>>, b: seq<seq<Entry>>, m: nat)
    requires m <= |a| && m <= |b|
    requires forall c :: 0 <= c < m ==> Of(q, a[c]) == Of(q, b[c])
    ensures Gather(q, a, m) == Gather(q, b, m)
  {
    if m > 0 {
      GatherSame(q, a, b, m - 1);
    }
  }

  lemma {:induction false} GatherNone(q: Queue, parts: seq<seq<Entry>>, m: nat)
    requires m <= |parts|
    requires forall d :: 0 <= d < m ==> Of(q, parts[d]) == []
    ensures Gather(q, parts, m) == []
  {
    if m > 0 {
      GatherNone(q, parts, m - 1);
    }
  }

  lemma {:induction false} GatherSolo(q: Queue, parts: seq<seq<Entry>>, c: nat, m: nat)
    requires c < m <= |parts|
    requires forall d :: 0 <= d < m && d != c ==> Of(q, parts[d]) == []
    ensures Gather(q, parts, m) == Of(q, parts[c])
  {
    if c == m - 1 {
      GatherNone(q, parts, m - 1);
    } else {
      GatherSolo(q, parts, c, m - 1);
    }
  }

  /** Only the core with q's atomic context can have entries of q in hand. */
  lemma HandsOfOwner(s: State, c: nat, x: CoreState, q: Queue)
    requires HandsOwn(s) && c < |s.cores|
    requires forall d :: 0 <= d < |s.cores| && d != c ==> s.cores[d].ctx != Some(q)
    ensures HandsOf(q, s.cores) == Of(q, Hand(s.cores[c].pc))
    ensures HandsOf(q, s.cores[c := x]) == Of(q, Hand(x.pc))
  {
    forall d | 0 <= d < |s.cores| && d != c ensures Of(q, Hand(s.cores[d].pc)) == [] {
      assert HandIsOwn(s.cores[d]);
      OfOther(q, Hand(s.cores[d].pc));
    }
    GatherSolo(q, Hands(s.cores), c, |s.cores|);
    GatherSolo(q, Hands(s.cores[c := x]), c, |s.cores|);
  }

  lemma SameHand(cores: seq<CoreState>, c: nat, x: CoreState, q: Queue)
    requires c < |cores| && Of(q, Hand(x.pc)) == Of(q, Hand(cores[c].pc))
    ensures HandsOf(q, cores[c := x]) == HandsOf(q, cores)
  {
    GatherSame(q, Hands(cores[c := x]), Hands(cores), |cores|);
  }

  /** A hand of c that is not of q is nothing for q; one that is of q is c's alone. */
  lemma HandOfCore(s: State, c: nat, q: Queue)
    requires HandsOwn(s) && CtxExclusive(s) && c < |s.cores|
    ensures s.cores[c].ctx != Some(q) ==> Of(q, Hand(s.cores[c].pc)) == []
    ensures s.cores[c].ctx == Some(q) ==> Of(q, Hand(s.cores[c].pc)) == Hand(s.cores[c].pc)
    ensures s.cores[c].ctx == Some(q) ==> forall d :: 0 <= d < |s.cores| && d != c ==> s.cores[d].ctx != Some(q)
  {
    assert HandIsOwn(s.cores[c]);
    if s.cores[c].ctx == Some(q) {
      OfOwn(q, Hand(s.cores[c].pc));
    } else {
      OfOther(q, Hand(s.cores[c].pc));
    }
  }

  // ----- the structural part

  /** A core's hand shrinks, except when it gets a burst. */
  lemma HandShrinks(s: State, c: nat, a: Action, e: Entry)
    requires Enabled(s, c, a) && !a.Schedule? && e in Hand(Step(s, c, a).cores[c].pc)
    ensures e in Hand(s.cores[c].pc)
  {
  }

  lemma ArrivedKept(s: State, c: nat, a: Action)
    requires Enabled(s, c, a)
    ensures s.arrived <= Step(s, c, a).arrived
    ensures a.Schedule? ==> forall e :: e in Hand(Step(s, c, a).cores[c].pc) ==> e in Step(s, c, a).arrived
  {
  }

  lemma StepKeepsHandsArrived(s: State, c: nat, a: Action)
    requires Enabled(s, c, a) && HandsArrived(s)
    ensures HandsArrived(Step(s, c, a))
  {
    var t := Step(s, c, a);
    OthersKept(s, c, a);
    ArrivedKept(s, c, a);
    forall d, e | 0 <= d < |t.cores| && e in Hand(t.cores[d].pc) ensures e in t.arrived {
      if d != c {
        assert e in Hand(s.cores[d].pc);
      } else if !a.Schedule? {
        HandShrinks(s, c, a, e);
      }
    }
  }

  lemma StepKeepsHandsOwn(s: State, c: nat, a: Action)
    requires Enabled(s, c, a) && HandsOwn(s)
    ensures HandsOwn(Step(s, c, a))
  {
    var t := Step(s, c, a);
    OthersKept(s, c, a);
    assert HandIsOwn(s.cores[c]);
    HandStaysOwn(s, c, a);
  }

  lemma HandStaysOwn(s: State, c: nat, a: Action)
    requires Enabled(s, c, a) && HandIsOwn(s.cores[c])
    ensures HandIsOwn(Step(s, c, a).cores[c])
  {
    var x := Step(s, c, a).cores[c];
    if !a.Schedule? {
      forall e | e in Hand(x.pc) ensures e.qidx == s.cores[c].ctx.value {
        HandShrinks(s, c, a, e);
      }
    }
  }

  lemma StepKeepsCtx(s: State, c: nat, a: Action)
    requires Enabled(s, c, a) && CtxExclusive(s)
    ensures CtxExclusive(Step(s, c, a))
  {
    OthersKept(s, c, a);
    assert a.Schedule? || Step(s, c, a).cores[c].ctx == None || Step(s, c, a).cores[c].ctx == s.cores[c].ctx;
  }

  lemma StepKeepsStashes(s: State, c: nat, a: Action)
    requires Enabled(s, c, a) && StashesByPrio(s) && HandsOwn(s)
    ensures StashesByPrio(Step(s, c, a))
  {
    var t := Step(s, c, a);
    var pc := s.cores[c].pc;
    assert HandIsOwn(s.cores[c]);
    if a.Go? && pc.EnqPut? {
      assert pc.burst[0] in pc.burst;
      assert forall e :: e in pc.burst[..a.k] ==> e in pc.burst;
    } else {
      assert forall e :: e in t.hi ==> e in s.hi;
      assert forall e :: e in t.lo ==> e in s.lo;
    }
  }

  // ----- conservation, for each kind of step

  /** A step that moves no entry to or from the stashes. */
  lemma QuietConserves(s: State, t: State, c: nat, q: Queue)
    requires c < |s.cores| && c < |t.cores| && t.cores == s.cores[c := t.cores[c]]
    requires Hand(t.cores[c].pc) == Hand(s.cores[c].pc)
    requires t.hi == s.hi && t.lo == s.lo && t.taken == s.taken && t.hiQueues == s.hiQueues
    requires t.arrived == s.arrived && t.dropped == s.dropped
    ensures Flow(t, q) == Flow(s, q) && Accepted(t, q) == Accepted(s, q)
  {
    SameHand(s.cores, c, t.cores[c], q);
  }

  ghost predicate MovesNothing(s: State, c: nat, a: Action)
    requires c < |s.cores|
  {
    match a
    case Schedule(_, _) => false
    case ReleaseCtx => true
    case ProcessingEnd => true
    case Go(_) =>
      match s.cores[c].pc
      case AcquireIfIdle(_) => false
      case EnqPut(_) => false
      case EnqUncount(_) => false
      case DeqHi => false
      case DeqLo(_) => false
      case _ => true
  }

  lemma QuietStep(s: State, c: nat, a: Action, q: Queue)
    requires Enabled(s, c, a) && MovesNothing(s, c, a)
    ensures Flow(Step(s, c, a), q) == Flow(s, q) && Accepted(Step(s, c, a), q) == Accepted(s, q)
  {
    OthersKept(s, c, a);
    QuietConserves(s, Step(s, c, a), c, q);
  }

  /** A number not yet reached is not among the dropped. */
  lemma FreshArrival(s: State, e: Entry)
    requires Numbered(s) && e in s.arrived
    ensures e.n < |Of(e.qidx, s.arrived)|
  {
    OfMembers(e.qidx, s.arrived);
    var i :| 0 <= i < |Of(e.qidx, s.arrived)| && Of(e.qidx, s.arrived)[i] == e;
    assert Of(e.qidx, s.arrived)[i] == Entry(e.qidx, i);
  }

  lemma ArrivalsDistinct(s: State, q: Queue)
    requires Numbered(s)
    ensures Distinct(Of(q, s.arrived))
  {
    forall i, j | 0 <= i < j < |Of(q, s.arrived)| ensures Of(q, s.arrived)[i] != Of(q, s.arrived)[j] {
      assert Of(q, s.arrived)[i] == Entry(q, i) && Of(q, s.arrived)[j] == Entry(q, j);
    }
  }

  /** New arrivals are accepted. */
  lemma ScheduleAccepts(s: State, b: seq<Entry>, own: Queue, q: Queue)
    requires Numbered(s)
    requires forall e :: e in b ==> e.qidx == own && e.n >= |Of(own, s.arrived)|
    ensures Without(Of(q, s.arrived + b), s.dropped) == Accepted(s, q) + Of(q, b)
  {
    OfConcat(q, s.arrived, b);
    WithoutConcat(Of(q, s.arrived), Of(q, b), s.dropped);
    OfMembers(q, b);
    forall e | e in Of(q, b) ensures e !in s.dropped {
      if e in s.arrived {
        FreshArrival(s, e);
      }
    }
    WithoutNone(Of(q, b), s.dropped);
  }

  /** What is handed out of queue `own` joins the flow of q: at its end, or not at all. */
  lemma ScheduledHand(s: State, c: nat, own: Queue, n: nat, q: Queue)
    requires Enabled(s, c, Schedule(own, n)) && HandsOwn(s)
    ensures var t := Step(s, c, Schedule(own, n));
            HandsOf(q, t.cores) == HandsOf(q, s.cores) + Of(q, Burst(own, |Of(own, s.arrived)|, n))
  {
    var b := Burst(own, |Of(own, s.arrived)|, n);
    var x := CoreState(AcquireIfIdle(b), s.cores[c].released, Some(own));
    assert Step(s, c, Schedule(own, n)).cores == s.cores[c := x];
    assert Hand(s.cores[c].pc) == [] && [] + Of(q, b) == Of(q, b);
    if q == own {
      HandsOfOwner(s, c, x, q);
    } else {
      OfOther(q, b);
      SameHand(s.cores, c, x, q);
      assert HandsOf(q, s.cores) + [] == HandsOf(q, s.cores);
    }
  }

  lemma ScheduleConserves(s: State, c: nat, own: Queue, n: nat, q: Queue)
    requires Enabled(s, c, Schedule(own, n)) && HandsOwn(s) && Numbered(s)
    requires Flow(s, q) == Accepted(s, q)
    ensures var t := Step(s, c, Schedule(own, n)); Flow(t, q) == Accepted(t, q)
  {
    var b := Burst(own, |Of(own, s.arrived)|, n);
    ScheduleAccepts(s, b, own, q);
    ScheduledHand(s, c, own, n, q);
    MoveToLast(Of(q, s.taken), Of(q, StashOf(s, q)), HandsOf(q, s.cores), Of(q, b));
  }

  /** What core c has in hand moves on from it. */
  lemma HandMoves(s: State, c: nat, x: CoreState, q: Queue, moved: seq<Entry>)
    requires HandsOwn(s) && CtxExclusive(s) && c < |s.cores|
    requires Hand(s.cores[c].pc) == moved + Hand(x.pc)
    ensures HandsOf(q, s.cores) == Of(q, moved) + HandsOf(q, s.cores[c := x])
  {
    OfConcat(q, moved, Hand(x.pc));
    HandOfCore(s, c, q);
    if s.cores[c].ctx == Some(q) {
      HandsOfOwner(s, c, x, q);
    } else {
      SameHand(s.cores, c, x, q);
    }
  }

  /** The fast path overtakes nothing: the stashes are empty. */
  lemma AcquireConserves(s: State, c: nat, q: Queue)
    requires c < |s.cores| && s.cores[c].pc.AcquireIfIdle?
    requires LockInv(s) && HandsOwn(s) && CtxExclusive(s)
    ensures var t := AcquireIfIdleStep(s, c, s.cores[c].pc.burst); Flow(t, q) == Flow(s, q) && Accepted(t, q) == Accepted(s, q)
  {
    var b := s.cores[c].pc.burst;
    var t := AcquireIfIdleStep(s, c, b);
    if s.word == Word(0, WRAP_PROTECT, 0) {
      assert s.hi == [] && s.lo == [];
      assert b + Hand(t.cores[c].pc) == b;
      HandMoves(s, c, t.cores[c], q, b);
      OfConcat(q, s.taken, b);
      MoveOverEmpty(Of(q, s.taken), Of(q, b), HandsOf(q, t.cores));
    } else {
      QuietConserves(s, t, c, q);
    }
  }

  lemma EnqPutConserves(s: State, c: nat, k: nat, q: Queue)
    requires c < |s.cores| && s.cores[c].pc.EnqPut? && k <= |s.cores[c].pc.burst|
    requires HandsOwn(s) && CtxExclusive(s)
    ensures var t := EnqPutStep(s, c, s.cores[c].pc.burst, k); Flow(t, q) == Flow(s, q) && Accepted(t, q) == Accepted(s, q)
  {
    var b := s.cores[c].pc.burst;
    var t := EnqPutStep(s, c, b, k);
    assert b == b[..k] + Hand(t.cores[c].pc);
    HandMoves(s, c, t.cores[c], q, b[..k]);
    PutInStash(s, c, k, q);
    MoveToThird(Of(q, s.taken), Of(q, StashOf(s, q)), Of(q, b[..k]), HandsOf(q, t.cores));
  }

  lemma PutInStash(s: State, c: nat, k: nat, q: Queue)
    requires c < |s.cores| && s.cores[c].pc.EnqPut? && k <= |s.cores[c].pc.burst| && HandsOwn(s)
    ensures var b := s.cores[c].pc.burst;
            Of(q, StashOf(EnqPutStep(s, c, b, k), q)) == Of(q, StashOf(s, q)) + Of(q, b[..k])
  {
    var b := s.cores[c].pc.burst;
    assert HandIsOwn(s.cores[c]) && b[0] in b;
    OfConcat(q, StashOf(s, q), b[..k]);
    if q != b[0].qidx {
      OfOther(q, b[..k]);
    }
  }

  /** The tail that a failed put leaves is the end of its queue's flow. */
  lemma TailIsYoungest(s: State, c: nat, q: Queue)
    requires c < |s.cores| && s.cores[c].pc.EnqUncount? && HandsOwn(s) && CtxExclusive(s)
    ensures var tail := s.cores[c].pc.tail;
            Flow(s, q) == Flow(EnqUncountStep(s, c, tail), q) + Of(q, tail)
    ensures s.cores[c].ctx == Some(q) ==> HandsOf(q, EnqUncountStep(s, c, s.cores[c].pc.tail).cores) == []
  {
    var tail := s.cores[c].pc.tail;
    var t := EnqUncountStep(s, c, tail);
    assert tail + Hand(t.cores[c].pc) == tail;
    HandMoves(s, c, t.cores[c], q, tail);
    HandOfCore(s, c, q);
    if s.cores[c].ctx == Some(q) {
      HandsOfOwner(s, c, t.cores[c], q);
      FlowEnds(Of(q, s.taken), Of(q, StashOf(s, q)), Of(q, tail));
    } else {
      assert [] + HandsOf(q, t.cores) == HandsOf(q, t.cores);
      assert Flow(t, q) + [] == Flow(t, q);
    }
  }

  lemma FlowEnds(a: seq<Entry>, b: seq<Entry>, tail: seq<Entry>)
    ensures a + b + (tail + []) == (a + b + []) + tail
  {
  }

  /** What a failed put drops is the tail of its queue's flow. */
  lemma EnqUncountConserves(s: State, c: nat, q: Queue)
    requires c < |s.cores| && s.cores[c].pc.EnqUncount?
    requires HandsOwn(s) && CtxExclusive(s) && Numbered(s)
    requires Flow(s, q) == Accepted(s, q)
    ensures var t := EnqUncountStep(s, c, s.cores[c].pc.tail); Flow(t, q) == Accepted(t, q)
  {
    var tail := s.cores[c].pc.tail;
    var t := EnqUncountStep(s, c, tail);
    TailIsYoungest(s, c, q);
    HandOfCore(s, c, q);
    if s.cores[c].ctx == Some(q) {
      ArrivalsDistinct(s, q);
      DropTail(Of(q, s.arrived), s.dropped, Flow(t, q), tail);
    } else {
      DropOfOther(s, c, q);
      assert Flow(t, q) + [] == Flow(t, q);
    }
  }

  lemma DropOfOther(s: State, c: nat, q: Queue)
    requires c < |s.cores| && s.cores[c].pc.EnqUncount? && s.cores[c].ctx != Some(q)
    requires HandIsOwn(s.cores[c])
    ensures Without(Of(q, s.arrived), s.dropped + Entries(s.cores[c].pc.tail)) == Accepted(s, q)
  {
    var d := Entries(s.cores[c].pc.tail);
    WithoutTwice(Of(q, s.arrived), s.dropped, d);
    OfMembers(q, s.arrived);
    WithoutMembers(Of(q, s.arrived), s.dropped);
    WithoutNone(Accepted(s, q), d);
  }

  /** The first k entries of a stash are taken for dispatch. */
  lemma TakeFromStash(taken: seq<Entry>, stash: seq<Entry>, k: nat, hands: seq<Entry>, q: Queue)
    requires k <= |stash|
    ensures Of(q, taken + stash[..k]) + Of(q, stash[k..]) + hands == Of(q, taken) + Of(q, stash) + hands
  {
    OfConcat(q, taken, stash[..k]);
    OfSplit(q, stash, k);
    MoveToSecond(Of(q, taken), Of(q, stash[..k]), Of(q, stash[k..]), hands);
  }

  /** The first k entries of a stash are taken for dispatch; q's stash is the other one. */
  lemma TakeOther(taken: seq<Entry>, stash: seq<Entry>, k: nat, q: Queue)
    requires k <= |stash| && forall e :: e in stash ==> e.qidx != q
    ensures Of(q, taken + stash[..k]) == Of(q, taken)
  {
    OfConcat(q, taken, stash[..k]);
    OfOther(q, stash[..k]);
  }

  lemma DeqHiConserves(s: State, c: nat, k: nat, q: Queue)
    requires c < |s.cores| && s.cores[c].pc.DeqHi? && k <= |s.hi| && StashesByPrio(s)
    ensures var t := DeqHiStep(s, c, k); Flow(t, q) == Flow(s, q) && Accepted(t, q) == Accepted(s, q)
  {
    SameHand(s.cores, c, DeqHiStep(s, c, k).cores[c], q);
    if q in s.hiQueues {
      TakeFromStash(s.taken, s.hi, k, HandsOf(q, s.cores), q);
    } else {
      TakeOther(s.taken, s.hi, k, q);
    }
  }

  lemma DeqLoConserves(s: State, c: nat, k: nat, q: Queue)
    requires c < |s.cores| && s.cores[c].pc.DeqLo? && k <= |s.lo| && StashesByPrio(s)
    ensures var t := DeqLoStep(s, c, s.cores[c].pc.tbl, k); Flow(t, q) == Flow(s, q) && Accepted(t, q) == Accepted(s, q)
  {
    SameHand(s.cores, c, DeqLoStep(s, c, s.cores[c].pc.tbl, k).cores[c], q);
    if q in s.hiQueues {
      TakeOther(s.taken, s.lo, k, q);
    } else {
      TakeFromStash(s.taken, s.lo, k, HandsOf(q, s.cores), q);
    }
  }

  lemma {:induction false} StepKeepsNumbered(s: State, c: nat, a: Action)
    requires Enabled(s, c, a) && HandsOwn(s) && Numbered(s)
    requires forall e :: e in Hand(s.cores[c].pc) ==> e in s.arrived
    ensures Numbered(Step(s, c, a))
  {
    var t := Step(s, c, a);
    if a.Schedule? {
      var first := |Of(a.q, s.arrived)|;
      var b := Burst(a.q, first, a.n);
      forall q, i {:trigger Of(q, t.arrived)[i]} | 0 <= i < |Of(q, t.arrived)|
        ensures Of(q, t.arrived)[i] == Entry(q, i)
      {
        OfConcat(q, s.arrived, b);
        if q == a.q {
          OfOwn(q, b);
          if i < first {
            assert Of(q, s.arrived)[i] == Entry(q, i);
          }
        } else {
          OfOther(q, b);
          assert Of(q, s.arrived)[i] == Entry(q, i);
        }
      }
    }
  }
}
