/**
 Nothing keeps an atomic group from being drained: what one dequeue takes, and that from
 every reachable state the cores can finish, without new arrivals, with every accepted
 event started.
 */
module AtomicGroupDrain {
  import opened AtomicGroupModel
  import opened AtomicGroupLock
  import opened AtomicGroupFifo
  import opened AtomicGroupWork
  import opened AtomicGroupTheorems
  import opened Seqs
  import opened Traces
  import U = AtomicGroupUneven

  // ----- no table exceeds the burst limit

  ghost predicate TablesFit(s: State) {
    forall c :: 0 <= c < |s.cores| ==> |Table(s.cores[c].pc)| <= 32 && |Hand(s.cores[c].pc)| <= 32
  }

  lemma StepKeepsOwnTable(s: State, c: nat, a: Action)
    requires Enabled(s, c, a) && |Table(s.cores[c].pc)| <= 32 && |Hand(s.cores[c].pc)| <= 32
    ensures var pc := Step(s, c, a).cores[c].pc; |Table(pc)| <= 32 && |Hand(pc)| <= 32
  {
  }

  lemma StepKeepsTablesFit(s: State, c: nat, a: Action)
    requires Enabled(s, c, a) && TablesFit(s)
    ensures TablesFit(Step(s, c, a))
  {
    OthersKept(s, c, a);
    StepKeepsOwnTable(s, c, a);
  }

  /** In every run, no event table and no burst ever has more than 32 entries. */
  lemma {:induction false} TablesBounded(run: seq<State>, who: seq<nat>, acts: seq<Action>, i: nat)
    requires IsRun(run, who, acts) && i < |run|
    ensures TablesFit(run[i])
    ensures SCHED_AG_MULTI_MAX_BURST == SCHED_MULTI_MAX_BURST == 32
  {
    if i > 0 {
      TablesBounded(run, who, acts, i - 1);
      StepKeepsTablesFit(run[i - 1], who[i - 1], acts[i - 1]);
    }
  }

  // ----- ways on from a state

  type Way = Path<State, Action>

  /** Where the steps lead. */
  ghost function End(p: Way): State {
    match p
    case From(s) => s
    case Onward(before, c, a) => if Enabled(End(before), c, a) then Step(End(before), c, a) else End(before)
  }

  /** A way on which no events arrive and no user code interferes. */
  ghost predicate Legal(p: Way) {
    p.Onward? ==> Legal(p.before) && p.act.Go? && Enabled(End(p.before), p.core, p.act)
  }

  /** It starts in a state with all invariants. */
  ghost predicate StartsSound(p: Way) {
    Inv(Origin(p)) && TablesFit(Origin(p))
  }

  lemma {:induction false} EndKeeps(p: Way)
    requires Legal(p) && StartsSound(p)
    ensures Inv(End(p)) && TablesFit(End(p))
  {
    if p.Onward? {
      EndKeeps(p.before);
      StepKeepsInv(End(p.before), p.core, p.act);
      StepKeepsTablesFit(End(p.before), p.core, p.act);
    }
  }

  lemma Go1(p: Way, c: nat, k: nat) returns (q: Way)
    requires Legal(p) && Enabled(End(p), c, Go(k))
    ensures Legal(q) && Origin(q) == Origin(p) && End(q) == Step(End(p), c, Go(k))
  {
    q := Onward(p, c, Go(k));
  }

  /** A way continues every run that has come to its origin. */
  lemma {:induction false} WayIsRun(tr: U.Run, p: Way) returns (u: U.Run)
    requires U.IsTrace(tr) && Legal(p) && Origin(p) == Last(tr)
    ensures U.IsTrace(u) && Continues(tr, u) && Last(u) == End(p)
  {
    u := tr;
    if p.Onward? {
      var mid := WayIsRun(tr, p.before);
      u := U.Then(mid, p.core, p.act);
      StillContinues(tr, mid, u);
    }
  }

  // ----- what one dequeue takes

  function Least(a: nat, b: nat): nat { if a <= b then a else b }

  /** Without hi-prio queues there are no hi-prio entries. */
  ghost predicate HiIfAny(s: State) {
    s.hiQueues == {} ==> s.hi == []
  }

  lemma ByPrioHiIfAny(s: State)
    requires StashesByPrio(s)
    ensures HiIfAny(s)
  {
    assert s.hi != [] ==> s.hi[0] in s.hi;
  }

  ghost predicate TookHi(s: State, t: State, c: nat)
    requires c < |s.cores|
  {
    && t.lo == s.lo && t.word == s.word
    && if |s.hi| < 32
       then t.cores == s.cores[c := s.cores[c].(pc := DeqLo(s.hi))] && t.hi == [] && t.taken == s.taken + s.hi
       else t.cores == s.cores[c := s.cores[c].(pc := DeqSub(s.hi[..32]))]
            && t.hi == s.hi[32..] && t.taken == s.taken + s.hi[..32]
  }

  lemma AllOf(s: seq<Entry>)
    ensures s[..|s|] == s && s[|s|..] == []
  {
  }

  /** The first gets, if the stash gives what it has. */
  lemma TakesHi(p: Way, c: nat) returns (q: Way)
    requires Legal(p) && c < |End(p).cores| && End(p).cores[c].pc.DeqHi? && HiIfAny(End(p))
    ensures Legal(q) && Origin(q) == Origin(p)
    ensures TookHi(End(p), End(q), c)
  {
    AllOf(End(p).hi);
    q := Go1(p, c, Least(32, |End(p).hi|));
  }

  ghost predicate TookLo(s: State, t: State, c: nat, tbl: seq<Entry>, k: nat)
    requires c < |s.cores| && k <= |s.lo|
  {
    && t.cores == s.cores[c := s.cores[c].(pc := DeqSub(tbl + s.lo[..k]))]
    && t.hi == s.hi && t.lo == s.lo[k..] && t.taken == s.taken + s.lo[..k] && t.word == s.word
  }

  lemma TakesLo(p: Way, c: nat, tbl: seq<Entry>, k: nat) returns (q: Way)
    requires Legal(p) && c < |End(p).cores| && End(p).cores[c].pc == DeqLo(tbl) && |tbl| <= 32
    requires k == Least(32 - |tbl|, |End(p).lo|)
    ensures Legal(q) && Origin(q) == Origin(p) && TookLo(End(p), End(q), c, tbl, k)
  {
    q := Go1(p, c, k);
  }

  /** How many entries one dequeue takes. */
  function Takes(hi: seq<Entry>, lo: seq<Entry>): nat {
    if |hi| + |lo| <= 32 then |hi| + |lo| else 32
  }

  /** All of hi, and then from lo, is the front of both. */
  lemma FrontOfBoth(hi: seq<Entry>, lo: seq<Entry>, taken: seq<Entry>)
    requires |hi| < 32
    ensures var k, n := Least(32 - |hi|, |lo|), Takes(hi, lo);
      && (hi + lo)[..n] == hi + lo[..k] && (hi + lo)[n..] == [] + lo[k..]
      && taken + hi + lo[..k] == taken + (hi + lo)[..n]
  {
    var k, n := Least(32 - |hi|, |lo|), Takes(hi, lo);
    assert n == |hi| + k;
    assert (hi + lo)[..n] == hi + lo[..k];
    assert (hi + lo)[n..] == lo[k..];
  }

  /** A front of hi is a front of both. */
  lemma FrontOfHi(hi: seq<Entry>, lo: seq<Entry>)
    requires |hi| >= 32
    ensures (hi + lo)[..Takes(hi, lo)] == hi[..32] && (hi + lo)[Takes(hi, lo)..] == hi[32..] + lo
  {
  }

  /** The core has as many entries as fit its table, of hi-prio followed by lo-prio entries. */
  ghost predicate Dequeued(s: State, t: State, c: nat)
    requires c < |s.cores|
  {
    var all, n := s.hi + s.lo, Takes(s.hi, s.lo);
    && t.cores == s.cores[c := s.cores[c].(pc := DeqSub(all[..n]))]
    && t.hi + t.lo == all[n..] && t.taken == s.taken + all[..n] && t.word == s.word
  }

  lemma TakenFromHi(s: State, t: State, c: nat)
    requires c < |s.cores| && |s.hi| >= 32 && t.hi == s.hi[32..] && t.lo == s.lo && t.word == s.word
    requires t.cores == s.cores[c := s.cores[c].(pc := DeqSub(s.hi[..32]))] && t.taken == s.taken + s.hi[..32]
    ensures Dequeued(s, t, c)
  {
    FrontOfHi(s.hi, s.lo);
  }

  lemma TakenFromBoth(s: State, m: State, t: State, c: nat, k: nat)
    requires c < |s.cores| == |m.cores| && |s.hi| < 32 && k == Least(32 - |s.hi|, |s.lo|) && k <= |m.lo|
    requires TookHi(s, m, c) && TookLo(m, t, c, s.hi, k)
    ensures Dequeued(s, t, c)
  {
    FrontOfBoth(s.hi, s.lo, s.taken);
    var pc := DeqSub((s.hi + s.lo)[..Takes(s.hi, s.lo)]);
    assert s.cores[c := m.cores[c]][c := s.cores[c].(pc := pc)] == s.cores[c := s.cores[c].(pc := pc)];
  }

  lemma DequeueTakes(p: Way, c: nat) returns (q: Way)
    requires Legal(p) && c < |End(p).cores| && End(p).cores[c].pc.DeqHi? && HiIfAny(End(p))
    ensures Legal(q) && Origin(q) == Origin(p) && Dequeued(End(p), End(q), c)
  {
    var mid := TakesHi(p, c);
    q := mid;
    if |End(p).hi| < 32 {
      var k := Least(32 - |End(p).hi|, |End(p).lo|);
      q := TakesLo(mid, c, End(p).hi, k);
      TakenFromBoth(End(p), End(mid), End(q), c, k);
    } else {
      TakenFromHi(End(p), End(q), c);
    }
  }

  /**
   In every run, a core that begins to dequeue can go on to have the first 32 of all the
   hi-prio and then the lo-prio entries, or all of them: if both stashes give what they have.
   */
  lemma OneDequeue(tr: U.Run, c: nat) returns (u: U.Run)
    requires U.IsTrace(tr) && c < |Last(tr).cores| && Last(tr).cores[c].pc.DeqHi?
    ensures U.IsTrace(u) && Continues(tr, u) && Dequeued(Last(tr), Last(u), c)
  {
    RunInv(tr.run, tr.who, tr.acts, |tr.run| - 1);
    assert HiIfAny(Last(tr)) by {
      ByPrioHiIfAny(Last(tr));
    }
    var way := DequeueTakes(From(Last(tr)), c);
    u := WayIsRun(tr, way);
  }

  // ----- one core on its own

  /** On the way to a stash, with a burst in hand. */
  predicate Enqueues(pc: Pc) {
    pc.AcquireIfIdle? || pc.EnqCount? || pc.EnqPut? || pc.EnqUncount?
  }

  ghost predicate Quiet(s: State) {
    forall c :: 0 <= c < |s.cores| ==> !Enqueues(s.cores[c].pc)
  }

  function Stashed(s: State): nat { |s.hi| + |s.lo| }

  /** How far the core is from coming out, while the stashes stay as they are. */
  function Stage(s: State, c: nat): nat
    requires c < |s.cores|
  {
    match s.cores[c].pc
    case TrylockCas(seen) => if seen == s.word then 13 else 15
    case TrylockLoad => 14
    case DeqHi => if Stashed(s) > 0 then 3 else 11
    case DeqLo(tbl) => if s.lo == [] || |tbl| == 32 then 10 else 2
    case DeqSub(_) => 9
    case ReleaseCas(_, seen) => if seen == s.word then 8 else 10
    case ReleaseLoad(_) => 9
    case Dispatching(_) => 8
    case UnlockReload => 6
    case UnlockRecas(seen) => if seen != s.word then 7 else if Stashed(s) > 0 then 5 else 12
    case UnlockCas => 4
    case _ => 0
  }

  function Left(s: State, c: nat): nat
    requires c < |s.cores|
  {
    if s.cores[c].pc.Dispatching? then |s.cores[c].pc.work.rest| else if HasWork(s.cores[c].pc) then 33 else 0
  }

  predicate Nearer(t: State, s: State, c: nat)
    requires c < |t.cores| == |s.cores|
  {
    || Stashed(t) < Stashed(s)
    || (Stashed(t) == Stashed(s) && Stage(t, c) < Stage(s, c))
    || (Stashed(t) == Stashed(s) && Stage(t, c) == Stage(s, c) && Left(t, c) < Left(s, c))
  }

  /** What a stash can give. */
  function Most(s: State, c: nat): nat
    requires c < |s.cores|
  {
    match s.cores[c].pc
    case DeqHi => Least(32, |s.hi|)
    case DeqLo(tbl) => if |tbl| <= 32 then Least(32 - |tbl|, |s.lo|) else 0
    case _ => 0
  }

  /** What the core does without anyone else: it comes nearer, and puts nothing anywhere. */
  ghost predicate Advances(s: State, c: nat) {
    && c < |s.cores| && Enabled(s, c, Go(Most(s, c)))
    && var t := Step(s, c, Go(Most(s, c)));
    && |t.cores| == |s.cores| && t.cores == s.cores[c := t.cores[c]] && !Enqueues(t.cores[c].pc)
    && t.arrived == s.arrived && t.dropped == s.dropped && Nearer(t, s, c)
  }

  lemma TakingAdvances(s: State, c: nat)
    requires c < |s.cores| && StashesByPrio(s) && TablesFit(s) && (s.cores[c].pc.DeqHi? || s.cores[c].pc.DeqLo?)
    ensures Advances(s, c)
  {
    assert s.hi != [] ==> s.hi[0] in s.hi;
    assert |Table(s.cores[c].pc)| <= 32;
  }

  lemma LockingAdvances(s: State, c: nat)
    requires c < |s.cores| && (s.cores[c].pc.TrylockLoad? || s.cores[c].pc.TrylockCas?)
    ensures Advances(s, c)
  {
  }

  lemma DispatchingAdvances(s: State, c: nat)
    requires c < |s.cores| && WorksFit(s) && TablesFit(s)
    requires s.cores[c].pc.DeqSub? || HasWork(s.cores[c].pc)
    ensures Advances(s, c)
  {
    assert |Table(s.cores[c].pc)| <= 32;
    if s.cores[c].pc.Dispatching? && s.cores[c].pc.work.rest != [] {
      ReceiveFits(s.cores[c].pc.work);
    }
  }

  /** With nobody on the way to or from a stash, the event count is what is stashed. */
  lemma CountIsStashed(s: State)
    requires ExactCount(s) && forall c :: 0 <= c < |s.cores| ==> Counted(s.cores[c].pc) == 0
    ensures s.word.evcnt == Stashed(s)
  {
    SumZeroIff(s.cores, CountedBy);
  }

  lemma UnlockingAdvances(s: State, c: nat)
    requires c < |s.cores| && LockInv(s) && Quiet(s) && s.cores[c].pc.UnlockCas?
    ensures Advances(s, c)
  {
    assert Holds(s.cores[c]) && s.word.lock == 1;
    forall d | 0 <= d < |s.cores| ensures Counted(s.cores[d].pc) == 0 {
      assert Holds(s.cores[d]) ==> d == c;
    }
    CountIsStashed(s);
  }

  lemma RetakingAdvances(s: State, c: nat)
    requires c < |s.cores| && LockInv(s) && Quiet(s) && (s.cores[c].pc.UnlockReload? || s.cores[c].pc.UnlockRecas?)
    ensures Advances(s, c)
  {
    if s.word.lock == 0 {
      forall d | 0 <= d < |s.cores| ensures Counted(s.cores[d].pc) == 0 {
        assert !Holds(s.cores[d]);
      }
      CountIsStashed(s);
    }
  }

  lemma CoreAdvances(s: State, c: nat)
    requires c < |s.cores| && Inv(s) && TablesFit(s) && Quiet(s) && !s.cores[c].pc.Idle?
    ensures Advances(s, c)
  {
    assert !Enqueues(s.cores[c].pc);
    var pc := s.cores[c].pc;
    if pc.DeqHi? || pc.DeqLo? {
      TakingAdvances(s, c);
    } else if pc.TrylockLoad? || pc.TrylockCas? {
      LockingAdvances(s, c);
    } else if pc.UnlockCas? {
      UnlockingAdvances(s, c);
    } else if pc.UnlockReload? || pc.UnlockRecas? {
      RetakingAdvances(s, c);
    } else {
      DispatchingAdvances(s, c);
    }
  }

  /** Nothing arrives or is dropped, and no other core does anything. */
  ghost predicate Only(s: State, t: State, c: nat) {
    && c < |s.cores| == |t.cores| && t.arrived == s.arrived && t.dropped == s.dropped
    && forall d :: 0 <= d < |s.cores| && d != c ==> t.cores[d] == s.cores[d]
  }

  /** With nobody on the way to a stash, a core that is left alone comes out. */
  lemma {:induction false} CoreComesOut(p: Way, c: nat) returns (q: Way)
    requires Legal(p) && StartsSound(p) && c < |End(p).cores| && Quiet(End(p))
    ensures Legal(q) && Origin(q) == Origin(p) && Only(End(p), End(q), c) && End(q).cores[c].pc.Idle? && Quiet(End(q))
    decreases Stashed(End(p)), Stage(End(p), c), Left(End(p), c)
  {
    q := p;
    if !End(p).cores[c].pc.Idle? {
      EndKeeps(p);
      CoreAdvances(End(p), c);
      q := Go1(p, c, Most(End(p), c));
      StaysQuiet(End(p), End(q), c);
      q := CoreComesOut(q, c);
    }
  }

  lemma StaysQuiet(s: State, t: State, c: nat)
    requires Quiet(s) && c < |s.cores| == |t.cores| && t.cores == s.cores[c := t.cores[c]] && !Enqueues(t.cores[c].pc)
    ensures Quiet(t)
  {
  }

  // ----- all cores

  /** What a failed put has made the core give up before. */
  function GivesUp(pc: Pc): set<Entry> {
    if pc.EnqUncount? then Entries(pc.tail) else {}
  }

  ghost predicate OnlyEnqueues(s: State, t: State, c: nat) {
    && c < |s.cores| == |t.cores| && t.arrived == s.arrived && t.dropped == s.dropped + GivesUp(s.cores[c].pc)
    && !Enqueues(t.cores[c].pc) && forall d :: 0 <= d < |s.cores| && d != c ==> t.cores[d] == s.cores[d]
  }

  lemma PutsAll(p: Way, c: nat) returns (q: Way)
    requires Legal(p) && c < |End(p).cores| && End(p).cores[c].pc.EnqPut?
    ensures Legal(q) && Origin(q) == Origin(p) && OnlyEnqueues(End(p), End(q), c)
  {
    q := Go1(p, c, |End(p).cores[c].pc.burst|);
  }

  lemma CountsAndPuts(p: Way, c: nat) returns (q: Way)
    requires Legal(p) && c < |End(p).cores| && End(p).cores[c].pc.EnqCount?
    ensures Legal(q) && Origin(q) == Origin(p) && OnlyEnqueues(End(p), End(q), c)
  {
    q := Go1(p, c, 0);
    q := PutsAll(q, c);
  }

  /** A core that enqueues gets its burst into the stash, or dispatches it. */
  lemma CoreEnqueues(p: Way, c: nat) returns (q: Way)
    requires Legal(p) && c < |End(p).cores|
    ensures Legal(q) && Origin(q) == Origin(p) && OnlyEnqueues(End(p), End(q), c)
  {
    q := p;
    var pc := End(p).cores[c].pc;
    if pc.AcquireIfIdle? {
      q := Go1(p, c, 0);
      if End(q).cores[c].pc.EnqCount? {
        q := CountsAndPuts(q, c);
      }
    } else if pc.EnqCount? {
      q := CountsAndPuts(p, c);
    } else if pc.EnqPut? {
      q := PutsAll(p, c);
    } else if pc.EnqUncount? {
      q := Go1(p, c, 0);
    }
  }

  /** The first n cores are done with enqueueing, and the others have done nothing. */
  ghost predicate EnqueuedUpto(s: State, t: State, n: nat) {
    && |t.cores| == |s.cores| && t.arrived == s.arrived
    && (forall c :: 0 <= c < |s.cores| && c < n ==> !Enqueues(t.cores[c].pc))
    && (forall c :: n <= c < |s.cores| ==> t.cores[c] == s.cores[c])
    && (forall e :: e in t.dropped ==> e in s.dropped || GivenUp(s, e))
  }

  /** A put has already failed for this event. */
  ghost predicate GivenUp(s: State, e: Entry) {
    exists c :: 0 <= c < |s.cores| && e in GivesUp(s.cores[c].pc)
  }

  lemma {:induction false} CoresEnqueue(p: Way, n: nat) returns (q: Way)
    requires Legal(p) && n <= |End(p).cores|
    ensures Legal(q) && Origin(q) == Origin(p) && EnqueuedUpto(End(p), End(q), n)
  {
    q := p;
    if n > 0 {
      var mid := CoresEnqueue(p, n - 1);
      q := CoreEnqueues(mid, n - 1);
    }
  }

  ghost predicate OutUpto(s: State, t: State, n: nat) {
    && |t.cores| == |s.cores| && t.arrived == s.arrived && t.dropped == s.dropped && Quiet(t)
    && forall c :: 0 <= c < |s.cores| && c < n ==> t.cores[c].pc.Idle?
  }

  lemma {:induction false} CoresComeOut(p: Way, n: nat) returns (q: Way)
    requires Legal(p) && StartsSound(p) && Quiet(End(p)) && n <= |End(p).cores|
    ensures Legal(q) && Origin(q) == Origin(p) && OutUpto(End(p), End(q), n)
  {
    q := p;
    if n > 0 {
      var mid := CoresComeOut(p, n - 1);
      q := CoreComesOut(mid, n - 1);
    }
  }

  /**
   Every run of any number of cores can be continued, by accesses of the cores alone and
   without new arrivals, to where every core is outside. Every event that had arrived, and
   for which no stash put has failed, is then started exactly once.
   */
  lemma CanDrain(tr: U.Run) returns (u: U.Run, way: Way)
    requires U.IsTrace(tr)
    ensures U.IsTrace(u) && Continues(tr, u) && Legal(way) && Origin(way) == Last(tr) && End(way) == Last(u)
    ensures AllOutside(Last(u)) && Last(u).arrived == Last(tr).arrived
    ensures forall e :: e in Last(tr).arrived && e !in Last(tr).dropped && !GivenUp(Last(tr), e)
                        ==> multiset(Last(u).log)[e] == 1
  {
    var s := Last(tr);
    RunInv(tr.run, tr.who, tr.acts, |tr.run| - 1);
    TablesBounded(tr.run, tr.who, tr.acts, |tr.run| - 1);
    var settled := CoresEnqueue(From(s), |s.cores|);
    way := CoresComeOut(settled, |s.cores|);
    u := WayIsRun(tr, way);
    var t := Last(u);
    forall e | e in s.arrived && e !in s.dropped && !GivenUp(s, e) ensures multiset(t.log)[e] == 1 {
      AllDispatchedOrDropped(u.run, u.who, u.acts, |u.run| - 1, e);
    }
  }
}
