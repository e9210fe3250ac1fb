/**
 The packed dispatch-lock word {evcnt: 32, wrap: 16, lock: 16}, little endian,
 and an atomic group whose cores work on it with plain 64-bit operations. Every
 access is one step of the protocol over separate fields.
 */
module DispatchLock {
  import opened Wrappers
  import opened U64
  import P = DispatchPlan
  import opened AtomicGroupModel
  import opened AtomicGroupLock
  import opened AtomicGroupWork
  import opened AtomicGroupTheorems
  import opened Seqs

  function Pack(w: Word): u64
    requires Fits(w)
  {
    w.evcnt + w.wrap * TWO32 + w.lock * TWO48
  }

  function Unpack(x: u64): (w: Word)
    ensures Fits(w)
  {
    Word(x / TWO48, x / TWO32 % TWO16, x % TWO32)
  }

  lemma PackUnpack(x: u64)
    ensures Pack(Unpack(x)) == x
  {
  }

  lemma UnpackPack(w: Word)
    requires Fits(w)
    ensures Unpack(Pack(w)) == w
  {
    Split32(w.wrap + w.lock * TWO16, w.evcnt);
    Split16(w.lock, w.wrap);
    Split48(w.lock, w.evcnt + w.wrap * TWO32);
  }

  /** Comparing packed words is comparing all three fields. */
  lemma UnpackInjective(x: u64, y: u64)
    ensures x == y <==> Unpack(x) == Unpack(y)
  {
    PackUnpack(x);
    PackUnpack(y);
  }

  /** Adding a number of events stays out of `wrap` and `lock` exactly while the sum fits the field. */
  lemma AddWithinField(x: u64, n: nat)
    requires n < TWO32
    ensures Unpack(x).evcnt + n < TWO32 ==> Unpack(Add(x, n)) == Unpack(x).(evcnt := Unpack(x).evcnt + n)
    ensures Unpack(x).evcnt + n >= TWO32 ==> Unpack(Add(x, n)).wrap != Unpack(x).wrap
  {
    var w := Unpack(x);
    PackUnpack(x);
    if w.evcnt + n < TWO32 {
      UnpackPack(w.(evcnt := w.evcnt + n));
    } else {
      var w' := if w.wrap + 1 < TWO16 then Word(w.lock, w.wrap + 1, w.evcnt + n - TWO32)
                else Word(if w.lock + 1 < TWO16 then w.lock + 1 else 0, 0, w.evcnt + n - TWO32);
      assert Add(x, n) == Pack(w');
      UnpackPack(w');
    }
  }

  /** Subtracting counted events borrows from no other field. */
  lemma SubWithinField(x: u64, n: nat)
    requires n <= Unpack(x).evcnt
    ensures Unpack(Sub(x, n)) == Unpack(x).(evcnt := Unpack(x).evcnt - n)
  {
    var w := Unpack(x);
    PackUnpack(x);
    UnpackPack(w.(evcnt := w.evcnt - n));
  }

  class AtomicGroup {
    var lockAndEvcnt: u64
    var hiPrio: seq<Entry>
    var loPrio: seq<Entry>
    var cores: seq<CoreState>
    const hiQueues: set<Queue>
    const queues: P.Queues
    const group: Entry -> (nat, nat)
    ghost var arrived: seq<Entry>
    ghost var taken: seq<Entry>
    ghost var log: seq<Entry>
    ghost var dropped: set<Entry>

    /** The protocol state that the fields represent. */
    ghost function Model(): State
      reads this
    {
      State(Unpack(lockAndEvcnt), hiPrio, loPrio, cores, hiQueues, queues, group, arrived, taken, log, dropped)
    }

    /** A word a core has read is one that fits the packed word. */
    ghost predicate Valid()
      reads this
    {
      Inv(Model()) && forall c :: 0 <= c < |cores| ==> SeenFits(cores[c].pc)
    }

    /** Core c can take its next access, and k entries with it. */
    ghost predicate Ready(c: nat, k: nat)
      reads this
    {
      Valid() && Enabled(Model(), c, Go(k))
    }

    constructor (numCores: nat, hiQueues: set<Queue>, queues: P.Queues, group: Entry -> (nat, nat))
      ensures Valid() && Init(Model()) && |cores| == numCores
      ensures this.hiQueues == hiQueues && this.queues == queues && this.group == group
    {
      lockAndEvcnt := WRAP_PROTECT * TWO32;
      hiPrio, loPrio := [], [];
      cores := seq(numCores, _ => CoreState(Idle, false, None));
      this.hiQueues, this.queues, this.group := hiQueues, queues, group;
      arrived, taken, log, dropped := [], [], [], {};
      new;
      UnpackPack(Word(0, WRAP_PROTECT, 0));
      InitInv(Model());
    }

    method SetPc(c: nat, pc: Pc)
      requires c < |cores|
      modifies this`cores
      ensures cores == old(cores)[c := old(cores)[c].(pc := pc)]
    {
      cores := cores[c := cores[c].(pc := pc)];
    }

    /** `__atomic_compare_exchange_n()` on the whole word. */
    method CompareExchange(expected: u64, desired: u64) returns (success: bool)
      modifies this`lockAndEvcnt
      ensures success == (old(lockAndEvcnt) == expected)
      ensures lockAndEvcnt == if success then desired else old(lockAndEvcnt)
    {
      success := lockAndEvcnt == expected;
      if success {
        lockAndEvcnt := desired;
      }
    }

    /** Compare-and-swap of the lock field; the other fields are swapped for themselves. */
    method ExchangeLock(seen: Word, lock: nat) returns (success: bool)
      requires Fits(seen) && lock < TWO16
      modifies this`lockAndEvcnt
      ensures (success, Unpack(lockAndEvcnt)) == Cas(Unpack(old(lockAndEvcnt)), seen, seen.(lock := lock))
    {
      UnpackPack(seen);
      UnpackPack(seen.(lock := lock));
      UnpackInjective(lockAndEvcnt, Pack(seen));
      success := CompareExchange(Pack(seen), Pack(seen.(lock := lock)));
    }

    /** The compare-and-swap of a word that is unlocked and empty. */
    method ExchangeIdle() returns (locked: bool)
      modifies this`lockAndEvcnt
      ensures locked <==> old(lockAndEvcnt) == WRAP_PROTECT * TWO32
      ensures (locked, Unpack(lockAndEvcnt))
              == Cas(Unpack(old(lockAndEvcnt)), Word(0, WRAP_PROTECT, 0), Word(1, WRAP_PROTECT, 0))
    {
      UnpackPack(Word(0, WRAP_PROTECT, 0));
      UnpackInjective(lockAndEvcnt, WRAP_PROTECT * TWO32);
      locked := ExchangeLock(Word(0, WRAP_PROTECT, 0), 1);
    }

    /** `__atomic_fetch_add()` of n events. */
    method AddToWord(n: nat)
      requires Unpack(lockAndEvcnt).evcnt + n < TWO32
      modifies this`lockAndEvcnt
      ensures Unpack(lockAndEvcnt) == old(Unpack(lockAndEvcnt).(evcnt := Unpack(lockAndEvcnt).evcnt + n))
    {
      AddWithinField(lockAndEvcnt, n);
      lockAndEvcnt := Add(lockAndEvcnt, n);
    }

    /** `__atomic_fetch_sub()` of what core c has counted. */
    method SubtractCounted(c: nat, n: nat)
      requires Valid() && c < |cores| && n == Counted(cores[c].pc)
      modifies this`lockAndEvcnt
      ensures Unpack(lockAndEvcnt) == old(Unpack(lockAndEvcnt).(evcnt := Unpack(lockAndEvcnt).evcnt - n))
    {
      CountedIsInEvcnt(Model(), c);
      SubWithinField(lockAndEvcnt, n);
      lockAndEvcnt := Sub(lockAndEvcnt, n);
    }

    /** `ag_acquire_if_idle()` */
    method AcquireIdle(c: nat) returns (locked: bool)
      requires Ready(c, 0) && cores[c].pc.AcquireIfIdle?
      modifies this
      ensures locked <==> old(lockAndEvcnt) == WRAP_PROTECT * TWO32
      ensures Valid() && Model() == Step(old(Model()), c, Go(0))
    {
      var burst := cores[c].pc.burst;
      ghost var next := AcquireNext(Model(), c);
      locked := ExchangeIdle();
      var pc := if locked then Dispatching(NewWork(queues, group, burst)) else EnqCount(burst);
      if locked {
        taken := taken + burst;
      }
      SetPc(c, pc);
      assert Model() == next;
    }

    /** `ag_internal_enq()`, the count. While fewer than 2^32 events are outstanding, the add stays in its field. */
    method AddToCount(c: nat)
      requires Ready(c, 0) && cores[c].pc.EnqCount?
      requires Unpack(lockAndEvcnt).evcnt + |cores[c].pc.burst| < TWO32
      modifies this
      ensures Valid() && Model() == Step(old(Model()), c, Go(0))
    {
      var burst := cores[c].pc.burst;
      ghost var next := EnqCountNext(Model(), c);
      AddToWord(|burst|);
      SetPc(c, EnqPut(burst));
      assert Model() == next;
    }

    /** `ag_internal_enq()`, the put, of which the stash takes k entries. */
    method PutInStash(c: nat, k: nat)
      requires Ready(c, k) && cores[c].pc.EnqPut?
      modifies this
      ensures Valid() && Model() == Step(old(Model()), c, Go(k))
    {
      StepKeepsInv(Model(), c, Go(k));
      var burst := cores[c].pc.burst;
      if burst != [] && burst[0].qidx in hiQueues {
        hiPrio := hiPrio + burst[..k];
      } else {
        loPrio := loPrio + burst[..k];
      }
      SetPc(c, if k == |burst| then TrylockLoad else EnqUncount(burst[k..]));
    }

    /** `ag_internal_enq()` after a failed put: the tail leaves the count and is dropped. */
    method TakeBackCount(c: nat)
      requires Ready(c, 0) && cores[c].pc.EnqUncount?
      modifies this
      ensures Valid() && Model() == Step(old(Model()), c, Go(0))
    {
      var tail := cores[c].pc.tail;
      ghost var next := EnqUncountNext(Model(), c);
      SubtractCounted(c, |tail|);
      dropped := dropped + Entries(tail);
      SetPc(c, TrylockLoad);
      assert Model() == next;
    }

    /** The load of the compare-and-swap loops of `ag_trylock()` and `atomic_group_release()`. */
    method LoadWord(c: nat)
      requires Ready(c, 0) && (cores[c].pc.TrylockLoad? || cores[c].pc.ReleaseLoad?)
      modifies this
      ensures Valid() && Model() == Step(old(Model()), c, Go(0))
    {
      StepKeepsInv(Model(), c, Go(0));
      var seen := Unpack(lockAndEvcnt);
      SetPc(c, if cores[c].pc.TrylockLoad? then TrylockCas(seen) else ReleaseCas(cores[c].pc.work, seen));
    }

    /** `ag_trylock()`: the lock is taken if the swapped-out word had it free. */
    method TrylockExchange(c: nat)
      requires Ready(c, 0) && cores[c].pc.TrylockCas?
      modifies this
      ensures Valid() && Model() == Step(old(Model()), c, Go(0))
    {
      StepKeepsInv(Model(), c, Go(0));
      var seen := cores[c].pc.seen;
      var success := ExchangeLock(seen, 1);
      SetPc(c, if !success then TrylockLoad else if seen.lock == 0 then DeqHi else Idle);
    }

    /** `ag_internal_deq()`, the hi-prio get, which yields k entries. */
    method GetHiPrio(c: nat, k: nat)
      requires Ready(c, k) && cores[c].pc.DeqHi?
      modifies this
      ensures Valid() && Model() == Step(old(Model()), c, Go(k))
    {
      StepKeepsInv(Model(), c, Go(k));
      var tbl := hiPrio[..k];
      hiPrio, taken := hiPrio[k..], taken + tbl;
      SetPc(c, if k < SCHED_AG_MULTI_MAX_BURST then DeqLo(tbl) else DeqSub(tbl));
    }

    /** `ag_internal_deq()`, the lo-prio get, which yields k entries. */
    method GetLoPrio(c: nat, k: nat)
      requires Ready(c, k) && cores[c].pc.DeqLo?
      modifies this
      ensures Valid() && Model() == Step(old(Model()), c, Go(k))
    {
      StepKeepsInv(Model(), c, Go(k));
      var tbl := cores[c].pc.tbl + loPrio[..k];
      loPrio, taken := loPrio[k..], taken + loPrio[..k];
      SetPc(c, DeqSub(tbl));
    }

    /** `ag_internal_deq()`, the subtraction; with nothing taken the core goes on to `ag_unlock()`. */
    method SubtractTaken(c: nat)
      requires Ready(c, 0) && cores[c].pc.DeqSub?
      modifies this
      ensures Valid() && Model() == Step(old(Model()), c, Go(0))
    {
      var tbl := cores[c].pc.tbl;
      ghost var next := DeqSubNext(Model(), c);
      if |tbl| > 0 {
        SubtractCounted(c, |tbl|);
        SetPc(c, Dispatching(NewWork(queues, group, tbl)));
      } else {
        SetPc(c, UnlockCas);
      }
      assert Model() == next;
    }

    /** Start the next EO receive of the plan, which sets `event_burst_cnt`. */
    method GiveToEo(c: nat) returns (events: seq<Entry>)
      requires Ready(c, 0) && cores[c].pc.Dispatching? && cores[c].pc.work.rest != []
      modifies this
      ensures Valid() && Model() == Step(old(Model()), c, Go(0))
      ensures var w := old(cores[c].pc.work); events == w.rest[..w.plan[0].len] && events != []
    {
      StepKeepsInv(Model(), c, Go(0));
      var work := cores[c].pc.work;
      ReceiveFits(work);
      events := work.rest[..work.plan[0].len];
      log := log + events;
      SetPc(c, Dispatching(Receive(work)));
    }

    /** The last EO receive has returned: enter `ag_unlock()` and reset the released flag. */
    method EndDispatch(c: nat)
      requires Ready(c, 0) && cores[c].pc.Dispatching? && cores[c].pc.work.rest == []
      modifies this
      ensures Valid() && Model() == Step(old(Model()), c, Go(0))
    {
      StepKeepsInv(Model(), c, Go(0));
      if cores[c].released {
        cores := cores[c := cores[c].(pc := UnlockReload, released := false)];
      } else {
        SetPc(c, UnlockCas);
      }
    }

    /** `em_atomic_processing_end()` in an EO receive: no effect unless `event_burst_cnt` is 0. */
    method EndProcessing(c: nat)
      requires Valid() && c < |cores| && cores[c].pc.Dispatching?
      modifies this
      ensures Valid()
      ensures var s, me := old(Model()), old(cores[c]);
              Model() == if me.pc.work.burst == 0 && !me.released then Step(s, c, ProcessingEnd) else s
    {
      if cores[c].pc.work.burst != 0 || cores[c].released {
        return;
      }
      StepKeepsInv(Model(), c, ProcessingEnd);
      SetPc(c, ReleaseLoad(cores[c].pc.work));
    }

    /** The scheduler hands the next events of q to core c. */
    method HandOut(c: nat, q: Queue, burst: seq<Entry>)
      requires Valid() && Enabled(Model(), c, Schedule(q, |burst|)) && burst == Burst(q, |Of(q, arrived)|, |burst|)
      modifies this
      ensures Valid() && Model() == Step(old(Model()), c, Schedule(q, |burst|))
    {
      StepKeepsInv(Model(), c, Schedule(q, |burst|));
      arrived := arrived + burst;
      cores := cores[c := cores[c].(pc := AcquireIfIdle(burst), ctx := Some(q))];
    }

    /** `atomic_group_release()`: free the lock in mid-dispatch. */
    method ReleaseExchange(c: nat)
      requires Ready(c, 0) && cores[c].pc.ReleaseCas?
      modifies this
      ensures Valid() && Model() == Step(old(Model()), c, Go(0))
    {
      StepKeepsInv(Model(), c, Go(0));
      var work := cores[c].pc.work;
      var success := ExchangeLock(cores[c].pc.seen, 0);
      cores := cores[c := cores[c].(pc := if success then Dispatching(work) else ReleaseLoad(work),
                                    released := cores[c].released || success)];
    }

    /** `ag_unlock()` of a core that still has the lock. */
    method UnlockExchange(c: nat) returns (unlocked: bool)
      requires Ready(c, 0) && cores[c].pc.UnlockCas?
      modifies this
      ensures unlocked <==> Unpack(old(lockAndEvcnt)).evcnt == 0
      ensures Valid() && Model() == Step(old(Model()), c, Go(0))
    {
      StepKeepsInv(Model(), c, Go(0));
      assert Holds(cores[c]) && Model().word.lock == 1;
      unlocked := ExchangeLock(Word(1, WRAP_PROTECT, 0), 0);
      SetPc(c, if unlocked then Idle else DeqHi);
    }

    /** `ag_unlock()` of a core that released the lock: look at the word again. */
    method ReloadAfterRelease(c: nat)
      requires Ready(c, 0) && cores[c].pc.UnlockReload?
      modifies this
      ensures Valid() && Model() == Step(old(Model()), c, Go(0))
    {
      StepKeepsInv(Model(), c, Go(0));
      var seen := Unpack(lockAndEvcnt);
      if seen.lock == 1 || (seen.evcnt == 0 && seen.wrap == WRAP_PROTECT) {
        SetPc(c, Idle);
      } else {
        SetPc(c, UnlockRecas(seen));
      }
    }

    /** `ag_unlock()` of a core that released the lock: take it back for the events behind it. */
    method RetakeExchange(c: nat)
      requires Ready(c, 0) && cores[c].pc.UnlockRecas?
      modifies this
      ensures Valid() && Model() == Step(old(Model()), c, Go(0))
    {
      StepKeepsInv(Model(), c, Go(0));
      var success := ExchangeLock(cores[c].pc.seen, 1);
      SetPc(c, if success then DeqHi else UnlockReload);
    }
  }

  ghost predicate Fits(w: Word) {
    w.lock < TWO16 && w.wrap < TWO16 && 0 <= w.evcnt < TWO32
  }

  ghost predicate SeenFits(pc: Pc) {
    match pc
    case TrylockCas(seen) => Fits(seen)
    case ReleaseCas(_, seen) => Fits(seen)
    case UnlockRecas(seen) => Fits(seen)
    case _ => true
  }

  // ----- what the operations on the whole word step to

  lemma AcquireNext(s: State, c: nat) returns (t: State)
    requires Inv(s) && Enabled(s, c, Go(0)) && s.cores[c].pc.AcquireIfIdle?
    ensures t == Step(s, c, Go(0)) == AcquireIfIdleStep(s, c, s.cores[c].pc.burst) && Inv(t)
  {
    t := Step(s, c, Go(0));
    StepKeepsInv(s, c, Go(0));
  }

  lemma EnqCountNext(s: State, c: nat) returns (t: State)
    requires Inv(s) && Enabled(s, c, Go(0)) && s.cores[c].pc.EnqCount?
    ensures t == Step(s, c, Go(0)) == EnqCountStep(s, c, s.cores[c].pc.burst) && Inv(t)
  {
    t := Step(s, c, Go(0));
    StepKeepsInv(s, c, Go(0));
  }

  lemma EnqUncountNext(s: State, c: nat) returns (t: State)
    requires Inv(s) && Enabled(s, c, Go(0)) && s.cores[c].pc.EnqUncount?
    ensures t == Step(s, c, Go(0)) == EnqUncountStep(s, c, s.cores[c].pc.tail) && Inv(t)
  {
    t := Step(s, c, Go(0));
    StepKeepsInv(s, c, Go(0));
  }

  lemma DeqSubNext(s: State, c: nat) returns (t: State)
    requires Inv(s) && Enabled(s, c, Go(0)) && s.cores[c].pc.DeqSub?
    ensures t == Step(s, c, Go(0)) == DeqSubStep(s, c, s.cores[c].pc.tbl) && Inv(t)
  {
    t := Step(s, c, Go(0));
    StepKeepsInv(s, c, Go(0));
  }

  /** What a core has counted is part of the event count. */
  lemma CountedIsInEvcnt(s: State, c: nat)
    requires ExactCount(s) && c < |s.cores|
    ensures Counted(s.cores[c].pc) <= s.word.evcnt
  {
    SumUpdate(s.cores, CountedBy, c, s.cores[c].(pc := Idle));
  }
}
