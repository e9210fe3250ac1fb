/**
 The dispatch protocol of one EM atomic group, as a transition system.

 Any number of cores run `atomic_group_dispatch()` over one dispatch-lock word
 and two FIFO stashes. There is one step per atomic access of the lock word and
 one per stash call; between two steps of a core, every other core may take any
 number of steps. Accesses are sequentially consistent.

 `Step` is a function: what the environment or the user code decides (how many
 entries a stash call moves, which event burst the scheduler hands out, when
 user code drops the atomic context) is in the `Action`. How an event table is cut
 into receive calls, and what `event_burst_cnt` is during each, is the dispatcher's
 plan for it.
 */
module AtomicGroupModel {
  import opened Wrappers
  import P = DispatchPlan

  const WRAP_PROTECT: nat := 0x0FFF
  const SCHED_MULTI_MAX_BURST: nat := 32
  const SCHED_AG_MULTI_MAX_BURST: nat := 32

  type Queue = nat

  /** The n-th event that ever arrived in a queue. */
  datatype Entry = Entry(qidx: Queue, n: nat)

  /** The three fields of the dispatch-lock word. */
  datatype Word = Word(lock: nat, wrap: nat, evcnt: int)

  /**
   An event table that is being dispatched: the events not yet given to an EO, the
   receive calls still to make for them, and `event_burst_cnt`.
   */
  datatype Work = Work(rest: seq<Entry>, plan: seq<P.Step>, burst: int)

  /** Where a core is in `atomic_group_dispatch()`: the atomic access it takes next. */
  datatype Pc =
    | Idle                             // outside, or asking the scheduler for events
    | AcquireIfIdle(burst: seq<Entry>) // ag_acquire_if_idle: CAS
    | EnqCount(burst: seq<Entry>)      // ag_internal_enq: add to the event count
    | EnqPut(burst: seq<Entry>)        // ag_internal_enq: stash put
    | EnqUncount(tail: seq<Entry>)     // ag_internal_enq: subtract and drop what did not fit
    | TrylockLoad                      // ag_trylock: load
    | TrylockCas(seen: Word)           // ag_trylock: CAS
    | DeqHi                            // ag_internal_deq: get from the hi-prio stash
    | DeqLo(tbl: seq<Entry>)           // ag_internal_deq: get from the lo-prio stash
    | DeqSub(tbl: seq<Entry>)          // ag_internal_deq: subtract from the event count
    | Dispatching(work: Work)          // dispatch_events
    | ReleaseLoad(work: Work)          // atomic_group_release in an EO receive: load
    | ReleaseCas(work: Work, seen: Word) // atomic_group_release: CAS
    | UnlockCas                        // ag_unlock, lock not released: CAS
    | UnlockReload                     // ag_unlock after a release: load
    | UnlockRecas(seen: Word)          // ag_unlock after a release: CAS

  /** `ctx`: the queue whose ODP atomic scheduling context the core has not given back. */
  datatype CoreState = CoreState(pc: Pc, released: bool, ctx: Option<Queue>)

  datatype State = State(
    word: Word,
    hi: seq<Entry>,
    lo: seq<Entry>,
    cores: seq<CoreState>,
    hiQueues: set<Queue>, // the group's EM_QUEUE_PRIO_HIGHEST queues, fixed
    queues: P.Queues,     // how the queues' EOs receive, fixed
    group: Entry -> (nat, nat), // the event group and generation that an event's header names
    arrived: seq<Entry>,  // history: what the scheduler handed out
    taken: seq<Entry>,    // history: what was taken for dispatch, past or from a stash
    log: seq<Entry>,      // history: what was given to an EO
    dropped: set<Entry>)  // history: what a failed stash put made the core free

  datatype Action =
    | Schedule(q: Queue, n: nat)  // the scheduler hands out the next n events of q, whose bursts end
    | ReleaseCtx                  // ODP gives up the core's atomic context
    | ProcessingEnd               // user code calls em_atomic_processing_end()
    | Go(k: nat)                  // the core's next atomic access; k: entries moved, if any

  /** The events of one queue. */
  ghost function Of(q: Queue, s: seq<Entry>): seq<Entry> {
    if s == [] then []
    else if s[|s| - 1].qidx == q then Of(q, s[..|s| - 1]) + [s[|s| - 1]]
    else Of(q, s[..|s| - 1])
  }

  /** A burst of queue q whose first event is the `first`-th arrival of q. */
  function Burst(q: Queue, first: nat, n: nat): (b: seq<Entry>)
    ensures |b| == n && forall i :: 0 <= i < n ==> b[i] == Entry(q, first + i)
  {
    seq(n, i requires 0 <= i < n => Entry(q, first + i))
  }

  function Entries(s: seq<Entry>): set<Entry> {
    set e | e in s
  }

  /** What the dispatcher sees of an event table. */
  function Items(group: Entry -> (nat, nat), tbl: seq<Entry>): (t: seq<P.Item>)
    ensures |t| == |tbl|
  {
    seq(|tbl|, i requires 0 <= i < |tbl| => P.Item(tbl[i].n, tbl[i].qidx, group(tbl[i]).0, group(tbl[i]).1))
  }

  /** A table before its first receive call. */
  function NewWork(queues: P.Queues, group: Entry -> (nat, nat), tbl: seq<Entry>): Work {
    Work(tbl, P.Whole(Items(group, tbl), queues, 0, |tbl|, |tbl|), |tbl|)
  }

  predicate CanReceive(w: Work) {
    w.plan != [] && w.plan[0].len <= |w.rest|
  }

  /** The next receive call takes its events off the table and sets `event_burst_cnt`. */
  function Receive(w: Work): Work
    requires CanReceive(w)
  {
    Work(w.rest[w.plan[0].len..], w.plan[1..], w.plan[0].burst)
  }

  predicate HasWork(pc: Pc) {
    pc.Dispatching? || pc.ReleaseLoad? || pc.ReleaseCas?
  }

  /** The event-table entries of a core that are still to be given to an EO. */
  function Table(pc: Pc): seq<Entry> {
    match pc
    case DeqLo(tbl) => tbl
    case DeqSub(tbl) => tbl
    case Dispatching(work) => work.rest
    case ReleaseLoad(work) => work.rest
    case ReleaseCas(work, _) => work.rest
    case _ => []
  }

  /** The scheduled events of a core that are neither in a stash nor in its event table. */
  function Hand(pc: Pc): seq<Entry> {
    match pc
    case AcquireIfIdle(b) => b
    case EnqCount(b) => b
    case EnqPut(b) => b
    case EnqUncount(t) => t
    case _ => []
  }

  /** The entries that are in the lock word's event count on account of this core, but in no stash. */
  function Counted(pc: Pc): nat {
    match pc
    case EnqPut(b) => |b|
    case EnqUncount(t) => |t|
    case DeqLo(tbl) => |tbl|
    case DeqSub(tbl) => |tbl|
    case _ => 0
  }

  /** The core owns the group's dispatch lock. */
  predicate Holds(c: CoreState) {
    match c.pc
    case DeqHi => true
    case DeqLo(_) => true
    case DeqSub(_) => true
    case Dispatching(_) => !c.released
    case ReleaseLoad(_) => true
    case ReleaseCas(_, _) => true
    case UnlockCas => true
    case _ => false
  }

  /** The core will look at the lock word again before it returns, without owning the lock. */
  predicate Committed(c: CoreState) {
    match c.pc
    case EnqPut(_) => true
    case EnqUncount(_) => true
    case TrylockLoad => true
    case TrylockCas(_) => true
    case Dispatching(_) => c.released
    case UnlockReload => true
    case UnlockRecas(_) => true
    case _ => false
  }

  /** `odp_schedule_release_atomic()` was called, or the core is back in the scheduler. */
  predicate MayReleaseCtx(pc: Pc) {
    Hand(pc) == [] && !pc.TrylockLoad? && !pc.TrylockCas?
  }

  ghost predicate Init(s: State) {
    && s.word == Word(0, WRAP_PROTECT, 0)
    && s.hi == s.lo == s.arrived == s.taken == s.log == []
    && s.dropped == {}
    && forall c :: 0 <= c < |s.cores| ==> s.cores[c] == CoreState(Idle, false, None)
  }

  /** Bound on a stash get into a table that already has `used` entries. */
  function GetMax(stash: seq<Entry>, used: nat): int {
    if SCHED_AG_MULTI_MAX_BURST - used <= |stash| then SCHED_AG_MULTI_MAX_BURST - used else |stash|
  }

  ghost predicate Enabled(s: State, c: nat, a: Action) {
    c < |s.cores| &&
    var me := s.cores[c];
    match a
    case Schedule(q, n) =>
      && me.pc.Idle? && 1 <= n <= SCHED_MULTI_MAX_BURST && P.BurstsEnd(s.queues(q))
      && forall d :: 0 <= d < |s.cores| && d != c ==> s.cores[d].ctx != Some(q)
    case ReleaseCtx => MayReleaseCtx(me.pc)
    case ProcessingEnd => me.pc.Dispatching? && me.pc.work.burst == 0 && !me.released
    case Go(k) =>
      match me.pc
      case Idle => false
      case EnqPut(b) => k <= |b|
      case DeqHi => k <= (if s.hiQueues == {} then 0 else GetMax(s.hi, 0))
      case DeqLo(tbl) => k <= GetMax(s.lo, |tbl|)
      case Dispatching(work) => work.rest == [] || CanReceive(work)
      case _ => true
  }

  function With(s: State, c: nat, pc: Pc): State
    requires c < |s.cores|
  {
    s.(cores := s.cores[c := s.cores[c].(pc := pc)])
  }

  /** A compare-and-swap of the whole word. */
  function Cas(word: Word, expected: Word, desired: Word): (bool, Word) {
    if word == expected then (true, desired) else (false, word)
  }

  /** `ag_acquire_if_idle()`: on success the burst is dispatched directly. */
  function AcquireIfIdleStep(s: State, c: nat, b: seq<Entry>): State
    requires c < |s.cores|
  {
    var (ok, w) := Cas(s.word, Word(0, WRAP_PROTECT, 0), Word(1, WRAP_PROTECT, 0));
    if ok then With(s.(word := w, taken := s.taken + b), c, Dispatching(NewWork(s.queues, s.group, b)))
    else With(s, c, EnqCount(b))
  }

  function EnqCountStep(s: State, c: nat, b: seq<Entry>): State
    requires c < |s.cores|
  {
    With(s.(word := s.word.(evcnt := s.word.evcnt + |b|)), c, EnqPut(b))
  }

  /** The stash put takes the first k entries of the burst; they are all of the burst's queue. */
  function EnqPutStep(s: State, c: nat, b: seq<Entry>, k: nat): State
    requires c < |s.cores| && k <= |b|
  {
    var s1 := if b != [] && b[0].qidx in s.hiQueues
              then s.(hi := s.hi + b[..k]) else s.(lo := s.lo + b[..k]);
    With(s1, c, if k == |b| then TrylockLoad else EnqUncount(b[k..]))
  }

  function EnqUncountStep(s: State, c: nat, t: seq<Entry>): State
    requires c < |s.cores|
  {
    With(s.(word := s.word.(evcnt := s.word.evcnt - |t|),
            dropped := s.dropped + Entries(t)), c, TrylockLoad)
  }

  /** `ag_trylock()`: the lock is taken only if the swapped-out word had it free. */
  function TrylockCasStep(s: State, c: nat, seen: Word): State
    requires c < |s.cores|
  {
    var (ok, w) := Cas(s.word, seen, seen.(lock := 1));
    With(s.(word := w), c,
         if !ok then TrylockLoad else if seen.lock == 0 then DeqHi else Idle)
  }

  function DeqHiStep(s: State, c: nat, k: nat): State
    requires c < |s.cores| && k <= |s.hi|
  {
    With(s.(hi := s.hi[k..], taken := s.taken + s.hi[..k]), c,
         if k < SCHED_AG_MULTI_MAX_BURST then DeqLo(s.hi[..k]) else DeqSub(s.hi[..k]))
  }

  function DeqLoStep(s: State, c: nat, tbl: seq<Entry>, k: nat): State
    requires c < |s.cores| && k <= |s.lo|
  {
    With(s.(lo := s.lo[k..], taken := s.taken + s.lo[..k]), c, DeqSub(tbl + s.lo[..k]))
  }

  /** With nothing dequeued there is no subtraction and nothing to dispatch. */
  function DeqSubStep(s: State, c: nat, tbl: seq<Entry>): State
    requires c < |s.cores|
  {
    if tbl == [] then With(s, c, UnlockCas)
    else With(s.(word := s.word.(evcnt := s.word.evcnt - |tbl|)), c,
              Dispatching(NewWork(s.queues, s.group, tbl)))
  }

  /** Start the next EO receive, or enter `ag_unlock()` after the last one. */
  function DispatchingStep(s: State, c: nat, w: Work): State
    requires c < |s.cores| && (w.rest == [] || CanReceive(w))
  {
    if w.rest != [] then With(s.(log := s.log + w.rest[..w.plan[0].len]), c, Dispatching(Receive(w)))
    else if s.cores[c].released then
      s.(cores := s.cores[c := s.cores[c].(pc := UnlockReload, released := false)])
    else With(s, c, UnlockCas)
  }

  /** `atomic_group_release()`; then the receive goes on. */
  function ReleaseCasStep(s: State, c: nat, w: Work, seen: Word): State
    requires c < |s.cores|
  {
    var (ok, word) := Cas(s.word, seen, seen.(lock := 0));
    if ok then
      s.(word := word, cores := s.cores[c := s.cores[c].(pc := Dispatching(w), released := true)])
    else With(s, c, ReleaseLoad(w))
  }

  function UnlockCasStep(s: State, c: nat): State
    requires c < |s.cores|
  {
    var (ok, w) := Cas(s.word, Word(1, WRAP_PROTECT, 0), Word(0, WRAP_PROTECT, 0));
    With(s.(word := w), c, if ok then Idle else DeqHi)
  }

  function UnlockReloadStep(s: State, c: nat): State
    requires c < |s.cores|
  {
    With(s, c,
         if s.word.lock == 1 then Idle
         else if s.word.evcnt == 0 && s.word.wrap == WRAP_PROTECT then Idle
         else UnlockRecas(s.word))
  }

  function UnlockRecasStep(s: State, c: nat, seen: Word): State
    requires c < |s.cores|
  {
    var (ok, w) := Cas(s.word, seen, seen.(lock := 1));
    With(s.(word := w), c, if ok then DeqHi else UnlockReload)
  }

  /** One atomic step of core c. */
  ghost function Step(s: State, c: nat, a: Action): State
    requires Enabled(s, c, a)
  {
    match a
    case Schedule(q, n) =>
      var b := Burst(q, |Of(q, s.arrived)|, n);
      s.(arrived := s.arrived + b,
         cores := s.cores[c := s.cores[c].(pc := AcquireIfIdle(b), ctx := Some(q))])
    case ReleaseCtx => s.(cores := s.cores[c := s.cores[c].(ctx := None)])
    case ProcessingEnd => With(s, c, ReleaseLoad(s.cores[c].pc.work))
    case Go(k) =>
      match s.cores[c].pc
      case AcquireIfIdle(b) => AcquireIfIdleStep(s, c, b)
      case EnqCount(b) => EnqCountStep(s, c, b)
      case EnqPut(b) => EnqPutStep(s, c, b, k)
      case EnqUncount(t) => EnqUncountStep(s, c, t)
      case TrylockLoad => With(s, c, TrylockCas(s.word))
      case TrylockCas(seen) => TrylockCasStep(s, c, seen)
      case DeqHi => DeqHiStep(s, c, k)
      case DeqLo(tbl) => DeqLoStep(s, c, tbl, k)
      case DeqSub(tbl) => DeqSubStep(s, c, tbl)
      case Dispatching(work) => DispatchingStep(s, c, work)
      case ReleaseLoad(work) => With(s, c, ReleaseCas(work, s.word))
      case ReleaseCas(work, seen) => ReleaseCasStep(s, c, work, seen)
      case UnlockCas => UnlockCasStep(s, c)
      case UnlockReload => UnlockReloadStep(s, c)
      case UnlockRecas(seen) => UnlockRecasStep(s, c, seen)
  }

  /** A run: any schedule of any actions of any cores. */
  ghost predicate IsRun(run: seq<State>, who: seq<nat>, acts: seq<Action>) {
    && |run| == |who| + 1 == |acts| + 1
    && Init(run[0])
    && forall i :: 0 <= i < |who| ==> Enabled(run[i], who[i], acts[i]) && run[i + 1] == Step(run[i], who[i], acts[i])
  }
}
