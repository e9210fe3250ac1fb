/**
 How a burst of events is cut into calls of EO receive functions, and what the
 core-local `event_burst_cnt` is during each call.
 */
module DispatchPlan {
  import opened ReceiveLimit

  type Event = nat

  const EVENT_UNDEF: Event := 0
  const EVENT_GROUP_UNDEF: nat := 0

  /** An event of the burst: its queue, and the event group that its header names. */
  datatype Item = Item(event: Event, qidx: nat, egrp: nat, egrpGen: nat)

  datatype Context = Context(eoCtx: int, queue: int, queueCtx: int)

  datatype QueueElem = QueueElem(multiRcv: bool, maxEvents: nat, context: Context)

  /** A queue of a multi-receive EO that was created with `param` as its limit. */
  function MultircvQueue(param: nat, context: Context): QueueElem {
    QueueElem(true, QueueMaxEvents(param), context)
  }

  /** The loops over a burst from this queue end. */
  predicate BurstsEnd(q: QueueElem) {
    q.multiRcv ==> q.maxEvents >= 1
  }

  /**
   The batch loop of `dispatch_eo_multircv_burst()` over a run [idx, idx + egrpCnt) ends
   exactly then, and that is decided when the EO is created.
   */
  lemma BurstsEndIff(param: nat, context: Context, idx: nat, egrpCnt: nat)
    requires egrpCnt >= 1
    ensures var q := MultircvQueue(param, context);
            && (BurstsEnd(q) <==> Leaves(idx, idx + egrpCnt, Min(egrpCnt, q.maxEvents)))
            && (BurstsEnd(q) <==> param == 0 || param % 65536 != 0)
  {
    MultircvEndsIff(param, idx, egrpCnt);
  }

  /** How many events one call takes at most; a lone event needs no limit. */
  function MaxBatch(q: QueueElem): (m: nat)
    ensures m >= 1 && (q.multiRcv && q.maxEvents >= 1 ==> m == q.maxEvents) && (!q.multiRcv ==> m == 1)
  {
    if q.multiRcv && q.maxEvents >= 1 then q.maxEvents else 1
  }

  /** The event at k is the only one of its queue at its place in the table. */
  predicate Lone(t: seq<Item>, k: nat)
    requires k < |t|
  {
    (k == 0 || t[k - 1].qidx != t[k].qidx) && (k + 1 == |t| || t[k + 1].qidx != t[k].qidx)
  }

  /** Whatever is dispatched as a burst comes from a queue whose loops end. */
  predicate DispatchEnds(t: seq<Item>, qs: Queues) {
    forall k :: 0 <= k < |t| && !Lone(t, k) ==> BurstsEnd(qs(t[k].qidx))
  }

  lemma BatchEnds(t: seq<Item>, qs: Queues, i: nat, n: nat)
    requires DispatchEnds(t, qs) && 1 <= n && i + n <= |t| && forall k :: i <= k < i + n ==> t[k].qidx == t[i].qidx
    ensures n > 1 ==> BurstsEnd(qs(t[i].qidx))
  {
    assert n > 1 ==> !Lone(t, i);
  }

  // ----- runs

  /** The header test of `count_same_evgroup()`. */
  predicate SameGroup(a: Item, b: Item) {
    a.egrp == b.egrp && (a.egrp == EVENT_GROUP_UNDEF || a.egrpGen == b.egrpGen)
  }

  /** May share one receive call: from the same queue, in the same event group. */
  predicate Together(a: Item, b: Item) {
    a.qidx == b.qidx && SameGroup(a, b)
  }

  function ScanRun(t: seq<Item>, i: nat, k: nat, stop: nat): (r: nat)
    requires i < k <= stop <= |t|
    requires forall m :: i < m < k ==> Together(t[i], t[m])
    ensures k <= r <= stop
    ensures forall m :: i < m < r ==> Together(t[i], t[m])
    ensures r < stop ==> !Together(t[i], t[r])
    decreases stop - k
  {
    if k < stop && Together(t[i], t[k]) then ScanRun(t, i, k + 1, stop) else k
  }

  /** Where the run that starts at i ends. */
  function RunEnd(t: seq<Item>, i: nat, stop: nat): (r: nat)
    requires i < stop <= |t|
    ensures i < r <= stop
    ensures forall m :: i < m < r ==> Together(t[i], t[m])
    ensures r < stop ==> !Together(t[i], t[r])
  {
    ScanRun(t, i, i + 1, stop)
  }

  lemma RunEndIs(t: seq<Item>, i: nat, stop: nat, r: nat)
    requires i < r <= stop <= |t|
    requires forall m :: i < m < r ==> Together(t[i], t[m])
    requires r < stop ==> !Together(t[i], t[r])
    ensures RunEnd(t, i, stop) == r
  {
    var e := RunEnd(t, i, stop);
  }

  // ----- the plan

  /** One receive call: events [at, at + len), with `event_burst_cnt` == burst during it. */
  datatype Step = Step(at: nat, len: nat, burst: int)

  predicate InRange(p: seq<Step>, stop: nat) {
    forall i :: 0 <= i < |p| ==> p[i].len >= 1 && p[i].at + p[i].len <= stop
  }

  type Queues = nat -> QueueElem

  /**
   The receive calls for events [j, stop). Those in [j, end) are the rest of a run
   that is being cut into batches of num events; burst is `event_burst_cnt` so far.
   */
  function Plan(t: seq<Item>, qs: Queues, j: nat, end: nat, num: nat, stop: nat, burst: int): (p: seq<Step>)
    requires j <= end <= stop <= |t| && num >= 1
    ensures InRange(p, stop)
    decreases stop - j, end == j
  {
    if end - j >= num then
      [Step(j, num, burst - num)] + Plan(t, qs, j + num, end, num, stop, burst - num)
    else if j < end then
      [Step(j, end - j, 0)] + Plan(t, qs, end, end, num, stop, 0)
    else if end < stop then
      var e := RunEnd(t, end, stop);
      Plan(t, qs, end, e, BatchSize(t, qs, end, e), stop, burst)
    else []
  }

  function BatchSize(t: seq<Item>, qs: Queues, start: nat, end: nat): (num: nat)
    requires start < end <= |t|
    ensures num >= 1
  {
    Min(end - start, MaxBatch(qs(t[start].qidx)))
  }

  /** The plan for a whole range, from the start of a run. */
  function Whole(t: seq<Item>, qs: Queues, lo: nat, hi: nat, burst: int): (p: seq<Step>)
    requires lo <= hi <= |t|
    ensures InRange(p, hi)
  {
    Plan(t, qs, lo, lo, 1, hi, burst)
  }

  /** `event_burst_cnt` after the calls. */
  function BurstAfter(p: seq<Step>, burst: int): int {
    if p == [] then burst else p[|p| - 1].burst
  }

  /** A first step before both parts of a plan. */
  lemma PrependStep(s: Step, front: seq<Step>, back: seq<Step>, burst: int)
    ensures [s] + (front + back) == ([s] + front) + back
    ensures BurstAfter([s] + front, burst) == BurstAfter(front, s.burst)
  {
  }

  /** Between runs the batch size does not matter. */
  lemma BetweenRuns(t: seq<Item>, qs: Queues, end: nat, num: nat, stop: nat, burst: int)
    requires end <= stop <= |t| && num >= 1
    ensures Plan(t, qs, end, end, num, stop, burst) == Whole(t, qs, end, stop, burst)
  {
  }

  lemma FirstOfPlan(t: seq<Item>, qs: Queues, j: nat, end: nat, num: nat, stop: nat, burst: int, s: Step)
    requires j < end <= stop <= |t| && num >= 1
    requires s == if end - j >= num then Step(j, num, burst - num) else Step(j, end - j, 0)
    ensures Plan(t, qs, j, end, num, stop, burst) == [s] + Plan(t, qs, j + s.len, end, num, stop, s.burst)
    ensures RunSteps(j, end, num, burst) == [s] + RunSteps(j + s.len, end, num, s.burst)
  {
  }

  /** The batches of one run, or of what is left of it. */
  function RunSteps(j: nat, end: nat, num: nat, burst: int): (p: seq<Step>)
    requires j <= end && num >= 1
    ensures InRange(p, end)
    decreases end - j
  {
    if end - j >= num then [Step(j, num, burst - num)] + RunSteps(j + num, end, num, burst - num)
    else if j < end then [Step(j, end - j, 0)]
    else []
  }

  /** The steps made so far, and `event_burst_cnt`. */
  datatype Progress = Progress(steps: seq<Step>, burst: int)

  function After(now: Progress, p: seq<Step>): Progress {
    Progress(now.steps + p, BurstAfter(p, now.burst))
  }

  function AfterRun(now: Progress, j: nat, end: nat, num: nat): Progress
    requires j <= end && num >= 1
  {
    After(now, RunSteps(j, end, num, now.burst))
  }

  function AfterWhole(now: Progress, t: seq<Item>, qs: Queues, lo: nat, hi: nat): Progress
    requires lo <= hi <= |t|
  {
    After(now, Whole(t, qs, lo, hi, now.burst))
  }

  lemma AfterBoth(now: Progress, p: seq<Step>, q: seq<Step>)
    ensures After(now, p + q) == After(After(now, p), q)
  {
    assert now.steps + (p + q) == (now.steps + p) + q;
  }

  /** s is the next batch of the run. */
  lemma NextBatch(now: Progress, j: nat, end: nat, num: nat, s: Step)
    requires j < end && num >= 1
    requires s == if end - j >= num then Step(j, num, now.burst - num) else Step(j, end - j, 0)
    ensures AfterRun(now, j, end, num) == AfterRun(Progress(now.steps + [s], s.burst), j + s.len, end, num)
  {
    AfterBoth(now, [s], RunSteps(j + s.len, end, num, s.burst));
  }

  lemma {:induction false} PlanByRun(t: seq<Item>, qs: Queues, j: nat, end: nat, num: nat, stop: nat, burst: int)
    requires j <= end <= stop <= |t| && num >= 1
    ensures var run := RunSteps(j, end, num, burst);
            Plan(t, qs, j, end, num, stop, burst) == run + Whole(t, qs, end, stop, BurstAfter(run, burst))
    decreases end - j
  {
    if j == end {
      BetweenRuns(t, qs, end, num, stop, burst);
      assert [] + Whole(t, qs, end, stop, burst) == Whole(t, qs, end, stop, burst);
    } else {
      var s := if end - j >= num then Step(j, num, burst - num) else Step(j, end - j, 0);
      var run := RunSteps(j + s.len, end, num, s.burst);
      FirstOfPlan(t, qs, j, end, num, stop, burst, s);
      PlanByRun(t, qs, j + s.len, end, num, stop, s.burst);
      PrependStep(s, run, Whole(t, qs, end, stop, BurstAfter(run, s.burst)), burst);
    }
  }

  /** A plan takes its first run, then goes on as a plan for the rest. */
  lemma NextRun(now: Progress, t: seq<Item>, qs: Queues, lo: nat, hi: nat)
    requires lo < hi <= |t|
    ensures var e := RunEnd(t, lo, hi);
            AfterWhole(now, t, qs, lo, hi) == AfterWhole(AfterRun(now, lo, e, BatchSize(t, qs, lo, e)), t, qs, e, hi)
  {
    var e := RunEnd(t, lo, hi);
    var num := BatchSize(t, qs, lo, e);
    var run := RunSteps(lo, e, num, now.burst);
    PlanByRun(t, qs, lo, e, num, hi, now.burst);
    AfterBoth(now, run, Whole(t, qs, e, hi, BurstAfter(run, now.burst)));
  }

  // ----- what a plan delivers

  /** The steps are not empty and follow one another from lo to hi. */
  predicate Tiles(p: seq<Step>, lo: nat, hi: nat) {
    if p == [] then lo == hi
    else p[0].at == lo && p[0].len >= 1 && Tiles(p[1..], lo + p[0].len, hi)
  }

  lemma {:induction false} TilesOrder(p: seq<Step>, lo: nat, hi: nat)
    requires Tiles(p, lo, hi)
    ensures lo <= hi && (lo == hi <==> p == [])
  {
    if p != [] {
      TilesOrder(p[1..], lo + p[0].len, hi);
    }
  }

  lemma {:induction false} PlanTiles(t: seq<Item>, qs: Queues, j: nat, end: nat, num: nat, stop: nat, burst: int)
    requires j <= end <= stop <= |t| && num >= 1
    ensures Tiles(Plan(t, qs, j, end, num, stop, burst), j, stop)
    decreases stop - j, end == j
  {
    if end - j >= num {
      PlanTiles(t, qs, j + num, end, num, stop, burst - num);
    } else if j < end {
      PlanTiles(t, qs, end, end, num, stop, 0);
    } else if end < stop {
      var e := RunEnd(t, end, stop);
      PlanTiles(t, qs, end, e, BatchSize(t, qs, end, e), stop, burst);
    }
  }

  ghost function Delivered<T>(s: seq<T>, p: seq<Step>): seq<T>
    requires InRange(p, |s|)
  {
    if p == [] then [] else s[p[0].at..p[0].at + p[0].len] + Delivered(s, p[1..])
  }

  lemma {:induction false} TilesDeliver<T>(s: seq<T>, p: seq<Step>, lo: nat, hi: nat)
    requires Tiles(p, lo, hi) && hi <= |s|
    ensures lo <= hi
    ensures InRange(p, hi) && Delivered(s, p) == s[lo..hi]
  {
    if p == [] {
    } else {
      TilesDeliver(s, p[1..], lo + p[0].len, hi);
      assert p == [p[0]] + p[1..];
    }
  }

  /** Events from `a` on start a run: none before them, or the one before may not join them. */
  predicate Boundary(t: seq<Item>, a: nat, lo: nat, hi: nat)
    requires lo <= a <= hi <= |t|
  {
    a == lo || a == hi || !Together(t[a - 1], t[a])
  }

  /**
   A batch may be given to one receive call: it is no longer than its queue's
   limit, one queue and one event group, and as long as these allow.
   */
  predicate FitsOneCall(t: seq<Item>, qs: Queues, s: Step, lo: nat, hi: nat)
    requires hi <= |t|
  {
    && lo <= s.at && 1 <= s.len && s.at + s.len <= hi
    && s.len <= MaxBatch(qs(t[s.at].qidx))
    && (forall k :: s.at < k < s.at + s.len ==> Together(t[s.at], t[k]))
    && (s.len < MaxBatch(qs(t[s.at].qidx)) ==> Boundary(t, s.at + s.len, lo, hi))
  }

  lemma {:induction false} PlanFits(t: seq<Item>, qs: Queues, j: nat, end: nat, num: nat, lo: nat, stop: nat, burst: int)
    requires lo <= j <= end <= stop <= |t| && num >= 1
    requires forall k :: j < k < end ==> Together(t[j], t[k])
    requires j < end ==> Boundary(t, end, lo, stop)
    requires j < end ==> num == MaxBatch(qs(t[j].qidx)) || (num < MaxBatch(qs(t[j].qidx)) && num == end - j)
    ensures forall s :: s in Plan(t, qs, j, end, num, stop, burst) ==> FitsOneCall(t, qs, s, lo, stop)
    decreases stop - j, end == j
  {
    if end - j >= num {
      PlanFits(t, qs, j + num, end, num, lo, stop, burst - num);
    } else if j < end {
      PlanFits(t, qs, end, end, num, lo, stop, 0);
    } else if end < stop {
      var e := RunEnd(t, end, stop);
      PlanFits(t, qs, end, e, BatchSize(t, qs, end, e), lo, stop, burst);
    }
  }

  /** Cutting at a place where no call can run across changes nothing. */
  lemma {:induction false} PlanSplit(t: seq<Item>, qs: Queues, j: nat, end: nat, num: nat, m: nat, stop: nat, burst: int)
    requires j <= end <= m <= stop <= |t| && num >= 1
    requires end < m < stop ==> !Together(t[m - 1], t[m])
    ensures var front := Plan(t, qs, j, end, num, m, burst);
            Plan(t, qs, j, end, num, stop, burst) == front + Whole(t, qs, m, stop, BurstAfter(front, burst))
    decreases m - j, end == j
  {
    if end - j >= num {
      var front := Plan(t, qs, j + num, end, num, m, burst - num);
      PlanSplit(t, qs, j + num, end, num, m, stop, burst - num);
      PrependStep(Step(j, num, burst - num), front, Whole(t, qs, m, stop, BurstAfter(front, burst - num)), burst);
    } else if j < end {
      var front := Plan(t, qs, end, end, num, m, 0);
      PlanSplit(t, qs, end, end, num, m, stop, 0);
      PrependStep(Step(j, end - j, 0), front, Whole(t, qs, m, stop, BurstAfter(front, 0)), burst);
    } else if end < m {
      var e := RunEnd(t, end, m);
      RunEndIs(t, end, stop, e);
      PlanSplit(t, qs, end, e, BatchSize(t, qs, end, e), m, stop, burst);
    }
  }

  /** A queue that receives one event at a time: its next event is the next call. */
  lemma NextSingle(now: Progress, t: seq<Item>, qs: Queues, i: nat, hi: nat)
    requires i < hi <= |t| && !qs(t[i].qidx).multiRcv
    ensures AfterWhole(now, t, qs, i, hi)
            == AfterWhole(Progress(now.steps + [Step(i, 1, now.burst - 1)], now.burst - 1), t, qs, i + 1, hi)
  {
    var e := RunEnd(t, i, hi);
    var s := Step(i, 1, now.burst - 1);
    FirstOfPlan(t, qs, i, e, 1, hi, now.burst, s);
    if i + 1 < e {
      RunEndIs(t, i + 1, hi, e);
    }
    assert Whole(t, qs, i, hi, now.burst) == [s] + Whole(t, qs, i + 1, hi, s.burst);
    AfterBoth(now, [s], Whole(t, qs, i + 1, hi, s.burst));
  }

  /** A lone event is one call. */
  lemma LoneEvent(now: Progress, t: seq<Item>, qs: Queues, i: nat)
    requires i < |t|
    ensures AfterWhole(now, t, qs, i, i + 1) == Progress(now.steps + [Step(i, 1, now.burst - 1)], now.burst - 1)
  {
    FirstOfPlan(t, qs, i, i + 1, 1, i + 1, now.burst, Step(i, 1, now.burst - 1));
  }

  /** The events up to m come from other queues than those from m on. */
  lemma NextQueue(now: Progress, t: seq<Item>, qs: Queues, lo: nat, m: nat, hi: nat)
    requires lo < m <= hi <= |t| && (m < hi ==> t[m - 1].qidx != t[m].qidx)
    ensures AfterWhole(now, t, qs, lo, hi) == AfterWhole(AfterWhole(now, t, qs, lo, m), t, qs, m, hi)
  {
    PlanSplit(t, qs, lo, lo, 1, m, hi, now.burst);
    var front := Whole(t, qs, lo, m, now.burst);
    AfterBoth(now, front, Whole(t, qs, m, hi, BurstAfter(front, now.burst)));
  }

  // ----- event group accounting

  /** What the calls that start in [a, b) take off the count of their event group. */
  function TakenOff(p: seq<Step>, a: nat, b: nat): nat {
    if p == [] then 0 else (if a <= p[0].at < b then p[0].len else 0) + TakenOff(p[1..], a, b)
  }

  function Max(a: nat, b: nat): nat {
    if a <= b then b else a
  }

  lemma {:induction false} TakenOffIs(t: seq<Item>, qs: Queues, p: seq<Step>, a: nat, b: nat, from: nat, lo: nat, hi: nat)
    requires lo <= from <= hi && lo <= a <= b <= hi <= |t| && Tiles(p, from, hi)
    requires forall s :: s in p ==> FitsOneCall(t, qs, s, lo, hi)
    requires Boundary(t, a, lo, hi) && Boundary(t, b, lo, hi)
    ensures TakenOff(p, a, b) == Max(b, from) - Max(a, from)
  {
    if p == [] {
    } else {
      assert p[0] in p;
      TakenOffIs(t, qs, p[1..], a, b, from + p[0].len, lo, hi);
    }
  }

  // ----- main results, for a whole burst

  /** The calls, one after the other, deliver the burst in order. */
  lemma BurstDelivered(t: seq<Item>, qs: Queues)
    ensures var p := Whole(t, qs, 0, |t|, |t|);
            Tiles(p, 0, |t|) && Delivered(t, p) == t
  {
    PlanTiles(t, qs, 0, 0, 1, |t|, |t|);
    TilesDeliver(t, Whole(t, qs, 0, |t|, |t|), 0, |t|);
  }

  /** Each call is for one queue and one event group, within the limit, and as large as that allows. */
  lemma BurstFits(t: seq<Item>, qs: Queues, s: Step)
    requires s in Whole(t, qs, 0, |t|, |t|)
    ensures FitsOneCall(t, qs, s, 0, |t|)
  {
    PlanFits(t, qs, 0, 0, 1, 0, |t|, |t|);
  }

  /**
   A call with fewer events than its queue's limit stops before the end of the table only
   where the next event is of another queue, or event group, or generation of that group.
   */
  lemma BatchIsLargest(t: seq<Item>, qs: Queues, s: Step)
    requires s in Whole(t, qs, 0, |t|, |t|)
    ensures 1 <= s.len && s.at + s.len <= |t|
    ensures var q := qs(t[s.at].qidx); q.multiRcv && q.maxEvents >= 1 ==> s.len <= q.maxEvents
    ensures !qs(t[s.at].qidx).multiRcv ==> s.len == 1
    ensures forall k :: s.at < k < s.at + s.len ==> t[k].qidx == t[s.at].qidx && t[k].egrp == t[s.at].egrp
    ensures var q, next := qs(t[s.at].qidx), s.at + s.len;
      q.multiRcv && s.len < q.maxEvents && next < |t| ==>
        var a, b := t[next - 1], t[next];
        a.qidx != b.qidx || a.egrp != b.egrp || (a.egrp != EVENT_GROUP_UNDEF && a.egrpGen != b.egrpGen)
  {
    BurstFits(t, qs, s);
  }

  /** A run of n events of one group takes exactly n off the group's count. */
  lemma GroupsTakenOffExactly(t: seq<Item>, qs: Queues, a: nat, b: nat)
    requires a <= b <= |t| && Boundary(t, a, 0, |t|) && Boundary(t, b, 0, |t|)
    ensures TakenOff(Whole(t, qs, 0, |t|, |t|), a, b) == b - a
  {
    PlanTiles(t, qs, 0, 0, 1, |t|, |t|);
    PlanFits(t, qs, 0, 0, 1, 0, |t|, |t|);
    TakenOffIs(t, qs, Whole(t, qs, 0, |t|, |t|), a, b, 0, 0, |t|);
  }

  // ----- event_burst_cnt

  /** During each receive, `event_burst_cnt` is the number of events still undispatched. */
  predicate CountsExactly(p: seq<Step>, hi: nat) {
    forall s :: s in p ==> s.burst == hi - (s.at + s.len)
  }

  /** `event_burst_cnt` is 0 during the last receive, and during no other. */
  predicate ZeroOnlyAtLast(p: seq<Step>, hi: nat) {
    forall s :: s in p ==> (s.burst == 0 <==> s.at + s.len == hi)
  }

  /** n events make full batches of size `size`. */
  predicate Splits(n: nat, size: nat)
    requires size >= 1
  {
    if n < size then n == 0 else Splits(n - size, size)
  }

  lemma MultipleAtLeast(k: nat, size: nat)
    ensures k == 0 || k * size >= size
  {
    if k >= 1 {
      assert k * size == (k - 1) * size + size;
    }
  }

  lemma {:induction false} SplitsIsDivides(n: nat, size: nat)
    requires size >= 1
    ensures Splits(n, size) <==> exists k: nat :: k * size == n
  {
    if n < size {
      assert n == 0 ==> 0 * size == n;
      forall k: nat | k * size == n ensures n == 0 {
        MultipleAtLeast(k, size);
      }
    } else {
      SplitsIsDivides(n - size, size);
      if Splits(n, size) {
        var k: nat :| k * size == n - size;
        assert (k + 1) * size == n;
      }
      forall k: nat | k * size == n ensures Splits(n, size) {
        assert (k - 1) * size == n - size;
      }
    }
  }

  lemma RunSplits(n: nat, max: nat)
    requires n >= 1 && max >= 1
    ensures Splits(n, Min(n, max)) <==> n <= max || Splits(n, max)
  {
    if n <= max {
      assert Splits(n - n, n);
    }
  }

  /** `event_burst_cnt` is 0 only when nothing is left; user code may drop the atomic context just then. */
  predicate NoEarlyZero(p: seq<Step>, hi: nat) {
    forall s :: s in p ==> (s.burst == 0 ==> s.at + s.len == hi)
  }

  /** If i starts a run then the run is one batch, or splits evenly, or ends the burst. */
  predicate CutsEvenly(t: seq<Item>, qs: Queues, i: nat, lo: nat, hi: nat)
    requires lo <= i < hi <= |t|
  {
    Boundary(t, i, lo, hi) ==>
      var max, e := MaxBatch(qs(t[i].qidx)), RunEnd(t, i, hi);
      e - i <= max || Splits(e - i, max) || e == hi
  }

  predicate AllCutEvenly(t: seq<Item>, qs: Queues, lo: nat, hi: nat)
    requires lo <= hi <= |t|
  {
    forall i :: lo <= i < hi ==> CutsEvenly(t, qs, i, lo, hi)
  }

  /** Only the first position of a run matters. */
  lemma AllCutEvenlyByRun(t: seq<Item>, qs: Queues, lo: nat, hi: nat)
    requires lo < hi <= |t|
    ensures var e := RunEnd(t, lo, hi);
            AllCutEvenly(t, qs, lo, hi) <==> CutsEvenly(t, qs, lo, lo, hi) && AllCutEvenly(t, qs, e, hi)
  {
    var e := RunEnd(t, lo, hi);
    forall i | lo < i < e ensures !Boundary(t, i, lo, hi) {
      assert Together(t[lo], t[i]);
      assert i - 1 == lo || Together(t[lo], t[i - 1]);
    }
    if AllCutEvenly(t, qs, lo, hi) {
      forall i | e <= i < hi ensures CutsEvenly(t, qs, i, e, hi) {
        assert CutsEvenly(t, qs, i, lo, hi);
      }
    }
    if CutsEvenly(t, qs, lo, lo, hi) && AllCutEvenly(t, qs, e, hi) {
      forall i | lo <= i < hi ensures CutsEvenly(t, qs, i, lo, hi) {
        if i >= e {
          assert CutsEvenly(t, qs, i, e, hi);
        }
      }
    }
  }

  lemma FirstRunCutsEvenly(t: seq<Item>, qs: Queues, lo: nat, hi: nat)
    requires lo < hi <= |t|
    ensures var e := RunEnd(t, lo, hi);
            AllCutEvenly(t, qs, lo, hi)
            == ((Splits(e - lo, BatchSize(t, qs, lo, e)) || e == hi) && AllCutEvenly(t, qs, e, hi))
  {
    AllCutEvenlyByRun(t, qs, lo, hi);
    RunSplits(RunEnd(t, lo, hi) - lo, MaxBatch(qs(t[lo].qidx)));
  }

  /** The counts of p are right, in all three senses, just when ok. */
  predicate RightIff(p: seq<Step>, hi: nat, ok: bool) {
    (CountsExactly(p, hi) <==> ok) && (ZeroOnlyAtLast(p, hi) <==> ok) && (NoEarlyZero(p, hi) <==> ok)
  }

  lemma ExactFirst(s: Step, p: seq<Step>, hi: nat, ok: bool)
    requires s.burst == hi - (s.at + s.len) && RightIff(p, hi, ok)
    ensures RightIff([s] + p, hi, ok)
  {
    var q := [s] + p;
    assert forall x :: x in q <==> x == s || x in p;
  }

  lemma EarlyZeroFirst(s: Step, p: seq<Step>, hi: nat)
    requires s.burst == 0 && s.at + s.len < hi
    ensures RightIff([s] + p, hi, false)
  {
    assert ([s] + p)[0] in [s] + p;
  }

  /** What the counts of a plan come to when the run at hand ends at `end`. */
  predicate CountsComeOut(t: seq<Item>, qs: Queues, j: nat, end: nat, num: nat, hi: nat)
    requires j <= end <= hi <= |t| && num >= 1
  {
    RightIff(Plan(t, qs, j, end, num, hi, hi - j), hi,
             (Splits(end - j, num) || end == hi) && AllCutEvenly(t, qs, end, hi))
  }

  lemma FullBatchCounts(t: seq<Item>, qs: Queues, j: nat, end: nat, num: nat, hi: nat)
    requires j + num <= end <= hi <= |t| && num >= 1 && CountsComeOut(t, qs, j + num, end, num, hi)
    ensures CountsComeOut(t, qs, j, end, num, hi)
  {
    ExactFirst(Step(j, num, hi - j - num), Plan(t, qs, j + num, end, num, hi, hi - (j + num)), hi,
               (Splits(end - (j + num), num) || end == hi) && AllCutEvenly(t, qs, end, hi));
  }

  lemma PartialBatchCounts(t: seq<Item>, qs: Queues, j: nat, end: nat, num: nat, hi: nat)
    requires j < end < j + num && end <= hi <= |t|
    ensures CountsComeOut(t, qs, j, end, num, hi)
  {
    var rest := Plan(t, qs, end, end, num, hi, 0);
    if end == hi {
      ExactFirst(Step(j, end - j, 0), rest, hi, true);
    } else {
      EarlyZeroFirst(Step(j, end - j, 0), rest, hi);
    }
  }

  lemma NewRunCounts(t: seq<Item>, qs: Queues, j: nat, num: nat, hi: nat)
    requires j < hi <= |t| && num >= 1
    requires var e := RunEnd(t, j, hi);
             CountsComeOut(t, qs, j, e, BatchSize(t, qs, j, e), hi)
    ensures CountsComeOut(t, qs, j, j, num, hi)
  {
    FirstRunCutsEvenly(t, qs, j, hi);
  }

  lemma {:induction false} PlanCounts(t: seq<Item>, qs: Queues, j: nat, end: nat, num: nat, hi: nat)
    requires j <= end <= hi <= |t| && num >= 1
    ensures CountsComeOut(t, qs, j, end, num, hi)
    decreases hi - j, end == j
  {
    if end - j >= num {
      PlanCounts(t, qs, j + num, end, num, hi);
      FullBatchCounts(t, qs, j, end, num, hi);
    } else if j < end {
      PartialBatchCounts(t, qs, j, end, num, hi);
    } else if end < hi {
      var e := RunEnd(t, end, hi);
      PlanCounts(t, qs, end, e, BatchSize(t, qs, end, e), hi);
      NewRunCounts(t, qs, j, num, hi);
    }
  }

  /**
   `event_burst_cnt` counts exactly, and is zero only at the end, just when no run
   before the last leaves a partial batch after full ones.
   */
  lemma BurstCountIff(t: seq<Item>, qs: Queues)
    ensures var p := Whole(t, qs, 0, |t|, |t|);
            && (CountsExactly(p, |t|) <==> AllCutEvenly(t, qs, 0, |t|))
            && (ZeroOnlyAtLast(p, |t|) <==> AllCutEvenly(t, qs, 0, |t|))
            && (NoEarlyZero(p, |t|) <==> AllCutEvenly(t, qs, 0, |t|))
  {
    PlanCounts(t, qs, 0, 0, 1, |t|);
  }

  lemma AllSplitIntoOnes(n: nat)
    ensures Splits(n, 1)
  {
  }

  /** Queues that receive one event at a time always meet the condition. */
  lemma SingleReceiveCountsExactly(t: seq<Item>, qs: Queues)
    requires forall i :: 0 <= i < |t| ==> !qs(t[i].qidx).multiRcv
    ensures var p := Whole(t, qs, 0, |t|, |t|);
            CountsExactly(p, |t|) && ZeroOnlyAtLast(p, |t|)
  {
    forall i | 0 <= i < |t| ensures CutsEvenly(t, qs, i, 0, |t|) {
      assert MaxBatch(qs(t[i].qidx)) == 1;
      AllSplitIntoOnes(RunEnd(t, i, |t|) - i);
    }
    BurstCountIff(t, qs);
  }

  /** The plan for three events of one group and one of another, at most two per call. */
  lemma UnevenPlan(t: seq<Item>, qs: Queues)
    requires |t| == 4 && t[0].qidx == t[1].qidx == t[2].qidx == t[3].qidx
    requires SameGroup(t[0], t[1]) && SameGroup(t[0], t[2]) && !SameGroup(t[0], t[3])
    requires MaxBatch(qs(t[0].qidx)) == 2
    ensures Whole(t, qs, 0, 4, 4) == [Step(0, 2, 2), Step(2, 1, 0), Step(3, 1, -1)]
  {
    RunEndIs(t, 0, 4, 3);
    RunEndIs(t, 3, 4, 4);
    calc {
      Whole(t, qs, 0, 4, 4);
      Plan(t, qs, 0, 3, 2, 4, 4);
      [Step(0, 2, 2)] + Plan(t, qs, 2, 3, 2, 4, 2);
      [Step(0, 2, 2)] + ([Step(2, 1, 0)] + Plan(t, qs, 3, 3, 2, 4, 0));
      [Step(0, 2, 2)] + ([Step(2, 1, 0)] + Plan(t, qs, 3, 4, 1, 4, 0));
      [Step(0, 2, 2)] + ([Step(2, 1, 0)] + ([Step(3, 1, -1)] + Plan(t, qs, 4, 4, 1, 4, -1)));
      [Step(0, 2, 2), Step(2, 1, 0), Step(3, 1, -1)];
    }
  }

  /**
   Three events of one group, then one of another, at most two per call: the
   second call sees 0 with one event to go, and the last call sees -1.
   */
  lemma EarlyZero(qs: Queues)
    requires qs(1).multiRcv && qs(1).maxEvents == 2
    ensures var t := [Item(1, 1, 7, 0), Item(2, 1, 7, 0), Item(3, 1, 7, 0), Item(4, 1, 8, 0)];
            var p := Whole(t, qs, 0, 4, 4);
            p == [Step(0, 2, 2), Step(2, 1, 0), Step(3, 1, -1)]
            && !CountsExactly(p, 4) && !ZeroOnlyAtLast(p, 4) && !NoEarlyZero(p, 4)
  {
    var t := [Item(1, 1, 7, 0), Item(2, 1, 7, 0), Item(3, 1, 7, 0), Item(4, 1, 8, 0)];
    UnevenPlan(t, qs);
    assert Whole(t, qs, 0, 4, 4)[1] in Whole(t, qs, 0, 4, 4);
  }
}
