/** The dispatcher's loops over event tables, up to the calls of the EO receive functions. */
module Dispatcher {
  import opened DispatchPlan
  import opened DispatchCalls
  import opened ReceiveLimit

  const CALLBACKS_MAX: nat := 8

  // ----- enter-callbacks

  /** `pack_ev_tbl()`, on events [at, at + num) of a table. */
  method PackEvTbl(evs: array<Event>, at: nat, num: nat) returns (pack: nat)
    requires at + num <= evs.Length
    modifies evs
    ensures pack <= num && evs[at..at + pack] == Packed(old(evs[at..at + num]))
    ensures forall k :: 0 <= k < evs.Length && !(at <= k < at + num) ==> evs[k] == old(evs[k])
  {
    if num == 1 {
      if evs[at] != EVENT_UNDEF {
        return 1;
      } else {
        return 0;
      }
    }
    pack := PackLoop(evs, at, num);
  }

  method PackLoop(evs: array<Event>, at: nat, num: nat) returns (pack: nat)
    requires at + num <= evs.Length
    modifies evs
    ensures pack <= num && evs[at..at + pack] == Packed(old(evs[at..at + num]))
    ensures forall k :: 0 <= k < evs.Length && !(at <= k < at + num) ==> evs[k] == old(evs[k])
  {
    ghost var was := evs[at..at + num];
    pack := 0;
    var i := 0;
    ghost var packed: seq<Event> := [];
    while i < num
      invariant |packed| == pack <= i <= num
      invariant packed == PackedTo(was, i)
      invariant forall k :: at <= k < at + pack ==> evs[k] == packed[k - at]
      invariant forall k :: at + i <= k < at + num ==> evs[k] == was[k - at]
      invariant forall k :: 0 <= k < evs.Length && !(at <= k < at + num) ==> evs[k] == old(evs[k])
    {
      if evs[at + i] != EVENT_UNDEF {
        if pack < i {
          evs[at + pack] := evs[at + i];
        }
        pack := pack + 1;
        packed := packed + [was[i]];
      }
      i := i + 1;
    }
    assert evs[at..at + pack] == packed;
  }

  method EnterOne(cb: EnterCb, time: nat, evs: array<Event>, at: nat, numEvents: nat, ctx: Context) returns (num: nat, context: Context)
    requires at + numEvents <= evs.Length
    modifies evs
    ensures num <= numEvents
    ensures var w := Edited(cb, time, View(old(evs[at..at + numEvents]), ctx));
            evs[at..at + num] == Packed(w.events) && context == w.context
    ensures forall k :: 0 <= k < evs.Length && !(at <= k < at + numEvents) ==> evs[k] == old(evs[k])
  {
    var w := Edited(cb, time, View(evs[at..at + numEvents], ctx));
    for k := 0 to numEvents
      invariant evs[at..at + k] == w.events[..k]
      invariant forall k :: 0 <= k < evs.Length && !(at <= k < at + numEvents) ==> evs[k] == old(evs[k])
    {
      evs[at + k] := w.events[k];
    }
    assert evs[at..at + numEvents] == w.events;
    context := w.context;
    num := PackEvTbl(evs, at, numEvents);
  }

  /** `dispatch_enter_cb()` */
  method DispatchEnterCb(cbs: seq<EnterCb>, time: nat, evs: array<Event>, at: nat, numEvents: nat, ctx: Context)
    returns (num: nat, context: Context)
    requires |cbs| <= CALLBACKS_MAX && at + numEvents <= evs.Length
    modifies evs
    ensures num <= numEvents
    ensures View(evs[at..at + num], context) == Entered(cbs, time, View(old(evs[at..at + numEvents]), ctx))
    ensures forall k :: 0 <= k < evs.Length && !(at <= k < at + numEvents) ==> evs[k] == old(evs[k])
  {
    num, context := numEvents, ctx;
    var i := 0;
    ghost var done := Entered(cbs, time, View(evs[at..at + num], context));
    while i < CALLBACKS_MAX && num > 0
      invariant 0 <= i <= |cbs| && num <= numEvents
      invariant Entered(cbs[i..], time, View(evs[at..at + num], context)) == done
      invariant forall k :: 0 <= k < evs.Length && !(at <= k < at + numEvents) ==> evs[k] == old(evs[k])
    {
      if i == |cbs| {
        break;
      }
      assert cbs[i..][1..] == cbs[i + 1..];
      num, context := EnterOne(cbs[i], time, evs, at, num, context);
      i := i + 1;
    }
  }

  class Core {
    const queues: Queues
    const enterCbs: seq<EnterCb>
    const exitCbs: nat
    var eventBurstCnt: int
    /** the receive calls so far */
    var calls: seq<Call>
    /** the batch that each of them was for */
    ghost var steps: seq<Step>

    constructor (queues: Queues, enterCbs: seq<EnterCb>, exitCbs: nat)
      ensures this.queues == queues && this.enterCbs == enterCbs && this.exitCbs == exitCbs
      ensures eventBurstCnt == 0 && calls == [] && steps == []
    {
      this.queues, this.enterCbs, this.exitCbs := queues, enterCbs, exitCbs;
      eventBurstCnt, calls, steps := 0, [], [];
    }

    ghost predicate Valid()
      reads this
    {
      |enterCbs| <= CALLBACKS_MAX && |steps| == |calls|
    }

    ghost function Now(): Progress
      reads this
    {
      Progress(steps, eventBurstCnt)
    }

    /** Since `log`, calls have been made for batches of t, each as its batch says. */
    ghost predicate MadeFor(t: seq<Item>, log: seq<Call>)
      reads this
    {
      Valid() && Agree(t, queues, enterCbs, exitCbs, log, calls, steps)
    }

    /** `dispatch_callbacks_registered()` */
    predicate CallbacksRegistered() {
      enterCbs != [] || exitCbs != 0
    }

    /** The events [lo, hi) are in the table and come from one queue. */
    predicate Ready(t: seq<Item>, evs: array<Event>, lo: nat, hi: nat)
      reads evs
    {
      && lo < hi <= |t| == evs.Length
      && (forall k :: lo <= k < hi ==> evs[k] == t[k].event && t[k].qidx == t[lo].qidx)
    }

    /** `count_same_evgroup()` of `num` events from one queue, from i on */
    method CountSameEvgroup(t: seq<Item>, i: nat, num: nat) returns (cnt: nat)
      requires i + num <= |t| && forall k :: i <= k < i + num ==> t[k].qidx == t[i].qidx
      ensures num == 0 ==> cnt == 0
      ensures num > 0 ==> cnt == RunEnd(t, i, i + num) - i
    {
      if num < 2 {
        if num == 1 {
          RunEndIs(t, i, i + 1, i + 1);
        }
        return num;
      }
      var egrp := t[i].egrp;
      cnt := 1;
      if egrp == EVENT_GROUP_UNDEF {
        while cnt < num && t[i + cnt].egrp == EVENT_GROUP_UNDEF
          invariant 1 <= cnt <= num
          invariant forall k :: i < k < i + cnt ==> Together(t[i], t[k])
        {
          cnt := cnt + 1;
        }
      } else {
        var egrpGen := t[i].egrpGen;
        while cnt < num && egrp == t[i + cnt].egrp && egrpGen == t[i + cnt].egrpGen
          invariant 1 <= cnt <= num
          invariant forall k :: i < k < i + cnt ==> Together(t[i], t[k])
        {
          cnt := cnt + 1;
        }
      }
      RunEndIs(t, i, i + num, i + cnt);
    }

    /** `call_eo_multircv_fn()`: the callbacks work on the burst's own table. */
    method CallEoMultircvFn(t: seq<Item>, evs: array<Event>, j: nat, num: nat, ghost log: seq<Call>)
      requires num >= 1 && j + num <= |t| == evs.Length && (forall k :: j <= k < j + num ==> evs[k] == t[k].event)
      requires MadeFor(t, log)
      modifies this`calls, this`steps, evs
      ensures MadeFor(t, log) && steps == old(steps) + [Step(j, num, eventBurstCnt)]
      ensures forall k :: 0 <= k < evs.Length && !(j <= k < j + num) ==> evs[k] == old(evs[k])
    {
      ghost var batch := evs[j..j + num];
      assert batch == Events(t[j..j + num]);
      var n, context := DispatchEnterCb(enterCbs, |calls|, evs, j, num, queues(t[j].qidx).context);
      assert View(evs[j..j + n], context) == Entered(enterCbs, |calls|, View(batch, queues(t[j].qidx).context));
      var call := Call(num, num, t[j].egrp, t[j].egrpGen, View(evs[j..j + n], context), eventBurstCnt, exitCbs);
      OneMore(t, queues, enterCbs, exitCbs, log, calls, steps, call, Step(j, num, eventBurstCnt));
      calls := calls + [call];
      steps := steps + [Step(j, num, eventBurstCnt)];
    }

    /** `call_eo_multircv_fn__no_cb()` */
    method CallEoMultircvFnNoCb(t: seq<Item>, evs: array<Event>, j: nat, num: nat, ghost log: seq<Call>)
      requires num >= 1 && j + num <= |t| == evs.Length && (forall k :: j <= k < j + num ==> evs[k] == t[k].event)
      requires MadeFor(t, log) && !CallbacksRegistered()
      modifies this`calls, this`steps
      ensures MadeFor(t, log) && steps == old(steps) + [Step(j, num, eventBurstCnt)]
    {
      assert evs[j..j + num] == Events(t[j..j + num]);
      var call := Call(num, num, t[j].egrp, t[j].egrpGen, View(evs[j..j + num], queues(t[j].qidx).context), eventBurstCnt, 0);
      OneMore(t, queues, enterCbs, exitCbs, log, calls, steps, call, Step(j, num, eventBurstCnt));
      calls := calls + [call];
      steps := steps + [Step(j, num, eventBurstCnt)];
    }

    /** `call_eo_rcv_fn()`: the callbacks work on a copy of the one event. */
    method CallEoRcvFn(t: seq<Item>, evs: array<Event>, i: nat, ghost log: seq<Call>)
      requires i < |t| == evs.Length && evs[i] == t[i].event && MadeFor(t, log)
      modifies this`calls, this`steps
      ensures MadeFor(t, log) && steps == old(steps) + [Step(i, 1, eventBurstCnt)]
    {
      var evTbl := new Event[1];
      evTbl[0] := evs[i];
      assert evTbl[0..1] == Events(t[i..i + 1]);
      var n, context := DispatchEnterCb(enterCbs, |calls|, evTbl, 0, 1, queues(t[i].qidx).context);
      var call := Call(1, 1, t[i].egrp, t[i].egrpGen, View(evTbl[0..n], context), eventBurstCnt, exitCbs);
      OneMore(t, queues, enterCbs, exitCbs, log, calls, steps, call, Step(i, 1, eventBurstCnt));
      calls := calls + [call];
      steps := steps + [Step(i, 1, eventBurstCnt)];
    }

    /** `call_eo_rcv_fn__no_cb()` */
    method CallEoRcvFnNoCb(t: seq<Item>, evs: array<Event>, i: nat, ghost log: seq<Call>)
      requires i < |t| == evs.Length && evs[i] == t[i].event && MadeFor(t, log) && !CallbacksRegistered()
      modifies this`calls, this`steps
      ensures MadeFor(t, log) && steps == old(steps) + [Step(i, 1, eventBurstCnt)]
    {
      assert [evs[i]] == Events(t[i..i + 1]);
      var call := Call(1, 1, t[i].egrp, t[i].egrpGen, View([evs[i]], queues(t[i].qidx).context), eventBurstCnt, 0);
      OneMore(t, queues, enterCbs, exitCbs, log, calls, steps, call, Step(i, 1, eventBurstCnt));
      calls := calls + [call];
      steps := steps + [Step(i, 1, eventBurstCnt)];
    }

    /** The batches of one run, on the callback path. */
    method RunBatchesCb(t: seq<Item>, evs: array<Event>, idx: nat, egrpEnd: nat, num: nat, ghost log: seq<Call>)
      requires num >= 1 && idx < egrpEnd <= |t| == evs.Length && forall k :: idx <= k < egrpEnd ==> evs[k] == t[k].event
      requires MadeFor(t, log)
      modifies this`calls, this`steps, this`eventBurstCnt, evs
      ensures MadeFor(t, log)
      ensures Now() == AfterRun(old(Now()), idx, egrpEnd, num)
      ensures forall k :: 0 <= k < evs.Length && !(idx <= k < egrpEnd) ==> evs[k] == old(evs[k])
    {
      ghost var goal := AfterRun(Now(), idx, egrpEnd, num);
      var j := idx;
      while egrpEnd - j >= num
        invariant idx <= j <= egrpEnd && MadeFor(t, log)
        invariant AfterRun(Now(), j, egrpEnd, num) == goal
        invariant forall k :: j <= k < egrpEnd ==> evs[k] == t[k].event
        invariant forall k :: 0 <= k < evs.Length && !(idx <= k < egrpEnd) ==> evs[k] == old(evs[k])
      {
        NextBatch(Now(), j, egrpEnd, num, Step(j, num, eventBurstCnt - num));
        eventBurstCnt := eventBurstCnt - num;
        CallEoMultircvFn(t, evs, j, num, log);
        j := j + num;
      }
      if j < egrpEnd {
        NextBatch(Now(), j, egrpEnd, num, Step(j, egrpEnd - j, 0));
        eventBurstCnt := 0;
        CallEoMultircvFn(t, evs, j, egrpEnd - j, log);
      }
    }

    /** The callback path of `dispatch_eo_multircv_burst()`, for the events [lo, hi) of the table. */
    method MultircvBurstCb(t: seq<Item>, evs: array<Event>, lo: nat, hi: nat, ghost log: seq<Call>)
      requires Ready(t, evs, lo, hi) && queues(t[lo].qidx).multiRcv && MadeFor(t, log)
      requires queues(t[lo].qidx).maxEvents >= 1 // see BurstsEndIff
      modifies this`calls, this`steps, this`eventBurstCnt, evs
      ensures MadeFor(t, log)
      ensures Now() == AfterWhole(old(Now()), t, queues, lo, hi)
      ensures forall k :: 0 <= k < evs.Length && !(lo <= k < hi) ==> evs[k] == old(evs[k])
    {
      ghost var goal := AfterWhole(Now(), t, queues, lo, hi);
      var idx := lo;
      while idx < hi
        invariant lo <= idx <= hi && MadeFor(t, log)
        invariant AfterWhole(Now(), t, queues, idx, hi) == goal
        invariant forall k :: idx <= k < hi ==> evs[k] == t[k].event
        invariant forall k :: 0 <= k < evs.Length && !(lo <= k < hi) ==> evs[k] == old(evs[k])
      {
        var egrpCnt := CountSameEvgroup(t, idx, hi - idx);
        var egrpEnd := Min(idx + egrpCnt, hi);
        var num := Min(egrpCnt, queues(t[lo].qidx).maxEvents);
        NextRun(Now(), t, queues, idx, hi);
        RunBatchesCb(t, evs, idx, egrpEnd, num, log);
        idx := egrpEnd;
      }
    }

    /** The batches of one run, on the no-callback path. */
    method RunBatchesNoCb(t: seq<Item>, evs: array<Event>, idx: nat, egrpEnd: nat, num: nat, ghost log: seq<Call>)
      requires num >= 1 && idx < egrpEnd <= |t| == evs.Length && forall k :: idx <= k < egrpEnd ==> evs[k] == t[k].event
      requires MadeFor(t, log) && !CallbacksRegistered()
      modifies this`calls, this`steps, this`eventBurstCnt
      ensures MadeFor(t, log)
      ensures Now() == AfterRun(old(Now()), idx, egrpEnd, num)
    {
      ghost var goal := AfterRun(Now(), idx, egrpEnd, num);
      var j := idx;
      while egrpEnd - j >= num
        invariant idx <= j <= egrpEnd && MadeFor(t, log)
        invariant AfterRun(Now(), j, egrpEnd, num) == goal
      {
        NextBatch(Now(), j, egrpEnd, num, Step(j, num, eventBurstCnt - num));
        eventBurstCnt := eventBurstCnt - num;
        CallEoMultircvFnNoCb(t, evs, j, num, log);
        j := j + num;
      }
      if j < egrpEnd {
        NextBatch(Now(), j, egrpEnd, num, Step(j, egrpEnd - j, 0));
        eventBurstCnt := 0;
        CallEoMultircvFnNoCb(t, evs, j, egrpEnd - j, log);
      }
    }

    /** The no-callback path of `dispatch_eo_multircv_burst()`, for the events [lo, hi) of the table. */
    method MultircvBurstNoCb(t: seq<Item>, evs: array<Event>, lo: nat, hi: nat, ghost log: seq<Call>)
      requires Ready(t, evs, lo, hi) && queues(t[lo].qidx).multiRcv && MadeFor(t, log) && !CallbacksRegistered()
      requires queues(t[lo].qidx).maxEvents >= 1 // see BurstsEndIff
      modifies this`calls, this`steps, this`eventBurstCnt
      ensures MadeFor(t, log)
      ensures Now() == AfterWhole(old(Now()), t, queues, lo, hi)
    {
      ghost var goal := AfterWhole(Now(), t, queues, lo, hi);
      var idx := lo;
      while idx < hi
        invariant lo <= idx <= hi && MadeFor(t, log)
        invariant AfterWhole(Now(), t, queues, idx, hi) == goal
      {
        var egrpCnt := CountSameEvgroup(t, idx, hi - idx);
        var egrpEnd := Min(idx + egrpCnt, hi);
        var num := Min(egrpCnt, queues(t[lo].qidx).maxEvents);
        NextRun(Now(), t, queues, idx, hi);
        RunBatchesNoCb(t, evs, idx, egrpEnd, num, log);
        idx := egrpEnd;
      }
    }

    /** `dispatch_eo_multircv_burst()` */
    method MultircvBurst(t: seq<Item>, evs: array<Event>, lo: nat, hi: nat, ghost log: seq<Call>)
      requires Ready(t, evs, lo, hi) && queues(t[lo].qidx).multiRcv && MadeFor(t, log)
      requires queues(t[lo].qidx).maxEvents >= 1 // see BurstsEndIff
      modifies this`calls, this`steps, this`eventBurstCnt, evs
      ensures MadeFor(t, log)
      ensures Now() == AfterWhole(old(Now()), t, queues, lo, hi)
      ensures forall k :: 0 <= k < evs.Length && !(lo <= k < hi) ==> evs[k] == old(evs[k])
    {
      if CallbacksRegistered() {
        MultircvBurstCb(t, evs, lo, hi, log);
      } else {
        MultircvBurstNoCb(t, evs, lo, hi, log);
      }
    }

    /** The callback path of `dispatch_eo_rcv_burst()` */
    method RcvBurstCb(t: seq<Item>, evs: array<Event>, lo: nat, hi: nat, ghost log: seq<Call>)
      requires Ready(t, evs, lo, hi) && !queues(t[lo].qidx).multiRcv && MadeFor(t, log)
      modifies this`calls, this`steps, this`eventBurstCnt
      ensures MadeFor(t, log)
      ensures Now() == AfterWhole(old(Now()), t, queues, lo, hi)
    {
      ghost var goal := AfterWhole(Now(), t, queues, lo, hi);
      var i := lo;
      while i < hi
        invariant lo <= i <= hi && MadeFor(t, log)
        invariant AfterWhole(Now(), t, queues, i, hi) == goal
      {
        NextSingle(Now(), t, queues, i, hi);
        eventBurstCnt := eventBurstCnt - 1;
        CallEoRcvFn(t, evs, i, log);
        i := i + 1;
      }
    }

    /** The no-callback path of `dispatch_eo_rcv_burst()` */
    method RcvBurstNoCb(t: seq<Item>, evs: array<Event>, lo: nat, hi: nat, ghost log: seq<Call>)
      requires Ready(t, evs, lo, hi) && !queues(t[lo].qidx).multiRcv && MadeFor(t, log) && !CallbacksRegistered()
      modifies this`calls, this`steps, this`eventBurstCnt
      ensures MadeFor(t, log)
      ensures Now() == AfterWhole(old(Now()), t, queues, lo, hi)
    {
      ghost var goal := AfterWhole(Now(), t, queues, lo, hi);
      var i := lo;
      while i < hi
        invariant lo <= i <= hi && MadeFor(t, log)
        invariant AfterWhole(Now(), t, queues, i, hi) == goal
      {
        NextSingle(Now(), t, queues, i, hi);
        eventBurstCnt := eventBurstCnt - 1;
        CallEoRcvFnNoCb(t, evs, i, log);
        i := i + 1;
      }
    }

    /** `dispatch_eo_rcv_burst()` */
    method RcvBurst(t: seq<Item>, evs: array<Event>, lo: nat, hi: nat, ghost log: seq<Call>)
      requires Ready(t, evs, lo, hi) && !queues(t[lo].qidx).multiRcv && MadeFor(t, log)
      modifies this`calls, this`steps, this`eventBurstCnt
      ensures MadeFor(t, log)
      ensures Now() == AfterWhole(old(Now()), t, queues, lo, hi)
    {
      if CallbacksRegistered() {
        RcvBurstCb(t, evs, lo, hi, log);
      } else {
        RcvBurstNoCb(t, evs, lo, hi, log);
      }
    }

    /** `dispatch_eo_multircv_single()` */
    method MultircvSingle(t: seq<Item>, evs: array<Event>, i: nat, ghost log: seq<Call>)
      requires Ready(t, evs, i, i + 1) && MadeFor(t, log)
      modifies this`calls, this`steps, this`eventBurstCnt, evs
      ensures MadeFor(t, log)
      ensures Now() == AfterWhole(old(Now()), t, queues, i, i + 1)
      ensures forall k :: 0 <= k < evs.Length && k != i ==> evs[k] == old(evs[k])
    {
      LoneEvent(Now(), t, queues, i);
      eventBurstCnt := eventBurstCnt - 1;
      if CallbacksRegistered() {
        CallEoMultircvFn(t, evs, i, 1, log);
      } else {
        CallEoMultircvFnNoCb(t, evs, i, 1, log);
      }
    }

    /** `dispatch_eo_rcv_single()` */
    method RcvSingle(t: seq<Item>, evs: array<Event>, i: nat, ghost log: seq<Call>)
      requires Ready(t, evs, i, i + 1) && MadeFor(t, log)
      modifies this`calls, this`steps, this`eventBurstCnt
      ensures MadeFor(t, log)
      ensures Now() == AfterWhole(old(Now()), t, queues, i, i + 1)
    {
      LoneEvent(Now(), t, queues, i);
      eventBurstCnt := eventBurstCnt - 1;
      if CallbacksRegistered() {
        CallEoRcvFn(t, evs, i, log);
      } else {
        CallEoRcvFnNoCb(t, evs, i, log);
      }
    }

    /** `dispatch_events()`: the form for a lone event does what the form for bursts does, where that ends. */
    method DispatchEvents(t: seq<Item>, evs: array<Event>, lo: nat, hi: nat, ghost log: seq<Call>)
      requires Ready(t, evs, lo, hi) && MadeFor(t, log)
      requires hi - lo > 1 ==> BurstsEnd(queues(t[lo].qidx))
      modifies this`calls, this`steps, this`eventBurstCnt, evs
      ensures MadeFor(t, log)
      ensures Now() == AfterWhole(old(Now()), t, queues, lo, hi)
      ensures forall k :: 0 <= k < evs.Length && !(lo <= k < hi) ==> evs[k] == old(evs[k])
    {
      var multiRcv := queues(t[lo].qidx).multiRcv;
      if hi - lo == 1 {
        if multiRcv {
          MultircvSingle(t, evs, lo, log);
        } else {
          RcvSingle(t, evs, lo, log);
        }
      } else {
        if multiRcv {
          MultircvBurst(t, evs, lo, hi, log);
        } else {
          RcvBurst(t, evs, lo, hi, log);
        }
      }
    }

    /** The inner loop of `ag_dispatch_batches()`: the events from tblIdx on that are of one queue. */
    method CountSameQueue(t: seq<Item>, tblIdx: nat) returns (batchCnt: nat)
      requires tblIdx < |t|
      ensures 1 <= batchCnt <= |t| - tblIdx
      ensures forall k :: tblIdx <= k < tblIdx + batchCnt ==> t[k].qidx == t[tblIdx].qidx
      ensures tblIdx + batchCnt < |t| ==> t[tblIdx + batchCnt].qidx != t[tblIdx].qidx
    {
      var qidx := t[tblIdx].qidx;
      batchCnt := 1;
      var i := tblIdx + 1;
      while i < |t| && t[i].qidx == qidx
        invariant tblIdx < i <= |t| && batchCnt == i - tblIdx
        invariant forall k :: tblIdx <= k < i ==> t[k].qidx == qidx
      {
        batchCnt := batchCnt + 1;
        i := i + 1;
      }
    }

    /** The entries of one queue, from tblIdx on, in one go. */
    method DispatchBatch(t: seq<Item>, evs: array<Event>, tblIdx: nat, ghost log: seq<Call>) returns (batchCnt: nat)
      requires tblIdx < |t| == evs.Length && forall k :: tblIdx <= k < |t| ==> evs[k] == t[k].event
      requires DispatchEnds(t, queues) && MadeFor(t, log)
      modifies this`calls, this`steps, this`eventBurstCnt, evs
      ensures 1 <= batchCnt <= |t| - tblIdx
      ensures MadeFor(t, log)
      ensures AfterWhole(Now(), t, queues, tblIdx + batchCnt, |t|) == AfterWhole(old(Now()), t, queues, tblIdx, |t|)
      ensures forall k :: tblIdx + batchCnt <= k < |t| ==> evs[k] == t[k].event
    {
      batchCnt := CountSameQueue(t, tblIdx);
      ghost var goal := AfterWhole(Now(), t, queues, tblIdx, |t|);
      ghost var after := AfterWhole(Now(), t, queues, tblIdx, tblIdx + batchCnt);
      NextQueue(Now(), t, queues, tblIdx, tblIdx + batchCnt, |t|);
      assert AfterWhole(after, t, queues, tblIdx + batchCnt, |t|) == goal;
      BatchEnds(t, queues, tblIdx, batchCnt);
      DispatchEvents(t, evs, tblIdx, tblIdx + batchCnt, log);
      assert Now() == after;
    }

    /**
     `ag_dispatch_batches()`: the dequeued events, queue by queue. The calls made
     are those that the plan for the whole table names, in its order; with any callbacks
     they take off every event group what the table has of it.
     */
    method AgDispatchBatches(t: seq<Item>, evs: array<Event>)
      requires DispatchEnds(t, queues)
      requires Valid() && |t| == evs.Length && |t| > 0 && forall k :: 0 <= k < |t| ==> evs[k] == t[k].event
      modifies this`calls, this`steps, this`eventBurstCnt, evs
      ensures Valid() && MadeFor(t, old(calls))
      ensures Now() == AfterWhole(Progress(old(steps), |t|), t, queues, 0, |t|)
      ensures Accounted(t, queues, enterCbs, exitCbs, |old(calls)|, calls[|old(calls)|..])
    {
      ghost var log := calls;
      DispatchAll(t, evs);
      assert steps[|log|..] == Whole(t, queues, 0, |t|, |t|);
      PlannedCallsAccounted(t, queues, enterCbs, exitCbs, log, calls, steps);
    }

    /** The loop over the table. */
    method DispatchAll(t: seq<Item>, evs: array<Event>)
      requires DispatchEnds(t, queues)
      requires Valid() && |t| == evs.Length && |t| > 0 && forall k :: 0 <= k < |t| ==> evs[k] == t[k].event
      modifies this`calls, this`steps, this`eventBurstCnt, evs
      ensures Valid() && MadeFor(t, old(calls))
      ensures Now() == AfterWhole(Progress(old(steps), |t|), t, queues, 0, |t|)
    {
      ghost var log := calls;
      eventBurstCnt := |t|;
      ghost var goal := AfterWhole(Now(), t, queues, 0, |t|);
      var tblIdx := 0;
      while tblIdx < |t|
        invariant tblIdx <= |t| && MadeFor(t, log)
        invariant AfterWhole(Now(), t, queues, tblIdx, |t|) == goal
        invariant forall k :: tblIdx <= k < |t| ==> evs[k] == t[k].event
      {
        var batchCnt := DispatchBatch(t, evs, tblIdx, log);
        tblIdx := tblIdx + batchCnt;
      }
    }
  }
}
