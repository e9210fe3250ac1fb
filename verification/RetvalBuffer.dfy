/**
 The life of the return-value buffer of `eo_local_func_call_req()`: a setup that
 sends a request to all, some or none of n cores, the cores' handlers, and the
 "done" callback of the event group, in any interleaving.

 The event group is here the one count of `GroupCount`, of the requests that are not
 yet handled, which `EventGroupTheorems.CounterIsCount` proves the counters to be; the
 core that takes it to zero sends the "done" event, unless the group was aborted. If
 that send fails the "done" event is freed and the callback never runs.
 */
module RetvalBuffer {
  import opened Seqs
  import G = GroupCount

  /** The handler of one core's request. */
  datatype Handler =
    | Waiting   // the request has not been sent
    | Queued
    | Running   // the local function; may store its failing status in the buffer
    | MustFree  // its subtraction took free_at_zero to zero
    | Leaving   // done with the buffer, not yet off the group's post-count
    | Finished

  datatype Setup =
    | Start        // the event group is not set up yet
    | Sending
    | Aborting     // a send failed: evgrp_abort_delete()
    | ErrSub       // subtract what was not sent, and the setup's own one
    | ErrFree      // its subtraction took free_at_zero to zero
    | ReturnedErr
    | ReturnedOk

  datatype Done = NotFired | DoneQueued | DoneFinished | DoneFreed

  datatype State = State(
    setup: Setup,
    sent: nat,
    handlers: seq<Handler>, // one for each core of the mask
    group: G.Group,         // the event group's count of requests
    done: Done,             // the "done" event
    freeAtZero: int,
    freed: nat)             // history: how often the buffer was freed

  datatype Action =
    | SetupGo(ok: bool)    // the setup's next step, and whether it succeeds
    | HandlerGo(i: nat, ok: bool) // a handler's next step; whether the send of the "done" event, if any, succeeds
    | DoneGo

  ghost predicate Init(s: State) {
    && s.setup.Start? && s.sent == 0 && |s.handlers| >= 1
    && (forall i :: 0 <= i < |s.handlers| ==> s.handlers[i].Waiting?)
    && s.group == G.READY && s.done.NotFired?
    && s.freeAtZero == |s.handlers| + 1 && s.freed == 0
  }

  ghost predicate Enabled(s: State, a: Action) {
    match a
    case SetupGo(_) => !s.setup.ReturnedErr? && !s.setup.ReturnedOk? && (s.setup.Sending? ==> s.sent < |s.handlers|)
    case HandlerGo(i, _) => i < |s.handlers| && !s.handlers[i].Waiting? && !s.handlers[i].Finished?
    case DoneGo => s.done.DoneQueued?
  }

  /** `send_core_ctrl_events()` and the error path of `eo_local_func_call_req()` */
  function SetupStep(s: State, ok: bool): State
    requires s.setup.Sending? ==> s.sent < |s.handlers|
  {
    var n := |s.handlers|;
    match s.setup
    case Start => if ok then s.(setup := Sending, group := G.Apply(n)) else s.(setup := ErrSub)
    case Sending =>
      if !ok then s.(setup := Aborting)
      else s.(sent := s.sent + 1, handlers := s.handlers[s.sent := Queued],
              setup := if s.sent + 1 == n then ReturnedOk else Sending)
    case Aborting =>
      if s.group.applied then s.(setup := ErrSub, group := G.Abort(s.group), done := DoneFreed) else s.(setup := ErrSub)
    case ErrSub =>
      var unsent := n - s.sent;
      s.(freeAtZero := s.freeAtZero - (unsent + 1),
         setup := if s.freeAtZero == unsent + 1 then ErrFree else ReturnedErr)
    case ErrFree => s.(freed := s.freed + 1, setup := ReturnedErr)
    case _ => s
  }

  /** `i_event__eo_local_func_call_req()` and `handle_ctrl_events()` around it */
  function HandlerStep(s: State, i: nat, ok: bool): State
    requires i < |s.handlers|
  {
    match s.handlers[i]
    case Queued => s.(handlers := s.handlers[i := Running])
    case Running =>
      s.(freeAtZero := s.freeAtZero - 1,
         handlers := s.handlers[i := if s.freeAtZero == 1 then MustFree else Leaving])
    case MustFree => s.(freed := s.freed + 1, handlers := s.handlers[i := Leaving])
    case Leaving =>
      s.(handlers := s.handlers[i := Finished], group := G.Finish(s.group, 1),
         done := if !G.IsLast(s.group, 1) then s.done else if ok then DoneQueued else DoneFreed)
    case _ => s
  }

  /** The "done" callback: check the statuses, then free. */
  function DoneStep(s: State): State {
    s.(freed := s.freed + 1, done := DoneFinished)
  }

  ghost function Step(s: State, a: Action): State
    requires Enabled(s, a)
  {
    match a
    case SetupGo(ok) => SetupStep(s, ok)
    case HandlerGo(i, ok) => HandlerStep(s, i, ok)
    case DoneGo => DoneStep(s)
  }

  ghost predicate IsRun(run: seq<State>, acts: seq<Action>) {
    && |run| == |acts| + 1
    && Init(run[0])
    && forall i :: 0 <= i < |acts| ==> Enabled(run[i], acts[i]) && run[i + 1] == Step(run[i], acts[i])
  }

  /** The step reads, writes or frees the buffer. */
  predicate Touches(s: State, a: Action)
    requires a.HandlerGo? ==> a.i < |s.handlers|
  {
    match a
    case SetupGo(_) => s.setup.ErrSub? || s.setup.ErrFree?
    case HandlerGo(i, _) => s.handlers[i].Running? || s.handlers[i].MustFree?
    case DoneGo => true
  }

  /** Nothing can happen any more. */
  ghost predicate AtEnd(s: State) {
    forall a :: !Enabled(s, a)
  }

  // ----- counting handlers

  function IsSent(h: Handler): nat { if h.Waiting? then 0 else 1 }

  function IsSubbed(h: Handler): nat { if h.MustFree? || h.Leaving? || h.Finished? then 1 else 0 }

  function IsMustFree(h: Handler): nat { if h.MustFree? then 1 else 0 }

  function IsFinished(h: Handler): nat { if h.Finished? then 1 else 0 }

  // ----- the invariant

  ghost predicate Shape(s: State) {
    && 1 <= |s.handlers| && s.sent <= |s.handlers|
    && (forall i :: 0 <= i < |s.handlers| ==> (s.handlers[i].Waiting? <==> i >= s.sent))
    && Sum(s.handlers, IsSent) == s.sent
    && (s.setup.Start? ==> s.sent == 0)
    && (s.setup.ReturnedOk? <==> s.sent == |s.handlers|)
  }

  ghost predicate GroupInv(s: State) {
    && (s.group.applied ==> s.group.count == |s.handlers| - Sum(s.handlers, IsFinished) >= 1 && s.done.NotFired?)
    && (s.setup.Sending? || s.setup.Aborting? ==> s.group.applied)
    && (s.setup.Start? ==> !s.group.applied && s.done.NotFired?)
    && (s.setup.ErrSub? || s.setup.ErrFree? || s.setup.ReturnedErr? ==> !s.group.applied && (s.done.NotFired? || s.done.DoneFreed?))
    && (s.setup.ReturnedOk? && !s.group.applied ==>
          Sum(s.handlers, IsFinished) == |s.handlers| && !s.done.NotFired?)
  }

  /** The setup still has its own share of free_at_zero, and that of every unsent request. */
  predicate SetupHasShare(s: State) {
    s.setup.Start? || s.setup.Sending? || s.setup.Aborting? || s.setup.ErrSub? || s.setup.ReturnedOk?
  }

  ghost predicate BufferInv(s: State) {
    var subbed := Sum(s.handlers, IsSubbed);
    var freers := Sum(s.handlers, IsMustFree) + if s.setup.ErrFree? then 1 else 0;
    if SetupHasShare(s) then
      && s.freeAtZero == |s.handlers| + 1 - subbed
      && freers == 0
      && s.freed == (if s.done.DoneFinished? then 1 else 0)
    else
      && s.freeAtZero == s.sent - subbed
      && s.freed + freers == (if s.freeAtZero == 0 then 1 else 0)
  }

  ghost predicate Inv(s: State) {
    Shape(s) && GroupInv(s) && BufferInv(s)
  }

  lemma InitInv(s: State)
    requires Init(s)
    ensures Inv(s)
  {
    SumZeroIff(s.handlers, IsSent);
    SumZeroIff(s.handlers, IsSubbed);
    SumZeroIff(s.handlers, IsMustFree);
  }

  /** How the counts of handlers relate. */
  lemma Counts(s: State)
    ensures Sum(s.handlers, IsMustFree) <= Sum(s.handlers, IsSubbed) <= Sum(s.handlers, IsSent)
    ensures Sum(s.handlers, IsFinished) <= Sum(s.handlers, IsSubbed)
    ensures forall i :: 0 <= i < |s.handlers| && (s.handlers[i].Queued? || s.handlers[i].Running?) ==>
      Sum(s.handlers, IsSubbed) < Sum(s.handlers, IsSent)
    ensures forall i :: 0 <= i < |s.handlers| && !s.handlers[i].Finished? && !s.handlers[i].Waiting? ==>
      Sum(s.handlers, IsFinished) < Sum(s.handlers, IsSent)
    ensures forall i :: 0 <= i < |s.handlers| && s.handlers[i].MustFree? ==> Sum(s.handlers, IsMustFree) >= 1
  {
    SumBelow(s.handlers, IsMustFree, IsSubbed);
    SumBelow(s.handlers, IsSubbed, IsSent);
    SumBelow(s.handlers, IsFinished, IsSubbed);
    SumBelow(s.handlers, IsFinished, IsSent);
    forall i | 0 <= i < |s.handlers| && (s.handlers[i].Queued? || s.handlers[i].Running?)
      ensures Sum(s.handlers, IsSubbed) < Sum(s.handlers, IsSent)
    {
      assert IsSubbed(s.handlers[i]) < IsSent(s.handlers[i]);
    }
    forall i | 0 <= i < |s.handlers| && !s.handlers[i].Finished? && !s.handlers[i].Waiting?
      ensures Sum(s.handlers, IsFinished) < Sum(s.handlers, IsSent)
    {
      assert IsFinished(s.handlers[i]) < IsSent(s.handlers[i]);
    }
    forall i | 0 <= i < |s.handlers| && s.handlers[i].MustFree? ensures Sum(s.handlers, IsMustFree) >= 1 {
      SumUpdate(s.handlers, IsMustFree, i, Waiting);
    }
  }

  lemma UpdateCounts(hs: seq<Handler>, i: nat, x: Handler)
    requires i < |hs|
    ensures Sum(hs[i := x], IsSent) == Sum(hs, IsSent) - IsSent(hs[i]) + IsSent(x)
    ensures Sum(hs[i := x], IsSubbed) == Sum(hs, IsSubbed) - IsSubbed(hs[i]) + IsSubbed(x)
    ensures Sum(hs[i := x], IsMustFree) == Sum(hs, IsMustFree) - IsMustFree(hs[i]) + IsMustFree(x)
    ensures Sum(hs[i := x], IsFinished) == Sum(hs, IsFinished) - IsFinished(hs[i]) + IsFinished(x)
  {
    SumUpdate(hs, IsSent, i, x);
    SumUpdate(hs, IsSubbed, i, x);
    SumUpdate(hs, IsMustFree, i, x);
    SumUpdate(hs, IsFinished, i, x);
  }

  lemma SetupKeepsShapeAndGroup(s: State, ok: bool)
    requires Shape(s) && GroupInv(s) && Enabled(s, SetupGo(ok))
    ensures Shape(SetupStep(s, ok)) && GroupInv(SetupStep(s, ok))
  {
    Counts(s);
    if s.setup.Sending? && ok {
      UpdateCounts(s.handlers, s.sent, Queued);
    }
  }

  lemma SetupKeepsBuffer(s: State, ok: bool)
    requires Inv(s) && Enabled(s, SetupGo(ok))
    ensures BufferInv(SetupStep(s, ok))
  {
    Counts(s);
    if s.setup.Sending? && ok {
      UpdateCounts(s.handlers, s.sent, Queued);
    }
  }

  lemma HandlerKeepsShape(s: State, i: nat, ok: bool)
    requires Shape(s) && Enabled(s, HandlerGo(i, ok))
    ensures Shape(HandlerStep(s, i, ok))
  {
    SumUpdate(s.handlers, IsSent, i, HandlerStep(s, i, ok).handlers[i]);
  }

  lemma HandlerKeepsGroup(s: State, i: nat, ok: bool)
    requires Shape(s) && GroupInv(s) && Enabled(s, HandlerGo(i, ok))
    ensures GroupInv(HandlerStep(s, i, ok))
  {
    Counts(s);
    SumUpdate(s.handlers, IsFinished, i, HandlerStep(s, i, ok).handlers[i]);
  }

  /** How the counts relate at one handler that has been sent its request. */
  lemma CountsAt(hs: seq<Handler>, i: nat)
    requires i < |hs|
    ensures Sum(hs, IsSubbed) <= Sum(hs, IsSent)
    ensures hs[i].Running? ==> Sum(hs, IsSubbed) < Sum(hs, IsSent)
    ensures hs[i].MustFree? ==> Sum(hs, IsMustFree) >= 1
  {
    SumBelow(hs, IsSubbed, IsSent);
    if hs[i].Running? {
      assert IsSubbed(hs[i]) < IsSent(hs[i]);
    }
    SumUpdate(hs, IsMustFree, i, Waiting);
  }

  /** The handler's last use of free_at_zero. */
  lemma SubtractKeepsBuffer(s: State, i: nat, ok: bool)
    requires BufferInv(s) && i < |s.handlers| && s.handlers[i].Running?
    requires Sum(s.handlers, IsSent) == s.sent <= |s.handlers|
    requires s.group.applied ==> s.done.NotFired?
    ensures BufferInv(HandlerStep(s, i, ok))
  {
    CountsAt(s.handlers, i);
    SumUpdate(s.handlers, IsSubbed, i, HandlerStep(s, i, ok).handlers[i]);
    SumUpdate(s.handlers, IsMustFree, i, HandlerStep(s, i, ok).handlers[i]);
  }

  lemma FreeKeepsBuffer(s: State, i: nat, ok: bool)
    requires BufferInv(s) && i < |s.handlers| && s.handlers[i].MustFree?
    ensures BufferInv(HandlerStep(s, i, ok))
  {
    CountsAt(s.handlers, i);
    SumUpdate(s.handlers, IsSubbed, i, Leaving);
    SumUpdate(s.handlers, IsMustFree, i, Leaving);
  }

  /** All that the buffer's invariant depends on. */
  lemma SameBuffer(s: State, t: State)
    requires BufferInv(s) && t.setup == s.setup && t.sent == s.sent && t.freeAtZero == s.freeAtZero && t.freed == s.freed
    requires t.done.DoneFinished? == s.done.DoneFinished? && |t.handlers| == |s.handlers|
    requires Sum(t.handlers, IsSubbed) == Sum(s.handlers, IsSubbed)
    requires Sum(t.handlers, IsMustFree) == Sum(s.handlers, IsMustFree)
    ensures BufferInv(t)
  {
  }

  /** The other steps of a handler leave the buffer alone. */
  lemma RestKeepsBuffer(s: State, i: nat, ok: bool)
    requires BufferInv(s) && i < |s.handlers| && !s.handlers[i].Running? && !s.handlers[i].MustFree?
    requires s.group.applied ==> s.done.NotFired?
    ensures BufferInv(HandlerStep(s, i, ok))
  {
    var next := HandlerStep(s, i, ok);
    SumUpdate(s.handlers, IsSubbed, i, next.handlers[i]);
    SumUpdate(s.handlers, IsMustFree, i, next.handlers[i]);
    assert next.handlers == s.handlers[i := next.handlers[i]];
    SameBuffer(s, next);
  }

  lemma HandlerKeepsBuffer(s: State, i: nat, ok: bool)
    requires BufferInv(s) && i < |s.handlers|
    requires Sum(s.handlers, IsSent) == s.sent <= |s.handlers|
    requires s.group.applied ==> s.done.NotFired?
    ensures BufferInv(HandlerStep(s, i, ok))
  {
    match s.handlers[i]
    case Running => SubtractKeepsBuffer(s, i, ok);
    case MustFree => FreeKeepsBuffer(s, i, ok);
    case _ => RestKeepsBuffer(s, i, ok);
  }

  lemma StepKeepsInv(s: State, a: Action)
    requires Inv(s) && Enabled(s, a)
    ensures Inv(Step(s, a))
  {
    match a
    case SetupGo(ok) =>
      SetupKeepsShapeAndGroup(s, ok);
      SetupKeepsBuffer(s, ok);
    case HandlerGo(i, ok) =>
      HandlerKeepsShape(s, i, ok);
      HandlerKeepsGroup(s, i, ok);
      HandlerKeepsBuffer(s, i, ok);
    case DoneGo =>
  }

  lemma {:induction false} RunInv(run: seq<State>, acts: seq<Action>, k: nat)
    requires IsRun(run, acts) && k < |run|
    ensures Inv(run[k])
  {
    if k == 0 {
      InitInv(run[0]);
    } else {
      RunInv(run, acts, k - 1);
      StepKeepsInv(run[k - 1], acts[k - 1]);
    }
  }

  // ----- the promises

  /** The buffer is never freed twice, and never touched once it has been freed. */
  lemma NoUseAfterFree(run: seq<State>, acts: seq<Action>, k: nat)
    requires IsRun(run, acts) && k < |run|
    ensures run[k].freed <= 1
    ensures k < |acts| && Touches(run[k], acts[k]) ==> run[k].freed == 0
  {
    RunInv(run, acts, k);
    if k < |acts| {
      Counts(run[k]);
      assert Enabled(run[k], acts[k]);
    }
  }

  /** Who frees: with every request sent, the done callback; otherwise whoever took
      free_at_zero to zero, the setup or a handler. */
  lemma WhoFrees(run: seq<State>, acts: seq<Action>, k: nat)
    requires IsRun(run, acts) && k < |acts| && run[k + 1].freed > run[k].freed
    ensures run[k].setup.ReturnedOk? <==> acts[k].DoneGo?
    ensures !run[k].setup.ReturnedOk? ==> run[k].freeAtZero == 0 && !run[k].done.DoneQueued?
    ensures run[k].setup.ReturnedOk? ==> forall i :: 0 <= i < |run[k].handlers| ==> run[k].handlers[i].Finished?
  {
    RunInv(run, acts, k);
    var s := run[k];
    assert Enabled(s, acts[k]) && run[k + 1] == Step(s, acts[k]);
    Counts(s);
    SumBounds(s.handlers, IsFinished);
  }

  /** All requests were sent, and the send of the "done" event failed: its event was freed. */
  predicate DoneLost(s: State) {
    s.setup.ReturnedOk? && s.done.DoneFreed?
  }

  /**
   When nothing more can happen the buffer has been freed exactly once, unless the
   send of the "done" event failed: then it is never freed.
   */
  lemma FreedExactlyOnceIff(run: seq<State>, acts: seq<Action>, k: nat)
    requires IsRun(run, acts) && k < |run| && AtEnd(run[k])
    ensures run[k].freed == if DoneLost(run[k]) then 0 else 1
    ensures run[k].setup.ReturnedOk? || run[k].setup.ReturnedErr?
    ensures run[k].setup.ReturnedOk? ==> run[k].done.DoneFinished? || run[k].done.DoneFreed?
    ensures run[k].setup.ReturnedErr? ==> run[k].done.NotFired? || run[k].done.DoneFreed?
  {
    RunInv(run, acts, k);
    var s := run[k];
    assert !Enabled(s, SetupGo(true)) && !Enabled(s, DoneGo);
    forall i | 0 <= i < s.sent ensures s.handlers[i].Finished? {
      assert !Enabled(s, HandlerGo(i, true));
    }
    Counts(s);
    AllSentFinished(s);
  }

  lemma AllSentFinished(s: State)
    requires Shape(s) && forall i :: 0 <= i < s.sent ==> s.handlers[i].Finished?
    ensures Sum(s.handlers, IsFinished) == Sum(s.handlers, IsSubbed) == Sum(s.handlers, IsSent)
    ensures Sum(s.handlers, IsMustFree) == 0
  {
    SumSame(s.handlers, IsFinished, IsSubbed);
    SumSame(s.handlers, IsSubbed, IsSent);
    SumZeroIff(s.handlers, IsMustFree);
  }

  /** In every run, a step loses the "done" event just when the last handler's send of it fails. */
  lemma DoneLostBy(run: seq<State>, acts: seq<Action>, k: nat)
    requires IsRun(run, acts) && k < |acts| && !DoneLost(run[k])
    ensures DoneLost(run[k + 1]) <==>
              && run[k].setup.ReturnedOk? && G.IsLast(run[k].group, 1)
              && acts[k].HandlerGo? && run[k].handlers[acts[k].i].Leaving? && !acts[k].ok
  {
    RunInv(run, acts, k);
    RunInv(run, acts, k + 1);
    assert Enabled(run[k], acts[k]) && run[k + 1] == Step(run[k], acts[k]);
  }

  /** One core, every request sent, and the send of the "done" event fails: the buffer stays. */
  lemma LeakingRun() returns (run: seq<State>, acts: seq<Action>)
    ensures IsRun(run, acts) && AtEnd(run[|acts|])
    ensures run[|acts|].freed == 0 && run[|acts|].freeAtZero == 1 && DoneLost(run[|acts|])
  {
    var s0 := State(Start, 0, [Waiting], G.READY, NotFired, 2, 0);
    var s1 := s0.(setup := Sending, group := G.Apply(1));
    var s2 := s1.(setup := ReturnedOk, sent := 1, handlers := [Queued]);
    var s3 := s2.(handlers := [Running]);
    var s4 := s3.(handlers := [Leaving], freeAtZero := 1);
    var s5 := s4.(handlers := [Finished], group := G.READY, done := DoneFreed);
    run := [s0, s1, s2, s3, s4, s5];
    acts := [SetupGo(true), SetupGo(true), HandlerGo(0, true), HandlerGo(0, true), HandlerGo(0, false)];
    assert s2.handlers == s1.handlers[0 := Queued];
    assert s3.handlers == s2.handlers[0 := Running];
    assert s4.handlers == s3.handlers[0 := Leaving];
    assert s5.handlers == s4.handlers[0 := Finished];
  }

  // ----- every run ends

  /** How many steps of a handler are left. */
  function HandlerSteps(h: Handler): nat {
    match h
    case Waiting => 5
    case Queued => 4
    case Running => 3
    case MustFree => 2
    case Leaving => 1
    case Finished => 0
  }

  function SetupSteps(s: State): nat {
    match s.setup
    case Start => |s.handlers| + 4
    case Sending => if s.sent <= |s.handlers| then |s.handlers| - s.sent + 3 else 3
    case Aborting => 3
    case ErrSub => 2
    case ErrFree => 1
    case _ => 0
  }

  /** An upper bound on the steps that are left. */
  ghost function StepsLeft(s: State): nat {
    SetupSteps(s) + Sum(s.handlers, HandlerSteps) + if s.done.NotFired? then 2 else if s.done.DoneQueued? then 1 else 0
  }

  lemma SetupDescends(s: State, ok: bool)
    requires Enabled(s, SetupGo(ok)) && Shape(s) && (s.group.applied ==> s.done.NotFired?)
    ensures StepsLeft(SetupStep(s, ok)) < StepsLeft(s)
  {
    if s.setup.Sending? {
      SumUpdate(s.handlers, HandlerSteps, s.sent, Queued);
    }
  }

  lemma LeavingDescends(s: State, i: nat, ok: bool)
    requires Enabled(s, HandlerGo(i, ok)) && s.handlers[i].Leaving? && (s.group.applied ==> s.done.NotFired?)
    ensures StepsLeft(HandlerStep(s, i, ok)) < StepsLeft(s)
  {
    SumUpdate(s.handlers, HandlerSteps, i, Finished);
  }

  lemma HandlerDescends(s: State, i: nat, ok: bool)
    requires Enabled(s, HandlerGo(i, ok)) && !s.handlers[i].Leaving?
    ensures StepsLeft(HandlerStep(s, i, ok)) < StepsLeft(s)
  {
    SumUpdate(s.handlers, HandlerSteps, i, HandlerStep(s, i, ok).handlers[i]);
  }

  lemma StepDescends(s: State, a: Action)
    requires Enabled(s, a) && Inv(s)
    ensures StepsLeft(Step(s, a)) < StepsLeft(s)
  {
    match a
    case SetupGo(ok) => SetupDescends(s, ok);
    case HandlerGo(i, ok) =>
      if s.handlers[i].Leaving? {
        LeavingDescends(s, i, ok);
      } else {
        HandlerDescends(s, i, ok);
      }
    case DoneGo =>
  }

  lemma {:induction false} SumOfSame<T>(s: seq<T>, f: T -> nat, n: nat)
    requires forall i :: 0 <= i < |s| ==> f(s[i]) == n
    ensures Sum(s, f) == |s| * n
  {
    if s != [] {
      SumOfSame(s[..|s| - 1], f, n);
    }
  }

  /**
   No run goes on for ever: with n cores it has at most 6n + 6 steps. So every run comes to
   where nothing more can happen, which is where the buffer has been freed or is lost.
   */
  lemma {:induction false} RunsEnd(run: seq<State>, acts: seq<Action>, k: nat)
    requires IsRun(run, acts) && k < |run|
    ensures k + StepsLeft(run[k]) <= 6 * |run[0].handlers| + 6
  {
    if k == 0 {
      SumOfSame(run[0].handlers, HandlerSteps, 5);
    } else {
      RunsEnd(run, acts, k - 1);
      RunInv(run, acts, k - 1);
      StepDescends(run[k - 1], acts[k - 1]);
    }
  }

  predicate NothingFailed(setup: Setup) {
    setup.Start? || setup.Sending? || setup.ReturnedOk?
  }

  /** The setup is on its way to success exactly as long as each of its steps has succeeded. */
  lemma {:induction false} SucceedsIff(run: seq<State>, acts: seq<Action>, k: nat)
    requires IsRun(run, acts) && k < |run|
    ensures NothingFailed(run[k].setup) <==> forall i :: 0 <= i < k && acts[i].SetupGo? ==> acts[i].ok
    ensures AtEnd(run[k]) ==> (run[k].setup.ReturnedOk? <==> forall i :: 0 <= i < k && acts[i].SetupGo? ==> acts[i].ok)
  {
    if k > 0 {
      SucceedsIff(run, acts, k - 1);
      assert Enabled(run[k - 1], acts[k - 1]) && run[k] == Step(run[k - 1], acts[k - 1]);
    }
    RunInv(run, acts, k);
    if AtEnd(run[k]) {
      assert !Enabled(run[k], SetupGo(true));
    }
  }
}
