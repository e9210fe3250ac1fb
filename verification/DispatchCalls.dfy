/**
 The calls around the EO receive functions: what each one announces, what the callbacks
 make of its events, and what it takes off its event group.
 */
module DispatchCalls {
  import opened DispatchPlan

  /** What is given to an enter-callback, and in the end to the EO. */
  datatype View = View(events: seq<Event>, context: Context)

  /**
   An enter-callback may change contexts, and replace events, by EVENT_UNDEF to drop
   them. It may answer differently each time: it is told how many calls there were.
   */
  datatype EnterCb = EnterCb(edit: (nat, View, nat) -> Event, recontext: (nat, View) -> Context)

  function Edited(cb: EnterCb, time: nat, v: View): (w: View)
    ensures |w.events| == |v.events|
  {
    View(seq<Event>(|v.events|, i requires 0 <= i < |v.events| => cb.edit(time, v, i)), cb.recontext(time, v))
  }

  /** The defined ones of the first k events. */
  function PackedTo(s: seq<Event>, k: nat): (r: seq<Event>)
    requires k <= |s|
    ensures |r| <= k
  {
    if k == 0 then []
    else
      var front := PackedTo(s, k - 1);
      if s[k - 1] == EVENT_UNDEF then front else front + [s[k - 1]]
  }

  function Packed(s: seq<Event>): (r: seq<Event>)
    ensures |r| <= |s|
  {
    PackedTo(s, |s|)
  }

  /** All enter-callbacks, in order, until no event is left. */
  function Entered(cbs: seq<EnterCb>, time: nat, v: View): View {
    if cbs == [] || v.events == [] then v
    else
      var w := Edited(cbs[0], time, v);
      Entered(cbs[1..], time, View(Packed(w.events), w.context))
  }

  /** Packing keeps exactly the events that are defined. */
  lemma PackedKeeps(s: seq<Event>)
    ensures EVENT_UNDEF !in Packed(s)
    ensures forall e :: e != EVENT_UNDEF ==> multiset(Packed(s))[e] == multiset(s)[e]
    ensures EVENT_UNDEF !in s ==> Packed(s) == s
  {
    PackedToDefined(s, |s|);
    assert s[..|s|] == s;
    forall e | e != EVENT_UNDEF ensures multiset(Packed(s))[e] == multiset(s)[e] {
      PackedToCount(s, |s|, e);
    }
  }

  lemma {:induction false} PackedToDefined(s: seq<Event>, k: nat)
    requires k <= |s|
    ensures EVENT_UNDEF !in PackedTo(s, k)
    ensures EVENT_UNDEF !in s ==> PackedTo(s, k) == s[..k]
  {
    if k > 0 {
      PackedToDefined(s, k - 1);
      assert s[..k] == s[..k - 1] + [s[k - 1]];
    }
  }

  lemma CountLast(s: seq<Event>, x: Event, e: Event)
    ensures multiset(s + [x])[e] == multiset(s)[e] + if x == e then 1 else 0
  {
  }

  lemma {:induction false} PackedToCount(s: seq<Event>, k: nat, e: Event)
    requires k <= |s| && e != EVENT_UNDEF
    ensures multiset(PackedTo(s, k))[e] == multiset(s[..k])[e]
  {
    if k > 0 {
      PackedToCount(s, k - 1, e);
      assert s[..k] == s[..k - 1] + [s[k - 1]];
      CountLast(s[..k - 1], s[k - 1], e);
      CountLast(PackedTo(s, k - 1), s[k - 1], e);
    }
  }

  /** Where the packed events come from. */
  ghost function Places(s: seq<Event>, k: nat): (r: seq<nat>)
    requires k <= |s|
    ensures |r| == |PackedTo(s, k)|
  {
    if k == 0 then []
    else
      var front := Places(s, k - 1);
      if s[k - 1] == EVENT_UNDEF then front else front + [k - 1]
  }

  /** Packing keeps the order: the places are increasing, and are all the places of defined events. */
  lemma PackedInOrder(s: seq<Event>, k: nat)
    requires k <= |s|
    ensures forall i, j :: 0 <= i < j < |Places(s, k)| ==> Places(s, k)[i] < Places(s, k)[j]
    ensures forall i :: 0 <= i < |Places(s, k)| ==> Places(s, k)[i] < k && PackedTo(s, k)[i] == s[Places(s, k)[i]]
    ensures forall i :: 0 <= i < k && s[i] != EVENT_UNDEF ==> i in Places(s, k)
  {
    PlacesIncrease(s, k);
    PlacesAreAll(s, k);
  }

  lemma {:induction false} PlacesIncrease(s: seq<Event>, k: nat)
    requires k <= |s|
    ensures forall i, j :: 0 <= i < j < |Places(s, k)| ==> Places(s, k)[i] < Places(s, k)[j]
    ensures forall i :: 0 <= i < |Places(s, k)| ==> Places(s, k)[i] < k && PackedTo(s, k)[i] == s[Places(s, k)[i]]
  {
    if k > 0 {
      PlacesIncrease(s, k - 1);
    }
  }

  lemma {:induction false} PlacesAreAll(s: seq<Event>, k: nat)
    requires k <= |s|
    ensures forall i :: 0 <= i < k && s[i] != EVENT_UNDEF ==> i in Places(s, k)
  {
    if k > 0 {
      PlacesAreAll(s, k - 1);
    }
  }

  /** The EO never sees an undefined event. */
  lemma {:induction false} EnteredIsDefined(cbs: seq<EnterCb>, time: nat, v: View)
    requires EVENT_UNDEF !in v.events
    ensures EVENT_UNDEF !in Entered(cbs, time, v).events
    ensures |Entered(cbs, time, v).events| <= |v.events|
  {
    if cbs == [] || v.events == [] {
    } else {
      var w := Edited(cbs[0], time, v);
      PackedKeeps(w.events);
      EnteredIsDefined(cbs[1..], time, View(Packed(w.events), w.context));
    }
  }

  /**
   What one call sequence around a receive function does: `announced` events are
   told and taken off the group's pre-count, and after the receive `takenOff` off its
   post-count; the EO receives `received`, or is not called when that has no events.
   */
  datatype Call = Call(announced: nat, takenOff: nat, egrp: nat, egrpGen: nat, received: View, burst: int, exitCbs: nat)

  function Events(t: seq<Item>): (r: seq<Event>)
    ensures |r| == |t| && forall i :: 0 <= i < |t| ==> r[i] == t[i].event
  {
    seq(|t|, i requires 0 <= i < |t| => t[i].event)
  }

  /** The call for step s, after `time` other calls. */
  function CallOf(t: seq<Item>, qs: Queues, cbs: seq<EnterCb>, exitCbs: nat, time: nat, s: Step): Call
    requires s.len >= 1 && s.at + s.len <= |t|
  {
    var first := t[s.at];
    Call(s.len, s.len, first.egrp, first.egrpGen,
         Entered(cbs, time, View(Events(t[s.at..s.at + s.len]), qs(first.qidx).context)), s.burst, exitCbs)
  }

  /** The calls after `log` are those of the steps at the same places. */
  ghost predicate Agree(t: seq<Item>, qs: Queues, cbs: seq<EnterCb>, exitCbs: nat, log: seq<Call>, calls: seq<Call>, steps: seq<Step>)
  {
    && |steps| == |calls| && log <= calls
    && (forall i :: |log| <= i < |calls| ==> IsCallOf(t, qs, cbs, exitCbs, i, calls[i], steps[i]))
  }

  ghost predicate IsCallOf(t: seq<Item>, qs: Queues, cbs: seq<EnterCb>, exitCbs: nat, time: nat, c: Call, s: Step) {
    s.len >= 1 && s.at + s.len <= |t| && c == CallOf(t, qs, cbs, exitCbs, time, s)
  }

  lemma OneMore(t: seq<Item>, qs: Queues, cbs: seq<EnterCb>, exitCbs: nat, log: seq<Call>, calls: seq<Call>, steps: seq<Step>,
                c: Call, s: Step)
    requires Agree(t, qs, cbs, exitCbs, log, calls, steps) && IsCallOf(t, qs, cbs, exitCbs, |calls|, c, s)
    ensures Agree(t, qs, cbs, exitCbs, log, calls + [c], steps + [s])
  {
  }

  /** What the EO receives over all the calls of a plan, with no callbacks registered. */
  ghost function AllReceived(t: seq<Item>, qs: Queues, time: nat, p: seq<Step>): seq<Event>
    requires InRange(p, |t|)
    decreases |p|
  {
    if p == [] then []
    else CallOf(t, qs, [], 0, time, p[0]).received.events + AllReceived(t, qs, time + 1, p[1..])
  }

  lemma {:induction false} TilesReceived(t: seq<Item>, qs: Queues, time: nat, p: seq<Step>, lo: nat, hi: nat)
    requires Tiles(p, lo, hi) && lo <= hi <= |t| && InRange(p, hi)
    ensures AllReceived(t, qs, time, p) == Events(t[lo..hi])
    decreases |p|
  {
    if p == [] {
    } else {
      TilesDeliver(t, p[1..], lo + p[0].len, hi);
      TilesReceived(t, qs, time + 1, p[1..], lo + p[0].len, hi);
      assert Events(t[lo..lo + p[0].len]) + Events(t[lo + p[0].len..hi]) == Events(t[lo..hi]);
    }
  }

  /** With no callbacks registered the EO receives the whole burst, in order. */
  lemma NoCallbacksAllReceived(t: seq<Item>, qs: Queues, time: nat)
    ensures AllReceived(t, qs, time, Whole(t, qs, 0, |t|, |t|)) == Events(t)
  {
    BurstDelivered(t, qs);
    TilesReceived(t, qs, time, Whole(t, qs, 0, |t|, |t|), 0, |t|);
    assert t[0..|t|] == t;
  }

  // ----- what the callbacks do

  /** One callback after the other, each on what the one before has left of the events. */
  ghost predicate InTurn(cbs: seq<EnterCb>, time: nat, vs: seq<View>) {
    |vs| == |cbs| + 1 && forall i :: 0 <= i < |cbs| ==> TurnOf(cbs[i], time, vs[i], vs[i + 1])
  }

  /** With events left the callback edits each of them, and the undefined ones are dropped; without, it is not called. */
  ghost predicate TurnOf(cb: EnterCb, time: nat, v: View, w: View) {
    if v.events == [] then w == v
    else
      && w.context == cb.recontext(time, v) && EVENT_UNDEF !in w.events
      && exists edited: seq<Event> {:trigger multiset(edited)} ::
           && |edited| == |v.events| && (forall k :: 0 <= k < |v.events| ==> edited[k] == cb.edit(time, v, k))
           && IsWithoutUndef(w.events, edited)
  }

  /** The defined events at their places in s, in order. */
  ghost predicate IsWithoutUndef(packed: seq<Event>, s: seq<Event>) {
    exists places: seq<nat> ::
      && |places| == |packed|
      && (forall i, j :: 0 <= i < j < |places| ==> places[i] < places[j])
      && (forall i :: 0 <= i < |places| ==> places[i] < |s| && packed[i] == s[places[i]] != EVENT_UNDEF)
      && (forall k :: 0 <= k < |s| && s[k] != EVENT_UNDEF ==> k in places)
  }

  lemma PackedIs(s: seq<Event>)
    ensures IsWithoutUndef(Packed(s), s)
  {
    PackedInOrder(s, |s|);
    PackedKeeps(s);
    var places := Places(s, |s|);
    assert forall i :: 0 <= i < |places| ==> Packed(s)[i] in Packed(s);
  }

  /** What the EO receives is what is left after every registered callback, in their order. */
  lemma {:induction false} EnteredInTurn(cbs: seq<EnterCb>, time: nat, v: View) returns (vs: seq<View>)
    ensures InTurn(cbs, time, vs) && vs[0] == v && vs[|cbs|] == Entered(cbs, time, v)
    decreases |cbs|
  {
    if cbs == [] {
      vs := [v];
    } else {
      var w := v;
      if v.events != [] {
        var edited := Edited(cbs[0], time, v);
        w := View(Packed(edited.events), edited.context);
        PackedIs(edited.events);
        PackedKeeps(edited.events);
        assert multiset(edited.events) == multiset(edited.events);
      }
      var rest := EnteredInTurn(cbs[1..], time, w);
      vs := [v] + rest;
      assert TurnOf(cbs[0], time, v, w);
      forall i | 0 <= i < |cbs| ensures TurnOf(cbs[i], time, vs[i], vs[i + 1]) {
        if i > 0 {
          assert TurnOf(cbs[1..][i - 1], time, rest[i - 1], rest[i]);
        }
      }
    }
  }

  // ----- what the calls take off the event groups

  /** How many events of this group and generation there are in [lo, hi). */
  function ItemsOf(t: seq<Item>, egrp: nat, gen: nat, lo: nat, hi: nat): nat
    requires lo <= hi <= |t|
    decreases hi - lo
  {
    if lo == hi then 0 else (if t[lo].egrp == egrp && t[lo].egrpGen == gen then 1 else 0) + ItemsOf(t, egrp, gen, lo + 1, hi)
  }

  /** What these calls take off the group's counts, before and after their receives. */
  function AnnouncedOf(calls: seq<Call>, egrp: nat, gen: nat): nat {
    if calls == [] then 0
    else (if calls[0].egrp == egrp && calls[0].egrpGen == gen then calls[0].announced else 0)
         + AnnouncedOf(calls[1..], egrp, gen)
  }

  function TakenOffOf(calls: seq<Call>, egrp: nat, gen: nat): nat {
    if calls == [] then 0
    else (if calls[0].egrp == egrp && calls[0].egrpGen == gen then calls[0].takenOff else 0)
         + TakenOffOf(calls[1..], egrp, gen)
  }

  /** The call names the group and the generation of each of its events, and counts all of them. */
  ghost predicate NamesItsEvents(t: seq<Item>, c: Call, at: nat, len: nat) {
    && 1 <= len && at + len <= |t| && c.announced == len && c.takenOff == len
    && (forall k :: at <= k < at + len ==> c.egrp == t[k].egrp)
    && (c.egrp != EVENT_GROUP_UNDEF ==> forall k :: at <= k < at + len ==> c.egrpGen == t[k].egrpGen)
  }

  /** The call is for events of one queue, with all callbacks: the EO is given what these leave. */
  ghost predicate RunsCallbacks(t: seq<Item>, qs: Queues, cbs: seq<EnterCb>, exitCbs: nat, time: nat, c: Call, at: nat, len: nat)
    requires 1 <= len && at + len <= |t|
  {
    && c.exitCbs == exitCbs && (forall k :: at <= k < at + len ==> t[k].qidx == t[at].qidx)
    && exists vs: seq<View> :: InTurn(cbs, time, vs) && vs[|cbs|] == c.received
         && vs[0].context == qs(t[at].qidx).context && |vs[0].events| == len
         && forall k :: 0 <= k < len ==> vs[0].events[k] == t[at + k].event
  }

  ghost predicate Says(t: seq<Item>, qs: Queues, cbs: seq<EnterCb>, exitCbs: nat, time: nat, c: Call, at: nat, len: nat) {
    NamesItsEvents(t, c, at, len) && RunsCallbacks(t, qs, cbs, exitCbs, time, c, at, len)
  }

  lemma CallSays(t: seq<Item>, qs: Queues, cbs: seq<EnterCb>, exitCbs: nat, time: nat, c: Call, s: Step)
    requires IsCallOf(t, qs, cbs, exitCbs, time, c, s)
    requires forall k :: s.at < k < s.at + s.len ==> Together(t[s.at], t[k])
    ensures Says(t, qs, cbs, exitCbs, time, c, s.at, s.len)
    ensures c.burst == s.burst
  {
    var vs := EnteredInTurn(cbs, time, View(Events(t[s.at..s.at + s.len]), qs(t[s.at].qidx).context));
  }

  lemma {:induction false} ItemsSplit(t: seq<Item>, egrp: nat, gen: nat, lo: nat, m: nat, hi: nat)
    requires lo <= m <= hi <= |t|
    ensures ItemsOf(t, egrp, gen, lo, hi) == ItemsOf(t, egrp, gen, lo, m) + ItemsOf(t, egrp, gen, m, hi)
    decreases m - lo
  {
    if lo < m {
      ItemsSplit(t, egrp, gen, lo + 1, m, hi);
    }
  }

  lemma {:induction false} ItemsOfBatch(t: seq<Item>, c: Call, egrp: nat, gen: nat, lo: nat, hi: nat)
    requires lo <= hi <= |t| && egrp != EVENT_GROUP_UNDEF
    requires forall k :: lo <= k < hi ==> c.egrp == t[k].egrp
    requires c.egrp != EVENT_GROUP_UNDEF ==> forall k :: lo <= k < hi ==> c.egrpGen == t[k].egrpGen
    ensures ItemsOf(t, egrp, gen, lo, hi) == if c.egrp == egrp && c.egrpGen == gen then hi - lo else 0
    decreases hi - lo
  {
    if lo < hi {
      ItemsOfBatch(t, c, egrp, gen, lo + 1, hi);
    }
  }

  lemma {:induction false} AccountsAddUp(t: seq<Item>, calls: seq<Call>, p: seq<Step>, egrp: nat, gen: nat, lo: nat, hi: nat)
    requires Tiles(p, lo, hi) && hi <= |t| && |calls| == |p| && egrp != EVENT_GROUP_UNDEF
    requires forall i :: 0 <= i < |p| ==> NamesItsEvents(t, calls[i], p[i].at, p[i].len)
    ensures lo <= hi && TakenOffOf(calls, egrp, gen) == AnnouncedOf(calls, egrp, gen) == ItemsOf(t, egrp, gen, lo, hi)
    decreases |p|
  {
    if p != [] {
      var m := lo + p[0].len;
      assert NamesItsEvents(t, calls[0], p[0].at, p[0].len);
      forall i | 0 <= i < |p| - 1 ensures NamesItsEvents(t, calls[1..][i], p[1..][i].at, p[1..][i].len) {
        assert NamesItsEvents(t, calls[i + 1], p[i + 1].at, p[i + 1].len);
      }
      AccountsAddUp(t, calls[1..], p[1..], egrp, gen, m, hi);
      ItemsSplit(t, egrp, gen, lo, m, hi);
      ItemsOfBatch(t, calls[0], egrp, gen, lo, m);
    }
  }

  /** The calls start at these places of the table, one where the one before ends. */
  ghost predicate EndToEnd(calls: seq<Call>, ats: seq<nat>, hi: nat) {
    && |ats| == |calls| + 1 && ats[0] == 0 && ats[|calls|] == hi
    && forall i :: 0 <= i < |calls| ==> ats[i + 1] == ats[i] + calls[i].announced
  }

  /** Each of the calls is for the next events of the table, names their group, and runs the callbacks. */
  ghost predicate CallsInOrder(t: seq<Item>, qs: Queues, cbs: seq<EnterCb>, exitCbs: nat, time: nat, calls: seq<Call>) {
    exists ats: seq<nat> ::
      && EndToEnd(calls, ats, |t|)
      && forall i :: 0 <= i < |calls| ==> Says(t, qs, cbs, exitCbs, time + i, calls[i], ats[i], calls[i].announced)
  }

  lemma {:induction false} TilesAt(p: seq<Step>, lo: nat, hi: nat, i: nat)
    requires Tiles(p, lo, hi) && i < |p|
    ensures p[0].at == lo && p[i].at + p[i].len == if i + 1 < |p| then p[i + 1].at else hi
  {
    if i > 0 {
      TilesAt(p[1..], lo + p[0].len, hi, i - 1);
    }
  }

  lemma EndsMeet(calls: seq<Call>, p: seq<Step>, hi: nat) returns (ats: seq<nat>)
    requires Tiles(p, 0, hi) && |calls| == |p| && forall i :: 0 <= i < |p| ==> calls[i].announced == p[i].len
    ensures EndToEnd(calls, ats, hi) && forall i :: 0 <= i < |p| ==> ats[i] == p[i].at
  {
    ats := seq(|p| + 1, i requires 0 <= i <= |p| => if i < |p| then p[i].at else hi);
    assert ats[0] == 0;
    forall i | 0 <= i < |calls| ensures ats[i + 1] == ats[i] + calls[i].announced {
      TilesAt(p, 0, hi, i);
    }
  }

  /** The calls made for a whole table, with any callbacks: in order, and for every group and generation
      they announce and take off exactly as many events as the table has of it. */
  ghost predicate Accounted(t: seq<Item>, qs: Queues, cbs: seq<EnterCb>, exitCbs: nat, time: nat, calls: seq<Call>) {
    && CallsInOrder(t, qs, cbs, exitCbs, time, calls)
    && forall egrp, gen :: egrp != EVENT_GROUP_UNDEF ==>
         TakenOffOf(calls, egrp, gen) == AnnouncedOf(calls, egrp, gen) == ItemsOf(t, egrp, gen, 0, |t|)
  }

  lemma PlannedCallsSay(t: seq<Item>, qs: Queues, cbs: seq<EnterCb>, exitCbs: nat, log: seq<Call>,
                        calls: seq<Call>, steps: seq<Step>, i: nat)
    requires Agree(t, qs, cbs, exitCbs, log, calls, steps) && steps[|log|..] == Whole(t, qs, 0, |t|, |t|)
    requires |log| + i < |calls|
    ensures var c, s := calls[|log|..][i], steps[|log|..][i];
            Says(t, qs, cbs, exitCbs, |log| + i, c, s.at, s.len) && c.announced == s.len
  {
    var s := steps[|log|..][i];
    assert s in Whole(t, qs, 0, |t|, |t|);
    BurstFits(t, qs, s);
    assert IsCallOf(t, qs, cbs, exitCbs, |log| + i, calls[|log| + i], steps[|log| + i]);
    CallSays(t, qs, cbs, exitCbs, |log| + i, calls[|log| + i], s);
  }

  lemma PlannedCallsAccounted(t: seq<Item>, qs: Queues, cbs: seq<EnterCb>, exitCbs: nat, log: seq<Call>,
                              calls: seq<Call>, steps: seq<Step>)
    requires Agree(t, qs, cbs, exitCbs, log, calls, steps) && steps[|log|..] == Whole(t, qs, 0, |t|, |t|)
    ensures Accounted(t, qs, cbs, exitCbs, |log|, calls[|log|..])
  {
    var p, made := steps[|log|..], calls[|log|..];
    PlanTiles(t, qs, 0, 0, 1, |t|, |t|);
    forall i | 0 <= i < |p|
      ensures Says(t, qs, cbs, exitCbs, |log| + i, made[i], p[i].at, p[i].len) && made[i].announced == p[i].len
    {
      PlannedCallsSay(t, qs, cbs, exitCbs, log, calls, steps, i);
    }
    var ats := EndsMeet(made, p, |t|);
    forall egrp, gen | egrp != EVENT_GROUP_UNDEF
      ensures TakenOffOf(made, egrp, gen) == AnnouncedOf(made, egrp, gen) == ItemsOf(t, egrp, gen, 0, |t|)
    {
      AccountsAddUp(t, made, p, egrp, gen, 0, |t|);
    }
  }
}
