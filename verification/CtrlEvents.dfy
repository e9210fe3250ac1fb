/** `send_core_ctrl_events()`: one control event to each thread of a mask, or a clean retreat. */
module CtrlEvents {
  import opened Seqs
  import opened Wrappers

  type Event = nat
  type Thread = nat

  const EVENT_GROUP_MAX_NOTIF: nat := 6

  /** What the environment answers: is the "done" event group set up, what does
      each em_alloc() return, does each send succeed. */
  datatype Answers = Answers(groupOk: bool, allocs: seq<Option<Event>>, sends: seq<bool>)

  /** Nothing fails. */
  ghost predicate AllSucceed(numNotif: nat, env: Answers) {
    && numNotif <= EVENT_GROUP_MAX_NOTIF && env.groupOk
    && (forall i :: 0 <= i < |env.allocs| ==> env.allocs[i].Some?)
    && (forall i :: 0 <= i < |env.sends| ==> env.sends[i])
  }

  function Events(sent: seq<(Event, Thread)>): seq<Event> {
    seq(|sent|, i requires 0 <= i < |sent| => sent[i].0)
  }

  /** The copies from place i on, one after the other. */
  method FreeUnsent(copies: seq<Event>, i: nat) returns (freed: seq<Event>)
    requires i <= |copies|
    ensures freed == copies[i..]
  {
    freed := [];
    for k := i to |copies|
      invariant freed == copies[i..k]
    {
      freed := freed + [copies[k]];
    }
  }

  /**
   The mask is not empty. Every event that was allocated is sent or freed, once;
   the caller's event is the last one sent, or is left to the caller. `sent` is
   what went where, in order.
   */
  method SendCoreCtrlEvents(mask: seq<Thread>, ctrlEvent: Event, numNotif: nat, env: Answers)
    returns (unsent: nat, sent: seq<(Event, Thread)>, freed: seq<Event>, copies: seq<Event>, aborted: bool)
    requires |mask| >= 1 && Distinct(mask)
    requires |env.allocs| == |mask| - 1 && |env.sends| == |mask|
    ensures |sent| <= |mask| && unsent == |mask| - |sent|
    ensures unsent == 0 <==> AllSucceed(numNotif, env)
    ensures forall i :: 0 <= i < |sent| ==> env.sends[i]
    ensures numNotif > EVENT_GROUP_MAX_NOTIF || !env.groupOk ==> sent == [] && copies == []
    ensures numNotif <= EVENT_GROUP_MAX_NOTIF && env.groupOk ==>
      if |copies| < |env.allocs| then sent == [] && env.allocs[|copies|].None?
      else unsent > 0 ==> !env.sends[|sent|]
    ensures forall i :: 0 <= i < |sent| ==> sent[i].1 == mask[i]
    ensures |copies| <= |mask| - 1 && forall i :: 0 <= i < |copies| ==> env.allocs[i] == Some(copies[i])
    ensures unsent == 0 ==> |copies| == |mask| - 1 && Events(sent) == copies + [ctrlEvent] && freed == []
    ensures unsent > 0 ==> |sent| <= |copies| && Events(sent) == copies[..|sent|] && freed == copies[|sent|..]
    ensures multiset(Events(sent)) + multiset(freed) + (if unsent > 0 then multiset{ctrlEvent} else multiset{})
            == multiset(copies) + multiset{ctrlEvent}
    ensures aborted <==> unsent > 0 && env.groupOk && numNotif <= EVENT_GROUP_MAX_NOTIF
  {
    unsent, sent, freed, copies, aborted := |mask|, [], [], [], false;
    if numNotif > EVENT_GROUP_MAX_NOTIF || !env.groupOk {
      assert Events(sent) == [];
      return;
    }
    while |copies| < |mask| - 1
      invariant |copies| <= |mask| - 1
      invariant forall i :: 0 <= i < |copies| ==> env.allocs[i] == Some(copies[i])
    {
      var answer := env.allocs[|copies|];
      if answer.None? {
        freed, aborted := copies, true;
        assert Events(sent) == [];
        return;
      }
      copies := copies + [answer.value];
    }
    var events := copies + [ctrlEvent];
    while |sent| < |mask|
      invariant |sent| <= |mask| && unsent == |mask| - |sent|
      invariant forall i :: 0 <= i < |sent| ==> sent[i] == (events[i], mask[i]) && env.sends[i]
    {
      if !env.sends[|sent|] {
        freed := FreeUnsent(copies, |sent|);
        aborted := true;
        assert Events(sent) == copies[..|sent|];
        assert Events(sent) + freed == copies;
        return;
      }
      sent := sent + [(events[|sent|], mask[|sent|])];
      unsent := unsent - 1;
    }
    assert Events(sent) == events;
  }
}
