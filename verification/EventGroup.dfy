/**
 The event-group counter word {pre: 24, post: 24, applied: 1, gen: 15} and the
 accesses of `pre_count_decrement()`, `post_count_decrement()`,
 `em_event_group_apply()`, `_increment()`, `_assign()` and `_abort()` to it. Every access is
 one step of the protocol over separate fields.
 */
module EventGroup {
  import opened U64
  import opened EventGroupModel
  import opened EventGroupTheorems

  const TWO24: nat := 0x100_0000
  const TWO49: nat := 2 * TWO48

  ghost predicate Fits(v: Counter) {
    v.pre <= CNT_MAX && v.post <= CNT_MAX && v.gen < GEN_MOD
  }

  function Pack(v: Counter): u64
    requires Fits(v)
  {
    v.pre + v.post * TWO24 + (if v.applied then TWO48 else 0) + v.gen * TWO49
  }

  function Unpack(x: u64): (v: Counter)
    ensures Fits(v)
  {
    Counter(x % TWO24, x / TWO24 % TWO24, x / TWO48 % 2 == 1, x / TWO49)
  }

  lemma Split24(hi: nat, lo: nat)
    requires lo < TWO24
    ensures (hi * TWO24 + lo) / TWO24 == hi && (hi * TWO24 + lo) % TWO24 == lo
  {
  }

  lemma Split49(hi: nat, lo: nat)
    requires lo < TWO49
    ensures (hi * TWO49 + lo) / TWO49 == hi
  {
  }

  lemma Fields(pre: nat, post: nat, top: nat)
    requires pre < TWO24 && post < TWO24
    ensures var x := pre + post * TWO24 + top * TWO48;
            x % TWO24 == pre && x / TWO24 % TWO24 == post && x / TWO48 == top
  {
    Split24(post + top * TWO24, pre);
    Split24(top, post);
    Split48(top, pre + post * TWO24);
  }

  lemma UnpackPack(v: Counter)
    requires Fits(v)
    ensures Unpack(Pack(v)) == v
  {
    var x, top := Pack(v), (if v.applied then 1 else 0) + v.gen * 2;
    Fields(v.pre, v.post, top);
    assert x == v.pre + v.post * TWO24 + top * TWO48;
    Split49(v.gen, v.pre + v.post * TWO24 + if v.applied then TWO48 else 0);
  }

  lemma PackUnpack(x: u64)
    ensures Pack(Unpack(x)) == x
  {
    assert x / TWO24 == x / TWO48 * TWO24 + x / TWO24 % TWO24;
    assert x / TWO48 == x / TWO49 * 2 + x / TWO48 % 2;
  }

  class EventGroupElem {
    var counts: u64
    var notifTbl: seq<Notif>
    var cores: seq<Pc>
    ghost var ordered: seq<seq<Notif>>
    ghost var sent: seq<seq<Notif>>
    ghost var applies: nat
    ghost var since: seq<nat>
    ghost var budget: nat
    ghost var finished: nat

    ghost function Model(): State
      reads this
    {
      State(Unpack(counts), notifTbl, cores, ordered, sent, applies, since, budget, finished)
    }

    ghost predicate Valid()
      reads this
    {
      CoresOk(Model()) && |notifTbl| <= MAX_NOTIF && forall c :: 0 <= c < |cores| ==> SeenFits(cores[c])
    }

    ghost predicate Ready(c: nat)
      reads this
    {
      Valid() && Enabled(Model(), c, Go)
    }

    /** `em_event_group_create()`: the generation stays what it was. */
    constructor (numCores: nat, gen: nat)
      requires gen < GEN_MOD
      ensures Valid() && Init(Model()) && |cores| == numCores && Unpack(counts).gen == gen
    {
      counts := Pack(Counter(0, 0, false, gen));
      notifTbl := [];
      cores := seq(numCores, _ => Outside);
      ordered, sent, applies, budget, finished := [], [], 0, 0, 0;
      since := seq(numCores, _ => 0);
      new;
      UnpackPack(Counter(0, 0, false, gen));
      InitInv(Model());
    }

    /** `__atomic_compare_exchange_n()` on the whole word. */
    method CompareExchange(seen: Counter, desired: Counter) returns (success: bool)
      requires Fits(seen) && Fits(desired)
      modifies this`counts
      ensures success == (old(Unpack(counts)) == seen)
      ensures Unpack(counts) == if success then desired else old(Unpack(counts))
    {
      UnpackPack(seen);
      UnpackPack(desired);
      PackUnpack(counts);
      success := counts == Pack(seen);
      if success {
        counts := Pack(desired);
      }
    }

    /** `event_group_set_local()`: load and check; an expired or excess event is turned away. */
    method PreCheck(c: nat) returns (valid: bool)
      requires Ready(c) && cores[c].PreLoad?
      modifies this
      ensures Valid() && Model() == Step(old(Model()), c, Go)
      ensures var v, pc := old(Unpack(counts)), old(cores[c]);
              valid <==> v.applied && v.gen == pc.gen && pc.decr <= v.pre
    {
      StepKeepsCoresOk(Model(), c, Go);
      var decr, gen, seen := cores[c].decr, cores[c].gen, Unpack(counts);
      valid := ValidPre(seen, decr, gen);
      cores := cores[c := if valid then PreCas(decr, gen, seen) else Outside];
    }

    method PreExchange(c: nat) returns (success: bool)
      requires Ready(c) && cores[c].PreCas?
      modifies this
      ensures Valid() && Model() == Step(old(Model()), c, Go)
    {
      StepKeepsCoresOk(Model(), c, Go);
      var decr, gen, seen := cores[c].decr, cores[c].gen, cores[c].seen;
      assert CoreOk(cores[c]);
      success := CompareExchange(seen, seen.(pre := seen.pre - decr));
      if success {
        since := since[c := applies];
      }
      cores := cores[c := if success then Receiving(decr, gen) else PreLoad(decr, gen)];
    }

    /** `em_event_group_assign()`: load and check. */
    method AssignCheck(c: nat) returns (valid: bool)
      requires Ready(c) && cores[c].AssignLoad?
      modifies this
      ensures Valid() && Model() == Step(old(Model()), c, Go)
      ensures valid <==> old(Unpack(counts)).applied && old(cores[c].decr) <= old(Unpack(counts)).pre
    {
      StepKeepsCoresOk(Model(), c, Go);
      var decr, seen := cores[c].decr, Unpack(counts);
      valid := !(seen.pre < decr || !seen.applied);
      cores := cores[c := if valid then AssignCas(decr, seen) else Outside];
    }

    /** The group becomes the core's current one, with the generation that was read. */
    method AssignExchange(c: nat) returns (success: bool)
      requires Ready(c) && cores[c].AssignCas?
      modifies this
      ensures Valid() && Model() == Step(old(Model()), c, Go)
    {
      StepKeepsCoresOk(Model(), c, Go);
      var decr, seen := cores[c].decr, cores[c].seen;
      assert CoreOk(cores[c]);
      success := CompareExchange(seen, seen.(pre := seen.pre - decr));
      if success {
        since := since[c := applies];
      }
      cores := cores[c := if success then Receiving(decr, seen.gen) else AssignLoad(decr)];
    }

    method IncCheck(c: nat) returns (valid: bool)
      requires Ready(c) && cores[c].IncLoad?
      modifies this
      ensures Valid() && Model() == Step(old(Model()), c, Go)
      ensures var v, pc := old(Unpack(counts)), old(cores[c]);
              valid <==> v.applied && v.gen == pc.gen && v.pre + pc.incr <= CNT_MAX && v.post + pc.incr <= CNT_MAX
    {
      StepKeepsCoresOk(Model(), c, Go);
      var decr, gen, incr, seen := cores[c].decr, cores[c].gen, cores[c].incr, Unpack(counts);
      valid := ValidInc(seen, incr, gen);
      cores := cores[c := if valid then IncCas(decr, gen, incr, seen) else Receiving(decr, gen)];
    }

    method IncExchange(c: nat) returns (success: bool)
      requires Ready(c) && cores[c].IncCas?
      modifies this
      ensures Valid() && Model() == Step(old(Model()), c, Go)
    {
      StepKeepsCoresOk(Model(), c, Go);
      var decr, gen, incr, seen := cores[c].decr, cores[c].gen, cores[c].incr, cores[c].seen;
      assert CoreOk(cores[c]);
      success := CompareExchange(seen, seen.(pre := seen.pre + incr, post := seen.post + incr));
      if success {
        budget := budget + incr;
      }
      cores := cores[c := if success then Receiving(decr, gen) else IncLoad(decr, gen, incr)];
    }

    /** `post_count_decrement()`: load and check. */
    method PostCheck(c: nat) returns (valid: bool)
      requires Ready(c) && cores[c].PostLoad?
      modifies this
      ensures Valid() && Model() == Step(old(Model()), c, Go)
      ensures var v, pc := old(Unpack(counts)), old(cores[c]);
              valid <==> v.gen == pc.gen && pc.decr <= v.post
    {
      StepKeepsCoresOk(Model(), c, Go);
      var decr, gen, seen := cores[c].decr, cores[c].gen, Unpack(counts);
      valid := ValidPost(seen, decr, gen);
      cores := cores[c := if valid then PostCopy(decr, gen, seen) else Outside];
    }

    /** With nothing left to come, a copy of the table, which the limit never cuts. */
    method PostCopyTable(c: nat)
      requires Ready(c) && cores[c].PostCopy?
      modifies this
      ensures Valid() && Model() == Step(old(Model()), c, Go)
    {
      StepKeepsCoresOk(Model(), c, Go);
      var decr, gen, seen := cores[c].decr, cores[c].gen, cores[c].seen;
      assert CoreOk(cores[c]);
      var notifs := [];
      if seen.post - decr == 0 {
        var numNotif := if |notifTbl| <= MAX_NOTIF then |notifTbl| else MAX_NOTIF;
        notifs := notifTbl[..numNotif];
        assert notifs == notifTbl;
      }
      cores := cores[c := PostCas(decr, gen, seen, notifs)];
    }

    /** The core that takes the post-count to zero gets the notifications, nobody else does. */
    method PostExchange(c: nat) returns (success: bool, notifs: seq<Notif>)
      requires Ready(c) && cores[c].PostCas?
      modifies this
      ensures Valid() && Model() == Step(old(Model()), c, Go)
      ensures sent == old(sent) + if success && Unpack(counts).post == 0 then [notifs] else []
      ensures notifs == if success then old(cores[c].notifs) else []
    {
      ghost var next := PostCasNext(Model(), c);
      var decr, gen, seen := cores[c].decr, cores[c].gen, cores[c].seen;
      notifs := cores[c].notifs;
      var newCnt := seen.(post := seen.post - decr);
      if newCnt.post == 0 {
        newCnt := newCnt.(applied := false);
      }
      success := CompareExchange(seen, newCnt);
      if success {
        finished := finished + decr;
        sent := sent + if newCnt.post == 0 then [notifs] else [];
      } else {
        notifs := [];
      }
      cores := cores[c := if success then Outside else PostLoad(decr, gen)];
      assert Model() == next;
    }

    /** `check_notif_tbl()`; `sound` says what `check_notif()` does of each notification. */
    method CheckNotifTbl(notifs: seq<Notif>, sound: Notif -> bool) returns (ok: bool)
      ensures ok <==> |notifs| <= MAX_NOTIF && forall i :: 0 <= i < |notifs| ==> sound(notifs[i])
    {
      if |notifs| > MAX_NOTIF {
        return false;
      }
      for i := 0 to |notifs|
        invariant forall k :: 0 <= k < i ==> sound(notifs[k])
      {
        if !sound(notifs[i]) {
          return false;
        }
      }
      ok := true;
    }

    /** `em_event_group_apply()`, the argument checks; `created` says whether the group exists. */
    method Apply(c: nat, count: int, notifs: seq<Notif>, created: bool, sound: Notif -> bool) returns (ok: bool)
      requires Valid() && c < |cores| && cores[c].Outside?
      modifies this
      ensures ok <==> 1 <= count <= CNT_MAX && created
                      && |notifs| <= MAX_NOTIF && forall i :: 0 <= i < |notifs| ==> sound(notifs[i])
      ensures Valid()
      ensures Model() == if ok then Step(old(Model()), c, EventGroupModel.Apply(count, notifs)) else old(Model())
    {
      if count <= 0 || count > CNT_MAX || !created {
        return false;
      }
      ok := CheckNotifTbl(notifs, sound);
      if !ok {
        return;
      }
      StepKeepsCoresOk(Model(), c, EventGroupModel.Apply(count, notifs));
      cores := cores[c := ApplyLoad(count, notifs)];
    }

    /** `em_event_group_apply()`: load; an error if the group is in use. */
    method ApplyCheck(c: nat) returns (ok: bool)
      requires Ready(c) && cores[c].ApplyLoad?
      modifies this
      ensures Valid() && Model() == Step(old(Model()), c, Go)
      ensures ok <==> !Unpack(counts).applied
    {
      StepKeepsCoresOk(Model(), c, Go);
      var seen := Unpack(counts);
      ok := !seen.applied;
      cores := cores[c := if ok then ApplyWrite(cores[c].count, cores[c].notifs, seen) else Outside];
    }

    /** `em_event_group_apply()`: the table, before it is known whether the exchange succeeds. */
    method ApplyWriteTable(c: nat)
      requires Ready(c) && cores[c].ApplyWrite?
      modifies this
      ensures Valid() && Model() == Step(old(Model()), c, Go) && notifTbl == old(cores[c].notifs)
    {
      StepKeepsCoresOk(Model(), c, Go);
      assert CoreOk(cores[c]);
      var count, notifs, seen := cores[c].count, cores[c].notifs, cores[c].seen;
      notifTbl := notifs;
      cores := cores[c := ApplyCas(count, notifs, seen)];
    }

    /** `em_event_group_apply()`: the counts, and the next generation. */
    method ApplyExchange(c: nat) returns (success: bool)
      requires Ready(c) && cores[c].ApplyCas?
      modifies this
      ensures Valid() && Model() == Step(old(Model()), c, Go)
      ensures ordered == old(ordered) + if success then [old(cores[c].notifs)] else []
    {
      ghost var next := ApplyCasNext(Model(), c);
      var count, notifs, seen := cores[c].count, cores[c].notifs, cores[c].seen;
      success := CompareExchange(seen, Counter(count, count, true, (seen.gen + 1) % GEN_MOD));
      if success {
        ordered, applies, budget, finished := ordered + [notifs], applies + 1, count, 0;
      }
      cores := cores[c := if success then Outside else ApplyLoad(count, notifs)];
      assert Model() == next;
    }

    /** `em_event_group_abort()`: load; too late if the group is done. */
    method AbortCheck(c: nat) returns (ok: bool)
      requires Ready(c) && cores[c].AbortLoad?
      modifies this
      ensures Valid() && Model() == Step(old(Model()), c, Go)
      ensures ok <==> old(Unpack(counts)).applied
    {
      StepKeepsCoresOk(Model(), c, Go);
      var decr, gen, seen := cores[c].decr, cores[c].gen, Unpack(counts);
      ok := seen.applied;
      cores := cores[c := if ok then AbortCas(decr, gen, seen) else AfterAbort(decr, gen)];
    }

    /** `em_event_group_abort()`: the group becomes ready, and is no longer the caller's current one. */
    method AbortExchange(c: nat) returns (success: bool)
      requires Ready(c) && cores[c].AbortCas?
      modifies this
      ensures Valid() && Model() == Step(old(Model()), c, Go)
      ensures success ==> !Unpack(counts).applied && cores[c].Outside?
    {
      StepKeepsCoresOk(Model(), c, Go);
      var decr, gen, seen := cores[c].decr, cores[c].gen, cores[c].seen;
      success := CompareExchange(seen, seen.(pre := 0, post := 0, applied := false));
      if success {
        ordered := if ordered == [] then [] else ordered[..|ordered| - 1];
        budget := finished;
      }
      cores := cores[c := if success then Outside else AbortLoad(decr, gen)];
    }
  }

  lemma PostCasNext(s: State, c: nat) returns (t: State)
    requires CoresOk(s) && Enabled(s, c, Go) && s.cores[c].PostCas?
    ensures var pc := s.cores[c];
            && t == Step(s, c, Go) == PostCasStep(s, c, pc.decr, pc.gen, pc.seen, pc.notifs) && CoresOk(t)
            && pc.decr <= pc.seen.post
  {
    t := Step(s, c, Go);
    assert CoreOk(s.cores[c]);
    StepKeepsCoresOk(s, c, Go);
  }

  lemma ApplyCasNext(s: State, c: nat) returns (t: State)
    requires CoresOk(s) && Enabled(s, c, Go) && s.cores[c].ApplyCas?
    ensures var pc := s.cores[c];
            t == Step(s, c, Go) == ApplyCasStep(s, c, pc.count, pc.notifs, pc.seen) && CoresOk(t) && pc.count <= CNT_MAX
  {
    t := Step(s, c, Go);
    assert CoreOk(s.cores[c]);
    StepKeepsCoresOk(s, c, Go);
  }

  ghost predicate SeenFits(pc: Pc) {
    IsCas(pc) || pc.PostCopy? || pc.ApplyWrite? ==> Fits(pc.seen)
  }
}
