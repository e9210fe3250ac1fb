/**
 What the packed event-state updates mean: three separate counters, of which
 the checks accept exactly the legal moves.
 */
module EventStateCounters {
  import opened U64
  import opened EventState

  /** Event generation, references in total, references owned by EM. */
  datatype Counters = Counters(evgen: int, refs: int, sends: int)

  /** The state between operations: EM owns some of at most 2^15 - 1 references. */
  ghost predicate Legal(c: Counters) {
    EVGEN_INIT <= c.evgen < EVGEN_MAX && 0 <= c.sends <= c.refs < 0x8000
  }

  function ToCnt(c: Counters): Cnt
    requires Legal(c)
  {
    Cnt(c.evgen, 0, REF_CNT_INIT - c.refs, SEND_CNT_INIT + c.sends)
  }

  /** The word holds exactly these counters, with nothing in the reserved field. */
  ghost predicate Holds(w: u64, c: Counters) {
    Legal(c) && w == Pack(ToCnt(c))
  }

  lemma HoldsIff(w: u64, c: Counters)
    ensures Holds(w, c) <==> Legal(c) && Unpack(w) == ToCnt(c)
  {
    PackUnpack(w);
    if Legal(c) {
      UnpackPack(ToCnt(c));
    }
  }

  function NextGen(evgen: int): int {
    if evgen + 1 == EVGEN_MAX then EVGEN_INIT else evgen + 1
  }

  function PrevGen(evgen: int): int {
    if evgen == EVGEN_INIT then EVGEN_MAX - 1 else evgen - 1
  }

  // ----- 64-bit arithmetic, field by field

  /** Field-wise difference. */
  function Minus(c: Cnt, d: Cnt): Cnt
    requires d.evgen <= c.evgen && d.rsvd <= c.rsvd && d.refCnt <= c.refCnt && d.sendCnt <= c.sendCnt
  {
    Cnt(c.evgen - d.evgen, c.rsvd - d.rsvd, c.refCnt - d.refCnt, c.sendCnt - d.sendCnt)
  }

  /** Field-wise sum; the top field wraps by itself. */
  function Plus(c: Cnt, d: Cnt): Cnt
    requires CntFits(c) && CntFits(d)
  {
    var send := c.sendCnt + d.sendCnt;
    Cnt(c.evgen + d.evgen, c.rsvd + d.rsvd, c.refCnt + d.refCnt, if send < TWO16 then send else send - TWO16)
  }

  lemma PackMinus(c: Cnt, d: Cnt)
    requires CntFits(c) && CntFits(d)
    requires d.evgen <= c.evgen && d.rsvd <= c.rsvd && d.refCnt <= c.refCnt && d.sendCnt <= c.sendCnt
    ensures Sub(Pack(c), Pack(d)) == Pack(Minus(c, d))
  {
  }

  lemma PackPlus(c: Cnt, d: Cnt)
    requires CntFits(c) && CntFits(d) && CntFits(Plus(c, d))
    ensures Add(Pack(c), Pack(d)) == Pack(Plus(c, d))
  {
    var over := if c.sendCnt + d.sendCnt < TWO16 then 0 else 1;
    assert Pack(c) + Pack(d) == Pack(Plus(c, d)) + over * TWO64;
  }

  /** A 64-bit subtraction that fits each field subtracts each field and borrows from none. */
  lemma SubFields(w: u64, d: Cnt)
    requires CntFits(d)
    requires var c := Unpack(w); d.evgen <= c.evgen && d.rsvd <= c.rsvd && d.refCnt <= c.refCnt && d.sendCnt <= c.sendCnt
    ensures Unpack(Sub(w, Pack(d))) == Minus(Unpack(w), d)
  {
    PackUnpack(w);
    PackMinus(Unpack(w), d);
    UnpackPack(Minus(Unpack(w), d));
  }

  /** A 64-bit addition that fits the three lower fields adds each field and carries into none. */
  lemma AddFields(w: u64, d: Cnt)
    requires CntFits(d) && CntFits(Plus(Unpack(w), d))
    ensures Unpack(Add(w, Pack(d))) == Plus(Unpack(w), d)
  {
    PackUnpack(w);
    PackPlus(Unpack(w), d);
    UnpackPack(Plus(Unpack(w), d));
  }

  // ----- the single operations

  /** Taking a reference to the user side: allocation and em_event_ref(). */
  function Take(c: Counters): Counters { c.(refs := c.refs + 1) }

  function Send(c: Counters): Counters { c.(evgen := NextGen(c.evgen), sends := c.sends + 1) }

  function Free(c: Counters): Counters { c.(evgen := NextGen(c.evgen), refs := c.refs - 1) }

  function Dispatch(c: Counters): Counters { c.(sends := c.sends - 1) }

  /** How many references the user side owns. */
  function UserOwned(c: Counters): int { c.refs - c.sends }

  /** The handle is the one of the current generation; references share one handle. */
  predicate Current(c: Counters, event: Handle, refsUsed: bool) {
    refsUsed || event.evgen == c.evgen
  }

  /** The signed counts that the checks compare, away from the ends of the 16-bit range. */
  lemma CountsOf(w: u64, refs: int, sends: int)
    requires -0x8000 < refs < 0x8000 && Unpack(w).refCnt == REF_CNT_INIT - refs
    requires -0x8000 <= sends < 0x8000 && Unpack(w).sendCnt == SEND_CNT_INIT + sends
    ensures RefCount(w) == refs && SendCount(w) == sends
  {
  }

  lemma HeldCounts(w: u64, c: Counters)
    requires Holds(w, c)
    ensures RefCount(w) == c.refs && SendCount(w) == c.sends
  {
    HoldsIff(w, c);
    CountsOf(w, c.refs, c.sends);
  }

  /** The word left by a user-to-EM addition: the generation has moved on, and restarted if need be. */
  lemma GenMovesOn(cnt: u64, evgen: int)
    requires EVGEN_INIT <= evgen < EVGEN_MAX && Unpack(cnt).evgen == evgen + 1
    ensures var left := if Unpack(cnt).evgen == EVGEN_MAX then Sub(cnt, Pack(GEN_SPAN)) else cnt;
      Unpack(left) == Unpack(cnt).(evgen := NextGen(evgen))
  {
    if evgen + 1 == EVGEN_MAX {
      SubFields(cnt, GEN_SPAN);
    }
  }

  /** Allocation and referencing are accepted while the reference count fits its field. */
  lemma TakeSpec(w: u64, c: Counters, stored: Handle, event: Handle, refsUsed: bool)
    requires Holds(w, c)
    ensures var r := Em2usr(w, stored, event, refsUsed, ONE_REF);
      && (r.ok <==> c.refs < 0x7FFF)
      && (r.ok ==> Holds(r.cnt, Take(c)))
      && r.event == (if refsUsed then event else event.(evgen := c.evgen))
      && r.stored == (if refsUsed then stored else r.event)
  {
    HoldsIff(w, c);
    SubFields(w, ONE_REF);
    HoldsIff(Sub(w, Pack(ONE_REF)), Take(c));
  }

  /** A dispatch to the user is accepted exactly when EM owns a reference. */
  lemma DispatchSpec(w: u64, c: Counters, stored: Handle, event: Handle, refsUsed: bool)
    requires Holds(w, c)
    ensures var r := Em2usr(w, stored, event, refsUsed, ONE_SEND);
      && (r.ok <==> c.sends >= 1)
      && (r.ok ==> Holds(r.cnt, Dispatch(c)))
      && r.event == (if refsUsed then event else event.(evgen := c.evgen))
      && r.stored == (if refsUsed then stored else r.event)
  {
    HoldsIff(w, c);
    SubFields(w, ONE_SEND);
    HoldsIff(Sub(w, Pack(ONE_SEND)), Dispatch(c));
  }

  /** A send is accepted exactly when the user side owns a reference and presents the current handle. */
  lemma SendSpec(w: u64, c: Counters, event: Handle, refsUsed: bool)
    requires Holds(w, c)
    ensures var (left, ok) := Usr2em(w, event, refsUsed, GEN_AND_SEND);
      && (ok <==> UserOwned(c) >= 1 && Current(c, event, refsUsed))
      && (ok ==> Holds(left, Send(c)))
  {
    HoldsIff(w, c);
    AddFields(w, GEN_AND_SEND);
    var cnt := Add(w, Pack(GEN_AND_SEND));
    GenMovesOn(cnt, c.evgen);
    HoldsIff(Usr2em(w, event, refsUsed, GEN_AND_SEND).0, Send(c));
    if c.sends + 1 < 0x8000 {
      CountsOf(cnt, c.refs, c.sends + 1);
    }
  }

  /** A free is accepted exactly when the user side owns a reference and presents the current handle. */
  lemma FreeSpec(w: u64, c: Counters, event: Handle, refsUsed: bool)
    requires Holds(w, c)
    ensures var (left, ok) := Usr2em(w, event, refsUsed, GEN_AND_REF);
      && (ok <==> UserOwned(c) >= 1 && Current(c, event, refsUsed))
      && (ok ==> Holds(left, Free(c)))
  {
    HoldsIff(w, c);
    AddFields(w, GEN_AND_REF);
    var cnt := Add(w, Pack(GEN_AND_REF));
    GenMovesOn(cnt, c.evgen);
    HoldsIff(Usr2em(w, event, refsUsed, GEN_AND_REF).0, Free(c));
    CountsOf(cnt, c.refs - 1, c.sends);
  }

  // ----- reverts

  function UnSend(c: Counters): Counters { Counters(PrevGen(c.evgen), c.refs, c.sends - 1) }

  function UnFree(c: Counters): Counters { Counters(PrevGen(c.evgen), c.refs + 1, c.sends) }

  /** The word left by a user-to-EM revert: the generation has moved back, over the restart if need be. */
  lemma GenMovesBack(cnt: u64, evgen: int)
    requires EVGEN_INIT <= evgen < EVGEN_MAX && Unpack(cnt).evgen == evgen - 1
    ensures var left := if Unpack(cnt).evgen == EVGEN_INIT - 1 then Add(cnt, Pack(GEN_SPAN)) else cnt;
      Unpack(left) == Unpack(cnt).(evgen := PrevGen(evgen))
  {
    if evgen == EVGEN_INIT {
      AddFields(cnt, GEN_SPAN);
    }
  }

  /** A send is reverted exactly when EM owns a reference and the handle is of the generation before. */
  lemma SendRevertSpec(w: u64, c: Counters, event: Handle, refsUsed: bool)
    requires Holds(w, c)
    ensures var (left, ok) := Usr2emRevert(w, event, refsUsed, GEN_AND_SEND);
      && (ok <==> c.sends >= 1 && (refsUsed || event.evgen == PrevGen(c.evgen)))
      && (ok ==> Holds(left, UnSend(c)))
  {
    HoldsIff(w, c);
    SubFields(w, GEN_AND_SEND);
    var cnt := Sub(w, Pack(GEN_AND_SEND));
    GenMovesBack(cnt, c.evgen);
    HoldsIff(Usr2emRevert(w, event, refsUsed, GEN_AND_SEND).0, UnSend(c));
    CountsOf(Usr2emRevert(w, event, refsUsed, GEN_AND_SEND).0, c.refs, c.sends - 1);
  }

  /** A free is reverted exactly when the reference count still fits and the handle is of the generation before. */
  lemma FreeRevertSpec(w: u64, c: Counters, event: Handle, refsUsed: bool)
    requires Holds(w, c)
    ensures var (left, ok) := Usr2emRevert(w, event, refsUsed, GEN_AND_REF);
      && (ok <==> c.refs < 0x7FFF && (refsUsed || event.evgen == PrevGen(c.evgen)))
      && (ok ==> Holds(left, UnFree(c)))
  {
    HoldsIff(w, c);
    SubFields(w, GEN_AND_REF);
    var cnt := Sub(w, Pack(GEN_AND_REF));
    GenMovesBack(cnt, c.evgen);
    HoldsIff(Usr2emRevert(w, event, refsUsed, GEN_AND_REF).0, UnFree(c));
    if c.refs < 0x7FFF {
      CountsOf(Usr2emRevert(w, event, refsUsed, GEN_AND_REF).0, c.refs + 1, c.sends);
    }
  }

  /** Send, then revert: the very same word, with the same handle, also across the generation restart. */
  lemma SendRevertIsInverse(w: u64, c: Counters, event: Handle, refsUsed: bool)
    requires Holds(w, c) && Usr2em(w, event, refsUsed, GEN_AND_SEND).1
    ensures Usr2emRevert(Usr2em(w, event, refsUsed, GEN_AND_SEND).0, event, refsUsed, GEN_AND_SEND) == (w, true)
  {
    var left := Usr2em(w, event, refsUsed, GEN_AND_SEND).0;
    SendSpec(w, c, event, refsUsed);
    SendRevertSpec(left, Send(c), event, refsUsed);
  }

  /** Free, then revert: the very same word, with the same handle, also across the generation restart. */
  lemma FreeRevertIsInverse(w: u64, c: Counters, event: Handle, refsUsed: bool)
    requires Holds(w, c) && Usr2em(w, event, refsUsed, GEN_AND_REF).1
    ensures Usr2emRevert(Usr2em(w, event, refsUsed, GEN_AND_REF).0, event, refsUsed, GEN_AND_REF) == (w, true)
  {
    var left := Usr2em(w, event, refsUsed, GEN_AND_REF).0;
    FreeSpec(w, c, event, refsUsed);
    FreeRevertSpec(left, Free(c), event, refsUsed);
  }

  // ----- combined updates

  /** Initialising an external event in one store is initialising it and passing it to the user. */
  lemma EvinitExtCombines(event: Handle, refsUsed: bool)
    ensures var i := Evinit(event, INIT_CNT_EXTEV);
      EvinitExt(event) == Em2usr(i.cnt, i.stored, i.event, refsUsed, ONE_SEND)
    ensures Holds(EvinitExt(event).cnt, Counters(EVGEN_INIT, 1, 0))
  {
    UnpackPack(INIT_CNT_EXTEV);
    SubFields(Pack(INIT_CNT_EXTEV), ONE_SEND);
    HoldsIff(EvinitExt(event).cnt, Counters(EVGEN_INIT, 1, 0));
  }

  /** Allocate, send with the handle just given, dispatch: one after the other. */
  function AllocSendDispatch(w: u64, stored: Handle, event: Handle, refsUsed: bool): Outcome {
    var a := Em2usr(w, stored, event, refsUsed, ONE_REF);
    var (sent, sentOk) := Usr2em(a.cnt, a.event, refsUsed, GEN_AND_SEND);
    var d := Em2usr(sent, a.stored, a.event, refsUsed, ONE_SEND);
    d.(ok := a.ok && sentOk && d.ok)
  }

  /** The combined 64-bit addition leaves what generation + 1 and one more reference leave. */
  lemma UpdateExtFields(w: u64, c: Counters)
    requires Holds(w, c)
    ensures Unpack(Add(w, Sub(Pack(Cnt(1, 0, 0, 0)), Pack(ONE_REF)))) == Cnt(c.evgen + 1, 0, REF_CNT_INIT - c.refs - 1, SEND_CNT_INIT + c.sends)
  {
    HoldsIff(w, c);
    var sum := Cnt(c.evgen + 1, 0, REF_CNT_INIT - c.refs - 1, SEND_CNT_INIT + c.sends);
    assert w + (Pack(Cnt(1, 0, 0, 0)) + TWO64 - Pack(ONE_REF)) == Pack(sum) + TWO64;
    UnpackPack(sum);
  }

  lemma UpdateExtSpec(w: u64, c: Counters, stored: Handle, event: Handle, refsUsed: bool)
    requires Holds(w, c)
    ensures var u, after := UpdateExt(w, stored, event, refsUsed), Counters(NextGen(c.evgen), c.refs + 1, c.sends);
      && (u.ok <==> c.refs < 0x7FFF)
      && (u.ok ==> Holds(u.cnt, after))
      && u.event == (if refsUsed then event else event.(evgen := after.evgen))
      && u.stored == (if refsUsed then stored else u.event)
  {
    HoldsIff(w, c);
    UpdateExtFields(w, c);
    var cnt := Add(w, Sub(Pack(Cnt(1, 0, 0, 0)), Pack(ONE_REF)));
    GenMovesOn(cnt, c.evgen);
    var u := UpdateExt(w, stored, event, refsUsed);
    if c.refs < 0x7FFF {
      CountsOf(u.cnt, c.refs + 1, c.sends);
    }
    HoldsIff(u.cnt, Counters(NextGen(c.evgen), c.refs + 1, c.sends));
  }

  lemma AllocSendDispatchSpec(w: u64, c: Counters, stored: Handle, event: Handle, refsUsed: bool)
    requires Holds(w, c)
    ensures var q, after := AllocSendDispatch(w, stored, event, refsUsed), Counters(NextGen(c.evgen), c.refs + 1, c.sends);
      && (q.ok <==> c.refs < 0x7FFF)
      && (q.ok ==> Holds(q.cnt, after))
      && (q.ok ==> q.event == (if refsUsed then event else event.(evgen := after.evgen)))
      && (q.ok ==> q.stored == (if refsUsed then stored else q.event))
  {
    TakeSpec(w, c, stored, event, refsUsed);
    if c.refs < 0x7FFF {
      var a := Em2usr(w, stored, event, refsUsed, ONE_REF);
      SendSpec(a.cnt, Take(c), a.event, refsUsed);
      var sent := Usr2em(a.cnt, a.event, refsUsed, GEN_AND_SEND).0;
      DispatchSpec(sent, Send(Take(c)), a.stored, a.event, refsUsed);
    }
  }

  /** The combined update of an external event refines the three updates it stands for:
      same verdict, and when accepted the same counters and handles. */
  lemma UpdateExtCombines(w: u64, c: Counters, stored: Handle, event: Handle, refsUsed: bool)
    requires Holds(w, c)
    ensures var u, q := UpdateExt(w, stored, event, refsUsed), AllocSendDispatch(w, stored, event, refsUsed);
      && u.ok == q.ok
      && (u.ok ==> u == q && Holds(u.cnt, Counters(NextGen(c.evgen), c.refs + 1, c.sends)))
      && (u.ok <==> c.refs < 0x7FFF)
  {
    UpdateExtSpec(w, c, stored, event, refsUsed);
    AllocSendDispatchSpec(w, c, stored, event, refsUsed);
  }
}
