/** The event header, and the event-state operations that update it in place. */
module EventHeader {
  import opened Wrappers
  import opened U64
  import opened EventState
  import opened EventStateCounters

  datatype EventType = TypeOdp | TypePacket | TypeOther(id: nat)

  /** The flags byte. */
  datatype Flags = Flags(refsUsed: bool, tmoType: nat, vectypeSet: bool, aggrSent: bool)

  const NO_FLAGS := Flags(false, 0, false, false)

  /** The ODP kinds of events, other than the two kinds of vectors. */
  datatype OdpType = OdpPacket | OdpBuffer | OdpTimeout | OdpOther

  /** The contents of a header, and the user flag of the ODP packet it belongs to. */
  datatype Contents = Contents(
    cnt: u64, event: Handle, flags: Flags, eventType: EventType, egrp: Option<nat>, userArea: nat, userFlag: bool)

  /** Contents after a state update, the handle for the caller, and the verdict. */
  datatype Result = Result(hdr: Contents, event: Handle, ok: bool)

  function Updated(v: Contents, o: Outcome): Result {
    Result(v.(cnt := o.cnt, event := o.stored), o.event, o.ok)
  }

  function InitResult(v: Contents, event: Handle, isExtev: bool): Result {
    Updated(v, if isExtev then EvinitExt(event) else Evinit(event, INIT_CNT_ALLOC))
  }

  function UpdateResult(v: Contents, event: Handle, isExtev: bool): Result {
    Updated(v, if isExtev then UpdateExt(v.cnt, v.event, event, v.flags.refsUsed)
               else Em2usr(v.cnt, v.event, event, v.flags.refsUsed, ONE_REF))
  }

  function Em2usrResult(v: Contents, event: Handle): Result {
    if v.eventType == TypeOdp then Result(v, event, true)
    else Updated(v, Em2usr(v.cnt, v.event, event, v.flags.refsUsed, ONE_SEND))
  }

  class EventHdr {
    var stateCnt: u64
    var event: Handle
    var flags: Flags
    var eventType: EventType
    var egrp: Option<nat>
    var userArea: nat
    var userFlag: bool
    const odpType: OdpType
    const inEmPool: bool // the event's ODP pool is a subpool of an EM pool

    ghost function Val(): Contents
      reads this
    {
      Contents(stateCnt, event, flags, eventType, egrp, userArea, userFlag)
    }

    constructor (odpType: OdpType, inEmPool: bool)
      ensures this.odpType == odpType && this.inEmPool == inEmPool
    {
      stateCnt, event, flags, eventType, egrp, userArea, userFlag := 0, Handle(0, 0), NO_FLAGS, TypeOdp, None, 0, false;
      this.odpType, this.inEmPool := odpType, inEmPool;
    }

    // ----- the three kinds of update

    method EsvEvinit(ev: Handle, init: Cnt) returns (hdl: Handle)
      requires CntFits(init)
      modifies this
      ensures Result(Val(), hdl, true) == Updated(old(Val()), Evinit(ev, init))
    {
      hdl := ev.(evgen := EVGEN_INIT);
      event := hdl;
      stateCnt := Pack(init);
    }

    method EsvEvinitExt(ev: Handle) returns (hdl: Handle)
      modifies this
      ensures Result(Val(), hdl, true) == Updated(old(Val()), EvinitExt(ev))
    {
      var cnt := Sub(Pack(INIT_CNT_EXTEV), Pack(ONE_SEND));
      hdl := ev.(evgen := Unpack(cnt).evgen);
      event := hdl;
      stateCnt := cnt;
    }

    method EsvEm2usr(ev: Handle, sub: Cnt) returns (hdl: Handle, ok: bool)
      requires CntFits(sub)
      modifies this
      ensures Result(Val(), hdl, ok) == Updated(old(Val()), Em2usr(old(stateCnt), old(event), ev, flags.refsUsed, sub))
    {
      hdl := ev;
      stateCnt := Sub(stateCnt, Pack(sub));
      var newCnt := stateCnt;
      if !flags.refsUsed {
        hdl := hdl.(evgen := Unpack(newCnt).evgen);
        event := hdl;
      }
      ok := Em2usrOk(newCnt);
    }

    /** The new count's generation is put one back for the comparison only, not in the header. */
    method EsvUsr2em(ev: Handle, add: Cnt) returns (ok: bool)
      requires CntFits(add)
      modifies this
      ensures (stateCnt, ok) == Usr2em(old(stateCnt), ev, flags.refsUsed, add)
      ensures Val() == old(Val()).(cnt := stateCnt)
    {
      stateCnt := Add(stateCnt, Pack(add));
      var newCnt := stateCnt;
      if Unpack(newCnt).evgen == EVGEN_MAX {
        stateCnt := Sub(stateCnt, Pack(GEN_SPAN));
      }
      ok := Usr2emOk(newCnt, (Unpack(newCnt).evgen - 1) % TWO16, ev, flags.refsUsed);
    }

    method EsvUsr2emRevert(ev: Handle, sub: Cnt) returns (ok: bool)
      requires CntFits(sub)
      modifies this
      ensures (stateCnt, ok) == Usr2emRevert(old(stateCnt), ev, flags.refsUsed, sub)
      ensures Val() == old(Val()).(cnt := stateCnt)
    {
      stateCnt := Sub(stateCnt, Pack(sub));
      var newCnt := stateCnt;
      if Unpack(newCnt).evgen == EVGEN_INIT - 1 {
        stateCnt := Add(stateCnt, Pack(GEN_SPAN));
        newCnt := stateCnt;
      }
      ok := Usr2emOk(newCnt, Unpack(newCnt).evgen, ev, flags.refsUsed);
    }

    method EsvUpdateExt(ev: Handle) returns (hdl: Handle, ok: bool)
      modifies this
      ensures Result(Val(), hdl, ok) == Updated(old(Val()), UpdateExt(old(stateCnt), old(event), ev, flags.refsUsed))
    {
      hdl := ev;
      var cmb := Sub(Pack(Cnt(1, 0, 0, 0)), Pack(ONE_REF));
      stateCnt := Add(stateCnt, cmb);
      var newCnt := stateCnt;
      if Unpack(newCnt).evgen == EVGEN_MAX {
        stateCnt := Sub(stateCnt, Pack(GEN_SPAN));
        newCnt := stateCnt;
      }
      if !flags.refsUsed {
        hdl := hdl.(evgen := Unpack(newCnt).evgen);
        event := hdl;
      }
      ok := Em2usrOk(newCnt);
    }

    // ----- the operations; c is what the counters hold before

    /** `evstate_alloc()`: a restart of the counters, or one more reference for the user. */
    method EvstateAlloc(ev: Handle, preallocPools: bool, ghost c: Counters) returns (hdl: Handle, ok: bool)
      requires preallocPools && !flags.refsUsed ==> Holds(stateCnt, c)
      modifies this
      ensures !preallocPools || flags.refsUsed ==> ok && Holds(stateCnt, Counters(EVGEN_INIT, 1, 0))
      ensures preallocPools && !flags.refsUsed ==> (ok <==> c.refs < 0x7FFF) && (ok ==> Holds(stateCnt, Take(c)))
      ensures hdl == ev.(evgen := Unpack(stateCnt).evgen) == event
      ensures Val() == old(Val()).(cnt := stateCnt, event := event)
    {
      if !preallocPools || flags.refsUsed {
        UnpackPack(INIT_CNT_ALLOC);
        hdl := EsvEvinit(ev, INIT_CNT_ALLOC);
        ok := true;
      } else {
        TakeSpec(stateCnt, c, event, ev, false);
        hdl, ok := EsvEm2usr(ev, ONE_REF);
      }
    }

    /** `evstate_ref()`: the event is marked as having references before. */
    method EvstateRef(ev: Handle, ghost c: Counters) returns (hdl: Handle, ok: bool)
      requires Holds(stateCnt, c)
      modifies this
      ensures ok <==> c.refs < 0x7FFF
      ensures ok ==> Holds(stateCnt, Take(c))
      ensures hdl == (if flags.refsUsed then ev else ev.(evgen := c.evgen))
      ensures event == (if flags.refsUsed then old(event) else hdl)
      ensures Val() == old(Val()).(cnt := stateCnt, event := event)
    {
      TakeSpec(stateCnt, c, event, ev, flags.refsUsed);
      hdl, ok := EsvEm2usr(ev, ONE_REF);
    }

    /** `evstate_free()`: a fatal error unless the user side owns a reference and the handle is current. */
    method EvstateFree(ev: Handle, ghost c: Counters) returns (ok: bool)
      requires Holds(stateCnt, c)
      modifies this
      ensures ok <==> UserOwned(c) >= 1 && Current(c, ev, flags.refsUsed)
      ensures ok ==> Holds(stateCnt, Free(c))
      ensures Val() == old(Val()).(cnt := stateCnt)
    {
      FreeSpec(stateCnt, c, ev, flags.refsUsed);
      ok := EsvUsr2em(ev, GEN_AND_REF);
    }

    method EvstateFreeRevert(ev: Handle, ghost c: Counters) returns (ok: bool)
      requires Holds(stateCnt, c)
      modifies this
      ensures ok <==> c.refs < 0x7FFF && (flags.refsUsed || ev.evgen == PrevGen(c.evgen))
      ensures ok ==> Holds(stateCnt, UnFree(c))
      ensures Val() == old(Val()).(cnt := stateCnt)
    {
      FreeRevertSpec(stateCnt, c, ev, flags.refsUsed);
      ok := EsvUsr2emRevert(ev, GEN_AND_REF);
    }

    /** `evstate_usr2em()`: a fatal error unless the user side owns a reference and the handle is current. */
    method EvstateUsr2em(ev: Handle, ghost c: Counters) returns (ok: bool)
      requires eventType != TypeOdp ==> Holds(stateCnt, c)
      modifies this
      ensures eventType == TypeOdp ==> ok && Val() == old(Val())
      ensures eventType != TypeOdp ==> (ok <==> UserOwned(c) >= 1 && Current(c, ev, flags.refsUsed))
      ensures eventType != TypeOdp && ok ==> Holds(stateCnt, Send(c))
      ensures Val() == old(Val()).(cnt := stateCnt)
    {
      if eventType == TypeOdp {
        return true;
      }
      SendSpec(stateCnt, c, ev, flags.refsUsed);
      ok := EsvUsr2em(ev, GEN_AND_SEND);
    }

    method EvstateUsr2emRevert(ev: Handle, ghost c: Counters) returns (ok: bool)
      requires eventType != TypeOdp ==> Holds(stateCnt, c)
      modifies this
      ensures eventType == TypeOdp ==> ok && Val() == old(Val())
      ensures eventType != TypeOdp ==> (ok <==> c.sends >= 1 && (flags.refsUsed || ev.evgen == PrevGen(c.evgen)))
      ensures eventType != TypeOdp && ok ==> Holds(stateCnt, UnSend(c))
      ensures Val() == old(Val()).(cnt := stateCnt)
    {
      if eventType == TypeOdp {
        return true;
      }
      SendRevertSpec(stateCnt, c, ev, flags.refsUsed);
      ok := EsvUsr2emRevert(ev, GEN_AND_SEND);
    }

    /** `evstate_em2usr()`: a fatal error unless EM owns a reference. */
    method EvstateEm2usr(ev: Handle) returns (hdl: Handle, ok: bool)
      modifies this
      ensures Result(Val(), hdl, ok) == Em2usrResult(old(Val()), ev)
      ensures forall c :: eventType != TypeOdp && Holds(old(stateCnt), c) ==>
        (ok <==> c.sends >= 1) && (ok ==> Holds(stateCnt, Dispatch(c)))
    {
      if eventType == TypeOdp {
        return ev, true;
      }
      forall c | Holds(stateCnt, c) {
        DispatchSpec(stateCnt, c, event, ev, flags.refsUsed);
      }
      hdl, ok := EsvEm2usr(ev, ONE_SEND);
    }

    /** `evstate_init()` */
    method EvstateInit(ev: Handle, isExtev: bool) returns (hdl: Handle)
      modifies this
      ensures Result(Val(), hdl, true) == InitResult(old(Val()), ev, isExtev)
    {
      if isExtev {
        hdl := EsvEvinitExt(ev);
      } else {
        hdl := EsvEvinit(ev, INIT_CNT_ALLOC);
      }
    }

    /** `evstate_update()` */
    method EvstateUpdate(ev: Handle, isExtev: bool) returns (hdl: Handle, ok: bool)
      modifies this
      ensures Result(Val(), hdl, ok) == UpdateResult(old(Val()), ev, isExtev)
    {
      if isExtev {
        hdl, ok := EsvUpdateExt(ev);
      } else {
        hdl, ok := EsvEm2usr(ev, ONE_REF);
      }
    }
  }
}
