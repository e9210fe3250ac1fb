/**
 Header initialisation of events that enter EM from ODP: one by one, and in
 batches that may convert the ODP handles to EM handles in the same table.
 */
module EventInit {
  import opened Wrappers
  import opened U64
  import opened EventState
  import opened EventStateCounters
  import opened EventHeader

  datatype Config = Config(esv: bool, preallocPools: bool)

  /** The header of an ODP event: its user area. ODP handles have no generation bits. */
  type UserArea = map<Handle, EventHdr>

  // ----- what initialisation means for one event

  function InitPkt(v: Contents, inEmPool: bool, ev: Handle, isExtev: bool, cfg: Config): Result {
    if v.userFlag then
      if !cfg.esv then Result(v, ev, true)
      else if isExtev then Em2usrResult(v, v.event) else Result(v, v.event, true)
    else
      var v1 := v.(userFlag := true, eventType := TypePacket, egrp := None, userArea := 0);
      var r := if !cfg.esv then Result(v1.(event := ev), ev, true)
               else if !cfg.preallocPools || !inEmPool || v.flags.refsUsed then InitResult(v1, ev, isExtev)
               else UpdateResult(v1, ev, isExtev);
      r.(hdr := r.hdr.(flags := NO_FLAGS))
  }

  function InitBuf(v: Contents, ev: Handle, isExtev: bool, cfg: Config): Result {
    if !cfg.esv then Result(v, ev, true)
    else if isExtev then Em2usrResult(v, ev) else Result(v, v.event, true)
  }

  function InitTimeout(v: Contents, ev: Handle, cfg: Config): Result {
    if !cfg.esv then Result(v, ev, true)
    else
      var hdl := ev.(evgen := v.event.evgen);
      Result(v.(event := hdl), hdl, true)
  }

  function InitOdp(v: Contents, odpType: OdpType, inEmPool: bool, ev: Handle, isExtev: bool, cfg: Config): Result {
    match odpType
    case OdpPacket => InitPkt(v, inEmPool, ev, isExtev, cfg)
    case OdpBuffer => InitBuf(v, ev, isExtev, cfg)
    case OdpTimeout => InitTimeout(v, ev, cfg)
    case OdpOther => Result(v, ev, true)
  }

  // ----- one by one

  /** `evhdr_init_pkt()` */
  method EvhdrInitPkt(h: EventHdr, ev: Handle, isExtev: bool, cfg: Config) returns (hdl: Handle, ok: bool)
    modifies h
    ensures Result(h.Val(), hdl, ok) == InitPkt(old(h.Val()), h.inEmPool, ev, isExtev, cfg)
  {
    hdl, ok := ev, true;
    if h.userFlag {
      if cfg.esv {
        hdl := h.event;
        if isExtev {
          hdl, ok := h.EvstateEm2usr(hdl);
        }
      }
      return;
    }
    h.userFlag := true;
    h.eventType := TypePacket;
    h.egrp := None;
    h.userArea := 0;
    if !cfg.esv {
      h.flags := NO_FLAGS;
      h.event := hdl;
      return;
    }
    if !cfg.preallocPools || h.flags.refsUsed {
      hdl := h.EvstateInit(hdl, isExtev);
    } else if !h.inEmPool {
      hdl := h.EvstateInit(hdl, isExtev);
    } else {
      hdl, ok := h.EvstateUpdate(hdl, isExtev);
    }
    h.flags := NO_FLAGS;
  }

  /** `event_init_odp()`, for events that are not vectors. */
  method EventInitOdp(h: EventHdr, odpEvent: Handle, isExtev: bool, cfg: Config) returns (hdl: Handle, ok: bool)
    modifies h
    ensures Result(h.Val(), hdl, ok) == InitOdp(old(h.Val()), h.odpType, h.inEmPool, odpEvent, isExtev, cfg)
  {
    hdl, ok := odpEvent, true;
    match h.odpType
    case OdpPacket => hdl, ok := EvhdrInitPkt(h, hdl, isExtev, cfg);
    case OdpBuffer =>
      if cfg.esv {
        if isExtev {
          hdl, ok := h.EvstateEm2usr(hdl);
        } else {
          hdl := h.event;
        }
      }
    case OdpTimeout =>
      if cfg.esv {
        hdl := hdl.(evgen := h.event.evgen);
        h.event := hdl;
      }
    case OdpOther =>
  }

  // ----- in batches

  /** Headers of different events are different objects. */
  ghost predicate Separate(hdrs: seq<EventHdr>) {
    forall i, j :: 0 <= i < j < |hdrs| ==> hdrs[i] != hdrs[j]
  }

  ghost function Vals(hdrs: seq<EventHdr>): (r: seq<Contents>)
    reads hdrs
    ensures |r| == |hdrs| && forall i :: 0 <= i < |hdrs| ==> r[i] == hdrs[i].Val()
  {
    seq(|hdrs|, i requires 0 <= i < |hdrs| reads hdrs => hdrs[i].Val())
  }

  /** What initialising one event by itself gives, from contents v. */
  function Single(h: EventHdr, v: Contents, ev: Handle, isExtev: bool, cfg: Config): Result {
    InitOdp(v, h.odpType, h.inEmPool, ev, isExtev, cfg)
  }

  /** The state update of a packet that EM has not seen before. */
  function StateInit(v: Contents, inEmPool: bool, ev: Handle, isExtev: bool, cfg: Config): Result {
    if !cfg.preallocPools || !inEmPool || v.flags.refsUsed then InitResult(v, ev, isExtev)
    else UpdateResult(v, ev, isExtev)
  }

  /** The other fields, reset after the state update. */
  function Finish(v: Contents): Contents {
    v.(flags := NO_FLAGS, eventType := TypePacket, egrp := None, userArea := 0)
  }

  /** Resetting the other fields before or after the state update is the same. */
  lemma DeferredInit(v: Contents, inEmPool: bool, ev: Handle, isExtev: bool, cfg: Config)
    requires !v.userFlag && cfg.esv
    ensures var r := StateInit(v.(userFlag := true), inEmPool, ev, isExtev, cfg);
      InitPkt(v, inEmPool, ev, isExtev, cfg) == r.(hdr := Finish(r.hdr))
  {
  }

  /**
   A packet that enters EM is the user's: one reference, with the current handle.
   Sending or freeing it is accepted, dispatching it is not. (A packet of a
   preallocated EM pool comes in with the counters of a free event, and its generation
   goes on; for all others it starts anew.)
   */
  lemma NewPacketIsUsers(v: Contents, inEmPool: bool, ev: Handle, isExtev: bool, cfg: Config, evgen: int)
    requires !v.userFlag && cfg.esv
    requires cfg.preallocPools && inEmPool && !v.flags.refsUsed ==> Holds(v.cnt, Counters(evgen, 0, 0))
    ensures var r := InitPkt(v, inEmPool, ev, isExtev, cfg);
      && r.ok && r.hdr.event == r.event && r.hdr.flags == NO_FLAGS
      && Holds(r.hdr.cnt, Counters(r.event.evgen, 1, 0))
      && Usr2em(r.hdr.cnt, r.event, false, GEN_AND_SEND).1
      && Usr2em(r.hdr.cnt, r.event, false, GEN_AND_REF).1
      && !Em2usr(r.hdr.cnt, r.event, r.event, false, ONE_SEND).ok
      && r.event.evgen == (if !cfg.preallocPools || !inEmPool || v.flags.refsUsed then EVGEN_INIT
                           else if isExtev then NextGen(evgen) else evgen)
  {
    if !cfg.preallocPools || !inEmPool || v.flags.refsUsed {
      FirstInit(v, ev, isExtev);
    } else {
      NextInit(v, ev, isExtev, evgen);
    }
    var r := InitPkt(v, inEmPool, ev, isExtev, cfg);
    UsersAlone(r.hdr.cnt, r.event);
  }

  /** A packet new to EM gets a header of its own, with event-state verification and without. */
  lemma NewPacketIsReset(v: Contents, inEmPool: bool, ev: Handle, isExtev: bool, cfg: Config)
    requires !v.userFlag
    ensures var r := InitOdp(v, OdpPacket, inEmPool, ev, isExtev, cfg);
      && r.event.evptr == ev.evptr && r.hdr.event == r.event && (!cfg.esv ==> r.event == ev && r.ok && r.hdr.cnt == v.cnt)
      && r.hdr.userFlag && r.hdr.eventType == TypePacket && r.hdr.egrp == None && r.hdr.userArea == 0
      && !r.hdr.flags.refsUsed && r.hdr.flags.tmoType == 0 && !r.hdr.flags.vectypeSet && !r.hdr.flags.aggrSent
  {
  }

  /** The counters of an event that EM knows, when it comes in: one that was sent outside is the user's again. */
  function BackInside(c: Counters, isExtev: bool): Counters {
    if isExtev then c.(sends := c.sends - 1) else c
  }

  /**
   A buffer, or a packet that EM knows, comes in with its raw handle and is handed on with
   the one that EM accepts: a send or a free with it passes exactly if the user side then
   owns a reference. From outside EM it is accepted exactly if EM owned one.
   */
  lemma KnownIsHandedOn(v: Contents, odpType: OdpType, inEmPool: bool, ev: Handle, isExtev: bool, cfg: Config, c: Counters)
    requires odpType.OdpBuffer? || (odpType.OdpPacket? && v.userFlag)
    requires cfg.esv && v.eventType != TypeOdp && Holds(v.cnt, c)
    requires v.event.evptr == ev.evptr && v.event.evgen == c.evgen
    ensures var r := InitOdp(v, odpType, inEmPool, ev, isExtev, cfg);
      && (r.ok <==> !isExtev || c.sends >= 1)
      && r.event.evptr == r.hdr.event.evptr == ev.evptr && r.hdr.event.evgen == c.evgen
      && (!v.flags.refsUsed ==> r.event.evgen == c.evgen)
      && r.hdr == v.(cnt := r.hdr.cnt, event := r.hdr.event)
      && (r.ok ==>
            var d := BackInside(c, isExtev);
            && Holds(r.hdr.cnt, d)
            && (Usr2em(r.hdr.cnt, r.event, v.flags.refsUsed, GEN_AND_SEND).1 <==> d.refs - d.sends >= 1)
            && (Usr2em(r.hdr.cnt, r.event, v.flags.refsUsed, GEN_AND_REF).1 <==> d.refs - d.sends >= 1))
  {
    var r := InitOdp(v, odpType, inEmPool, ev, isExtev, cfg);
    if isExtev {
      DispatchSpec(v.cnt, c, v.event, if odpType.OdpBuffer? then ev else v.event, v.flags.refsUsed);
    }
    if r.ok {
      SendSpec(r.hdr.cnt, BackInside(c, isExtev), r.event, v.flags.refsUsed);
      FreeSpec(r.hdr.cnt, BackInside(c, isExtev), r.event, v.flags.refsUsed);
    }
  }

  /** A timeout gets the generation of its header, any other event nothing; without event-state verification nothing does. */
  lemma OthersKeepTheirHeader(v: Contents, odpType: OdpType, inEmPool: bool, ev: Handle, isExtev: bool, cfg: Config)
    requires odpType.OdpTimeout? || odpType.OdpOther? || (!cfg.esv && (odpType.OdpBuffer? || v.userFlag))
    ensures var r := InitOdp(v, odpType, inEmPool, ev, isExtev, cfg);
      && r.ok && r.event.evptr == ev.evptr && r.hdr == v.(event := r.hdr.event)
      && r.event.evgen == (if odpType.OdpTimeout? && cfg.esv then v.event.evgen else ev.evgen)
      && r.hdr.event == if odpType.OdpTimeout? && cfg.esv then r.event else v.event
  {
  }

  lemma FirstInit(v: Contents, ev: Handle, isExtev: bool)
    ensures var r := InitResult(v, ev, isExtev);
      r.hdr.event == r.event && Holds(r.hdr.cnt, Counters(r.event.evgen, 1, 0)) && r.event.evgen == EVGEN_INIT
  {
    EvinitExtCombines(ev, v.flags.refsUsed);
    HoldsIff(Pack(INIT_CNT_ALLOC), Counters(EVGEN_INIT, 1, 0));
    UnpackPack(INIT_CNT_ALLOC);
    HoldsIff(EvinitExt(ev).cnt, Counters(EVGEN_INIT, 1, 0));
  }

  lemma NextInit(v: Contents, ev: Handle, isExtev: bool, evgen: int)
    requires !v.flags.refsUsed && Holds(v.cnt, Counters(evgen, 0, 0))
    ensures var r := UpdateResult(v, ev, isExtev);
      && r.ok && r.hdr.event == r.event && Holds(r.hdr.cnt, Counters(r.event.evgen, 1, 0))
      && r.event.evgen == if isExtev then NextGen(evgen) else evgen
  {
    if isExtev {
      UpdateExtSpec(v.cnt, Counters(evgen, 0, 0), v.event, ev, false);
    } else {
      TakeSpec(v.cnt, Counters(evgen, 0, 0), v.event, ev, false);
    }
  }

  lemma UsersAlone(w: u64, event: Handle)
    requires Holds(w, Counters(event.evgen, 1, 0))
    ensures Usr2em(w, event, false, GEN_AND_SEND).1 && Usr2em(w, event, false, GEN_AND_REF).1
    ensures !Em2usr(w, event, event, false, ONE_SEND).ok
  {
    var c := Counters(event.evgen, 1, 0);
    SendSpec(w, c, event, false);
    FreeSpec(w, c, event, false);
    DispatchSpec(w, c, event, event, false);
  }

  /** The contents of the headers and of the event table, at some point of a pass. */
  datatype Tables = Tables(vals: seq<Contents>, handles: seq<Handle>)

  ghost predicate Sizes(hdrs: seq<EventHdr>, events: array<Handle>, was: Tables, rs: seq<Result>) {
    |was.vals| == |rs| == |hdrs| <= events.Length == |was.handles|
  }

  /** A pass that makes rs of `was` has done the first i entries. */
  ghost predicate DoneUpto(hdrs: seq<EventHdr>, events: array<Handle>, was: Tables, rs: seq<Result>, i: nat)
    requires Sizes(hdrs, events, was, rs) && i <= |hdrs|
    reads hdrs, events
  {
    && (forall k :: 0 <= k < |hdrs| ==> hdrs[k].Val() == if k < i then rs[k].hdr else was.vals[k])
    && (forall k :: 0 <= k < events.Length ==> events[k] == if k < i then rs[k].event else was.handles[k])
  }

  /** What the first pass makes of a header: known packets are refreshed, others are marked. */
  function Pass(v: Contents, inEmPool: bool, ev: Handle, isExtev: bool, cfg: Config): Result {
    if v.userFlag then InitPkt(v, inEmPool, ev, isExtev, cfg) else Result(v.(userFlag := true), ev, true)
  }

  /** First pass of `evhdr_init_pkt_multi()` over entry i: refresh it, or mark it as to be initialised. */
  method PassEntry(hdrs: seq<EventHdr>, h: EventHdr, events: array<Handle>, odpPkts: array<Handle>, i: nat,
                   isExtev: bool, cfg: Config, ghost was: Tables, ghost rs: seq<Result>)
    returns (needsInit: bool, ok: bool)
    requires Sizes(hdrs, events, was, rs) && i < |hdrs| <= odpPkts.Length && Separate(hdrs) && h == hdrs[i]
    requires DoneUpto(hdrs, events, was, rs, i) && rs[i] == Pass(was.vals[i], h.inEmPool, was.handles[i], isExtev, cfg)
    modifies h, events
    ensures DoneUpto(hdrs, events, was, rs, i + 1)
    ensures needsInit == !was.vals[i].userFlag && ok == rs[i].ok
    ensures forall k :: 0 <= k < |hdrs| && (k != i || needsInit) ==> odpPkts[k] == old(odpPkts[k])
  {
    assert h.Val() == was.vals[i] && events[i] == was.handles[i];
    ok, needsInit := true, !h.userFlag;
    if needsInit {
      h.userFlag := true;
      return;
    }
    if cfg.esv {
      events[i] := h.event;
      if isExtev {
        var hdl;
        hdl, ok := h.EvstateEm2usr(events[i]);
        events[i] := hdl;
      }
    }
  }

  /** Third pass: the fields other than the event state. */
  method FinishAll(hdrs: seq<EventHdr>, needsInit: seq<nat>)
    requires Separate(hdrs) && Indexes(needsInit, |hdrs|)
    modifies hdrs
    ensures forall k :: 0 <= k < |hdrs| ==> hdrs[k].Val() == if k in needsInit then Finish(old(hdrs[k].Val())) else old(hdrs[k].Val())
  {
    ghost var was := Vals(hdrs);
    var m := 0;
    while m < |needsInit|
      invariant 0 <= m <= |needsInit|
      invariant forall k :: 0 <= k < |hdrs| ==> hdrs[k].Val() == if k in needsInit[..m] then Finish(was[k]) else was[k]
    {
      var h := hdrs[needsInit[m]];
      h.flags := NO_FLAGS;
      h.eventType := TypePacket;
      h.egrp := None;
      h.userArea := 0;
      assert h.Val() == Finish(was[needsInit[m]]);
      m := m + 1;
    }
    assert needsInit[..m] == needsInit;
  }

  /** Different indexes below n. */
  ghost predicate Indexes(s: seq<nat>, n: nat) {
    (forall a :: 0 <= a < |s| ==> s[a] < n) && (forall a, b :: 0 <= a < b < |s| ==> s[a] != s[b])
  }

  method StateInitOne(h: EventHdr, ev: Handle, inEmPool: bool, isExtev: bool, cfg: Config) returns (hdl: Handle, ok: bool)
    requires cfg.preallocPools ==> inEmPool == h.inEmPool
    modifies h
    ensures Result(h.Val(), hdl, ok) == StateInit(old(h.Val()), h.inEmPool, ev, isExtev, cfg)
  {
    ok := true;
    if !cfg.preallocPools {
      hdl := h.EvstateInit(ev, isExtev);
    } else if !inEmPool || h.flags.refsUsed {
      hdl := h.EvstateInit(ev, isExtev);
    } else {
      hdl, ok := h.EvstateUpdate(ev, isExtev);
    }
  }

  /** Second pass with ESV: the event state. A packet's pool is looked up by its raw
      handle, so that handle must not have been overwritten yet. */
  method StateInitAll(area: UserArea, hdrs: seq<EventHdr>, events: array<Handle>, odpPkts: array<Handle>,
                      needsInit: seq<nat>, isExtev: bool, cfg: Config)
    returns (ok: bool)
    requires |hdrs| <= events.Length && |hdrs| <= odpPkts.Length && Separate(hdrs) && Indexes(needsInit, |hdrs|)
    requires forall k :: k in needsInit ==> odpPkts[k] in area && area[odpPkts[k]] == hdrs[k]
    modifies events, hdrs
    ensures forall k :: 0 <= k < |hdrs| && k in needsInit ==>
      var r := StateInit(old(hdrs[k].Val()), hdrs[k].inEmPool, old(events[k]), isExtev, cfg);
      hdrs[k].Val() == r.hdr && events[k] == r.event
    ensures forall k :: 0 <= k < |hdrs| && k !in needsInit ==> hdrs[k].Val() == old(hdrs[k].Val())
    ensures forall k :: 0 <= k < events.Length && k !in needsInit ==> events[k] == old(events[k])
    ensures ok <==> forall k :: 0 <= k < |hdrs| && k in needsInit ==>
      StateInit(old(hdrs[k].Val()), hdrs[k].inEmPool, old(events[k]), isExtev, cfg).ok
  {
    ghost var was := Tables(Vals(hdrs), events[..]);
    ghost var rs := seq(|hdrs|, k requires 0 <= k < |hdrs| =>
                          StateInit(was.vals[k], hdrs[k].inEmPool, was.handles[k], isExtev, cfg));
    ok := StateInitLoop(area, hdrs, events, odpPkts, needsInit, isExtev, cfg, was, rs);
  }

  /** A pass that makes rs of `was` has done the entries listed. */
  ghost predicate DoneIn(hdrs: seq<EventHdr>, events: array<Handle>, was: Tables, rs: seq<Result>, done: seq<nat>)
    requires Sizes(hdrs, events, was, rs) && Indexes(done, |hdrs|)
    reads hdrs, events
  {
    && (forall k :: 0 <= k < |hdrs| ==> hdrs[k].Val() == if k in done then rs[k].hdr else was.vals[k])
    && (forall k :: 0 <= k < events.Length ==> events[k] == if k in done then rs[k].event else was.handles[k])
  }

  method StateInitEntry(hdrs: seq<EventHdr>, events: array<Handle>, odpPkts: array<Handle>, inEmPool: bool,
                        ghost done: seq<nat>, idx: nat, isExtev: bool, cfg: Config,
                        ghost was: Tables, ghost rs: seq<Result>)
    returns (ok: bool)
    requires Sizes(hdrs, events, was, rs) && idx < |hdrs| <= odpPkts.Length && Separate(hdrs)
    requires Indexes(done, |hdrs|) && Indexes(done + [idx], |hdrs|) && idx !in done
    requires DoneIn(hdrs, events, was, rs, done)
    requires cfg.preallocPools ==> inEmPool == hdrs[idx].inEmPool
    requires rs[idx] == StateInit(was.vals[idx], hdrs[idx].inEmPool, was.handles[idx], isExtev, cfg)
    modifies hdrs[idx], events
    ensures DoneIn(hdrs, events, was, rs, done + [idx]) && ok == rs[idx].ok
    ensures forall k :: 0 <= k < |hdrs| && k != idx ==> odpPkts[k] == old(odpPkts[k])
  {
    assert hdrs[idx].Val() == was.vals[idx] && events[idx] == was.handles[idx];
    var hdl;
    hdl, ok := StateInitOne(hdrs[idx], events[idx], inEmPool, isExtev, cfg);
    events[idx] := hdl;
  }

  method StateInitLoop(area: UserArea, hdrs: seq<EventHdr>, events: array<Handle>, odpPkts: array<Handle>,
                       needsInit: seq<nat>, isExtev: bool, cfg: Config, ghost was: Tables, ghost rs: seq<Result>)
    returns (ok: bool)
    requires Sizes(hdrs, events, was, rs) && |hdrs| <= odpPkts.Length && Separate(hdrs) && Indexes(needsInit, |hdrs|)
    requires forall k :: k in needsInit ==> odpPkts[k] in area && area[odpPkts[k]] == hdrs[k]
    requires DoneIn(hdrs, events, was, rs, [])
    requires forall k :: 0 <= k < |hdrs| ==>
      rs[k] == StateInit(was.vals[k], hdrs[k].inEmPool, was.handles[k], isExtev, cfg)
    modifies events, hdrs
    ensures DoneIn(hdrs, events, was, rs, needsInit)
    ensures ok <==> forall k :: k in needsInit ==> rs[k].ok
  {
    ok := true;
    var m := 0;
    while m < |needsInit|
      invariant 0 <= m <= |needsInit| && DoneIn(hdrs, events, was, rs, needsInit[..m])
      invariant forall k :: 0 <= k < |hdrs| && k !in needsInit[..m] ==> odpPkts[k] == old(odpPkts[k])
      invariant ok <==> forall k :: k in needsInit[..m] ==> rs[k].ok
    {
      var idx := needsInit[m];
      assert needsInit[..m + 1] == needsInit[..m] + [idx];
      assert idx !in needsInit[..m] && idx in needsInit;
      var inEmPool := cfg.preallocPools && area[odpPkts[idx]].inEmPool;
      var valid := StateInitEntry(hdrs, events, odpPkts, inEmPool, needsInit[..m], idx, isExtev, cfg, was, rs);
      ok := ok && valid;
      m := m + 1;
    }
    assert needsInit[..m] == needsInit;
  }

  /** First pass: refresh what EM knows, list the rest. */
  method PassAll(area: UserArea, hdrs: seq<EventHdr>, events: array<Handle>, odpPkts: array<Handle>, isExtev: bool, cfg: Config)
    returns (needsInit: seq<nat>, ok: bool)
    requires PktTable(area, hdrs, events, odpPkts)
    modifies events, hdrs
    ensures Indexes(needsInit, |hdrs|)
    ensures forall k :: 0 <= k < |hdrs| ==>
      && (k in needsInit <==> !old(hdrs[k].userFlag))
      && (k in needsInit ==> odpPkts[k] == old(odpPkts[k]))
    ensures forall k :: 0 <= k < |hdrs| ==>
      var r := Pass(old(hdrs[k].Val()), hdrs[k].inEmPool, old(odpPkts[k]), isExtev, cfg);
      hdrs[k].Val() == r.hdr && events[k] == r.event
    ensures forall k :: |hdrs| <= k < events.Length ==> events[k] == old(events[k])
    ensures ok <==> forall k :: 0 <= k < |hdrs| ==>
      Pass(old(hdrs[k].Val()), hdrs[k].inEmPool, old(odpPkts[k]), isExtev, cfg).ok
  {
    ghost var was := Tables(Vals(hdrs), events[..]);
    ghost var rs := seq(|hdrs|, k requires 0 <= k < |hdrs| =>
                          Pass(was.vals[k], hdrs[k].inEmPool, was.handles[k], isExtev, cfg));
    needsInit, ok := PassLoop(area, hdrs, events, odpPkts, isExtev, cfg, was, rs);
  }

  method PassLoop(area: UserArea, hdrs: seq<EventHdr>, events: array<Handle>, odpPkts: array<Handle>,
                  isExtev: bool, cfg: Config, ghost was: Tables, ghost rs: seq<Result>)
    returns (needsInit: seq<nat>, ok: bool)
    requires PktTable(area, hdrs, events, odpPkts)
    requires Sizes(hdrs, events, was, rs) && DoneUpto(hdrs, events, was, rs, 0)
    requires forall k :: 0 <= k < |hdrs| ==> rs[k] == Pass(was.vals[k], hdrs[k].inEmPool, was.handles[k], isExtev, cfg)
    modifies events, hdrs
    ensures Indexes(needsInit, |hdrs|) && DoneUpto(hdrs, events, was, rs, |hdrs|)
    ensures forall k :: 0 <= k < |hdrs| ==> (k in needsInit <==> !was.vals[k].userFlag)
    ensures forall k :: 0 <= k < |hdrs| && !was.vals[k].userFlag ==> odpPkts[k] == old(odpPkts[k])
    ensures ok <==> forall k :: 0 <= k < |hdrs| ==> rs[k].ok
  {
    needsInit, ok := [], true;
    var i := 0;
    while i < |hdrs|
      invariant 0 <= i <= |hdrs| && Indexes(needsInit, i)
      invariant forall k :: 0 <= k < i ==> (k in needsInit <==> !was.vals[k].userFlag)
      invariant DoneUpto(hdrs, events, was, rs, i)
      invariant forall k :: 0 <= k < |hdrs| && (k >= i || !was.vals[k].userFlag) ==> odpPkts[k] == old(odpPkts[k])
      invariant ok <==> forall k :: 0 <= k < i ==> rs[k].ok
    {
      var needs, valid := PassEntry(hdrs, area[odpPkts[i]], events, odpPkts, i, isExtev, cfg, was, rs);
      if needs {
        needsInit := needsInit + [i];
      }
      ok := ok && valid;
      i := i + 1;
    }
  }

  /** A table of raw packet handles with their headers; both tables start with the same bits. */
  ghost predicate PktTable(area: UserArea, hdrs: seq<EventHdr>, events: array<Handle>, odpPkts: array<Handle>)
    reads events, odpPkts
  {
    && |hdrs| <= events.Length && |hdrs| <= odpPkts.Length && Separate(hdrs)
    && forall k :: 0 <= k < |hdrs| ==>
      odpPkts[k] in area && area[odpPkts[k]] == hdrs[k] && hdrs[k].odpType.OdpPacket? && events[k] == odpPkts[k]
  }

  /** `evhdr_init_pkt_multi()`: the same headers, handles and verdict as one by one,
      also when `events` and `odpPkts` are the same table. */
  method EvhdrInitPktMulti(area: UserArea, hdrs: seq<EventHdr>, events: array<Handle>, odpPkts: array<Handle>,
                           isExtev: bool, cfg: Config)
    returns (ok: bool)
    requires PktTable(area, hdrs, events, odpPkts)
    modifies events, hdrs
    ensures forall k :: 0 <= k < |hdrs| ==>
      var r := Single(hdrs[k], old(hdrs[k].Val()), old(odpPkts[k]), isExtev, cfg);
      hdrs[k].Val() == r.hdr && events[k] == r.event
    ensures ok <==> forall k :: 0 <= k < |hdrs| ==> Single(hdrs[k], old(hdrs[k].Val()), old(odpPkts[k]), isExtev, cfg).ok
    ensures forall k :: |hdrs| <= k < events.Length ==> events[k] == old(events[k])
  {
    ghost var was, raw := Vals(hdrs), odpPkts[..|hdrs|];
    var needsInit;
    needsInit, ok := PassAll(area, hdrs, events, odpPkts, isExtev, cfg);
    if |needsInit| == 0 {
      return;
    }
    if !cfg.esv {
      PlainInitAll(hdrs, events, needsInit);
      return;
    }
    forall k | 0 <= k < |hdrs| && !was[k].userFlag {
      DeferredInit(was[k], hdrs[k].inEmPool, raw[k], isExtev, cfg);
    }
    var valid := InitUnseen(area, hdrs, events, odpPkts, needsInit, isExtev, cfg);
    ok := ok && valid;
  }

  /** The second and third pass with ESV. */
  method InitUnseen(area: UserArea, hdrs: seq<EventHdr>, events: array<Handle>, odpPkts: array<Handle>,
                    needsInit: seq<nat>, isExtev: bool, cfg: Config)
    returns (ok: bool)
    requires |hdrs| <= events.Length && |hdrs| <= odpPkts.Length && Separate(hdrs) && Indexes(needsInit, |hdrs|)
    requires forall k :: k in needsInit ==> odpPkts[k] in area && area[odpPkts[k]] == hdrs[k]
    modifies events, hdrs
    ensures forall k :: 0 <= k < |hdrs| && k in needsInit ==>
      var r := StateInit(old(hdrs[k].Val()), hdrs[k].inEmPool, old(events[k]), isExtev, cfg);
      hdrs[k].Val() == Finish(r.hdr) && events[k] == r.event
    ensures forall k :: 0 <= k < |hdrs| && k !in needsInit ==> hdrs[k].Val() == old(hdrs[k].Val())
    ensures forall k :: 0 <= k < events.Length && k !in needsInit ==> events[k] == old(events[k])
    ensures ok <==> forall k :: 0 <= k < |hdrs| && k in needsInit ==>
      StateInit(old(hdrs[k].Val()), hdrs[k].inEmPool, old(events[k]), isExtev, cfg).ok
  {
    ok := StateInitAll(area, hdrs, events, odpPkts, needsInit, isExtev, cfg);
    FinishAll(hdrs, needsInit);
  }

  /** The pass without ESV. */
  method PlainInitAll(hdrs: seq<EventHdr>, events: array<Handle>, needsInit: seq<nat>)
    requires Separate(hdrs) && Indexes(needsInit, |hdrs|) && |hdrs| <= events.Length
    modifies hdrs
    ensures forall k :: 0 <= k < |hdrs| ==>
      hdrs[k].Val() == if k in needsInit then Finish(old(hdrs[k].Val())).(event := events[k]) else old(hdrs[k].Val())
  {
    ghost var was := Vals(hdrs);
    var m := 0;
    while m < |needsInit|
      invariant 0 <= m <= |needsInit|
      invariant forall k :: 0 <= k < |hdrs| ==>
        hdrs[k].Val() == if k in needsInit[..m] then Finish(was[k]).(event := events[k]) else was[k]
    {
      var h := hdrs[needsInit[m]];
      h.flags := NO_FLAGS;
      h.eventType := TypePacket;
      h.event := events[needsInit[m]];
      h.egrp := None;
      h.userArea := 0;
      assert h.Val() == Finish(was[needsInit[m]]).(event := events[needsInit[m]]);
      m := m + 1;
    }
    assert needsInit[..m] == needsInit;
  }

  /** `event_init_buf_multi()`: `events` starts with the raw handles. */
  method EventInitBufMulti(hdrs: seq<EventHdr>, events: array<Handle>, isExtev: bool, cfg: Config) returns (ok: bool)
    requires |hdrs| <= events.Length && Separate(hdrs) && forall k :: 0 <= k < |hdrs| ==> hdrs[k].odpType.OdpBuffer?
    modifies events, hdrs
    ensures forall k :: 0 <= k < |hdrs| ==>
      var r := Single(hdrs[k], old(hdrs[k].Val()), old(events[k]), isExtev, cfg);
      hdrs[k].Val() == r.hdr && events[k] == r.event
    ensures ok <==> forall k :: 0 <= k < |hdrs| ==> Single(hdrs[k], old(hdrs[k].Val()), old(events[k]), isExtev, cfg).ok
    ensures forall k :: |hdrs| <= k < events.Length ==> events[k] == old(events[k])
  {
    ok := true;
    if !cfg.esv {
      return;
    }
    ghost var was, evs := Vals(hdrs), events[..];
    ghost var rs := seq(|hdrs|, k requires 0 <= k < |hdrs| => Single(hdrs[k], was[k], evs[k], isExtev, cfg));
    var i := 0;
    while i < |hdrs|
      invariant 0 <= i <= |hdrs|
      invariant forall k :: 0 <= k < |hdrs| ==> hdrs[k].Val() == if k < i then rs[k].hdr else was[k]
      invariant forall k :: 0 <= k < events.Length ==> events[k] == if k < i then rs[k].event else evs[k]
      invariant ok <==> forall k :: 0 <= k < i ==> rs[k].ok
    {
      if isExtev {
        var hdl, valid := hdrs[i].EvstateEm2usr(events[i]);
        events[i] := hdl;
        ok := ok && valid;
      } else {
        events[i] := hdrs[i].event;
      }
      i := i + 1;
    }
  }

  /** Only events that are not EM's share a header: the core's own spare one. */
  ghost predicate SeparateOwn(hdrs: seq<EventHdr>) {
    forall i, j :: 0 <= i < j < |hdrs| && hdrs[i] == hdrs[j] ==> hdrs[i].odpType.OdpOther?
  }

  /** `odp_event_type_multi()`: how many events from the start are of the first one's type. */
  method TypeRun(hdrs: seq<EventHdr>) returns (same: nat)
    requires hdrs != []
    ensures 1 <= same <= |hdrs| && forall k :: 0 <= k < same ==> hdrs[k].odpType == hdrs[0].odpType
    ensures same < |hdrs| ==> hdrs[same].odpType != hdrs[0].odpType
  {
    same := 1;
    while same < |hdrs| && hdrs[same].odpType == hdrs[0].odpType
      invariant 1 <= same <= |hdrs| && forall k :: 0 <= k < same ==> hdrs[k].odpType == hdrs[0].odpType
    {
      same := same + 1;
    }
  }

  /** The leading run of packets or of buffers, in one batch; other leading types are left to the caller. */
  method InitLeadingRun(area: UserArea, hdrs: seq<EventHdr>, odpEvents: array<Handle>, events: array<Handle>,
                        isExtev: bool, cfg: Config)
    returns (handled: nat, ok: bool)
    requires 0 < |hdrs| <= events.Length && |hdrs| <= odpEvents.Length && SeparateOwn(hdrs)
    requires forall k :: 0 <= k < |hdrs| ==> odpEvents[k] in area && area[odpEvents[k]] == hdrs[k]
    modifies events, hdrs
    ensures handled <= |hdrs| && (handled == 0 <==> !hdrs[0].odpType.OdpPacket? && !hdrs[0].odpType.OdpBuffer?)
    ensures forall k :: 0 <= k < handled ==> hdrs[k].odpType == hdrs[0].odpType
    ensures 0 < handled < |hdrs| ==> hdrs[handled].odpType != hdrs[0].odpType
    ensures forall k :: 0 <= k < handled ==>
      var r := Single(hdrs[k], old(hdrs[k].Val()), old(odpEvents[k]), isExtev, cfg);
      hdrs[k].Val() == r.hdr && events[k] == r.event
    ensures ok <==> forall k :: 0 <= k < handled ==> Single(hdrs[k], old(hdrs[k].Val()), old(odpEvents[k]), isExtev, cfg).ok
    ensures forall k :: handled <= k < |hdrs| ==> hdrs[k].Val() == old(hdrs[k].Val()) && odpEvents[k] == old(odpEvents[k])
    ensures forall k :: handled <= k < events.Length ==> events[k] == old(events[k])
  {
    var same := TypeRun(hdrs);
    handled, ok := 0, true;
    if !hdrs[0].odpType.OdpPacket? && !hdrs[0].odpType.OdpBuffer? {
      return;
    }
    handled := same;
    assert forall i, j :: 0 <= i < same <= j < |hdrs| ==> hdrs[i] != hdrs[j];
    ok := InitRun(area, hdrs[..same], odpEvents, events, isExtev, cfg);
  }

  /** A table of only packets, or only buffers. */
  method InitRun(area: UserArea, run: seq<EventHdr>, odpEvents: array<Handle>, events: array<Handle>,
                 isExtev: bool, cfg: Config)
    returns (ok: bool)
    requires 0 < |run| <= events.Length && |run| <= odpEvents.Length && Separate(run)
    requires run[0].odpType.OdpPacket? || run[0].odpType.OdpBuffer?
    requires forall k :: 0 <= k < |run| ==> run[k].odpType == run[0].odpType
    requires forall k :: 0 <= k < |run| ==> odpEvents[k] in area && area[odpEvents[k]] == run[k]
    modifies events, run
    ensures forall k :: 0 <= k < |run| ==>
      var r := Single(run[k], old(run[k].Val()), old(odpEvents[k]), isExtev, cfg);
      run[k].Val() == r.hdr && events[k] == r.event
    ensures ok <==> forall k :: 0 <= k < |run| ==> Single(run[k], old(run[k].Val()), old(odpEvents[k]), isExtev, cfg).ok
    ensures forall k :: |run| <= k < events.Length ==> events[k] == old(events[k])
  {
    var odpPkts := CopyRaw(odpEvents, events, |run|);
    if run[0].odpType.OdpPacket? {
      ok := EvhdrInitPktMulti(area, run, events, odpPkts, isExtev, cfg);
    } else {
      ok := EventInitBufMulti(run, events, isExtev, cfg);
    }
  }

  /** The raw handles of a run, as a packet table of its own and as the start of `events`. */
  method CopyRaw(odpEvents: array<Handle>, events: array<Handle>, same: nat) returns (odpPkts: array<Handle>)
    requires same <= odpEvents.Length && same <= events.Length
    modifies events
    ensures fresh(odpPkts) && odpPkts.Length == same
    ensures forall k :: 0 <= k < same ==> odpPkts[k] == events[k] == old(odpEvents[k])
    ensures forall k :: 0 <= k < odpEvents.Length ==> odpEvents[k] == old(odpEvents[k])
    ensures forall k :: same <= k < events.Length ==> events[k] == old(events[k])
  {
    odpPkts := new Handle[same];
    var i := 0;
    while i < same
      invariant 0 <= i <= same
      invariant forall k :: 0 <= k < i ==> odpPkts[k] == events[k] == old(odpEvents[k])
      invariant forall k :: 0 <= k < odpEvents.Length ==> odpEvents[k] == old(odpEvents[k])
      invariant forall k :: i <= k < events.Length ==> events[k] == old(events[k])
    {
      odpPkts[i] := odpEvents[i];
      events[i] := odpEvents[i];
      i := i + 1;
    }
  }

  /** The events after the leading run, one by one. */
  method InitRest(hdrs: seq<EventHdr>, from: nat, odpEvents: array<Handle>, events: array<Handle>, isExtev: bool, cfg: Config)
    returns (ok: bool)
    requires from <= |hdrs| <= events.Length && |hdrs| <= odpEvents.Length && SeparateOwn(hdrs)
    modifies events, hdrs
    ensures forall k :: 0 <= k < from ==> hdrs[k].Val() == old(hdrs[k].Val()) && events[k] == old(events[k])
    ensures forall k :: from <= k < |hdrs| ==>
      var r := Single(hdrs[k], old(hdrs[k].Val()), old(odpEvents[k]), isExtev, cfg);
      hdrs[k].Val() == r.hdr && events[k] == r.event
    ensures ok <==> forall k :: from <= k < |hdrs| ==> Single(hdrs[k], old(hdrs[k].Val()), old(odpEvents[k]), isExtev, cfg).ok
  {
    ghost var was, raw := Tables(Vals(hdrs), events[..]), odpEvents[..];
    ghost var rs := seq(|hdrs|, k requires 0 <= k < |hdrs| =>
                          if k < from then Result(was.vals[k], was.handles[k], true)
                          else Single(hdrs[k], was.vals[k], raw[k], isExtev, cfg));
    ok := InitLoop(hdrs, from, odpEvents, events, isExtev, cfg, was, rs);
  }

  method InitEntry(hdrs: seq<EventHdr>, i: nat, odpEvents: array<Handle>, events: array<Handle>, isExtev: bool, cfg: Config,
                   ghost was: Tables, ghost rs: seq<Result>)
    returns (ok: bool)
    requires Sizes(hdrs, events, was, rs) && i < |hdrs| <= odpEvents.Length && SeparateOwn(hdrs)
    requires DoneUpto(hdrs, events, was, rs, i)
    requires rs[i] == Single(hdrs[i], was.vals[i], odpEvents[i], isExtev, cfg)
    modifies events, hdrs[i]
    ensures DoneUpto(hdrs, events, was, rs, i + 1) && ok == rs[i].ok
    ensures forall k :: i < k < |hdrs| ==> odpEvents[k] == old(odpEvents[k])
  {
    assert hdrs[i].Val() == was.vals[i];
    var hdl;
    hdl, ok := EventInitOdp(hdrs[i], odpEvents[i], isExtev, cfg);
    events[i] := hdl;
  }

  method InitLoop(hdrs: seq<EventHdr>, from: nat, odpEvents: array<Handle>, events: array<Handle>,
                  isExtev: bool, cfg: Config, ghost was: Tables, ghost rs: seq<Result>)
    returns (ok: bool)
    requires Sizes(hdrs, events, was, rs) && from <= |hdrs| <= odpEvents.Length && SeparateOwn(hdrs)
    requires DoneUpto(hdrs, events, was, rs, from)
    requires forall k :: from <= k < |hdrs| ==> rs[k] == Single(hdrs[k], was.vals[k], odpEvents[k], isExtev, cfg)
    modifies events, hdrs
    ensures DoneUpto(hdrs, events, was, rs, |hdrs|)
    ensures ok <==> forall k :: from <= k < |hdrs| ==> rs[k].ok
  {
    ok := true;
    var i := from;
    while i < |hdrs|
      invariant from <= i <= |hdrs| && DoneUpto(hdrs, events, was, rs, i)
      invariant forall k :: i <= k < |hdrs| ==> odpEvents[k] == old(odpEvents[k])
      invariant ok <==> forall k :: from <= k < i ==> rs[k].ok
    {
      var valid := InitEntry(hdrs, i, odpEvents, events, isExtev, cfg, was, rs);
      ok := ok && valid;
      i := i + 1;
    }
  }

  /** `event_init_odp_multi()`: what initialising the events one by one gives, also in place. */
  method EventInitOdpMulti(area: UserArea, hdrs: seq<EventHdr>, odpEvents: array<Handle>, events: array<Handle>,
                           isExtev: bool, cfg: Config)
    returns (ok: bool)
    requires |hdrs| <= events.Length && |hdrs| <= odpEvents.Length && SeparateOwn(hdrs)
    requires forall k :: 0 <= k < |hdrs| ==> odpEvents[k] in area && area[odpEvents[k]] == hdrs[k]
    modifies events, hdrs
    ensures forall k :: 0 <= k < |hdrs| ==>
      var r := Single(hdrs[k], old(hdrs[k].Val()), old(odpEvents[k]), isExtev, cfg);
      hdrs[k].Val() == r.hdr && events[k] == r.event
    ensures ok <==> forall k :: 0 <= k < |hdrs| ==> Single(hdrs[k], old(hdrs[k].Val()), old(odpEvents[k]), isExtev, cfg).ok
  {
    ok := true;
    if |hdrs| == 0 {
      return;
    }
    var from: nat;
    from, ok := InitLeadingRun(area, hdrs, odpEvents, events, isExtev, cfg);
    var valid := InitRest(hdrs, from, odpEvents, events, isExtev, cfg);
    ok := ok && valid;
  }
}
