/**
 Event State Verification: the four 16-bit counters of an event header, packed
 in one 64-bit word that is updated by plain 64-bit additions and subtractions.

 The functions here are what the code does with the word. `EventStateCounters`
 says what they mean.
 */
module EventState {
  import opened U64

  const EVGEN_INIT: nat := 0x1000
  const EVGEN_MAX: nat := 0xEFFF
  const SEND_CNT_INIT: nat := 0x8000
  const REF_CNT_INIT: nat := 0x8000

  /** An event handle: 48 bits of pointer and 16 bits of event generation. */
  datatype Handle = Handle(evptr: nat, evgen: nat)

  /** `evstate_cnt_t`, evgen in the low bits. */
  datatype Cnt = Cnt(evgen: nat, rsvd: nat, refCnt: nat, sendCnt: nat)

  ghost predicate CntFits(c: Cnt) {
    c.evgen < TWO16 && c.rsvd < TWO16 && c.refCnt < TWO16 && c.sendCnt < TWO16
  }

  function Pack(c: Cnt): u64
    requires CntFits(c)
  {
    c.evgen + c.rsvd * TWO16 + c.refCnt * TWO32 + c.sendCnt * TWO48
  }

  function Unpack(w: u64): (c: Cnt)
    ensures CntFits(c)
  {
    Cnt(w % TWO16, w / TWO16 % TWO16, w / TWO32 % TWO16, w / TWO48)
  }

  lemma PackUnpack(w: u64)
    ensures Pack(Unpack(w)) == w
  {
    assert w / TWO32 == w / TWO48 * TWO16 + w / TWO32 % TWO16;
    assert w / TWO16 == w / TWO32 * TWO16 + w / TWO16 % TWO16;
  }

  lemma UnpackPack(c: Cnt)
    requires CntFits(c)
    ensures Unpack(Pack(c)) == c
  {
    Split16(c.rsvd + c.refCnt * TWO16 + c.sendCnt * TWO32, c.evgen);
    Split16(c.refCnt + c.sendCnt * TWO16, c.rsvd);
    Split16(c.sendCnt, c.refCnt);
    Split32(c.refCnt + c.sendCnt * TWO16, c.evgen + c.rsvd * TWO16);
    Split48(c.sendCnt, c.evgen + c.rsvd * TWO16 + c.refCnt * TWO32);
  }

  /** Conversion to `int16_t`. */
  function ToInt16(x: int): int {
    (x + 0x8000) % 0x1_0000 - 0x8000
  }

  function RefCount(w: u64): int { ToInt16(REF_CNT_INIT - Unpack(w).refCnt) }

  function SendCount(w: u64): int { ToInt16(Unpack(w).sendCnt - SEND_CNT_INIT) }

  const INIT_CNT_ALLOC := Cnt(EVGEN_INIT, 0, REF_CNT_INIT - 1, SEND_CNT_INIT)
  const INIT_CNT_EXTEV := Cnt(EVGEN_INIT, 0, REF_CNT_INIT - 1, SEND_CNT_INIT + 1)

  const ONE_REF := Cnt(0, 0, 1, 0)
  const ONE_SEND := Cnt(0, 0, 0, 1)
  const GEN_AND_REF := Cnt(1, 0, 1, 0)
  const GEN_AND_SEND := Cnt(1, 0, 0, 1)
  const GEN_SPAN := Cnt(EVGEN_MAX - EVGEN_INIT, 0, 0, 0)

  /** What a state update leaves: the counters, the handle in the header, the
      handle returned, and whether the check passed (otherwise: a fatal error). */
  datatype Outcome = Outcome(cnt: u64, stored: Handle, event: Handle, ok: bool)

  /** The handle is refreshed with the event generation, except for references. */
  function Refresh(cnt: u64, stored: Handle, event: Handle, refsUsed: bool, ok: bool): Outcome {
    if refsUsed then Outcome(cnt, stored, event, ok)
    else
      var hdl := event.(evgen := Unpack(cnt).evgen);
      Outcome(cnt, hdl, hdl, ok)
  }

  function Evinit(event: Handle, init: Cnt): Outcome
    requires CntFits(init)
  {
    var hdl := event.(evgen := EVGEN_INIT);
    Outcome(Pack(init), hdl, hdl, true)
  }

  function EvinitExt(event: Handle): Outcome {
    var cnt := Sub(Pack(INIT_CNT_EXTEV), Pack(ONE_SEND));
    var hdl := event.(evgen := Unpack(cnt).evgen);
    Outcome(cnt, hdl, hdl, true)
  }

  /** The check after an EM-to-user update. */
  predicate Em2usrOk(cnt: u64): (ok: bool)
    ensures ok <==> 0 <= SendCount(cnt) < RefCount(cnt)
  {
    !(SendCount(cnt) >= RefCount(cnt) || SendCount(cnt) < 0)
  }

  function Em2usr(w: u64, stored: Handle, event: Handle, refsUsed: bool, sub: Cnt): Outcome
    requires CntFits(sub)
  {
    var cnt := Sub(w, Pack(sub));
    Refresh(cnt, stored, event, refsUsed, Em2usrOk(cnt))
  }

  /** The check after a user-to-EM update: `evgen` is compared with the handle's. */
  predicate Usr2emOk(cnt: u64, evgen: nat, event: Handle, refsUsed: bool): (ok: bool)
    ensures ok <==> 0 <= SendCount(cnt) <= RefCount(cnt) && (refsUsed || event.evgen == evgen)
  {
    !(SendCount(cnt) > RefCount(cnt) || SendCount(cnt) < 0 || (!refsUsed && event.evgen != evgen))
  }

  /** User-to-EM: the counters and the verdict. The generation restarts at EVGEN_MAX. */
  function Usr2em(w: u64, event: Handle, refsUsed: bool, add: Cnt): (u64, bool)
    requires CntFits(add)
  {
    var cnt := Add(w, Pack(add));
    var left := if Unpack(cnt).evgen == EVGEN_MAX then Sub(cnt, Pack(GEN_SPAN)) else cnt;
    (left, Usr2emOk(cnt, (Unpack(cnt).evgen - 1) % TWO16, event, refsUsed))
  }

  /** The revert of a user-to-EM update. */
  function Usr2emRevert(w: u64, event: Handle, refsUsed: bool, sub: Cnt): (u64, bool)
    requires CntFits(sub)
  {
    var cnt := Sub(w, Pack(sub));
    var left := if Unpack(cnt).evgen == EVGEN_INIT - 1 then Add(cnt, Pack(GEN_SPAN)) else cnt;
    (left, Usr2emOk(left, Unpack(left).evgen, event, refsUsed))
  }

  /** The combined update of an external event: 64-bit {evgen: +1, ref_cnt: -1} in one addition. */
  function UpdateExt(w: u64, stored: Handle, event: Handle, refsUsed: bool): Outcome {
    var cmb := Sub(Pack(Cnt(1, 0, 0, 0)), Pack(ONE_REF));
    var cnt := Add(w, cmb);
    var left := if Unpack(cnt).evgen == EVGEN_MAX then Sub(cnt, Pack(GEN_SPAN)) else cnt;
    Refresh(left, stored, event, refsUsed, Em2usrOk(left))
  }
}
