/**
 Event State Verification over whole runs: the packed counters accept a run of
 operations exactly when it is legal in the ownership game that they stand for.
 */
module EventOwnership {
  import opened Wrappers
  import opened U64
  import opened EventState
  import opened EventStateCounters

  /** The generations before the count restarts. */
  const PERIOD: nat := EVGEN_MAX - EVGEN_INIT

  /**
   The references of one event owned by the user side and by EM; the user-to-EM
   transfers (sends and frees, less the reverted ones) since the counters were last
   started; and whether the event has had a second reference since it was allocated.
   */
  datatype Owners = Owners(user: nat, em: nat, transfers: int, refsUsed: bool)

  /** What the header of the event keeps of that. */
  datatype Hdr = Hdr(cnt: u64, refsUsed: bool)

  /** The operations on an event, each with the generation in the handle it is given. */
  datatype Op =
    | OpAlloc(evgen: nat)
    | OpRef(evgen: nat)
    | OpSend(evgen: nat)
    | OpFree(evgen: nat)
    | OpDispatch(evgen: nat)
    | OpSendRevert(evgen: nat)
    | OpFreeRevert(evgen: nat)

  /** What an operation leaves: the header, the generation in the handle returned, the verdict. */
  datatype Did = Did(hdr: Hdr, evgen: nat, ok: bool)

  /** The generation of an event after so many transfers. */
  function GenOf(transfers: int): nat { EVGEN_INIT + transfers % PERIOD }

  /** An allocation starts the counters anew, unless the pool is preallocated and the event had no references. */
  predicate Restarts(prealloc: bool, refsUsed: bool) {
    !prealloc || refsUsed
  }

  // ----- the game

  /** The rule of the game: who may do what. */
  ghost predicate MayMove(o: Owners, prealloc: bool, op: Op) {
    match op
    case OpAlloc(_) => Restarts(prealloc, o.refsUsed) || o.user + o.em < 0x7FFF
    case OpRef(_) => o.user + o.em < 0x7FFF
    case OpSend(g) => o.user >= 1 && (o.refsUsed || g == GenOf(o.transfers))
    case OpFree(g) => o.user >= 1 && (o.refsUsed || g == GenOf(o.transfers))
    case OpDispatch(_) => o.em >= 1
    case OpSendRevert(g) => o.em >= 1 && (o.refsUsed || g == GenOf(o.transfers - 1))
    case OpFreeRevert(g) => o.user + o.em < 0x7FFF && (o.refsUsed || g == GenOf(o.transfers - 1))
  }

  function Move(o: Owners, prealloc: bool, op: Op): Owners {
    match op
    case OpAlloc(_) => if Restarts(prealloc, o.refsUsed) then Owners(1, 0, 0, false) else o.(user := o.user + 1)
    case OpRef(_) => o.(user := o.user + 1, refsUsed := true)
    case OpSend(_) =>
      if o.user >= 1 then o.(user := o.user - 1, em := o.em + 1, transfers := o.transfers + 1) else o
    case OpFree(_) => if o.user >= 1 then o.(user := o.user - 1, transfers := o.transfers + 1) else o
    case OpDispatch(_) => if o.em >= 1 then o.(user := o.user + 1, em := o.em - 1) else o
    case OpSendRevert(_) =>
      if o.em >= 1 then o.(user := o.user + 1, em := o.em - 1, transfers := o.transfers - 1) else o
    case OpFreeRevert(_) => o.(user := o.user + 1, transfers := o.transfers - 1)
  }

  /** The game played on: the owners after the run, or None at the first illegal move. */
  ghost function Play(o: Owners, prealloc: bool, ops: seq<Op>): Option<Owners>
    decreases |ops|
  {
    if ops == [] then Some(o)
    else if MayMove(o, prealloc, ops[0]) then Play(Move(o, prealloc, ops[0]), prealloc, ops[1..])
    else None
  }

  // ----- the code

  function Em2usrDone(r: Outcome, refsUsed: bool): Did {
    Did(Hdr(r.cnt, refsUsed), r.event.evgen, r.ok)
  }

  /** What the code does with the header: `flags.refs_used` is set before a reference is
      counted, and cleared after an allocation. */
  function Apply(h: Hdr, prealloc: bool, op: Op): Did {
    var hdl := Handle(0, op.evgen);
    match op
    case OpAlloc(_) =>
      if Restarts(prealloc, h.refsUsed) then Em2usrDone(Evinit(hdl, INIT_CNT_ALLOC), false)
      else Em2usrDone(Em2usr(h.cnt, hdl, hdl, h.refsUsed, ONE_REF), false)
    case OpRef(_) => Em2usrDone(Em2usr(h.cnt, hdl, hdl, true, ONE_REF), true)
    case OpDispatch(_) => Em2usrDone(Em2usr(h.cnt, hdl, hdl, h.refsUsed, ONE_SEND), h.refsUsed)
    case OpSend(g) =>
      var (left, ok) := Usr2em(h.cnt, hdl, h.refsUsed, GEN_AND_SEND);
      Did(Hdr(left, h.refsUsed), g, ok)
    case OpFree(g) =>
      var (left, ok) := Usr2em(h.cnt, hdl, h.refsUsed, GEN_AND_REF);
      Did(Hdr(left, h.refsUsed), g, ok)
    case OpSendRevert(g) =>
      var (left, ok) := Usr2emRevert(h.cnt, hdl, h.refsUsed, GEN_AND_SEND);
      Did(Hdr(left, h.refsUsed), g, ok)
    case OpFreeRevert(g) =>
      var (left, ok) := Usr2emRevert(h.cnt, hdl, h.refsUsed, GEN_AND_REF);
      Did(Hdr(left, h.refsUsed), g, ok)
  }

  /** The header after the run, or None at the first operation that is a fatal error. */
  function Check(h: Hdr, prealloc: bool, ops: seq<Op>): Option<Hdr>
    decreases |ops|
  {
    if ops == [] then Some(h)
    else
      var did := Apply(h, prealloc, ops[0]);
      if did.ok then Check(did.hdr, prealloc, ops[1..]) else None
  }

  function CountersOf(o: Owners): Counters {
    Counters(GenOf(o.transfers), o.user + o.em, o.em)
  }

  /** The header says who owns what. */
  ghost predicate Matches(h: Hdr, o: Owners) {
    Holds(h.cnt, CountersOf(o)) && h.refsUsed == o.refsUsed
  }

  // ----- generations

  lemma GenOfNext(k: int)
    ensures GenOf(k + 1) == NextGen(GenOf(k))
    ensures PrevGen(GenOf(k + 1)) == GenOf(k)
  {
  }

  /** Generations are equal exactly when a multiple of the period lies between them. */
  lemma GenOfEqual(a: int, b: int)
    ensures GenOf(a) == GenOf(b) <==> (b - a) % PERIOD == 0
  {
    var qa, qb := a / PERIOD, b / PERIOD;
    assert b - a == (qb - qa) * PERIOD + (b % PERIOD - a % PERIOD);
  }

  /** The transfers of the game are those of the counters. */
  lemma TransferMoves(o: Owners, prealloc: bool, g: nat)
    ensures o.user >= 1 ==> CountersOf(Move(o, prealloc, OpSend(g))) == Send(CountersOf(o))
    ensures o.user >= 1 ==> CountersOf(Move(o, prealloc, OpFree(g))) == Free(CountersOf(o))
    ensures o.em >= 1 ==> CountersOf(Move(o, prealloc, OpSendRevert(g))) == UnSend(CountersOf(o))
    ensures CountersOf(Move(o, prealloc, OpFreeRevert(g))) == UnFree(CountersOf(o))
    ensures PrevGen(GenOf(o.transfers)) == GenOf(o.transfers - 1)
  {
    GenOfNext(o.transfers);
    GenOfNext(o.transfers - 1);
  }

  // ----- the checks pass exactly the legal moves

  ghost predicate IsMove(h: Hdr, o: Owners, prealloc: bool, op: Op) {
    var did := Apply(h, prealloc, op);
    && (did.ok <==> MayMove(o, prealloc, op))
    && (did.ok ==> Matches(did.hdr, Move(o, prealloc, op)))
  }

  lemma AllocIsMove(h: Hdr, o: Owners, prealloc: bool, g: nat)
    requires Matches(h, o)
    ensures IsMove(h, o, prealloc, OpAlloc(g))
    ensures MayMove(o, prealloc, OpAlloc(g)) ==>
      Apply(h, prealloc, OpAlloc(g)).evgen == GenOf(Move(o, prealloc, OpAlloc(g)).transfers)
  {
    TakeSpec(h.cnt, CountersOf(o), Handle(0, g), Handle(0, g), h.refsUsed);
    assert GenOf(0) == EVGEN_INIT;
  }

  lemma RefIsMove(h: Hdr, o: Owners, prealloc: bool, g: nat)
    requires Matches(h, o)
    ensures IsMove(h, o, prealloc, OpRef(g))
  {
    TakeSpec(h.cnt, CountersOf(o), Handle(0, g), Handle(0, g), true);
  }

  lemma DispatchIsMove(h: Hdr, o: Owners, prealloc: bool, g: nat)
    requires Matches(h, o)
    ensures IsMove(h, o, prealloc, OpDispatch(g))
    ensures Apply(h, prealloc, OpDispatch(g)).evgen == if o.refsUsed then g else GenOf(o.transfers)
  {
    DispatchSpec(h.cnt, CountersOf(o), Handle(0, g), Handle(0, g), h.refsUsed);
  }

  lemma SendIsMove(h: Hdr, o: Owners, prealloc: bool, g: nat)
    requires Matches(h, o)
    ensures IsMove(h, o, prealloc, OpSend(g))
  {
    TransferMoves(o, prealloc, g);
    SendSpec(h.cnt, CountersOf(o), Handle(0, g), h.refsUsed);
  }

  lemma FreeIsMove(h: Hdr, o: Owners, prealloc: bool, g: nat)
    requires Matches(h, o)
    ensures IsMove(h, o, prealloc, OpFree(g))
  {
    TransferMoves(o, prealloc, g);
    FreeSpec(h.cnt, CountersOf(o), Handle(0, g), h.refsUsed);
  }

  lemma SendRevertIsMove(h: Hdr, o: Owners, prealloc: bool, g: nat)
    requires Matches(h, o)
    ensures IsMove(h, o, prealloc, OpSendRevert(g))
  {
    TransferMoves(o, prealloc, g);
    SendRevertSpec(h.cnt, CountersOf(o), Handle(0, g), h.refsUsed);
  }

  lemma FreeRevertIsMove(h: Hdr, o: Owners, prealloc: bool, g: nat)
    requires Matches(h, o)
    ensures IsMove(h, o, prealloc, OpFreeRevert(g))
  {
    TransferMoves(o, prealloc, g);
    FreeRevertSpec(h.cnt, CountersOf(o), Handle(0, g), h.refsUsed);
  }

  /** The checks pass exactly the legal moves, and the header follows them. */
  lemma ApplyIsMove(h: Hdr, o: Owners, prealloc: bool, op: Op)
    requires Matches(h, o)
    ensures Apply(h, prealloc, op).ok <==> MayMove(o, prealloc, op)
    ensures MayMove(o, prealloc, op) ==> Matches(Apply(h, prealloc, op).hdr, Move(o, prealloc, op))
  {
    match op
    case OpAlloc(g) => AllocIsMove(h, o, prealloc, g);
    case OpRef(g) => RefIsMove(h, o, prealloc, g);
    case OpSend(g) => SendIsMove(h, o, prealloc, g);
    case OpFree(g) => FreeIsMove(h, o, prealloc, g);
    case OpDispatch(g) => DispatchIsMove(h, o, prealloc, g);
    case OpSendRevert(g) => SendRevertIsMove(h, o, prealloc, g);
    case OpFreeRevert(g) => FreeRevertIsMove(h, o, prealloc, g);
  }

  /** A whole run passes all checks exactly when every move of it is legal, across first
      references and new allocations; the header then says exactly who owns what. */
  lemma {:induction false} RunAccepted(h: Hdr, o: Owners, prealloc: bool, ops: seq<Op>)
    requires Matches(h, o)
    ensures Check(h, prealloc, ops).Some? <==> Play(o, prealloc, ops).Some?
    ensures Play(o, prealloc, ops).Some? ==>
      Matches(Check(h, prealloc, ops).value, Play(o, prealloc, ops).value)
    decreases |ops|
  {
    if ops != [] {
      ApplyIsMove(h, o, prealloc, ops[0]);
      if MayMove(o, prealloc, ops[0]) {
        RunAccepted(Apply(h, prealloc, ops[0]).hdr, Move(o, prealloc, ops[0]), prealloc, ops[1..]);
      }
    }
  }

  // ----- conservation

  function CountOps(ops: seq<Op>, p: Op -> int): int
    decreases |ops|
  {
    if ops == [] then 0 else p(ops[0]) + CountOps(ops[1..], p)
  }

  /** +1 for a new reference, -1 for a freed one. */
  function RefChange(op: Op): int {
    if op.OpAlloc? || op.OpRef? || op.OpFreeRevert? then 1 else if op.OpFree? then -1 else 0
  }

  /** +1 for a reference given to EM, -1 for one given back. */
  function EmChange(op: Op): int {
    if op.OpSend? then 1 else if op.OpDispatch? || op.OpSendRevert? then -1 else 0
  }

  /** Where an allocation starts the counters anew, the event was back in its pool, with no reference left. */
  ghost predicate AllocsFromPool(o: Owners, prealloc: bool, ops: seq<Op>)
    decreases |ops|
  {
    ops != [] ==>
      && (ops[0].OpAlloc? && Restarts(prealloc, o.refsUsed) ==> o.user + o.em == 0)
      && AllocsFromPool(Move(o, prealloc, ops[0]), prealloc, ops[1..])
  }

  lemma {:induction false} OwnersConserved(o: Owners, prealloc: bool, ops: seq<Op>)
    requires Play(o, prealloc, ops).Some? && AllocsFromPool(o, prealloc, ops)
    ensures var left := Play(o, prealloc, ops).value;
      && left.user + left.em == o.user + o.em + CountOps(ops, RefChange)
      && left.em == o.em + CountOps(ops, EmChange)
    decreases |ops|
  {
    if ops != [] {
      OwnersConserved(Move(o, prealloc, ops[0]), prealloc, ops[1..]);
    }
  }

  /** After an accepted run the counts are what its operations add up to; a revert counts
      as giving back, whether or not there was anything to undo. */
  lemma ReferencesConserved(h: Hdr, o: Owners, prealloc: bool, ops: seq<Op>)
    requires Matches(h, o) && Check(h, prealloc, ops).Some? && AllocsFromPool(o, prealloc, ops)
    ensures var left := Check(h, prealloc, ops).value.cnt;
      && RefCount(left) == o.user + o.em + CountOps(ops, RefChange)
      && SendCount(left) == o.em + CountOps(ops, EmChange)
      && 0 <= SendCount(left) <= RefCount(left)
  {
    RunAccepted(h, o, prealloc, ops);
    OwnersConserved(o, prealloc, ops);
    HeldCounts(Check(h, prealloc, ops).value.cnt, CountersOf(Play(o, prealloc, ops).value));
  }

  // ----- reverts that undo

  /** 1 for an allocation or a further reference. */
  function Taken(op: Op): int { if op.OpAlloc? || op.OpRef? then 1 else 0 }

  function Freed(op: Op): int { if op.OpFree? then 1 else 0 }

  function Unfreed(op: Op): int { if op.OpFreeRevert? then 1 else 0 }

  lemma {:induction false} RefChangeParts(ops: seq<Op>)
    ensures CountOps(ops, RefChange) == CountOps(ops, Taken) - CountOps(ops, Freed) + CountOps(ops, Unfreed)
    decreases |ops|
  {
    if ops != [] {
      RefChangeParts(ops[1..]);
    }
  }

  /** An accepted run has made up a reference exactly if it reverted more frees than there were. */
  lemma NoneMadeUpIff(h: Hdr, o: Owners, prealloc: bool, ops: seq<Op>)
    requires Matches(h, o) && Check(h, prealloc, ops).Some? && AllocsFromPool(o, prealloc, ops)
    ensures RefCount(Check(h, prealloc, ops).value.cnt) <= o.user + o.em + CountOps(ops, Taken)
            <==> CountOps(ops, Unfreed) <= CountOps(ops, Freed)
  {
    ReferencesConserved(h, o, prealloc, ops);
    RefChangeParts(ops);
  }

  predicate IsRevert(op: Op) {
    op.OpSendRevert? || op.OpFreeRevert?
  }

  predicate Undoes(a: Op, b: Op) {
    (a.OpSend? && b.OpSendRevert?) || (a.OpFree? && b.OpFreeRevert?)
  }

  /** Every revert directly follows the send or free that it undoes. */
  predicate RevertsFollow(ops: seq<Op>)
    decreases |ops|
  {
    ops != [] ==>
      && !IsRevert(ops[0])
      && if |ops| >= 2 && IsRevert(ops[1]) then Undoes(ops[0], ops[1]) && RevertsFollow(ops[2..])
         else RevertsFollow(ops[1..])
  }

  /** The run without what was undone. */
  function Cancelled(ops: seq<Op>): seq<Op>
    decreases |ops|
  {
    if |ops| < 2 then ops
    else if Undoes(ops[0], ops[1]) then Cancelled(ops[2..])
    else [ops[0]] + Cancelled(ops[1..])
  }

  lemma UndoneIsBack(o: Owners, prealloc: bool, a: Op, b: Op)
    requires MayMove(o, prealloc, a) && Undoes(a, b)
    ensures Move(Move(o, prealloc, a), prealloc, b) == o
  {
  }

  lemma {:induction false} CancelledPlays(o: Owners, prealloc: bool, ops: seq<Op>)
    requires Play(o, prealloc, ops).Some?
    ensures Play(o, prealloc, Cancelled(ops)) == Play(o, prealloc, ops)
    ensures AllocsFromPool(o, prealloc, ops) ==> AllocsFromPool(o, prealloc, Cancelled(ops))
    decreases |ops|
  {
    if |ops| >= 2 {
      var next := Move(o, prealloc, ops[0]);
      if Undoes(ops[0], ops[1]) {
        UndoneIsBack(o, prealloc, ops[0], ops[1]);
        assert ops[1..][1..] == ops[2..] && ops[1..][0] == ops[1];
        assert AllocsFromPool(o, prealloc, ops) ==> AllocsFromPool(next, prealloc, ops[1..]);
        assert AllocsFromPool(next, prealloc, ops[1..]) ==> AllocsFromPool(o, prealloc, ops[2..]);
        CancelledPlays(o, prealloc, ops[2..]);
      } else {
        CancelledPlays(next, prealloc, ops[1..]);
        assert ([ops[0]] + Cancelled(ops[1..]))[1..] == Cancelled(ops[1..]);
      }
    }
  }

  lemma {:induction false} CancelledNoReverts(ops: seq<Op>)
    requires RevertsFollow(ops)
    ensures forall op :: op in Cancelled(ops) ==> !IsRevert(op)
    decreases |ops|
  {
    if |ops| >= 2 {
      CancelledNoReverts(if IsRevert(ops[1]) then ops[2..] else ops[1..]);
    }
  }

  lemma {:induction false} NoRevertsNoneUnfreed(ops: seq<Op>)
    requires forall op :: op in ops ==> !IsRevert(op)
    ensures CountOps(ops, Unfreed) == 0
    decreases |ops|
  {
    if ops != [] {
      assert ops[0] in ops;
      NoRevertsNoneUnfreed(ops[1..]);
    }
  }

  /** Two headers that stand for the same owners are the same. */
  lemma SameHdr(h: Hdr, g: Hdr, o: Owners)
    requires Matches(h, o) && Matches(g, o)
    ensures h == g
  {
  }

  /**
   Reverts that undo leave no trace: an accepted run in which every revert directly follows
   its send or free leaves the very same header as the run without all that, which is accepted
   too; and no reference is lost or made up.
   */
  lemma RevertsLeaveNoTrace(h: Hdr, o: Owners, prealloc: bool, ops: seq<Op>)
    requires Matches(h, o) && Check(h, prealloc, ops).Some? && RevertsFollow(ops) && AllocsFromPool(o, prealloc, ops)
    ensures forall op :: op in Cancelled(ops) ==> !IsRevert(op)
    ensures Check(h, prealloc, Cancelled(ops)) == Check(h, prealloc, ops)
    ensures RefCount(Check(h, prealloc, ops).value.cnt)
            == o.user + o.em + CountOps(Cancelled(ops), Taken) - CountOps(Cancelled(ops), Freed)
  {
    var rest := Cancelled(ops);
    RunAccepted(h, o, prealloc, ops);
    RunAccepted(h, o, prealloc, rest);
    CancelledPlays(o, prealloc, ops);
    CancelledNoReverts(ops);
    SameHdr(Check(h, prealloc, ops).value, Check(h, prealloc, rest).value, Play(o, prealloc, ops).value);
    ReferencesConserved(h, o, prealloc, rest);
    RefChangeParts(rest);
    NoRevertsNoneUnfreed(rest);
  }

  /** A revert with nothing to undo is accepted, and makes up a reference. */
  lemma UnmatchedRevertMakesUp(h: Hdr, o: Owners, prealloc: bool)
    requires Matches(h, o) && o.user + o.em < 0x7FFF
    ensures var left := Check(h, prealloc, [OpFreeRevert(GenOf(o.transfers - 1))]);
            left.Some? && RefCount(left.value.cnt) == o.user + o.em + 1
  {
    var ops := [OpFreeRevert(GenOf(o.transfers - 1))];
    assert ops[1..] == [];
    RunAccepted(h, o, prealloc, ops);
    HeldCounts(Check(h, prealloc, ops).value.cnt, CountersOf(Play(o, prealloc, ops).value));
  }

  // ----- handles over a run

  /** +1 for a send or free, -1 for one that is reverted. */
  function TransferChange(op: Op): int {
    if op.OpSend? || op.OpFree? then 1 else if op.OpSendRevert? || op.OpFreeRevert? then -1 else 0
  }

  /** No allocation of the run starts the counters anew. */
  ghost predicate NoRestart(o: Owners, prealloc: bool, ops: seq<Op>)
    decreases |ops|
  {
    ops != [] ==>
      && !(ops[0].OpAlloc? && Restarts(prealloc, o.refsUsed))
      && NoRestart(Move(o, prealloc, ops[0]), prealloc, ops[1..])
  }

  lemma {:induction false} TransfersCounted(o: Owners, prealloc: bool, ops: seq<Op>)
    requires Play(o, prealloc, ops).Some? && NoRestart(o, prealloc, ops)
    ensures Play(o, prealloc, ops).value.transfers == o.transfers + CountOps(ops, TransferChange)
    decreases |ops|
  {
    if ops != [] {
      TransfersCounted(Move(o, prealloc, ops[0]), prealloc, ops[1..]);
    }
  }

  /** The operation returns a handle with the generation of the moment. */
  predicate Issues(o: Owners, op: Op) {
    op.OpAlloc? || (op.OpDispatch? && !o.refsUsed)
  }

  lemma IssuedIsCurrent(h: Hdr, o: Owners, prealloc: bool, op: Op)
    requires Matches(h, o) && MayMove(o, prealloc, op) && Issues(o, op)
    ensures Apply(h, prealloc, op).evgen == GenOf(Move(o, prealloc, op).transfers)
  {
    if op.OpAlloc? {
      AllocIsMove(h, o, prealloc, op.evgen);
    } else {
      DispatchIsMove(h, o, prealloc, op.evgen);
    }
  }

  /** A handle issued after so many transfers, presented now. */
  lemma AcceptedOfAge(h: Hdr, o: Owners, prealloc: bool, issued: int)
    requires Matches(h, o)
    ensures var hdl, ok := GenOf(issued), o.user >= 1 && (o.refsUsed || (o.transfers - issued) % PERIOD == 0);
            (Apply(h, prealloc, OpSend(hdl)).ok <==> ok) && (Apply(h, prealloc, OpFree(hdl)).ok <==> ok)
  {
    GenOfEqual(issued, o.transfers);
    ApplyIsMove(h, o, prealloc, OpSend(GenOf(issued)));
    ApplyIsMove(h, o, prealloc, OpFree(GenOf(issued)));
  }

  /**
   The handle that an operation of an accepted run returned, presented after any further
   accepted operations, is accepted exactly when the user side owns a reference, and
   either references are in use or a multiple of the period, 57343, lies between the
   transfer counts.
   */
  lemma HandleAcceptedIff(h: Hdr, o: Owners, prealloc: bool, op: Op, ops: seq<Op>)
    requires Matches(h, o) && MayMove(o, prealloc, op) && Issues(o, op)
    requires Play(Move(o, prealloc, op), prealloc, ops).Some?
    ensures Apply(h, prealloc, op).ok && Check(Apply(h, prealloc, op).hdr, prealloc, ops).Some?
    ensures var issue, hdl := Move(o, prealloc, op), Apply(h, prealloc, op).evgen;
            var left, use := Check(Apply(h, prealloc, op).hdr, prealloc, ops).value, Play(issue, prealloc, ops).value;
            var ok := use.user >= 1 && (use.refsUsed || (use.transfers - issue.transfers) % PERIOD == 0);
            (Apply(left, prealloc, OpSend(hdl)).ok <==> ok) && (Apply(left, prealloc, OpFree(hdl)).ok <==> ok)
  {
    var did, issue := Apply(h, prealloc, op), Move(o, prealloc, op);
    ApplyIsMove(h, o, prealloc, op);
    IssuedIsCurrent(h, o, prealloc, op);
    RunAccepted(did.hdr, issue, prealloc, ops);
    var left, use := Check(did.hdr, prealloc, ops).value, Play(issue, prealloc, ops).value;
    AcceptedOfAge(left, use, prealloc, issue.transfers);
  }

  lemma {:induction false} PlayConcat(o: Owners, prealloc: bool, a: seq<Op>, b: seq<Op>)
    ensures Play(o, prealloc, a + b) ==
            match Play(o, prealloc, a) case None => None case Some(m) => Play(m, prealloc, b)
    decreases |a|
  {
    if a == [] {
      assert a + b == b;
    } else {
      assert (a + b)[1..] == a[1..] + b;
      PlayConcat(Move(o, prealloc, a[0]), prealloc, a[1..], b);
    }
  }

  lemma {:induction false} CheckConcat(h: Hdr, prealloc: bool, a: seq<Op>, b: seq<Op>)
    ensures Check(h, prealloc, a + b) ==
            match Check(h, prealloc, a) case None => None case Some(m) => Check(m, prealloc, b)
    decreases |a|
  {
    if a == [] {
      assert a + b == b;
    } else {
      assert (a + b)[1..] == a[1..] + b;
      CheckConcat(Apply(h, prealloc, a[0]).hdr, prealloc, a[1..], b);
    }
  }

  /** Does the run pass if a send, or a free, with this handle is added to it? */
  predicate PassesWith(h: Hdr, prealloc: bool, ops: seq<Op>, use: Op) {
    Check(h, prealloc, ops + [use]).Some?
  }

  lemma AddOne(h: Hdr, prealloc: bool, ops: seq<Op>, use: Op)
    requires Check(h, prealloc, ops).Some?
    ensures PassesWith(h, prealloc, ops, use) <==> Apply(Check(h, prealloc, ops).value, prealloc, use).ok
  {
    CheckConcat(h, prealloc, ops, [use]);
    assert [use][1..] == [];
  }

  /** The run `before`, then op, then `between`, is accepted, and op returns a handle. */
  ghost predicate IssuesIn(o: Owners, prealloc: bool, before: seq<Op>, op: Op, between: seq<Op>) {
    && Play(o, prealloc, before).Some?
    && var at := Play(o, prealloc, before).value;
    && Issues(at, op) && MayMove(at, prealloc, op)
    && Play(Move(at, prealloc, op), prealloc, between).Some?
  }

  /**
   Over whole runs: the handle that op returned, presented after `between`, lets the run
   go on exactly when the user side then owns a reference, and either references are in
   use or the transfers in between are a multiple of 57343.
   */
  lemma HandleInRun(h: Hdr, o: Owners, prealloc: bool, before: seq<Op>, op: Op, between: seq<Op>)
    requires Matches(h, o) && IssuesIn(o, prealloc, before, op, between)
    requires NoRestart(Move(Play(o, prealloc, before).value, prealloc, op), prealloc, between)
    ensures Check(h, prealloc, before).Some? && Play(o, prealloc, before + ([op] + between)).Some?
    ensures var hdl := Apply(Check(h, prealloc, before).value, prealloc, op).evgen;
            var run := before + ([op] + between);
            var use := Play(o, prealloc, run).value;
            var ok := use.user >= 1 && (use.refsUsed || CountOps(between, TransferChange) % PERIOD == 0);
            (PassesWith(h, prealloc, run, OpSend(hdl)) <==> ok) && (PassesWith(h, prealloc, run, OpFree(hdl)) <==> ok)
  {
    var at := Play(o, prealloc, before).value;
    RunAccepted(h, o, prealloc, before);
    var mid := Check(h, prealloc, before).value;
    var did := Apply(mid, prealloc, op);
    HandleAcceptedIff(mid, at, prealloc, op, between);
    TransfersCounted(Move(at, prealloc, op), prealloc, between);
    assert ([op] + between)[1..] == between;
    PlayConcat(o, prealloc, before, [op] + between);
    CheckConcat(h, prealloc, before, [op] + between);
    AddOne(h, prealloc, before + ([op] + between), OpSend(did.evgen));
    AddOne(h, prealloc, before + ([op] + between), OpFree(did.evgen));
  }

  /** A handle that is 1 to 57342 transfers old is rejected, whoever owns the event, unless references are in use. */
  lemma StaleHandleRejected(h: Hdr, o: Owners, prealloc: bool, before: seq<Op>, op: Op, between: seq<Op>)
    requires Matches(h, o) && IssuesIn(o, prealloc, before, op, between)
    requires NoRestart(Move(Play(o, prealloc, before).value, prealloc, op), prealloc, between)
    requires 1 <= CountOps(between, TransferChange) < PERIOD
    requires !Play(Move(Play(o, prealloc, before).value, prealloc, op), prealloc, between).value.refsUsed
    ensures PERIOD == 57343 && Check(h, prealloc, before).Some?
    ensures var hdl := Apply(Check(h, prealloc, before).value, prealloc, op).evgen;
            var run := before + ([op] + between);
            !PassesWith(h, prealloc, run, OpSend(hdl)) && !PassesWith(h, prealloc, run, OpFree(hdl))
  {
    HandleInRun(h, o, prealloc, before, op, between);
    assert ([op] + between)[1..] == between;
    PlayConcat(o, prealloc, before, [op] + between);
  }

  /** The limit of the detection: a handle of exactly one period ago looks current again. */
  lemma PeriodOldHandleAccepted(h: Hdr, o: Owners, prealloc: bool)
    requires Matches(h, o) && o.user >= 1
    ensures var past := GenOf(o.transfers - PERIOD);
            Apply(h, prealloc, OpSend(past)).ok && Apply(h, prealloc, OpFree(past)).ok
  {
    var past := GenOf(o.transfers - PERIOD);
    GenOfEqual(o.transfers - PERIOD, o.transfers);
    ApplyIsMove(h, o, prealloc, OpSend(past));
    ApplyIsMove(h, o, prealloc, OpFree(past));
  }

  // ----- runs across a first reference and a new allocation

  /** Allocate, add a reference, free twice with one and the same handle. */
  function SharedRun(g: nat, hdl: nat): seq<Op> {
    [OpAlloc(g), OpRef(hdl), OpFree(hdl), OpFree(hdl)]
  }

  /** The first move of a run; the rest follows. */
  lemma PlayFirst(o: Owners, prealloc: bool, op: Op, ops: seq<Op>)
    requires MayMove(o, prealloc, op)
    ensures Play(o, prealloc, [op] + ops) == Play(Move(o, prealloc, op), prealloc, ops)
    ensures AllocsFromPool(o, prealloc, [op] + ops) <==>
      && (op.OpAlloc? && Restarts(prealloc, o.refsUsed) ==> o.user + o.em == 0)
      && AllocsFromPool(Move(o, prealloc, op), prealloc, ops)
  {
    assert ([op] + ops)[1..] == ops;
  }

  /** The flag is set on the way, and both frees pass although the first one moved the generation on. */
  lemma SharedRunLegal(o: Owners, g: nat, hdl: nat, ops: seq<Op>)
    requires o.user == o.em == 0 && !o.refsUsed
    ensures var left := Owners(0, 0, o.transfers + 2, true);
            && Play(o, true, SharedRun(g, hdl) + ops) == Play(left, true, ops)
            && (AllocsFromPool(o, true, SharedRun(g, hdl) + ops) <==> AllocsFromPool(left, true, ops))
  {
    var f := OpFree(hdl);
    assert SharedRun(g, hdl) + ops == [OpAlloc(g)] + ([OpRef(hdl)] + ([f] + ([f] + ops)));
    PlayFirst(o, true, OpAlloc(g), [OpRef(hdl)] + ([f] + ([f] + ops)));
    PlayFirst(o.(user := 1), true, OpRef(hdl), [f] + ([f] + ops));
    PlayFirst(o.(user := 2, refsUsed := true), true, f, [f] + ops);
    PlayFirst(o.(user := 1, refsUsed := true, transfers := o.transfers + 1), true, f, ops);
  }

  /** The two references share a handle, which both frees pass with. */
  lemma SharedRunAccepted(h: Hdr, o: Owners, g: nat, hdl: nat)
    requires Matches(h, o) && o.user == o.em == 0 && !o.refsUsed
    ensures var left := Check(h, true, SharedRun(g, hdl));
            left.Some? && Matches(left.value, Owners(0, 0, o.transfers + 2, true))
  {
    SharedRunLegal(o, g, hdl, []);
    assert SharedRun(g, hdl) + [] == SharedRun(g, hdl);
    RunAccepted(h, o, true, SharedRun(g, hdl));
  }

  /** An allocation that starts the counters anew forgets them: a handle issued at their start,
      whose references have all been freed, is accepted once more. */
  lemma RestartForgetsHandles(h: Hdr, g: nat)
    requires Matches(h, Owners(0, 0, 0, false))
    ensures var hdl := Apply(h, true, OpAlloc(g)).evgen;
            PassesWith(h, true, SharedRun(g, hdl) + [OpAlloc(g)], OpFree(hdl))
  {
    var o, next := Owners(0, 0, 0, false), Owners(1, 0, 0, false);
    var hdl := Apply(h, true, OpAlloc(g)).evgen;
    AllocIsMove(h, o, true, g);
    SharedRunLegal(o, g, hdl, [OpAlloc(g)] + ([OpFree(hdl)] + []));
    PlayFirst(Owners(0, 0, 2, true), true, OpAlloc(g), [OpFree(hdl)] + []);
    PlayFirst(next, true, OpFree(hdl), []);
    var ops := SharedRun(g, hdl) + [OpAlloc(g)] + [OpFree(hdl)];
    assert ops == SharedRun(g, hdl) + ([OpAlloc(g)] + ([OpFree(hdl)] + []));
    RunAccepted(h, o, true, ops);
  }
}
