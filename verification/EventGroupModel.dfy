/**
 Event-group counters in safe mode: fork and join over one counter word that
 any number of cores update with compare-and-swap loops.

 A core that is about to receive events of the group takes them off the pre-count
 (or is turned away), and after the receive takes them off the post-count; the
 core that brings the post-count to zero obtains the notifications to send. There is
 one step per access of the counter word and one per pass over the notification table.
 */
module EventGroupModel {
  const CNT_MAX: nat := 0xFF_FFFF   // 24 bits
  const GEN_MOD: nat := 0x8000      // 15 bits
  const MAX_NOTIF: nat := 6

  /** A notification: what to send where, as one number. */
  type Notif = nat

  /** `egrp_counter_t` */
  datatype Counter = Counter(pre: nat, post: nat, applied: bool, gen: nat)

  /** A core: `decr` events of the group, tagged with generation `gen`. */
  datatype Pc =
    | Outside
    | ApplyLoad(count: nat, notifs: seq<Notif>)                 // em_event_group_apply: load and check
    | ApplyWrite(count: nat, notifs: seq<Notif>, seen: Counter) // em_event_group_apply: write the table
    | ApplyCas(count: nat, notifs: seq<Notif>, seen: Counter)   // em_event_group_apply: CAS
    | PreLoad(decr: nat, gen: nat)                         // pre_count_decrement: load and check
    | PreCas(decr: nat, gen: nat, seen: Counter)           // pre_count_decrement: CAS
    | AssignLoad(decr: nat)                                // em_event_group_assign: load and check
    | AssignCas(decr: nat, seen: Counter)                  // em_event_group_assign: CAS
    | Receiving(decr: nat, gen: nat)                       // in the EO receive, with the group as current
    | IncLoad(decr: nat, gen: nat, incr: nat)              // em_event_group_increment: load and check
    | IncCas(decr: nat, gen: nat, incr: nat, seen: Counter)
    | PostLoad(decr: nat, gen: nat)                        // post_count_decrement: load and check
    | PostCopy(decr: nat, gen: nat, seen: Counter)         // post_count_decrement: copy the table, if done
    | PostCas(decr: nat, gen: nat, seen: Counter, notifs: seq<Notif>) // post_count_decrement: CAS
    | AbortLoad(decr: nat, gen: nat)                // em_event_group_abort, of a receive's own group if decr > 0
    | AbortCas(decr: nat, gen: nat, seen: Counter)  // em_event_group_abort: CAS

  datatype State = State(
    counter: Counter,
    table: seq<Notif>, // the group's notification table
    cores: seq<Pc>,
    ordered: seq<seq<Notif>>, // history: the notifications of the applies that succeeded and were not aborted
    sent: seq<seq<Notif>>,    // history: what cores obtained to send
    applies: nat,    // history: the applies that succeeded
    since: seq<nat>, // history: for each core, `applies` when its receive was admitted
    budget: nat,     // history: events applied and incremented since the last apply; an abort gives up the rest
    finished: nat)   // history: of these, the events whose receive is over

  datatype Action =
    | Apply(count: nat, notifs: seq<Notif>) // em_event_group_apply(), past its argument checks
    | Arrive(decr: nat, gen: nat) // events of the group reach the core
    | Assign(decr: nat)          // user code calls em_event_group_assign() in a receive without a group
    | Increment(incr: nat)       // user code calls em_event_group_increment()
    | EndReceive                 // the receive returns, or em_event_group_processing_end()
    | Abort                      // em_event_group_abort(), in a receive of the group or anywhere else
    | Go                         // the core's next access of the counter word

  ghost predicate Init(s: State) {
    && s.counter.pre == 0 && s.counter.post == 0 && !s.counter.applied && s.counter.gen < GEN_MOD
    && s.table == [] && s.ordered == s.sent == []
    && s.applies == s.budget == s.finished == 0
    && (forall c :: 0 <= c < |s.cores| ==> s.cores[c] == Outside)
    && |s.since| == |s.cores| && forall c :: 0 <= c < |s.since| ==> s.since[c] == 0
  }

  /** `valid_pre_cnt()` */
  predicate ValidPre(v: Counter, decr: nat, gen: nat) {
    !(v.pre < decr || !v.applied || v.gen != gen)
  }

  /** `valid_post_cnt()` */
  predicate ValidPost(v: Counter, decr: nat, gen: nat) {
    !(v.post < decr || v.gen != gen)
  }

  /** The check of `em_event_group_assign()`: the generation is the group's own */
  predicate ValidAssign(v: Counter, decr: nat) {
    !(v.pre < decr || !v.applied)
  }

  /** The checks of `em_event_group_increment()` */
  predicate ValidInc(v: Counter, incr: nat, gen: nat) {
    !(v.gen != gen || !v.applied) && !(v.pre + incr > CNT_MAX || v.post + incr > CNT_MAX)
  }

  ghost predicate Enabled(s: State, c: nat, a: Action) {
    c < |s.cores| == |s.since| &&
    match a
    case Apply(count, notifs) => s.cores[c].Outside? && 1 <= count <= CNT_MAX && |notifs| <= MAX_NOTIF
    case Arrive(decr, _) => s.cores[c].Outside? && decr >= 1
    case Increment(incr) => s.cores[c].Receiving? && 1 <= incr <= CNT_MAX - 1
    case EndReceive => s.cores[c].Receiving?
    case Assign(decr) => s.cores[c].Outside? && decr >= 1
    case Abort => s.cores[c].Outside? || s.cores[c].Receiving?
    case Go => !s.cores[c].Outside? && !s.cores[c].Receiving?
  }

  function At(s: State, c: nat, pc: Pc): State
    requires c < |s.cores|
  {
    s.(cores := s.cores[c := pc])
  }

  /** The core's events are admitted to the group's present cycle. */
  function Admit(s: State, c: nat, decr: nat, gen: nat, seen: Counter): State
    requires c < |s.cores| == |s.since|
  {
    At(s.(counter := seen.(pre := if seen.pre >= decr then seen.pre - decr else 0),
          since := s.since[c := s.applies]), c, Receiving(decr, gen))
  }

  function PreCasStep(s: State, c: nat, decr: nat, gen: nat, seen: Counter): State
    requires c < |s.cores| == |s.since|
  {
    if s.counter == seen then Admit(s, c, decr, gen, seen)
    else At(s, c, PreLoad(decr, gen))
  }

  function AssignCasStep(s: State, c: nat, decr: nat, seen: Counter): State
    requires c < |s.cores| == |s.since|
  {
    if s.counter == seen then Admit(s, c, decr, seen.gen, seen) else At(s, c, AssignLoad(decr))
  }

  function IncCasStep(s: State, c: nat, decr: nat, gen: nat, incr: nat, seen: Counter): State
    requires c < |s.cores|
  {
    if s.counter == seen then
      At(s.(counter := seen.(pre := seen.pre + incr, post := seen.post + incr), budget := s.budget + incr),
         c, Receiving(decr, gen))
    else At(s, c, IncLoad(decr, gen, incr))
  }

  /** The counter after taking `decr` off the post-count; at zero the group is no longer applied. */
  function PostTaken(v: Counter, decr: nat): Counter {
    var post := if v.post >= decr then v.post - decr else 0;
    v.(post := post, applied := v.applied && post != 0)
  }

  function PostCasStep(s: State, c: nat, decr: nat, gen: nat, seen: Counter, notifs: seq<Notif>): State
    requires c < |s.cores|
  {
    if s.counter == seen then
      var v := PostTaken(seen, decr);
      At(s.(counter := v, sent := s.sent + (if v.post == 0 then [notifs] else []), finished := s.finished + decr),
         c, Outside)
    else At(s, c, PostLoad(decr, gen))
  }

  /** A new generation of the group, from one that is not applied. */
  function Applied(seen: Counter, count: nat): Counter {
    Counter(count, count, true, (seen.gen + 1) % GEN_MOD)
  }

  function ApplyCasStep(s: State, c: nat, count: nat, notifs: seq<Notif>, seen: Counter): State
    requires c < |s.cores|
  {
    if s.counter == seen then
      At(s.(counter := Applied(seen, count), ordered := s.ordered + [notifs], applies := s.applies + 1,
            budget := count, finished := 0), c, Outside)
    else At(s, c, ApplyLoad(count, notifs))
  }

  /** Back to the receive in which the abort was called, if it was called in one. */
  function AfterAbort(decr: nat, gen: nat): Pc {
    if decr > 0 then Receiving(decr, gen) else Outside
  }

  /** The counter of a group that is ready for a new apply. */
  function Aborted(seen: Counter): Counter {
    seen.(pre := 0, post := 0, applied := false)
  }

  /** An abort that succeeds deactivates the caller's own current group. */
  function AbortCasStep(s: State, c: nat, decr: nat, gen: nat, seen: Counter): State
    requires c < |s.cores|
  {
    if s.counter == seen then
      At(s.(counter := Aborted(seen), ordered := if s.ordered == [] then [] else s.ordered[..|s.ordered| - 1],
            budget := s.finished), c, Outside)
    else At(s, c, AbortLoad(decr, gen))
  }

  ghost function Step(s: State, c: nat, a: Action): State
    requires Enabled(s, c, a)
  {
    match a
    case Apply(count, notifs) => At(s, c, ApplyLoad(count, notifs))
    case Arrive(decr, gen) => At(s, c, PreLoad(decr, gen))
    case Increment(incr) => At(s, c, IncLoad(s.cores[c].decr, s.cores[c].gen, incr))
    case EndReceive => At(s, c, PostLoad(s.cores[c].decr, s.cores[c].gen))
    case Assign(decr) => At(s, c, AssignLoad(decr))
    case Abort =>
      At(s, c, if s.cores[c].Receiving? then AbortLoad(s.cores[c].decr, s.cores[c].gen) else AbortLoad(0, 0))
    case Go =>
      match s.cores[c]
      case ApplyLoad(count, notifs) =>
        At(s, c, if s.counter.applied then Outside else ApplyWrite(count, notifs, s.counter))
      case ApplyWrite(count, notifs, seen) => At(s.(table := notifs), c, ApplyCas(count, notifs, seen))
      case ApplyCas(count, notifs, seen) => ApplyCasStep(s, c, count, notifs, seen)
      case PreLoad(decr, gen) =>
        At(s, c, if ValidPre(s.counter, decr, gen) then PreCas(decr, gen, s.counter) else Outside)
      case PreCas(decr, gen, seen) => PreCasStep(s, c, decr, gen, seen)
      case AssignLoad(decr) =>
        At(s, c, if ValidAssign(s.counter, decr) then AssignCas(decr, s.counter) else Outside)
      case AssignCas(decr, seen) => AssignCasStep(s, c, decr, seen)
      case IncLoad(decr, gen, incr) =>
        At(s, c, if ValidInc(s.counter, incr, gen) then IncCas(decr, gen, incr, s.counter) else Receiving(decr, gen))
      case IncCas(decr, gen, incr, seen) => IncCasStep(s, c, decr, gen, incr, seen)
      case PostLoad(decr, gen) =>
        At(s, c, if ValidPost(s.counter, decr, gen) then PostCopy(decr, gen, s.counter) else Outside)
      case PostCopy(decr, gen, seen) =>
        At(s, c, PostCas(decr, gen, seen, if PostTaken(seen, decr).post == 0 then s.table else []))
      case PostCas(decr, gen, seen, notifs) => PostCasStep(s, c, decr, gen, seen, notifs)
      case AbortLoad(decr, gen) =>
        At(s, c, if s.counter.applied then AbortCas(decr, gen, s.counter) else AfterAbort(decr, gen))
      case AbortCas(decr, gen, seen) => AbortCasStep(s, c, decr, gen, seen)
  }

  /** A run: any schedule of any actions of any cores, over any number of applies. */
  ghost predicate IsRun(run: seq<State>, who: seq<nat>, acts: seq<Action>) {
    && |run| == |who| + 1 == |acts| + 1
    && Init(run[0])
    && forall i :: 0 <= i < |who| ==> Enabled(run[i], who[i], acts[i]) && run[i + 1] == Step(run[i], who[i], acts[i])
  }
}
