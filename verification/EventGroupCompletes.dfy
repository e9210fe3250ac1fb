/**
 Who is admitted to an event group, and that nothing keeps a group from completing:
 from every reachable state its remaining events, in whatever portions they arrive, are
 all admitted and counted, and the notifications are sent.
 */
module EventGroupCompletes {
  import opened EventGroupModel
  import opened EventGroupTheorems
  import opened EventGroupRuns
  import opened Traces
  import opened Seqs

  // ----- what the checks accept, in every run

  /** Arriving events are admitted exactly if the group is applied, they are of its generation, and it still counts them. */
  lemma AdmittedIff(run: seq<State>, who: seq<nat>, acts: seq<Action>, i: nat)
    requires IsRun(run, who, acts) && i < |who| && acts[i].Go? && run[i].cores[who[i]].PreLoad?
    ensures var v, pc, next := run[i].counter, run[i].cores[who[i]], run[i + 1].cores[who[i]];
      if v.applied && v.gen == pc.gen && pc.decr <= v.pre then next == PreCas(pc.decr, pc.gen, v) else next == Outside
    ensures run[i + 1].counter == run[i].counter
  {
    assert Enabled(run[i], who[i], acts[i]);
  }

  /** The group is assigned exactly if it is applied and still counts the events of the receive. */
  lemma AssignedIff(run: seq<State>, who: seq<nat>, acts: seq<Action>, i: nat)
    requires IsRun(run, who, acts) && i < |who| && acts[i].Go? && run[i].cores[who[i]].AssignLoad?
    ensures var v, pc, next := run[i].counter, run[i].cores[who[i]], run[i + 1].cores[who[i]];
      if v.applied && pc.decr <= v.pre then next == AssignCas(pc.decr, v) else next == Outside
    ensures run[i + 1].counter == run[i].counter
  {
    assert Enabled(run[i], who[i], acts[i]);
  }

  /** A receive may increment exactly if the group is applied, in its generation, and neither count overflows. */
  lemma IncrementedIff(run: seq<State>, who: seq<nat>, acts: seq<Action>, i: nat)
    requires IsRun(run, who, acts) && i < |who| && acts[i].Go? && run[i].cores[who[i]].IncLoad?
    ensures var v, pc, next := run[i].counter, run[i].cores[who[i]], run[i + 1].cores[who[i]];
      if v.applied && v.gen == pc.gen && v.pre + pc.incr <= CNT_MAX && v.post + pc.incr <= CNT_MAX
      then next == IncCas(pc.decr, pc.gen, pc.incr, v) else next == Receiving(pc.decr, pc.gen)
    ensures run[i + 1].counter == run[i].counter
  {
    assert Enabled(run[i], who[i], acts[i]);
  }

  /** The group can be applied exactly if it is not; the apply of an applied group is refused, and is over. */
  lemma AppliedIff(run: seq<State>, who: seq<nat>, acts: seq<Action>, i: nat)
    requires IsRun(run, who, acts) && i < |who| && acts[i].Go? && run[i].cores[who[i]].ApplyLoad?
    ensures var v, pc, next := run[i].counter, run[i].cores[who[i]], run[i + 1].cores[who[i]];
      if v.applied then next == Outside else next == ApplyWrite(pc.count, pc.notifs, v)
    ensures run[i + 1].counter == run[i].counter && run[i + 1].table == run[i].table
  {
    assert Enabled(run[i], who[i], acts[i]);
  }

  /** An abort comes too late exactly if the group is not applied; a receive that called it then goes on. */
  lemma AbortedIff(run: seq<State>, who: seq<nat>, acts: seq<Action>, i: nat)
    requires IsRun(run, who, acts) && i < |who| && acts[i].Go? && run[i].cores[who[i]].AbortLoad?
    ensures var v, pc, next := run[i].counter, run[i].cores[who[i]], run[i + 1].cores[who[i]];
      if v.applied then next == AbortCas(pc.decr, pc.gen, v)
      else if pc.decr > 0 then next == Receiving(pc.decr, pc.gen)
      else next == Outside
    ensures run[i + 1].counter == run[i].counter
  {
    assert Enabled(run[i], who[i], acts[i]);
  }

  /** What the exchanges leave of the two counts, if the word is as it was read. */
  lemma ExchangedCounts(run: seq<State>, who: seq<nat>, acts: seq<Action>, i: nat)
    requires IsRun(run, who, acts) && i < |who| && Exchanges(run[i], who[i], acts[i])
    ensures var v, w, pc := run[i].counter, run[i + 1].counter, run[i].cores[who[i]];
      match pc
      case PreCas(decr, gen, _) =>
        v.pre >= decr && w == v.(pre := v.pre - decr) && run[i + 1].cores[who[i]] == Receiving(decr, gen)
      case AssignCas(decr, _) =>
        v.pre >= decr && w == v.(pre := v.pre - decr) && run[i + 1].cores[who[i]] == Receiving(decr, v.gen)
      case IncCas(decr, gen, incr, _) =>
        w == v.(pre := v.pre + incr, post := v.post + incr) && run[i + 1].cores[who[i]] == Receiving(decr, gen)
      case PostCas(decr, _, _, _) => w.pre == v.pre && w.post == v.post - decr && w.gen == v.gen
      case ApplyCas(count, _, _) => w.pre == w.post == count && w.applied && w.gen == (v.gen + 1) % GEN_MOD
      case AbortCas(_, _, _) => w.pre == w.post == 0 && !w.applied && w.gen == v.gen
      case _ => true
  {
    RunCoresOk(run, who, acts, i);
    assert Enabled(run[i], who[i], acts[i]);
    assert CoreOk(run[i].cores[who[i]]);
  }

  /** An exchange that fails changes nothing: the core reads the word again. */
  lemma LostExchange(run: seq<State>, who: seq<nat>, acts: seq<Action>, i: nat)
    requires IsRun(run, who, acts) && i < |who| && acts[i].Go? && IsCas(run[i].cores[who[i]])
    requires run[i].cores[who[i]].seen != run[i].counter
    ensures var next := match run[i].cores[who[i]]
      case ApplyCas(count, notifs, _) => ApplyLoad(count, notifs)
      case PreCas(decr, gen, _) => PreLoad(decr, gen)
      case AssignCas(decr, _) => AssignLoad(decr)
      case IncCas(decr, gen, incr, _) => IncLoad(decr, gen, incr)
      case PostCas(decr, gen, _, _) => PostLoad(decr, gen)
      case AbortCas(decr, gen, _) => AbortLoad(decr, gen)
      case pc => pc;
      run[i + 1] == run[i].(cores := run[i].cores[who[i] := next])
  {
    assert Enabled(run[i], who[i], acts[i]);
  }

  // ----- continuing a run within a cycle

  /** The counts are right, and no receive has outlived a period of generations. */
  ghost predicate Sound(s: State) {
    Inv(s) && NoneOutlives(s)
  }

  lemma StepKeepsSound(s: State, c: nat, a: Action)
    requires Enabled(s, c, a) && Sound(s) && Step(s, c, a).applies == s.applies
    ensures Sound(Step(s, c, a))
  {
    StepKeepsInv(s, c, a);
    StepOutlivesNone(s, c, a);
  }

  /** A core's receive that is in progress after its step was so before, or has just been admitted. */
  ghost predicate SameOrNew(s: State, t: State, c: nat)
    requires c < |s.cores| == |s.since|
  {
    && |t.cores| == |t.since| == |s.cores|
    && (InProgress(t.cores[c]) ==> t.since[c] == s.applies || (InProgress(s.cores[c]) && t.since[c] == s.since[c]))
  }

  lemma OwnAfterCas(s: State, c: nat)
    requires Enabled(s, c, Go) && IsCas(s.cores[c])
    ensures SameOrNew(s, Step(s, c, Go), c)
  {
  }

  lemma OwnOtherwise(s: State, c: nat, a: Action)
    requires Enabled(s, c, a) && (a.Go? ==> !IsCas(s.cores[c]))
    ensures SameOrNew(s, Step(s, c, a), c)
  {
  }

  lemma OthersStay(s: State, c: nat, a: Action)
    requires Enabled(s, c, a)
    ensures var t := Step(s, c, a);
      && |t.cores| == |t.since| == |s.cores|
      && forall d :: 0 <= d < |s.cores| && d != c ==> t.cores[d] == s.cores[d] && t.since[d] == s.since[d]
  {
  }

  lemma StepOutlivesNone(s: State, c: nat, a: Action)
    requires Enabled(s, c, a) && NoneOutlives(s) && Step(s, c, a).applies == s.applies
    ensures NoneOutlives(Step(s, c, a))
  {
    if a.Go? && IsCas(s.cores[c]) {
      OwnAfterCas(s, c);
    } else {
      OwnOtherwise(s, c, a);
    }
    OthersStay(s, c, a);
  }

  type Way = Path<State, Action>

  /** Where the steps lead. */
  ghost function End(p: Way): State {
    match p
    case From(s) => s
    case Onward(before, c, a) => if Enabled(End(before), c, a) then Step(End(before), c, a) else End(before)
  }

  ghost predicate Legal(p: Way) {
    p.Onward? ==> Legal(p.before) && Enabled(End(p.before), p.core, p.act)
  }

  /** What arrives on the way. */
  function Arrivals(p: Way): seq<nat> {
    match p
    case From(_) => []
    case Onward(before, _, a) => Arrivals(before) + if a.Arrive? then [a.decr] else []
  }

  /** A legal way from a sound state that stays in the cycle. */
  ghost predicate Within(p: Way) {
    Legal(p) && Sound(Origin(p)) && End(p).applies == Origin(p).applies
  }

  lemma {:induction false} AppliesGrow(p: Way)
    requires Legal(p)
    ensures Origin(p).applies <= End(p).applies
  {
    if p.Onward? {
      AppliesGrow(p.before);
    }
  }

  lemma {:induction false} WithinIsSound(p: Way)
    requires Within(p)
    ensures Sound(End(p))
  {
    if p.Onward? {
      AppliesGrow(p.before);
      WithinIsSound(p.before);
      StepKeepsSound(End(p.before), p.core, p.act);
    }
  }

  lemma Go1(p: Way, c: nat, a: Action) returns (q: Way)
    requires Legal(p) && Enabled(End(p), c, a)
    ensures Legal(q) && Origin(q) == Origin(p) && End(q) == Step(End(p), c, a)
    ensures Arrivals(q) == Arrivals(p) + if a.Arrive? then [a.decr] else []
  {
    q := Onward(p, c, a);
  }

  /** A way continues every run that has come to its origin. */
  lemma {:induction false} WayIsRun(tr: Run, p: Way) returns (u: Run)
    requires IsTrace(tr) && Legal(p) && Origin(p) == Last(tr)
    ensures IsTrace(u) && Continues(tr, u) && Last(u) == End(p)
  {
    u := tr;
    if p.Onward? {
      var mid := WayIsRun(tr, p.before);
      u := EventGroupRuns.Then(mid, p.core, p.act);
      StillContinues(tr, mid, u);
    }
  }

  // ----- one portion

  /** A portion that the group still counts is admitted. */
  lemma PortionAdmitted(p: Way, c: nat, decr: nat) returns (q: Way)
    requires Legal(p) && c < |End(p).cores| == |End(p).since| && End(p).cores[c].Outside?
    requires End(p).counter.applied && 1 <= decr <= End(p).counter.pre
    ensures Legal(q) && Origin(q) == Origin(p) && Arrivals(q) == Arrivals(p) + [decr]
    ensures var s, t := End(p), End(q);
      && t.cores == s.cores[c := Receiving(decr, s.counter.gen)] && t.since == s.since[c := s.applies]
      && t.counter == s.counter.(pre := s.counter.pre - decr)
      && t.sent == s.sent && t.applies == s.applies && t.budget == s.budget
  {
    q := Go1(p, c, Arrive(decr, End(p).counter.gen));
    q := Go1(q, c, Go);
    q := Go1(q, c, Go);
  }

  /** The receive can end: it is not in the middle of an increment or an abort. */
  predicate CanEnd(pc: Pc) {
    pc.Receiving? || pc.PostLoad? || pc.PostCopy? || pc.PostCas?
  }

  /** Core d is just before the exchange that ends its receive, and that will succeed. */
  ghost predicate AtExchange(s: State, t: State, d: nat) {
    && d < |s.cores| == |t.cores| == |t.since| && t.cores[d].PostCas? && t.cores[d].seen == t.counter
    && t == s.(cores := s.cores[d := t.cores[d]]) && CanEnd(s.cores[d]) && t.cores[d].decr == s.cores[d].decr
  }

  lemma FromLoad(p: Way, d: nat) returns (q: Way)
    requires Legal(p) && d < |End(p).cores| == |End(p).since| && End(p).cores[d].PostLoad?
    requires ValidPost(End(p).counter, End(p).cores[d].decr, End(p).cores[d].gen)
    ensures Legal(q) && Origin(q) == Origin(p) && Arrivals(q) == Arrivals(p) && AtExchange(End(p), End(q), d)
  {
    q := Go1(p, d, Go);
    q := Go1(q, d, Go);
  }

  /** From a word that was read before it changed, the core reads it again. */
  lemma FromStale(p: Way, d: nat) returns (q: Way)
    requires Legal(p) && d < |End(p).cores| == |End(p).since| && End(p).cores[d].PostCas?
    requires End(p).cores[d].seen != End(p).counter
    requires ValidPost(End(p).counter, End(p).cores[d].decr, End(p).cores[d].gen)
    ensures Legal(q) && Origin(q) == Origin(p) && Arrivals(q) == Arrivals(p) && AtExchange(End(p), End(q), d)
  {
    q := Go1(p, d, Go);
    q := FromLoad(q, d);
  }

  lemma ToExchange(p: Way, d: nat) returns (q: Way)
    requires Legal(p) && d < |End(p).cores| == |End(p).since| && CanEnd(End(p).cores[d])
    requires ValidPost(End(p).counter, End(p).cores[d].decr, End(p).cores[d].gen)
    ensures Legal(q) && Origin(q) == Origin(p) && Arrivals(q) == Arrivals(p) && AtExchange(End(p), End(q), d)
  {
    var pc := End(p).cores[d];
    if pc.Receiving? {
      q := Go1(p, d, EndReceive);
      q := FromLoad(q, d);
    } else if pc.PostLoad? {
      q := FromLoad(p, d);
    } else {
      q := p;
      if pc.PostCopy? {
        q := Go1(p, d, Go);
      }
      if pc.seen != End(p).counter {
        q := FromStale(q, d);
      }
    }
  }

  /** A receive of the present cycle can end, and is counted. */
  lemma ReceiveEnds(p: Way, d: nat) returns (q: Way)
    requires Within(p) && d < |End(p).cores| == |End(p).since| && Live(End(p), d) && CanEnd(End(p).cores[d])
    ensures Within(q) && Origin(q) == Origin(p) && Arrivals(q) == Arrivals(p) && Ended(End(p), End(q), d)
  {
    WithinIsSound(p);
    PostCheckTells(End(p), d);
    var mid := ToExchange(p, d);
    SentAtZero(End(p), End(mid), d);
    q := Go1(mid, d, Go);
  }

  /** Core d's receive has ended; the notifications were obtained if it was the last. */
  ghost predicate Ended(s: State, t: State, d: nat)
    requires d < |s.cores|
  {
    && t.cores == s.cores[d := Outside] && t.since == s.since && t.applies == s.applies && t.budget == s.budget
    && CanEnd(s.cores[d]) && t.counter.pre == s.counter.pre && t.counter.post == s.counter.post - s.cores[d].decr
    && |t.sent| == |s.sent| + if t.counter.applied then 0 else 1
  }

  lemma SentAtZero(s: State, m: State, d: nat)
    requires Inv(s) && s.counter.applied && AtExchange(s, m, d) && s.cores[d].decr <= s.counter.post
    ensures Enabled(m, d, Go) && Ended(s, Step(m, d, Go), d)
  {
  }

  // ----- the whole cycle

  /** No receive of the present cycle is in the middle of an increment or an abort. */
  ghost predicate Settled(s: State) {
    |s.cores| == |s.since| && forall d :: 0 <= d < |s.cores| && Live(s, d) ==> CanEnd(s.cores[d])
  }

  lemma SomeLive(s: State) returns (d: nat)
    requires Sound(s) && s.counter.applied && s.counter.pre == 0
    ensures d < |s.cores| && Live(s, d)
  {
    if forall d :: 0 <= d < |s.cores| ==> !Live(s, d) {
      NoneLive(s);
    }
    d :| 0 <= d < |s.cores| && Live(s, d);
  }

  /** With nothing left to arrive, the receives in progress end and the notifications are sent. */
  lemma {:induction false} AllEnd(p: Way) returns (q: Way)
    requires Within(p) && Settled(End(p)) && End(p).counter.applied && End(p).counter.pre == 0
    ensures Within(q) && Origin(q) == Origin(p) && Arrivals(q) == Arrivals(p) && Completed(End(p), End(q))
    decreases End(p).counter.post
  {
    WithinIsSound(p);
    var d := SomeLive(End(p));
    assert CoreOk(End(p).cores[d]);
    var mid := ReceiveEnds(p, d);
    q := mid;
    if End(mid).counter.applied {
      SettledWithout(End(p), End(mid), d);
      q := AllEnd(mid);
    } else {
      AllFinished(mid);
    }
  }

  lemma AllFinished(p: Way)
    requires Within(p) && !End(p).counter.applied
    ensures End(p).finished == End(p).budget && End(p).counter.pre == 0
  {
    WithinIsSound(p);
  }

  /** Everything that was applied and incremented has been received, and the notifications have been obtained. */
  ghost predicate Completed(s: State, t: State) {
    !t.counter.applied && |t.sent| == |s.sent| + 1 && t.finished == t.budget == s.budget && t.applies == s.applies
  }

  lemma SettledWithout(s: State, t: State, d: nat)
    requires Settled(s) && s.counter.applied && d < |s.cores| && |t.cores| == |t.since|
    requires t.cores == s.cores[d := Outside] && t.since == s.since && t.applies == s.applies
    ensures Settled(t)
  {
    forall e | 0 <= e < |t.cores| && Live(t, e) ensures CanEnd(t.cores[e]) {
      assert e != d && Live(s, e);
    }
  }

  predicate AllPositive(parts: seq<nat>) {
    parts != [] ==> parts[0] >= 1 && AllPositive(parts[1..])
  }

  lemma {:induction false} PortionsSum(parts: seq<nat>)
    requires AllPositive(parts)
    ensures Total(parts) >= |parts|
  {
    if parts != [] {
      PortionsSum(parts[1..]);
    }
  }

  function Total(parts: seq<nat>): nat {
    if parts == [] then 0 else parts[0] + Total(parts[1..])
  }

  lemma PortionCounted(p: Way, c: nat, decr: nat) returns (q: Way)
    requires Within(p) && Settled(End(p)) && c < |End(p).cores| && End(p).cores[c].Outside?
    requires End(p).counter.applied && 1 <= decr <= End(p).counter.pre
    ensures Within(q) && Origin(q) == Origin(p) && Arrivals(q) == Arrivals(p) + [decr]
    ensures var s, t := End(p), End(q);
      && Settled(t) && |t.cores| == |s.cores| && t.cores[c].Outside? && t.applies == s.applies && t.budget == s.budget
      && t.counter.pre == s.counter.pre - decr && |t.sent| == |s.sent| + if t.counter.applied then 0 else 1
  {
    var mid := PortionAdmitted(p, c, decr);
    var s, m := End(p), End(mid);
    assert Live(m, c);
    q := ReceiveEnds(mid, c);
    forall d | 0 <= d < |m.cores| && Live(m, d) ensures CanEnd(m.cores[d]) {
      assert d != c ==> Live(s, d);
    }
    SettledWithout(m, End(q), c);
  }

  lemma FirstPortion(before: seq<nat>, parts: seq<nat>)
    requires parts != []
    ensures before + [parts[0]] + parts[1..] == before + parts
  {
  }

  /** Portions that add up to what the group still expects are all admitted, and the notifications are sent. */
  lemma {:induction false} PortionsComplete(p: Way, c: nat, parts: seq<nat>) returns (q: Way)
    requires Within(p) && Settled(End(p)) && c < |End(p).cores| && End(p).cores[c].Outside?
    requires End(p).counter.applied && AllPositive(parts) && Total(parts) == End(p).counter.pre
    ensures Within(q) && Origin(q) == Origin(p) && Arrivals(q) == Arrivals(p) + parts && Completed(End(p), End(q))
    decreases |parts|
  {
    if parts == [] {
      q := AllEnd(p);
    } else {
      var mid := PortionCounted(p, c, parts[0]);
      PortionsSum(parts[1..]);
      q := mid;
      if End(mid).counter.applied {
        q := PortionsComplete(mid, c, parts[1..]);
      } else {
        AllFinished(mid);
      }
      FirstPortion(Arrivals(p), parts);
    }
  }

  // ----- increments on the way

  lemma IncrementEnds(p: Way, d: nat) returns (q: Way)
    requires Legal(p) && d < |End(p).cores| == |End(p).since| && (End(p).cores[d].IncLoad? || End(p).cores[d].IncCas?)
    ensures Legal(q) && Origin(q) == Origin(p) && Arrivals(q) == Arrivals(p)
    ensures var s, t := End(p), End(q);
      && t.cores == s.cores[d := Receiving(s.cores[d].decr, s.cores[d].gen)] && t.since == s.since
      && t.applies == s.applies && t.counter.applied == s.counter.applied && t.sent == s.sent
  {
    q := p;
    var pc := End(p).cores[d];
    if pc.IncCas? {
      q := Go1(q, d, Go);
    }
    if End(q).cores[d].IncLoad? {
      q := Go1(q, d, Go);
      if End(q).cores[d].IncCas? {
        q := Go1(q, d, Go);
      }
    }
  }

  /** No receive of the present cycle is about to abort it. */
  ghost predicate NoneAborts(s: State) {
    |s.cores| == |s.since| &&
    forall d :: 0 <= d < |s.cores| && Live(s, d) ==> CanEnd(s.cores[d]) || s.cores[d].IncLoad? || s.cores[d].IncCas?
  }

  ghost predicate SettledUpto(s: State, n: nat) {
    |s.cores| == |s.since| && forall d :: 0 <= d < |s.cores| && d < n && Live(s, d) ==> CanEnd(s.cores[d])
  }

  /** In the same cycle, with no receive about to abort it and the first n cores settled; core c is free. */
  ghost predicate OnTheWay(p: Way, s: State, c: nat, n: nat) {
    && Within(p) && NoneAborts(End(p)) && SettledUpto(End(p), n) && End(p).counter.applied
    && c < |s.cores| == |End(p).cores| && End(p).cores[c].Outside? && End(p).sent == s.sent && End(p).applies == s.applies
  }

  lemma OneIncrementEnds(p: Way, s: State, c: nat, d: nat) returns (q: Way)
    requires OnTheWay(p, s, c, d) && d < |s.cores|
    ensures OnTheWay(q, s, c, d + 1) && Origin(q) == Origin(p) && Arrivals(q) == Arrivals(p)
  {
    q := p;
    if Live(End(p), d) && !CanEnd(End(p).cores[d]) {
      q := IncrementEnds(p, d);
      OneMoreSettled(End(p), End(q), d);
    }
  }

  lemma {:induction false} IncrementsEnd(p: Way, c: nat, n: nat) returns (q: Way)
    requires OnTheWay(p, End(p), c, 0) && n <= |End(p).cores|
    ensures OnTheWay(q, End(p), c, n) && Origin(q) == Origin(p) && Arrivals(q) == Arrivals(p)
  {
    q := p;
    if n > 0 {
      q := IncrementsEnd(p, c, n - 1);
      q := OneIncrementEnds(q, End(p), c, n - 1);
    }
  }

  lemma OneMoreSettled(s: State, t: State, d: nat)
    requires NoneAborts(s) && SettledUpto(s, d) && d < |s.cores| && |t.cores| == |t.since| && s.counter.applied
    requires s.cores[d].IncLoad? || s.cores[d].IncCas?
    requires t.cores == s.cores[d := Receiving(s.cores[d].decr, s.cores[d].gen)] && t.since == s.since
    requires t.applies == s.applies && t.counter.applied
    ensures NoneAborts(t) && SettledUpto(t, d + 1)
  {
    forall e | 0 <= e < |t.cores| && Live(t, e)
      ensures CanEnd(t.cores[e]) || t.cores[e].IncLoad? || t.cores[e].IncCas?
      ensures e < d + 1 ==> CanEnd(t.cores[e])
    {
      assert e != d ==> Live(s, e);
    }
  }

  // ----- over runs

  /**
   Every run that has an applied group and a free core: events of the group's generation that
   arrive there in any portions that add up to what the group still expects are all admitted,
   and the run can go on to the notifications, with everything counted.
   */
  lemma GroupCompletes(tr: Run, c: nat, parts: seq<nat>) returns (u: Run, way: Way)
    requires IsTrace(tr) && Timely(tr.run, |tr.run|) && Settled(Last(tr)) && Last(tr).counter.applied
    requires c < |Last(tr).cores| && Last(tr).cores[c].Outside?
    requires AllPositive(parts) && Total(parts) == Last(tr).counter.pre
    ensures IsTrace(u) && Continues(tr, u) && Legal(way) && Origin(way) == Last(tr) && End(way) == Last(u)
    ensures Arrivals(way) == parts && Completed(Last(tr), Last(u))
  {
    RunInv(tr.run, tr.who, tr.acts, |tr.run| - 1);
    way := PortionsComplete(From(Last(tr)), c, parts);
    u := WayIsRun(tr, way);
  }

  /** The same from any applied group with a free core, unless a receive is about to abort it:
      increments in progress end first, and what the group then expects can all arrive. */
  lemma CanAlwaysComplete(tr: Run, c: nat) returns (u: Run)
    requires IsTrace(tr) && Timely(tr.run, |tr.run|) && NoneAborts(Last(tr)) && Last(tr).counter.applied
    requires c < |Last(tr).cores| && Last(tr).cores[c].Outside?
    ensures IsTrace(u) && Continues(tr, u) && !Last(u).counter.applied && |Last(u).sent| == |Last(tr).sent| + 1
    ensures Last(u).finished == Last(u).budget && Last(u).applies == Last(tr).applies
  {
    RunInv(tr.run, tr.who, tr.acts, |tr.run| - 1);
    var way := IncrementsEnd(From(Last(tr)), c, |Last(tr).cores|);
    var left := End(way).counter.pre;
    var parts := if left == 0 then [] else [left];
    assert Total(parts) == left && AllPositive(parts) by {
      assert left > 0 ==> [left][1..] == [];
    }
    way := PortionsComplete(way, c, parts);
    u := WayIsRun(tr, way);
  }
}
