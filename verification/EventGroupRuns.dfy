/** Runs of the event-group protocol that are continued step by step. */
module EventGroupRuns {
  import opened EventGroupModel
  import opened Traces

  type Run = Trace<State, Action>

  ghost predicate IsTrace(tr: Run) {
    IsRun(tr.run, tr.who, tr.acts)
  }

  /** One more step. */
  lemma Then(tr: Run, c: nat, a: Action) returns (u: Run)
    requires IsTrace(tr) && Enabled(Last(tr), c, a)
    ensures IsTrace(u) && Continues(tr, u) && Last(u) == Step(Last(tr), c, a) && u.acts == tr.acts + [a]
  {
    u := Longer(tr, c, a, Step(Last(tr), c, a));
    forall i | 0 <= i < |u.who|
      ensures Enabled(u.run[i], u.who[i], u.acts[i]) && u.run[i + 1] == Step(u.run[i], u.who[i], u.acts[i])
    {
      if i < |tr.who| {
        assert Enabled(tr.run[i], tr.who[i], tr.acts[i]) && tr.run[i + 1] == Step(tr.run[i], tr.who[i], tr.acts[i]);
      }
    }
  }

  // ----- a core that receives all events of a cycle at once

  lemma StartAll(tr: Run, c: nat) returns (u: Run)
    requires IsTrace(tr) && c < |Last(tr).cores| == |Last(tr).since| && Last(tr).cores[c].Outside?
    requires var v := Last(tr).counter; v.applied && v.pre == v.post >= 1
    ensures IsTrace(u) && Continues(tr, u)
    ensures var s, t := Last(tr), Last(u);
      && |t.cores| == |t.since| == |s.cores| && t.cores[c] == Receiving(s.counter.post, s.counter.gen)
      && t.counter == s.counter.(pre := 0) && t.sent == s.sent && t.ordered == s.ordered && t.table == s.table
  {
    u := Then(tr, c, Arrive(Last(tr).counter.post, Last(tr).counter.gen));
    u := Then(u, c, Go);
    u := Then(u, c, Go);
  }

  /** A receive of all that the group still counts. */
  lemma EndAll(tr: Run, c: nat) returns (u: Run)
    requires IsTrace(tr) && c < |Last(tr).cores| == |Last(tr).since|
    requires var s := Last(tr); s.cores[c] == Receiving(s.counter.post, s.counter.gen)
    ensures IsTrace(u) && Continues(tr, u)
    ensures Last(u).sent == Last(tr).sent + [Last(tr).table] && Last(u).ordered == Last(tr).ordered
  {
    u := Then(tr, c, EndReceive);
    u := Then(u, c, Go);
    u := Then(u, c, Go);
    u := Then(u, c, Go);
  }

  /** A core that is outside receives all events of the cycle at once, and sends the notifications in the table. */
  lemma ReceiveAll(tr: Run, c: nat) returns (u: Run)
    requires IsTrace(tr) && c < |Last(tr).cores| == |Last(tr).since| && Last(tr).cores[c].Outside?
    requires var v := Last(tr).counter; v.applied && v.pre == v.post >= 1
    ensures IsTrace(u) && Continues(tr, u)
    ensures Last(u).sent == Last(tr).sent + [Last(tr).table] && Last(u).ordered == Last(tr).ordered
  {
    u := StartAll(tr, c);
    u := EndAll(u, c);
  }

  // ----- a core that aborts and applies, over and over

  lemma AbortOnce(tr: Run, d: nat) returns (u: Run)
    requires IsTrace(tr) && d < |Last(tr).cores| == |Last(tr).since| && Last(tr).cores[d].Outside?
    requires Last(tr).counter.applied
    ensures IsTrace(u) && Continues(tr, u)
    ensures var s, t := Last(tr), Last(u);
      && t.counter == Aborted(s.counter) && t.cores == s.cores && t.since == s.since && t.sent == s.sent
      && t.applies == s.applies
  {
    u := Then(tr, d, Abort);
    u := Then(u, d, Go);
    u := Then(u, d, Go);
  }

  lemma ApplyOnce(tr: Run, d: nat, count: nat, notifs: seq<Notif>) returns (u: Run)
    requires IsTrace(tr) && d < |Last(tr).cores| == |Last(tr).since| && Last(tr).cores[d].Outside?
    requires !Last(tr).counter.applied && 1 <= count <= CNT_MAX && |notifs| <= MAX_NOTIF
    ensures IsTrace(u) && Continues(tr, u)
    ensures var s, t := Last(tr), Last(u);
      && t.counter == Applied(s.counter, count) && t.cores == s.cores && t.since == s.since && t.sent == s.sent
      && t.applies == s.applies + 1 && t.table == notifs
  {
    u := Then(tr, d, Apply(count, notifs));
    u := Then(u, d, Go);
    u := Then(u, d, Go);
    u := Then(u, d, Go);
  }

  lemma {:induction false} ApplyOften(tr: Run, d: nat, count: nat, notifs: seq<Notif>, k: nat) returns (u: Run)
    requires IsTrace(tr) && d < |Last(tr).cores| == |Last(tr).since| && Last(tr).cores[d].Outside?
    requires Last(tr).counter.applied && Last(tr).counter.gen < GEN_MOD
    requires 1 <= count <= CNT_MAX && |notifs| <= MAX_NOTIF && k >= 1
    ensures IsTrace(u) && Continues(tr, u)
    ensures var s, t := Last(tr), Last(u);
      && t.counter == Counter(count, count, true, (s.counter.gen + k) % GEN_MOD)
      && t.cores == s.cores && t.since == s.since && t.sent == s.sent
      && t.applies == s.applies + k && t.table == notifs
  {
    u := tr;
    if k > 1 {
      u := ApplyOften(tr, d, count, notifs, k - 1);
    }
    u := AbortOnce(u, d);
    u := ApplyOnce(u, d, count, notifs);
  }

  /**
   A receive that goes on while the group is aborted and applied as often as there are
   generations: its end then counts for the new cycle, and the notifications of that are
   sent with none of its own events received.
   */
  lemma OutlivingIsCounted(tr: Run, c: nat, d: nat, notifs: seq<Notif>) returns (u: Run, v: Run)
    requires IsTrace(tr) && c < |Last(tr).cores| == |Last(tr).since| && d < |Last(tr).cores| && c != d
    requires var s := Last(tr);
      && s.cores[d].Outside? && s.cores[c].Receiving? && 1 <= s.cores[c].decr <= CNT_MAX
      && s.counter.applied && s.counter.gen == s.cores[c].gen < GEN_MOD && s.since[c] == s.applies
    requires |notifs| <= MAX_NOTIF
    ensures IsTrace(u) && Continues(tr, u) && IsTrace(v) && Continues(u, v)
    ensures var s := Last(u); c < |s.since| && s.applies - s.since[c] == GEN_MOD && s.counter.pre == s.counter.post
    ensures Last(v).sent == Last(u).sent + [notifs]
  {
    u := ApplyOften(tr, d, Last(tr).cores[c].decr, notifs, GEN_MOD);
    v := EndAll(u, c);
  }
}
