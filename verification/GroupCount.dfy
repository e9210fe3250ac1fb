/**
 An event group's count as its users see it: applying, ending a receive and aborting
 are one step each. `EventGroupTheorems` shows the counters to be this;
 `RetvalBuffer` is built on it.
 */
module GroupCount {
  datatype Group = Group(applied: bool, count: nat)

  const READY := Group(false, 0)

  function Apply(n: nat): Group {
    Group(n > 0, n)
  }

  /** The end of a receive of n events: without effect on a group that was aborted meanwhile. */
  function Finish(g: Group, n: nat): Group {
    if !g.applied || g.count < n then g else Group(g.count != n, g.count - n)
  }

  /** This receive was the last: whoever ends it sends the notifications. */
  predicate IsLast(g: Group, n: nat) {
    g.applied && g.count == n
  }

  function Increment(g: Group, n: nat): Group {
    if g.applied then Group(true, g.count + n) else g
  }

  function Abort(g: Group): Group { READY }
}
