/** Runs of a transition system, with who took each step and what it did. */
module Traces {
  datatype Trace<S, A> = Trace(run: seq<S>, who: seq<nat>, acts: seq<A>)

  function Last<S, A>(tr: Trace<S, A>): S
    requires tr.run != []
  {
    tr.run[|tr.run| - 1]
  }

  /** The run u begins with the run tr. */
  ghost predicate Continues<S, A>(tr: Trace<S, A>, u: Trace<S, A>) {
    tr.run <= u.run && tr.who <= u.who && tr.acts <= u.acts
  }

  lemma StillContinues<S, A>(a: Trace<S, A>, b: Trace<S, A>, c: Trace<S, A>)
    requires Continues(a, b) && Continues(b, c)
    ensures Continues(a, c)
  {
  }

  /** One more step. */
  function Longer<S, A>(tr: Trace<S, A>, c: nat, a: A, s: S): (u: Trace<S, A>)
    ensures Continues(tr, u) && |u.run| == |tr.run| + 1 && Last(u) == s
  {
    Trace(tr.run + [s], tr.who + [c], tr.acts + [a])
  }

  /** The first k steps. */
  function First<S, A>(tr: Trace<S, A>, k: nat): (u: Trace<S, A>)
    requires k < |tr.run| == |tr.who| + 1 == |tr.acts| + 1
    ensures Continues(u, tr) && |u.run| == k + 1 && Last(u) == tr.run[k]
  {
    Trace(tr.run[..k + 1], tr.who[..k], tr.acts[..k])
  }

  /** The steps that lead on from a state. */
  datatype Path<S, A> = From(start: S) | Onward(before: Path<S, A>, core: nat, act: A)

  function Origin<S, A>(p: Path<S, A>): S {
    match p
    case From(s) => s
    case Onward(before, _, _) => Origin(before)
  }
}
