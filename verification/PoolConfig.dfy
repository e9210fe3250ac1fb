/** `sort_pool_cfg()`: the subpools of a new pool in ascending order of buffer size. */
module PoolConfig {
  datatype Subpool = Subpool(size: nat, num: nat, cacheSize: nat)

  predicate Ascending(s: seq<Subpool>) {
    forall i, j :: 0 <= i < j < |s| ==> s[i].size <= s[j].size
  }

  ghost predicate Permutes(s: seq<Subpool>, t: seq<Subpool>) {
    multiset(s) == multiset(t)
  }

  lemma SwapPermutes(s: seq<Subpool>, i: nat, j: nat)
    requires i < j < |s|
    ensures Permutes(s[i := s[j]][j := s[i]], s)
  {
    var mid := s[i := s[j]];
    assert multiset(mid) == multiset(s) - multiset{s[i]} + multiset{s[j]};
    assert multiset(mid[j := s[i]]) == multiset(mid) - multiset{s[j]} + multiset{s[i]};
  }

  /** The first k subpools are in place: in order, and none of the others is smaller. */
  ghost predicate SortedUpTo(s: seq<Subpool>, k: nat)
    requires k <= |s|
  {
    forall i, j :: 0 <= i < k && i < j < |s| ==> s[i].size <= s[j].size
  }

  lemma PlaceNext(s: seq<Subpool>, i: nat, idx: nat)
    requires i <= idx < |s| && SortedUpTo(s, i)
    requires forall j :: i <= j < |s| ==> s[idx].size <= s[j].size
    ensures SortedUpTo(s[i := s[idx]][idx := s[i]], i + 1)
  {
  }

  /** Sorts the first |cfg| entries of `sorted`, which start as a copy of cfg. */
  method SortPoolCfg(cfg: seq<Subpool>, sorted: array<Subpool>)
    requires |cfg| == sorted.Length
    modifies sorted
    ensures Ascending(sorted[..]) && Permutes(sorted[..], cfg)
  {
    for k := 0 to |cfg|
      invariant sorted[..k] == cfg[..k]
    {
      sorted[k] := cfg[k];
    }
    assert sorted[..] == cfg;
    var i := 0;
    while i < |cfg| - 1
      invariant 0 <= i <= |cfg|
      invariant Permutes(sorted[..], cfg) && SortedUpTo(sorted[..], i)
    {
      var idx := FindSmallest(sorted, i);
      ghost var was := sorted[..];
      PlaceNext(was, i, idx);
      if idx != i {
        SwapPermutes(was, i, idx);
        var size, num, cacheSize := sorted[i].size, sorted[i].num, sorted[i].cacheSize;
        sorted[i] := sorted[idx];
        sorted[idx] := Subpool(size, num, cacheSize);
      }
      assert sorted[..] == was[i := was[idx]][idx := was[i]];
      i := i + 1;
    }
  }

  /** The inner loop: the first of the smallest entries from i on. */
  method FindSmallest(sorted: array<Subpool>, i: nat) returns (idx: nat)
    requires i < sorted.Length
    ensures i <= idx < sorted.Length
    ensures forall j :: i <= j < sorted.Length ==> sorted[idx].size <= sorted[j].size
    ensures forall j :: i <= j < idx ==> sorted[idx].size < sorted[j].size
  {
    idx := i;
    for j := i + 1 to sorted.Length
      invariant i <= idx < j
      invariant forall k :: i <= k < j ==> sorted[idx].size <= sorted[k].size
      invariant forall k :: i <= k < idx ==> sorted[idx].size < sorted[k].size
    {
      if sorted[j].size < sorted[idx].size {
        idx := j;
      }
    }
  }
}
