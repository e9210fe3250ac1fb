/** An EM event pool: subpools of buffers, each an ODP pool, in ascending order of buffer size. */
module EventPool {
  import opened PoolConfig
  import opened Seqs
  import opened Wrappers

  /** A buffer, and the subpool that it belongs to. */
  datatype Buf = Buf(subpool: nat, id: nat)

  type FreeBufs = seq<set<Buf>>

  predicate SizesAscend(sizes: seq<nat>) {
    forall i, j :: 0 <= i < j < |sizes| ==> sizes[i] <= sizes[j]
  }

  /** Every buffer is in its own subpool. */
  predicate AtHome(free: FreeBufs) {
    forall i, b :: 0 <= i < |free| && b in free[i] ==> b.subpool == i
  }

  /** How many free buffers are big enough. */
  function Eligible(sizes: seq<nat>, free: FreeBufs, size: nat): nat
    requires |free| == |sizes|
  {
    if sizes == [] then 0
    else (if sizes[0] >= size then |free[0]| else 0) + Eligible(sizes[1..], free[1..], size)
  }

  lemma {:induction false} EligibleUpdate(sizes: seq<nat>, free: FreeBufs, size: nat, i: nat, s: set<Buf>)
    requires |free| == |sizes| && i < |free| && sizes[i] >= size
    ensures Eligible(sizes, free[i := s], size) == Eligible(sizes, free, size) - |free[i]| + |s|
  {
    if i == 0 {
      assert free[0 := s][1..] == free[1..];
    } else {
      EligibleUpdate(sizes[1..], free[1..], size, i - 1, s);
      assert free[i := s][1..] == free[1..][i - 1 := s];
    }
  }

  lemma {:induction false} EligibleZeroIff(sizes: seq<nat>, free: FreeBufs, size: nat)
    requires |free| == |sizes|
    ensures Eligible(sizes, free, size) == 0 <==> forall i :: 0 <= i < |free| && sizes[i] >= size ==> free[i] == {}
  {
    if sizes != [] {
      EligibleZeroIff(sizes[1..], free[1..], size);
      var rest := free[1..];
      if Eligible(sizes, free, size) == 0 {
        forall i | 0 <= i < |free| && sizes[i] >= size ensures free[i] == {} {
          if i > 0 {
            assert rest[i - 1] == free[i] && sizes[1..][i - 1] == sizes[i];
          }
        }
      }
      if forall i :: 0 <= i < |free| && sizes[i] >= size ==> free[i] == {} {
        forall i | 0 <= i < |rest| && sizes[1..][i] >= size ensures rest[i] == {} {
          assert rest[i] == free[i + 1] && sizes[1..][i] == sizes[i + 1];
        }
      }
    }
  }

  function Elems(s: seq<Buf>): set<Buf> {
    set b | b in s
  }

  /** Taking one more buffer out of a set. */
  lemma OneMore(all: set<Buf>, bufs: seq<Buf>, x: Buf)
    requires Distinct(bufs) && Elems(bufs) <= all && x in all - Elems(bufs)
    ensures Distinct(bufs + [x]) && Elems(bufs + [x]) == Elems(bufs) + {x} <= all
    ensures all - Elems(bufs) - {x} == all - Elems(bufs + [x])
    ensures |all - Elems(bufs + [x])| == |all - Elems(bufs)| - 1
  {
    forall i | 0 <= i < |bufs| ensures bufs[i] != x {
      assert bufs[i] in Elems(bufs);
    }
    assert all - Elems(bufs + [x]) == all - Elems(bufs) - {x};
  }

  /** All free buffers. */
  function AllFree(free: FreeBufs): set<Buf> {
    set i, b | 0 <= i < |free| && b in free[i] :: b
  }

  /** `taken` are different buffers; they and the free ones make up what was free before. */
  ghost predicate Took(was: FreeBufs, free: FreeBufs, taken: seq<Buf>) {
    && |free| == |was|
    && Distinct(taken)
    && AllFree(free) !! Elems(taken) && AllFree(free) + Elems(taken) == AllFree(was)
  }

  lemma AllFreeUpdate(free: FreeBufs, i: nat, more: set<Buf>)
    requires AtHome(free) && i < |free| && more <= free[i]
    ensures AllFree(free[i := free[i] - more]) == AllFree(free) - more
    ensures more <= AllFree(free)
  {
    var now := free[i := free[i] - more];
    forall b | b in AllFree(free) - more ensures b in AllFree(now) {
      var k :| 0 <= k < |free| && b in free[k];
      assert b in now[k];
    }
    forall b | b in AllFree(now) ensures b in AllFree(free) - more {
      var k :| 0 <= k < |now| && b in now[k];
      assert b in free[k] && b.subpool == k;
      assert k != i ==> b !in free[i];
    }
  }

  lemma TookMore(was: FreeBufs, mid: FreeBufs, taken: seq<Buf>, i: nat, more: seq<Buf>)
    requires AtHome(mid) && Took(was, mid, taken) && i < |mid|
    requires Distinct(more)
    requires Elems(more) <= mid[i]
    ensures Took(was, mid[i := mid[i] - Elems(more)], taken + more)
  {
    assert Elems(taken + more) == Elems(taken) + Elems(more);
    AllFreeUpdate(mid, i, Elems(more));
    forall k, l | 0 <= k < |taken| && 0 <= l < |more| ensures taken[k] != more[l] {
      assert taken[k] in Elems(taken) && more[l] in Elems(more);
    }
  }

  lemma TookNone(was: FreeBufs)
    ensures Took(was, was, [])
  {
    assert Elems([]) == {};
  }

  method StoreFrom(events: array<Buf>, at: nat, bufs: seq<Buf>)
    requires at + |bufs| <= events.Length
    modifies events
    ensures events[..at + |bufs|] == old(events[..at]) + bufs
    ensures forall k :: at + |bufs| <= k < events.Length ==> events[k] == old(events[k])
  {
    for i := 0 to |bufs|
      invariant events[..at + i] == old(events[..at]) + bufs[..i]
      invariant forall k :: at + i <= k < events.Length ==> events[k] == old(events[k])
    {
      events[at + i] := bufs[i];
    }
  }

  lemma AllFreeAdd(free: FreeBufs, b: Buf)
    requires b.subpool < |free|
    ensures AllFree(free[b.subpool := free[b.subpool] + {b}]) == AllFree(free) + {b}
  {
    var i := b.subpool;
    var now := free[i := free[i] + {b}];
    forall x | x in AllFree(free) + {b} ensures x in AllFree(now) {
      assert b in now[i];
      if x != b {
        var k :| 0 <= k < |free| && x in free[k];
        assert x in now[k];
      }
    }
    forall x | x in AllFree(now) ensures x in AllFree(free) + {b} {
      var k :| 0 <= k < |now| && x in now[k];
      assert x in free[k] || x == b;
    }
  }

  /** When buffers are at home, which ones are free says it all. */
  lemma SameFree(f: FreeBufs, g: FreeBufs)
    requires AtHome(f) && AtHome(g) && |f| == |g| && AllFree(f) == AllFree(g)
    ensures f == g
  {
    forall i | 0 <= i < |f| ensures f[i] == g[i] {
      InOwnSubpool(f, g, i);
      InOwnSubpool(g, f, i);
    }
  }

  lemma InOwnSubpool(f: FreeBufs, g: FreeBufs, i: nat)
    requires AtHome(f) && AtHome(g) && |f| == |g| && AllFree(f) == AllFree(g) && i < |f|
    ensures f[i] <= g[i]
  {
    forall b | b in f[i] ensures b in g[i] {
      assert b in AllFree(f);
      var k :| 0 <= k < |g| && b in g[k];
      assert b.subpool == i && b.subpool == k;
    }
  }

  function TotNum(cfg: seq<Subpool>): nat {
    if cfg == [] then 0 else TotNum(cfg[..|cfg| - 1]) + cfg[|cfg| - 1].num
  }

  /** Some n buffers of a set, or all of them. */
  method PickBufs(all: set<Buf>, n: nat) returns (bufs: seq<Buf>)
    ensures |bufs| == if |all| < n then |all| else n
    ensures Distinct(bufs) && Elems(bufs) <= all && |all - Elems(bufs)| == |all| - |bufs|
  {
    bufs := [];
    var left := all;
    while |bufs| < n && left != {}
      invariant |bufs| <= n && |left| == |all| - |bufs|
      invariant Distinct(bufs) && Elems(bufs) <= all && left == all - Elems(bufs)
      decreases n - |bufs|
    {
      var x :| x in left;
      OneMore(all, bufs, x);
      bufs := bufs + [x];
      left := left - {x};
    }
  }

  function Least(a: nat, b: nat, c: nat): nat {
    if a <= b && a <= c then a else if b <= c then b else c
  }

  class Pool {
    const sizes: seq<nat>
    var free: FreeBufs

    ghost predicate Valid()
      reads this
    {
      |free| == |sizes| && SizesAscend(sizes) && AtHome(free)
    }

    /** What `pool_create()` makes of a sorted configuration: all buffers are free. */
    constructor (cfg: seq<Subpool>)
      requires Ascending(cfg)
      ensures Valid() && |sizes| == |cfg|
      ensures forall i :: 0 <= i < |cfg| ==> sizes[i] == cfg[i].size && free[i] == AllBufs(i, cfg[i].num)
    {
      sizes := seq(|cfg|, i requires 0 <= i < |cfg| => cfg[i].size);
      free := seq(|cfg|, i requires 0 <= i < |cfg| => AllBufs(i, cfg[i].num));
    }

    predicate BigEnough(b: Buf, size: nat) {
      b.subpool < |sizes| && sizes[b.subpool] >= size
    }

    /** If any were wanted, the subpools before j that are big enough are empty. */
    predicate Emptied(now: FreeBufs, j: nat, size: nat, wanted: nat)
      requires j <= |sizes| == |now|
    {
      wanted > 0 ==> forall i :: 0 <= i < j && sizes[i] >= size ==> now[i] == {}
    }

    /** `odp_buffer_alloc()`: some free buffer of an ODP pool, if it has one. */
    method OdpBufferAlloc(i: nat) returns (b: Option<Buf>)
      requires Valid() && i < |free|
      modifies this
      ensures Valid()
      ensures b.None? <==> old(free)[i] == {}
      ensures b.None? ==> free == old(free)
      ensures b.Some? ==> b.value in old(free)[i] && free == old(free)[i := old(free)[i] - {b.value}]
    {
      if free[i] == {} {
        return None;
      }
      var x :| x in free[i];
      free := free[i := free[i] - {x}];
      b := Some(x);
    }

    /** `pool_find_subpool()` */
    method FindSubpool(size: nat) returns (subpool: int)
      requires |sizes| == |free|
      ensures subpool == -1 <==> forall i :: 0 <= i < |sizes| ==> sizes[i] < size
      ensures subpool != -1 ==> 0 <= subpool < |sizes| && sizes[subpool] >= size
      ensures forall i :: 0 <= i < subpool ==> sizes[i] < size
    {
      subpool := 0;
      while subpool < |sizes| && size > sizes[subpool]
        invariant 0 <= subpool <= |sizes|
        invariant forall i :: 0 <= i < subpool ==> sizes[i] < size
      {
        subpool := subpool + 1;
      }
      if subpool >= |sizes| {
        return -1;
      }
    }

    /**
     `event_alloc_buf()`: fails only if no subpool with big enough buffers has any
     left, and takes one from the first such subpool that has.
     */
    method EventAllocBuf(size: nat) returns (b: Option<Buf>)
      requires Valid()
      modifies this
      ensures Valid()
      ensures b.None? <==> forall i :: 0 <= i < |sizes| && sizes[i] >= size ==> old(free)[i] == {}
      ensures b.None? ==> free == old(free)
      ensures b.Some? ==>
                var at := b.value.subpool;
                && at < |sizes| && sizes[at] >= size && b.value in old(free)[at]
                && free == old(free)[at := old(free)[at] - {b.value}]
                && (forall i :: 0 <= i < |sizes| && sizes[i] >= size && old(free)[i] != {}
                                ==> at <= i && sizes[at] <= sizes[i])
    {
      b := None;
      var subpool := FindSubpool(size);
      if subpool < 0 {
        return;
      }
      while subpool < |sizes|
        invariant 0 <= subpool <= |sizes| && Valid() && free == old(free) && b.None?
        invariant subpool < |sizes| ==> sizes[subpool] >= size
        invariant forall i :: 0 <= i < subpool && sizes[i] >= size ==> free[i] == {}
      {
        b := OdpBufferAlloc(subpool);
        if b.Some? {
          return;
        }
        subpool := subpool + 1;
      }
    }

    /** `odp_buffer_alloc_multi()`: up to n free buffers of an ODP pool; it may give fewer than it has. */
    method OdpBufferAllocMulti(i: nat, n: nat, gives: nat) returns (bufs: seq<Buf>)
      requires Valid() && i < |free|
      modifies this
      ensures Valid() && |free| == |old(free)|
      ensures |bufs| == Least(|old(free)[i]|, n, gives)
      ensures Distinct(bufs)
      ensures Elems(bufs) <= old(free)[i] && free[i] == old(free)[i] - Elems(bufs)
      ensures |free[i]| == |old(free)[i]| - |bufs|
      ensures free == old(free)[i := free[i]]
    {
      bufs := PickBufs(free[i], if n <= gives then n else gives);
      free := free[i := free[i] - Elems(bufs)];
    }

    /** Fills `events` from one subpool, from place `numBufs` on. */
    method FillFrom(subpool: nat, events: array<Buf>, numBufs: nat, numReq: nat, size: nat, gives: nat,
                    ghost was: FreeBufs, ghost taken: seq<Buf>)
      returns (ret: nat, ghost all: seq<Buf>)
      requires Valid() && subpool < |sizes| && sizes[subpool] >= size && numBufs + numReq <= events.Length
      requires Took(was, free, taken) && events[..numBufs] == taken && forall b :: b in taken ==> BigEnough(b, size)
      modifies this, events
      ensures Valid() && ret == Least(|old(free)[subpool]|, numReq, gives)
      ensures Took(was, free, all) && events[..numBufs + ret] == all && forall b :: b in all ==> BigEnough(b, size)
      ensures free == old(free)[subpool := free[subpool]] && |free[subpool]| == |old(free)[subpool]| - ret
      ensures Eligible(sizes, free, size) + ret == Eligible(sizes, old(free), size) && (ret == 0 ==> free == old(free))
      ensures forall k :: numBufs + ret <= k < events.Length ==> events[k] == old(events[k])
    {
      ghost var mid := free;
      var bufs := OdpBufferAllocMulti(subpool, numReq, gives);
      EligibleUpdate(sizes, mid, size, subpool, free[subpool]);
      TookMore(was, mid, taken, subpool, bufs);
      ret, all := |bufs|, taken + bufs;
      AllBigEnough(bufs, subpool, size);
      StoreFrom(events, numBufs, bufs);
    }

    lemma AllBigEnough(bufs: seq<Buf>, subpool: nat, size: nat)
      requires subpool < |sizes| && sizes[subpool] >= size
      requires forall b :: b in Elems(bufs) ==> b.subpool == subpool
      ensures forall b :: b in bufs ==> BigEnough(b, size)
    {
      forall b | b in bufs ensures BigEnough(b, size) {
        assert b in Elems(bufs);
      }
    }

    /**
     `event_alloc_buf_multi()`, where `gives` says how many buffers each ODP pool is ready
     to give. Each is given out once, and none is lost. If the ODP pools give what they have,
     these are as many of `num` as there are big enough free buffers, from a bigger subpool
     only when the smaller are empty.
     */
    method EventAllocBufMulti(events: array<Buf>, num: nat, size: nat, gives: seq<nat>) returns (numBufs: nat)
      requires Valid() && num <= events.Length && |gives| == |sizes|
      modifies this, events
      ensures Valid() && |free| == |old(free)| && numBufs <= num
      ensures numBufs + Eligible(sizes, free, size) == Eligible(sizes, old(free), size)
      ensures GivesAll(gives, num) ==>
        numBufs == var all := Eligible(sizes, old(free), size); if all < num then all else num
      ensures Took(old(free), free, events[..numBufs])
      ensures forall b :: b in events[..numBufs] ==> BigEnough(b, size)
      ensures GivesAll(gives, num) ==>
        forall j :: 0 <= j < |sizes| && free[j] != old(free)[j] ==> Emptied(free, j, size, 1)
      ensures forall k :: numBufs <= k < events.Length ==> events[k] == old(events[k])
    {
      numBufs := 0;
      var numReq := num;
      ghost var was, taken: seq<Buf> := free, [];
      TookNone(was);
      var subpool := FindSubpool(size);
      if subpool < 0 {
        EligibleZeroIff(sizes, free, size);
        assert events[..0] == taken;
        return;
      }
      while subpool < |sizes|
        invariant 0 <= subpool <= |sizes| && Valid()
        invariant subpool < |sizes| ==> sizes[subpool] >= size
        invariant numBufs + numReq == num && (num > 0 ==> numReq > 0)
        invariant events[..numBufs] == taken && Took(was, free, taken)
        invariant Eligible(sizes, free, size) + numBufs == Eligible(sizes, was, size)
        invariant GivesAll(gives, num) ==> Emptied(free, subpool, size, num)
        invariant num == 0 ==> free == was
        invariant forall i :: subpool <= i < |sizes| ==> free[i] == was[i]
        invariant forall b :: b in taken ==> BigEnough(b, size)
        invariant forall k :: numBufs <= k < events.Length ==> events[k] == old(events[k])
      {
        var ret;
        ret, taken := FillFrom(subpool, events, numBufs, numReq, size, gives[subpool], was, taken);
        numBufs := numBufs + ret;
        if ret > 0 && numBufs == num {
          break;
        }
        numReq := numReq - ret;
        subpool := subpool + 1;
      }
      if GivesAll(gives, num) {
        forall j | 0 <= j < |sizes| && free[j] != was[j] ensures Emptied(free, j, size, 1) {
          assert j <= subpool;
        }
      }
      if numBufs < num {
        EligibleZeroIff(sizes, free, size);
      }
    }

    /** No ODP pool holds back any of the n buffers it may be asked for. */
    predicate GivesAll(gives: seq<nat>, n: nat) {
      forall i :: 0 <= i < |gives| ==> gives[i] >= n
    }

    /** `em_free()` */
    method EmFree(b: Buf)
      requires Valid() && b.subpool < |free|
      modifies this
      ensures Valid() && free == old(free)[b.subpool := old(free)[b.subpool] + {b}]
    {
      free := free[b.subpool := free[b.subpool] + {b}];
    }

    /**
     `pool_prealloc()`: allocates every buffer of the pool once and then frees them
     all; it fails only if the pool has fewer buffers than configured.
     */
    method PoolPrealloc(cfg: seq<Subpool>) returns (num: nat, ok: bool, ghost list: seq<Buf>)
      requires Valid() && |cfg| == |sizes| >= 1 && forall i :: 0 <= i < |cfg| ==> cfg[i].size == sizes[i]
      modifies this
      ensures Valid() && |free| == |old(free)|
      ensures num == |list| == Eligible(sizes, old(free), sizes[0])
      ensures Distinct(list) && Elems(list) == AllFree(old(free))
      ensures ok <==> num >= TotNum(cfg)
      ensures free == if ok then old(free) else seq(|sizes|, i => {})
    {
      ghost var was := free;
      var size := cfg[0].size;
      var numTot := SumNum(cfg);
      var evlist := PreallocAll(size);
      num, list := |evlist|, evlist;
      if num < numTot {
        ok := false;
        return;
      }
      var numFree := 0;
      assert Elems(evlist) == AllFree(was);
      while evlist != []
        invariant Valid() && |free| == |was| && numFree + |evlist| == num
        invariant forall b :: b in evlist ==> b.subpool < |was|
        invariant AllFree(free) + Elems(evlist) == AllFree(was)
        decreases |evlist|
      {
        var b := evlist[0];
        AllFreeAdd(free, b);
        assert Elems(evlist) == {b} + Elems(evlist[1..]) by {
          assert evlist == [b] + evlist[1..];
        }
        EmFree(b);
        evlist := evlist[1..];
        numFree := numFree + 1;
      }
      SameFree(free, was);
      ok := true;
    }

    method SumNum(cfg: seq<Subpool>) returns (numTot: nat)
      ensures numTot == TotNum(cfg)
    {
      numTot := 0;
      for i := 0 to |cfg|
        invariant numTot == TotNum(cfg[..i])
      {
        assert cfg[..i + 1][..i] == cfg[..i];
        numTot := numTot + cfg[i].num;
      }
      assert cfg[..|cfg|] == cfg;
    }

    /** The allocation loop, with the smallest size: it ends with every subpool empty. */
    method PreallocAll(size: nat) returns (evlist: seq<Buf>)
      requires Valid() && |sizes| >= 1 && size == sizes[0]
      modifies this
      ensures Valid() && free == seq(|sizes|, i => {})
      ensures |evlist| == Eligible(sizes, old(free), size)
      ensures Took(old(free), free, evlist) && AllFree(free) == {}
      ensures forall b :: b in evlist ==> b.subpool < |sizes|
    {
      evlist := [];
      ghost var was := free;
      TookNone(was);
      var more := true;
      while more
        invariant Valid() && Took(was, free, evlist)
        invariant |evlist| + Eligible(sizes, free, size) == Eligible(sizes, was, size)
        invariant forall b :: b in evlist ==> b.subpool < |sizes|
        invariant !more ==> forall i :: 0 <= i < |sizes| ==> free[i] == {}
        decreases Eligible(sizes, free, size), more
      {
        ghost var mid := free;
        var b := EventAllocBuf(size);
        if b.Some? {
          var at := b.value.subpool;
          assert Elems([b.value]) == {b.value};
          TookMore(was, mid, evlist, at, [b.value]);
          EligibleUpdate(sizes, mid, size, at, mid[at] - {b.value});
          evlist := evlist + [b.value];
        } else {
          more := false;
        }
      }
      EligibleZeroIff(sizes, free, size);
    }
  }

  // ----- a new pool

  function AllBufs(i: nat, num: nat): set<Buf> {
    set k | 0 <= k < num :: Buf(i, k)
  }

  lemma {:induction false} AllBufsCount(i: nat, num: nat)
    ensures |AllBufs(i, num)| == num
  {
    if num > 0 {
      AllBufsCount(i, num - 1);
      assert AllBufs(i, num) == AllBufs(i, num - 1) + {Buf(i, num - 1)};
    }
  }

  lemma {:induction false} TotNumFirst(cfg: seq<Subpool>)
    requires cfg != []
    ensures TotNum(cfg) == cfg[0].num + TotNum(cfg[1..])
  {
    if |cfg| > 1 {
      TotNumFirst(cfg[..|cfg| - 1]);
      assert cfg[1..][..|cfg| - 2] == cfg[..|cfg| - 1][1..];
    }
  }

  lemma {:induction false} FullPoolEligible(cfg: seq<Subpool>, sizes: seq<nat>, free: FreeBufs, size: nat, from: nat)
    requires |free| == |sizes| == |cfg|
    requires forall i :: 0 <= i < |cfg| ==> sizes[i] >= size && free[i] == AllBufs(from + i, cfg[i].num)
    ensures Eligible(sizes, free, size) == TotNum(cfg)
  {
    if cfg != [] {
      TotNumFirst(cfg);
      AllBufsCount(from, cfg[0].num);
      forall i | 0 <= i < |cfg| - 1 ensures free[1..][i] == AllBufs(from + 1 + i, cfg[1..][i].num) {
        assert free[1..][i] == free[i + 1];
      }
      FullPoolEligible(cfg[1..], sizes[1..], free[1..], size, from + 1);
    }
  }

  /** `pool_create()`: on a new pool the preallocation never fails, and leaves all buffers free. */
  method PoolCreate(cfg: seq<Subpool>, prealloc: bool) returns (pool: Pool, ok: bool)
    requires |cfg| >= 1
    ensures fresh(pool) && pool.Valid() && ok && |pool.sizes| == |cfg|
    ensures exists sorted :: PoolOf(pool, sorted) && Permutes(sorted, cfg) && Ascending(sorted)
  {
    var sorted := new Subpool[|cfg|];
    SortPoolCfg(cfg, sorted);
    pool := new Pool(sorted[..]);
    ok := true;
    if prealloc {
      FullPoolEligible(sorted[..], pool.sizes, pool.free, pool.sizes[0], 0);
      ghost var list;
      var num;
      num, ok, list := pool.PoolPrealloc(sorted[..]);
    }
    assert PoolOf(pool, sorted[..]);
  }

  ghost predicate PoolOf(pool: Pool, cfg: seq<Subpool>)
    reads pool
  {
    && |pool.sizes| == |cfg| == |pool.free|
    && (forall i :: 0 <= i < |cfg| ==> pool.sizes[i] == cfg[i].size && pool.free[i] == AllBufs(i, cfg[i].num))
  }
}
