/** Sequences of entries: projection to one queue, and removal of a set. */
module EntrySeqs {
  import opened AtomicGroupModel
  import opened Seqs

  /** s without the entries of d, in order. */
  ghost function Without(s: seq<Entry>, d: set<Entry>): seq<Entry> {
    if s == [] then []
    else if s[|s| - 1] in d then Without(s[..|s| - 1], d)
    else Without(s[..|s| - 1], d) + [s[|s| - 1]]
  }

  lemma {:induction false} OfMembers(q: Queue, s: seq<Entry>)
    ensures forall e :: e in Of(q, s) <==> e in s && e.qidx == q
  {
    if s != [] {
      var k := |s| - 1;
      OfMembers(q, s[..k]);
      assert s == s[..k] + [s[k]];
    }
  }

  /** Projecting to e's queue keeps how often e occurs. */
  lemma {:induction false} OfCount(e: Entry, s: seq<Entry>)
    ensures multiset(Of(e.qidx, s))[e] == multiset(s)[e]
  {
    if s != [] {
      var k := |s| - 1;
      OfCount(e, s[..k]);
      assert s == s[..k] + [s[k]];
    }
  }

  lemma {:induction false} DistinctCount(e: Entry, s: seq<Entry>)
    requires Distinct(s)
    ensures multiset(s)[e] == if e in s then 1 else 0
  {
    if s != [] {
      var k := |s| - 1;
      DistinctCount(e, s[..k]);
      assert s == s[..k] + [s[k]];
      assert s[k] !in s[..k];
    }
  }

  lemma {:induction false} WithoutMembers(s: seq<Entry>, d: set<Entry>)
    ensures forall e :: e in Without(s, d) <==> e in s && e !in d
  {
    if s != [] {
      var k := |s| - 1;
      WithoutMembers(s[..k], d);
      assert s == s[..k] + [s[k]];
    }
  }

  lemma {:induction false} OfConcat(q: Queue, a: seq<Entry>, b: seq<Entry>)
    ensures Of(q, a + b) == Of(q, a) + Of(q, b)
  {
    if b == [] {
      assert a + b == a;
    } else {
      var k := |b| - 1;
      assert (a + b)[..|a + b| - 1] == a + b[..k];
      OfConcat(q, a, b[..k]);
    }
  }

  lemma {:induction false} OfSplit(q: Queue, s: seq<Entry>, k: nat)
    requires k <= |s|
    ensures Of(q, s) == Of(q, s[..k]) + Of(q, s[k..])
  {
    OfConcat(q, s[..k], s[k..]);
    assert s[..k] + s[k..] == s;
  }

  lemma {:induction false} OfOther(q: Queue, s: seq<Entry>)
    requires forall e :: e in s ==> e.qidx != q
    ensures Of(q, s) == []
  {
    if s != [] {
      assert s[|s| - 1] in s;
      OfOther(q, s[..|s| - 1]);
    }
  }

  lemma {:induction false} OfOwn(q: Queue, s: seq<Entry>)
    requires forall e :: e in s ==> e.qidx == q
    ensures Of(q, s) == s
  {
    if s != [] {
      assert s[|s| - 1] in s;
      OfOwn(q, s[..|s| - 1]);
    }
  }

  lemma {:induction false} WithoutConcat(a: seq<Entry>, b: seq<Entry>, d: set<Entry>)
    ensures Without(a + b, d) == Without(a, d) + Without(b, d)
  {
    if b == [] {
      assert a + b == a;
    } else {
      var k := |b| - 1;
      assert (a + b)[..|a + b| - 1] == a + b[..k];
      WithoutConcat(a, b[..k], d);
    }
  }

  lemma {:induction false} WithoutNone(s: seq<Entry>, d: set<Entry>)
    requires forall e :: e in s ==> e !in d
    ensures Without(s, d) == s
  {
    if s != [] {
      assert s[|s| - 1] in s;
      WithoutNone(s[..|s| - 1], d);
    }
  }

  lemma {:induction false} WithoutAll(s: seq<Entry>, d: set<Entry>)
    requires forall e :: e in s ==> e in d
    ensures Without(s, d) == []
  {
    if s != [] {
      assert s[|s| - 1] in s;
      WithoutAll(s[..|s| - 1], d);
    }
  }

  lemma {:induction false} WithoutTwice(s: seq<Entry>, d: set<Entry>, d': set<Entry>)
    ensures Without(s, d + d') == Without(Without(s, d), d')
  {
    if s != [] {
      var k := |s| - 1;
      WithoutTwice(s[..k], d, d');
      if s[k] !in d {
        var w := Without(s[..k], d);
        assert (w + [s[k]])[..|w|] == w;
      }
    }
  }

  lemma {:induction false} WithoutDistinct(s: seq<Entry>, d: set<Entry>)
    requires Distinct(s)
    ensures Distinct(Without(s, d))
  {
    if s != [] {
      var k := |s| - 1;
      WithoutDistinct(s[..k], d);
      WithoutMembers(s[..k], d);
      assert s[k] !in s[..k];
    }
  }

  /** Removing a distinct sequence's tail from it leaves the rest. */
  lemma WithoutTail(a: seq<Entry>, t: seq<Entry>, d: set<Entry>)
    requires Distinct(a + t)
    requires forall e :: e in t ==> e in d
    requires forall e :: e in a && e in d ==> e in t
    ensures Without(a + t, d) == a
  {
    WithoutConcat(a, t, d);
    WithoutAll(t, d);
    forall i, j | 0 <= i < |a| && 0 <= j < |t| ensures a[i] != t[j] {
      assert (a + t)[i] != (a + t)[|a| + j];
    }
    WithoutNone(a, d);
  }

  /** Dropping the tail of what is left of a distinct sequence. */
  lemma DropTail(s: seq<Entry>, d: set<Entry>, a: seq<Entry>, t: seq<Entry>)
    requires Distinct(s) && Without(s, d) == a + t
    ensures Without(s, d + Entries(t)) == a
  {
    var d' := Entries(t);
    WithoutTwice(s, d, d');
    WithoutDistinct(s, d);
    WithoutTail(a, t, d');
  }

  // ----- moving a piece between neighbours of a three-part concatenation

  lemma MoveToSecond(a: seq<Entry>, x: seq<Entry>, b: seq<Entry>, c: seq<Entry>)
    ensures (a + x) + b + c == a + (x + b) + c
  {
  }

  lemma MoveToThird(a: seq<Entry>, b: seq<Entry>, x: seq<Entry>, c: seq<Entry>)
    ensures a + (b + x) + c == a + b + (x + c)
  {
  }

  lemma MoveToLast(a: seq<Entry>, b: seq<Entry>, c: seq<Entry>, x: seq<Entry>)
    ensures a + b + (c + x) == (a + b + c) + x
  {
  }

  lemma MoveOverEmpty(a: seq<Entry>, x: seq<Entry>, c: seq<Entry>)
    ensures (a + x) + [] + c == a + [] + (x + c)
  {
  }
}
