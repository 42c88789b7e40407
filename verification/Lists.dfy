/** Sequence vocabulary shared by the models: filtering, removal, and order-keeping selection. */
module Lists {

  function Filter<T>(s: seq<T>, keep: T -> bool): seq<T> {
    if s == [] then []
    else if keep(s[0]) then [s[0]] + Filter(s[1..], keep)
    else Filter(s[1..], keep)
  }

  lemma {:induction false} FilterAppend<T>(x: seq<T>, y: seq<T>, keep: T -> bool)
    ensures Filter(x + y, keep) == Filter(x, keep) + Filter(y, keep)
  {
    if x == [] {
      assert x + y == y;
    } else {
      FilterAppend(x[1..], y, keep);
      assert (x + y)[1..] == x[1..] + y;
      assert (x + y)[0] == x[0];
    }
  }

  lemma {:induction false} FilterMembers<T>(s: seq<T>, keep: T -> bool)
    ensures forall x :: x in Filter(s, keep) <==> x in s && keep(x)
    ensures |Filter(s, keep)| <= |s|
  {
    if s != [] {
      FilterMembers(s[1..], keep);
      assert s == [s[0]] + s[1..];
    }
  }

  /** The filter of a list extended by one element. */
  lemma {:induction false} FilterSnoc<T>(s: seq<T>, x: T, keep: T -> bool)
    ensures Filter(s + [x], keep) == if keep(x) then Filter(s, keep) + [x] else Filter(s, keep)
  {
    FilterAppend(s, [x], keep);
    assert [x][1..] == [];
    assert Filter([x], keep) == if keep(x) then [x] else [];
  }

  /** Filtering twice keeps what both filters keep. */
  lemma {:induction false} FilterFilter<T>(s: seq<T>, p: T -> bool, q: T -> bool, both: T -> bool)
    requires forall x :: x in s ==> (both(x) <==> p(x) && q(x))
    ensures Filter(Filter(s, p), q) == Filter(s, both)
  {
    if s != [] {
      FilterFilter(s[1..], p, q, both);
      if p(s[0]) {
        assert Filter(s, p)[1..] == Filter(s[1..], p);
      }
    }
  }

  function RemoveAt<T>(s: seq<T>, i: nat): (r: seq<T>)
    requires i < |s|
    ensures |r| == |s| - 1
  {
    s[..i] + s[i + 1..]
  }

  /** `s` is `t` with elements left out: position `k` of `s` came from position `f[k]` of `t`. */
  ghost predicate KeptInOrder<T>(s: seq<T>, t: seq<T>, f: seq<nat>) {
    && |f| == |s|
    && (forall k :: 0 <= k < |f| ==> f[k] < |t| && s[k] == t[f[k]])
    && (forall k, l :: 0 <= k < l < |f| ==> f[k] < f[l])
  }

  ghost predicate IsSubsequence<T>(s: seq<T>, t: seq<T>) {
    exists f: seq<nat> :: KeptInOrder(s, t, f)
  }

  lemma RemoveAtKeeps<T>(s: seq<T>, i: nat)
    requires i < |s|
    ensures IsSubsequence(RemoveAt(s, i), s)
    ensures multiset(s) == multiset(RemoveAt(s, i)) + multiset{s[i]}
  {
    var f: seq<nat> := seq(|s| - 1, k => if k < i then k else k + 1);
    assert KeptInOrder(RemoveAt(s, i), s, f);
    assert s == s[..i] + [s[i]] + s[i + 1..];
  }

  lemma RemovedParts<T>(s: seq<T>, i: nat)
    requires i < |s|
    ensures RemoveAt(s, i)[..i] == s[..i] && RemoveAt(s, i)[i..] == s[i..][1..]
  {
  }

  lemma SubsequenceReflexive<T>(s: seq<T>)
    ensures IsSubsequence(s, s)
  {
    var f: seq<nat> := seq(|s|, k => k);
    assert KeptInOrder(s, s, f);
  }

  lemma SubsequenceTransitive<T>(s: seq<T>, t: seq<T>, u: seq<T>)
    requires IsSubsequence(s, t) && IsSubsequence(t, u)
    ensures IsSubsequence(s, u)
  {
    var f: seq<nat> :| KeptInOrder(s, t, f);
    var g: seq<nat> :| KeptInOrder(t, u, g);
    var h: seq<nat> := seq(|s|, k requires 0 <= k < |s| => g[f[k]]);
    assert KeptInOrder(s, u, h);
  }

  function MapSeq<T, U>(s: seq<T>, f: T -> U): (r: seq<U>)
    ensures |r| == |s|
    ensures forall k :: 0 <= k < |s| ==> r[k] == f(s[k])
  {
    if s == [] then [] else [f(s[0])] + MapSeq(s[1..], f)
  }

  lemma {:induction false} MapAppend<T, U>(x: seq<T>, y: seq<T>, f: T -> U)
    ensures MapSeq(x + y, f) == MapSeq(x, f) + MapSeq(y, f)
  {
  }

  lemma {:induction false} MapRemoveAt<T, U>(s: seq<T>, i: nat, f: T -> U)
    requires i < |s|
    ensures multiset(MapSeq(s, f)) == multiset(MapSeq(RemoveAt(s, i), f)) + multiset{f(s[i])}
  {
    MapOfRemoved(s, i, f);
    RemoveAtKeeps(MapSeq(s, f), i);
  }

  lemma {:induction false} MapOfRemoved<T, U>(s: seq<T>, i: nat, f: T -> U)
    requires i < |s|
    ensures MapSeq(RemoveAt(s, i), f) == RemoveAt(MapSeq(s, f), i)
  {
  }

  /** A map over a list counts the same in any order. */
  lemma {:induction false} MapPermutation<T, U>(s: seq<T>, t: seq<T>, f: T -> U)
    requires multiset(s) == multiset(t)
    ensures multiset(MapSeq(s, f)) == multiset(MapSeq(t, f))
    decreases |s|
  {
    if s == [] {
      assert |multiset(t)| == 0;
    } else {
      var i := PositionOf(t, s[0], s);
      var (s', t') := (RemoveAt(s, 0), RemoveAt(t, i));
      RemovalAgrees(s, t, i);
      MapPermutation(s', t', f);
      calc {
        multiset(MapSeq(s, f));
        { MapRemoveAt(s, 0, f); }
        multiset(MapSeq(s', f)) + multiset{f(s[0])};
        multiset(MapSeq(t', f)) + multiset{f(t[i])};
        { MapRemoveAt(t, i, f); }
        multiset(MapSeq(t, f));
      }
    }
  }

  lemma RemovalAgrees<T>(s: seq<T>, t: seq<T>, i: nat)
    requires multiset(s) == multiset(t)
    requires s != [] && i < |t| && t[i] == s[0]
    ensures multiset(RemoveAt(s, 0)) == multiset(RemoveAt(t, i))
  {
    RemoveAtKeeps(t, i);
    RemoveAtKeeps(s, 0);
    assert multiset(RemoveAt(s, 0)) == multiset(s) - multiset{s[0]};
    assert multiset(RemoveAt(t, i)) == multiset(t) - multiset{t[i]};
  }

  lemma PositionOf<T>(t: seq<T>, x: T, s: seq<T>) returns (i: nat)
    requires multiset(s) == multiset(t) && x in s
    ensures i < |t| && t[i] == x
  {
    assert x in multiset(s);
    assert x in t;
    i :| 0 <= i < |t| && t[i] == x;
  }

  /** The two halves of a split by `keep` are the whole list. */
  lemma {:induction false} FilterSplits<T>(s: seq<T>, keep: T -> bool, drop: T -> bool)
    requires forall x :: x in s ==> keep(x) == !drop(x)
    ensures multiset(s) == multiset(Filter(s, keep)) + multiset(Filter(s, drop))
  {
    if s != [] {
      FilterSplits(s[1..], keep, drop);
      assert s == [s[0]] + s[1..];
    }
  }

  lemma {:induction false} DistinctFromCounts<T, U>(s: seq<T>, f: T -> U, i: nat, j: nat)
    requires forall u :: multiset(MapSeq(s, f))[u] <= 1
    requires i < j < |s|
    ensures f(s[i]) != f(s[j])
  {
    var m := MapSeq(s, f);
    RemoveAtKeeps(m, j);
    assert RemoveAt(m, j)[i] == m[i];
    assert m[i] in multiset(RemoveAt(m, j));
    assert multiset(m)[m[i]] <= 1;
  }

  lemma {:induction false} FilterKeepsOrder<T>(s: seq<T>, keep: T -> bool)
    ensures IsSubsequence(Filter(s, keep), s)
    decreases |s|
  {
    if s == [] {
      SubsequenceReflexive(s);
    } else {
      var (front, last) := (s[..|s| - 1], s[|s| - 1]);
      assert s == front + [last];
      FilterSnoc(front, last, keep);
      FilterKeepsOrder(front, keep);
      KeptInOrderSnoc(Filter(front, keep), front, last);
    }
  }

  lemma KeptInOrderSnoc<T>(s: seq<T>, t: seq<T>, x: T)
    requires IsSubsequence(s, t)
    ensures IsSubsequence(s, t + [x]) && IsSubsequence(s + [x], t + [x])
  {
    var f: seq<nat> :| KeptInOrder(s, t, f);
    assert KeptInOrder(s, t + [x], f);
    var g: seq<nat> := f + [|t|];
    assert KeptInOrder(s + [x], t + [x], g);
  }

  ghost predicate Distinct<T>(s: seq<T>) {
    forall i, j :: 0 <= i < j < |s| ==> s[i] != s[j]
  }

  /** More distinct candidates than taken values: one candidate is free. */
  lemma {:induction false} Pigeonhole<T>(taken: seq<T>, candidates: seq<T>)
    requires Distinct(candidates) && |taken| < |candidates|
    ensures exists k :: 0 <= k < |candidates| && candidates[k] !in taken
    decreases |taken|
  {
    if taken == [] {
      assert candidates[0] !in taken;
    } else {
      assert taken == [taken[0]] + taken[1..];
      var i := if taken[0] in candidates then IndexOf(candidates, taken[0]) else 0;
      var rest := RemoveAt(candidates, i);
      Pigeonhole(taken[1..], rest);
      var k :| 0 <= k < |rest| && rest[k] !in taken[1..];
      var k' := if k < i then k else k + 1;
      assert candidates[k'] == rest[k] && candidates[k'] !in taken;
    }
  }

  function IndexOf<T(==)>(s: seq<T>, x: T): (i: nat)
    requires x in s
    ensures i < |s| && s[i] == x && x !in s[..i]
  {
    if s[0] == x then 0
    else
      assert s == [s[0]] + s[1..];
      1 + IndexOf(s[1..], x)
  }
}
