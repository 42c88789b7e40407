/** Delegation records, and the sort-and-coalesce pass that turns them into disjoint ranges. */
module IpRanges {
  import opened Lists

  /** Addresses from `start` up to, not including, `end`, delegated to country `cc`. */
  datatype Range = Range(start: nat, end: nat, cc: string)

  predicate Contains(r: Range, a: nat) {
    r.start <= a < r.end
  }

  /** Some record gives address `a` to country `cc`. */
  ghost predicate Says(rs: seq<Range>, a: nat, cc: string) {
    exists k :: 0 <= k < |rs| && Contains(rs[k], a) && rs[k].cc == cc
  }

  ghost predicate AllNonEmpty(rs: seq<Range>) {
    forall k :: 0 <= k < |rs| ==> rs[k].start < rs[k].end
  }

  /** No address is given to two countries. */
  ghost predicate OneCountryEach(rs: seq<Range>) {
    forall a: nat, cc, cc' :: Says(rs, a, cc) && Says(rs, a, cc') ==> cc == cc'
  }

  // ----- sorting: by start, then end, then country -----

  predicate TextLe(x: string, y: string) {
    x == "" || (y != "" && (x[0] < y[0] || (x[0] == y[0] && TextLe(x[1..], y[1..]))))
  }

  predicate Le(x: Range, y: Range) {
    || x.start < y.start
    || (x.start == y.start && (x.end < y.end || (x.end == y.end && TextLe(x.cc, y.cc))))
  }

  ghost predicate InSortOrder(rs: seq<Range>) {
    forall k :: 0 < k < |rs| ==> Le(rs[k - 1], rs[k])
  }

  function InsertSorted(r: Range, rs: seq<Range>): seq<Range> {
    if rs == [] then [r]
    else if Le(r, rs[0]) then [r] + rs
    else [rs[0]] + InsertSorted(r, rs[1..])
  }

  function Sorted(rs: seq<Range>): seq<Range> {
    if rs == [] then [] else InsertSorted(rs[0], Sorted(rs[1..]))
  }

  lemma {:induction false} TextLeTotal(x: string, y: string)
    ensures TextLe(x, y) || TextLe(y, x)
  {
    if x != "" && y != "" {
      TextLeTotal(x[1..], y[1..]);
    }
  }

  lemma {:induction false} TextLeTransitive(x: string, y: string, z: string)
    requires TextLe(x, y) && TextLe(y, z)
    ensures TextLe(x, z)
  {
    if x != "" && x[0] == y[0] == z[0] {
      TextLeTransitive(x[1..], y[1..], z[1..]);
    }
  }

  lemma {:induction false} TextLeBoth(x: string, y: string)
    requires TextLe(x, y) && TextLe(y, x)
    ensures x == y
  {
    if x != "" {
      TextLeBoth(x[1..], y[1..]);
      assert x == [x[0]] + x[1..] && y == [y[0]] + y[1..];
    }
  }

  lemma OrderCons(r: Range, rs: seq<Range>)
    requires InSortOrder(rs) && (rs != [] ==> Le(r, rs[0]))
    ensures InSortOrder([r] + rs)
  {
  }

  lemma OrderTail(rs: seq<Range>)
    requires InSortOrder(rs) && rs != []
    ensures InSortOrder(rs[1..]) && (|rs| > 1 ==> Le(rs[0], rs[1]))
  {
  }

  lemma {:induction false} InsertKeepsOrder(r: Range, rs: seq<Range>)
    requires InSortOrder(rs)
    ensures InSortOrder(InsertSorted(r, rs))
    ensures multiset(InsertSorted(r, rs)) == multiset(rs) + multiset{r}
  {
    if rs == [] {
    } else if Le(r, rs[0]) {
      OrderCons(r, rs);
    } else {
      assert rs == [rs[0]] + rs[1..];
      OrderTail(rs);
      InsertKeepsOrder(r, rs[1..]);
      TextLeTotal(r.cc, rs[0].cc);
      OrderCons(rs[0], InsertSorted(r, rs[1..]));
    }
  }

  /** The sort returns the same records, in order. */
  lemma {:induction false} SortedIsASort(rs: seq<Range>)
    ensures InSortOrder(Sorted(rs)) && multiset(Sorted(rs)) == multiset(rs)
  {
    if rs != [] {
      SortedIsASort(rs[1..]);
      InsertKeepsOrder(rs[0], Sorted(rs[1..]));
      assert rs == [rs[0]] + rs[1..];
    }
  }

  lemma {:induction false} StartsAscend(rs: seq<Range>, i: nat, j: nat)
    requires InSortOrder(rs) && i <= j < |rs|
    ensures rs[i].start <= rs[j].start
    decreases j - i
  {
    if i < j {
      StartsAscend(rs, i, j - 1);
      assert Le(rs[j - 1], rs[j]);
    }
  }

  lemma {:induction false} SortedLe(rs: seq<Range>, i: nat, j: nat)
    requires InSortOrder(rs) && i < j < |rs|
    ensures Le(rs[i], rs[j])
    decreases j - i
  {
    assert Le(rs[j - 1], rs[j]);
    if i < j - 1 {
      SortedLe(rs, i, j - 1);
      if TextLe(rs[i].cc, rs[j - 1].cc) && TextLe(rs[j - 1].cc, rs[j].cc) {
        TextLeTransitive(rs[i].cc, rs[j - 1].cc, rs[j].cc);
      }
    }
  }

  /** In a sorted list, a record that sorts after another country's is also placed after it. */
  lemma {:induction false} PlacedAfter(rs: seq<Range>, i: nat, j: nat)
    requires InSortOrder(rs) && i < |rs| && j < |rs| && Le(rs[i], rs[j]) && rs[i].cc != rs[j].cc
    ensures i < j
  {
    if j < i {
      SortedLe(rs, j, i);
      if TextLe(rs[i].cc, rs[j].cc) && TextLe(rs[j].cc, rs[i].cc) {
        TextLeBoth(rs[i].cc, rs[j].cc);
      }
    }
  }

  // ----- coalescing -----

  function Max(x: nat, y: nat): nat {
    if x < y then y else x
  }

  /** One record joins the last range when it touches it and names the same country. */
  function Absorb(out: seq<Range>, r: Range): (res: seq<Range>)
    ensures res != []
  {
    var n := |out|;
    if n > 0 && out[n - 1].cc == r.cc && r.start <= out[n - 1].end
    then out[..n - 1] + [Range(out[n - 1].start, Max(out[n - 1].end, r.end), r.cc)]
    else out + [r]
  }

  function Coalesce(rs: seq<Range>): seq<Range> {
    if rs == [] then [] else Absorb(Coalesce(rs[..|rs| - 1]), rs[|rs| - 1])
  }

  function MergeSpec(rs: seq<Range>): seq<Range> {
    Coalesce(Sorted(rs))
  }

  /** The generator's pass: sort, then append to the output or overwrite its last entry. */
  method Merge(ranges: seq<Range>) returns (out: seq<Range>)
    ensures out == MergeSpec(ranges)
  {
    var rs := Sorted(ranges);
    out := [];
    var i := 0;
    while i < |rs|
      invariant i <= |rs| && out == Coalesce(rs[..i])
    {
      var r := rs[i];
      var n := |out|;
      assert rs[..i + 1][..i] == rs[..i];
      if n > 0 && out[n - 1].cc == r.cc && out[n - 1].end >= r.start {
        out := out[n - 1 := Range(out[n - 1].start, Max(out[n - 1].end, r.end), r.cc)];
      } else {
        out := out + [r];
      }
      i := i + 1;
    }
    assert rs[..i] == rs;
  }

  /** Non-empty ranges in order, disjoint, that never touch with the same country. */
  ghost predicate Tidy(rs: seq<Range>) {
    && AllNonEmpty(rs)
    && (forall k, l :: 0 <= k < l < |rs| ==> rs[k].end <= rs[l].start)
    && (forall k, l :: 0 <= k < l < |rs| && rs[k].cc == rs[l].cc ==> rs[k].end < rs[l].start)
  }

  ghost predicate SameAnswers(rs: seq<Range>, rs': seq<Range>) {
    forall a: nat, cc :: Says(rs, a, cc) <==> Says(rs', a, cc)
  }

  ghost predicate StartBy(out: seq<Range>, bound: nat) {
    forall k :: 0 <= k < |out| ==> out[k].start <= bound
  }

  lemma SaysSnoc(rs: seq<Range>, r: Range, a: nat, cc: string)
    ensures Says(rs + [r], a, cc) <==> Says(rs, a, cc) || (Contains(r, a) && r.cc == cc)
  {
    if Contains(r, a) && r.cc == cc {
      assert (rs + [r])[|rs|] == r;
    }
    if Says(rs, a, cc) {
      var k :| 0 <= k < |rs| && Contains(rs[k], a) && rs[k].cc == cc;
      assert (rs + [r])[k] == rs[k];
    }
  }

  /** A different country's last range ends before the new record starts. */
  lemma OthersEndBefore(rs: seq<Range>, out: seq<Range>, r: Range)
    requires SameAnswers(rs, out) && out != [] && out[|out| - 1].start <= r.start
    requires OneCountryEach(rs + [r]) && r.start < r.end
    requires out[|out| - 1].cc != r.cc
    ensures out[|out| - 1].end <= r.start
  {
    var last := out[|out| - 1];
    if r.start < last.end {
      assert Contains(last, r.start);
      assert Says(out, r.start, last.cc);
      SaysSnoc(rs, r, r.start, last.cc);
      SaysSnoc(rs, r, r.start, r.cc);
    }
  }

  lemma TidyAbsorb(rs: seq<Range>, out: seq<Range>, r: Range)
    requires Tidy(out) && SameAnswers(rs, out) && StartBy(out, r.start)
    requires OneCountryEach(rs + [r]) && r.start < r.end
    ensures Tidy(Absorb(out, r))
  {
    if out != [] && out[|out| - 1].cc != r.cc {
      OthersEndBefore(rs, out, r);
    }
  }

  lemma AnswersAbsorb(rs: seq<Range>, out: seq<Range>, r: Range, a: nat, cc: string)
    requires SameAnswers(rs, out) && StartBy(out, r.start)
    ensures Says(Absorb(out, r), a, cc) <==> Says(rs + [r], a, cc)
  {
    SaysSnoc(rs, r, a, cc);
    var n := |out|;
    if n > 0 && out[n - 1].cc == r.cc && r.start <= out[n - 1].end {
      var (front, last) := (out[..n - 1], out[n - 1]);
      assert out == front + [last];
      SaysSnoc(front, last, a, cc);
      SaysSnoc(front, Range(last.start, Max(last.end, r.end), r.cc), a, cc);
    } else {
      SaysSnoc(out, r, a, cc);
    }
  }

  lemma AbsorbAnswers(rs: seq<Range>, out: seq<Range>, r: Range)
    requires SameAnswers(rs, out) && StartBy(out, r.start)
    ensures SameAnswers(rs + [r], Absorb(out, r)) && StartBy(Absorb(out, r), r.start)
  {
    forall a: nat, cc ensures Says(rs + [r], a, cc) <==> Says(Absorb(out, r), a, cc) {
      AnswersAbsorb(rs, out, r, a, cc);
    }
    hide Says, SameAnswers;
  }

  /** Coalescing sorted records changes no answer. */
  lemma {:induction false} CoalesceAnswers(rs: seq<Range>)
    requires InSortOrder(rs)
    ensures SameAnswers(rs, Coalesce(rs))
    ensures rs != [] ==> StartBy(Coalesce(rs), rs[|rs| - 1].start)
    decreases |rs|
  {
    if rs != [] {
      var (front, r) := (rs[..|rs| - 1], rs[|rs| - 1]);
      CoalesceAnswers(front);
      if front != [] {
        StartsAscend(rs, |rs| - 2, |rs| - 1);
      }
      AbsorbAnswers(front, Coalesce(front), r);
      assert rs == front + [r];
      hide SameAnswers, Absorb, Says, InSortOrder;
    }
  }

  lemma {:induction false} CoalesceIsTidy(rs: seq<Range>)
    requires InSortOrder(rs) && AllNonEmpty(rs) && OneCountryEach(rs)
    ensures Tidy(Coalesce(rs))
    decreases |rs|
  {
    if rs != [] {
      var (front, r) := (rs[..|rs| - 1], rs[|rs| - 1]);
      assert rs == front + [r];
      FrontIsGood(front, r);
      CoalesceAnswers(front);
      CoalesceIsTidy(front);
      if front != [] {
        StartsAscend(rs, |rs| - 2, |rs| - 1);
      }
      TidyAbsorb(front, Coalesce(front), r);
    }
  }

  lemma FrontIsGood(front: seq<Range>, r: Range)
    requires InSortOrder(front + [r]) && AllNonEmpty(front + [r]) && OneCountryEach(front + [r])
    ensures InSortOrder(front) && AllNonEmpty(front) && OneCountryEach(front)
    ensures r.start < r.end
  {
    var rs := front + [r];
    assert rs[|front|] == r;
    forall k | 0 <= k < |front| ensures rs[k] == front[k] {}
    forall k | 0 < k < |front| ensures Le(front[k - 1], front[k]) {
      assert Le(rs[k - 1], rs[k]);
    }
    forall a: nat, cc | Says(front, a, cc) ensures Says(rs, a, cc) {
      SaysSnoc(front, r, a, cc);
    }
  }

  lemma SaysPermuted(rs: seq<Range>, rs': seq<Range>, a: nat, cc: string)
    requires multiset(rs) == multiset(rs') && Says(rs, a, cc)
    ensures Says(rs', a, cc)
  {
    var k :| 0 <= k < |rs| && Contains(rs[k], a) && rs[k].cc == cc;
    assert rs[k] in multiset(rs');
    var l :| 0 <= l < |rs'| && rs'[l] == rs[k];
  }

  lemma NonEmptyPermuted(rs: seq<Range>, rs': seq<Range>)
    requires multiset(rs) == multiset(rs') && AllNonEmpty(rs)
    ensures AllNonEmpty(rs')
  {
    forall k | 0 <= k < |rs'| ensures rs'[k] in rs {
      assert rs'[k] in multiset(rs');
    }
  }

  lemma SameAnswersPermuted(rs: seq<Range>, rs': seq<Range>)
    requires multiset(rs) == multiset(rs')
    ensures SameAnswers(rs, rs')
  {
    forall a: nat, cc ensures Says(rs, a, cc) <==> Says(rs', a, cc) {
      if Says(rs, a, cc) { SaysPermuted(rs, rs', a, cc); }
      if Says(rs', a, cc) { SaysPermuted(rs', rs, a, cc); }
    }
  }

  /** Merging changes no answer, whatever the records. */
  lemma MergeKeepsAnswers(rs: seq<Range>)
    ensures SameAnswers(rs, MergeSpec(rs))
  {
    SortedIsASort(rs);
    CoalesceAnswers(Sorted(rs));
    SameAnswersPermuted(rs, Sorted(rs));
  }

  /** In tidy ranges an address has at most one country. */
  lemma TidyIsUnambiguous(rs: seq<Range>, a: nat, cc: string, cc': string)
    requires Tidy(rs) && Says(rs, a, cc) && Says(rs, a, cc')
    ensures cc == cc'
  {
  }

  /**
   For non-empty records the merged ranges are in order, disjoint, and never touch with
   the same country -- exactly when no address was given to two countries.
  */
  lemma MergeIsTidyExactly(rs: seq<Range>)
    requires AllNonEmpty(rs)
    ensures Tidy(MergeSpec(rs)) <==> OneCountryEach(rs)
  {
    SortedIsASort(rs);
    MergeKeepsAnswers(rs);
    if OneCountryEach(rs) {
      NonEmptyPermuted(rs, Sorted(rs));
      SameAnswersPermuted(rs, Sorted(rs));
      CoalesceIsTidy(Sorted(rs));
    }
    if Tidy(MergeSpec(rs)) {
      forall a: nat, cc, cc' | Says(rs, a, cc) && Says(rs, a, cc') ensures cc == cc' {
        TidyIsUnambiguous(MergeSpec(rs), a, cc, cc');
      }
    }
  }

  // ----- with empty records -----

  /** A delegation may count no address at all, but never fewer. */
  ghost predicate Proper(rs: seq<Range>) {
    forall k :: 0 <= k < |rs| ==> rs[k].start <= rs[k].end
  }

  /** Each range ends by where the later ones start. */
  ghost predicate InOrder(rs: seq<Range>) {
    forall k, l :: 0 <= k < l < |rs| ==> rs[k].end <= rs[l].start
  }

  /** An empty record strictly inside another. */
  predicate StrictlyInside(e: Range, r: Range) {
    e.start == e.end && r.start < e.start < r.end
  }

  /** No empty record lies strictly inside a record of another country. */
  ghost predicate NoneInside(rs: seq<Range>) {
    forall i, j :: 0 <= i < |rs| && 0 <= j < |rs| && StrictlyInside(rs[j], rs[i]) ==> rs[i].cc == rs[j].cc
  }

  lemma {:induction false} EndsAscend(rs: seq<Range>, i: nat, j: nat)
    requires InSortOrder(rs) && i <= j < |rs| && rs[i].start == rs[j].start
    ensures rs[i].end <= rs[j].end
    decreases j - i
  {
    if i < j {
      StartsAscend(rs, i, j - 1);
      assert Le(rs[j - 1], rs[j]);
      EndsAscend(rs, i, j - 1);
    }
  }

  /** In sorted records an empty one that sits on an address of the earlier ones is inside a record of that country. */
  lemma EmptyIsInside(front: seq<Range>, r: Range, cc: string) returns (i: nat)
    requires InSortOrder(front + [r]) && r.start == r.end && Says(front, r.start, cc)
    ensures i < |front| && front[i].cc == cc && StrictlyInside(r, front[i])
  {
    i :| i < |front| && Contains(front[i], r.start) && front[i].cc == cc;
    var rs := front + [r];
    assert rs[i] == front[i] && rs[|front|] == r;
    if front[i].start == r.start {
      EndsAscend(rs, i, |front|);
    }
  }

  /** A different country's last range ends by where the new record starts. */
  lemma OthersEndBy(rs: seq<Range>, out: seq<Range>, r: Range)
    requires InSortOrder(rs + [r]) && OneCountryEach(rs + [r]) && NoneInside(rs + [r]) && r.start <= r.end
    requires SameAnswers(rs, out) && out != [] && out[|out| - 1].start <= r.start
    requires out[|out| - 1].cc != r.cc
    ensures out[|out| - 1].end <= r.start
  {
    var last := out[|out| - 1];
    assert (rs + [r])[|rs|] == r && forall k :: 0 <= k < |rs| ==> (rs + [r])[k] == rs[k];
    if r.start < r.end {
      OthersEndBefore(rs, out, r);
    } else if r.start < last.end {
      assert Contains(last, r.start);
      assert Says(out, r.start, last.cc);
      var i := EmptyIsInside(rs, r, last.cc);
    }
  }

  lemma OrderAbsorb(rs: seq<Range>, out: seq<Range>, r: Range)
    requires InSortOrder(rs + [r]) && OneCountryEach(rs + [r]) && NoneInside(rs + [r]) && r.start <= r.end
    requires InOrder(out) && SameAnswers(rs, out) && StartBy(out, r.start)
    ensures InOrder(Absorb(out, r))
  {
    if out != [] && out[|out| - 1].cc != r.cc {
      OthersEndBy(rs, out, r);
    }
  }

  lemma FrontIsProper(front: seq<Range>, r: Range)
    requires InSortOrder(front + [r]) && Proper(front + [r]) && OneCountryEach(front + [r]) && NoneInside(front + [r])
    ensures InSortOrder(front) && Proper(front) && OneCountryEach(front) && NoneInside(front) && r.start <= r.end
  {
    var rs := front + [r];
    assert rs[|front|] == r;
    forall k | 0 <= k < |front| ensures rs[k] == front[k] {}
    forall k | 0 < k < |front| ensures Le(front[k - 1], front[k]) {
      assert Le(rs[k - 1], rs[k]);
    }
    forall a: nat, cc | Says(front, a, cc) ensures Says(rs, a, cc) {
      SaysSnoc(front, r, a, cc);
    }
    forall i, j | 0 <= i < |front| && 0 <= j < |front| && StrictlyInside(front[j], front[i])
      ensures front[i].cc == front[j].cc
    {
      assert StrictlyInside(rs[j], rs[i]);
    }
  }

  lemma {:induction false} CoalesceIsInOrder(rs: seq<Range>)
    requires InSortOrder(rs) && Proper(rs) && OneCountryEach(rs) && NoneInside(rs)
    ensures InOrder(Coalesce(rs))
    decreases |rs|
  {
    if rs != [] {
      var (front, r) := (rs[..|rs| - 1], rs[|rs| - 1]);
      assert rs == front + [r];
      FrontIsProper(front, r);
      CoalesceAnswers(front);
      CoalesceIsInOrder(front);
      if front != [] {
        StartsAscend(rs, |rs| - 2, |rs| - 1);
      }
      OrderAbsorb(front, Coalesce(front), r);
    }
  }

  /** Some merged range of the same country spans the record. */
  ghost predicate Spanned(out: seq<Range>, r: Range) {
    exists k :: 0 <= k < |out| && out[k].cc == r.cc && out[k].start <= r.start && r.end <= out[k].end
  }

  lemma AbsorbSpans(out: seq<Range>, r: Range, x: Range)
    requires StartBy(out, r.start) && (x == r || Spanned(out, x))
    ensures Spanned(Absorb(out, r), x)
  {
    var res := Absorb(out, r);
    if x == r {
      assert res[|res| - 1].cc == r.cc && res[|res| - 1].start <= r.start && r.end <= res[|res| - 1].end;
    } else {
      var k :| 0 <= k < |out| && out[k].cc == x.cc && out[k].start <= x.start && x.end <= out[k].end;
      assert res[k].cc == x.cc && res[k].start <= x.start && x.end <= res[k].end;
    }
  }

  /** Every record ends up inside one merged range. */
  lemma {:induction false} CoalesceSpans(rs: seq<Range>, i: nat)
    requires InSortOrder(rs) && i < |rs|
    ensures Spanned(Coalesce(rs), rs[i])
    decreases |rs|
  {
    var n := |rs| - 1;
    var (front, r) := (rs[..n], rs[n]);
    CoalesceAnswers(front);
    if front != [] {
      StartsAscend(rs, n - 1, n);
    }
    if i < n {
      CoalesceSpans(front, i);
    }
    AbsorbSpans(Coalesce(front), r, rs[i]);
  }

  lemma InOrderHasNoneInside(rs: seq<Range>, out: seq<Range>)
    requires InOrder(out) && forall i :: 0 <= i < |rs| ==> Spanned(out, rs[i])
    ensures NoneInside(rs)
  {
    forall i, j | 0 <= i < |rs| && 0 <= j < |rs| && StrictlyInside(rs[j], rs[i]) ensures rs[i].cc == rs[j].cc {
      var (r, e) := (rs[i], rs[j]);
      var k :| 0 <= k < |out| && out[k].cc == r.cc && out[k].start <= r.start && r.end <= out[k].end;
      var l :| 0 <= l < |out| && out[l].cc == e.cc && out[l].start <= e.start && e.end <= out[l].end;
      assert !(k < l) && !(l < k);
    }
  }

  lemma InOrderIsUnambiguous(rs: seq<Range>, a: nat, cc: string, cc': string)
    requires InOrder(rs) && Says(rs, a, cc) && Says(rs, a, cc')
    ensures cc == cc'
  {
  }

  lemma NoneInsidePermuted(rs: seq<Range>, rs': seq<Range>)
    requires multiset(rs) == multiset(rs') && NoneInside(rs)
    ensures NoneInside(rs')
  {
    forall i, j | 0 <= i < |rs'| && 0 <= j < |rs'| && StrictlyInside(rs'[j], rs'[i]) ensures rs'[i].cc == rs'[j].cc {
      assert rs'[i] in multiset(rs) && rs'[j] in multiset(rs);
      var k :| 0 <= k < |rs| && rs[k] == rs'[i];
      var l :| 0 <= l < |rs| && rs[l] == rs'[j];
      assert StrictlyInside(rs[l], rs[k]);
    }
  }

  lemma ProperPermuted(rs: seq<Range>, rs': seq<Range>)
    requires multiset(rs) == multiset(rs') && Proper(rs)
    ensures Proper(rs')
  {
    forall k | 0 <= k < |rs'| ensures rs'[k] in rs {
      assert rs'[k] in multiset(rs');
    }
  }

  /**
   Empty records included, the merged ranges are in order exactly when no address was
   given to two countries and no empty record lies strictly inside another country's.
  */
  lemma MergeIsInOrderExactly(rs: seq<Range>)
    requires Proper(rs)
    ensures InOrder(MergeSpec(rs)) <==> OneCountryEach(rs) && NoneInside(rs)
  {
    var sorted := Sorted(rs);
    SortedIsASort(rs);
    if OneCountryEach(rs) && NoneInside(rs) {
      ProperPermuted(rs, sorted);
      NoneInsidePermuted(rs, sorted);
      SameAnswersPermuted(rs, sorted);
      CoalesceIsInOrder(sorted);
    }
    if InOrder(MergeSpec(rs)) {
      forall i | 0 <= i < |sorted| ensures Spanned(MergeSpec(rs), sorted[i]) {
        CoalesceSpans(sorted, i);
      }
      InOrderHasNoneInside(sorted, MergeSpec(rs));
      NoneInsidePermuted(sorted, rs);
      MergeKeepsAnswers(rs);
      forall a: nat, cc, cc' | Says(rs, a, cc) && Says(rs, a, cc') ensures cc == cc' {
        InOrderIsUnambiguous(MergeSpec(rs), a, cc, cc');
      }
    }
  }
}
