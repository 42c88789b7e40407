/**
 Exactly which delegation records the generated table answers faithfully, empty records,
 long IPv6 prefixes and the IPv4-mapped block included.
*/
module IpExact {
  import opened Bytes
  import opened IpRanges
  import opened IpTable
  import opened IpTheorems
  import opened Lists
  import opened Wrappers

  // ----- what the last merged range says, in terms of the sorted records -----

  ghost predicate PrevailsAt(rs: seq<Range>, i: nat, a: nat, cc: string) {
    i < |rs| && Contains(rs[i], a) && rs[i].cc == cc && forall k :: i < k < |rs| && rs[k].start <= a ==> rs[k].cc == cc
  }

  /** Some record gives `a` to `cc`, and no later record that starts by `a` names another country. */
  ghost predicate Prevails(rs: seq<Range>, a: nat, cc: string) {
    exists i: nat :: PrevailsAt(rs, i, a, cc)
  }

  lemma PrevailsSnoc(rs: seq<Range>, r: Range, a: nat, cc: string)
    ensures Prevails(rs + [r], a, cc) <==>
              if r.start <= a then r.cc == cc && (a < r.end || Prevails(rs, a, cc)) else Prevails(rs, a, cc)
  {
    var all := rs + [r];
    if i: nat :| PrevailsAt(all, i, a, cc) {
      assert all[|rs|] == r;
      if i < |rs| {
        forall k | i < k < |rs| && rs[k].start <= a ensures rs[k].cc == cc {
          assert all[k] == rs[k];
        }
        assert PrevailsAt(rs, i, a, cc);
      }
    }
    if i: nat :| PrevailsAt(rs, i, a, cc) {
      assert (r.start <= a && r.cc != cc) || PrevailsAt(all, i, a, cc);
    }
    if r.start <= a < r.end && r.cc == cc {
      assert PrevailsAt(all, |rs|, a, cc);
    }
  }

  lemma LastSnoc(out: seq<Range>, r: Range, a: nat, cc: string)
    ensures LastSays(out + [r], a, cc) <==>
              if r.start <= a then a < r.end && r.cc == cc else LastSays(out, a, cc)
  {
    var all := out + [r];
    if r.start <= a {
      assert IsLast(all, a, |out|);
    } else {
      assert all[|out|] == r;
      forall n: nat ensures IsLast(all, a, n) <==> IsLast(out, a, n) {
        forall k | 0 <= k < |out| ensures out[k] == all[k] {}
        if IsLast(all, a, n) {
          forall k | n < k < |out| ensures a < out[k].start {
            assert a < all[k].start;
          }
        }
      }
    }
  }

  /** Ranges `out` seen through `view`, before and after absorbing a record seen as `c`. */
  lemma {:induction false} AbsorbStep(out: seq<Range>, res: seq<Range>, c: Range, a: nat, cc: string)
    requires StartBy(out, c.start) && (out == [] ==> res == [c])
    requires out != [] ==>
               var (front, d) := (out[..|out| - 1], out[|out| - 1]);
               || (res == out + [c] && (d.cc == c.cc && c.start <= a < d.end ==> a < c.end))
               || (res == front + [Range(d.start, Max(d.end, c.end), c.cc)] && d.cc == c.cc
                   && (d.start <= a < c.start ==> a < d.end))
    ensures LastSays(res, a, cc) <==>
              if c.start <= a then c.cc == cc && (a < c.end || LastSays(out, a, cc)) else LastSays(out, a, cc)
  {
    if out == [] {
      LastSnoc([], c, a, cc);
      assert [] + [c] == res;
    } else {
      var (front, d) := (out[..|out| - 1], out[|out| - 1]);
      assert out == front + [d];
      LastSnoc(front, d, a, cc);
      if res == out + [c] && (d.cc == c.cc && c.start <= a < d.end ==> a < c.end) {
        LastSnoc(out, c, a, cc);
      } else {
        LastSnoc(front, Range(d.start, Max(d.end, c.end), c.cc), a, cc);
      }
    }
  }

  /** The last merged range that starts by an address says what prevails there among the sorted records. */
  lemma {:induction false} CoalescePrevails(rs: seq<Range>, a: nat, cc: string)
    requires InSortOrder(rs)
    ensures LastSays(Coalesce(rs), a, cc) <==> Prevails(rs, a, cc)
    decreases |rs|
  {
    if rs != [] {
      var (front, r) := (rs[..|rs| - 1], rs[|rs| - 1]);
      assert rs == front + [r];
      CoalescePrevails(front, a, cc);
      CoalesceAnswers(front);
      FrontStartsBy(rs);
      AbsorbStep(Coalesce(front), Absorb(Coalesce(front), r), r, a, cc);
      PrevailsSnoc(front, r, a, cc);
    }
  }

  lemma FrontStartsBy(rs: seq<Range>)
    requires InSortOrder(rs) && rs != []
    ensures var (front, r) := (rs[..|rs| - 1], rs[|rs| - 1]); StartBy(Coalesce(front), r.start)
  {
    var n := |rs| - 1;
    CoalesceAnswers(rs[..n]);
    if n > 0 {
      StartsAscend(rs, n - 1, n);
    }
  }

  /** A range and a later one of its country: they touch, or the later one starts in a block of its own. */
  lemma BlocksMeet(d: Range, r: Range, key: nat)
    requires d.start < d.end && r.start < r.end && d.start <= r.start
    ensures Blocks(d).start <= Blocks(r).start
    ensures r.start <= d.end ==>
              var b := Blocks(Range(d.start, Max(d.end, r.end), r.cc));
              && b == Range(Blocks(d).start, Max(Blocks(d).end, Blocks(r).end), r.cc)
              && (Blocks(d).start <= key < Blocks(r).start ==> key < Blocks(d).end)
    ensures d.end < r.start && Blocks(r).start <= key < Blocks(d).end ==> key < Blocks(r).end
  {
    TopOrder(d.start, r.start);
    TopOrder(r.start, r.end - 1);
    if d.end < r.start {
      TopOrder(d.end - 1, r.start);
    } else if d.end <= r.end {
      TopOrder(d.end - 1, r.end - 1);
    } else {
      TopOrder(r.end - 1, d.end - 1);
    }
  }

  lemma {:induction false} BlocksSnoc(rs: seq<Range>, r: Range)
    ensures MapSeq(rs + [r], Blocks) == MapSeq(rs, Blocks) + [Blocks(r)]
  {
    hide MapSeq, Blocks;
  }

  lemma {:induction false} BlocksOfJoined(front: seq<Range>, d: Range, r: Range)
    requires d.cc == r.cc && r.start <= d.end
    ensures MapSeq(Absorb(front + [d], r), Blocks)
            == MapSeq(front, Blocks) + [Blocks(Range(d.start, Max(d.end, r.end), r.cc))]
  {
    hide MapSeq, Blocks, Max;
    BlocksSnoc(front, Range(d.start, Max(d.end, r.end), r.cc));
    assert Absorb(front + [d], r) == front + [Range(d.start, Max(d.end, r.end), r.cc)];
  }

  lemma {:induction false} BlocksStartBy(out: seq<Range>, r: Range)
    requires StartBy(out, r.start)
    ensures StartBy(MapSeq(out, Blocks), Blocks(r).start)
  {
    forall k | 0 <= k < |out| ensures MapSeq(out, Blocks)[k].start <= Blocks(r).start {
      TopOrder(out[k].start, r.start);
    }
  }

  /** What absorbing a record does to the blocks of the ranges before it, seen by one block. */
  ghost predicate BlockStep(hs: seq<Range>, hs': seq<Range>, c: Range, key: nat, cc: string) {
    LastSays(hs', key, cc) <==>
      if c.start <= key then c.cc == cc && (key < c.end || LastSays(hs, key, cc)) else LastSays(hs, key, cc)
  }

  lemma {:induction false} JoinedStep(front: seq<Range>, d: Range, r: Range, key: nat, cc: string)
    requires StartBy(front + [d], r.start) && r.start < r.end && d.start < d.end
    requires d.cc == r.cc && r.start <= d.end
    ensures BlockStep(MapSeq(front + [d], Blocks), MapSeq(Absorb(front + [d], r), Blocks), Blocks(r), key, cc)
  {
    assert (front + [d])[|front|] == d;
    BlocksOfJoined(front, d, r);
    BlocksSnoc(front, d);
    BlocksStartBy(front + [d], r);
    BlocksMeet(d, r, key);
    BlocksKeepCode(d);
    BlocksKeepCode(r);
    hide Blocks, LastSays, MapSeq, Absorb, Contains;
    var hs := MapSeq(front + [d], Blocks);
    assert hs[..|hs| - 1] == MapSeq(front, Blocks);
    AbsorbStep(hs, MapSeq(Absorb(front + [d], r), Blocks), Blocks(r), key, cc);
  }

  lemma {:induction false} AppendedStep(front: seq<Range>, d: Range, r: Range, key: nat, cc: string)
    requires StartBy(front + [d], r.start) && r.start < r.end && d.start < d.end
    requires d.cc != r.cc || d.end < r.start
    ensures BlockStep(MapSeq(front + [d], Blocks), MapSeq(Absorb(front + [d], r), Blocks), Blocks(r), key, cc)
  {
    assert (front + [d])[|front|] == d;
    BlocksSnoc(front + [d], r);
    BlocksSnoc(front, d);
    BlocksStartBy(front + [d], r);
    BlocksMeet(d, r, key);
    BlocksKeepCode(d);
    BlocksKeepCode(r);
    hide Blocks, LastSays, MapSeq, Max;
    AbsorbStep(MapSeq(front + [d], Blocks), MapSeq(front + [d] + [r], Blocks), Blocks(r), key, cc);
  }

  lemma {:induction false} BlocksStep(out: seq<Range>, r: Range, key: nat, cc: string)
    requires AllNonEmpty(out) && StartBy(out, r.start) && r.start < r.end
    ensures BlockStep(MapSeq(out, Blocks), MapSeq(Absorb(out, r), Blocks), Blocks(r), key, cc)
  {
    if out == [] {
      BlocksSnoc([], r);
      AbsorbStep([], [Blocks(r)], Blocks(r), key, cc);
      assert [] + [r] == [r];
    } else {
      var (front, d) := (out[..|out| - 1], out[|out| - 1]);
      assert out == front + [d];
      hide BlockStep, Absorb, Blocks, MapSeq;
      if d.cc == r.cc && r.start <= d.end {
        JoinedStep(front, d, r, key, cc);
      } else {
        AppendedStep(front, d, r, key, cc);
      }
    }
  }

  /** The same of the blocks of 2^64 addresses that the ranges and the records touch. */
  lemma {:induction false} CoalescePrevailsByBlock(rs: seq<Range>, key: nat, cc: string)
    requires InSortOrder(rs) && AllNonEmpty(rs)
    ensures LastSays(MapSeq(Coalesce(rs), Blocks), key, cc) <==> Prevails(MapSeq(rs, Blocks), key, cc)
    decreases |rs|
  {
    if rs != [] {
      var (front, r) := (rs[..|rs| - 1], rs[|rs| - 1]);
      CoalescePrevailsByBlock(front, key, cc);
      BlockStepOfSorted(rs, key, cc);
      BlocksSnoc(front, r);
      PrevailsSnoc(MapSeq(front, Blocks), Blocks(r), key, cc);
      assert rs == front + [r];
      hide Blocks, Coalesce, LastSays, Prevails, MapSeq, InSortOrder, AllNonEmpty;
    }
  }

  lemma {:induction false} BlockStepOfSorted(rs: seq<Range>, key: nat, cc: string)
    requires InSortOrder(rs) && AllNonEmpty(rs) && rs != []
    ensures var (front, r) := (rs[..|rs| - 1], rs[|rs| - 1]);
            BlockStep(MapSeq(Coalesce(front), Blocks), MapSeq(Coalesce(rs), Blocks), Blocks(r), key, cc)
  {
    CoalesceBounds(rs[..|rs| - 1], 0);
    FrontStartsBy(rs);
    BlocksStep(Coalesce(rs[..|rs| - 1]), rs[|rs| - 1], key, cc);
    hide BlockStep, Absorb;
  }

  // ----- IPv4: when what prevails is what the records say -----

  /** Some record that starts at or after `from` contains `a`. */
  ghost predicate CoveredFrom(rs: seq<Range>, from: nat, a: nat) {
    exists x :: x in rs && from <= x.start && Contains(x, a)
  }

  /**
   No empty record hides an address of another country's record behind it: whatever
   follows it there, some record that starts no earlier covers again.
  */
  ghost predicate NothingHidden(rs: seq<Range>) {
    forall r, e, a: nat ::
      r in rs && e in rs && StrictlyInside(e, r) && e.cc != r.cc && e.start <= a < r.end ==> CoveredFrom(rs, e.start, a)
  }

  /** The record that contains `a` last, in a list. */
  lemma {:induction false} LastCover(rs: seq<Range>, a: nat, i: nat) returns (n: nat)
    requires i < |rs| && Contains(rs[i], a)
    ensures i <= n < |rs| && Contains(rs[n], a) && forall k :: n < k < |rs| ==> !Contains(rs[k], a)
    decreases |rs| - i
  {
    if k :| i < k < |rs| && Contains(rs[k], a) {
      n := LastCover(rs, a, k);
    } else {
      n := i;
    }
  }

  lemma {:induction false} FaithfulWhen(rs: seq<Range>, a: nat, cc: string)
    requires InSortOrder(rs) && Proper(rs) && OneCountryEach(rs) && NothingHidden(rs) && Says(rs, a, cc)
    ensures Prevails(rs, a, cc)
  {
    var i :| 0 <= i < |rs| && Contains(rs[i], a) && rs[i].cc == cc;
    var n := LastCover(rs, a, i);
    assert Says(rs, a, rs[n].cc);
    forall k | n < k < |rs| && rs[k].start <= a ensures rs[k].cc == cc {
      StartsAscend(rs, n, k);
      if rs[k].start < rs[k].end {
        assert Contains(rs[n], rs[k].start) && Contains(rs[k], rs[k].start);
        assert Says(rs, rs[k].start, rs[n].cc) && Says(rs, rs[k].start, rs[k].cc);
      } else if rs[k].cc != cc {
        HiddenByEmpty(rs, n, k, a);
      }
    }
    assert PrevailsAt(rs, n, a, cc);
  }

  lemma {:induction false} HiddenByEmpty(rs: seq<Range>, n: nat, k: nat, a: nat)
    requires InSortOrder(rs) && NothingHidden(rs) && n < k < |rs| && Contains(rs[n], a)
    requires rs[k].start == rs[k].end <= a && rs[k].cc != rs[n].cc
    ensures exists m :: n < m < |rs| && Contains(rs[m], a)
  {
    StartsAscend(rs, n, k);
    if rs[n].start == rs[k].start {
      EndsAscend(rs, n, k);
    }
    assert rs[n] in rs && rs[k] in rs && StrictlyInside(rs[k], rs[n]);
    assert CoveredFrom(rs, rs[k].start, a);
    var x :| x in rs && rs[k].start <= x.start && Contains(x, a);
    var m :| 0 <= m < |rs| && rs[m] == x;
    if m <= n {
      StartsAscend(rs, m, n);
    }
  }

  lemma PrevailsOnce(rs: seq<Range>, a: nat, cc: string, cc': string)
    requires Prevails(rs, a, cc) && Prevails(rs, a, cc')
    ensures cc == cc'
  {
    var i: nat :| PrevailsAt(rs, i, a, cc);
    var j: nat :| PrevailsAt(rs, j, a, cc');
    assert i < j || j < i || i == j;
  }

  lemma PrevailedIsSaid(rs: seq<Range>, a: nat, cc: string)
    requires Prevails(rs, a, cc)
    ensures Says(rs, a, cc)
  {
  }

  /** What prevails in a list is what the list says. */
  ghost predicate PrevailsFaithful(rs: seq<Range>) {
    forall a: nat, cc :: Prevails(rs, a, cc) <==> Says(rs, a, cc)
  }

  lemma {:induction false} FaithfulOnly(rs: seq<Range>)
    requires InSortOrder(rs) && PrevailsFaithful(rs)
    ensures OneCountryEach(rs) && NothingHidden(rs)
  {
    forall a: nat, cc, cc' | Says(rs, a, cc) && Says(rs, a, cc') ensures cc == cc' {
      PrevailsOnce(rs, a, cc, cc');
    }
    forall r, e, a: nat | r in rs && e in rs && StrictlyInside(e, r) && e.cc != r.cc && e.start <= a < r.end
      ensures CoveredFrom(rs, e.start, a)
    {
      var i :| 0 <= i < |rs| && rs[i] == r;
      var k :| 0 <= k < |rs| && rs[k] == e;
      assert Contains(rs[i], a);
      assert Says(rs, a, r.cc);
      var m: nat :| PrevailsAt(rs, m, a, r.cc);
      StartsAscend(rs, k, m);
      assert rs[m] in rs;
    }
  }

  lemma {:induction false} PrevailsExactly(rs: seq<Range>)
    requires InSortOrder(rs) && Proper(rs)
    ensures PrevailsFaithful(rs) <==> OneCountryEach(rs) && NothingHidden(rs)
  {
    hide Prevails, Says, InSortOrder, NothingHidden, OneCountryEach;
    if PrevailsFaithful(rs) {
      FaithfulOnly(rs);
    }
    if OneCountryEach(rs) && NothingHidden(rs) {
      forall a: nat, cc ensures Prevails(rs, a, cc) <==> Says(rs, a, cc) {
        if Prevails(rs, a, cc) {
          PrevailedIsSaid(rs, a, cc);
        }
        if Says(rs, a, cc) {
          FaithfulWhen(rs, a, cc);
        }
      }
    }
  }

  // ----- IPv6: the packed table keeps whole blocks of 2^64 addresses -----

  /** In the IPv4-mapped block, whose addresses the look-up reads as IPv4. */
  predicate Mapped(a: nat) {
    a / TWO_32 == 0xFFFF
  }

  /** A record of IPv4-mapped addresses alone. */
  predicate MappedOnly(r: Range) {
    r.start < r.end && Mapped(r.start) && Mapped(r.end - 1)
  }

  predicate Touches(r: Range, block: nat) {
    Contains(Blocks(r), block)
  }

  /** A block that any record touches is covered, apart from its IPv4-mapped addresses. */
  ghost predicate Filled(rs: seq<Range>) {
    forall r, a: nat :: r in rs && !Mapped(a) && Touches(r, a / TWO_64) ==> CoveredFrom(rs, 0, a)
  }

  /** No block is shared by two countries, not counting records of IPv4-mapped addresses alone. */
  ghost predicate OneCountryPerBlock(rs: seq<Range>) {
    forall x, y, block: nat ::
      x in rs && y in rs && !MappedOnly(x) && !MappedOnly(y) && Touches(x, block) && Touches(y, block) ==> x.cc == y.cc
  }

  /** Some record of the country that sorts after `e` touches the block. */
  ghost predicate TouchedAfter(rs: seq<Range>, e: Range, block: nat, cc: string) {
    exists m :: m in rs && m.cc == cc && Le(e, m) && Touches(m, block)
  }

  /** A record of IPv4-mapped addresses alone hides no address of another country's record behind it. */
  ghost predicate MappedHidesNone(rs: seq<Range>) {
    forall e, r, a: nat ::
      e in rs && r in rs && MappedOnly(e) && r.cc != e.cc && !Mapped(a) && Contains(r, a) ==>
        TouchedAfter(rs, e, a / TWO_64, r.cc)
  }

  /** Looking at whole blocks loses nothing. */
  ghost predicate WholeBlocks(rs: seq<Range>) {
    Filled(rs) && OneCountryPerBlock(rs) && MappedHidesNone(rs)
  }

  ghost predicate SaysBlock(rs: seq<Range>, block: nat, cc: string) {
    Prevails(MapSeq(rs, Blocks), block, cc)
  }

  lemma TouchesOwn(r: Range, a: nat)
    requires Contains(r, a)
    ensures Touches(r, a / TWO_64)
  {
    TopOrder(r.start, a);
    TopOrder(a, r.end - 1);
  }

  /** A record of IPv4-mapped addresses alone touches the first block and no other. */
  lemma MappedTouchesFirst(r: Range, block: nat)
    requires MappedOnly(r)
    ensures Touches(r, block) <==> block == 0
  {
  }

  /** Any other record that touches a block has an address there that is not IPv4-mapped. */
  lemma UnmappedPoint(r: Range, block: nat) returns (a: nat)
    requires r.start < r.end && !MappedOnly(r) && Touches(r, block)
    ensures Contains(r, a) && a / TWO_64 == block && !Mapped(a)
  {
    if block > r.start / TWO_64 {
      a := block * TWO_64;
    } else if !Mapped(r.start) {
      a := r.start;
    } else {
      a := 0x1_0000_0000_0000;
    }
  }

  /** The record of a country that touches a block last, in a list. */
  lemma {:induction false} LastTouch(rs: seq<Range>, block: nat, i: nat) returns (n: nat)
    requires i < |rs| && Touches(rs[i], block)
    ensures i <= n < |rs| && Touches(rs[n], block) && rs[n].cc == rs[i].cc
    ensures forall k :: n < k < |rs| && rs[k].cc == rs[i].cc ==> !Touches(rs[k], block)
    decreases |rs| - i
  {
    if k :| i < k < |rs| && rs[k].cc == rs[i].cc && Touches(rs[k], block) {
      n := LastTouch(rs, block, k);
    } else {
      n := i;
    }
  }

  /** A record between the last of a country to touch a block and that block is of that country too. */
  lemma {:induction false} NoneBehind(rs: seq<Range>, a: nat, i: nat, n: nat, k: nat)
    requires InSortOrder(rs) && AllNonEmpty(rs) && WholeBlocks(rs) && !Mapped(a)
    requires i <= n < k < |rs| && Contains(rs[i], a) && rs[n].cc == rs[i].cc && Touches(rs[n], a / TWO_64)
    requires Blocks(rs[k]).start <= a / TWO_64
    requires forall l :: n < l < |rs| && rs[l].cc == rs[i].cc ==> !Touches(rs[l], a / TWO_64)
    ensures rs[k].cc == rs[i].cc
  {
    assert rs[i] in rs && rs[n] in rs && rs[k] in rs;
    var block := Blocks(rs[k]).start;
    assert Touches(rs[k], block);
    StartsAscend(rs, n, k);
    TopOrder(rs[n].start, rs[k].start);
    if MappedOnly(rs[k]) {
      if rs[k].cc != rs[i].cc {
        assert TouchedAfter(rs, rs[k], a / TWO_64, rs[i].cc);
        var m :| m in rs && m.cc == rs[i].cc && Le(rs[k], m) && Touches(m, a / TWO_64);
        var l :| 0 <= l < |rs| && rs[l] == m;
        PlacedAfter(rs, k, l);
      }
    } else if MappedOnly(rs[n]) {
      MappedTouchesFirst(rs[n], a / TWO_64);
      TouchesOwn(rs[i], a);
      assert Touches(rs[i], block);
    } else {
      assert Touches(rs[n], block);
    }
  }

  lemma {:induction false} BlockSaysWhen(rs: seq<Range>, a: nat, cc: string)
    requires InSortOrder(rs) && AllNonEmpty(rs) && WholeBlocks(rs) && !Mapped(a) && Says(rs, a, cc)
    ensures SaysBlock(rs, a / TWO_64, cc)
  {
    var i :| 0 <= i < |rs| && Contains(rs[i], a) && rs[i].cc == cc;
    TouchesOwn(rs[i], a);
    var n := LastTouch(rs, a / TWO_64, i);
    var hs := MapSeq(rs, Blocks);
    forall k | n < k < |hs| && hs[k].start <= a / TWO_64 ensures hs[k].cc == cc {
      NoneBehind(rs, a, i, n, k);
    }
    assert PrevailsAt(hs, n, a / TWO_64, cc);
  }

  lemma {:induction false} WholeBlocksAnswer(rs: seq<Range>, a: nat, cc: string)
    requires InSortOrder(rs) && AllNonEmpty(rs) && WholeBlocks(rs) && !Mapped(a)
    ensures SaysBlock(rs, a / TWO_64, cc) <==> Says(rs, a, cc)
  {
    if SaysBlock(rs, a / TWO_64, cc) {
      var i: nat :| PrevailsAt(MapSeq(rs, Blocks), i, a / TWO_64, cc);
      assert rs[i] in rs && Touches(rs[i], a / TWO_64);
      assert CoveredFrom(rs, 0, a);
      var x :| x in rs && 0 <= x.start && Contains(x, a);
      var j :| 0 <= j < |rs| && rs[j] == x;
      assert Says(rs, a, x.cc);
      BlockSaysWhen(rs, a, x.cc);
      PrevailsOnce(MapSeq(rs, Blocks), a / TWO_64, cc, x.cc);
    }
    if Says(rs, a, cc) {
      BlockSaysWhen(rs, a, cc);
    }
  }

  /** The whole blocks of a list answer for every address that is not IPv4-mapped. */
  ghost predicate BlocksFaithful(rs: seq<Range>) {
    forall a: nat, cc :: !Mapped(a) ==> (SaysBlock(rs, a / TWO_64, cc) <==> Says(rs, a, cc))
  }

  /** What the records say at some address of a block, its block says. */
  lemma TouchSays(rs: seq<Range>, r: Range, block: nat)
    requires AllNonEmpty(rs) && BlocksFaithful(rs) && r in rs && !MappedOnly(r) && Touches(r, block)
    ensures SaysBlock(rs, block, r.cc)
  {
    var i :| 0 <= i < |rs| && rs[i] == r;
    var a := UnmappedPoint(r, block);
    assert Says(rs, a, r.cc);
  }

  /** Whatever starts in the first block, some country prevails there. */
  lemma FirstBlockSays(rs: seq<Range>, i: nat) returns (cc: string)
    requires AllNonEmpty(rs) && i < |rs| && Blocks(rs[i]).start == 0
    ensures SaysBlock(rs, 0, cc)
    decreases |rs| - i
  {
    if k :| i < k < |rs| && Blocks(rs[k]).start == 0 {
      cc := FirstBlockSays(rs, k);
    } else {
      cc := rs[i].cc;
      assert PrevailsAt(MapSeq(rs, Blocks), i, 0, cc);
    }
  }

  lemma {:induction false} FaithfulIsFilled(rs: seq<Range>)
    requires AllNonEmpty(rs) && BlocksFaithful(rs)
    ensures Filled(rs)
  {
    forall r, a: nat | r in rs && !Mapped(a) && Touches(r, a / TWO_64) ensures CoveredFrom(rs, 0, a) {
      var cc := r.cc;
      if MappedOnly(r) {
        MappedTouchesFirst(r, a / TWO_64);
        var i :| 0 <= i < |rs| && rs[i] == r;
        cc := FirstBlockSays(rs, i);
      } else {
        TouchSays(rs, r, a / TWO_64);
      }
      assert Says(rs, a, cc);
      var k :| 0 <= k < |rs| && Contains(rs[k], a) && rs[k].cc == cc;
      assert rs[k] in rs;
    }
  }

  lemma {:induction false} FaithfulIsOnePerBlock(rs: seq<Range>)
    requires AllNonEmpty(rs) && BlocksFaithful(rs)
    ensures OneCountryPerBlock(rs)
  {
    forall x, y, block: nat
      | x in rs && y in rs && !MappedOnly(x) && !MappedOnly(y) && Touches(x, block) && Touches(y, block)
      ensures x.cc == y.cc
    {
      TouchSays(rs, x, block);
      TouchSays(rs, y, block);
      PrevailsOnce(MapSeq(rs, Blocks), block, x.cc, y.cc);
    }
  }

  /** A record of IPv4-mapped addresses alone, behind which another country still prevails. */
  lemma {:induction false} BehindMapped(rs: seq<Range>, k: nat, block: nat, cc: string)
    requires InSortOrder(rs) && k < |rs| && MappedOnly(rs[k]) && rs[k].cc != cc && SaysBlock(rs, block, cc)
    ensures TouchedAfter(rs, rs[k], block, cc)
  {
    var hs := MapSeq(rs, Blocks);
    var m: nat :| PrevailsAt(hs, m, block, cc);
    MappedTouchesFirst(rs[k], 0);
    assert hs[k].start == 0 && hs[k].cc == rs[k].cc;
    hide MappedOnly, Le, InSortOrder, Blocks;
    SortedLe(rs, k, m);
    assert rs[m] in rs && Touches(rs[m], block);
  }

  lemma {:induction false} FaithfulHidesNone(rs: seq<Range>)
    requires InSortOrder(rs) && BlocksFaithful(rs)
    ensures MappedHidesNone(rs)
  {
    hide InSortOrder, MappedOnly, TouchedAfter, SaysBlock, Mapped;
    forall e, r, a: nat | e in rs && r in rs && MappedOnly(e) && r.cc != e.cc && !Mapped(a) && Contains(r, a)
      ensures TouchedAfter(rs, e, a / TWO_64, r.cc)
    {
      var i :| 0 <= i < |rs| && rs[i] == r;
      var k :| 0 <= k < |rs| && rs[k] == e;
      assert Says(rs, a, r.cc);
      BehindMapped(rs, k, a / TWO_64, r.cc);
    }
  }

  lemma {:induction false} BlocksFaithfulExactly(rs: seq<Range>)
    requires InSortOrder(rs) && AllNonEmpty(rs)
    ensures BlocksFaithful(rs) <==> WholeBlocks(rs)
  {
    if BlocksFaithful(rs) {
      FaithfulIsFilled(rs);
      FaithfulIsOnePerBlock(rs);
      FaithfulHidesNone(rs);
    }
    if WholeBlocks(rs) {
      forall a: nat, cc | !Mapped(a) ensures SaysBlock(rs, a / TWO_64, cc) <==> Says(rs, a, cc) {
        WholeBlocksAnswer(rs, a, cc);
      }
    }
  }

  // ----- end to end -----

  lemma AbsorbStarts(out: seq<Range>, r: Range)
    requires StartsInOrder(out) && StartBy(out, r.start)
    ensures StartsInOrder(Absorb(out, r))
  {
  }

  lemma {:induction false} CoalesceStarts(rs: seq<Range>)
    requires InSortOrder(rs)
    ensures StartsInOrder(Coalesce(rs))
    decreases |rs|
  {
    if rs != [] {
      CoalesceStarts(rs[..|rs| - 1]);
      FrontStartsBy(rs);
      AbsorbStarts(Coalesce(rs[..|rs| - 1]), rs[|rs| - 1]);
      hide Absorb;
    }
  }

  lemma {:induction false} BlocksStartInOrder(rs: seq<Range>)
    requires StartsInOrder(rs)
    ensures StartsInOrder(MapSeq(rs, Blocks))
  {
    forall k, l | 0 <= k < l < |rs| ensures MapSeq(rs, Blocks)[k].start <= MapSeq(rs, Blocks)[l].start {
      TopOrder(rs[k].start, rs[l].start);
    }
  }

  /** The IPv4 look-up answers what prevails among the sorted records. */
  lemma {:induction false} Answers4(r4: seq<Range>, r6: seq<Range>, blob: seq<Byte>, a: Addr4, cc: string)
    requires Generate(r4, r6) == Some(blob)
    ensures Lookup(blob, V4(a)) == Some(cc) <==> Prevails(Sorted(r4), a, cc)
  {
    var (v4, v6) := (MergeSpec(r4), MergeSpec(r6));
    var codes := CodesOf(v4 + v6);
    ParseUndoesPack(v4, v6, codes);
    SortedIsASort(r4);
    CoalesceStarts(Sorted(r4));
    CoalescePrevails(Sorted(r4), a, cc);
    Search4(v4, v6, codes, a, cc);
    hide Parse, Pack, Packed, Sorted, Coalesce, CodesOf, Lookup4, Prevails, LastSays, Packable;
  }

  /** The IPv6 look-up answers what prevails among the blocks of the sorted records. */
  lemma {:induction false} Answers6(r4: seq<Range>, r6: seq<Range>, blob: seq<Byte>, a: Addr6, cc: string)
    requires AllNonEmpty(r6) && Generate(r4, r6) == Some(blob) && !Mapped(a)
    ensures Lookup(blob, V6(a)) == Some(cc) <==> SaysBlock(Sorted(r6), a / TWO_64, cc)
  {
    var (v4, v6) := (MergeSpec(r4), MergeSpec(r6));
    var codes := CodesOf(v4 + v6);
    ParseUndoesPack(v4, v6, codes);
    SortedIsASort(r6);
    NonEmptyPermuted(r6, Sorted(r6));
    CoalesceStarts(Sorted(r6));
    BlocksStartInOrder(v6);
    CoalescePrevailsByBlock(Sorted(r6), a / TWO_64, cc);
    Search6(v4, v6, codes, a / TWO_64, cc);
    hide Parse, Pack, Packed, Sorted, Coalesce, CodesOf, Lookup6, Prevails, LastSays, Packable, AllNonEmpty,
         StartsInOrder, InSortOrder, Blocks, MapSeq;
  }

  lemma SameMembers(rs: seq<Range>, rs': seq<Range>)
    requires multiset(rs) == multiset(rs')
    ensures forall r :: r in rs <==> r in rs'
  {
    forall r ensures r in rs <==> r in rs' {
      assert r in multiset(rs) <==> r in multiset(rs');
    }
  }

  lemma {:induction false} ConditionsPermuted(rs: seq<Range>, rs': seq<Range>)
    requires forall r :: r in rs <==> r in rs'
    ensures NothingHidden(rs) ==> NothingHidden(rs')
    ensures WholeBlocks(rs) ==> WholeBlocks(rs')
  {
    hide Touches, MappedOnly, StrictlyInside, Contains, Le, Mapped;
    forall from: nat, a: nat | CoveredFrom(rs, from, a) ensures CoveredFrom(rs', from, a) {
      var x :| x in rs && from <= x.start && Contains(x, a);
      assert x in rs';
    }
    forall e, block: nat, cc | TouchedAfter(rs, e, block, cc) ensures TouchedAfter(rs', e, block, cc) {
      var m :| m in rs && m.cc == cc && Le(e, m) && Touches(m, block);
      assert m in rs';
    }
  }

  /** No record reaches past the last address. */
  lemma NothingBeyond(rs: seq<Range>, limit: nat, a: nat, cc: string)
    requires EndsBy(MergeSpec(rs), limit) && limit <= a
    ensures !Says(rs, a, cc)
  {
    MergeKeepsAnswers(rs);
    hide MergeSpec;
  }

  ghost predicate Faithful4(r4: seq<Range>, blob: seq<Byte>) {
    forall a: Addr4, cc :: Lookup(blob, V4(a)) == Some(cc) <==> Says(r4, a, cc)
  }

  ghost predicate Faithful6(r6: seq<Range>, blob: seq<Byte>) {
    forall a: Addr6, cc :: !Mapped(a) ==> (Lookup(blob, V6(a)) == Some(cc) <==> Says(r6, a, cc))
  }

  lemma {:induction false} SortedCondition4(r4: seq<Range>)
    ensures OneCountryEach(r4) && NothingHidden(r4) <==> OneCountryEach(Sorted(r4)) && NothingHidden(Sorted(r4))
  {
    SortedIsASort(r4);
    SameMembers(r4, Sorted(r4));
    ConditionsPermuted(r4, Sorted(r4));
    ConditionsPermuted(Sorted(r4), r4);
    SameAnswersPermuted(r4, Sorted(r4));
    hide Sorted, Says, NothingHidden, WholeBlocks;
  }

  lemma {:induction false} Faithful4Prevails(r4: seq<Range>, r6: seq<Range>, blob: seq<Byte>)
    requires Generate(r4, r6) == Some(blob)
    ensures Faithful4(r4, blob) <==> PrevailsFaithful(Sorted(r4))
  {
    var sorted := Sorted(r4);
    SortedIsASort(r4);
    SameAnswersPermuted(r4, sorted);
    hide Lookup, Sorted, Says, Prevails;
    if PrevailsFaithful(sorted) {
      forall a: Addr4, cc ensures Lookup(blob, V4(a)) == Some(cc) <==> Says(r4, a, cc) {
        Answers4(r4, r6, blob, a, cc);
      }
    }
    if Faithful4(r4, blob) {
      forall a: nat, cc ensures Prevails(sorted, a, cc) <==> Says(sorted, a, cc) {
        if a < TWO_32 {
          Answers4(r4, r6, blob, a, cc);
        } else {
          NothingBeyond(r4, TWO_32, a, cc);
          if Prevails(sorted, a, cc) {
            PrevailedIsSaid(sorted, a, cc);
          }
        }
      }
    }
  }

  /**
   For any records, the generated table answers every IPv4 address as they do exactly when
   no address has two countries and no empty record hides another country's record.
  */
  lemma Exactly4(r4: seq<Range>, r6: seq<Range>, blob: seq<Byte>)
    requires Proper(r4) && Generate(r4, r6) == Some(blob)
    ensures Faithful4(r4, blob) <==> OneCountryEach(r4) && NothingHidden(r4)
  {
    SortedCondition4(r4);
    SortedIsASort(r4);
    ProperPermuted(r4, Sorted(r4));
    Faithful4Prevails(r4, r6, blob);
    PrevailsExactly(Sorted(r4));
    hide *;
  }

  lemma {:induction false} NoBlockBeyond(rs: seq<Range>, block: nat, cc: string)
    requires InSortOrder(rs) && AllNonEmpty(rs) && EndsBy(Coalesce(rs), TWO_128) && TWO_64 <= block
    ensures !SaysBlock(rs, block, cc)
  {
    CoalescePrevailsByBlock(rs, block, cc);
    CoalesceBounds(rs, 0);
    var hs := MapSeq(Coalesce(rs), Blocks);
    forall k | 0 <= k < |hs| ensures hs[k].end <= TWO_64 {
      FitsTop(Coalesce(rs)[k].end - 1);
    }
    hide Blocks, Coalesce, Prevails;
  }

  lemma {:induction false} SortedCondition6(r6: seq<Range>)
    ensures WholeBlocks(r6) <==> WholeBlocks(Sorted(r6))
  {
    SortedIsASort(r6);
    SameMembers(r6, Sorted(r6));
    ConditionsPermuted(r6, Sorted(r6));
    ConditionsPermuted(Sorted(r6), r6);
    hide Sorted, NothingHidden, WholeBlocks;
  }

  lemma {:induction false} Faithful6Blocks(r4: seq<Range>, r6: seq<Range>, blob: seq<Byte>)
    requires AllNonEmpty(r6) && Generate(r4, r6) == Some(blob)
    ensures Faithful6(r6, blob) <==> BlocksFaithful(Sorted(r6))
  {
    var sorted := Sorted(r6);
    SortedIsASort(r6);
    SameAnswersPermuted(r6, sorted);
    NonEmptyPermuted(r6, sorted);
    hide Lookup, Sorted, Says, SaysBlock, Mapped;
    if BlocksFaithful(sorted) {
      forall a: Addr6, cc | !Mapped(a) ensures Lookup(blob, V6(a)) == Some(cc) <==> Says(r6, a, cc) {
        Answers6(r4, r6, blob, a, cc);
      }
    }
    if Faithful6(r6, blob) {
      forall a: nat, cc | !Mapped(a) ensures SaysBlock(sorted, a / TWO_64, cc) <==> Says(sorted, a, cc) {
        if a < TWO_128 {
          Answers6(r4, r6, blob, a, cc);
        } else {
          TopOrder(TWO_128, a);
          NothingBeyond(r6, TWO_128, a, cc);
          NoBlockBeyond(sorted, a / TWO_64, cc);
        }
      }
    }
  }

  /**
   For any records, the generated table answers every IPv6 address that is not IPv4-mapped
   as they do exactly when looking at whole blocks of 2^64 addresses loses nothing.
  */
  lemma Exactly6(r4: seq<Range>, r6: seq<Range>, blob: seq<Byte>)
    requires AllNonEmpty(r6) && Generate(r4, r6) == Some(blob)
    ensures Faithful6(r6, blob) <==> WholeBlocks(r6)
  {
    SortedCondition6(r6);
    SortedIsASort(r6);
    NonEmptyPermuted(r6, Sorted(r6));
    Faithful6Blocks(r4, r6, blob);
    BlocksFaithfulExactly(Sorted(r6));
    hide *;
  }

  /** The table answers every address, of either family, as the records do. */
  ghost predicate Faithful(r4: seq<Range>, r6: seq<Range>, blob: seq<Byte>) {
    forall ip, cc :: Lookup(blob, ip) == Some(cc) <==> RecordsSay(r4, r6, ip, cc)
  }

  lemma MappedSaysAsV4(r4: seq<Range>, r6: seq<Range>, blob: seq<Byte>, a: Addr6, cc: string)
    requires Faithful4(r4, blob) && Mapped(a)
    ensures Lookup(blob, V6(a)) == Some(cc) <==> RecordsSay(r4, r6, V6(a), cc)
  {
    var m: Addr4 := a % TWO_32;
    assert a == 0xFFFF * TWO_32 + m && MappedV4(a) == Some(m);
    MappedAnswersAsV4(blob, m);
    hide Lookup;
  }

  lemma FaithfulInParts(r4: seq<Range>, r6: seq<Range>, blob: seq<Byte>)
    ensures Faithful(r4, r6, blob) <==> Faithful4(r4, blob) && Faithful6(r6, blob)
  {
    hide Lookup;
    if Faithful(r4, r6, blob) {
      forall a: Addr4, cc ensures Lookup(blob, V4(a)) == Some(cc) <==> Says(r4, a, cc) {
        assert RecordsSay(r4, r6, V4(a), cc) <==> Says(r4, a, cc);
      }
      forall a: Addr6, cc | !Mapped(a) ensures Lookup(blob, V6(a)) == Some(cc) <==> Says(r6, a, cc) {
        assert RecordsSay(r4, r6, V6(a), cc) <==> Says(r6, a, cc);
      }
    }
    if Faithful4(r4, blob) && Faithful6(r6, blob) {
      forall ip, cc ensures Lookup(blob, ip) == Some(cc) <==> RecordsSay(r4, r6, ip, cc) {
        if ip.V6? && Mapped(ip.a6) {
          MappedSaysAsV4(r4, r6, blob, ip.a6, cc);
        }
      }
    }
  }

  /** Generate, parse and look up equals the plain scan of the records exactly under these conditions on the records. */
  lemma TableIsExact(r4: seq<Range>, r6: seq<Range>, blob: seq<Byte>)
    requires Proper(r4) && AllNonEmpty(r6) && Generate(r4, r6) == Some(blob)
    ensures Faithful(r4, r6, blob) <==> OneCountryEach(r4) && NothingHidden(r4) && WholeBlocks(r6)
  {
    Exactly4(r4, r6, blob);
    Exactly6(r4, r6, blob);
    FaithfulInParts(r4, r6, blob);
  }

  lemma AlignedAreWhole(r6: seq<Range>)
    requires AllNonEmpty(r6) && OneCountryEach(r6) && AllAligned(r6)
    ensures WholeBlocks(r6)
  {
    forall r, a: nat | r in r6 && Touches(r, a / TWO_64) ensures Contains(r, a) && Says(r6, a, r.cc) {
      var k :| 0 <= k < |r6| && r6[k] == r;
      AlignedTop(r, a);
    }
    forall x, y, block: nat | x in r6 && y in r6 && Touches(x, block) && Touches(y, block) ensures x.cc == y.cc {
      var a := block * TWO_64;
      assert a / TWO_64 == block;
      assert Says(r6, a, x.cc) && Says(r6, a, y.cc);
    }
    forall e | e in r6 ensures !MappedOnly(e) {
      var k :| 0 <= k < |r6| && r6[k] == e;
      assert Aligned(e);
    }
    hide Says, OneCountryEach;
  }

  /**
   The common case: one country per address, no IPv4 record empty strictly inside another
   country's, and IPv6 prefixes of at most 64 bits.
  */
  lemma TableAnswersAsRecords(r4: seq<Range>, r6: seq<Range>, blob: seq<Byte>, ip: Ip, cc: string)
    requires Proper(r4) && OneCountryEach(r4) && NoneInside(r4)
    requires AllNonEmpty(r6) && OneCountryEach(r6) && AllAligned(r6)
    requires Generate(r4, r6) == Some(blob)
    ensures Lookup(blob, ip) == Some(cc) <==> RecordsSay(r4, r6, ip, cc)
  {
    AlignedAreWhole(r6);
    assert NothingHidden(r4);
    TableIsExact(r4, r6, blob);
    hide OneCountryEach, NothingHidden, WholeBlocks, Generate, Lookup, RecordsSay;
  }
}
