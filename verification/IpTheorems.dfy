/** Generate, parse, look up: the built-in table answers exactly as the delegation records do. */
module IpTheorems {
  import opened Bytes
  import opened IpRanges
  import opened IpTable
  import opened Lists
  import opened Wrappers

  // ----- binary search over tidy ranges -----

  ghost predicate Ascending(starts: seq<nat>) {
    forall i, j :: 0 <= i < j < |starts| ==> starts[i] <= starts[j]
  }

  /** Everything before position `n` is at most the key, everything from it on is beyond the key. */
  ghost predicate SplitAt(starts: seq<nat>, key: nat, lo: nat, hi: nat) {
    && (forall k :: 0 <= k < lo && k < |starts| ==> starts[k] <= key)
    && (forall k :: hi <= k < |starts| ==> key < starts[k])
  }

  lemma {:induction false} BisectSplits(starts: seq<nat>, key: nat, lo: nat, hi: nat)
    requires lo <= hi <= |starts| && Ascending(starts) && SplitAt(starts, key, lo, hi)
    ensures var n := Bisect(starts, key, lo, hi); SplitAt(starts, key, n, n)
    decreases hi - lo
  {
    if lo < hi {
      var mid := (lo + hi) / 2;
      if starts[mid] <= key {
        assert forall k :: 0 <= k < mid ==> starts[k] <= starts[mid];
        BisectSplits(starts, key, mid + 1, hi);
      } else {
        assert forall k :: mid < k < |starts| ==> starts[mid] <= starts[k];
        BisectSplits(starts, key, lo, mid);
      }
    }
  }

  /** Range `n` is the last to start by `a`. */
  ghost predicate IsLast(rs: seq<Range>, a: nat, n: nat) {
    n < |rs| && rs[n].start <= a && forall k :: n < k < |rs| ==> a < rs[k].start
  }

  /** The last range to start by `a` contains it and names `cc`: all that a binary search looks at. */
  ghost predicate LastSays(rs: seq<Range>, a: nat, cc: string) {
    exists n: nat :: IsLast(rs, a, n) && a < rs[n].end && rs[n].cc == cc
  }

  ghost predicate StartsInOrder(rs: seq<Range>) {
    forall k, l :: 0 <= k < l < |rs| ==> rs[k].start <= rs[l].start
  }

  /** The binary search stops just behind the last range that starts by the key. */
  lemma {:induction false} BisectFindsTheLast(rs: seq<Range>, starts: seq<nat>, key: nat)
    requires StartsInOrder(rs) && |starts| == |rs| && forall i :: 0 <= i < |rs| ==> starts[i] == rs[i].start
    ensures var n := Bisect(starts, key, 0, |rs|); forall k: nat :: IsLast(rs, key, k) <==> n > 0 && k == n - 1
  {
    forall i, j | 0 <= i < j < |starts| ensures starts[i] <= starts[j] {
      assert rs[i].start <= rs[j].start;
    }
    BisectSplits(starts, key, 0, |rs|);
    var n := Bisect(starts, key, 0, |rs|);
    hide Bisect;
    assert forall k :: 0 <= k < n ==> rs[k].start == starts[k] <= key;
    assert forall k :: n <= k < |rs| ==> key < starts[k] == rs[k].start;
    assert n > 0 ==> rs[n - 1].start <= key;
    forall k: nat | IsLast(rs, key, k) ensures n > 0 && k == n - 1 {
      assert k < n;
    }
  }

  /** In ordered ranges only the last range that starts by the key can contain it. */
  lemma {:induction false} OnlyTheLastStarted(rs: seq<Range>, key: nat, cc: string)
    requires InOrder(rs) && Proper(rs)
    ensures StartsInOrder(rs) && (LastSays(rs, key, cc) <==> Says(rs, key, cc))
  {
    forall k, l | 0 <= k < l < |rs| ensures rs[k].start <= rs[l].start {
      assert rs[k].end <= rs[l].start;
    }
    if k :| 0 <= k < |rs| && Contains(rs[k], key) && rs[k].cc == cc {
      assert IsLast(rs, key, k);
    }
    if n: nat :| IsLast(rs, key, n) && key < rs[n].end && rs[n].cc == cc {
      assert Contains(rs[n], key);
    }
  }

  // ----- what was packed is what is read -----

  lemma PrefixRead(b: seq<Byte>, more: seq<Byte>, o: nat, w: nat)
    requires o + w <= |b|
    ensures NumberAt(b + more, o, w) == NumberAt(b, o, w)
  {
    assert (b + more)[o..o + w] == b[o..o + w];
  }

  predicate Fits(e: Entry, w: nat) {
    e.x < Span(w) && e.y < Span(w) && e.idx < Span(2)
  }

  /** The entry whose bytes start at `o`. */
  function EntryAt(b: seq<Byte>, o: nat, w: nat): Entry
    requires o + 2 * w + 2 <= |b|
  {
    Entry(NumberAt(b, o, w), NumberAt(b, o + w, w), NumberAt(b, o + 2 * w, 2))
  }

  lemma RowRead(before: seq<Byte>, e: Entry, w: nat)
    requires Fits(e, w)
    ensures EntryAt(before + Row(e, w), |before|, w) == e
  {
    var b := before + Row(e, w);
    var (x, y, i) := (Encode(e.x, w), Encode(e.y, w), Encode(e.idx, 2));
    NumberInside(before, e.x, w, y + i);
    assert b == before + x + (y + i);
    NumberInside(before + x, e.y, w, i);
    assert b == before + x + y + i;
    NumberInside(before + x + y, e.idx, 2, []);
    assert b == before + x + y + i + [];
  }

  /** Every packed entry is read back where it was written. */
  lemma {:induction false} RowsRead(es: seq<Entry>, w: nat, k: nat)
    requires (forall i :: 0 <= i < |es| ==> Fits(es[i], w)) && k < |es|
    ensures k * (2 * w + 2) + 2 * w + 2 <= |Rows(es, w)|
    ensures EntryAt(Rows(es, w), k * (2 * w + 2), w) == es[k]
    decreases |es|
  {
    hide Row, EntryAt;
    var n := |es| - 1;
    var (front, row) := (Rows(es[..n], w), Row(es[n], w));
    StrideFits(k, |es|, 2 * w + 2);
    if k == n {
      RowRead(front, es[n], w);
    } else {
      RowsRead(es[..n], w, k);
      EntryPrefix(front, row, k * (2 * w + 2), w);
    }
  }

  lemma StrideFits(k: nat, n: nat, stride: nat)
    requires k < n
    ensures k * stride + stride <= n * stride
  {
    var more: nat := n - k - 1;
    assert n * stride == k * stride + stride + more * stride;
  }

  lemma EntryPrefix(b: seq<Byte>, more: seq<Byte>, o: nat, w: nat)
    requires o + 2 * w + 2 <= |b|
    ensures EntryAt(b + more, o, w) == EntryAt(b, o, w)
  {
    PrefixRead(b, more, o, w);
    PrefixRead(b, more, o + w, w);
    PrefixRead(b, more, o + 2 * w, 2);
  }

  /** The table a packed blob parses to. */
  function Packed(v4: seq<Range>, v6: seq<Range>, codes: seq<string>): (t: Table)
    requires Packable(v4, v6, codes)
    ensures t.Valid() && t.v4Count == |v4| && t.v6Count == |v6| && t.codes == CodeBytes(codes)
  {
    Table(CodeBytes(codes), Rows(Entries4(v4, codes), 4), Rows(Entries6(v6, codes), 8), |v4|, |v6|)
  }

  lemma HeaderRead(n4: nat, n6: nat, nc: nat, rest: seq<Byte>)
    requires n4 < TWO_32 && n6 < TWO_32 && nc <= MAX_CODES
    ensures var b := Header(n4, n6, nc) + rest;
            && b[..8] == MAGIC
            && NumberAt(b, 8, 4) == n4 && NumberAt(b, 12, 4) == n6 && NumberAt(b, 16, 2) == nc
  {
    Spans();
    var h := Header(n4, n6, nc);
    NumberInside(MAGIC, n4, 4, Encode(n6, 4) + Encode(nc, 2));
    assert h == MAGIC + Encode(n4, 4) + (Encode(n6, 4) + Encode(nc, 2));
    NumberInside(MAGIC + Encode(n4, 4), n6, 4, Encode(nc, 2));
    NumberInside(MAGIC + Encode(n4, 4) + Encode(n6, 4), nc, 2, []);
    assert h == MAGIC + Encode(n4, 4) + Encode(n6, 4) + Encode(nc, 2) + [];
    PrefixRead(h, rest, 8, 4);
    PrefixRead(h, rest, 12, 4);
    PrefixRead(h, rest, 16, 2);
  }

  /** Parsing undoes packing. */
  lemma ParseUndoesPack(v4: seq<Range>, v6: seq<Range>, codes: seq<string>)
    requires Packable(v4, v6, codes)
    ensures Parse(Pack(v4, v6, codes)) == Some(Packed(v4, v6, codes))
  {
    hide NumberAt, Rows, CodeBytes, Header;
    var blob := Pack(v4, v6, codes);
    var (h, c) := (Header(|v4|, |v6|, |codes|), CodeBytes(codes));
    var (a, b) := (Rows(Entries4(v4, codes), 4), Rows(Entries6(v6, codes), 8));
    HeaderRead(|v4|, |v6|, |codes|, c + a + b);
    assert blob == h + (c + a + b);
    var (x, y) := (HDR + |c|, HDR + |c| + |a|);
    assert blob[HDR..x] == c && blob[x..y] == a && blob[y..y + |b|] == b;
  }

  lemma {:induction false} CodePairAt(codes: seq<string>, k: nat)
    requires (forall cc :: cc in codes ==> ValidCode(cc)) && k < |codes|
    ensures ValidCode(codes[k])
    ensures CodeBytes(codes)[2 * k] == codes[k][0] as nat && CodeBytes(codes)[2 * k + 1] == codes[k][1] as nat
    decreases |codes|
  {
    var n := |codes| - 1;
    assert codes[n] in codes && codes[k] in codes;
    if k < n {
      CodePairAt(codes[..n], k);
    }
  }

  lemma {:induction false} CodeRead(t: Table, codes: seq<string>, cc: string)
    requires forall x :: x in codes ==> ValidCode(x)
    requires t.codes == CodeBytes(codes) && cc in codes
    ensures Code(t, IndexOf(codes, cc)) == Some(cc)
  {
    var k := IndexOf(codes, cc);
    CodePairAt(codes, k);
    assert codes[k] == [cc[0], cc[1]];
  }

  // ----- one table, one family -----

  lemma {:induction false} Read4(v4: seq<Range>, v6: seq<Range>, codes: seq<string>, i: nat)
    requires Packable(v4, v6, codes) && i < |v4|
    ensures var t := Packed(v4, v6, codes);
            Start4(t, i) == v4[i].start && End4(t, i) == v4[i].end && Index4(t, i) == IndexOf(codes, v4[i].cc)
  {
    hide NumberAt, Rows;
    Spans();
    RowsRead(Entries4(v4, codes), 4, i);
  }

  /** The IPv4 look-up answers what the last range to start by the address says. */
  lemma {:induction false} Search4(v4: seq<Range>, v6: seq<Range>, codes: seq<string>, key: nat, cc: string)
    requires Packable(v4, v6, codes) && StartsInOrder(v4)
    ensures Lookup4(Packed(v4, v6, codes), key) == Some(cc) <==> LastSays(v4, key, cc)
  {
    hide NumberAt, Packed, Code, Bisect, Start4, End4, Index4, IndexOf, IsLast;
    var t := Packed(v4, v6, codes);
    var starts := Starts4(t);
    forall i | 0 <= i < |v4| ensures starts[i] == v4[i].start {
      Read4(v4, v6, codes, i);
    }
    BisectFindsTheLast(v4, starts, key);
    var n := Bisect(starts, key, 0, |v4|);
    if n > 0 {
      Read4(v4, v6, codes, n - 1);
      CodeRead(t, codes, v4[n - 1].cc);
      LastStarts(v4, key, n - 1);
    }
  }

  lemma LastStarts(rs: seq<Range>, a: nat, n: nat)
    requires IsLast(rs, a, n)
    ensures n < |rs| && rs[n].start <= a
  {
  }

  lemma Lookup4Answers(v4: seq<Range>, v6: seq<Range>, codes: seq<string>, key: nat, cc: string)
    requires Packable(v4, v6, codes) && InOrder(v4) && Proper(v4)
    ensures Lookup4(Packed(v4, v6, codes), key) == Some(cc) <==> Says(v4, key, cc)
  {
    OnlyTheLastStarted(v4, key, cc);
    Search4(v4, v6, codes, key, cc);
    hide Lookup4, Packed, Packable;
  }

  /** Starts and ends on a boundary of 2^64: a prefix of at most 64 bits. */
  predicate Aligned(r: Range) {
    r.start % TWO_64 == 0 && r.end % TWO_64 == 0
  }

  ghost predicate AllAligned(rs: seq<Range>) {
    forall k :: 0 <= k < |rs| ==> Aligned(rs[k])
  }

  /** The blocks of 2^64 addresses that a range touches, end exclusive: all that the packed IPv6 table keeps. */
  function Blocks(r: Range): Range {
    Range(r.start / TWO_64, (r.end - 1) / TWO_64 + 1, r.cc)
  }

  /** Matching on the top 64 bits alone loses nothing exactly when a range is aligned. */
  lemma TopHalfDecides(r: Range)
    requires r.start < r.end
    ensures (forall a: nat :: Contains(r, a) <==> r.start / TWO_64 <= a / TWO_64 <= (r.end - 1) / TWO_64)
            <==> Aligned(r)
  {
    if Aligned(r) {
      forall a: nat ensures Contains(r, a) <==> r.start / TWO_64 <= a / TWO_64 <= (r.end - 1) / TWO_64 {
        AlignedTop(r, a);
      }
    } else {
      var a := UnalignedMisled(r);
    }
  }

  /** An address outside an unaligned range whose top half the range covers. */
  lemma UnalignedMisled(r: Range) returns (a: nat)
    requires r.start < r.end && !Aligned(r)
    ensures !Contains(r, a) && r.start / TWO_64 <= a / TWO_64 <= (r.end - 1) / TWO_64
  {
    TopOrder(r.start, r.end - 1);
    if r.start % TWO_64 != 0 {
      a := r.start / TWO_64 * TWO_64;
    } else {
      a := (r.end - 1) / TWO_64 * TWO_64 + (TWO_64 - 1);
    }
  }

  lemma TopOrder(x: nat, y: nat)
    requires x <= y
    ensures x / TWO_64 <= y / TWO_64
  {
  }

  lemma AlignedTop(r: Range, a: nat)
    requires Aligned(r) && r.start < r.end
    ensures Contains(r, a) <==> r.start / TWO_64 <= a / TWO_64 <= (r.end - 1) / TWO_64
    ensures (r.end - 1) / TWO_64 == r.end / TWO_64 - 1
    ensures r.start / TWO_64 < r.end / TWO_64
  {
  }

  lemma {:induction false} BlocksTidy(rs: seq<Range>)
    requires Tidy(rs) && AllAligned(rs)
    ensures Tidy(MapSeq(rs, Blocks))
    ensures forall a: nat, cc :: Says(rs, a, cc) <==> Says(MapSeq(rs, Blocks), a / TWO_64, cc)
  {
    var hs := MapSeq(rs, Blocks);
    forall k | 0 <= k < |rs| ensures hs[k].start < hs[k].end {
      AlignedTop(rs[k], 0);
    }
    forall k, l | 0 <= k < l < |rs|
      ensures hs[k].end <= hs[l].start && (rs[k].cc == rs[l].cc ==> hs[k].end < hs[l].start)
    {
      AlignedTop(rs[k], 0);
      BlocksInOrder(rs[k].end, rs[l].start);
    }
    BlocksAnswer(rs);
  }

  lemma BlocksInOrder(x: nat, y: nat)
    requires x % TWO_64 == 0 && y % TWO_64 == 0
    ensures x <= y ==> x / TWO_64 <= y / TWO_64
    ensures x < y ==> x / TWO_64 < y / TWO_64
  {
  }

  lemma {:induction false} BlocksAnswer(rs: seq<Range>)
    requires AllNonEmpty(rs) && AllAligned(rs)
    ensures forall a: nat, cc :: Says(rs, a, cc) <==> Says(MapSeq(rs, Blocks), a / TWO_64, cc)
  {
    forall k, a: nat | 0 <= k < |rs| ensures Contains(rs[k], a) <==> Contains(Blocks(rs[k]), a / TWO_64) {
      AlignedTop(rs[k], a);
    }
    hide Contains, Aligned, Blocks;
  }

  lemma {:induction false} Read6(v4: seq<Range>, v6: seq<Range>, codes: seq<string>, i: nat)
    requires Packable(v4, v6, codes) && i < |v6|
    ensures var (t, h) := (Packed(v4, v6, codes), Blocks(v6[i]));
            Start6(t, i) == h.start && Last6(t, i) == h.end - 1 && Index6(t, i) == IndexOf(codes, h.cc)
  {
    hide NumberAt, Rows;
    Spans();
    forall k | 0 <= k < |v6| ensures Fits(Entries6(v6, codes)[k], 8) {
      FitsTop(v6[k].start);
      FitsTop(v6[k].end - 1);
    }
    RowsRead(Entries6(v6, codes), 8, i);
  }

  lemma FitsTop(x: nat)
    requires x < TWO_128
    ensures x / TWO_64 < TWO_64
  {
  }

  /** The IPv6 look-up answers what the last range to start by the address's block says, block by block. */
  lemma {:induction false} Search6(v4: seq<Range>, v6: seq<Range>, codes: seq<string>, key: nat, cc: string)
    requires Packable(v4, v6, codes) && StartsInOrder(MapSeq(v6, Blocks))
    ensures Lookup6(Packed(v4, v6, codes), key) == Some(cc) <==> LastSays(MapSeq(v6, Blocks), key, cc)
  {
    hide NumberAt, Packed, Code, Bisect, Start6, Last6, Index6, IndexOf, Blocks, IsLast;
    var (t, hs) := (Packed(v4, v6, codes), MapSeq(v6, Blocks));
    var starts := Starts6(t);
    forall i | 0 <= i < |v6| ensures starts[i] == hs[i].start {
      Read6(v4, v6, codes, i);
    }
    BisectFindsTheLast(hs, starts, key);
    var n := Bisect(starts, key, 0, |v6|);
    if n > 0 {
      Read6(v4, v6, codes, n - 1);
      BlocksKeepCode(v6[n - 1]);
      CodeRead(t, codes, v6[n - 1].cc);
      LastStarts(hs, key, n - 1);
    }
  }

  lemma BlocksKeepCode(r: Range)
    ensures Blocks(r).cc == r.cc
  {
  }

  lemma Lookup6Answers(v4: seq<Range>, v6: seq<Range>, codes: seq<string>, a: nat, cc: string)
    requires Packable(v4, v6, codes) && Tidy(v6) && AllAligned(v6)
    ensures Lookup6(Packed(v4, v6, codes), a / TWO_64) == Some(cc) <==> Says(v6, a, cc)
  {
    BlocksTidy(v6);
    OnlyTheLastStarted(MapSeq(v6, Blocks), a / TWO_64, cc);
    Search6(v4, v6, codes, a / TWO_64, cc);
    hide Lookup6, Packed, Packable, Aligned, Blocks;
  }

  // ----- end to end -----

  /** Which country the records give an address to; an IPv4-mapped address is its IPv4 address. */
  ghost predicate RecordsSay(r4: seq<Range>, r6: seq<Range>, ip: Ip, cc: string) {
    match ip
    case V4(a) => Says(r4, a, cc)
    case V6(a) => if MappedV4(a).Some? then Says(r4, MappedV4(a).value, cc) else Says(r6, a, cc)
  }

  /** An empty record strictly inside another country's hides what lies behind it: address 6 is not found. */
  lemma EmptyRecordHidesAnAddress()
    ensures var r4 := [Range(0, 10, "AA"), Range(5, 5, "BB")];
            && Proper(r4) && OneCountryEach(r4) && !NoneInside(r4) && !InOrder(MergeSpec(r4))
            && RecordsSay(r4, [], V4(6), "AA")
            && Generate(r4, []).Some? && Lookup(Generate(r4, []).value, V4(6)) == None
  {
    hide Parse, Pack, Packed, MergeSpec, CodesOf;
    var (r0, r1) := (Range(0, 10, "AA"), Range(5, 5, "BB"));
    var r4 := [r0, r1];
    assert Contains(r4[0], 6) && StrictlyInside(r4[1], r4[0]);
    SplitByEmpty(r4);
    MergeIsInOrderExactly(r4);
    GeneratesExactly(r4, []);
    ParseUndoesPack(r4, [], CodesOf(r4 + []));
    SearchStopsAtTheEmpty(r4, CodesOf(r4 + []));
  }

  lemma SearchStopsAtTheEmpty(r4: seq<Range>, codes: seq<string>)
    requires r4 == [Range(0, 10, "AA"), Range(5, 5, "BB")] && Packable(r4, [], codes)
    ensures Lookup4(Packed(r4, [], codes), 6) == None
  {
    hide NumberAt, Packed;
    Read4(r4, [], codes, 0);
    Read4(r4, [], codes, 1);
    var starts := Starts4(Packed(r4, [], codes));
    assert starts[0] == 0 && starts[1] == 5;
    assert Bisect(starts, 6, 2, 2) == 2;
  }

  lemma SplitByEmpty(r4: seq<Range>)
    requires r4 == [Range(0, 10, "AA"), Range(5, 5, "BB")]
    ensures MergeSpec(r4) == r4 && MergeSpec([]) == []
  {
    assert r4[1..][1..] == [] && r4[1..][0] == r4[1];
    assert Sorted(r4[1..]) == [r4[1]];
    assert Sorted(r4) == r4;
    assert r4[..1][..0] == [] && Coalesce(r4[..1]) == [r4[0]];
    assert Coalesce(r4) == r4;
  }

  /** An IPv4-mapped address answers as the IPv4 address it carries, whatever the blob. */
  lemma MappedAnswersAsV4(blob: seq<Byte>, a: Addr4)
    ensures Lookup(blob, V6(0xFFFF * TWO_32 + a)) == Lookup(blob, V4(a))
  {
    var m: Addr6 := 0xFFFF * TWO_32 + a;
    assert m / TWO_32 == 0xFFFF && m % TWO_32 == a;
  }

  // ----- when there is a blob at all -----

  lemma {:induction false} PlaceDistinct(codes: seq<string>, cc: string)
    requires Distinct(codes) && cc !in codes
    ensures Distinct(PlaceCode(codes, cc))
  {
    if codes != [] && !TextLe(cc, codes[0]) {
      var rest := codes[1..];
      assert codes == [codes[0]] + rest;
      PlaceDistinct(rest, cc);
      var placed := PlaceCode(rest, cc);
      assert forall x :: x in placed <==> x in multiset(placed);
      assert forall x :: x in rest <==> x in multiset(rest);
      assert codes[0] !in placed;
    }
  }

  lemma {:induction false} CodesDistinct(rs: seq<Range>)
    ensures Distinct(CodesOf(rs))
    decreases |rs|
  {
    if rs != [] {
      var n := |rs| - 1;
      CodesDistinct(rs[..n]);
      if rs[n].cc !in CodesOf(rs[..n]) {
        PlaceDistinct(CodesOf(rs[..n]), rs[n].cc);
      }
    }
  }

  function Letter(k: nat): char
    requires k < 26
  {
    ('A' as nat + k) as char
  }

  function AllCodes(): (s: seq<string>)
    ensures |s| == 676
  {
    seq(676, i requires 0 <= i < 676 => [Letter(i / 26), Letter(i % 26)])
  }

  lemma CodeIsListed(cc: string)
    requires ValidCode(cc)
    ensures cc in AllCodes()
  {
    var i := (cc[0] as nat - 'A' as nat) * 26 + (cc[1] as nat - 'A' as nat);
    assert i / 26 == cc[0] as nat - 'A' as nat && i % 26 == cc[1] as nat - 'A' as nat;
    assert AllCodes()[i] == cc;
  }

  /** Two letters make at most 676 codes, so the writer's limit on countries is never met. */
  lemma FewCodes(codes: seq<string>)
    requires Distinct(codes) && forall cc :: cc in codes ==> ValidCode(cc)
    ensures |codes| <= 676
  {
    if |codes| > 676 {
      Pigeonhole(AllCodes(), codes);
      var k :| 0 <= k < |codes| && codes[k] !in AllCodes();
      CodeIsListed(codes[k]);
    }
  }

  ghost predicate EndsBy(rs: seq<Range>, limit: nat) {
    forall k :: 0 <= k < |rs| ==> rs[k].end <= limit
  }

  lemma AbsorbBounds(out: seq<Range>, r: Range, limit: nat)
    requires Proper(out) && r.start <= r.end
    ensures Proper(Absorb(out, r)) && (AllNonEmpty(out) && r.start < r.end ==> AllNonEmpty(Absorb(out, r)))
    ensures EndsBy(out, limit) && r.end <= limit ==> EndsBy(Absorb(out, r), limit)
    ensures CodesValid(out) && ValidCode(r.cc) ==> CodesValid(Absorb(out, r))
  {
  }

  /** What every record satisfies, every merged range does. */
  lemma {:induction false} CoalesceBounds(rs: seq<Range>, limit: nat)
    requires Proper(rs)
    ensures Proper(Coalesce(rs)) && (AllNonEmpty(rs) ==> AllNonEmpty(Coalesce(rs)))
    ensures EndsBy(rs, limit) ==> EndsBy(Coalesce(rs), limit)
    ensures CodesValid(rs) ==> CodesValid(Coalesce(rs))
    decreases |rs|
  {
    if rs != [] {
      var n := |rs| - 1;
      CoalesceBounds(rs[..n], limit);
      AbsorbBounds(Coalesce(rs[..n]), rs[n], limit);
      hide Absorb;
    }
  }

  lemma BoundsPermuted(rs: seq<Range>, rs': seq<Range>, limit: nat)
    requires multiset(rs) == multiset(rs')
    ensures EndsBy(rs, limit) ==> EndsBy(rs', limit)
    ensures CodesValid(rs) ==> CodesValid(rs')
  {
    forall k | 0 <= k < |rs'| ensures rs'[k] in rs {
      assert rs'[k] in multiset(rs');
    }
  }

  lemma MergeBounds(rs: seq<Range>, limit: nat)
    requires Proper(rs)
    ensures Proper(MergeSpec(rs)) && (AllNonEmpty(rs) ==> AllNonEmpty(MergeSpec(rs)))
    ensures EndsBy(rs, limit) ==> EndsBy(MergeSpec(rs), limit)
    ensures CodesValid(rs) ==> CodesValid(MergeSpec(rs))
  {
    SortedIsASort(rs);
    ProperPermuted(rs, Sorted(rs));
    BoundsPermuted(rs, Sorted(rs), limit);
    if AllNonEmpty(rs) {
      NonEmptyPermuted(rs, Sorted(rs));
    }
    CoalesceBounds(Sorted(rs), limit);
  }

  /** The furthest end is the same before and after merging. */
  lemma MergeEnds(rs: seq<Range>, limit: nat)
    requires Proper(rs)
    ensures EndsBy(MergeSpec(rs), limit) <==> EndsBy(rs, limit)
  {
    MergeBounds(rs, limit);
    var sorted := Sorted(rs);
    SortedIsASort(rs);
    if EndsBy(MergeSpec(rs), limit) {
      forall i | 0 <= i < |sorted| ensures sorted[i].end <= limit {
        CoalesceSpans(sorted, i);
      }
      BoundsPermuted(sorted, rs, limit);
    }
  }

  lemma {:induction false} CoalesceShrinks(rs: seq<Range>)
    ensures |Coalesce(rs)| <= |rs|
    decreases |rs|
  {
    if rs != [] {
      CoalesceShrinks(rs[..|rs| - 1]);
    }
  }

  lemma MergeShrinks(rs: seq<Range>)
    ensures |MergeSpec(rs)| <= |rs|
  {
    SortedIsASort(rs);
    CoalesceShrinks(Sorted(rs));
    assert |multiset(Sorted(rs))| == |multiset(rs)|;
  }

  /**
   The generator succeeds exactly when every IPv4 range ends below 2^32: a delegation
   that reaches the last IPv4 address cannot be packed.
  */
  lemma GeneratesExactly(r4: seq<Range>, r6: seq<Range>)
    requires Proper(r4) && AllNonEmpty(r6)
    requires CodesValid(r4) && CodesValid(r6) && EndsBy(r6, TWO_128)
    requires |r4| < TWO_32 && |r6| < TWO_32
    ensures Generate(r4, r6).Some? <==> EndsBy(r4, TWO_32 - 1)
  {
    hide MergeSpec;
    var (v4, v6) := (MergeSpec(r4), MergeSpec(r6));
    MergeEnds(r4, TWO_32 - 1);
    MergeBounds(r4, TWO_32 - 1);
    MergeBounds(r6, TWO_128);
    MergeShrinks(r4);
    MergeShrinks(r6);
    AllCodesKnown(v4, v6);
    CodesAreValid(v4, v6);
    CodesDistinct(v4 + v6);
    FewCodes(CodesOf(v4 + v6));
  }

  lemma {:induction false} AllCodesKnown(v4: seq<Range>, v6: seq<Range>)
    ensures forall k :: 0 <= k < |v4| ==> v4[k].cc in CodesOf(v4 + v6)
    ensures forall k :: 0 <= k < |v6| ==> v6[k].cc in CodesOf(v4 + v6)
  {
    var rs := v4 + v6;
    forall k | 0 <= k < |v4| ensures v4[k].cc in CodesOf(rs) { assert rs[k] == v4[k]; }
    forall k | 0 <= k < |v6| ensures v6[k].cc in CodesOf(rs) { assert rs[|v4| + k] == v6[k]; }
  }

  lemma {:induction false} CodesAreValid(v4: seq<Range>, v6: seq<Range>)
    requires CodesValid(v4) && CodesValid(v6)
    ensures forall cc :: cc in CodesOf(v4 + v6) ==> ValidCode(cc)
  {
  }
}
