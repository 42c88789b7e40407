/**
 The table file byte by byte: where every count, code, address and index stands, written out in
 offsets and powers of 256, and which files are read at all.
*/
module BlobLayout {
  import opened Bytes
  import opened IpRanges
  import opened IpTable
  import opened IpTheorems
  import opened Lists
  import opened Wrappers

  /** Two bytes from offset `o`, the least first. */
  function Two(b: seq<Byte>, o: nat): nat
    requires o + 2 <= |b|
  {
    var (low: nat, high: nat) := (b[o], b[o + 1]);
    low + 0x100 * high
  }

  function Four(b: seq<Byte>, o: nat): nat
    requires o + 4 <= |b|
  {
    Two(b, o) + 0x1_0000 * Two(b, o + 2)
  }

  function Eight(b: seq<Byte>, o: nat): nat
    requires o + 8 <= |b|
  {
    Four(b, o) + 0x1_0000_0000 * Four(b, o + 4)
  }

  lemma ReadTwo(b: seq<Byte>, o: nat)
    requires o + 2 <= |b|
    ensures NumberAt(b, o, 2) == Two(b, o)
  {
    var s := b[o..o + 2];
    assert s[1..][1..] == [] && Decode(s[1..]) == s[1];
    assert s[0] == b[o] && s[1] == b[o + 1];
  }

  lemma {:induction false} DecodeParts(s: seq<Byte>, t: seq<Byte>)
    requires |s| == 2 || |s| == 4
    ensures Decode(s + t) == Decode(s) + Span(|s|) * Decode(t)
  {
    Spans();
    if |s| == 2 {
      DecodeTwo(s, t);
    } else {
      assert s == s[..2] + s[2..] && s + t == s[..2] + (s[2..] + t);
      DecodeTwo(s[..2], s[2..]);
      DecodeTwo(s[..2], s[2..] + t);
      DecodeTwo(s[2..], t);
    }
  }

  lemma {:induction false} DecodeTwo(s: seq<Byte>, t: seq<Byte>)
    requires |s| == 2
    ensures Decode(s + t) == Decode(s) + 0x1_0000 * Decode(t)
  {
    assert s[1..][1..] == [] && Decode(s[1..]) == s[1];
    assert (s + t)[1..] == s[1..] + t;
    assert (s[1..] + t)[1..] == t;
  }

  lemma ReadFour(b: seq<Byte>, o: nat)
    requires o + 4 <= |b|
    ensures NumberAt(b, o, 4) == Four(b, o)
  {
    Spans();
    ReadTwo(b, o);
    ReadTwo(b, o + 2);
    assert b[o..o + 4] == b[o..o + 2] + b[o + 2..o + 4];
    DecodeParts(b[o..o + 2], b[o + 2..o + 4]);
  }

  lemma ReadEight(b: seq<Byte>, o: nat)
    requires o + 8 <= |b|
    ensures NumberAt(b, o, 8) == Eight(b, o)
  {
    Spans();
    ReadFour(b, o);
    ReadFour(b, o + 4);
    assert b[o..o + 8] == b[o..o + 4] + b[o + 4..o + 8];
    DecodeParts(b[o..o + 4], b[o + 4..o + 8]);
  }

  /** The two bytes at `o` number one of the codes, and it is `cc`. */
  predicate NamesAt(b: seq<Byte>, o: nat, codes: seq<string>, cc: string) {
    o + 2 <= |b| && Two(b, o) < |codes| && codes[Two(b, o)] == cc
  }

  /** The entry at `o` of the IPv4 table: the first address, the one after the last, the country. */
  predicate Row4At(b: seq<Byte>, o: nat, r: Range, codes: seq<string>) {
    o + 10 <= |b| && Four(b, o) == r.start && Four(b, o + 4) == r.end && NamesAt(b, o + 8, codes, r.cc)
  }

  /** The entry at `o` of the IPv6 table: the top halves of the first and the last address, the country. */
  predicate Row6At(b: seq<Byte>, o: nat, r: Range, codes: seq<string>) {
    && o + 18 <= |b| && r.start < r.end
    && Eight(b, o) == r.start / 0x1_0000_0000_0000_0000
    && Eight(b, o + 8) == (r.end - 1) / 0x1_0000_0000_0000_0000
    && NamesAt(b, o + 16, codes, r.cc)
  }

  /** A number inside the middle part of a byte string. */
  lemma ReadInside(a: seq<Byte>, b: seq<Byte>, c: seq<Byte>, o: nat, w: nat)
    requires o + w <= |b|
    ensures NumberAt(a + b + c, |a| + o, w) == NumberAt(b, o, w)
  {
    assert (a + b + c)[|a| + o..|a| + o + w] == b[o..o + w];
  }

  lemma {:induction false} RowInside(a: seq<Byte>, b: seq<Byte>, c: seq<Byte>, o: nat, w: nat)
    requires o + 2 * w + 2 <= |b|
    ensures EntryAt(a + b + c, |a| + o, w) == EntryAt(b, o, w)
  {
    hide NumberAt;
    ReadInside(a, b, c, o, w);
    ReadInside(a, b, c, o + w, w);
    ReadInside(a, b, c, o + 2 * w, 2);
  }

  /** Entry `k` of a packed table, wherever the table stands in the file. */
  lemma {:induction false} EntryStands(a: seq<Byte>, es: seq<Entry>, w: nat, c: seq<Byte>, k: nat)
    requires (forall i :: 0 <= i < |es| ==> Fits(es[i], w)) && k < |es|
    ensures |a| + k * (2 * w + 2) + 2 * w + 2 <= |a + Rows(es, w) + c|
    ensures EntryAt(a + Rows(es, w) + c, |a| + k * (2 * w + 2), w) == es[k]
  {
    hide Rows, EntryAt, Fits;
    RowsRead(es, w, k);
    RowInside(a, Rows(es, w), c, k * (2 * w + 2), w);
  }

  lemma {:induction false} IndexFits(codes: seq<string>, cc: string)
    requires cc in codes && |codes| <= MAX_CODES
    ensures IndexOf(codes, cc) < Span(2)
  {
    Spans();
  }

  lemma {:induction false} Row4Stands(a: seq<Byte>, v4: seq<Range>, v6: seq<Range>, codes: seq<string>, c: seq<Byte>,
                                      i: nat)
    requires Packable(v4, v6, codes) && i < |v4|
    ensures Row4At(a + Rows(Entries4(v4, codes), 4) + c, |a| + 10 * i, v4[i], codes)
  {
    hide Rows, NumberAt, Four, Two;
    Spans();
    var es := Entries4(v4, codes);
    forall k | 0 <= k < |es| ensures Fits(es[k], 4) {
      IndexFits(codes, v4[k].cc);
    }
    EntryStands(a, es, 4, c, i);
    var (b, o) := (a + Rows(es, 4) + c, |a| + 10 * i);
    ReadFour(b, o);
    ReadFour(b, o + 4);
    ReadTwo(b, o + 8);
  }

  lemma {:induction false} Row6Stands(a: seq<Byte>, v4: seq<Range>, v6: seq<Range>, codes: seq<string>, i: nat)
    requires Packable(v4, v6, codes) && i < |v6|
    ensures Row6At(a + Rows(Entries6(v6, codes), 8), |a| + 18 * i, v6[i], codes)
  {
    hide Rows, NumberAt, Eight, Two;
    Spans();
    var es := Entries6(v6, codes);
    forall k | 0 <= k < |es| ensures Fits(es[k], 8) {
      FitsTop(v6[k].start);
      FitsTop(v6[k].end - 1);
      IndexFits(codes, v6[k].cc);
    }
    EntryStands(a, es, 8, [], i);
    var (b, o) := (a + Rows(es, 8), |a| + 18 * i);
    assert b + [] == b;
    ReadEight(b, o);
    ReadEight(b, o + 8);
    ReadTwo(b, o + 16);
  }

  lemma {:induction false} CodesStand(a: seq<Byte>, codes: seq<string>, c: seq<Byte>)
    requires forall cc :: cc in codes ==> ValidCode(cc)
    ensures var b := a + CodeBytes(codes) + c;
            forall i :: 0 <= i < |codes| ==> codes[i] == [b[|a| + 2 * i] as char, b[|a| + 2 * i + 1] as char]
  {
    var b := a + CodeBytes(codes) + c;
    forall i | 0 <= i < |codes| ensures codes[i] == [b[|a| + 2 * i] as char, b[|a| + 2 * i + 1] as char] {
      CodePairAt(codes, i);
    }
  }

  lemma {:induction false} TablesStand(h: seq<Byte>, v4: seq<Range>, v6: seq<Range>, codes: seq<string>)
    requires Packable(v4, v6, codes)
    ensures var x := Rows(Entries4(v4, codes), 4);
            var b := h + x + Rows(Entries6(v6, codes), 8);
            && (forall i :: 0 <= i < |v4| ==> Row4At(b, |h| + 10 * i, v4[i], codes))
            && (forall i :: 0 <= i < |v6| ==> Row6At(b, |h| + 10 * |v4| + 18 * i, v6[i], codes))
  {
    hide Rows, Row4At, Row6At;
    var (x, y) := (Rows(Entries4(v4, codes), 4), Rows(Entries6(v6, codes), 8));
    forall i | 0 <= i < |v4| ensures Row4At(h + x + y, |h| + 10 * i, v4[i], codes) {
      Row4Stands(h, v4, v6, codes, y, i);
    }
    forall i | 0 <= i < |v6| ensures Row6At(h + x + y, |h + x| + 18 * i, v6[i], codes) {
      Row6Stands(h + x, v4, v6, codes, i);
    }
  }

  /** Every byte of a packed table has its place. */
  lemma {:induction false} BlobIsLaidOut(v4: seq<Range>, v6: seq<Range>, codes: seq<string>)
    requires Packable(v4, v6, codes)
    ensures var b := Pack(v4, v6, codes);
            var (rows4, rows6) := (18 + 2 * |codes|, 18 + 2 * |codes| + 10 * |v4|);
            && |b| == rows6 + 18 * |v6|
            && b[..8] == [82, 67, 71, 69, 79, 49, 0, 0]
            && Four(b, 8) == |v4| && Four(b, 12) == |v6| && Two(b, 16) == |codes|
            && (forall i :: 0 <= i < |codes| ==> codes[i] == [b[18 + 2 * i] as char, b[19 + 2 * i] as char])
            && (forall i :: 0 <= i < |v4| ==> Row4At(b, rows4 + 10 * i, v4[i], codes))
            && (forall i :: 0 <= i < |v6| ==> Row6At(b, rows6 + 18 * i, v6[i], codes))
  {
    hide NumberAt, Rows, CodeBytes, Header, Four, Two, Row4At, Row6At;
    var b := Pack(v4, v6, codes);
    var (h, c) := (Header(|v4|, |v6|, |codes|), CodeBytes(codes));
    var (x, y) := (Rows(Entries4(v4, codes), 4), Rows(Entries6(v6, codes), 8));
    HeaderRead(|v4|, |v6|, |codes|, c + x + y);
    assert b == h + (c + x + y);
    ReadFour(b, 8);
    ReadFour(b, 12);
    ReadTwo(b, 16);
    CodesStand(h, codes, x + y);
    assert b == h + c + (x + y);
    TablesStand(h + c, v4, v6, codes);
    hide Packable;
  }

  /** A file is read exactly when it starts with the magic and is as long as its counts ask for. */
  lemma ReadExactly(b: seq<Byte>)
    ensures Parse(b).Some?
            <==> |b| >= 18 && b[..8] == [82, 67, 71, 69, 79, 49, 0, 0]
                 && |b| >= 18 + 2 * Two(b, 16) + 10 * Four(b, 8) + 18 * Four(b, 12)
  {
    hide NumberAt, Four, Two;
    if |b| >= 18 {
      ReadFour(b, 8);
      ReadFour(b, 12);
      ReadTwo(b, 16);
    }
  }

  /** A table cut short anywhere is not read at all. */
  lemma CutShortIsRefused(v4: seq<Range>, v6: seq<Range>, codes: seq<string>, n: nat)
    requires Packable(v4, v6, codes) && n < |Pack(v4, v6, codes)|
    ensures Parse(Pack(v4, v6, codes)[..n]).None?
  {
    hide Pack, Row4At, Row6At;
    var b := Pack(v4, v6, codes);
    BlobIsLaidOut(v4, v6, codes);
    ReadExactly(b[..n]);
  }

  /** A country of two ASCII bytes reads as those characters in upper case; one cut off by the list's end as none. */
  lemma CodesReadInUpperCase(t: Table, idx: nat)
    ensures |t.codes| < 2 * idx + 2 ==> Code(t, idx) == None
    ensures 2 * idx + 2 <= |t.codes| && t.codes[2 * idx] < 128 && t.codes[2 * idx + 1] < 128 ==>
              && Code(t, idx).Some? && |Code(t, idx).value| == 2
              && forall j :: 0 <= j < 2 ==>
                   var (c, b) := (Code(t, idx).value[j] as int, t.codes[2 * idx + j] as int);
                   !(97 <= c <= 122) && (c == b || (c == b - 32 && 97 <= b <= 122))
  {
  }

  // ----- the countries' order -----

  predicate Before(x: string, y: string) {
    ValidCode(x) && ValidCode(y) && (x[0] < y[0] || (x[0] == y[0] && x[1] < y[1]))
  }

  ghost predicate Rise(codes: seq<string>) {
    && (forall i :: 0 <= i < |codes| ==> ValidCode(codes[i]))
    && forall i, j :: 0 <= i < j < |codes| ==> Before(codes[i], codes[j])
  }

  lemma {:induction false} CodeOrder(x: string, y: string)
    requires ValidCode(x) && ValidCode(y)
    ensures TextLe(x, y) <==> Before(x, y) || x == y
  {
    var (x', y') := (x[1..], y[1..]);
    assert TextLe(x', y') <==> x[1] <= y[1] by {
      assert x'[0] == x[1] && y'[0] == y[1] && x'[1..] == "";
    }
    assert x == [x[0], x[1]] && y == [y[0], y[1]];
  }

  lemma RiseBehind(c: string, codes: seq<string>)
    requires Rise(codes) && ValidCode(c) && forall k :: 0 <= k < |codes| ==> Before(c, codes[k])
    ensures Rise([c] + codes)
  {
    hide ValidCode, Before;
  }

  lemma {:induction false} PlaceRises(codes: seq<string>, cc: string)
    requires Rise(codes) && ValidCode(cc) && cc !in codes
    ensures Rise(PlaceCode(codes, cc))
    decreases codes, 1
  {
    if codes != [] {
      var first := codes[0];
      CodeOrder(cc, first);
      if TextLe(cc, first) {
        forall k | 0 <= k < |codes| ensures Before(cc, codes[k]) {
          assert k > 0 ==> Before(first, codes[k]);
        }
        RiseBehind(cc, codes);
      } else {
        PlaceBehind(codes, cc);
      }
    }
  }

  lemma {:induction false} PlaceBehind(codes: seq<string>, cc: string)
    requires Rise(codes) && codes != [] && Before(codes[0], cc) && cc !in codes
    ensures Rise([codes[0]] + PlaceCode(codes[1..], cc))
    decreases codes, 0
  {
    var (first, rest) := (codes[0], codes[1..]);
    PlaceRises(rest, cc);
    var placed := PlaceCode(rest, cc);
    hide ValidCode, PlaceCode;
    forall k | 0 <= k < |placed| ensures Before(first, placed[k]) {
      assert placed[k] in multiset(placed);
      if placed[k] != cc {
        assert placed[k] in rest;
      }
    }
    RiseBehind(first, placed);
  }

  /** The countries stand in alphabetical order, each once. */
  lemma {:induction false} CodesRise(rs: seq<Range>)
    requires CodesValid(rs)
    ensures var codes := CodesOf(rs);
            forall i, j :: 0 <= i < j < |codes| ==>
              && |codes[i]| == |codes[j]| == 2
              && (codes[i][0] < codes[j][0] || (codes[i][0] == codes[j][0] && codes[i][1] < codes[j][1]))
  {
    CodesOfRise(rs);
    var codes := CodesOf(rs);
    assert forall i, j :: 0 <= i < j < |codes| ==> Before(codes[i], codes[j]);
  }

  lemma {:induction false} CodesOfRise(rs: seq<Range>)
    requires CodesValid(rs)
    ensures Rise(CodesOf(rs))
    decreases |rs|
  {
    if rs != [] {
      var n := |rs| - 1;
      CodesOfRise(rs[..n]);
      if rs[n].cc !in CodesOf(rs[..n]) {
        PlaceRises(CodesOf(rs[..n]), rs[n].cc);
      }
    }
  }
}
