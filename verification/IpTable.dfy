/**
 The built-in country table: the generator packs merged ranges into a blob, and the
 server parses it and answers by binary search.
 */
module IpTable {
  import opened Bytes
  import opened IpRanges
  import opened Lists
  import opened Wrappers

  const MAGIC: seq<Byte> := [82, 67, 71, 69, 79, 49, 0, 0]
  const HDR: nat := 18
  const V4_ENTRY: nat := 10
  const V6_ENTRY: nat := 18
  const TWO_32: nat := 0x1_0000_0000
  const TWO_64: nat := 0x1_0000_0000_0000_0000
  const TWO_128: nat := 0x1_0000_0000_0000_0000_0000_0000_0000_0000
  const MAX_CODES: nat := 0xFFFF

  // ----- country codes -----

  /** Two upper-case ASCII letters, which is what the record parser lets through and the writer can encode. */
  predicate ValidCode(cc: string) {
    |cc| == 2 && 'A' <= cc[0] <= 'Z' && 'A' <= cc[1] <= 'Z'
  }

  ghost predicate CodesValid(rs: seq<Range>) {
    forall k :: 0 <= k < |rs| ==> ValidCode(rs[k].cc)
  }

  function PlaceCode(codes: seq<string>, cc: string): (r: seq<string>)
    ensures multiset(r) == multiset(codes) + multiset{cc}
  {
    if codes == [] then [cc]
    else if TextLe(cc, codes[0]) then [cc] + codes
    else
      assert codes == [codes[0]] + codes[1..];
      [codes[0]] + PlaceCode(codes[1..], cc)
  }

  function InsertCode(codes: seq<string>, cc: string): (r: seq<string>)
    ensures forall x :: x in r <==> x in codes || x == cc
  {
    if cc in codes then codes
    else
      var r := PlaceCode(codes, cc);
      assert forall x :: x in r <==> x in multiset(r);
      assert forall x :: x in codes <==> x in multiset(codes);
      r
  }

  /** The countries named, each once, in order. */
  function CodesOf(rs: seq<Range>): (codes: seq<string>)
    ensures forall k :: 0 <= k < |rs| ==> rs[k].cc in codes
    ensures forall cc :: cc in codes ==> exists k :: 0 <= k < |rs| && rs[k].cc == cc
  {
    if rs == [] then []
    else
      var n := |rs| - 1;
      var codes := InsertCode(CodesOf(rs[..n]), rs[n].cc);
      assert forall k :: 0 <= k < n ==> rs[..n][k] == rs[k];
      codes
  }

  function CodePair(cc: string): seq<Byte>
    requires ValidCode(cc)
  {
    [cc[0] as nat, cc[1] as nat]
  }

  function CodeBytes(codes: seq<string>): (b: seq<Byte>)
    requires forall cc :: cc in codes ==> ValidCode(cc)
    ensures |b| == 2 * |codes|
  {
    if codes == [] then []
    else
      var n := |codes| - 1;
      assert codes[n] in codes;
      CodeBytes(codes[..n]) + CodePair(codes[n])
  }

  // ----- packing -----

  /** A table entry: two numbers and a country's index. */
  datatype Entry = Entry(x: nat, y: nat, idx: nat)

  /** One packed entry: two numbers of `w` bytes, then the index in two. */
  function Row(e: Entry, w: nat): (b: seq<Byte>)
    ensures |b| == 2 * w + 2
  {
    Encode(e.x, w) + Encode(e.y, w) + Encode(e.idx, 2)
  }

  function Rows(es: seq<Entry>, w: nat): (b: seq<Byte>)
    ensures |b| == |es| * (2 * w + 2)
  {
    if es == [] then [] else Rows(es[..|es| - 1], w) + Row(es[|es| - 1], w)
  }

  function Entries4(rs: seq<Range>, codes: seq<string>): (es: seq<Entry>)
    requires forall k :: 0 <= k < |rs| ==> rs[k].cc in codes
    ensures |es| == |rs|
    ensures forall k :: 0 <= k < |rs| ==> es[k] == Entry(rs[k].start, rs[k].end, IndexOf(codes, rs[k].cc))
  {
    seq(|rs|, k requires 0 <= k < |rs| => Entry(rs[k].start, rs[k].end, IndexOf(codes, rs[k].cc)))
  }

  /** Top 64 bits only, and the last address rather than the one after it. */
  function Entry6(r: Range, codes: seq<string>): Entry
    requires r.cc in codes && r.start < r.end
  {
    Entry(r.start / TWO_64, (r.end - 1) / TWO_64, IndexOf(codes, r.cc))
  }

  function Entries6(rs: seq<Range>, codes: seq<string>): (es: seq<Entry>)
    requires forall k :: 0 <= k < |rs| ==> rs[k].cc in codes && rs[k].start < rs[k].end
    ensures |es| == |rs|
    ensures forall k :: 0 <= k < |rs| ==> es[k] == Entry6(rs[k], codes)
  {
    seq(|rs|, k requires 0 <= k < |rs| => Entry6(rs[k], codes))
  }

  /** The numbers the writer can pack; it stops with an error otherwise. */
  predicate Packable(v4: seq<Range>, v6: seq<Range>, codes: seq<string>) {
    && |codes| <= MAX_CODES && |v4| < TWO_32 && |v6| < TWO_32
    && (forall k :: 0 <= k < |v4| ==> v4[k].start < TWO_32 && v4[k].end < TWO_32)
    && (forall k :: 0 <= k < |v6| ==> v6[k].start < v6[k].end <= TWO_128)
    && (forall cc :: cc in codes ==> ValidCode(cc))
    && (forall k :: 0 <= k < |v4| ==> v4[k].cc in codes)
    && (forall k :: 0 <= k < |v6| ==> v6[k].cc in codes)
  }

  function Header(n4: nat, n6: nat, nc: nat): (b: seq<Byte>)
    ensures |b| == HDR
  {
    MAGIC + Encode(n4, 4) + Encode(n6, 4) + Encode(nc, 2)
  }

  function Pack(v4: seq<Range>, v6: seq<Range>, codes: seq<string>): seq<Byte>
    requires Packable(v4, v6, codes)
  {
    Header(|v4|, |v6|, |codes|) + CodeBytes(codes) + Rows(Entries4(v4, codes), 4) + Rows(Entries6(v6, codes), 8)
  }

  /** The whole generator, from parsed records to the blob; None when it exits with an error. */
  function Generate(r4: seq<Range>, r6: seq<Range>): Option<seq<Byte>> {
    var (v4, v6) := (MergeSpec(r4), MergeSpec(r6));
    var codes := CodesOf(v4 + v6);
    if Packable(v4, v6, codes) then Some(Pack(v4, v6, codes)) else None
  }

  /** The generator: merge both families, intern the countries, grow the blob entry by entry. */
  method Build(r4: seq<Range>, r6: seq<Range>) returns (blob: Option<seq<Byte>>)
    ensures blob == Generate(r4, r6)
  {
    hide Encode, MergeSpec, CodesOf;
    var v4 := Merge(r4);
    var v6 := Merge(r6);
    var codes := CodesOf(v4 + v6);
    if !Packable(v4, v6, codes) {
      return None;
    }
    var body := Header(|v4|, |v6|, |codes|) + CodeBytes(codes);
    var (e4, e6) := (Entries4(v4, codes), Entries6(v6, codes));
    var rows4 := WriteRows(e4, 4);
    var rows6 := WriteRows(e6, 8);
    return Some(body + rows4 + rows6);
  }

  method WriteRows(es: seq<Entry>, w: nat) returns (body: seq<Byte>)
    ensures body == Rows(es, w)
  {
    hide Encode;
    body := [];
    for i := 0 to |es|
      invariant body == Rows(es[..i], w)
    {
      assert es[..i + 1][..i] == es[..i];
      body := body + Row(es[i], w);
    }
    assert es[..|es|] == es;
  }

  // ----- parsing -----

  datatype Table = Table(codes: seq<Byte>, v4: seq<Byte>, v6: seq<Byte>, v4Count: nat, v6Count: nat) {
    predicate Valid() {
      |v4| == v4Count * V4_ENTRY && |v6| == v6Count * V6_ENTRY
    }
  }

  function Parse(blob: seq<Byte>): (t: Option<Table>)
    ensures t.Some? ==> t.value.Valid()
  {
    if |blob| < HDR || blob[..8] != MAGIC then None
    else
      var (n4, n6, nc) := (NumberAt(blob, 8, 4), NumberAt(blob, 12, 4), NumberAt(blob, 16, 2));
      var codesEnd := HDR + nc * 2;
      var v4End := codesEnd + n4 * V4_ENTRY;
      var v6End := v4End + n6 * V6_ENTRY;
      if |blob| < v6End then None
      else Some(Table(blob[HDR..codesEnd], blob[codesEnd..v4End], blob[v4End..v6End], n4, n6))
  }

  // ----- looking up -----

  function ToUpper(c: char): char {
    if 'a' <= c <= 'z' then c - 32 as char else c
  }

  /** Two bytes as UTF-8 text, upper-cased where ASCII; None when they are not UTF-8. */
  function DecodeCode(b0: Byte, b1: Byte): Option<string> {
    if b0 < 0x80 && b1 < 0x80 then Some([ToUpper(b0 as char), ToUpper(b1 as char)])
    else if 0xC2 <= b0 <= 0xDF && 0x80 <= b1 <= 0xBF then Some([((b0 - 0xC0) * 64 + (b1 - 0x80)) as char])
    else None
  }

  function Code(t: Table, idx: nat): Option<string> {
    var o := idx * 2;
    if |t.codes| < o + 2 then None else DecodeCode(t.codes[o], t.codes[o + 1])
  }

  function Start4(t: Table, i: nat): nat
    requires t.Valid() && i < t.v4Count
  {
    NumberAt(t.v4, i * V4_ENTRY, 4)
  }

  function End4(t: Table, i: nat): nat
    requires t.Valid() && i < t.v4Count
  {
    NumberAt(t.v4, i * V4_ENTRY + 4, 4)
  }

  function Index4(t: Table, i: nat): nat
    requires t.Valid() && i < t.v4Count
  {
    NumberAt(t.v4, i * V4_ENTRY + 8, 2)
  }

  function Start6(t: Table, i: nat): nat
    requires t.Valid() && i < t.v6Count
  {
    NumberAt(t.v6, i * V6_ENTRY, 8)
  }

  function Last6(t: Table, i: nat): nat
    requires t.Valid() && i < t.v6Count
  {
    NumberAt(t.v6, i * V6_ENTRY + 8, 8)
  }

  function Index6(t: Table, i: nat): nat
    requires t.Valid() && i < t.v6Count
  {
    NumberAt(t.v6, i * V6_ENTRY + 16, 2)
  }

  function Starts4(t: Table): (s: seq<nat>)
    requires t.Valid()
    ensures |s| == t.v4Count && forall i :: 0 <= i < |s| ==> s[i] == Start4(t, i)
  {
    seq(t.v4Count, i requires 0 <= i < t.v4Count => Start4(t, i))
  }

  function Starts6(t: Table): (s: seq<nat>)
    requires t.Valid()
    ensures |s| == t.v6Count && forall i :: 0 <= i < |s| ==> s[i] == Start6(t, i)
  {
    seq(t.v6Count, i requires 0 <= i < t.v6Count => Start6(t, i))
  }

  /** The binary search between `lo` and `hi`. */
  function Bisect(starts: seq<nat>, key: nat, lo: nat, hi: nat): (n: nat)
    requires lo <= hi <= |starts|
    ensures lo <= n <= hi
    decreases hi - lo
  {
    if lo == hi then lo
    else
      var mid := (lo + hi) / 2;
      if starts[mid] <= key then Bisect(starts, key, mid + 1, hi) else Bisect(starts, key, lo, mid)
  }

  function Lookup4(t: Table, key: nat): Option<string>
    requires t.Valid()
  {
    var n := Bisect(Starts4(t), key, 0, t.v4Count);
    if n > 0 && Start4(t, n - 1) <= key < End4(t, n - 1) then Code(t, Index4(t, n - 1)) else None
  }

  function Lookup6(t: Table, keyHi: nat): Option<string>
    requires t.Valid()
  {
    var n := Bisect(Starts6(t), keyHi, 0, t.v6Count);
    if n > 0 && Start6(t, n - 1) <= keyHi <= Last6(t, n - 1) then Code(t, Index6(t, n - 1)) else None
  }

  method LookupV4(t: Table, key: nat) returns (r: Option<string>)
    requires t.Valid()
    ensures r == Lookup4(t, key)
  {
    hide NumberAt, Code, Starts4;
    var lo: nat, hi: nat := 0, t.v4Count;
    ghost var starts := Starts4(t);
    while lo < hi
      invariant lo <= hi <= t.v4Count
      invariant Bisect(starts, key, 0, t.v4Count) == Bisect(starts, key, lo, hi)
    {
      var mid := (lo + hi) / 2;
      if Start4(t, mid) <= key {
        lo := mid + 1;
      } else {
        hi := mid;
      }
    }
    if lo == 0 {
      return None;
    }
    if Start4(t, lo - 1) <= key && key < End4(t, lo - 1) {
      return Code(t, Index4(t, lo - 1));
    }
    return None;
  }

  method LookupV6(t: Table, keyHi: nat) returns (r: Option<string>)
    requires t.Valid()
    ensures r == Lookup6(t, keyHi)
  {
    hide NumberAt, Code, Starts6;
    var lo: nat, hi: nat := 0, t.v6Count;
    ghost var starts := Starts6(t);
    while lo < hi
      invariant lo <= hi <= t.v6Count
      invariant Bisect(starts, keyHi, 0, t.v6Count) == Bisect(starts, keyHi, lo, hi)
    {
      var mid := (lo + hi) / 2;
      if Start6(t, mid) <= keyHi {
        lo := mid + 1;
      } else {
        hi := mid;
      }
    }
    if lo == 0 {
      return None;
    }
    if Start6(t, lo - 1) <= keyHi && keyHi <= Last6(t, lo - 1) {
      return Code(t, Index6(t, lo - 1));
    }
    return None;
  }

  type Addr4 = a: nat | a < TWO_32

  type Addr6 = a: nat | a < TWO_128

  datatype Ip = V4(a4: Addr4) | V6(a6: Addr6)

  /** The IPv4 address an IPv4-mapped IPv6 address stands for. */
  function MappedV4(a: Addr6): Option<Addr4> {
    if a / TWO_32 == 0xFFFF then Some(a % TWO_32) else None
  }

  function Lookup(blob: seq<Byte>, ip: Ip): Option<string> {
    var t := Parse(blob);
    if t.None? then None
    else
      match ip
      case V4(a) => Lookup4(t.value, a)
      case V6(a) =>
        if MappedV4(a).Some? then Lookup4(t.value, MappedV4(a).value) else Lookup6(t.value, a / TWO_64)
  }
}
