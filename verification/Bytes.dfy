/** Little-endian numbers in byte strings. */
module Bytes {

  type Byte = x: nat | x < 256

  /** 256 to the power `w`. */
  function Span(w: nat): nat {
    if w == 0 then 1 else 256 * Span(w - 1)
  }

  /** `n` as `w` bytes, least significant first. */
  function Encode(n: nat, w: nat): (s: seq<Byte>)
    ensures |s| == w
  {
    if w == 0 then [] else [n % 256] + Encode(n / 256, w - 1)
  }

  function Decode(s: seq<Byte>): nat {
    if s == [] then 0 else s[0] + 256 * Decode(s[1..])
  }

  /** The `w`-byte number at offset `o`. */
  function NumberAt(b: seq<Byte>, o: nat, w: nat): nat
    requires o + w <= |b|
  {
    Decode(b[o..o + w])
  }

  /** A number that fits is read back as written. */
  lemma {:induction false} ReadBack(n: nat, w: nat)
    requires n < Span(w)
    ensures Decode(Encode(n, w)) == n
  {
    if w > 0 {
      assert Encode(n, w)[1..] == Encode(n / 256, w - 1);
      ReadBack(n / 256, w - 1);
    }
  }

  lemma Spans()
    ensures Span(2) == 0x1_0000
    ensures Span(4) == 0x1_0000_0000
    ensures Span(8) == 0x1_0000_0000_0000_0000
  {
  }

  /** Writing into the middle of a byte string and reading it there. */
  lemma {:induction false} NumberInside(before: seq<Byte>, n: nat, w: nat, after: seq<Byte>)
    requires n < Span(w)
    ensures NumberAt(before + Encode(n, w) + after, |before|, w) == n
  {
    assert (before + Encode(n, w) + after)[|before|..|before| + w] == Encode(n, w);
    ReadBack(n, w);
  }
}
