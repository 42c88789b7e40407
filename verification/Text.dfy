/** Trimming and number rendering, shared by the models that handle names. */
module Text {

  /** Unicode white space. */
  predicate IsWhitespace(c: char) {
    var u := c as int;
    || 0x09 <= u <= 0x0D || u == 0x20 || u == 0x85 || u == 0xA0 || u == 0x1680
    || 0x2000 <= u <= 0x200A || u == 0x2028 || u == 0x2029 || u == 0x202F || u == 0x205F || u == 0x3000
  }

  function TrimStart(s: string): (r: string)
    ensures |r| <= |s| && (r != [] ==> !IsWhitespace(r[0]))
  {
    if s != [] && IsWhitespace(s[0]) then TrimStart(s[1..]) else s
  }

  function TrimEnd(s: string): (r: string)
    ensures |r| <= |s| && r == s[..|r|] && (r != [] ==> !IsWhitespace(r[|r| - 1]))
  {
    if s != [] && IsWhitespace(s[|s| - 1]) then TrimEnd(s[..|s| - 1]) else s
  }

  function Trim(s: string): string {
    TrimEnd(TrimStart(s))
  }

  lemma TrimFixed(s: string)
    requires s != [] ==> !IsWhitespace(s[0]) && !IsWhitespace(s[|s| - 1])
    ensures Trim(s) == s
  {
  }

  const DIGITS: string := "0123456789"

  /** A number in decimal. */
  function Decimal(n: nat): (s: string)
    ensures |s| > 0
  {
    (if n < 10 then "" else Decimal(n / 10)) + [DIGITS[n % 10]]
  }

  lemma DigitsDiffer(a: nat, b: nat)
    requires a < 10 && b < 10 && DIGITS[a] == DIGITS[b]
    ensures a == b
  {
  }

  lemma SplitLast(s: string, c: char, t: string, d: char)
    requires s + [c] == t + [d]
    ensures s == t && c == d
  {
    assert (s + [c])[..|s|] == s && (t + [d])[..|t|] == t;
    assert (s + [c])[|s|] == c;
  }

  /** Different numbers are written differently. */
  lemma {:induction false} DecimalInjective(m: nat, n: nat)
    requires Decimal(m) == Decimal(n)
    ensures m == n
    decreases m + n
  {
    var (front, front') := (if m < 10 then "" else Decimal(m / 10), if n < 10 then "" else Decimal(n / 10));
    SplitLast(front, DIGITS[m % 10], front', DIGITS[n % 10]);
    DigitsDiffer(m % 10, n % 10);
    if 10 <= m && 10 <= n {
      DecimalInjective(m / 10, n / 10);
    }
  }
}
