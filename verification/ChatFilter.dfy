/**
 The chat profanity filter: a greedy matcher for one word, and the in-place scan that
 masks every hit. Folding is any function on characters.
 */
module ChatFilter {
  import opened Wrappers

  datatype RawWord = RawWord(cp: seq<char>, anywhere: bool)

  /** A listed word has at least one letter. */
  type Word = w: RawWord | w.cp != [] witness RawWord(['a'], false)

  predicate IsLetter(c: char) {
    var u := c as int;
    if u < 0x80 then 'a' <= c <= 'z'
    else if 0x2000 <= u <= 0x206F || 0x3000 <= u <= 0x303F || 0xFF00 <= u <= 0xFF0F then false
    else u != 0xA0 && u != 0xB7 && u != 0xBF && u != 0xA1
  }

  predicate IsSeparator(c: char) {
    c in {' ', '.', '-', '_', '*', '\'', ',', '\U{2019}', '\U{A0}'}
  }

  // ----- the language of a word -----

  /** Separators may stand between the letters of a word of four or more. */
  predicate AllowsSeparators(w: seq<char>) {
    4 <= |w|
  }

  /** What may stand before letter `j`. */
  ghost predicate Gap(t: seq<char>, w: seq<char>, j: nat, p: nat, q: nat) {
    if 0 < j && AllowsSeparators(w)
    then p <= q <= |t| && forall k :: p <= k < q ==> IsSeparator(t[k])
    else p == q
  }

  /** Letter `j`, repeated freely unless the word's next letter is the same. */
  ghost predicate Repeats(t: seq<char>, w: seq<char>, j: nat, q: nat, r: nat)
    requires j < |w|
  {
    && q < r <= |t|
    && (forall k :: q <= k < r ==> t[k] == w[j])
    && (j + 1 < |w| && w[j + 1] == w[j] ==> r == q + 1)
  }

  /** The text from `p` to `e` splits into letters `j`, `j + 1`, ... of the word, with gaps before them. */
  ghost predicate Splits(t: seq<char>, w: seq<char>, j: nat, p: nat, e: nat)
    requires j <= |w|
    decreases |w| - j
  {
    if j == |w| then p == e
    else exists q: nat, r: nat :: Gap(t, w, j, p, q) && Repeats(t, w, j, q, r) && Splits(t, w, j + 1, r, e)
  }

  /** `e` is the end of the longest match of the word at `at`. */
  ghost predicate Longest(t: seq<char>, w: seq<char>, at: nat, e: nat) {
    Splits(t, w, 0, at, e) && forall e': nat :: Splits(t, w, 0, at, e') ==> e' <= e
  }

  predicate LetterBefore(orig: seq<char>, at: nat) {
    0 < at <= |orig| && IsLetter(orig[at - 1])
  }

  predicate LetterAfter(orig: seq<char>, e: nat) {
    e < |orig| && IsLetter(orig[e])
  }

  // ----- the greedy scan -----

  function SkipSeparators(t: seq<char>, p: nat): (q: nat)
    requires p <= |t|
    ensures p <= q <= |t| && (forall k :: p <= k < q ==> IsSeparator(t[k]))
    ensures q < |t| ==> !IsSeparator(t[q])
    decreases |t| - p
  {
    if p < |t| && IsSeparator(t[p]) then SkipSeparators(t, p + 1) else p
  }

  function SkipRun(t: seq<char>, p: nat, c: char): (q: nat)
    requires p <= |t|
    ensures p <= q <= |t| && (forall k :: p <= k < q ==> t[k] == c)
    ensures q < |t| ==> t[q] != c
    decreases |t| - p
  {
    if p < |t| && t[p] == c then SkipRun(t, p + 1, c) else p
  }

  function BeforeLetter(t: seq<char>, w: seq<char>, j: nat, p: nat): (q: nat)
    requires p <= |t|
    ensures p <= q <= |t|
  {
    if 0 < j && AllowsSeparators(w) then SkipSeparators(t, p) else p
  }

  function AfterLetter(t: seq<char>, w: seq<char>, j: nat, q: nat): (r: nat)
    requires j < |w| && q < |t|
    ensures q < r <= |t|
  {
    if |w| <= j + 1 || w[j + 1] != w[j] then SkipRun(t, q + 1, w[j]) else q + 1
  }

  /** Where the scan ends when it takes everything it can, from letter `j` at position `p`. */
  function Greedy(t: seq<char>, w: seq<char>, j: nat, p: nat): (e: Option<nat>)
    requires j <= |w| && p <= |t|
    ensures e.Some? ==> p <= e.value <= |t|
    ensures e.Some? && j < |w| ==> p < e.value
    decreases |w| - j
  {
    if j == |w| then Some(p)
    else
      var q := BeforeLetter(t, w, j, p);
      if |t| <= q || t[q] != w[j] then None
      else Greedy(t, w, j + 1, AfterLetter(t, w, j, q))
  }

  /** The end of a match of `w` at `at`, or 0. */
  function MatchEnd(t: seq<char>, orig: seq<char>, at: nat, w: Word): (e: nat)
    requires at <= |t|
    ensures e == 0 || at < e <= |t|
  {
    if !w.anywhere && LetterBefore(orig, at) then 0
    else
      var e := Greedy(t, w.cp, 0, at);
      if e.None? || (!w.anywhere && LetterAfter(orig, e.value)) then 0 else e.value
  }

  /** The matcher as written: one cursor, moved by nested loops. */
  method MatchAt(t: seq<char>, orig: seq<char>, at: nat, w: Word) returns (e: nat)
    requires at <= |t| == |orig|
    ensures e == MatchEnd(t, orig, at, w)
  {
    hide IsLetter, IsSeparator, SkipRun, SkipSeparators;
    var n := |t|;
    var allowSep := 4 <= |w.cp|;
    if !w.anywhere && 0 < at && IsLetter(orig[at - 1]) {
      return 0;
    }
    var p := at;
    var j := 0;
    ghost var goal := Greedy(t, w.cp, 0, at);
    while j < |w.cp|
      invariant j <= |w.cp| && at <= p <= n
      invariant goal == Greedy(t, w.cp, j, p)
    {
      var want := w.cp[j];
      if 0 < j && allowSep {
        p := PassSeparators(t, p);
      }
      if n <= p || t[p] != want {
        return 0;
      }
      var q := p;
      p := p + 1;
      if |w.cp| <= j + 1 || w.cp[j + 1] != want {
        p := PassRun(t, p, want);
      }
      assert p == AfterLetter(t, w.cp, j, q);
      j := j + 1;
    }
    assert goal == Some(p);
    if !w.anywhere && p < n && IsLetter(orig[p]) {
      return 0;
    }
    return p;
  }

  method PassSeparators(t: seq<char>, from: nat) returns (p: nat)
    requires from <= |t|
    ensures p == SkipSeparators(t, from)
  {
    p := from;
    while p < |t| && IsSeparator(t[p])
      invariant from <= p <= |t| && SkipSeparators(t, from) == SkipSeparators(t, p)
    {
      p := p + 1;
    }
  }

  method PassRun(t: seq<char>, from: nat, want: char) returns (p: nat)
    requires from <= |t|
    ensures p == SkipRun(t, from, want)
  {
    p := from;
    while p < |t| && t[p] == want
      invariant from <= p <= |t| && SkipRun(t, from, want) == SkipRun(t, p, want)
    {
      p := p + 1;
    }
  }

  // ----- the scan decides the language -----

  /** The greedy scan finds a match: what it took does split. */
  lemma {:induction false} GreedySplits(t: seq<char>, w: seq<char>, j: nat, p: nat)
    requires j <= |w| && p <= |t|
    ensures Greedy(t, w, j, p).Some? ==> Splits(t, w, j, p, Greedy(t, w, j, p).value)
    decreases |w| - j
  {
    if j < |w| && Greedy(t, w, j, p).Some? {
      var q := BeforeLetter(t, w, j, p);
      var r := AfterLetter(t, w, j, q);
      GreedySplits(t, w, j + 1, r);
      assert Gap(t, w, j, p, q) && Repeats(t, w, j, q, r);
    }
  }

  /** The words the scan is faithful to: where separators may stand between letters, none after the first character. */
  predicate Faithful(w: seq<char>) {
    AllowsSeparators(w) ==> forall k :: 1 <= k < |w| ==> !IsSeparator(w[k])
  }

  /** Stopping a run of letters early gains nothing: the rest of the match also follows the whole run. */
  lemma TakeWholeRun(t: seq<char>, w: seq<char>, j: nat, q: nat, r: nat, e: nat)
    requires Faithful(w) && j + 1 < |w| && q < |t|
    requires Repeats(t, w, j, q, r) && Splits(t, w, j + 1, r, e)
    ensures Splits(t, w, j + 1, AfterLetter(t, w, j, q), e)
  {
    var r' := AfterLetter(t, w, j, q);
    var q2: nat, r2: nat :| Gap(t, w, j + 1, r, q2) && Repeats(t, w, j + 1, q2, r2) && Splits(t, w, j + 2, r2, e);
    if r < r' {
      assert t[r] == w[j] && w[j + 1] != w[j] && t[q2] == w[j + 1];
      assert r' <= q2;
      assert Gap(t, w, j + 1, r', q2);
    }
  }

  /** The greedy scan loses no match and reaches at least as far as any. */
  lemma {:induction false} GreedyReaches(t: seq<char>, w: seq<char>, j: nat, p: nat, e: nat)
    requires Faithful(w) && j <= |w| && p <= |t|
    requires Splits(t, w, j, p, e)
    ensures Greedy(t, w, j, p).Some? && e <= Greedy(t, w, j, p).value
    decreases |w| - j
  {
    if j < |w| {
      var q: nat, r: nat :| Gap(t, w, j, p, q) && Repeats(t, w, j, q, r) && Splits(t, w, j + 1, r, e);
      assert t[q] == w[j];
      assert q == BeforeLetter(t, w, j, p);
      var r' := AfterLetter(t, w, j, q);
      assert r <= r';
      if j + 1 < |w| {
        TakeWholeRun(t, w, j, q, r, e);
        GreedyReaches(t, w, j + 1, r', e);
      }
    }
  }

  /**
   The matcher decides the language: it answers with a position exactly when the word's
   longest match there stands between two non-letters of the original text, or may stand
   anywhere, and the position is that match's end.
  */
  lemma MatcherDecides(t: seq<char>, orig: seq<char>, at: nat, w: Word)
    requires at <= |t| == |orig| && Faithful(w.cp)
    ensures var m := MatchEnd(t, orig, at, w);
            && (0 < m <==>
                  exists e: nat ::
                    && Longest(t, w.cp, at, e)
                    && (w.anywhere || ((at == 0 || !IsLetter(orig[at - 1])) && (e < |orig| ==> !IsLetter(orig[e])))))
            && (0 < m ==>
                  && Longest(t, w.cp, at, m)
                  && (w.anywhere || ((at == 0 || !IsLetter(orig[at - 1])) && (m < |orig| ==> !IsLetter(orig[m])))))
  {
    var g := Greedy(t, w.cp, 0, at);
    GreedySplits(t, w.cp, 0, at);
    forall e: nat | Splits(t, w.cp, 0, at, e) ensures g.Some? && e <= g.value {
      GreedyReaches(t, w.cp, 0, at, e);
    }
    if g.Some? {
      assert Longest(t, w.cp, at, g.value);
    }
  }

  // ----- the language, spelled out -----

  /** The first letter of a spelling: separators before `gap`, the letter from there to `end`, then the rest. */
  ghost predicate SpelledAt(x: seq<char>, w: seq<char>, j: nat, gap: nat, end: nat)
    requires j < |w|
    decreases |w| - j, 0
  {
    && gap < end <= |x|
    && (gap == 0 || (0 < j && 4 <= |w|))
    && (forall k :: 0 <= k < gap ==> x[k] in " .-_*',\U{2019}\U{A0}")
    && (forall k :: gap <= k < end ==> x[k] == w[j])
    && (j + 1 < |w| && w[j] == w[j + 1] ==> end == gap + 1)
    && Spelled(x[end..], w, j + 1)
  }

  /** Letters `j`, `j + 1`, ... of the word, each repeated and, in a word of four or more, with separators between. */
  ghost predicate Spelled(x: seq<char>, w: seq<char>, j: nat)
    requires j <= |w|
    decreases |w| - j, 1
  {
    if j == |w| then x == [] else exists gap: nat, end: nat :: SpelledAt(x, w, j, gap, end)
  }

  lemma SeparatorsAre(c: char)
    ensures IsSeparator(c) <==> c in " .-_*',\U{2019}\U{A0}"
  {
    assert forall k :: 0 <= k < 9 ==> " .-_*',\U{2019}\U{A0}"[k] in " .-_*',\U{2019}\U{A0}";
  }

  lemma {:induction false} SplitStarts(t: seq<char>, w: seq<char>, j: nat, p: nat, q: nat, r: nat, e: nat)
    requires j < |w| && p <= e <= |t| && p <= q && r <= e && Spelled(t[r..e], w, j + 1)
    requires Gap(t, w, j, p, q) && Repeats(t, w, j, q, r)
    ensures SpelledAt(t[p..e], w, j, q - p, r - p)
  {
    var x := t[p..e];
    assert x[r - p..] == t[r..e];
    forall k | 0 <= k < q - p ensures x[k] in " .-_*',\U{2019}\U{A0}" {
      SeparatorsAre(t[p + k]);
    }
  }

  lemma {:induction false} SpellingStarts(t: seq<char>, w: seq<char>, j: nat, p: nat, e: nat, gap: nat, end: nat)
    requires j < |w| && p <= e <= |t| && SpelledAt(t[p..e], w, j, gap, end)
    ensures p + end <= e && Gap(t, w, j, p, p + gap) && Repeats(t, w, j, p + gap, p + end)
    ensures Spelled(t[p + end..e], w, j + 1)
  {
    var x := t[p..e];
    assert x[end..] == t[p + end..e];
    forall k | p <= k < p + gap ensures IsSeparator(t[k]) {
      assert t[k] == x[k - p];
      SeparatorsAre(t[k]);
    }
    forall k | p + gap <= k < p + end ensures t[k] == w[j] {
      assert t[k] == x[k - p];
    }
  }

  lemma {:induction false} FirstOfSpelling(x: seq<char>, w: seq<char>, j: nat) returns (gap: nat, end: nat)
    requires j < |w| && Spelled(x, w, j)
    ensures SpelledAt(x, w, j, gap, end)
  {
    gap, end :| SpelledAt(x, w, j, gap, end);
  }

  /** A stretch of text splits into the letters of a word exactly when it spells the word. */
  lemma {:induction false} SplitsWhatSpells(t: seq<char>, w: seq<char>, j: nat, p: nat, e: nat)
    requires j <= |w| && p <= e <= |t|
    ensures Splits(t, w, j, p, e) <==> Spelled(t[p..e], w, j)
    decreases |w| - j
  {
    if j < |w| {
      hide Gap, Repeats, SpelledAt;
      if Splits(t, w, j, p, e) {
        var q: nat, r: nat :| Gap(t, w, j, p, q) && Repeats(t, w, j, q, r) && Splits(t, w, j + 1, r, e);
        SplitEndsBy(t, w, j, p, q, r, e);
        SplitsWhatSpells(t, w, j + 1, r, e);
        SplitStarts(t, w, j, p, q, r, e);
      }
      if Spelled(t[p..e], w, j) {
        var gap, end := FirstOfSpelling(t[p..e], w, j);
        SpellingStarts(t, w, j, p, e, gap, end);
        SplitsWhatSpells(t, w, j + 1, p + end, e);
      }
    }
  }

  lemma {:induction false} SplitMoves(t: seq<char>, w: seq<char>, j: nat, p: nat, e: nat)
    requires j <= |w| && Splits(t, w, j, p, e)
    ensures p <= e && (j < |w| ==> p < e <= |t|)
    decreases |w| - j
  {
    if j < |w| {
      var q: nat, r: nat :| Gap(t, w, j, p, q) && Repeats(t, w, j, q, r) && Splits(t, w, j + 1, r, e);
      SplitMoves(t, w, j + 1, r, e);
    }
  }

  lemma SplitEndsBy(t: seq<char>, w: seq<char>, j: nat, p: nat, q: nat, r: nat, e: nat)
    requires j < |w| && Gap(t, w, j, p, q) && Repeats(t, w, j, q, r) && Splits(t, w, j + 1, r, e)
    ensures p <= q < r <= e
  {
    SplitMoves(t, w, j + 1, r, e);
  }

  /**
   The matcher in plain terms: for a faithful word it finds the longest stretch at the
   position that spells the word, if that stands between two non-letters or may stand
   anywhere, and nothing otherwise.
  */
  lemma MatcherFindsSpellings(t: seq<char>, orig: seq<char>, at: nat, w: Word, e: nat)
    requires at < e <= |t| == |orig| && Faithful(w.cp)
    ensures MatchEnd(t, orig, at, w) == e <==>
              && Spelled(t[at..e], w.cp, 0) && (forall d :: e < d <= |t| ==> !Spelled(t[at..d], w.cp, 0))
              && (w.anywhere || ((at == 0 || !IsLetter(orig[at - 1])) && (e < |orig| ==> !IsLetter(orig[e]))))
  {
    MatcherDecides(t, orig, at, w);
    LongestSpelling(t, w.cp, at, e);
    hide MatchEnd, Spelled, Splits, IsLetter;
  }

  lemma {:induction false} LongestSpelling(t: seq<char>, w: seq<char>, at: nat, e: nat)
    requires at < e <= |t| && w != []
    ensures Longest(t, w, at, e) <==>
              Spelled(t[at..e], w, 0) && forall d :: e < d <= |t| ==> !Spelled(t[at..d], w, 0)
  {
    SplitsWhatSpells(t, w, 0, at, e);
    forall d: nat | Splits(t, w, 0, at, d) ensures at < d <= |t| {
      SplitMoves(t, w, 0, at, d);
    }
    forall d | at <= d <= |t| ensures Splits(t, w, 0, at, d) <==> Spelled(t[at..d], w, 0) {
      SplitsWhatSpells(t, w, 0, at, d);
    }
    hide Splits, Spelled;
  }

  /** In plain lower-case text a listed whole word is matched exactly where nothing but blanks stands beside it. */
  lemma PlainNeighbours(orig: seq<char>, at: nat, e: nat)
    requires at <= e <= |orig| && forall k :: 0 <= k < |orig| ==> orig[k] in "abcdefghijklmnopqrstuvwxyz 0123456789"
    ensures ((at == 0 || !IsLetter(orig[at - 1])) && (e < |orig| ==> !IsLetter(orig[e])))
            <==> (at == 0 || orig[at - 1] in " 0123456789") && (e < |orig| ==> orig[e] in " 0123456789")
  {
    if 0 < at {
      PlainLetters(orig[at - 1]);
    }
    if e < |orig| {
      PlainLetters(orig[e]);
    }
  }

  /** Of plain characters exactly the twenty-six lower-case ones are letters. */
  lemma PlainLetters(c: char)
    requires c in "abcdefghijklmnopqrstuvwxyz 0123456789"
    ensures IsLetter(c) <==> c in "abcdefghijklmnopqrstuvwxyz"
  {
  }

  /** A letter to a reader, in either case. */
  predicate ReadsAsLetter(c: char) {
    IsLetter(c) || 'A' <= c <= 'Z'
  }

  /** A whole word is found inside a longer one exactly beside an upper-case letter, which counts as none. */
  lemma InsideAWordExactly(t: seq<char>, orig: seq<char>, at: nat, w: Word)
    requires at <= |t| == |orig| && Faithful(w.cp) && !w.anywhere && 0 < MatchEnd(t, orig, at, w)
    ensures var m := MatchEnd(t, orig, at, w);
            (0 < at && ReadsAsLetter(orig[at - 1])) || (m < |orig| && ReadsAsLetter(orig[m]))
            <==> (0 < at && 'A' <= orig[at - 1] <= 'Z') || (m < |orig| && 'A' <= orig[m] <= 'Z')
  {
    MatcherDecides(t, orig, at, w);
    hide MatchEnd, Longest, Faithful;
  }

  // ----- and is faithful to no other words -----

  lemma {:induction false} WordSplitsItself(w: seq<char>, j: nat)
    requires j <= |w|
    ensures Splits(w, w, j, j, |w|)
    decreases |w| - j
  {
    if j < |w| {
      WordSplitsItself(w, j + 1);
      assert Gap(w, w, j, j, j) && Repeats(w, w, j, j, j + 1);
    }
  }

  /** On its own text the scan of a word with a separator inside runs past that separator. */
  lemma {:induction false} ScanOverruns(w: seq<char>, k: nat, j: nat)
    requires AllowsSeparators(w) && 1 <= k < |w| && IsSeparator(w[k])
    requires forall i :: 1 <= i < k ==> !IsSeparator(w[i])
    requires j <= k
    ensures Greedy(w, w, j, j).None?
    decreases k - j
  {
    if j < k {
      assert BeforeLetter(w, w, j, j) == j;
      assert AfterLetter(w, w, j, j) == j + 1;
      ScanOverruns(w, k, j + 1);
    }
  }

  function FirstSeparator(w: seq<char>, from: nat): (k: nat)
    requires exists i :: from <= i < |w| && IsSeparator(w[i])
    ensures from <= k < |w| && IsSeparator(w[k]) && forall i :: from <= i < k ==> !IsSeparator(w[i])
    decreases |w| - from
  {
    if IsSeparator(w[from]) then from else FirstSeparator(w, from + 1)
  }

  /** Matching agrees with the language on every text. */
  ghost predicate DecidesEverywhere(w: seq<char>) {
    forall t: seq<char>, at: nat :: at <= |t| ==>
      (Greedy(t, w, 0, at).Some? <==> exists e: nat :: Splits(t, w, 0, at, e))
  }

  /** The scan decides a word's language exactly when the word is faithful. */
  lemma FaithfulExactly(w: seq<char>)
    ensures DecidesEverywhere(w) <==> Faithful(w)
  {
    if Faithful(w) {
      forall t: seq<char>, at: nat | at <= |t|
        ensures Greedy(t, w, 0, at).Some? <==> exists e: nat :: Splits(t, w, 0, at, e)
      {
        var g := Greedy(t, w, 0, at);
        GreedySplits(t, w, 0, at);
        assert g.Some? ==> Splits(t, w, 0, at, g.value);
        forall e: nat | Splits(t, w, 0, at, e) ensures g.Some? {
          GreedyReaches(t, w, 0, at, e);
        }
      }
    } else {
      var k := FirstSeparator(w, 1);
      ScanOverruns(w, k, 0);
      WordSplitsItself(w, 0);
      assert Greedy(w, w, 0, 0).None? && Splits(w, w, 0, 0, |w|);
    }
  }

  // ----- masking -----

  /** A masked stretch of the text. */
  datatype Hit = Hit(start: nat, end: nat)

  predicate Covered(hits: seq<Hit>, k: nat) {
    exists h :: h in hits && h.start <= k < h.end
  }

  /** The text as the scan sees it at position `at`: masked so far on the left, untouched on the right. */
  function SeenAt(text: seq<char>, out: seq<char>, at: nat): seq<char>
    requires at <= |text| == |out|
  {
    out[..at] + text[at..]
  }

  function Folded(text: seq<char>, fold: char -> char): seq<char> {
    seq(|text|, k requires 0 <= k < |text| => fold(text[k]))
  }

  /** Some listed word matches from `start` to `end`, and none matches further. */
  ghost predicate Best(t: seq<char>, seen: seq<char>, words: seq<Word>, start: nat, end: nat)
    requires start <= |t|
  {
    && (exists w :: w in words && MatchEnd(t, seen, start, w) == end)
    && (forall w :: w in words ==> MatchEnd(t, seen, start, w) <= end)
  }

  ghost predicate NoMatch(t: seq<char>, seen: seq<char>, words: seq<Word>, at: nat)
    requires at <= |t|
  {
    forall w :: w in words ==> MatchEnd(t, seen, at, w) == 0
  }

  ghost predicate InOrder(hits: seq<Hit>, n: nat) {
    && (forall k :: 0 <= k < |hits| ==> hits[k].start < hits[k].end <= n)
    && (forall k, l :: 0 <= k < l < |hits| ==> hits[k].end <= hits[l].start)
  }

  /**
   What masking must achieve up to position `upto`: the text keeps its length and
   changes only to stars, over exactly these disjoint stretches; each stretch is the
   longest match of some listed word at a letter; and no listed word matches at any
   letter left unstarred.
  */
  ghost predicate IsMasking(t: seq<char>, text: seq<char>, words: seq<Word>, hits: seq<Hit>, out: seq<char>, upto: nat)
    requires |t| == |text| && upto <= |text|
  {
    && |out| == |text|
    && InOrder(hits, upto)
    && (forall k :: 0 <= k < |text| ==> out[k] == if Covered(hits, k) then '*' else text[k])
    && (forall k :: 0 <= k < |hits| ==>
          IsLetter(t[hits[k].start]) && Best(t, SeenAt(text, out, hits[k].start), words, hits[k].start, hits[k].end))
    && (forall k :: 0 <= k < upto && !Covered(hits, k) && IsLetter(t[k]) ==> NoMatch(t, SeenAt(text, out, k), words, k))
  }

  function Starred(out: seq<char>, start: nat, end: nat): (r: seq<char>)
    requires start <= end <= |out|
    ensures |r| == |out|
    ensures forall k :: 0 <= k < |out| ==> r[k] == if start <= k < end then '*' else out[k]
  {
    out[..start] + seq(end - start, _ => '*') + out[end..]
  }

  lemma SeenIsOut(text: seq<char>, hits: seq<Hit>, out: seq<char>, at: nat)
    requires at <= |text| == |out| && InOrder(hits, at)
    requires forall k :: 0 <= k < |text| ==> out[k] == if Covered(hits, k) then '*' else text[k]
    ensures SeenAt(text, out, at) == out
  {
  }

  lemma SkipOne(t: seq<char>, text: seq<char>, words: seq<Word>, hits: seq<Hit>, out: seq<char>, i: nat)
    requires |t| == |text| && i < |text| && IsMasking(t, text, words, hits, out, i)
    requires IsLetter(t[i]) ==> NoMatch(t, out, words, i)
    ensures IsMasking(t, text, words, hits, out, i + 1)
  {
  }

  lemma CoveredSnoc(hits: seq<Hit>, h: Hit, k: nat)
    ensures Covered(hits + [h], k) <==> Covered(hits, k) || h.start <= k < h.end
  {
  }

  lemma StarOne(t: seq<char>, text: seq<char>, words: seq<Word>, hits: seq<Hit>, out: seq<char>, i: nat, e: nat)
    requires |t| == |text| && i < e <= |text| && IsMasking(t, text, words, hits, out, i)
    requires IsLetter(t[i]) && Best(t, out, words, i, e)
    ensures IsMasking(t, text, words, hits + [Hit(i, e)], Starred(out, i, e), e)
  {
    hide Best, NoMatch, IsLetter, Starred;
    var (hits', out') := (hits + [Hit(i, e)], Starred(out, i, e));
    SeenIsOut(text, hits, out, i);
    forall k: nat ensures Covered(hits', k) <==> Covered(hits, k) || i <= k < e {
      CoveredSnoc(hits, Hit(i, e), k);
    }
    forall k: nat | k <= i ensures SeenAt(text, out', k) == SeenAt(text, out, k) {
      assert out'[..k] == out[..k];
    }
  }

  /** The furthest any listed word matches at `i`, or 0. */
  method BestEnd(t: seq<char>, orig: seq<char>, i: nat, words: seq<Word>) returns (best: nat)
    requires i < |t| == |orig|
    ensures best == 0 ==> NoMatch(t, orig, words, i)
    ensures 0 < best ==> i < best <= |t| && Best(t, orig, words, i, best)
  {
    best := 0;
    var k := 0;
    while k < |words|
      invariant k <= |words|
      invariant forall l :: 0 <= l < k ==> MatchEnd(t, orig, i, words[l]) <= best
      invariant 0 < best ==> i < best <= |t| && exists l :: 0 <= l < k && MatchEnd(t, orig, i, words[l]) == best
    {
      var w := words[k];
      if w.cp[0] == t[i] {
        var end := MatchAt(t, orig, i, w);
        if best < end {
          best := end;
        }
      }
      k := k + 1;
    }
  }

  /** Mask every hit, left to right, in place. */
  method Mask(words: seq<Word>, enabled: bool, fold: char -> char, text: seq<char>) returns (out: seq<char>)
    ensures !enabled ==> out == text
    ensures enabled ==> exists hits :: IsMasking(Folded(text, fold), text, words, hits, out, |text|)
  {
    var folded := Folded(text, fold);
    ghost var hits: seq<Hit> := [];
    assert IsMasking(folded, text, words, hits, text, 0);
    if !enabled {
      return text;
    }
    var n := |text|;
    var orig := new char[n](k requires 0 <= k < n => text[k]);
    assert orig[..] == text;
    var i := 0;
    while i < n
      invariant i <= n
      invariant IsMasking(folded, text, words, hits, orig[..], i)
    {
      if !IsLetter(folded[i]) {
        SkipOne(folded, text, words, hits, orig[..], i);
        i := i + 1;
      } else {
        var best := BestEnd(folded, orig[..], i, words);
        if 0 < best {
          StarOne(folded, text, words, hits, orig[..], i, best);
          hits := hits + [Hit(i, best)];
          Star(orig, i, best);
          i := best;
        } else {
          SkipOne(folded, text, words, hits, orig[..], i);
          i := i + 1;
        }
      }
    }
    return orig[..];
  }

  method Star(orig: array<char>, start: nat, end: nat)
    requires start <= end <= orig.Length
    modifies orig
    ensures orig[..] == Starred(old(orig[..]), start, end)
  {
    for k := start to end
      invariant orig[..] == Starred(old(orig[..]), start, k)
    {
      orig[k] := '*';
    }
  }

  // ----- the description leaves no choice -----

  ghost predicate Edge(hits: seq<Hit>, i: nat) {
    forall h :: h in hits ==> !(h.start < i < h.end)
  }

  /** From `i` to `e` the text is either one starred hit or one character left alone. */
  ghost predicate Stretch(t: seq<char>, seen: seq<char>, words: seq<Word>, i: nat, starred: bool, e: nat)
    requires i < |t|
  {
    && i < e
    && if starred then IsLetter(t[i]) && Best(t, seen, words, i, e)
       else e == i + 1 && (IsLetter(t[i]) ==> NoMatch(t, seen, words, i))
  }

  lemma StretchIsUnique(t: seq<char>, seen: seq<char>, words: seq<Word>,
                        i: nat, starred: bool, e: nat, starred': bool, e': nat)
    requires i < |t| && Stretch(t, seen, words, i, starred, e) && Stretch(t, seen, words, i, starred', e')
    ensures starred == starred' && e == e'
  {
  }

  lemma HitEndsAtEdge(hits: seq<Hit>, k: nat, n: nat)
    requires InOrder(hits, n) && k < |hits|
    ensures Edge(hits, hits[k].end)
  {
  }

  /** From an edge: either a hit starts here, and ends at the next edge, or this character is not masked. */
  lemma NextEdge(t: seq<char>, text: seq<char>, words: seq<Word>, hits: seq<Hit>, out: seq<char>, i: nat)
    returns (starred: bool, e: nat)
    requires |t| == |text| && i < |text| && IsMasking(t, text, words, hits, out, |text|) && Edge(hits, i)
    ensures e <= |text| && Edge(hits, e) && Stretch(t, SeenAt(text, out, i), words, i, starred, e)
    ensures forall k :: i <= k < e ==> out[k] == if starred then '*' else text[k]
  {
    starred := Covered(hits, i);
    if starred {
      e := StarredEdge(t, text, words, hits, out, i);
    } else {
      e := i + 1;
      forall x | x in hits ensures !(x.start < i + 1 < x.end) {
        assert x.start == i ==> x.start <= i < x.end;
      }
    }
  }

  lemma HitAtEdge(hits: seq<Hit>, i: nat) returns (k: nat)
    requires Edge(hits, i) && Covered(hits, i)
    ensures k < |hits| && hits[k].start == i < hits[k].end
    ensures forall j :: i <= j < hits[k].end ==> Covered(hits, j)
  {
    var h :| h in hits && h.start <= i < h.end;
    k :| 0 <= k < |hits| && hits[k] == h;
    forall j | i <= j < h.end ensures Covered(hits, j) {
      assert h in hits && h.start <= j < h.end;
    }
  }

  lemma StarredEdge(t: seq<char>, text: seq<char>, words: seq<Word>, hits: seq<Hit>, out: seq<char>, i: nat)
    returns (e: nat)
    requires |t| == |text| && i < |text| && IsMasking(t, text, words, hits, out, |text|)
    requires Edge(hits, i) && Covered(hits, i)
    ensures e <= |text| && Edge(hits, e) && Stretch(t, SeenAt(text, out, i), words, i, true, e)
    ensures forall k :: i <= k < e ==> out[k] == '*'
  {
    var k := HitAtEdge(hits, i);
    e := hits[k].end;
    HitEndsAtEdge(hits, k, |text|);
    hide Covered, Edge, Best, NoMatch, SeenAt, IsLetter;
  }

  /** From an edge of both maskings that agree so far, they agree to the end. */
  lemma {:induction false} AgreeFrom(t: seq<char>, text: seq<char>, words: seq<Word>,
                                     hits: seq<Hit>, out: seq<char>, hits': seq<Hit>, out': seq<char>, i: nat)
    requires |t| == |text| && i <= |text|
    requires IsMasking(t, text, words, hits, out, |text|) && IsMasking(t, text, words, hits', out', |text|)
    requires out[..i] == out'[..i] && Edge(hits, i) && Edge(hits', i)
    ensures out == out'
    decreases |text| - i
  {
    if i == |text| {
      assert out[..i] == out && out'[..i] == out';
    } else {
      var starred, e := NextEdge(t, text, words, hits, out, i);
      var starred', e' := NextEdge(t, text, words, hits', out', i);
      StretchIsUnique(t, SeenAt(text, out, i), words, i, starred, e, starred', e');
      SamePrefixGrows(out, out', i, e);
      AgreeFrom(t, text, words, hits, out, hits', out', e);
    }
  }

  lemma SamePrefixGrows(out: seq<char>, out': seq<char>, i: nat, e: nat)
    requires i <= e <= |out| == |out'| && out[..i] == out'[..i]
    requires forall k :: i <= k < e ==> out[k] == out'[k]
    ensures out[..e] == out'[..e]
  {
  }

  /** Masking is fully described: any two texts that meet the description are the same. */
  lemma MaskingIsDetermined(t: seq<char>, text: seq<char>, words: seq<Word>,
                            hits: seq<Hit>, out: seq<char>, hits': seq<Hit>, out': seq<char>)
    requires |t| == |text|
    requires IsMasking(t, text, words, hits, out, |text|) && IsMasking(t, text, words, hits', out', |text|)
    ensures out == out'
  {
    AgreeFrom(t, text, words, hits, out, hits', out', 0);
  }

  lemma AssMatches()
    ensures var w := RawWord("ass", false);
            && (forall k :: 0 <= k < 4 ==> MatchEnd("bass", "bass", k, w) == 0)
            && MatchEnd("bass", "BASS", 0, w) == 0 && MatchEnd("bass", "BASS", 1, w) == 4
  {
    assert Greedy("bass", "ass", 3, 4) == Some(4);
    assert SkipRun("bass", 4, 's') == 4;
    assert Greedy("bass", "ass", 2, 3) == Some(4);
    assert Greedy("bass", "ass", 1, 2) == Some(4);
    assert SkipRun("bass", 2, 'a') == 2;
    assert Greedy("bass", "ass", 0, 1) == Some(4);
  }

  lemma BassIsClean()
    ensures IsMasking("bass", "bass", [RawWord("ass", false)], [], "bass", 4)
  {
    hide MatchEnd, IsLetter;
    AssMatches();
    NothingStarred("bass", "bass", [RawWord("ass", false)]);
  }

  lemma NothingStarred(t: seq<char>, text: seq<char>, words: seq<Word>)
    requires |t| == |text| && forall k :: 0 <= k < |t| ==> NoMatch(t, text, words, k)
    ensures IsMasking(t, text, words, [], text, |text|)
  {
    hide NoMatch, IsLetter;
    forall k | 0 <= k < |t| ensures SeenAt(text, text, k) == text {
    }
  }

  lemma ShoutedBassIsNot()
    ensures IsMasking("bass", "BASS", [RawWord("ass", false)], [Hit(1, 4)], "B***", 4)
  {
    assert IsLetter("bass"[1]);
    hide MatchEnd, IsLetter;
    AssMatches();
    var words := [RawWord("ass", false)];
    assert words[0] in words;
    TailStarred("bass", "BASS", words, "B***");
  }

  lemma TailStarred(t: seq<char>, text: seq<char>, words: seq<Word>, out: seq<char>)
    requires |t| == |text| == |out| == 4 && out[0] == text[0] && forall k :: 1 <= k < 4 ==> out[k] == '*'
    requires IsLetter(t[1]) && NoMatch(t, text, words, 0) && Best(t, text, words, 1, 4)
    ensures IsMasking(t, text, words, [Hit(1, 4)], out, 4)
  {
    hide NoMatch, Best, IsLetter;
    assert SeenAt(text, out, 0) == text && SeenAt(text, out, 1) == text;
    forall k: nat ensures Covered([Hit(1, 4)], k) <==> 1 <= k < 4 {
      assert [Hit(1, 4)][0] == Hit(1, 4);
    }
    hide Covered, SeenAt;
  }

  /** With "ass" listed as a whole word "bass" is left alone, and "BASS" becomes "B***". */
  lemma UpperCaseHidesAWord(hits: seq<Hit>, out: seq<char>)
    ensures var words := [RawWord("ass", false)];
            && (IsMasking("bass", "bass", words, hits, out, 4) ==> out == "bass")
            && (IsMasking("bass", "BASS", words, hits, out, 4) ==> out == "B***")
  {
    BassIsClean();
    ShoutedBassIsNot();
    hide IsMasking;
    var words := [RawWord("ass", false)];
    if IsMasking("bass", "bass", words, hits, out, 4) {
      MaskingIsDetermined("bass", "bass", words, [], "bass", hits, out);
    }
    if IsMasking("bass", "BASS", words, hits, out, 4) {
      MaskingIsDetermined("bass", "BASS", words, [Hit(1, 4)], "B***", hits, out);
    }
  }

  ghost predicate Bounded(text: seq<char>, out: seq<char>, w: Word, k: nat, e: nat)
    requires k <= |text| == |out|
  {
    !w.anywhere && ((0 < k && IsLetter(out[k - 1])) || (e < |text| && IsLetter(text[e])))
  }

  /**
   What masking means for faithful words, in terms of their languages: every starred
   stretch is a word's longest match, standing between two non-letters unless the word may
   stand anywhere; and at a letter left unstarred, no word's longest match stands so.
  */
  lemma MaskedTextIsClean(t: seq<char>, text: seq<char>, words: seq<Word>, hits: seq<Hit>, out: seq<char>, k: nat)
    requires |t| == |text| && IsMasking(t, text, words, hits, out, |text|)
    requires forall w :: w in words ==> Faithful(w.cp)
    ensures k < |hits| ==>
              var (at, e) := (hits[k].start, hits[k].end);
              exists w :: && w in words && Longest(t, w.cp, at, e)
                          && (w.anywhere || ((at == 0 || !IsLetter(out[at - 1]))
                                             && (e < |text| ==> !IsLetter(text[e]))))
    ensures k < |text| && !Covered(hits, k) && IsLetter(t[k]) ==>
              forall w: Word, e: nat :: w in words && Longest(t, w.cp, k, e) ==>
                !w.anywhere && ((0 < k && IsLetter(out[k - 1])) || (e < |text| && IsLetter(text[e])))
  {
    if k < |hits| {
      StarredIsMatch(t, text, words, hits, out, k);
    }
    if k < |text| && !Covered(hits, k) && IsLetter(t[k]) {
      forall w: Word, e: nat | w in words && Longest(t, w.cp, k, e) ensures Bounded(text, out, w, k, e) {
        UnstarredIsNone(t, text, words, hits, out, k, w, e);
      }
    }
    hide IsMasking, Longest, IsLetter, Faithful, Covered;
  }

  lemma SeenNeighbours(text: seq<char>, out: seq<char>, at: nat)
    requires at <= |text| == |out|
    ensures 0 < at ==> SeenAt(text, out, at)[at - 1] == out[at - 1]
    ensures forall e :: at <= e < |text| ==> SeenAt(text, out, at)[e] == text[e]
  {
  }

  lemma StarredIsMatch(t: seq<char>, text: seq<char>, words: seq<Word>, hits: seq<Hit>, out: seq<char>, k: nat)
    requires |t| == |text| && IsMasking(t, text, words, hits, out, |text|) && k < |hits|
    requires forall w :: w in words ==> Faithful(w.cp)
    ensures var (at, e) := (hits[k].start, hits[k].end);
            exists w :: && w in words && Longest(t, w.cp, at, e)
                        && (w.anywhere || ((at == 0 || !IsLetter(out[at - 1]))
                                           && (e < |text| ==> !IsLetter(text[e]))))
  {
    var (at, seen) := (hits[k].start, SeenAt(text, out, hits[k].start));
    var w :| w in words && MatchEnd(t, seen, at, w) == hits[k].end;
    hide MatchEnd, Longest, IsLetter, Faithful, SeenAt;
    SeenNeighbours(text, out, at);
    MatcherDecides(t, seen, at, w);
  }

  lemma UnstarredIsNone(t: seq<char>, text: seq<char>, words: seq<Word>, hits: seq<Hit>, out: seq<char>,
                        k: nat, w: Word, e: nat)
    requires |t| == |text| && IsMasking(t, text, words, hits, out, |text|)
    requires k < |text| && !Covered(hits, k) && IsLetter(t[k])
    requires w in words && Faithful(w.cp) && Longest(t, w.cp, k, e)
    ensures !w.anywhere && ((0 < k && IsLetter(out[k - 1])) || (e < |text| && IsLetter(text[e])))
  {
    SeenNeighbours(text, out, k);
    MatcherDecides(t, SeenAt(text, out, k), k, w);
    SplitMoves(t, w.cp, 0, k, e);
    assert NoMatch(t, SeenAt(text, out, k), words, k);
    hide MatchEnd, Longest, IsLetter, Faithful, SeenAt, Splits, Best;
  }

  // ----- masking a masked text -----

  /** The folded form of a masked text: a star folds to itself. */
  function Restarred(t: seq<char>, hits: seq<Hit>): seq<char> {
    seq(|t|, k requires 0 <= k < |t| => if Covered(hits, k) then '*' else t[k])
  }

  /** Whatever was masked with this list, masking the result again finds nothing. */
  ghost predicate StableOn(words: seq<Word>) {
    forall t, text, hits, out ::
      |t| == |text| && IsMasking(t, text, words, hits, out, |text|) ==>
        IsMasking(Restarred(t, hits), out, words, [], out, |out|)
  }

  /** The words that can match at all: the scan starts at letters, and reads no separator inside a long word. */
  predicate Matchable(w: Word) {
    IsLetter(w.cp[0]) && Faithful(w.cp)
  }

  /** The words whose matches no star can make: no boundaries, no separators inside, no star in the word. */
  predicate Harmless(w: Word) {
    w.anywhere && !AllowsSeparators(w.cp) && '*' !in w.cp
  }

  lemma {:induction false} UnfaithfulNeverMatches(t: seq<char>, w: seq<char>, k: nat, j: nat, p: nat)
    requires AllowsSeparators(w) && 1 <= k < |w| && IsSeparator(w[k])
    requires j <= k && p <= |t|
    ensures Greedy(t, w, j, p).None?
    decreases k - j
  {
    var q := BeforeLetter(t, w, j, p);
    if j < k && q < |t| && t[q] == w[j] {
      UnfaithfulNeverMatches(t, w, k, j + 1, AfterLetter(t, w, j, q));
    }
  }

  lemma UnmatchableIsSilent(t: seq<char>, seen: seq<char>, at: nat, w: Word)
    requires at < |t| && IsLetter(t[at]) && !Matchable(w)
    ensures MatchEnd(t, seen, at, w) == 0
  {
    if !Faithful(w.cp) {
      var k :| 1 <= k < |w.cp| && IsSeparator(w.cp[k]);
      UnfaithfulNeverMatches(t, w.cp, k, 0, at);
    }
  }

  /** A match of a short word reads letters of the word only, so it is a match wherever those stand. */
  lemma {:induction false} ShortSplitsCarry(t: seq<char>, t': seq<char>, w: seq<char>, j: nat, p: nat, e: nat)
    requires !AllowsSeparators(w) && j <= |w| && Splits(t', w, j, p, e)
    requires |t| == |t'| && forall x :: 0 <= x < |t'| && t'[x] in w ==> t[x] == t'[x]
    ensures Splits(t, w, j, p, e)
    decreases |w| - j
  {
    if j < |w| {
      var q: nat, r: nat :| Gap(t', w, j, p, q) && Repeats(t', w, j, q, r) && Splits(t', w, j + 1, r, e);
      ShortSplitsCarry(t, t', w, j + 1, r, e);
      assert Gap(t, w, j, p, q) && Repeats(t, w, j, q, r);
    }
  }

  /** A harmless word that matches in the masked text already matched in the text. */
  lemma HarmlessMatchesBefore(t: seq<char>, hits: seq<Hit>, seen: seq<char>, out: seq<char>, at: nat, w: Word)
    requires at <= |t| && Harmless(w) && 0 < MatchEnd(Restarred(t, hits), out, at, w)
    ensures 0 < MatchEnd(t, seen, at, w)
  {
    var (t', e) := (Restarred(t, hits), MatchEnd(Restarred(t, hits), out, at, w));
    GreedySplits(t', w.cp, 0, at);
    ShortSplitsCarry(t, t', w.cp, 0, at, e);
    GreedyReaches(t, w.cp, 0, at, e);
  }

  /** A list of harmless words, and words that never match, is stable. */
  lemma HarmlessListsAreStable(words: seq<Word>)
    requires forall w :: w in words ==> Harmless(w) || !Matchable(w)
    ensures StableOn(words)
  {
    forall t, text, hits, out | |t| == |text| && IsMasking(t, text, words, hits, out, |text|)
      ensures IsMasking(Restarred(t, hits), out, words, [], out, |out|)
    {
      SecondScanFindsNothing(t, text, words, hits, out);
    }
  }

  lemma SecondScanFindsNothing(t: seq<char>, text: seq<char>, words: seq<Word>, hits: seq<Hit>, out: seq<char>)
    requires forall w :: w in words ==> Harmless(w) || !Matchable(w)
    requires |t| == |text| && IsMasking(t, text, words, hits, out, |text|)
    ensures IsMasking(Restarred(t, hits), out, words, [], out, |out|)
  {
    var t' := Restarred(t, hits);
    forall k | 0 <= k < |out| && IsLetter(t'[k]) ensures NoMatch(t', SeenAt(out, out, k), words, k) {
      assert !Covered(hits, k) && t'[k] == t[k];
      assert NoMatch(t, SeenAt(text, out, k), words, k);
      forall w | w in words ensures MatchEnd(t', SeenAt(out, out, k), k, w) == 0 {
        if !Matchable(w) {
          UnmatchableIsSilent(t', SeenAt(out, out, k), k, w);
        } else if 0 < MatchEnd(t', SeenAt(out, out, k), k, w) {
          HarmlessMatchesBefore(t, hits, SeenAt(text, out, k), SeenAt(out, out, k), k, w);
        }
      }
    }
  }

  /**
   With such a list, and folding that leaves stars alone, masking a masked text gives the
   same text, whatever the text and however it folds otherwise.
  */
  lemma MaskingTwice(words: seq<Word>, fold: char -> char, text: seq<char>,
                     hits: seq<Hit>, out: seq<char>, hits': seq<Hit>, out': seq<char>)
    requires fold('*') == '*' && forall w :: w in words ==> Harmless(w) || !Matchable(w)
    requires IsMasking(Folded(text, fold), text, words, hits, out, |text|)
    requires IsMasking(Folded(out, fold), out, words, hits', out', |out|)
    ensures out' == out
  {
    assert Folded(out, fold) == Restarred(Folded(text, fold), hits);
    SecondScanFindsNothing(Folded(text, fold), text, words, hits, out);
    MaskingIsDetermined(Folded(out, fold), out, words, hits', out', [], out);
  }

  // What any other word does: beside one single letter, there is a text it breaks.

  /** A match reads as many characters as the word has letters, all of them letters of the word or separators. */
  lemma {:induction false} SplitsReads(t: seq<char>, w: seq<char>, j: nat, p: nat, e: nat)
    requires j <= |w| && Splits(t, w, j, p, e)
    ensures p + (|w| - j) <= e
    ensures j < |w| ==> e <= |t|
    ensures forall x :: p <= x < e && x < |t| ==> t[x] in w || IsSeparator(t[x])
    decreases |w| - j
  {
    if j < |w| {
      var q: nat, r: nat :| Gap(t, w, j, p, q) && Repeats(t, w, j, q, r) && Splits(t, w, j + 1, r, e);
      SplitsReads(t, w, j + 1, r, e);
    }
  }

  /** Where the rest of the word stands in the text, it splits. */
  lemma {:induction false} StandsSplits(t: seq<char>, w: seq<char>, j: nat, p: nat)
    requires j <= |w| && p + (|w| - j) <= |t| && forall x :: j <= x < |w| ==> t[p + (x - j)] == w[x]
    ensures Splits(t, w, j, p, p + (|w| - j))
    decreases |w| - j
  {
    if j < |w| {
      StandsSplits(t, w, j + 1, p + 1);
      assert t[p + (j - j)] == w[j];
      assert Gap(t, w, j, p, p) && Repeats(t, w, j, p, p + 1);
    }
  }

  /** One letter, anywhere. */
  function Single(c: char): Word {
    RawWord([c], true)
  }

  /** A letter that is foreign to the word stands once in a text hardly longer than the word. */
  ghost predicate Spoiled(t: seq<char>, w: Word, c: char, s: nat) {
    && IsLetter(c) && c !in w.cp
    && 1 <= s < |t| <= |w.cp| + 1
    && forall x :: 0 <= x < |t| ==> (t[x] == c <==> x == s)
  }

  /** A match of the word in a spoiled text would start at 0 and end by the foreign letter. */
  lemma {:induction false} SpoiledMatch(t: seq<char>, w: Word, c: char, s: nat, at: nat)
    requires Spoiled(t, w, c, s) && at <= |t| && Greedy(t, w.cp, 0, at).Some?
    ensures at == 0 && Greedy(t, w.cp, 0, at).value <= s && |w.cp| <= s
  {
    var e := Greedy(t, w.cp, 0, at).value;
    GreedySplits(t, w.cp, 0, at);
    SplitsReads(t, w.cp, 0, at, e);
    LetterIsNoSeparator(c);
    assert t[s] == c;
  }

  lemma LetterIsNoSeparator(c: char)
    ensures IsLetter(c) ==> !IsSeparator(c)
  {
  }

  lemma SingleEnd(t: seq<char>, seen: seq<char>, at: nat, c: char)
    requires at < |t|
    ensures t[at] != c ==> MatchEnd(t, seen, at, Single(c)) == 0
    ensures t[at] == c && (at + 1 < |t| ==> t[at + 1] != c) ==> MatchEnd(t, seen, at, Single(c)) == at + 1
  {
    assert at + 1 <= |t| && t[at] == c && (at + 1 < |t| ==> t[at + 1] != c) ==> SkipRun(t, at + 1, c) == at + 1;
    assert Greedy(t, [c], 1, at + 1) == Some(at + 1);
  }

  /** Masking a spoiled text stars the foreign letter and nothing else. */
  lemma SpoiledMasks(t: seq<char>, w: Word, c: char, s: nat)
    requires Spoiled(t, w, c, s) && MatchEnd(t, t, 0, w) == 0
    ensures IsMasking(t, t, [w, Single(c)], [Hit(s, s + 1)], t[s := '*'], |t|)
  {
    var (words, hits, out) := ([w, Single(c)], [Hit(s, s + 1)], t[s := '*']);
    forall k: nat ensures Covered(hits, k) <==> k == s { assert hits[0] in hits; }
    forall k: nat | k < |t| && k != s ensures NoMatch(t, SeenAt(t, out, k), words, k) {
      SingleEnd(t, SeenAt(t, out, k), k, c);
      if k == 0 {
        assert SeenAt(t, out, 0) == t;
      } else if Greedy(t, w.cp, 0, k).Some? {
        SpoiledMatch(t, w, c, s, k);
      }
    }
    SpoiledBest(t, w, c, s, SeenAt(t, out, s));
  }

  lemma SpoiledBest(t: seq<char>, w: Word, c: char, s: nat, seen: seq<char>)
    requires Spoiled(t, w, c, s)
    ensures Best(t, seen, [w, Single(c)], s, s + 1)
  {
    SingleEnd(t, seen, s, c);
    if Greedy(t, w.cp, 0, s).Some? {
      SpoiledMatch(t, w, c, s, s);
    }
    assert [w, Single(c)][1] in [w, Single(c)];
  }

  /** A text that breaks the word, spoiled by the foreign letter. */
  function BreakingText(w: Word, c: char): (seq<char>, nat)
    requires !Harmless(w) && IsLetter(w.cp[0])
  {
    if !w.anywhere then (w.cp + [c], |w.cp|)
    else if AllowsSeparators(w.cp) then ([w.cp[0], c] + w.cp[1..], 1)
    else
      var j := StarIn(w.cp);
      (w.cp[j := c], j)
  }

  function StarIn(w: seq<char>): (j: nat)
    requires '*' in w
    ensures j < |w| && w[j] == '*'
  {
    if w[0] == '*' then 0 else 1 + StarIn(w[1..])
  }

  lemma BreakingTextIsSpoiled(w: Word, c: char)
    requires Matchable(w) && !Harmless(w) && IsLetter(c) && c !in w.cp
    ensures var (t, s) := BreakingText(w, c); Spoiled(t, w, c, s) && t[0] == w.cp[0] && MatchEnd(t, t, 0, w) == 0
  {
    var (t, s) := BreakingText(w, c);
    if Greedy(t, w.cp, 0, 0).Some? {
      SpoiledMatch(t, w, c, s, 0);
      GreedySplits(t, w.cp, 0, 0);
      SplitsReads(t, w.cp, 0, 0, Greedy(t, w.cp, 0, 0).value);
    }
  }

  /** A long word matches across a star after its first letter. */
  lemma {:induction false} StarInsideSplits(w: seq<char>, t: seq<char>)
    requires AllowsSeparators(w) && t == [w[0], '*'] + w[1..]
    ensures Splits(t, w, 0, 0, |t|)
  {
    StandsSplits(t, w, 2, 3);
    assert Gap(t, w, 1, 1, 2) && Repeats(t, w, 1, 2, 3);
    assert Gap(t, w, 0, 0, 0) && Repeats(t, w, 0, 0, 1);
  }

  /** Once the foreign letter is a star, the word matches. */
  lemma BreakingTextBreaks(w: Word, c: char)
    requires Matchable(w) && !Harmless(w) && IsLetter(c) && c !in w.cp
    ensures var (t, s) := BreakingText(w, c); s < |t| && 0 < MatchEnd(t[s := '*'], t[s := '*'], 0, w)
  {
    var (t, s) := BreakingText(w, c);
    var t' := t[s := '*'];
    if w.anywhere && AllowsSeparators(w.cp) {
      StarInsideSplits(w.cp, t');
      GreedyReaches(t', w.cp, 0, 0, |t'|);
    } else {
      StandsSplits(t', w.cp, 0, 0);
      GreedyReaches(t', w.cp, 0, 0, |w.cp|);
    }
  }

  /** A text whose first letter starts a match has that letter starred. */
  lemma MatchIsStarred(t: seq<char>, words: seq<Word>, w: Word, hits: seq<Hit>, out: seq<char>)
    requires t != [] && IsLetter(t[0]) && w in words && 0 < MatchEnd(t, t, 0, w)
    requires IsMasking(t, t, words, hits, out, |t|)
    ensures out != t
  {
    hide MatchEnd;
    assert SeenAt(t, out, 0) == t;
    assert !NoMatch(t, SeenAt(t, out, 0), words, 0);
  }

  lemma OneStar(t: seq<char>, s: nat)
    requires s < |t|
    ensures Restarred(t, [Hit(s, s + 1)]) == t[s := '*']
  {
    var hits := [Hit(s, s + 1)];
    forall k: nat ensures Covered(hits, k) <==> k == s { assert hits[0] in hits; }
  }

  /**
   Beside one single foreign letter, a word that can match and is not harmless has a text
   whose masking is not the end of it: masking the result again always changes it.
  */
  lemma HarmfulBreaks(w: Word, c: char) returns (text: seq<char>, hits: seq<Hit>, out: seq<char>)
    requires Matchable(w) && !Harmless(w) && IsLetter(c) && c !in w.cp
    ensures IsMasking(text, text, [w, Single(c)], hits, out, |text|) && Restarred(text, hits) == out
    ensures forall hits', out' :: IsMasking(out, out, [w, Single(c)], hits', out', |out|) ==> out' != out
  {
    hide BreakingText, MatchEnd, Faithful, IsMasking, Best, NoMatch;
    var (t, s) := BreakingText(w, c);
    BreakingTextIsSpoiled(w, c);
    BreakingTextBreaks(w, c);
    text, hits, out := t, [Hit(s, s + 1)], t[s := '*'];
    SpoiledMasks(text, w, c, s);
    OneStar(text, s);
    assert out != [] && IsLetter(out[0]);
    hide *;
    assert [w, Single(c)][0] == w;
    forall hits', out' | IsMasking(out, out, [w, Single(c)], hits', out', |out|) ensures out' != out {
      MatchIsStarred(out, [w, Single(c)], w, hits', out');
    }
  }

  lemma NotStable(text: seq<char>, words: seq<Word>, hits: seq<Hit>, out: seq<char>)
    requires IsMasking(text, text, words, hits, out, |text|)
    requires !IsMasking(Restarred(text, hits), out, words, [], out, |out|)
    ensures !StableOn(words)
  {
    hide IsMasking, Restarred;
  }

  /**
   Which words masking twice is safe with: beside harmless words, a word leaves every list
   stable exactly when it is harmless itself or can never match. (The word must not use up
   every letter there is.)
  */
  lemma HarmlessExactly(w: Word, c: char)
    requires IsLetter(c) && c !in w.cp
    ensures Harmless(w) || !Matchable(w) <==>
            forall words :: (forall v :: v in words ==> v == w || Harmless(v)) ==> StableOn(words)
  {
    hide StableOn;
    if Harmless(w) || !Matchable(w) {
      forall words: seq<Word> | forall v :: v in words ==> v == w || Harmless(v) ensures StableOn(words) {
        HarmlessListsAreStable(words);
      }
    } else {
      var text, hits, out := HarmfulBreaks(w, c);
      assert Harmless(Single(c));
      NotStable(text, [w, Single(c)], hits, out);
      hide *;
      assert forall v :: v in [w, Single(c)] ==> v == w || v == Single(c);
    }
  }
}
