/** The bounded set of `game` labels on match-start metrics. */
module GameLabels {
  import opened Text

  const GAME_LABEL_MAX_LEN: nat := 48
  const OTHER: string := "other"
  const UNKNOWN: string := "unknown"

  // ----- normalising a name -----

  predicate IsDigit(c: char) { '0' <= c <= '9' }

  predicate IsLower(c: char) { 'a' <= c <= 'z' }

  predicate IsUpper(c: char) { 'A' <= c <= 'Z' }

  predicate IsPunctuation(c: char) { c == '.' || c == '-' || c == '_' }

  predicate LabelChar(c: char) { IsDigit(c) || IsLower(c) || IsPunctuation(c) }

  function Lower(c: char): char {
    if IsUpper(c) then c + 32 as char else c
  }

  function MapChar(c: char): (r: char)
    ensures LabelChar(r)
    ensures LabelChar(c) ==> r == c
  {
    if IsDigit(c) || IsLower(c) || IsUpper(c) then Lower(c) else if IsPunctuation(c) then c else '_'
  }

  /** A separator that would start the label or repeat the one before it. */
  predicate Redundant(out: string, c: char) {
    c == '_' && (out == [] || out[|out| - 1] == '_')
  }

  function Scan(s: string, out: string): string {
    if s == [] || GAME_LABEL_MAX_LEN <= |out| then out
    else
      var c := MapChar(s[0]);
      Scan(s[1..], if Redundant(out, c) then out else out + [c])
  }

  function Strip(out: string): string {
    if out != [] && IsPunctuation(out[|out| - 1]) then Strip(out[..|out| - 1]) else out
  }

  function Normalize(raw: string): string {
    Strip(Scan(Trim(raw), []))
  }

  /** The normaliser as written: one pass with a previous-separator flag, then trailing pops. */
  method NormalizeGame(raw: string) returns (out: string)
    ensures out == Normalize(raw)
  {
    var scanned := ScanName(Trim(raw));
    out := PopPunctuation(scanned);
  }

  method ScanName(s: string) returns (out: string)
    ensures out == Scan(s, [])
  {
    out := [];
    var prevSep := false;
    var i := 0;
    ghost var goal := Scan(s, []);
    assert s[0..] == s;
    while i < |s|
      invariant i <= |s|
      invariant prevSep <==> out != [] && out[|out| - 1] == '_'
      invariant goal == Scan(s[i..], out)
    {
      if GAME_LABEL_MAX_LEN <= |out| {
        return;
      }
      var c := MapChar(s[i]);
      assert s[i..][1..] == s[i + 1..];
      i := i + 1;
      if c == '_' {
        if prevSep || out == [] {
          continue;
        }
        prevSep := true;
      } else {
        prevSep := false;
      }
      out := out + [c];
    }
  }

  method PopPunctuation(s: string) returns (out: string)
    ensures out == Strip(s)
  {
    out := s;
    while out != [] && IsPunctuation(out[|out| - 1])
      invariant Strip(out) == Strip(s)
    {
      out := out[..|out| - 1];
    }
  }

  /** Label characters only, within the length, not starting with '_' and never '__'. */
  ghost predicate Tidy(s: string) {
    && |s| <= GAME_LABEL_MAX_LEN
    && (forall k :: 0 <= k < |s| ==> LabelChar(s[k]))
    && (s != [] ==> s[0] != '_')
    && (forall k :: 0 < k < |s| ==> !(s[k - 1] == '_' && s[k] == '_'))
  }

  /** Tidy, and not ending in punctuation. */
  ghost predicate Normal(s: string) {
    Tidy(s) && (s != [] ==> !IsPunctuation(s[|s| - 1]))
  }

  lemma {:induction false} ScanIsTidy(s: string, out: string)
    requires Tidy(out)
    ensures Tidy(Scan(s, out))
    decreases |s|
  {
    if s != [] && |out| < GAME_LABEL_MAX_LEN {
      var c := MapChar(s[0]);
      ScanIsTidy(s[1..], if Redundant(out, c) then out else out + [c]);
    }
  }

  lemma {:induction false} StripIsNormal(out: string)
    requires Tidy(out)
    ensures Normal(Strip(out))
    decreases |out|
  {
    if out != [] && IsPunctuation(out[|out| - 1]) {
      StripIsNormal(out[..|out| - 1]);
    }
  }

  lemma {:induction false} ScanKeepsNormal(s: string, k: nat)
    requires Tidy(s) && k <= |s|
    ensures Scan(s[k..], s[..k]) == s
    decreases |s| - k
  {
    if k < |s| {
      assert s[k..][0] == s[k] && s[k..][1..] == s[k + 1..];
      assert !Redundant(s[..k], s[k]);
      assert s[..k] + [s[k]] == s[..k + 1];
      ScanKeepsNormal(s, k + 1);
    } else {
      assert s[..k] == s;
    }
  }

  /** The labels are exactly the names that normalising leaves alone, so normalising twice changes nothing. */
  lemma NormalizeIsIdempotent(raw: string)
    ensures Normal(Normalize(raw))
    ensures Normalize(raw) == raw <==> Normal(raw)
    ensures Normalize(Normalize(raw)) == Normalize(raw)
  {
    ScanIsTidy(Trim(raw), []);
    StripIsNormal(Scan(Trim(raw), []));
    NormalIsFixed(Normalize(raw));
    if Normal(raw) {
      NormalIsFixed(raw);
    }
  }

  lemma NormalIsFixed(s: string)
    requires Normal(s)
    ensures Normalize(s) == s
  {
    if s != [] {
      assert LabelChar(s[0]) && LabelChar(s[|s| - 1]);
    }
    TrimFixed(s);
    ScanKeepsNormal(s, 0);
    assert s[0..] == s && s[..0] == [];
  }

  // ----- what a label says of the name -----

  /** The letters and digits of a name, in lower case. */
  function Alnums(s: string): string {
    if s == [] then []
    else
      var c := s[|s| - 1];
      Alnums(s[..|s| - 1])
      + (if '0' <= c <= '9' || 'a' <= c <= 'z' then [c] else if 'A' <= c <= 'Z' then [c + 32 as char] else [])
  }

  lemma {:induction false} AlnumsAppend(x: string, y: string)
    ensures Alnums(x + y) == Alnums(x) + Alnums(y)
    decreases |y|
  {
    if y == [] {
      assert x + y == x;
    } else {
      AlnumsAppend(x, y[..|y| - 1]);
      assert (x + y)[..|x + y| - 1] == x + y[..|y| - 1];
    }
  }

  lemma AlnumOfOne(c: char)
    ensures Alnums([c]) == if '0' <= c <= '9' || 'a' <= c <= 'z' then [c]
                           else if 'A' <= c <= 'Z' then [c + 32 as char] else []
    ensures Alnums([MapChar(c)]) == Alnums([c])
    ensures MapChar(c) == '_' ==> Alnums([c]) == []
  {
    assert [c][..0] == [] && [MapChar(c)][..0] == [];
  }

  /** One character more: what the scan does with it keeps it if it is a letter or digit. */
  lemma NextAlnums(out: string, c: char)
    ensures Alnums(if Redundant(out, MapChar(c)) then out else out + [MapChar(c)]) == Alnums(out) + Alnums([c])
  {
    AlnumsAppend(out, [MapChar(c)]);
    AlnumOfOne(c);
    hide Alnums, MapChar;
  }

  lemma {:induction false} AlnumsCons(s: string)
    requires s != []
    ensures Alnums(s) == Alnums([s[0]]) + Alnums(s[1..])
  {
    assert s == [s[0]] + s[1..];
    AlnumsAppend([s[0]], s[1..]);
  }

  lemma PrefixGrows(x: string, o: string, a: string, b: string)
    ensures x <= (o + a) + b <==> x <= o + (a + b)
    ensures x == (o + a) + b <==> x == o + (a + b)
  {
    assert (o + a) + b == o + (a + b);
  }

  /** A scan that is not cut short keeps every letter and digit; a longer one keeps the first of them. */
  lemma {:induction false} ScanKeepsAlnums(s: string, out: string)
    ensures Alnums(Scan(s, out)) <= Alnums(out) + Alnums(s)
    ensures |out| + |s| <= 48 ==> Alnums(Scan(s, out)) == Alnums(out) + Alnums(s)
    decreases |s|
  {
    if s == [] || GAME_LABEL_MAX_LEN <= |out| {
      ScanStops(s, out);
      assert Alnums([]) == [];
      hide Alnums, Scan;
    } else {
      var next := if Redundant(out, MapChar(s[0])) then out else out + [MapChar(s[0])];
      assert Scan(s, out) == Scan(s[1..], next);
      NextAlnums(out, s[0]);
      AlnumsCons(s);
      ScanKeepsAlnums(s[1..], next);
      PrefixGrows(Alnums(Scan(s, out)), Alnums(out), Alnums([s[0]]), Alnums(s[1..]));
      hide Alnums, Scan, MapChar;
    }
  }

  lemma {:induction false} ScanStops(s: string, out: string)
    requires s == [] || GAME_LABEL_MAX_LEN <= |out|
    ensures Scan(s, out) == out
  {
  }

  lemma {:induction false} StripKeepsAlnums(out: string)
    ensures Alnums(Strip(out)) == Alnums(out)
    decreases |out|
  {
    if out != [] && IsPunctuation(out[|out| - 1]) {
      StripKeepsAlnums(out[..|out| - 1]);
    }
  }

  lemma {:induction false} TrimKeepsAlnums(s: string)
    ensures Alnums(Trim(s)) == Alnums(s)
  {
    TrimStartKeepsAlnums(s);
    TrimEndKeepsAlnums(TrimStart(s));
  }

  lemma {:induction false} TrimStartKeepsAlnums(s: string)
    ensures Alnums(TrimStart(s)) == Alnums(s)
    decreases |s|
  {
    if s != [] && IsWhitespace(s[0]) {
      TrimStartKeepsAlnums(s[1..]);
      assert s == [s[0]] + s[1..];
      AlnumsAppend([s[0]], s[1..]);
      AlnumOfOne(s[0]);
    }
  }

  lemma {:induction false} TrimEndKeepsAlnums(s: string)
    ensures Alnums(TrimEnd(s)) == Alnums(s)
    decreases |s|
  {
    if s != [] && IsWhitespace(s[|s| - 1]) {
      TrimEndKeepsAlnums(s[..|s| - 1]);
    }
  }

  /**
   A label spells the name's letters and digits, in order and in lower case: all of them
   when the trimmed name has at most 48 characters, else the first of them.
  */
  lemma {:induction false} LabelsSpellTheName(raw: string)
    ensures Alnums(Normalize(raw)) <= Alnums(raw)
    ensures |Trim(raw)| <= 48 ==> Alnums(Normalize(raw)) == Alnums(raw)
  {
    TrimKeepsAlnums(raw);
    ScanKeepsAlnums(Trim(raw), []);
    StripKeepsAlnums(Scan(Trim(raw), []));
  }

  // ----- the label set -----

  datatype Labels = Labels(strict: bool, limit: nat, known: map<string, string>)

  function Learn(known: map<string, string>, name: string): map<string, string> {
    if name == "" || name in known then known else known[name := name]
  }

  function Seed(allowlist: seq<string>): map<string, string> {
    if allowlist == [] then map[]
    else Learn(Seed(allowlist[..|allowlist| - 1]), Normalize(allowlist[|allowlist| - 1]))
  }

  function Init(allowlist: seq<string>, limit: nat): Labels {
    Labels(allowlist != [], if limit < 1 then 1 else limit, Seed(allowlist))
  }

  /** The label of a name, and the set after the look-up. */
  function Label(g: Labels, raw: string): (Labels, string) {
    var name := Normalize(raw);
    if name == "" then (g, UNKNOWN)
    else if name in g.known then (g, g.known[name])
    else if g.strict || g.limit <= |g.known| then (g, OTHER)
    else (g.(known := g.known[name := name]), name)
  }

  class LabelSet {
    var strict: bool
    var limit: nat
    var known: map<string, string>

    function View(): Labels
      reads this
    {
      Labels(strict, limit, known)
    }

    method InitGameLabels(allowlist: seq<string>, newLimit: nat)
      modifies this
      ensures View() == Init(allowlist, newLimit)
    {
      limit := if newLimit < 1 then 1 else newLimit;
      strict := allowlist != [];
      known := map[];
      for i := 0 to |allowlist|
        invariant limit == if newLimit < 1 then 1 else newLimit
        invariant strict == (allowlist != []) && known == Seed(allowlist[..i])
      {
        assert allowlist[..i + 1][..i] == allowlist[..i];
        var name := NormalizeGame(allowlist[i]);
        if name == "" || name in known {
          continue;
        }
        known := known[name := name];
      }
      assert allowlist[..|allowlist|] == allowlist;
    }

    method GameLabel(raw: string) returns (tag: string)
      modifies this
      ensures (View(), tag) == Label(old(View()), raw)
    {
      var name := NormalizeGame(raw);
      if name == "" {
        return UNKNOWN;
      }
      if name in known {
        return known[name];
      }
      if strict || limit <= |known| {
        return OTHER;
      }
      known := known[name := name];
      return name;
    }
  }

  // ----- runs of look-ups -----

  function After(g: Labels, raws: seq<string>): Labels {
    if raws == [] then g else Label(After(g, raws[..|raws| - 1]), raws[|raws| - 1]).0
  }

  /** The label look-up number `k` returned. */
  function LabelAt(g: Labels, raws: seq<string>, k: nat): string
    requires k < |raws|
  {
    Label(After(g, raws[..k]), raws[k]).1
  }

  /** What a first look-up settles about a name. */
  predicate Settled(g: Labels, name: string, tag: string) {
    if name == "" then tag == UNKNOWN
    else if name in g.known then tag == g.known[name]
    else tag == OTHER && (g.strict || g.limit <= |g.known|)
  }

  lemma SettledStays(g: Labels, name: string, tag: string, raw: string)
    requires Settled(g, name, tag)
    ensures Settled(Label(g, raw).0, name, tag)
    ensures Normalize(raw) == name ==> Label(g, raw).1 == tag
  {
  }

  lemma {:induction false} SettledLater(g: Labels, raws: seq<string>, i: nat, j: nat)
    requires i < j <= |raws|
    ensures Settled(After(g, raws[..j]), Normalize(raws[i]), LabelAt(g, raws, i))
    decreases j - i
  {
    assert raws[..j][..j - 1] == raws[..j - 1];
    if i + 1 < j {
      SettledLater(g, raws, i, j - 1);
      SettledStays(After(g, raws[..j - 1]), Normalize(raws[i]), LabelAt(g, raws, i), raws[j - 1]);
    }
  }

  /** Between inits a name's label never changes after its first look-up. */
  lemma LabelsAreStable(g: Labels, raws: seq<string>, i: nat, j: nat)
    requires i <= j < |raws| && Normalize(raws[i]) == Normalize(raws[j])
    ensures LabelAt(g, raws, i) == LabelAt(g, raws, j)
  {
    if i < j {
      SettledLater(g, raws, i, j);
      SettledStays(After(g, raws[..j]), Normalize(raws[i]), LabelAt(g, raws, i), raws[j]);
    }
  }

  /** Labels are the names themselves, and an open set is within its limit. */
  ghost predicate Sound(g: Labels) {
    (forall n :: n in g.known ==> g.known[n] == n) && (!g.strict ==> |g.known| <= g.limit)
  }

  predicate Grows(g: Labels, g': Labels) {
    g.known.Keys <= g'.known.Keys && g'.strict == g.strict && g'.limit == g.limit
  }

  lemma LookupIsSound(g: Labels, raw: string)
    requires Sound(g)
    ensures var (g', tag) := Label(g, raw);
            Sound(g') && Grows(g, g') && tag in g'.known.Keys + {OTHER, UNKNOWN}
  {
  }

  lemma {:induction false} RunIsSound(g: Labels, raws: seq<string>, j: nat)
    requires Sound(g) && j <= |raws|
    ensures Sound(After(g, raws)) && Grows(g, After(g, raws)) && Grows(After(g, raws[..j]), After(g, raws))
    decreases |raws|
  {
    if j < |raws| {
      var before := raws[..|raws| - 1];
      RunIsSound(g, before, j);
      assert before[..j] == raws[..j];
      LookupIsSound(After(g, before), raws[|raws| - 1]);
    } else {
      assert raws[..j] == raws;
      if raws != [] {
        var before := raws[..|raws| - 1];
        RunIsSound(g, before, 0);
        LookupIsSound(After(g, before), raws[|raws| - 1]);
      }
    }
  }

  lemma {:induction false} SubsetSize<T>(a: set<T>, b: set<T>)
    requires a <= b
    ensures |a| <= |b|
    decreases |b|
  {
    if a != {} {
      var x :| x in a;
      SubsetSize(a - {x}, b - {x});
    }
  }

  lemma {:induction false} LabelIsKnown(g: Labels, raws: seq<string>, k: nat)
    requires Sound(g) && k < |raws|
    ensures LabelAt(g, raws, k) in After(g, raws).known.Keys + {OTHER, UNKNOWN}
  {
    RunIsSound(g, raws, k + 1);
    RunIsSound(g, raws[..k], 0);
    LookupIsSound(After(g, raws[..k]), raws[k]);
    assert raws[..k + 1][..k] == raws[..k];
  }

  /** Every label a run of look-ups handed out. */
  function LabelsUsed(g: Labels, raws: seq<string>): set<string> {
    set k | 0 <= k < |raws| :: LabelAt(g, raws, k)
  }

  /** However many names clients invent, an open set hands out at most `limit` labels besides the two fold targets. */
  lemma LabelsAreBounded(limit: nat, raws: seq<string>)
    ensures |LabelsUsed(Init([], limit), raws)| <= (if limit < 1 then 1 else limit) + 2
  {
    var g := Init([], limit);
    var (known, folds) := (After(g, raws).known.Keys, {OTHER, UNKNOWN});
    RunIsSound(g, raws, 0);
    forall tag | tag in LabelsUsed(g, raws) ensures tag in known + folds {
      var k :| 0 <= k < |raws| && tag == LabelAt(g, raws, k);
      LabelIsKnown(g, raws, k);
    }
    SubsetSize(LabelsUsed(g, raws), known + folds);
    assert |known + folds| <= |known| + |folds|;
  }

  /** The labels asked for so far. */
  function Asked(raws: seq<string>): set<string> {
    set k | 0 <= k < |raws| :: Normalize(raws[k])
  }

  lemma AskedSnoc(raws: seq<string>)
    requires raws != []
    ensures Asked(raws) == Asked(raws[..|raws| - 1]) + {Normalize(raws[|raws| - 1])}
  {
    var front := raws[..|raws| - 1];
    hide Normalize;
    forall n | n in Asked(front) ensures n in Asked(raws) {
      var k :| 0 <= k < |front| && n == Normalize(front[k]);
      assert n == Normalize(raws[k]);
    }
    forall n | n in Asked(raws) ensures n in Asked(front) + {Normalize(raws[|raws| - 1])} {
      var k :| 0 <= k < |raws| && n == Normalize(raws[k]);
      assert k < |front| ==> n == Normalize(front[k]);
    }
  }

  lemma LookupLearnsTheName(g: Labels, raw: string)
    ensures var g' := Label(g, raw).0;
            && g'.known.Keys <= g.known.Keys + {Normalize(raw)} && g'.strict == g.strict && g'.limit == g.limit
            && ((forall n :: n in g.known ==> g.known[n] == n) ==> forall n :: n in g'.known ==> g'.known[n] == n)
  {
  }

  lemma {:induction false} KnownWereAsked(limit: nat, raws: seq<string>)
    ensures var g := After(Init([], limit), raws);
            g.known.Keys <= Asked(raws) && (forall n :: n in g.known ==> g.known[n] == n)
            && !g.strict && g.limit == if limit < 1 then 1 else limit
    decreases |raws|
  {
    if raws != [] {
      KnownWereAsked(limit, raws[..|raws| - 1]);
      AskedSnoc(raws);
      LookupLearnsTheName(After(Init([], limit), raws[..|raws| - 1]), raws[|raws| - 1]);
      hide Normalize, Asked, Label, Init;
    }
  }

  /** With no allow-list a name is its own label as long as fewer names than the limit were asked for before. */
  lemma FirstNamesKeepTheirOwn(limit: nat, raws: seq<string>, k: nat)
    requires k < |raws| && |Asked(raws[..k])| < limit
    ensures LabelAt(Init([], limit), raws, k) == if Normalize(raws[k]) == "" then "unknown" else Normalize(raws[k])
  {
    KnownWereAsked(limit, raws[..k]);
    var g := After(Init([], limit), raws[..k]);
    SubsetSize(g.known.Keys, Asked(raws[..k]));
    assert |g.known| == |g.known.Keys|;
    hide Normalize, Asked;
  }

  /** Some entry of the allow-list spells this label. */
  ghost predicate Listed(allowlist: seq<string>, name: string) {
    exists i :: 0 <= i < |allowlist| && Normalize(allowlist[i]) == name
  }

  lemma ListedSnoc(allowlist: seq<string>, name: string)
    requires allowlist != []
    ensures var n := |allowlist| - 1;
            Listed(allowlist, name) <==> Listed(allowlist[..n], name) || Normalize(allowlist[n]) == name
  {
    hide Normalize;
    var front := allowlist[..|allowlist| - 1];
    if i :| 0 <= i < |front| && Normalize(front[i]) == name {
      assert Normalize(allowlist[i]) == name;
    }
    if i :| 0 <= i < |allowlist| && Normalize(allowlist[i]) == name {
      assert i < |front| ==> Normalize(front[i]) == name;
    }
  }

  lemma {:induction false} SeedIsTheList(allowlist: seq<string>, name: string)
    ensures name in Seed(allowlist) <==> name != "" && Listed(allowlist, name)
    ensures name in Seed(allowlist) ==> Seed(allowlist)[name] == name
  {
    if allowlist != [] {
      SeedIsTheList(allowlist[..|allowlist| - 1], name);
      ListedSnoc(allowlist, name);
    }
    assert allowlist == [] ==> !Listed(allowlist, name);
    hide Normalize, Listed;
  }

  lemma {:induction false} StrictNeverLearns(g: Labels, raws: seq<string>)
    requires g.strict
    ensures After(g, raws) == g
  {
    if raws != [] {
      StrictNeverLearns(g, raws[..|raws| - 1]);
    }
  }

  /**
   Under an allow-list the labels are exactly the listed ones: a name listed in any
   spelling keeps its own label, every other name is folded, whatever was looked up before.
  */
  lemma StrictLabelsAreListed(allowlist: seq<string>, limit: nat, raws: seq<string>, k: nat)
    requires allowlist != [] && k < |raws|
    ensures var name := Normalize(raws[k]);
            LabelAt(Init(allowlist, limit), raws, k) ==
              if name == "" then UNKNOWN
              else if Listed(allowlist, name) then name
              else OTHER
  {
    StrictNeverLearns(Init(allowlist, limit), raws[..k]);
    SeedIsTheList(allowlist, Normalize(raws[k]));
  }
}
