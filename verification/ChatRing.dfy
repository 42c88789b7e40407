/**
 The bounded ring of relayed chat lines, and the lookup a report makes in it.

 `log` is history: every line ever relayed. The ring is proved to be its tail.
 */
module ChatRing {
  import opened Lists
  import Text
  import opened Wrappers

  const CHAT_RING_MAX: nat := 1000
  const CHAT_CONTEXT_LINES: nat := 6

  /** What was said, by whom, and where. */
  datatype Post = Post(
    fromAccount: string, fromName: string, text: string, scope: string, lobbyId: string, gameName: string)

  datatype ChatLine = ChatLine(id: string, post: Post)

  const HEX_DIGITS: string := "0123456789abcdef"

  /** A number in lower-case hexadecimal, with no padding. */
  function Hex(n: nat): (s: string)
    ensures |s| > 0
  {
    (if n < 16 then "" else Hex(n / 16)) + [HEX_DIGITS[n % 16]]
  }

  lemma DigitsDiffer(a: nat, b: nat)
    requires a < 16 && b < 16 && HEX_DIGITS[a] == HEX_DIGITS[b]
    ensures a == b
  {
  }

  lemma {:induction false} HexInjective(m: nat, n: nat)
    requires Hex(m) == Hex(n)
    ensures m == n
    decreases m + n
  {
    var (front, front') := (if m < 16 then "" else Hex(m / 16), if n < 16 then "" else Hex(n / 16));
    Text.SplitLast(front, HEX_DIGITS[m % 16], front', HEX_DIGITS[n % 16]);
    DigitsDiffer(m % 16, n % 16);
    if 16 <= m && 16 <= n {
      HexInjective(m / 16, n / 16);
    }
  }

  predicate SameRoom(x: ChatLine, y: ChatLine) {
    x.post.scope == y.post.scope && x.post.lobbyId == y.post.lobbyId
  }

  function Quote(l: ChatLine): string {
    l.post.fromName + ": " + l.post.text
  }

  function Join(parts: seq<string>, sep: string): string {
    if |parts| == 0 then "" else if |parts| == 1 then parts[0] else parts[0] + sep + Join(parts[1..], sep)
  }

  /** The lines of one room among these, quoted one per line of text. */
  function Transcript(lines: seq<ChatLine>, room: ChatLine): string {
    Join(MapSeq(Filter(lines, (l: ChatLine) => SameRoom(l, room)), Quote), "\n")
  }

  function FirstKept(log: seq<ChatLine>): nat {
    if |log| <= CHAT_RING_MAX then 0 else |log| - CHAT_RING_MAX
  }

  /** Line number `n` of the log, counting from one, is still in the ring. */
  predicate StillHeld(log: seq<ChatLine>, n: nat) {
    FirstKept(log) < n <= |log|
  }

  /** The lines a report of line `n` looks at: those held among the six before it. */
  function Window(log: seq<ChatLine>, n: nat): (w: seq<ChatLine>)
    requires StillHeld(log, n)
    ensures |w| <= CHAT_CONTEXT_LINES
  {
    var at := n - 1;
    log[if at - CHAT_CONTEXT_LINES < FirstKept(log) then FirstKept(log) else at - CHAT_CONTEXT_LINES..at]
  }

  /** What a report of line `n` finds: the line, and its room's lines in the window. */
  function Evidence(log: seq<ChatLine>, n: nat): (ChatLine, string)
    requires StillHeld(log, n)
  {
    (log[n - 1], Transcript(Window(log, n), log[n - 1]))
  }

  ghost predicate Numbered(log: seq<ChatLine>) {
    forall k :: 0 <= k < |log| ==> log[k].id == Hex(k + 1)
  }

  /** No line carries the next number yet. */
  lemma {:induction false} NextIdIsFree(log: seq<ChatLine>)
    requires Numbered(log)
    ensures forall k :: 0 <= k < |log| ==> log[k].id != Hex(|log| + 1)
  {
    forall k | 0 <= k < |log| ensures log[k].id != Hex(|log| + 1) {
      if log[k].id == Hex(|log| + 1) {
        HexInjective(k + 1, |log| + 1);
      }
    }
  }

  lemma {:induction false} NumberedSnoc(log: seq<ChatLine>, line: ChatLine)
    requires Numbered(log) && line.id == Hex(|log| + 1)
    ensures Numbered(log + [line])
  {
  }

  /** These lines are a tail of the log, and as long as the bound if they are not all of it. */
  ghost predicate TailOf(lines: seq<ChatLine>, log: seq<ChatLine>) {
    |lines| <= |log| && lines == log[|log| - |lines|..] && (|lines| < CHAT_RING_MAX ==> |lines| == |log|)
  }

  lemma TailSnoc(lines: seq<ChatLine>, log: seq<ChatLine>, line: ChatLine)
    requires TailOf(lines, log)
    ensures TailOf(lines + [line], log + [line])
  {
  }

  /** Cut to the bound, such a tail is what the ring keeps. */
  lemma TailWithinBound(lines: seq<ChatLine>, log: seq<ChatLine>)
    requires |lines| <= CHAT_RING_MAX
    ensures TailOf(lines, log) <==> lines == log[FirstKept(log)..]
  {
  }

  /** Where the ring starts to look for context before position `at`. */
  function ContextStart(at: nat): nat {
    if at < CHAT_CONTEXT_LINES then 0 else at - CHAT_CONTEXT_LINES
  }

  /** Looking in the ring finds what looking in the log would. */
  lemma RingEvidence(log: seq<ChatLine>, at: nat)
    requires FirstKept(log) + at < |log|
    ensures var lines := log[FirstKept(log)..];
            Evidence(log, FirstKept(log) + at + 1) == (lines[at], Transcript(lines[ContextStart(at)..at], lines[at]))
  {
    var first := FirstKept(log);
    assert log[first + ContextStart(at)..first + at] == log[first..][ContextStart(at)..at];
  }

  lemma NobodyHeld(log: seq<ChatLine>, messageId: string)
    requires Numbered(log)
    requires var lines := log[FirstKept(log)..]; forall k :: 0 <= k < |lines| ==> lines[k].id != messageId
    ensures forall n :: StillHeld(log, n) ==> Hex(n) != messageId
  {
    forall n: nat | StillHeld(log, n) ensures Hex(n) != messageId {
      var k: nat := n - 1 - FirstKept(log);
      assert log[FirstKept(log)..][k] == log[n - 1];
    }
  }

  lemma {:induction false} FoundIsTheOne(log: seq<ChatLine>, at: nat, messageId: string)
    requires Numbered(log) && FirstKept(log) + at < |log| && log[FirstKept(log)..][at].id == messageId
    ensures Hex(FirstKept(log) + at + 1) == messageId
    ensures forall n :: StillHeld(log, n) && Hex(n) == messageId ==> n == FirstKept(log) + at + 1
  {
    forall n | StillHeld(log, n) && Hex(n) == messageId ensures n == FirstKept(log) + at + 1 {
      HexInjective(n, FirstKept(log) + at + 1);
    }
  }

  class Ring {
    var lines: seq<ChatLine>
    var nextId: nat
    ghost var log: seq<ChatLine>

    /** The ring is the tail of the log, and line `n` carries the number `n` in hexadecimal. */
    ghost predicate Valid()
      reads this
    {
      && lines == log[FirstKept(log)..]
      && nextId == |log| + 1
      && Numbered(log)
    }

    constructor ()
      ensures Valid() && log == []
    {
      lines, nextId, log := [], 1, [];
    }

    method Remember(post: Post) returns (id: string)
      requires Valid()
      modifies this
      ensures Valid()
      ensures id == Hex(|log|)
      ensures log == old(log) + [ChatLine(id, post)]
    {
      id := Hex(nextId);
      nextId := nextId + 1;
      var line := ChatLine(id, post);
      NumberedSnoc(log, line);
      TailWithinBound(lines, log);
      TailSnoc(lines, log, line);
      lines := lines + [line];
      log := log + [line];
      Trim();
    }

    /** Drop the oldest lines until the ring is within its bound. */
    method Trim()
      requires TailOf(lines, log)
      modifies this`lines
      ensures lines == log[FirstKept(log)..]
    {
      while CHAT_RING_MAX < |lines|
        invariant TailOf(lines, log)
        decreases |lines|
      {
        lines := lines[1..];
      }
      TailWithinBound(lines, log);
    }

    /** A report finds exactly the line of that number, while the ring still holds it. */
    method ChatWithContext(messageId: string) returns (r: Option<(ChatLine, string)>)
      requires Valid()
      ensures r.None? <==> forall n :: StillHeld(log, n) ==> Hex(n) != messageId
      ensures forall n :: StillHeld(log, n) && Hex(n) == messageId ==> r == Some(Evidence(log, n))
    {
      hide Hex, Transcript, Evidence;
      var at := Position(messageId);
      if at == |lines| {
        NobodyHeld(log, messageId);
        return None;
      }
      r := Some((lines[at], Transcript(lines[ContextStart(at)..at], lines[at])));
      RingEvidence(log, at);
      FoundIsTheOne(log, at, messageId);
      assert StillHeld(log, FirstKept(log) + at + 1);
    }

    method Position(messageId: string) returns (at: nat)
      ensures at <= |lines|
      ensures forall k :: 0 <= k < at ==> lines[k].id != messageId
      ensures at < |lines| ==> lines[at].id == messageId
    {
      at := 0;
      while at < |lines| && lines[at].id != messageId
        invariant at <= |lines|
        invariant forall k :: 0 <= k < at ==> lines[k].id != messageId
      {
        at := at + 1;
      }
    }
  }

  /** Line number `k` is one of the six before line `n`, is still held, and was said in the same room. */
  predicate Belongs(log: seq<ChatLine>, n: nat, k: nat) {
    && 1 <= k < n <= |log| && n <= k + 6 && |log| < k + 1000
    && log[k - 1].post.scope == log[n - 1].post.scope && log[k - 1].post.lobbyId == log[n - 1].post.lobbyId
  }

  /** These are the lines that belong, in the order they were said, each once. */
  ghost predicate AreTheBelonging(log: seq<ChatLine>, n: nat, at: seq<nat>) {
    && (forall i, j :: 0 <= i < j < |at| ==> at[i] < at[j])
    && forall k: nat :: k in at <==> Belongs(log, n, k)
  }

  /** The lines of these numbers, each with who said it. */
  function Sayings(log: seq<ChatLine>, at: seq<nat>): seq<string>
    requires forall i :: 0 <= i < |at| ==> 1 <= at[i] <= |log|
  {
    if at == [] then []
    else [log[at[0] - 1].post.fromName + ": " + log[at[0] - 1].post.text] + Sayings(log, at[1..])
  }

  /** The numbers from `from` up to, not including, `n` of the lines that belong. */
  function BelongingFrom(log: seq<ChatLine>, n: nat, from: nat): (at: seq<nat>)
    ensures forall i :: 0 <= i < |at| ==> 1 <= at[i] <= |log|
    decreases n - from
  {
    if n <= from then []
    else
      var rest := BelongingFrom(log, n, from + 1);
      if Belongs(log, n, from) then [from] + rest else rest
  }

  lemma {:induction false} BelongingAre(log: seq<ChatLine>, n: nat, from: nat)
    ensures var at := BelongingFrom(log, n, from);
            && (forall k: nat :: k in at <==> from <= k < n && Belongs(log, n, k))
            && (forall i, j :: 0 <= i < j < |at| ==> at[i] < at[j])
    decreases n - from
  {
    hide Belongs;
    if from < n {
      BelongingAre(log, n, from + 1);
      var (at, rest) := (BelongingFrom(log, n, from), BelongingFrom(log, n, from + 1));
      assert at == if Belongs(log, n, from) then [from] + rest else rest;
      hide BelongingFrom;
      forall i | 0 <= i < |rest| ensures from < rest[i] {
        assert rest[i] in rest;
      }
    }
  }

  lemma {:induction false} QuoteCons(x: ChatLine, lines: seq<ChatLine>, keep: ChatLine -> bool)
    ensures MapSeq(Filter([x] + lines, keep), Quote)
            == (if keep(x) then [Quote(x)] else []) + MapSeq(Filter(lines, keep), Quote)
  {
    assert ([x] + lines)[1..] == lines;
    if keep(x) {
      assert Filter([x] + lines, keep) == [x] + Filter(lines, keep);
      MapAppend([x], Filter(lines, keep), Quote);
      assert MapSeq([x], Quote) == [Quote(x)];
    }
  }

  lemma SayingsStep(log: seq<ChatLine>, n: nat, from: nat)
    requires 1 <= from < n <= |log| && n <= from + 6 && |log| < from + 1000
    ensures Sayings(log, BelongingFrom(log, n, from))
            == (if SameRoom(log[from - 1], log[n - 1]) then [Quote(log[from - 1])] else [])
               + Sayings(log, BelongingFrom(log, n, from + 1))
  {
    var rest := BelongingFrom(log, n, from + 1);
    if Belongs(log, n, from) {
      assert ([from] + rest)[1..] == rest;
    }
  }

  /** Of the window's lines from number `from` on, a transcript quotes those that belong. */
  lemma {:induction false} QuotesBelonging(log: seq<ChatLine>, n: nat, from: nat)
    requires 1 <= from <= n <= |log| && n <= from + 6 && |log| < from + 1000
    ensures MapSeq(Filter(log[from - 1..n - 1], (l: ChatLine) => SameRoom(l, log[n - 1])), Quote)
            == Sayings(log, BelongingFrom(log, n, from))
    decreases n - from
  {
    hide SameRoom, Quote, Belongs;
    if from < n {
      hide Filter, MapSeq, Sayings, BelongingFrom;
      QuotesBelonging(log, n, from + 1);
      SayingsStep(log, n, from);
      assert log[from - 1..n - 1] == [log[from - 1]] + log[from..n - 1];
      QuoteCons(log[from - 1], log[from..n - 1], (l: ChatLine) => SameRoom(l, log[n - 1]));
    }
  }

  /**
   A report of any of the last thousand lines finds it, with every line of its room among
   the six before it that the ring still holds, in the order they were said.
  */
  lemma {:induction false} ContextIsOneRoomInOrder(log: seq<ChatLine>, n: nat)
    requires 1 <= n <= |log| < n + 1000
    ensures StillHeld(log, n) && Evidence(log, n).0 == log[n - 1]
    ensures exists at: seq<nat> ::
              && AreTheBelonging(log, n, at) && (forall i :: 0 <= i < |at| ==> 1 <= at[i] <= |log|)
              && Evidence(log, n).1 == Join(Sayings(log, at), "\n")
  {
    var from := WindowStarts(log, n);
    WindowQuotes(log, n, from);
    FromTheWindow(log, n, from);
    hide *;
    var at := BelongingFrom(log, n, from);
    assert AreTheBelonging(log, n, at);
  }

  lemma WindowStarts(log: seq<ChatLine>, n: nat) returns (from: nat)
    requires 1 <= n <= |log| < n + 1000
    ensures 1 <= from <= n <= from + 6 && |log| < from + 1000
    ensures StillHeld(log, n) && Evidence(log, n) == (log[n - 1], Transcript(log[from - 1..n - 1], log[n - 1]))
    ensures from == 1 || n == from + 6 || |log| == from + 999
  {
    from := n - |Window(log, n)|;
    hide Transcript;
  }

  lemma {:induction false} WindowQuotes(log: seq<ChatLine>, n: nat, from: nat)
    requires 1 <= from <= n <= |log| && n <= from + 6 && |log| < from + 1000
    ensures Transcript(log[from - 1..n - 1], log[n - 1]) == Join(Sayings(log, BelongingFrom(log, n, from)), "\n")
  {
    QuotesBelonging(log, n, from);
    hide Sayings, BelongingFrom, Filter, MapSeq;
  }

  lemma {:induction false} FromTheWindow(log: seq<ChatLine>, n: nat, from: nat)
    requires 1 <= from <= n <= |log| && (from == 1 || n == from + 6 || |log| == from + 999)
    ensures AreTheBelonging(log, n, BelongingFrom(log, n, from))
  {
    hide BelongingFrom;
    BelongingAre(log, n, from);
  }
}
