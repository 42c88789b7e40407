/** The token bucket that limits one sender's `signal` messages. Times are seconds; token counts are reals. */
module SignalBuckets {
  import opened Wrappers

  const SIGNAL_BURST: real := 60.0
  const SIGNAL_PER_SEC: real := 60.0

  datatype Bucket = Bucket(tokens: real, last: Option<real>)

  const FULL := Bucket(SIGNAL_BURST, None)

  function Min(x: real, y: real): real {
    if x < y then x else y
  }

  /** The tokens at hand when a call arrives. Time that runs backwards refills nothing. */
  function Refilled(b: Bucket, now: real): real {
    if b.last.None? then b.tokens
    else
      var dt := if now < b.last.value then 0.0 else now - b.last.value;
      Min(b.tokens + dt * SIGNAL_PER_SEC, SIGNAL_BURST)
  }

  function Take(b: Bucket, now: real): (Bucket, bool) {
    var t := Refilled(b, now);
    if 1.0 <= t then (Bucket(t - 1.0, Some(now)), true) else (Bucket(t, Some(now)), false)
  }

  class SignalBucket {
    var tokens: real
    var last: Option<real>

    function View(): Bucket
      reads this
    {
      Bucket(tokens, last)
    }

    constructor ()
      ensures View() == FULL
    {
      tokens, last := SIGNAL_BURST, None;
    }

    method Allow(now: real) returns (ok: bool)
      modifies this
      ensures (View(), ok) == Take(old(View()), now)
    {
      if last.Some? {
        var dt := if now < last.value then 0.0 else now - last.value;
        tokens := Min(tokens + dt * SIGNAL_PER_SEC, SIGNAL_BURST);
      }
      last := Some(now);
      if 1.0 <= tokens {
        tokens := tokens - 1.0;
        return true;
      }
      return false;
    }
  }

  // ----- runs -----

  ghost predicate NonDecreasing(times: seq<real>) {
    forall i, j :: 0 <= i < j < |times| ==> times[i] <= times[j]
  }

  /** The bucket after calls at these times. */
  function After(times: seq<real>): Bucket {
    if times == [] then FULL
    else Take(After(times[..|times| - 1]), times[|times| - 1]).0
  }

  /** Which of the calls were allowed. */
  function Decisions(times: seq<real>): (d: seq<bool>)
    ensures |d| == |times|
  {
    if times == [] then []
    else Decisions(times[..|times| - 1]) + [Take(After(times[..|times| - 1]), times[|times| - 1]).1]
  }

  /** Calls allowed among those numbered `i` up to, not including, `k`. */
  function Allowed(d: seq<bool>, i: nat, k: nat): nat
    requires i <= k <= |d|
  {
    if i == k then 0 else Allowed(d, i, k - 1) + (if d[k - 1] then 1 else 0)
  }

  /** What the rate leaves for the last call, given the calls allowed since call `i`. */
  function Room(times: seq<real>, i: nat): real
    requires i < |times|
  {
    var k := |times| - 1;
    SIGNAL_BURST + SIGNAL_PER_SEC * (times[k] - times[i]) - Allowed(Decisions(times), i, k) as real
  }

  lemma {:induction false} AllowedPrefix(d: seq<bool>, d': seq<bool>, i: nat, k: nat)
    requires i <= k <= |d| && d <= d'
    ensures Allowed(d, i, k) == Allowed(d', i, k)
  {
    if i < k {
      AllowedPrefix(d, d', i, k - 1);
    }
  }

  lemma {:induction false} DecisionsPrefix(times: seq<real>, k: nat)
    requires k <= |times|
    ensures Decisions(times)[..k] == Decisions(times[..k])
    decreases |times|
  {
    if k < |times| {
      var before := times[..|times| - 1];
      DecisionsPrefix(before, k);
      assert before[..k] == times[..k];
    } else {
      assert times[..k] == times;
    }
  }

  lemma RoomStep(times: seq<real>, i: nat)
    requires 1 <= |times| - 1 && i < |times| - 1
    ensures var (k, before) := (|times| - 1, times[..|times| - 1]);
            Room(times, i) == Room(before, i) + SIGNAL_PER_SEC * (times[k] - times[k - 1])
                              - (if Decisions(before)[k - 1] then 1.0 else 0.0)
  {
    var (k, before) := (|times| - 1, times[..|times| - 1]);
    AllowedPrefix(Decisions(before), Decisions(times), i, k);
  }

  lemma LastRoom(times: seq<real>)
    requires times != []
    ensures Room(times, |times| - 1) == SIGNAL_BURST
  {
  }

  /** What a second call finds, in terms of what the first one found. */
  lemma TakeThenRefill(b: Bucket, t: real, now: real)
    requires t <= now
    ensures Refilled(Take(b, t).0, now)
            == Min(Refilled(b, t) + SIGNAL_PER_SEC * (now - t) - (if Take(b, t).1 then 1.0 else 0.0), SIGNAL_BURST)
  {
    assert (now - t) * SIGNAL_PER_SEC == SIGNAL_PER_SEC * (now - t);
    hide Min;
  }

  lemma {:induction false} LastCall(times: seq<real>)
    requires times != []
    ensures var k := |times| - 1;
            Take(After(times[..k]), times[k]) == (After(times), Decisions(times)[k])
  {
  }

  lemma {:induction false} RefillStep(before: seq<real>, now: real)
    requires before != [] && before[|before| - 1] <= now
    ensures var (k, t) := (|before|, before[|before| - 1]);
            Refilled(After(before), now)
            == Min(Refilled(After(before[..k - 1]), t) + SIGNAL_PER_SEC * (now - t)
                   - (if Decisions(before)[k - 1] then 1.0 else 0.0), SIGNAL_BURST)
  {
    hide *;
    LastCall(before);
    TakeThenRefill(After(before[..|before| - 1]), before[|before| - 1], now);
  }

  /** The tokens at hand are the least room any earlier call leaves. */
  lemma {:induction false} TokensAreLeastRoom(times: seq<real>)
    requires times != [] && NonDecreasing(times)
    ensures var r := Refilled(After(times[..|times| - 1]), times[|times| - 1]);
            && (forall i :: 0 <= i < |times| ==> r <= Room(times, i))
            && (exists i :: 0 <= i < |times| && r == Room(times, i))
    decreases |times|
  {
    var k := |times| - 1;
    var before := times[..k];
    LastRoom(times);
    if k > 0 {
      TokensAreLeastRoom(before);
      RefillStep(before, times[k]);
      forall i | 0 <= i < k
        ensures Room(times, i) == Room(before, i) + SIGNAL_PER_SEC * (times[k] - times[k - 1])
                                  - (if Decisions(before)[k - 1] then 1.0 else 0.0)
      {
        RoomStep(times, i);
      }
      hide Refilled, After, Room, Decisions;
      var i :| 0 <= i < k && Refilled(After(before[..k - 1]), before[k - 1]) == Room(before, i);
      var r := Refilled(After(before), times[k]);
      assert r == Room(times, i) || r == Room(times, k);
    }
  }

  lemma {:induction false} VerdictIs(times: seq<real>, k: nat)
    requires k < |times|
    ensures Decisions(times)[k] <==> 1.0 <= Refilled(After(times[..k]), times[k])
  {
    DecisionsPrefix(times, k + 1);
    LastCall(times[..k + 1]);
    assert times[..k + 1][..k] == times[..k];
    hide Refilled, After, Decisions;
  }

  lemma {:induction false} RoomOf(times: seq<real>, i: nat, k: nat)
    requires i <= k < |times|
    ensures Room(times[..k + 1], i)
            == SIGNAL_BURST + SIGNAL_PER_SEC * (times[k] - times[i]) - Allowed(Decisions(times), i, k) as real
  {
    var upto := times[..k + 1];
    DecisionsPrefix(times, k + 1);
    AllowedPrefix(Decisions(upto), Decisions(times), i, k);
    hide Allowed, Decisions;
  }

  /**
   The bucket is exact: a call is allowed if and only if allowing it keeps every
   window that ends with it within 60 calls plus 60 a second.
  */
  lemma {:induction false} BucketIsExact(times: seq<real>, k: nat)
    requires NonDecreasing(times) && k < |times|
    ensures Decisions(times)[k] <==>
              forall i :: 0 <= i <= k ==>
                (Allowed(Decisions(times), i, k) + 1) as real
                <= 60.0 + 60.0 * (times[k] - times[i])
  {
    var upto := times[..k + 1];
    TokensAreLeastRoom(upto);
    VerdictIs(times, k);
    assert upto[..k] == times[..k];
    forall i | 0 <= i <= k
      ensures Room(upto, i)
              == 60.0 + 60.0 * (times[k] - times[i]) - Allowed(Decisions(times), i, k) as real
    {
      RoomOf(times, i, k);
    }
    hide Refilled, After, Room, Decisions, Allowed;
  }

  /** No window lets more through than the burst plus the rate times its length. */
  lemma {:induction false} RateIsBounded(times: seq<real>, i: nat, j: nat)
    requires NonDecreasing(times) && i <= j < |times|
    ensures Allowed(Decisions(times), i, j + 1) as real <= 60.0 + 60.0 * (times[j] - times[i])
    decreases j - i
  {
    BucketIsExact(times, j);
    if !Decisions(times)[j] && i < j {
      RateIsBounded(times, i, j - 1);
      assert times[j - 1] <= times[j];
    }
  }

  lemma {:induction false} AllowedAtMost(d: seq<bool>, i: nat, k: nat)
    requires i <= k <= |d|
    ensures Allowed(d, i, k) <= k - i
    decreases k
  {
    if i < k {
      AllowedAtMost(d, i, k - 1);
    }
  }

  /** A sender who keeps every window within the burst plus the rate is never refused. */
  lemma {:induction false} PoliteSendersPass(times: seq<real>)
    requires NonDecreasing(times)
    requires forall i, j :: 0 <= i <= j < |times| ==>
               (j - i + 1) as real <= 60.0 + 60.0 * (times[j] - times[i])
    ensures forall k :: 0 <= k < |times| ==> Decisions(times)[k]
  {
    forall k | 0 <= k < |times| ensures Decisions(times)[k] {
      BucketIsExact(times, k);
      forall i | 0 <= i <= k
        ensures (Allowed(Decisions(times), i, k) + 1) as real
                <= 60.0 + 60.0 * (times[k] - times[i])
      {
        AllowedAtMost(Decisions(times), i, k);
      }
    }
  }
}
