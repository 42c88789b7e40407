/**
 The delay and the prediction runway a matched pair runs with.

 Authored values are a floor; the link's latency can only raise them, within the
 launcher's clamps. Frame times are reals. Authored numbers are u32 once read, and
 u32 sums wrap.
 */
module DelayFloor {
  import opened Wrappers

  const TWO_32: nat := 0x1_0000_0000
  const MAX_U32: nat := 0xFFFF_FFFF
  const MAX_I32: int := 0x7FFF_FFFF

  const JITTER_MARGIN_FRAMES: nat := 1
  const MIN_DELAY: nat := 2
  const MAX_DELAY: nat := 20
  const MIN_PREDICTION: nat := 2
  const MAX_PREDICTION: nat := 16
  const TOP_TIER: nat := 10
  const MAX_REPORTED_RTT_MS: int := 2000

  type U32 = x: nat | x <= MAX_U32

  type I32 = x: int | -MAX_I32 - 1 <= x <= MAX_I32

  /** The numbers a ruleset may author, as read from its caps (u64 when present). */
  datatype Caps = Caps(inputDelay: Option<nat>, inputPrediction: Option<nat>, rollback: bool)
  {
    function BaseDelay(): U32 {
      if inputDelay.Some? then inputDelay.value % TWO_32 else MIN_DELAY
    }

    function BasePrediction(): U32 {
      if inputPrediction.Some? then inputPrediction.value % TWO_32 else MIN_PREDICTION
    }
  }

  datatype Floor = Floor(inputDelay: nat, inputPrediction: nat, needed: nat)

  function Max(x: nat, y: nat): nat {
    if x < y then y else x
  }

  function Min(x: nat, y: nat): nat {
    if x < y then x else y
  }

  function Clamp(x: nat, lo: nat, hi: nat): nat {
    if x < lo then lo else if hi < x then hi else x
  }

  /** u32 addition wraps. */
  function Add32(x: U32, y: U32): U32 {
    if x + y < TWO_32 then x + y else x + y - TWO_32
  }

  function SaturatingSub(x: nat, y: nat): nat {
    if x < y then 0 else x - y
  }

  function SaturatingAddI32(x: I32, y: I32): I32 {
    if x + y > MAX_I32 then MAX_I32 else if x + y < -MAX_I32 - 1 then -MAX_I32 - 1 else x + y
  }

  function Ceil(x: real): int {
    if x.Floor as real == x then x.Floor else x.Floor + 1
  }

  /** A float-to-u32 cast saturates. */
  function ToU32(x: int): U32 {
    if x < 0 then 0 else Min(x, MAX_U32)
  }

  function SanitizeRtt(raw: int): (r: I32)
    ensures -1 <= r <= MAX_REPORTED_RTT_MS
    ensures r == -1 <==> raw < 0
    ensures 0 <= raw <= MAX_REPORTED_RTT_MS ==> r == raw
  {
    if raw < 0 then -1 else if raw < MAX_REPORTED_RTT_MS then raw else MAX_REPORTED_RTT_MS
  }

  /** Frames the one-way trip takes through the relay, plus the jitter margin; 0 when nothing was measured. */
  function FramesNeeded(rttA: I32, rttB: I32, frameMs: real): U32 {
    if rttA < 0 || rttB < 0 || frameMs <= 0.0 then 0
    else Add32(ToU32(Ceil(OneWay(rttA, rttB) / frameMs)), JITTER_MARGIN_FRAMES)
  }

  function OneWay(rttA: I32, rttB: I32): real {
    (rttA + rttB) as real / 2.0
  }

  function HostedRollbackDelay(rttMs: I32): nat {
    if rttMs < 50 then 3
    else if rttMs < 80 then 4
    else if rttMs < 120 then 6
    else if rttMs < 160 then 7
    else if rttMs < 200 then 8
    else if rttMs < 260 then 9
    else TOP_TIER
  }

  function HostedRollbackPrediction(delay: U32): U32 {
    Clamp(Add32(4, Max(delay, 2)), 6, MAX_PREDICTION)
  }

  /** i32 addition wraps, so a round trip within 32 of the type's end counts as none. */
  function HostedDelayOnly(rttMs: I32): nat {
    var rtt: nat := if rttMs < 0 then 0 else rttMs;
    var frames := if rtt + 32 <= MAX_I32 then Max((rtt + 32) / 33, 1) else 1;
    Clamp(frames + 3, 3, MAX_DELAY)
  }

  /** The delay before clamping, with rollback: the tier's, raised by whatever the runway leaves uncovered. */
  function RollbackDelay(caps: Caps, pairRtt: I32, needed: U32): U32 {
    var d := Max(HostedRollbackDelay(pairRtt), caps.BaseDelay());
    var p := Max(HostedRollbackPrediction(d), caps.BasePrediction());
    var shortfall := SaturatingSub(needed, Add32(d, p));
    if shortfall == 0 then d else Add32(d, shortfall)
  }

  /** The floor of a pair whose delay came out as `d`, with rollback: the runway follows the delay. */
  function RollbackFloor(caps: Caps, d: U32, needed: U32): Floor {
    Floor(Clamp(d, MIN_DELAY, MAX_DELAY),
          Clamp(Max(HostedRollbackPrediction(d), caps.BasePrediction()), MIN_PREDICTION, MAX_PREDICTION), needed)
  }

  function ComputeFloor(caps: Caps, rttA: I32, rttB: I32, frameMs: real): (f: Floor)
    ensures 2 <= f.inputDelay <= 20
    ensures 2 <= f.inputPrediction <= 16
  {
    var needed := FramesNeeded(rttA, rttB, frameMs);
    var (baseD, baseP) := (caps.BaseDelay(), caps.BasePrediction());
    if needed == 0 then
      Floor(Clamp(baseD, MIN_DELAY, MAX_DELAY), Clamp(baseP, MIN_PREDICTION, MAX_PREDICTION), 0)
    else
      var pairRtt := SaturatingAddI32(rttA, rttB);
      if caps.rollback then RollbackFloor(caps, RollbackDelay(caps, pairRtt, needed), needed)
      else
        Floor(Clamp(Max(Max(HostedDelayOnly(pairRtt), needed), baseD), MIN_DELAY, MAX_DELAY),
              Clamp(baseP, MIN_PREDICTION, MAX_PREDICTION), needed)
  }

  // ----- what the frames mean -----

  predicate Measured(rttA: I32, rttB: I32, frameMs: real) {
    0 <= rttA && 0 <= rttB && 0.0 < frameMs
  }

  lemma CeilBounds(x: real)
    ensures x <= Ceil(x) as real < x + 1.0
  {
  }

  lemma MulOrder(x: real, y: real, f: real)
    requires 0.0 < f
    ensures x <= y <==> x * f <= y * f
    ensures x < y <==> x * f < y * f
  {
  }

  lemma DivMul(x: real, f: real)
    requires 0.0 < f
    ensures x / f * f == x
  {
  }

  /** Wall time of a number of frames. */
  function Frames(n: int, frameMs: real): real {
    n as real * frameMs
  }

  lemma FramesOrder(n: int, q: real, frameMs: real)
    requires 0.0 < frameMs
    ensures n as real < q <==> Frames(n, frameMs) < q * frameMs
  {
  }

  /** Rounding up covers the trip, with less than a frame to spare. */
  lemma CeilCovers(trip: real, frameMs: real)
    requires 0.0 < frameMs
    ensures var n := Ceil(trip / frameMs); Frames(n - 1, frameMs) < trip <= Frames(n, frameMs)
  {
    var q := trip / frameMs;
    DivMul(trip, frameMs);
    CeilBounds(q);
    FramesOrder(Ceil(q) - 1, q, frameMs);
    FramesOrder(Ceil(q), q, frameMs);
  }

  lemma CeilAtMost(trip: real, frameMs: real, k: int)
    requires 0.0 < frameMs
    ensures Ceil(trip / frameMs) <= k <==> trip <= Frames(k, frameMs)
  {
    DivMul(trip, frameMs);
    MulOrder(trip / frameMs, k as real, frameMs);
    CeilBounds(trip / frameMs);
  }

  /**
   Without the jitter margin, the frames needed cover the one-way trip, and one frame
   fewer would not -- exactly when the trip is short enough for the count to fit u32.
  */
  lemma FramesCoverTheTrip(rttA: I32, rttB: I32, frameMs: real)
    requires Measured(rttA, rttB, frameMs)
    ensures var (needed: int, trip) := (FramesNeeded(rttA, rttB, frameMs), OneWay(rttA, rttB));
            && (trip <= Frames(needed - 1, frameMs) <==> trip <= Frames(MAX_U32 - 1, frameMs))
            && (trip <= Frames(MAX_U32 - 1, frameMs) ==> Frames(needed - 2, frameMs) < trip)
  {
    var trip := OneWay(rttA, rttB);
    CeilCovers(trip, frameMs);
    CeilAtMost(trip, frameMs, MAX_U32 - 1);
    CeilAtMost(trip, frameMs, -1);
    MulOrder(-1.0, 0.0, frameMs);
  }

  /** u32 sums in the floor do not wrap for these authored numbers. */
  predicate NoWrap(caps: Caps) {
    Max(caps.BaseDelay(), TOP_TIER) + Max(caps.BasePrediction(), MAX_PREDICTION) <= MAX_U32
  }

  /** The authored numbers for which the shortfall arithmetic wraps past the authored delay. */
  predicate WrapsBelow(caps: Caps, pairRtt: I32, needed: nat) {
    var d := Max(HostedRollbackDelay(pairRtt), caps.BaseDelay());
    var p := Max(HostedRollbackPrediction(d), caps.BasePrediction());
    && d + p >= TWO_32 && d + p - TWO_32 < needed && p <= needed
    && MIN_DELAY < caps.BaseDelay() && needed - p < Min(caps.BaseDelay(), MAX_DELAY)
  }

  /**
   The floor never undercuts the ruleset's own numbers: always for the prediction, and
   for the delay exactly unless rollback's u32 sum wraps in the window described.
  */
  lemma NeverBelowAuthored(caps: Caps, rttA: I32, rttB: I32, frameMs: real)
    ensures var f := ComputeFloor(caps, rttA, rttB, frameMs);
            && Clamp(caps.BasePrediction(), MIN_PREDICTION, MAX_PREDICTION) <= f.inputPrediction
            && (Clamp(caps.BaseDelay(), MIN_DELAY, MAX_DELAY) <= f.inputDelay
                <==> !(caps.rollback && f.needed > 0 && WrapsBelow(caps, SaturatingAddI32(rttA, rttB), f.needed)))
  {
  }

  /** Without wrapping, the delay with rollback is the tier's plus exactly the uncovered frames. */
  lemma RollbackDelayIs(caps: Caps, pairRtt: I32, needed: nat)
    requires NoWrap(caps) && needed <= MAX_U32
    ensures var d := Max(HostedRollbackDelay(pairRtt), caps.BaseDelay());
            var p := Max(HostedRollbackPrediction(d), caps.BasePrediction());
            RollbackDelay(caps, pairRtt, needed) == Max(d, needed - Min(p, needed))
  {
  }

  // ----- the floor covers the link -----

  /** The delay and runway absorb the frames needed, as far as both clamps allow. */
  predicate Covers(f: Floor) {
    Min(f.needed, MAX_DELAY + MAX_PREDICTION) <= f.inputDelay + f.inputPrediction
  }

  /** Authored numbers with which every measured link is covered. */
  ghost predicate CoversEveryLink(caps: Caps) {
    forall rttA: I32, rttB: I32, frameMs: real ::
      Measured(rttA, rttB, frameMs) ==> Covers(ComputeFloor(caps, rttA, rttB, frameMs))
  }

  lemma CoveredWhen(caps: Caps, rttA: I32, rttB: I32, frameMs: real)
    requires caps.rollback && NoWrap(caps)
    requires caps.BasePrediction() <= MAX_PREDICTION || MAX_DELAY <= caps.BaseDelay()
    ensures Covers(ComputeFloor(caps, rttA, rttB, frameMs))
  {
    var needed := FramesNeeded(rttA, rttB, frameMs);
    if needed > 0 {
      var pairRtt := SaturatingAddI32(rttA, rttB);
      RollbackDelayIs(caps, pairRtt, needed);
      RollbackFloorCovers(caps, pairRtt, needed);
    }
  }

  lemma RollbackFloorCovers(caps: Caps, pairRtt: I32, needed: U32)
    requires NoWrap(caps) && (caps.BasePrediction() <= MAX_PREDICTION || MAX_DELAY <= caps.BaseDelay())
    ensures Covers(RollbackFloor(caps, RollbackDelay(caps, pairRtt, needed), needed))
  {
    RollbackDelayIs(caps, pairRtt, needed);
  }

  /** A link of a chosen length: one millisecond, counted in frames short enough to need `needed` of them. */
  lemma LinkNeeding(needed: nat)
    requires 2 <= needed <= MAX_U32
    ensures var f := 0.5 / (needed - 1) as real; 0.0 < f && FramesNeeded(1, 0, f) == needed
  {
  }

  /**
   With rollback, every measured link is covered exactly when the authored runway is
   within the launcher's clamp or the authored delay already is the largest.
  */
  lemma CoverageTheorem(caps: Caps)
    requires caps.rollback && NoWrap(caps)
    ensures CoversEveryLink(caps)
            <==> caps.BasePrediction() <= MAX_PREDICTION || MAX_DELAY <= caps.BaseDelay()
  {
    if caps.BasePrediction() <= MAX_PREDICTION || MAX_DELAY <= caps.BaseDelay() {
      forall rttA: I32, rttB: I32, frameMs: real | Measured(rttA, rttB, frameMs)
        ensures Covers(ComputeFloor(caps, rttA, rttB, frameMs))
      {
        CoveredWhen(caps, rttA, rttB, frameMs);
      }
    } else {
      var d := Max(3, caps.BaseDelay());
      var needed := d + MAX_PREDICTION + 1;
      var f := 0.5 / (needed - 1) as real;
      LinkNeeding(needed);
      RollbackDelayIs(caps, 1, needed);
      assert !Covers(ComputeFloor(caps, 1, 0, f));
    }
  }

  /** With rollback the runway always follows the delay: at least four frames beyond it, within the clamp. */
  lemma RunwayFollowsDelay(caps: Caps, rttA: I32, rttB: I32, frameMs: real)
    requires caps.rollback && NoWrap(caps) && FramesNeeded(rttA, rttB, frameMs) > 0
    ensures var f := ComputeFloor(caps, rttA, rttB, frameMs);
            Min(4 + f.inputDelay, MAX_PREDICTION) <= f.inputPrediction
  {
    RollbackDelayIs(caps, SaturatingAddI32(rttA, rttB), FramesNeeded(rttA, rttB, frameMs));
  }

  /** Without rollback the delay carries the whole link, up to its clamp. */
  lemma DelayOnlyCovers(caps: Caps, rttA: I32, rttB: I32, frameMs: real)
    requires !caps.rollback
    ensures var f := ComputeFloor(caps, rttA, rttB, frameMs); Min(f.needed, MAX_DELAY) <= f.inputDelay
  {
  }

  // ----- the tiers fit the links -----

  lemma SixtyHzFrames(x: I32, n: int)
    requires 0 <= x <= 2 * MAX_REPORTED_RTT_MS && 0 <= n
    ensures FramesNeeded(x, 0, SIXTY_HZ) <= n + 1 <==> 3 * x <= 100 * n
  {
    CeilAtMost(OneWay(x, 0), SIXTY_HZ, n);
    CeilAtMost(OneWay(x, 0), SIXTY_HZ, -1);
    CeilAtMost(OneWay(x, 0), SIXTY_HZ, 1000);
  }

  /**
   At 60 Hz the delay of every tier but the top one carries its links without any runway,
   and overshoots what they need by at most two frames.
  */
  lemma TiersFitTheirLinks(x: I32)
    requires 0 <= x < 260
    ensures FramesNeeded(x, 0, SIXTY_HZ) <= HostedRollbackDelay(x) <= FramesNeeded(x, 0, SIXTY_HZ) + 2
  {
    SixtyHzFrames(x, HostedRollbackDelay(x) - 1);
    SixtyHzFrames(x, Max(HostedRollbackDelay(x), 4) - 4);
  }

  /**
   Without rollback, the frames but three are the fewest frames of 33 ms that cover the
   whole round trip, one at least, until the clamp at 20.
  */
  lemma DelayOnlyIsLeast(x: I32)
    requires 0 <= x && x + 32 <= MAX_I32
    ensures var d: int := HostedDelayOnly(x);
            && 4 <= d <= 20 && (d < 20 ==> x <= 33 * (d - 3)) && (4 < d ==> 33 * (d - 4) < x)
  {
  }

  /**
   The floor of every measured pair whose ruleset authors nothing, at 60 Hz or slower, in
   full: the tier's delay with four more frames of runway below 260 ms; from there on
   enough delay for what a runway of 14 leaves.
  */
  lemma FloorWithNothingAuthored(rttA: I32, rttB: I32, frameMs: real)
    requires Measured(rttA, rttB, frameMs) && SIXTY_HZ <= frameMs && rttA + rttB <= MAX_I32
    ensures var (x, f) := (rttA + rttB, ComputeFloor(Caps(None, None, true), rttA, rttB, frameMs));
            && (x < 50 ==> (f.inputDelay, f.inputPrediction) == (3, 7))
            && (50 <= x < 80 ==> (f.inputDelay, f.inputPrediction) == (4, 8))
            && (80 <= x < 120 ==> (f.inputDelay, f.inputPrediction) == (6, 10))
            && (120 <= x < 160 ==> (f.inputDelay, f.inputPrediction) == (7, 11))
            && (160 <= x < 200 ==> (f.inputDelay, f.inputPrediction) == (8, 12))
            && (200 <= x < 260 ==> (f.inputDelay, f.inputPrediction) == (9, 13))
            && (260 <= x ==>
                  && f.inputDelay == (if f.needed <= 24 then 10 else if f.needed < 34 then f.needed - 14 else 20)
                  && f.inputPrediction == (if f.needed <= 24 then 14 else if f.needed == 25 then 15 else 16))
  {
    var needed := FramesNeeded(rttA, rttB, frameMs);
    if rttA + rttB < 260 {
      BelowTopNeedsNine(rttA, rttB, frameMs);
    }
    TripFits(rttA, rttB, frameMs);
    RollbackDelayIs(Caps(None, None, true), rttA + rttB, needed);
  }

  /**
   Without rollback and with nothing authored, the delay is the least, up to 20, that is
   enough in both ways: three frames more than the 33 ms frames of the round trip, and as
   many as the one-way trip needs. There is no more runway than the least.
  */
  lemma DelayOnlyFloor(rttA: I32, rttB: I32, frameMs: real)
    requires Measured(rttA, rttB, frameMs) && rttA + rttB + 32 <= MAX_I32 && 0 < FramesNeeded(rttA, rttB, frameMs)
    ensures var (x, f) := (rttA + rttB, ComputeFloor(Caps(None, None, false), rttA, rttB, frameMs));
            && (f.inputDelay < 20 ==> x <= 33 * (f.inputDelay - 3) && f.needed <= f.inputDelay)
            && (4 < f.inputDelay ==> 33 * (f.inputDelay - 4) < x || f.inputDelay <= f.needed)
            && 4 <= f.inputDelay && f.inputPrediction == 2
  {
    DelayOnlyIsLeast(rttA + rttB);
    hide HostedDelayOnly;
  }

  /** With no measurement a pair runs with what the ruleset authored, or 2 and 2, inside the launcher's clamps. */
  lemma UnmeasuredRunsAsAuthored(d: nat, p: nat, rollback: bool, rttA: I32, rttB: I32, frameMs: real)
    requires d <= MAX_U32 && p <= MAX_U32 && (rttA < 0 || rttB < 0)
    ensures var f := ComputeFloor(Caps(Some(d), Some(p), rollback), rttA, rttB, frameMs);
            && f.inputDelay == (if d < 2 then 2 else if d <= 20 then d else 20)
            && f.inputPrediction == (if p < 2 then 2 else if p <= 16 then p else 16)
    ensures ComputeFloor(Caps(None, None, rollback), rttA, rttB, frameMs) == Floor(2, 2, 0)
  {
  }

  // ----- when the floor is monotone -----

  const SIXTY_HZ: real := 1000.0 / 60.0

  /** The one-way trip of a pair round trip takes few enough frames for the count to fit u32. */
  predicate Fits(pairRtt: I32, frameMs: real) {
    OneWay(pairRtt, 0) <= Frames(MAX_U32 - 1, frameMs)
  }

  lemma NeededGrows(x: I32, y: I32, frameMs: real)
    requires 0 <= x <= y && 0.0 < frameMs && Fits(y, frameMs)
    ensures 0 < FramesNeeded(x, 0, frameMs) <= FramesNeeded(y, 0, frameMs)
    ensures Fits(x, frameMs)
  {
    var (trip, trip') := (OneWay(x, 0), OneWay(y, 0));
    CeilCovers(trip', frameMs);
    CeilAtMost(trip, frameMs, Ceil(trip' / frameMs));
    CeilAtMost(trip', frameMs, MAX_U32 - 1);
    CeilAtMost(trip, frameMs, -1);
    MulOrder(-1.0, 0.0, frameMs);
  }

  /** At 60 Hz or slower the frame count of any trip an i32 can report is nowhere near the end of u32. */
  lemma TripFits(rttA: I32, rttB: I32, frameMs: real)
    requires 0 <= rttA && 0 <= rttB && SIXTY_HZ <= frameMs
    ensures 0 <= Ceil(OneWay(rttA, rttB) / frameMs) < MAX_U32
  {
  }

  lemma BelowTopNeedsNine(rttA: I32, rttB: I32, frameMs: real)
    requires Measured(rttA, rttB, frameMs) && SIXTY_HZ <= frameMs && rttA + rttB < 260
    ensures FramesNeeded(rttA, rttB, frameMs) <= 9
  {
    var trip := OneWay(rttA, rttB);
    assert trip <= Frames(8, SIXTY_HZ);
    MulOrder(SIXTY_HZ, frameMs, 8.0);
    CeilAtMost(trip, frameMs, 8);
    TripFits(rttA, rttB, frameMs);
  }

  /** At 60 Hz or slower only the top tier can be short of frames. */
  lemma ShortfallOnlyInTopTier(caps: Caps, rttA: I32, rttB: I32, frameMs: real)
    requires Measured(rttA, rttB, frameMs) && SIXTY_HZ <= frameMs && NoWrap(caps)
    ensures var pairRtt := SaturatingAddI32(rttA, rttB);
            var d := Max(HostedRollbackDelay(pairRtt), caps.BaseDelay());
            RollbackDelay(caps, pairRtt, FramesNeeded(rttA, rttB, frameMs)) == d || 260 <= rttA + rttB
  {
    if rttA + rttB < 260 {
      BelowTopNeedsNine(rttA, rttB, frameMs);
      RollbackDelayIs(caps, rttA + rttB, FramesNeeded(rttA, rttB, frameMs));
    }
  }

  /** Neither number is smaller. */
  predicate Below(f: Floor, f': Floor) {
    f.inputDelay <= f'.inputDelay && f.inputPrediction <= f'.inputPrediction
  }

  /** A longer round trip on either side, with the numbers away from the ends of their types. */
  predicate LongerLink(rttA: I32, rttB: I32, rttA': I32, rttB': I32, frameMs: real) {
    && rttA <= rttA' && rttB <= rttB' && rttA' + rttB' + 32 <= MAX_I32
    && (Measured(rttA', rttB', frameMs) ==> Fits(rttA' + rttB', frameMs))
  }

  /** A longer link never lowers the delay or the prediction. */
  ghost predicate MonotoneFor(caps: Caps, frameMs: real) {
    forall rttA: I32, rttB: I32, rttA': I32, rttB': I32 ::
      LongerLink(rttA, rttB, rttA', rttB', frameMs) ==>
        Below(ComputeFloor(caps, rttA, rttB, frameMs), ComputeFloor(caps, rttA', rttB', frameMs))
  }

  /** The last round trip of each delay tier but the top one. */
  predicate TierEnd(x: int) {
    x == 49 || x == 79 || x == 119 || x == 159 || x == 199 || x == 259
  }

  /** Nothing is lowered by the step of one millisecond from one tier to the next. */
  predicate NoTierDrops(caps: Caps, frameMs: real) {
    forall x: I32 :: 49 <= x <= 259 && TierEnd(x) && Fits(x + 1, frameMs) ==>
      Below(ComputeFloor(caps, x, 0, frameMs), ComputeFloor(caps, x + 1, 0, frameMs))
  }

  lemma RollbackFloorGrows(caps: Caps, d: U32, d': U32, needed: U32, needed': U32)
    requires d <= d' <= MAX_U32 - 4
    ensures Below(RollbackFloor(caps, d, needed), RollbackFloor(caps, d', needed'))
  {
  }

  lemma DelayOnlyGrows(caps: Caps, rttA: I32, rttB: I32, rttA': I32, rttB': I32, frameMs: real)
    requires !caps.rollback && rttA <= rttA' && rttB <= rttB' && rttA' + rttB' + 32 <= MAX_I32
    requires 0 <= rttA && 0 <= rttB
    requires 0 < FramesNeeded(rttA, rttB, frameMs) <= FramesNeeded(rttA', rttB', frameMs)
    ensures Below(ComputeFloor(caps, rttA, rttB, frameMs), ComputeFloor(caps, rttA', rttB', frameMs))
  {
  }

  /** Inside one tier the delay only follows the frames. */
  lemma TierIsMonotone(caps: Caps, x: I32, y: I32, n: U32, n': U32)
    requires NoWrap(caps) && HostedRollbackDelay(x) == HostedRollbackDelay(y) && n <= n'
    ensures RollbackDelay(caps, x, n) <= RollbackDelay(caps, y, n') <= MAX_U32 - 4
  {
    RollbackDelayIs(caps, x, n);
    RollbackDelayIs(caps, y, n');
  }

  lemma OneMillisecondMore(caps: Caps, x: I32, frameMs: real)
    requires NoWrap(caps) && 0.0 < frameMs && NoTierDrops(caps, frameMs)
    requires 0 <= x && x + 1 + 32 <= MAX_I32 && Fits(x + 1, frameMs)
    ensures Below(ComputeFloor(caps, x, 0, frameMs), ComputeFloor(caps, x + 1, 0, frameMs))
  {
    NeededGrows(x, x + 1, frameMs);
    var (n, n') := (FramesNeeded(x, 0, frameMs), FramesNeeded(x + 1, 0, frameMs));
    if !TierEnd(x) {
      if caps.rollback {
        TierIsMonotone(caps, x, x + 1, n, n');
        RollbackFloorGrows(caps, RollbackDelay(caps, x, n), RollbackDelay(caps, x + 1, n'), n, n');
      } else {
        DelayOnlyGrows(caps, x, 0, x + 1, 0, frameMs);
      }
    }
  }

  lemma {:induction false} Climb(caps: Caps, x: I32, y: I32, frameMs: real)
    requires NoWrap(caps) && 0.0 < frameMs && NoTierDrops(caps, frameMs)
    requires 0 <= x <= y && y + 32 <= MAX_I32 && Fits(y, frameMs)
    ensures Below(ComputeFloor(caps, x, 0, frameMs), ComputeFloor(caps, y, 0, frameMs))
    decreases y - x
  {
    if x < y {
      NeededGrows(y - 1, y, frameMs);
      Climb(caps, x, y - 1, frameMs);
      OneMillisecondMore(caps, y - 1, frameMs);
    }
  }

  /** Of a measured link only the sum of the two round trips matters. */
  lemma OnlyTheSumCounts(caps: Caps, rttA: I32, rttB: I32, frameMs: real)
    requires 0 <= rttA && 0 <= rttB && rttA + rttB <= MAX_I32
    ensures ComputeFloor(caps, rttA, rttB, frameMs) == ComputeFloor(caps, rttA + rttB, 0, frameMs)
  {
  }

  /**
   For authored numbers whose sums do not wrap, the floor is monotone over all links
   exactly when nothing drops at the six steps from one delay tier to the next.
  */
  lemma MonotoneExactly(caps: Caps, frameMs: real)
    requires NoWrap(caps)
    ensures MonotoneFor(caps, frameMs) <==> NoTierDrops(caps, frameMs)
  {
    if NoTierDrops(caps, frameMs) {
      forall rttA: I32, rttB: I32, rttA': I32, rttB': I32 | LongerLink(rttA, rttB, rttA', rttB', frameMs)
        ensures Below(ComputeFloor(caps, rttA, rttB, frameMs), ComputeFloor(caps, rttA', rttB', frameMs))
      {
        LongerLinkIsBelow(caps, rttA, rttB, rttA', rttB', frameMs);
      }
    }
    if MonotoneFor(caps, frameMs) {
      forall x: I32 | 49 <= x <= 259 && TierEnd(x) && Fits(x + 1, frameMs)
        ensures Below(ComputeFloor(caps, x, 0, frameMs), ComputeFloor(caps, x + 1, 0, frameMs))
      {
        assert LongerLink(x, 0, x + 1, 0, frameMs);
      }
    }
  }

  lemma LongerLinkIsBelow(caps: Caps, rttA: I32, rttB: I32, rttA': I32, rttB': I32, frameMs: real)
    requires NoWrap(caps) && NoTierDrops(caps, frameMs) && LongerLink(rttA, rttB, rttA', rttB', frameMs)
    ensures Below(ComputeFloor(caps, rttA, rttB, frameMs), ComputeFloor(caps, rttA', rttB', frameMs))
  {
    if Measured(rttA, rttB, frameMs) {
      hide ComputeFloor, NoTierDrops, Fits, Below;
      OnlyTheSumCounts(caps, rttA, rttB, frameMs);
      OnlyTheSumCounts(caps, rttA', rttB', frameMs);
      Climb(caps, rttA + rttB, rttA' + rttB', frameMs);
    } else {
      hide NoTierDrops, Fits, RollbackFloor, RollbackDelay, HostedDelayOnly;
      NeverBelowAuthored(caps, rttA', rttB', frameMs);
    }
  }

  /** The shortest frame, in milliseconds, from which no authored numbers make the floor drop: about 170 Hz. */
  const SAFE_FRAME_MS: real := 129.5 / 22.0

  /** From that frame time on, a tier's last link is not short of more frames than the next tier's delay has. */
  lemma TierEndIsShort(x: I32, frameMs: real)
    requires TierEnd(x) && SAFE_FRAME_MS <= frameMs
    ensures FramesNeeded(x, 0, frameMs) <= HostedRollbackPrediction(HostedRollbackDelay(x)) + HostedRollbackDelay(x + 1)
  {
    var k := if x == 49 then 5 else if x == 79 then 7 else if x == 119 then 11 else if x == 159 then 14
             else if x == 199 then 17 else 22;
    MulOrder(SAFE_FRAME_MS, frameMs, k as real);
    CeilAtMost(OneWay(x, 0), frameMs, k);
  }

  lemma SlowFramesDropNowhere(caps: Caps, frameMs: real)
    requires NoWrap(caps) && SAFE_FRAME_MS <= frameMs
    ensures NoTierDrops(caps, frameMs)
  {
    forall x: I32 | 49 <= x <= 259 && TierEnd(x) && Fits(x + 1, frameMs)
      ensures Below(ComputeFloor(caps, x, 0, frameMs), ComputeFloor(caps, x + 1, 0, frameMs))
    {
      NeededGrows(x, x + 1, frameMs);
      var (n, n') := (FramesNeeded(x, 0, frameMs), FramesNeeded(x + 1, 0, frameMs));
      if caps.rollback {
        TierEndIsShort(x, frameMs);
        TierStepHolds(caps, x, n, n');
        RollbackFloorGrows(caps, RollbackDelay(caps, x, n), RollbackDelay(caps, x + 1, n'), n, n');
      } else {
        DelayOnlyGrows(caps, x, 0, x + 1, 0, frameMs);
      }
    }
  }

  lemma TierStepHolds(caps: Caps, x: I32, n: U32, n': U32)
    requires NoWrap(caps) && TierEnd(x)
    requires n <= n' && n <= HostedRollbackPrediction(HostedRollbackDelay(x)) + HostedRollbackDelay(x + 1)
    ensures RollbackDelay(caps, x, n) <= RollbackDelay(caps, x + 1, n') <= MAX_U32 - 4
  {
    RollbackDelayIs(caps, x, n);
    RollbackDelayIs(caps, x + 1, n');
  }

  /**
   For frames of about 5.89 ms or more -- every title up to 169 Hz -- the floor is
   monotone whatever the ruleset authors.
  */
  lemma FloorIsMonotone(caps: Caps, rttA: I32, rttB: I32, rttA': I32, rttB': I32, frameMs: real)
    requires rttA <= rttA' && rttB <= rttB'
    requires rttA' + rttB' + 32 <= MAX_I32
    requires SAFE_FRAME_MS <= frameMs && NoWrap(caps)
    ensures var (f, f') := (ComputeFloor(caps, rttA, rttB, frameMs), ComputeFloor(caps, rttA', rttB', frameMs));
            f.inputDelay <= f'.inputDelay && f.inputPrediction <= f'.inputPrediction
  {
    SlowFramesDropNowhere(caps, frameMs);
    if Measured(rttA', rttB', frameMs) {
      MulOrder(SAFE_FRAME_MS, frameMs, (MAX_U32 - 1) as real);
      assert Fits(rttA' + rttB', frameMs);
    }
    LongerLinkIsBelow(caps, rttA, rttB, rttA', rttB', frameMs);
  }

  /** Just below that frame time it is not: with the default numbers 260 ms gets a smaller delay than 259 ms. */
  lemma ShorterFramesDrop(frameMs: real)
    requires 130.0 / 23.0 <= frameMs < SAFE_FRAME_MS
    ensures !MonotoneFor(Caps(None, None, true), frameMs)
  {
    var caps := Caps(None, None, true);
    MulOrder(130.0 / 23.0, frameMs, 23.0);
    MulOrder(frameMs, SAFE_FRAME_MS, 22.0);
    CeilAtMost(129.5, frameMs, 22);
    CeilAtMost(129.5, frameMs, 23);
    CeilAtMost(130.0, frameMs, 22);
    CeilAtMost(130.0, frameMs, 23);
    assert OneWay(259, 0) == 129.5 && OneWay(260, 0) == 130.0;
    assert FramesNeeded(259, 0, frameMs) == 24 && FramesNeeded(260, 0, frameMs) == 24;
    MulOrder(130.0 / 23.0, frameMs, (MAX_U32 - 1) as real);
    assert LongerLink(259, 0, 260, 0, frameMs);
  }

  /** With one-millisecond frames a longer trip can lower the delay: 49 ms asks for more than 50 ms. */
  lemma ShortFramesAreNotMonotone()
    ensures var caps := Caps(None, None, true);
            ComputeFloor(caps, 50, 0, 1.0).inputDelay < ComputeFloor(caps, 49, 0, 1.0).inputDelay
  {
  }

  /** With an authored delay at the end of u32 the sum wraps and the floor undercuts it. */
  lemma WrappingUndercuts()
    ensures var caps := Caps(Some(MAX_U32), None, true);
            ComputeFloor(caps, 9, 9, 1.0).inputDelay < MAX_DELAY
  {
  }
}
