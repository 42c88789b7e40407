/**
 The pairing predicate of the automatch queue and the search that picks a pair.

 Tickets wait in arrival order. A pair is picked by a strict pass, which avoids
 recent opponents, and only then by a relaxed pass, which does not. The clock is
 a parameter, in milliseconds, read once per pass.
 */
module Matchmaking {
  import opened Lists
  import opened Wrappers

  const PROBE_GRACE_SECS: nat := 3
  const RTT_START_MS: nat := 120
  const RTT_STEP_MS: nat := 60
  const RTT_WIDEN_SECS: nat := 20
  const RTT_UNLIMITED_AFTER_STEPS: nat := 5

  datatype MatchKey = MatchKey(
    gameName: string, gameVersion: string, discFp: string, rulesetId: string, maxSlots: nat)

  datatype Ticket = Ticket(
    playerId: string,
    accountId: string,
    keys: seq<MatchKey>,
    relayEndpoint: Option<string>,
    iceRelay: bool,
    queuedAt: nat,
    rttMs: int,
    blocks: set<string>)

  /** Two accounts that met at `at`. */
  datatype Played = Played(a: string, b: string, at: nat)

  /** What a pass over the tickets reads besides the tickets. */
  datatype Context = Context(recent: seq<Played>, cooldown: nat, now: nat)

  /** Whole seconds since `since`; an instant in the future counts as zero. */
  function ElapsedSecs(since: nat, now: nat): nat {
    if now < since then 0 else (now - since) / 1000
  }

  function Waited(t: Ticket, now: nat): nat {
    ElapsedSecs(t.queuedAt, now)
  }

  function Max(x: nat, y: nat): nat {
    if x < y then y else x
  }

  predicate Blocked(a: Ticket, b: Ticket) {
    b.accountId in a.blocks || a.accountId in b.blocks
  }

  predicate RelayPossible(a: Ticket, b: Ticket) {
    a.relayEndpoint.Some? || b.relayEndpoint.Some? || (a.iceRelay && b.iceRelay)
  }

  predicate Measurable(t: Ticket, now: nat) {
    0 <= t.rttMs || PROBE_GRACE_SECS <= Waited(t, now)
  }

  predicate RttOk(a: Ticket, b: Ticket, now: nat) {
    if a.rttMs < 0 || b.rttMs < 0 then true
    else
      var steps := Max(Waited(a, now), Waited(b, now)) / RTT_WIDEN_SECS;
      RTT_UNLIMITED_AFTER_STEPS <= steps || a.rttMs + b.rttMs <= RTT_START_MS + steps * RTT_STEP_MS
  }

  /** `m` still holds the two accounts apart. */
  predicate Recent(m: Played, c: Context, x: string, y: string) {
    ElapsedSecs(m.at, c.now) < c.cooldown && ((m.a == x && m.b == y) || (m.a == y && m.b == x))
  }

  predicate RematchOk(c: Context, a: Ticket, b: Ticket) {
    || RTT_WIDEN_SECS * RTT_UNLIMITED_AFTER_STEPS <= Max(Waited(a, c.now), Waited(b, c.now))
    || forall m :: m in c.recent ==> !Recent(m, c, a.accountId, b.accountId)
  }

  /** The hard rules no amount of waiting changes. */
  predicate Compatible(a: Ticket, b: Ticket) {
    && a.accountId != b.accountId
    && !Blocked(a, b)
    && RelayPossible(a, b)
  }

  predicate Pairable(c: Context, relaxed: bool, a: Ticket, b: Ticket) {
    && Compatible(a, b)
    && Measurable(a, c.now) && Measurable(b, c.now)
    && RttOk(a, b, c.now)
    && (relaxed || RematchOk(c, a, b))
  }

  /** Ticket `i`, its key number `k`, and partner `j`. */
  datatype Pick = Pick(i: nat, k: nat, j: nat)

  /** `p` names two tickets the given pass may pair under that key. */
  predicate Hit(ts: seq<Ticket>, c: Context, relaxed: bool, p: Pick) {
    && p.i < |ts| && p.j < |ts| && p.i != p.j
    && p.k < |ts[p.i].keys|
    && ts[p.i].keys[p.k] in ts[p.j].keys
    && Pairable(c, relaxed, ts[p.i], ts[p.j])
  }

  predicate Before(p: Pick, q: Pick) {
    || p.i < q.i
    || (p.i == q.i && p.k < q.k)
    || (p.i == q.i && p.k == q.k && p.j < q.j)
  }

  /** The fair choice of one pass: least ticket, then its best key, then the least partner. */
  ghost predicate IsFirst(ts: seq<Ticket>, c: Context, relaxed: bool, p: Pick) {
    && Hit(ts, c, relaxed, p)
    && forall q :: Hit(ts, c, relaxed, q) ==>
         p.i < q.i || (p.i == q.i && (p.k < q.k || (p.k == q.k && p.j <= q.j)))
  }

  /** The first hit at or after position (i, k, j), in scan order. */
  function Scan(ts: seq<Ticket>, c: Context, relaxed: bool, i: nat, k: nat, j: nat): Option<Pick>
    decreases |ts| - i, if i < |ts| then |ts[i].keys| - k else 0, |ts| - j
  {
    if |ts| <= i then None
    else if |ts[i].keys| <= k then Scan(ts, c, relaxed, i + 1, 0, 0)
    else if |ts| <= j then Scan(ts, c, relaxed, i, k + 1, 0)
    else if Hit(ts, c, relaxed, Pick(i, k, j)) then Some(Pick(i, k, j))
    else Scan(ts, c, relaxed, i, k, j + 1)
  }

  function FindPair(ts: seq<Ticket>, c: Context): Option<Pick> {
    var strict := Scan(ts, c, false, 0, 0, 0);
    if strict.Some? then strict else Scan(ts, c, true, 0, 0, 0)
  }

  /** One pass, as the queue runs it: three nested loops that stop at the first hit. */
  method FindPairPass(ts: seq<Ticket>, c: Context, relaxed: bool) returns (r: Option<Pick>)
    ensures r == Scan(ts, c, relaxed, 0, 0, 0)
  {
    var i := 0;
    while i < |ts|
      invariant i <= |ts|
      invariant Scan(ts, c, relaxed, 0, 0, 0) == Scan(ts, c, relaxed, i, 0, 0)
    {
      var a := ts[i];
      var k := 0;
      while k < |a.keys|
        invariant k <= |a.keys|
        invariant Scan(ts, c, relaxed, 0, 0, 0) == Scan(ts, c, relaxed, i, k, 0)
      {
        var j := 0;
        while j < |ts|
          invariant j <= |ts|
          invariant Scan(ts, c, relaxed, 0, 0, 0) == Scan(ts, c, relaxed, i, k, j)
        {
          var b := ts[j];
          if i != j && a.keys[k] in b.keys && Pairable(c, relaxed, a, b) {
            return Some(Pick(i, k, j));
          }
          j := j + 1;
        }
        k := k + 1;
      }
      i := i + 1;
    }
    return None;
  }

  method Find(ts: seq<Ticket>, c: Context) returns (r: Option<Pick>)
    ensures r == FindPair(ts, c)
  {
    r := FindPairPass(ts, c, false);
    if r.None? {
      r := FindPairPass(ts, c, true);
    }
  }

  /** Between the start of a scan and its answer there is no hit. */
  lemma {:induction false} ScanFrom(ts: seq<Ticket>, c: Context, relaxed: bool, i: nat, k: nat, j: nat)
    ensures var r := Scan(ts, c, relaxed, i, k, j);
            && (r.Some? ==> Hit(ts, c, relaxed, r.value) && !Before(r.value, Pick(i, k, j)))
            && forall q :: Hit(ts, c, relaxed, q) && !Before(q, Pick(i, k, j))
                           ==> r.Some? && !Before(q, r.value)
    decreases |ts| - i, if i < |ts| then |ts[i].keys| - k else 0, |ts| - j
  {
    if |ts| <= i {
    } else if |ts[i].keys| <= k {
      ScanFrom(ts, c, relaxed, i + 1, 0, 0);
    } else if |ts| <= j {
      ScanFrom(ts, c, relaxed, i, k + 1, 0);
    } else if !Hit(ts, c, relaxed, Pick(i, k, j)) {
      ScanFrom(ts, c, relaxed, i, k, j + 1);
    }
  }

  /** Eligibility does not care which ticket is asked first. */
  lemma PairableSymmetric(c: Context, relaxed: bool, a: Ticket, b: Ticket)
    ensures Pairable(c, relaxed, a, b) <==> Pairable(c, relaxed, b, a)
  {
  }

  /** A pass answers with the fair choice, or with nothing when nothing is eligible. */
  lemma {:induction false} PassIsFair(ts: seq<Ticket>, c: Context, relaxed: bool)
    ensures var r := Scan(ts, c, relaxed, 0, 0, 0);
            && (r.Some? <==> exists p :: Hit(ts, c, relaxed, p))
            && (r.Some? ==> IsFirst(ts, c, relaxed, r.value) && r.value.i < r.value.j)
  {
    ScanFrom(ts, c, relaxed, 0, 0, 0);
    var r := Scan(ts, c, relaxed, 0, 0, 0);
    if r.Some? && r.value.j <= r.value.i {
      var p := r.value;
      PairableSymmetric(c, relaxed, ts[p.i], ts[p.j]);
      var k :| 0 <= k < |ts[p.j].keys| && ts[p.j].keys[k] == ts[p.i].keys[p.k];
      assert Hit(ts, c, relaxed, Pick(p.j, k, p.i));
    }
  }

  /**
   The pair picked is the fair choice of the pass that found it; the tickets are
   named in queue order; and two recent opponents are picked only when no pair in
   the whole queue meets the strict rules.
   */
  lemma FairChoice(ts: seq<Ticket>, c: Context)
    ensures var r := FindPair(ts, c);
            && (r.None? <==> forall p :: !Hit(ts, c, true, p))
            && (r.Some? ==>
                  && r.value.i < r.value.j < |ts|
                  && r.value.k < |ts[r.value.i].keys|
                  && (IsFirst(ts, c, false, r.value) || IsFirst(ts, c, true, r.value))
                  && (!RematchOk(c, ts[r.value.i], ts[r.value.j]) ==>
                        IsFirst(ts, c, true, r.value) && forall p :: !Hit(ts, c, false, p)))
  {
    PassIsFair(ts, c, false);
    PassIsFair(ts, c, true);
    forall p | Hit(ts, c, false, p) ensures Hit(ts, c, true, p) {}
  }

  /** Waiting never disqualifies: a pair eligible now is eligible at every later time. */
  lemma WaitingNeverDisqualifies(c: Context, later: nat, relaxed: bool, a: Ticket, b: Ticket)
    requires c.now <= later
    requires Pairable(c, relaxed, a, b)
    ensures Pairable(c.(now := later), relaxed, a, b)
  {
  }

  lemma ElapsedGrows(since: nat, now: nat, later: nat)
    requires now <= later
    ensures ElapsedSecs(since, now) <= ElapsedSecs(since, later)
  {
  }

  // ----- the rules in plain numbers -----

  /** Measured, or three seconds in the queue. */
  predicate HadItsChance(t: Ticket, now: nat) {
    0 <= t.rttMs || t.queuedAt + 3_000 <= now
  }

  /** One of the two has waited this long. */
  predicate OneWaited(a: Ticket, b: Ticket, ms: nat, now: nat) {
    a.queuedAt + ms <= now || b.queuedAt + ms <= now
  }

  /**
   Two people who may play each other: no block either way, somebody to relay, both given
   the chance to measure, and a measured sum of at most 120 ms, or 180 once one has waited
   20 s, and so on up to 360 ms, until 100 s lift the ceiling.
  */
  predicate MayPlay(a: Ticket, b: Ticket, now: nat) {
    && a.accountId != b.accountId && b.accountId !in a.blocks && a.accountId !in b.blocks
    && (a.relayEndpoint.Some? || b.relayEndpoint.Some? || (a.iceRelay && b.iceRelay))
    && HadItsChance(a, now) && HadItsChance(b, now)
    && (0 <= a.rttMs && 0 <= b.rttMs ==> forall k: nat :: k < 5 ==> UnderCeiling(a, b, k, now))
  }

  /** Before either has waited 20 s for the `k + 1`st time, the sum is at most this. */
  predicate UnderCeiling(a: Ticket, b: Ticket, k: nat, now: nat) {
    OneWaited(a, b, 20_000 * (k + 1), now) || a.rttMs + b.rttMs <= 120 + 60 * k
  }

  /** They met less than the rematch cooldown ago, and neither has waited 100 s. */
  ghost predicate HeldApart(c: Context, a: Ticket, b: Ticket) {
    && !OneWaited(a, b, 100_000, c.now)
    && exists m :: && m in c.recent && 0 < c.cooldown && c.now < m.at + 1_000 * c.cooldown
                   && {m.a, m.b} == {a.accountId, b.accountId}
  }

  lemma CeilingIsStepwise(a: Ticket, b: Ticket, now: nat)
    requires 0 <= a.rttMs && 0 <= b.rttMs
    ensures RttOk(a, b, now) <==> forall k: nat :: k < 5 ==> UnderCeiling(a, b, k, now)
  {
    var steps := Max(Waited(a, now), Waited(b, now)) / RTT_WIDEN_SECS;
    forall k: nat ensures UnderCeiling(a, b, k, now) <==> k < steps || a.rttMs + b.rttMs <= 120 + 60 * k {
      assert OneWaited(a, b, 20_000 * (k + 1), now) <==> k < steps;
    }
    assert steps < 5 ==> (UnderCeiling(a, b, steps, now) <==> RttOk(a, b, now));
  }

  /** What makes a pair eligible, with the rematch preference and without. */
  lemma EligibleExactly(c: Context, relaxed: bool, a: Ticket, b: Ticket)
    ensures Pairable(c, relaxed, a, b) <==> MayPlay(a, b, c.now) && (relaxed || !HeldApart(c, a, b))
  {
    if 0 <= a.rttMs && 0 <= b.rttMs {
      CeilingIsStepwise(a, b, c.now);
    }
    if a.accountId != b.accountId {
      RematchExactly(c, a, b);
    }
    hide RttOk, RematchOk, OneWaited;
  }

  lemma RematchExactly(c: Context, a: Ticket, b: Ticket)
    requires a.accountId != b.accountId
    ensures RematchOk(c, a, b) <==> !HeldApart(c, a, b)
  {
    forall m: Played
      ensures Recent(m, c, a.accountId, b.accountId) <==>
                && 0 < c.cooldown && c.now < m.at + 1_000 * c.cooldown
                && {m.a, m.b} == {a.accountId, b.accountId}
    {
      if {m.a, m.b} == {a.accountId, b.accountId} {
        assert m.a in {a.accountId, b.accountId} && m.b in {a.accountId, b.accountId};
        assert a.accountId in {m.a, m.b} && b.accountId in {m.a, m.b};
      }
    }
  }

  /** After 100 s the round-trip ceiling and the rematch preference are both gone. */
  lemma PatienceSuffices(c: Context, a: Ticket, b: Ticket)
    requires a.accountId != b.accountId && b.accountId !in a.blocks && a.accountId !in b.blocks
    requires a.relayEndpoint.Some? || b.relayEndpoint.Some? || (a.iceRelay && b.iceRelay)
    requires HadItsChance(a, c.now) && HadItsChance(b, c.now) && OneWaited(a, b, 100_000, c.now)
    ensures Pairable(c, false, a, b)
  {
    EligibleExactly(c, false, a, b);
  }

  /** Two tickets that share a key, and the pass would take. */
  ghost predicate Eligible(ts: seq<Ticket>, c: Context, relaxed: bool, x: nat, y: nat) {
    && x < |ts| && y < |ts| && x != y && (exists key :: key in ts[x].keys && key in ts[y].keys)
    && MayPlay(ts[x], ts[y], c.now) && (relaxed || !HeldApart(c, ts[x], ts[y]))
  }

  lemma EligibleIsHit(ts: seq<Ticket>, c: Context, relaxed: bool, x: nat, y: nat)
    ensures Eligible(ts, c, relaxed, x, y) <==> exists k: nat :: Hit(ts, c, relaxed, Pick(x, k, y))
  {
    if x < |ts| && y < |ts| {
      EligibleExactly(c, relaxed, ts[x], ts[y]);
      if key :| key in ts[x].keys && key in ts[y].keys {
        var k :| 0 <= k < |ts[x].keys| && ts[x].keys[k] == key;
        assert Eligible(ts, c, relaxed, x, y) ==> Hit(ts, c, relaxed, Pick(x, k, y));
      }
    }
    hide Pairable, MayPlay, HeldApart;
  }

  /** What one pass answers, in terms of who may play. */
  ghost predicate FairAnswer(ts: seq<Ticket>, c: Context, relaxed: bool, r: Option<Pick>) {
    && (r.None? <==> forall x, y :: !Eligible(ts, c, relaxed, x, y))
    && (r.Some? ==>
          && r.value.i < r.value.j && Eligible(ts, c, relaxed, r.value.i, r.value.j)
          && (forall x, y :: Eligible(ts, c, relaxed, x, y) ==> r.value.i <= x)
          && r.value.k < |ts[r.value.i].keys| && ts[r.value.i].keys[r.value.k] in ts[r.value.j].keys)
  }

  lemma {:induction false} PassAnswersFairly(ts: seq<Ticket>, c: Context, relaxed: bool)
    ensures FairAnswer(ts, c, relaxed, Scan(ts, c, relaxed, 0, 0, 0))
  {
    PassIsFair(ts, c, relaxed);
    var r := Scan(ts, c, relaxed, 0, 0, 0);
    hide Eligible, Scan, Pairable;
    forall x: nat, y: nat | Eligible(ts, c, relaxed, x, y) ensures r.Some? && r.value.i <= x {
      EligibleIsHit(ts, c, relaxed, x, y);
      var k: nat :| Hit(ts, c, relaxed, Pick(x, k, y));
    }
    if r.Some? {
      assert r.value == Pick(r.value.i, r.value.k, r.value.j);
      EligibleIsHit(ts, c, relaxed, r.value.i, r.value.j);
    }
  }

  /**
   A search finds nobody exactly when no two tickets may play; else it names, in queue
   order, two that may, the first of them as far up the queue as any of its pass; and two
   who met lately only when that is true of every pair in the queue.
  */
  lemma SearchIsFair(ts: seq<Ticket>, c: Context)
    ensures var relaxed := forall x, y :: !Eligible(ts, c, false, x, y); FairAnswer(ts, c, relaxed, FindPair(ts, c))
  {
    PassAnswersFairly(ts, c, false);
    PassAnswersFairly(ts, c, true);
    hide Eligible, Scan;
  }

  /** What the filter keeps of the match history at `now`. */
  function FreshOnly(recent: seq<Played>, cooldown: nat, now: nat): seq<Played> {
    Filter(recent, (m: Played) => ElapsedSecs(m.at, now) < cooldown)
  }

  /** Forgetting lapsed meetings changes no verdict, now or at any later time. */
  lemma PruningIsInvisible(c: Context, later: nat, a: Ticket, b: Ticket)
    requires c.now <= later
    ensures RematchOk(c.(now := later), a, b)
            <==> RematchOk(Context(FreshOnly(c.recent, c.cooldown, c.now), c.cooldown, later), a, b)
  {
    FilterMembers(c.recent, (m: Played) => ElapsedSecs(m.at, c.now) < c.cooldown);
    forall m: Played ensures ElapsedSecs(m.at, c.now) <= ElapsedSecs(m.at, later) {
      ElapsedGrows(m.at, c.now, later);
    }
    var d := Context(FreshOnly(c.recent, c.cooldown, c.now), c.cooldown, later);
    forall m: Played
      ensures Recent(m, c.(now := later), a.accountId, b.accountId) <==> Recent(m, d, a.accountId, b.accountId)
    {
    }
  }
}
