/**
 Dodge strikes: the cooldown they impose and the sweep that forgets them.

 Rows carry the database clock, in whole seconds. `offer` is history only: it says
 which offer a strike was charged for, and nothing reads it to decide.
 */
module Retention {
  import opened Lists

  const STRIKE_WINDOW_SECS: nat := 86400
  const SECS_PER_DAY: nat := 86400
  const MAX_U64: nat := 0xFFFF_FFFF_FFFF_FFFF

  datatype Strike = Strike(account: string, kind: string, at: nat, offer: nat)

  /** The strikes of one account that still count at `now`. */
  function Counted(rows: seq<Strike>, account: string, now: nat): seq<Strike> {
    Filter(rows, (r: Strike) => r.account == account && now <= r.at + STRIKE_WINDOW_SECS)
  }

  function Latest(rows: seq<Strike>): (t: nat)
    requires rows != []
    ensures forall r :: r in rows ==> r.at <= t
  {
    if |rows| == 1 then rows[0].at
    else
      var rest := Latest(rows[1..]);
      assert rows == [rows[0]] + rows[1..];
      if rows[0].at < rest then rest else rows[0].at
  }

  function SaturatingSub(x: nat, y: nat): nat {
    if x < y then 0 else x - y
  }

  /** The rung of the ladder that `count` strikes reach. */
  function Rung(ladder: seq<nat>, count: nat): nat
    requires ladder != [] && 0 < count
  {
    if count <= |ladder| then ladder[count - 1] else ladder[|ladder| - 1]
  }

  /** Seconds an account must wait before queueing again. */
  function CooldownSecs(rows: seq<Strike>, account: string, now: nat, ladder: seq<nat>): nat {
    if ladder == [] then 0
    else
      var mine := Counted(rows, account, now);
      if mine == [] then 0
      else SaturatingSub(Rung(ladder, |mine|), SaturatingSub(now, Latest(mine)))
  }

  function CutoffSecs(retentionDays: nat, windowSecs: nat): nat {
    var wanted := retentionDays * SECS_PER_DAY;
    var retention := if MAX_U64 < wanted then MAX_U64 else wanted;
    if retention < windowSecs then windowSecs else retention
  }

  /** One sweep of the strike table. */
  function Prune(rows: seq<Strike>, retentionDays: nat, now: nat): seq<Strike> {
    Filter(rows, (r: Strike) => now <= r.at + CutoffSecs(retentionDays, STRIKE_WINDOW_SECS))
  }

  datatype TableEvent = Charge(row: Strike) | Sweep(retentionDays: nat, now: nat)

  /** The table after a history, with sweeps carried out or ignored. */
  function Table(history: seq<TableEvent>, sweeping: bool): seq<Strike> {
    if history == [] then []
    else
      var (before, e) := (history[..|history| - 1], history[|history| - 1]);
      match e
      case Charge(row) => Table(before, sweeping) + [row]
      case Sweep(days, now) =>
        if sweeping then Prune(Table(before, sweeping), days, now) else Table(before, sweeping)
  }

  /**
   Retention is invisible to enforcement: for any retention settings and any
   interleaving of strikes and sweeps, every cooldown computed at or after the last
   sweep is the one the unpruned table gives.
   */
  lemma {:induction false} SweepsAreInvisible(history: seq<TableEvent>, account: string, now: nat, ladder: seq<nat>)
    requires forall e :: e in history && e.Sweep? ==> e.now <= now
    ensures Counted(Table(history, true), account, now) == Counted(Table(history, false), account, now)
    ensures CooldownSecs(Table(history, true), account, now, ladder)
            == CooldownSecs(Table(history, false), account, now, ladder)
  {
    if history != [] {
      var (before, e) := (history[..|history| - 1], history[|history| - 1]);
      SweepsAreInvisible(before, account, now, ladder);
      match e
      case Charge(row) =>
        var counts := (r: Strike) => r.account == account && now <= r.at + STRIKE_WINDOW_SECS;
        FilterSnoc(Table(before, true), row, counts);
        FilterSnoc(Table(before, false), row, counts);
      case Sweep(days, at) =>
        PruneKeepsCounted(Table(before, true), days, at, account, now);
    }
  }

  lemma PruneKeepsCounted(rows: seq<Strike>, days: nat, at: nat, account: string, now: nat)
    requires at <= now
    ensures Counted(Prune(rows, days, at), account, now) == Counted(rows, account, now)
  {
    var counts := (r: Strike) => r.account == account && now <= r.at + STRIKE_WINDOW_SECS;
    FilterFilter(rows, (r: Strike) => at <= r.at + CutoffSecs(days, STRIKE_WINDOW_SECS), counts, counts);
  }

  /** How many strikes of the account are at most 24 hours old. */
  function Lately(rows: seq<Strike>, account: string, now: nat): nat {
    if rows == [] then 0
    else
      var r := rows[|rows| - 1];
      Lately(rows[..|rows| - 1], account, now) + (if r.account == account && now <= r.at + 86_400 then 1 else 0)
  }

  lemma {:induction false} CountedLately(rows: seq<Strike>, account: string, now: nat)
    ensures |Counted(rows, account, now)| == Lately(rows, account, now)
    decreases |rows|
  {
    if rows != [] {
      var (front, r) := (rows[..|rows| - 1], rows[|rows| - 1]);
      CountedLately(front, account, now);
      assert rows == front + [r];
      FilterSnoc(front, r, (x: Strike) => x.account == account && now <= x.at + STRIKE_WINDOW_SECS);
    }
  }

  /**
   What an account waits: nothing without a strike in the last 24 hours; else the rung its
   strikes of that time reach, the last rung at most, less the seconds since the latest.
  */
  lemma {:induction false} CooldownCountsDown(rows: seq<Strike>, account: string, now: nat, ladder: seq<nat>, k: nat)
    requires ladder != []
    ensures Lately(rows, account, now) == 0 ==> CooldownSecs(rows, account, now, ladder) == 0
    ensures k < |rows| && rows[k].account == account && now <= rows[k].at + 86_400
            && (forall r :: r in rows && r.account == account ==> r.at <= rows[k].at) ==>
              var (n, since) := (Lately(rows, account, now), now - rows[k].at);
              && n > 0
              && var rung := ladder[if n < |ladder| then n - 1 else |ladder| - 1];
                 CooldownSecs(rows, account, now, ladder) ==
                   if since <= 0 then rung else if since < rung then rung - since else 0
  {
    CountedLately(rows, account, now);
    var mine := Counted(rows, account, now);
    FilterMembers(rows, (x: Strike) => x.account == account && now <= x.at + STRIKE_WINDOW_SECS);
    if mine != [] {
      LatestIsMember(mine);
    }
    if k < |rows| && rows[k].account == account && now <= rows[k].at + 86_400 {
      assert rows[k] in rows && rows[k] in mine;
    }
  }

  /** A sweep at `now` keeps exactly the rows younger than the retention, or than 24 hours where that is longer. */
  lemma SweepsDropTheOld(rows: seq<Strike>, days: nat, now: nat)
    requires now <= MAX_U64
    ensures IsSubsequence(Prune(rows, days, now), rows)
    ensures forall r :: r in Prune(rows, days, now) <==>
              r in rows && (now <= r.at + 86_400 * days || now <= r.at + 86_400)
  {
    FilterMembers(rows, (r: Strike) => now <= r.at + CutoffSecs(days, STRIKE_WINDOW_SECS));
    FilterKeepsOrder(rows, (r: Strike) => now <= r.at + CutoffSecs(days, STRIKE_WINDOW_SECS));
  }

  ghost predicate NonDecreasing(ladder: seq<nat>) {
    forall i, j :: 0 <= i < j < |ladder| ==> ladder[i] <= ladder[j]
  }

  /** Under this ladder one more strike never makes any wait shorter. */
  ghost predicate StrikesNeverShorten(ladder: seq<nat>) {
    forall rows, s: Strike, now: nat ::
      CooldownSecs(rows, s.account, now, ladder) <= CooldownSecs(rows + [s], s.account, now, ladder)
  }

  lemma {:induction false} LatestGrows(rows: seq<Strike>, s: Strike)
    requires rows != []
    ensures Latest(rows) <= Latest(rows + [s])
  {
    LatestIsMember(rows);
    var m :| m in rows && m.at == Latest(rows);
    assert m in rows + [s];
  }

  lemma {:induction false} LatestIsMember(rows: seq<Strike>)
    requires rows != []
    ensures exists r :: r in rows && r.at == Latest(rows)
  {
    if |rows| == 1 {
      assert rows[0] in rows;
    } else {
      LatestIsMember(rows[1..]);
      var r :| r in rows[1..] && r.at == Latest(rows[1..]);
      assert r in rows && rows[0] in rows;
    }
  }

  lemma OneMoreStrike(rows: seq<Strike>, s: Strike, now: nat, ladder: seq<nat>)
    requires NonDecreasing(ladder)
    ensures CooldownSecs(rows, s.account, now, ladder) <= CooldownSecs(rows + [s], s.account, now, ladder)
  {
    var mine := Counted(rows, s.account, now);
    FilterSnoc(rows, s, (r: Strike) => r.account == s.account && now <= r.at + STRIKE_WINDOW_SECS);
    if ladder != [] && mine != [] {
      LatestGrows(mine, s);
    }
  }

  /** `count` strikes at time zero. */
  function Volley(account: string, count: nat): (rows: seq<Strike>)
    ensures |rows| == count
    ensures forall r :: r in rows ==> r.account == account && r.at == 0
  {
    if count == 0 then [] else Volley(account, count - 1) + [Strike(account, "decline", 0, 0)]
  }

  lemma {:induction false} VolleyCounts(account: string, count: nat)
    ensures Counted(Volley(account, count), account, 0) == Volley(account, count)
  {
    if count > 0 {
      VolleyCounts(account, count - 1);
      FilterSnoc(Volley(account, count - 1), Strike(account, "decline", 0, 0),
                 (r: Strike) => r.account == account && 0 <= r.at + STRIKE_WINDOW_SECS);
    }
  }

  lemma {:induction false} VolleyCooldown(account: string, count: nat, ladder: seq<nat>)
    requires 0 < count <= |ladder|
    ensures CooldownSecs(Volley(account, count), account, 0, ladder) == ladder[count - 1]
  {
    VolleyCounts(account, count);
  }

  lemma {:induction false} StepwiseOrdered(ladder: seq<nat>, i: nat, j: nat)
    requires forall k :: 0 <= k < |ladder| - 1 ==> ladder[k] <= ladder[k + 1]
    requires i <= j < |ladder|
    ensures ladder[i] <= ladder[j]
    decreases j - i
  {
    if i < j {
      StepwiseOrdered(ladder, i, j - 1);
      assert ladder[j - 1] <= ladder[j - 1 + 1];
    }
  }

  lemma VolleysRise(ladder: seq<nat>, k: nat)
    requires StrikesNeverShorten(ladder) && k + 1 < |ladder|
    ensures ladder[k] <= ladder[k + 1]
  {
    VolleyCooldown("x", k + 1, ladder);
    VolleyCooldown("x", k + 2, ladder);
    var s := Strike("x", "decline", 0, 0);
    assert Volley(s.account, k + 2) == Volley(s.account, k + 1) + [s];
    hide CooldownSecs, Volley;
    assert CooldownSecs(Volley("x", k + 1), s.account, 0, ladder)
        <= CooldownSecs(Volley("x", k + 1) + [s], s.account, 0, ladder);
  }

  /** One more strike never shortens a cooldown exactly when the ladder never steps down. */
  lemma LadderTheorem(ladder: seq<nat>)
    ensures StrikesNeverShorten(ladder) <==> NonDecreasing(ladder)
  {
    hide CooldownSecs;
    if NonDecreasing(ladder) {
      forall rows, s: Strike, now: nat
        ensures CooldownSecs(rows, s.account, now, ladder) <= CooldownSecs(rows + [s], s.account, now, ladder)
      {
        OneMoreStrike(rows, s, now, ladder);
      }
    }
    if StrikesNeverShorten(ladder) {
      forall k | 0 <= k < |ladder| - 1 ensures ladder[k] <= ladder[k + 1] {
        VolleysRise(ladder, k);
      }
      forall i, j | 0 <= i < j < |ladder| ensures ladder[i] <= ladder[j] {
        StepwiseOrdered(ladder, i, j);
      }
    }
  }
}
