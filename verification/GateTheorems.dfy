/** What the accept gate guarantees over every history, and the hub that runs it. */
module GateTheorems {
  import opened AcceptGate
  import opened Lists
  import opened Matchmaking
  import opened MatchQueue
  import opened Retention
  import opened Wrappers

  /** Every reachable state satisfies the invariant. */
  lemma {:induction false} GateInvariant(cfg: Config, h: History)
    ensures Inv(Run(cfg, h))
    decreases |h|
  {
    if h == [] {
      assert Accounts(MatchQueue.EMPTY) == multiset{};
      assert Ids(INITIAL) == multiset{};
    } else {
      GateInvariant(cfg, h[..|h| - 1]);
      StepKeeps(cfg, Run(cfg, h[..|h| - 1]), h[|h| - 1].0, h[|h| - 1].1);
    }
  }

  /** Everybody the queue holds: waiting tickets, then both sides of each live offer. */
  function Held(q: QueueState): seq<Ticket> {
    q.tickets + Seated(q.pending)
  }

  /** One account, one place: waiting once, or on one side of one live offer. */
  lemma {:induction false} OneTicketPerAccount(cfg: Config, h: History)
    ensures var held := Held(Run(cfg, h).queue);
            forall i, j :: 0 <= i < j < |held| ==> held[i].accountId != held[j].accountId
  {
    GateInvariant(cfg, h);
    var q := Run(cfg, h).queue;
    SeatedSides(q.pending);
    MapAppend(q.tickets, Seated(q.pending), AccountOf);
    assert multiset(MapSeq(Held(q), AccountOf)) == Accounts(q);
    forall i, j | 0 <= i < j < |Held(q)| ensures Held(q)[i].accountId != Held(q)[j].accountId {
      DistinctFromCounts(Held(q), AccountOf, i, j);
    }
  }

  /** The test the queue makes of an account: true exactly when one of the held places, and then only one, is its. */
  lemma {:induction false} QueuedMeansHeld(cfg: Config, h: History, account: string)
    ensures var (q, held) := (Run(cfg, h).queue, Held(Run(cfg, h).queue));
            IsQueued(q, account) <==>
              exists i :: && 0 <= i < |held| && held[i].accountId == account
                          && forall j :: 0 <= j < |held| && j != i ==> held[j].accountId != account
  {
    OneTicketPerAccount(cfg, h);
    QueuedIsHeld(Run(cfg, h).queue, account);
  }

  lemma QueuedIsHeld(q: QueueState, account: string)
    ensures IsQueued(q, account) <==> exists i :: 0 <= i < |Held(q)| && Held(q)[i].accountId == account
  {
    SeatedMembers(q.pending);
    assert forall t :: t in Held(q) <==> t in q.tickets || t in Seated(q.pending);
    if IsQueued(q, account) {
      var t :| t in Held(q) && t.accountId == account;
      var i :| 0 <= i < |Held(q)| && Held(q)[i] == t;
    }
    if i :| 0 <= i < |Held(q)| && Held(q)[i].accountId == account {
      assert Held(q)[i] in Held(q);
    }
  }

  /** No live offer is already decided, pairs an account with itself, or has been closed before. */
  lemma {:induction false} LiveOffersAreOpen(cfg: Config, h: History, o: Offer)
    requires o in Run(cfg, h).queue.pending
    ensures !o.Answered() && o.a.accountId != o.b.accountId
    ensures o.matchId !in Run(cfg, h).closed
  {
    GateInvariant(cfg, h);
    var s := Run(cfg, h);
    var i :| 0 <= i < |s.queue.pending| && s.queue.pending[i] == o;
    OfferSidesDiffer(s, i);
    LetGoIds(s, i, o);
  }

  /** How many live offers, plus how many closings, carry an id. */
  function TimesSeen(s: GateState, id: nat): nat {
    Ids(s)[id]
  }

  /** Each id issued so far belongs to exactly one live offer, or was closed exactly once; no other id was. */
  lemma {:induction false} EveryOfferClosesOnce(cfg: Config, h: History, id: nat)
    ensures var s := Run(cfg, h); TimesSeen(s, id) == if id < s.queue.nextId then 1 else 0
  {
    GateInvariant(cfg, h);
    SeenOnce(Run(cfg, h), id);
  }

  lemma SeenOnce(s: GateState, id: nat)
    requires IdsOnce(s)
    ensures TimesSeen(s, id) == if id < s.queue.nextId then 1 else 0
  {
  }

  /** No account is charged twice for one offer, in any history. */
  lemma {:induction false} ChargedAtMostOnce(cfg: Config, h: History, i: nat, j: nat)
    requires i < j < |Run(cfg, h).strikes|
    ensures var strikes := Run(cfg, h).strikes;
            strikes[i].offer != strikes[j].offer || strikes[i].account != strikes[j].account
  {
    GateInvariant(cfg, h);
  }

  // ----- a side that said yes is safe -----

  /** The reply is about this offer: it names its id, or, from an older client, none. */
  predicate MeantFor(e: Event, o: Offer)
    requires e.Reply?
  {
    e.matchId.None? || e.matchId == Some(o.matchId)
  }

  /** The player leaves the offer by this event. */
  predicate WalksAway(e: Event, o: Offer, player: string) {
    || e == Cancel(player) || e == Disconnect(player)
    || (e.Reply? && e.player == player && !e.accept && MeantFor(e, o))
  }

  predicate SaidYes(o: Offer, first: bool) {
    if first then o.aAccept == Some(true) else o.bAccept == Some(true)
  }

  /** The side has said yes to the offer, before this event or by it. */
  predicate SaysYes(o: Offer, first: bool, e: Event) {
    || SaidYes(o, first)
    || (e.Reply? && e.player == SideOf(o, first).playerId && e.accept && MeantFor(e, o))
  }

  /** No strike after the first `from` was charged to `account` for offer `id`. */
  ghost predicate NotCharged(strikes: seq<Strike>, from: nat, id: nat, account: string) {
    forall k :: from <= k < |strikes| ==> strikes[k].offer != id || strikes[k].account != account
  }

  lemma {:induction false} FoundOffer(s: GateState, i: nat, player: string)
    requires Inv(s) && i < |s.queue.pending| && s.queue.pending[i].HasPlayer(player)
    ensures FindOffer(s.queue.pending, player) == Some(i)
  {
    var at := FindOffer(s.queue.pending, player);
    assert s.queue.pending[i] in s.queue.pending;
    if at.value != i {
      OffersShareNobody(s, i, at.value, player);
    }
  }

  lemma IdsApart(s: GateState, i: nat, j: nat)
    requires IdsOnce(s) && i < |s.queue.pending| && j < |s.queue.pending| && i != j
    ensures s.queue.pending[i].matchId != s.queue.pending[j].matchId
  {
    var ids := MapSeq(s.queue.pending, IdOf);
    if ids[i] == ids[j] {
      CountedTwice(ids, i, j);
      SeenOnce(s, ids[i]);
    }
  }

  lemma CountedTwice(ids: seq<nat>, i: nat, j: nat)
    requires i < |ids| && j < |ids| && i != j && ids[i] == ids[j]
    ensures multiset(ids)[ids[i]] >= 2
  {
    var rest := RemoveAt(ids, j);
    RemoveAtKeeps(ids, j);
    assert rest[if i < j then i else i - 1] == ids[i];
    assert ids[i] in multiset(rest);
  }

  lemma {:induction false} WithdrawalCost(s: GateState, player: string, now: nat)
    ensures var at := FindOffer(s.queue.pending, player);
            Withdraw(s, player, now).strikes == s.strikes +
              if at.None? then []
              else var o := s.queue.pending[at.value];
                   [ChargeFor(if o.a.playerId == player then o.a else o.b, o, "timeout", now)]
  {
  }

  lemma WithdrawSpares(s: GateState, i: nat, first: bool, player: string, now: nat)
    requires Inv(s) && i < |s.queue.pending|
    requires SideOf(s.queue.pending[i], first).playerId != player
    ensures var o := s.queue.pending[i];
            NotCharged(Withdraw(s, player, now).strikes, |s.strikes|, o.matchId, SideOf(o, first).accountId)
  {
    WithdrawalCost(s, player, now);
    hide Withdraw;
    var at := FindOffer(s.queue.pending, player);
    if at.Some? {
      if at.value == i {
        OfferSidesDiffer(s, i);
      } else {
        IdsApart(s, i, at.value);
      }
    }
    hide Inv, FindOffer;
  }

  lemma AnswerIsYesOrNo(x: Option<bool>)
    ensures x.None? || x == Some(true) || x == Some(false)
  {
    if x.Some? {
      if x.value {
        assert x == Some(true);
      } else {
        assert x == Some(false);
      }
    }
  }

  /** Whoever is charged for a decided offer is a side that did not say yes. */
  lemma DecideSpares(s: GateState, o: Offer, first: bool, now: nat)
    requires o.a.playerId != o.b.playerId && o.a.accountId != o.b.accountId && o.Answered()
    requires SaidYes(o, first)
    ensures NotCharged(Decide(s, o, now).strikes, |s.strikes|, o.matchId, SideOf(o, first).accountId)
  {
    AnswerIsYesOrNo(o.aAccept);
    AnswerIsYesOrNo(o.bAccept);
    if !o.BothYes() {
      var other := if first then o.b else o.a;
      assert Decide(s, o, now) == Settle(s, o, other.playerId, "decline", now);
    }
  }

  lemma DecideElsewhere(s: GateState, o: Offer, id: nat, account: string, now: nat)
    requires o.matchId != id
    ensures NotCharged(Decide(s, o, now).strikes, |s.strikes|, id, account)
  {
  }

  lemma ReplySpares(s: GateState, i: nat, first: bool, e: Event, now: nat)
    requires Inv(s) && i < |s.queue.pending| && e.Reply?
    requires var o := s.queue.pending[i]; SaysYes(o, first, e) && !WalksAway(e, o, SideOf(o, first).playerId)
    ensures var o := s.queue.pending[i];
            NotCharged(HandleReply(s, e.player, e.accept, e.matchId, now).strikes, |s.strikes|,
                       o.matchId, SideOf(o, first).accountId)
  {
    var o := s.queue.pending[i];
    var (q, r) := AnswerFor(s.queue, e.player, e.accept, e.matchId);
    if r.Some? {
      var at := FindOffer(s.queue.pending, e.player).value;
      var s1 := CloseOffer(s.(queue := q), r.value);
      if at == i {
        OfferSidesDiffer(s, i);
        DecideSpares(s1, r.value, first, now);
      } else {
        IdsApart(s, i, at);
        DecideElsewhere(s1, r.value, o.matchId, SideOf(o, first).accountId, now);
      }
    }
  }

  /** A strike of an expiry run: charged for one of the lapsed offers, to a side that had not said yes. */
  ghost predicate FairCharge(xs: seq<Offer>, now: nat, st: Strike) {
    exists k, first :: 0 <= k < |xs| && ChargedTo(xs[k], first, now, st)
  }

  predicate ChargedTo(o: Offer, first: bool, now: nat, st: Strike) {
    st == Strike(SideOf(o, first).accountId, "timeout", now / 1000, o.matchId) && !SaidYes(o, first)
  }

  lemma LapsedCharge(s: GateState, o: Offer, now: nat)
    requires o.a.playerId != o.b.playerId && !o.Answered()
    ensures var s' := SettleLapsed(s, o, now);
            && |s.strikes| <= |s'.strikes| && s'.strikes[..|s.strikes|] == s.strikes
            && forall k :: |s.strikes| <= k < |s'.strikes| ==> FairCharge([o], now, s'.strikes[k])
  {
    var s' := SettleLapsed(s, o, now);
    forall k | |s.strikes| <= k < |s'.strikes| ensures FairCharge([o], now, s'.strikes[k]) {
      var first := o.aAccept != Some(true) && k == |s.strikes|;
      AnswerIsYesOrNo(o.aAccept);
      AnswerIsYesOrNo(o.bAccept);
      assert s'.strikes[k] == ChargeFor(SideOf(o, first), o, "timeout", now);
      assert ChargedTo([o][0], first, now, s'.strikes[k]);
    }
  }

  lemma {:induction false} ExpiryCharges(s: GateState, xs: seq<Offer>, now: nat)
    requires forall x :: x in xs ==> x.a.playerId != x.b.playerId && !x.Answered()
    ensures var s' := SettleAll(s, xs, now);
            && |s.strikes| <= |s'.strikes| && s'.strikes[..|s.strikes|] == s.strikes
            && forall k :: |s.strikes| <= k < |s'.strikes| ==> FairCharge(xs, now, s'.strikes[k])
    decreases |xs|
  {
    if xs != [] {
      var o := xs[0];
      var s1 := SettleLapsed(CloseOffer(s, o), o, now);
      var s' := SettleAll(s, xs, now);
      LapsedCharge(CloseOffer(s, o), o, now);
      ExpiryCharges(s1, xs[1..], now);
      forall k | |s.strikes| <= k < |s'.strikes| ensures FairCharge(xs, now, s'.strikes[k]) {
        if k < |s1.strikes| {
          assert s'.strikes[k] == s1.strikes[k];
          FairChargeWidens([o], xs, 0, now, s1.strikes[k]);
        } else {
          FairChargeWidens(xs[1..], xs, 1, now, s'.strikes[k]);
        }
      }
      assert s'.strikes[..|s.strikes|] == s'.strikes[..|s1.strikes|][..|s.strikes|];
    }
  }

  lemma FairChargeWidens(part: seq<Offer>, xs: seq<Offer>, at: nat, now: nat, st: Strike)
    requires at + |part| <= |xs| && part == xs[at..at + |part|]
    requires FairCharge(part, now, st)
    ensures FairCharge(xs, now, st)
  {
  }

  lemma LapsedAreLive(s: GateState, acceptSecs: nat, now: nat)
    requires Inv(s)
    ensures forall x :: x in Lapsed(s.queue.pending, acceptSecs, now, true) ==>
              && x in s.queue.pending && x.a.playerId != x.b.playerId && !x.Answered()
              && (acceptSecs == 0 || x.offeredAt + 1000 * acceptSecs <= now)
  {
    var pending := s.queue.pending;
    FilterMembers(pending, (x: Offer) => x.Expired(acceptSecs, now) == true);
    forall x | x in Lapsed(pending, acceptSecs, now, true)
      ensures x in pending && x.a.playerId != x.b.playerId && !x.Answered()
    {
      var j :| 0 <= j < |pending| && pending[j] == x;
      OfferSidesDiffer(s, j);
    }
  }

  lemma ExpirySpares(cfg: Config, s: GateState, i: nat, first: bool, now: nat)
    requires Inv(s) && i < |s.queue.pending|
    requires SaidYes(s.queue.pending[i], first)
    ensures var o := s.queue.pending[i];
            NotCharged(Expire(cfg, s, now).strikes, |s.strikes|, o.matchId, SideOf(o, first).accountId)
  {
    var pending, o := s.queue.pending, s.queue.pending[i];
    var xs := Lapsed(pending, cfg.acceptSecs, now, true);
    LapsedAreLive(s, cfg.acceptSecs, now);
    ExpiryCharges(s.(queue := s.queue.(pending := Lapsed(pending, cfg.acceptSecs, now, false))), xs, now);
    forall x | x in xs && x.matchId == o.matchId ensures x == o {
      var j :| 0 <= j < |pending| && pending[j] == x;
      if j != i {
        IdsApart(s, i, j);
      }
    }
    OfferSidesDiffer(s, i);
  }

  /**
   A side that has accepted and does not itself decline, cancel or disconnect is
   never charged for the offer, whatever the next event is.
  */
  lemma {:induction false} AccepterIsNeverCharged(cfg: Config, h: History, i: nat, first: bool, now: nat, e: Event)
    requires i < |Run(cfg, h).queue.pending|
    requires var o := Run(cfg, h).queue.pending[i];
             SaysYes(o, first, e) && !WalksAway(e, o, SideOf(o, first).playerId)
    ensures var (s, o) := (Run(cfg, h), Run(cfg, h).queue.pending[i]);
            NotCharged(Step(cfg, s, now, e).strikes, |s.strikes|, o.matchId, SideOf(o, first).accountId)
  {
    GateInvariant(cfg, h);
    var s := Run(cfg, h);
    match e
    case Cancel(p) => WithdrawSpares(s, i, first, p, now);
    case Disconnect(p) => WithdrawSpares(s, i, first, p, now);
    case Reply(p, accept, matchId) => ReplySpares(s, i, first, e, now);
    case Tick => ExpirySpares(cfg, s, i, first, now);
    case _ =>
  }

  // ----- every charge there ever was -----

  /** A strike against one side of a live offer. */
  predicate ChargesSide(o: Offer, first: bool, st: Strike) {
    st.offer == o.matchId && st.account == SideOf(o, first).accountId
  }

  /**
   Why this strike was charged: its side left the offer by the event, or let it lapse
   unanswered; and it is recorded as that, at the event's second.
  */
  predicate Cause(cfg: Config, o: Offer, first: bool, now: nat, e: Event, st: Strike) {
    && ChargesSide(o, first, st)
    && st.at == now / 1000 && st.kind == (if e.Reply? then "decline" else "timeout")
    && if e.Tick? then !SaidYes(o, first) && RanOut(cfg, o, now) else WalksAway(e, o, SideOf(o, first).playerId)
  }

  /** The time to answer is over. */
  predicate RanOut(cfg: Config, o: Offer, now: nat) {
    cfg.acceptSecs == 0 || o.offeredAt + 1000 * cfg.acceptSecs <= now
  }

  ghost predicate ChargesLive(cfg: Config, s: GateState, now: nat, e: Event, st: Strike) {
    exists i, first :: 0 <= i < |s.queue.pending| && Cause(cfg, s.queue.pending[i], first, now, e, st)
  }

  /** The strikes are the old ones, and then only strikes with a cause in this event. */
  ghost predicate ChargesOnlyLive(cfg: Config, s: GateState, now: nat, e: Event, strikes: seq<Strike>) {
    && s.strikes <= strikes
    && forall k :: |s.strikes| <= k < |strikes| ==> ChargesLive(cfg, s, now, e, strikes[k])
  }

  lemma WithdrawCharges(cfg: Config, s: GateState, now: nat, e: Event)
    requires e.Cancel? || e.Disconnect?
    ensures ChargesOnlyLive(cfg, s, now, e, Withdraw(s, e.player, now).strikes)
  {
    var at := FindOffer(s.queue.pending, e.player);
    if at.Some? {
      var o := s.queue.pending[at.value];
      var strikes := Withdraw(s, e.player, now).strikes;
      assert Cause(cfg, s.queue.pending[at.value], o.a.playerId == e.player, now, e, strikes[|s.strikes|]);
    }
  }

  lemma OneCharge(cfg: Config, s: GateState, now: nat, e: Event, i: nat, first: bool, st: Strike)
    requires i < |s.queue.pending| && Cause(cfg, s.queue.pending[i], first, now, e, st)
    ensures ChargesOnlyLive(cfg, s, now, e, s.strikes + [st])
  {
    hide Cause;
  }

  lemma ReplyCharges(cfg: Config, s: GateState, now: nat, e: Event)
    requires Inv(s) && e.Reply?
    ensures ChargesOnlyLive(cfg, s, now, e, HandleReply(s, e.player, e.accept, e.matchId, now).strikes)
  {
    var at := FindOffer(s.queue.pending, e.player);
    if at.Some? {
      var was := s.queue.pending[at.value];
      assert was in s.queue.pending;
      OfferSidesDiffer(s, at.value);
      ReplyCharge(s, at.value, now, e);
      hide Inv, HandleReply;
      var strikes := HandleReply(s, e.player, e.accept, e.matchId, now).strikes;
      if strikes != s.strikes {
        OneCharge(cfg, s, now, e, at.value, was.a.playerId == e.player, strikes[|s.strikes|]);
      }
    }
  }

  /** A reply charges nobody but a side that declines its own live offer. */
  lemma ReplyCharge(s: GateState, i: nat, now: nat, e: Event)
    requires e.Reply? && FindOffer(s.queue.pending, e.player) == Some(i) && i < |s.queue.pending|
    requires var was := s.queue.pending[i]; !was.Answered() && was.a.playerId != was.b.playerId
    ensures var (was, strikes) := (s.queue.pending[i], HandleReply(s, e.player, e.accept, e.matchId, now).strikes);
            || strikes == s.strikes
            || (&& !e.accept && MeantFor(e, was)
                && strikes == s.strikes + [Strike((if was.a.playerId == e.player then was.a else was.b).accountId,
                                                  "decline", now / 1000, was.matchId)])
  {
    var was := s.queue.pending[i];
    if was.Record(e.player, e.accept).Answered() {
      var s1 := s.(queue := s.queue.(pending := RemoveAt(s.queue.pending, i)));
      OnlyADeclineCharges(CloseOffer(s1, was.Record(e.player, e.accept)), was, e, now);
      hide Decide;
    }
  }

  lemma OnlyADeclineCharges(s: GateState, was: Offer, e: Event, now: nat)
    requires e.Reply? && was.HasPlayer(e.player) && !was.Answered() && was.a.playerId != was.b.playerId
    requires was.Record(e.player, e.accept).Answered()
    ensures var (o, loser) := (was.Record(e.player, e.accept), if was.a.playerId == e.player then was.a else was.b);
            Decide(s, o, now).strikes
            == if e.accept then s.strikes else s.strikes + [Strike(loser.accountId, "decline", now / 1000, was.matchId)]
  {
    AnswerIsYesOrNo(was.aAccept);
    AnswerIsYesOrNo(was.bAccept);
  }

  lemma ExpiryChargesLive(cfg: Config, s: GateState, now: nat)
    requires Inv(s)
    ensures ChargesOnlyLive(cfg, s, now, Tick, Expire(cfg, s, now).strikes)
  {
    var pending := s.queue.pending;
    var xs := Lapsed(pending, cfg.acceptSecs, now, true);
    var strikes := Expire(cfg, s, now).strikes;
    LapsedAreLive(s, cfg.acceptSecs, now);
    hide Inv, Lapsed;
    ExpiryCharges(WithPending(s, Lapsed(pending, cfg.acceptSecs, now, false)), xs, now);
    hide SaidYes, Expire, SettleAll;
    forall k | |s.strikes| <= k < |strikes| ensures ChargesLive(cfg, s, now, Tick, strikes[k]) {
      var n, first :| 0 <= n < |xs| && ChargedTo(xs[n], first, now, strikes[k]);
      assert xs[n] in pending;
      var i :| 0 <= i < |pending| && pending[i] == xs[n];
      LapseIsACause(cfg, pending[i], first, now, strikes[k]);
    }
  }

  lemma LapseIsACause(cfg: Config, o: Offer, first: bool, now: nat, st: Strike)
    requires ChargedTo(o, first, now, st) && RanOut(cfg, o, now)
    ensures Cause(cfg, o, first, now, Tick, st)
  {
  }

  lemma StepCharges(cfg: Config, s: GateState, now: nat, e: Event)
    requires Inv(s)
    ensures ChargesOnlyLive(cfg, s, now, e, Step(cfg, s, now, e).strikes)
  {
    match e
    case Cancel(p) => WithdrawCharges(cfg, s, now, e);
    case Disconnect(p) => WithdrawCharges(cfg, s, now, e);
    case Reply(p, accept, matchId) => ReplyCharges(cfg, s, now, e);
    case Tick => ExpiryChargesLive(cfg, s, now);
    case _ =>
  }

  lemma StrikesGrow(cfg: Config, s: GateState, now: nat, e: Event)
    requires Inv(s)
    ensures s.strikes <= Step(cfg, s, now, e).strikes
  {
    StepCharges(cfg, s, now, e);
    hide Step, Inv, ChargesLive;
  }

  /** A strike the next event adds has its cause in that event. */
  lemma NewChargeHasCause(cfg: Config, s: GateState, now: nat, e: Event, k: nat) returns (i: nat, first: bool)
    requires Inv(s) && |s.strikes| <= k < |Step(cfg, s, now, e).strikes|
    ensures i < |s.queue.pending| && Cause(cfg, s.queue.pending[i], first, now, e, Step(cfg, s, now, e).strikes[k])
  {
    StepCharges(cfg, s, now, e);
    hide Step, Inv, Cause;
    i, first :| i < |s.queue.pending| && Cause(cfg, s.queue.pending[i], first, now, e, Step(cfg, s, now, e).strikes[k]);
  }

  /** Strike number `k` was added by event `n`, against a side of the offer live at place `i` just before, for cause. */
  ghost predicate MadeBy(cfg: Config, h: History, n: nat, i: nat, first: bool, k: nat, st: Strike) {
    && n < |h| && |Run(cfg, h[..n]).strikes| <= k < |Run(cfg, h[..n + 1]).strikes|
    && i < |Run(cfg, h[..n]).queue.pending|
    && Cause(cfg, Run(cfg, h[..n]).queue.pending[i], first, h[n].0, h[n].1, st)
  }

  lemma MadeByStays(cfg: Config, before: History, h: History, n: nat, i: nat, first: bool, k: nat, st: Strike)
    requires before <= h && MadeBy(cfg, before, n, i, first, k, st)
    ensures MadeBy(cfg, h, n, i, first, k, st)
  {
    hide Run, Cause;
    assert before[..n] == h[..n] && before[..n + 1] == h[..n + 1] && before[n] == h[n];
  }

  lemma {:induction false} LastEventMade(cfg: Config, h: History, k: nat) returns (i: nat, first: bool)
    requires h != [] && |Run(cfg, h[..|h| - 1]).strikes| <= k < |Run(cfg, h).strikes|
    ensures MadeBy(cfg, h, |h| - 1, i, first, k, Run(cfg, h).strikes[k])
  {
    var s := Run(cfg, h[..|h| - 1]);
    GateInvariant(cfg, h[..|h| - 1]);
    i, first := NewChargeHasCause(cfg, s, h[|h| - 1].0, h[|h| - 1].1, k);
    assert h[..|h|] == h;
    hide Step, Inv, Cause;
  }

  /**
   Every strike of every history has its cause: the one event that charged it, and the
   offer, live just before it, that its side left by that event or let lapse unanswered.
   Nobody who accepted and stayed ever pays, then or later.
  */
  lemma {:induction false} EveryChargeIsFair(cfg: Config, h: History, k: nat) returns (n: nat, i: nat, first: bool)
    requires k < |Run(cfg, h).strikes|
    ensures MadeBy(cfg, h, n, i, first, k, Run(cfg, h).strikes[k])
    decreases |h|
  {
    var before := h[..|h| - 1];
    GateInvariant(cfg, before);
    StrikesGrow(cfg, Run(cfg, before), h[|h| - 1].0, h[|h| - 1].1);
    hide Step, Inv, MadeBy;
    if k < |Run(cfg, before).strikes| {
      n, i, first := EveryChargeIsFair(cfg, before, k);
      MadeByStays(cfg, before, h, n, i, first, k, Run(cfg, before).strikes[k]);
    } else {
      n := |h| - 1;
      i, first := LastEventMade(cfg, h, k);
    }
  }

  lemma ReplyForms(s: GateState, player: string, accept: bool, matchId: Option<nat>, now: nat, o: Offer)
    requires var s' := HandleReply(s, player, accept, matchId, now); o in s'.formed && o !in s.formed
    ensures HandleReply(s, player, accept, matchId, now).strikes == s.strikes
    ensures exists was :: was in s.queue.pending && was.matchId == o.matchId
  {
    var was := s.queue.pending[FindOffer(s.queue.pending, player).value];
    assert was in s.queue.pending && was.matchId == o.matchId;
  }

  /** What a step adds to the matches, if anything, is one offer that was live and costs nobody anything. */
  lemma StepForms(cfg: Config, s: GateState, now: nat, e: Event, o: Offer)
    requires o in Step(cfg, s, now, e).formed && o !in s.formed
    ensures e.Reply? && Step(cfg, s, now, e).strikes == s.strikes
    ensures exists was :: was in s.queue.pending && was.matchId == o.matchId
  {
    hide HandleReply, PairUp;
    if e.Reply? {
      ReplyForms(s, e.player, e.accept, e.matchId, now, o);
    } else if e.Tick? {
      SettleAllPending(WithPending(s, Lapsed(s.queue.pending, cfg.acceptSecs, now, false)),
                       Lapsed(s.queue.pending, cfg.acceptSecs, now, true), now);
    }
  }

  lemma LiveIsNotClosed(s: GateState, o: Offer)
    requires Inv(s) && o in s.queue.pending
    ensures o.matchId !in s.closed
  {
    var i :| 0 <= i < |s.queue.pending| && s.queue.pending[i] == o;
    LetGoIds(s, i, o);
  }

  /** An offer that became a match never costs anybody a strike, before or after. */
  lemma {:induction false} MatchesCostNothing(cfg: Config, h: History, o: Offer, k: nat)
    requires o in Run(cfg, h).formed && k < |Run(cfg, h).strikes|
    ensures Run(cfg, h).strikes[k].offer != o.matchId
    decreases |h|
  {
    var before := h[..|h| - 1];
    var (s, now, e) := (Run(cfg, before), h[|h| - 1].0, h[|h| - 1].1);
    GateInvariant(cfg, before);
    StepCharges(cfg, s, now, e);
    var st := Run(cfg, h).strikes[k];
    if o !in s.formed {
      StepForms(cfg, s, now, e, o);
      var was :| was in s.queue.pending && was.matchId == o.matchId;
      LiveIsNotClosed(s, was);
    } else if k < |s.strikes| {
      MatchesCostNothing(cfg, before, o, k);
    } else {
      var i, first :| 0 <= i < |s.queue.pending| && Cause(cfg, s.queue.pending[i], first, now, e, st);
      LiveIsNotClosed(s, s.queue.pending[i]);
    }
  }

  // ----- every closed offer has one outcome -----

  ghost predicate BecameMatch(s: GateState, id: nat) {
    exists o :: o in s.formed && o.matchId == id
  }

  ghost predicate CostAStrike(s: GateState, id: nat) {
    exists st :: st in s.strikes && st.offer == id
  }

  ghost predicate Resolved(s: GateState, id: nat) {
    BecameMatch(s, id) || CostAStrike(s, id)
  }

  /** Nothing recorded is lost, and what is newly closed is resolved. */
  ghost predicate ResolvesOnward(s: GateState, s': GateState) {
    && (forall id :: Resolved(s, id) ==> Resolved(s', id))
    && (forall id :: id in s'.closed && id !in s.closed ==> Resolved(s', id))
  }

  lemma MoreRecorded(s: GateState, s': GateState)
    requires s.formed <= s'.formed && s.strikes <= s'.strikes
    ensures forall id :: Resolved(s, id) ==> Resolved(s', id)
  {
    forall id | Resolved(s, id) ensures Resolved(s', id) {
      if o :| o in s.formed && o.matchId == id {
        assert o in s'.formed;
      }
      if st :| st in s.strikes && st.offer == id {
        assert st in s'.strikes;
      }
    }
  }

  lemma SettleResolves(s: GateState, o: Offer, loser: string, kind: string, now: nat)
    ensures ResolvesOnward(s, Settle(CloseOffer(s, o), o, loser, kind, now))
  {
    var s' := Settle(CloseOffer(s, o), o, loser, kind, now);
    MoreRecorded(s, s');
    assert s'.strikes[|s.strikes|] in s'.strikes;
  }

  lemma DecideResolves(s: GateState, o: Offer, now: nat)
    ensures ResolvesOnward(s, Decide(CloseOffer(s, o), o, now))
  {
    if o.BothYes() {
      var s' := Decide(CloseOffer(s, o), o, now);
      MoreRecorded(s, s');
      assert s'.formed[|s.formed|] == o;
    } else {
      SettleResolves(s, o, if o.aAccept == Some(false) then o.a.playerId else o.b.playerId, "decline", now);
    }
  }

  lemma LapseResolves(s: GateState, o: Offer, now: nat)
    ensures ResolvesOnward(s, SettleLapsed(CloseOffer(s, o), o, now))
  {
    var s' := SettleLapsed(CloseOffer(s, o), o, now);
    if o.aAccept != Some(true) && o.bAccept != Some(true) {
      MoreRecorded(s, s');
      assert s'.strikes[|s.strikes|] in s'.strikes;
    } else {
      SettleResolves(s, o, if o.aAccept != Some(true) then o.a.playerId else o.b.playerId, "timeout", now);
    }
  }

  lemma OnwardTwice(s: GateState, m: GateState, s': GateState)
    requires ResolvesOnward(s, m) && ResolvesOnward(m, s')
    ensures ResolvesOnward(s, s')
  {
  }

  lemma {:induction false} ExpiryResolves(s: GateState, xs: seq<Offer>, now: nat)
    ensures ResolvesOnward(s, SettleAll(s, xs, now))
    decreases |xs|
  {
    if xs != [] {
      var m := SettleLapsed(CloseOffer(s, xs[0]), xs[0], now);
      LapseResolves(s, xs[0], now);
      ExpiryResolves(m, xs[1..], now);
      OnwardTwice(s, m, SettleAll(s, xs, now));
    }
  }

  lemma StepResolves(cfg: Config, s: GateState, now: nat, e: Event)
    ensures ResolvesOnward(s, Step(cfg, s, now, e))
  {
    hide PairUp, SettleLapsed, Settle, Decide, Lapsed, SetRtt, ResolvesOnward;
    match e
    case Cancel(p) => WithdrawResolves(s, p, now);
    case Disconnect(p) =>
      WithdrawResolves(s, p, now);
      SameRecord(s, s, Withdraw(s, p, now), Step(cfg, s, now, e));
    case Reply(p, accept, matchId) => ReplyResolves(s, p, accept, matchId, now);
    case Tick =>
      var s0 := WithPending(s, Lapsed(s.queue.pending, cfg.acceptSecs, now, false));
      ExpiryResolves(s0, Lapsed(s.queue.pending, cfg.acceptSecs, now, true), now);
      SameRecord(s, s0, Expire(cfg, s, now), Step(cfg, s, now, e));
    case _ => SameRecord(s, s, s, Step(cfg, s, now, e));
  }

  lemma WithdrawResolves(s: GateState, player: string, now: nat)
    ensures ResolvesOnward(s, Withdraw(s, player, now))
  {
    var (q, r) := RemovePlayer(s.queue, player);
    if r.Some? {
      SettleResolves(s.(queue := q), r.value, player, "timeout", now);
    }
  }

  lemma ReplyResolves(s: GateState, player: string, accept: bool, matchId: Option<nat>, now: nat)
    ensures ResolvesOnward(s, HandleReply(s, player, accept, matchId, now))
  {
    var (q, r) := AnswerFor(s.queue, player, accept, matchId);
    if r.Some? {
      DecideResolves(s.(queue := q), r.value, now);
    }
  }

  /** Queue and clients do not matter to the record. */
  lemma SameRecord(s: GateState, s0: GateState, m: GateState, s': GateState)
    requires ResolvesOnward(s0, m) || m == s0
    requires s0.strikes == s.strikes && s0.formed == s.formed && s0.closed == s.closed
    requires s'.strikes == m.strikes && s'.formed == m.formed && s'.closed == m.closed
    ensures ResolvesOnward(s, s')
  {
    MoreRecorded(s, s0);
    MoreRecorded(m, s');
    hide Resolved;
  }

  lemma {:induction false} ClosedIsResolved(cfg: Config, h: History, id: nat)
    requires id in Run(cfg, h).closed
    ensures Resolved(Run(cfg, h), id)
    decreases |h|
  {
    var before := h[..|h| - 1];
    StepResolves(cfg, Run(cfg, before), h[|h| - 1].0, h[|h| - 1].1);
    hide Step, Resolved;
    if id in Run(cfg, before).closed {
      ClosedIsResolved(cfg, before, id);
    }
  }

  /**
   Over every history, the closed offers are exactly those that became a match and those
   that cost somebody a strike, and none did both.
  */
  lemma {:induction false} ClosedEitherWay(cfg: Config, h: History, id: nat)
    ensures var s := Run(cfg, h);
            && (id in s.closed <==> BecameMatch(s, id) || CostAStrike(s, id))
            && !(BecameMatch(s, id) && CostAStrike(s, id))
  {
    var s := Run(cfg, h);
    GateInvariant(cfg, h);
    if id in s.closed {
      ClosedIsResolved(cfg, h, id);
    }
    if st :| st in s.strikes && st.offer == id {
      var k :| 0 <= k < |s.strikes| && s.strikes[k] == st;
      if o :| o in s.formed && o.matchId == id {
        MatchesCostNothing(cfg, h, o, k);
      }
    }
  }

  // ----- and goes back to the front -----

  /** The accepters of the lapsed offers that had one, the last offer's first, with fresh clocks. */
  function Innocents(xs: seq<Offer>, now: nat): seq<Ticket> {
    if xs == [] then []
    else
      Innocents(xs[1..], now)
      + (if SaidYes(xs[0], true) then [xs[0].a.(queuedAt := now)]
         else if SaidYes(xs[0], false) then [xs[0].b.(queuedAt := now)]
         else [])
  }

  lemma {:induction false} ExpiryRequeues(s: GateState, xs: seq<Offer>, now: nat)
    requires forall x :: x in xs ==> x.a.playerId != x.b.playerId && !x.Answered()
    requires forall x :: x in xs ==> x.a.playerId in s.clients && x.b.playerId in s.clients
    ensures SettleAll(s, xs, now).queue.tickets == Innocents(xs, now) + s.queue.tickets
    decreases |xs|
  {
    if xs != [] {
      var o := xs[0];
      var s1 := SettleLapsed(CloseOffer(s, o), o, now);
      LapsedRequeues(CloseOffer(s, o), o, now);
      ExpiryRequeues(s1, xs[1..], now);
    }
  }

  lemma {:induction false} LapsedRequeues(s: GateState, o: Offer, now: nat)
    requires o.a.playerId != o.b.playerId && !o.Answered()
    requires o.a.playerId in s.clients && o.b.playerId in s.clients
    ensures SettleLapsed(s, o, now).queue.tickets == Innocents([o], now) + s.queue.tickets
    ensures SettleLapsed(s, o, now).clients == s.clients
  {
  }

  /** After an expiry the queue is the innocent accepters, all connected still, ahead of everybody who was waiting. */
  lemma {:induction false} ExpiryRequeuesAccepters(cfg: Config, h: History, now: nat)
    ensures var s := Run(cfg, h);
            Expire(cfg, s, now).queue.tickets
            == Innocents(Lapsed(s.queue.pending, cfg.acceptSecs, now, true), now) + s.queue.tickets
  {
    GateInvariant(cfg, h);
    var s := Run(cfg, h);
    var pending := s.queue.pending;
    var xs := Lapsed(pending, cfg.acceptSecs, now, true);
    LapsedAreLive(s, cfg.acceptSecs, now);
    ExpiryRequeues(WithPending(s, Lapsed(pending, cfg.acceptSecs, now, false)), xs, now);
  }

  /** `t` waits at the front, with a fresh clock, and the rest of the queue kept its order. */
  ghost predicate AtFront(q: QueueState, t: Ticket, before: QueueState, now: nat) {
    && |q.tickets| > 0
    && q.tickets[0] == t.(queuedAt := now)
    && IsSubsequence(q.tickets[1..], before.tickets)
  }

  /**
   When one side of a live offer cancels, disconnects or declines, the offer is
   closed without a match, that side is charged exactly once, and the other side is
   back at the front of the queue.
  */
  lemma {:induction false} LeaverPaysOtherReturns(cfg: Config, h: History, i: nat, first: bool, now: nat, e: Event)
    requires i < |Run(cfg, h).queue.pending|
    requires var o := Run(cfg, h).queue.pending[i];
             WalksAway(e, o, SideOf(o, first).playerId)
    ensures var (s, o) := (Run(cfg, h), Run(cfg, h).queue.pending[i]);
            var s' := Step(cfg, s, now, e);
            && s'.closed == s.closed + [o.matchId] && s'.formed == s.formed
            && s'.queue.pending == RemoveAt(s.queue.pending, i)
            && s'.strikes == s.strikes
                             + [ChargeFor(SideOf(o, first), o, if e.Reply? then "decline" else "timeout", now)]
            && AtFront(s'.queue, SideOf(o, !first), s.queue, now)
  {
    GateInvariant(cfg, h);
    var s := Run(cfg, h);
    var o := s.queue.pending[i];
    OfferSidesDiffer(s, i);
    FoundOffer(s, i, SideOf(o, first).playerId);
    assert o in s.queue.pending;
    if e.Reply? {
      SubsequenceReflexive(s.queue.tickets);
      DeclineSettles(s, i, first, e.matchId, now);
    } else {
      FilterKeepsOrder(s.queue.tickets, (t: Ticket) => t.playerId != e.player);
      WithdrawSettles(s, i, first, now);
    }
  }

  lemma DeclineSettles(s: GateState, i: nat, first: bool, matchId: Option<nat>, now: nat)
    requires i < |s.queue.pending|
    requires var o := s.queue.pending[i];
             && o.a.playerId != o.b.playerId && SideOf(o, !first).playerId in s.clients && !o.Answered()
             && FindOffer(s.queue.pending, SideOf(o, first).playerId) == Some(i)
             && (matchId.None? || matchId == Some(o.matchId))
    ensures var o := s.queue.pending[i];
            var s' := HandleReply(s, SideOf(o, first).playerId, false, matchId, now);
            && s'.strikes == s.strikes + [ChargeFor(SideOf(o, first), o, "decline", now)]
            && s'.queue == s.queue.(tickets := [SideOf(o, !first).(queuedAt := now)] + s.queue.tickets,
                                    pending := RemoveAt(s.queue.pending, i))
            && s'.closed == s.closed + [o.matchId] && s'.formed == s.formed
  {
  }

  lemma WithdrawSettles(s: GateState, i: nat, first: bool, now: nat)
    requires i < |s.queue.pending|
    requires var o := s.queue.pending[i];
             && o.a.playerId != o.b.playerId && SideOf(o, !first).playerId in s.clients
             && FindOffer(s.queue.pending, SideOf(o, first).playerId) == Some(i)
    ensures var o := s.queue.pending[i];
            var s' := Withdraw(s, SideOf(o, first).playerId, now);
            && s'.strikes == s.strikes + [ChargeFor(SideOf(o, first), o, "timeout", now)]
            && s'.queue == s.queue.(
                 tickets := [SideOf(o, !first).(queuedAt := now)]
                            + WithoutPlayer(s.queue.tickets, SideOf(o, first).playerId),
                 pending := RemoveAt(s.queue.pending, i))
            && s'.closed == s.closed + [o.matchId] && s'.formed == s.formed
  {
  }

  // ----- matches are mutual -----

  /** In this history the player answered yes to the offer while it was live. */
  ghost predicate Agreed(cfg: Config, h: History, o: Offer, first: bool) {
    exists k :: 0 <= k < |h| && AgreedAt(cfg, h, k, o, first)
  }

  ghost predicate AgreedAt(cfg: Config, h: History, k: nat, o: Offer, first: bool)
    requires k < |h|
  {
    && h[k].1.Reply? && h[k].1.accept && h[k].1.player == SideOf(o, first).playerId && MeantFor(h[k].1, o)
    && exists i :: 0 <= i < |Run(cfg, h[..k]).queue.pending| && SameOffer(Run(cfg, h[..k]).queue.pending[i], o)
  }

  /** Where the yes of an offer in the next state comes from. */
  ghost predicate YesExplained(s: GateState, e: Event, o': Offer, first: bool) {
    SaidYes(o', first) ==>
      exists i :: && 0 <= i < |s.queue.pending| && SameOffer(s.queue.pending[i], o')
                  && (SaidYes(s.queue.pending[i], first)
                      || (e.Reply? && e.accept && e.player == SideOf(o', first).playerId && MeantFor(e, o')))
  }

  lemma {:induction false} SettleAllPending(s: GateState, xs: seq<Offer>, now: nat)
    ensures SettleAll(s, xs, now).queue.pending == s.queue.pending
    ensures SettleAll(s, xs, now).formed == s.formed
    decreases |xs|
  {
    if xs != [] {
      SettleAllPending(SettleLapsed(CloseOffer(s, xs[0]), xs[0], now), xs[1..], now);
    }
  }

  lemma YesFromLive(s: GateState, e: Event, o: Offer, first: bool)
    requires o in s.queue.pending
    ensures YesExplained(s, e, o, first)
  {
  }

  /** The rules no waiting relaxes: other people, no block either way, somebody to relay, a title both asked for. */
  ghost predicate HardRules(o: Offer) {
    && o.a.accountId != o.b.accountId && o.b.accountId !in o.a.blocks && o.a.accountId !in o.b.blocks
    && (o.a.relayEndpoint.Some? || o.b.relayEndpoint.Some? || (o.a.iceRelay && o.b.iceRelay))
    && o.key in o.a.keys && o.key in o.b.keys
  }

  ghost predicate Newborn(o: Offer) {
    o.aAccept.None? && o.bAccept.None? && HardRules(o)
  }

  /** An offer after pairing is an old one, or a new one with no answer yet. */
  lemma PairUpExplained(q: QueueState, cooldown: nat, now: nat, o: Offer)
    requires o in PairUp(q, cooldown, now).pending
    ensures o in q.pending || Newborn(o)
  {
    var kept := FreshOnly(q.recent, cooldown, now);
    var c := Context(kept, cooldown, now);
    PairingConserves(q.(recent := kept), c);
    var made :| Paired(q.(recent := kept), PairUp(q, cooldown, now), made, c);
    if o in made {
      assert OfferSound(o, c);
    }
  }

  lemma ReplyExplained(s: GateState, e: Event, now: nat, o': Offer, first: bool)
    requires Inv(s) && e.Reply?
    requires var s' := HandleReply(s, e.player, e.accept, e.matchId, now);
             o' in s'.queue.pending || (o' in s'.formed && o' !in s.formed)
    ensures YesExplained(s, e, o', first)
  {
    if o' in s.queue.pending {
      YesFromLive(s, e, o', first);
    } else {
      ReplyMakes(s, e.player, e.accept, e.matchId, now, o');
      var i := FindOffer(s.queue.pending, e.player).value;
      OfferSidesDiffer(s, i);
      assert SameOffer(s.queue.pending[i], o');
    }
  }

  /** The only offer a reply can add anywhere is the replier's own, with the reply recorded. */
  lemma {:induction false} ReplyMakes(s: GateState, player: string, accept: bool, matchId: Option<nat>,
                                      now: nat, o': Offer)
    requires var s' := HandleReply(s, player, accept, matchId, now);
             o' in s'.queue.pending || (o' in s'.formed && o' !in s.formed)
    requires o' !in s.queue.pending
    ensures var at := FindOffer(s.queue.pending, player);
            && at.Some? && o' == s.queue.pending[at.value].Record(player, accept)
            && (matchId.None? || matchId == Some(o'.matchId))
  {
  }

  lemma StepExplained(cfg: Config, s: GateState, now: nat, e: Event, o': Offer, first: bool)
    requires Inv(s)
    requires var s' := Step(cfg, s, now, e);
             o' in s'.queue.pending || (o' in s'.formed && o' !in s.formed)
    ensures YesExplained(s, e, o', first)
  {
    if e.Reply? {
      ReplyExplained(s, e, now, o', first);
    } else if o' in s.queue.pending {
      YesFromLive(s, e, o', first);
    } else if e.Tick? {
      TickExplained(cfg, s, now, o');
    } else if e.Enqueue? {
      EnqueueExplained(cfg, s, e.player, e.request, now, o');
    } else if e.Cancel? || e.Disconnect? {
      WithdrawExplained(s, e.player, now, o');
    }
  }

  lemma TickExplained(cfg: Config, s: GateState, now: nat, o': Offer)
    requires var s' := Step(cfg, s, now, Tick);
             o' in s'.queue.pending || (o' in s'.formed && o' !in s.formed)
    ensures o' in s.queue.pending || Newborn(o')
  {
    hide PairUp;
    SettleAllPending(WithPending(s, Lapsed(s.queue.pending, cfg.acceptSecs, now, false)),
                     Lapsed(s.queue.pending, cfg.acceptSecs, now, true), now);
    FilterMembers(s.queue.pending, (x: Offer) => x.Expired(cfg.acceptSecs, now) == false);
    PairUpExplained(Expire(cfg, s, now).queue, cfg.rematchSecs, now, o');
  }

  lemma EnqueueExplained(cfg: Config, s: GateState, player: string, r: Request, now: nat, o': Offer)
    requires var s' := HandleEnqueue(cfg, s, player, r, now);
             o' in s'.queue.pending || (o' in s'.formed && o' !in s.formed)
    ensures o' in s.queue.pending || Newborn(o')
  {
    hide PairUp;
    if MayQueue(cfg, s, player, r, now) {
      var c := s.clients[player];
      var t := MakeTicket(c, c.account.value, player, r, now);
      PairUpExplained(s.queue.(tickets := s.queue.tickets + [t]), cfg.rematchSecs, now, o');
    }
  }

  lemma WithdrawExplained(s: GateState, player: string, now: nat, o': Offer)
    requires var s' := Withdraw(s, player, now);
             o' in s'.queue.pending || (o' in s'.formed && o' !in s.formed)
    ensures o' in s.queue.pending
  {
  }

  /** An offer after any step is new, or is one that was live before it, perhaps with one more answer. */
  lemma OfferOrigin(cfg: Config, s: GateState, now: nat, e: Event, o': Offer)
    requires Inv(s)
    requires var s' := Step(cfg, s, now, e);
             o' in s'.queue.pending || (o' in s'.formed && o' !in s.formed)
    ensures Newborn(o') || exists o :: o in s.queue.pending && SameOffer(o, o')
  {
    hide Newborn, HandleReply, HandleEnqueue, Withdraw, Expire, PairUp, SetRtt, Inv;
    if o' in s.queue.pending {
      assert SameOffer(o', o');
    } else if e.Reply? {
      ReplyMakes(s, e.player, e.accept, e.matchId, now, o');
      var o := s.queue.pending[FindOffer(s.queue.pending, e.player).value];
      assert o in s.queue.pending && SameOffer(o, o');
    } else if e.Tick? {
      TickExplained(cfg, s, now, o');
    } else if e.Enqueue? {
      EnqueueExplained(cfg, s, e.player, e.request, now, o');
    } else if e.Cancel? || e.Disconnect? {
      WithdrawExplained(s, e.player, now, o');
    }
  }

  /** Every offer ever live and every match ever formed met the hard rules, and has a relay that can carry it. */
  lemma {:induction false} OffersMeetHardRules(cfg: Config, h: History, o: Offer)
    requires o in Run(cfg, h).queue.pending || o in Run(cfg, h).formed
    ensures HardRules(o) && o.RelayHostIsA().Some?
    ensures !(o.a.iceRelay && o.b.iceRelay) ==> (if o.RelayHostIsA().value then o.a else o.b).relayEndpoint.Some?
    decreases |h|
  {
    var (before, now, e) := (h[..|h| - 1], h[|h| - 1].0, h[|h| - 1].1);
    var s := Run(cfg, before);
    GateInvariant(cfg, before);
    if o in s.formed && o !in Run(cfg, h).queue.pending {
      OffersMeetHardRules(cfg, before, o);
    } else {
      OfferOrigin(cfg, s, now, e, o);
      if !Newborn(o) {
        var was :| was in s.queue.pending && SameOffer(was, o);
        OffersMeetHardRules(cfg, before, was);
      }
    }
    RelayIsAble(o);
  }

  /** Every recorded yes was given by that player, to that offer, while it was live. */
  lemma {:induction false} YesWasGiven(cfg: Config, h: History, o: Offer, first: bool)
    requires o in Run(cfg, h).queue.pending || o in Run(cfg, h).formed
    requires SaidYes(o, first)
    ensures Agreed(cfg, h, o, first)
    decreases |h|
  {
    var (before, now, e) := (h[..|h| - 1], h[|h| - 1].0, h[|h| - 1].1);
    var s := Run(cfg, before);
    GateInvariant(cfg, before);
    if o in s.formed && o !in Run(cfg, h).queue.pending {
      YesWasGiven(cfg, before, o, first);
      AgreedLater(cfg, h, o, o, first);
    } else {
      StepExplained(cfg, s, now, e, o, first);
      var i :| && 0 <= i < |s.queue.pending| && SameOffer(s.queue.pending[i], o)
               && (SaidYes(s.queue.pending[i], first)
                   || (e.Reply? && e.accept && e.player == SideOf(o, first).playerId && MeantFor(e, o)));
      if SaidYes(s.queue.pending[i], first) {
        YesWasGiven(cfg, before, s.queue.pending[i], first);
        AgreedLater(cfg, h, s.queue.pending[i], o, first);
      } else {
        assert AgreedAt(cfg, h, |h| - 1, o, first);
      }
    }
  }

  lemma AgreedLater(cfg: Config, h: History, o: Offer, o': Offer, first: bool)
    requires h != [] && Agreed(cfg, h[..|h| - 1], o, first) && SameOffer(o, o')
    ensures Agreed(cfg, h, o', first)
  {
    var before := h[..|h| - 1];
    var k :| 0 <= k < |before| && AgreedAt(cfg, before, k, o, first);
    assert before[..k] == h[..k];
    var i :| 0 <= i < |Run(cfg, h[..k]).queue.pending| && SameOffer(Run(cfg, h[..k]).queue.pending[i], o);
    assert SameOffer(Run(cfg, h[..k]).queue.pending[i], o');
    assert AgreedAt(cfg, h, k, o', first);
  }

  /** A match forms only when both players answered yes to its offer while it was live. */
  lemma {:induction false} MatchesAreMutual(cfg: Config, h: History, o: Offer)
    requires o in Run(cfg, h).formed
    ensures Agreed(cfg, h, o, true) && Agreed(cfg, h, o, false)
  {
    GateInvariant(cfg, h);
    YesWasGiven(cfg, h, o, true);
    YesWasGiven(cfg, h, o, false);
  }
}
