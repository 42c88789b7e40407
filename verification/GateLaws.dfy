/** What each message does to the gate, over every history and in plain terms. */
module GateLaws {
  import opened AcceptGate
  import opened GateTheorems
  import opened Lists
  import opened Matchmaking
  import opened MatchQueue
  import opened Retention
  import opened Wrappers

  // ----- replies -----

  /** A reply to an offer that is no longer the player's, or to none, changes nothing at all. */
  lemma {:induction false} LateRepliesAreIgnored(cfg: Config, h: History, now: nat, e: Event)
    requires e.Reply?
    requires forall o :: o in Run(cfg, h).queue.pending && MeantFor(e, o) ==>
               o.a.playerId != e.player && o.b.playerId != e.player
    ensures Step(cfg, Run(cfg, h), now, e) == Run(cfg, h)
  {
    var pending := Run(cfg, h).queue.pending;
    var at := FindOffer(pending, e.player);
    if at.Some? {
      assert pending[at.value] in pending;
    }
  }

  function WithYes(o: Offer, first: bool): Offer {
    if first then o.(aAccept := Some(true)) else o.(bAccept := Some(true))
  }

  /** The two players are in a lobby now; nobody else's row changes. */
  ghost predicate BothSeated(clients: map<string, Client>, clients': map<string, Client>, o: Offer) {
    && clients'.Keys == clients.Keys
    && forall p :: p in clients ==>
         clients'[p] == if p == o.a.playerId || p == o.b.playerId then clients[p].(inLobby := true) else clients[p]
  }

  /**
   A yes to the player's own live offer: the second one forms the match there and then,
   the first one is only written down.
  */
  lemma {:induction false} YesCounts(cfg: Config, h: History, i: nat, first: bool, now: nat, e: Event)
    requires i < |Run(cfg, h).queue.pending| && e.Reply? && e.accept
    requires var o := Run(cfg, h).queue.pending[i]; e.player == SideOf(o, first).playerId && MeantFor(e, o)
    ensures var (s, o) := (Run(cfg, h), Run(cfg, h).queue.pending[i]);
            var (s', agreed) := (Step(cfg, s, now, e), WithYes(o, first));
            && s'.strikes == s.strikes && s'.queue.tickets == s.queue.tickets && s'.queue.nextId == s.queue.nextId
            && if SaidYes(o, !first) then
                 && s'.formed == s.formed + [agreed] && s'.closed == s.closed + [o.matchId]
                 && s'.queue.pending == RemoveAt(s.queue.pending, i)
                 && s'.queue.recent == s.queue.recent + [Played(o.a.accountId, o.b.accountId, now)]
                 && BothSeated(s.clients, s'.clients, o)
               else
                 && s' == s.(queue := s.queue.(pending := s.queue.pending[i := agreed]))
  {
    GateInvariant(cfg, h);
    var s := Run(cfg, h);
    OfferSidesDiffer(s, i);
    FoundOffer(s, i, e.player);
    assert s.queue.pending[i] in s.queue.pending;
    hide Inv, Run;
    YesIsTaken(s, i, first, now, e);
    if SaidYes(s.queue.pending[i], !first) {
      var s1 := CloseOffer(s.(queue := s.queue.(pending := RemoveAt(s.queue.pending, i))), s.queue.pending[i]);
      MatchForms(s1, WithYes(s.queue.pending[i], first), now);
    }
    hide HandleReply, FormMatch;
  }

  lemma YesIsTaken(s: GateState, i: nat, first: bool, now: nat, e: Event)
    requires i < |s.queue.pending| && e.Reply? && e.accept && FindOffer(s.queue.pending, e.player) == Some(i)
    requires var o := s.queue.pending[i];
             && e.player == SideOf(o, first).playerId && MeantFor(e, o)
             && !o.Answered() && o.a.playerId != o.b.playerId
    ensures var o := s.queue.pending[i];
            HandleReply(s, e.player, e.accept, e.matchId, now) ==
              if SaidYes(o, !first) then
                FormMatch(CloseOffer(s.(queue := s.queue.(pending := RemoveAt(s.queue.pending, i))), o),
                          WithYes(o, first), now)
              else s.(queue := s.queue.(pending := s.queue.pending[i := WithYes(o, first)]))
  {
    AnswerIsYesOrNo(s.queue.pending[i].aAccept);
    AnswerIsYesOrNo(s.queue.pending[i].bAccept);
    hide FormMatch;
  }

  lemma MatchForms(s: GateState, o: Offer, now: nat)
    ensures var s' := FormMatch(s, o, now);
            && s'.strikes == s.strikes && s'.closed == s.closed && s'.formed == s.formed + [o]
            && s'.queue == s.queue.(recent := s.queue.recent + [Played(o.a.accountId, o.b.accountId, now)])
            && BothSeated(s.clients, s'.clients, o)
  {
  }

  // ----- lapsing -----

  ghost predicate ChargedFor(strikes: seq<Strike>, o: Offer, first: bool, now: nat) {
    Strike(SideOf(o, first).accountId, "timeout", now / 1000, o.matchId) in strikes
  }

  /** The offer is closed, and every side of it that had not said yes is charged. */
  ghost predicate PaidFor(s: GateState, o: Offer, now: nat) {
    o.matchId in s.closed && forall first :: !SaidYes(o, first) ==> ChargedFor(s.strikes, o, first, now)
  }

  ghost predicate Onward(s: GateState, s': GateState) {
    s.strikes <= s'.strikes && s.closed <= s'.closed
  }

  lemma PaidForStays(s: GateState, s': GateState, o: Offer, now: nat)
    requires PaidFor(s, o, now) && Onward(s, s')
    ensures PaidFor(s', o, now)
  {
    hide SaidYes;
  }

  lemma LapsedPay(s: GateState, o: Offer, now: nat)
    requires o.a.playerId != o.b.playerId && !o.Answered()
    ensures var s' := SettleLapsed(CloseOffer(s, o), o, now); Onward(s, s') && PaidFor(s', o, now)
  {
    var s' := SettleLapsed(CloseOffer(s, o), o, now);
    AnswerIsYesOrNo(o.aAccept);
    AnswerIsYesOrNo(o.bAccept);
    assert s'.closed[|s.closed|] == o.matchId;
    forall first | !SaidYes(o, first) ensures ChargedFor(s'.strikes, o, first, now) {
      var k := |s.strikes| + if SaidYes(o, !first) || first then 0 else 1;
      assert s'.strikes[k] == Strike(SideOf(o, first).accountId, "timeout", now / 1000, o.matchId);
    }
  }

  lemma {:induction false} AllLapsedPay(s: GateState, xs: seq<Offer>, now: nat)
    requires forall x :: x in xs ==> x.a.playerId != x.b.playerId && !x.Answered()
    ensures var s' := SettleAll(s, xs, now); Onward(s, s') && forall x :: x in xs ==> PaidFor(s', x, now)
    decreases |xs|
  {
    if xs != [] {
      var m := SettleLapsed(CloseOffer(s, xs[0]), xs[0], now);
      var s' := SettleAll(s, xs, now);
      LapsedPay(s, xs[0], now);
      AllLapsedPay(m, xs[1..], now);
      hide SettleLapsed, PaidFor;
      forall x | x in xs ensures PaidFor(s', x, now) {
        if x == xs[0] {
          PaidForStays(m, s', x, now);
        } else {
          assert x in xs[1..];
        }
      }
    }
  }

  lemma TickFilters(cfg: Config, s: GateState, now: nat, o: Offer)
    requires o in s.queue.pending
    ensures RanOut(cfg, o, now) <==> o in Lapsed(s.queue.pending, cfg.acceptSecs, now, true)
    ensures !RanOut(cfg, o, now) <==> o in Lapsed(s.queue.pending, cfg.acceptSecs, now, false)
  {
    FilterMembers(s.queue.pending, (x: Offer) => x.Expired(cfg.acceptSecs, now) == true);
    FilterMembers(s.queue.pending, (x: Offer) => x.Expired(cfg.acceptSecs, now) == false);
  }

  /**
   At a tick exactly the offers whose time is over are closed, and each side of one that
   had not said yes is charged; the other offers stay as they are.
  */
  lemma {:induction false} TickClosesWhatRanOut(cfg: Config, h: History, now: nat, o: Offer)
    requires o in Run(cfg, h).queue.pending
    ensures var s' := Step(cfg, Run(cfg, h), now, Tick);
            if RanOut(cfg, o, now) then PaidFor(s', o, now) else o in s'.queue.pending
  {
    GateInvariant(cfg, h);
    ExpiryClosesWhatRanOut(cfg, Run(cfg, h), now, o);
    var m := Expire(cfg, Run(cfg, h), now);
    PairUpKeepsOffers(m.queue, cfg.rematchSecs, now);
    hide Expire, PairUp, RanOut;
    if RanOut(cfg, o, now) {
      PaidForStays(m, Step(cfg, Run(cfg, h), now, Tick), o, now);
    }
  }

  lemma ExpiryClosesWhatRanOut(cfg: Config, s: GateState, now: nat, o: Offer)
    requires Inv(s) && o in s.queue.pending
    ensures var m := Expire(cfg, s, now);
            if RanOut(cfg, o, now) then PaidFor(m, o, now) else o in m.queue.pending
  {
    TickFilters(cfg, s, now, o);
    LapsedAreLive(s, cfg.acceptSecs, now);
    hide Inv, Lapsed, RanOut, PaidFor, SettleAll;
    var s0 := WithPending(s, Lapsed(s.queue.pending, cfg.acceptSecs, now, false));
    AllLapsedPay(s0, Lapsed(s.queue.pending, cfg.acceptSecs, now, true), now);
    SettleAllPending(s0, Lapsed(s.queue.pending, cfg.acceptSecs, now, true), now);
  }

  lemma PairUpKeepsOffers(q: QueueState, cooldown: nat, now: nat)
    ensures q.pending <= PairUp(q, cooldown, now).pending
  {
    var kept := FreshOnly(q.recent, cooldown, now);
    var c := Context(kept, cooldown, now);
    PairingConserves(q.(recent := kept), c);
    var made :| Paired(q.(recent := kept), PairUp(q, cooldown, now), made, c);
  }

  // ----- joining and leaving the queue -----

  /** Everybody held before a pairing run is held after it. */
  lemma {:induction false} PairUpKeepsHeld(q: QueueState, cooldown: nat, now: nat, t: Ticket)
    requires t in q.tickets
    ensures t in Held(PairUp(q, cooldown, now))
  {
    var kept := FreshOnly(q.recent, cooldown, now);
    var c := Context(kept, cooldown, now);
    var q' := PairUp(q, cooldown, now);
    PairingConserves(q.(recent := kept), c);
    var made :| Paired(q.(recent := kept), q', made, c);
    SeatedAppend(q.pending, made);
    assert t in multiset(q.tickets);
    assert t in q'.tickets || t in Seated(made);
  }

  lemma PairUpKeepsOrder(q: QueueState, cooldown: nat, now: nat)
    ensures IsSubsequence(PairUp(q, cooldown, now).tickets, q.tickets)
  {
    var kept := FreshOnly(q.recent, cooldown, now);
    var c := Context(kept, cooldown, now);
    PairingConserves(q.(recent := kept), c);
    var made :| Paired(q.(recent := kept), PairUp(q, cooldown, now), made, c);
  }

  /** No two waiting tickets with a key in common may play. */
  ghost predicate NobodyMayPlay(q: QueueState, now: nat) {
    forall x: nat, y: nat ::
      x < y < |q.tickets| && (exists key :: key in q.tickets[x].keys && key in q.tickets[y].keys) ==>
        !MayPlay(q.tickets[x], q.tickets[y], now)
  }

  lemma PairUpPairs(q: QueueState, cooldown: nat, now: nat)
    ensures NobodyMayPlay(PairUp(q, cooldown, now), now)
  {
    PairingExactly(q, cooldown, now);
    hide PairUp, MayPlay;
  }

  /** The ticket a request asks for. */
  function TicketFor(c: Client, player: string, r: Request, now: nat): Ticket
    requires c.account.Some?
  {
    Ticket(player, c.account.value, r.keys, r.relayEndpoint, r.iceRelay, now,
           if r.rttMs == None then c.probeRtt else r.rttMs.value, c.blocks)
  }

  /** Automatch is on; the account is signed in, outside a lobby, nowhere in the queue and free of cooldown. */
  ghost predicate IsWelcome(cfg: Config, s: GateState, player: string, r: Request, now: nat)
    requires player in s.clients
  {
    var c := s.clients[player];
    && !cfg.off && c.account.Some? && !c.inLobby
    && (forall t :: t in Held(s.queue) ==> t.accountId != c.account.value)
    && r.refusal == None && !r.badEndpoint && |s.queue.tickets| < cfg.queueMax
    && CooldownSecs(s.strikes, c.account.value, now / 1000, cfg.ladder) == 0
  }

  lemma WelcomeMayQueue(cfg: Config, s: GateState, player: string, r: Request, now: nat)
    requires player in s.clients
    ensures IsWelcome(cfg, s, player, r, now) <==> MayQueue(cfg, s, player, r, now)
  {
    if s.clients[player].account.Some? {
      var account := s.clients[player].account.value;
      QueuedIsHeld(s.queue, account);
      hide IsQueued, Held, CooldownSecs;
      assert (exists i :: 0 <= i < |Held(s.queue)| && Held(s.queue)[i].accountId == account)
        <==> !forall t :: t in Held(s.queue) ==> t.accountId != account;
    }
  }

  /**
   A request is taken exactly when it is welcome. Its ticket holds just what was asked, and
   the connection's own measurement and blocks; it lines up last, and the queue pairs. Any
   other request changes nothing.
  */
  lemma {:induction false} RequestsBecomeTickets(cfg: Config, h: History, player: string, r: Request, now: nat)
    requires player in Run(cfg, h).clients
    ensures var s := Run(cfg, h);
            var s' := Step(cfg, s, now, Enqueue(player, r));
            if IsWelcome(cfg, s, player, r, now) then
              var t := TicketFor(s.clients[player], player, r, now);
              && t in Held(s'.queue) && IsSubsequence(s'.queue.tickets, s.queue.tickets + [t])
              && NobodyMayPlay(s'.queue, now)
            else s' == s
  {
    var s := Run(cfg, h);
    WelcomeMayQueue(cfg, s, player, r, now);
    if MayQueue(cfg, s, player, r, now) {
      TakenRequest(cfg, s, player, r, now);
    }
    hide PairUp, MayQueue, NobodyMayPlay, Held, CooldownSecs, Run;
  }

  lemma TakenRequest(cfg: Config, s: GateState, player: string, r: Request, now: nat)
    requires MayQueue(cfg, s, player, r, now)
    ensures var (t, s') := (TicketFor(s.clients[player], player, r, now), HandleEnqueue(cfg, s, player, r, now));
            && t in Held(s'.queue) && NobodyMayPlay(s'.queue, now)
            && IsSubsequence(s'.queue.tickets, s.queue.tickets + [t])
  {
    var t := TicketFor(s.clients[player], player, r, now);
    var q := s.queue.(tickets := s.queue.tickets + [t]);
    assert q.tickets[|s.queue.tickets|] == t;
    assert HandleEnqueue(cfg, s, player, r, now).queue == PairUp(q, cfg.rematchSecs, now);
    hide *;
    PairUpKeepsHeld(q, cfg.rematchSecs, now, t);
    PairUpKeepsOrder(q, cfg.rematchSecs, now);
    PairUpPairs(q, cfg.rematchSecs, now);
  }

  /** After a tick no two waiting tickets with a key in common may play. */
  lemma {:induction false} TicksPair(cfg: Config, h: History, now: nat)
    ensures NobodyMayPlay(Step(cfg, Run(cfg, h), now, Tick).queue, now)
  {
    PairUpPairs(Expire(cfg, Run(cfg, h), now).queue, cfg.rematchSecs, now);
    hide PairUp, Expire, NobodyMayPlay;
  }

  lemma {:induction false} OnNoOffer(pending: seq<Offer>, player: string)
    requires forall o :: o in pending ==> o.a.playerId != player && o.b.playerId != player
    ensures FindOffer(pending, player) == None
  {
    forall k | 0 <= k < |pending| ensures !pending[k].HasPlayer(player) {
      assert pending[k] in pending;
    }
  }

  /** Leaving while on no offer takes the connection's ticket out, and touches nothing else. */
  lemma {:induction false} LeavingTheQueue(cfg: Config, h: History, now: nat, e: Event)
    requires e.Cancel? || e.Disconnect?
    requires forall o :: o in Run(cfg, h).queue.pending ==> o.a.playerId != e.player && o.b.playerId != e.player
    ensures var s := Run(cfg, h);
            var s' := Step(cfg, s, now, e);
            && s' == s.(queue := s.queue.(tickets := s'.queue.tickets), clients := s'.clients)
            && s'.clients == (if e.Disconnect? then s.clients - {e.player} else s.clients)
            && IsSubsequence(s'.queue.tickets, s.queue.tickets)
            && forall t :: t in s'.queue.tickets <==> t in s.queue.tickets && t.playerId != e.player
  {
    var s := Run(cfg, h);
    OnNoOffer(s.queue.pending, e.player);
    FilterMembers(s.queue.tickets, (t: Ticket) => t.playerId != e.player);
    FilterKeepsOrder(s.queue.tickets, (t: Ticket) => t.playerId != e.player);
  }

  // ----- what a connection says about itself -----

  /** Signing in, blocking and moving in or out of a lobby change that one thing in the connection's own row. */
  lemma {:induction false} RowsFollow(cfg: Config, h: History, p: string, now: nat, account: string,
                                      blocks: set<string>, inLobby: bool)
    ensures var s := Run(cfg, h);
            if p !in s.clients then
              && Step(cfg, s, now, Connect(p)) == s.(clients := s.clients[p := Client(None, false, -1, {})])
              && Step(cfg, s, now, SignIn(p, account)) == Step(cfg, s, now, SetBlocks(p, blocks)) == s
            else
              var c := s.clients[p];
              && Step(cfg, s, now, Connect(p)) == s
              && Step(cfg, s, now, SetBlocks(p, blocks)).clients == s.clients[p := c.(blocks := blocks)]
              && Step(cfg, s, now, SetInLobby(p, inLobby)).clients == s.clients[p := c.(inLobby := inLobby)]
              && Step(cfg, s, now, SignIn(p, account)).clients ==
                   (if c.account == None then s.clients[p := c.(account := Some(account))] else s.clients)
  {
    assert p in Run(cfg, h).clients ==> Run(cfg, h).clients == Run(cfg, h).clients[p := Run(cfg, h).clients[p]];
  }

  lemma {:induction false} OneTicketPerConnection(cfg: Config, h: History, i: nat, j: nat)
    requires i < j < |Run(cfg, h).queue.tickets|
    ensures Run(cfg, h).queue.tickets[i].playerId != Run(cfg, h).queue.tickets[j].playerId
  {
    GateInvariant(cfg, h);
    OneTicketPerAccount(cfg, h);
    var (s, held) := (Run(cfg, h), Held(Run(cfg, h).queue));
    assert held[i] == s.queue.tickets[i] && held[j] == s.queue.tickets[j];
    assert s.queue.tickets[i] in s.queue.tickets && s.queue.tickets[j] in s.queue.tickets;
  }

  lemma {:induction false} OneTicketTakesIt(ts: seq<Ticket>, player: string, rtt: int)
    requires forall i, j :: 0 <= i < j < |ts| ==> ts[i].playerId != ts[j].playerId
    ensures |SetRtt(ts, player, rtt)| == |ts|
    ensures forall k :: 0 <= k < |ts| ==>
              SetRtt(ts, player, rtt)[k] == if ts[k].playerId == player then ts[k].(rttMs := rtt) else ts[k]
    decreases |ts|
  {
    if ts != [] && ts[0].playerId != player {
      OneTicketTakesIt(ts[1..], player, rtt);
    }
  }

  /** A measurement lands on the connection's row and on its waiting ticket, and nowhere else. */
  lemma {:induction false} ProbesLand(cfg: Config, h: History, player: string, rtt: int, now: nat)
    ensures var s := Run(cfg, h);
            var s' := Step(cfg, s, now, Probe(player, rtt));
            && s' == s.(queue := s.queue.(tickets := s'.queue.tickets), clients := s'.clients)
            && s'.clients == (if player in s.clients
                              then s.clients[player := s.clients[player].(probeRtt := rtt)] else s.clients)
            && |s'.queue.tickets| == |s.queue.tickets|
            && forall k :: 0 <= k < |s.queue.tickets| ==>
                 var t := s.queue.tickets[k];
                 s'.queue.tickets[k] == if t.playerId == player then t.(rttMs := rtt) else t
  {
    var ts := Run(cfg, h).queue.tickets;
    forall i, j | 0 <= i < j < |ts| ensures ts[i].playerId != ts[j].playerId {
      OneTicketPerConnection(cfg, h, i, j);
    }
    OneTicketTakesIt(ts, player, rtt);
  }
}
