/** The hub's automatch handlers, in place: each method is one handler and carries out one step of the gate. */
module AutomatchHub {
  import opened AcceptGate
  import opened Matchmaking
  import opened MatchQueue
  import opened Retention
  import opened Wrappers

  class Hub {
    const cfg: Config
    const queue: Queue
    var clients: map<string, Client>
    var strikes: seq<Strike>
    var formed: seq<Offer>
    var closed: seq<nat>

    function View(): GateState
      reads this, queue
    {
      GateState(queue.View(), clients, strikes, formed, closed)
    }

    constructor (cfg: Config)
      ensures this.cfg == cfg && View() == INITIAL && fresh(queue)
    {
      this.cfg := cfg;
      queue := new Queue();
      clients, strikes, formed, closed := map[], [], [], [];
    }

    method Connect(player: string, now: nat)
      modifies this
      ensures View() == Step(cfg, old(View()), now, Event.Connect(player))
      ensures clients == if player in old(clients) then old(clients)
                         else old(clients)[player := Client(None, false, -1, {})]
    {
      if player !in clients {
        clients := clients[player := Client(None, false, -1, {})];
      }
    }

    method SignIn(player: string, account: string, now: nat)
      modifies this
      ensures View() == Step(cfg, old(View()), now, Event.SignIn(player, account))
      ensures clients == if player in old(clients) && old(clients)[player].account == None
                         then old(clients)[player := old(clients)[player].(account := Some(account))] else old(clients)
    {
      if player in clients && clients[player].account.None? {
        clients := clients[player := clients[player].(account := Some(account))];
      }
    }

    method HandleSetBlocks(player: string, blocks: set<string>, now: nat)
      modifies this
      ensures View() == Step(cfg, old(View()), now, SetBlocks(player, blocks))
      ensures clients == if player in old(clients)
                         then old(clients)[player := old(clients)[player].(blocks := blocks)] else old(clients)
    {
      if player in clients {
        clients := clients[player := clients[player].(blocks := blocks)];
      }
    }

    /** A measurement lands on the connection, and on the waiting ticket if there is one. */
    method HandleRtt(player: string, rttMs: int, now: nat)
      modifies this, queue
      ensures View() == Step(cfg, old(View()), now, Probe(player, rttMs))
    {
      if player in clients {
        clients := clients[player := clients[player].(probeRtt := rttMs)];
      }
      queue.UpdateRtt(player, rttMs);
    }

    method HandleQueue(player: string, r: Request, now: nat) returns (refusal: Option<string>)
      modifies this, queue
      ensures View() == Step(cfg, old(View()), now, Enqueue(player, r))
      ensures refusal == old(Refusal(cfg, View(), player, r, now))
      ensures old(player in clients) ==> (refusal.None? <==> old(MayQueue(cfg, View(), player, r, now)))
    {
      if cfg.off {
        return Some("automatch_off");
      }
      if player !in clients {
        return None;
      }
      var c := clients[player];
      if c.account.None? {
        return Some("need_account");
      }
      if c.inLobby {
        return Some("already_in_lobby");
      }
      var account := c.account.value;
      var queued := queue.IsQueuedAccount(account);
      if queued {
        return Some("already_queued");
      }
      if r.refusal.Some? {
        return r.refusal;
      }
      if 0 < CooldownSecs(strikes, account, now / 1000, cfg.ladder) {
        return Some("cooldown");
      }
      if cfg.queueMax <= |queue.tickets| {
        return Some("queue_full");
      }
      if r.badEndpoint {
        return Some("bad_host_endpoint");
      }
      queue.Push(MakeTicket(c, account, player, r, now));
      var _ := queue.Pair(cfg.rematchSecs, now);
      return None;
    }

    /** Charge one side; put the other back at the front if it is still connected. */
    method SettleDeclined(o: Offer, loser: string, kind: string, now: nat)
      modifies this, queue
      ensures View() == Settle(old(View()), o, loser, kind, now)
    {
      var (bad, other) := if o.a.playerId == loser then (o.a, o.b) else (o.b, o.a);
      strikes := strikes + [Strike(bad.accountId, kind, now / 1000, o.matchId)];
      if other.playerId in clients {
        queue.RequeueFront(other, now);
      }
    }

    method FormMatch(o: Offer, now: nat)
      modifies this, queue
      ensures View() == AcceptGate.FormMatch(old(View()), o, now)
    {
      queue.NotePairing(o.a.accountId, o.b.accountId, now);
      formed := formed + [o];
      if o.a.playerId in clients {
        clients := clients[o.a.playerId := clients[o.a.playerId].(inLobby := true)];
      }
      if o.b.playerId in clients {
        clients := clients[o.b.playerId := clients[o.b.playerId].(inLobby := true)];
      }
    }

    method Leave(player: string, now: nat)
      modifies this, queue
      ensures View() == Withdraw(old(View()), player, now)
    {
      var r := queue.Remove(player);
      if r.Some? {
        closed := closed + [r.value.matchId];
        SettleDeclined(r.value, player, "timeout", now);
      }
    }

    method HandleCancel(player: string, now: nat)
      modifies this, queue
      ensures View() == Step(cfg, old(View()), now, Cancel(player))
    {
      Leave(player, now);
    }

    method HandleDisconnect(player: string, now: nat)
      modifies this, queue
      ensures View() == Step(cfg, old(View()), now, Disconnect(player))
    {
      Leave(player, now);
      clients := clients - {player};
    }

    method HandleAccept(player: string, accept: bool, matchId: Option<nat>, now: nat)
      modifies this, queue
      ensures View() == Step(cfg, old(View()), now, Reply(player, accept, matchId))
    {
      var r := queue.Answer(player, accept, matchId);
      if r.None? {
        return;
      }
      var o := r.value;
      closed := closed + [o.matchId];
      if o.BothYes() {
        FormMatch(o, now);
      } else {
        var decliner := if o.aAccept == Some(false) then o.a.playerId else o.b.playerId;
        SettleDeclined(o, decliner, "decline", now);
      }
    }

    /** The clock's step: lapse dead offers, then pair. */
    method HandleTick(now: nat)
      modifies this, queue
      ensures View() == Step(cfg, old(View()), now, Tick)
    {
      var lapsed := queue.TakeExpired(cfg.acceptSecs, now);
      var k := 0;
      while k < |lapsed|
        invariant k <= |lapsed|
        invariant SettleAll(View(), lapsed[k..], now) == Expire(cfg, old(View()), now)
      {
        var o := lapsed[k];
        assert lapsed[k..][1..] == lapsed[k + 1..];
        closed := closed + [o.matchId];
        var (aBad, bBad) := (o.aAccept != Some(true), o.bAccept != Some(true));
        if aBad && bBad {
          strikes := strikes + [ChargeFor(o.a, o, "timeout", now), ChargeFor(o.b, o, "timeout", now)];
        } else {
          SettleDeclined(o, if aBad then o.a.playerId else o.b.playerId, "timeout", now);
        }
        k := k + 1;
      }
      var _ := queue.Pair(cfg.rematchSecs, now);
    }
  }
}
