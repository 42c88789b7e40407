/**
 The accept gate: what the hub does with the queue, one message handler at a time.

 An offer waits for two answers. It forms a match, or somebody is charged a strike
 and the innocent side goes back to the front of the queue. `strikes`, `formed` and
 `closed` are the record of what has happened; only `strikes` is read back, by the
 cooldown.
 */
module AcceptGate {
  import opened Lists
  import opened Matchmaking
  import opened MatchQueue
  import opened Retention
  import opened Wrappers

  datatype Config = Config(off: bool, acceptSecs: nat, rematchSecs: nat, queueMax: nat, ladder: seq<nat>)

  datatype Client = Client(account: Option<string>, inLobby: bool, probeRtt: int, blocks: set<string>)

  /**
   A queue request: the code of the check on message and rulesets that refuses it, if one
   does, and whether it offers a relay endpoint that is malformed or not its own.
   */
  datatype Request = Request(
    refusal: Option<string>, badEndpoint: bool,
    keys: seq<MatchKey>, relayEndpoint: Option<string>, iceRelay: bool, rttMs: Option<int>)

  datatype Event =
    | Connect(player: string)
    | SignIn(player: string, account: string)
    | SetBlocks(player: string, blocks: set<string>)
    | SetInLobby(player: string, inLobby: bool)
    | Probe(player: string, rttMs: int)
    | Enqueue(player: string, request: Request)
    | Cancel(player: string)
    | Reply(player: string, accept: bool, matchId: Option<nat>)
    | Tick
    | Disconnect(player: string)

  datatype GateState = GateState(
    queue: QueueState,
    clients: map<string, Client>,
    strikes: seq<Strike>,
    formed: seq<Offer>,
    closed: seq<nat>)

  const INITIAL := GateState(MatchQueue.EMPTY, map[], [], [], [])

  // ----- one step -----

  function ChargeFor(t: Ticket, o: Offer, kind: string, now: nat): Strike {
    Strike(t.accountId, kind, now / 1000, o.matchId)
  }

  function RequeueIfHere(s: GateState, t: Ticket, now: nat): GateState {
    if t.playerId in s.clients
    then s.(queue := s.queue.(tickets := [t.(queuedAt := now)] + s.queue.tickets))
    else s
  }

  /** One side said no or vanished: charge it, and requeue the other. */
  function Settle(s: GateState, o: Offer, loser: string, kind: string, now: nat): GateState {
    var (bad, other) := if o.a.playerId == loser then (o.a, o.b) else (o.b, o.a);
    RequeueIfHere(s.(strikes := s.strikes + [ChargeFor(bad, o, kind, now)]), other, now)
  }

  /** A lapsed offer: whoever did not say yes pays. */
  function SettleLapsed(s: GateState, o: Offer, now: nat): GateState {
    var (aBad, bBad) := (o.aAccept != Some(true), o.bAccept != Some(true));
    if aBad && bBad
    then s.(strikes := s.strikes + [ChargeFor(o.a, o, "timeout", now), ChargeFor(o.b, o, "timeout", now)])
    else Settle(s, o, if aBad then o.a.playerId else o.b.playerId, "timeout", now)
  }

  function Seat(clients: map<string, Client>, player: string): map<string, Client> {
    if player in clients then clients[player := clients[player].(inLobby := true)] else clients
  }

  /** Both accepted: the meeting is noted and the two are seated. */
  function FormMatch(s: GateState, o: Offer, now: nat): GateState {
    s.(queue := s.queue.(recent := s.queue.recent + [Played(o.a.accountId, o.b.accountId, now)]),
       clients := Seat(Seat(s.clients, o.a.playerId), o.b.playerId),
       formed := s.formed + [o])
  }

  function CloseOffer(s: GateState, o: Offer): GateState {
    s.(closed := s.closed + [o.matchId])
  }

  function SettleAll(s: GateState, lapsed: seq<Offer>, now: nat): GateState
    decreases |lapsed|
  {
    if lapsed == [] then s
    else SettleAll(SettleLapsed(CloseOffer(s, lapsed[0]), lapsed[0], now), lapsed[1..], now)
  }

  /** Drop a player from the queue; leaving an offer counts as letting it lapse. */
  function Withdraw(s: GateState, player: string, now: nat): GateState {
    var (q, r) := RemovePlayer(s.queue, player);
    var s1 := s.(queue := q);
    if r.None? then s1
    else Settle(CloseOffer(s1, r.value), r.value, player, "timeout", now)
  }

  function Decide(s: GateState, o: Offer, now: nat): GateState {
    if o.BothYes() then FormMatch(s, o, now)
    else Settle(s, o, if o.aAccept == Some(false) then o.a.playerId else o.b.playerId, "decline", now)
  }

  function HandleReply(s: GateState, player: string, accept: bool, matchId: Option<nat>, now: nat): GateState {
    var (q, r) := AnswerFor(s.queue, player, accept, matchId);
    var s1 := s.(queue := q);
    if r.None? then s1 else Decide(CloseOffer(s1, r.value), r.value, now)
  }

  function Expire(cfg: Config, s: GateState, now: nat): GateState {
    SettleAll(s.(queue := s.queue.(pending := Lapsed(s.queue.pending, cfg.acceptSecs, now, false))),
              Lapsed(s.queue.pending, cfg.acceptSecs, now, true), now)
  }

  function MakeTicket(c: Client, account: string, player: string, r: Request, now: nat): Ticket {
    Ticket(player, account, r.keys, r.relayEndpoint, r.iceRelay, now,
           if r.rttMs.Some? then r.rttMs.value else c.probeRtt, c.blocks)
  }

  predicate MayQueue(cfg: Config, s: GateState, player: string, r: Request, now: nat) {
    && !cfg.off
    && player in s.clients
    && s.clients[player].account.Some?
    && !s.clients[player].inLobby
    && !IsQueued(s.queue, s.clients[player].account.value)
    && r.refusal.None?
    && CooldownSecs(s.strikes, s.clients[player].account.value, now / 1000, cfg.ladder) == 0
    && |s.queue.tickets| < cfg.queueMax
    && !r.badEndpoint
  }

  /** The code a refused request is answered with: the first rule it breaks. None for a connection that is gone. */
  function Refusal(cfg: Config, s: GateState, player: string, r: Request, now: nat): Option<string> {
    if cfg.off then Some("automatch_off")
    else if player !in s.clients then None
    else
      var c := s.clients[player];
      if c.account.None? then Some("need_account")
      else if c.inLobby then Some("already_in_lobby")
      else if IsQueued(s.queue, c.account.value) then Some("already_queued")
      else if r.refusal.Some? then r.refusal
      else if CooldownSecs(s.strikes, c.account.value, now / 1000, cfg.ladder) > 0 then Some("cooldown")
      else if cfg.queueMax <= |s.queue.tickets| then Some("queue_full")
      else if r.badEndpoint then Some("bad_host_endpoint")
      else None
  }

  /** A connected client is answered with a code exactly when its request is not taken. */
  lemma RefusedOrQueued(cfg: Config, s: GateState, player: string, r: Request, now: nat)
    requires player in s.clients
    ensures Refusal(cfg, s, player, r, now).None? <==> MayQueue(cfg, s, player, r, now)
  {
  }

  function HandleEnqueue(cfg: Config, s: GateState, player: string, r: Request, now: nat): GateState {
    if !MayQueue(cfg, s, player, r, now) then s
    else
      var c := s.clients[player];
      var t := MakeTicket(c, c.account.value, player, r, now);
      s.(queue := PairUp(s.queue.(tickets := s.queue.tickets + [t]), cfg.rematchSecs, now))
  }

  function Step(cfg: Config, s: GateState, now: nat, e: Event): GateState {
    match e
    case Connect(p) =>
      if p in s.clients then s else s.(clients := s.clients[p := Client(None, false, -1, {})])
    case SignIn(p, account) =>
      if p in s.clients && s.clients[p].account.None?
      then s.(clients := s.clients[p := s.clients[p].(account := Some(account))]) else s
    case SetBlocks(p, blocks) =>
      if p in s.clients then s.(clients := s.clients[p := s.clients[p].(blocks := blocks)]) else s
    case SetInLobby(p, inLobby) =>
      if p in s.clients then s.(clients := s.clients[p := s.clients[p].(inLobby := inLobby)]) else s
    case Probe(p, rtt) =>
      var s1 := if p in s.clients then s.(clients := s.clients[p := s.clients[p].(probeRtt := rtt)]) else s;
      s1.(queue := s1.queue.(tickets := SetRtt(s1.queue.tickets, p, rtt)))
    case Enqueue(p, r) => HandleEnqueue(cfg, s, p, r, now)
    case Cancel(p) => Withdraw(s, p, now)
    case Reply(p, accept, matchId) => HandleReply(s, p, accept, matchId, now)
    case Tick =>
      var s1 := Expire(cfg, s, now);
      s1.(queue := PairUp(s1.queue, cfg.rematchSecs, now))
    case Disconnect(p) =>
      var s1 := Withdraw(s, p, now);
      s1.(clients := s1.clients - {p})
  }

  /** A history: each event with the clock its handler read. */
  type History = seq<(nat, Event)>

  function Run(cfg: Config, h: History): GateState {
    if h == [] then INITIAL
    else Step(cfg, Run(cfg, h[..|h| - 1]), h[|h| - 1].0, h[|h| - 1].1)
  }

  // ----- what every step keeps -----

  function AccountOf(t: Ticket): string { t.accountId }

  function AccountA(o: Offer): string { o.a.accountId }

  function AccountB(o: Offer): string { o.b.accountId }

  function IdOf(o: Offer): nat { o.matchId }

  /** The accounts on both sides of these offers. */
  function Sides(offers: seq<Offer>): multiset<string> {
    multiset(MapSeq(offers, AccountA)) + multiset(MapSeq(offers, AccountB))
  }

  /** The accounts the queue holds: waiting, and on both sides of live offers. */
  function Accounts(q: QueueState): multiset<string> {
    multiset(MapSeq(q.tickets, AccountOf)) + Sides(q.pending)
  }

  /** The ids of live and closed offers. */
  function Ids(s: GateState): multiset<nat> {
    multiset(MapSeq(s.queue.pending, IdOf)) + multiset(s.closed)
  }

  /** The connection behind a ticket is open and signed in to the ticket's account. */
  predicate Linked(clients: map<string, Client>, t: Ticket) {
    t.playerId in clients && clients[t.playerId].account == Some(t.accountId)
  }

  ghost predicate Once(m: multiset<string>) {
    forall x :: m[x] <= 1
  }

  ghost predicate AccountsOnce(s: GateState) {
    Once(Accounts(s.queue))
  }

  /** Every id ever issued belongs to exactly one offer, live or closed. */
  ghost predicate IdsOnce(s: GateState) {
    forall n: nat :: Ids(s)[n] == if n < s.queue.nextId then 1 else 0
  }

  ghost predicate AllLinked(s: GateState) {
    && (forall t :: t in s.queue.tickets ==> Linked(s.clients, t))
    && (forall o :: o in s.queue.pending ==> Linked(s.clients, o.a) && Linked(s.clients, o.b))
  }

  ghost predicate NoneDecided(s: GateState) {
    forall o :: o in s.queue.pending ==> !o.Answered()
  }

  ghost predicate FormedWereWanted(s: GateState) {
    forall o :: o in s.formed ==> o.BothYes() && o.matchId in s.closed
  }

  /** Nobody is charged twice for one offer, and only closed offers charge. */
  ghost predicate ChargedOnce(s: GateState) {
    && (forall i :: 0 <= i < |s.strikes| ==> s.strikes[i].offer in s.closed)
    && (forall i, j :: 0 <= i < j < |s.strikes| ==>
          s.strikes[i].offer != s.strikes[j].offer || s.strikes[i].account != s.strikes[j].account)
  }

  ghost predicate Inv(s: GateState) {
    && AccountsOnce(s) && IdsOnce(s) && AllLinked(s) && NoneDecided(s)
    && FormedWereWanted(s) && ChargedOnce(s)
  }

  // ----- settling one offer -----

  /** The queue's accounts together with those of an offer it let go of. */
  function AccountsWith(q: QueueState, o: Offer): multiset<string> {
    Accounts(q) + multiset{o.a.accountId, o.b.accountId}
  }

  ghost predicate UnchargedYet(strikes: seq<Strike>, id: nat) {
    forall k :: 0 <= k < |strikes| ==> strikes[k].offer != id
  }

  /** `s` just let go of `o`: its id is closed, its two accounts are in nobody's hands. */
  ghost predicate Released(s: GateState, o: Offer) {
    && Once(AccountsWith(s.queue, o))
    && IdsOnce(s) && AllLinked(s) && NoneDecided(s) && FormedWereWanted(s) && ChargedOnce(s)
    && Linked(s.clients, o.a) && Linked(s.clients, o.b)
    && o.matchId in s.closed
    && UnchargedYet(s.strikes, o.matchId)
  }

  /** `o'` is `o` as answered: the same pair for the same title under the same id. */
  predicate SameOffer(o: Offer, o': Offer) {
    o'.matchId == o.matchId && o'.key == o.key && o'.a == o.a && o'.b == o.b
  }

  lemma OnceBelow(m: multiset<string>, m': multiset<string>)
    requires Once(m) && m' <= m
    ensures Once(m')
  {
  }

  lemma SidesRemoveAt(pending: seq<Offer>, i: nat)
    requires i < |pending|
    ensures Sides(pending) == Sides(RemoveAt(pending, i)) + multiset{pending[i].a.accountId, pending[i].b.accountId}
  {
    MapRemoveAt(pending, i, AccountA);
    MapRemoveAt(pending, i, AccountB);
  }

  lemma SidesAppend(x: seq<Offer>, y: seq<Offer>)
    ensures Sides(x + y) == Sides(x) + Sides(y)
  {
    MapAppend(x, y, AccountA);
    MapAppend(x, y, AccountB);
  }

  function LetGo(s: GateState, i: nat, o: Offer): GateState
    requires i < |s.queue.pending|
  {
    CloseOffer(s.(queue := s.queue.(pending := RemoveAt(s.queue.pending, i))), o)
  }

  lemma LetGoIds(s: GateState, i: nat, o: Offer)
    requires IdsOnce(s) && i < |s.queue.pending| && o.matchId == s.queue.pending[i].matchId
    ensures IdsOnce(LetGo(s, i, o))
    ensures o.matchId !in s.closed
  {
    MapRemoveAt(s.queue.pending, i, IdOf);
    assert multiset(s.closed + [o.matchId]) == multiset(s.closed) + multiset{o.matchId};
    assert Ids(LetGo(s, i, o)) == Ids(s);
    assert Ids(s)[o.matchId] <= 1;
    assert o.matchId !in multiset(s.closed);
  }

  lemma LetGoAccounts(q: QueueState, i: nat, o: Offer)
    requires i < |q.pending| && SameOffer(q.pending[i], o)
    ensures AccountsWith(q.(pending := RemoveAt(q.pending, i)), o) == Accounts(q)
  {
    SidesRemoveAt(q.pending, i);
  }

  lemma LetGoRest(s: GateState, i: nat, o: Offer)
    requires i < |s.queue.pending|
    requires AllLinked(s) && NoneDecided(s) && FormedWereWanted(s) && ChargedOnce(s)
    ensures var s' := LetGo(s, i, o); AllLinked(s') && NoneDecided(s') && FormedWereWanted(s') && ChargedOnce(s')
  {
  }

  /** Taking one live offer off the queue and closing it. */
  lemma Release(s: GateState, i: nat, o: Offer)
    requires Inv(s) && i < |s.queue.pending| && SameOffer(s.queue.pending[i], o)
    ensures Released(LetGo(s, i, o), o)
  {
    LetGoIds(s, i, o);
    LetGoAccounts(s.queue, i, o);
    LetGoRest(s, i, o);
  }

  lemma RequeueAccounts(q: QueueState, t: Ticket, now: nat)
    ensures Accounts(q.(tickets := [t.(queuedAt := now)] + q.tickets)) == Accounts(q) + multiset{t.accountId}
  {
  }

  lemma RequeueOnce(s: GateState, o: Offer, t: Ticket, now: nat)
    requires Once(AccountsWith(s.queue, o)) && (t == o.a || t == o.b)
    ensures AccountsOnce(RequeueIfHere(s, t, now))
  {
    var s' := RequeueIfHere(s, t, now);
    RequeueAccounts(s.queue, t, now);
    hide Accounts, Once;
    assert Accounts(s'.queue) <= AccountsWith(s.queue, o);
    OnceBelow(AccountsWith(s.queue, o), Accounts(s'.queue));
  }

  lemma RequeueLinked(s: GateState, t: Ticket, now: nat)
    requires AllLinked(s) && Linked(s.clients, t)
    ensures AllLinked(RequeueIfHere(s, t, now))
  {
  }

  /** The innocent side of a released offer is always there to be requeued, and requeueing it is safe. */
  lemma RequeueKeeps(s: GateState, o: Offer, t: Ticket, now: nat)
    requires Released(s, o) && (t == o.a || t == o.b)
    ensures t.playerId in s.clients
    ensures Inv(RequeueIfHere(s, t, now))
  {
    RequeueOnce(s, o, t, now);
    RequeueLinked(s, t, now);
    hide AccountsOnce, AccountsWith, AllLinked;
    assert Ids(RequeueIfHere(s, t, now)) == Ids(s);
  }

  /** Charging a side, or both, of a released offer keeps the record honest. */
  lemma StrikeKeeps(s: GateState, o: Offer, more: seq<Strike>)
    requires ChargedOnce(s) && UnchargedYet(s.strikes, o.matchId) && o.matchId in s.closed
    requires forall k :: 0 <= k < |more| ==> more[k].offer == o.matchId
    requires forall i, j :: 0 <= i < j < |more| ==> more[i].account != more[j].account
    ensures ChargedOnce(s.(strikes := s.strikes + more))
  {
  }

  /** Charging one side and requeueing the other restores the invariant. */
  lemma SettleKeeps(s: GateState, o: Offer, loser: string, kind: string, now: nat)
    requires Released(s, o)
    ensures Inv(Settle(s, o, loser, kind, now))
  {
    var (bad, other) := if o.a.playerId == loser then (o.a, o.b) else (o.b, o.a);
    var strike := ChargeFor(bad, o, kind, now);
    RequeueKeeps(s, o, other, now);
    StrikeKeeps(RequeueIfHere(s, other, now), o, [strike]);
    var r := RequeueIfHere(s, other, now);
    assert Settle(s, o, loser, kind, now) == r.(strikes := r.strikes + [strike]);
    StrikesDoNotMatter(r, r.strikes + [strike]);
  }

  lemma StrikesDoNotMatter(s: GateState, strikes: seq<Strike>)
    requires Inv(s) && ChargedOnce(s.(strikes := strikes))
    ensures Inv(s.(strikes := strikes))
  {
    assert Ids(s.(strikes := strikes)) == Ids(s);
  }

  /** A released offer may simply be forgotten. */
  lemma ForgetKeeps(s: GateState, o: Offer)
    requires Released(s, o)
    ensures Inv(s)
  {
    OnceBelow(AccountsWith(s.queue, o), Accounts(s.queue));
  }

  lemma ChargeAllKeeps(s: GateState, o: Offer, more: seq<Strike>)
    requires Released(s, o)
    requires forall k :: 0 <= k < |more| ==> more[k].offer == o.matchId
    requires forall i, j :: 0 <= i < j < |more| ==> more[i].account != more[j].account
    ensures Inv(s.(strikes := s.strikes + more))
  {
    StrikeKeeps(s, o, more);
    ForgetKeeps(s, o);
    hide Inv, ChargedOnce, Released;
    StrikesDoNotMatter(s, s.strikes + more);
  }

  lemma ChargeBothKeeps(s: GateState, o: Offer, kind: string, now: nat)
    requires Released(s, o)
    ensures Inv(s.(strikes := s.strikes + [ChargeFor(o.a, o, kind, now), ChargeFor(o.b, o, kind, now)]))
  {
    SidesHaveTwoAccounts(s.queue, o);
    hide Inv, Released, AccountsWith;
    ChargeAllKeeps(s, o, [ChargeFor(o.a, o, kind, now), ChargeFor(o.b, o, kind, now)]);
  }

  lemma SidesHaveTwoAccounts(q: QueueState, o: Offer)
    requires Once(AccountsWith(q, o))
    ensures o.a.accountId != o.b.accountId
  {
    assert AccountsWith(q, o)[o.a.accountId] <= 1;
  }

  /** The client table may change in any way that keeps signed-in connections signed in. */
  ghost predicate KeepsAccounts(from: map<string, Client>, to: map<string, Client>) {
    forall p :: p in from && from[p].account.Some? ==> p in to && to[p].account == from[p].account
  }

  lemma ClientsLinked(s: GateState, to: map<string, Client>)
    requires AllLinked(s) && KeepsAccounts(s.clients, to)
    ensures AllLinked(s.(clients := to))
  {
  }

  /** What is said of the record and of the queue does not mention the clients. */
  lemma ClientsKeep(s: GateState, to: map<string, Client>)
    requires Inv(s) && KeepsAccounts(s.clients, to)
    ensures Inv(s.(clients := to))
  {
    ClientsLinked(s, to);
    RecordUntouched(s, s.(clients := to));
  }

  lemma RecordUntouched(s: GateState, s': GateState)
    requires IdsOnce(s) && NoneDecided(s) && FormedWereWanted(s) && ChargedOnce(s)
    requires s'.queue.pending == s.queue.pending && s'.queue.nextId == s.queue.nextId
    requires s'.closed == s.closed && s'.formed == s.formed && s'.strikes == s.strikes
    ensures IdsOnce(s') && NoneDecided(s') && FormedWereWanted(s') && ChargedOnce(s')
  {
    assert Ids(s') == Ids(s);
  }

  lemma FormedKeeps(s: GateState, o: Offer, recent: seq<Played>)
    requires Inv(s) && o.BothYes() && o.matchId in s.closed
    ensures Inv(s.(queue := s.queue.(recent := recent), formed := s.formed + [o]))
  {
    var s' := s.(queue := s.queue.(recent := recent), formed := s.formed + [o]);
    assert Accounts(s'.queue) == Accounts(s.queue);
    assert Ids(s') == Ids(s);
  }

  lemma FormKeeps(s: GateState, o: Offer, now: nat)
    requires Released(s, o) && o.BothYes()
    ensures Inv(FormMatch(s, o, now))
  {
    ForgetKeeps(s, o);
    var recent := s.queue.recent + [Played(o.a.accountId, o.b.accountId, now)];
    FormedKeeps(s, o, recent);
    var s1 := s.(queue := s.queue.(recent := recent), formed := s.formed + [o]);
    var to := Seat(Seat(s.clients, o.a.playerId), o.b.playerId);
    ClientsKeep(s1, to);
    assert FormMatch(s, o, now) == s1.(clients := to);
  }

  // ----- every handler keeps the invariant -----

  lemma DecideKeeps(s: GateState, i: nat, o: Offer, now: nat)
    requires Inv(s) && i < |s.queue.pending| && SameOffer(s.queue.pending[i], o)
    ensures Inv(Decide(LetGo(s, i, o), o, now))
  {
    Release(s, i, o);
    var s1 := LetGo(s, i, o);
    if o.BothYes() {
      FormKeeps(s1, o, now);
    } else {
      SettleKeeps(s1, o, if o.aAccept == Some(false) then o.a.playerId else o.b.playerId, "decline", now);
    }
  }

  lemma AnswerCounts(pending: seq<Offer>, i: nat, o: Offer)
    requires i < |pending| && SameOffer(pending[i], o)
    ensures Sides(pending[i := o]) == Sides(pending)
    ensures MapSeq(pending[i := o], IdOf) == MapSeq(pending, IdOf)
  {
    hide MapSeq;
    assert MapSeq(pending[i := o], AccountA) == MapSeq(pending, AccountA);
    assert MapSeq(pending[i := o], AccountB) == MapSeq(pending, AccountB);
    assert MapSeq(pending[i := o], IdOf) == MapSeq(pending, IdOf);
  }

  lemma AnswerRest(s: GateState, i: nat, o: Offer)
    requires i < |s.queue.pending| && SameOffer(s.queue.pending[i], o) && !o.Answered()
    requires AllLinked(s) && NoneDecided(s)
    ensures var s' := s.(queue := s.queue.(pending := s.queue.pending[i := o])); AllLinked(s') && NoneDecided(s')
  {
  }

  /** An answer that leaves the offer open. */
  lemma AnswerKeeps(s: GateState, i: nat, o: Offer)
    requires Inv(s) && i < |s.queue.pending| && SameOffer(s.queue.pending[i], o) && !o.Answered()
    ensures Inv(s.(queue := s.queue.(pending := s.queue.pending[i := o])))
  {
    AnswerCounts(s.queue.pending, i, o);
    AnswerRest(s, i, o);
    SameCounts(s, s.(queue := s.queue.(pending := s.queue.pending[i := o])));
  }

  lemma SameCounts(s: GateState, s': GateState)
    requires AccountsOnce(s) && IdsOnce(s)
    requires Accounts(s'.queue) == Accounts(s.queue) && Ids(s') == Ids(s) && s'.queue.nextId == s.queue.nextId
    ensures AccountsOnce(s') && IdsOnce(s')
  {
  }

  lemma ReplyKeeps(s: GateState, player: string, accept: bool, matchId: Option<nat>, now: nat)
    requires Inv(s)
    ensures Inv(HandleReply(s, player, accept, matchId, now))
  {
    var at := FindOffer(s.queue.pending, player);
    if at.Some? && !(matchId.Some? && matchId.value != s.queue.pending[at.value].matchId) {
      var o := s.queue.pending[at.value].Record(player, accept);
      if o.Answered() {
        DecideKeeps(s, at.value, o, now);
      } else {
        AnswerKeeps(s, at.value, o);
      }
    }
  }

  lemma {:induction false} DropTicketsCounts(ts: seq<Ticket>, player: string)
    ensures multiset(MapSeq(WithoutPlayer(ts, player), AccountOf)) <= multiset(MapSeq(ts, AccountOf))
  {
    var (keep, drop) := ((t: Ticket) => t.playerId != player, (t: Ticket) => t.playerId == player);
    var (kept, dropped) := (Filter(ts, keep), Filter(ts, drop));
    FilterSplits(ts, keep, drop);
    MapPermutation(ts, kept + dropped, AccountOf);
    MapAppend(kept, dropped, AccountOf);
    assert multiset(MapSeq(ts, AccountOf)) == multiset(MapSeq(kept, AccountOf)) + multiset(MapSeq(dropped, AccountOf));
  }

  lemma DropTicketsKeeps(s: GateState, player: string)
    requires Inv(s)
    ensures Inv(s.(queue := s.queue.(tickets := WithoutPlayer(s.queue.tickets, player))))
  {
    var q' := s.queue.(tickets := WithoutPlayer(s.queue.tickets, player));
    FilterMembers(s.queue.tickets, (t: Ticket) => t.playerId != player);
    DropTicketsCounts(s.queue.tickets, player);
    OnceBelow(Accounts(s.queue), Accounts(q'));
    RecordUntouched(s, s.(queue := q'));
  }

  lemma WithdrawKeeps(s: GateState, player: string, now: nat)
    requires Inv(s)
    ensures Inv(Withdraw(s, player, now))
  {
    DropTicketsKeeps(s, player);
    var s1 := s.(queue := s.queue.(tickets := WithoutPlayer(s.queue.tickets, player)));
    var at := FindOffer(s.queue.pending, player);
    if at.Some? {
      var o := s.queue.pending[at.value];
      Release(s1, at.value, o);
      SettleKeeps(LetGo(s1, at.value, o), o, player, "timeout", now);
      assert Withdraw(s, player, now) == Settle(LetGo(s1, at.value, o), o, player, "timeout", now);
    }
  }

  // Expiry takes every lapsed offer off at once and settles them in turn: `xs` are those still to settle.

  lemma SettleLapsedKeeps(s: GateState, o: Offer, now: nat)
    requires Released(s, o)
    ensures Inv(SettleLapsed(s, o, now))
  {
    if o.aAccept != Some(true) && o.bAccept != Some(true) {
      ChargeBothKeeps(s, o, "timeout", now);
    } else {
      var loser := if o.aAccept != Some(true) then o.a.playerId else o.b.playerId;
      SettleKeeps(s, o, loser, "timeout", now);
      assert SettleLapsed(s, o, now) == Settle(s, o, loser, "timeout", now);
    }
  }

  function WithPending(s: GateState, pending: seq<Offer>): GateState {
    s.(queue := s.queue.(pending := pending))
  }

  /** Settling does not look at the offers still live. */
  lemma SettleLapsedCommutes(s: GateState, o: Offer, pending: seq<Offer>, now: nat)
    ensures SettleLapsed(CloseOffer(WithPending(s, pending), o), o, now)
            == WithPending(SettleLapsed(CloseOffer(s, o), o, now), pending)
  {
  }

  lemma {:induction false} SettleAllKeeps(s: GateState, kept: seq<Offer>, xs: seq<Offer>, now: nat)
    requires s.queue.pending == kept
    requires Inv(WithPending(s, kept + xs))
    ensures Inv(SettleAll(s, xs, now))
    decreases |xs|
  {
    if xs == [] {
      assert kept + xs == kept;
      assert WithPending(s, kept) == s;
    } else {
      var (all, o) := (WithPending(s, kept + xs), xs[0]);
      Release(all, |kept|, o);
      var rest := kept + xs[1..];
      assert RemoveAt(kept + xs, |kept|) == rest;
      assert LetGo(all, |kept|, o) == CloseOffer(WithPending(s, rest), o);
      SettleLapsedKeeps(LetGo(all, |kept|, o), o, now);
      SettleLapsedCommutes(s, o, rest, now);
      SettleLapsedCommutes(s, o, kept, now);
      SettleAllKeeps(SettleLapsed(CloseOffer(s, o), o, now), kept, xs[1..], now);
    }
  }

  /** Reordering the live offers changes nothing the invariant speaks of. */
  lemma ReorderKeeps(s: GateState, pending: seq<Offer>)
    requires Inv(s) && multiset(pending) == multiset(s.queue.pending)
    ensures Inv(WithPending(s, pending))
  {
    MapPermutation(s.queue.pending, pending, AccountA);
    MapPermutation(s.queue.pending, pending, AccountB);
    MapPermutation(s.queue.pending, pending, IdOf);
    SameCounts(s, WithPending(s, pending));
    ReorderLinks(s, pending);
  }

  lemma ReorderLinks(s: GateState, pending: seq<Offer>)
    requires AllLinked(s) && NoneDecided(s) && multiset(pending) == multiset(s.queue.pending)
    ensures AllLinked(WithPending(s, pending)) && NoneDecided(WithPending(s, pending))
  {
    forall o | o in pending ensures o in s.queue.pending {
      assert o in multiset(pending);
    }
  }

  lemma ExpireKeeps(cfg: Config, s: GateState, now: nat)
    requires Inv(s)
    ensures Inv(Expire(cfg, s, now))
  {
    var kept := Lapsed(s.queue.pending, cfg.acceptSecs, now, false);
    var lapsed := Lapsed(s.queue.pending, cfg.acceptSecs, now, true);
    LapsedSplit(s.queue.pending, cfg.acceptSecs, now);
    ReorderKeeps(s, kept + lapsed);
    var s1 := WithPending(s, kept);
    assert WithPending(s1, kept + lapsed) == WithPending(s, kept + lapsed);
    SettleAllKeeps(s1, kept, lapsed, now);
  }

  lemma LapsedSplit(pending: seq<Offer>, acceptSecs: nat, now: nat)
    ensures multiset(Lapsed(pending, acceptSecs, now, false) + Lapsed(pending, acceptSecs, now, true))
            == multiset(pending)
  {
    FilterSplits(pending, (o: Offer) => o.Expired(acceptSecs, now) == false,
                 (o: Offer) => o.Expired(acceptSecs, now) == true);
  }

  // Pairing.

  lemma SidesOfOne(o: Offer)
    ensures multiset(MapSeq(Seated([o]), AccountOf)) == Sides([o])
  {
    assert Seated([o]) == [o.a, o.b];
    assert MapSeq([o.a, o.b], AccountOf) == [o.a.accountId, o.b.accountId];
    assert Sides([o]) == multiset{o.a.accountId, o.b.accountId};
  }

  lemma {:induction false} SeatedSides(offers: seq<Offer>)
    ensures multiset(MapSeq(Seated(offers), AccountOf)) == Sides(offers)
  {
    if offers != [] {
      var (o, rest) := (offers[0], offers[1..]);
      SeatedSides(rest);
      SidesOfOne(o);
      assert offers == [o] + rest;
      SeatedAppend([o], rest);
      MapAppend(Seated([o]), Seated(rest), AccountOf);
      SidesAppend([o], rest);
    }
  }

  lemma {:induction false} SeatedMembers(offers: seq<Offer>)
    ensures forall o :: o in offers ==> o.a in Seated(offers) && o.b in Seated(offers)
    ensures forall t :: t in Seated(offers) ==> exists o :: o in offers && (t == o.a || t == o.b)
  {
    if offers != [] {
      SeatedMembers(offers[1..]);
      assert offers == [offers[0]] + offers[1..];
    }
  }

  lemma {:induction false} RangeCounts(ids: seq<nat>, from: nat, n: nat)
    requires forall k :: 0 <= k < |ids| ==> ids[k] == from + k
    ensures multiset(ids)[n] == if from <= n < from + |ids| then 1 else 0
  {
    if ids != [] {
      assert ids == [ids[0]] + ids[1..];
      RangeCounts(ids[1..], from + 1, n);
    }
  }

  lemma PairedAccounts(q: QueueState, q': QueueState, made: seq<Offer>, c: Context)
    requires Paired(q, q', made, c)
    ensures Accounts(q') == Accounts(q)
  {
    MapPermutation(q.tickets, q'.tickets + Seated(made), AccountOf);
    MapAppend(q'.tickets, Seated(made), AccountOf);
    SeatedSides(made);
    SidesAppend(q.pending, made);
  }

  lemma {:induction false} PendingIds(s: GateState, q': QueueState, made: seq<Offer>)
    requires q'.pending == s.queue.pending + made
    ensures Ids(s.(queue := q')) == Ids(s) + multiset(MapSeq(made, IdOf))
  {
    MapAppend(s.queue.pending, made, IdOf);
  }

  lemma PairedIds(s: GateState, q': QueueState, made: seq<Offer>)
    requires IdsOnce(s)
    requires q'.pending == s.queue.pending + made
    requires q'.nextId == s.queue.nextId + |made| && Numbered(made, s.queue.nextId)
    ensures IdsOnce(s.(queue := q'))
  {
    PendingIds(s, q', made);
    forall n: nat ensures Ids(s.(queue := q'))[n] == if n < q'.nextId then 1 else 0 {
      RangeCounts(MapSeq(made, IdOf), s.queue.nextId, n);
    }
  }

  lemma PairedLinks(s: GateState, q': QueueState, made: seq<Offer>, c: Context)
    requires AllLinked(s) && NoneDecided(s) && Paired(s.queue, q', made, c)
    ensures AllLinked(s.(queue := q')) && NoneDecided(s.(queue := q'))
  {
    SeatedMembers(made);
    forall t | t in q'.tickets || t in Seated(made) ensures t in s.queue.tickets {
      assert t in multiset(q'.tickets) || t in multiset(Seated(made));
      assert t in multiset(s.queue.tickets);
    }
    forall o | o in made ensures OfferSound(o, c) {}
  }

  lemma PairUpKeeps(s: GateState, cooldown: nat, now: nat)
    requires Inv(s)
    ensures Inv(s.(queue := PairUp(s.queue, cooldown, now)))
  {
    var kept := FreshOnly(s.queue.recent, cooldown, now);
    var c := Context(kept, cooldown, now);
    var s0 := s.(queue := s.queue.(recent := kept));
    SameCounts(s, s0);
    RecordUntouched(s, s0);
    PairingConserves(s0.queue, c);
    var q' := PairUp(s.queue, cooldown, now);
    var made :| Paired(s0.queue, q', made, c);
    PairedAccounts(s0.queue, q', made, c);
    PairedIds(s0, q', made);
    PairedLinks(s0, q', made, c);
    assert s.(queue := q') == s0.(queue := q');
  }

  lemma QueuedIsCounted(q: QueueState, account: string)
    requires Accounts(q)[account] > 0
    ensures IsQueued(q, account)
  {
    var (queued, first, second) :=
      (MapSeq(q.tickets, AccountOf), MapSeq(q.pending, AccountA), MapSeq(q.pending, AccountB));
    assert account in queued || account in first || account in second;
    if account in queued {
      var k :| 0 <= k < |queued| && queued[k] == account;
      assert q.tickets[k] in q.tickets;
    } else if account in first {
      var k :| 0 <= k < |first| && first[k] == account;
      assert q.pending[k] in q.pending;
    } else {
      var k :| 0 <= k < |second| && second[k] == account;
      assert q.pending[k] in q.pending;
    }
  }

  lemma PushAccounts(q: QueueState, t: Ticket)
    requires Once(Accounts(q)) && !IsQueued(q, t.accountId)
    ensures Once(Accounts(q.(tickets := q.tickets + [t])))
  {
    if Accounts(q)[t.accountId] > 0 {
      QueuedIsCounted(q, t.accountId);
    }
    MapAppend(q.tickets, [t], AccountOf);
    assert MapSeq([t], AccountOf) == [t.accountId];
    assert Accounts(q.(tickets := q.tickets + [t])) == Accounts(q) + multiset{t.accountId};
  }

  lemma EnqueueKeeps(cfg: Config, s: GateState, player: string, r: Request, now: nat)
    requires Inv(s)
    ensures Inv(HandleEnqueue(cfg, s, player, r, now))
  {
    if MayQueue(cfg, s, player, r, now) {
      var c := s.clients[player];
      var t := MakeTicket(c, c.account.value, player, r, now);
      PushAccounts(s.queue, t);
      var s1 := s.(queue := s.queue.(tickets := s.queue.tickets + [t]));
      RecordUntouched(s, s1);
      assert AllLinked(s1);
      PairUpKeeps(s1, cfg.rematchSecs, now);
    }
  }

  lemma {:induction false} SetRttMaps(ts: seq<Ticket>, player: string, rtt: int)
    ensures MapSeq(SetRtt(ts, player, rtt), AccountOf) == MapSeq(ts, AccountOf)
    ensures MapSeq(SetRtt(ts, player, rtt), (t: Ticket) => t.playerId) == MapSeq(ts, (t: Ticket) => t.playerId)
  {
    if ts != [] && ts[0].playerId != player {
      SetRttMaps(ts[1..], player, rtt);
    }
  }

  lemma {:induction false} ProbeKeeps(s: GateState, player: string, rtt: int)
    requires Inv(s)
    ensures Inv(s.(queue := s.queue.(tickets := SetRtt(s.queue.tickets, player, rtt))))
  {
    var s' := s.(queue := s.queue.(tickets := SetRtt(s.queue.tickets, player, rtt)));
    SetRttMaps(s.queue.tickets, player, rtt);
    SameCounts(s, s');
    RecordUntouched(s, s');
    forall k | 0 <= k < |s'.queue.tickets| ensures Linked(s.clients, s'.queue.tickets[k]) {
      var f := (t: Ticket) => t.playerId;
      assert MapSeq(s'.queue.tickets, f)[k] == MapSeq(s.queue.tickets, f)[k];
      assert MapSeq(s'.queue.tickets, AccountOf)[k] == MapSeq(s.queue.tickets, AccountOf)[k];
      assert s.queue.tickets[k] in s.queue.tickets;
    }
  }

  /** The messages that touch a connection's row and nothing else. */
  lemma RowEventKeeps(cfg: Config, s: GateState, now: nat, e: Event)
    requires Inv(s) && (e.Connect? || e.SignIn? || e.SetBlocks? || e.SetInLobby?)
    ensures Inv(Step(cfg, s, now, e))
  {
    if Step(cfg, s, now, e) != s {
      ClientsKeep(s, Step(cfg, s, now, e).clients);
    }
    hide Inv;
  }

  lemma {:induction false} ProbeEventKeeps(s: GateState, p: string, rtt: int)
    requires Inv(s)
    ensures var s1 := if p in s.clients then s.(clients := s.clients[p := s.clients[p].(probeRtt := rtt)]) else s;
            Inv(s1.(queue := s1.queue.(tickets := SetRtt(s1.queue.tickets, p, rtt))))
  {
    if p in s.clients {
      ClientsKeep(s, s.clients[p := s.clients[p].(probeRtt := rtt)]);
      ProbeKeeps(s.(clients := s.clients[p := s.clients[p].(probeRtt := rtt)]), p, rtt);
    } else {
      ProbeKeeps(s, p, rtt);
    }
  }

  /** Every handler keeps the invariant. */
  lemma StepKeeps(cfg: Config, s: GateState, now: nat, e: Event)
    requires Inv(s)
    ensures Inv(Step(cfg, s, now, e))
  {
    hide Inv;
    match e
    case Probe(p, rtt) => ProbeEventKeeps(s, p, rtt);
    case Enqueue(p, r) => EnqueueKeeps(cfg, s, p, r, now);
    case Cancel(p) => WithdrawKeeps(s, p, now);
    case Reply(p, accept, matchId) => ReplyKeeps(s, p, accept, matchId, now);
    case Tick =>
      ExpireKeeps(cfg, s, now);
      PairUpKeeps(Expire(cfg, s, now), cfg.rematchSecs, now);
    case Disconnect(p) =>
      WithdrawKeeps(s, p, now);
      DisconnectKeeps(s, p, now);
    case _ => RowEventKeeps(cfg, s, now, e);
  }

  /** A player is in at most the one offer that is found first. */
  lemma {:induction false} NoOtherOffer(s: GateState, player: string)
    requires Inv(s)
    ensures var (at, pending) := (FindOffer(s.queue.pending, player), s.queue.pending);
            && (at.None? ==> forall k :: 0 <= k < |pending| ==> !pending[k].HasPlayer(player))
            && (at.Some? ==> forall k :: 0 <= k < |pending| && k != at.value ==> !pending[k].HasPlayer(player))
  {
    var (at, pending) := (FindOffer(s.queue.pending, player), s.queue.pending);
    if at.Some? {
      forall k | 0 <= k < |pending| && k != at.value ensures !pending[k].HasPlayer(player) {
        OffersShareNobody(s, at.value, k, player);
      }
    }
  }

  lemma LeftAreOthers(pending: seq<Offer>, i: nat, player: string)
    requires i < |pending| && forall k :: 0 <= k < |pending| && k != i ==> !pending[k].HasPlayer(player)
    ensures forall o :: o in RemoveAt(pending, i) ==> !o.HasPlayer(player)
  {
    forall o | o in RemoveAt(pending, i) ensures !o.HasPlayer(player) {
      var n :| 0 <= n < |RemoveAt(pending, i)| && RemoveAt(pending, i)[n] == o;
      assert o == pending[if n < i then n else n + 1];
    }
  }

  /** Settling against a player who shares no seat with the other side puts only the other side's ticket back. */
  lemma SettleRequeuesOther(s: GateState, o: Offer, player: string, now: nat)
    requires o.HasPlayer(player) && o.a.playerId != o.b.playerId
    ensures var q := Settle(s, o, player, "timeout", now).queue;
            && q.pending == s.queue.pending
            && forall t :: t in q.tickets ==> t in s.queue.tickets || t.playerId != player
  {
  }

  /** A player who withdrew has no ticket and no offer left. */
  lemma WithdrawEmpties(s: GateState, player: string, now: nat)
    requires Inv(s)
    ensures var q := Withdraw(s, player, now).queue;
            && (forall t :: t in q.tickets ==> t.playerId != player)
            && (forall o :: o in q.pending ==> !o.HasPlayer(player))
  {
    FilterMembers(s.queue.tickets, (t: Ticket) => t.playerId != player);
    NoOtherOffer(s, player);
    var at := FindOffer(s.queue.pending, player);
    if at.Some? {
      OfferSidesDiffer(s, at.value);
      LeftAreOthers(s.queue.pending, at.value, player);
      var (q, r) := RemovePlayer(s.queue, player);
      SettleRequeuesOther(CloseOffer(s.(queue := q), r.value), r.value, player, now);
    }
    hide Inv, Settle, RemoveAt;
  }

  lemma DisconnectLinks(s: GateState, player: string)
    requires AllLinked(s)
    requires forall t :: t in s.queue.tickets ==> t.playerId != player
    requires forall o :: o in s.queue.pending ==> !o.HasPlayer(player)
    ensures AllLinked(s.(clients := s.clients - {player}))
  {
  }

  lemma DisconnectKeeps(s: GateState, player: string, now: nat)
    requires Inv(s) && Inv(Withdraw(s, player, now))
    ensures Inv(Withdraw(s, player, now).(clients := Withdraw(s, player, now).clients - {player}))
  {
    var s1 := Withdraw(s, player, now);
    WithdrawEmpties(s, player, now);
    DisconnectLinks(s1, player);
    RecordUntouched(s1, s1.(clients := s1.clients - {player}));
  }

  // ----- who holds what -----

  function SideOf(o: Offer, first: bool): Ticket {
    if first then o.a else o.b
  }

  lemma CountsApart(all: seq<string>, i: nat, j: nat)
    requires Once(multiset(all)) && i < |all| && j < |all| && i != j
    ensures all[i] != all[j]
  {
    var same := (x: string) => x;
    assert MapSeq(all, same) == all;
    DistinctFromCounts(all, same, if i < j then i else j, if i < j then j else i);
  }

  /** Two different sides of live offers belong to different accounts. */
  lemma AccountsApart(pending: seq<Offer>, i: nat, x: bool, j: nat, y: bool)
    requires Once(Sides(pending)) && i < |pending| && j < |pending| && (i, x) != (j, y)
    ensures SideOf(pending[i], x).accountId != SideOf(pending[j], y).accountId
  {
    var all := MapSeq(pending, AccountA) + MapSeq(pending, AccountB);
    assert multiset(all) == Sides(pending);
    var n := |pending|;
    CountsApart(all, if x then i else n + i, if y then j else n + j);
  }

  /** Two different sides of live offers are different people on different connections. */
  lemma PlayersApart(s: GateState, i: nat, x: bool, j: nat, y: bool)
    requires AccountsOnce(s) && AllLinked(s)
    requires i < |s.queue.pending| && j < |s.queue.pending| && (i, x) != (j, y)
    ensures SideOf(s.queue.pending[i], x).accountId != SideOf(s.queue.pending[j], y).accountId
    ensures SideOf(s.queue.pending[i], x).playerId != SideOf(s.queue.pending[j], y).playerId
  {
    OnceBelow(Accounts(s.queue), Sides(s.queue.pending));
    AccountsApart(s.queue.pending, i, x, j, y);
    assert s.queue.pending[i] in s.queue.pending && s.queue.pending[j] in s.queue.pending;
  }

  lemma OfferSidesDiffer(s: GateState, i: nat)
    requires AccountsOnce(s) && AllLinked(s) && i < |s.queue.pending|
    ensures s.queue.pending[i].a.accountId != s.queue.pending[i].b.accountId
    ensures s.queue.pending[i].a.playerId != s.queue.pending[i].b.playerId
  {
    PlayersApart(s, i, true, i, false);
  }

  lemma OffersShareNobody(s: GateState, i: nat, j: nat, player: string)
    requires AccountsOnce(s) && AllLinked(s)
    requires i < |s.queue.pending| && j < |s.queue.pending| && i != j
    requires s.queue.pending[i].HasPlayer(player)
    ensures !s.queue.pending[j].HasPlayer(player)
  {
    var x := s.queue.pending[i].a.playerId == player;
    PlayersApart(s, i, x, j, true);
    PlayersApart(s, i, x, j, false);
  }
}
