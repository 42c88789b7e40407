/**
 The automatch queue: tickets waiting in arrival order, offers waiting for two
 answers, and the recent opponents. Every operation is specified by a function on
 the queue's value, and the class carries it out in place.
 */
module MatchQueue {
  import opened Lists
  import opened Matchmaking
  import opened Wrappers

  /** Two tickets on offer to each other. Offer ids are drawn from a counter, which stands for fresh UUIDs. */
  datatype Offer = Offer(
    matchId: nat, key: MatchKey, a: Ticket, b: Ticket,
    aAccept: Option<bool>, bAccept: Option<bool>, offeredAt: nat)
  {
    predicate HasPlayer(playerId: string) {
      a.playerId == playerId || b.playerId == playerId
    }

    predicate Answered() {
      aAccept == Some(false) || bAccept == Some(false) || (aAccept.Some? && bAccept.Some?)
    }

    predicate BothYes() {
      aAccept == Some(true) && bAccept == Some(true)
    }

    predicate Expired(acceptSecs: nat, now: nat) {
      acceptSecs <= ElapsedSecs(offeredAt, now)
    }

    /** The answer of one side, recorded; side `a` is asked first. */
    function Record(playerId: string, accept: bool): Offer {
      if a.playerId == playerId then this.(aAccept := Some(accept)) else this.(bAccept := Some(accept))
    }

    predicate IsIce() {
      a.iceRelay && b.iceRelay
    }

    /** Does side `a` relay? None when neither side can. */
    function RelayHostIsA(): Option<bool> {
      var byRtt := Some(!(0 <= a.rttMs && 0 <= b.rttMs && b.rttMs < a.rttMs));
      if IsIce() then byRtt
      else if a.relayEndpoint.Some? && b.relayEndpoint.Some? then byRtt
      else if a.relayEndpoint.Some? then Some(true)
      else if b.relayEndpoint.Some? then Some(false)
      else None
    }
  }

  datatype QueueState = QueueState(
    tickets: seq<Ticket>, pending: seq<Offer>, recent: seq<Played>, nextId: nat)

  const EMPTY := QueueState([], [], [], 0)

  // ----- pairing -----

  /** The queue without the two picked tickets; the later one goes first so the earlier index stays good. */
  function RemovePair(ts: seq<Ticket>, i: nat, j: nat): (r: seq<Ticket>)
    requires i < |ts| && j < |ts| && i != j
    ensures |r| == |ts| - 2
  {
    var (lo, hi) := if i < j then (i, j) else (j, i);
    RemoveAt(RemoveAt(ts, hi), lo)
  }

  /** The offer for a pick; the older ticket sits on side `a`. */
  function MakeOffer(ts: seq<Ticket>, p: Pick, id: nat, now: nat): Offer
    requires p.i < |ts| && p.j < |ts| && p.k < |ts[p.i].keys|
  {
    var (lo, hi) := if p.i < p.j then (ts[p.i], ts[p.j]) else (ts[p.j], ts[p.i]);
    var (a, b) := if lo.queuedAt <= hi.queuedAt then (lo, hi) else (hi, lo);
    Offer(id, ts[p.i].keys[p.k], a, b, None, None, now)
  }

  /** Pair until nothing pairs. */
  function PairRounds(q: QueueState, c: Context): QueueState
    decreases |q.tickets|
  {
    FairChoice(q.tickets, c);
    var r := FindPair(q.tickets, c);
    if r.None? then q
    else PairRounds(PairOnce(q, r.value, c.now), c)
  }

  function PairOnce(q: QueueState, p: Pick, now: nat): QueueState
    requires p.i < |q.tickets| && p.j < |q.tickets| && p.i != p.j && p.k < |q.tickets[p.i].keys|
  {
    QueueState(RemovePair(q.tickets, p.i, p.j),
               q.pending + [MakeOffer(q.tickets, p, q.nextId, now)],
               q.recent, q.nextId + 1)
  }

  function PairUp(q: QueueState, cooldown: nat, now: nat): QueueState {
    var kept := FreshOnly(q.recent, cooldown, now);
    PairRounds(q.(recent := kept), Context(kept, cooldown, now))
  }

  lemma RemovePairKeeps(ts: seq<Ticket>, i: nat, j: nat)
    requires i < |ts| && j < |ts| && i != j
    ensures IsSubsequence(RemovePair(ts, i, j), ts)
    ensures multiset(ts) == multiset(RemovePair(ts, i, j)) + multiset{ts[i], ts[j]}
  {
    var (lo, hi) := if i < j then (i, j) else (j, i);
    RemoveAtKeeps(ts, hi);
    RemoveAtKeeps(RemoveAt(ts, hi), lo);
    SubsequenceTransitive(RemovePair(ts, i, j), RemoveAt(ts, hi), ts);
    assert RemoveAt(ts, hi)[lo] == ts[lo];
  }

  /** Both tickets of every offer. */
  function Seated(offers: seq<Offer>): seq<Ticket> {
    if offers == [] then [] else [offers[0].a, offers[0].b] + Seated(offers[1..])
  }

  lemma {:induction false} SeatedAppend(x: seq<Offer>, y: seq<Offer>)
    ensures Seated(x + y) == Seated(x) + Seated(y)
  {
    if x == [] {
      assert x + y == y;
    } else {
      SeatedAppend(x[1..], y);
      assert (x + y)[1..] == x[1..] + y;
    }
  }

  /** What every offer a pairing run makes must satisfy. */
  ghost predicate OfferSound(o: Offer, c: Context) {
    && Pairable(c, true, o.a, o.b)
    && o.key in o.a.keys && o.key in o.b.keys
    && o.a.queuedAt <= o.b.queuedAt
    && o.aAccept == None && o.bAccept == None && o.offeredAt == c.now
  }

  ghost predicate AllSound(made: seq<Offer>, c: Context) {
    forall n :: 0 <= n < |made| ==> OfferSound(made[n], c)
  }

  ghost predicate Numbered(made: seq<Offer>, from: nat) {
    forall n :: 0 <= n < |made| ==> made[n].matchId == from + n
  }

  /** The old tickets are the remaining ones, in their old order, plus exactly the two of each new offer. */
  ghost predicate Moved(ts: seq<Ticket>, ts': seq<Ticket>, made: seq<Offer>) {
    && IsSubsequence(ts', ts)
    && multiset(ts) == multiset(ts') + multiset(Seated(made))
  }

  /**
   `q'` is `q` after making these offers: tickets only move into offers, new offers
   come after the old ones with consecutive ids, and each is sound.
  */
  ghost predicate Paired(q: QueueState, q': QueueState, made: seq<Offer>, c: Context) {
    && q'.pending == q.pending + made
    && q'.recent == q.recent
    && Moved(q.tickets, q'.tickets, made)
    && q'.nextId == q.nextId + |made|
    && Numbered(made, q.nextId)
    && AllSound(made, c)
  }

  lemma PickedOfferIsSound(ts: seq<Ticket>, c: Context, p: Pick, id: nat)
    requires Hit(ts, c, true, p)
    ensures OfferSound(MakeOffer(ts, p, id, c.now), c)
  {
  }

  lemma PickedTicketsMove(ts: seq<Ticket>, p: Pick, id: nat, now: nat)
    requires p.i < p.j < |ts| && p.k < |ts[p.i].keys|
    ensures Moved(ts, RemovePair(ts, p.i, p.j), [MakeOffer(ts, p, id, now)])
  {
    RemovePairKeeps(ts, p.i, p.j);
    var o := MakeOffer(ts, p, id, now);
    assert Seated([o]) == [o.a, o.b];
  }

  lemma OneRound(q: QueueState, c: Context, p: Pick)
    requires FindPair(q.tickets, c) == Some(p)
    ensures p.i < p.j < |q.tickets| && p.k < |q.tickets[p.i].keys|
    ensures Paired(q, PairOnce(q, p, c.now), [MakeOffer(q.tickets, p, q.nextId, c.now)], c)
  {
    FairChoice(q.tickets, c);
    assert Hit(q.tickets, c, true, p);
    PickedOfferIsSound(q.tickets, c, p, q.nextId);
    PickedTicketsMove(q.tickets, p, q.nextId, c.now);
  }

  lemma AllSoundAppend(x: seq<Offer>, y: seq<Offer>, from: nat, c: Context)
    requires AllSound(x, c) && AllSound(y, c)
    requires Numbered(x, from) && Numbered(y, from + |x|)
    ensures AllSound(x + y, c) && Numbered(x + y, from)
  {
  }

  lemma SubsetSums<T>(a: multiset<T>, b: multiset<T>, c: multiset<T>, x: seq<T>, y: seq<T>)
    requires a == b + multiset(x) && b == c + multiset(y)
    ensures a == c + multiset(x + y)
  {
  }

  lemma MovedTransitive(ts: seq<Ticket>, ts1: seq<Ticket>, ts2: seq<Ticket>, x: seq<Offer>, y: seq<Offer>)
    requires Moved(ts, ts1, x) && Moved(ts1, ts2, y)
    ensures Moved(ts, ts2, x + y)
  {
    SubsequenceTransitive(ts2, ts1, ts);
    SeatedAppend(x, y);
    SubsetSums(multiset(ts), multiset(ts1), multiset(ts2), Seated(x), Seated(y));
  }

  lemma PairedTransitive(q: QueueState, q1: QueueState, q2: QueueState, x: seq<Offer>, y: seq<Offer>, c: Context)
    requires Paired(q, q1, x, c) && Paired(q1, q2, y, c)
    ensures Paired(q, q2, x + y, c)
  {
    MovedTransitive(q.tickets, q1.tickets, q2.tickets, x, y);
    AllSoundAppend(x, y, q.nextId, c);
    assert q2.pending == q.pending + (x + y);
  }

  lemma PairedReflexive(q: QueueState, c: Context)
    ensures Paired(q, q, [], c)
  {
    SubsequenceReflexive(q.tickets);
  }

  /** Pairing conserves the queue and offers nothing unsound. */
  lemma {:induction false} PairingConserves(q: QueueState, c: Context)
    ensures exists made :: Paired(q, PairRounds(q, c), made, c)
    decreases |q.tickets|
  {
    var q2 := PairRounds(q, c);
    var r := FindPair(q.tickets, c);
    if r.None? {
      PairedReflexive(q, c);
      assert Paired(q, q2, [], c);
    } else {
      OneRound(q, c, r.value);
      var q1 := PairOnce(q, r.value, c.now);
      var first := [MakeOffer(q.tickets, r.value, q.nextId, c.now)];
      PairingConserves(q1, c);
      var rest :| Paired(q1, q2, rest, c);
      PairedTransitive(q, q1, q2, first, rest, c);
      assert Paired(q, q2, first + rest, c);
    }
  }

  /** Pairing stops only when no two waiting tickets may be paired, even under the relaxed rules. */
  lemma {:induction false} PairingIsMaximal(q: QueueState, c: Context)
    ensures forall p :: !Hit(PairRounds(q, c).tickets, c, true, p)
    decreases |q.tickets|
  {
    FairChoice(q.tickets, c);
    var r := FindPair(q.tickets, c);
    if r.Some? {
      PairingIsMaximal(PairOnce(q, r.value, c.now), c);
    }
  }

  /**
   A pairing run offers only pairs that may play, under a key both named, and leaves no
   two tickets with a shared key that may.
  */
  lemma PairingExactly(q: QueueState, cooldown: nat, now: nat)
    ensures var q' := PairUp(q, cooldown, now);
            && q.pending <= q'.pending
            && (forall n :: |q.pending| <= n < |q'.pending| ==>
                  var o := q'.pending[n]; MayPlay(o.a, o.b, now) && o.key in o.a.keys && o.key in o.b.keys)
            && (forall x: nat, y: nat ::
                  x < y < |q'.tickets| && (exists key :: key in q'.tickets[x].keys && key in q'.tickets[y].keys) ==>
                    !MayPlay(q'.tickets[x], q'.tickets[y], now))
  {
    var kept := FreshOnly(q.recent, cooldown, now);
    var (c, q0) := (Context(kept, cooldown, now), q.(recent := kept));
    var q' := PairRounds(q0, c);
    PairingConserves(q0, c);
    var made :| Paired(q0, q', made, c);
    forall n | |q.pending| <= n < |q'.pending|
      ensures var o := q'.pending[n]; MayPlay(o.a, o.b, now) && o.key in o.a.keys && o.key in o.b.keys
    {
      assert q'.pending[n] == made[n - |q.pending|] && OfferSound(made[n - |q.pending|], c);
      EligibleExactly(c, true, q'.pending[n].a, q'.pending[n].b);
    }
    PairingIsMaximal(q0, c);
    hide Hit, MayPlay, Pairable, PairRounds, Paired;
    forall x: nat, y: nat
      | x < y < |q'.tickets| && exists key :: key in q'.tickets[x].keys && key in q'.tickets[y].keys
      ensures !MayPlay(q'.tickets[x], q'.tickets[y], now)
    {
      NotEligibleLeft(q'.tickets, c, x, y);
    }
  }

  lemma NotEligibleLeft(ts: seq<Ticket>, c: Context, x: nat, y: nat)
    requires x < y < |ts| && (exists key :: key in ts[x].keys && key in ts[y].keys)
    requires forall p :: !Hit(ts, c, true, p)
    ensures !MayPlay(ts[x], ts[y], c.now)
  {
    EligibleIsHit(ts, c, true, x, y);
    hide Hit, MayPlay;
  }

  /**
   After any pairing run, no two people with a title in common, no block and somebody to
   relay are left once either has waited 100 s, measured or not.
  */
  lemma NobodyWaitsForever(q: QueueState, cooldown: nat, now: nat, x: nat, y: nat)
    requires x < y < |PairUp(q, cooldown, now).tickets|
    requires var (a, b) := (PairUp(q, cooldown, now).tickets[x], PairUp(q, cooldown, now).tickets[y]);
             && (exists key :: key in a.keys && key in b.keys)
             && a.accountId != b.accountId && b.accountId !in a.blocks && a.accountId !in b.blocks
             && (a.relayEndpoint.Some? || b.relayEndpoint.Some? || (a.iceRelay && b.iceRelay))
             && (0 <= a.rttMs || a.queuedAt + 3_000 <= now) && (0 <= b.rttMs || b.queuedAt + 3_000 <= now)
    ensures var (a, b) := (PairUp(q, cooldown, now).tickets[x], PairUp(q, cooldown, now).tickets[y]);
            now < a.queuedAt + 100_000 && now < b.queuedAt + 100_000
  {
    PairingExactly(q, cooldown, now);
    hide PairUp;
  }

  lemma {:induction false} RoundsOnlyAppend(q: QueueState, c: Context)
    ensures q.pending <= PairRounds(q, c).pending
  {
    PairingConserves(q, c);
    var made :| Paired(q, PairRounds(q, c), made, c);
  }

  /** What a search picks is offered first, under the picked key, the longer waiting of the two on side `a`. */
  ghost predicate OfferedFirst(q: QueueState, q': QueueState, p: Pick) {
    && p.i < |q.tickets| && p.j < |q.tickets| && p.k < |q.tickets[p.i].keys| && |q.pending| < |q'.pending|
    && var (x, y, o) := (q.tickets[p.i], q.tickets[p.j], q'.pending[|q.pending|]);
       && o.key == x.keys[p.k]
       && (o.a, o.b) == if y.queuedAt < x.queuedAt then (y, x) else (x, y)
  }

  lemma {:induction false} PicksAreOffered(q: QueueState, c: Context)
    requires FindPair(q.tickets, c).Some?
    ensures OfferedFirst(q, PairRounds(q, c), FindPair(q.tickets, c).value)
  {
    FairChoice(q.tickets, c);
    var p := FindPair(q.tickets, c).value;
    OneRound(q, c, p);
    RoundsOnlyAppend(PairOnce(q, p, c.now), c);
  }

  /** Forgetting lapsed meetings keeps exactly those that still hold two accounts apart. */
  lemma FreshMeetings(recent: seq<Played>, cooldown: nat, now: nat)
    ensures IsSubsequence(FreshOnly(recent, cooldown, now), recent)
    ensures forall m :: m in FreshOnly(recent, cooldown, now) <==>
              m in recent && 0 < cooldown && now < m.at + 1_000 * cooldown
  {
    FilterMembers(recent, (m: Played) => ElapsedSecs(m.at, now) < cooldown);
    FilterKeepsOrder(recent, (m: Played) => ElapsedSecs(m.at, now) < cooldown);
  }

  lemma SameEligible(ts: seq<Ticket>, c: Context, relaxed: bool, x: nat, y: nat)
    ensures Eligible(ts, c, relaxed, x, y)
            <==> Eligible(ts, Context(FreshOnly(c.recent, c.cooldown, c.now), c.cooldown, c.now), relaxed, x, y)
  {
    FreshMeetings(c.recent, c.cooldown, c.now);
    hide FreshOnly, MayPlay, OneWaited;
  }

  lemma SameFairAnswer(ts: seq<Ticket>, c: Context, d: Context, relaxed: bool, r: Option<Pick>)
    requires d == Context(FreshOnly(c.recent, c.cooldown, c.now), c.cooldown, c.now)
    ensures FairAnswer(ts, c, relaxed, r) <==> FairAnswer(ts, d, relaxed, r)
    ensures (forall x, y :: !Eligible(ts, c, relaxed, x, y)) <==> forall x, y :: !Eligible(ts, d, relaxed, x, y)
  {
    forall x: nat, y: nat ensures Eligible(ts, c, relaxed, x, y) <==> Eligible(ts, d, relaxed, x, y) {
      SameEligible(ts, c, relaxed, x, y);
    }
    hide Eligible;
  }

  /**
   A run offers nothing exactly when no two tickets may play; else its first offer is a fair
   one: of the pairs that have not met lately, or of all when all have, it takes one whose
   first ticket is furthest up the queue.
  */
  lemma RunsArePicky(q: QueueState, cooldown: nat, now: nat)
    ensures var (q', c) := (PairUp(q, cooldown, now), Context(q.recent, cooldown, now));
            var relaxed := forall x, y :: !Eligible(q.tickets, c, false, x, y);
            if forall x, y :: !Eligible(q.tickets, c, true, x, y) then q'.pending == q.pending
            else exists p :: FairAnswer(q.tickets, c, relaxed, Some(p)) && OfferedFirst(q, q', p)
  {
    var kept := FreshOnly(q.recent, cooldown, now);
    var (c, d, q0) := (Context(q.recent, cooldown, now), Context(kept, cooldown, now), q.(recent := kept));
    var r := FindPair(q.tickets, d);
    SearchIsFair(q.tickets, d);
    assert r.None? <==> forall x, y :: !Eligible(q.tickets, d, true, x, y) by {
      RelaxedTakesMore(q.tickets, d);
      hide Eligible;
    }
    SameFairAnswer(q.tickets, c, d, false, r);
    SameFairAnswer(q.tickets, c, d, true, r);
    if r.Some? {
      PicksAreOffered(q0, d);
      OnlyRecentDiffers(q, q0, PairRounds(q0, d), r.value);
    } else {
      assert PairRounds(q0, d) == q0;
    }
    hide Eligible, PairRounds, FindPair, OfferedFirst, FreshOnly;
  }

  lemma RelaxedTakesMore(ts: seq<Ticket>, c: Context)
    ensures forall x, y :: Eligible(ts, c, false, x, y) ==> Eligible(ts, c, true, x, y)
  {
    hide MayPlay, HeldApart;
  }

  lemma OnlyRecentDiffers(q: QueueState, q0: QueueState, q': QueueState, p: Pick)
    requires q0 == q.(recent := q0.recent) && OfferedFirst(q0, q', p)
    ensures OfferedFirst(q, q', p)
  {
  }

  /** Every offer has somebody to relay it, who is able to, and whose link is no worse when both could. */
  lemma RelayIsAble(o: Offer)
    requires o.a.relayEndpoint.Some? || o.b.relayEndpoint.Some? || (o.a.iceRelay && o.b.iceRelay)
    ensures o.RelayHostIsA().Some?
    ensures var (ice, host, guest) := (o.a.iceRelay && o.b.iceRelay,
                                       if o.RelayHostIsA().value then o.a else o.b,
                                       if o.RelayHostIsA().value then o.b else o.a);
            && (ice || host.relayEndpoint.Some?)
            && (ice || guest.relayEndpoint.Some? ==>
                  && (0 <= host.rttMs && 0 <= guest.rttMs ==> host.rttMs <= guest.rttMs)
                  && (o.RelayHostIsA().value || 0 <= host.rttMs < guest.rttMs))
  {
  }

  // ----- answering, expiring, leaving -----

  function FindOffer(pending: seq<Offer>, playerId: string): (r: Option<nat>)
    ensures r.Some? ==> r.value < |pending| && pending[r.value].HasPlayer(playerId)
    ensures r.Some? ==> forall k :: 0 <= k < r.value ==> !pending[k].HasPlayer(playerId)
    ensures r.None? ==> forall o :: o in pending ==> !o.HasPlayer(playerId)
  {
    if pending == [] then None
    else if pending[0].HasPlayer(playerId) then Some(0)
    else
      var rest := FindOffer(pending[1..], playerId);
      assert pending == [pending[0]] + pending[1..];
      if rest.None? then None else Some(rest.value + 1)
  }

  /** Record an answer; a decided offer leaves the queue and is handed back. */
  function AnswerFor(q: QueueState, playerId: string, accept: bool, matchId: Option<nat>): (QueueState, Option<Offer>) {
    var at := FindOffer(q.pending, playerId);
    if at.None? || (matchId.Some? && matchId.value != q.pending[at.value].matchId) then (q, None)
    else
      var o := q.pending[at.value].Record(playerId, accept);
      if o.Answered() then (q.(pending := RemoveAt(q.pending, at.value)), Some(o))
      else (q.(pending := q.pending[at.value := o]), None)
  }

  /** The offers of a list that have, or have not, lapsed at `now`, in order. */
  function Lapsed(pending: seq<Offer>, acceptSecs: nat, now: nat, lapsed: bool): seq<Offer> {
    Filter(pending, (o: Offer) => o.Expired(acceptSecs, now) == lapsed)
  }

  lemma LapsedSnoc(seen: seq<Offer>, o: Offer, acceptSecs: nat, now: nat)
    ensures Lapsed(seen + [o], acceptSecs, now, true)
            == Lapsed(seen, acceptSecs, now, true) + if o.Expired(acceptSecs, now) then [o] else []
    ensures Lapsed(seen + [o], acceptSecs, now, false)
            == Lapsed(seen, acceptSecs, now, false) + if o.Expired(acceptSecs, now) then [] else [o]
  {
    FilterSnoc(seen, o, (x: Offer) => x.Expired(acceptSecs, now) == true);
    FilterSnoc(seen, o, (x: Offer) => x.Expired(acceptSecs, now) == false);
  }

  function WithoutPlayer(ts: seq<Ticket>, playerId: string): seq<Ticket> {
    Filter(ts, (t: Ticket) => t.playerId != playerId)
  }

  /** Drop a connection from everything; the offer it was half of is handed back. */
  function RemovePlayer(q: QueueState, playerId: string): (QueueState, Option<Offer>) {
    var q1 := q.(tickets := WithoutPlayer(q.tickets, playerId));
    var at := FindOffer(q.pending, playerId);
    if at.None? then (q1, None)
    else (q1.(pending := RemoveAt(q.pending, at.value)), Some(q.pending[at.value]))
  }

  /** The waiting ticket of a player, if any, carries the new measurement. */
  function SetRtt(ts: seq<Ticket>, playerId: string, rttMs: int): seq<Ticket> {
    if ts == [] then []
    else if ts[0].playerId == playerId then [ts[0].(rttMs := rttMs)] + ts[1..]
    else [ts[0]] + SetRtt(ts[1..], playerId, rttMs)
  }

  predicate IsQueued(q: QueueState, account: string) {
    || (exists t :: t in q.tickets && t.accountId == account)
    || (exists o :: o in q.pending && (o.a.accountId == account || o.b.accountId == account))
  }

  /** The queue behind its lock. Each method is one critical section. */
  class Queue {
    var tickets: seq<Ticket>
    var pending: seq<Offer>
    var recent: seq<Played>
    var nextId: nat

    function View(): QueueState
      reads this
    {
      QueueState(tickets, pending, recent, nextId)
    }

    constructor ()
      ensures View() == EMPTY
    {
      tickets, pending, recent, nextId := [], [], [], 0;
    }

    method IsQueuedAccount(account: string) returns (r: bool)
      ensures r == IsQueued(View(), account)
    {
      var k := 0;
      while k < |tickets|
        invariant k <= |tickets| && forall i :: 0 <= i < k ==> tickets[i].accountId != account
      {
        if tickets[k].accountId == account {
          return true;
        }
        k := k + 1;
      }
      k := 0;
      while k < |pending|
        invariant k <= |pending| && forall i :: 0 <= i < |tickets| ==> tickets[i].accountId != account
        invariant forall i :: 0 <= i < k ==> pending[i].a.accountId != account && pending[i].b.accountId != account
      {
        if pending[k].a.accountId == account || pending[k].b.accountId == account {
          return true;
        }
        k := k + 1;
      }
      return false;
    }

    method Push(t: Ticket)
      modifies this
      ensures View() == old(View()).(tickets := old(tickets) + [t])
    {
      tickets := tickets + [t];
    }

    /** An accepter who lost the pair goes back to the front, with a fresh clock. */
    method RequeueFront(t: Ticket, now: nat)
      modifies this
      ensures View() == old(View()).(tickets := [t.(queuedAt := now)] + old(tickets))
    {
      tickets := [t.(queuedAt := now)] + tickets;
    }

    method UpdateRtt(playerId: string, rttMs: int)
      modifies this
      ensures View() == old(View()).(tickets := SetRtt(old(tickets), playerId, rttMs))
    {
      var i := 0;
      while i < |tickets| && tickets[i].playerId != playerId
        invariant i <= |tickets|
        invariant SetRtt(tickets, playerId, rttMs) == tickets[..i] + SetRtt(tickets[i..], playerId, rttMs)
      {
        assert tickets[i..] == [tickets[i]] + tickets[i + 1..];
        i := i + 1;
      }
      if i < |tickets| {
        var ticket := tickets[i].(rttMs := rttMs);
        assert SetRtt(tickets[i..], playerId, rttMs) == [ticket] + tickets[i + 1..];
        tickets := tickets[i := ticket];
        assert tickets == tickets[..i] + ([ticket] + tickets[i + 1..]);
      }
    }

    method Remove(playerId: string) returns (r: Option<Offer>)
      modifies this
      ensures (View(), r) == RemovePlayer(old(View()), playerId)
    {
      var kept, i := [], 0;
      while i < |tickets|
        invariant i <= |tickets|
        invariant kept == WithoutPlayer(tickets[..i], playerId)
        invariant unchanged(this)
      {
        FilterSnoc(tickets[..i], tickets[i], (t: Ticket) => t.playerId != playerId);
        assert tickets[..i + 1] == tickets[..i] + [tickets[i]];
        if tickets[i].playerId != playerId {
          kept := kept + [tickets[i]];
        }
        i := i + 1;
      }
      assert tickets[..i] == tickets;
      tickets := kept;
      var at := FindOffer(pending, playerId);
      if at.None? {
        return None;
      }
      r := Some(pending[at.value]);
      pending := RemoveAt(pending, at.value);
    }

    method Answer(playerId: string, accept: bool, matchId: Option<nat>) returns (r: Option<Offer>)
      modifies this
      ensures (View(), r) == AnswerFor(old(View()), playerId, accept, matchId)
    {
      var at := FindOffer(pending, playerId);
      if at.None? {
        return None;
      }
      var idx := at.value;
      if matchId.Some? && matchId.value != pending[idx].matchId {
        return None;
      }
      pending := pending[idx := pending[idx].Record(playerId, accept)];
      if !pending[idx].Answered() {
        return None;
      }
      r := Some(pending[idx]);
      pending := RemoveAt(pending, idx);
    }

    /** Lapsed offers, removed in place while scanning. */
    method TakeExpired(acceptSecs: nat, now: nat) returns (out: seq<Offer>)
      modifies this
      ensures out == Lapsed(old(pending), acceptSecs, now, true)
      ensures View() == old(View()).(pending := Lapsed(old(pending), acceptSecs, now, false))
    {
      out := [];
      var i := 0;
      ghost var (all, n) := (pending, 0);
      assert Lapsed(all[..n], acceptSecs, now, true) == Lapsed(all[..n], acceptSecs, now, false) == [];
      hide Lapsed;
      while i < |pending|
        invariant i <= |pending| && n <= |all| && pending[i..] == all[n..]
        invariant out == Lapsed(all[..n], acceptSecs, now, true)
        invariant pending[..i] == Lapsed(all[..n], acceptSecs, now, false)
        invariant tickets == old(tickets) && recent == old(recent) && nextId == old(nextId)
        decreases |pending| - i
      {
        var o := pending[i];
        assert o == all[n] && all[..n + 1] == all[..n] + [o];
        LapsedSnoc(all[..n], o, acceptSecs, now);
        if o.Expired(acceptSecs, now) {
          RemovedParts(pending, i);
          hide RemoveAt;
          out := out + [o];
          pending := RemoveAt(pending, i);
        } else {
          assert pending[..i + 1] == pending[..i] + [o] && pending[i..][1..] == pending[i + 1..];
          i := i + 1;
        }
        assert all[n..][1..] == all[n + 1..];
        n := n + 1;
      }
      assert all[..n] == all && pending[..i] == pending;
    }

    method NotePairing(a: string, b: string, now: nat)
      modifies this
      ensures View() == old(View()).(recent := old(recent) + [Played(a, b, now)])
    {
      recent := recent + [Played(a, b, now)];
    }

    /** Move the two picked tickets into an offer. */
    method TakePair(p: Pick, now: nat) returns (o: Offer)
      requires p.i < |tickets| && p.j < |tickets| && p.i != p.j && p.k < |tickets[p.i].keys|
      modifies this
      ensures View() == PairOnce(old(View()), p, now)
      ensures pending == old(pending) + [o]
    {
      var (hi, lo) := if p.j < p.i then (p.i, p.j) else (p.j, p.i);
      var key := tickets[p.i].keys[p.k];
      var (tHi, tLo) := (tickets[hi], tickets[lo]);
      tickets := RemoveAt(tickets, hi);
      tickets := RemoveAt(tickets, lo);
      var (a, b) := if tLo.queuedAt <= tHi.queuedAt then (tLo, tHi) else (tHi, tLo);
      o := Offer(nextId, key, a, b, None, None, now);
      nextId := nextId + 1;
      pending := pending + [o];
    }

    /** Form every pair that can be formed. */
    method Pair(cooldown: nat, now: nat) returns (offers: seq<Offer>)
      modifies this
      ensures View() == PairUp(old(View()), cooldown, now)
      ensures pending == old(pending) + offers
    {
      recent := FreshOnly(recent, cooldown, now);
      offers := [];
      var c := Context(recent, cooldown, now);
      var r := Find(tickets, c);
      while r.Some?
        invariant r == FindPair(tickets, c)
        invariant PairRounds(View(), c) == PairUp(old(View()), cooldown, now)
        invariant pending == old(pending) + offers
        decreases |tickets|
      {
        FairChoice(tickets, c);
        var o := TakePair(r.value, now);
        offers := offers + [o];
        r := Find(tickets, c);
      }
    }
  }
}
