/**
 HTTP rooms: one room's transitions, and the registry that carries them out in place.

 Room ids, session ids and join codes are drawn outside and passed in; clocks are
 seconds.
 */
module Rooms {
  import opened Lists
  import opened Wrappers

  datatype Status = Open | Starting | Running | Closed

  datatype Member = Member(playerId: string, localSlot: nat, ready: bool, lastHeartbeat: int)

  datatype Room = Room(
    gameId: string, clientVersion: string, slotCount: nat, sessionId: Option<nat>, isPrivate: bool,
    joinCode: Option<string>, status: Status, host: string, members: seq<Member>, updatedAt: int)

  datatype RoomError =
    | NotFound | Full | NotJoinable | BadJoinCode | GameMismatch | VersionMismatch
    | AlreadyJoined | NotMember | NotHost | BadSlotCount

  datatype Bootstrap = Bootstrap(sessionId: nat, slotCount: nat, localSlot: nat, youAreSimAuthority: bool)

  // ----- one room -----

  function PlayerOf(m: Member): string { m.playerId }

  function SlotOf(m: Member): nat { m.localSlot }

  function Players(r: Room): seq<string> { MapSeq(r.members, PlayerOf) }

  function Slots(r: Room): seq<nat> { MapSeq(r.members, SlotOf) }

  /** The least slot at or after `from` that is not used, if any. */
  function FreeSlot(used: seq<nat>, slotCount: nat, from: nat): (s: Option<nat>)
    ensures s.Some? ==> from <= s.value < slotCount && s.value !in used
    ensures s.Some? ==> forall k :: from <= k < s.value ==> k in used
    ensures s.None? ==> forall k :: from <= k < slotCount ==> k in used
    decreases slotCount - from
  {
    if slotCount <= from then None
    else if from !in used then Some(from)
    else FreeSlot(used, slotCount, from + 1)
  }

  function NewRoom(host: string, game: string, version: string, slotCount: nat, isPrivate: bool,
                   code: string, now: int): Result<Room, RoomError>
  {
    if slotCount < 2 || 8 < slotCount then Err(BadSlotCount)
    else Ok(Room(game, version, slotCount, None, isPrivate, if isPrivate then Some(code) else None,
                 Open, host, [Member(host, 0, false, now)], now))
  }

  function JoinRoom(r: Room, player: string, game: string, version: string, code: Option<string>, now: int)
    : Result<Room, RoomError>
  {
    if r.status != Open then Err(NotJoinable)
    else if r.gameId != game then Err(GameMismatch)
    else if r.clientVersion != version then Err(VersionMismatch)
    else if r.isPrivate && (r.joinCode.None? || r.joinCode != code) then Err(BadJoinCode)
    else if player in Players(r) then Err(AlreadyJoined)
    else if r.slotCount <= |r.members| then Err(Full)
    else
      var slot := FreeSlot(Slots(r), r.slotCount, 0);
      if slot.None? then Err(Full)
      else Ok(r.(members := r.members + [Member(player, slot.value, false, now)], updatedAt := now))
  }

  function NotReady(m: Member): Member { m.(ready := false) }

  function Unready(members: seq<Member>): seq<Member> {
    MapSeq(members, NotReady)
  }

  function Without(members: seq<Member>, player: string): seq<Member> {
    Filter(members, (m: Member) => m.playerId != player)
  }

  /** A guest's departure; the host's dissolves the room and is not handled here. */
  function GuestLeaves(r: Room, player: string, now: int): Room {
    var r1 := r.(members := Unready(Without(r.members, player)), updatedAt := now);
    if r.status == Starting then r1.(status := Open, sessionId := None) else r1
  }

  function ApplyReady(r: Room, session: nat): Room {
    if |r.members| == r.slotCount && (forall m :: m in r.members ==> m.ready)
    then r.(status := Starting, sessionId := if r.sessionId.None? then Some(session) else r.sessionId)
    else if r.status == Starting then r.(status := Open, sessionId := None)
    else r
  }

  function SetReadyIn(r: Room, player: string, ready: bool, session: nat, now: int): Result<Room, RoomError> {
    if r.status != Open && r.status != Starting then Err(NotJoinable)
    else if player !in Players(r) then Err(NotMember)
    else
      var i := IndexOf(Players(r), player);
      var m := r.members[i].(ready := ready, lastHeartbeat := now);
      Ok(ApplyReady(r.(members := r.members[i := m], updatedAt := now), session))
  }

  function HeartbeatIn(r: Room, player: string, now: int): Result<Room, RoomError> {
    if player !in Players(r) then Err(NotMember)
    else
      var i := IndexOf(Players(r), player);
      Ok(r.(members := r.members[i := r.members[i].(lastHeartbeat := now)], updatedAt := now))
  }

  function MarkRunningIn(r: Room, player: string, now: int): Result<Room, RoomError> {
    if r.host != player then Err(NotHost)
    else if r.status != Starting then Err(NotJoinable)
    else Ok(r.(status := Running, updatedAt := now))
  }

  function DropSilent(r: Room, timeout: int, now: int): Room {
    r.(members := Filter(r.members, (m: Member) => now - m.lastHeartbeat <= timeout))
  }

  /** Judged after the silent members are gone. */
  predicate Stale(r: Room, idle: int, now: int) {
    r.members == [] || idle < now - r.updatedAt || r.host !in Players(r)
  }

  predicate Listed(r: Room, game: string, version: Option<string>) {
    && r.status == Open && !r.isPrivate && r.gameId == game
    && (version.None? || version.value == r.clientVersion)
    && |r.members| < r.slotCount
  }

  function BootstrapFor(r: Room, player: string): Option<Bootstrap> {
    if r.sessionId.None? || player !in Players(r) then None
    else
      var slot := r.members[IndexOf(Players(r), player)].localSlot;
      Some(Bootstrap(r.sessionId.value, r.slotCount, slot, slot == 0))
  }

  // ----- the invariant -----

  ghost predicate Apart(members: seq<Member>) {
    forall i, j :: 0 <= i < j < |members| ==>
      members[i].playerId != members[j].playerId && members[i].localSlot != members[j].localSlot
  }

  predicate WellPlaced(m: Member, host: string, slotCount: nat) {
    m.localSlot < slotCount && (m.localSlot == 0 <==> m.playerId == host)
  }

  /** Players and slots are distinct, slots in range, and slot 0 is the host's and only the host's. */
  ghost predicate GoodMembers(members: seq<Member>, host: string, slotCount: nat) {
    && Apart(members)
    && (forall i :: 0 <= i < |members| ==> WellPlaced(members[i], host, slotCount))
    && (exists i :: 0 <= i < |members| && members[i].playerId == host)
  }

  ghost predicate Inv(r: Room) {
    && 2 <= r.slotCount <= 8
    && GoodMembers(r.members, r.host, r.slotCount)
    && r.status != Closed
    && (r.sessionId.None? <==> r.status == Open)
    && (r.status == Starting ==> forall m :: m in r.members ==> m.ready)
  }

  lemma NewRoomInv(host: string, game: string, version: string, slotCount: nat, isPrivate: bool, code: string, now: int)
    ensures var res := NewRoom(host, game, version, slotCount, isPrivate, code, now); res.Ok? ==> Inv(res.value)
  {
    var members := [Member(host, 0, false, now)];
    assert members[0].playerId == host;
    assert 2 <= slotCount ==> WellPlaced(members[0], host, slotCount);
  }

  /** Distinct slots below the count, fewer than the count: some slot is free. */
  lemma RoomForOneMore(r: Room)
    requires |r.members| < r.slotCount
    ensures FreeSlot(Slots(r), r.slotCount, 0).Some?
  {
    var all: seq<nat> := seq(r.slotCount, k => k);
    Pigeonhole(Slots(r), all);
    var k :| 0 <= k < |all| && all[k] !in Slots(r);
  }

  lemma {:induction false} NotAmong(members: seq<Member>, player: string, slot: nat)
    requires player !in MapSeq(members, PlayerOf) && slot !in MapSeq(members, SlotOf)
    ensures forall i :: 0 <= i < |members| ==> members[i].playerId != player && members[i].localSlot != slot
  {
  }

  lemma {:induction false} MemberAdded(members: seq<Member>, host: string, slotCount: nat, m: Member)
    requires GoodMembers(members, host, slotCount)
    requires m.playerId !in MapSeq(members, PlayerOf) && m.localSlot !in MapSeq(members, SlotOf)
    requires m.localSlot < slotCount
    ensures GoodMembers(members + [m], host, slotCount)
  {
    NotAmong(members, m.playerId, m.localSlot);
    ApartSnoc(members, m);
    HostHoldsZero(members, host, slotCount);
    var h :| 0 <= h < |members| && members[h].playerId == host && members[h].localSlot == 0;
    assert WellPlaced(m, host, slotCount);
    PlacedSnoc(members, m, host, slotCount, h);
  }

  lemma PlacedSnoc(members: seq<Member>, m: Member, host: string, slotCount: nat, h: nat)
    requires forall i :: 0 <= i < |members| ==> WellPlaced(members[i], host, slotCount)
    requires WellPlaced(m, host, slotCount) && h < |members| && members[h].playerId == host
    ensures forall i :: 0 <= i < |members + [m]| ==> WellPlaced((members + [m])[i], host, slotCount)
    ensures exists i :: 0 <= i < |members + [m]| && (members + [m])[i].playerId == host
  {
    assert (members + [m])[h].playerId == host;
  }

  lemma ApartSnoc(members: seq<Member>, m: Member)
    requires Apart(members)
    requires forall i :: 0 <= i < |members| ==> members[i].playerId != m.playerId && members[i].localSlot != m.localSlot
    ensures Apart(members + [m])
  {
  }

  lemma HostHoldsZero(members: seq<Member>, host: string, slotCount: nat)
    requires GoodMembers(members, host, slotCount)
    ensures exists h :: 0 <= h < |members| && members[h].playerId == host && members[h].localSlot == 0
  {
  }

  /**
   A joiner takes the least free slot, everybody else stays put, and the search for a
   slot cannot fail once the room has space: its error branch is never taken.
  */
  lemma JoinTakesLeastFreeSlot(r: Room, player: string, game: string, version: string, code: Option<string>, now: int)
    requires Inv(r)
    ensures var res := JoinRoom(r, player, game, version, code, now);
            && (res == Err(Full) ==> r.slotCount <= |r.members|)
            && (res.Ok? ==>
                  && Inv(res.value)
                  && |res.value.members| == |r.members| + 1
                  && res.value.members[..|r.members|] == r.members
                  && var mine := res.value.members[|r.members|];
                     && mine.playerId == player && mine.localSlot !in Slots(r)
                     && forall s: nat :: s < mine.localSlot ==> s in Slots(r))
  {
    var res := JoinRoom(r, player, game, version, code, now);
    if |r.members| < r.slotCount {
      RoomForOneMore(r);
    }
    if res.Ok? {
      var mine := res.value.members[|r.members|];
      MemberAdded(r.members, r.host, r.slotCount, mine);
      assert (r.members + [mine])[..|r.members|] == r.members;
    }
  }

  // Departures keep a sub-list of the members.

  lemma {:induction false} MembersDropped(members: seq<Member>, host: string, slotCount: nat, keep: Member -> bool)
    requires GoodMembers(members, host, slotCount)
    requires exists m :: m in members && m.playerId == host && keep(m)
    ensures GoodMembers(Filter(members, keep), host, slotCount)
  {
    var kept := Filter(members, keep);
    FilterKeepsOrder(members, keep);
    FilterMembers(members, keep);
    var f: seq<nat> :| KeptInOrder(kept, members, f);
    forall i, j | 0 <= i < j < |kept|
      ensures kept[i].playerId != kept[j].playerId && kept[i].localSlot != kept[j].localSlot
    {
      assert kept[i] == members[f[i]] && kept[j] == members[f[j]] && f[i] < f[j];
    }
    forall i | 0 <= i < |kept| ensures WellPlaced(kept[i], host, slotCount) {
      assert kept[i] == members[f[i]];
    }
    var m :| m in members && m.playerId == host && keep(m);
    assert m in kept;
  }

  predicate SamePlace(m: Member, m': Member) {
    m'.playerId == m.playerId && m'.localSlot == m.localSlot
  }

  /** Changing only readiness or heartbeats keeps the seating. */
  lemma MembersTouched(members: seq<Member>, members': seq<Member>, host: string, slotCount: nat)
    requires GoodMembers(members, host, slotCount)
    requires |members'| == |members| && forall i :: 0 <= i < |members| ==> SamePlace(members[i], members'[i])
    ensures GoodMembers(members', host, slotCount)
  {
  }

  lemma TouchOne(members: seq<Member>, i: nat, m: Member, host: string, slotCount: nat)
    requires GoodMembers(members, host, slotCount) && i < |members| && SamePlace(members[i], m)
    ensures GoodMembers(members[i := m], host, slotCount)
  {
    MembersTouched(members, members[i := m], host, slotCount);
  }

  lemma {:induction false} UnreadyWithout(members: seq<Member>, player: string)
    ensures Unready(Without(members, player)) == Without(Unready(members), player)
  {
    if members != [] {
      UnreadyWithout(members[1..], player);
      assert Unready(members)[1..] == Unready(members[1..]);
    }
  }

  /** A guest's departure: every other member stays, in order and as it was, but no longer ready. */
  lemma LeaveInv(r: Room, player: string, now: int)
    requires Inv(r) && player != r.host
    ensures var r' := GuestLeaves(r, player, now);
            && Inv(r') && r'.host == r.host && r'.slotCount == r.slotCount
            && IsSubsequence(r'.members, Unready(r.members))
            && (forall m :: m in r'.members <==> m in Unready(r.members) && m.playerId != player)
            && r'.status == (if r.status == Starting then Open else r.status)
  {
    var keep := (m: Member) => m.playerId != player;
    var h :| 0 <= h < |r.members| && r.members[h].playerId == r.host;
    assert r.members[h] in r.members;
    var kept := Filter(r.members, keep);
    MembersDropped(r.members, r.host, r.slotCount, keep);
    MembersTouched(kept, Unready(kept), r.host, r.slotCount);
    UnreadyWithout(r.members, player);
    FilterMembers(Unready(r.members), keep);
    FilterKeepsOrder(Unready(r.members), keep);
  }

  lemma DepartureInv(r: Room, player: string, now: int)
    requires Inv(r) && player != r.host
    ensures Inv(GuestLeaves(r, player, now))
  {
    hide *;
    LeaveInv(r, player, now);
  }

  /** Once ready flags are applied, the room is starting exactly when it is full and everybody is ready. */
  lemma ApplyReadyInv(r: Room, session: nat)
    requires 2 <= r.slotCount <= 8 && GoodMembers(r.members, r.host, r.slotCount)
    requires r.status == Open || r.status == Starting
    requires r.sessionId.None? <==> r.status == Open
    ensures Inv(ApplyReady(r, session))
    ensures ApplyReady(r, session).status == Starting <==>
              |r.members| == r.slotCount && forall m :: m in r.members ==> m.ready
  {
  }

  lemma MembersAreListed(r: Room, player: string)
    ensures player in Players(r) <==> exists m :: m in r.members && m.playerId == player
  {
    if m :| m in r.members && m.playerId == player {
      var i :| 0 <= i < |r.members| && r.members[i] == m;
      assert Players(r)[i] == player;
    }
    if player in Players(r) {
      var i := IndexOf(Players(r), player);
      assert r.members[i] in r.members;
    }
  }

  /** A ready flag is taken exactly from members before the match runs, and only that member's changes. */
  lemma SetReadyTouchesOne(r: Room, player: string, ready: bool, session: nat, now: int)
    requires Inv(r)
    ensures var res := SetReadyIn(r, player, ready, session, now);
            && (res.Ok? <==>
                  (r.status == Open || r.status == Starting) && exists m :: m in r.members && m.playerId == player)
            && (res.Ok? ==>
                  && |res.value.members| == |r.members|
                  && forall i :: 0 <= i < |r.members| ==>
                       var (m, m') := (r.members[i], res.value.members[i]);
                       m' == if m.playerId == player then m.(ready := ready, lastHeartbeat := now) else m)
  {
    MembersAreListed(r, player);
    if (r.status == Open || r.status == Starting) && player in Players(r) {
      var i := IndexOf(Players(r), player);
      var m := r.members[i].(ready := ready, lastHeartbeat := now);
      ReadyKeepsMembers(r.(members := r.members[i := m], updatedAt := now), session);
      OnlyOneIs(r.members, i, player);
    }
    hide ApplyReady, GoodMembers, Apart;
  }

  lemma ReadyKeepsMembers(r: Room, session: nat)
    ensures ApplyReady(r, session).members == r.members
  {
  }

  lemma OnlyOneIs(members: seq<Member>, i: nat, player: string)
    requires Apart(members) && i < |members| && members[i].playerId == player
    ensures forall j :: 0 <= j < |members| && j != i ==> members[j].playerId != player
  {
  }

  lemma SetReadyInv(r: Room, player: string, ready: bool, session: nat, now: int)
    requires Inv(r)
    ensures var res := SetReadyIn(r, player, ready, session, now);
            res.Ok? ==>
              && Inv(res.value)
              && (res.value.status == Starting <==>
                    |res.value.members| == r.slotCount && forall m :: m in res.value.members ==> m.ready)
              && (res.value.status == Starting ==>
                    res.value.sessionId == if r.status == Starting then r.sessionId else Some(session))
  {
    if (r.status == Open || r.status == Starting) && player in Players(r) {
      var i := IndexOf(Players(r), player);
      var m := r.members[i].(ready := ready, lastHeartbeat := now);
      TouchOne(r.members, i, m, r.host, r.slotCount);
      ApplyReadyInv(r.(members := r.members[i := m], updatedAt := now), session);
    }
  }

  /** A heartbeat is taken exactly from members, and refreshes that member and nobody else. */
  lemma HeartbeatInv(r: Room, player: string, now: int)
    requires Inv(r)
    ensures var res := HeartbeatIn(r, player, now);
            && (res.Ok? <==> exists m :: m in r.members && m.playerId == player)
            && (res.Ok? ==>
                  && Inv(res.value) && |res.value.members| == |r.members|
                  && forall i :: 0 <= i < |r.members| ==>
                       var (m, m') := (r.members[i], res.value.members[i]);
                       m' == if m.playerId == player then m.(lastHeartbeat := now) else m)
  {
    MembersAreListed(r, player);
    if player in Players(r) {
      var i := IndexOf(Players(r), player);
      var m := r.members[i].(lastHeartbeat := now);
      TouchOne(r.members, i, m, r.host, r.slotCount);
      forall x | x in r.members[i := m] ensures x == m || x in r.members {}
      assert r.members[i] in r.members;
    }
  }

  lemma PurgeInv(r: Room, timeout: int, idle: int, now: int)
    requires Inv(r) && !Stale(DropSilent(r, timeout, now), idle, now)
    ensures Inv(DropSilent(r, timeout, now))
  {
    var keep := (m: Member) => now - m.lastHeartbeat <= timeout;
    FilterMembers(r.members, keep);
    var kept := Filter(r.members, keep);
    var m := kept[IndexOf(MapSeq(kept, PlayerOf), r.host)];
    assert m in kept && m.playerId == r.host;
    MembersDropped(r.members, r.host, r.slotCount, keep);
  }

  // ----- the registry -----

  type Registry = map<string, Room>

  /** What a request does to one existing room. */
  datatype Op =
    | Join(player: string, game: string, version: string, code: Option<string>)
    | Leave(player: string)
    | SetReady(player: string, ready: bool, session: nat)
    | Heartbeat(player: string)
    | MarkRunning(player: string)

  datatype Event =
    | Create(id: string, host: string, game: string, version: string, slotCount: nat, isPrivate: bool, code: string)
    | At(id: string, op: Op)
    | Purge(timeout: int, idle: int)

  /** What becomes of a room, and the room as the request is answered. */
  datatype Outcome = Kept(room: Room) | Dissolved(room: Room)

  /** An operation on one room. The host's departure closes the room for good. */
  function Apply(r: Room, now: int, op: Op): Result<Outcome, RoomError> {
    match op
    case Join(p, game, version, code) => Keep(JoinRoom(r, p, game, version, code, now))
    case Leave(p) =>
      if p !in Players(r) then Err(NotMember)
      else if r.host == p then Ok(Dissolved(r.(status := Closed)))
      else Ok(Kept(GuestLeaves(r, p, now)))
    case SetReady(p, ready, session) => Keep(SetReadyIn(r, p, ready, session, now))
    case Heartbeat(p) => Keep(HeartbeatIn(r, p, now))
    case MarkRunning(p) => Keep(MarkRunningIn(r, p, now))
  }

  function Keep(res: Result<Room, RoomError>): Result<Outcome, RoomError> {
    if res.Ok? then Ok(Kept(res.value)) else Err(res.error)
  }

  function Store(rooms: Registry, id: string, res: Result<Outcome, RoomError>): Registry {
    if res.Err? then rooms
    else if res.value.Dissolved? then rooms - {id}
    else rooms[id := res.value.room]
  }

  function PurgeAll(rooms: Registry, timeout: int, idle: int, now: int): Registry {
    map id | id in rooms && !Stale(DropSilent(rooms[id], timeout, now), idle, now) ::
      DropSilent(rooms[id], timeout, now)
  }

  function Step(rooms: Registry, now: int, e: Event): Registry {
    match e
    case Create(id, host, game, version, n, isPrivate, code) =>
      Store(rooms, id, Keep(NewRoom(host, game, version, n, isPrivate, code, now)))
    case At(id, op) => if id in rooms then Store(rooms, id, Apply(rooms[id], now, op)) else rooms
    case Purge(timeout, idle) => PurgeAll(rooms, timeout, idle, now)
  }

  function Run(h: seq<(int, Event)>): Registry {
    if h == [] then map[] else Step(Run(h[..|h| - 1]), h[|h| - 1].0, h[|h| - 1].1)
  }

  ghost predicate AllInv(rooms: Registry) {
    forall id :: id in rooms ==> Inv(rooms[id])
  }

  lemma ApplyInv(r: Room, now: int, op: Op)
    requires Inv(r)
    ensures var res := Apply(r, now, op); res.Ok? && res.value.Kept? ==> Inv(res.value.room)
  {
    match op
    case Join(p, game, version, code) => JoinTakesLeastFreeSlot(r, p, game, version, code, now);
    case Leave(p) => if p != r.host { DepartureInv(r, p, now); }
    case SetReady(p, ready, session) => SetReadyInv(r, p, ready, session, now);
    case Heartbeat(p) => HeartbeatInv(r, p, now);
    case MarkRunning(p) =>
  }

  lemma StepInv(rooms: Registry, now: int, e: Event)
    requires AllInv(rooms)
    ensures AllInv(Step(rooms, now, e))
  {
    match e
    case Create(id, host, game, version, n, isPrivate, code) =>
      NewRoomInv(host, game, version, n, isPrivate, code, now);
    case At(id, op) =>
      if id in rooms {
        ApplyInv(rooms[id], now, op);
      }
    case Purge(timeout, idle) =>
      forall id | id in PurgeAll(rooms, timeout, idle, now) ensures Inv(PurgeAll(rooms, timeout, idle, now)[id]) {
        PurgeInv(rooms[id], timeout, idle, now);
      }
  }

  /**
   Every room of every history: distinct players and slots, the host alone in slot 0, a
   session exactly when not open, all ready when starting.
  */
  lemma {:induction false} RoomsStayGood(h: seq<(int, Event)>)
    ensures AllInv(Run(h))
    decreases |h|
  {
    if h != [] {
      RoomsStayGood(h[..|h| - 1]);
      StepInv(Run(h[..|h| - 1]), h[|h| - 1].0, h[|h| - 1].1);
    }
  }

  /** A listed room accepts anybody who is not in it yet and names its game and version. */
  lemma {:induction false} ListedRoomsAccept(h: seq<(int, Event)>, id: string, player: string,
                                             version: Option<string>, now: int)
    requires id in Run(h) && Listed(Run(h)[id], Run(h)[id].gameId, version) && player !in Players(Run(h)[id])
    ensures var r := Run(h)[id]; JoinRoom(r, player, r.gameId, r.clientVersion, None, now).Ok?
  {
    RoomsStayGood(h);
    RoomForOneMore(Run(h)[id]);
  }

  /** The simulation authority a bootstrap names is the host, and only the host. */
  lemma {:induction false} AuthorityIsTheHost(h: seq<(int, Event)>, id: string, player: string)
    requires id in Run(h)
    ensures var (r, b) := (Run(h)[id], BootstrapFor(Run(h)[id], player));
            && (b.Some? <==> r.status != Open && player in Players(r))
            && (b.Some? ==>
                  && (b.value.youAreSimAuthority <==> player == r.host)
                  && Some(b.value.sessionId) == r.sessionId && b.value.localSlot < b.value.slotCount == r.slotCount
                  && exists m :: m in r.members && m.playerId == player && m.localSlot == b.value.localSlot)
  {
    RoomsStayGood(h);
    var r := Run(h)[id];
    if player in Players(r) {
      var i := IndexOf(Players(r), player);
      assert r.members[i] in r.members && Slots(r)[i] == r.members[i].localSlot;
      assert Slots(r)[i] in Slots(r);
    }
  }

  /** A match runs exactly when the host of a starting room says so; everybody is ready then, and a session drawn. */
  lemma {:induction false} RunningIsTheHostsCall(h: seq<(int, Event)>, id: string, player: string, now: int)
    requires id in Run(h)
    ensures var (r, res) := (Run(h)[id], MarkRunningIn(Run(h)[id], player, now));
            && (res.Ok? <==> player == r.host && r.status == Starting)
            && (res.Ok? ==>
                  && Inv(res.value) && res.value.status == Running
                  && res.value.sessionId.Some? && res.value.sessionId == r.sessionId
                  && res.value.members == r.members && forall m :: m in r.members ==> m.ready)
  {
    RoomsStayGood(h);
  }

  /** Where a player stands among the members. */
  method FindMember(members: seq<Member>, player: string) returns (i: Option<nat>)
    ensures i.Some? <==> player in MapSeq(members, PlayerOf)
    ensures i.Some? ==> i.value < |members| && i.value == IndexOf(MapSeq(members, PlayerOf), player)
  {
    ghost var players := MapSeq(members, PlayerOf);
    var k: nat := 0;
    while k < |members|
      invariant k <= |members| && player !in players[..k]
    {
      assert players[k] == members[k].playerId && players[..k + 1] == players[..k] + [players[k]];
      if members[k].playerId == player {
        FirstIndex(players, player, k);
        return Some(k);
      }
      k := k + 1;
    }
    assert players[..k] == players;
    return None;
  }

  lemma {:induction false} FirstIndex(s: seq<string>, x: string, k: nat)
    requires k < |s| && s[k] == x && x !in s[..k]
    ensures IndexOf(s, x) == k
  {
    var i := IndexOf(s, x);
    forall j | 0 <= j < k ensures s[j] != x {
      assert s[j] == s[..k][j];
    }
    forall j | 0 <= j < i ensures s[j] != x {
      assert s[j] == s[..i][j];
    }
  }

  /** The least slot nobody holds. */
  method LeastFreeSlot(members: seq<Member>, slotCount: nat) returns (s: Option<nat>)
    ensures s == FreeSlot(MapSeq(members, SlotOf), slotCount, 0)
  {
    var used := MapSeq(members, SlotOf);
    var k: nat := 0;
    while k < slotCount
      invariant k <= slotCount && forall i :: 0 <= i < k ==> i in used
    {
      if k !in used {
        return Some(k);
      }
      k := k + 1;
    }
    return None;
  }

  method AllReady(members: seq<Member>) returns (all: bool)
    ensures all <==> forall m :: m in members ==> m.ready
  {
    for k := 0 to |members|
      invariant forall i :: 0 <= i < k ==> members[i].ready
    {
      if !members[k].ready {
        assert members[k] in members;
        return false;
      }
    }
    return true;
  }

  /** The ready barrier after a flag changed: start when full and all ready, else fall back to open. */
  method Rebarrier(room: Room, session: nat) returns (r: Room)
    ensures r == ApplyReady(room, session)
  {
    r := room;
    var all := AllReady(room.members);
    if |room.members| == room.slotCount && all {
      if r.sessionId.None? {
        r := r.(sessionId := Some(session));
      }
      r := r.(status := Starting);
    } else if r.status == Starting {
      r := r.(status := Open, sessionId := None);
    }
  }

  /** Everybody but `player`, with the ready barrier reset. */
  method ResetWithout(members: seq<Member>, player: string) returns (kept: seq<Member>)
    ensures kept == Unready(Without(members, player))
  {
    kept := [];
    for i := 0 to |members|
      invariant kept == Unready(Without(members[..i], player))
    {
      var m := members[i];
      assert members[..i + 1] == members[..i] + [m];
      FilterSnoc(members[..i], m, (x: Member) => x.playerId != player);
      if m.playerId != player {
        MapAppend(Without(members[..i], player), [m], NotReady);
        assert MapSeq([m], NotReady) == [NotReady(m)];
        kept := kept + [m.(ready := false)];
      }
    }
    assert members[..|members|] == members;
  }

  /** The registry behind its lock; each method is one request. */
  class RoomRegistry {
    var rooms: Registry

    constructor ()
      ensures rooms == map[]
    {
      rooms := map[];
    }

    method CreateRoom(id: string, host: string, game: string, version: string, slotCount: nat,
                      isPrivate: bool, code: string, now: int)
      returns (res: Result<Room, RoomError>)
      modifies this
      ensures rooms == Step(old(rooms), now, Create(id, host, game, version, slotCount, isPrivate, code))
      ensures res == NewRoom(host, game, version, slotCount, isPrivate, code, now)
      ensures res == if slotCount < 2 || 8 < slotCount then Err(BadSlotCount)
                     else Ok(Room(game, version, slotCount, None, isPrivate, if isPrivate then Some(code) else None,
                                  Open, host, [Member(host, 0, false, now)], now))
    {
      if slotCount < 2 || 8 < slotCount {
        return Err(BadSlotCount);
      }
      var room := Room(game, version, slotCount, None, isPrivate, if isPrivate then Some(code) else None,
                       Open, host, [Member(host, 0, false, now)], now);
      rooms := rooms[id := room];
      return Ok(room);
    }

    method JoinById(id: string, player: string, game: string, version: string, code: Option<string>, now: int)
      returns (res: Result<Room, RoomError>)
      modifies this
      ensures rooms == Step(old(rooms), now, At(id, Join(player, game, version, code)))
      ensures res == if id in old(rooms) then JoinRoom(old(rooms)[id], player, game, version, code, now)
                     else Err(NotFound)
    {
      if id !in rooms {
        return Err(NotFound);
      }
      var room := rooms[id];
      if room.status != Open {
        return Err(NotJoinable);
      }
      if room.gameId != game {
        return Err(GameMismatch);
      }
      if room.clientVersion != version {
        return Err(VersionMismatch);
      }
      if room.isPrivate && (room.joinCode.None? || room.joinCode != code) {
        return Err(BadJoinCode);
      }
      var seated := FindMember(room.members, player);
      if seated.Some? {
        return Err(AlreadyJoined);
      }
      if room.slotCount <= |room.members| {
        return Err(Full);
      }
      var slot := LeastFreeSlot(room.members, room.slotCount);
      if slot.None? {
        return Err(Full);
      }
      room := room.(members := room.members + [Member(player, slot.value, false, now)], updatedAt := now);
      rooms := rooms[id := room];
      return Ok(room);
    }

    /** The host's departure dissolves the room, which is answered closed; a guest's resets the ready barrier. */
    method LeaveById(id: string, player: string, now: int) returns (res: Result<Room, RoomError>)
      modifies this
      ensures rooms == Step(old(rooms), now, At(id, Leave(player)))
      ensures id !in old(rooms) ==> res == Err(NotFound)
      ensures id in old(rooms) ==>
                match Apply(old(rooms)[id], now, Leave(player))
                case Ok(outcome) => res == Ok(outcome.room)
                case Err(e) => res == Err(e)
    {
      if id !in rooms {
        return Err(NotFound);
      }
      var room := rooms[id];
      var i := FindMember(room.members, player);
      if i.None? {
        return Err(NotMember);
      }
      if room.host == player {
        rooms := rooms - {id};
        return Ok(room.(status := Closed));
      }
      var kept := ResetWithout(room.members, player);
      room := room.(members := kept, updatedAt := now);
      if room.status == Starting {
        room := room.(status := Open, sessionId := None);
      }
      rooms := rooms[id := room];
      return Ok(room);
    }

    method SetReadyById(id: string, player: string, ready: bool, session: nat, now: int)
      returns (res: Result<Room, RoomError>)
      modifies this
      ensures rooms == Step(old(rooms), now, At(id, SetReady(player, ready, session)))
      ensures res == if id in old(rooms) then SetReadyIn(old(rooms)[id], player, ready, session, now) else Err(NotFound)
    {
      hide ApplyReady;
      if id !in rooms {
        return Err(NotFound);
      }
      var room := rooms[id];
      if room.status != Open && room.status != Starting {
        return Err(NotJoinable);
      }
      var i := FindMember(room.members, player);
      if i.None? {
        return Err(NotMember);
      }
      var m := room.members[i.value].(ready := ready, lastHeartbeat := now);
      room := room.(members := room.members[i.value := m], updatedAt := now);
      room := Rebarrier(room, session);
      rooms := rooms[id := room];
      return Ok(room);
    }

    method HeartbeatById(id: string, player: string, now: int) returns (res: Result<Room, RoomError>)
      modifies this
      ensures rooms == Step(old(rooms), now, At(id, Heartbeat(player)))
      ensures res == if id in old(rooms) then HeartbeatIn(old(rooms)[id], player, now) else Err(NotFound)
    {
      if id !in rooms {
        return Err(NotFound);
      }
      var room := rooms[id];
      var i := FindMember(room.members, player);
      if i.None? {
        return Err(NotMember);
      }
      var m := room.members[i.value].(lastHeartbeat := now);
      room := room.(members := room.members[i.value := m], updatedAt := now);
      rooms := rooms[id := room];
      return Ok(room);
    }

    method MarkRunningById(id: string, player: string, now: int) returns (res: Result<Room, RoomError>)
      modifies this
      ensures rooms == Step(old(rooms), now, At(id, MarkRunning(player)))
      ensures res == if id in old(rooms) then MarkRunningIn(old(rooms)[id], player, now) else Err(NotFound)
    {
      if id !in rooms {
        return Err(NotFound);
      }
      var room := rooms[id];
      if room.host != player {
        return Err(NotHost);
      }
      if room.status != Starting {
        return Err(NotJoinable);
      }
      room := room.(status := Running, updatedAt := now);
      rooms := rooms[id := room];
      return Ok(room);
    }

    /** Drop silent members everywhere, then the rooms that are empty, idle, or without their host. */
    method PurgeStale(timeout: int, idle: int, now: int)
      modifies this
      ensures rooms == Step(old(rooms), now, Purge(timeout, idle))
    {
      var (todo, kept: Registry) := (rooms.Keys, map[]);
      while todo != {}
        invariant rooms == old(rooms) && todo <= rooms.Keys
        invariant forall id :: id in kept <==>
                    id in rooms && id !in todo && !Stale(DropSilent(rooms[id], timeout, now), idle, now)
        invariant forall id :: id in kept ==> kept[id] == DropSilent(rooms[id], timeout, now)
        decreases todo
      {
        var id :| id in todo;
        todo := todo - {id};
        var room := DropSilent(rooms[id], timeout, now);
        if !Stale(room, idle, now) {
          kept := kept[id := room];
        }
      }
      rooms := kept;
    }
  }
}
