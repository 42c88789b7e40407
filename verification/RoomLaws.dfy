/** What each request does to the HTTP rooms, in every reachable state and in plain terms. */
module RoomLaws {
  import opened Lists
  import opened Rooms
  import opened Wrappers

  predicate IsMember(r: Room, player: string) {
    exists m :: m in r.members && m.playerId == player
  }

  predicate SlotTaken(r: Room, slot: nat) {
    exists m :: m in r.members && m.localSlot == slot
  }

  lemma SlotsAreListed(r: Room, slot: nat)
    ensures slot in Slots(r) <==> SlotTaken(r, slot)
  {
    if m :| m in r.members && m.localSlot == slot {
      var i :| 0 <= i < |r.members| && r.members[i] == m;
      assert Slots(r)[i] == slot;
    }
    if slot in Slots(r) {
      var i :| 0 <= i < |Slots(r)| && Slots(r)[i] == slot;
      assert r.members[i] in r.members;
    }
  }

  /** What stays of a room whatever is asked of it. */
  predicate SameTerms(r: Room, r': Room) {
    && r'.gameId == r.gameId && r'.clientVersion == r.clientVersion && r'.slotCount == r.slotCount
    && r'.isPrivate == r.isPrivate && r'.joinCode == r.joinCode && r'.host == r.host
  }

  /** A request that is accepted stamps the room with its time, and changes none of its terms. */
  lemma RequestsStamp(r: Room, now: int, op: Op)
    ensures var res := Apply(r, now, op);
            res.Ok? && res.value.Kept? ==> SameTerms(r, res.value.room) && res.value.room.updatedAt == now
  {
  }

  ghost predicate CodesSet(rooms: Registry) {
    forall id :: id in rooms && rooms[id].isPrivate ==> rooms[id].joinCode.Some?
  }

  lemma StepSetsCodes(rooms: Registry, now: int, e: Event)
    requires CodesSet(rooms)
    ensures CodesSet(Step(rooms, now, e))
  {
    if e.At? && e.id in rooms {
      RequestsStamp(rooms[e.id], now, e.op);
    }
    hide Apply;
  }

  lemma {:induction false} PrivateRoomsHaveCodes(h: seq<(int, Event)>)
    ensures CodesSet(Run(h))
    decreases |h|
  {
    if h != [] {
      PrivateRoomsHaveCodes(h[..|h| - 1]);
      StepSetsCodes(Run(h[..|h| - 1]), h[|h| - 1].0, h[|h| - 1].1);
    }
  }

  /**
   A join is accepted exactly from a stranger to an open room with a free slot who names its
   game and version and, if it is private, its code; a wrong or missing code is refused as
   such. The joiner takes the least free slot, not ready.
  */
  lemma {:induction false} JoinsExactly(h: seq<(int, Event)>, id: string, player: string, game: string,
                                        version: string, code: Option<string>, now: int)
    requires id in Run(h)
    ensures var (r, res) := (Run(h)[id], JoinRoom(Run(h)[id], player, game, version, code, now));
            var fits := r.status == Open && r.gameId == game && r.clientVersion == version;
            && (fits && r.isPrivate && code != r.joinCode ==> res == Err(BadJoinCode))
            && (res.Ok? <==>
                  fits && (r.isPrivate ==> code == r.joinCode) && !IsMember(r, player) && |r.members| < r.slotCount)
            && (res.Ok? ==>
                  exists s: nat :: && s < r.slotCount && !SlotTaken(r, s)
                                   && (forall t: nat :: t < s ==> SlotTaken(r, t))
                                   && res.value == r.(members := r.members + [Member(player, s, false, now)],
                                                      updatedAt := now))
  {
    RoomsStayGood(h);
    PrivateRoomsHaveCodes(h);
    var r := Run(h)[id];
    MembersAreListed(r, player);
    if |r.members| < r.slotCount {
      RoomForOneMore(r);
      var s := FreeSlot(Slots(r), r.slotCount, 0).value;
      SlotsAreListed(r, s);
      forall t: nat | t < s ensures SlotTaken(r, t) {
        SlotsAreListed(r, t);
      }
    }
    hide Run, Inv, SlotTaken, Players, Slots;
  }

  /** A room is listed for a game, and a version or any, exactly when a stranger with no code may join it. */
  lemma {:induction false} ListedExactly(h: seq<(int, Event)>, id: string, player: string, game: string,
                                         version: Option<string>, now: int)
    requires id in Run(h) && !IsMember(Run(h)[id], player)
    ensures var r := Run(h)[id];
            Listed(r, game, version) <==>
              JoinRoom(r, player, game, if version == None then r.clientVersion else version.value, None, now).Ok?
  {
    var r := Run(h)[id];
    PrivateRoomsHaveCodes(h);
    JoinsExactly(h, id, player, game, if version == None then r.clientVersion else version.value, None, now);
    hide Run, JoinRoom, IsMember;
  }

  lemma {:induction false} StayersKeepOrder(kept: seq<Member>, members: seq<Member>)
    requires IsSubsequence(kept, Unready(members))
    ensures IsSubsequence(MapSeq(kept, PlayerOf), MapSeq(members, PlayerOf))
  {
    var f: seq<nat> :| KeptInOrder(kept, Unready(members), f);
    assert KeptInOrder(MapSeq(kept, PlayerOf), MapSeq(members, PlayerOf), f);
  }

  lemma UnreadiedMembers(members: seq<Member>)
    ensures forall m :: m in Unready(members) <==> exists was :: was in members && m == was.(ready := false)
  {
    forall m ensures m in Unready(members) <==> exists was :: was in members && m == was.(ready := false) {
      if m in Unready(members) {
        var i :| 0 <= i < |members| && Unready(members)[i] == m;
        assert members[i] in members;
      }
      if was :| was in members && m == was.(ready := false) {
        var i :| 0 <= i < |members| && members[i] == was;
        assert Unready(members)[i] == m;
      }
    }
  }

  /** A departing host takes the room with it, a departing guest only itself; a stranger's departure is refused. */
  lemma {:induction false} LeavesExactly(h: seq<(int, Event)>, id: string, player: string, now: int)
    requires id in Run(h)
    ensures var (r, rooms') := (Run(h)[id], Step(Run(h), now, At(id, Leave(player))));
            if player == r.host then rooms' == Run(h) - {id}
            else if !IsMember(r, player) then rooms' == Run(h)
            else
              && id in rooms' && rooms' == Run(h)[id := rooms'[id]]
              && IsSubsequence(Players(rooms'[id]), Players(r))
              && forall m :: m in rooms'[id].members <==>
                               exists was :: was in r.members && was.playerId != player && m == was.(ready := false)
  {
    RoomsStayGood(h);
    var r := Run(h)[id];
    MembersAreListed(r, player);
    hide Run;
    if player == r.host {
      assert exists m :: m in r.members && m.playerId == r.host;
    } else {
      GuestIsGone(r, player, now);
    }
    hide GuestLeaves, Players, Inv, IsSubsequence;
  }

  lemma GuestIsGone(r: Room, player: string, now: int)
    requires Inv(r) && player != r.host
    ensures var r' := GuestLeaves(r, player, now);
            && IsSubsequence(Players(r'), Players(r))
            && forall m :: m in r'.members <==>
                             exists was :: was in r.members && was.playerId != player && m == was.(ready := false)
  {
    LeaveInv(r, player, now);
    StayersKeepOrder(GuestLeaves(r, player, now).members, r.members);
    UnreadiedMembers(r.members);
    hide GuestLeaves, Unready, Inv;
  }

  /**
   A purge drops exactly the members silent for longer than the timeout, and keeps exactly
   the rooms whose host is left and which were asked for something within the idle time.
  */
  lemma {:induction false} PurgesExactly(h: seq<(int, Event)>, timeout: int, idle: int, now: int, id: string)
    ensures var (rooms, rooms') := (Run(h), Step(Run(h), now, Purge(timeout, idle)));
            && (id in rooms' <==>
                  && id in rooms && now - rooms[id].updatedAt <= idle
                  && exists m :: && m in rooms[id].members && m.playerId == rooms[id].host
                                 && now - m.lastHeartbeat <= timeout)
            && (id in rooms' ==>
                  && rooms'[id] == rooms[id].(members := rooms'[id].members)
                  && IsSubsequence(rooms'[id].members, rooms[id].members)
                  && forall m :: m in rooms'[id].members <==>
                                   m in rooms[id].members && now - m.lastHeartbeat <= timeout)
  {
    if id in Run(h) {
      var (r, kept) := (Run(h)[id], DropSilent(Run(h)[id], timeout, now));
      FilterMembers(r.members, (m: Member) => now - m.lastHeartbeat <= timeout);
      FilterKeepsOrder(r.members, (m: Member) => now - m.lastHeartbeat <= timeout);
      MembersAreListed(kept, r.host);
    }
    hide Run, Players;
  }
}
