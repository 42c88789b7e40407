/** What the lobby hub guarantees over every history of human-hosted rooms. */
module LobbyTheorems {
  import opened Lists
  import opened LobbyHub
  import opened Seats
  import opened Wrappers

  // ----- one room -----

  ghost predicate Member(l: Lobby, player: string, name: string) {
    exists s: nat :: WhoAt(l, s) == Some(Person(player, name))
  }

  /** No two occupied seats, in either table, share a player or a name. */
  ghost predicate PeopleApart(l: Lobby) {
    forall s: nat, t: nat :: s != t && WhoAt(l, s).Some? && WhoAt(l, t).Some? ==>
      WhoAt(l, s).value.playerId != WhoAt(l, t).value.playerId && WhoAt(l, s).value.name != WhoAt(l, t).value.name
  }

  ghost predicate HostSits(l: Lobby) {
    exists s: nat :: Sits(l, s, l.hostId)
  }

  ghost predicate RoomOk(l: Lobby) {
    WellShaped(l) && PeopleApart(l) && HostSits(l) && l.relayHostId == ""
  }

  ghost predicate SameMembers(l: Lobby, l': Lobby) {
    forall p, n :: Member(l', p, n) <==> Member(l, p, n)
  }

  lemma SameSeatingKeeps(l: Lobby, l': Lobby)
    requires RoomOk(l) && SameSeating(l, l')
    ensures RoomOk(l') && SameMembers(l, l')
  {
    var s: nat :| Sits(l, s, l.hostId);
    assert Sits(l', s, l'.hostId);
    forall p, n ensures Member(l', p, n) <==> Member(l, p, n) {
      if Member(l, p, n) {
        var t: nat :| WhoAt(l, t) == Some(Person(p, n));
        assert WhoAt(l', t) == Some(Person(p, n));
      }
    }
  }

  lemma ResettleKeeps(l: Lobby)
    requires RoomOk(l)
    ensures RoomOk(Resettle(l)) && SameMembers(l, Resettle(l))
  {
    UnreadyKeepsSeating(l);
    ClearKeepsSeating(UnreadyAll(l));
    SameSeatingKeeps(l, Resettle(l));
  }

  lemma TransposeWho(l: Lobby, a: nat, b: nat)
    requires ValidSeat(l, a) && ValidSeat(l, b)
    ensures forall s: nat :: WhoAt(Transpose(l, a, b), s) == WhoAt(l, Swapped(a, b, s))
  {
  }

  lemma TransposeKeeps(l: Lobby, a: nat, b: nat)
    requires RoomOk(l) && ValidSeat(l, a) && ValidSeat(l, b)
    ensures RoomOk(Transpose(l, a, b)) && SameMembers(l, Transpose(l, a, b))
  {
    var l' := Transpose(l, a, b);
    TransposeWho(l, a, b);
    TransposeMoves(l, a, b);
    var s: nat :| Sits(l, s, l.hostId);
    assert Swapped(a, b, Swapped(a, b, s)) == s;
    assert Sits(l', Swapped(a, b, s), l'.hostId);
    forall p, n ensures Member(l', p, n) <==> Member(l, p, n) {
      if Member(l, p, n) {
        var t: nat :| WhoAt(l, t) == Some(Person(p, n));
        assert WhoAt(l', Swapped(a, b, t)) == Some(Person(p, n));
      }
    }
  }

  /** `l'` is `l` with the players satisfying nobody's claim but `gone`'s removed. */
  ghost predicate Without(l: Lobby, l': Lobby, gone: string) {
    forall p, n :: Member(l', p, n) <==> Member(l, p, n) && p != gone
  }

  /** Emptying some seats of one player who is not the host. */
  lemma RemovalKeeps(l: Lobby, l': Lobby, gone: string)
    requires RoomOk(l) && gone != l.hostId
    requires |l'.slots| == |l.slots| && |l'.spectators| == |l.spectators|
    requires l'.maxSlots == l.maxSlots && l'.hostId == l.hostId && l'.relayHostId == l.relayHostId
    requires forall s: nat :: WhoAt(l', s) == if Sits(l, s, gone) then None else WhoAt(l, s)
    ensures RoomOk(l') && Without(l, l', gone)
  {
    var s: nat :| Sits(l, s, l.hostId);
    assert Sits(l', s, l'.hostId);
    forall p, n ensures Member(l', p, n) <==> Member(l, p, n) && p != gone {
      if Member(l, p, n) && p != gone {
        var t: nat :| WhoAt(l, t) == Some(Person(p, n));
        assert WhoAt(l', t) == Some(Person(p, n));
      }
    }
  }

  lemma VacateKeeps(l: Lobby, gone: string)
    requires RoomOk(l) && gone != l.hostId
    ensures RoomOk(Vacate(l, gone)) && Without(l, Vacate(l, gone), gone)
  {
    RemovalKeeps(l, Vacate(l, gone), gone);
  }

  lemma KickKeeps(l: Lobby, seat: nat)
    requires RoomOk(l) && At(l, seat).Some? && At(l, seat).value.playerId != l.hostId
    ensures var gone := At(l, seat).value.playerId;
            RoomOk(Put(l, seat, None)) && Without(l, Put(l, seat, None), gone)
  {
    var gone := At(l, seat).value.playerId;
    forall s: nat ensures WhoAt(Put(l, seat, None), s) == if Sits(l, s, gone) then None else WhoAt(l, s) {
      assert Sits(l, seat, gone);
    }
    RemovalKeeps(l, Put(l, seat, None), gone);
  }

  /** `l'` is `l` with one player put in under a name, in place of whatever that player was called. */
  ghost predicate Placed(l: Lobby, l': Lobby, player: string, name: string) {
    forall p, n :: Member(l', p, n) <==> (Member(l, p, n) && p != player) || (p == player && n == name)
  }

  /** Nobody outside one seat shares a player or a name with the given one. */
  ghost predicate FreeBut(l: Lobby, seat: nat, player: string, name: string) {
    forall s: nat :: s != seat && WhoAt(l, s).Some? ==>
      WhoAt(l, s).value.playerId != player && WhoAt(l, s).value.name != name
  }

  lemma PlacingKeeps(l: Lobby, l': Lobby, seat: nat, player: string, name: string)
    requires RoomOk(l) && FreeBut(l, seat, player, name)
    requires |l'.slots| == |l.slots| && |l'.spectators| == |l.spectators|
    requires l'.maxSlots == l.maxSlots && l'.hostId == l.hostId && l'.relayHostId == l.relayHostId
    requires WhoAt(l, seat).Some? ==> Sits(l, seat, player)
    requires forall s: nat :: WhoAt(l', s) == if s == seat then Some(Person(player, name)) else WhoAt(l, s)
    ensures RoomOk(l') && Placed(l, l', player, name)
  {
    var h: nat :| Sits(l, h, l.hostId);
    assert Sits(l', h, l'.hostId);
    assert WhoAt(l', seat) == Some(Person(player, name));
    forall p, n ensures Member(l', p, n) <==> (Member(l, p, n) && p != player) || (p == player && n == name) {
      if Member(l, p, n) && p != player {
        var t: nat :| WhoAt(l, t) == Some(Person(p, n));
        assert WhoAt(l', t) == Some(Person(p, n));
      }
    }
  }

  lemma OthersAreMembers(l: Lobby, skip: string)
    ensures forall s: nat :: WhoAt(l, s).Some? && WhoAt(l, s).value.playerId != skip ==>
              Taken(Others(l, skip), WhoAt(l, s).value.name)
  {
    FilterMembers(Everyone(l), (x: Slot) => x.playerId != skip);
    forall s: nat | WhoAt(l, s).Some? && WhoAt(l, s).value.playerId != skip
      ensures Taken(Others(l, skip), WhoAt(l, s).value.name)
    {
      assert At(l, s).value in Everyone(l);
    }
  }

  lemma SeatingKeeps(l: Lobby, seat: nat, player: string, name: string)
    requires RoomOk(l) && ValidSeat(l, seat) && At(l, seat).None?
    requires forall n :: !Member(l, player, n)
    requires !Taken(Others(l, player), name)
    ensures var l' := Put(l, seat, Some(Slot(player, name, false, None)));
            RoomOk(l') && Placed(l, l', player, name)
  {
    var l' := Put(l, seat, Some(Slot(player, name, false, None)));
    OthersAreMembers(l, player);
    forall s: nat | WhoAt(l, s).Some? ensures WhoAt(l, s).value.playerId != player && WhoAt(l, s).value.name != name {
      var w := WhoAt(l, s).value;
      if w.playerId == player {
        assert Member(l, player, w.name);
      }
    }
    PlacingKeeps(l, l', seat, player, name);
  }

  /** Looking a member up finds the one seat that member has. */
  lemma SeatOfMember(l: Lobby, seat: nat, player: string)
    requires WellShaped(l) && PeopleApart(l) && Sits(l, seat, player)
    ensures SeatOf(l, player) == Some(seat)
  {
    SeatOfIsAt(l, player);
    assert At(l, seat).Some? && At(l, seat).value.playerId == player;
    assert Sits(l, SeatOf(l, player).value, player);
  }

  lemma RenameKeeps(l: Lobby, player: string, was: string, name: string)
    requires RoomOk(l) && Member(l, player, was)
    requires !Taken(Others(l, player), name)
    ensures RoomOk(Rename(l, player, name)) && Placed(l, Rename(l, player, name), player, name)
  {
    OthersAreMembers(l, player);
    var seat: nat :| WhoAt(l, seat) == Some(Person(player, was));
    SeatOfMember(l, seat, player);
    PlacingKeeps(l, Rename(l, player, name), seat, player, name);
  }

  lemma NewRoomOk(player: string, name: string, maxSlots: nat, gallery: bool, endpoint: string, raw: RawCaps)
    ensures var l := NewRoom(player, name, maxSlots, gallery, endpoint, raw);
            && RoomOk(l)
            && forall p, n :: Member(l, p, n) <==> p == player && n == name
  {
    var l := NewRoom(player, name, maxSlots, gallery, endpoint, raw);
    forall s: nat ensures WhoAt(l, s) == if s == 0 then Some(Person(player, name)) else None {}
    assert Sits(l, 0, l.hostId);
    assert WhoAt(l, 0) == Some(Person(player, name));
  }

  // ----- the hub: rooms and client rows agree -----

  ghost predicate Seated(h: HubState, lid: string, p: string, n: string) {
    lid in h.lobbies && Member(h.lobbies[lid], p, n)
  }

  ghost predicate Row(h: HubState, lid: string, p: string, n: string) {
    p in h.clients && h.clients[p] == Client(n, Some(lid))
  }

  ghost predicate RoomsOk(h: HubState) {
    forall lid :: lid in h.lobbies ==> RoomOk(h.lobbies[lid])
  }

  /** A client's row names a room and a name exactly when that room seats it under that name. */
  ghost predicate Agrees(h: HubState) {
    forall lid, p, n :: Seated(h, lid, p, n) <==> Row(h, lid, p, n)
  }

  ghost predicate Inv(h: HubState) {
    RoomsOk(h) && Agrees(h)
  }

  lemma EditKeeps(h: HubState, lid: string, l': Lobby)
    requires Inv(h) && lid in h.lobbies && RoomOk(l') && SameMembers(h.lobbies[lid], l')
    ensures Inv(WithRoom(h, lid, l'))
  {
    var h' := WithRoom(h, lid, l');
    forall k, p, n ensures Seated(h', k, p, n) <==> Row(h', k, p, n) {
      assert Seated(h, k, p, n) <==> Row(h, k, p, n);
    }
  }

  lemma PlaceKeeps(h: HubState, h': HubState, lid: string, player: string, name: string)
    requires Inv(h) && lid in h'.lobbies && RoomOk(h'.lobbies[lid])
    requires h'.lobbies == h.lobbies[lid := h'.lobbies[lid]]
    requires player in h.clients && h'.clients == h.clients[player := Client(name, Some(lid))]
    requires h.clients[player].lobbyId.None? || h.clients[player].lobbyId == Some(lid)
    requires forall p, n :: Member(h'.lobbies[lid], p, n) <==>
               (Seated(h, lid, p, n) && p != player) || (p == player && n == name)
    ensures Inv(h')
  {
    forall k, p, n ensures Seated(h', k, p, n) <==> Row(h', k, p, n) {
      assert Seated(h, k, p, n) <==> Row(h, k, p, n);
    }
  }

  lemma RemoveKeeps(h: HubState, h': HubState, lid: string, gone: string)
    requires Inv(h) && lid in h.lobbies && lid in h'.lobbies && RoomOk(h'.lobbies[lid])
    requires h'.lobbies == h.lobbies[lid := h'.lobbies[lid]]
    requires Without(h.lobbies[lid], h'.lobbies[lid], gone)
    requires gone in h.clients && h.clients[gone].lobbyId == Some(lid)
    requires h'.clients == h.clients[gone := h.clients[gone].(lobbyId := None)]
    ensures Inv(h')
  {
    forall k, p, n ensures Seated(h', k, p, n) <==> Row(h', k, p, n) {
      assert Seated(h, k, p, n) <==> Row(h, k, p, n);
    }
  }

  lemma SeatedHasSeat(l: Lobby, p: string)
    requires WellShaped(l)
    ensures SeatOf(l, p).Some? <==> exists n :: Member(l, p, n)
  {
    SeatOfIsAt(l, p);
    if SeatOf(l, p).Some? {
      var s := SeatOf(l, p).value;
      assert WhoAt(l, s) == Some(Person(p, At(l, s).value.displayName));
      assert Member(l, p, At(l, s).value.displayName);
    } else {
      forall n, s: nat ensures WhoAt(l, s) != Some(Person(p, n)) {}
    }
  }

  /** Who loses the room when it is destroyed: exactly the clients whose row names it. */
  lemma EvictedAreMembers(h: HubState, lid: string, p: string)
    requires Inv(h) && lid in h.lobbies && p in h.clients
    ensures SeatOf(h.lobbies[lid], p).Some? <==> h.clients[p].lobbyId == Some(lid)
  {
    SeatedHasSeat(h.lobbies[lid], p);
    if SeatOf(h.lobbies[lid], p).Some? {
      var n :| Member(h.lobbies[lid], p, n);
      MemberHasRow(h, lid, p, n);
    } else if h.clients[p].lobbyId == Some(lid) {
      RowMeansSeat(h, p);
    }
  }

  lemma DestroyKeeps(h: HubState, lid: string)
    requires Inv(h)
    ensures Inv(Destroy(h, lid))
  {
    if lid in h.lobbies {
      var h' := Destroy(h, lid);
      forall k, p, n ensures Seated(h', k, p, n) <==> Row(h', k, p, n) {
        assert Seated(h, k, p, n) <==> Row(h, k, p, n);
        if p in h.clients {
          EvictedAreMembers(h, lid, p);
        }
      }
    }
  }

  /** Changes to rows that name no room, before and after. */
  lemma IdleRowsKeep(h: HubState, clients': map<string, Client>, player: string)
    requires Inv(h)
    requires player in h.clients ==> h.clients[player].lobbyId.None?
    requires player in clients' ==> clients'[player].lobbyId.None?
    requires forall p :: p != player ==> (p in clients' <==> p in h.clients)
    requires forall p :: p != player && p in clients' ==> clients'[p] == h.clients[p]
    ensures Inv(h.(clients := clients'))
  {
    var h' := h.(clients := clients');
    forall k, p, n ensures Seated(h', k, p, n) <==> Row(h', k, p, n) {
      assert Seated(h, k, p, n) <==> Row(h, k, p, n);
    }
  }

  /** A client whose row names a room is seated in it. */
  lemma RowMeansSeat(h: HubState, player: string)
    requires Inv(h) && player in h.clients && h.clients[player].lobbyId.Some?
    ensures var lid := h.clients[player].lobbyId.value;
            && lid in h.lobbies && RoomOk(h.lobbies[lid])
            && Member(h.lobbies[lid], player, h.clients[player].displayName)
            && RoomOf(h, player) == Some(lid)
  {
    assert Row(h, h.clients[player].lobbyId.value, player, h.clients[player].displayName);
  }

  lemma MemberHasRow(h: HubState, lid: string, p: string, n: string)
    requires Inv(h) && lid in h.lobbies && Member(h.lobbies[lid], p, n)
    ensures p in h.clients && h.clients[p] == Client(n, Some(lid))
  {
    assert Seated(h, lid, p, n);
    assert Row(h, lid, p, n);
  }

  // ----- each handler -----

  lemma HelloKeeps(h: HubState, player: string, name: Option<string>, random: string)
    requires Inv(h)
    ensures Inv(DoHello(h, player, name, random))
  {
    var lid := RoomOf(h, player);
    if name.None? || name.value == "" {
    } else if lid.None? {
      if player in h.clients && h.clients[player].lobbyId.Some? {
        RowMeansSeat(h, player);
      }
      IdleRowsKeep(h, OfferName(h.clients, player, name), player);
    } else {
      var h1 := h.(clients := OfferName(h.clients, player, name));
      RenamingKeeps(h, h1, player, lid.value, name.value, random);
    }
  }

  /** A member is renamed in the room and in the row, whatever name the row had meanwhile. */
  lemma RenamingKeeps(h: HubState, h1: HubState, player: string, lid: string, name: string, random: string)
    requires Inv(h) && RoomOf(h, player) == Some(lid)
    requires h1.lobbies == h.lobbies
    requires player in h1.clients && h1.clients == h.clients[player := h1.clients[player]]
    requires h1.clients[player].lobbyId == Some(lid)
    ensures Inv(RenameIn(h1, player, lid, name, random))
  {
    hide UniqueName, Rename;
    RowMeansSeat(h, player);
    var unique := UniqueName(h.lobbies[lid], name, player, random);
    NamesAreFree(h.lobbies[lid], name, player, random, random);
    RenameKeeps(h.lobbies[lid], player, h.clients[player].displayName, unique);
    PlaceKeeps(h, RenameIn(h1, player, lid, name, random), lid, player, unique);
  }

  lemma CreateKeeps(h: HubState, player: string, lid: string, name: Option<string>, maxSlots: nat,
                    gallery: bool, endpoint: string, raw: RawCaps)
    requires Inv(h)
    ensures Inv(DoCreate(h, player, lid, name, maxSlots, gallery, endpoint, raw))
  {
    var h' := DoCreate(h, player, lid, name, maxSlots, gallery, endpoint, raw);
    if h' != h {
      var n := OfferName(h.clients, player, name)[player].displayName;
      NewRoomOk(player, n, maxSlots, gallery, endpoint, raw);
      PlaceKeeps(h, h', lid, player, n);
    }
  }

  lemma JoinKeeps(h: HubState, player: string, lid: string, name: Option<string>, admitted: bool, random: string)
    requires Inv(h)
    ensures Inv(DoJoin(h, player, lid, name, admitted, random))
  {
    if player in h.clients && h.clients[player].lobbyId.None? {
      var clients := OfferName(h.clients, player, name);
      IdleRowsKeep(h, clients, player);
      if lid in h.lobbies && admitted {
        SeatedJoinKeeps(h.(clients := clients), player, lid, random);
      }
    }
  }

  lemma SeatJoinerKeeps(l: Lobby, seat: nat, player: string, name: string)
    requires RoomOk(l) && ValidSeat(l, seat) && At(l, seat).None?
    requires forall n :: !Member(l, player, n)
    requires !Taken(Others(l, player), name)
    ensures RoomOk(SeatJoiner(l, seat, player, name)) && Placed(l, SeatJoiner(l, seat, player, name), player, name)
  {
    SeatingKeeps(l, seat, player, name);
    ResettleKeeps(Put(l, seat, Some(Slot(player, name, false, None))));
  }

  lemma SeatedJoinKeeps(h: HubState, player: string, lid: string, random: string)
    requires Inv(h) && player in h.clients && h.clients[player].lobbyId.None? && lid in h.lobbies
    ensures Inv(SeatJoinerIn(h, player, lid, random))
  {
    hide UniqueName, JoinSeat, SeatJoiner;
    var l := h.lobbies[lid];
    var seat := JoinSeat(l);
    if seat.Some? {
      var unique := UniqueName(l, h.clients[player].displayName, player, random);
      NamesAreFree(l, h.clients[player].displayName, player, random, random);
      forall n ensures !Member(l, player, n) {
        assert Seated(h, lid, player, n) <==> Row(h, lid, player, n);
      }
      SeatJoinerKeeps(l, seat.value, player, unique);
      PlaceKeeps(h, SeatJoinerIn(h, player, lid, random), lid, player, unique);
    }
  }

  lemma LeaveKeeps(h: HubState, player: string)
    requires Inv(h)
    ensures Inv(DoLeave(h, player))
    ensures player in DoLeave(h, player).clients ==> DoLeave(h, player).clients[player].lobbyId.None?
  {
    if player in h.clients && h.clients[player].lobbyId.Some? {
      RowMeansSeat(h, player);
      var lid := h.clients[player].lobbyId.value;
      if h.lobbies[lid].hostId == player {
        HostLeaves(h, player, lid);
        DestroyKeeps(h, lid);
      } else {
        VacatingKeeps(h, player, lid);
      }
    }
  }

  /** A host who leaves is among those the destruction evicts. */
  lemma HostLeaves(h: HubState, player: string, lid: string)
    requires Inv(h) && player in h.clients && h.clients[player].lobbyId == Some(lid)
    requires lid in h.lobbies && h.lobbies[lid].hostId == player
    ensures DoLeave(h, player) == Destroy(h, lid)
    ensures player in Destroy(h, lid).clients && Destroy(h, lid).clients[player].lobbyId.None?
  {
    hide SeatOf;
    EvictedAreMembers(h, lid, player);
    assert DoLeave(h, player).clients == Destroy(h, lid).clients;
  }

  lemma VacatingKeeps(h: HubState, player: string, lid: string)
    requires Inv(h) && player in h.clients && h.clients[player].lobbyId == Some(lid)
    requires lid in h.lobbies && h.lobbies[lid].hostId != player
    ensures Inv(DoLeave(h, player))
  {
    var l := h.lobbies[lid];
    VacateKeeps(l, player);
    ClearKeepsSeating(Vacate(l, player));
    SameSeatingKeeps(Vacate(l, player), ClearPaths(Vacate(l, player)));
    RemoveKeeps(h, DoLeave(h, player), lid, player);
  }

  lemma KickingKeeps(h: HubState, player: string, seat: nat)
    requires Inv(h)
    ensures Inv(DoKick(h, player, seat))
  {
    var lid := RoomHostedBy(h, player);
    if lid.Some? {
      var l := h.lobbies[lid.value];
      if At(l, seat).Some? && At(l, seat).value.playerId != l.hostId {
        var gone := At(l, seat).value;
        assert WhoAt(l, seat) == Some(Person(gone.playerId, gone.displayName));
        MemberHasRow(h, lid.value, gone.playerId, gone.displayName);
        KickKeeps(l, seat);
        ResettleKeeps(Put(l, seat, None));
        RemoveKeeps(h, DoKick(h, player, seat), lid.value, gone.playerId);
      }
    }
  }

  lemma RearrangeKeeps(h: HubState, lid: string, a: nat, b: nat)
    requires Inv(h) && lid in h.lobbies && ValidSeat(h.lobbies[lid], a) && ValidSeat(h.lobbies[lid], b)
    ensures Inv(WithRoom(h, lid, Resettle(Transpose(h.lobbies[lid], a, b))))
    ensures Inv(WithRoom(h, lid, UnreadyAll(Transpose(h.lobbies[lid], a, b))))
  {
    var l := h.lobbies[lid];
    TransposeKeeps(l, a, b);
    var t := Transpose(l, a, b);
    ResettleKeeps(t);
    EditKeeps(h, lid, Resettle(t));
    UnreadyKeepsSeating(t);
    SameSeatingKeeps(t, UnreadyAll(t));
    EditKeeps(h, lid, UnreadyAll(t));
  }

  lemma RearrangingKeeps(h: HubState, now: nat, e: Event)
    requires Inv(h) && (e.Move? || e.SeatMove? || e.SwapAnswer?)
    ensures Inv(Step(h, now, e))
  {
    if Step(h, now, e) != h {
      var lid := RoomOf(h, e.player).value;
      var l := h.lobbies[lid];
      match e {
        case Move(_, from, to) => RearrangeKeeps(h, lid, from, to);
        case SeatMove(p, to) => RearrangeKeeps(h, lid, SeatOf(l, p).value, to);
        case SwapAnswer(p, asker, _) => RearrangeKeeps(h, lid, SeatOf(l, p).value, SeatOf(l, asker).value);
      }
    }
  }

  /** The handlers that leave everybody where they are. */
  lemma QuietEditKeeps(h: HubState, lid: string, l': Lobby)
    requires Inv(h) && lid in h.lobbies && SameSeating(h.lobbies[lid], l')
    ensures Inv(WithRoom(h, lid, l'))
  {
    SameSeatingKeeps(h.lobbies[lid], l');
    EditKeeps(h, lid, l');
  }

  lemma CellEditKeepsSeating(l: Lobby, i: nat, s: Slot)
    requires i < |l.slots| && l.slots[i].Some?
    requires s.playerId == l.slots[i].value.playerId && s.displayName == l.slots[i].value.displayName
    ensures SameSeating(l, l.(slots := l.slots[i := Some(s)]))
  {
  }

  lemma ReadyKeeps(h: HubState, player: string, ready: bool)
    requires Inv(h)
    ensures Inv(DoSetReady(h, player, ready))
  {
    if DoSetReady(h, player, ready) != h {
      var lid := RoomOf(h, player).value;
      var l := h.lobbies[lid];
      var i := FirstSeated(l.slots, player).value;
      var s := l.slots[i].value.(ready := ready);
      CellEditKeepsSeating(l, i, s);
      QuietEditKeeps(h, lid, l.(slots := l.slots[i := Some(s)]));
    }
  }

  lemma ReportKeeps(h: HubState, player: string, kind: PathKind, now: nat)
    requires Inv(h)
    ensures Inv(DoReport(h, player, kind, now))
  {
    if DoReport(h, player, kind, now) != h {
      var lid := RoomOf(h, player).value;
      var l := h.lobbies[lid];
      var i := FirstSeated(l.slots, player).value;
      var s := l.slots[i].value.(path := Some(PathReport(kind, now)));
      CellEditKeepsSeating(l, i, s);
      QuietEditKeeps(h, lid, l.(slots := l.slots[i := Some(s)]));
    }
  }

  lemma EndpointKeeps(h: HubState, player: string, endpoint: string)
    requires Inv(h)
    ensures Inv(DoSetEndpoint(h, player, endpoint))
  {
    var h' := DoSetEndpoint(h, player, endpoint);
    if h' != h {
      var lid := RoomOf(h, player).value;
      QuietEditKeeps(h, lid, h'.lobbies[lid]);
    }
  }

  lemma CapsKeep(h: HubState, player: string, raw: RawCaps)
    requires Inv(h)
    ensures Inv(DoSetCaps(h, player, raw))
  {
    var h' := DoSetCaps(h, player, raw);
    if h' != h {
      var lid := RoomOf(h, player).value;
      QuietEditKeeps(h, lid, h'.lobbies[lid]);
    }
  }

  lemma LaunchKeeps(h: HubState, lid: string, raw: RawCaps)
    requires Inv(h)
    ensures Inv(DoLaunch(h, lid, raw))
  {
    if lid in h.lobbies {
      QuietEditKeeps(h, lid, DoLaunch(h, lid, raw).lobbies[lid]);
    }
  }

  lemma StepKeeps(h: HubState, now: nat, e: Event)
    requires Inv(h)
    ensures Inv(Step(h, now, e))
  {
    match e
    case Connect(p, name) =>
      if p !in h.clients { IdleRowsKeep(h, h.clients[p := Client(name, None)], p); }
    case Hello(p, name, random) => HelloKeeps(h, p, name, random);
    case Create(p, lid, name, n, gallery, endpoint, raw) => CreateKeeps(h, p, lid, name, n, gallery, endpoint, raw);
    case Join(p, lid, name, admitted, random) => JoinKeeps(h, p, lid, name, admitted, random);
    case Leave(p) => LeaveKeeps(h, p);
    case Kick(p, seat) => KickingKeeps(h, p, seat);
    case Move(_, _, _) => RearrangingKeeps(h, now, e);
    case SeatMove(_, _) => RearrangingKeeps(h, now, e);
    case SwapAnswer(_, _, _) => RearrangingKeeps(h, now, e);
    case Close(p) =>
      if RoomHostedBy(h, p).Some? { DestroyKeeps(h, RoomHostedBy(h, p).value); }
    case Disconnect(p) =>
      LeaveKeeps(h, p);
      IdleRowsKeep(DoLeave(h, p), DoLeave(h, p).clients - {p}, p);
    case SetReady(p, ready) => ReadyKeeps(h, p, ready);
    case Report(p, kind) => ReportKeeps(h, p, kind, now);
    case SetEndpoint(p, endpoint) => EndpointKeeps(h, p, endpoint);
    case SetCaps(p, raw) => CapsKeep(h, p, raw);
    case Launch(lid, raw) => LaunchKeeps(h, lid, raw);
  }

  lemma {:induction false} RunInvariant(run: History)
    ensures Inv(Run(run))
  {
    if run == [] {
      forall lid, p, n ensures Seated(EMPTY, lid, p, n) <==> Row(EMPTY, lid, p, n) {}
    } else {
      RunInvariant(run[..|run| - 1]);
      StepKeeps(Run(run[..|run| - 1]), run[|run| - 1].0, run[|run| - 1].1);
    }
  }

  // ----- what follows, over every history -----

  /**
   A client's row names a room exactly when that room seats the client; the seat is then
   the only one the client has anywhere, and carries the name in the row.
  */
  lemma {:induction false} OneSeatPerClient(run: History, player: string, lid: string)
    requires player in Run(run).clients
    ensures var h := Run(run);
            && (h.clients[player].lobbyId == Some(lid) <==>
                  lid in h.lobbies && exists s: nat :: Sits(h.lobbies[lid], s, player))
            && (h.clients[player].lobbyId == Some(lid) ==>
                  && (forall s: nat, t: nat ::
                        Sits(h.lobbies[lid], s, player) && Sits(h.lobbies[lid], t, player) ==> s == t)
                  && (forall s: nat :: Sits(h.lobbies[lid], s, player) ==>
                        WhoAt(h.lobbies[lid], s).value.name == h.clients[player].displayName)
                  && (forall k, s: nat :: k in h.lobbies && k != lid ==> !Sits(h.lobbies[k], s, player)))
  {
    var h := Run(run);
    RunInvariant(run);
    forall k, s: nat | k in h.lobbies && Sits(h.lobbies[k], s, player)
      ensures h.clients[player] == Client(WhoAt(h.lobbies[k], s).value.name, Some(k))
    {
      SitterHasRow(h, k, s);
    }
    if h.clients[player].lobbyId == Some(lid) {
      RowMeansSeat(h, player);
      var s: nat :| WhoAt(h.lobbies[lid], s) == Some(Person(player, h.clients[player].displayName));
      assert Sits(h.lobbies[lid], s, player);
    }
  }

  lemma SitterHasRow(h: HubState, lid: string, s: nat)
    requires Inv(h) && lid in h.lobbies && WhoAt(h.lobbies[lid], s).Some?
    ensures var w := WhoAt(h.lobbies[lid], s).value;
            w.playerId in h.clients && h.clients[w.playerId] == Client(w.name, Some(lid))
  {
    var w := WhoAt(h.lobbies[lid], s).value;
    assert Member(h.lobbies[lid], w.playerId, w.name);
    MemberHasRow(h, lid, w.playerId, w.name);
  }

  /** Only connected clients are seated, each room's host among them, and no two seats share a name. */
  lemma {:induction false} RoomsStaySound(run: History, lid: string)
    requires lid in Run(run).lobbies
    ensures var (h, l) := (Run(run), Run(run).lobbies[lid]);
            && WellShaped(l)
            && l.hostId in h.clients && h.clients[l.hostId].lobbyId == Some(lid) && SeatOf(l, l.hostId).Some?
            && forall s: nat, t: nat :: WhoAt(l, s).Some? && WhoAt(l, t).Some? && s != t ==>
                  WhoAt(l, s).value.name != WhoAt(l, t).value.name
  {
    var (h, l) := (Run(run), Run(run).lobbies[lid]);
    RunInvariant(run);
    var s: nat :| Sits(l, s, l.hostId);
    SitterHasRow(h, lid, s);
    SeatOfMember(l, s, l.hostId);
  }

  // ----- rearrangements -----

  /** Nothing but the seating of one room differs, and there two seats have changed occupants. */
  ghost predicate Transposed(h: HubState, h': HubState, lid: string, a: nat, b: nat) {
    && lid in h.lobbies && ValidSeat(h.lobbies[lid], a) && ValidSeat(h.lobbies[lid], b)
    && lid in h'.lobbies && h' == WithRoom(h, lid, h'.lobbies[lid])
    && forall s: nat :: WhoAt(h'.lobbies[lid], s) == WhoAt(h.lobbies[lid], Swapped(a, b, s))
  }

  lemma ResettledWho(l: Lobby)
    ensures forall s: nat :: WhoAt(Resettle(l), s) == WhoAt(l, s)
    ensures forall s: nat :: WhoAt(UnreadyAll(l), s) == WhoAt(l, s)
  {
  }

  /** A host's move, a member's move and an accepted swap each exchange exactly two cells of one room. */
  lemma RearrangingIsTransposition(h: HubState, now: nat, e: Event) returns (lid: string, a: nat, b: nat)
    requires e.Move? || e.SeatMove? || e.SwapAnswer?
    requires Step(h, now, e) != h
    ensures a != b && Transposed(h, Step(h, now, e), lid, a, b)
    ensures e.Move? ==> h.lobbies[lid].hostId == e.player && a == e.from && b == e.to
    ensures e.SeatMove? ==> SeatOf(h.lobbies[lid], e.player) == Some(a) && b == e.to && At(h.lobbies[lid], b).None?
    ensures e.SwapAnswer? ==> SeatOf(h.lobbies[lid], e.player) == Some(a) && SeatOf(h.lobbies[lid], e.asker) == Some(b)
  {
    lid := RoomOf(h, e.player).value;
    var l := h.lobbies[lid];
    match e {
      case Move(_, from, to) => a, b := from, to;
      case SeatMove(p, to) => a, b := SeatOf(l, p).value, to;
      case SwapAnswer(p, asker, _) => a, b := SeatOf(l, p).value, SeatOf(l, asker).value;
    }
    TransposeWho(l, a, b);
    ResettledWho(Transpose(l, a, b));
  }
}
