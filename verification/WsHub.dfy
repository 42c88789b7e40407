/**
 The lobby hub in place: client rows and room objects, changed by one handler at a time.
 Each handler has exactly the effect of the step it implements.
*/
module WsHub {
  import opened Lists
  import opened LobbyHub
  import opened Seats
  import opened Wrappers
  import opened WsRoom

  class Hub {
    var clients: map<string, Client>
    var lobbies: map<string, Room>

    /** Rooms are never shared between ids. */
    ghost predicate Valid()
      reads this
    {
      forall a, b :: a in lobbies && b in lobbies && a != b ==> lobbies[a] != lobbies[b]
    }

    ghost function View(): HubState
      reads this, lobbies.Values
    {
      HubState(clients, map lid | lid in lobbies :: lobbies[lid].View())
    }

    constructor ()
      ensures Valid() && View() == EMPTY
    {
      clients, lobbies := map[], map[];
    }

    // ----- what every handler starts with -----

    method FindRoom(player: string) returns (lid: Option<string>)
      ensures lid == RoomOf(View(), player)
    {
      if player in clients && clients[player].lobbyId.Some? && clients[player].lobbyId.value in lobbies {
        lid := clients[player].lobbyId;
      } else {
        lid := None;
      }
    }

    method FindHostedRoom(player: string) returns (lid: Option<string>)
      ensures lid == RoomHostedBy(View(), player)
    {
      lid := FindRoom(player);
      if lid.Some? && lobbies[lid.value].hostId != player {
        lid := None;
      }
    }

    method TakeName(player: string, name: Option<string>)
      modifies this`clients
      ensures clients == OfferName(old(clients), player, name) && clients.Keys == old(clients.Keys)
    {
      if name.Some? && name.value != "" && player in clients {
        clients := clients[player := clients[player].(displayName := name.value)];
      }
    }

    // ----- handlers -----

    method HandleConnect(player: string, name: string)
      requires Valid()
      modifies this
      ensures Valid() && View() == Step(old(View()), 0, Connect(player, name))
    {
      if player !in clients {
        clients := clients[player := Client(name, None)];
      }
    }

    method ApplyIdentity(player: string, lid: string, name: string, random: string)
      requires Valid() && lid in lobbies && player in clients
      modifies this`clients, lobbies[lid]
      ensures Valid() && View() == RenameIn(old(View()), player, lid, name, random)
    {
      hide UniqueName, Rename;
      var room := lobbies[lid];
      var unique := UniqueDisplayName(room.View(), name, player, random);
      room.RenamePlayer(player, unique);
      clients := clients[player := clients[player].(displayName := unique)];
      assert View().lobbies == old(View()).lobbies[lid := room.View()];
    }

    method HandleHello(player: string, name: Option<string>, random: string)
      requires Valid()
      modifies this, lobbies.Values
      ensures Valid() && View() == DoHello(old(View()), player, name, random)
    {
      hide RenameIn, OfferName;
      var lid := FindRoom(player);
      TakeName(player, name);
      assert View() == old(View()).(clients := clients);
      if name.Some? && name.value != "" && lid.Some? {
        ApplyIdentity(player, lid.value, name.value, random);
      }
    }

    /** A new room with its creator in the first seat. */
    method OpenRoom(player: string, lid: string, maxSlots: nat, gallery: bool, endpoint: string, raw: RawCaps)
      requires Valid() && lid !in lobbies && player in clients
      modifies this`lobbies, this`clients
      ensures Valid()
      ensures View() == HubState(SetLobby(old(clients), player, Some(lid)),
        old(View()).lobbies[lid := NewRoom(player, old(clients)[player].displayName, maxSlots, gallery, endpoint, raw)])
    {
      hide NewRoom;
      var room := new Room(player, clients[player].displayName, maxSlots, gallery, endpoint, raw);
      lobbies := lobbies[lid := room];
      clients := clients[player := clients[player].(lobbyId := Some(lid))];
      assert View().lobbies == old(View()).lobbies[lid := room.View()];
    }

    method Full() returns (full: bool)
      ensures full == (MAX_LOBBIES <= |View().lobbies|)
    {
      assert View().lobbies.Keys == lobbies.Keys;
      full := MAX_LOBBIES <= |lobbies.Keys|;
    }

    method HandleCreate(player: string, lid: string, name: Option<string>, maxSlots: nat,
                        gallery: bool, endpoint: string, raw: RawCaps)
      requires Valid()
      modifies this
      ensures Valid() && View() == DoCreate(old(View()), player, lid, name, maxSlots, gallery, endpoint, raw)
    {
      hide NewRoom, OfferName, SetLobby;
      var full := Full();
      if player !in clients || clients[player].lobbyId.Some? || full || lid in lobbies {
        return;
      }
      TakeName(player, name);
      assert View() == old(View()).(clients := clients);
      OpenRoom(player, lid, maxSlots, gallery, endpoint, raw);
    }

    method SeatJoinerLocked(player: string, lid: string, random: string)
      requires Valid() && lid in lobbies && player in clients
      modifies this`clients, lobbies[lid]
      ensures Valid() && View() == SeatJoinerIn(old(View()), player, lid, random)
    {
      hide UniqueName, SeatJoiner, JoinSeat;
      var room := lobbies[lid];
      var seat := room.ChooseSeat();
      if seat.None? || !ValidSeat(room.View(), seat.value) {
        return;
      }
      var unique := UniqueDisplayName(room.View(), clients[player].displayName, player, random);
      room.SitDown(seat.value, player, unique);
      clients := clients[player := clients[player].(lobbyId := Some(lid))];
      clients := clients[player := clients[player].(displayName := unique)];
      assert View().lobbies == old(View()).lobbies[lid := room.View()];
    }

    method HandleJoin(player: string, lid: string, name: Option<string>, admitted: bool, random: string)
      requires Valid()
      modifies this, lobbies.Values
      ensures Valid() && View() == DoJoin(old(View()), player, lid, name, admitted, random)
    {
      hide SeatJoinerIn, OfferName;
      if player !in clients || clients[player].lobbyId.Some? {
        return;
      }
      TakeName(player, name);
      assert View() == old(View()).(clients := clients);
      if lid in lobbies && admitted {
        SeatJoinerLocked(player, lid, random);
      }
    }

    /** Tell every member's row that the room is gone. */
    method EvictMembers(l: Lobby)
      modifies this`clients
      ensures clients == Evict(old(clients), l)
    {
      var members := Everyone(l);
      var k := 0;
      while k < |members|
        invariant k <= |members|
        invariant clients.Keys == old(clients.Keys)
        invariant forall p :: p in clients ==>
          clients[p] == if InFirst(members, k, p) then old(clients)[p].(lobbyId := None) else old(clients)[p]
      {
        if members[k].playerId in clients {
          clients := clients[members[k].playerId := clients[members[k].playerId].(lobbyId := None)];
        }
        k := k + 1;
      }
      forall p ensures InFirst(members, |members|, p) <==> SeatOf(l, p).Some? {
        EveryoneIsSeated(l, p);
      }
    }

    /** Drop a room. */
    method DestroyLobby(lid: string)
      requires Valid()
      modifies this
      ensures Valid() && View() == Destroy(old(View()), lid)
      ensures lobbies.Values <= old(lobbies.Values)
    {
      hide Evict;
      if lid !in lobbies {
        return;
      }
      var l := lobbies[lid].View();
      lobbies := lobbies - {lid};
      EvictMembers(l);
      assert View().lobbies == old(View()).lobbies - {lid};
    }

    method HandleLeave(player: string)
      requires Valid()
      modifies this, lobbies.Values
      ensures Valid() && View() == DoLeave(old(View()), player)
      ensures lobbies.Values <= old(lobbies.Values)
    {
      hide ClearPaths, Vacate, Destroy;
      if player !in clients || clients[player].lobbyId.None? {
        return;
      }
      var lid := clients[player].lobbyId.value;
      clients := clients[player := clients[player].(lobbyId := None)];
      assert View() == old(View()).(clients := clients);
      if lid !in lobbies {
        return;
      }
      var room := lobbies[lid];
      if room.hostId == player {
        DestroyLobby(lid);
      } else {
        room.StandUp(player);
        assert View().lobbies == old(View()).lobbies[lid := room.View()];
      }
    }

    method HandleKick(player: string, seat: nat)
      requires Valid()
      modifies this, lobbies.Values
      ensures Valid() && View() == DoKick(old(View()), player, seat)
    {
      hide Resettle, Put;
      var lid := FindHostedRoom(player);
      if lid.None? {
        return;
      }
      var room := lobbies[lid.value];
      var cell := At(room.View(), seat);
      if cell.None? || cell.value.playerId == room.hostId {
        return;
      }
      room.EmptySeat(seat);
      if cell.value.playerId in clients {
        clients := clients[cell.value.playerId := clients[cell.value.playerId].(lobbyId := None)];
      }
      assert View().lobbies == old(View()).lobbies[lid.value := room.View()];
    }

    method HandleMove(player: string, from: nat, to: nat)
      requires Valid()
      modifies lobbies.Values
      ensures Valid() && View() == DoMove(old(View()), player, from, to)
    {
      hide Resettle, Transpose;
      var lid := FindHostedRoom(player);
      if from == to || lid.None? {
        return;
      }
      var room := lobbies[lid.value];
      if !ValidSeat(room.View(), from) || !ValidSeat(room.View(), to) || At(room.View(), from).None? {
        return;
      }
      room.Move(from, to);
      assert View().lobbies == old(View()).lobbies[lid.value := room.View()];
    }

    method HandleSeatMove(player: string, to: nat)
      requires Valid()
      modifies lobbies.Values
      ensures Valid() && View() == DoSeatMove(old(View()), player, to)
    {
      hide Resettle, Transpose, SeatOf;
      var lid := FindRoom(player);
      if lid.None? {
        return;
      }
      var room := lobbies[lid.value];
      var from := room.SeatOfPlayer(player);
      if from.None? || !ValidSeat(room.View(), from.value) || !ValidSeat(room.View(), to)
         || from.value == to || At(room.View(), to).Some?
      {
        return;
      }
      room.MoveToEmpty(from.value, to);
      assert View().lobbies == old(View()).lobbies[lid.value := room.View()];
    }

    method HandleSwapAnswer(player: string, asker: string, accept: bool)
      requires Valid()
      modifies lobbies.Values
      ensures Valid() && View() == DoSwapAnswer(old(View()), player, asker, accept)
    {
      hide AfterSwap, Transpose, SeatOf;
      var lid := FindRoom(player);
      if lid.None? || asker == "" || !accept {
        return;
      }
      var room := lobbies[lid.value];
      var mine := room.SeatOfPlayer(player);
      var theirs := room.SeatOfPlayer(asker);
      if mine.None? || theirs.None? || mine == theirs
         || !ValidSeat(room.View(), mine.value) || !ValidSeat(room.View(), theirs.value)
      {
        return;
      }
      room.Swap(mine.value, theirs.value);
      assert View().lobbies == old(View()).lobbies[lid.value := room.View()];
    }

    method HandleSetReady(player: string, ready: bool)
      requires Valid()
      modifies lobbies.Values
      ensures Valid() && View() == DoSetReady(old(View()), player, ready)
    {
      var lid := FindRoom(player);
      if lid.None? {
        return;
      }
      var room := lobbies[lid.value];
      var i := Position(room.slots, player);
      if i.Some? {
        room.slots := room.slots[i.value := Some(room.slots[i.value].value.(ready := ready))];
        assert View().lobbies == old(View()).lobbies[lid.value := room.View()];
      }
    }

    method HandleReport(player: string, kind: PathKind, now: nat)
      requires Valid()
      modifies lobbies.Values
      ensures Valid() && View() == DoReport(old(View()), player, kind, now)
    {
      var lid := FindRoom(player);
      if lid.None? {
        return;
      }
      var room := lobbies[lid.value];
      var i := Position(room.slots, player);
      if i.Some? {
        room.slots := room.slots[i.value := Some(room.slots[i.value].value.(path := Some(PathReport(kind, now))))];
        assert View().lobbies == old(View()).lobbies[lid.value := room.View()];
      }
    }

    method HandleSetEndpoint(player: string, endpoint: string)
      requires Valid()
      modifies lobbies.Values
      ensures Valid() && View() == DoSetEndpoint(old(View()), player, endpoint)
    {
      var lid := FindHostedRoom(player);
      if lid.None? || endpoint == "" {
        return;
      }
      var room := lobbies[lid.value];
      if room.hostEndpoint != endpoint && !ViaIce(room.caps) {
        room.ForgetPlayerPaths();
      }
      room.hostEndpoint := endpoint;
      assert View().lobbies == old(View()).lobbies[lid.value := room.View()];
    }

    method HandleSetCaps(player: string, raw: RawCaps)
      requires Valid()
      modifies lobbies.Values
      ensures Valid() && View() == DoSetCaps(old(View()), player, raw)
    {
      var lid := FindHostedRoom(player);
      if lid.None? || SanitizeCaps(raw).None? {
        return;
      }
      var room := lobbies[lid.value];
      room.caps := SanitizeCaps(raw);
      assert View().lobbies == old(View()).lobbies[lid.value := room.View()];
    }

    /** The first half of a start: may the room launch, and how. */
    method DecideStart(player: string, raw: RawCaps, now: nat) returns (r: Option<(string, Transport)>)
      ensures r == StartAsked(View(), player, raw, now)
    {
      hide StartVerdict;
      var lid := FindHostedRoom(player);
      if lid.None? {
        return None;
      }
      var verdict := lobbies[lid.value].MayStart(raw, now);
      r := if verdict.Err? then None else Some((lid.value, verdict.value));
    }

    /** The second half: launch the room as it is by then. */
    method CommitLaunch(lid: string, raw: RawCaps)
      requires Valid()
      modifies lobbies.Values
      ensures Valid() && View() == DoLaunch(old(View()), lid, raw)
    {
      hide UnreadyAll;
      if lid !in lobbies {
        return;
      }
      var room := lobbies[lid];
      if SanitizeCaps(raw).Some? {
        room.caps := SanitizeCaps(raw);
      }
      room.started := true;
      room.Unready();
      assert View().lobbies == old(View()).lobbies[lid := room.View()];
    }

    method HandleClose(player: string)
      requires Valid()
      modifies this
      ensures Valid() && View() == DoClose(old(View()), player)
    {
      var lid := FindHostedRoom(player);
      if lid.Some? {
        DestroyLobby(lid.value);
      }
    }

    method HandleDisconnect(player: string)
      requires Valid()
      modifies this, lobbies.Values
      ensures Valid() && View() == Step(old(View()), 0, Disconnect(player))
    {
      HandleLeave(player);
      clients := clients - {player};
    }
  }

  predicate InFirst(members: seq<Slot>, k: nat, p: string)
    requires k <= |members|
  {
    exists j :: 0 <= j < k && members[j].playerId == p
  }

  lemma EveryoneIsSeated(l: Lobby, p: string)
    ensures InFirst(Everyone(l), |Everyone(l)|, p) <==> SeatOf(l, p).Some?
  {
    var all := Everyone(l);
    if SeatOf(l, p).Some? {
      var i := FirstSeated(l.slots, p);
      var x := if i.Some? then l.slots[i.value].value else l.spectators[FirstSeated(l.spectators, p).value].value;
      assert x in Occupants(l.slots) || x in Occupants(l.spectators);
      assert x in all;
      assert exists j :: 0 <= j < |all| && all[j].playerId == p;
    } else {
      forall j | 0 <= j < |all| ensures all[j].playerId != p {
        assert all[j] in Occupants(l.slots) || all[j] in Occupants(l.spectators);
      }
    }
  }
}
