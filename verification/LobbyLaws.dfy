/** What each handler does to the lobby, in every reachable state and cell by cell. */
module LobbyLaws {
  import opened Lists
  import opened LobbyHub
  import opened LobbyTheorems
  import opened Seats
  import opened Wrappers

  /** A cell after a change of the people around it: not ready at play, and, where paths are dropped, with no report. */
  function Refreshed(c: Option<Slot>, seat: nat, drop: bool): Option<Slot> {
    if c == None then None
    else
      var s := c.value;
      Some(Slot(s.playerId, s.displayName, 64 <= seat && s.ready, if drop then None else s.path))
  }

  predicate Exists(l: Lobby, seat: nat) {
    if seat < 64 then seat < |l.slots| else seat < 64 + |l.spectators|
  }

  predicate InRoom(h: HubState, p: string, lid: string) {
    p in h.clients && h.clients[p].lobbyId == Some(lid)
  }

  /** Only the cells of this room differ, in tables of the same size. */
  ghost predicate OnlyCells(l: Lobby, l': Lobby) {
    && l' == l.(slots := l'.slots, spectators := l'.spectators)
    && |l'.slots| == |l.slots| && |l'.spectators| == |l.spectators|
  }

  ghost predicate OnlyRoom(h: HubState, h': HubState, lid: string) {
    lid in h.lobbies && lid in h'.lobbies && h'.lobbies == h.lobbies[lid := h'.lobbies[lid]]
  }

  lemma {:induction false} RoomOfMember(run: History, p: string, lid: string)
    requires InRoom(Run(run), p, lid)
    ensures lid in Run(run).lobbies && RoomOf(Run(run), p) == Some(lid) && WellShaped(Run(run).lobbies[lid])
  {
    RunInvariant(run);
    RowMeansSeat(Run(run), p);
  }

  lemma {:induction false} SeatIs(run: History, lid: string, s: nat, p: string)
    requires lid in Run(run).lobbies && Sits(Run(run).lobbies[lid], s, p)
    ensures SeatOf(Run(run).lobbies[lid], p) == Some(s) && InRoom(Run(run), p, lid)
  {
    RunInvariant(run);
    SeatOfMember(Run(run).lobbies[lid], s, p);
    SitterHasRow(Run(run), lid, s);
  }

  /** Who is in no room can change none. */
  lemma {:induction false} OutsidersChangeNothing(run: History, now: nat, e: Event)
    requires e.Leave? || e.Kick? || e.Move? || e.SeatMove? || e.SwapAnswer? || e.SetReady? || e.Report?
             || e.SetEndpoint? || e.SetCaps? || e.Close?
    requires forall lid :: !InRoom(Run(run), e.player, lid)
    ensures Step(Run(run), now, e) == Run(run)
  {
    var h := Run(run);
    assert e.player in h.clients && h.clients[e.player].lobbyId.Some?
      ==> InRoom(h, e.player, h.clients[e.player].lobbyId.value);
  }

  // ----- rearranging -----

  /** Seats `a` and `b` have exchanged their occupants, everybody is refreshed, and nothing else differs. */
  ghost predicate Exchanged(h: HubState, h': HubState, lid: string, a: nat, b: nat, drop: bool) {
    && OnlyRoom(h, h', lid) && h'.clients == h.clients && OnlyCells(h.lobbies[lid], h'.lobbies[lid])
    && forall s: nat ::
         At(h'.lobbies[lid], s) ==
           Refreshed(At(h.lobbies[lid], if s == a then b else if s == b then a else s), s, drop)
  }

  lemma RefreshCells(l: Lobby)
    ensures OnlyCells(l, Resettle(l)) && forall s: nat :: At(Resettle(l), s) == Refreshed(At(l, s), s, true)
    ensures OnlyCells(l, UnreadyAll(l)) && forall s: nat :: At(UnreadyAll(l), s) == Refreshed(At(l, s), s, false)
  {
  }

  function Rearranged(l: Lobby, a: nat, b: nat, drop: bool): Lobby
    requires ValidSeat(l, a) && ValidSeat(l, b)
  {
    if drop then Resettle(Transpose(l, a, b)) else UnreadyAll(Transpose(l, a, b))
  }

  lemma RoomExchanged(h: HubState, lid: string, a: nat, b: nat, drop: bool)
    requires lid in h.lobbies && ValidSeat(h.lobbies[lid], a) && ValidSeat(h.lobbies[lid], b) && a != b
    ensures Exchanged(h, WithRoom(h, lid, Rearranged(h.lobbies[lid], a, b, drop)), lid, a, b, drop)
  {
    var l := h.lobbies[lid];
    TransposeMoves(l, a, b);
    TransposeOnlyCells(l, a, b);
    RefreshCells(Transpose(l, a, b));
    hide Transpose, Resettle, UnreadyAll, At, Refreshed;
  }

  lemma TransposeOnlyCells(l: Lobby, a: nat, b: nat)
    requires ValidSeat(l, a) && ValidSeat(l, b)
    ensures OnlyCells(l, Transpose(l, a, b))
  {
  }

  /** The host's move exchanges any two different seats, in one table or across, as long as the first is occupied. */
  lemma {:induction false} MovesHappen(run: History, now: nat, p: string, lid: string, from: nat, to: nat)
    requires InRoom(Run(run), p, lid)
    ensures var (h, h') := (Run(run), Step(Run(run), now, Move(p, from, to)));
            && lid in h.lobbies
            && var l := h.lobbies[lid];
               if l.hostId == p && from != to && Exists(l, from) && Exists(l, to) && At(l, from) != None
               then Exchanged(h, h', lid, from, to, true)
               else h' == h
  {
    RoomOfMember(run, p, lid);
    var l := Run(run).lobbies[lid];
    if ValidSeat(l, from) && ValidSeat(l, to) && from != to {
      RoomExchanged(Run(run), lid, from, to, true);
    }
    hide Resettle, Transpose, At, Exchanged, Run;
  }

  /** A member's own move takes it to any other seat, of either table, that is empty. */
  lemma {:induction false} SeatMovesHappen(run: History, now: nat, p: string, lid: string, from: nat, to: nat)
    requires lid in Run(run).lobbies && Sits(Run(run).lobbies[lid], from, p)
    ensures var (h, h', l) := (Run(run), Step(Run(run), now, SeatMove(p, to)), Run(run).lobbies[lid]);
            if from != to && Exists(l, to) && At(l, to) == None
            then Exchanged(h, h', lid, from, to, true)
            else h' == h
  {
    SeatIs(run, lid, from, p);
    RoomOfMember(run, p, lid);
    var l := Run(run).lobbies[lid];
    assert ValidSeat(l, from);
    if ValidSeat(l, to) && from != to {
      RoomExchanged(Run(run), lid, from, to, true);
    }
    hide Resettle, Transpose, At, SeatOf, Exchanged, Run;
  }

  /** An accepted swap exchanges the two seats; the reports are dropped when it crosses the tables, and only then. */
  lemma {:induction false} SwapsHappen(run: History, now: nat, p: string, asker: string, accept: bool,
                                       lid: string, mine: nat, theirs: nat)
    requires lid in Run(run).lobbies
    requires var l := Run(run).lobbies[lid]; Sits(l, mine, p) && Sits(l, theirs, asker) && p != asker
    ensures var (h, h') := (Run(run), Step(Run(run), now, SwapAnswer(p, asker, accept)));
            if accept && asker != ""
            then Exchanged(h, h', lid, mine, theirs, mine < 64 <= theirs || theirs < 64 <= mine)
            else h' == h
  {
    SeatIs(run, lid, mine, p);
    SeatIs(run, lid, theirs, asker);
    RoomOfMember(run, p, lid);
    var l := Run(run).lobbies[lid];
    assert ValidSeat(l, mine) && ValidSeat(l, theirs) && mine != theirs;
    RoomExchanged(Run(run), lid, mine, theirs, mine < 64 <= theirs || theirs < 64 <= mine);
    hide Resettle, Transpose, At, SeatOf, UnreadyAll, Exchanged, Run;
  }

  // ----- coming -----

  /** The joiner has seat `s`, under a name; everybody else is refreshed where they sit. */
  ghost predicate SatDown(h: HubState, h': HubState, lid: string, s: nat, p: string, name: string) {
    && OnlyRoom(h, h', lid) && OnlyCells(h.lobbies[lid], h'.lobbies[lid])
    && p in h.clients && h'.clients == h.clients[p := Client(name, Some(lid))]
    && At(h'.lobbies[lid], s) == Some(Slot(p, name, false, None))
    && forall t: nat :: t != s ==> At(h'.lobbies[lid], t) == Refreshed(At(h.lobbies[lid], t), t, true)
  }

  predicate FirstFree(l: Lobby, s: nat) {
    Exists(l, s) && At(l, s) == None && forall t: nat :: t < s && Exists(l, t) ==> At(l, t) != None
  }

  /** The name a message leaves in the sender's row. */
  function Named(h: HubState, p: string, name: Option<string>): string
    requires p in h.clients
  {
    if name == None || name == Some("") then h.clients[p].displayName else name.value
  }

  /** An admitted joiner of a room with a free seat gets the first one, and a name nobody else there has. */
  lemma {:induction false} JoinersSitDown(run: History, now: nat, p: string, lid: string, name: Option<string>,
                                          random: string, s: nat)
    requires p in Run(run).clients && Run(run).clients[p].lobbyId == None
    requires lid in Run(run).lobbies && FirstFree(Run(run).lobbies[lid], s)
    ensures var (h, h') := (Run(run), Step(Run(run), now, Join(p, lid, name, true, random)));
            SatDown(h, h', lid, s, p, UniqueName(h.lobbies[lid], Named(h, p, name), p, random))
  {
    RunInvariant(run);
    hide Inv, FirstFree, SatDown, DoJoin, Run;
    JoinerSits(Run(run), p, lid, name, random, s);
  }

  lemma JoinerSits(h: HubState, p: string, lid: string, name: Option<string>, random: string, s: nat)
    requires Inv(h) && p in h.clients && h.clients[p].lobbyId == None
    requires lid in h.lobbies && FirstFree(h.lobbies[lid], s)
    ensures SatDown(h, DoJoin(h, p, lid, name, true, random), lid, s, p,
                    UniqueName(h.lobbies[lid], Named(h, p, name), p, random))
  {
    var l := h.lobbies[lid];
    FirstFreeIsJoinSeat(l, s);
    SitDownCells(l, s, p, UniqueName(l, Named(h, p, name), p, random));
    JoinStep(h, p, lid, name, random, s);
    hide JoinSeat, UniqueName, SeatJoiner, At, Inv, DoJoin, FirstFree, Named, Refreshed;
  }

  lemma FirstFreeIsJoinSeat(l: Lobby, s: nat)
    requires WellShaped(l) && FirstFree(l, s)
    ensures JoinSeat(l) == Some(s) && ValidSeat(l, s)
  {
    JoinSeatIsFirstFree(l);
    assert ValidSeat(l, s) && ValidSeat(l, JoinSeat(l).value);
    assert Exists(l, JoinSeat(l).value);
    hide JoinSeat;
  }

  lemma SitDownCells(l: Lobby, s: nat, p: string, name: string)
    requires ValidSeat(l, s)
    ensures var l' := SeatJoiner(l, s, p, name);
            && OnlyCells(l, l') && At(l', s) == Some(Slot(p, name, false, None))
            && forall t: nat :: t != s ==> At(l', t) == Refreshed(At(l, t), t, true)
  {
    var m := Put(l, s, Some(Slot(p, name, false, None)));
    PutCells(l, s, Some(Slot(p, name, false, None)));
    RefreshCells(m);
    hide Resettle, At, Put;
  }

  lemma PutCells(l: Lobby, s: nat, c: Option<Slot>)
    requires ValidSeat(l, s)
    ensures OnlyCells(l, Put(l, s, c)) && forall t: nat :: At(Put(l, s, c), t) == if t == s then c else At(l, t)
  {
  }

  lemma JoinStep(h: HubState, p: string, lid: string, name: Option<string>, random: string, s: nat)
    requires p in h.clients && h.clients[p].lobbyId == None && lid in h.lobbies
    requires JoinSeat(h.lobbies[lid]) == Some(s) && ValidSeat(h.lobbies[lid], s)
    ensures var l := h.lobbies[lid];
            var n := UniqueName(l, Named(h, p, name), p, random);
            DoJoin(h, p, lid, name, true, random)
            == HubState(h.clients[p := Client(n, Some(lid))], h.lobbies[lid := SeatJoiner(l, s, p, n)])
  {
    hide JoinSeat, UniqueName, SeatJoiner;
  }

  /** Anybody else who tries to join changes no room, and at most their own name. */
  lemma {:induction false} OtherJoinsSeatNobody(run: History, now: nat, p: string, lid: string, name: Option<string>,
                                                admitted: bool, random: string)
    requires var h := Run(run);
             || p !in h.clients || h.clients[p].lobbyId != None || lid !in h.lobbies || !admitted
             || forall s: nat :: !FirstFree(h.lobbies[lid], s)
    ensures var (h, h') := (Run(run), Step(Run(run), now, Join(p, lid, name, admitted, random)));
            && h'.lobbies == h.lobbies
            && h'.clients == if p in h.clients && h.clients[p].lobbyId == None
                             then h.clients[p := Client(Named(h, p, name), None)] else h.clients
  {
    RunInvariant(run);
    var h := Run(run);
    if p in h.clients && h.clients[p].lobbyId == None && lid in h.lobbies {
      var l := h.lobbies[lid];
      JoinSeatIsFirstFree(l);
      if JoinSeat(l).Some? {
        assert FirstFree(l, JoinSeat(l).value);
      }
      hide JoinSeat, UniqueName, SeatJoiner, Inv;
    }
  }

  // ----- going -----

  /** The room is gone, and with it the lobby id of everybody who was in it. */
  ghost predicate Dissolved(h: HubState, h': HubState, lid: string) {
    && h'.lobbies == h.lobbies - {lid} && h'.clients.Keys == h.clients.Keys
    && forall q :: q in h.clients ==>
         h'.clients[q] == if InRoom(h, q, lid) then Client(h.clients[q].displayName, None) else h.clients[q]
  }

  /** The guest is in no seat and no room; nobody else moved, and reports are dropped. */
  ghost predicate Departed(h: HubState, h': HubState, lid: string, p: string) {
    && OnlyRoom(h, h', lid) && OnlyCells(h.lobbies[lid], h'.lobbies[lid])
    && p in h.clients && h'.clients == h.clients[p := Client(h.clients[p].displayName, None)]
    && forall s: nat ::
         At(h'.lobbies[lid], s) ==
           var c := At(h.lobbies[lid], s);
           if c == None || c.value.playerId == p then None else Some(c.value.(path := None))
  }

  lemma {:induction false} DestroyDissolves(h: HubState, lid: string)
    requires Inv(h) && lid in h.lobbies
    ensures Dissolved(h, Destroy(h, lid), lid)
  {
    forall q | q in h.clients ensures SeatOf(h.lobbies[lid], q).Some? <==> InRoom(h, q, lid) {
      EvictedAreMembers(h, lid, q);
    }
    hide Inv, SeatOf;
  }

  lemma VacatedCells(l: Lobby, p: string)
    ensures var l' := ClearPaths(Vacate(l, p));
            && OnlyCells(l, l')
            && forall s: nat ::
                 At(l', s) ==
                   var c := At(l, s); if c == None || c.value.playerId == p then None else Some(c.value.(path := None))
  {
  }

  /** A leaving guest departs; a leaving host dissolves the room. */
  lemma {:induction false} LeaversGo(run: History, now: nat, p: string, lid: string)
    requires InRoom(Run(run), p, lid)
    ensures var (h, h') := (Run(run), Step(Run(run), now, Leave(p)));
            && lid in h.lobbies
            && if h.lobbies[lid].hostId == p then Dissolved(h, h', lid) else Departed(h, h', lid, p)
  {
    hide Inv, Run, DoLeave, Dissolved, Departed, WellShaped;
    RoomOfMember(run, p, lid);
    RunInvariant(run);
    LeaverGoes(Run(run), p, lid);
  }

  lemma LeaverGoes(h: HubState, p: string, lid: string)
    requires Inv(h) && InRoom(h, p, lid) && lid in h.lobbies
    ensures var h' := DoLeave(h, p);
            if h.lobbies[lid].hostId == p then Dissolved(h, h', lid) else Departed(h, h', lid, p)
  {
    if h.lobbies[lid].hostId == p {
      HostDissolves(h, p, lid);
    } else {
      VacatedCells(h.lobbies[lid], p);
      hide Inv, Vacate, ClearPaths, At, Destroy;
    }
  }

  lemma HostDissolves(h: HubState, p: string, lid: string)
    requires Inv(h) && InRoom(h, p, lid) && lid in h.lobbies && h.lobbies[lid].hostId == p
    ensures Dissolved(h, DoLeave(h, p), lid)
  {
    DestroyDissolves(h, lid);
    EvictedAreMembers(h, lid, p);
    hide Inv, SeatOf;
    var (l, h1) := (h.lobbies[lid], h.(clients := SetLobby(h.clients, p, None)));
    assert DoLeave(h, p) == Destroy(h1, lid);
    assert Evict(h1.clients, l) == Evict(h.clients, l);
  }

  /** A closed connection leaves, and then has no row. */
  lemma {:induction false} ClosedConnectionsGo(run: History, now: nat, p: string)
    ensures var (h, h', left) := (Run(run), Step(Run(run), now, Disconnect(p)), Step(Run(run), now, Leave(p)));
            h' == HubState(left.clients - {p}, left.lobbies)
  {
  }

  /** The host's close dissolves the room; nobody else's does. */
  lemma {:induction false} HostsClose(run: History, now: nat, p: string, lid: string)
    requires InRoom(Run(run), p, lid)
    ensures var (h, h') := (Run(run), Step(Run(run), now, Close(p)));
            && lid in h.lobbies
            && if h.lobbies[lid].hostId == p then Dissolved(h, h', lid) else h' == h
  {
    RoomOfMember(run, p, lid);
    RunInvariant(run);
    DestroyDissolves(Run(run), lid);
    hide Inv, Run, Destroy, Dissolved;
  }

  lemma VacatedSeat(l: Lobby, seat: nat)
    requires ValidSeat(l, seat)
    ensures var l' := Resettle(Put(l, seat, None));
            && OnlyCells(l, l')
            && forall s: nat :: At(l', s) == if s == seat then None else Refreshed(At(l, s), s, true)
  {
    PutCells(l, seat, None);
    RefreshCells(Put(l, seat, None));
    hide Put, Resettle;
  }

  /** Seat `seat` is empty, its occupant in no room, and the others are refreshed where they sit. */
  ghost predicate Unseated(h: HubState, h': HubState, lid: string, seat: nat) {
    && OnlyRoom(h, h', lid) && OnlyCells(h.lobbies[lid], h'.lobbies[lid])
    && (forall s: nat ::
          At(h'.lobbies[lid], s) == if s == seat then None else Refreshed(At(h.lobbies[lid], s), s, true))
    && At(h.lobbies[lid], seat) != None
    && var who := At(h.lobbies[lid], seat).value.playerId;
       who in h.clients && h'.clients == h.clients[who := Client(h.clients[who].displayName, None)]
  }

  lemma SeatUnseated(h: HubState, lid: string, seat: nat)
    requires Inv(h) && lid in h.lobbies && At(h.lobbies[lid], seat).Some?
    ensures var who := At(h.lobbies[lid], seat).value.playerId;
            Unseated(h, HubState(SetLobby(h.clients, who, None),
                                 h.lobbies[lid := Resettle(Put(h.lobbies[lid], seat, None))]), lid, seat)
  {
    VacatedSeat(h.lobbies[lid], seat);
    SitterHasRow(h, lid, seat);
    hide Inv, Resettle, Put, OnlyCells, Refreshed;
  }

  /** The host's kick empties an occupied seat that is not its own; any other kick does nothing. */
  lemma {:induction false} KicksEmptyTheSeat(run: History, now: nat, p: string, lid: string, seat: nat)
    requires InRoom(Run(run), p, lid)
    ensures var (h, h') := (Run(run), Step(Run(run), now, Kick(p, seat)));
            && lid in h.lobbies
            && var (l, c) := (h.lobbies[lid], At(h.lobbies[lid], seat));
               if l.hostId == p && c != None && c.value.playerId != p then Unseated(h, h', lid, seat) else h' == h
  {
    hide Inv, Run, Resettle, Put, At, SetLobby, Unseated, WellShaped;
    RoomOfMember(run, p, lid);
    RunInvariant(run);
    if At(Run(run).lobbies[lid], seat).Some? {
      SeatUnseated(Run(run), lid, seat);
    }
  }

  // ----- names -----

  /** A hello with a name renames its sender: freely outside a room, to a free form of the name inside one. */
  lemma {:induction false} HellosRename(run: History, now: nat, p: string, name: string, random: string)
    requires p in Run(run).clients && name != ""
    ensures var (h, h') := (Run(run), Step(Run(run), now, Hello(p, Some(name), random)));
            match h.clients[p].lobbyId
            case None => h' == HubState(h.clients[p := Client(name, None)], h.lobbies)
            case Some(lid) =>
              && OnlyRoom(h, h', lid) && OnlyCells(h.lobbies[lid], h'.lobbies[lid])
              && var n := UniqueName(h.lobbies[lid], name, p, random);
                 && h'.clients == h.clients[p := Client(n, Some(lid))]
                 && forall s: nat ::
                      At(h'.lobbies[lid], s) ==
                        var c := At(h.lobbies[lid], s);
                        if c != None && c.value.playerId == p then Some(c.value.(displayName := n)) else c
  {
    hide Run, UniqueName, Rename, At, OnlyCells, WellShaped, RoomOk;
    var h := Run(run);
    if h.clients[p].lobbyId.Some? {
      var lid := h.clients[p].lobbyId.value;
      RoomOfMember(run, p, lid);
      RunInvariant(run);
      RenamedCells(h.lobbies[lid], p, UniqueName(h.lobbies[lid], name, p, random));
      NamesLand(h.clients, p, name, UniqueName(h.lobbies[lid], name, p, random));
    }
    hide Inv;
  }

  lemma NamesLand(clients: map<string, Client>, p: string, name: string, n: string)
    requires p in clients && name != "" && clients[p].lobbyId.Some?
    ensures SetName(OfferName(clients, p, Some(name)), p, n) == clients[p := Client(n, clients[p].lobbyId)]
  {
  }

  lemma RenamedCells(l: Lobby, p: string, n: string)
    requires RoomOk(l)
    ensures var l' := Rename(l, p, n);
            && OnlyCells(l, l')
            && forall s: nat ::
                 At(l', s) ==
                   var c := At(l, s); if c != None && c.value.playerId == p then Some(c.value.(displayName := n)) else c
  {
    SeatOfIsAt(l, p);
    forall s: nat | At(l, s).Some? && At(l, s).value.playerId == p ensures SeatOf(l, p) == Some(s) {
      SeatOfMember(l, s, p);
    }
    if SeatOf(l, p).Some? {
      PutCells(l, SeatOf(l, p).value, RenameCell(p, n, At(l, SeatOf(l, p).value)));
    }
    hide At, Put, SeatOf, RoomOk;
  }

  /** A new connection has a row with its first name and no room; an old one is left alone. */
  lemma {:induction false} NewcomersHaveARow(run: History, now: nat, p: string, name: string)
    ensures var (h, h') := (Run(run), Step(Run(run), now, Connect(p, name)));
            && h'.lobbies == h.lobbies
            && h'.clients == if p in h.clients then h.clients else h.clients[p := Client(name, None)]
  {
  }

  // ----- opening a room -----

  /** A client in no room may open one, while there are fewer than 64: it sits alone in seat 0 and is the host. */
  lemma {:induction false} CreatorsHost(run: History, now: nat, p: string, lid: string, name: Option<string>,
                                        maxSlots: nat, gallery: bool, endpoint: string, raw: RawCaps)
    requires lid !in Run(run).lobbies
    ensures var (h, h') := (Run(run), Step(Run(run), now, Create(p, lid, name, maxSlots, gallery, endpoint, raw)));
            if p in h.clients && h.clients[p].lobbyId == None && |h.lobbies| < 64 then
              && lid in h'.lobbies && h'.lobbies == h.lobbies[lid := h'.lobbies[lid]]
              && h'.clients == h.clients[p := Client(Named(h, p, name), Some(lid))]
              && var l := h'.lobbies[lid];
                 && l.hostId == p && !l.started && l.hostEndpoint == endpoint
                 && l.caps == (if raw.Unusable? then None else Some(Caps("host", "ice")))
                 && |l.slots| == l.maxSlots == (if maxSlots < 2 then 2 else if maxSlots <= 8 then maxSlots else 8)
                 && |l.spectators| == (if gallery then 4 else 0)
                 && forall s: nat :: At(l, s) == if s == 0 then Some(Slot(p, Named(h, p, name), false, None)) else None
            else h' == h
  {
  }

  // ----- what members say -----

  /** One cell of the player table has changed, and nothing else. */
  ghost predicate CellSet(h: HubState, h': HubState, lid: string, s: nat, c: Slot) {
    && OnlyRoom(h, h', lid) && h'.clients == h.clients && OnlyCells(h.lobbies[lid], h'.lobbies[lid])
    && forall t: nat :: At(h'.lobbies[lid], t) == if t == s then Some(c) else At(h.lobbies[lid], t)
  }

  lemma {:induction false} SlotOfPlayer(run: History, lid: string, s: nat, p: string)
    requires lid in Run(run).lobbies && Sits(Run(run).lobbies[lid], s, p)
    ensures RoomOf(Run(run), p) == Some(lid) && At(Run(run).lobbies[lid], s).Some?
    ensures FirstSeated(Run(run).lobbies[lid].slots, p) == if s < 64 then Some(s) else None
  {
    SeatIs(run, lid, s, p);
    RoomOfMember(run, p, lid);
    assert ValidSeat(Run(run).lobbies[lid], s);
  }

  lemma SlotSet(h: HubState, lid: string, s: nat, c: Slot)
    requires lid in h.lobbies && s < 64 && s < |h.lobbies[lid].slots|
    ensures var l := h.lobbies[lid]; CellSet(h, WithRoom(h, lid, l.(slots := l.slots[s := Some(c)])), lid, s, c)
  {
  }

  /** Ready is a player's own flag; from the gallery it does nothing. */
  lemma {:induction false} ReadyIsOnesOwn(run: History, now: nat, p: string, lid: string, s: nat, ready: bool)
    requires lid in Run(run).lobbies && Sits(Run(run).lobbies[lid], s, p)
    ensures var (h, h') := (Run(run), Step(Run(run), now, SetReady(p, ready)));
            && At(h.lobbies[lid], s).Some?
            && if s < 64 then CellSet(h, h', lid, s, At(h.lobbies[lid], s).value.(ready := ready)) else h' == h
  {
    SlotOfPlayer(run, lid, s, p);
    if s < 64 {
      SlotSet(Run(run), lid, s, At(Run(run).lobbies[lid], s).value.(ready := ready));
    }
    hide Run, FirstSeated, CellSet;
  }

  /** A path report is stored with the player who sent it and the time it came; from the gallery it does nothing. */
  lemma {:induction false} ReportsAreStored(run: History, now: nat, p: string, lid: string, s: nat, kind: PathKind)
    requires lid in Run(run).lobbies && Sits(Run(run).lobbies[lid], s, p)
    ensures var (h, h') := (Run(run), Step(Run(run), now, Report(p, kind)));
            && At(h.lobbies[lid], s).Some?
            && if s < 64 then CellSet(h, h', lid, s, At(h.lobbies[lid], s).value.(path := Some(PathReport(kind, now))))
               else h' == h
  {
    hide Run, FirstSeated, CellSet;
    SlotOfPlayer(run, lid, s, p);
    if s < 64 {
      SlotSet(Run(run), lid, s, At(Run(run).lobbies[lid], s).value.(path := Some(PathReport(kind, now))));
    }
  }

  /**
   The host's new endpoint replaces the old one; unless the room runs over ICE, a changed
   one drops the players' reports, which were about the old one. The host's usable caps
   replace the room's. Nobody else's count.
  */
  lemma {:induction false} HostsSetUp(run: History, now: nat, p: string, lid: string, endpoint: string, raw: RawCaps)
    requires InRoom(Run(run), p, lid)
    ensures var (h, h') := (Run(run), Step(Run(run), now, SetEndpoint(p, endpoint)));
            && lid in h.lobbies
            && var l := h.lobbies[lid];
               if l.hostId == p && endpoint != "" then
                 && OnlyRoom(h, h', lid) && h'.clients == h.clients
                 && OnlyCells(l.(hostEndpoint := endpoint), h'.lobbies[lid])
                 && forall s: nat ::
                      At(h'.lobbies[lid], s) ==
                        var c := At(l, s);
                        if c != None && s < 64 && l.hostEndpoint != endpoint && l.caps != Some(Caps("host", "ice"))
                        then Some(c.value.(path := None)) else c
               else h' == h
    ensures var (h, h') := (Run(run), Step(Run(run), now, SetCaps(p, raw)));
            && lid in h.lobbies
            && h' == if h.lobbies[lid].hostId == p && !raw.Unusable?
                     then HubState(h.clients, h.lobbies[lid := h.lobbies[lid].(caps := Some(Caps("host", "ice")))])
                     else h
  {
    RoomOfMember(run, p, lid);
    hide Run;
  }

  /** A launch starts the match with the caps sent, or the room's, and with everybody at play un-readied. */
  lemma {:induction false} LaunchesStart(run: History, now: nat, lid: string, raw: RawCaps)
    requires lid in Run(run).lobbies
    ensures var (h, h', l) := (Run(run), Step(Run(run), now, Launch(lid, raw)), Run(run).lobbies[lid]);
            && OnlyRoom(h, h', lid) && h'.clients == h.clients
            && (forall s: nat :: At(h'.lobbies[lid], s) == Refreshed(At(l, s), s, false))
            && var caps := if raw.Unusable? then l.caps else Some(Caps("host", "ice"));
               OnlyCells(l.(started := true, caps := caps), h'.lobbies[lid])
  {
    var l := Run(run).lobbies[lid];
    RefreshCells(l.(started := true, caps := CapsFor(l, raw)));
    hide Run, UnreadyAll;
  }
}
