/**
 When a start is granted, and what becomes of it: the launch is a step of its own and
 checks nothing again, so some messages in between change who is in the match.
*/
module LobbyLaunch {
  import opened Lists
  import opened LobbyHub
  import opened LobbyPaths
  import opened LobbyTheorems
  import opened Seats
  import opened Wrappers

  /** A member at one seat may exchange it for one in the other table. */
  predicate Crosses(l: Lobby, from: nat, to: nat) {
    ValidSeat(l, from) && ValidSeat(l, to) && At(l, from).Some? && IsGallery(from) != IsGallery(to)
  }

  /** The messages that change a room's company, by the guards of their handlers. */
  predicate ChangesCompany(h: HubState, lid: string, e: Event)
    requires lid in h.lobbies
  {
    var l := h.lobbies[lid];
    match e
    case Join(p, to, _, admitted, _) =>
      to == lid && admitted && p in h.clients && h.clients[p].lobbyId.None? && JoinSeat(l).Some?
    case Leave(p) => RoomOf(h, p) == Some(lid)
    case Disconnect(p) => RoomOf(h, p) == Some(lid)
    case Close(p) => RoomHostedBy(h, p) == Some(lid)
    case Kick(p, seat) => RoomHostedBy(h, p) == Some(lid) && At(l, seat).Some? && At(l, seat).value.playerId != l.hostId
    case Move(p, from, to) => RoomHostedBy(h, p) == Some(lid) && Crosses(l, from, to)
    case SeatMove(p, to) =>
      RoomOf(h, p) == Some(lid) && SeatOf(l, p).Some? && Crosses(l, SeatOf(l, p).value, to) && At(l, to).None?
    case SwapAnswer(p, asker, accept) =>
      && RoomOf(h, p) == Some(lid) && asker != "" && accept
      && SeatOf(l, p).Some? && SeatOf(l, asker).Some? && Crosses(l, SeatOf(l, p).value, SeatOf(l, asker).value)
    case _ => false
  }

  /** The room is still there, with the same people at play and the same in the gallery. */
  ghost predicate KeepsCompany(h: HubState, h': HubState, lid: string)
    requires lid in h.lobbies
  {
    lid in h'.lobbies && SameCompany(h.lobbies[lid], h'.lobbies[lid])
  }

  // ----- what changes it -----

  predicate Points(h: HubState, p: string, lid: string) {
    p in h.clients && h.clients[p].lobbyId == Some(lid)
  }

  /** Being at play or in the gallery of a room is what a client's row says. */
  lemma RowTells(h: HubState, lid: string, p: string)
    requires Inv(h) && lid in h.lobbies
    ensures Plays(h.lobbies[lid], p) || Watches(h.lobbies[lid], p) <==> Points(h, p, lid)
  {
    var l := h.lobbies[lid];
    PlaysIsLowSeat(l, p);
    if s: nat :| At(l, s).Some? && At(l, s).value.playerId == p {
      assert WhoAt(l, s).Some?;
      SitterHasRow(h, lid, s);
    }
    if p in h.clients && h.clients[p].lobbyId == Some(lid) {
      RowMeansSeat(h, p);
      var s: nat :| WhoAt(l, s) == Some(Person(p, h.clients[p].displayName));
      assert At(l, s).Some? && At(l, s).value.playerId == p;
    }
  }

  /** In a sound room a seat tells which table its occupant is in. */
  lemma SeatTells(l: Lobby, s: nat, p: string)
    requires RoomOk(l) && Sits(l, s, p)
    ensures (Plays(l, p) <==> !IsGallery(s)) && (Watches(l, p) <==> IsGallery(s))
  {
    PlaysIsLowSeat(l, p);
    assert At(l, s).Some? && At(l, s).value.playerId == p;
    forall t: nat | At(l, t).Some? && At(l, t).value.playerId == p ensures t == s {
      assert WhoAt(l, t).Some? && WhoAt(l, s).Some?;
    }
  }

  /** A row that comes to name the room, or ceases to, is a change of its company. */
  lemma RowChanges(h: HubState, h': HubState, lid: string, p: string)
    requires Inv(h) && Inv(h') && lid in h.lobbies
    requires Points(h, p, lid) != Points(h', p, lid)
    ensures !KeepsCompany(h, h', lid)
  {
    RowTells(h, lid, p);
    if lid in h'.lobbies {
      RowTells(h', lid, p);
    }
  }

  lemma JoinChanges(h: HubState, now: nat, lid: string, e: Event)
    requires Inv(h) && lid in h.lobbies && e.Join? && ChangesCompany(h, lid, e)
    ensures !KeepsCompany(h, Step(h, now, e), lid)
  {
    StepKeeps(h, now, e);
    hide UniqueName, JoinSeat, SeatJoiner, KeepsCompany;
    assert ValidSeat(h.lobbies[lid], JoinSeat(h.lobbies[lid]).value);
    hide Inv;
    RowChanges(h, Step(h, now, e), lid, e.player);
  }

  lemma LeaveChanges(h: HubState, now: nat, lid: string, e: Event)
    requires Inv(h) && lid in h.lobbies && (e.Leave? || e.Disconnect?) && ChangesCompany(h, lid, e)
    ensures !KeepsCompany(h, Step(h, now, e), lid)
  {
    StepKeeps(h, now, e);
    LeaveKeeps(h, e.player);
    hide Inv, KeepsCompany, DoLeave;
    RowChanges(h, Step(h, now, e), lid, e.player);
  }

  lemma KickChanges(h: HubState, now: nat, lid: string, e: Event)
    requires Inv(h) && lid in h.lobbies && e.Kick? && ChangesCompany(h, lid, e)
    ensures !KeepsCompany(h, Step(h, now, e), lid)
  {
    StepKeeps(h, now, e);
    assert WhoAt(h.lobbies[lid], e.seat).Some?;
    SitterHasRow(h, lid, e.seat);
    hide Inv, KeepsCompany, Resettle;
    RowChanges(h, Step(h, now, e), lid, At(h.lobbies[lid], e.seat).value.playerId);
  }

  lemma CrossingChanges(l: Lobby, l': Lobby, a: nat, b: nat)
    requires RoomOk(l) && RoomOk(l') && Crosses(l, a, b)
    requires forall s: nat :: WhoAt(l', s) == WhoAt(l, Swapped(a, b, s))
    ensures !SameCompany(l, l')
  {
    var p := At(l, a).value.playerId;
    assert Sits(l, a, p) && Sits(l', b, p);
    SeatTells(l, a, p);
    SeatTells(l', b, p);
  }

  /** The two seats a rearrangement asks to exchange. */
  function Asked(l: Lobby, e: Event): (nat, nat)
    requires e.Move? || (e.SeatMove? && SeatOf(l, e.player).Some?)
             || (e.SwapAnswer? && SeatOf(l, e.player).Some? && SeatOf(l, e.asker).Some?)
  {
    match e
    case Move(_, from, to) => (from, to)
    case SeatMove(p, to) => (SeatOf(l, p).value, to)
    case SwapAnswer(p, asker, _) => (SeatOf(l, p).value, SeatOf(l, asker).value)
  }

  lemma RearrangingChanges(h: HubState, now: nat, lid: string, e: Event)
    requires Inv(h) && lid in h.lobbies && (e.Move? || e.SeatMove? || e.SwapAnswer?) && ChangesCompany(h, lid, e)
    ensures !KeepsCompany(h, Step(h, now, e), lid)
  {
    hide Resettle, Transpose, AfterSwap, UnreadyAll;
    var l := h.lobbies[lid];
    var (a, b) := Asked(l, e);
    StepKeeps(h, now, e);
    TransposeWho(l, a, b);
    ResettledWho(Transpose(l, a, b));
    AfterSwapWho(Transpose(l, a, b), a, b);
    assert RoomOk(l) && RoomOk(Step(h, now, e).lobbies[lid]);
    hide Inv, RoomOk;
    CrossingChanges(l, Step(h, now, e).lobbies[lid], a, b);
  }

  lemma AfterSwapWho(l: Lobby, a: nat, b: nat)
    ensures forall s: nat :: WhoAt(AfterSwap(l, a, b), s) == WhoAt(l, s)
  {
    hide Resettle;
    ResettledWho(l);
  }

  lemma StepChanges(h: HubState, now: nat, lid: string, e: Event)
    requires Inv(h) && lid in h.lobbies && ChangesCompany(h, lid, e)
    ensures !KeepsCompany(h, Step(h, now, e), lid)
  {
    match e
    case Join(_, _, _, _, _) => JoinChanges(h, now, lid, e);
    case Leave(_) => LeaveChanges(h, now, lid, e);
    case Disconnect(_) => LeaveChanges(h, now, lid, e);
    case Kick(_, _) => KickChanges(h, now, lid, e);
    case Close(_) =>
    case _ => RearrangingChanges(h, now, lid, e);
  }

  // ----- what leaves it alone -----

  lemma SameRoomKeeps(h: HubState, h': HubState, lid: string)
    requires lid in h.lobbies && lid in h'.lobbies && h'.lobbies[lid] == h.lobbies[lid]
    ensures KeepsCompany(h, h', lid)
  {
  }

  /** Editing seats without touching who sits in them. */
  lemma SameSittersKeep(h: HubState, h': HubState, lid: string)
    requires lid in h.lobbies && lid in h'.lobbies
    requires var (l, l') := (h.lobbies[lid], h'.lobbies[lid]);
             && |l'.slots| == |l.slots| && |l'.spectators| == |l.spectators|
             && (forall k :: 0 <= k < |l.slots| ==> SameOccupant(l.slots[k], l'.slots[k]))
             && (forall k :: 0 <= k < |l.spectators| ==> SameOccupant(l.spectators[k], l'.spectators[k]))
    ensures KeepsCompany(h, h', lid)
  {
    SameCellsSameCompany(h.lobbies[lid], h'.lobbies[lid]);
  }

  lemma OthersKeep(h: HubState, now: nat, lid: string, e: Event)
    requires lid in h.lobbies && (e.Connect? || e.Create?)
    ensures KeepsCompany(h, Step(h, now, e), lid)
  {
    hide NewRoom;
    SameRoomKeeps(h, Step(h, now, e), lid);
  }

  lemma CellKeeps(h: HubState, now: nat, lid: string, e: Event)
    requires lid in h.lobbies && (e.SetReady? || e.Report?)
    ensures KeepsCompany(h, Step(h, now, e), lid)
  {
    hide KeepsCompany;
    var h' := Step(h, now, e);
    if h'.lobbies[lid] == h.lobbies[lid] {
      SameRoomKeeps(h, h', lid);
    } else {
      SameSittersKeep(h, h', lid);
    }
  }

  lemma SettingsKeep(h: HubState, now: nat, lid: string, e: Event)
    requires lid in h.lobbies && (e.SetEndpoint? || e.SetCaps? || e.Launch?)
    ensures KeepsCompany(h, Step(h, now, e), lid)
  {
    hide KeepsCompany;
    var h' := Step(h, now, e);
    if h'.lobbies[lid] == h.lobbies[lid] {
      SameRoomKeeps(h, h', lid);
    } else {
      SameSittersKeep(h, h', lid);
    }
  }

  lemma HelloKeepsCompany(h: HubState, now: nat, lid: string, e: Event)
    requires Inv(h) && lid in h.lobbies && e.Hello?
    ensures KeepsCompany(h, Step(h, now, e), lid)
  {
    hide UniqueName, KeepsCompany, SeatOf;
    var h' := Step(h, now, e);
    if h'.lobbies[lid] == h.lobbies[lid] {
      SameRoomKeeps(h, h', lid);
    } else {
      SameSittersKeep(h, h', lid);
    }
  }

  /** An exchange inside one table. */
  lemma InsideKeeps(l: Lobby, a: nat, b: nat)
    requires WellShaped(l) && ValidSeat(l, a) && ValidSeat(l, b) && IsGallery(a) == IsGallery(b)
    ensures SameCompany(l, Resettle(Transpose(l, a, b))) && SameCompany(l, UnreadyAll(Transpose(l, a, b)))
  {
    var t := Transpose(l, a, b);
    SwapAccounted(l, a, b, 0, Leave(""));
    SameCellsSameCompany(t, UnreadyAll(t));
    SameCellsSameCompany(t, Resettle(t));
  }

  lemma RearrangingKeepsCompany(h: HubState, now: nat, lid: string, e: Event)
    requires Inv(h) && lid in h.lobbies && (e.Move? || e.SeatMove? || e.SwapAnswer?) && !ChangesCompany(h, lid, e)
    ensures KeepsCompany(h, Step(h, now, e), lid)
  {
    hide Resettle, Transpose, UnreadyAll;
    var (l, h') := (h.lobbies[lid], Step(h, now, e));
    if h'.lobbies[lid] != l {
      var (a, b) := Asked(l, e);
      SeatOfIsAt(l, e.player);
      InsideKeeps(l, a, b);
    }
  }

  lemma DeparturesKeep(h: HubState, now: nat, lid: string, e: Event)
    requires Inv(h) && lid in h.lobbies && !ChangesCompany(h, lid, e)
    requires e.Join? || e.Leave? || e.Disconnect? || e.Kick? || e.Close?
    ensures KeepsCompany(h, Step(h, now, e), lid)
  {
    hide UniqueName, SeatJoiner, Resettle, Vacate, ClearPaths, Evict;
    if (e.Leave? || e.Disconnect?) && e.player in h.clients && h.clients[e.player].lobbyId.Some? {
      RowMeansSeat(h, e.player);
    }
    hide Inv;
    SameRoomKeeps(h, Step(h, now, e), lid);
  }

  lemma StepKeepsCompany(h: HubState, now: nat, lid: string, e: Event)
    requires Inv(h) && lid in h.lobbies && !ChangesCompany(h, lid, e)
    ensures KeepsCompany(h, Step(h, now, e), lid)
  {
    hide ChangesCompany, KeepsCompany, Step, Inv;
    match e
    case Hello(_, _, _) => HelloKeepsCompany(h, now, lid, e);
    case Move(_, _, _) => RearrangingKeepsCompany(h, now, lid, e);
    case SeatMove(_, _) => RearrangingKeepsCompany(h, now, lid, e);
    case SwapAnswer(_, _, _) => RearrangingKeepsCompany(h, now, lid, e);
    case Join(_, _, _, _, _) => DeparturesKeep(h, now, lid, e);
    case Leave(_) => DeparturesKeep(h, now, lid, e);
    case Disconnect(_) => DeparturesKeep(h, now, lid, e);
    case Kick(_, _) => DeparturesKeep(h, now, lid, e);
    case Close(_) => DeparturesKeep(h, now, lid, e);
    case Connect(_, _) => OthersKeep(h, now, lid, e);
    case Create(_, _, _, _, _, _, _) => OthersKeep(h, now, lid, e);
    case SetReady(_, _) => CellKeeps(h, now, lid, e);
    case Report(_, _) => CellKeeps(h, now, lid, e);
    case _ => SettingsKeep(h, now, lid, e);
  }

  // ----- from the grant to the launch -----

  /** In every reachable state, a message changes a room's company exactly when its handler's guards say so. */
  lemma {:induction false} CompanyChangesExactly(run: History, lid: string, now: nat, e: Event)
    requires lid in Run(run).lobbies
    ensures KeepsCompany(Run(run), Step(Run(run), now, e), lid) <==> !ChangesCompany(Run(run), lid, e)
  {
    RunInvariant(run);
    hide ChangesCompany, KeepsCompany, Step, Inv;
    if ChangesCompany(Run(run), lid, e) {
      StepChanges(Run(run), now, lid, e);
    } else {
      StepKeepsCompany(Run(run), now, lid, e);
    }
  }

  /** The room has been launched, with exactly the company of an earlier state. */
  ghost predicate LaunchedWith(h: HubState, lid: string, company: Lobby) {
    lid in h.lobbies && h.lobbies[lid].started && SameCompany(company, h.lobbies[lid])
  }

  lemma LaunchKeepsCompany(h: HubState, lid: string, raw: RawCaps, company: Lobby)
    ensures LaunchedWith(DoLaunch(h, lid, raw), lid, company) <==>
              lid in h.lobbies && SameCompany(company, h.lobbies[lid])
  {
    if lid in h.lobbies {
      SettingsKeep(h, 0, lid, Launch(lid, raw));
    }
  }

  lemma {:induction false} MessageThenLaunch(run: History, lid: string, raw: RawCaps, now: nat, e: Event, later: nat)
    requires lid in Run(run).lobbies
    ensures LaunchedWith(Run(run + [(now, e), (later, Launch(lid, raw))]), lid, Run(run).lobbies[lid])
            <==> !ChangesCompany(Run(run), lid, e)
  {
    var (r1, r2) := (run + [(now, e)], run + [(now, e), (later, Launch(lid, raw))]);
    assert r1[..|r1| - 1] == run && r2[..|r2| - 1] == r1;
    var mid := Step(Run(run), now, e);
    assert Run(r1) == mid && Run(r2) == DoLaunch(mid, lid, raw);
    CompanyChangesExactly(run, lid, now, e);
    LaunchKeepsCompany(mid, lid, raw, Run(run).lobbies[lid]);
    hide ChangesCompany, Step, DoLaunch, SameCompany;
  }

  /**
   With one message between a granted start and its launch, the match starts with exactly
   the company it was granted for if and only if the message is not one of those.
  */
  lemma {:induction false} OneMessageBetween(run: History, host: string, lid: string, t: Transport, raw: RawCaps,
                                             granted: nat, now: nat, e: Event, later: nat)
    requires StartAsked(Run(run), host, raw, granted) == Some((lid, t))
    ensures LaunchedWith(Run(run + [(now, e), (later, Launch(lid, raw))]), lid, Run(run).lobbies[lid])
            <==> !ChangesCompany(Run(run), lid, e)
  {
    MessageThenLaunch(run, lid, raw, now, e, later);
    hide ChangesCompany, LaunchedWith, Run;
  }

  /** None of the messages from number `k` on changes the company. */
  ghost predicate Undisturbed(run: History, k: nat, lid: string) {
    forall j :: k <= j < |run| && lid in Run(run[..j]).lobbies ==> !ChangesCompany(Run(run[..j]), lid, run[j].1)
  }

  /** Undisturbed, a room keeps its company however many messages come. */
  lemma {:induction false} UndisturbedKeeps(run: History, k: nat, lid: string)
    requires k <= |run| && lid in Run(run[..k]).lobbies && Undisturbed(run, k, lid)
    ensures lid in Run(run).lobbies && SameCompany(Run(run[..k]).lobbies[lid], Run(run).lobbies[lid])
    decreases |run|
  {
    hide ChangesCompany, Step;
    if k == |run| {
      assert run[..k] == run;
    } else {
      var past := run[..|run| - 1];
      forall j | k <= j < |past| ensures past[..j] == run[..j] {}
      assert past[..k] == run[..k] && Undisturbed(past, k, lid);
      UndisturbedKeeps(past, k, lid);
      CompanyChangesExactly(past, lid, run[|run| - 1].0, run[|run| - 1].1);
    }
  }

  /** A start granted after `k` messages and undisturbed since launches with exactly the company it was granted for. */
  lemma {:induction false} LaunchedAsGranted(run: History, k: nat, host: string, lid: string, t: Transport,
                                             raw: RawCaps, granted: nat, later: nat)
    requires k <= |run| && StartAsked(Run(run[..k]), host, raw, granted) == Some((lid, t)) && Undisturbed(run, k, lid)
    ensures LaunchedWith(Run(run + [(later, Launch(lid, raw))]), lid, Run(run[..k]).lobbies[lid])
  {
    var r1 := run + [(later, Launch(lid, raw))];
    assert r1[..|r1| - 1] == run;
    UndisturbedKeeps(run, k, lid);
    LaunchKeepsCompany(Run(run), lid, raw, Run(run[..k]).lobbies[lid]);
    assert Run(r1) == DoLaunch(Run(run), lid, raw);
    hide ChangesCompany, DoLaunch;
  }

  // ----- when a start is granted at all -----

  /** Every room's caps, if it has any, ask for the host relay over ICE. */
  ghost predicate OverIce(h: HubState) {
    forall lid :: lid in h.lobbies ==> h.lobbies[lid].caps.None? || h.lobbies[lid].caps == Some(Caps("host", "ice"))
  }

  lemma SeatingKeepsIce(h: HubState, now: nat, e: Event)
    requires OverIce(h) && (e.Connect? || e.Hello? || e.Create? || e.Join? || e.Leave? || e.Disconnect?)
    ensures OverIce(Step(h, now, e))
  {
    hide UniqueName, JoinSeat, SeatOf, FirstSeated, At, ValidSeat, WantsHostRelay, MapSeq;
  }

  lemma RoomEditKeepsIce(h: HubState, now: nat, e: Event)
    requires OverIce(h) && !(e.Connect? || e.Hello? || e.Create? || e.Join? || e.Leave? || e.Disconnect?)
    ensures OverIce(Step(h, now, e))
  {
    hide SeatOf, FirstSeated, At, ValidSeat, WantsHostRelay, MapSeq;
  }

  lemma {:induction false} RoomsStayOverIce(run: History)
    ensures OverIce(Run(run))
    decreases |run|
  {
    if run != [] {
      var past := run[..|run| - 1];
      RoomsStayOverIce(past);
      hide Step, OverIce;
      var (now, e) := run[|run| - 1];
      if e.Connect? || e.Hello? || e.Create? || e.Join? || e.Leave? || e.Disconnect? {
        SeatingKeepsIce(Run(past), now, e);
      } else {
        RoomEditKeepsIce(Run(past), now, e);
      }
    }
  }

  /**
   In every reachable state a room may start exactly when it has two players or more,
   nobody watches, and there are caps unless exactly two play; and then over the host
   relay exactly when there are caps and, of two players, the guest has proven its path.
  */
  lemma {:induction false} StartsExactly(run: History, lid: string, raw: RawCaps, now: nat)
    requires lid in Run(run).lobbies
    ensures var l := Run(run).lobbies[lid];
            var (players, v) := (PlayerCount(l), StartVerdict(l, raw, now));
            && (v.Ok? <==>
                  2 <= players && SpectatorCount(l) == 0 && (players == 2 || CapsFor(l, raw).Some?))
            && (v.Ok? ==>
                  (v.value == HostRelay <==>
                     && CapsFor(l, raw).Some?
                     && (2 < players
                         || forall s: nat :: s < 64 && At(l, s) != None && At(l, s).value.playerId != l.hostId ==>
                              DirectLately(At(l, s).value.path, now))))
  {
    RoomsStayOverIce(run);
    var l := Run(run).lobbies[lid];
    assert CapsFor(l, raw).Some? ==> ViaIce(CapsFor(l, raw));
    RunInvariant(run);
    AllProvenMeans(l, now);
    hide AllProven, DirectLately, Inv;
  }

  /** A direct path, reported at most two minutes ago. */
  predicate DirectLately(path: Option<PathReport>, now: nat) {
    path.Some? && path.value.kind == Direct && now <= path.value.at + 120_000
  }

  lemma AllProvenMeans(l: Lobby, now: nat)
    requires WellShaped(l) && l.relayHostId == ""
    ensures AllProven(l, now) <==>
              forall s: nat :: s < 64 && At(l, s) != None && At(l, s).value.playerId != l.hostId ==>
                DirectLately(At(l, s).value.path, now)
  {
    forall k | 0 <= k < |l.slots| ensures At(l, k) == l.slots[k] {}
    if forall s: nat :: s < 64 && At(l, s) != None && At(l, s).value.playerId != l.hostId ==>
         DirectLately(At(l, s).value.path, now) {
      forall k | 0 <= k < |l.slots| && l.slots[k].Some? && l.slots[k].value.playerId != l.hostId
        ensures Proven(l.slots[k].value, now)
      {
        assert At(l, k) == l.slots[k];
      }
    }
  }
}
