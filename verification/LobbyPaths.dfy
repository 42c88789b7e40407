/**
 A path report is about the people seated when it was sent: every change of a room's
 people throws the reports away, so a report that is still there was sent to exactly
 the present company.
*/
module LobbyPaths {
  import opened Lists
  import opened LobbyHub
  import opened LobbyTheorems
  import opened Seats
  import opened Wrappers

  // ----- who plays, who watches -----

  ghost predicate Plays(l: Lobby, p: string) {
    exists k: nat :: k < |l.slots| && l.slots[k].Some? && l.slots[k].value.playerId == p
  }

  ghost predicate Watches(l: Lobby, p: string) {
    exists k: nat :: k < |l.spectators| && l.spectators[k].Some? && l.spectators[k].value.playerId == p
  }

  /** The same people at play and the same people in the gallery, in whatever seats. */
  ghost predicate SameCompany(l: Lobby, l': Lobby) {
    forall p :: (Plays(l', p) <==> Plays(l, p)) && (Watches(l', p) <==> Watches(l, p))
  }

  ghost predicate HasReport(l: Lobby, p: string, r: PathReport) {
    exists s: nat :: At(l, s).Some? && At(l, s).value.playerId == p && At(l, s).value.path == Some(r)
  }

  ghost predicate NoReports(l: Lobby) {
    forall p, r :: !HasReport(l, p, r)
  }

  /** Same company, and no report that was not there before or sent just now. */
  ghost predicate Accounted(l: Lobby, l': Lobby, now: nat, e: Event) {
    && SameCompany(l, l')
    && forall p, r :: HasReport(l', p, r) ==> HasReport(l, p, r) || (e == Report(p, r.kind) && r.at == now)
  }

  predicate SameTables(l: Lobby, l': Lobby) {
    |l'.slots| == |l.slots| && |l'.spectators| == |l.spectators| && l'.maxSlots == l.maxSlots && l'.hostId == l.hostId
  }

  /** What one message does to a room that is there before and after. */
  ghost predicate Fate(l: Lobby, l': Lobby, now: nat, e: Event) {
    SameTables(l, l') && (NoReports(l') || Accounted(l, l', now, e))
  }

  // ----- edits of one room -----

  lemma ClearedHasNone(l: Lobby)
    ensures NoReports(ClearPaths(l)) && SameTables(l, ClearPaths(l))
  {
  }

  lemma ResettledHasNone(l: Lobby)
    ensures NoReports(Resettle(l)) && SameTables(l, Resettle(l))
  {
  }

  /** Editing cells in place, without touching who sits in them, keeps the company. */
  lemma SameCellsSameCompany(l: Lobby, l': Lobby)
    requires |l'.slots| == |l.slots| && |l'.spectators| == |l.spectators|
    requires forall k :: 0 <= k < |l.slots| ==> SameOccupant(l.slots[k], l'.slots[k])
    requires forall k :: 0 <= k < |l.spectators| ==> SameOccupant(l.spectators[k], l'.spectators[k])
    ensures SameCompany(l, l')
  {
  }

  predicate SameOccupant(c: Option<Slot>, c': Option<Slot>) {
    c.Some? == c'.Some? && (c.Some? ==> c'.value.playerId == c.value.playerId)
  }

  lemma UnreadyAccounted(l: Lobby, now: nat, e: Event)
    ensures Accounted(l, UnreadyAll(l), now, e)
  {
    var l' := UnreadyAll(l);
    SameCellsSameCompany(l, l');
    forall p, r | HasReport(l', p, r) ensures HasReport(l, p, r) {
      var s: nat :| At(l', s).Some? && At(l', s).value.playerId == p && At(l', s).value.path == Some(r);
      assert At(l, s).value.path == Some(r);
    }
  }

  /** A swap inside one table. */
  lemma SwapAccounted(l: Lobby, a: nat, b: nat, now: nat, e: Event)
    requires ValidSeat(l, a) && ValidSeat(l, b) && IsGallery(a) == IsGallery(b) && WellShaped(l)
    ensures Accounted(l, Transpose(l, a, b), now, e)
  {
    var l' := Transpose(l, a, b);
    TransposeMoves(l, a, b);
    forall p ensures (Plays(l', p) <==> Plays(l, p)) && (Watches(l', p) <==> Watches(l, p)) {
      SwapSameCompany(l, a, b, p);
    }
    forall p, r | HasReport(l', p, r) ensures HasReport(l, p, r) {
      var s: nat :| At(l', s).Some? && At(l', s).value.playerId == p && At(l', s).value.path == Some(r);
      assert At(l, Swapped(a, b, s)).value.path == Some(r);
    }
  }

  lemma PlaysIsLowSeat(l: Lobby, p: string)
    requires WellShaped(l)
    ensures Plays(l, p) <==> exists s: nat :: !IsGallery(s) && At(l, s).Some? && At(l, s).value.playerId == p
    ensures Watches(l, p) <==> exists s: nat :: IsGallery(s) && At(l, s).Some? && At(l, s).value.playerId == p
  {
    if Plays(l, p) {
      var k: nat :| k < |l.slots| && l.slots[k].Some? && l.slots[k].value.playerId == p;
      assert At(l, k) == l.slots[k];
    }
    if Watches(l, p) {
      var k: nat :| k < |l.spectators| && l.spectators[k].Some? && l.spectators[k].value.playerId == p;
      assert At(l, SPECTATOR_SLOT_BASE + k) == l.spectators[k];
    }
  }

  lemma SwapSameCompany(l: Lobby, a: nat, b: nat, p: string)
    requires ValidSeat(l, a) && ValidSeat(l, b) && IsGallery(a) == IsGallery(b) && WellShaped(l)
    ensures var l' := Transpose(l, a, b);
            (Plays(l', p) <==> Plays(l, p)) && (Watches(l', p) <==> Watches(l, p))
  {
    var l' := Transpose(l, a, b);
    TransposeMoves(l, a, b);
    PlaysIsLowSeat(l, p);
    PlaysIsLowSeat(l', p);
    forall s: nat ensures At(l, s) == At(l', Swapped(a, b, s)) && IsGallery(s) == IsGallery(Swapped(a, b, s)) {}
  }

  lemma AccountedTwice(l: Lobby, m: Lobby, l': Lobby, now: nat, e: Event)
    requires Accounted(l, m, now, e) && Accounted(m, l', now, e)
    ensures Accounted(l, l', now, e)
  {
  }

  lemma AfterSwapFate(l: Lobby, a: nat, b: nat, now: nat, e: Event)
    requires ValidSeat(l, a) && ValidSeat(l, b) && WellShaped(l)
    ensures Fate(l, AfterSwap(Transpose(l, a, b), a, b), now, e)
  {
    var t := Transpose(l, a, b);
    if IsGallery(a) != IsGallery(b) {
      ResettledHasNone(t);
    } else {
      SwapAccounted(l, a, b, now, e);
      UnreadyAccounted(t, now, e);
      AccountedTwice(l, t, UnreadyAll(t), now, e);
    }
  }

  lemma RenameAccounted(l: Lobby, player: string, name: string, now: nat, e: Event)
    requires WellShaped(l)
    ensures Fate(l, Rename(l, player, name), now, e)
  {
    var l' := Rename(l, player, name);
    var seat := SeatOf(l, player);
    if seat.Some? && ValidSeat(l, seat.value) {
      CellRenameAccounted(l, seat.value, RenameCell(player, name, At(l, seat.value)), now, e);
    } else {
      SameSeatsAccounted(l, l', now, e);
    }
  }

  lemma CellRenameAccounted(l: Lobby, seat: nat, c: Option<Slot>, now: nat, e: Event)
    requires WellShaped(l) && ValidSeat(l, seat) && SameOccupant(At(l, seat), c)
    requires c.Some? ==> c.value.path == At(l, seat).value.path
    ensures Fate(l, Put(l, seat, c), now, e)
  {
    var l' := Put(l, seat, c);
    SameCellsSameCompany(l, l');
    forall p, r | HasReport(l', p, r) ensures HasReport(l, p, r) {
      var s: nat :| At(l', s).Some? && At(l', s).value.playerId == p && At(l', s).value.path == Some(r);
      assert s != seat ==> At(l, s) == At(l', s);
    }
  }

  /** One player cell edited: its report may become the one just sent. */
  lemma CellEditAccounted(l: Lobby, i: nat, s: Slot, now: nat, e: Event)
    requires i < |l.slots| && l.slots[i].Some? && s.playerId == l.slots[i].value.playerId && WellShaped(l)
    requires s.path == l.slots[i].value.path
             || (s.path.Some? && s.path.value.at == now && e == Report(s.playerId, s.path.value.kind))
    ensures Fate(l, l.(slots := l.slots[i := Some(s)]), now, e)
  {
    var l' := l.(slots := l.slots[i := Some(s)]);
    SameCellsSameCompany(l, l');
    forall p, r | HasReport(l', p, r) ensures HasReport(l, p, r) || (e == Report(p, r.kind) && r.at == now) {
      var t: nat :| At(l', t).Some? && At(l', t).value.playerId == p && At(l', t).value.path == Some(r);
      assert t != i ==> At(l, t) == At(l', t);
      assert At(l, i) == l.slots[i];
    }
  }

  lemma SameSeatsAccounted(l: Lobby, l': Lobby, now: nat, e: Event)
    requires l'.slots == l.slots && l'.spectators == l.spectators
    ensures Accounted(l, l', now, e)
  {
    forall s: nat ensures At(l', s) == At(l, s) {}
  }

  lemma ClearSlotsAccounted(l: Lobby, now: nat, e: Event)
    ensures Accounted(l, l.(slots := MapSeq(l.slots, ClearCell)), now, e)
  {
    var l' := l.(slots := MapSeq(l.slots, ClearCell));
    SameCellsSameCompany(l, l');
    forall p, r | HasReport(l', p, r) ensures HasReport(l, p, r) {
      var s: nat :| At(l', s).Some? && At(l', s).value.playerId == p && At(l', s).value.path == Some(r);
      assert At(l, s) == At(l', s);
    }
  }

  // ----- each handler, on one room -----

  /** What a handler does to one room that survives it. */
  ghost predicate RoomFate(h: HubState, h': HubState, lid: string, now: nat, e: Event) {
    lid in h.lobbies && lid in h'.lobbies ==> Fate(h.lobbies[lid], h'.lobbies[lid], now, e)
  }

  lemma UntouchedFate(h: HubState, h': HubState, lid: string, now: nat, e: Event)
    requires lid in h.lobbies && lid in h'.lobbies ==> h'.lobbies[lid] == h.lobbies[lid]
    ensures RoomFate(h, h', lid, now, e)
  {
  }

  lemma HelloFate(h: HubState, lid: string, now: nat, e: Event)
    requires Inv(h) && e.Hello?
    ensures RoomFate(h, Step(h, now, e), lid, now, e)
  {
    hide UniqueName;
    var h' := Step(h, now, e);
    if RoomOf(h, e.player) == Some(lid) && h'.lobbies != h.lobbies {
      RenameAccounted(h.lobbies[lid], e.player, UniqueName(h.lobbies[lid], e.name.value, e.player, e.random), now, e);
    } else {
      UntouchedFate(h, h', lid, now, e);
    }
  }

  lemma JoinFate(h: HubState, lid: string, now: nat, e: Event)
    requires Inv(h) && e.Join?
    ensures RoomFate(h, Step(h, now, e), lid, now, e)
  {
    hide UniqueName, Resettle;
    var h' := Step(h, now, e);
    if e.lid == lid && h'.lobbies != h.lobbies {
      var l := h.lobbies[lid];
      var unique := UniqueName(l, OfferName(h.clients, e.player, e.name)[e.player].displayName, e.player, e.random);
      ResettledHasNone(Put(l, JoinSeat(l).value, Some(Slot(e.player, unique, false, None))));
    } else {
      UntouchedFate(h, h', lid, now, e);
    }
  }

  lemma LeaveFate(h: HubState, player: string, lid: string, now: nat, e: Event)
    requires Inv(h)
    ensures RoomFate(h, DoLeave(h, player), lid, now, e)
  {
    var h' := DoLeave(h, player);
    if lid in h.lobbies && lid in h'.lobbies && player in h.clients && h.clients[player].lobbyId == Some(lid) {
      ClearedHasNone(Vacate(h.lobbies[lid], player));
    } else {
      UntouchedFate(h, h', lid, now, e);
    }
  }

  lemma KickFate(h: HubState, lid: string, now: nat, e: Event)
    requires Inv(h) && e.Kick?
    ensures RoomFate(h, Step(h, now, e), lid, now, e)
  {
    hide Resettle;
    var h' := Step(h, now, e);
    if RoomHostedBy(h, e.player) == Some(lid) && h' != h {
      ResettledHasNone(Put(h.lobbies[lid], e.seat, None));
    } else {
      UntouchedFate(h, h', lid, now, e);
    }
  }

  lemma MoveFate(h: HubState, lid: string, now: nat, e: Event)
    requires Inv(h) && (e.Move? || e.SeatMove?)
    ensures RoomFate(h, Step(h, now, e), lid, now, e)
  {
    hide Resettle, Transpose;
    var h' := Step(h, now, e);
    if RoomOf(h, e.player) == Some(lid) && h' != h {
      var l := h.lobbies[lid];
      var a := if e.Move? then e.from else SeatOf(l, e.player).value;
      TransposeTables(l, a, e.to);
      ResettledHasNone(Transpose(l, a, e.to));
    } else {
      UntouchedFate(h, h', lid, now, e);
    }
  }

  lemma SwapFate(h: HubState, lid: string, now: nat, e: Event)
    requires Inv(h) && e.SwapAnswer?
    ensures RoomFate(h, Step(h, now, e), lid, now, e)
  {
    hide Transpose, AfterSwap;
    var h' := Step(h, now, e);
    if RoomOf(h, e.player) == Some(lid) && h' != h {
      var l := h.lobbies[lid];
      AfterSwapFate(l, SeatOf(l, e.player).value, SeatOf(l, e.asker).value, now, e);
    } else {
      UntouchedFate(h, h', lid, now, e);
    }
  }

  lemma TransposeTables(l: Lobby, a: nat, b: nat)
    requires ValidSeat(l, a) && ValidSeat(l, b)
    ensures SameTables(l, Transpose(l, a, b))
  {
  }

  lemma ReadyFate(h: HubState, lid: string, now: nat, e: Event)
    requires Inv(h) && (e.SetReady? || e.Report?)
    ensures RoomFate(h, Step(h, now, e), lid, now, e)
  {
    var h' := Step(h, now, e);
    if RoomOf(h, e.player) == Some(lid) && h' != h {
      var l := h.lobbies[lid];
      var i := FirstSeated(l.slots, e.player).value;
      CellEditAccounted(l, i, h'.lobbies[lid].slots[i].value, now, e);
    } else {
      UntouchedFate(h, h', lid, now, e);
    }
  }

  lemma SettingsFate(h: HubState, lid: string, now: nat, e: Event)
    requires e.SetEndpoint? || e.SetCaps?
    ensures RoomFate(h, Step(h, now, e), lid, now, e)
  {
    var h' := Step(h, now, e);
    if RoomOf(h, e.player) == Some(lid) && h' != h {
      var l := h.lobbies[lid];
      ClearSlotsAccounted(l, now, e);
      var m := l.(slots := h'.lobbies[lid].slots);
      SameSeatsAccounted(m, h'.lobbies[lid], now, e);
      if m == l {
        SameSeatsAccounted(l, m, now, e);
      }
      AccountedTwice(l, m, h'.lobbies[lid], now, e);
    } else {
      UntouchedFate(h, h', lid, now, e);
    }
  }

  lemma LaunchFate(h: HubState, lid: string, now: nat, e: Event)
    requires e.Launch?
    ensures RoomFate(h, Step(h, now, e), lid, now, e)
  {
    var h' := Step(h, now, e);
    if e.lid == lid && lid in h.lobbies {
      var l := h.lobbies[lid];
      var m := l.(caps := CapsFor(l, e.raw), started := true);
      SameSeatsAccounted(l, m, now, e);
      UnreadyAccounted(m, now, e);
      AccountedTwice(l, m, UnreadyAll(m), now, e);
    } else {
      UntouchedFate(h, h', lid, now, e);
    }
  }

  lemma StepFate(h: HubState, lid: string, now: nat, e: Event)
    requires Inv(h)
    ensures RoomFate(h, Step(h, now, e), lid, now, e)
  {
    hide RoomFate;
    match e
    case Connect(_, _) => UntouchedFate(h, Step(h, now, e), lid, now, e);
    case Hello(_, _, _) => HelloFate(h, lid, now, e);
    case Create(_, _, _, _, _, _, _) => UntouchedFate(h, Step(h, now, e), lid, now, e);
    case Join(_, _, _, _, _) => JoinFate(h, lid, now, e);
    case Leave(p) => LeaveFate(h, p, lid, now, e);
    case Kick(_, _) => KickFate(h, lid, now, e);
    case Move(_, _, _) => MoveFate(h, lid, now, e);
    case SeatMove(_, _) => MoveFate(h, lid, now, e);
    case SwapAnswer(_, _, _) => SwapFate(h, lid, now, e);
    case SetReady(_, _) => ReadyFate(h, lid, now, e);
    case Report(_, _) => ReadyFate(h, lid, now, e);
    case SetEndpoint(_, _) => SettingsFate(h, lid, now, e);
    case SetCaps(_, _) => SettingsFate(h, lid, now, e);
    case Launch(_, _) => LaunchFate(h, lid, now, e);
    case Close(_) => UntouchedFate(h, Step(h, now, e), lid, now, e);
    case Disconnect(p) =>
      LeaveFate(h, p, lid, now, e);
      DisconnectRooms(h, p, lid, now, e);
  }

  lemma DisconnectRooms(h: HubState, p: string, lid: string, now: nat, e: Event)
    requires e == Disconnect(p) && RoomFate(h, DoLeave(h, p), lid, now, e)
    ensures RoomFate(h, Step(h, now, e), lid, now, e)
  {
  }

  lemma NewRoomHasNone(player: string, name: string, maxSlots: nat, gallery: bool, endpoint: string, raw: RawCaps)
    ensures NoReports(NewRoom(player, name, maxSlots, gallery, endpoint, raw))
  {
    var l := NewRoom(player, name, maxSlots, gallery, endpoint, raw);
    forall s: nat | At(l, s).Some? ensures At(l, s).value.path.None? {}
  }

  lemma NoRoomByHelloOrJoin(h: HubState, lid: string, now: nat, e: Event)
    requires lid !in h.lobbies && (e.Hello? || e.Join?)
    ensures lid !in Step(h, now, e).lobbies
  {
    hide UniqueName, SeatJoiner, Rename, JoinSeat;
  }

  lemma NoRoomByDeparture(h: HubState, lid: string, now: nat, e: Event)
    requires lid !in h.lobbies && (e.Leave? || e.Disconnect? || e.Kick? || e.Close?)
    ensures lid !in Step(h, now, e).lobbies
  {
    hide Resettle, Vacate, ClearPaths, Evict;
  }

  lemma NoRoomByRearranging(h: HubState, lid: string, now: nat, e: Event)
    requires lid !in h.lobbies && (e.Move? || e.SeatMove? || e.SwapAnswer?)
    ensures lid !in Step(h, now, e).lobbies
  {
    hide Resettle, Transpose, AfterSwap, SeatOf;
  }

  /** Only a create makes a room. */
  lemma OnlyCreateOpens(h: HubState, lid: string, now: nat, e: Event)
    requires lid !in h.lobbies && lid in Step(h, now, e).lobbies
    ensures e.Create? && e.lid == lid
  {
    hide NewRoom, DoHello, DoJoin, DoLeave, DoKick, DoClose, DoMove, DoSeatMove, DoSwapAnswer, UnreadyAll;
    if e.Hello? || e.Join? {
      NoRoomByHelloOrJoin(h, lid, now, e);
    } else if e.Leave? || e.Disconnect? || e.Kick? || e.Close? {
      NoRoomByDeparture(h, lid, now, e);
    } else if e.Move? || e.SeatMove? || e.SwapAnswer? {
      NoRoomByRearranging(h, lid, now, e);
    }
  }

  lemma NewRoomsHaveNone(h: HubState, lid: string, now: nat, e: Event)
    requires lid !in h.lobbies && lid in Step(h, now, e).lobbies
    ensures NoReports(Step(h, now, e).lobbies[lid])
  {
    OnlyCreateOpens(h, lid, now, e);
    var name := OfferName(h.clients, e.player, e.name)[e.player].displayName;
    NewRoomHasNone(e.player, name, e.maxSlots, e.gallery, e.endpoint, e.raw);
    hide NewRoom, NoReports, OfferName;
  }

  // ----- over whole histories -----

  /** While a room exists, its two tables and its host never change. */
  lemma {:induction false} TablesNeverChange(run: History, i: nat, n: nat, lid: string)
    requires i <= n <= |run| && forall j :: i <= j <= n ==> lid in Run(run[..j]).lobbies
    ensures SameTables(Run(run[..i]).lobbies[lid], Run(run[..n]).lobbies[lid])
    decreases n
  {
    if i < n {
      TablesNeverChange(run, i, n - 1, lid);
      assert run[..n][..n - 1] == run[..n - 1];
      RunInvariant(run[..n - 1]);
      StepFate(Run(run[..n - 1]), lid, run[n - 1].0, run[n - 1].1);
    }
  }

  /** Since event `k` the room has been there, with the company it has now. */
  ghost predicate SettledSince(run: History, k: nat, lid: string) {
    && k <= |run| && lid in Run(run).lobbies
    && forall j :: k <= j <= |run| ==>
         lid in Run(run[..j]).lobbies && SameCompany(Run(run[..j]).lobbies[lid], Run(run).lobbies[lid])
  }

  /** Every report a room holds was sent by that player, and the company has not changed since. */
  lemma {:induction false} ReportsAreAboutThePresent(run: History, lid: string, p: string, r: PathReport)
    returns (k: nat)
    requires lid in Run(run).lobbies && HasReport(Run(run).lobbies[lid], p, r)
    ensures k < |run| && run[k] == (r.at, Report(p, r.kind)) && SettledSince(run, k, lid)
    decreases |run|
  {
    var past := run[..|run| - 1];
    var (h, now, e) := (Run(past), run[|run| - 1].0, run[|run| - 1].1);
    var h' := Step(h, now, e);
    if lid !in h.lobbies {
      NewRoomsHaveNone(h, lid, now, e);
    }
    RunInvariant(past);
    StepFate(h, lid, now, e);
    if HasReport(h.lobbies[lid], p, r) {
      k := ReportsAreAboutThePresent(past, lid, p, r);
    } else {
      k := |run| - 1;
    }
    StaysSettled(run, k, lid);
  }

  lemma {:induction false} StaysSettled(run: History, k: nat, lid: string)
    requires |run| > 0 && k < |run| && lid in Run(run).lobbies && lid in Run(run[..|run| - 1]).lobbies
    requires SameCompany(Run(run[..|run| - 1]).lobbies[lid], Run(run).lobbies[lid])
    requires k < |run| - 1 ==> SettledSince(run[..|run| - 1], k, lid)
    ensures SettledSince(run, k, lid)
  {
    var past := run[..|run| - 1];
    assert run[..|run|] == run;
    forall j | k <= j <= |run|
      ensures lid in Run(run[..j]).lobbies && SameCompany(Run(run[..j]).lobbies[lid], Run(run).lobbies[lid])
    {
      if j < |run| - 1 {
        assert past[..j] == run[..j];
      }
    }
  }

  /** At `now` the room is granted a start on the host relay, with two players, one of them this guest. */
  ghost predicate Granted(run: History, lid: string, raw: RawCaps, now: nat, guest: string) {
    && lid in Run(run).lobbies
    && var l := Run(run).lobbies[lid];
       && StartVerdict(l, raw, now) == Ok(HostRelay) && PlayerCount(l) == 2
       && Plays(l, guest) && guest != l.hostId
  }

  /** Since event `k` the room has been there with its present company, and nobody has watched. */
  ghost predicate UnwatchedSince(run: History, k: nat, lid: string) {
    && SettledSince(run, k, lid)
    && forall j, q :: k <= j <= |run| && lid in Run(run[..j]).lobbies ==> !Watches(Run(run[..j]).lobbies[lid], q)
  }

  /**
   When a two-player room is granted a start on the host relay, the guest has reported a
   direct path at most two minutes ago, and ever since that report the same two players
   have been seated with nobody watching.
  */
  lemma {:induction false} StartIsProven(run: History, lid: string, raw: RawCaps, now: nat, p: string) returns (k: nat)
    requires Granted(run, lid, raw, now, p)
    ensures k < |run| && run[k].1 == Report(p, Direct) && now <= run[k].0 + 120_000
    ensures UnwatchedSince(run, k, lid)
  {
    var l := Run(run).lobbies[lid];
    RunInvariant(run);
    var i: nat :| i < |l.slots| && l.slots[i].Some? && l.slots[i].value.playerId == p;
    assert AllProven(l, now);
    var r := l.slots[i].value.path.value;
    assert At(l, i) == l.slots[i];
    k := ReportsAreAboutThePresent(run, lid, p, r);
    NobodyWatches(l);
    forall j, q | k <= j <= |run| && lid in Run(run[..j]).lobbies
      ensures !Watches(Run(run[..j]).lobbies[lid], q)
    {
      assert SameCompany(Run(run[..j]).lobbies[lid], l);
    }
  }

  /**
   The launch itself re-checks nothing: whatever the transport and the number of players,
   a guest who leaves after a start was granted is simply not in the match that starts.
  */
  lemma {:induction false} LaunchMayMissAPlayer(run: History, host: string, lid: string, t: Transport, raw: RawCaps,
                                                granted: nat, p: string, now: nat)
    requires StartAsked(Run(run), host, raw, granted) == Some((lid, t))
    requires Plays(Run(run).lobbies[lid], p) && p != Run(run).lobbies[lid].hostId
    ensures var h' := Run(run + [(now, Leave(p)), (now, Launch(lid, raw))]);
            lid in h'.lobbies && h'.lobbies[lid].started && !Plays(h'.lobbies[lid], p)
  {
    hide DoLeave, DoLaunch, Plays;
    RunInvariant(run);
    var (r1, r2) := (run + [(now, Leave(p))], run + [(now, Leave(p)), (now, Launch(lid, raw))]);
    assert r1[..|r1| - 1] == run && r2[..|r2| - 1] == r1;
    assert Run(r1) == DoLeave(Run(run), p);
    GuestGone(Run(run), lid, raw, p);
  }

  lemma GuestLeaves(h: HubState, lid: string, p: string)
    requires Inv(h) && lid in h.lobbies && Plays(h.lobbies[lid], p) && p != h.lobbies[lid].hostId
    ensures lid in DoLeave(h, p).lobbies && DoLeave(h, p).lobbies[lid] == ClearPaths(Vacate(h.lobbies[lid], p))
  {
    var l := h.lobbies[lid];
    var i: nat :| i < |l.slots| && l.slots[i].Some? && l.slots[i].value.playerId == p;
    assert WhoAt(l, i) == Some(Person(p, l.slots[i].value.displayName));
    SitterHasRow(h, lid, i);
    hide Inv, ClearPaths, Vacate, Plays;
  }

  lemma GuestGone(h: HubState, lid: string, raw: RawCaps, p: string)
    requires Inv(h) && lid in h.lobbies && Plays(h.lobbies[lid], p) && p != h.lobbies[lid].hostId
    ensures var h' := DoLaunch(DoLeave(h, p), lid, raw);
            lid in h'.lobbies && h'.lobbies[lid].started && !Plays(h'.lobbies[lid], p)
  {
    GuestLeaves(h, lid, p);
    VacatedDoesNotPlay(h.lobbies[lid], p);
    hide Inv, ClearPaths, Vacate, DoLeave, Plays;
    var l1 := DoLeave(h, p).lobbies[lid];
    UnreadyAccounted(l1, 0, Leave(p));
    SameSeatsAccounted(UnreadyAll(l1), DoLaunch(DoLeave(h, p), lid, raw).lobbies[lid], 0, Leave(p));
  }

  lemma VacatedDoesNotPlay(l: Lobby, p: string)
    ensures !Plays(ClearPaths(Vacate(l, p)), p)
  {
  }

  lemma NobodyWatches(l: Lobby)
    requires SpectatorCount(l) == 0
    ensures forall q :: !Watches(l, q)
  {
  }
}
