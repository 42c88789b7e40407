/** A room as the server keeps it: two tables of cells edited in place. */
module WsRoom {
  import LobbyHub
  import opened Lists
  import opened Seats
  import opened Wrappers

  /** Where a player sits in one table. */
  method Position(table: seq<Option<Slot>>, player: string) returns (i: Option<nat>)
    ensures i == FirstSeated(table, player)
  {
    var k: nat := 0;
    while k < |table|
      invariant k <= |table|
      invariant forall j :: 0 <= j < k && table[j].Some? ==> table[j].value.playerId != player
    {
      if table[k].Some? && table[k].value.playerId == player {
        return Some(k);
      }
      k := k + 1;
    }
    return None;
  }

  method FreePosition(table: seq<Option<Slot>>) returns (i: Option<nat>)
    ensures i == FirstEmpty(table)
  {
    var k: nat := 0;
    while k < |table|
      invariant k <= |table|
      invariant forall j :: 0 <= j < k ==> table[j].Some?
    {
      if table[k].None? {
        return Some(k);
      }
      k := k + 1;
    }
    return None;
  }

  method Count(table: seq<Option<Slot>>) returns (n: nat)
    ensures n == |Occupants(table)|
  {
    n := 0;
    var k := 0;
    while k < |table|
      invariant k <= |table|
      invariant n + |Occupants(table[k..])| == |Occupants(table)|
    {
      assert table[k..][1..] == table[k + 1..];
      if table[k].Some? {
        n := n + 1;
      }
      k := k + 1;
    }
  }

  class Room {
    const hostId: string
    const relayHostId: string
    const maxSlots: nat
    var slots: seq<Option<Slot>>
    var spectators: seq<Option<Slot>>
    var hostEndpoint: string
    var caps: Option<Caps>
    var started: bool

    function View(): Lobby
      reads this
    {
      Lobby(hostId, relayHostId, slots, spectators, maxSlots, hostEndpoint, caps, started)
    }

    constructor (player: string, name: string, requested: nat, gallery: bool, endpoint: string, raw: LobbyHub.RawCaps)
      ensures View() == LobbyHub.NewRoom(player, name, requested, gallery, endpoint, raw)
    {
      var n := LobbyHub.ClampSlots(requested);
      hostId, relayHostId, maxSlots := player, "", n;
      slots := seq(n, i => if i == 0 then Some(Slot(player, name, false, None)) else None);
      spectators := seq(if gallery then MAX_SPECTATORS else 0, _ => None);
      hostEndpoint, caps, started := endpoint, LobbyHub.SanitizeCaps(raw), false;
    }

    method SeatOfPlayer(player: string) returns (seat: Option<nat>)
      ensures seat == SeatOf(View(), player)
    {
      seat := Position(slots, player);
      if seat.None? {
        var i := Position(spectators, player);
        if i.Some? {
          seat := Some(SPECTATOR_SLOT_BASE + i.value);
        }
      }
    }

    method SetCell(seat: nat, cell: Option<Slot>)
      requires ValidSeat(View(), seat)
      modifies this`slots, this`spectators
      ensures View() == Put(old(View()), seat, cell)
    {
      if IsGallery(seat) {
        spectators := spectators[seat - SPECTATOR_SLOT_BASE := cell];
      } else {
        slots := slots[seat := cell];
      }
    }

    /** Only players are un-readied. */
    method Unready()
      modifies this`slots
      ensures View() == UnreadyAll(old(View()))
    {
      var k := 0;
      while k < |slots|
        invariant k <= |slots| == old(|slots|)
        invariant forall j :: 0 <= j < |slots| ==>
          slots[j] == if j < k then UnreadyCell(old(slots)[j]) else old(slots)[j]
      {
        if slots[k].Some? {
          slots := slots[k := Some(slots[k].value.(ready := false))];
        }
        k := k + 1;
      }
      assert slots == MapSeq(old(slots), UnreadyCell);
    }

    method ForgetPlayerPaths()
      modifies this`slots
      ensures slots == MapSeq(old(slots), ClearCell)
    {
      var k := 0;
      while k < |slots|
        invariant k <= |slots| == old(|slots|)
        invariant forall j :: 0 <= j < |slots| ==> slots[j] == if j < k then ClearCell(old(slots)[j]) else old(slots)[j]
      {
        if slots[k].Some? {
          slots := slots[k := Some(slots[k].value.(path := None))];
        }
        k := k + 1;
      }
    }

    method ForgetPaths()
      modifies this`slots, this`spectators
      ensures View() == ClearPaths(old(View()))
    {
      ForgetPlayerPaths();
      var k := 0;
      while k < |spectators|
        invariant slots == MapSeq(old(slots), ClearCell)
        invariant k <= |spectators| == old(|spectators|)
        invariant forall j :: 0 <= j < |spectators| ==>
          spectators[j] == if j < k then ClearCell(old(spectators)[j]) else old(spectators)[j]
      {
        if spectators[k].Some? {
          spectators := spectators[k := Some(spectators[k].value.(path := None))];
        }
        k := k + 1;
      }
      assert spectators == MapSeq(old(spectators), ClearCell);
    }

    method Settle()
      modifies this`slots, this`spectators
      ensures View() == LobbyHub.Resettle(old(View()))
    {
      Unready();
      ForgetPaths();
    }

    /** Take both cells, then put each where the other was: the seats may be in different tables. */
    method Exchange(a: nat, b: nat)
      requires ValidSeat(View(), a) && ValidSeat(View(), b) && a != b
      modifies this`slots, this`spectators
      ensures View() == Transpose(old(View()), a, b)
    {
      var first := At(View(), a);
      SetCell(a, None);
      var second := At(View(), b);
      SetCell(b, None);
      SetCell(b, first);
      SetCell(a, second);
      ghost var t := Transpose(old(View()), a, b);
      assert slots == t.slots && spectators == t.spectators;
    }

    /** A host's move. */
    method Move(from: nat, to: nat)
      requires ValidSeat(View(), from) && ValidSeat(View(), to) && from != to
      modifies this`slots, this`spectators
      ensures View() == LobbyHub.Resettle(Transpose(old(View()), from, to))
    {
      Exchange(from, to);
      Settle();
    }

    /** A member's own move: one cell is taken and put into an empty one. */
    method MoveToEmpty(from: nat, to: nat)
      requires ValidSeat(View(), from) && ValidSeat(View(), to)
      requires from != to && At(View(), to).None?
      modifies this`slots, this`spectators
      ensures View() == LobbyHub.Resettle(Transpose(old(View()), from, to))
    {
      var moving := At(View(), from);
      SetCell(from, None);
      SetCell(to, moving);
      ghost var t := Transpose(old(View()), from, to);
      assert slots == t.slots && spectators == t.spectators;
      Settle();
    }

    /** An accepted swap. */
    method Swap(mine: nat, theirs: nat)
      requires ValidSeat(View(), mine) && ValidSeat(View(), theirs) && mine != theirs
      modifies this`slots, this`spectators
      ensures View() == LobbyHub.AfterSwap(Transpose(old(View()), mine, theirs), mine, theirs)
    {
      hide Transpose;
      Exchange(mine, theirs);
      Unready();
      if IsGallery(mine) != IsGallery(theirs) {
        ForgetPaths();
      }
    }

    method SitDown(seat: nat, player: string, name: string)
      requires ValidSeat(View(), seat)
      modifies this`slots, this`spectators
      ensures View() == LobbyHub.SeatJoiner(old(View()), seat, player, name)
    {
      SetCell(seat, Some(Slot(player, name, false, None)));
      Settle();
    }

    method RenamePlayer(player: string, name: string)
      modifies this`slots, this`spectators
      ensures View() == LobbyHub.Rename(old(View()), player, name)
    {
      var seat := SeatOfPlayer(player);
      if seat.Some? && ValidSeat(View(), seat.value) {
        SetCell(seat.value, LobbyHub.RenameCell(player, name, At(View(), seat.value)));
      }
    }

    method EmptySeat(seat: nat)
      requires ValidSeat(View(), seat)
      modifies this`slots, this`spectators
      ensures View() == LobbyHub.Resettle(Put(old(View()), seat, None))
    {
      SetCell(seat, None);
      Settle();
    }

    /** Every cell of a player is emptied, in both tables. */
    method Remove(player: string)
      modifies this`slots, this`spectators
      ensures View() == Vacate(old(View()), player)
    {
      var k := 0;
      while k < |slots| + |spectators|
        invariant |slots| == old(|slots|) && |spectators| == old(|spectators|)
        invariant k <= |slots| + |spectators|
        invariant forall j :: 0 <= j < |slots| ==>
          slots[j] == if j < k then Vacated(player, old(slots)[j]) else old(slots)[j]
        invariant forall j :: 0 <= j < |spectators| ==>
          spectators[j] == if j + |slots| < k then Vacated(player, old(spectators)[j]) else old(spectators)[j]
      {
        if k < |slots| {
          if slots[k].Some? && slots[k].value.playerId == player {
            slots := slots[k := None];
          }
        } else if spectators[k - |slots|].Some? && spectators[k - |slots|].value.playerId == player {
          spectators := spectators[k - |slots| := None];
        }
        k := k + 1;
      }
      ghost var v := Vacate(old(View()), player);
      assert slots == v.slots && spectators == v.spectators;
    }

    /** A departure: the seats are emptied, and nobody's path report counts any more. */
    method StandUp(player: string)
      modifies this`slots, this`spectators
      ensures View() == ClearPaths(Vacate(old(View()), player))
    {
      Remove(player);
      ForgetPaths();
    }

    /** A full room is only full when there is no gallery to fall into. */
    method ChooseSeat() returns (seat: Option<nat>)
      ensures seat == JoinSeat(View())
    {
      var n := Count(slots);
      seat := FreePosition(slots);
      if maxSlots <= n || seat.None? {
        var i := FreePosition(spectators);
        seat := if i.None? then None else Some(SPECTATOR_SLOT_BASE + i.value);
      }
    }

    method Decide(asked: Option<Caps>, now: nat) returns (r: Result<(), Refusal>)
      ensures r == HostRelayDecision(View(), asked, now)
    {
      if !WantsHostRelay(asked) {
        return Err(NoHostRelayAsk);
      }
      if hostEndpoint == "" && !ViaIce(asked) {
        return Err(NoEndpoint);
      }
      var watching := Count(spectators);
      if watching > 0 {
        return Err(HasSpectators);
      }
      var playing := Count(slots);
      if ViaIce(asked) && playing > 2 {
        return Ok(());
      }
      var k := 0;
      while k < |slots|
        invariant k <= |slots|
        invariant forall j :: 0 <= j < k && slots[j].Some? && slots[j].value.playerId != RelayHost(View()) ==>
          Proven(slots[j].value, now)
      {
        if slots[k].Some? && slots[k].value.playerId != RelayHost(View()) && !Proven(slots[k].value, now) {
          return Err(Unproven);
        }
        k := k + 1;
      }
      return Ok(());
    }

    /** The transport a pressed start gets, or why it gets none. */
    method MayStart(raw: LobbyHub.RawCaps, now: nat) returns (r: Result<Transport, Refusal>)
      ensures r == LobbyHub.StartVerdict(View(), raw, now)
    {
      var playing := Count(slots);
      if playing < 2 {
        return Err(NeedTwoPlayers);
      }
      var d := Decide(LobbyHub.CapsFor(View(), raw), now);
      if d.Ok? {
        return Ok(HostRelay);
      }
      var watching := Count(spectators);
      if watching > 0 {
        return Err(d.error);
      }
      return if playing != 2 then Err(NeedTwoPlayers) else Ok(Ice);
    }
  }
}
