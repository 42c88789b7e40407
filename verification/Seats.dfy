/**
 One human-hosted room: two tables of seats that share one index space, the names in
 them, and the decision whether and how a match may start.

 Below the base an index is a player seat; from the base on it is a gallery seat.
 Instants are milliseconds.
 */
module Seats {
  import opened Lists
  import Text
  import opened Wrappers

  const MAX_SLOTS: nat := 8
  const MAX_SPECTATORS: nat := 4
  const SPECTATOR_SLOT_BASE: nat := 64
  const HOST_RELAY_PATH_FRESH_MS: nat := 120_000

  datatype PathKind = Direct | Relay | Fail

  /** The latest waiting-room path report of a seat, and when it arrived. */
  datatype PathReport = PathReport(kind: PathKind, at: nat)

  datatype Slot = Slot(playerId: string, displayName: string, ready: bool, path: Option<PathReport>)

  /** The two caps bits the start decision reads. */
  datatype Caps = Caps(relay: string, relayVia: string)

  datatype Lobby = Lobby(
    hostId: string, relayHostId: string, slots: seq<Option<Slot>>, spectators: seq<Option<Slot>>,
    maxSlots: nat, hostEndpoint: string, caps: Option<Caps>, started: bool)

  // ----- the shared index space -----

  predicate IsGallery(seat: nat) {
    SPECTATOR_SLOT_BASE <= seat
  }

  predicate ValidSeat(l: Lobby, seat: nat) {
    if IsGallery(seat) then seat - SPECTATOR_SLOT_BASE < |l.spectators| else seat < |l.slots|
  }

  /** The occupant of a seat; None when the seat is empty or does not exist. */
  function At(l: Lobby, seat: nat): Option<Slot> {
    if !ValidSeat(l, seat) then None
    else if IsGallery(seat) then l.spectators[seat - SPECTATOR_SLOT_BASE]
    else l.slots[seat]
  }

  function Put(l: Lobby, seat: nat, cell: Option<Slot>): Lobby
    requires ValidSeat(l, seat)
  {
    if IsGallery(seat) then l.(spectators := l.spectators[seat - SPECTATOR_SLOT_BASE := cell])
    else l.(slots := l.slots[seat := cell])
  }

  /** Tables too short for the two halves of the index space to meet. */
  predicate WellShaped(l: Lobby) {
    2 <= |l.slots| == l.maxSlots <= MAX_SLOTS && (|l.spectators| == 0 || |l.spectators| == MAX_SPECTATORS)
  }

  function FirstSeated(table: seq<Option<Slot>>, player: string): (i: Option<nat>)
    ensures i.Some? ==> i.value < |table| && table[i.value].Some? && table[i.value].value.playerId == player
    ensures i.Some? ==> forall k :: 0 <= k < i.value && table[k].Some? ==> table[k].value.playerId != player
    ensures i.None? ==> forall k :: 0 <= k < |table| && table[k].Some? ==> table[k].value.playerId != player
  {
    if table == [] then None
    else if table[0].Some? && table[0].value.playerId == player then Some(0)
    else
      var rest := FirstSeated(table[1..], player);
      if rest.None? then None else Some(rest.value + 1)
  }

  /** Which seat a player occupies, in the shared index space. */
  function SeatOf(l: Lobby, player: string): Option<nat> {
    var i := FirstSeated(l.slots, player);
    if i.Some? then i
    else
      var j := FirstSeated(l.spectators, player);
      if j.None? then None else Some(SPECTATOR_SLOT_BASE + j.value)
  }

  /** Looking a player up and looking a seat up agree across both tables. */
  lemma SeatOfIsAt(l: Lobby, player: string)
    requires WellShaped(l)
    ensures var s := SeatOf(l, player);
            && (s.Some? ==> ValidSeat(l, s.value) && At(l, s.value).Some? && At(l, s.value).value.playerId == player)
            && (s.None? ==> forall k: nat :: At(l, k).Some? ==> At(l, k).value.playerId != player)
  {
  }

  // ----- who sits where -----

  /** The part of an occupant that seating is about. */
  datatype Person = Person(playerId: string, name: string)

  function WhoAt(l: Lobby, seat: nat): Option<Person> {
    var cell := At(l, seat);
    if cell.None? then None else Some(Person(cell.value.playerId, cell.value.displayName))
  }

  predicate Sits(l: Lobby, seat: nat, player: string) {
    WhoAt(l, seat).Some? && WhoAt(l, seat).value.playerId == player
  }

  /** Same tables, same people in the same seats. */
  ghost predicate SameSeating(l: Lobby, l': Lobby) {
    && |l'.slots| == |l.slots| && |l'.spectators| == |l.spectators|
    && l'.maxSlots == l.maxSlots && l'.hostId == l.hostId && l'.relayHostId == l.relayHostId
    && forall s: nat :: WhoAt(l', s) == WhoAt(l, s)
  }

  function UnreadyCell(c: Option<Slot>): Option<Slot> {
    if c.None? then None else Some(c.value.(ready := false))
  }

  function ClearCell(c: Option<Slot>): Option<Slot> {
    if c.None? then None else Some(c.value.(path := None))
  }

  /** Only the player table carries Ready. */
  function UnreadyAll(l: Lobby): Lobby {
    l.(slots := MapSeq(l.slots, UnreadyCell))
  }

  function ClearPaths(l: Lobby): Lobby {
    l.(slots := MapSeq(l.slots, ClearCell), spectators := MapSeq(l.spectators, ClearCell))
  }

  lemma UnreadyKeepsSeating(l: Lobby)
    ensures SameSeating(l, UnreadyAll(l))
  {
  }

  lemma ClearKeepsSeating(l: Lobby)
    ensures SameSeating(l, ClearPaths(l))
  {
  }

  // ----- rearranging: every rearrangement is a transposition -----

  /** Exchange the occupants of two seats, in one table or across the two. */
  function Transpose(l: Lobby, a: nat, b: nat): Lobby
    requires ValidSeat(l, a) && ValidSeat(l, b)
  {
    Put(Put(l, a, At(l, b)), b, At(l, a))
  }

  function Swapped(a: nat, b: nat, s: nat): nat {
    if s == a then b else if s == b then a else s
  }

  lemma TransposeMoves(l: Lobby, a: nat, b: nat)
    requires ValidSeat(l, a) && ValidSeat(l, b)
    ensures var l' := Transpose(l, a, b);
            && |l'.slots| == |l.slots| && |l'.spectators| == |l.spectators|
            && forall s: nat :: At(l', s) == At(l, Swapped(a, b, s))
  {
  }

  /** Doing it twice puts everybody back. */
  lemma TransposeTwice(l: Lobby, a: nat, b: nat)
    requires ValidSeat(l, a) && ValidSeat(l, b)
    ensures Transpose(Transpose(l, a, b), a, b) == l
  {
  }

  // ----- leaving and sitting down -----

  function Vacated(player: string, c: Option<Slot>): Option<Slot> {
    if c.Some? && c.value.playerId == player then None else c
  }

  /** Every cell of a player is emptied, in both tables. */
  function Vacate(l: Lobby, player: string): Lobby {
    l.(slots := MapSeq(l.slots, (c: Option<Slot>) => Vacated(player, c)),
       spectators := MapSeq(l.spectators, (c: Option<Slot>) => Vacated(player, c)))
  }

  function FirstEmpty(table: seq<Option<Slot>>): (i: Option<nat>)
    ensures i.Some? ==> i.value < |table| && table[i.value].None? && forall k :: 0 <= k < i.value ==> table[k].Some?
    ensures i.None? ==> forall k :: 0 <= k < |table| ==> table[k].Some?
  {
    if table == [] then None
    else if table[0].None? then Some(0)
    else
      var rest := FirstEmpty(table[1..]);
      if rest.None? then None else Some(rest.value + 1)
  }

  function Occupants(table: seq<Option<Slot>>): (r: seq<Slot>)
    ensures |r| <= |table|
    ensures forall k :: 0 <= k < |table| && table[k].Some? ==> table[k].value in r
    ensures forall x :: x in r ==> exists k :: 0 <= k < |table| && table[k] == Some(x)
  {
    if table == [] then []
    else
      var rest := Occupants(table[1..]);
      assert table == [table[0]] + table[1..];
      if table[0].None? then rest else [table[0].value] + rest
  }

  function PlayerCount(l: Lobby): nat {
    |Occupants(l.slots)|
  }

  function SpectatorCount(l: Lobby): nat {
    |Occupants(l.spectators)|
  }

  function Everyone(l: Lobby): seq<Slot> {
    Occupants(l.slots) + Occupants(l.spectators)
  }

  lemma {:induction false} EmptySeatMeansRoom(table: seq<Option<Slot>>)
    ensures |Occupants(table)| < |table| <==> FirstEmpty(table).Some?
  {
    if table != [] {
      EmptySeatMeansRoom(table[1..]);
    }
  }

  /** A joiner goes to the gallery only when no player seat is free, and is turned away only when no seat is. */
  lemma JoinSeatIsFirstFree(l: Lobby)
    requires WellShaped(l)
    ensures var s := JoinSeat(l);
            && (s.None? <==> (forall k: nat :: ValidSeat(l, k) ==> At(l, k).Some?))
            && (s.Some? ==> forall k: nat :: ValidSeat(l, k) && At(l, k).None? ==> s.value <= k)
  {
    EmptySeatMeansRoom(l.slots);
    var s := JoinSeat(l);
    if s.None? {
      forall k: nat | ValidSeat(l, k) ensures At(l, k).Some? {}
    }
  }

  /** A joiner's seat: the first free player seat unless the players are full, else the first free gallery seat. */
  function JoinSeat(l: Lobby): (s: Option<nat>)
    ensures s.Some? && WellShaped(l) ==> ValidSeat(l, s.value) && At(l, s.value).None?
  {
    var i := FirstEmpty(l.slots);
    if PlayerCount(l) < l.maxSlots && i.Some? then i
    else
      var j := FirstEmpty(l.spectators);
      if j.None? then None else Some(SPECTATOR_SLOT_BASE + j.value)
  }

  // ----- names -----

  function Numbered(base: string, n: nat): string {
    base + " (" + Text.Decimal(n) + ")"
  }

  predicate Taken(others: seq<Slot>, name: string) {
    exists o :: o in others && o.displayName == name
  }

  /** Everybody in the room but one player. */
  function Others(l: Lobby, skip: string): seq<Slot> {
    Filter(Everyone(l), (s: Slot) => s.playerId != skip)
  }

  function BaseName(requested: string): string {
    var t := Text.Trim(requested);
    if t == "" then "Guest" else t
  }

  /** The first free numbered candidate from `n` on, or a random one past 64. */
  function NumberedName(others: seq<Slot>, base: string, n: nat, random: string): string
    decreases 65 - n
  {
    if 64 < n then base + " (" + random + ")"
    else if !Taken(others, Numbered(base, n)) then Numbered(base, n)
    else NumberedName(others, base, n + 1, random)
  }

  function UniqueName(l: Lobby, requested: string, skip: string, random: string): string {
    var (others, base) := (Others(l, skip), BaseName(requested));
    if !Taken(others, base) then base else NumberedName(others, base, 2, random)
  }

  /** The name search as written, with its loop over the candidates. */
  method UniqueDisplayName(l: Lobby, requested: string, skip: string, random: string) returns (name: string)
    ensures name == UniqueName(l, requested, skip, random)
  {
    var (others, base) := (Others(l, skip), BaseName(requested));
    if !Taken(others, base) {
      return base;
    }
    var n: nat := 2;
    while n <= 64
      invariant 2 <= n <= 65
      invariant NumberedName(others, base, 2, random) == NumberedName(others, base, n, random)
    {
      if !Taken(others, Numbered(base, n)) {
        return Numbered(base, n);
      }
      n := n + 1;
    }
    return base + " (" + random + ")";
  }

  lemma NumberedInjective(base: string, m: nat, n: nat)
    requires Numbered(base, m) == Numbered(base, n)
    ensures m == n
  {
    var (x, y) := (Numbered(base, m), Numbered(base, n));
    var k := |base| + 2;
    assert x[k..|x| - 1] == Text.Decimal(m) && y[k..|y| - 1] == Text.Decimal(n);
    Text.DecimalInjective(m, n);
  }

  function NameOf(s: Slot): string { s.displayName }

  lemma {:induction false} LeastNumber(others: seq<Slot>, base: string, from: nat, free: nat, random: string)
    returns (n: nat)
    requires from <= free <= 64 && !Taken(others, Numbered(base, free))
    ensures from <= n <= free && NumberedName(others, base, from, random) == Numbered(base, n)
    ensures !Taken(others, Numbered(base, n)) && forall m: nat :: from <= m < n ==> Taken(others, Numbered(base, m))
    decreases free - from
  {
    hide Taken, Numbered;
    if Taken(others, Numbered(base, from)) {
      n := LeastNumber(others, base, from + 1, free, random);
    } else {
      n := from;
    }
  }

  /**
   A name found for a player is free among everybody else, and the random suffix plays
   no part: a room has at most twelve people and the search has 63 distinct candidates.
  */
  lemma NamesAreFree(l: Lobby, requested: string, skip: string, random: string, random': string)
    requires WellShaped(l)
    ensures !Taken(Others(l, skip), UniqueName(l, requested, skip, random))
    ensures UniqueName(l, requested, skip, random) == UniqueName(l, requested, skip, random')
  {
    var (others, base) := (Others(l, skip), BaseName(requested));
    if Taken(others, base) {
      var free := FreeNumber(l, skip, base);
      var n := LeastNumber(others, base, 2, free, random);
      RandomUnused(others, base, 2, free, random, random');
    }
  }

  lemma {:induction false} RandomUnused(others: seq<Slot>, base: string, n: nat, free: nat,
                                        random: string, random': string)
    requires n <= free <= 64 && !Taken(others, Numbered(base, free))
    ensures NumberedName(others, base, n, random) == NumberedName(others, base, n, random')
    decreases free - n
  {
    if Taken(others, Numbered(base, n)) {
      RandomUnused(others, base, n + 1, free, random, random');
    }
  }

  lemma FreeNumber(l: Lobby, skip: string, base: string) returns (free: nat)
    requires WellShaped(l)
    ensures 2 <= free <= 64 && !Taken(Others(l, skip), Numbered(base, free))
  {
    hide Numbered, Taken;
    var others := Others(l, skip);
    FilterMembers(Everyone(l), (s: Slot) => s.playerId != skip);
    var names := MapSeq(others, NameOf);
    var candidates := seq(63, k requires 0 <= k < 63 => Numbered(base, k + 2));
    forall i, j | 0 <= i < j < 63 ensures candidates[i] != candidates[j] {
      if candidates[i] == candidates[j] {
        NumberedInjective(base, i + 2, j + 2);
      }
    }
    Pigeonhole(names, candidates);
    var k :| 0 <= k < 63 && candidates[k] !in names;
    free := k + 2;
    NotAmong(others, Numbered(base, free));
  }

  lemma {:induction false} NotAmong(others: seq<Slot>, name: string)
    requires name !in MapSeq(others, NameOf)
    ensures !Taken(others, name)
  {
    forall o | o in others ensures o.displayName != name {
      var i :| 0 <= i < |others| && others[i] == o;
      assert MapSeq(others, NameOf)[i] == o.displayName;
    }
  }

  lemma TakenMeans(l: Lobby, skip: string, name: string)
    requires WellShaped(l)
    ensures Taken(Others(l, skip), name) <==>
              exists s: nat :: At(l, s) != None && At(l, s).value.playerId != skip && At(l, s).value.displayName == name
  {
    FilterMembers(Everyone(l), (o: Slot) => o.playerId != skip);
    if o :| o in Others(l, skip) && o.displayName == name {
      if o in Occupants(l.slots) {
        var k :| 0 <= k < |l.slots| && l.slots[k] == Some(o);
        assert At(l, k) == Some(o);
      } else {
        var k :| 0 <= k < |l.spectators| && l.spectators[k] == Some(o);
        assert At(l, SPECTATOR_SLOT_BASE + k) == Some(o);
      }
    }
    if s: nat :| At(l, s) != None && At(l, s).value.playerId != skip && At(l, s).value.displayName == name {
      assert At(l, s).value in Everyone(l);
    }
  }

  /**
   A name is given as asked, trimmed, or as "Guest" when nothing is left of it; a taken one
   is followed by the least free number from 2 on.
  */
  lemma NamesAreAsAsked(l: Lobby, requested: string, skip: string, random: string)
    requires WellShaped(l)
    ensures var (name, base) := (UniqueName(l, requested, skip, random),
                                 if Text.Trim(requested) == "" then "Guest" else Text.Trim(requested));
            if !Taken(Others(l, skip), base) then name == base
            else exists n: nat :: && 2 <= n <= 64 && name == base + " (" + Text.Decimal(n) + ")"
                                  && !Taken(Others(l, skip), name)
                                  && forall m: nat :: 2 <= m < n ==>
                                       Taken(Others(l, skip), base + " (" + Text.Decimal(m) + ")")
  {
    var (others, base) := (Others(l, skip), BaseName(requested));
    hide Taken, Others, NumberedName, Text.Trim, Text.Decimal;
    if Taken(others, base) {
      var free := FreeNumber(l, skip, base);
      var n := LeastNumber(others, base, 2, free, random);
      forall m: nat | 2 <= m < n ensures Taken(others, base + " (" + Text.Decimal(m) + ")") {
        assert Taken(others, Numbered(base, m));
      }
      assert Numbered(base, n) == base + " (" + Text.Decimal(n) + ")";
    }
  }

  // ----- may the match start, and how -----

  predicate WantsHostRelay(caps: Option<Caps>) {
    caps.Some? && caps.value.relay == "host"
  }

  predicate ViaIce(caps: Option<Caps>) {
    WantsHostRelay(caps) && caps.value.relayVia == "ice"
  }

  function RelayHost(l: Lobby): string {
    if l.relayHostId == "" then l.hostId else l.relayHostId
  }

  /** The seat has proven, recently enough, that it reaches the relay host. */
  predicate Proven(s: Slot, now: nat) {
    s.path.Some? && s.path.value.kind == Direct && now <= s.path.value.at + HOST_RELAY_PATH_FRESH_MS
  }

  predicate AllProven(l: Lobby, now: nat) {
    forall k :: 0 <= k < |l.slots| && l.slots[k].Some? && l.slots[k].value.playerId != RelayHost(l) ==>
      Proven(l.slots[k].value, now)
  }

  datatype Refusal = NoHostRelayAsk | NoEndpoint | HasSpectators | Unproven | NeedTwoPlayers

  function HostRelayDecision(l: Lobby, caps: Option<Caps>, now: nat): Result<(), Refusal> {
    if !WantsHostRelay(caps) then Err(NoHostRelayAsk)
    else if l.hostEndpoint == "" && !ViaIce(caps) then Err(NoEndpoint)
    else if SpectatorCount(l) > 0 then Err(HasSpectators)
    else if ViaIce(caps) && PlayerCount(l) > 2 then Ok(())
    else if AllProven(l, now) then Ok(())
    else Err(Unproven)
  }

  datatype Transport = HostRelay | Ice

  function StartTransport(l: Lobby, caps: Option<Caps>, allowIce: bool, now: nat): Result<Transport, Refusal> {
    var d := HostRelayDecision(l, caps, now);
    if d.Ok? then Ok(HostRelay)
    else if !allowIce || SpectatorCount(l) > 0 then Err(d.error)
    else if PlayerCount(l) != 2 then Err(NeedTwoPlayers)
    else Ok(Ice)
  }
}
