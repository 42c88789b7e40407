/**
 The lobby hub: connected clients and the human-hosted rooms they sit in, one message
 handler at a time. `Step` says what each handler does; the class does it in place.
 Checks that read only the message (password, release, mods, blocks) arrive as a verdict.
 */
module LobbyHub {
  import opened Lists
  import opened Seats
  import opened Wrappers

  const MAX_LOBBIES: nat := 64

  datatype Client = Client(displayName: string, lobbyId: Option<string>)

  datatype HubState = HubState(clients: map<string, Client>, lobbies: map<string, Lobby>)

  const EMPTY := HubState(map[], map[])

  /** Match caps as sent: missing or refused, or an object within the size limit. */
  datatype RawCaps = Unusable | Object(relay: string, relayVia: string)

  /** Every usable caps object is put on the host relay over ICE. */
  function SanitizeCaps(raw: RawCaps): Option<Caps> {
    if raw.Unusable? then None else Some(Caps("host", "ice"))
  }

  datatype Event =
    | Connect(player: string, initialName: string)
    | Hello(player: string, name: Option<string>, random: string)
    | Create(player: string, lid: string, name: Option<string>, maxSlots: nat, gallery: bool,
             endpoint: string, raw: RawCaps)
    | Join(player: string, lid: string, name: Option<string>, admitted: bool, random: string)
    | Leave(player: string)
    | Kick(player: string, seat: nat)
    | Move(player: string, from: nat, to: nat)
    | SeatMove(player: string, to: nat)
    | SwapAnswer(player: string, asker: string, accept: bool)
    | SetReady(player: string, ready: bool)
    | Report(player: string, kind: PathKind)
    | SetEndpoint(player: string, endpoint: string)
    | SetCaps(player: string, raw: RawCaps)
    | Launch(lid: string, raw: RawCaps)
    | Close(player: string)
    | Disconnect(player: string)

  // ----- helpers on the hub's value -----

  function SetName(clients: map<string, Client>, player: string, name: string): map<string, Client> {
    if player in clients then clients[player := clients[player].(displayName := name)] else clients
  }

  /** A message may carry a display name; an empty one counts as none. */
  function OfferName(clients: map<string, Client>, player: string, name: Option<string>): map<string, Client> {
    if name.Some? && name.value != "" then SetName(clients, player, name.value) else clients
  }

  function SetLobby(clients: map<string, Client>, player: string, lid: Option<string>): map<string, Client> {
    if player in clients then clients[player := clients[player].(lobbyId := lid)] else clients
  }

  /** The room a connected client is in, if the room still exists. */
  function RoomOf(h: HubState, player: string): Option<string> {
    if player in h.clients && h.clients[player].lobbyId.Some? && h.clients[player].lobbyId.value in h.lobbies
    then h.clients[player].lobbyId else None
  }

  function RoomHostedBy(h: HubState, player: string): Option<string> {
    var lid := RoomOf(h, player);
    if lid.Some? && h.lobbies[lid.value].hostId == player then lid else None
  }

  function WithRoom(h: HubState, lid: string, l: Lobby): HubState {
    h.(lobbies := h.lobbies[lid := l])
  }

  function Resettle(l: Lobby): Lobby {
    ClearPaths(UnreadyAll(l))
  }

  /** Every member loses the room. */
  function Evict(clients: map<string, Client>, l: Lobby): map<string, Client> {
    map p | p in clients ::
      if SeatOf(l, p).Some? then clients[p].(lobbyId := None) else clients[p]
  }

  function Destroy(h: HubState, lid: string): HubState {
    if lid !in h.lobbies then h
    else HubState(Evict(h.clients, h.lobbies[lid]), h.lobbies - {lid})
  }

  // ----- one step -----

  function RenameCell(player: string, name: string, c: Option<Slot>): Option<Slot> {
    if c.Some? && c.value.playerId == player then Some(c.value.(displayName := name)) else c
  }

  function Rename(l: Lobby, player: string, name: string): Lobby {
    var s := SeatOf(l, player);
    if s.None? || !ValidSeat(l, s.value) then l else Put(l, s.value, RenameCell(player, name, At(l, s.value)))
  }

  /** Give a member of a room a free name, in the seat and in the row. */
  function RenameIn(h: HubState, player: string, lid: string, name: string, random: string): HubState
    requires lid in h.lobbies
  {
    var unique := UniqueName(h.lobbies[lid], name, player, random);
    HubState(SetName(h.clients, player, unique), h.lobbies[lid := Rename(h.lobbies[lid], player, unique)])
  }

  function DoHello(h: HubState, player: string, name: Option<string>, random: string): HubState {
    var lid := RoomOf(h, player);
    var h1 := h.(clients := OfferName(h.clients, player, name));
    if name.None? || name.value == "" || lid.None? then h1
    else RenameIn(h1, player, lid.value, name.value, random)
  }

  function ClampSlots(n: nat): nat {
    if n < 2 then 2 else if MAX_SLOTS < n then MAX_SLOTS else n
  }

  function NewRoom(player: string, name: string, maxSlots: nat, gallery: bool, endpoint: string, raw: RawCaps): Lobby {
    var n := ClampSlots(maxSlots);
    Lobby(player, "",
          seq(n, i => if i == 0 then Some(Slot(player, name, false, None)) else None),
          seq(if gallery then MAX_SPECTATORS else 0, _ => None),
          n, endpoint, SanitizeCaps(raw), false)
  }

  function DoCreate(h: HubState, player: string, lid: string, name: Option<string>, maxSlots: nat,
                    gallery: bool, endpoint: string, raw: RawCaps): HubState
  {
    if player !in h.clients || h.clients[player].lobbyId.Some? || MAX_LOBBIES <= |h.lobbies| || lid in h.lobbies then h
    else
      var clients := OfferName(h.clients, player, name);
      var room := NewRoom(player, clients[player].displayName, maxSlots, gallery, endpoint, raw);
      HubState(SetLobby(clients, player, Some(lid)), h.lobbies[lid := room])
  }

  function SeatJoiner(l: Lobby, seat: nat, player: string, name: string): Lobby
    requires ValidSeat(l, seat)
  {
    Resettle(Put(l, seat, Some(Slot(player, name, false, None))))
  }

  /** Seat a joiner under a free name, if there is a free seat. */
  function SeatJoinerIn(h: HubState, player: string, lid: string, random: string): HubState
    requires player in h.clients && lid in h.lobbies
  {
    var l := h.lobbies[lid];
    var seat := JoinSeat(l);
    if seat.None? || !ValidSeat(l, seat.value) then h
    else
      var unique := UniqueName(l, h.clients[player].displayName, player, random);
      HubState(SetName(SetLobby(h.clients, player, Some(lid)), player, unique),
               h.lobbies[lid := SeatJoiner(l, seat.value, player, unique)])
  }

  function DoJoin(h: HubState, player: string, lid: string, name: Option<string>, admitted: bool, random: string)
    : HubState
  {
    if player !in h.clients || h.clients[player].lobbyId.Some? then h
    else
      var h1 := h.(clients := OfferName(h.clients, player, name));
      if lid !in h.lobbies || !admitted then h1 else SeatJoinerIn(h1, player, lid, random)
  }

  function DoLeave(h: HubState, player: string): HubState {
    if player !in h.clients || h.clients[player].lobbyId.None? then h
    else
      var lid := h.clients[player].lobbyId.value;
      var h1 := h.(clients := SetLobby(h.clients, player, None));
      if lid !in h.lobbies then h1
      else if h.lobbies[lid].hostId == player then Destroy(h1, lid)
      else WithRoom(h1, lid, ClearPaths(Vacate(h.lobbies[lid], player)))
  }

  function DoKick(h: HubState, player: string, seat: nat): HubState {
    var lid := RoomHostedBy(h, player);
    if lid.None? then h
    else
      var l := h.lobbies[lid.value];
      if At(l, seat).None? || At(l, seat).value.playerId == l.hostId then h
      else
        var h1 := WithRoom(h, lid.value, Resettle(Put(l, seat, None)));
        h1.(clients := SetLobby(h.clients, At(l, seat).value.playerId, None))
  }

  function DoMove(h: HubState, player: string, from: nat, to: nat): HubState {
    var lid := RoomHostedBy(h, player);
    if from == to || lid.None? then h
    else
      var l := h.lobbies[lid.value];
      if !ValidSeat(l, from) || !ValidSeat(l, to) || At(l, from).None? then h
      else WithRoom(h, lid.value, Resettle(Transpose(l, from, to)))
  }

  function DoSeatMove(h: HubState, player: string, to: nat): HubState {
    var lid := RoomOf(h, player);
    if lid.None? then h
    else
      var l := h.lobbies[lid.value];
      var from := SeatOf(l, player);
      if from.None? || !ValidSeat(l, from.value) || !ValidSeat(l, to) || from.value == to || At(l, to).Some? then h
      else WithRoom(h, lid.value, Resettle(Transpose(l, from.value, to)))
  }

  /** A swap inside one table keeps the path reports; one across the tables clears them. */
  function AfterSwap(l: Lobby, mine: nat, theirs: nat): Lobby {
    if IsGallery(mine) != IsGallery(theirs) then Resettle(l) else UnreadyAll(l)
  }

  function DoSwapAnswer(h: HubState, player: string, asker: string, accept: bool): HubState {
    var lid := RoomOf(h, player);
    if lid.None? || asker == "" || !accept then h
    else
      var l := h.lobbies[lid.value];
      var (mine, theirs) := (SeatOf(l, player), SeatOf(l, asker));
      if mine.None? || theirs.None? || mine == theirs || !ValidSeat(l, mine.value) || !ValidSeat(l, theirs.value) then h
      else WithRoom(h, lid.value, AfterSwap(Transpose(l, mine.value, theirs.value), mine.value, theirs.value))
  }

  function DoSetReady(h: HubState, player: string, ready: bool): HubState {
    var lid := RoomOf(h, player);
    if lid.None? then h
    else
      var l := h.lobbies[lid.value];
      var i := FirstSeated(l.slots, player);
      if i.None? then h
      else WithRoom(h, lid.value, l.(slots := l.slots[i.value := Some(l.slots[i.value].value.(ready := ready))]))
  }

  function DoReport(h: HubState, player: string, kind: PathKind, now: nat): HubState {
    var lid := RoomOf(h, player);
    if lid.None? then h
    else
      var l := h.lobbies[lid.value];
      var i := FirstSeated(l.slots, player);
      if i.None? then h
      else
        var s := l.slots[i.value].value.(path := Some(PathReport(kind, now)));
        WithRoom(h, lid.value, l.(slots := l.slots[i.value := Some(s)]))
  }

  function DoSetEndpoint(h: HubState, player: string, endpoint: string): HubState {
    var lid := RoomHostedBy(h, player);
    if lid.None? || endpoint == "" then h
    else
      var l := h.lobbies[lid.value];
      var l1 := if l.hostEndpoint != endpoint && !ViaIce(l.caps) then l.(slots := MapSeq(l.slots, ClearCell)) else l;
      WithRoom(h, lid.value, l1.(hostEndpoint := endpoint))
  }

  function DoSetCaps(h: HubState, player: string, raw: RawCaps): HubState {
    var lid := RoomHostedBy(h, player);
    if lid.None? || SanitizeCaps(raw).None? then h
    else WithRoom(h, lid.value, h.lobbies[lid.value].(caps := SanitizeCaps(raw)))
  }

  /** The caps a start runs with: those sent with it, else the room's. */
  function CapsFor(l: Lobby, raw: RawCaps): Option<Caps> {
    if SanitizeCaps(raw).Some? then SanitizeCaps(raw) else l.caps
  }

  /** What the room decides when its host presses start. */
  function StartVerdict(l: Lobby, raw: RawCaps, now: nat): Result<Transport, Refusal> {
    if PlayerCount(l) < 2 then Err(NeedTwoPlayers) else StartTransport(l, CapsFor(l, raw), true, now)
  }

  /** What a host's start is answered with: the room to launch and its transport, or nothing. */
  function StartAsked(h: HubState, player: string, raw: RawCaps, now: nat): Option<(string, Transport)> {
    var lid := RoomHostedBy(h, player);
    if lid.None? then None
    else
      var v := StartVerdict(h.lobbies[lid.value], raw, now);
      if v.Err? then None else Some((lid.value, v.value))
  }

  /** The launch after a granted start. It is a step of its own, and checks nothing again. */
  function DoLaunch(h: HubState, lid: string, raw: RawCaps): HubState {
    if lid !in h.lobbies then h
    else
      var l := h.lobbies[lid];
      WithRoom(h, lid, UnreadyAll(l.(caps := CapsFor(l, raw), started := true)))
  }

  function DoClose(h: HubState, player: string): HubState {
    var lid := RoomHostedBy(h, player);
    if lid.None? then h else Destroy(h, lid.value)
  }

  function Step(h: HubState, now: nat, e: Event): HubState {
    match e
    case Connect(p, name) => if p in h.clients then h else h.(clients := h.clients[p := Client(name, None)])
    case Hello(p, name, random) => DoHello(h, p, name, random)
    case Create(p, lid, name, n, gallery, endpoint, raw) => DoCreate(h, p, lid, name, n, gallery, endpoint, raw)
    case Join(p, lid, name, admitted, random) => DoJoin(h, p, lid, name, admitted, random)
    case Leave(p) => DoLeave(h, p)
    case Kick(p, seat) => DoKick(h, p, seat)
    case Move(p, from, to) => DoMove(h, p, from, to)
    case SeatMove(p, to) => DoSeatMove(h, p, to)
    case SwapAnswer(p, asker, accept) => DoSwapAnswer(h, p, asker, accept)
    case SetReady(p, ready) => DoSetReady(h, p, ready)
    case Report(p, kind) => DoReport(h, p, kind, now)
    case SetEndpoint(p, endpoint) => DoSetEndpoint(h, p, endpoint)
    case SetCaps(p, raw) => DoSetCaps(h, p, raw)
    case Launch(lid, raw) => DoLaunch(h, lid, raw)
    case Close(p) => DoClose(h, p)
    case Disconnect(p) =>
      var h1 := DoLeave(h, p);
      h1.(clients := h1.clients - {p})
  }

  type History = seq<(nat, Event)>

  function Run(run: History): HubState {
    if run == [] then EMPTY else Step(Run(run[..|run| - 1]), run[|run| - 1].0, run[|run| - 1].1)
  }
}
