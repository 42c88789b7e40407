# Matchmaking and lobby server: verified model

A Dafny model of a game-lobby and matchmaking server, and proofs about it. The model follows the server's own
code, part by part:

- **Automatch** (`Matchmaking`, `MatchQueue`, `AcceptGate`, `GateTheorems`, `GateLaws`, `AutomatchHub`). Tickets wait
  in a queue. A pairing run offers pairs, fairest first; an offer needs two answers, lapses, or is orphaned by a
  departure. The theorems are about every history of messages and clock ticks.
- **Strikes** (`Retention`). The cooldown ladder, and the sweep that forgets old rows.
- **Delay floor** (`DelayFloor`). How many frames of delay and prediction a measured link needs, in the source's
  32-bit arithmetic, with frame times as reals.
- **WebSocket lobby** (`Seats`, `LobbyHub`, `LobbyTheorems`, `LobbyLaws`, `LobbyPaths`, `LobbyLaunch`, `WsRoom`,
  `WsHub`). Two tables of seats share one index space; client rows point at rooms. Path reports must be about the people
  now seated when a start is decided; the launch that follows checks nothing again.
- **Relay limits and chat** (`SignalBucket.dfy`, `ChatRing`). A token bucket and a bounded ring of chat lines.
- **Chat filter** (`ChatFilter`). A greedy matcher, proved to decide a declarative language, and the in-place masking
  scan. The word list promises that letters on either side prevent a hit; the code asks the original characters, for
  which an upper-case letter is no letter, and the model follows the code.
- **IP-to-country table** (`IpRanges`, `Bytes`, `IpTable`, `IpTheorems`, `IpExact`, `BlobLayout`). A small compiler of
  address ranges to a blob, and the binary-search reader of that blob, with the exact condition on the raw records under
  which the two together answer as the records do.
- **HTTP rooms** (`Rooms`, `RoomLaws`) and **metric labels** (`Text`, `GameLabels`).

`Lists` and `Wrappers` hold the shared vocabulary.

Where the source changes state in place, a class or a method with loops does the same here, and its `ensures` equates
the new state with a step function of the old one. The step functions are what the lemmas about histories speak of, so
those lemmas hold of the in-place code too. A history is a sequence of events, each with the clock its handler read.

What an operation does is also stated a second time, without the functions that define it: in milliseconds and frames,
in bytes, in cells of a table, in the characters beside a word. `GateLaws`, `LobbyLaws`, `RoomLaws` and `BlobLayout`
hold nothing else; `EligibleExactly`, `TiersFitTheirLinks`, `MatcherFindsSpellings` and `CooldownCountsDown` are
examples from the other modules. The invariants say what never happens; these laws say what does.

Where a property one might expect is not true of the code, the code stands: a lemma gives a concrete input on which it
fails, and another says exactly when it holds (`DelayFloor`, `IpRanges`, `IpExact`, `ChatFilter`, `Retention`,
`LobbyLaunch`).

## Model

| member | source | states |
|---|---|---|
| `GateTheorems.GateInvariant` | src/automatch.rs:738-886 | every state reachable by connecting, signing in, queueing, answering, cancelling, disconnecting and ticking keeps the gate invariant below |
| `GateTheorems.OneTicketPerAccount` | src/automatch.rs:775-781 | over every history, waiting tickets and both sides of all live offers belong to pairwise distinct accounts |
| `GateTheorems.LiveOffersAreOpen` | src/automatch.rs:738-753 | no live offer is already decided, pairs an account with itself, or carries an id that was closed before |
| `GateTheorems.EveryOfferClosesOnce` | src/automatch.rs:847-886 | each id ever issued belongs to exactly one live offer or was closed exactly once, and no other id was |
| `GateTheorems.ClosedEitherWay` | src/ws_lobby.rs:4336-4400 | over every history the closed offers are exactly those that became a match and those that cost somebody a strike, and none did both |
| `GateTheorems.ChargedAtMostOnce` | src/ws_lobby.rs:4362-4400 | no account is charged twice for one offer, in any history |
| `GateTheorems.EveryChargeIsFair` | src/ws_lobby.rs:4336-4400 | every strike of every history has one event that made it, at that event's second, about an offer live just before it: a decline by that very side naming that offer or none, its cancel or disconnect, or a tick once the offer's time was over and the side had not said yes |
| `GateTheorems.MatchesCostNothing` | src/ws_lobby.rs:4336-4358 | in no history is anybody charged for an offer that became a match, before or after |
| `GateTheorems.AccepterIsNeverCharged` | src/ws_lobby.rs:4336-4400 | the single step behind it: the next event after an offer was live does not charge a side that said yes, unless that side declines, cancels or disconnects in it |
| `GateTheorems.QueuedMeansHeld` | src/automatch.rs:775-781 | over every history the account look-up is true exactly when one, and only one, place holds the account: a waiting ticket or a side of a live offer |
| `GateTheorems.LeaverPaysOtherReturns` | src/ws_lobby.rs:4320-4400 | when a side declines, cancels or disconnects, its offer closes without a match, exactly that side is charged, and the other side waits at index 0 with a fresh clock |
| `GateTheorems.ExpiryRequeuesAccepters` | src/ws_lobby.rs:4790-4817 | after an expiry the queue is the accepters of the lapsed offers, then everybody who was waiting, in order |
| `GateTheorems.MatchesAreMutual` | src/automatch.rs:751-753 | every match ever formed had both players answer yes while it was live, in a reply that named that offer or none |
| `GateTheorems.YesWasGiven` | src/automatch.rs:847-871 | every recorded yes was given by that player at some earlier event, in a reply that named that offer or none, while it was live |
| `GateTheorems.OffersMeetHardRules` | src/automatch.rs:703-727 | every offer ever live and every match ever formed is between two accounts with no block either way, under a title both asked for, and its relay has an endpoint unless both are on ICE |
| `GateLaws.LateRepliesAreIgnored` | src/automatch.rs:847-871 | over every history, a reply that names another offer than the player's live one, or comes when there is none, changes nothing at all |
| `GateLaws.YesCounts` | src/automatch.rs:847-871 | a yes to the player's own live offer: the second one forms the match, closes the offer, notes the pairing and seats both; the first is only written down |
| `GateLaws.TickClosesWhatRanOut` | src/ws_lobby.rs:4790-4819 | at a tick exactly the offers whose time is over are closed, each side without a yes is charged, and the other offers stay |
| `GateLaws.TicksPair` | src/ws_lobby.rs:4790-4819 | after a tick no two waiting tickets with a title in common may play, in raw numbers |
| `GateLaws.RequestsBecomeTickets` | src/ws_lobby.rs:4064-4300 | a request of a connected client is taken exactly when automatch is on, the account is signed in, in no lobby, held nowhere in the queue and free of cooldown, and nothing about it is refused; its ticket holds what was asked and the queue pairs; else nothing changes |
| `GateLaws.LeavingTheQueue` | src/automatch.rs:806-813 | a cancel or disconnect while on no offer takes out exactly that connection's ticket and changes nothing else |
| `GateLaws.ProbesLand` | src/ws_lobby.rs:4301-4318 | over every history a measurement lands on the connection's row and on its one ticket, and nowhere else |
| `GateLaws.RowsFollow` | src/ws_lobby.rs:5032-5044 | connecting, signing in, blocking and entering or leaving a lobby change that one thing of that one row; an account never changes |
| `AcceptGate.StepKeeps` | src/ws_lobby.rs:4064-4400 | one handler keeps the whole invariant, whatever the message and the clock |
| `AcceptGate.PairUpKeeps` | src/automatch.rs:896-930 | a pairing run keeps the invariant: accounts move from tickets to offers and ids are drawn once each |
| `AcceptGate.ExpireKeeps` | src/automatch.rs:874-886 | lapsing and settling any number of offers keeps the invariant |
| `Matchmaking.FindPairPass` | src/automatch.rs:980-1036 | the triple loop finds what the specified scan finds |
| `Matchmaking.Find` | src/automatch.rs:975-979 | the strict pass, then the relaxed one |
| `Matchmaking.PassIsFair` | src/automatch.rs:980-1036 | a pass answers with the least first index, then its earliest key, then the least partner; it answers nothing exactly when no pair is eligible; the first index is the smaller |
| `Matchmaking.FairChoice` | src/automatch.rs:902-916 | recent opponents are picked only when no pair anywhere in the queue passes the strict rules |
| `Matchmaking.SearchIsFair` | src/automatch.rs:902-916 | a search finds nobody exactly when no two tickets may play; else two that may, the first as far up the queue as in any pair of its pass, and two who met lately only when that is so of every pair |
| `Matchmaking.EligibleExactly` | src/automatch.rs:1040-1087 | two tickets pair exactly when they are of two accounts, unblocked both ways, relayable, each measured or 3 s old and, until one has waited 100 s, with measured round trips that sum to at most 120 ms, plus 60 ms for every 20 s that one waited; a meeting within the rematch cooldown counts against them in the strict pass alone, and also only until then |
| `Matchmaking.PairableSymmetric` | src/automatch.rs:1040-1087 | eligibility does not depend on which ticket is asked first |
| `Matchmaking.WaitingNeverDisqualifies` | src/automatch.rs:1045-1087 | a pair eligible at some time is eligible at every later time |
| `Matchmaking.PatienceSuffices` | src/automatch.rs:1055-1073 | once either of two compatible tickets has waited 100 s, and each is measured or has waited 3 s, they pass even the strict rules |
| `Matchmaking.PruningIsInvisible` | src/automatch.rs:896-901 | dropping lapsed meetings changes no rematch verdict, then or later |
| `MatchQueue.PairingConserves` | src/automatch.rs:896-930 | the old queue equals the remaining tickets, in their old order, plus exactly the two tickets of each new offer; offers are sound, in queue order inside, with consecutive ids |
| `MatchQueue.PairingIsMaximal` | src/automatch.rs:896-930 | after a run no two remaining tickets are pairable even under the relaxed rules |
| `MatchQueue.PairingExactly` | src/automatch.rs:896-930 | in raw numbers: a run offers only pairs that may play, under a key both named, and leaves no two tickets with a shared key that may |
| `MatchQueue.RunsArePicky` | src/automatch.rs:896-930 | a run offers nothing exactly when no two tickets may play; else its first offer takes, of the pairs that have not met lately or of all when all have, one whose first ticket is furthest up the queue |
| `MatchQueue.FreshMeetings` | src/automatch.rs:896-901 | forgetting lapsed meetings keeps exactly those younger than the rematch cooldown, in order |
| `MatchQueue.NobodyWaitsForever` | src/automatch.rs:896-930 | after any run no two people with a title in common, no block either way and somebody to relay remain once either has waited 100 s, measured or, after 3 s, not |
| `MatchQueue.RelayIsAble` | src/automatch.rs:703-727 | a pair that can be relayed gets a relay, and the one chosen has an endpoint unless the pair is on ICE; where both could, it is the one with the lower known round trip, the first on a tie |
| `MatchQueue.Queue.Push` | src/automatch.rs:799-803 | appends the ticket |
| `MatchQueue.Queue.RequeueFront` | src/automatch.rs:832-836 | puts the ticket at index 0 with a fresh clock |
| `MatchQueue.Queue.UpdateRtt` | src/automatch.rs:815-822 | the connection's first ticket, and no other, takes the measurement |
| `MatchQueue.Queue.Remove` | src/automatch.rs:806-813 | drops the connection's tickets and hands back its offer |
| `MatchQueue.Queue.Answer` | src/automatch.rs:847-871 | records one answer, and hands the offer out exactly when it is then decided |
| `MatchQueue.Queue.TakeExpired` | src/automatch.rs:874-886 | the in-place scan removes exactly the lapsed offers and returns them in order |
| `MatchQueue.Queue.Pair` | src/automatch.rs:896-930 | the in-place pairing loop reaches the state of the specified rounds |
| `AcceptGate.RefusedOrQueued` | src/ws_lobby.rs:4064-4300 | a request is refused exactly when it breaks one of the rules for queueing |
| `AutomatchHub.Hub.HandleQueue` | src/ws_lobby.rs:4064-4300 | answers with the code of the first rule broken, a bad relay endpoint last of all, and changes nothing; else queues one ticket and pairs |
| `AutomatchHub.Hub.HandleSetBlocks` | src/ws_lobby.rs:5032-5044 | the connection's block list, which later tickets carry |
| `AutomatchHub.Hub.HandleRtt` | src/ws_lobby.rs:4301-4318 | the measurement lands on the connection and its ticket |
| `AutomatchHub.Hub.HandleCancel` | src/ws_lobby.rs:4320-4334 | leaving while on offer settles the offer against the leaver |
| `AutomatchHub.Hub.HandleAccept` | src/ws_lobby.rs:4336-4358 | records the answer and forms or settles a decided offer |
| `AutomatchHub.Hub.SettleDeclined` | src/ws_lobby.rs:4362-4400 | charges one side and requeues the other if it is still connected |
| `AutomatchHub.Hub.HandleTick` | src/ws_lobby.rs:4790-4819 | lapses dead offers, settling each, then pairs |
| `AutomatchHub.Hub.HandleDisconnect` | src/ws_lobby.rs:1818-1829 | the queue part of a closed socket |
| `Retention.SweepsAreInvisible` | src/automatch.rs:1109-1132 | for any retention settings and any interleaving of strikes and sweeps, every later cooldown is that of the unpruned table |
| `Retention.PruneKeepsCounted` | src/automatch.rs:1199-1221 | a sweep keeps every strike that any later cooldown counts |
| `Retention.SweepsDropTheOld` | src/automatch.rs:1199-1221 | a sweep keeps exactly the rows younger than the retention, or than 24 hours where that is longer |
| `Retention.CooldownCountsDown` | src/automatch.rs:1109-1132 | an account waits nothing without a strike in the last 24 hours; else the rung its strikes of that time reach, the last at most, less the seconds since the latest |
| `Retention.LadderTheorem` | src/automatch.rs:1109-1132 | one more strike never shortens a cooldown, for all tables and times, exactly when the ladder never steps down |
| `DelayFloor.ComputeFloor` | src/automatch.rs:521-575 | for all inputs the delay is in 2..20 and the prediction in 2..16 |
| `DelayFloor.SanitizeRtt` | src/automatch.rs:597-606 | a reported round trip is -1 exactly when it was negative, is kept when within 2000 ms, and is never more |
| `DelayFloor.FramesCoverTheTrip` | src/automatch.rs:436-459 | (needed - 1) frames cover the one-way trip and one fewer would not, exactly when the count fits u32 |
| `DelayFloor.NeverBelowAuthored` | src/automatch.rs:521-575 | never below the clamped authored prediction; never below the clamped authored delay exactly unless the u32 sum wraps in the stated window |
| `DelayFloor.CoverageTheorem` | src/automatch.rs:521-575 | with rollback, every measured link has delay + prediction of at least min(needed, 36) exactly when the authored prediction is at most 16 or the authored delay at least 20 |
| `DelayFloor.RunwayFollowsDelay` | src/automatch.rs:490-494 | with rollback the prediction is at least min(4 + delay, 16) |
| `DelayFloor.TiersFitTheirLinks` | src/automatch.rs:469-487 | at 60 Hz each tier's delay below 260 ms carries its links without any runway and overshoots by at most two frames |
| `DelayFloor.FloorWithNothingAuthored` | src/automatch.rs:521-575 | the floor of every measured rollback pair with nothing authored, at 60 Hz or slower, tier by tier in numbers; from 260 ms on in terms of the frames needed |
| `DelayFloor.UnmeasuredRunsAsAuthored` | src/automatch.rs:521-575 | without a measurement the authored numbers hold inside the clamps, 2 and 2 when there are none |
| `DelayFloor.DelayOnlyCovers` | src/automatch.rs:496-500 | without rollback the delay is at least min(needed, 20) |
| `DelayFloor.DelayOnlyIsLeast` | src/automatch.rs:496-500 | the frames but three are the fewest of 33 ms that cover the whole round trip, one at least, until the clamp at 20 |
| `DelayFloor.DelayOnlyFloor` | src/automatch.rs:521-575 | with nothing authored that delay, or the frames needed where they are more, and no fewer would do both; the prediction is 2 |
| `DelayFloor.ShortfallOnlyInTopTier` | src/automatch.rs:469-494 | for frames of 60 Hz or slower only a link of 260 ms or more can be short of frames |
| `DelayFloor.MonotoneExactly` | src/automatch.rs:521-575 | for any authored numbers and frame time, neither number falls on any longer link exactly when neither falls at the six steps from one delay tier to the next (49 to 50 ms, 79, 119, 159, 199, 259) |
| `DelayFloor.FloorIsMonotone` | src/automatch.rs:521-575 | for frames of 129.5 / 22 ms (about 170 Hz) or longer neither number falls when either round trip grows, whatever is authored |
| `DelayFloor.ShorterFramesDrop` | src/automatch.rs:521-575 | that bound is sharp: with nothing authored, every frame time from 130 / 23 ms up to it has a longer link with a smaller number |
| `DelayFloor.ShortFramesAreNotMonotone` | src/automatch.rs:521-575 | counterexample for one-millisecond frames: 50 ms gets a smaller delay than 49 ms |
| `DelayFloor.WrappingUndercuts` | src/automatch.rs:521-575 | counterexample: an authored delay at the end of u32 wraps and is undercut |
| `LobbyTheorems.RunInvariant` | src/ws_lobby.rs:1626-1697 | over every history of human-hosted rooms: each room is well shaped, no two seats share a player or a name, the host sits, and client rows and seats agree |
| `LobbyTheorems.StepKeeps` | src/ws_lobby.rs:1833-2035 | each handler keeps that invariant |
| `LobbyTheorems.OneSeatPerClient` | src/ws_lobby.rs:838-907 | a client's lobby id is L exactly when L seats it; that seat is then its only one in any room, and carries the name in its row |
| `LobbyTheorems.RoomsStaySound` | src/ws_lobby.rs:1626-1697 | the host of every room is connected, in that room and seated; names in a room are pairwise distinct |
| `LobbyTheorems.RearrangingIsTransposition` | src/ws_lobby.rs:2996-3012 | a host's move, a member's move and an accepted swap each exchange the occupants of exactly two seats of one room, across the two tables or within one, and leave every other room and every client row alone |
| `LobbyLaws.MovesHappen` | src/ws_lobby.rs:2926-3016 | in every reachable state the host's move between two different seats, inside a table or across, does exchange them whenever the first is occupied; any other move changes nothing |
| `LobbyLaws.SeatMovesHappen` | src/ws_lobby.rs:3032-3109 | a member's own move takes it to any other seat of either table that is empty, and otherwise changes nothing |
| `LobbyLaws.SwapsHappen` | src/ws_lobby.rs:3183-3235 | an accepted swap of two seated members does exchange their seats; reports are dropped exactly when it crosses the tables; a refusal changes nothing |
| `LobbyLaws.JoinersSitDown` | src/ws_lobby.rs:2706-2831 | an admitted joiner takes the first free seat; every other cell keeps its occupant, un-readied at play and without report |
| `LobbyLaws.OtherJoinsSeatNobody` | src/ws_lobby.rs:2452-2540 | a refused joiner, one already seated and one who finds no free seat change no room, and at most their own name |
| `LobbyLaws.LeaversGo` | src/ws_lobby.rs:1649-1697 | a leaving guest is in no seat and no room and nobody else moves; a leaving host takes the room and everybody's lobby id with it |
| `LobbyLaws.ClosedConnectionsGo` | src/ws_lobby.rs:1818-1829 | a closed connection leaves, and then has no row |
| `LobbyLaws.HostsClose` | src/ws_lobby.rs:1995-2010 | a close dissolves the room exactly when it is its host's |
| `LobbyLaws.KicksEmptyTheSeat` | src/ws_lobby.rs:2833-2907 | the host's kick empties an occupied seat not its own and ends that client's stay; any other kick changes nothing |
| `LobbyLaws.HellosRename` | src/ws_lobby.rs:4947-4995 | a name sticks as sent outside a room; inside one its free form goes to the row and to the sender's cells, and no other cell changes |
| `LobbyLaws.NewcomersHaveARow` | src/ws_lobby.rs:1701-1726 | a new connection has a row with its name and no room; a known one is left alone |
| `LobbyLaws.CreatorsHost` | src/ws_lobby.rs:2274-2418 | with fewer than 64 rooms a client in none opens one: 2 to 8 seats as asked, four gallery seats or none, itself alone in seat 0 |
| `LobbyLaws.ReadyIsOnesOwn` | src/ws_lobby.rs:3447-3492 | ready changes the sender's own cell at play, and nothing from the gallery |
| `LobbyLaws.ReportsAreStored` | src/ws_lobby.rs:3334-3375 | a report is stored in the sender's own cell at play with the time it came, and nowhere from the gallery |
| `LobbyLaws.HostsSetUp` | src/ws_lobby.rs:3250-3320 | the host's endpoint and caps replace the room's, and a changed endpoint drops the players' reports exactly off ICE; nobody else's do anything |
| `LobbyLaws.LaunchesStart` | src/ws_lobby.rs:3660-3690 | a launch starts the match with the caps sent or the room's and un-readies everybody at play |
| `LobbyLaws.OutsidersChangeNothing` | src/ws_lobby.rs:1833-2035 | whoever is in no room changes nothing by any message that acts on the sender's room |
| `LobbyTheorems.JoinKeeps` | src/ws_lobby.rs:2706-2831 | a join keeps the invariant, whether it seats, overflows to the gallery or is refused |
| `LobbyTheorems.HelloKeeps` | src/ws_lobby.rs:4947-4995 | a rename keeps seat and row in step and names distinct |
| `LobbyTheorems.EvictedAreMembers` | src/ws_lobby.rs:1626-1647 | in every sound state the clients a destroyed room evicts, the seated ones, are exactly those whose row names it |
| `LobbyPaths.StartIsProven` | src/ws_lobby.rs:1356-1427 | when a two-player room is granted a host-relay start, the guest sent a direct report at most 120 s before, and since that report exactly the same players, and nobody in the gallery, have been seated |
| `LobbyPaths.ReportsAreAboutThePresent` | src/ws_lobby.rs:1312-1317 | every stored report was sent by that player, at that time, and the company of the room has not changed since |
| `LobbyPaths.StepFate` | src/ws_lobby.rs:1312-1317 | one handler either leaves a surviving room with no reports, or keeps its company and adds no report but the one just sent |
| `LobbyPaths.TablesNeverChange` | src/ws_lobby.rs:838-862 | while a room exists its table sizes and its host never change |
| `LobbyPaths.LaunchMayMissAPlayer` | src/ws_lobby.rs:3660-3757 | for every granted start, on either transport and with any number of players: a guest who leaves before the launch is not in the match that starts, because the launch checks nothing again |
| `LobbyLaunch.CompanyChangesExactly` | src/ws_lobby.rs:1833-2035 | in every reachable state a message changes who plays and who watches in a room exactly when its handler's guards let it: an admitted join that finds a seat, a member's leave or disconnect, the host's close or kick of a guest, and a move, seat move or accepted swap between the two tables |
| `LobbyLaunch.StartsExactly` | src/ws_lobby.rs:1356-1427 | in every reachable state a room may start exactly when two or more play, nobody watches, and there are caps unless exactly two play; over the host relay exactly when there are caps and either more than two play or each guest's report is direct and at most 120 s old |
| `LobbyLaunch.OneMessageBetween` | src/ws_lobby.rs:3599-3757 | with one message between any granted start and its launch, the room launches with the company it was granted for exactly when that message is not one of these |
| `LobbyLaunch.LaunchedAsGranted` | src/ws_lobby.rs:3599-3757 | after any number of messages, none of them one of these, it launches with the company it was granted for |
| `Seats.SeatOfIsAt` | src/ws_lobby.rs:838-899 | looking a player up and looking a seat up agree over the shared index space |
| `Seats.TransposeMoves` | src/ws_lobby.rs:2996-3010 | taking and putting two cells is a transposition of the shared index space |
| `Seats.TransposeTwice` | src/ws_lobby.rs:2996-3010 | doing it twice restores the room |
| `Seats.JoinSeatIsFirstFree` | src/ws_lobby.rs:2763-2776 | a joiner gets the least free index, so the gallery only when the players are full, and is refused exactly when no seat is free |
| `Seats.UniqueDisplayName` | src/ws_lobby.rs:1434-1466 | the candidate loop computes the specified name |
| `Seats.NamesAreFree` | src/ws_lobby.rs:1434-1466 | the name found is taken by nobody else, and the random suffix is never needed: 12 seats, 63 distinct candidates |
| `Seats.NamesAreAsAsked` | src/ws_lobby.rs:1434-1466 | a name is given as asked, trimmed, or as Guest when nothing is left of it; a taken one is followed by the least free number from 2 on |
| `WsRoom.Room.SeatOfPlayer` | src/ws_lobby.rs:885-899 | the seat in the shared index space |
| `WsRoom.Room.Unready` | src/ws_lobby.rs:2806-2808 | clears ready in the player table only |
| `WsRoom.Room.ForgetPaths` | src/ws_lobby.rs:1312-1317 | clears every path report in both tables |
| `WsRoom.Room.Exchange` | src/ws_lobby.rs:2996-3010 | take both cells, put each in the other's place: a transposition |
| `WsRoom.Room.MoveToEmpty` | src/ws_lobby.rs:3099-3109 | one cell moved into an empty one, which is the same transposition |
| `WsRoom.Room.Swap` | src/ws_lobby.rs:3213-3235 | an accepted swap; paths are cleared exactly when it crosses the tables |
| `WsRoom.Room.SitDown` | src/ws_lobby.rs:2777-2812 | seats a joiner, un-readies, clears paths |
| `WsRoom.Room.StandUp` | src/ws_lobby.rs:1674-1682 | empties a departing player's cells and clears paths, leaving ready flags alone |
| `WsRoom.Room.ChooseSeat` | src/ws_lobby.rs:2763-2776 | the seat the specification gives |
| `WsRoom.Room.Decide` | src/ws_lobby.rs:1356-1400 | the loop over the players decides whether the host relay is proven |
| `WsRoom.Room.MayStart` | src/ws_lobby.rs:1411-1427 | the transport a start gets, or the reason it gets none |
| `WsHub.Hub.constructor` | src/ws_lobby.rs:331-343 | an empty hub |
| `WsHub.Hub.HandleConnect` | src/ws_lobby.rs:1701-1726 | a new client has a row and no room |
| `WsHub.Hub.HandleHello` | src/ws_lobby.rs:4947-4995 | the row takes the name; a member gets a free form of it, in seat and row alike |
| `WsHub.Hub.HandleCreate` | src/ws_lobby.rs:2274-2418 | unless seated or at the room limit, a new room with its creator in seat 0 and an empty gallery or none |
| `WsHub.Hub.SeatJoinerLocked` | src/ws_lobby.rs:2706-2831 | the joiner sits in the first free seat under a free name, everybody is un-readied and every path report dropped; or nothing changes |
| `WsHub.Hub.HandleJoin` | src/ws_lobby.rs:2452-2540 | the offered name sticks even when the join is refused; a client already in a room changes nothing |
| `WsHub.Hub.DestroyLobby` | src/ws_lobby.rs:1626-1647 | the room is gone, and exactly its members' rows lose it |
| `WsHub.Hub.HandleLeave` | src/ws_lobby.rs:1649-1697 | a leaving host destroys the room; a leaving guest vacates its seats and drops every path report |
| `WsHub.Hub.HandleKick` | src/ws_lobby.rs:2833-2907 | the host's kick empties that seat and clears that row; empty, unknown and host seats are refused |
| `WsHub.Hub.HandleMove` | src/ws_lobby.rs:2926-3016 | only the host moves others, from an occupied seat, exchanging the two cells |
| `WsHub.Hub.HandleSeatMove` | src/ws_lobby.rs:3032-3109 | a member moves itself, and only to an empty seat |
| `WsHub.Hub.HandleSwapAnswer` | src/ws_lobby.rs:3183-3235 | an accepted answer exchanges the two seats; a refused or stale one changes nothing |
| `WsHub.Hub.HandleSetReady` | src/ws_lobby.rs:3447-3492 | only a player's own flag in the player table changes |
| `WsHub.Hub.HandleReport` | src/ws_lobby.rs:3334-3375 | only the sender's own player seat takes the report, with the time it came |
| `WsHub.Hub.HandleSetEndpoint` | src/ws_lobby.rs:3250-3320 | only the host sets it; a change drops the players' path reports unless the room runs over ICE |
| `WsHub.Hub.HandleSetCaps` | src/ws_lobby.rs:3393-3440 | only the host sets them, and refused caps change nothing |
| `WsHub.Hub.DecideStart` | src/ws_lobby.rs:3599-3652 | the first critical section of a start: grant or refuse |
| `WsHub.Hub.CommitLaunch` | src/ws_lobby.rs:3660-3690 | the second one: launch the room as it is by then |
| `WsHub.Hub.HandleClose` | src/ws_lobby.rs:1995-2010 | only the host closes its room, which destroys it |
| `WsHub.Hub.HandleDisconnect` | src/ws_lobby.rs:1818-1829 | a leave, after which the client has no row |
| `SignalBuckets.SignalBucket.Allow` | src/ws_lobby.rs:152-165 | the in-place refill and take |
| `SignalBuckets.BucketIsExact` | src/ws_lobby.rs:120-165 | at non-decreasing times a call is allowed exactly when every window ending at it still has room for one more |
| `SignalBuckets.RateIsBounded` | src/ws_lobby.rs:120-165 | no window of length d lets through more than 60 + 60 d |
| `SignalBuckets.PoliteSendersPass` | src/ws_lobby.rs:120-165 | a run whose every window obeys that bound is never refused |
| `ChatRing.Ring.Remember` | src/ws_lobby.rs:285-308 | appends the line to the log under the next number in hexadecimal; the ring stays the last 1000 lines of the log |
| `ChatRing.Ring.ChatWithContext` | src/ws_lobby.rs:316-331 | finds nothing exactly when no held line has that id, else exactly that line and its context |
| `ChatRing.HexInjective` | src/ws_lobby.rs:294-295 | rendered ids determine their numbers |
| `ChatRing.NextIdIsFree` | src/ws_lobby.rs:294-295 | no line of the log carries the next id: ids are never reused |
| `ChatRing.ContextIsOneRoomInOrder` | src/ws_lobby.rs:316-331 | every one of the last 1000 lines is found, and its context quotes, in order, exactly those of the six lines before it that the ring still holds and that were said in its room |
| `ChatFilter.MatchAt` | src/chat_filter.rs:131-158 | the nested loops find the end the greedy scan finds |
| `ChatFilter.MatcherDecides` | src/chat_filter.rs:131-158 | for a faithful word, an end exactly when the word's longest match at the position has no letter on either side in the original text, or may stand anywhere; and then that match's end |
| `ChatFilter.MatcherFindsSpellings` | src/chat_filter.rs:131-158 | the same without the language: the end is that of the longest stretch that spells the word, each letter once or more, with separators between where the word allows them |
| `ChatFilter.PlainNeighbours` | src/chat_filter.rs:131-158 | in plain lower-case text the sides of a whole word are the text's ends, blanks or digits |
| `ChatFilter.InsideAWordExactly` | src/chat_filter.rs:234-243 | a whole word is found inside a longer word exactly when an upper-case ASCII letter is beside it, which the code takes for no letter; the list's own rule that letters on either side prevent a hit holds in any text without one |
| `ChatFilter.UpperCaseHidesAWord` | src/chat_filter.rs:131-158 | counterexample: with "ass" listed as a whole word "bass" is left alone and "BASS" becomes "B***" |
| `ChatFilter.FaithfulExactly` | src/chat_filter.rs:131-158 | the greedy scan decides a word's language on every text exactly when the word has no separator after its first character, if it allows separators at all |
| `ChatFilter.BestEnd` | src/chat_filter.rs:99-112 | the furthest end any listed word reaches, or none |
| `ChatFilter.Mask` | src/chat_filter.rs:89-127 | the in-place scan: length kept, stars exactly over disjoint longest matches, no word left to match at an unstarred letter |
| `ChatFilter.MaskingIsDetermined` | src/chat_filter.rs:89-127 | that description has one solution: any two texts that meet it are equal |
| `ChatFilter.MaskedTextIsClean` | src/chat_filter.rs:89-127 | each starred stretch is a listed word's longest match, with no letter on either side unless the word may stand anywhere; at an unstarred letter no listed word's longest match stands so |
| `ChatFilter.HarmlessListsAreStable` | src/chat_filter.rs:89-158 | when every word is unbounded, allows no separators and has no star in it, or can never match, masking any masked text finds nothing more |
| `ChatFilter.HarmfulBreaks` | src/chat_filter.rs:131-158 | any other word that can match has a text, built from it and one foreign letter, whose masking changes again when it is masked again |
| `ChatFilter.HarmlessExactly` | src/chat_filter.rs:89-158 | so these are exactly the words: beside harmless words, a word keeps every list stable exactly when it is harmless or can never match |
| `ChatFilter.MaskingTwice` | src/chat_filter.rs:89-127 | under such a list, and any folding that leaves the star alone, the text masked twice is the text masked once |
| `IpRanges.Merge` | tools/gen_ip_country.py:94-103 | the in-place sort-and-coalesce loop computes the specified ranges |
| `IpRanges.MergeKeepsAnswers` | tools/gen_ip_country.py:94-103 | merging changes no answer, whatever the records |
| `IpRanges.MergeIsInOrderExactly` | tools/gen_ip_country.py:94-103 | each merged range ends by where the later ones start exactly when no address has two countries and no empty record lies strictly inside one of another country |
| `IpRanges.MergeIsTidyExactly` | tools/gen_ip_country.py:94-103 | the case without empty records: the result is also without gaps to close, two ranges of one country never touching, exactly when no address has two countries |
| `IpTheorems.EmptyRecordHidesAnAddress` | tools/gen_ip_country.py:94-103 | counterexample: an empty record of BB at 5 inside 0 to 10 of AA leaves the ranges out of order, and the generated table does not find address 6, which AA's record covers |
| `IpTable.Build` | tools/gen_ip_country.py:116-135 | the byte-array loops write the specified blob |
| `IpTheorems.ParseUndoesPack` | src/ip_country.rs:53-77 | parsing a packed blob gives back its tables and codes |
| `IpTheorems.RowsRead` | src/ip_country.rs:39-50 | every packed entry is read back from where it was written |
| `BlobLayout.BlobIsLaidOut` | tools/gen_ip_country.py:116-135 | byte by byte: the magic, three counts, two letters a country, ten bytes an IPv4 range and eighteen an IPv6 one, least byte first, each row naming its own country by its place in the list, and nothing behind |
| `BlobLayout.ReadExactly` | src/ip_country.rs:53-77 | any file at all is read exactly when it starts with the magic and is as long as its own counts ask for |
| `BlobLayout.CutShortIsRefused` | src/ip_country.rs:53-77 | a table cut short anywhere is not read |
| `BlobLayout.CodesRise` | tools/gen_ip_country.py:116-135 | the countries stand in alphabetical order, each once |
| `IpTheorems.TopHalfDecides` | src/ip_country.rs:117-139 | matching on the top 64 bits loses nothing exactly when the range starts and ends on a boundary of 2^64 |
| `IpTheorems.Search4` | src/ip_country.rs:93-115 | the IPv4 answer is what the last packed range to start by the address says, for any table whose starts ascend |
| `IpTheorems.Search6` | src/ip_country.rs:117-139 | the IPv6 answer is what the last packed range to start by the address's block of 2^64 says, in blocks |
| `IpTable.LookupV4` | src/ip_country.rs:93-115 | the lo/hi loop is the specified binary search |
| `IpTable.LookupV6` | src/ip_country.rs:117-139 | the lo/hi loop on the top 64 bits is the specified binary search |
| `IpTheorems.Lookup4Answers` | src/ip_country.rs:93-115 | in a packed table whose ranges are in order, empty ones among them, the search names exactly the country of the range containing the address |
| `IpTheorems.Lookup6Answers` | src/ip_country.rs:117-139 | in a packed tidy table of prefixes of at most 64 bits the search names exactly the country of the range containing the address |
| `IpExact.TableIsExact` | src/ip_country.rs:144-157 | generate, parse and look up: for any records, every address gets exactly the country its record names, and none when no record does, if and only if the conditions of the next two rows hold |
| `IpExact.Exactly4` | src/ip_country.rs:93-115 | IPv4: no address has two countries, and whatever of a record lies behind an empty record of another country inside it is covered again by a record that starts no earlier than the empty one |
| `IpExact.Exactly6` | src/ip_country.rs:117-139 | IPv6 outside the IPv4-mapped block: every block of 2^64 that a record touches is covered whole and by one country, and a record of IPv4-mapped addresses alone is followed, in sorting order, by one of the country it would hide |
| `IpExact.CoalescePrevails` | tools/gen_ip_country.py:94-103 | the last merged range to start by an address names a country for it exactly when some sorted record does and no later record that starts by it names another |
| `IpTheorems.MappedAnswersAsV4` | src/ip_country.rs:144-157 | an IPv4-mapped address (section 2.5.5.2 of RFC 4291) answers as its IPv4 address, for any blob |
| `IpTheorems.GeneratesExactly` | tools/gen_ip_country.py:116-135 | the generator succeeds exactly when every IPv4 range ends below 2^32, whatever overlaps |
| `Rooms.RoomsStayGood` | src/rooms.rs:102-338 | over every history: members' players and slots are distinct and in range, slot 0 is the host's and only the host's, the session is absent exactly while open, starting means everybody is ready |
| `Rooms.JoinTakesLeastFreeSlot` | src/rooms.rs:169-214 | a joiner gets the least free slot, nobody else moves, and the second full error is unreachable |
| `RoomLaws.JoinsExactly` | src/rooms.rs:169-214 | over every history a join is accepted exactly from a stranger to an open room with a free slot who names its game and version and, if it is private, its code; a wrong or missing code is refused as such |
| `RoomLaws.ListedExactly` | src/rooms.rs:153-167 | over every history a room is listed exactly when a stranger with no code may join it |
| `RoomLaws.LeavesExactly` | src/rooms.rs:216-241 | a departing host takes the room along, a guest only itself, everybody left un-readied and in order; a stranger changes nothing |
| `RoomLaws.PurgesExactly` | src/rooms.rs:316-338 | a purge keeps exactly the rooms used within the idle time whose host was heard within the timeout, and in them exactly the members heard within it |
| `RoomLaws.RequestsStamp` | src/rooms.rs:169-301 | an accepted request stamps the room with its time and changes none of its terms |
| `Rooms.LeaveInv` | src/rooms.rs:216-241 | after a guest's departure every other member stays, in order and with its slot, nobody is ready, and a starting room is open again |
| `Rooms.SetReadyInv` | src/rooms.rs:243-276 | an accepted change leaves the room starting exactly when it is full and everybody is ready; a start draws the session, and a room already starting keeps its own |
| `Rooms.SetReadyTouchesOne` | src/rooms.rs:243-276 | refused exactly for strangers and rooms past starting; else that member's flag and heartbeat change and nobody else's |
| `Rooms.HeartbeatInv` | src/rooms.rs:278-288 | refused exactly for strangers; else that member's heartbeat and nothing else of any member changes |
| `Rooms.RunningIsTheHostsCall` | src/rooms.rs:290-301 | over every history, running is accepted exactly from the host of a starting room, where everybody is ready and the session stays the one the start drew |
| `Rooms.PurgeInv` | src/rooms.rs:316-338 | dropping silent members keeps the invariant in every room that survives |
| `Rooms.ListedRoomsAccept` | src/rooms.rs:153-167 | a listed room accepts any non-member who names its game and version |
| `Rooms.AuthorityIsTheHost` | src/rooms.rs:303-314 | there is a bootstrap exactly for members of rooms past open; it names the host, and only the host, the authority, and carries the room's session, its slot count and the member's own slot |
| `Rooms.RoomRegistry.CreateRoom` | src/rooms.rs:102-147 | adds the new room, or refuses the slot count |
| `Rooms.RoomRegistry.JoinById` | src/rooms.rs:169-214 | the in-place loops over members and slots reach the specified room, and a refusal changes nothing |
| `Rooms.RoomRegistry.LeaveById` | src/rooms.rs:216-241 | the room without the guest stays; with its host it is removed and answered as closed |
| `Rooms.RoomRegistry.SetReadyById` | src/rooms.rs:243-276 | the in-place search and the check of all flags reach the specified room, and a refusal changes nothing |
| `Rooms.RoomRegistry.HeartbeatById` | src/rooms.rs:278-288 | the in-place search reaches the specified room, and a refusal changes nothing |
| `Rooms.RoomRegistry.PurgeStale` | src/rooms.rs:316-338 | the in-place sweep over all rooms |
| `GameLabels.NormalizeGame` | src/metrics.rs:85-114 | the loop with its separator flag computes the specified label |
| `GameLabels.NormalizeIsIdempotent` | src/metrics.rs:85-114 | the result is always a normal label; a name is left alone exactly when it is one; normalising twice changes nothing |
| `GameLabels.LabelsSpellTheName` | src/metrics.rs:85-114 | a label spells the name's letters and digits, in order and in lower case: all of them when the trimmed name has at most 48 characters, else the first of them |
| `GameLabels.LabelSet.InitGameLabels` | src/metrics.rs:67-83 | replaces the set by the allow-list, and is strict exactly when the list is not empty |
| `GameLabels.LabelSet.GameLabel` | src/metrics.rs:116-141 | the in-place look-up and learning |
| `GameLabels.LabelsAreStable` | src/metrics.rs:116-141 | between inits a name's label never changes after its first look-up |
| `GameLabels.FirstNamesKeepTheirOwn` | src/metrics.rs:116-141 | in open mode a name is its own label as long as fewer names than the limit were asked for before |
| `GameLabels.LabelsAreBounded` | src/metrics.rs:116-141 | in open mode at most limit + 2 distinct labels are ever handed out |
| `GameLabels.StrictLabelsAreListed` | src/metrics.rs:116-141 | in strict mode, whatever was asked before, a name's label is itself normalised when it is on the allow-list, and one of the two fold targets otherwise |

## Left out

- Each handler reads the clock once, in whole milliseconds, and runs as one step. The queue handler of the source drops its lock between the account check and the push, so one ticket per account is proved at handler granularity.
- Offer ids are drawn from a counter, which stands for fresh UUIDs; room ids are parameters, and creating under an id in use does nothing.
- A connection's account, once signed in, does not change.
- Strikes and pairings are always recorded: best-effort database failures are not modelled.
- AutomatchHub.Hub.HandleAccept: forming a match records the pairing and seats both players; the room it builds, its room limit, its drop-out branch and the timed relay retry are not modelled, because they do not keep the invariants of human-hosted rooms. Automatch rooms are not part of the lobby model.
- WsHub.Hub.HandleJoin: the checks of password, release, disc, mods and blocks arrive as one verdict.
- Parsing of endpoints and path kinds, session ids, countries, guest and LAN endpoints, and the BIOS, memory-card and mod offers of a seat are not modelled; of the caps only the two relay bits are.
- A start is two steps, as in the source, and the launch may come at any time: what every message keeps is proved without a start having been granted.
- ChatFilter.Mask: folding is any function on characters, so the Unicode tables are not part of this model.
- ChatFilter.HarmlessExactly: needs one letter that the word does not use, to build the breaking text from. What a second masking does to one particular text under a list with other words is not characterised.
- DelayFloor.MonotoneExactly: needs sums of authored numbers that fit u32, frame counts that fit u32 and round trips 32 ms below the end of i32; every reported round trip is at most 2000 ms. Frame times are reals, so NaN and rounding are not modelled.
- DelayFloor.CoverageTheorem: needs sums of authored numbers that fit u32; `WrappingUndercuts` shows what wrapping does.
- SignalBuckets.BucketIsExact: tokens are reals, so f64 rounding is not modelled.
- IpExact.TableIsExact: records that end before they start, from a negative count in a delegation file, are not modelled. An IPv6 record always has an address.
- IpTheorems.GeneratesExactly: the downloads and their text parsing are not modelled; the model starts from (start, end, country) records with two-letter codes, of which there are fewer than 2^32.
- IpRanges.Merge: the library sort is modelled by an insertion sort of the same order.
- Rooms.RoomRegistry.PurgeStale: whether a starting room stays full is not claimed, because dropping silent members can leave it short.
- GameLabels.LabelSet.GameLabel: the read-locked look-up and the write-locked insertion are one step.
- ChatRing.Ring.Remember: line numbers are unbounded, where the source counts in 64 bits.
- Ready flags in the lobby: nothing is claimed about them, because a departure leaves the others' flags set and a ready player moved to the gallery keeps its flag.
- Who is told what: sockets, broadcast channels, HTTP handlers, JSON, metrics, SQL, configuration and logging.
- Sign-in, sessions, password hashing, TURN credentials, MaxMind look-up, mod transfer, peer signalling and probe grants.
- Parts that would add only easy members: room summaries and counts, ruleset loading, caps summaries, desync reports, queue status rows.
