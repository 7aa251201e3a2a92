# A verified model of Multirole

Multirole is a game server: it hosts rooms in which duels are played by a card
game core running in a separate process, and stores every duel as a compressed
replay. This project models the parts of it where much can go wrong unnoticed,
and proves what they promise.

* **Replay compression.** `RangeCoder`, `LzmaModel`, `Distance` and `LzmaStream`
  model the LZMA encoder's output side. `LzmaSpec` is the decoder of the LZMA
  specification, written without their definitions: it takes lc, lp, pb and the
  dictionary from the property bytes, and names the probability cells its own
  way. Whatever parse the encoder codes, this decoder, told byte 93, gets the
  input back. `Strings`, `MatchTree`, `TreeSearch`, `MatchFinder`, `LzHash` and
  `Bt4Finder` model the binary-tree match finder with its cyclic window, hash
  tables and position normalisation, down to what it may not miss;
  `OptimalPath` the in-place reversal of the optimal parser's chain and what its
  entries code; `Parses` carries a reported match over to the encoder.
* **Hornet.** `Hornet` is the two-process protocol as a machine of interleaved
  steps with timeouts and death of the child, over an arbitrary core and
  arbitrary suppliers.
* **Rooms.** `Seats` and `Room` are the seats, spectators and states of a room
  behind `Dispatch`, and what every event does to all of them; `RoomRuns` leads
  rooms, event by event, into the states in which something goes wrong;
  `Spectators` says who is sent what during a duel, and what the spectator cache
  is worth; `Answers` reads it as clients do, and says in message numbers who
  gets what and learns what.
* **Codecs.** `ByteIO` is reading and writing through pointers. `QueryCodec`,
  `QueryViews`, `QueryLists` and `QueryIO` are the card queries, `QueryFields`
  says in flag bits and positions how they look and what they show, and
  `QueryRequests` which of them the server asks for; `Messages` and `Strip` are core
  messages and the hiding of card codes; `ReplayFormat` and `Replay` the nested
  replay files, down to the compressed bytes.
* **Decks and seeds.** `Deck` is deck legality with the alias fold, `DeckRules`
  the same in places, bits and codes; `Seeding` the
  two random number generators (on `Bits`, exclusive or and shifts of words).

Code that changes things step by step is written as methods over arrays and
objects, each proved against a specification function or property; the lemmas
about those functions carry the results.

Six places where the code does not do what it seems to promise are stated as
such, each with the exact condition and with an input that gets there:

* the list fields of queries are never read back: a query survives the trip
  exactly when it shows no list (`QueryLists.RoundTripIffNoList`,
  `QueryLists.LocationRoundTripIffNoList`; `QueryViews.EmptyListBreaksRoundTrip`
  is the simplest failing family), and its size is exact under the same
  condition (`QueryCodec.SizeExactIffNoLists`). This is a property of the
  codec's functions and not of a duel as the server runs it: none of the masks
  with which the server asks the core contains a list flag
  (`QueryRequests.NeverAsksForLists`), so all answers survive
  (`QueryRequests.AnswersSurvive`);
* a client that was kicked and still believes to have a seat takes it from
  whoever sits there now (`Room.Room.WaitingConnectionLost` and its neighbours;
  run: `RoomRuns.SomebodyElseIsErased`);
* a quorum can count somebody who has no seat (`Room.Room.Quorum`; run:
  `RoomRuns.QuorumWithoutEveryone`);
* a relay duel can ask a place that nobody has (`Room.Room.RelayTurnTaken`,
  `Room.Room.LostWhenMissed`; run: `RoomRuns.RelayAsksNobody`);
* replays file decks under the names of other duelists of the team
  (`Room.Room.ReplayNames`; run: `RoomRuns.ReplayNamesSwapped`);
* the constructor of the core wrapper waits for a child it never told to end,
  unless that child has crashed (`Hornet.HeartbeatFailure`,
  `Hornet.CleanUpWaitsForDeath`; run: `Hornet.ConstructorCanHang`).

## Model

| member | source | states |
|---|---|---|
| RangeCoder.CarryPropagates | src/Multirole/YGOPro/LZMA/LzmaEnc.c:588-618 | a carry turns the pending run of 0xFF bytes into zeroes and increments the cached byte |
| RangeCoder.RangeEnc.ShiftLow | src/Multirole/YGOPro/LZMA/LzmaEnc.c:588-618 | emitted bytes, cache, pending run and `low` together keep denoting the same offset, shifted by one byte |
| RangeCoder.RangeEnc.EncodeBit | src/Multirole/YGOPro/LZMA/LzmaEnc.c:629-662 | the registers denote the specification's next interval and the probability is the specification's next one |
| RangeCoder.RangeEnc.FlushData | src/Multirole/YGOPro/LZMA/LzmaEnc.c:620-625 | the flushed bytes lie inside the final interval |
| RangeCoder.BranchFreeUpdate | src/Multirole/YGOPro/LZMA/LzmaEnc.c:637-644 | the branch-free form computes, in 32-bit words, what the branching form does |
| RangeCoder.StepBitInRange | src/Multirole/YGOPro/LZMA/LzmaEnc.c:627-637 | after one normalisation the range is at least two to the 24th, and neither half of a split vanishes |
| RangeCoder.NextProbValid | src/Multirole/YGOPro/LZMA/LzmaEnc.c:629-662 | probabilities stay within 31 and 2017 |
| RangeCoder.DecodeBitRecovers | src/Multirole/YGOPro/LZMA/LzmaEnc.c:629-662 | the specification's decoder, tracking the encoder, reads the coded bit and tracks on |
| RangeCoder.DecodeDirectRecovers | src/Multirole/YGOPro/LZMA/LzmaEnc.c:2476-2482 | the same for a bit of fixed probability |
| RangeCoder.StartTracks | src/Multirole/YGOPro/LZMA/LzmaEnc.c:562-574 | a flushed stream starts with a zero byte and passes the decoder's initial checks |
| LzmaModel.RangeCoderLossless | src/Multirole/YGOPro/LZMA/LzmaEnc.c:562-662 | for every bit sequence and every adaptive choice of contexts, decoding the flushed bytes gives the bits back |
| LzmaModel.TreeDecodeRecovers | src/Multirole/YGOPro/LZMA/LzmaEnc.c:692-707 | a symbol coded through a bit tree is decoded through the specification's tree |
| LzmaModel.ReverseDecodeRecovers | src/Multirole/YGOPro/LZMA/LzmaEnc.c:803-815 | the same for a reverse tree: the low bits come back |
| LzmaModel.DirectDecodeRecovers | src/Multirole/YGOPro/LZMA/LzmaEnc.c:2476-2482 | the sentinel loop sends exactly the bits the specification reads |
| LzmaModel.SentinelExit | src/Multirole/YGOPro/LZMA/LzmaEnc.c:2476-2482 | the loop register reaches its end pattern when all bits are sent and at no other time |
| Distance.SlotIsLogBased | src/Multirole/YGOPro/LZMA/LzmaEnc.c:100-118 | the bit-scan form of the slot is the slot |
| Distance.SlotInterval | src/Multirole/YGOPro/LZMA/LzmaEnc.c:118-164 | every distance lies in the interval of its slot |
| Distance.FastPosInit | src/Multirole/YGOPro/LZMA/LzmaEnc.c:123-141 | the table filled by doubling runs holds the slot of every index |
| Distance.GetPosSlot | src/Multirole/YGOPro/LZMA/LzmaEnc.c:143-164 | the shifted table lookup is the slot, for every distance below two to the 31st |
| Distance.RegisterIsSentinel | src/Multirole/YGOPro/LZMA/LzmaEnc.c:2464-2482 | the loop register starts as the middle bits followed by the sentinel, for every footer width |
| Distance.PosSpecialDisjoint | src/Multirole/YGOPro/LZMA/LzmaEnc.c:2457-2461 | reverse trees of different slots share no probability cell |
| Distance.SameFooterCells | src/Multirole/YGOPro/LZMA/LzmaEnc.c:2457-2461 | the encoder's reverse tree for a slot has its nodes in the specification's cells |
| Distance.DecodeDistanceRecovers | src/Multirole/YGOPro/LZMA/LzmaEnc.c:2433-2497 | slot and footer reconstruct every distance below two to the 31st |
| LzmaStream.StateTables | src/Multirole/YGOPro/LZMA/LzmaEnc.c:522-525 | the state tables are the specification's update rules |
| LzmaStream.MatchedDecodeRecovers | src/Multirole/YGOPro/LZMA/LzmaEnc.c:709-728 | a literal coded against the match byte is decoded against it |
| LzmaStream.LenDecodeRecovers | src/Multirole/YGOPro/LZMA/LzmaEnc.c:831-863 | every length from 2 to 273 is decoded from its code |
| LzmaStream.LenCellsAgree | src/Multirole/YGOPro/LZMA/LzmaEnc.c:831-863 | the length encoder's one array of cells holds the specification's low, middle and high trees of every position state |
| LzmaStream.MasksAnnounced | src/Multirole/YGOPro/LZMA/LzmaEnc.c:2678-2679 | position states and literal tables by the encoder's masks are those of the announced lc, lp and pb |
| LzmaStream.WriteProperties | src/Multirole/YGOPro/LZMA/LzmaEnc.c:2893-2919 | the property bytes say 93, and a dictionary no smaller than the encoder's |
| LzmaStream.DecodeStepRecovers | src/Multirole/YGOPro/LZMA/LzmaEnc.c:2333-2500 | one step of the specification's main loop undoes one coded packet: output, state and repeat distances agree again |
| LzmaStream.LzmaEnc.CodePacket | src/Multirole/YGOPro/LZMA/LzmaEnc.c:2333-2500 | coding a packet runs exactly its script of bits and moves state and repeat distances on |
| LzmaStream.StreamLossless | src/Multirole/YGOPro/LZMA/LzmaEnc.c:2262-2557 | for every valid parse, the specification's decoder, told property byte 93 and a dictionary that is large enough, gets the data back from the flushed bytes |
| LzmaStream.Encode | src/Multirole/YGOPro/LZMA/LzmaEnc.c:2262-2557 | the encoder as it runs: decompressing its output by property byte 93 gives its input |
| OptimalPath.Optimizer.Backward | src/Multirole/YGOPro/LZMA/LzmaEnc.c:1066-1110 | in place: the returned step and the stored ones are the chain reversed with extras expanded; nothing unread is overwritten |
| OptimalPath.ForwardCovers | src/Multirole/YGOPro/LZMA/LzmaEnc.c:1066-1110 | the lengths of those steps sum to `cur` |
| OptimalPath.EntryCodable | src/Multirole/YGOPro/LZMA/LzmaEnc.c:1395-1470 | an entry that was compared as the parser compares it expands to packets that may be coded, the last repeat included, and leads to the state and distances the parser computes in one go |
| OptimalPath.ForwardCodable | src/Multirole/YGOPro/LZMA/LzmaEnc.c:1066-1110 | so does the whole list that the backward pass leaves |
| LzHash.Hash2Forces | src/Multirole/YGOPro/LZMA/LzHash.h:22-27 | equal first bytes and equal two-byte hashes force equal second bytes, for any crc table |
| LzHash.Hash3Forces | src/Multirole/YGOPro/LZMA/LzHash.h:22-27 | equal first bytes and equal three-byte hashes force three equal bytes |
| Strings.LcpUnique | src/Multirole/YGOPro/LZMA/LzFind.c:483-497 | the length a comparison loop stops at is the longest common prefix |
| MatchTree.SkippedBytesAgree | src/Multirole/YGOPro/LZMA/LzFind.c:477-484 | the bytes skipped before comparing really agree: order of the tree justifies the skip |
| MatchTree.PlaceSmaller | src/Multirole/YGOPro/LZMA/LzFind.c:503-510 | hanging a smaller candidate on the smaller side keeps the ordered, age-ordered forest |
| MatchTree.PlaceGreater | src/Multirole/YGOPro/LZMA/LzFind.c:511-518 | the same on the greater side |
| MatchTree.PlaceEqual | src/Multirole/YGOPro/LZMA/LzFind.c:494-500 | an equal candidate is replaced by the new node, which takes over both subtrees |
| MatchTree.PlaceNothing | src/Multirole/YGOPro/LZMA/LzFind.c:474-478 | cutting the walk off leaves a well-formed forest |
| MatchTree.CutsOffAfter | src/Multirole/YGOPro/LZMA/LzFind.c:474-478 | a walk compares at most as many positions as the cut value says, and exactly that many when it is cut off |
| TreeSearch.SearchStep | src/Multirole/YGOPro/LZMA/LzFind.c:503-518 | after a candidate has been hung up, every node of the old tree is in the new one or still to be searched, and none passed over matches better than the best so far |
| TreeSearch.SearchEnd | src/Multirole/YGOPro/LZMA/LzFind.c:474-478 | a walk that ends outside the window has seen the best of its tree and lost none of it |
| TreeSearch.SearchEqual | src/Multirole/YGOPro/LZMA/LzFind.c:494-500 | so has one that ends at an equal string, which the new node stands for |
| MatchTree.NormaliseSimulates | src/Multirole/YGOPro/LZMA/LzFind.c:345-371 | references in the window keep their distance, all others still read as outside, and the position stays at least the window size |
| MatchTree.NormaliseForest | src/Multirole/YGOPro/LZMA/LzFind.c:350-371 | the whole forest survives normalisation with the same shape |
| MatchFinder.GetMatchesSpec1 | src/Multirole/YGOPro/LZMA/LzFind.c:465-520 | reports exactly the positions of the walk that match better than all before them, in order, with their true lengths; leaves the tree of the walk; unless cut off it has seen the best of the tree and forgotten none of it |
| MatchFinder.SkipMatchesSpec | src/Multirole/YGOPro/LZMA/LzFind.c:522-570 | leaves exactly the tree the reporting walk leaves, and forgets nothing unless cut off |
| Bt4Finder.MoveKeepsInv | src/Multirole/YGOPro/LZMA/LzFind.c:572-579 | moving on, with normalisation when it is due, keeps tables, tree and limits in order |
| Bt4Finder.MoveKeepsWhole | src/Multirole/YGOPro/LZMA/LzFind.c:572-579 | moving on forgets only what leaves the window |
| Bt4Finder.InsertWhole | src/Multirole/YGOPro/LZMA/LzFind.c:465-520 | an insertion keeps every position of the window in its bucket's tree, as itself or as a later equal one, but those before an insertion that was cut off; the small tables keep the latest position of every hash |
| Bt4Finder.NothingMissed | src/Multirole/YGOPro/LZMA/LzFind.c:465-520 | strings with four common bytes are in one bucket, so the best of the tree is the best of the window |
| Bt4Finder.ThreeBeatsTwo | src/Multirole/YGOPro/LZMA/LzFind.c:680-700 | where both small tables hit different positions, the two-byte hit has two common bytes only |
| Bt4Finder.CutOnlyWhenUsedUp | src/Multirole/YGOPro/LZMA/LzFind.c:474-478 | only an insertion that compared as many positions as the cut value allows is one that was cut off |
| Bt4Finder.NormalisesWhen | src/Multirole/YGOPro/LZMA/LzFind.c:345-371 | positions are taken back exactly when the next would be the last of 32 bits, by a multiple of 1024 |
| Bt4Finder.TableHit | src/Multirole/YGOPro/LZMA/LzFind.c:680-700 | a small-table hit with an equal first byte is a true match of two or three bytes |
| Bt4Finder.Normalize3 | src/Multirole/YGOPro/LZMA/LzFind.c:350-362 | every reference is reduced, or emptied when it would fall below zero |
| Bt4Finder.CMatchFinder.GetMatches | src/Multirole/YGOPro/LZMA/LzFind.c:665-720 | reported pairs are true matches inside the window, lengths strictly increase; nothing is missed: not what the small tables hit, not the best of the positions compared, and, when the cut value is not used up, not the longest match of four bytes or more among all positions of the window since the last cut; the next state is that of skipping |
| Bt4Finder.CMatchFinder.SkipOne | src/Multirole/YGOPro/LZMA/LzFind.c:991-1008 | the finder's next state after a skip, with no position of the window forgotten unless cut off |
| Bt4Finder.CMatchFinder.Init | src/Multirole/YGOPro/LZMA/LzFind.c:301-343 | a new finder is in order, whatever the tree cells hold |
| Parses.ReportedMatchIsPacket | src/Multirole/YGOPro/LZMA/LzmaEnc.c:982-1037 | a reported match, at its length or a shorter one, may be coded as distance plus four |
| Parses.LiteralsParse | src/Multirole/YGOPro/LZMA/LzmaEnc.c:2262-2557 | every input has a valid parse |
| Hornet.RunInv | src/Hornet/main.cpp:114-278 | the protocol's invariant holds after every interleaving of every run |
| Hornet.ReturnedCallIsDirect | src/Multirole/Core/HornetWrapper.cpp:321-421 | a call that returns has the direct call's result and left core and suppliers where the direct call leaves them |
| Hornet.SessionIsDirect | src/Multirole/Core/HornetWrapper.cpp:321-421 | refinement over whole sessions, each request executed once and in order |
| Hornet.SingleOwner | src/Hornet/main.cpp:30-91 | until the first exception the action word gives the shared bytes to one side only |
| Hornet.NeverBothBlocked | src/Hornet/main.cpp:30-38 | the two sides never both wait with false predicates, whichever came first at the heartbeat |
| Hornet.CallCanGoOn | src/Multirole/Core/HornetWrapper.cpp:321-421 | while the child lives a call never depends on a timeout |
| Hornet.StepsLeftDrops | src/Multirole/Core/HornetWrapper.cpp:321-346 | every step of a call lowers a bound |
| Hornet.CallEnds | src/Multirole/Core/HornetWrapper.cpp:321-346 | no run inside one call is longer than that bound |
| Hornet.MaxLoopMeansTooMany | src/Multirole/Core/HornetWrapper.cpp:327-328 | the exchange limit is hit only by a core making more than 255 callbacks |
| Hornet.CompletesIff | src/Multirole/Core/HornetWrapper.cpp:321-346 | barring crash or unresponsiveness, a call completes exactly when the direct call needs at most 255 callbacks |
| Hornet.ServerLoopEnds | src/Multirole/Core/HornetWrapper.cpp:321-346 | at most 256 exchanges of at most 15 timed-out waits, even after exceptions |
| Hornet.UnresponsiveIff | src/Multirole/Core/HornetWrapper.cpp:331-346 | on every run the server gives up on a living child at the fifteenth wait without an answer, and never before |
| Hornet.TeardownSafe | src/Multirole/Core/HornetWrapper.cpp:80-141 | from any state, when the segment is destroyed, by the destructor or by a constructor that failed, the child is gone and so in no wait |
| Hornet.TeardownEnds | src/Multirole/Core/HornetWrapper.cpp:93-141 | the destructor's waits end, and a joined child is at most three steps from its end |
| Hornet.JoinedChildEnds | src/Hornet/main.cpp:37-45 | a joined child ends by confirming, terminating or dying |
| Hornet.BlockedCallbackTerminates | src/Hornet/main.cpp:37-45 | a child blocked in a callback terminates once told to quit |
| Hornet.HeartbeatFailure | src/Multirole/Core/HornetWrapper.cpp:80-91 | a failed heartbeat leaves a dead child exactly when it failed by a crash |
| Hornet.CleanUpWaitsForDeath | src/Multirole/Core/HornetWrapper.cpp:80-91 | a child that is alive when the heartbeat fails stays alive, and the constructor in its clean-up, until it dies of its own accord |
| Hornet.ConstructorCanHang | src/Multirole/Core/HornetWrapper.cpp:80-91 | a run into a state where the constructor waits for a child that waits for work |
| Seats.FullByCount | src/Multirole/Room/State/Waiting.cpp:170-171 | as many duelists as seats means every seat is taken |
| Seats.MoveKeepsOrder | src/Multirole/Room/State/Waiting.cpp:207-213 | moving the nearest duelist into the first gap keeps the team's order |
| Room.Room.TryEmplaceDuelist | src/Multirole/Room/State/Waiting.cpp:244-270 | takes the first free seat from the hint on and around; fails exactly when all seats are taken; ends |
| Room.Room.WaitingJoin | src/Multirole/Room/State/Waiting.cpp:37-72 | a new client gets the first free seat, or becomes a spectator when there is none; nobody else changes |
| Room.Room.WaitingToDuelist | src/Multirole/Room/State/Waiting.cpp:74-104 | a spectator takes the first free seat, a seated client the next free one behind the own; somebody else loses a seat exactly when the client's own is stale and taken |
| Room.Room.WaitingToObserver | src/Multirole/Room/State/Waiting.cpp:106-121 | the client is a spectator and nobody else changes, under the same exact condition |
| Room.Room.WaitingConnectionLost | src/Multirole/Room/State/Waiting.cpp:17-35 | the host leaving closes the room; otherwise the seat the leaver believes to have is freed, and another client is erased exactly when that seat is not the leaver's |
| Room.Room.WaitingTryKick | src/Multirole/Room/State/Waiting.cpp:144-164 | somebody is kicked exactly when the host names a taken seat that is not the host's own; that seat is freed and nothing else changes |
| Room.Room.WaitingReady | src/Multirole/Room/State/Waiting.cpp:123-142 | a duelist becomes ready only with a deck that passes |
| Room.Room.TightenTeam | src/Multirole/Room/State/Waiting.cpp:178-217 | the team ends on its first places, in the order it had, and nothing else changes |
| Room.Room.FindNearest | src/Multirole/Room/State/Waiting.cpp:197-205 | there is a duelist behind the first gap, within the seats |
| Room.Room.WaitingTryStart | src/Multirole/Room/State/Waiting.cpp:166-232 | starts exactly when the host asks, all are ready and the setup is valid; both teams then sit on their first places |
| Room.Room.LeadersThere | src/Multirole/Room/State/RockPaperScissor.cpp:65-70 | both leaders are found |
| Room.Room.RPSChoose | src/Multirole/Room/State/RockPaperScissor.cpp:14-41 | the leader of the winning hand chooses; a tie starts over |
| Room.Room.ChooseTurn | src/Multirole/Room/State/ChoosingTurn.cpp:15-52 | only the chooser decides, its team goes first exactly when it says so, and turns start at the right places |
| Room.Room.TurnIsTaken | src/Multirole/Room/State/Dueling.cpp:145-151 | outside relays the place whose turn it is is taken, and its number in the core is the number of tag swaps modulo the team |
| Room.Room.ReplayNames | src/Multirole/Room/State/Dueling.cpp:162-167 | a deck is recorded under its owner's name exactly when the team's turns start at its first place |
| Room.Room.RelayTurnTaken | src/Multirole/Room/State/Dueling.cpp:338-343 | in a relay the place is taken exactly when the swaps, modulo the team limit, are fewer than the team |
| Room.Room.Process | src/Multirole/Room/State/Dueling.cpp:316-362 | the loop over the core's messages leaves turns, question, retries, match kill and verdict as the messages one after the other do, and stops at the first that ends the duel |
| Room.StepByNumbers | src/Multirole/Room/State/Dueling.cpp:318-362 | what one message means, with the core's team 0 being the one that goes first |
| Room.Room.WinsNeeded | src/Multirole/Room/Context.cpp:24 | the wins needed are the least that are half of the match or more |
| Room.Room.TurnsMoved | src/Multirole/Room/State/Dueling.cpp:338-343 | over any run of messages the turns move by the number of tag swaps, and a match kill is never forgotten |
| Room.Room.GoesOnIff | src/Multirole/Room/State/Dueling.cpp:318-362 | the duel goes on exactly when nobody wins, no team answers wrongly a second time and no lookup goes wrong, counted on the messages alone |
| Room.Room.LostWhenMissed | src/Multirole/Room/State/Dueling.cpp:311-314 | a lookup goes wrong exactly when some message, before which none ends the duel, goes to a place that is empty after the swaps so far, or complains to nobody |
| Room.Room.NobodyLost | src/Multirole/Room/State/Dueling.cpp:311-314 | outside relays no lookup ever goes wrong |
| Room.Room.FinishDuel | src/Multirole/Room/State/Dueling.cpp:547-649 | score, closing at the needed wins, and who decides next: the loser's leader; a match kill wins the match however the duel ends |
| Room.Room.DuelSurrender | src/Multirole/Room/State/Dueling.cpp:288-300 | a duelist's surrender is a win of the other team, a spectator's is leaving |
| Room.Room.DuelTimerExpired | src/Multirole/Room/State/Dueling.cpp:302-307 | running out of time is a win of the other team |
| Room.Room.DuelResponse | src/Multirole/Room/State/Dueling.cpp:261-286 | only the duelist who was asked can answer; the answer ends the duel exactly when processing has a verdict |
| Room.Room.SideUpdateDeck | src/Multirole/Room/State/Sidedecking.cpp:43-113 | the duel goes on when as many have sidedecked as there are duelists, and these are everyone exactly when all of them have seats |
| Room.Room.RematchAnswer | src/Multirole/Room/State/Rematching.cpp:34-54 | one refusal closes the room; as many consents as duelists start the next duel, and they are everyone's exactly when all who answered have seats |
| Room.Room.Quorum | src/Multirole/Room/State/Rematching.cpp:47-51 | a full count is everyone exactly when nobody was counted who has no seat |
| Room.Room.EnterClosing | src/Multirole/Room/State/Closing.cpp:6-18 | nobody is left |
| Room.Room.Dispatch | src/Multirole/Room/Instance.cpp:78-86 | what every event in every state does to seats, spectators, places, readiness, state, turns and score, and that pairs without a handler change nothing; the room stays in order; closed stays closed and empty; the loop ends |
| RoomRuns.SomebodyElseIsErased | src/Multirole/Room/State/Waiting.cpp:17-35 | a run after which a connected client believes to have a seat and has none |
| RoomRuns.QuorumWithoutEveryone | src/Multirole/Room/State/Rematching.cpp:34-54 | a run in which the next duel starts though a seated duelist never answered |
| RoomRuns.RelayAsksNobody | src/Multirole/Room/State/Dueling.cpp:311-314 | a run in which a relay's next question goes to an empty place |
| RoomRuns.ReplayNamesSwapped | src/Multirole/Room/State/Dueling.cpp:162-167 | a run in which a deck is recorded under somebody else's name |
| Spectators.Duel.DistributeMsg | src/Multirole/Room/State/Dueling.cpp:429-482 | what every duelist and every spectator receives of a message of any length, which place a message for one duelist goes to, and that the cache grows by what the spectators get |
| Spectators.Duel.SingledOutIsThere | src/Multirole/Room/State/Dueling.cpp:311-314 | outside relays that place is taken, and is the one whose turn it is in the room: its number in the core is the number of tag swaps modulo the team |
| Spectators.Duel.ProcessSingleQuery | src/Multirole/Room/State/Dueling.cpp:364-392 | of the query in the core's buffer the owner's team gets the owner view, the other team and the spectators the public one |
| Spectators.Duel.ProcessLocationQuery | src/Multirole/Room/State/Dueling.cpp:393-426 | decks go to nobody, extra decks to their owners as the core wrote them, the cards of other places in views |
| Spectators.Duel.ProcessSingleMsg | src/Multirole/Room/State/Dueling.cpp:518-526 | what every duelist and every spectator receives around and of a whole message: answers to the queries before it, the message, answers to the queries after it |
| Spectators.AnswersHideSecrets | src/Multirole/Room/State/Dueling.cpp:364-426 | what spectators get of an answer does not depend on the secret fields of cards that are not public |
| Answers.TeamReads | src/Multirole/Room/State/Dueling.cpp:364-426 | reading what a team is sent gives every field of its own cards that is not hidden, and of the other team's only what is public |
| Answers.OpponentsAreSpectators | src/Multirole/Room/State/Dueling.cpp:364-426 | the other team is sent what spectators are sent |
| Answers.OpponentsLearnNothing | src/Multirole/Room/State/Dueling.cpp:364-426 | what the other team is sent of an answer does not depend on secret fields of cards that are not public |
| Answers.AnswersArePlain | src/Multirole/YGOPro/CoreUtils.cpp:439-599 | an answer to a request of the server holds no list and has its end marker, so the readings above apply to all of them |
| Answers.DuelistGetsExactly | src/Multirole/Room/State/Dueling.cpp:429-482 | by message numbers: which duelists get a message, in which form |
| Answers.SpectatorsGetExactly | src/Multirole/Room/State/Dueling.cpp:429-482 | spectators get what is for nobody in particular, without codes hidden from either team |
| Answers.DuelistsLearnNothing | src/Multirole/Room/State/Dueling.cpp:429-482 | what a duelist gets does not depend on codes hidden from its team |
| Answers.SingledOutByNumbers | src/Multirole/YGOPro/CoreUtils.cpp:270-283 | the one singled out is the one whose turn it is in the team named by the second byte, or a hint's third |
| Answers.HiddenByNumbers | src/Multirole/YGOPro/CoreUtils.cpp:185-268 | which message numbers have codes to hide |
| Answers.CodesSent | src/Multirole/YGOPro/CoreUtils.cpp:285-422 | which codes a team is sent, by controller, position and location in numbers |
| Answers.AskedBefore | src/Multirole/YGOPro/CoreUtils.cpp:439-470 | what is asked before a message, in numbers |
| Answers.AskedAfter | src/Multirole/YGOPro/CoreUtils.cpp:472-599 | what is asked after a message, in numbers |
| QueryRequests.NeverAsksForLists | src/Multirole/YGOPro/CoreUtils.cpp:439-599 | no request asks for a list; every request asks for position and public flag, and all but those for extra decks and graveyards for the hidden flag |
| QueryRequests.AnswersSurvive | src/Multirole/YGOPro/CoreUtils.cpp:439-599 | every answer to a request survives serialising and reading, as the view of its reader |
| Spectators.Duel.PostAnalyzeQuestion | src/Multirole/Room/State/Dueling.cpp:498-514 | waiting notices and clocks reach the spectators but not the cache |
| Spectators.Duel.Start | src/Multirole/Room/State/Dueling.cpp:172-187 | the cache begins with the start message in its spectator form |
| Spectators.Duel.Join | src/Multirole/Room/State/Dueling.cpp:250-259 | a late spectator is sent exactly the cache, in order, which is what every other spectator has seen of the duel |
| Spectators.SpectatorsLearnNothing | src/Multirole/Room/State/Dueling.cpp:463-475 | what spectators get does not depend on codes hidden from either team |
| QueryCodec.SizeExactIffNoLists | src/Multirole/YGOPro/CoreUtils.cpp:743-762 | bytes written equal the precomputed size exactly when no list is shown |
| QueryViews.SingleQueryRoundTrip | src/Multirole/YGOPro/CoreUtils.cpp:52-117 | reading what was written gives the view, anywhere in a buffer |
| QueryViews.LocationRoundTrip | src/Multirole/YGOPro/CoreUtils.cpp:630-638 | the same for a whole location whose length fits its field |
| QueryViews.EmptyListBreaksRoundTrip | src/Multirole/YGOPro/CoreUtils.cpp:817-827 | a lone empty list sends the reader beyond the buffer: counts are written on two bytes and read from four |
| QueryLists.OnlyAppends | src/Multirole/YGOPro/CoreUtils.cpp:52-117 | reading on only adds to a list that was begun |
| QueryLists.RoundTripIffNoList | src/Multirole/YGOPro/CoreUtils.cpp:52-117 | as long as no size wraps around, reading what was written gives the view exactly when no list is shown, anywhere in a buffer |
| QueryLists.LocationRoundTripIffNoList | src/Multirole/YGOPro/CoreUtils.cpp:630-638 | a location is read back exactly when none of its cards shows a list |
| QueryViews.ViewOfView | src/Multirole/YGOPro/CoreUtils.cpp:651-682 | the public view of the owner view is the public view; views are idempotent |
| QueryViews.PublicBuffersHideSecrets | src/Multirole/YGOPro/CoreUtils.cpp:651-682 | public bytes do not depend on secret fields, nor on their presence |
| QueryViews.HiddenFromOwnerToo | src/Multirole/YGOPro/CoreUtils.cpp:752-753 | a hidden card that is not public looks the same to its owner as to everybody |
| QueryFields.ShownExactly | src/Multirole/YGOPro/CoreUtils.cpp:640-682 | a view has a field exactly when the card lies face-up or says it is public, or the field is no secret, or the reader is the owner and the card is not hidden |
| QueryFields.FaceUpShowsAll | src/Multirole/YGOPro/CoreUtils.cpp:640-682 | both views of a card in position 1 or 4, or with a public byte, are the whole card |
| QueryFields.FaceDownHides | src/Multirole/YGOPro/CoreUtils.cpp:640-682 | public bytes of a card in position 2 or 8 do not depend on code, stats or anything else that is its owner's |
| QueryFields.WireLayout | src/Multirole/YGOPro/CoreUtils.cpp:684-842 | every field on the wire by the bit of its flag: size, flag, value and width |
| QueryIO.SerializeSingleQuery | src/Multirole/YGOPro/CoreUtils.cpp:640-842 | the two loops fill the buffer with the serialised view |
| QueryIO.SerializeLocationQuery | src/Multirole/YGOPro/CoreUtils.cpp:844-856 | length and cards, the length filled in last |
| QueryIO.DeserializeOneQuery | src/Multirole/YGOPro/CoreUtils.cpp:52-117 | the reading loop follows the specification on every buffer, unknown flags included |
| QueryIO.DeserializeLocationQueryBuffer | src/Multirole/YGOPro/CoreUtils.cpp:630-638 | the same up to the end pointer |
| Messages.SplitToMsgs | src/Multirole/YGOPro/CoreUtils.cpp:121-142 | splitting a burst gives the messages it was made of |
| Messages.DistributionAgrees | src/Multirole/YGOPro/CoreUtils.cpp:185-268 | only messages of the stripped kinds are changed by stripping, and questions go to one duelist |
| Messages.HideTwice | src/Multirole/YGOPro/CoreUtils.cpp:285-422 | hiding is idempotent and commutes between teams |
| Messages.HideExactly | src/Multirole/YGOPro/CoreUtils.cpp:285-422 | two messages look the same to a team exactly when they differ only in codes hidden from it |
| Messages.HideKeepsShape | src/Multirole/YGOPro/CoreUtils.cpp:285-422 | type, length, counts and locations are kept |
| Strip.ClearPositionArray | src/Multirole/YGOPro/CoreUtils.cpp:296-309 | in place: codes of cards that are not face-up are wiped, nothing else |
| Strip.ClearLocInfoArray | src/Multirole/YGOPro/CoreUtils.cpp:310-323 | in place: codes of cards the team does not control are wiped, nothing else |
| Strip.StripMessageForTeam | src/Multirole/YGOPro/CoreUtils.cpp:285-422 | the pointer code computes the hidden message, byte for byte |
| ReplayFormat.YrpRecovers | src/Multirole/YGOPro/Replay.cpp:80-100 | the documented YRP layout can be read back |
| ReplayFormat.YrpxRecovers | src/Multirole/YGOPro/Replay.cpp:68-78 | the documented YRPX layout can be read back |
| ReplayFormat.HeaderRecovers | src/Multirole/YGOPro/Replay.cpp:42-66 | the extended header is 72 bytes and can be read back |
| Replay.ReplayRecovers | src/Multirole/YGOPro/Replay.cpp:179-363 | header, compressed body and nested message together give everything back |
| Replay.OrderedAscends | src/Multirole/YGOPro/Replay.cpp:296-314 | all duelists of a team, each with as many before it as there are smaller positions |
| Replay.Replay.FileHeaderBytes | src/Multirole/YGOPro/Replay.cpp:316-356 | the header of the file byte by byte |
| Replay.Replay.NestedBytes | src/Multirole/YGOPro/Replay.cpp:241-294 | the last message is number 231 and starts with a header of the older kind that has the seed |
| Replay.Replay.RecordMsg | src/Multirole/YGOPro/Replay.cpp:127-166 | exactly the questions, but not those for a card by filter, and private hints are left out |
| Replay.Replay.PopBackResponse | src/Multirole/YGOPro/Replay.cpp:174-177 | takes back the last response and no other |
| Replay.Replay.YRPPastHeaderSize | src/Multirole/YGOPro/Replay.cpp:198-222 | the precomputed size is the size written |
| Replay.Replay.YRPXPastHeaderSize | src/Multirole/YGOPro/Replay.cpp:181-197 | the precomputed size is the size written |
| Replay.Replay.NestedMessage | src/Multirole/YGOPro/Replay.cpp:241-294 | the YRP replay behind its message type, written through one pointer over a zeroed buffer |
| Replay.Replay.PastHeader | src/Multirole/YGOPro/Replay.cpp:296-314 | duelists, flags and all messages |
| Replay.Replay.Serialize | src/Multirole/YGOPro/Replay.cpp:179-363 | reading the final bytes, decompression included, gives back duelists, decks, messages, extra cards and responses; the recorded messages are unchanged |
| Deck.FoldOne | src/Multirole/Room/Context.cpp:321-333 | folding one aliased entry moves its copies and nothing else |
| Deck.FoldAliases | src/Multirole/Room/Context.cpp:318-336 | erasing while iterating ends with the count of every alias class, and the mapping of all aliased codes |
| Deck.CopiesConserved | src/Multirole/Room/Context.cpp:318-336 | no copy is lost or added |
| Deck.ChainsDependOnOrder | src/Multirole/Room/Context.cpp:321-333 | with a chain of two aliases the result of the fold depends on the order of the codes |
| Deck.GetTotalCount | src/Multirole/Room/Context.cpp:338-343 | the copies of a card over all its artworks |
| Deck.CheckLegends | src/Multirole/Room/Context.cpp:281-302 | accepts exactly the piles with one legend of each kind at most |
| Deck.CheckDeck | src/Multirole/Room/Context.cpp:225-416 | no error exactly for legal decks, and every error is true of the deck |
| Deck.LegalRespectsBanlist | src/Multirole/Room/Context.cpp:377-399 | a directly listed code stays within its entry, all artworks counted |
| DeckRules.LegalByNumbers | src/Multirole/Room/Context.cpp:225-416 | the legal decks in places, bits and codes: skills not counted, one legend of each kind, three copies over all artworks, scopes, banlist |
| DeckRules.ArtworksAreNear | src/Multirole/Room/Context.cpp:377-399 | two codes are those of one card's artworks when fewer than ten steps apart, wrapping around |
| Seeding.MixBijective | src/Multirole/RNG/SplitMix64.hpp:19-25 | the mixing function is a bijection of the 64-bit words |
| Seeding.DrawsDistinct | src/Multirole/RNG/SplitMix64.hpp:19-25 | no number repeats within the full period |
| Seeding.SplitMix64.Next | src/Multirole/RNG/SplitMix64.hpp:19-25 | the state advances by the odd constant, the result is its mixture |
| Seeding.StepInjective | src/Multirole/RNG/Xoshiro256.hpp:20-36 | no two states have the same successor |
| Seeding.StaysApart | src/Multirole/RNG/Xoshiro256.hpp:20-36 | rooms seeded apart stay apart for ever |
| Seeding.Xoshiro256StarStar.Next | src/Multirole/RNG/Xoshiro256.hpp:20-36 | the in-place updates are one step of the specification |
| Seeding.RoomNeverZero | src/Multirole/Lobby.cpp:73-79 | the four seed words of a room differ, and its generator never reaches the all-zero state |

## Left out

- Sockets, timers, strands, HTTP endpoints, the database, git and real processes: only their abstract events appear (delivery, timeout, crash).
- LZMA price tables and the choice of the parse: the parse is a parameter (`parse` in `Replay.Replay.Serialize`), of which only validity is asked; other levels, threads and streamed input are not part of the model.
- LZMA probability cells are the specification's, kept in a map; where the encoder lays several trees into one array (lengths, distance footers), its index is mapped to the specification's cell, and the trees are proved to agree (`LzmaStream.LenCellsAgree`, `Distance.SameFooterCells`).
- Bt4Finder.CMatchFinder.GetMatches: after an insertion that used up the cut value, older positions of its bucket may be gone from the tree, in the original too; the longest match is promised among those since.
- OptimalPath.ForwardCodable: that the parser stores an entry only after comparing its bytes is a condition, because prices and the choice of entries are not modelled.
- The `distances` array holds pairs instead of alternating lengths and distances.
- LZMA repeat distances are a sequence field, and the block loop has no size limit: replays are coded in one go.
- Hornet.RunInv: the two processes are a machine of interleaved steps over values instead of two imperative programs, because their order is what is proved; request fields are one value instead of marshalled bytes, and the recovery of a mutex whose owner died is not modelled.
- Room: names, passwords, logs and the text of notifications are left out; a message to a place nobody has is undefined in the original and becomes the state `Broken`.
- Room.Room.Process: what a message means for turns, questions and the end of the duel is modelled; the bytes of messages are in `Spectators` and `Messages`, the hint and request that are sent again after a first wrong answer are left out; the core is taken to name teams that exist, and to complain about an answer only when it has asked.
- Room.Room.SideUpdateDeck: the verdict on the side deck is a parameter.
- Room.Room.WaitingReady: the verdict on the deck is a parameter; `Deck` says what it means.
- Spectators: the extra deck and deck queries recorded at the start of a duel, and forgiven retries, reach no spectator and are left out.
- QueryLists.RoundTripIffNoList: stated for queries with their end marker whose shown fields are below 65532 bytes each, so that no size field wraps around; longer lists are left open.
- QueryCodec: reading past the end of a buffer, which the original does not notice, is the result `Overrun`.
- Strip.StripMessageForTeam: stated for messages that have the core's layout; others read past their end in the original.
- QueryRequests.AnswersSurvive: the core is taken to answer a request with fields it was asked for and the end marker, and no others.
- Replay: names are given in UTF-16, at most 20 units; the conversion from UTF-8 is not part of this model.
- Replay.Replay.Serialize: sizes and counts must fit their fields of four bytes, responses one byte; the parse is a parameter, and the limit of the output buffer and the return code of the encoder are not modelled.
- Deck.FoldAliases: alias tables are flat, as the card database's are meant to be; with a chain of aliases the counts depend on the order of the codes (`Deck.ChainsDependOnOrder`).
- Loading a deck (sorting codes into piles) and comparing sidedecks.
- The lobby's room list and connection counts.
