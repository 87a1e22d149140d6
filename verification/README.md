# The eBUS adapter, modelled and proved in Dafny

This project models the firmware of an eBUS adapter and proves properties of the
model. The adapter sits between an eBUS heating installation and network clients: it
takes part in the two-round bus arbitration on behalf of one client at a time, hands
every bus symbol to the clients, keeps a list of commands, runs cron rules, logs, and
is updated over the air.

`dafny verify dfyconfig.toml` checks everything. Nothing here is compiled or executed.

## How it is laid out

Code that changes fields step by step is a class whose methods are proved against a
specification function on values; the theorems are about those functions, over all
inputs and all runs. Code that computes a value is a function.

| file | what it covers |
|---|---|
| `Words.dfy`, `Sequences.dfy`, `Decimals.dfy`, `Remainders.dfy` | machine words, and the facts about sequences, decimal numbers and remainders that several proofs share |
| `BusStates.dfy` | the nine-state recogniser of the wire, and what its states mean in symbols |
| `Arbitration.dfy` | starting an attempt, the two rounds, the restart budget |
| `BusType.dfy` | one received symbol: attempt, counters, reservation, routing queue |
| `BridgeRuns.dfy` | runs of the bridge; a reference rule of arbitration that does not mention the code's state; every attempt follows it |
| `BridgeStarts.dfy` | on which symbols attempts start |
| `BridgeLedger.dfy` | conservation of attempts, the statistics, what is on the wire |
| `BridgeDelivery.dfy` | which client sees which byte |
| `BridgeRestarts.dfy`, `BridgeRounds.dfy` | how often an attempt is restarted; who takes part in the second round, and who wins it |
| `BridgeProgress.dfy` | the bound of eight symbols |
| `BridgeRequests.dfy` | the fate of every request |
| `WiredAnd.dfy`, `MultiStation.dfy` | the shared medium and the election among many stations |
| `ClientProtocol.dfy` | the two-byte framing, commands, fan-out, `dataProcess` |
| `GatewayRuns.dfy`, `GatewayLine.dfy` | runs of `dataProcess`: the bridge inside, what is on each connection, and the transmit line |
| `OtaText.dfy`, `OtaDevice.dfy`, `OtaSender.dfy`, `OtaOutcome.dfy` | the texts and the two programs of an update over the air, and what each comes to |
| `OtaTransfer.dfy`, `OtaProgress.dfy` | both programs joined by a connection: agreement, and progress without faults |
| `CronFields.dfy`, `CronSchedule.dfy`, `CronPlain.dfy` | the schedule language: what it denotes, its matcher, its validator |
| `CronCuts.dfy` | schedules with overlong fields |
| `CronRunner.dfy`, `CronReplacing.dfy`, `CronProjection.dfy` | the ticking runner; runs in which rules are replaced; every rule in the runner has such a run |
| `CronClock.dfy` | the same on the clock, in minutes of sixty seconds |
| `StringPool.dfy` | the interning pool |
| `CommandStore.dfy`, `CommandRuns.dfy` | the command store and what every operation keeps |
| `CommandFile.dfy`, `CommandReload.dfy` | saving and loading the commands; a row over an earlier command |
| `CommandRestore.dfy`, `CommandReboot.dfy` | what a save and a load restore, in one session and across a restart |
| `LogRing.dfy` | the log ring |

## What is assumed of the surroundings

* Clocks, the receive buffer, and the results of flash, socket and encoder calls are
  inputs, arbitrary unless a statement says otherwise. The build is the one with
  `USE_SOFTWARE_SERIAL` and `USE_ASYNCHRONOUS` off, so one call receives one symbol.
* The medium of the election is explicit (`MultiStation.OnTheBus`): a slot carries the
  AND of all symbols written in it; a station that has won the bus goes on with a
  symbol that is not SYN; an idle bus carries SYN. The receive buffers are empty when
  the second round is due (`MultiStation.QuietSecondRound`).
* The connection of an update is a pair of byte streams that keep their order, are cut
  up arbitrarily and may break at any moment. They hold any amount of data: the device may
  send an acknowledgement for every piece it receives while the sender reads one line per
  chunk, so progress (`OtaProgress.dfy`) relies on nobody ever waiting for room to write.
* The sizes of the command store are those of the firmware that has one: 96 commands of at
  most 4 fields, 16 write commands, 16 limits (`platformio.ini:72-75`), and byte sequences
  of at most 24 bytes, cut when they are read (`platformio.ini:105`).
* `ebus::StaticVector` and `ebus::FixedString` are bounded sequences: appending to a full
  one changes nothing, assigning a longer text truncates it.
* A saved file is its list of rows, with the JSON and hexadecimal notation taken off;
  an absent field name counts as the empty text. Rows fit the row buffer.
* A size or index is 32 bits wide where that matters (log ring, time stamps), 8 bits in
  the string pool.

## Where the code differs from what it says

* A start has to fall between 4300 and 4456 us behind the start bit of a SYN (section 3.2 of
  the eBUS test specification v1.1.1, quoted at `src/bridge/arbitration.cpp:9-15`). Only the
  asynchronous build waits for the lower end (`:41-52`). The synchronous build
  gives the time at which the symbol was read (`src/bridge/bus_type.cpp:248-249`), so the
  window is counted from there: it is missed, unnoticed, if and only if the age of the start
  bit exceeds 4456 us by no more than the delay of the reading
  (`Arbitrations.WindowCountsFromTheReading`).
* A comment promises at most two restarts of an arbitration. The counter is raised once
  on the first path and twice on the second and compared with 3
  (`src/bridge/arbitration.cpp:91-97`), so there can be three, and there are more than two
  if and only if three attempts since the last answer heard nothing but one SYN each
  (`BridgeRestarts.MoreThanTwoRestartsExactlyIf`, `BridgeRestarts.ThreeRestartsHappen`).
* The winner of the second round is not checked for having taken part in it
  (`src/bridge/arbitration.cpp:151-158`): hearing its own address is enough. It has put the
  address there if and only if the one heard first is of its class and nothing was waiting
  behind the second SYN (`BridgeRounds.SecondRoundIsWonAsHeard`); otherwise the client is
  told to have started on an address that the adapter did not send
  (`BridgeRounds.SecondRoundCanBeWonUnasked`). When two stations would both win is said by
  `MultiStation.TwoWinnersExactlyWhen`, and that the medium rules it out for stations
  with different addresses by `MultiStation.AtMostOneWins`.
* The recogniser's field `symbol` never changes (`include/bridge/bus_state.hpp:74`, `:85`):
  the parameter has the same name (`BusStates.SymbolFieldNeverChanges`).
* Any client's start command with SYN clears the reservation, whoever holds it, and leaves
  the running attempt alone. Requests are lost without an answer in two ways. The request
  of the attempt is lost if and only if the attempt is restarted while the reservation is
  not for it; a request that has taken its place, be it of the same client for another
  address, is lost if and only if the attempt is decided
  (`BridgeRequests.EndOfAnAttempt`, `BridgeRequests.LostExactlyIf`; runs in which this
  happens: `BridgeRequests.ARequestIsLost`, `BridgeRequests.AReplacementIsLost`). A request
  with no attempt is lost to any start SYN (`BridgeRequests.FateOfARequest`).
* A client whose two-byte command is split by the network is disconnected
  (`ClientProtocol.CutsMustFallBetweenCommands`).
* The OTA sender's success branch inside the transfer loop is never taken in a fault-free
  transfer (`OtaProgress.NextLineIsDue`); success is always reported by the drain loop.
* The cron validator compares a schedule without `* / , -` with one sample time and so
  refuses every fixed time but midnight of Sunday the first of January
  (`CronPlain.FixedTimesAreRefusedButOne`).
* A cron field is cut at 64 characters without a complaint, in the matcher and in the
  validator alike (`src/app/cron.cpp:198-207`, `:246-256`). A minute list from 0 to 27 is
  longer than that, and what was cut off never fires. Schedules are read as written if no word
  is longer than 64 characters (`CronSchedule.MatchesTheMeaning`); the fields are the words
  just then (`CronSchedule.FieldsAreTheWordsExactlyIf`); `CronCuts.CutFieldIsWrongExactlyIf`
  says for a longer one at which values it goes wrong, and `CronCuts.OverlongFieldIsMisread`
  gives an accepted rule that fires at minute 0 instead of 5. In the same way the two
  functions on single fields drop every part behind the 64th
  (`CronFields.WrongExactlyBehindTheLastPart`, `CronCuts.PartTooManyIsIgnored`).
* Replacing the cron rules makes them forget the minute in which they have fired. With a
  clock that never goes back, a rule fires at most once per minute if and only if no
  replacement falls between two due ticks of one minute (`CronReplacing.NeverTwiceExactlyIfNotReplaced`; for one tick,
  `CronRunner.ReplacedRuleFiresAgain`).
* A rule whose command is unavailable at its tick uses up the minute: the write is sent in a
  minute if and only if the command is available at its first due tick
  (`CronReplacing.SentExactlyIfReadyAtTheFirstDueTick`).
* The string pool is declared for 256 strings, but the 256th makes its 8-bit count wrap and
  every number lose its meaning (`StringPools.EarlierIdsSurviveExactlyUnless`,
  `StringPools.TheLastNameWipesThePool`); a string of 256 bytes or more is cut
  (`StringPools.LookupGivesBackExactly`).
* The 16 places for write commands are never given back
  (`CommandRuns.WritesAreTheFirstSixteen`).
* Saving an empty command list leaves the old file in place
  (`CommandRestores.ReloadRestoresExactlyIf`).

## Model

| member | source | states |
|---|---|---|
| `Words.ElapsedAcrossWrap` | src/bridge/arbitration.cpp:32-36 | the 32-bit elapsed time equals the true one exactly when that is below 2^32 us, across a wrap of the counter |
| `Words.BumpCounts` | src/bridge/bus_type.cpp:281-346 | one increment takes the count n, reduced to 32 bits with sign, to n + 1 reduced likewise, across the wrap |
| `Words.SmallCountsAreExact` | src/bridge/bus_type.cpp:281-346 | below 2^31 events the reported counter is the number of events |
| `BusStates.TwoSynsSynchronise` | include/bridge/bus_state.hpp:46-92 | two SYNs in a row lead to received_first_syn from every one of the nine states |
| `BusStates.OneSynSynchronisesExactlyIf` | include/bridge/bus_state.hpp:50-60 | one SYN brings two recognisers together if and only if they agreed before or neither was in one of the three states that a SYN tells apart |
| `BusStates.SelfSynchronisation` | include/bridge/bus_state.hpp:46-92 | two recognisers with arbitrary histories that hear the same symbols, the first two SYN, agree on state and SYN times ever after, and on all assigned fields from one symbol later |
| `BusStates.PhaseIsReading` | include/bridge/bus_state.hpp:46-92 | the state after any symbols since power-up is what they mean by a rule without state: how many SYNs, how many symbols behind the last one, and whether that is the second SYN of a pair SYN x SYN whose first is not itself the second of such a pair |
| `BusStates.FreeSynExactlyIf` | include/bridge/bus_state.hpp:46-92 | a SYN is that of a free bus in three places only: directly behind another SYN, two symbols or more behind the last one, or one symbol behind a second SYN of a pair |
| `BusStates.SynTimesAreTheLastTwo` | include/bridge/bus_state.hpp:93-96 | the two recorded times are those of the last two SYNs |
| `BusStates.SymbolFieldNeverChanges` | include/bridge/bus_state.hpp:46-98 | the field `symbol` keeps its initial value for ever, since the parameter of the same name shadows it (the code is followed, not the field's evident purpose) |
| `BusStates.BusState.constructor` | include/bridge/bus_state.hpp:43-43 | the recogniser starts in startup with both SYN times zero |
| `BusStates.BusState.Syn` | include/bridge/bus_state.hpp:93-96 | a SYN shifts the two SYN times and passes the next state through |
| `BusStates.BusState.Data` | include/bridge/bus_state.hpp:46-92 | one symbol moves the in-place recogniser exactly as the specification Observe, all fields included |
| `Arbitrations.StartsExactlyInWindow` | src/bridge/arbitration.cpp:18-67 | an attempt starts if and only if none is going on, the address is not SYN, the bus has just seen the SYN of a free bus, the time given for its start bit is at most 4456 us back and nothing is waiting to be read; the clock is 32 bits of unbounded readings less than 2^32 us apart |
| `Arbitrations.WindowCountsFromTheReading` | src/bridge/bus_type.cpp:246-250 | with the time of reading given for the start bit, the test differs from the window counted from the start bit itself if and only if the true age is beyond 4456 us by no more than the delay of the reading |
| `Arbitrations.StaleStartBitLooksFresh` | src/bridge/arbitration.cpp:32-36 | at exactly 2^32 us the comparison goes wrong: an hour-old start bit passes |
| `Arbitrations.Arbitration.Start` | src/bridge/arbitration.cpp:18-67 | the method changes the four fields and writes to the bus exactly as StartSpec says |
| `Arbitrations.Arbitration.Data` | src/bridge/arbitration.cpp:69-174 | the method returns, changes and writes exactly what DataSpec says in each of the nine bus states |
| `Arbitrations.Arbitration.Lost` | src/bridge/arbitration.cpp:79-99 | a SYN where an address belongs ends the attempt as AddressLost says |
| `BusTypes.ReservationCell.Get` | src/bridge/bus_type.cpp:62-67 | reads client and address of the reservation together |
| `BusTypes.ReservationCell.Clear` | src/bridge/bus_type.cpp:69-74 | frees the reservation, whoever held it |
| `BusTypes.ReservationCell.Set` | src/bridge/bus_type.cpp:76-89 | reserves only a free cell; a refused client learns who holds it |
| `BusTypes.BusType.Offer` | src/bridge/bus_type.cpp:287-308 | when no attempt is running the reservation is served and the symbol is queued for everybody |
| `BusTypes.BusType.Receive` | src/bridge/bus_type.cpp:276-355 | one received symbol changes recogniser, arbitration, reservation, client, nine counters, queue and wire exactly as AfterSymbol says |
| `BusTypes.BusType.Settle` | src/bridge/bus_type.cpp:315-353 | the end of an attempt is counted, answered and frees the reservation |
| `BusTypes.BusType.Read` | src/bridge/bus_type.cpp:236-258 | one read call receives at most one symbol and pops at most one item, in queue order |
| `BridgeRuns.JudgeNext` | src/bridge/arbitration.cpp:100-173 | the reference rule of two-round arbitration can be applied one symbol at a time |
| `BridgeRuns.VerdictIsRuling` | src/bridge/arbitration.cpp:69-174 | the case analysis of the code on its own state gives the verdict of the reference rule on the symbols heard since the start |
| `BridgeRuns.WritesOfVerdict` | src/bridge/arbitration.cpp:108-145 | the second symbol is written only on SYN after an address of the same low nibble after SYN, and is the requested address |
| `BridgeRuns.StartOpens` | src/bridge/bus_type.cpp:289-305 | an attempt that starts belongs to the client and non-SYN address of the reservation at that moment |
| `BridgeStarts.PhaseOfRun` | include/bridge/bus_state.hpp:46-92 | in every run the state of the bus is what the symbols of the run mean |
| `BridgeStarts.AttemptStartsExactlyIf` | src/bridge/bus_type.cpp:276-308 | in every run a symbol starts an attempt if and only if a request stands, nothing is going on or has just been restarted, the symbols heard end with the SYN of a free bus, its start bit is said to be at most 4456 us old and nothing is waiting |
| `BridgeStarts.NothingStartsBefore` | include/bridge/bus_state.hpp:50-61 | until the SYN of a free bus has been heard nothing starts and arbitration writes nothing |
| `BridgeStarts.NothingStartsInTheFirstPair` | include/bridge/bus_state.hpp:50-61 | in particular nothing starts on the first SYN x SYN behind power-up, which may be somebody else's arbitration |
| `BridgeRuns.EveryRunIsSound` | src/bridge/bus_type.cpp:276-355 | in every run every attempt is accounted for and the bus state, client, address and restart budget of the running one are consistent; while arbitrating the bus is in one of the four states after SYN |
| `BridgeRuns.BudgetIsBounded` | src/bridge/arbitration.cpp:79-99 | the restart budget spent since the last answer, one for a restart in the first round and two for one in the second, never exceeds 3 |
| `BridgeRestarts.MoreThanTwoRestartsExactlyIf` | src/bridge/arbitration.cpp:85-99 | in every run at most three attempts have been restarted since the last answer, each on a SYN where an address belongs; more than the two of the comment if and only if three of them heard nothing but that one SYN |
| `BridgeRestarts.ThreeRestartsHappen` | src/bridge/arbitration.cpp:85-99 | a run for every client and address in which they do: a request and five SYNs |
| `BridgeRuns.AttemptsFollowTheRule` | src/bridge/arbitration.cpp:18-174 | main result on runs: every attempt is for a non-SYN address, decided within four symbols by the reference rule with exactly the budget its predecessors left; it wrote its address once, and a second time if and only if SYN followed an address of its class and nothing was waiting behind that SYN; only the last can be open, exactly while arbitrating |
| `BridgeRounds.SecondRoundIsWonAsHeard` | src/bridge/arbitration.cpp:146-158 | in every run an attempt reported to have won the second round heard another address, SYN and its own; it had written its own there if and only if the other was of its class and nothing was waiting behind that SYN |
| `BridgeRounds.SecondRoundCanBeWonUnasked` | src/bridge/arbitration.cpp:146-158 | runs for every client, address and other address in which it is so: the client is told to have started in a round in which its attempt may have written nothing |
| `BridgeLedger.EveryRunIsTallied` | src/bridge/bus_type.cpp:281-346 | in every run each of the nine counters is the 32-bit number of its events: eight count the attempts and their verdicts, the ninth the starts recorded as late |
| `BridgeLedger.LateExactlyIf` | src/bridge/arbitration.cpp:18-50 | a start is recorded as late if and only if a request stands, nothing is going on, the bus has just seen the SYN of a free bus, and the start bit is more than 4456 us old or a symbol is waiting |
| `BridgeLedger.AttemptsBalance` | src/bridge/bus_type.cpp:276-354 | attempts begun = won1 + won2 + lost1 + lost2 + errors + restarts1 + restarts2 + (1 if one is in progress) |
| `BridgeLedger.StatisticsBalance` | src/bridge/bus_type.cpp:276-354 | the same balance between the counters the device reports, modulo 2^32 |
| `BridgeLedger.ReportedExactly` | src/bridge/bus_type.cpp:276-354 | and exactly while fewer than 2^31 attempts have ended |
| `BridgeLedger.WireBelongsToAttempts` | src/bridge/arbitration.cpp:51-62 | everything arbitration ever put on the wire is the concatenation of the writes of the attempts, in order |
| `BridgeDelivery.SymbolKeepsThePromise` | src/bridge/bus_type.cpp:276-355 | one symbol queues exactly the items promised to each client, and one plain item with the symbol |
| `BridgeDelivery.EveryRunDelivers` | src/bridge/bus_type.cpp:236-258 | over every run the plain items are exactly the received symbols in order, and those routed to an enhanced client are exactly what the bus history promises it |
| `BridgeDelivery.EnhancedClientSees` | src/bridge/client.cpp:94-110 | an enhanced client gets one answer per own attempt that was won, lost or failed, in order, and every symbol except those its own attempts consumed |
| `BridgeDelivery.AnswerNamesTheHolder` | src/bridge/bus_type.cpp:318-343 | the byte in a started answer is the requested address, the byte in a failed answer is the different address that holds the bus |
| `BridgeDelivery.AnswersTellTheTruth` | src/bridge/bus_type.cpp:318-353 | a started answer means that the address won by the reference rule; a failed one that another address did |
| `BridgeDelivery.PopKeepsOrder` | src/bridge/bus_type.cpp:251-255 | popping neither loses nor reorders what is delivered |
| `BridgeProgress.OneSymbolCloser` | src/bridge/arbitration.cpp:79-173 | a symbol that does not answer the client leaves its request under way with strictly fewer symbols to go |
| `BridgeProgress.AnsweredWhateverClientsDo` | src/bridge/bus_type.cpp:276-308 | whatever commands, other than a cancellation, other clients give and however many items are read in between: a request under way whose restarts start in time is answered once the tabulated number of symbols has come in |
| `BridgeProgress.EveryStandingRequestIsAnswered` | src/bridge/bus_type.cpp:276-308 | on runs: after any history, an attempt that is running for a request that still stands is answered within the next eight symbols under the same conditions |
| `BridgeProgress.AnswerWithinEight` | src/bridge/bus_type.cpp:276-308 | the same for symbols alone, the form that OneLessIsNotEnough shows to be sharp |
| `BridgeProgress.UncancelledIsUnderway` | src/bridge/bus_type.cpp:289-308 | in every run a running attempt whose reservation still stands is under way with at most eight symbols left |
| `BridgeProgress.WorstSymbol` | src/bridge/arbitration.cpp:79-173 | from every state there is a symbol that costs exactly one of the symbols left |
| `BridgeProgress.OneLessIsNotEnough` | src/bridge/arbitration.cpp:79-173 | hence the bound is attained: one symbol less can leave the client without an answer |
| `BridgeRequests.FateOfARequest` | src/bridge/bus_type.cpp:276-355 | the fate of a request, client and address together, at every event of every run: a start SYN ends it unless its attempt runs; a symbol answers it if and only if its attempt runs and is decided; it goes on if and only if no attempt is decided and it is not restarted without its reservation |
| `BridgeRequests.EndOfAnAttempt` | src/bridge/bus_type.cpp:276-355 | whatever clients do from the start of an attempt to the symbol that ends it: that symbol answers the request of the attempt and no other, if and only if the attempt is decided; a request lives on if and only if the attempt is restarted and the start commands have left the reservation to it |
| `BridgeRequests.LostExactlyIf` | src/bridge/bus_type.cpp:62-89 | hence which requests are lost without an answer: at a decision the one that stands in the place of another, at a restart the one whose reservation has been taken away |
| `BridgeRequests.FateOfTheReservation` | src/bridge/bus_type.cpp:315-353 | a reservation survives a symbol if and only if no attempt is decided; then the client that holds it is sent an answer if and only if the attempt was one of its own, for whatever address |
| `BridgeRequests.CancelledRequestIsLost` | src/bridge/client.cpp:285-308 | after any history with a running attempt: a start SYN by anybody, then a restart, and the request of the attempt is gone without an answer |
| `BridgeRequests.ARequestIsLost` | src/bridge/client.cpp:285-308 | such a run for all clients and addresses, in which nobody is ever sent an answer |
| `BridgeRequests.ReplacedRequestIsDropped` | src/bridge/client.cpp:285-308 | after any history with a running attempt: a request put in the place of another one, be it of the same client, is gone without an answer when the attempt is decided; its client is sent something if and only if the attempt was its own |
| `BridgeRequests.AReplacementIsLost` | src/bridge/client.cpp:285-308 | such a run for all clients and addresses; the one answer sent is for the first request |
| `WiredAnd.AndOfRuns` | src/bridge/arbitration.cpp:100-171 | on nested bit patterns AND is the minimum |
| `WiredAnd.AndOfTwoMasters` | src/bridge/arbitration.cpp:100-171 | the AND of two valid master addresses is their nibble-wise minimum |
| `WiredAnd.AndOfMasters` | src/bridge/arbitration.cpp:100-171 | the AND of any number of valid master addresses is their nibble-wise minimum |
| `MultiStation.StationSlot` | src/bridge/arbitration.cpp:100-173 | one slot of a station inside an attempt: verdict by the reference rule, and what it writes next |
| `MultiStation.FateIsJudged` | src/bridge/arbitration.cpp:100-173 | the end of an attempt over any wire is the judgement on the symbols heard |
| `MultiStation.UndecidedFirstRound` | src/bridge/arbitration.cpp:108-145 | a first round that nobody wins leaves every station listening and the bus idle |
| `MultiStation.SecondSyn` | src/bridge/arbitration.cpp:126-145 | on the following SYN exactly the stations of the least class write again |
| `MultiStation.OneStationWins` | src/bridge/arbitration.cpp:100-171 | election: any number of stations with distinct valid master addresses that start on one SYN of a wired-AND bus, quiet at the second round, elect within four symbols exactly the one least by low nibble, then high nibble; every other station is told it lost |
| `MultiStation.TwoWinnersExactlyWhen` | src/bridge/arbitration.cpp:108-158 | two addresses both win by the reference rule on the same symbols if and only if one is heard first, SYN follows, and then the other is heard |
| `MultiStation.FirstRoundWinnerTalks` | src/bridge/arbitration.cpp:146-171 | on the medium no SYN follows a first round that carries some station's address |
| `MultiStation.TheBusGoesOn` | src/bridge/arbitration.cpp:100-171 | the assumptions about the medium can be met: after every start there is a quiet bus of any length |
| `MultiStation.AtMostOneWins` | src/bridge/arbitration.cpp:100-171 | so for distinct addresses of any kind at most one station wins |
| `ClientProtocol.FrameRoundTrip` | src/bridge/client.cpp:264-272 | encode then decode returns the frame if and only if the command has four bits; the value always survives |
| `ClientProtocol.FrameIsCanonical` | src/bridge/client.cpp:264-272 | every properly marked pair of bytes is the encoding of what it decodes to |
| `ClientProtocol.CommandsRoundTrip` | src/bridge/client.cpp:321-374 | any sequence of proper commands, framed or in short form, is read back exactly, without an error |
| `ClientProtocol.AcceptsExactlyEncodings` | src/bridge/client.cpp:321-374 | a batch is read without an error if and only if it is the encoding of proper commands |
| `ClientProtocol.BatchesConcatenate` | src/bridge/client.cpp:321-374 | batches read without an error say together what their concatenation says |
| `ClientProtocol.CutsMustFallBetweenCommands` | src/bridge/client.cpp:345-353 | a stream cut by the network is read without an error if and only if the cut falls between two commands: a split frame gets its client refused |
| `ClientProtocol.ReadCmd` | src/bridge/client.cpp:321-365 | takes one command off the input, or complains with the right text and closes the connection |
| `ClientProtocol.Socket.ReadByte` | src/bridge/client.cpp:146-152 | the next byte, or -1 when none is waiting |
| `ClientProtocol.Socket.Refuse` | src/bridge/client.cpp:337-360 | the complaint is written and the connection dropped |
| `ClientProtocol.Gateway.ProcessCmd` | src/bridge/client.cpp:280-319 | the effect of each enhanced command on reservation, bus and reply, as Process says; START SYN frees the reservation of any client |
| `ClientProtocol.Gateway.HandleClientEnhanced` | src/bridge/client.cpp:367-374 | all waiting bytes of a client are its commands up to the first error, applied in order |
| `ClientProtocol.Gateway.PushClient` | src/bridge/client.cpp:256-262 | a plain byte reaches a connected client |
| `ClientProtocol.Gateway.PushClientEnhanced` | src/bridge/client.cpp:376-386 | an enhanced client gets the frame of two bytes |
| `ClientProtocol.Gateway.ServeSlot` | src/bridge/client.cpp:96-109 | one item for one slot of each kind: enhanced items to their client alone, others to all but the excluded one |
| `ClientProtocol.Gateway.FanOut` | src/bridge/client.cpp:94-110 | every client that is to see an item gets it exactly once, the others nothing |
| `ClientProtocol.FramesRoundTrip` | src/bridge/client.cpp:264-278 | a stream of frames taken apart two by two is the stream that was sent |
| `ClientProtocol.FannedOutIsRouted` | src/bridge/client.cpp:94-110 | the bytes fanned out to a client are the frames of the items routed to it |
| `ClientProtocol.Gateway.HandleClient` | src/bridge/client.cpp:247-254 | the bytes of a plain client go to the bus in order, as many as it takes; the others wait |
| `ClientProtocol.Gateway.DataProcess` | src/bridge/client.cpp:88-111 | one call handles the slots in order, reads the bus once and fans the item out: the whole gateway changes as Processed says |
| `GatewayLines.SendsAreWritten` | src/bridge/client.cpp:280-319 | a batch of commands writes exactly the data bytes of its send commands to the bus, in order |
| `GatewayLines.ForwardingConserves` | src/bridge/client.cpp:247-254 | what a plain client has sent is either written, in order, or still waits; it waits only if the transmit buffer takes no more |
| `GatewayLines.LineIsWoven` | src/bridge/client.cpp:88-111 | main result on the transmit line: in every run of the gateway it is woven from the writes of the attempts, the send bytes of each enhanced client and the bytes that came in from each plain client, each complete and in order |
| `GatewayLines.NoOtherSource` | src/bridge/client.cpp:88-111 | and there are no other bytes on it |
| `GatewayLines.EverybodyHearsTheBus` | src/bridge/client.cpp:94-110 | a connected plain or read-only client has been told exactly the symbols received from the bus, in order, but for those still queued |
| `ClientProtocol.ClientReceivesWhatIsPromised` | src/bridge/client.cpp:94-110 | the bus data alone: the frames fanned out to an enhanced client over a run of the bridge decode to exactly the answers and echoes that the bus history promises |
| `GatewayRuns.EveryGatewayRunIsABridgeRun` | src/bridge/client.cpp:88-111 | every run of dataProcess, whatever bytes arrive from the clients, is a run of the bridge whose start events are the start commands of the clients in the order of the slots; they differ in the transmit line alone, which also carries what clients write |
| `GatewayRuns.CommandsAreAnswered` | src/bridge/client.cpp:280-319 | processing a batch adds to a connection exactly the frames of the replies: resetted for an init, error_host for a start behind the request of another client |
| `GatewayRuns.ConnectionIsWoven` | src/bridge/client.cpp:88-111 | main result on runs of the gateway: an enhanced client that is still connected has been sent whole frames, woven from the replies to its own commands and the bus data routed to it, each of the two streams complete and in order |
| `GatewayRuns.BusDataIsWhatIsPromised` | src/bridge/client.cpp:88-111 | end to end: the bus data on the connection, with what is still queued, is exactly the answers and echoes that the bus history promises that client |
| `GatewayRuns.ClientDecodesWhatIsSent` | src/bridge/client.cpp:264-272 | taken apart two by two, the bytes on the connection are exactly those frames, replies and bus data alike |
| `GatewayRuns.RefusedConnection` | src/bridge/client.cpp:321-374 | a client that was dropped had been sent the same weave up to one turn, then the replies to the commands in front of its error and the complaint, and is sent nothing more |
| `OtaText.ParseOfDec` | tools/espota.py:564-567 | a printed total reads back as the same number |
| `OtaText.FirstLine` | tools/espota.py:519-525 | the first line of a text that starts with a whole message is that message, and stripping changes nothing |
| `OtaText.StripTrims` | tools/espota.py:519-525 | stripping takes the white space off both ends and nothing else |
| `OtaDevices.PerformTransfer` | src/system/esp_ota_manager.cpp:214-312 | the receive loop: flash, messages, boot switch and outcome as Transfer says, for every sequence of receive calls |
| `OtaDevices.AcksCover` | src/system/esp_ota_manager.cpp:221-285 | the number of acknowledgements times the buffer size covers every byte received |
| `OtaDevices.AtLeastOneAckPerChunk` | src/system/esp_ota_manager.cpp:221-285 | once k chunks of 1024 bytes are written the device has sent at least k acknowledgements, however the bytes were cut up |
| `OtaDevices.TransferIsHonest` | src/system/esp_ota_manager.cpp:221-311 | what the device says matches what it did: cumulative totals, then at most one other message; boot switched exactly when restarting |
| `OtaDevices.SwitchesExactlyIf` | src/system/esp_ota_manager.cpp:214-312 | the device switches to the new image if and only if bytes of the expected length came in with every write good and the magic byte first, the final check worked and the boot switch worked |
| `OtaDevices.FinalCallsDecide` | src/system/esp_ota_manager.cpp:281-312 | with the image there the flash is the bytes that came in; a failed check ends in "ERROR[6]: end", a failed switch in "ERROR[7]: boot", neither switches; else the device says OK and restarts |
| `OtaDevices.FailedCallDecides` | src/system/esp_ota_manager.cpp:221-279 | before that the first call that goes wrong decides: "ERROR[3]: timeout" at the end of the connection, "ERROR[4]: bad image" for a wrong first byte, "ERROR[5]: write" for a failed write; nothing is switched |
| `OtaDevices.ItWaits` | src/system/esp_ota_manager.cpp:221-279 | and while nothing goes wrong and bytes are missing it waits |
| `OtaSenders.ChunkExtends` | tools/espota.py:538-541 | chunks are consecutive pieces of the file |
| `OtaSenders.TakeReply` | tools/espota.py:560-567 | one reply sets the OK flag and raises the acknowledged total |
| `OtaSenders.TransferLoop` | tools/espota.py:534-580 | the loop sends a prefix of the file and leaves the state that Serve reaches on the lines read |
| `OtaSenders.RunServe` | tools/espota.py:534-638 | the whole of serve over the lines read is Serve |
| `OtaSenders.Drain` | tools/espota.py:594-629 | the drain loop is Serve from a draining state |
| `OtaOutcomes.ServeComesTo` | tools/espota.py:534-638 | what serve comes to, for every file and all lines, by a rule on the lines alone: a filled line for each chunk, then either OK as the last of them, or a first deciding line behind them that is OK with a total in front of it that covers the file |
| `OtaSenders.LineReader.ReadResponseLine` | tools/espota.py:519-532 | the line reader takes pieces off the connection until a line is whole, keeping the rest; the end of the connection flushes |
| `OtaTransfers.LineIsMessage` | tools/espota.py:519-525 | whatever the cutting, a buffered line is the next whole message of the device and the rest of the text stays in order |
| `OtaTransfers.PartialLineIsNotOk` | tools/espota.py:526-531 | the flushed remainder reads as OK only if the device said OK |
| `OtaTransfers.RunKeepsSound` | tools/espota.py:534-638 | bytes and text are in order in every state of every run, with any fragmentation, failure or break |
| `OtaTransfers.SuccessMeansInstalled` | tools/espota.py:582-629 | agreement: if the sender reports success the device has switched its boot partition and its flash is exactly the file, starting with the image magic |
| `OtaTransfers.SuccessNeedsGoodCalls` | tools/espota.py:582-629 | and if it reports success, the check of the image and the boot switch have worked and so has every flash write of the run |
| `OtaTransfers.SenderRunsServe` | tools/espota.py:534-638 | the sender inside a run is the program serve on the lines it reads |
| `OtaTransfers.LinesAreReadFromPieces` | tools/espota.py:519-532 | the lines of a run are the lines that read_response_line returns on the pieces taken off the connection |
| `OtaTransfers.SenderRunsServeOnPieces` | tools/espota.py:519-638 | so the sender inside a run is serve on what its own line reader makes of the pieces |
| `OtaTransfers.DeviceRunsTransfer` | src/system/esp_ota_manager.cpp:214-312 | the device inside a run is the program performTransfer on the receive calls it makes |
| `OtaProgress.OkComesLate` | src/system/esp_ota_manager.cpp:281-308 | the OK comes behind at least as many acknowledgements as chunks were sent |
| `OtaProgress.NextLineIsDue` | tools/espota.py:562-587 | in a fault-free run the lines are the messages in order, and in the transfer loop always acknowledgements: the success branch of that loop is never taken |
| `OtaProgress.LastLineIsNeverDue` | tools/espota.py:527-531 | in a fault-free run the end of the connection is never read before the OK |
| `OtaProgress.NobodyIsStuck` | tools/espota.py:552-559 | deadlock freedom: until the sender reports success somebody can move |
| `OtaProgress.EveryStepIsNearer` | tools/espota.py:537-629 | every fault-free step decreases a well-founded measure, so there is no infinite run |
| `OtaProgress.StopsOnlyInSuccess` | tools/espota.py:537-629 | so, whichever steps are taken, a fault-free transfer stops nowhere else than in success |
| `OtaProgress.EndsInSuccess` | tools/espota.py:597-629 | from every state of a fault-free run there is a way on to success |
| `OtaProgress.HealthyTransferSucceeds` | tools/espota.py:582-629 | a fault-free transfer succeeds with the largest total seen equal to the file size and the device installed |
| `CronFields.SplitThenJoin` | src/app/cron.cpp:42-54 | the parts of a split are free of the separator and join to the text |
| `CronFields.JoinThenSplit` | src/app/cron.cpp:42-54 | parts without the separator survive joining and splitting |
| `CronFields.Split` | src/app/cron.cpp:42-54 | the loop fills its vector with the first 64 parts of the split |
| `CronFields.ReadsTheSpan` | src/app/cron.cpp:66-99 | base, step and numbers read off a part are those of the span it writes down |
| `CronFields.SignedExactlyIf` | src/app/cron.cpp:56-61 | the number reader accepts exactly the decimal numbers of 32 bits, with a minus or without a sign |
| `CronFields.ValidatorIsExact` | src/app/cron.cpp:122-167 | the validator accepts a part if and only if it writes a sensible span: a star or a range inside the field (7 as Sunday, Saturday to Sunday wrapping) with a positive step |
| `CronFields.MatchOfNumbers` | src/app/cron.cpp:111-119 | the matcher on a plain range: every step-th value of it |
| `CronFields.MatchOfDays` | src/app/cron.cpp:101-119 | the same for days of the week after the mapping of 7 to 0 |
| `CronFields.MatchOfWeekend` | src/app/cron.cpp:109-112 | the range from Saturday to Sunday counts on from 6 to 7 |
| `CronFields.MatcherIsExact` | src/app/cron.cpp:66-120 | for a part that writes a sensible span the matcher accepts exactly the denoted values |
| `CronFields.MatchesUpToAnEmptyPart` | src/app/cron.cpp:173-183 | for any parts, accepted or not: the matcher says yes if and only if some part matches and none up to it is empty |
| `CronFields.MatchesExactlyTheDenoted` | src/app/cron.cpp:173-195 | for every field of at most 64 parts that the validator accepts and every value of it, the matcher says yes if and only if the value is in the union of what all parts denote |
| `CronFields.WrongExactlyBehindTheLastPart` | src/app/cron.cpp:42-54 | with more parts the matcher is wrong at a value if and only if a part behind the 64th denotes it and none of the first 64 does |
| `CronFields.ShortFieldKeepsItsParts` | src/app/cron.cpp:173-195 | an accepted field of at most 64 characters never has more than 64 parts |
| `CronFields.AcceptedFieldMatches` | src/app/cron.cpp:186-195 | an accepted field matches at least one of its values |
| `CronSchedule.WordInFront` | src/app/cron.cpp:198-211 | a blank-free text in front of a blank is one word |
| `CronSchedule.BlankSeparates` | src/app/cron.cpp:198-211 | a blank separates the words of both sides, so with WordInFront the words of every text are fixed |
| `CronSchedule.Tokenize` | src/app/cron.cpp:198-212 | the loop (one copy in the matcher, one in the validator) finds five words cut at 64 characters, or fails |
| `CronSchedule.AcceptsExactly` | src/app/cron.cpp:225-272 | a rule is accepted if and only if it is complete, has five fields that are well written after the cut at 64 characters, and either contains one of * / , - or matches the sample time |
| `CronSchedule.MatchesTheMeaning` | src/app/cron.cpp:197-223 | for an accepted rule whose words have at most 64 characters the matcher computes membership in the set that the schedule denotes, a set defined on the uncut text |
| `CronSchedule.FieldsAreTheWordsExactlyIf` | src/app/cron.cpp:198-211 | the five fields are the words of the schedule if and only if there are five words of at most 64 characters |
| `CronSchedule.MatchesTheCutWords` | src/app/cron.cpp:197-223 | for every accepted rule the matcher computes what its words denote after the cut |
| `CronCuts.CutFieldIsWrongExactlyIf` | src/app/cron.cpp:198-211 | for a longer word: the matcher is wrong at a value if and only if no whole part in front of the cut denotes it and just one does of the stub at the cut and the parts from there on |
| `CronCuts.OverlongFieldIsMisread` | src/app/cron.cpp:198-211 | an accepted rule that denotes minute 5 of every hour and fires at minute 0 instead |
| `CronCuts.PartTooManyIsIgnored` | src/app/cron.cpp:42-54 | an accepted expression of 65 parts whose last part denotes 5, where 5 does not match |
| `CronSchedule.AcceptedRuleFires` | src/app/cron.cpp:225-272 | every accepted rule matches at some time in range |
| `CronSchedule.ComplaintIsTheFirstFault` | src/app/cron.cpp:225-290 | the validator reports the first fault in its order of fourteen, and nothing if and only if there is none |
| `CronPlain.PlainIsAcceptedExactlyAtTheSample` | src/app/cron.cpp:231-244 | a schedule without special characters is accepted if and only if it matches midnight of Sunday the first of January |
| `CronPlain.FixedTimeMatches` | src/app/cron.cpp:197-223 | a schedule of five in-range numbers matches that time and no other, 7 being Sunday |
| `CronPlain.FixedTimesAreRefusedButOne` | src/app/cron.cpp:231-244 | so of all well-formed fixed times only "0 0 1 1 0" and "0 0 1 1 7" pass the validator |
| `CronRunner.Cron.SetRules` | src/app/cron.cpp:335-338 | replaces all rules |
| `CronRunner.Cron.TickRule` | src/app/cron.cpp:494-500 | one rule in one tick: fires and remembers the minute, or stays |
| `CronRunner.Cron.OnTick` | src/app/cron.cpp:483-534 | one tick fires exactly the due rules and sends exactly those whose command is available |
| `CronRunner.FiresOnEveryChange` | src/app/cron.cpp:483-500 | for any clock: the minutes in which a rule fires are the matching minutes without immediate repetitions |
| `CronRunner.DistinctExactlyIfGrouped` | src/app/cron.cpp:494-500 | removing immediate repetitions leaves no repetition if and only if equal entries stood together |
| `CronRunner.OncePerMatchingMinute` | src/app/cron.cpp:483-500 | with a clock that never goes back an enabled rule fires exactly once in every minute with a matching tick, and never else |
| `CronRunner.NeverTwiceExactlyIf` | src/app/cron.cpp:483-500 | for any clock: never twice in a minute if and only if the clock does not return to a matching minute after another one |
| `CronRunner.AnyTickWillDo` | src/app/cron.cpp:483-500 | when local time depends on the minute alone, any one tick in a minute decides whether the rule fires in it, once |
| `CronClocks.OncePerSixtySeconds` | src/app/cron.cpp:483-500 | on the clock itself, which never goes back: a rule fires once in the sixty seconds from 60 m on if it is enabled and matches at a tick in them with the clock set, and else never |
| `CronRunner.ReplacedRuleFiresAgain` | src/app/cron.cpp:335-338 | one tick: a rule put back unchanged behaves differently if and only if the tick is due in the minute in which the rule has last fired, and then it fires in it again |
| `CronReplacing.EveryDueMinuteFires` | src/app/cron.cpp:335-338 | over any ticks and replacements an enabled rule fires in exactly the minutes that have a due tick |
| `CronReplacing.NeverTwiceExactlyIfNotReplaced` | src/app/cron.cpp:335-338 | with a clock that never goes back it never fires twice in a minute if and only if no replacement falls between two due ticks of one minute |
| `CronReplacing.SentExactlyIfReadyAtTheFirstDueTick` | src/app/cron.cpp:494-534 | and its write is sent in a minute if and only if its command is available at a tick that is the first due one of that minute, counted afresh after a replacement |
| `CronClocks.NeverTwiceInSixtySeconds` | src/app/cron.cpp:335-338 | with replacements: never twice in the sixty seconds of a minute if and only if no replacement falls between two matching ticks of one |
| `CronClocks.SentInSixtySecondsExactlyIf` | src/app/cron.cpp:483-534 | the write is sent in those sixty seconds if and only if the command is available at their first matching tick, counted afresh after a replacement |
| `CronProjections.EveryRuleHasItsRun` | src/app/cron.cpp:335-338 | in a run of the whole runner, ticks and replacements of all rules, each rule that is put back unchanged has the run that CronReplacing speaks of |
| `CronProjections.FiresWithItsRun` | src/app/cron.cpp:483-534 | and it fires, or is sent, at a tick of the runner if and only if that run says so |
| `CronProjections.OnlyTheLastReplacementMatters` | src/app/cron.cpp:335-338 | behind the last replacement every rule has the run of ticks that CronRunner speaks of, whatever happened before |
| `StringPools.Interned` | include/system/string_pool.hpp:13-31 | interning keeps segments inside the buffer and at most 255 entries |
| `StringPools.StringPool.constructor` | include/system/string_pool.hpp:43-49 | a new pool is empty |
| `StringPools.StringPool.Lookup` | include/system/string_pool.hpp:33-37 | the text of an entry, or the empty text for 0 and unknown numbers |
| `StringPools.StringPool.Holds` | include/system/string_pool.hpp:17-18 | an entry equals a string if length and bytes do |
| `StringPools.StringPool.Find` | include/system/string_pool.hpp:16-21 | the search loop finds the first entry with the text |
| `StringPools.StringPool.Copy` | include/system/string_pool.hpp:25-26 | the bytes and a zero go behind what is there, which stays |
| `StringPools.StringPool.Append` | include/system/string_pool.hpp:23-30 | a new string is added with an 8-bit length; the 8-bit count may wrap |
| `StringPools.StringPool.Intern` | include/system/string_pool.hpp:13-31 | the method on the flat arrays does exactly what Interned says |
| `StringPools.SearchFinds` | include/system/string_pool.hpp:16-21 | the search succeeds if and only if the text is stored |
| `StringPools.InternedTexts` | include/system/string_pool.hpp:13-31 | what interning does to the list of stored texts and which number it returns, in every case |
| `StringPools.EarlierIdsSurviveExactlyUnless` | include/system/string_pool.hpp:23-30 | an earlier number keeps its meaning if and only if the call does not add the 256th string, which wraps the count |
| `StringPools.LookupGivesBackExactly` | include/system/string_pool.hpp:13-37 | lookup(intern(s)) = s if and only if s is empty, or the number is not 0 and s has at most 255 bytes |
| `StringPools.RefusedExactly` | include/system/string_pool.hpp:14-23 | intern returns 0 if and only if the string is empty, or new with the buffer or the numbers used up |
| `StringPools.EveryRunIsPacked` | include/system/string_pool.hpp:23-30 | stored segments are disjoint and inside the buffer in every run of any strings |
| `StringPools.NumbersAreNames` | include/system/string_pool.hpp:13-37 | over at most 255 names of at most 255 bytes every number handed out denotes its string for ever, and numbers are equal if and only if the strings are |
| `StringPools.InterningAgain` | include/system/string_pool.hpp:16-21 | interning a string again returns the number it had |
| `StringPools.TheLastNameWipesThePool` | include/system/string_pool.hpp:30-30 | the limit of 255 is sharp: after 256 strings of one byte no number denotes anything |
| `CommandStores.CommandManager.Find` | src/app/command_manager.cpp:141-149 | the first command with the key |
| `CommandStores.CommandManager.Insert` | src/app/command_manager.cpp:102-117 | replace in place keeping the poll id, or append while there is room, or drop |
| `CommandStores.CommandManager.RemoveFieldOverrides` | src/app/command_manager.cpp:645-652 | the backward loop removes all overrides of the key id and keeps the order of the others |
| `CommandStores.CommandManager.Remove` | src/app/command_manager.cpp:119-130 | the command and its overrides go |
| `CommandStores.CommandManager.RemoveAll` | src/app/command_manager.cpp:132-139 | commands and overrides go, the shared write parts stay |
| `CommandStores.CommandManager.SetWrite` | src/app/command.cpp:60-78 | an existing write part is shared, a new one added while there is room, otherwise the command has none |
| `CommandStores.CommandManager.FindOverride` | src/app/command_manager.cpp:571-592 | the first override of a field |
| `CommandStores.CommandManager.SetMin` | src/app/command_manager.cpp:611-626 | the minimum of a field is set or added while there is room |
| `CommandStores.CommandManager.SetMax` | src/app/command_manager.cpp:628-643 | the same for the maximum |
| `CommandRuns.InsertRefines` | src/app/command_manager.cpp:102-117 | insertCommand refines the update of a map bounded to 96 keys, and keeps the order of the keys |
| `CommandRuns.RemoveRefines` | src/app/command_manager.cpp:119-130 | removeCommand refines the removal of a key: exactly one command goes |
| `CommandRuns.MapSize` | src/app/command_manager.cpp:102-117 | the map has as many keys as the store has commands |
| `CommandRuns.RemoveTakesItsOverridesOnly` | src/app/command_manager.cpp:119-130 | a removed command loses all of its overrides, every other command none |
| `CommandRuns.MinimumIsSetExactlyIf` | src/app/command_manager.cpp:611-626 | a minimum that is set is read back for that field alone, if and only if the field had limits already or a place was left; maxima stay |
| `CommandRuns.MaximumIsSetExactlyIf` | src/app/command_manager.cpp:628-643 | the same for maxima |
| `CommandRuns.LoadingIsSound` | src/app/command_manager.cpp:740-749 | reading a row, whatever is in it, keeps all that Sound says while no name wraps the pool |
| `CommandRuns.LoadingAFileIsSound` | src/app/command_manager.cpp:725-749 | so does reading a whole file |
| `CommandRuns.EveryOperationIsSound` | src/app/command_manager.cpp:102-149 | every operation, dropping overrides by number and loading a row included, keeps keys, override pairs and write parts pairwise distinct, numbers and fields valid and capacities respected |
| `CommandRuns.EveryStoreIsSound` | src/app/command_manager.cpp:102-149 | so every store reached by any run of such operations is sound; the one condition is that the pool does not wrap |
| `CommandRuns.WriteBytesNeverChange` | src/app/command_manager.cpp:548-563 | no operation on anything changes the write bytes of a command; the write parts only grow |
| `CommandRuns.WritesAreTheFirstSixteen` | src/app/command_manager.cpp:556-563 | the 16 places go to the first 16 different write parts ever asked for; removing commands gives none back |
| `CommandRuns.WriteIsSetExactlyIf` | src/app/command.cpp:60-78 | a command gets its write part if and only if it is empty, known, or a place is left |
| `CommandFiles.ProfileNameReturns` | src/app/data_profile.cpp:12-38 | a profile written by name is found by name again |
| `CommandFiles.ProfileNumberExactly` | src/app/data_profile.cpp:12-38 | a name gets the number of its first place in the table, and none if and only if it is not there |
| `CommandFiles.LoadField` | src/app/command.cpp:576-619 | one field object of a row; a fifth field is dropped but its limits are stored |
| `CommandFiles.LoadFields` | src/app/command.cpp:576-619 | all field objects of a row |
| `CommandFiles.StartRow` | src/app/command_manager.cpp:740-747 | stale overrides of the key are dropped; key and name are interned |
| `CommandFiles.LoadRow` | src/app/command_manager.cpp:740-749 | one tabular row is read, its byte sequences cut at 24 bytes, and inserted |
| `CommandReloads.RowReplacesItsLimits` | src/app/command_manager.cpp:740-749 | reading a row, over an earlier command or not: the limits of its key are then those of its own field objects alone, and those of all other keys are as they were |
| `CommandReloads.StaleLimitsAreGone` | src/app/command_manager.cpp:740-747 | so a field without limits in the row has none afterwards, whatever it had |
| `CommandReloads.PollIdsStay` | src/app/command_manager.cpp:102-117 | a command that was there keeps its poll id; a new one has none |
| `CommandFiles.Deserialize` | src/app/command_manager.cpp:690-749 | the rows of the file are read in order |
| `CommandFiles.SaveField` | src/app/command_manager.cpp:254-277 | one field with profile names, position (0 shown as 1) and limits |
| `CommandFiles.SaveRow` | src/app/command_manager.cpp:239-279 | one command as a row |
| `CommandFiles.SaveCommands` | src/app/command_manager.cpp:208-283 | one row per command in order; an empty list writes no file |
| `CommandRestores.FieldsAreRestored` | src/app/command.cpp:576-619 | reading the field objects of a saved row gives back those fields and limits |
| `CommandRestores.RowIsRestored` | src/app/command_manager.cpp:740-749 | reading a saved row adds a command that would be saved as that row and leaves the earlier ones as they were |
| `CommandRestores.SavedRowsAreGood` | src/app/command_manager.cpp:239-279 | what a save writes is within the limits of what can be read, with distinct keys |
| `CommandRestores.SavedMarksFit` | src/app/command_manager.cpp:270-277 | at most 16 fields of a saved file carry limits |
| `CommandRestores.SaveThenLoadRestores` | src/app/command_manager.cpp:208-283 | save then load into a cleared store restores every command of a sound store in order, with key, name, read and write bytes, interval, master, fields and limits, given room in the pool |
| `CommandRestores.EverySavedStoreIsRestored` | src/app/command_manager.cpp:208-283 | hence for every store that any run of operations, loads included, has reached |
| `CommandReboots.EveryStoreSurvivesARestart` | src/app/command_manager.cpp:175-283 | across a restart: every store that any run has reached is restored by loading its file into an empty store over an empty pool, without a condition on that pool |
| `CommandRestores.RemoveAllIsUndoneByLoading` | src/app/command_manager.cpp:725-749 | within one session save, removeAll and load restore everything without any condition on the pool; a second save writes the same rows |
| `CommandRestores.ReloadRestoresExactlyIf` | src/app/command_manager.cpp:208-212 | loading after a save gives what was saved if and only if the list was not empty or the earlier file was: an empty list does not overwrite the file |
| `LogRings.Capacity` | src/system/logger.cpp:18-19 | a capacity in range is used as given |
| `LogRings.PutIsShownClipped` | src/system/logger.cpp:172-175 | nothing of an older message shows through a newer, shorter one |
| `LogRings.ClippedIsBeginning` | src/system/logger.cpp:172-175 | what is shown of a text is a beginning of it with at most 383 characters and no NUL, which is the whole of it, or full, or in front of a NUL |
| `LogRings.NoneIsLonger` | src/system/logger.cpp:172-175 | and no beginning without NUL that fits is longer |
| `LogRings.ShortTextIsShown` | src/system/logger.cpp:172-175 | a text of at most 383 characters without NUL is shown unchanged |
| `LogRings.Logger.constructor` | src/system/logger.cpp:14-21 | a new ring is empty with the clamped capacity |
| `LogRings.Logger.Log` | src/system/logger.cpp:168-187 | one message goes to the write position; the counters move |
| `LogRings.Logger.FetchLogs` | src/system/logger.cpp:67-102 | the read-out loop with its unsigned index expression |
| `LogRings.UnderflowRecovers` | src/system/logger.cpp:84-86 | the unsigned intermediate results may wrap, the sum is the true one |
| `LogRings.IndexOfMessage` | src/system/logger.cpp:84-86 | the index expression is the place of the i-th of the last messages |
| `LogRings.EveryRingHoldsTheLast` | src/system/logger.cpp:168-187 | after n messages the ring holds the last min(n, capacity), each in its place |
| `LogRings.FetchReturnsTheLast` | src/system/logger.cpp:67-102 | fetchLogs returns those from `since` on, oldest first |
| `LogRings.FetchAllReturnsTheLast` | src/system/logger.cpp:67-102 | without a limit exactly the last min(n, capacity) messages, clipped |
| `LogRings.FetchAllShowsTheLast` | src/system/logger.cpp:67-102 | message by message: the k-th one shown is the k-th of the last min(n, capacity) as it was logged, its text cut to the longest beginning that fits |
| `LogRings.FetchShowsTheLateOnes` | src/system/logger.cpp:67-102 | with a limit exactly those of them that are not older, in the same order |
| `LogRings.CountersAddUpExactly` | src/system/logger.cpp:181-186 | entries + overwrites = n if and only if fewer than 2^32 messages have been overwritten |

## Left out

- The asynchronous build and the software serial port, their busy waits and their queues.
- Debug log texts, the print queue and print task of the logger, and its locking: a read-out is taken between two messages.
- Socket errors, and accepting and replacing clients: a run of the gateway has the same clients from beginning to end, and a dropped one stays away.
- What arrives on read-only connections, which the firmware never reads.
- Updates over the air: invitation, authentication and MD5, opening the connection and the partition, progress messages, and files of 2^32 bytes and more. Exotic spellings of numbers that Python accepts, such as underscores, never occur in the device's messages and are not modelled.
- Clock time-outs of both update programs are a step that may happen at any moment.
- Cron: reading and writing the rule file, the background task, and the text of the complaints; the write that is enqueued is the set of rules sent.
- Whether an accepted schedule ever meets a calendar date (31 February does not) is not decided; statements about accepted rules range over all in-range time tuples.
- The command store: callbacks, polling, decoding of values, the JSON form of a command and its validation, `wipeCommands` beyond what it shares with `removeAll`, and the file system.
- The minimum and maximum of a field are real numbers or absent; the float notation in the file is taken to keep the value.
- Everything in the `ebus` library, HTTP, MQTT, Home Assistant, Wi-Fi, SNTP, PWM, GPIO and the configuration pages.
