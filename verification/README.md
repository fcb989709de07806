# Verified model of the attested-impression pipeline

This project models how spnr turns time spent waiting for an assistant into paid
impressions, and proves what that pipeline guarantees:

- **Engine and daemon.** Sessions move between idle, waiting and tool-running. Whole
  seconds of waiting count when a render heartbeat vouches for them. Every `Stop` with
  at least five such seconds becomes one signed, hash-chained event.
- **Server and store.** Devices register, batches of events are verified and credited,
  balances are redeemed. Each change is written through to tables one statement at a
  time, and a restart reloads them.
- **Both together.** The network between them may lose, repeat, reorder and re-batch
  anything, and anyone may send forgeries or other devices' events.
- **Byte and tree components.** The datagram codec, the length-prefixed queue log, the
  scanners that look for one key in raw JSON text, and the merge of hook groups into
  `settings.json`.

The parts of the program that update state in place are methods and classes
(`Engine.Session`, `Daemon.Dispatcher`, `App.Connection`, `App.AppState`, `Queue.Log`, and
the loops of `Socket`, `Scanner` and `Settings`). Each is proved to do exactly what a
function on values says. The results about whole runs are lemmas about those functions.

## How the files fit together

| file | content |
|---|---|
| `Basics.dfy`, `Utf8.dfy` | optional values, sums over maps, hex and decimal numerals, well-formed UTF-8 |
| `Engine.dfy`, `Daemon.dfy`, `DaemonRuns.dfy`, `PauseRuns.dfy` | one session, the dispatcher, what holds over every run of it, earnings read off the trace |
| `Proto.dfy` | events, signatures and the hash chain |
| `Server.dfy`, `ServerRuns.dfy` | registration, ingest and redemption as steps, what holds over every run |
| `Store.dfy`, `Durability.dfy`, `App.dfy` | tables and reload, stops between two writes, the running server |
| `System.dfy`, `SystemStops.dfy` | daemon, network and server as one system, also with a server that stops between writes |
| `Socket.dfy`, `Queue.dfy` | the two codecs |
| `Json.dfy`, `Scanner.dfy`, `ScanLaws.dfy`, `ScanJson.dfy`, `Escapes.dfy` | JSON text, the scanners, what they accept in any text, the scanners on JSON text, escapes |
| `Settings.dfy`, `HookMerge.dfy`, `PruneOrder.dfy`, `HookOrder.dfy` | the ordered settings object, injecting and removing hooks, the order of keys |

## Conventions and assumptions

- A byte string is a Dafny string whose characters are below 256. The scanners work on
  UTF-8 bytes; `trim` and `trim_end` strip the encodings of all Unicode white space.
- Digest, signature check, key check, signing and session fingerprint are arbitrary
  functions in `Crypto` and `DeviceKey`. What a lemma needs of them is in its `requires`:
  `CollisionFree` (distinct events have distinct digests, none of them the genesis value),
  `Unforgeable` (a signature under the daemon's key verifies only for events it has
  signed), `Authentic` (its own signatures verify), `FreshIds` (event ids are not reused).
- Receipt times and fresh event ids are inputs. `Monotone` (receipt times never go back) is
  assumed by the liveness gate only.
- Each SQL statement is atomic and succeeds. Totals are mathematical integers; the
  impressions of one event are at most 60 and fit 32 bits.
- Objects read from JSON have distinct keys (`WellKeyed`), as serde_json's maps do.

## What the code does that its documentation does not say

- **Re-registration stalls a device for good.** Registering again resets the chain head,
  so the server asks for the first event, whose id is a duplicate
  (`System.ReRegistrationStalls`). The next log event is accepted if and only if nothing was
  accepted before or something was since the latest registration (`System.Progress`).
- **A lost envelope stalls its device** until the log is sent again from the missing event
  on (`System.LossStalls`). Resending the whole log recovers (`System.ResendRecovers`).
- **Impressions of another key count for the same account.** Registering a device id under
  a second key replaces the key and keeps the account. The account is exactly what the
  daemon's events earned plus what other keys' events did (`System.AccountIdentity`), so the
  undercount bound holds for the daemon's part (`System.EndToEndUndercount`) and can fail
  for the whole (`System.OtherKeyIsCredited`).
- **Paused seconds can be billed.** `crates/spnrd/src/engine.rs:5-7` says a second counts
  only if the session is not paused, but the flag is read only when a sub-span closes. A
  sub-span counts too much exactly when a covered tick fell in a pause that is over by the
  close, and too little exactly when it closes under a pause that some covered tick lay
  outside of (`PauseRuns.PausedSecondsCounted`).
- **One session can go by two ids.** `skim_string` pushes every byte as a character of its
  own, `skim_session` copies the bytes. They agree if and only if the value has neither a
  backslash nor a byte above 127 (`Escapes.SkimmersAgree`, `Escapes.OneSessionTwoIds`). Then
  heartbeats miss the session, and it earns nothing (`PauseRuns.UnheardEarnsNothing`).
- **Some escapes are skimmed wrong.** A backspace, form feed or unicode escape in a skimmed
  value does not come out as JSON means it (`Escapes.SkimmedIsMeaning`).
- **A stop between two writes can break the books.** `Durability.StopInAccept` and
  `Durability.StopInRedeem` say after which writes. Over a whole run money is conserved if
  and only if no crediting acceptance stopped after write 5 and no redemption after write 2
  (`Durability.ConservedUnlessStopped`), and balances agree with the ledger if and only if
  the other half-written earnings and redemptions cancel (`Durability.LedgerAgreesIff`).
  Earnings still never arrive twice.
- **A stop behind the first write passes an event over.** Its head is stored and its id is
  not, so it is refused, the next event is accepted in its place, and only registering again
  makes it acceptable (`SystemStops.FirstWriteSkips`, `SystemStops.NextAfterSkip`).
- **A torn queue tail swallows a later record.** `crates/spnrd/src/queue.rs:3-7` promises
  that a crash loses at most the record in flight. Records before it are safe, but the
  next append goes behind the torn tail (`Queue.RecoveryCondition`).
- **The ledger check cannot fail.** Its net map sums to zero for every list of entries, so
  it detects nothing (`App.LedgerSumsToZero`).
- **Removing hooks can reorder a user's hooks.** `crates/spnr-settings/src/lib.rs:219-221`
  says foreign hooks are never reordered; removal of a key moves the last one into its
  place (`HookOrder.RemoveCanReorder`). The order is kept if and only if at most one key
  that stays is behind the first emptied event, or the layout of two or three emptied events
  is one of the thirteen in which the swaps undo each other (`HookOrder.KeptIff`,
  `HookOrder.RemoveKeepsOrderIff`). Removal is the inverse of injection only for clean
  settings (`HookMerge.RemoveInvertsInject`): an empty array or an empty `hooks` object of
  the user's own is pruned.

## Model

| member | source | states |
|---|---|---|
| `System.PrefixSafety` | server/spnr-server/src/main.rs:859-895 | under any loss, repetition, reordering, re-batching, forgery and re-registration, the events accepted from a daemon are always a prefix of its log |
| `System.NextAccepted` | server/spnr-server/src/main.rs:859-885 | while the device is not reset, the next log event is accepted if and only if its id has not been seen |
| `System.RegisteredOnceIsLive` | server/spnr-server/src/main.rs:580-586 | after exactly one registration of the device its record always continues the accepted events |
| `System.Progress` | server/spnr-server/src/main.rs:859-885 | on a device registered under the daemon's key, any number of times, with fresh ids, the next log event is accepted whenever it arrives if and only if nothing was accepted before or the record has a counter since its latest registration |
| `System.RegisteredOnceNotReset` | server/spnr-server/src/main.rs:580-586 | a single registration never leaves the record in the failing case |
| `System.ProgressAfterRegistration` | server/spnr-server/src/main.rs:580-586 | right after a registration under the daemon's key the next log event is accepted if and only if none was accepted before it |
| `System.AcceptedWasDelivered` | server/spnr-server/src/main.rs:821-828 | every accepted event was sent to the server under that device id |
| `System.LossStalls` | server/spnr-server/src/main.rs:873-881 | while one log event has not reached the server, nothing after it is accepted |
| `System.AnswerOnLog` | server/spnr-server/src/main.rs:870-885 | with collision-free digests and a record that is not reset, every log event but the next one, resent or behind a lost one, is answered "chain fork/gap"; the next is accepted, or answered "duplicate event id" if its id was seen |
| `System.AnswerAfterReset` | server/spnr-server/src/main.rs:873-885 | after a re-registration behind an acceptance the first log event is answered "duplicate event id" and every other one "chain fork/gap" |
| `System.CatchUp` | server/spnr-server/src/main.rs:821-848 | resending a queue from its start gets exactly the missing events accepted, each once, and ends with the head of the whole log |
| `System.ResendRecovers` | server/spnr-server/src/main.rs:821-848 | the same from every state of the system whose record is not reset, whatever was lost before |
| `System.ReRegistrationStalls` | server/spnr-server/src/main.rs:580-586 | registering again under the daemon's key after any event was accepted ends acceptance from that log in every continuation |
| `System.AcceptedUndercount` | server/spnr-server/src/main.rs:902-929 | impressions accepted from a daemon are at most what it counted, and 5000 ms of closed waiting stand behind each |
| `System.AccountIdentity` | server/spnr-server/src/main.rs:902-929 | the impressions of the device's account are exactly those accepted from the daemon plus those accepted for the device id under other keys |
| `System.EndToEndUndercount` | crates/spnrd/src/engine.rs:81-163 | in every state of the system, impressions on the device's account, less those of other keys, times 5000 are at most its closed waiting milliseconds, and at most the daemon's total |
| `System.OwnKeyUndercount` | crates/spnrd/src/main.rs:147-152 | the bound for the whole account when no event was accepted for the device id under another key |
| `System.OtherKeyIsCredited` | server/spnr-server/src/main.rs:567-588 | one registration and one event under a second key give one credited impression against no waiting time and a daemon total of zero |
| `SystemStops.StoppedOnLog` | server/spnr-server/src/main.rs:933-947 | with a server that stops between any two writes, the device's record always stands on the daemon's log at its counter, no event's impressions are stored twice, and the account holds exactly what was stored |
| `SystemStops.StoppedUndercount` | server/spnr-server/src/main.rs:902-947 | the end-to-end bound over every run with stops, re-registrations and resends |
| `SystemStops.PassedPrefix` | server/spnr-server/src/main.rs:873-894 | the events that moved the device's head since its latest registration are the first log events up to its counter, in order, whatever stops came between |
| `SystemStops.BookedExactly` | server/spnr-server/src/main.rs:935-947 | with a single registration, the events whose impressions are stored are those, in order, without exactly the ones whose acceptance stopped after write 1 to 5 |
| `SystemStops.StoppedProgress` | server/spnr-server/src/main.rs:859-885 | on a record under the daemon's key, after any stops and registrations, the log event at its counter is accepted if and only if its id is not stored |
| `SystemStops.FirstWriteSkips` | server/spnr-server/src/main.rs:935-937 | after a stop behind the first write the event is refused with its id unstored, and accepted again once the device is registered again |
| `SystemStops.NextAfterSkip` | server/spnr-server/src/main.rs:873-885 | the event that follows it in the log is accepted instead |
| `SystemStops.CompletedIsSystem` | server/spnr-server/src/main.rs:821-848 | a run without stops is the run of the system with complete requests |
| `Engine.CountableWithinSpan` | crates/spnrd/src/engine.rs:139-163 | a sub-span never counts more seconds than it lasted |
| `Engine.PartialSecondDropped` | crates/spnrd/src/engine.rs:135-151 | the trailing partial second holds no tick |
| `Engine.GateIsTwoSeconds` | crates/spnrd/src/engine.rs:14-16 | a tick counts if and only if it is a whole number of seconds into the sub-span and a heartbeat came at most 2000 ms before it |
| `Engine.AllCovered` | crates/spnrd/src/engine.rs:150-162 | if a heartbeat came at most 2000 ms before each tick, every whole second counts |
| `Engine.NoneCovered` | crates/spnrd/src/engine.rs:147-160 | none counts under a pause, without attestation, or when every heartbeat at or before each tick is older |
| `Engine.ThreePerHeartbeat` | crates/spnrd/src/engine.rs:153-160 | ticks a second apart that are all within two seconds of a heartbeat number at most three for each heartbeat |
| `Engine.VouchedStep` | crates/spnrd/src/engine.rs:75-133 | every event keeps each counted second tied to its own tick, covered by a heartbeat of the interval and a second away from all others |
| `Engine.GateBound` | crates/spnrd/src/engine.rs:104-112 | impressions at `Stop` times five are at most three times the heartbeats of the interval |
| `Engine.Impressions` | crates/spnrd/src/engine.rs:108-109 | impressions are the fifths of the counted seconds rounded down, and at most 60 |
| `Engine.MostRecent` | crates/spnrd/src/engine.rs:154-155 | finds the latest heartbeat at or before a tick, or none when all are later |
| `Engine.CountableSecondsIn` | crates/spnrd/src/engine.rs:139-163 | the loop counts exactly the covered whole-second ticks, and zero when paused or not attested |
| `Engine.Session.Stop` | crates/spnrd/src/engine.rs:104-112 | returns the impressions of the interval and leaves an idle session with the pause and attestation flags kept |
| `Engine.Session.Close` | crates/spnrd/src/engine.rs:114-125 | adds the countable seconds of the open sub-span under the pause flag read at that moment |
| `Daemon.Dispatcher.Handle` | crates/spnrd/src/main.rs:134-182 | one datagram changes sessions, pause flag, counter, chain head, total and queue exactly as the step function says, and only the addressed session's record |
| `Daemon.Dispatcher.EmitImpressions` | crates/spnrd/src/main.rs:185-217 | appends one signed event carrying the current counter and chain head, and advances both |
| `DaemonRuns.StepKeepsLog` | crates/spnrd/src/main.rs:147-152 | an input appends one event exactly when it earns, with the minted id, count and fingerprint, and the log stays chained |
| `DaemonRuns.LogAlwaysKept` | crates/spnrd/src/main.rs:185-203 | in every run the counter is the log length, `prev` the chain head, the total the sum of counts, and every event signed with 1 to 60 impressions |
| `DaemonRuns.QueueIsEarners` | crates/spnrd/src/main.rs:185-217 | over every run the queue holds, in order, one event for each `Stop` that earned, with version 1, that input's id, receipt second and session fingerprint, its count, and the creative the daemon was started with |
| `DaemonRuns.ClockAgrees` | crates/spnrd/src/engine.rs:81-133 | every session's phase and open sub-span are what a reading of the input trace alone says |
| `DaemonRuns.Undercount` | crates/spnrd/src/main.rs:134-182 | over every run, total impressions times 5000 plus pending seconds times 1000 are at most the closed waiting milliseconds of all sessions; tool time adds nothing |
| `DaemonRuns.LivenessGate` | crates/spnrd/src/engine.rs:88-125 | with nondecreasing receipt times, an interval with H heartbeats since its prompt earns at most 3H/5 impressions, however many tool breaks split it |
| `DaemonRuns.InterleavingIndependence` | crates/spnrd/src/main.rs:134-182 | in any interleaving a session earns what it earns in a daemon fed only its own inputs and the commands |
| `DaemonRuns.PauseAlwaysAgrees` | crates/spnrd/src/main.rs:140-179 | after every step each session's pause flag is the daemon's |
| `DaemonRuns.PauseFreezesSeconds` | crates/spnrd/src/engine.rs:147-149 | as long as the daemon stays paused, whatever arrives, no session's countable seconds grow |
| `DaemonRuns.PausedIntervalEarnsNothing` | crates/spnrd/src/main.rs:168-173 | an interval opened and stopped under one pause earns nothing |
| `DaemonRuns.PauseBetweenHooksIsInvisible` | crates/spnrd/src/engine.rs:114-123 | a pause resumed with only heartbeats in between leaves the same state as no pause at all |
| `DaemonRuns.PausedWaitStillEarns` | crates/spnrd/src/engine.rs:114-123 | a concrete wait, paused from its first to its last millisecond, earns one impression |
| `PauseRuns.CloseAdds` | crates/spnrd/src/engine.rs:114-125 | closing a sub-span adds nothing if the trace is paused at that moment and otherwise every covered tick since it opened, whatever pauses lay inside, on top of what the trace says was gathered |
| `PauseRuns.ExactEarnings` | crates/spnrd/src/main.rs:147-152 | in every run the impressions of a `Stop` are exactly the capped fifth part of the seconds read off the trace of inputs alone |
| `PauseRuns.TickCounts` | crates/spnrd/src/engine.rs:153-160 | the ticks that count, read off the trace, with the gate of 2000 ms |
| `PauseRuns.SteadyWaitEarns` | crates/spnrd/src/engine.rs:103-112 | over a run, a wait with a heartbeat at most 2000 ms before each tick is paid for every whole second, a fifth of them rounded down and at most 60 |
| `PauseRuns.StaleWaitEarnsNothing` | crates/spnrd/src/engine.rs:153-160 | over a run, a wait whose heartbeats are more than 2000 ms old at each tick adds nothing |
| `PauseRuns.SessionsKnown` | crates/spnrd/src/main.rs:141-163 | a session is on record from its first hook to its `SessionEnd`; heartbeats and commands create none |
| `PauseRuns.PausedSecondsCounted` | crates/spnrd/src/engine.rs:5-9 | against the rule that a paused second never counts: too much is counted if and only if the close is not paused and a covered tick lies in a pause, too little if and only if the close is paused and a covered tick does not |
| `PauseRuns.PauseBetweenOwnHooksIsInvisible` | crates/spnrd/src/engine.rs:114-123 | a pause resumed before the session's next hook leaves no trace on the session, whatever other sessions do meanwhile |
| `PauseRuns.UnheardEarnsNothing` | crates/spnrd/src/main.rs:160-163 | a session that no heartbeat names earns nothing |
| `Proto.HeadDeterminesHistory` | crates/spnr-proto/src/chain.rs:12-18 | with collision-free digests two chained histories with equal heads are equal |
| `ServerRuns.AcceptedAtMostOnce` | server/spnr-server/src/main.rs:882-895 | over any run no event id is accepted twice, on any devices and across re-registrations, and `accepted` is the size of the seen set |
| `ServerRuns.SeenFromHistory` | server/spnr-server/src/main.rs:895 | every seen id belongs to an accepted event |
| `ServerRuns.Conservation` | server/spnr-server/src/main.rs:215-224 | in every reachable state balances plus redemptions are 5000 micros for each impression, over any number of accounts |
| `ServerRuns.BalancesMatchLedger` | server/spnr-server/src/main.rs:905-928 | every balance is the account's earned credits less its redemptions in the ledger, and never negative |
| `ServerRuns.SpendPerEvent` | server/spnr-server/src/main.rs:905-926 | the impression entries of each accepted event total exactly 10000 micros per impression, and any other id has none |
| `ServerRuns.LedgerBooks` | server/spnr-server/src/main.rs:902-926 | the entries a request books, word for word: 5000 micros an impression from `acct:house` to the device's account and as much from the house to itself, and a payout from the account to `acct:payout` under the redemption's id |
| `ServerRuns.NetOfRun` | server/spnr-server/src/main.rs:1047-1055 | over every run the net of each account in the whole ledger is its balance, plus all redemptions on `acct:payout`, less 5000 micros for each impression on `acct:house` |
| `ServerRuns.PayoutsMatchRun` | server/spnr-server/src/main.rs:1043-1061 | over every run the payouts in the ledger go to `acct:payout` and match the redemptions in order, amount and id |
| `ServerRuns.TalliesCount` | server/spnr-server/src/main.rs:827-846 | over every run accepted and rejected events together are the events sent |
| `ServerRuns.AnswerIs` | server/spnr-server/src/main.rs:860-885 | each of the six reasons is returned if and only if its own check is the first to fail, and the event is accepted if and only if none fails |
| `ServerRuns.AccountsAlwaysOpen` | server/spnr-server/src/main.rs:586-588 | over every run each registered device has a balance and an impression count on record |
| `Basics.HexExact` | server/spnr-server/src/main.rs:867-869 | a signature or key decodes only if it is lowercase hex of full bytes |
| `ServerRuns.ImpressionsFromHistory` | server/spnr-server/src/main.rs:927-928 | the impressions of a device's account are the sum over its accepted events |
| `ServerRuns.HeadTracksHistory` | server/spnr-server/src/main.rs:873-894 | a device's head and counter are those of the events accepted since its latest registration |
| `ServerRuns.HeadFixesAcceptedHistory` | server/spnr-server/src/main.rs:887-894 | equal chain heads, on any servers and runs, mean equal histories accepted since registration |
| `ServerRuns.AlwaysStorable` | server/spnr-server/src/main.rs:1043-1061 | redemptions are numbered from 1 without gaps in every run, and every stored key decodes again |
| `Server.StepIsItsWrites` | server/spnr-server/src/main.rs:933-947 | replaying the writes of a request on the old state gives exactly the new state |
| `Server.PayoutFor` | server/spnr-server/src/main.rs:1002-1041 | a payout is made if and only if the account has a positive balance that covers the requested amount; an omitted or nonpositive amount takes the whole balance |
| `Store.StoresPrefix` | server/spnr-server/src/db.rs:382-491 | after any prefix of a request's writes the tables hold exactly the state those writes describe |
| `Store.SortRestoresOrder` | server/spnr-server/src/db.rs:330-334 | sorting redemption rows by number restores the order in which they were made |
| `Store.LoadRebuilds` | server/spnr-server/src/db.rs:223-353 | a load of the tables that hold a state yields that state, next redemption id included |
| `Durability.TablesHoldMemory` | server/spnr-server/src/main.rs:933-947 | at every point of every run, stops between writes included, the tables hold exactly what memory holds |
| `Durability.RestartRefinement` | server/spnr-server/src/main.rs:173-186 | at every point of every run, with any number of stops between writes before it, a reload yields exactly the state in memory |
| `Durability.StopInAccept` | server/spnr-server/src/main.rs:935-947 | for each write after which accepting an event may stop, with or without impressions: exactly when money is conserved, balances agree with the ledger, and the tally matches the seen set |
| `Durability.ResendAfterStop` | server/spnr-server/src/db.rs:400-409 | resending the event is accepted if and only if none of its writes was stored |
| `Durability.StopInRedeem` | server/spnr-server/src/main.rs:1066-1070 | for each write after which a redemption may stop: exactly when money is conserved and the ledger agrees |
| `Durability.ConservedUnlessStopped` | server/spnr-server/src/main.rs:215-224 | over every run with stops money is conserved if and only if no crediting acceptance stopped after write 5 and no redemption after write 2 |
| `Durability.LedgerLead` | server/spnr-server/src/main.rs:935-947 | over every run with stops, on each account the ledger runs ahead of the balance by exactly the earnings of acceptances stopped after write 3 or 4, less the redemptions stopped after write 1 or 2 |
| `Durability.LedgerAgreesIff` | server/spnr-server/src/main.rs:1066-1070 | over every run with stops, balances agree with the ledger if and only if those defects cancel on every account |
| `Durability.EarnedAtMostOnce` | server/spnr-server/src/db.rs:471-480 | over every run with stops, re-registrations and resends, an event's earnings reach the balance table at most once, and balances are moved by nothing else but redemptions |
| `App.Connection.Load` | server/spnr-server/src/db.rs:223-353 | rebuilds devices, seen ids, ledger, balances, impressions, tallies, redemptions in number order, and one more than the highest number |
| `App.LoadDevices` | server/spnr-server/src/db.rs:237-253 | takes exactly the rows whose key decodes |
| `App.LoadRedemptions` | server/spnr-server/src/db.rs:311-329 | collects every row once, and the highest number among their ids |
| `App.SortByNumber` | server/spnr-server/src/db.rs:330-334 | orders the redemptions by number, keeping each exactly once |
| `App.NetPerAccount` | server/spnr-server/src/main.rs:226-232 | each account's net is its credits less its debits, and the nets sum to zero for every list of entries, self-transfers included |
| `App.LedgerSumsToZero` | server/spnr-server/src/main.rs:226-233 | the check holds for every list of entries |
| `App.PrimaryAccount` | server/spnr-server/src/main.rs:995-1013 | picks an account with the largest balance, or none when there are no accounts |
| `App.AppState.HandleRegister` | server/spnr-server/src/main.rs:567-615 | resets the device and ensures its accounts exactly as the step says, in memory and in the tables; a bad key changes nothing |
| `App.AppState.AcceptEvent` | server/spnr-server/src/main.rs:859-949 | accepts exactly the events that pass all five checks, with the first failing reason otherwise, and writes what it changed |
| `App.AppState.IngestOne` | server/spnr-server/src/main.rs:827-848 | one event with its tally, in memory and in the tables |
| `App.AppState.HandleIngest` | server/spnr-server/src/main.rs:821-854 | handles a batch event by event, each against the state left by the one before, and returns the tallies and the reasons in order |
| `App.AppState.HandleRedeem` | server/spnr-server/src/main.rs:992-1081 | pays out of an account with the largest balance exactly when the request is covered, in memory and in the tables |
| `Socket.PutStr` | crates/spnr-proto/src/socket.rs:69-74 | appends the length-prefixed field, clipped to 65535 bytes |
| `Socket.Encode` | crates/spnr-proto/src/socket.rs:106-131 | produces the wire form of the message |
| `Socket.WireForm` | crates/spnr-proto/src/socket.rs:96-131 | the tags and command bytes of every datagram |
| `Socket.FieldIs` | crates/spnr-proto/src/socket.rs:65-74 | a field is two length bytes, most significant first, and at most 65535 bytes of the string |
| `Socket.TakeStr` | crates/spnr-proto/src/socket.rs:79-93 | reads a string if and only if a UTF-8 field stands at the cursor, and moves right behind it |
| `Utf8.ValidIsEncoded` | crates/spnr-proto/src/socket.rs:90 | accepted as text are exactly the UTF-8 encodings of sequences of scalar values |
| `Socket.Decode` | crates/spnr-proto/src/socket.rs:137-172 | returns a message if and only if the bytes are its encoding |
| `Socket.PrefixFree` | crates/spnr-proto/src/socket.rs:96-131 | no encoding is a proper prefix of another message's, clipped ones included |
| `Socket.TruncatedDenotesNothing` | crates/spnrd/src/main.rs:401-408 | every strict prefix of an encoding decodes to nothing |
| `Socket.DeliveredIntact` | crates/spnrd/src/main.rs:401-407 | a message is received as itself if and only if its strings fit their prefixes and the datagram fits the buffer |
| `Queue.RecordsOfFrames` | crates/spnrd/src/queue.rs:16-61 | framed appends read back in order with nothing left over |
| `Queue.FrameIs` | crates/spnrd/src/queue.rs:18-24 | a frame is the length in four bytes, most significant first, and the record |
| `Queue.SplitAt` | crates/spnrd/src/queue.rs:45-60 | reading two pieces together is reading the first and then the second behind the first one's torn tail |
| `Queue.EarlierRecordsKept` | crates/spnrd/src/queue.rs:3-7 | for any bytes, the records already there stay first whatever is written later |
| `Queue.CutLog` | crates/spnrd/src/queue.rs:29-61 | a log cut at any byte yields exactly the records whose frames fit before the cut |
| `Queue.TornTailSwallows` | crates/spnrd/src/queue.rs:46-58 | behind any torn tail some record is not read back |
| `Queue.RecoveryCondition` | crates/spnrd/src/queue.rs:13-27 | every later record is read back if and only if the log ends with a complete one |
| `Queue.Log.Append` | crates/spnrd/src/queue.rs:16-27 | adds one frame, or refuses a record too long for its prefix; on an untorn log the record is read back last |
| `Queue.Log.ReadAll` | crates/spnrd/src/queue.rs:35-61 | returns the complete records in order |
| `Json.FirstMemberSplits` | crates/spnr-hook/src/main.rs:38-44 | the first member in document order, at any depth, is the first key followed by a colon in the tokens, after a brace or comma |
| `Scanner.ScanIsLeast` | crates/spnr-hook/src/main.rs:45-69 | on any text the scan finds the least accepted position, although it skips matches that overlap a rejected one |
| `ScanLaws.AcceptsIs` | crates/spnr-hook/src/main.rs:49-69 | on any text a key is accepted exactly where it stands in quotes with only Unicode white space back to the start of the text, a brace or a comma, and only ASCII whitespace up to a colon |
| `Scanner.LocateValue` | crates/spnr-hook/src/main.rs:46-73 | the search loop stops at the value behind the first accepted key |
| `Scanner.ReadString` | crates/spnr-hook/src/main.rs:77-99 | returns the UTF-8 bytes of the text built from the body up to the first unescaped quote, each byte above 127 pushed as a character of its own, or nothing if there is no such quote |
| `ScanLaws.PushedIs` | crates/spnr-hook/src/main.rs:84-95 | a pushed byte is the UTF-8 of the character with that number |
| `ScanLaws.OtherEscapes` | crates/spnr-hook/src/main.rs:82-91 | escaped `n`, `t` and `r` stand for newline, tab and return, and any other character behind a backslash for itself |
| `ScanLaws.BodyAtIs` | crates/spnr-status/src/main.rs:92-108 | on any text a string is found at a place exactly when it stands there in quotes, with every backslash and quote inside it escaped |
| `ScanLaws.TrimIs` | crates/spnr-meta/src/lib.rs:165-171 | trimming strips Unicode white space from both ends, all of it and nothing else |
| `Scanner.SkimString` | crates/spnr-hook/src/main.rs:45-102 | returns that text for the string value behind the located key and nothing if it is no string |
| `Scanner.SkimSession` | crates/spnr-status/src/main.rs:62-108 | returns the value of the session id as it stands between the quotes |
| `Scanner.ValueForKey` | crates/spnr-meta/src/lib.rs:114-175 | returns the quoted string or the bare text up to a comma or brace, trimmed |
| `Scanner.Extract` | crates/spnr-hook/src/main.rs:105-112 | returns event name and session id if and only if both are found and not empty |
| `ScanJson.Locate` | crates/spnr-hook/src/main.rs:54-69 | on JSON text every accepted position is a member key, never the inside of a string |
| `ScanJson.FindsFirstMember` | crates/spnr-hook/src/main.rs:45-73 | on the text of any document, with any whitespace, the value found is that of the first member with the key, and nothing is found when there is none |
| `ScanJson.SkimsFirstMember` | crates/spnr-hook/src/main.rs:74-102 | on JSON text the status scanner returns the first such member's body and the hook scanner that body unescaped byte by byte; both return nothing if the value is no string |
| `ScanJson.TokenOfFirstMember` | crates/spnr-meta/src/lib.rs:105-175 | for a string or scalar value the token is that value's text |
| `Escapes.SkimmedIsMeaning` | crates/spnr-hook/src/main.rs:82-91 | the skimmed text is the JSON value of an ASCII string if and only if its only escapes are quote, backslash, slash, newline, return and tab |
| `Escapes.SkimmersAgree` | crates/spnr-status/src/main.rs:60-108 | on any text both skimmers succeed alike for the session id, with the same text if and only if the value has neither a backslash nor a byte above 127 |
| `Escapes.OneSessionTwoIds` | crates/spnr-hook/src/main.rs:93-96 | a two-byte accented letter comes out of the hook scanner as four bytes and of the status scanner as two, in any document |
| `Settings.InjectHooks` | crates/spnr-settings/src/lib.rs:270-308 | the loop returns the merged settings or the refusal of the merge function |
| `Settings.RemoveHooks` | crates/spnr-settings/src/lib.rs:314-339 | the loops return the settings with spnr groups filtered and emptied events pruned in order |
| `Settings.Retain` | crates/spnr-settings/src/lib.rs:323 | keeps exactly the foreign groups in order |
| `HookMerge.RemoveInvertsInject` | crates/spnr-settings/src/lib.rs:310-339 | removing after injecting restores the same settings in the same key order if and only if they had no spnr groups, no empty `hooks` and no empty event arrays |
| `HookMerge.RemoveInvertsMany` | crates/spnr-settings/src/lib.rs:238-243 | one removal undoes any number of injections under different paths |
| `HookMerge.InjectKeeps` | crates/spnr-settings/src/lib.rs:259-305 | injecting keeps every key in place and every foreign value; each original event array is a prefix of the new one |
| `HookMerge.InjectWrites` | crates/spnr-settings/src/lib.rs:286-305 | what is written, word for word: on the events `UserPromptSubmit`, `Stop` and `SessionEnd` nothing is added if a group runs the command, and otherwise exactly one group with an empty matcher and one hook of type `command` with the command; every other key keeps its value |
| `HookMerge.InjectKeys` | crates/spnr-settings/src/lib.rs:286-291 | missing events are appended behind all other keys in the order `UserPromptSubmit`, `Stop`, `SessionEnd` |
| `HookMerge.InjectIdempotent` | crates/spnr-settings/src/lib.rs:264-265 | after injecting every event has a group with the command, and injecting again changes nothing |
| `HookMerge.RefusesOddShapes` | crates/spnr-settings/src/lib.rs:267-298 | injecting is refused exactly when `hooks` is not an object or one of the events is not an array |
| `HookMerge.RemoveKeepsForeign` | crates/spnr-settings/src/lib.rs:310-313 | removal leaves every other settings key and every other hooks key as it was, and of each event array its foreign groups |
| `HookMerge.SpnrCommandIs` | crates/spnr-settings/src/lib.rs:241-243 | spnr's own are the bare name and every path that ends in `/spnr-hook` |
| `HookMerge.SpnrGroupIs` | crates/spnr-settings/src/lib.rs:246-257 | a group is removed if and only if one of its hooks runs such a command |
| `HookMerge.BareNameRemoved` | crates/spnr-settings/src/lib.rs:238-243 | a group whose hook runs the bare name is removed |
| `HookMerge.RemoveIdempotent` | crates/spnr-settings/src/lib.rs:312-313 | removing twice is removing once |
| `HookOrder.SwapRemoveOrder` | crates/spnr-settings/src/lib.rs:329-335 | removing a key keeps the order of the others if and only if it was absent, last or last but one |
| `HookOrder.KeptIff` | crates/spnr-settings/src/lib.rs:327-331 | for any hooks keys, pruning keeps their order if and only if at most one key that stays is behind the first emptied event, or ranks and gaps of two or three emptied events form one of the listed cancelling layouts |
| `HookOrder.RemoveKeepsOrderIff` | crates/spnr-settings/src/lib.rs:219-224 | removal keeps the order of all keys if and only if the layout of the emptied events is safe and, if `hooks` itself goes, at most one settings key stands behind it |
| `HookOrder.InjectedOrder` | crates/spnr-settings/src/lib.rs:286-305 | with the three events emptied in the order in which injecting appends them, the order is kept if and only if at most one key came behind the first, or exactly two stand between the second and the last |
| `HookOrder.ManyReordered` | crates/spnr-settings/src/lib.rs:327-331 | more than three keys behind the first emptied event always get reordered |
| `HookOrder.RemoveCanReorder` | crates/spnr-settings/src/lib.rs:219-224 | a concrete settings object whose foreign events swap places on removal |

## Left out

- HTTP routing, sockets, files, fsync and rename: only the step each one triggers is modelled; tables and files are values.
- Ed25519, BLAKE3, canonical JSON and SQLite internals: parameters with the assumptions above.
- A server without a database, and failed or swallowed database writes: every write of the model succeeds.
- Device telemetry, clicks, creatives, accounts of the web console, admin tokens and sessions: they do not touch devices' chains, ledger or balances.
- The envelope text between daemon and server, its JSON assembly and parsing: an envelope is its event and signature.
- The batches `flush_loop` happens to form: the model allows any batches in any order.
- The status line, featured advertisement rotation and dollar formatting. The creative attached to events is fixed for a run.
- `snapshot`, `restore` and `inject` of the spinner keys: whole-value copies and two key insertions that would only add easy members.
- `parse_timings`, `parse_unix_seconds` and `unquote`: line splitting and number parsing around `value_for_key`.
- Wrap-around of 64-bit totals and of millisecond arithmetic near the maximum.
- Load: leaves out the clicks tally; numerals with a leading plus sign or above 64 bits in a redemption id are read differently by the standard parser; the server writes only ids numbered by itself.
- HandleRedeem: which account is picked on a tie of largest balances is left open, because it depends on hash map order.
- TokenOfFirstMember: says nothing about members whose value is an object or an array, because the scanner then returns a fragment of text.
- SkimmedIsMeaning: covers ASCII bodies; what happens to bytes above 127 is said by `Escapes.SkimmersAgree`.
- RemoveKeepsForeign: compares what each key holds, not the order of keys, because removal does not keep the order.
- Rules that only the documents describe (hourly caps, holds, fraud bands, gap events, envelope signatures): not in this code.
