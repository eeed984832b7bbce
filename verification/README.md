# DeskUnlock: a verified model

DeskUnlock lets a bonded phone unlock a desktop over Bluetooth. This project models its hard
core in Dafny and proves what that core is for:

* **Pairing** is a two-party commit. `PairTransaction` is the state machine both ends run,
  `PairMilestones` the simple order it refines, `PairAsking` what it learns by asking the peer,
  `PairSystem` the whole system of desktop, phone, journal and a network that loses, repeats and
  reorders, `PairDrivers` the three programs that drive it over a last-value register and an inbox,
  `PairFaults` the same programs with everything that can go wrong, `PairCodec` the byte formats and
  the phone's byte interface, `WireFormat` every octet of them, `ControlStream` and `ControlInbox`
  the way frames arrive.
* **Durable trust** is a directory of files. `BondDirectory` gives every operation as a list of
  file steps, with crashes between any two and inside any write; `FileNames` shows that the files
  behave alike under their names on disk; `PairRecovery` runs the operations on a mutable directory;
  `Journal` is the text of the recovery journal; `Reconcile` is crash recovery and `TornRecovery`
  crash recovery from whatever a crash can leave; `RecoveredBond` says whose bond and key that
  activates; `PairEngine` and `PairOutcome` are the daemon's attempt and what it leaves;
  `TerminalBackend` and `TerminalPairing` are the terminal command's, and `StaleStore` what its save
  does to requests the daemon serves meanwhile.
* **Unlocking** is a challenge. `ChallengeFrame` is its wire form, `ReplayWindow` the nonce cache,
  `Orchestrator` the daemon's challenges and live peers, `PairedPeer` the step from a completed
  pairing to a live peer and its first unlock, `Verdict` the path from an outcome to a login or an
  unlocked session.
* **Installation** rewrites a PAM service file. `PamText` is text, lines and recognition, `PamStack`
  install and uninstall, `PamFallback` what the security-key fallback line does to a file.

Code that changes things in place is modelled by classes and loops (`Transaction`, `Directory`,
`BondStore`, `Backend`, `Engine`, `NonceCache`, `Orchestrator`, `ServiceFiles`), each proved against
functions on values; the theorems are about those functions, over every input, run or crash.
Cryptography, the file system's contents, clocks, randomness, the radio and the operator are
parameters. Hash, tag and signature are arbitrary functions; the one law asked of them is stated
where it is used.

## Where the code and its promises part

The model follows the code; the member named with each point says what holds instead, and when:

* `crates/syauth-presenced/src/runtime.rs:615-617` says an uncertain attempt keeps its staging. The
  engine discards it when the acknowledgement of COMMIT does not arrive
  (`PairOutcome.UncertainSurvivesExactly`, `PairOutcome.DiscardedCommitIsLost`).
* The terminal command offers its capability twice, so its script is always refused
  (`TerminalBackend.PairOverTerminal`); the script by itself is sound
  (`TerminalBackend.Backend.CoordinateV2`). It also publishes without pacing
  (`PairDrivers.TerminalCanLoseConfirm`). The daemon paces its messages, but publishes anyway when
  its wait is over, and then COMMIT can overwrite an unread PREPARED
  (`PairDrivers.DaemonCanLosePrepared`); a message is lost exactly when some publication did not wait
  (`PairDrivers.PacingIsLossless`), and which can be lost first is known (`PairDrivers.LostExactly`).
* A refusal that is read is not always recorded. The phone leaves its script on reading one, with its
  transaction as it was (`PairFaults.RefusalLeavesPhone`, `PairFaults.OperatorDeclines`); in every
  course it becomes aborted only by asking a daemon that has aborted
  (`PairFaults.PhoneAbortsByAnswerOnly`), and exactly by the answer that says so
  (`PairFaults.PhoneAbortsExactly`, `PairFaults.AskingAbortsExactly`). The terminal command records
  the phone's refusal before the commit point, the daemon only where it waits for PREPARED
  (`PairFaults.HeedAbortsExactly`).
* Two coalesced control messages are swallowed as one status frame for some random identifiers
  (`ControlStream.AttemptReframedExactly`).
* The two journal readers disagree on a missing state: a journal cut behind the start of the address
  and before the start of the state is staged for one and possibly decided for the other
  (`Journal.TornReadersAgreeExactly`, `Journal.CutDecisionDividesReaders`); on everything else that
  can be on disk they agree.
* Recovery is about the transaction in the journal, but activates whatever bond and key are staged
  for that peer. A later staging that died before its journal may have replaced them
  (`RecoveredBond.LaterStagingTakesOver`); the bond is the transaction's own exactly if no later
  staging changed anything (`RecoveredBond.RecoversOwnBondExactly`).
* The terminal command saves the bond before its key and writes the key in place, so a crash can
  break trust, exactly when the attempt gets as far as the active store
  (`TerminalPairing.TerminalTrustExactly`, `TerminalPairing.RecordingExposesShortKey`); recovery
  repairs every such crash of a recorded attempt (`TerminalPairing.RecordingSurvivesCrashes`).
* The terminal command saves the store it loaded before the coordination. A revocation of another
  peer that the daemon serves in between is undone, and that peer is bonded without a key
  (`StaleStore.RevocationIsUndone`); the save carries all that was served exactly if the other peers'
  records are as they were loaded (`StaleStore.StaleSaveCarriesExactly`).
* A reload keeps the entry of a peer that stays, so every live peer has the key of its key file
  exactly when no key file of a peer that stays has changed (`Orchestrator.Orchestrator.ReloadKeys`,
  `Orchestrator.ChangedKeyIsNotTakenUp`). A phone that pairs again is let in at its first challenge
  only if the key the daemon kept gives the same tag (`PairedPeer.UnlockAfterPairing`).
* A control of several words, such as the bracketed one the options suggest, is installed but not
  recognised, and so is a module given with its directory; an install can be undone exactly if the
  control is one word and the module's own name follows it (`PamFallback.InstallIsUndoneExactly`,
  `PamFallback.ControlDecides`, `PamFallback.ModuleNameDecides`,
  `PamFallback.AbsolutePathIsNotRecognised`).
* The fallback line is put right behind the line that mentions the module. On a wired file whose last
  line is unfinished the two are glued together: the fallback is not recognised
  (`PamFallback.FallbackTakesExactly`), the module itself may no longer be
  (`PamFallback.StaysWiredExactly`, `PamFallback.EndingModuleIsLost`,
  `PamFallback.UnfinishedLineIsBroken`), and installing again is then not a no-op
  (`PamFallback.InstallTwice`).
* The login module asks the newest bonded peer, although the comment at
  `crates/syauth-pam/src/auth.rs:306` speaks of the first (`Verdict.NewestBonded`).

## Model

| member | source | states |
|---|---|---|
| `PairTransaction.Transaction.constructor` | crates/syauth-core/src/pair_transaction.rs:396-406 | a new transaction is negotiating with every flag down |
| `PairTransaction.Transaction.Recover` | crates/syauth-core/src/pair_transaction.rs:368-393 | a transaction rebuilt from a journal status has the phase and flags of that status |
| `PairTransaction.Transaction.Local` | crates/syauth-core/src/pair_transaction.rs:478-501 | a local event moves the transaction exactly as the step function says, or is refused and changes nothing |
| `PairTransaction.Transaction.Remote` | crates/syauth-core/src/pair_transaction.rs:504-526 | the same for a peer message; one of another transaction or the wrong direction is refused |
| `PairTransaction.Transaction.ReconcileStatus` | crates/syauth-core/src/pair_transaction.rs:443-467 | the same for a peer status |
| `PairTransaction.Transaction.ApplyStatusResponse` | crates/syauth-core/src/pair_transaction.rs:470-475 | a reply is taken only if it carries this transaction and this nonce |
| `PairTransaction.Transaction.RecordConfirmed` | crates/syauth-core/src/pair_transaction.rs:528-537 | confirmation of one side; both sides confirmed move on to preparing |
| `PairTransaction.Transaction.RecordPrepared` | crates/syauth-core/src/pair_transaction.rs:539-548 | staging of one side; both sides staged move on to prepared |
| `PairTransaction.Transaction.RecordCommitted` | crates/syauth-core/src/pair_transaction.rs:550-559 | committed record of one side; both records make a bond |
| `PairTransaction.Transaction.Disconnect` | crates/syauth-core/src/pair_transaction.rs:561-567 | a lost link aborts before the commit point and leaves uncertainty after it |
| `PairTransaction.Transaction.AbortWith` | crates/syauth-core/src/pair_transaction.rs:569-582 | an abort before the commit point is recorded; after it the state becomes uncertain |
| `PairTransaction.RunConsistent` | crates/syauth-core/src/pair_transaction.rs:478-582 | every state reached by any mix of local, remote and status events carries exactly the flags of its phase |
| `PairTransaction.ReachableValidity` | crates/syauth-core/src/pair_transaction.rs:408-423 | of all reachable states validation refuses exactly those that offered the local capability before the peer's |
| `PairTransaction.CommitIsIrrevocable` | crates/syauth-core/src/pair_transaction.rs:443-582 | once past the commit point no mix of events, messages and reconciliations leads back before it or to an abort |
| `PairTransaction.TerminalIsFinal` | crates/syauth-core/src/pair_transaction.rs:478-582 | under local and remote events alone Bonded, Aborted and Uncertain are never left |
| `PairTransaction.AtMostElevenChanges` | crates/syauth-core/src/pair_transaction.rs:478-582 | no run of local and remote events changes a fresh transaction more than eleven times |
| `PairTransaction.ElevenIsAttained` | crates/syauth-core/src/pair_transaction.rs:622-635 | the full exchange changes it exactly eleven times and ends bonded, for both roles |
| `PairMilestones.AcceptedExactly` | crates/syauth-core/src/pair_transaction.rs:478-559 | against an independent order of eleven milestones in seven ranks: in every consistent state a step of the pairing is accepted if and only if the pairing goes on, the step belongs to the role, its milestone is not passed and all of lower rank are |
| `PairMilestones.PassesExactly` | crates/syauth-core/src/pair_transaction.rs:478-559 | an accepted step passes its milestone and no other |
| `PairMilestones.PassedInOrder` | crates/syauth-core/src/pair_transaction.rs:478-559 | in every reachable state that has not failed milestones are passed rank by rank |
| `PairMilestones.OthersExactly` | crates/syauth-core/src/pair_transaction.rs:478-582 | every other input of the transaction: aborts and lost links with their cause, before and after the decision and once it has ended; status traffic changes nothing; all else is refused |
| `PairMilestones.ForeignIsRefused` | crates/syauth-core/src/pair_transaction.rs:504-507 | a message of another transaction is refused for that |
| `PairMilestones.RecoveredExactly` | crates/syauth-core/src/pair_transaction.rs:368-393 | a journal status is taken to mean every milestone up to it, and for a commit the own record |
| `PairMilestones.BelievedExactly` | crates/syauth-core/src/pair_transaction.rs:408-423 | stored metadata is believed if and only if, flags before their time apart, it is consistent and did not offer its capability first, or claims to have failed |
| `PairAsking.ReplyTakenExactly` | crates/syauth-core/src/pair_transaction.rs:470-475 | a status reply is taken if and only if it is a response about this transaction to this query |
| `PairAsking.AskedExactly` | crates/syauth-core/src/pair_transaction.rs:443-467 | by the two statuses alone: when a reply bonds, commits, aborts, leaves uncertain or leaves unchanged, and what it changes |
| `PairAsking.HonestBeforeCommit` | crates/syauth-core/src/pair_transaction.rs:443-467 | two honest sides before the commit point, asking each other any number of times, never become uncertain; a side changes if and only if it asked an aborted one, and is then aborted |
| `PairAsking.AskingBonds` | crates/syauth-core/src/pair_transaction.rs:443-467 | past the commit point, where one side has recorded the decision, three questions in turn bond both |
| `PairSystem.HistoryKeeps` | crates/syauth-core/src/pair_transaction.rs:443-582 | the invariant over desktop, phone, journal and network holds in every state of every history with loss, duplication, reordering, aborts, restarts and stale replies |
| `PairSystem.Agreement` | crates/syauth-core/src/pair_transaction.rs:443-582 | in no history is one side ever bonded and the other ever aborted, at the same or at different moments |
| `PairSystem.Causality` | crates/syauth-cli/src/pair_backend.rs:481-525 | a side that is committed or bonded, by whatever route, implies both confirmed, both staged, the desktop decided and the phone recorded the decision |
| `PairSystem.RecordedIsFinal` | crates/syauth-core/src/pair_transaction.rs:443-582 | from the moment the phone has recorded the decision both sides stay past the commit point for ever |
| `PairDrivers.PairingKeepsChannel` | crates/syauth-transport/src/pair_engine.rs:146-217 | over every interleaving of the two programs, nothing else writing to the link, the inbox holds exactly what was said and not taken, and the register the last word |
| `PairDrivers.NoDeadlock` | crates/syauth-transport/src/pair_engine.rs:611-781 | unless a message was overwritten unread, one of the two programs can always take its next step |
| `PairDrivers.CompletionNeedsEveryMessage` | crates/syauth-transport/src/pair_engine.rs:150-156 | a pairing that completes never overwrote an unread message |
| `PairDrivers.PacingIsLossless` | crates/syauth-transport/src/pair_engine.rs:186-199 | in every run a message has been overwritten unread if and only if some publication did not wait for the register to be read |
| `PairDrivers.LostExactly` | crates/syauth-transport/src/pair_engine.rs:186-199 | the first message a run loses is PREPARED, or with the terminal script CONFIRM or PREPARED |
| `PairDrivers.PacingDoesNotBlock` | crates/syauth-transport/src/pair_engine.rs:186-199 | when only pacing holds the desktop back, the phone can read what is there |
| `PairDrivers.CanComplete` | syauth-android/app/src/main/kotlin/com/sy/syauth/android/pair/impl/RealPairBackend.kt:721-795 | from every state with a lossless channel the phone's script and either desktop script can be run to completion |
| `PairDrivers.TerminalCanLoseConfirm` | crates/syauth-cli/src/pair_backend.rs:481-505 | the terminal script can overwrite CONFIRM with PREPARED, after which no continuation completes |
| `PairDrivers.DaemonCanLosePrepared` | crates/syauth-transport/src/pair_engine.rs:186-199 | with one publication that did not wait the daemon script can overwrite PREPARED with COMMIT, after which no continuation completes |
| `PairDrivers.DriversRefineProtocol` | crates/syauth-cli/src/pair_backend.rs:481-525 | every run of either desktop script against the phone script, in which nothing fails, is a history of the two-party protocol |
| `PairDrivers.BothCanBond` | crates/syauth-core/src/pair_transaction.rs:622-635 | with either desktop script there is a history that ends with both sides bonded |
| `PairFaults.CoursesRefineProtocol` | crates/syauth-transport/src/pair_engine.rs:611-835 | every course of either desktop script against the phone script, with status answers over the register, refusals, aborts, lost links, discarded staging, desktop restarts and stale reconciliation, is a history of the protocol that passes through each of its states |
| `PairFaults.CourseAgreement` | crates/syauth-core/src/pair_transaction.rs:443-582 | in no such course is one side ever bonded and the other ever aborted, and a side that committed means both confirmed, both staged, the desktop decided and the phone recorded it |
| `PairFaults.PhoneAbortsByAnswerOnly` | syauth-android/app/src/main/kotlin/com/sy/syauth/android/pair/impl/RealPairBackend.kt:686-750 | in every course an aborted phone was told so by the status answer of a daemon that had aborted; no refusal, abort or lost link aborts it, and with the terminal command nothing does |
| `PairFaults.PhoneAbortsExactly` | syauth-android/app/src/main/kotlin/com/sy/syauth/android/pair/impl/RealPairBackend.kt:686-704 | before the commit point a status reply aborts the phone if and only if it is a response with its transaction and nonce that says aborted |
| `PairFaults.PhoneAsksExactly` | syauth-android/app/src/main/kotlin/com/sy/syauth/android/pair/impl/RealPairBackend.kt:686-704 | in every course, by the phone's status and the answer: when asking bonds the phone, leaves it uncertain for good or leaves it unchanged |
| `PairFaults.AnswerHidesWord` | crates/syauth-transport/src/pair_engine.rs:201-206 | a status answer takes the register, so a waiting phone no longer sees the word that was there |
| `PairFaults.DeadIsSilent` | crates/syauth-transport/src/pair_engine.rs:220-241 | a daemon that died answers nothing |
| `PairFaults.RefusalLeavesPhone` | syauth-android/app/src/main/kotlin/com/sy/syauth/android/pair/impl/RealPairBackend.kt:735-791 | wherever the daemon breaks off before the commit point and says so to a waiting phone, the daemon and its stored status are aborted and the phone is out of its script with its transaction unchanged and not aborted |
| `PairFaults.AskingAbortsExactly` | crates/syauth-transport/src/pair_engine.rs:243-255 | in every course the daemon's next status answer lets a phone that left its script before the commit point abort if and only if the daemon stored an abort or has told one before |
| `PairFaults.HeedAbortsExactly` | crates/syauth-transport/src/pair_engine.rs:814-835 | a desktop that hears the phone's abort records one if and only if, for the daemon, it waits for PREPARED and, for the terminal command, it is before the commit point |
| `PairFaults.OperatorDeclines` | crates/syauth-transport/src/pair_engine.rs:784-798 | there is a course in which the desktop ends aborted by its operator and the phone, not aborted, still waiting for CONFIRM |
| `PairCodec.EncodeMessage` | crates/syauth-core/src/pair_transaction.rs:86-92 | the eighteen bytes are filled in place as the message layout says |
| `PairCodec.MessageExact` | crates/syauth-core/src/pair_transaction.rs:86-119 | a byte string decodes to a message exactly when it is that message's encoding |
| `PairCodec.EncodeStatus` | crates/syauth-core/src/pair_transaction.rs:185-197 | the twenty-seven bytes are filled in place with the nonce in big-endian order |
| `PairCodec.StatusExact` | crates/syauth-core/src/pair_transaction.rs:185-213 | a byte string decodes to a status message exactly when it is that message's encoding |
| `PairCodec.RestoresSerialization` | crates/syauth-core/src/pair_transaction.rs:315-365 | a restorable state comes back from its snapshot |
| `PairCodec.SerializesRestoration` | crates/syauth-core/src/pair_transaction.rs:336-365 | an accepted snapshot is the serialization of what it restores to |
| `PairCodec.SnapshotExact` | crates/syauth-core/src/pair_transaction.rs:315-423 | a byte string restores to a state exactly when it is its serialization and the state is valid and not aborted |
| `PairCodec.ReachableRestorable` | crates/syauth-core/src/pair_transaction.rs:287-423 | a reachable state survives serialization exactly outside the two exceptions: aborted, or local capability first |
| `PairCodec.InterfaceExact` | crates/syauth-mobile/src/implementation.rs:541-631 | the byte interface answers every call as the machine does exactly in the restorable states |
| `PairCodec.InterfaceSimulates` | crates/syauth-mobile/src/implementation.rs:541-631 | over every call sequence that stays restorable the bytes are the serialized state and the same calls are accepted |
| `PairCodec.PhoneInterfaceIsMachine` | crates/syauth-mobile/src/implementation.rs:541-631 | for the phone's own transactions the interface is the machine up to the first abort, if the peer's capability comes first |
| `WireFormat.MessageOctets` | crates/syauth-core/src/pair_transaction.rs:23-92 | every control message octet by octet |
| `WireFormat.NonceIsBigEndian` | crates/syauth-core/src/pair_transaction.rs:185-197 | a nonce is eight octets, the highest first |
| `WireFormat.StatusOctets` | crates/syauth-core/src/pair_transaction.rs:125-197 | every status message octet by octet |
| `WireFormat.SnapshotOctets` | crates/syauth-core/src/pair_transaction.rs:315-333 | every snapshot octet by octet |
| `WireFormat.ScriptBonds` | syauth-android/app/src/main/kotlin/com/sy/syauth/android/pair/impl/RealPairBackend.kt:721-795 | from the bytes of a new transaction the eleven calls of the phone's script, and of the desktop's, given in octets, are all accepted and end in the bytes of the bonded transaction |
| `WireFormat.AbortCalls` | crates/syauth-mobile/src/implementation.rs:563-586 | before the commit point the local events 7 to 11 abort, each with its cause, and anything above is refused |
| `WireFormat.LateAbortCalls` | crates/syauth-mobile/src/implementation.rs:563-586 | past the commit point, and not bonded, all of them leave uncertainty |
| `WireFormat.CallErrors` | crates/syauth-mobile/src/implementation.rs:541-631 | which error a call gives: a bad key exactly for arguments no state could make good |
| `ControlStream.FrameControlPayload` | crates/syauth-transport/src/pair_engine.rs:96-116 | the loop finds exactly the frames of the payload, skipping one byte where none starts |
| `ControlStream.MessageGoesFirst` | crates/syauth-transport/src/pair_engine.rs:96-116 | a control message in front of further bytes is taken for a status frame exactly when two of those bytes look like a status operation and state |
| `ControlStream.ReframedExactly` | crates/syauth-transport/src/pair_engine.rs:82-116 | writes that arrived as one payload are told apart if and only if no control message precedes a frame with a confusable identifier |
| `ControlStream.AttemptReframedExactly` | crates/syauth-transport/src/pair_engine.rs:952-978 | two or more messages of one attempt come apart if and only if its random identifier is not confusable |
| `ControlStream.ShortTailIsDropped` | crates/syauth-transport/src/pair_engine.rs:96-116 | a truncated frame on its own yields none |
| `ControlStream.ReframedBeforeTail` | crates/syauth-transport/src/pair_engine.rs:96-116 | writes with a truncated one behind them are told apart if and only if none of them, the last included, is swallowed with what follows |
| `ControlStream.JunkIsSkipped` | crates/syauth-transport/src/pair_engine.rs:96-116 | bytes that cannot start a frame change nothing about the frames behind them |
| `ControlStream.ResynchronisesExactly` | crates/syauth-transport/src/pair_engine.rs:980-1000 | junk, then writes, then a truncated tail: the writes are recovered if and only if nothing is swallowed |
| `ControlInbox.TakeFirst` | crates/syauth-cli/src/pair_backend.rs:385-398 | the first frame of the transaction is taken and every other frame stays in place |
| `ControlInbox.OwnFrameCounts` | crates/syauth-cli/src/pair_backend.rs:385-398 | a frame that encodes an operation of the transaction adds that operation to what is waiting |
| `ControlInbox.OtherFrameDoesNot` | crates/syauth-cli/src/pair_backend.rs:385-398 | any other frame, of another transaction or malformed, adds nothing |
| `TerminalBackend.Backend.WaitProtocol` | crates/syauth-cli/src/pair_backend.rs:400-438 | the wanted operation ends the wait, and silence, an abort or a surprise end it each with its own error and effect; a status query is answered in the register with the status at the start |
| `TerminalBackend.LostExactly` | crates/syauth-cli/src/pair_backend.rs:400-438 | why a wait is lost and what it does to the transaction, each with its exact condition |
| `TerminalBackend.CoursesInterruptAlike` | crates/syauth-cli/src/pair_backend.rs:400-438 | in the courses that go wrong the terminal command leaves its waits in the same state |
| `TerminalBackend.Backend.Round` | crates/syauth-cli/src/pair_backend.rs:481-524 | one round publishes, waits, applies the peer's operation and the local facts up to the first refusal |
| `TerminalBackend.RoundAdvances` | crates/syauth-cli/src/pair_backend.rs:481-524 | a round that hears its operation moves to the next point of the exchange; before COMMIT an interruption stays before the commit point, after it it ends uncertain |
| `TerminalBackend.Backend.CommitRounds` | crates/syauth-cli/src/pair_backend.rs:506-524 | from COMMIT on the script completes exactly when two more answers arrive in order and is uncertain otherwise |
| `TerminalBackend.Backend.CoordinateV2` | crates/syauth-cli/src/pair_backend.rs:481-525 | the script completes exactly when five answers arrive in order, is uncertain exactly when COMMIT went out and it did not complete, fails before that with the reason and in the state of the wait that was lost, and never gets past the first round if the capability was already offered |
| `TerminalBackend.Backend.InitiateLesc` | crates/syauth-cli/src/pair_backend.rs:763-797 | the link-layer step records and publishes the capability offer |
| `TerminalBackend.PairOverTerminal` | crates/syauth-cli/src/pair_backend.rs:471-525 | with the link-layer step before the script, no inbox whatever completes a pairing; which error comes back is decided by the peer's first operation |
| `Journal.HexLowercase` | crates/syauth-core/src/bond.rs:302-310 | the loop builds the lower-case hexadecimal text |
| `Journal.ReadHexId` | crates/syauth-cli/src/reconcile.rs:56-65 | the loop accepts exactly thirty-two characters that pair up into octets, a leading plus sign included |
| `Journal.HexRoundTrip` | crates/syauth-cli/src/reconcile.rs:56-65 | every identifier is read back from its hexadecimal text |
| `Journal.DigitsExactly` | crates/syauth-cli/src/reconcile.rs:56-65 | a character is a digit of value n if and only if it is the n-th of either hexadecimal alphabet |
| `Journal.HexReadExactly` | crates/syauth-cli/src/reconcile.rs:56-65 | a text is read as an identifier if and only if it is sixteen pairs of digits with the identifier's values, a plus sign allowed for a high zero |
| `Journal.JournalInFull` | crates/syauth-core/src/pair_recovery.rs:124-160 | the journal line by line |
| `Journal.ReadersAgreeExactly` | crates/syauth-cli/src/reconcile.rs:98-118 | the two journal readers agree on a text except where a complete identity comes with no state or an aborted one |
| `Journal.JournalRoundTrip` | crates/syauth-core/src/pair_recovery.rs:124-192 | a record is read back from its text if and only if its two free values have no newline and do not end in a carriage return |
| `Journal.ReadersAgreeOnWritten` | crates/syauth-cli/src/reconcile.rs:98-118 | both readers agree on every journal that was written whole |
| `Journal.TornRow` | crates/syauth-core/src/pair_recovery.rs:124-192 | a text of name and value lines cut anywhere holds for each name nothing, a prefix of its value or the whole value, by where the cut falls |
| `Journal.TornReadersAgreeExactly` | crates/syauth-cli/src/reconcile.rs:98-118 | on a journal cut at any position the two readers agree if and only if the cut is not between the start of the address and the start of the state, where one reads staged and the other possibly decided |
| `Journal.CutDecisionDividesReaders` | crates/syauth-core/src/pair_recovery.rs:162-192 | every decided journal cut right before its state line is staged for one reader and possibly decided for the other |
| `Journal.TornDecisionIsSafe` | crates/syauth-cli/src/reconcile.rs:98-118 | every prefix of a commit-pending journal is refused or read as commit pending |
| `Journal.TornStagingIsNeverAborted` | crates/syauth-cli/src/reconcile.rs:98-118 | no prefix of a staged journal is read as aborted |
| `BondDirectory.BondStore.Add` | crates/syauth-core/src/bond.rs:368-374 | appends unless the peer is there |
| `BondDirectory.BondStore.Remove` | crates/syauth-core/src/bond.rs:378-388 | drops the peer's first record or reports it unknown |
| `BondDirectory.BondStore.MarkRevoked` | crates/syauth-core/src/bond.rs:394-407 | revokes the peer's record and keeps an earlier reason |
| `BondDirectory.BondStore.FindIndex` | crates/syauth-core/src/bond.rs:457-459 | the position of the first record of the peer |
| `BondDirectory.BondStore.Replace` | crates/syauth-core/src/pair_recovery.rs:258-263 | the peer's record, if any, gives way to the new one at the end |
| `BondDirectory.ReplacedKeeps` | crates/syauth-core/src/pair_recovery.rs:257-264 | replacing keeps one record per peer, every other peer's record and the new one |
| `BondDirectory.PathsNeverCollide` | crates/syauth-core/src/pair_recovery.rs:86-121 | for hexadecimal peer identifiers distinct staging, active and temporary files have distinct names |
| `FileNames.NamesInFull` | crates/syauth-core/src/pair_recovery.rs:86-121 | every file name in full |
| `BondDirectory.StagingIsolation` | crates/syauth-core/src/pair_recovery.rs:124-225 | stage, mark, discard and discard-all, crashed anywhere, leave the active store and keys byte-identical |
| `BondDirectory.RequestKeepsTrust` | crates/syauth-presenced/src/runtime.rs:566-692 | every commit request and revocation, crashed anywhere, keeps one record per peer, a key for every bonded record and whole keys |
| `BondDirectory.LifeIsTrustworthy` | crates/syauth-presenced/src/runtime.rs:566-692 | the same after any sequence of requests, each finished or crashed at any step |
| `BondDirectory.PromotedTrust` | crates/syauth-core/src/pair_recovery.rs:232-269 | a promotion that succeeds leaves the staged key, the replaced store and no staging |
| `BondDirectory.RevokedExactly` | crates/syauth-presenced/src/runtime.rs:566-590 | a revocation is granted if and only if the peer has a record; that record is then revoked, keeping an earlier reason, every other is as it was, and exactly the peer's key is gone |
| `BondDirectory.PromotionSurvivesCrashes` | crates/syauth-core/src/pair_recovery.rs:232-277 | whatever a crash of a promotion leaves, promoting again reaches the same trust or it is already there, and the journal is gone only then |
| `FileNames.StepOnDisk` | crates/syauth-core/src/pair_recovery.rs:86-121 | a file step on the paths of the model is the step on the names on disk |
| `FileNames.CrashOnDisk` | crates/syauth-core/src/pair_recovery.rs:86-121 | every crash of steps on paths is, name for name, a crash of the steps on disk |
| `FileNames.CrashOffDisk` | crates/syauth-core/src/pair_recovery.rs:86-121 | every crash of the steps on disk is one of the crashes on paths |
| `FileNames.NamesIsolate` | crates/syauth-core/src/pair_recovery.rs:124-225 | stage, mark, discard and discard-all, crashed anywhere, leave every file on disk whose name grants trust as it was |
| `FileNames.ImproperNamesCollide` | crates/syauth-core/src/pair_recovery.rs:112-121 | for an identifier that is not hexadecimal an active key can have the name of another peer's staged key |
| `PairRecovery.Directory.LoadStore` | crates/syauth-core/src/bond.rs:320-350 | a missing store is empty, an unreadable or misnamed one is refused |
| `PairRecovery.Directory.WriteJournal` | crates/syauth-core/src/pair_recovery.rs:124-143 | one write of the journal text |
| `PairRecovery.Directory.StageBond` | crates/syauth-core/src/pair_recovery.rs:198-225 | the pending store, the pending key by rename, then the journal |
| `PairRecovery.Directory.MarkCommitPending` | crates/syauth-core/src/pair_recovery.rs:147-158 | rewrites a readable journal as decided, refuses otherwise |
| `PairRecovery.Directory.PlaceKey` | crates/syauth-core/src/pair_recovery.rs:240-254 | a whole staged key is renamed into place; without one an earlier key will do |
| `PairRecovery.Directory.PromoteBond` | crates/syauth-core/src/pair_recovery.rs:232-269 | key, store, discard, in this order, with the exact steps taken on every failure |
| `PairRecovery.Directory.DiscardStaging` | crates/syauth-core/src/pair_recovery.rs:273-277 | journal, pending store and pending key are unlinked |
| `PairRecovery.Directory.DiscardEverything` | crates/syauth-core/src/pair_recovery.rs:281-289 | every key of the pending store, the journal and the store are unlinked |
| `PairRecovery.Directory.RevokeBond` | crates/syauth-presenced/src/runtime.rs:566-601 | the record is marked revoked, then its key unlinked; an unknown peer is refused |
| `PairRecovery.Directory.Serve` | crates/syauth-presenced/src/runtime.rs:618-692 | one request is served with the file steps and the reply of its kind |
| `PairRecovery.Directory.Consume` | crates/syauth-presenced/src/runtime.rs:618-692 | the consumer loop serves requests in order, one reply each |
| `PairRecovery.ServedIsTrustworthy` | crates/syauth-presenced/src/runtime.rs:618-692 | any sequence of served requests keeps the directory trustworthy |
| `Reconcile.ApplyStatusDecision` | crates/syauth-cli/src/reconcile.rs:139-171 | a reply promotes, discards or leaves every file alone exactly as the verdict table says |
| `Reconcile.RunReconcile` | crates/syauth-cli/src/reconcile.rs:98-126 | recovery promotes only for a commit-pending journal and a committed or bonded peer, discards only for the stated pairs, and otherwise takes no file step; a missing journal is reported as such, everything unreadable as a failure |
| `Reconcile.ResultExactly` | crates/syauth-cli/src/reconcile.rs:139-171 | each result of a recovery with its exact condition, by journal state, reply and promotion |
| `Reconcile.ReconcileKeepsTrust` | crates/syauth-cli/src/reconcile.rs:84-171 | whatever the verdict and wherever it crashes trust stays complete, and unchanged unless it promotes |
| `Reconcile.ReplyIsRight` | crates/syauth-cli/src/reconcile.rs:139-171 | in every history, for a staged or possibly decided journal, an honest reply activates only what both sides agreed to and the phone recorded, and clears only what the phone never records |
| `Reconcile.RecoveryIsSound` | crates/syauth-cli/src/reconcile.rs:98-171 | in every history recovery activates only what both sides agreed to and the phone recorded, and clears only what the phone never records |
| `TornRecovery.CutReads` | crates/syauth-cli/src/reconcile.rs:98-118 | whatever is read from a journal cut anywhere is about its transaction and is staged or possibly decided |
| `TornRecovery.LifeMinds` | crates/syauth-presenced/src/runtime.rs:566-692 | after any sequence of requests, each finished or crashed anywhere, the journal on disk is a cut record of a transaction that was staged |
| `TornRecovery.RecoveredWasStaged` | crates/syauth-cli/src/reconcile.rs:84-126 | so recovery never works on anything that was not staged, and never starts from an aborted state |
| `TornRecovery.RecoverSoundly` | crates/syauth-cli/src/reconcile.rs:84-171 | recovery on any directory such a life can leave, against any history of the recovered transaction, bonds only what the phone recorded, clears only what it never records, and keeps trust complete |
| `RecoveredBond.RecoveredComesFrom` | crates/syauth-cli/src/reconcile.rs:98-113 | in every directory of every life recovery works on the transaction of one staging, the bond of the last staging that changed anything and a key staged between the two, all for one peer |
| `RecoveredBond.ActivatedComesFrom` | crates/syauth-cli/src/reconcile.rs:88-96 | a recovery that activates puts that bond last in the active store and that key, or where none is staged the earlier one, in force |
| `RecoveredBond.RecoversOwnBondExactly` | crates/syauth-cli/src/reconcile.rs:98-113 | where no two stagings are of the same bond, the bond recovered is that of the recovered transaction if and only if no later staging changed anything; its key then is too, if one is staged |
| `RecoveredBond.LaterStagingTakesOver` | crates/syauth-core/src/pair_recovery.rs:198-225 | of any two stagings of one peer, the second, cut short after its first file, leaves the transaction and key of the first with its own bond |
| `PairEngine.Engine.WaitForOperation` | crates/syauth-transport/src/pair_engine.rs:814-835 | the next operation of the attempt; an abort or silence is none |
| `PairEngine.Engine.Ask` | crates/syauth-transport/src/pair_engine.rs:588-608 | a request is served and answered, or lost when the consumer is gone |
| `PairEngine.Engine.AbortWithDiscard` | crates/syauth-transport/src/pair_engine.rs:784-798 | the attempt leaves the script with ERROR published, the abort applied and the resulting status stored, and the discard is requested |
| `PairEngine.Engine.AfterCommit` | crates/syauth-transport/src/pair_engine.rs:726-781 | after COMMIT: the requests made, the result, and the point of the script at which the attempt stops, with everything said and stored by then, by answers and replies |
| `PairEngine.Engine.Drive` | crates/syauth-transport/src/pair_engine.rs:611-781 | one attempt is the daemon's script run up to where it stops: its requests, its result, every operation it publishes, the phase it ends in and the status it leaves stored, for every number of answers in script, either operator decision and all replies |
| `PairEngine.ScriptGrows` | crates/syauth-transport/src/pair_engine.rs:611-781 | what an attempt has said and stored grows instruction by instruction as the daemon's script and its stores say |
| `PairEngine.LeavesExactly` | crates/syauth-transport/src/pair_engine.rs:611-798 | leaving the script where an attempt stops means: the words of the exchange cut off, with REJECT or ERROR behind them, the stated phase, and the status of that phase stored, or none if the peer never offered its capability |
| `PairEngine.CommitsExactly` | crates/syauth-transport/src/pair_engine.rs:711-726 | an attempt is past the commit point if and only if it has said COMMIT, that is, if staging and mark are durable and three answers are in |
| `PairEngine.ReportExactly` | crates/syauth-transport/src/pair_engine.rs:611-781 | each result of an attempt with its exact condition |
| `PairEngine.RequestsExactly` | crates/syauth-transport/src/pair_engine.rs:588-798 | each request of an attempt with its exact condition |
| `PairOutcome.OnlyFullExchangeTrusts` | crates/syauth-transport/src/pair_engine.rs:611-781 | short of five answers nothing an attempt does touches trust, and trust stays complete in any case |
| `PairOutcome.UncertainSurvivesExactly` | crates/syauth-transport/src/pair_engine.rs:726-798 | an attempt that ends uncertain leaves something to recover if and only if COMMIT was acknowledged or the discard was not served |
| `PairOutcome.RecoveryFinishesAttempt` | crates/syauth-presenced/src/runtime.rs:605-617 | after an acknowledged COMMIT a peer that says it committed makes recovery leave exactly the directory the full attempt leaves |
| `PairOutcome.DiscardedCommitIsLost` | crates/syauth-transport/src/pair_engine.rs:726-744 | after an unacknowledged COMMIT with a served discard recovery finds nothing to work on |
| `PairOutcome.MarkKeptExactly` | crates/syauth-presenced/src/runtime.rs:618-692 | a recorded decision survives a request if and only if it is no staging, no discard and not the promotion of its own peer |
| `PairOutcome.MarkLastsExactly` | crates/syauth-presenced/src/runtime.rs:618-692 | over any sequence of requests, of this attempt or others, it is there at every point if and only if none of them is such a request |
| `TerminalPairing.WriteActiveKey` | crates/syauth-cli/src/pair.rs:743-763 | a key of the wrong length is refused before anything is written |
| `TerminalPairing.CoordinateStagedBond` | crates/syauth-cli/src/pair.rs:665-727 | the exact file steps and result of an attempt, for every store and every end of the coordination |
| `TerminalPairing.StoppedIsIsolated` | crates/syauth-cli/src/pair.rs:700-706 | unless the peer committed, trust is untouched at every crash point; a definite failure leaves nothing staged, an uncertain one everything recovery needs |
| `TerminalPairing.ResultExactly` | crates/syauth-cli/src/pair.rs:665-727 | each result of an attempt with its exact condition |
| `TerminalPairing.UncertainIsRecoverable` | crates/syauth-cli/src/pair.rs:690-706 | an uncertain attempt leaves a journal that recovery reads as possibly decided, with the attempt's transaction, peer, address and bond |
| `TerminalPairing.TerminalMatchesDaemon` | crates/syauth-cli/src/pair.rs:665-727 | a recorded attempt leaves, file for file, what stage, mark and promote leave, up to the daemon's temporary key file |
| `TerminalPairing.RecordingSurvivesCrashes` | crates/syauth-cli/src/pair.rs:708-722 | after any crash while recording, promotion reaches the finished trust while the journal is there, and it is in place once the journal is gone |
| `TerminalPairing.RecordingExposesShortKey` | crates/syauth-cli/src/pair.rs:715-720 | until recovery runs such a crash can leave an active key cut short |
| `TerminalPairing.TerminalTrustExactly` | crates/syauth-cli/src/pair.rs:665-727 | trust is complete at every crash point of an attempt if and only if the attempt does not get as far as the active store with a key still to be written or never to be |
| `StaleStore.StaleSaveCarriesExactly` | crates/syauth-cli/src/pair.rs:708-716 | saving the store loaded before the coordination writes what saving the store on disk would, if and only if the other peers' records are as they were loaded |
| `StaleStore.UndisturbedSaveCarries` | crates/syauth-cli/src/pair.rs:673-716 | it does after any requests served meanwhile, finished or crashed anywhere, of which none promotes or revokes another peer |
| `StaleStore.StaleSaveTrustExactly` | crates/syauth-cli/src/pair.rs:708-720 | after that save and the key the directory is trustworthy if and only if every other peer bonded at the load still has its key |
| `StaleStore.RevocationIsUndone` | crates/syauth-cli/src/pair.rs:673-716 | a revocation of any other bonded peer served meanwhile is undone: the peer is bonded again in the saved store, without its key |
| `ChallengeFrame.EncodeFrame` | crates/syauth-core/src/frame.rs:133-143 | appends the frame to the buffer, or leaves it as it was if the payload is too long |
| `ChallengeFrame.FrameExact` | crates/syauth-core/src/frame.rs:133-203 | a byte string decodes to a frame exactly when it is its encoding, of version one and within the payload limit |
| `ChallengeFrame.PhoneAcceptsExactly` | crates/syauth-mobile/src/implementation.rs:262-281 | the phone accepts exactly the encodings of frames tagged under its own key |
| `ChallengeFrame.ChallengeInFull` | crates/syauth-core/src/frame.rs:133-164 | the daemon's challenge in full: the octet 1, sixteen octets of nonce, sixteen of tag |
| `ChallengeFrame.PhoneCheckExactly` | crates/syauth-mobile/src/implementation.rs:262-318 | what the phone answers to every byte string, in numbers, with the error it gives, and what it signs |
| `ChallengeFrame.ChallengeMeetsPhone` | crates/syauth-mobile/src/implementation.rs:262-318 | a phone takes the daemon's challenge exactly when its key gives the same tag, and signs the very body the daemon checks |
| `ChallengeFrame.ChallengesDiffer` | crates/syauth-core/src/frame.rs:155-164 | different nonces give different signed bodies and frames |
| `ReplayWindow.NonceCache.Contains` | crates/syauth-presenced/src/orchestrator.rs:198-200 | finds a nonce exactly if it is cached |
| `ReplayWindow.NonceCache.Insert` | crates/syauth-presenced/src/orchestrator.rs:208-213 | the cache is always the window of everything inserted |
| `ReplayWindow.WindowExactly` | crates/syauth-presenced/src/orchestrator.rs:165-214 | in numbers: a nonce is in the window if and only if it is one of the last 64, and a history is free of close repeats if and only if equal entries are at least 65 apart |
| `ReplayWindow.SpacedExactly` | crates/syauth-presenced/src/orchestrator.rs:183-214 | a history stays free of close repeats if and only if what is in the window is refused |
| `ReplayWindow.AdmittedIsSpaced` | crates/syauth-presenced/src/orchestrator.rs:183-214 | over every run of offers equal accepted nonces are at least sixty-five acceptances apart |
| `Orchestrator.Orchestrator.RunChallenge` | crates/syauth-presenced/src/orchestrator.rs:962-1062 | the frame sent, the verdict on the response, the history and the single audit record of an admitted challenge |
| `Orchestrator.Orchestrator.Admit` | crates/syauth-presenced/src/orchestrator.rs:1047-1058 | the replay check and the insertion as one step that keeps the window |
| `Orchestrator.Orchestrator.IssueChallenge` | crates/syauth-presenced/src/orchestrator.rs:857-898 | every outcome with its exact condition, and the literal word of its audit record against what happened; only that peer's history grows, exactly on success; exactly one audit record with its nonce and times; exactly the challenge frame is sent |
| `Orchestrator.WordsExactly` | crates/syauth-presenced/src/orchestrator.rs:857-1062 | each outcome has its own literal word |
| `Orchestrator.Orchestrator.Serve` | crates/syauth-presenced/src/orchestrator.rs:857-1062 | over any sequence of challenges: one record each; every properly signed one is refused as a replay if and only if its nonce is one of the last 64 accepted from that peer before it, and let in otherwise; equal accepted nonces of a peer are at least 65 acceptances apart |
| `Orchestrator.HistoriesAreAcceptances` | crates/syauth-presenced/src/orchestrator.rs:183-214 | over any sequence each peer's history grows by exactly its own accepted nonces in order |
| `Orchestrator.PhoneReply` | crates/syauth-mobile/src/implementation.rs:262-318 | the phone signs the challenge's body exactly when its key gives the challenge's tag, and is silent otherwise |
| `Orchestrator.Orchestrator.ChallengePhone` | crates/syauth-mobile/src/implementation.rs:262-318 | a phone answers exactly when its key gives the challenge's tag, and is then let in exactly when its signature stands under the registered key and the nonce is fresh |
| `Orchestrator.Orchestrator.ComputeNewSet` | crates/syauth-presenced/src/orchestrator.rs:770-787 | the wanted peers are exactly the unrevoked ones with a key file of thirty-two bytes |
| `Orchestrator.Orchestrator.DoRemovePeer` | crates/syauth-presenced/src/orchestrator.rs:801-815 | a peer is dropped exactly if the radio lets it go |
| `Orchestrator.Orchestrator.DoAddPeer` | crates/syauth-presenced/src/orchestrator.rs:817-836 | a peer is added, with an empty history, exactly if the radio takes it |
| `Orchestrator.Orchestrator.Reload` | crates/syauth-presenced/src/orchestrator.rs:709-799 | for any pattern of radio failures the live ids are those kept, the failed removals and the successful adds, and kept peers keep their very entry |
| `Orchestrator.Orchestrator.ReloadKeys` | crates/syauth-presenced/src/orchestrator.rs:709-799 | after a reload that the radio does not hinder every live peer has the key of its key file if and only if no key file of a peer that stays has changed |
| `Orchestrator.ChangedKeyIsNotTakenUp` | crates/syauth-presenced/src/orchestrator.rs:709-836 | a live peer whose key file is rewritten keeps its old key through a reload |
| `Orchestrator.Orchestrator.ReloadTwice` | crates/syauth-presenced/src/orchestrator.rs:709-799 | a repeated reload without failures adds and removes nothing, and the live ids are exactly the wanted ones |
| `PairedPeer.WantedAreBonded` | crates/syauth-presenced/src/orchestrator.rs:770-787 | in a trustworthy directory the peers a reload wants are exactly the bonded ones |
| `PairedPeer.PromotedFiles` | crates/syauth-presenced/src/runtime.rs:605-617 | stage, mark and promote leave a trustworthy directory that holds the staged bond and its key |
| `PairedPeer.ReloadAfterPairing` | crates/syauth-presenced/src/runtime.rs:655-680 | after a promoted pairing and the reload it triggers the phone is live under the paired keys with no nonce used, or keeps the entry it had |
| `PairedPeer.UnlockAfterPairing` | crates/syauth-presenced/src/runtime.rs:655-680 | the phone that paired is let in at its first challenge for every nonce if the daemon did not know it, and otherwise exactly when the kept key gives the same tag and takes the signature and the nonce is fresh |
| `PairedPeer.RecordedIsAsked` | crates/syauth-cli/src/pair.rs:708-720 | after a recorded attempt of the terminal command the new record is the last and carries the attempt's key, name and clock; the login module asks that phone if and only if no other bonded record is younger |
| `PairedPeer.PromotedIsAsked` | crates/syauth-core/src/pair_recovery.rs:232-269 | the same of a bond the daemon promotes |
| `Verdict.ClientsAgree` | crates/syauth-presenced/src/server.rs:397-449 | on every reply of the dispatcher the login module and the unlock command decide alike |
| `Verdict.RefusalsAndAbsences` | crates/syauth-pam/src/auth.rs:198-217 | refusals by or about the answer stop the stack, absences let it go on |
| `Verdict.WordsInFull` | crates/syauth-pam/src/auth.rs:198-214 | the words that mean success and absence, one by one; any other word is a refusal |
| `Verdict.NewestBonded` | crates/syauth-pam/src/auth.rs:345-351 | the newest bonded record, the later one on a tie, or none if there is none |
| `Verdict.NewestIsUnique` | crates/syauth-cli/src/unlock_request.rs:213-223 | at most one record is the newest |
| `Verdict.Ask` | crates/syauth-presenced/src/server.rs:397-426 | a challenge request is answered yes, with the phone's signature, exactly when the peer deserved it, and with a refusal exactly when there is no orchestrator or what the phone wrote does not verify or is a replay |
| `Verdict.Authenticate` | crates/syauth-pam/src/auth.rs:239-305 | the exact code: success when the newest bonded peer proved itself on this call and the reply arrived, a refusal when the daemon's answer about it condemned, and in every other case the stack goes on |
| `Verdict.UnlockRequest` | crates/syauth-cli/src/unlock_request.rs:178-204 | the session is unlocked exactly when the named or newest peer proved itself, it is no rehearsal and the session manager complies; success is reported exactly for that or a verified rehearsal |
| `PamText.InsertLine` | crates/syauth-cli/src/install_pam.rs:256-278 | the line goes before the first auth directive, or to the top, and every other byte stays |
| `PamText.AuthLineExactly` | crates/syauth-cli/src/install_pam.rs:91-99 | a line is an auth directive if and only if it has the word, white space before it or not, and white space after |
| `PamText.SpacesInFull` | crates/syauth-cli/src/install_pam.rs:91-99 | the white space characters one by one |
| `PamStack.InsertPointExactly` | crates/syauth-cli/src/install_pam.rs:256-278 | in a text with an auth directive the new line goes to the start of the first one |
| `PamStack.InsertPointAtTop` | crates/syauth-cli/src/install_pam.rs:256-278 | in a text without any it goes to the top |
| `PamStack.LinesInFull` | crates/syauth-cli/src/install_pam.rs:245-253 | the two lines an install may add, in full |
| `PamText.InsertBelow` | crates/syauth-cli/src/install_pam.rs:393-411 | the line goes below the first line that mentions the module, or nothing changes |
| `PamStack.ServiceFiles.MaybeInsertFallback` | crates/syauth-cli/src/install_pam.rs:393-411 | the fallback is added only when asked for and not recognised |
| `PamStack.ServiceFiles.Install` | crates/syauth-cli/src/install_pam.rs:337-384 | every result with its exact condition and the exact contents of both files |
| `PamStack.ServiceFiles.Uninstall` | crates/syauth-cli/src/uninstall_pam.rs:177-203 | the backup is restored and removed exactly when the module is recognised and a backup is there |
| `PamStack.ServiceFiles.InstallsThenUninstall` | crates/syauth-cli/src/install_pam.rs:337-411 | any non-empty run of installs, the first with one word and then the module, and one uninstall give back the original bytes and leave no backup |
| `PamStack.FallbackTakes` | crates/syauth-cli/src/install_pam.rs:393-411 | after an install that named the module and asked for it the fallback is recognised |
| `PamStack.RecognisedExactly` | crates/syauth-cli/src/install_pam.rs:72-89 | the inserted directive is recognised if and only if its control and module, as written, are one word and then the module up to a word boundary |
| `PamStack.BracketedControlIsNotOneWord` | crates/syauth-cli/src/install_pam.rs:50-52 | the bracketed control suggested in the options is not |
| `PamFallback.StaysWiredExactly` | crates/syauth-cli/src/install_pam.rs:393-411 | a wired file without the fallback is still wired after it is added if and only if the module is recognised in the part before or after it, or, behind an unfinished line, before its very end |
| `PamFallback.FallbackTakesExactly` | crates/syauth-cli/src/install_pam.rs:393-411 | on such a file the fallback is recognised afterwards if and only if it went below a finished line |
| `PamFallback.EndingModuleIsLost` | crates/syauth-cli/src/install_pam.rs:393-411 | every wired file whose only mention of the module is its very end is no longer wired afterwards |
| `PamFallback.UnfinishedLineIsBroken` | crates/syauth-cli/src/install_pam.rs:393-411 | a one-line file without a newline, such as auth sufficient pam_syauth.so, is one, for every control that contains neither module name |
| `PamFallback.UnfinishedLineRepeats` | crates/syauth-cli/src/install_pam.rs:393-411 | with arguments behind the module the file stays wired but the fallback is not recognised |
| `PamFallback.DirectiveIsCut` | crates/syauth-cli/src/install_pam.rs:393-411 | a directive over two lines whose control is the module's name is cut in two |
| `PamFallback.InstallTwice` | crates/syauth-cli/src/install_pam.rs:337-411 | on wired and unwired files alike, installing again with the same flags is a no-op if and only if the fallback was not put into an unfinished line or the middle of the only directive |
| `PamFallback.InstallIsUndoneExactly` | crates/syauth-cli/src/uninstall_pam.rs:177-203 | for every control and module name, install then uninstall, with or without the fallback, restores the file if and only if they are one word and then the module; otherwise both files stay and a second install is refused |
| `PamFallback.ModuleNameDecides` | crates/syauth-cli/src/install_pam.rs:117-120 | with a one-word control that is so if and only if the module name begins with pam_syauth.so up to a word boundary |
| `PamFallback.ControlDecides` | crates/syauth-cli/src/install_pam.rs:72-89 | with the default module name and a control that does not contain it, if and only if the control is one word |
| `PamFallback.AbsolutePathIsNotRecognised` | crates/syauth-cli/src/install_pam.rs:117-120 | with a one-word control and a module given by an absolute path it is never so |

## Left out

- Timing: deadlines and polling; which frames and replies arrive in time, and which publication stops waiting, is an input.
- Cancellation of a challenge by a disconnecting client and the permit queue: a challenge is one step under its permit, had or not had.
- Liveness stamps, advertising rotation and the revoke notice a reload sends to a removed phone: no decision and no file depends on them.
- File modes, directory creation, `fsync` and write errors other than a crash; `save` of a store is one atomic step.
- TOML, CBOR and UTF-8: stores are abstract records and text is a sequence of characters, one byte each in the journal.
- Key derivation, BLAKE3 and Ed25519: a peer name is an arbitrary function of the public key, and a key is thirty-two arbitrary bytes.
- The phone beyond its commit script and byte interface: capability discovery, Android storage and UI.
- When the daemon answers a status query (in `PairFaults` it may at any time, with the status it has stored) and the operator dialogue of the terminal command.
- Unicode word characters of the recognition pattern: which characters continue a word is a parameter, of which the space, a newline and the letter a are fixed where it matters.
- A crash of an install between its backup and its rewrite: the rewrite is one atomic step and the backup precedes it.
- The other commands (doctor, status, list, presence installation) and packaging.
- PamStack.ServiceFiles.InstallsThenUninstall: does not cover a first control or module name with a newline in it, because the directive is then two lines of the file and a later fallback may come between them.
- PamFallback.InstallTwice: does not cover a first install whose control and module name are not one word and then the module, or have a newline in them; what such an install does is in `PamFallback.InstallIsUndoneExactly`.
- PamFallback.InstallIsUndoneExactly: asks that the file and the module arguments do not mention the module, because such a mention can be recognised in its stead, and for a one-line control and module name.
- PairDrivers.PairingKeepsChannel: is about the two programs alone on the link, without failures and status answers, which `PairFaults` adds.
- PairDrivers.DriversRefineProtocol: is about the same runs; `PairFaults.CoursesRefineProtocol` is the refinement with failures and status answers.
- PairDrivers.NoDeadlock: is about runs without failures and without status answers in the register; `PairFaults.CoursesRefineProtocol` has those but promises safety, not progress.
- PairOutcome.UncertainSurvivesExactly: asks for one-line labels and a bond named after its key, which is what the daemon builds.
- PairOutcome.MarkLastsExactly: the same.
- TornRecovery.RecoverSoundly: asks that staged labels have no newline, as the daemon's peer names and addresses have none; whose bond and key it activates is in `RecoveredBond.ActivatedComesFrom`.
- RecoveredBond.RecoveredComesFrom: asks that a staging carries its own peer's bond under a hexadecimal name, which is what the daemon builds.
- StaleStore.UndisturbedSaveCarries: has the requests served between the terminal's staging and its save, not among the steps of either.
- Orchestrator.Orchestrator.AddAll: adds the peers one by one in any order, by recursion where the code loops over them.
