# FerrumTTY, modelled and proved in Dafny

FerrumTTY is a Mosh client made of deterministic crates without sockets. This
project models the crates that carry the State Synchronization Protocol and
proves what they promise: that input arrives once and in order over a network
that loses, repeats and reorders; that the host hears every remote effect
exactly once; that sessions shut down as documented; that predictions can be
undone; and that what the client parses, reassembles and rewrites comes out as it
went in. Verify it with `dafny verify dfyconfig.toml`.

## How it is laid out

Each stateful component comes twice: as a class whose methods update fields in
place with the loops of the source, and as functions on values that every
method is proved to compute. The properties are lemmas about the functions, over
whole runs wherever runs are what the promise is about.

| file | component |
|---|---|
| Prelude, Wire | integer widths, results, protocol updates and instructions |
| Varint, Message, Batch | protobuf walkers, and the encoder they must accept |
| Grammar | what a well-formed message is, and that the walkers accept exactly that |
| Fragments | fragment encoding, splitting, reassembly |
| Replay, Channel | replay bitmap, counters and nonces of the secure channel |
| Ingest | from packets to updates: opening, replay filter, concurrent reassemblies |
| Arrival | when sealed updates arrive, how often, and on top of what |
| Sender, Session, Receiver | untrimmed sender, the trimmed protocol object that refines it, the receive rule |
| TwoParty, LossySession | sender and peer over an unreliable network, and the runtime in the sender's place |
| Operations, RemoteState, RemoteTerminal | operation histories, the terminal state, its object |
| Applying, ScreenDifferences | when a batch is taken and what is recorded; what differences do to a screen |
| HostEffects, HostRuns | what the host is told over a run of remote updates, and over a run of host calls |
| ScreenRuns, Echoes, Reports | what the host's terminal shows, and what the host knows, over runs of host calls |
| PacketSession | packets, runtime and host actions together |
| Rto | retransmission timeout estimator |
| Runtime, RuntimeObject | the session runtime as a function and as an object |
| RuntimeRuns, Timer, Shutdown, Association, InputQueue | what runs of host calls keep: bounds, timing, shutdown, association, input |
| Intake, Acknowledging, Deadline | what is taken from the host and the network, when it is acknowledged, when a shutdown gives up |
| Predict, Keystrokes | the prediction overlay and the line it edits; which keys are shown |
| Title, TitleCommands | the title-rewriting output filter; commands from opener to terminator |

## How it abstracts

- Integers are unbounded with explicit ranges (`u16`, `u64`, `u128`); bit
  operations are arithmetic.
- Sealing is ideal: a packet is its nonce word and plaintext, forged or short.
- A state update carries its decoded instructions. That encoding, validation and
  extraction fit together is proved in Batch; compression is taken as lossless.
- Whether an encoding or a cipher call succeeds is an input of the operation.
- A terminal is any fold over bytes and resizes, with arbitrary snapshot, diff
  and boundary functions; a peer is anything that runs the receive rule. That a
  rendered screen difference leads from one screen to the other is a hypothesis,
  `ScreenDifferences.Bridges`, wherever it is used.
- `SendDatagram` stands for all packets of one update; diagnostics are dropped.
- The runtime is given what Ingest reports for a packet: a refusal, a receipt
  without an update, or one with it. PacketSession puts the two together.
- The server of the end-to-end statements is one whose deltas are slices of one
  log, as this client's own sender is; of what its fragments can be put together
  to it is asked only that it decodes to such a slice or not at all.
- Prediction output is a sequence of tokens, one per escape sequence or
  character, and acts on one line of cells.

## Where the code and its documentation part

The model follows the code; each point below is a proved statement.

- docs/EMBEDDING.md:49-52 promises that a peer shutdown completes only after its
  acknowledgement. This holds exactly when the reserved state became the latest
  remote state (`Shutdown.PeerShutdownIsAcknowledgedIff`); a shutdown update on
  an unknown base ends the session without (`Shutdown.UnknownBaseShutdownIsNotAcknowledged`).
- docs/PREDICTION.md:20-23 says prediction stops before the right margin, and
  32-33 that reconciliation lets it resume. A key refused at the margin while
  nothing is shown leaves its anchor behind, and for a host that always passes
  its context nothing is ever predicted again (`Predict.MarginRefusalSticks`,
  `Predict.MarginRefusalIsPermanent`).
- The closed-form timer agrees with `poll` except in three corners, two of
  shutdown and one of exhausted state numbers, all of which runs reach
  (`Timer.TimerAgreesExactlyWhen`, `Timer.TimerCanOversleep`,
  `Timer.TimerCanSpin`, `Timer.TimerCanBeStuck`).
- docs/EMBEDDING.md:75 promises that the first poll emits the association
  datagram. It is lost for good when an unanswered shutdown deadline has passed
  by then, or when something else is to be sent and cannot be
  (`Association.AssociationIsSentIff`, with a run for each in
  `Association.AssociationCanBeDropped` and `Association.AssociationCanFailWithInput`).
- `build_queued_update` drains the queue before it encodes, so a failing poll can
  lose input (`InputQueue.PollLosesInputIff`, `InputQueue.PollCanLoseInput`).
- A poll that notices silence and then fails drops the report, and no later poll
  repeats it, so a host can take an interrupted session for connected
  (docs/EMBEDDING.md:37-39; `Reports.StepTellsIff`, `Reports.SilenceCanBeHidden`).
- `diff_from` succeeds between histories of different initial sizes and then need
  not lead to the target's screen (`ScreenDifferences.SuffixReproducesIff`,
  `ScreenDifferences.OtherStartIsNotReproduced`), and a screen difference forwards
  none of the session controls it stands in for (`ScreenDifferences.DivergedEffects`).
- `build_update` does not look for a sent shutdown state; only the runtime keeps
  it from being called then (`Sender.FreshNeedsOpenSender`, `RuntimeRuns.QueuedSendIsFresh`).
- A state number used for another message while fragments are outstanding can
  refuse that message, exactly when what is held is not compatible with it
  (`Arrival.SealingArrivesIff`, `Arrival.ReusedNumberRefuses`).
- A refused final fragment still fixes the final index of its reassembly, and
  finishes it exactly when everything up to that index is held
  (`Fragments.RefusedFinishesIff`, `Fragments.RefusedFinalTruncates`).
- The title filter's header buffer has no bound, and it passes its limit exactly
  on runs of escapes behind a full header (`Title.HeaderIsOverLimitIff`,
  `Title.HeaderIsUnbounded`).

One more thing shows only in the source, and no lemma states it: `diff_from` is
documented to require reconstructible screen differences, but the audit's flag
for that is never read. What is checked is a tail without resizes that ends at a
parser boundary, which `RemoteTerminal.RemoteTerminalState.TailSafe` computes.

## Model

| member | source | states |
|---|---|---|
| `TwoParty.ConfirmedStateIsHeld` | crates/ferrumtty-session/src/lib.rs:248-284 | over every run with loss, duplication and reordering the peer still retains the sender's confirmed state, and it is exactly the confirmed input |
| `TwoParty.RetransmissionIsUnderstood` | crates/ferrumtty-session/src/lib.rs:248-284 | in every reachable state a rebuilt retransmission has a base the peer retains and a legal transition, so only the peer's own apply or its cap can refuse it |
| `TwoParty.OneRoundTripRecovers` | crates/ferrumtty-session/src/lib.rs:420-442 | below the cap, one delivered retransmission and one delivered acknowledgement clear everything pending and give the peer the whole input |
| `TwoParty.DeliveredIsPrefixOfInput` | crates/ferrumtty-session/src/lib.rs:453-494 | what the peer has delivered is always a prefix of the input |
| `TwoParty.HonestDelivery` | crates/ferrumtty-session/src/lib.rs:453-494 | exactly what one honest update does to the peer: nothing, prune below the confirmed state, or prune and store the prefix its target stands for |
| `TwoParty.NextKeepsInv` | crates/ferrumtty-session/src/lib.rs:420-494 | every send, delivery and acknowledgement keeps the two parties' joint invariant |
| `LossySession.RunIsTwoParty` | crates/ferrumtty-runtime/src/lib.rs:308-717 | whatever the host calls and the network loses, repeats and reorders, sender, peer and network go through a run of the two parties |
| `LossySession.PeerHasAcceptedInput` | crates/ferrumtty-runtime/src/lib.rs:308-717 | over such a network what the peer has delivered is a prefix of what was sent, and that with what is queued has the effect of all the input the runtime accepted |
| `LossySession.ExchangeRecovers` | crates/ferrumtty-runtime/src/lib.rs:672-699 | from any reachable state below the cap, one resending poll delivered once and one datagram that brings the peer's report leave nothing pending and the peer with everything sent |
| `Sender.EveryUpdateIsASlice` | crates/ferrumtty-session/src/lib.rs:198-284 | every update ever sent, fresh or rebuilt after draining, rebasing and thinning, carries exactly the slice of one untrimmed log that its base and target delimit |
| `Sender.LogIsInput` | crates/ferrumtty-session/src/lib.rs:198-239 | that log is exactly the accepted input, in order |
| `Sender.ActIsSound` | crates/ferrumtty-session/src/lib.rs:136-284 | each action keeps ids strictly increasing, ends ordered, at most 32 marks, and never reinterprets an id |
| `Sender.SentIsValid` | crates/ferrumtty-session/src/lib.rs:198-239 | sending keeps the confirmed front mark and makes the new state the back mark, whatever thinning removes |
| `Sender.ThinnedKeepsEnds` | crates/ferrumtty-session/src/lib.rs:444-451 | thinning removes only middle marks: both ends and the order stay |
| `Sender.GrownKeeps` | crates/ferrumtty-session/src/lib.rs:444-451 | however many states are sent unacknowledged, those still known are the 17 oldest and the 15 newest, or all if that is fewer |
| `Sender.AcknowledgedIsValid` | crates/ferrumtty-session/src/lib.rs:420-442 | an acknowledgement never touches the newest mark and never moves the front backwards |
| `Sender.FreshNeedsOpenSender` | crates/ferrumtty-session/src/lib.rs:136-148 | building a fresh state keeps the sender valid if and only if the shutdown state has not been sent, a check `build_update` itself does not make |
| `Session.ClientProtocol.BuildUpdate` | crates/ferrumtty-session/src/lib.rs:136-148 | on the trimmed log: the untrimmed sender after a fresh state and its update, or the exact refusal with nothing changed |
| `Session.ClientProtocol.BuildShutdown` | crates/ferrumtty-session/src/lib.rs:156-170 | the same for the reserved shutdown state, refused once it has been sent |
| `Session.ClientProtocol.BuildShutdownAck` | crates/ferrumtty-session/src/lib.rs:174-196 | the empty answer at the reserved state, only once that state is confirmed |
| `Session.ClientProtocol.BuildStateUpdate` | crates/ferrumtty-session/src/lib.rs:198-239 | drained, thinned and re-indexed fields still stand for the untrimmed sender with one more state |
| `Session.ClientProtocol.RetransmitPending` | crates/ferrumtty-session/src/lib.rs:248-284 | rebuilds from the trimmed log exactly the untrimmed slice from the confirmed to the newest state |
| `Session.ClientProtocol.BuildAcknowledgement` | crates/ferrumtty-session/src/lib.rs:84-108 | an empty update at the newest state |
| `Session.ClientProtocol.ProcessAcknowledgement` | crates/ferrumtty-session/src/lib.rs:420-442 | draining the log and rebasing every mark is acknowledging in the untrimmed sender |
| `Session.ClientProtocol.LimitSentStates` | crates/ferrumtty-session/src/lib.rs:444-451 | the removal loop computes the thinning function |
| `Session.ClientProtocol.AcceptRemoteUpdate` | crates/ferrumtty-session/src/lib.rs:453-494 | the in-place receive rule equals the functional one, on every branch |
| `Session.ClientProtocol.Ingest` | crates/ferrumtty-session/src/lib.rs:303-364 | an acknowledgement is processed even when the update it came with is refused |
| `Session.ClientProtocol.SetInitialRemote` | crates/ferrumtty-session/src/lib.rs:385-395 | replaces the blank baseline only while it is all there is |
| `Session.AcknowledgingRefines` | crates/ferrumtty-session/src/lib.rs:420-442 | trimming and rebasing keep the untrimmed meaning |
| `Session.SendingRefines` | crates/ferrumtty-session/src/lib.rs:226-238 | appending and thinning keep the untrimmed meaning |
| `Receiver.AcceptKeepsRetention` | crates/ferrumtty-session/src/lib.rs:453-494 | every retained id is at or above the floor, at most 1,024 are held, floor and latest never fall, held states are never reinterpreted, and the base of an applied update survives the prune it causes |
| `Receiver.OutcomeIff` | crates/ferrumtty-session/src/lib.rs:453-494 | what becomes of an update, both ways: passed over if held already or built on an unknown base, refused for an impossible transition, a batch that does not apply or a 1,025th surviving state, and otherwise stored, and delivered if it is newest and a difference exists |
| `Receiver.AdvanceIsReached` | crates/ferrumtty-session/src/lib.rs:453-494 | the latest state moves if and only if the update is reported as an advance, and what is reported is the difference from what was delivered |
| `Receiver.NeverReinterpreted` | crates/ferrumtty-session/src/lib.rs:385-494 | over any run of updates and new viewport baselines a held id means one state for as long as it is held, id zero from the moment anything else is held; ids disappear only below the floor and never come back |
| `Receiver.PrunedIdsStayGone` | crates/ferrumtty-session/src/lib.rs:453-494 | a pruned id is never stored again |
| `Receiver.PerformedKeepsInv` | crates/ferrumtty-session/src/lib.rs:385-494 | updates and new baselines alike keep retention sound: a raised floor leaves at least two states, so replacing the baseline never meets a pruned state zero |
| `Receiver.ReinterpretsIff` | crates/ferrumtty-session/src/lib.rs:385-395 | an operation makes a held id mean another state if and only if it brings another baseline while the baseline is all there is, and the id is then zero |
| `Receiver.PristineIsBaseline` | crates/ferrumtty-session/src/lib.rs:386-388 | a receiver holding one state holds state zero with no floor raised, so the guard on the latest state never decides |
| `HostEffects.HostHearsHistoryOnce` | crates/ferrumtty-session/src/lib.rs:453-494 | over any run of updates without a screen diff, the concatenated host effects complete the flattened history of the latest accepted state: nothing repeated, lost or reordered |
| `HostEffects.HostShowsScreen` | crates/ferrumtty-state/src/lib.rs:199-252 | where the delivered history still replays to its screen, performing what the host was told shows exactly that screen |
| `ScreenDifferences.DifferenceReproduces` | crates/ferrumtty-state/src/lib.rs:199-252 | given the law of screen differences, performing a difference on the delivered screen gives the target's screen: over a screen difference always, over a missing part of the history if both start from one size |
| `ScreenDifferences.DivergedReproduces` | crates/ferrumtty-state/src/lib.rs:219-232 | between histories that have parted, the rendered bytes lead from the delivered screen to the target's |
| `ScreenDifferences.SuffixReproducesIff` | crates/ferrumtty-state/src/lib.rs:199-218 | the missing part of a history leads to the target's screen if and only if the target's history replays to it from the delivered state's initial size |
| `ScreenDifferences.OtherStartIsNotReproduced` | crates/ferrumtty-state/src/lib.rs:199-218 | a difference that succeeds and does not reproduce: empty terminals of two sizes |
| `ScreenDifferences.DifferenceExistsIff` | crates/ferrumtty-state/src/lib.rs:496-584 | a difference exists if and only if the target continues what was delivered, or viewports agree, every resize is common to both, and both histories end between escape sequences |
| `ScreenDifferences.DivergedEffects` | crates/ferrumtty-state/src/lib.rs:219-232 | over a screen difference the host is given bytes alone: no resize, and none of the controls in the tail that is replaced |
| `ScreenDifferences.ApplyKeepsSized` | crates/ferrumtty-state/src/lib.rs:110-154 | the recorded viewport is always the one the recorded history leads to, through compactions too |
| `ScreenDifferences.HostShowsScreenAcrossDifferences` | crates/ferrumtty-session/src/lib.rs:453-494 | over any run of updates, screen differences among them, what the host was told makes an empty terminal show the screen delivered last, as long as compactions keep the screen and histories sent as a missing part start from one size |
| `ScreenDifferences.HostShowsScreenWithinLimits` | crates/ferrumtty-session/src/lib.rs:453-494 | that is so of every run in which what is applied fits the retention limits, whatever diverges |
| `ScreenRuns.SessionShowsScreen` | crates/ferrumtty-runtime/src/lib.rs:506-604 | the same over whole runs of host calls: the returned actions make an empty terminal show the remote state delivered last |
| `ScreenRuns.StepShows` | crates/ferrumtty-runtime/src/lib.rs:308-717 | whatever the host calls, what it is told keeps its terminal at the screen delivered last |
| `HostEffects.HostHearsServerLogOnce` | crates/ferrumtty-session/src/lib.rs:453-494 | from a server whose deltas are slices of one log the host hears exactly the operations of that log up to the latest state, whatever is lost, repeated, reordered or rebuilt, and its terminal shows the delivered screen |
| `HostEffects.SlicesNeedNoScreenDiff` | crates/ferrumtty-state/src/lib.rs:199-252 | against a server whose deltas are slices of one log that fits the limits, histories never diverge |
| `HostEffects.ReachableServer` | crates/ferrumtty-session/src/lib.rs:198-284 | in every run of the sender model state zero stands for the empty prefix of its log |
| `HostRuns.SessionTellsHistoryOnce` | crates/ferrumtty-runtime/src/lib.rs:506-604 | over any run of host calls without a screen difference, the bytes, sizes and controls in the returned actions are together exactly the history of the remote state last delivered |
| `HostRuns.BatchIsHeard` | crates/ferrumtty-runtime/src/lib.rs:566-603 | the actions for a delivered batch have exactly its effects, in order |
| `HostRuns.DeliveryIsHeard` | crates/ferrumtty-runtime/src/lib.rs:511-604 | what the host hears of one update is exactly what the receive rule delivers |
| `Echoes.HostKnowsEcho` | crates/ferrumtty-runtime/src/lib.rs:593-595 | over any run that never delivers a state without an echo acknowledgement after one with, the last the host was told is the delivered state's |
| `Echoes.StepTellsEchoIff` | crates/ferrumtty-runtime/src/lib.rs:593-595 | after a call the host has been told the delivered echo acknowledgement if and only if the call forgets none |
| `Echoes.DifferenceTellsEcho` | crates/ferrumtty-state/src/lib.rs:236-248 | whatever a difference carries, it leaves the host with the target's echo acknowledgement, if the target has one |
| `Reports.HostKnowsWhatHolds` | crates/ferrumtty-runtime/src/lib.rs:308-717 | over any run in which no failing poll notices silence, what the host was last told of connection, lifecycle, binding, round trip, remote state and outcome is what holds |
| `Reports.StepTellsIff` | crates/ferrumtty-runtime/src/lib.rs:308-717 | a call leaves the host knowing all of that if and only if it is not a poll that fails having just noticed silence |
| `Reports.OnlyNewsIsTold` | crates/ferrumtty-runtime/src/lib.rs:308-717 | no call tells the host what it has been told: only values that changed, later remote states, and an outcome once |
| `Reports.SilenceCanBeHidden` | crates/ferrumtty-runtime/src/lib.rs:644-665 | a concrete run in which the session has gone to interrupted and the host was last told it is connected |
| `Reports.SilenceIsReported` | crates/ferrumtty-runtime/src/lib.rs:860-866 | over any run, a poll that succeeds and goes on reports the server silent if and only if the host takes it for connected and no packet has been accepted, nor the session resumed, for 30 seconds |
| `Reports.GenerationCountsRebinds` | crates/ferrumtty-runtime/src/lib.rs:455-468 | the binding's generation counts the rebinds of a session that is not cancelled, saturating, and nothing else moves it |
| `PacketSession.HostHearsServerLog` | crates/ferrumtty-runtime/src/lib.rs:511-604 | end to end, from packets to actions: over any packets, forged, garbled, lost, repeated or reordered, between any host calls, the actions amount to exactly the server's log up to the latest remote state, and performing them shows the server's screen |
| `PacketSession.TakeKeepsBuilt` | crates/ferrumtty-session/src/lib.rs:303-364 | every update that reassembly completes, whatever fragments it put together, carries exactly a slice of the server's log |
| `PacketSession.CleanNumbersAreUnderstood` | crates/ferrumtty-session/src/lib.rs:321-341 | numbers used for one message each, or only for messages of one packet, are never misunderstood |
| `PacketSession.CompletedUpdateIsReceived` | crates/ferrumtty-runtime/src/lib.rs:511-560 | the packet that brings the last missing fragment hands the runtime exactly the sealed update, any other packet that gets through only its echoed timestamp |
| `PacketSession.PacketRuntime.ReceiveDatagram` | crates/ferrumtty-runtime/src/lib.rs:511-604 | packet path and runtime as one object: a session that is not running opens nothing, a refused packet changes no session state |
| `Replay.ReplayWindow.Accept` | crates/ferrumtty-session/src/lib.rs:508-537 | the bitmap accepts a counter if and only if it is newer than all accepted ones or inside the window and not accepted before, and keeps bit i of the 128-bit word equal to "highest - i was accepted", shifts and carries included |
| `Replay.ShiftLeftBit` | crates/ferrumtty-session/src/lib.rs:517-521 | shifting the word by any amount below 128, truncated to 128 bits, moves every bit up by that amount and loses the ones that leave |
| `Replay.NeverTwice` | crates/ferrumtty-session/src/lib.rs:508-537 | no run of offers accepts a counter twice |
| `Replay.AcceptedIff` | crates/ferrumtty-session/src/lib.rs:508-537 | over any run a counter is accepted if and only if it has not been accepted before and is less than 128 behind every counter that has |
| `Channel.SecureChannel.SealNext` | crates/ferrumtty-crypto/src/lib.rs:136-157 | counters are spent in order, not spent when the cipher fails, and refused after 2^63 |
| `Channel.SecureChannel.Open` | crates/ferrumtty-crypto/src/lib.rs:159-191 | plaintext only from authentic packets of the inbound direction |
| `Channel.NoncesDiffer` | crates/ferrumtty-crypto/src/lib.rs:88-102 | nonces are injective in direction and counter |
| `Channel.SidesMatch` | crates/ferrumtty-crypto/src/lib.rs:74-102 | what one side seals the other opens unchanged, and the side itself refuses as coming the wrong way |
| `Channel.WordsOnTheWire` | crates/ferrumtty-crypto/src/lib.rs:88-102 | a client's words are its counters below 2^63, a server's have the top bit set, and a nonce is four zeros and the word, most significant byte first |
| `Channel.NoncesNeverRepeat` | crates/ferrumtty-crypto/src/lib.rs:136-151 | no two packets the two peers ever seal share a nonce (section 5.1 of RFC 7253) |
| `Channel.AcceptedAtMostOnce` | crates/ferrumtty-session/src/lib.rs:303-330 | each sealed packet passes decryption and the replay window at most once, however often and in whatever order it is delivered |
| `Channel.NewestIsAccepted` | crates/ferrumtty-session/src/lib.rs:508-537 | a packet newer than everything offered is never refused |
| `Fragments.ParseInvertsEncode` | crates/ferrumtty-wire/src/fragment.rs:46-132 | parsing an encoded fragment gives it back |
| `Fragments.EncodeInvertsParse` | crates/ferrumtty-wire/src/fragment.rs:46-132 | encoding a parsed packet gives back its bytes |
| `Fragments.EncodedLayout` | crates/ferrumtty-wire/src/fragment.rs:25-40 | on the wire: two timestamps, the state number, the index with the top bit for the last one, each big-endian, then the body |
| `Fragments.RefusedIff` | crates/ferrumtty-wire/src/fragment.rs:163-207 | the five reasons a push is refused, each if and only if, and no other |
| `Fragments.SplitGivesTheFragments` | crates/ferrumtty-wire/src/fragment.rs:74-115 | splitting yields one fragment per index, in order, only the last final |
| `Fragments.SplitCuts` | crates/ferrumtty-wire/src/fragment.rs:74-115 | every fragment but the last carries 1,214 bytes, the last one what is left, and only a message of more than 32,768 fragments is refused |
| `Fragments.ReassemblesInAnyOrder` | crates/ferrumtty-wire/src/fragment.rs:163-226 | after encode and parse, in any order and with any repetition, pushing yields nothing until every index has been seen and then exactly the message |
| `Fragments.PushKeepsSound` | crates/ferrumtty-wire/src/fragment.rs:163-207 | stored bytes stay within the bound and keys within the final index for every fragment input, conflicting and forged ones included |
| `Fragments.PushKeepsCompatible` | crates/ferrumtty-wire/src/fragment.rs:163-207 | a fragment of a message always fits an accumulator whose content is compatible with that message, and leaves it compatible |
| `Fragments.RefusedFinishesIff` | crates/ferrumtty-wire/src/fragment.rs:163-198 | a refused fragment finishes an unfinished message if and only if it fixes the unknown final index at the end of what is held without a gap; the message is then what is held |
| `Fragments.RefusedChangesIff` | crates/ferrumtty-wire/src/fragment.rs:163-198 | a refused fragment changes the accumulator if and only if it fixes the unknown final index or is charged for a body that is too large |
| `Fragments.RefusedFinalTruncates` | crates/ferrumtty-wire/src/fragment.rs:176-198 | such a case: the first fragment of a longer message passes for the whole after a contradicting final one |
| `Fragments.CountDecidesCoverage` | crates/ferrumtty-wire/src/fragment.rs:209-226 | as many keys as the final index allows means every key is there, so a missing fragment is unreachable |
| `Fragments.FragmentAccumulator.Push` | crates/ferrumtty-wire/src/fragment.rs:163-207 | the accumulator's fields after a push, its result or refusal, and that it never reports a missing fragment |
| `Fragments.FragmentAccumulator.TryComplete` | crates/ferrumtty-wire/src/fragment.rs:209-226 | concatenates the bodies in index order once all are present |
| `Arrival.UpdateArrivesWhenComplete` | crates/ferrumtty-session/src/lib.rs:303-364 | whatever messages are sealed under a number and whatever else is on the wire, as long as each packet that gets through suits what is held or is refused by its header: it is refused with the stated error, reported without an update, or, at the delivery that brings the last fragment missing and only then, reported with exactly the sealed update |
| `Arrival.UpdateArrives` | crates/ferrumtty-session/src/lib.rs:303-341 | once every fragment of a message has got through, in any order and by whichever of its sealings, some delivery has completed it, unless packets of other messages have come between |
| `Arrival.UpdateArrivesOnce` | crates/ferrumtty-session/src/lib.rs:303-341 | a message is completed at most as often as it was sealed, however its packets are repeated and reordered, unless packets of other messages have come between |
| `Arrival.OneMessageIsOrderly` | crates/ferrumtty-session/src/lib.rs:321-341 | however often one message is sealed again under its number, on top of anything compatible with it, its run meets those conditions |
| `Arrival.InterleavedIsOrderly` | crates/ferrumtty-session/src/lib.rs:321-341 | so does a run in which messages of one packet come under the number of a longer one, at any moment but when exactly its first fragment is held |
| `Arrival.OnePacketMessagesArriveAtOnce` | crates/ferrumtty-session/src/lib.rs:303-341 | under a number only messages of one packet use, every packet that is new and finds room hands its own update on at once |
| `Arrival.SealingArrivesIff` | crates/ferrumtty-session/src/lib.rs:303-341 | a new sealing of at most 128 packets arrives in every order, repetitions included, if and only if what its number already holds is compatible: same bodies, no other final index, room for the missing bytes; a longer one then arrives in every order that stays inside the replay window |
| `Arrival.OnePacketArrivesIff` | crates/ferrumtty-session/src/lib.rs:321-341 | for a one-packet update: if and only if nothing but that very body is held, it is not known to be followed by more, and it fits if it is not held |
| `Arrival.ReusedNumberRefuses` | crates/ferrumtty-session/src/lib.rs:321-331 | a concrete run in which a number is used for another message while fragments are outstanding, and the complete update is refused |
| `Ingest.OursStep` | crates/ferrumtty-session/src/lib.rs:303-341 | one packet of a sealing on top of something compatible: what is held of its message, what is reported, and that the number stays compatible |
| `Ingest.TurnedAwayStep` | crates/ferrumtty-session/src/lib.rs:303-341 | a packet whose header contradicts what is held is refused with that complaint and leaves it as it was |
| `Ingest.TakeKeepsBounded` | crates/ferrumtty-session/src/lib.rs:321-331 | forged, replayed or conflicting packets never make more than 64 reassemblies of 16 MiB |
| `Ingest.TakeNotesIff` | crates/ferrumtty-session/src/lib.rs:303-311 | a packet is turned away whole if and only if it does not open or its counter is seen or too old; otherwise its counter is noted whatever it holds |
| `Ingest.BarePacketIsHeard` | crates/ferrumtty-session/src/lib.rs:312-327 | an authentic new packet of 4 to 13 bytes is reported with its two stamps and without an update, a shorter one is refused, and neither touches a reassembly |
| `Ingest.NoRoomIff` | crates/ferrumtty-session/src/lib.rs:328-334 | a new fragment of a number not held is refused for want of room if and only if 64 others are held |
| `Ingest.PacketIngest.IngestPacket` | crates/ferrumtty-session/src/lib.rs:303-341 | opening, replay filter, timestamps and the map of reassemblies, in place and with every refusal |
| `Ingest.PacketIngest.AssembleFragment` | crates/ferrumtty-session/src/lib.rs:321-338 | one accumulator object a state number, dropped with the message it completes |
| `Varint.ReadInvertsEncode` | crates/ferrumtty-wire/src/message.rs:276-289 | reading the standard encoding of any u64 gives it back and consumes exactly its 1 to 10 bytes, whatever follows |
| `Varint.FitsU64` | crates/ferrumtty-wire/src/message.rs:276-289 | the tenth-byte guard keeps every decoded value below 2^64 |
| `Grammar.ReadVarintIff` | crates/ferrumtty-wire/src/message.rs:276-289 | reading succeeds if and only if the bytes start with a number: groups of seven bits, at most ten bytes and 64 bits, whatever follows, and gives its value |
| `Varint.DecodeVarint` | crates/ferrumtty-wire/src/message.rs:276-289 | the shifting loop computes the recursive reading |
| `Message.ExtractionAgreesWithValidation` | crates/ferrumtty-wire/src/message.rs:200-255 | field extraction succeeds if and only if validation without known fields does, with the same error |
| `Message.FieldsAreDisjointSlices` | crates/ferrumtty-wire/src/message.rs:229-255 | extracted contents are disjoint slices of the message, in message order |
| `Message.SchemaOnlyRestricts` | crates/ferrumtty-wire/src/message.rs:200-215 | known fields only ever make validation refuse more |
| `Grammar.ValidatedIff` | crates/ferrumtty-wire/src/message.rs:200-215 | the validator accepts exactly the sequences of fields whose keys and values are well formed and suit the schema |
| `Grammar.RefusedAt` | crates/ferrumtty-wire/src/message.rs:200-215 | a refused message is fields up to some point where no field follows, and the error says whether the wire type there is the reason |
| `Grammar.BatchIff` | crates/ferrumtty-wire/src/message.rs:184-198 | a batch is accepted if and only if it is fields all the way down, with the wire types the protocol names for instructions, bytes, viewports, markers and controls |
| `Message.SkipValue` | crates/ferrumtty-wire/src/message.rs:257-274 | skips exactly the value's bytes, with the same errors |
| `Message.ValidateFields` | crates/ferrumtty-wire/src/message.rs:200-215 | the shrinking-slice loop computes the recursive validation |
| `Message.LengthDelimitedFields` | crates/ferrumtty-wire/src/message.rs:229-255 | the collecting loop computes the recursive extraction |
| `Batch.FieldsInvertEncodeParts` | crates/ferrumtty-wire/src/message.rs:229-255 | extraction inverts the encoding of any list of submessages, which validation accepts |
| `Batch.InstructionRoundTrip` | crates/ferrumtty-wire/src/message.rs:77-121 | an encoded instruction validates and its parts come back in tag order |
| `Batch.EncodedBatchIsAccepted` | crates/ferrumtty-wire/src/message.rs:184-198 | the validator accepts the encoding of every batch, and extraction recovers its instructions in order |
| `Batch.ValidateInstructionBatch` | crates/ferrumtty-wire/src/message.rs:184-198 | the nested loops compute the validation of a batch |
| `Operations.GroupedFlatten` | crates/ferrumtty-state/src/lib.rs:56-67 | a canonical history is determined by its symbols |
| `Operations.FlattenGrouped` | crates/ferrumtty-state/src/lib.rs:56-67 | canonicalising loses no byte, resize or control |
| `Operations.CanonicalOperations` | crates/ferrumtty-state/src/lib.rs:56-67 | the merging loop computes the canonical form of any history |
| `Operations.HistorySuffixStart` | crates/ferrumtty-state/src/lib.rs:469-494 | succeeds if and only if the delivered symbols are a prefix of the target's, and its index and byte offset select exactly the remainder |
| `Operations.SplitCommonHistory` | crates/ferrumtty-state/src/lib.rs:505-561 | the longest common prefix at byte granularity, both tails reassembling their inputs, the delivered tail empty exactly when it is a prefix |
| `RemoteState.ApplyKeepsConsistent` | crates/ferrumtty-state/src/lib.rs:110-154 | counters stay exact and within limits under every batch, whatever the snapshot function returns |
| `Applying.AppliedIff` | crates/ferrumtty-state/src/lib.rs:110-154 | a batch is taken if and only if its viewports are usable, its markers never go back, and it fits beside the history or, at a parser boundary, beside a snapshot; what is then recorded, and the first reason for what is refused |
| `Applying.FinalEchoIff` | crates/ferrumtty-state/src/lib.rs:117-128 | markers are accepted if and only if none is below an earlier one or the acknowledgement so far; the last one stands |
| `Applying.RecordedIsHeard` | crates/ferrumtty-state/src/lib.rs:134-153 | a batch is recorded as exactly what the host hears of it, without the resizes that change nothing |
| `RemoteState.ReachableIsConsistent` | crates/ferrumtty-state/src/lib.rs:36-43 | in every reachable state retained bytes and operation count are those of the chain and within limits |
| `RemoteState.CanonicalReplay` | crates/ferrumtty-state/src/lib.rs:56-67 | for any terminal that folds over bytes, replaying the canonical history gives the screen of the raw one |
| `RemoteState.CopyAgreesIff` | crates/ferrumtty-state/src/lib.rs:395-413 | after any run of batches that does not compact a clone and its original agree in all but the screen, and are equal if and only if the history by then replays to the screen |
| `RemoteState.CopyCommutes` | crates/ferrumtty-state/src/lib.rs:395-413 | cloning before or after a run of batches comes to the same, replayable or not, unless the run compacts |
| `RemoteState.ReachableCopyIsEqual` | crates/ferrumtty-state/src/lib.rs:395-413 | every reachable state equals its clone as long as each compaction's snapshot rebuilds the screen it was taken of |
| `RemoteState.DifferenceCompletes` | crates/ferrumtty-state/src/lib.rs:199-252 | when the target extends what was delivered, the difference carries exactly the missing effects |
| `RemoteState.EchoArrivesIff` | crates/ferrumtty-state/src/lib.rs:236-248 | a difference brings a checking consumer to the target's echo acknowledgement if and only if that has not gone back or gone missing |
| `RemoteTerminal.HistoryGrowth` | crates/ferrumtty-state/src/lib.rs:322-345 | predicts exactly the bytes and operations applying the batch adds, or overflow |
| `RemoteTerminal.RemoteTerminalState.Apply` | crates/ferrumtty-state/src/lib.rs:110-154 | all of a batch or none of it: every refusal leaves the object as it was |
| `RemoteTerminal.RemoteTerminalState.ApplyInstructions` | crates/ferrumtty-state/src/lib.rs:134-153 | one instruction after another adds up to the batch's operations |
| `RemoteTerminal.RemoteTerminalState.MakeRoom` | crates/ferrumtty-state/src/lib.rs:130-133 | compacts only when it must, and only to a history the batch fits |
| `RemoteTerminal.RemoteTerminalState.CompactedHistory` | crates/ferrumtty-state/src/lib.rs:285-320 | a snapshot history exactly when the parser is at ground and the batch then fits |
| `RemoteTerminal.RemoteTerminalState.CheckEcho` | crates/ferrumtty-state/src/lib.rs:117-128 | refuses exactly the batches whose markers go backwards |
| `RemoteTerminal.RemoteTerminalState.Clone` | crates/ferrumtty-state/src/lib.rs:395-413 | a separate object whose screen is rebuilt by replay |
| `RemoteTerminal.RemoteTerminalState.DiffFrom` | crates/ferrumtty-state/src/lib.rs:199-252 | computes `RemoteState.Difference` over the objects, whose existence and effect on the screen `ScreenDifferences` states |
| `RemoteTerminal.RemoteTerminalState.TailSafe` | crates/ferrumtty-state/src/lib.rs:563-584 | a tail without resizes that ends at a parser boundary |
| `Rto.StaysInRange` | crates/ferrumtty-runtime/src/lib.rs:868-895 | for every sample sequence the timeout stays in 250..10,000 and the smoothed value between the smallest and largest sample |
| `Rto.SteadyTimeoutConverges` | crates/ferrumtty-runtime/src/lib.rs:868-895 | under a constant sample x, from any state, the unclamped timeout enters [x - 7, x + 21] and stays there (section 2 of RFC 6298, with floor division) |
| `Rto.FirstSampleConverges` | crates/ferrumtty-runtime/src/lib.rs:868-895 | from a new estimator it converges to exactly x |
| `Rto.FirstSampleIs` | crates/ferrumtty-runtime/src/lib.rs:882-888 | a first sample x leaves the unclamped timeout in [3x - 2, 3x] and the variation at half of it, rounded down |
| `Rto.LaterSampleIs` | crates/ferrumtty-runtime/src/lib.rs:869-881 | a later sample moves the variation by a quarter and the smoothed value by an eighth of the way, rounded down |
| `Rto.FollowsRfc6298` | crates/ferrumtty-runtime/src/lib.rs:868-895 | over any samples the integers stay within 8 and 12 milliseconds of the exact values of section 2 of RFC 6298 |
| `Rto.TimeoutIsClamped` | crates/ferrumtty-runtime/src/lib.rs:889-894 | the timeout is the unclamped one between 250 and 10,000 milliseconds, and the nearer bound beyond |
| `Rto.RoundTripEstimator.Update` | crates/ferrumtty-runtime/src/lib.rs:868-895 | computes the estimate of `Rto.Sampled` in place; saturating 64-bit arithmetic never saturates on 16-bit samples |
| `RuntimeRuns.StepKeepsInv` | crates/ferrumtty-runtime/src/lib.rs:308-717 | every host call keeps: at most one unacknowledged state, exact queue bytes within the bound, timeout in range, shutdown state consistent with what was sent |
| `RuntimeRuns.QueuedSendIsFresh` | crates/ferrumtty-runtime/src/lib.rs:733-755 | a queued send never happens once shutdown is confirmed, so the shutdown-answer branch of `build_queued_update` is unreachable from `poll` |
| `RuntimeRuns.BuildIsSound` | crates/ferrumtty-runtime/src/lib.rs:719-760 | a queued send takes the whole queue into one fresh state that carries it |
| `RuntimeObject.SessionRuntime.Poll` | crates/ferrumtty-runtime/src/lib.rs:624-717 | the in-place poll equals the functional one: fields, actions and errors |
| `RuntimeObject.SessionRuntime.ContinuePoll` | crates/ferrumtty-runtime/src/lib.rs:661-717 | queued send, retransmission, acknowledgement or nothing |
| `RuntimeObject.SessionRuntime.BuildQueuedUpdate` | crates/ferrumtty-runtime/src/lib.rs:719-760 | the queue is drained before the update is built, whether or not that succeeds |
| `RuntimeObject.SessionRuntime.MillisecondsUntilNextPoll` | crates/ferrumtty-runtime/src/lib.rs:763-803 | the closed-form timer over the fields |
| `RuntimeObject.SessionRuntime.ReceiveDatagram` | crates/ferrumtty-runtime/src/lib.rs:506-604 | computes `Runtime.Receive` in place, given what ingestion makes of the packet; that an advance is acknowledged is `Acknowledging`, what is reported `Reports` |
| `Acknowledging.AdvanceIsUrgent` | crates/ferrumtty-runtime/src/lib.rs:544-544 | an update that advances a running session makes an acknowledgement due, and the timer says "now" whenever it is asked |
| `Acknowledging.AdvanceIsAnswered` | crates/ferrumtty-runtime/src/lib.rs:624-717 | the next poll whose encodings work then returns a datagram, and every one acknowledges that update's target, unless it ends the session or loses input |
| `Acknowledging.AdvanceIsAcknowledged` | crates/ferrumtty-runtime/src/lib.rs:506-717 | over any run the first poll after an advance that gets as far as sending acknowledges it, or a later state, unless it ends the session or loses input |
| `Intake.HearingSamplesIff` | crates/ferrumtty-runtime/src/lib.rs:518-541 | an authentic packet is noted with its time, reported if the session was not connected, and its echoed stamp is the round trip if and only if it is a stamp and at most 30 seconds old |
| `Intake.RoundTripIsMeasured` | crates/ferrumtty-runtime/src/lib.rs:538-539 | sixteen-bit stamps measure the elapsed time up to multiples of 65,536 milliseconds |
| `RuntimeObject.SessionRuntime.QueueInput` | crates/ferrumtty-runtime/src/lib.rs:308-325 | computes `Runtime.QueueInput` in place |
| `Intake.QueueInputIff` | crates/ferrumtty-runtime/src/lib.rs:308-325 | bytes are taken if and only if the session runs, no shutdown was asked for or arrived, and they fit into 1 MiB beside what is queued; they are then one item at the end, and otherwise nothing changes and the reason is stated |
| `RuntimeObject.SessionRuntime.QueueSessionControl` | crates/ferrumtty-runtime/src/lib.rs:380-405 | computes `Runtime.QueueControl` in place |
| `Intake.QueueControlIff` | crates/ferrumtty-runtime/src/lib.rs:380-405 | the same for a control, which also has to be negotiated |
| `RuntimeObject.SessionRuntime.QueueResize` | crates/ferrumtty-runtime/src/lib.rs:327-355 | only a resize right behind a resize is coalesced |
| `Intake.QueueResizeIff` | crates/ferrumtty-runtime/src/lib.rs:327-355 | a resize is never dropped for space, is the last thing queued, and adds an item exactly if none is right before it |
| `Intake.PeerShutdownClosesInput` | crates/ferrumtty-runtime/src/lib.rs:546-551 | once a peer's shutdown has arrived nothing more is taken |
| `RuntimeObject.SessionRuntime.RequestShutdown` | crates/ferrumtty-runtime/src/lib.rs:436-453 | computes `Runtime.RequestShutdown` in place |
| `Deadline.TimesOutIff` | crates/ferrumtty-runtime/src/lib.rs:925-935 | over any run a poll gives a local shutdown up if and only if ten seconds have passed since it was asked for or sixteen transmissions are counted, and the peer has neither confirmed it nor waits for an answer |
| `Deadline.SilentPeerTimesOut` | crates/ferrumtty-runtime/src/lib.rs:925-935 | a session asked to shut down whose peer never says a word about it has reported exactly one outcome, timed out, once a poll has come ten seconds later |
| `Deadline.RunIsAsked` | crates/ferrumtty-runtime/src/lib.rs:436-453 | the recorded start is the time of the first request that found the session running and open |
| `RuntimeObject.SessionRuntime.Cancel` | crates/ferrumtty-runtime/src/lib.rs:421-429 | clears unsent input |
| `Intake.RestartProbes` | crates/ferrumtty-runtime/src/lib.rs:455-498 | after a rebind or a resume the timer says "now" and the next poll emits unless it loses input |
| `Intake.StoppedStaysStopped` | crates/ferrumtty-runtime/src/lib.rs:408-429 | a paused session is left alone by input, polls and datagrams, a cancelled one by everything |
| `Intake.StoppedRefuses` | crates/ferrumtty-runtime/src/lib.rs:436-453 | a session that does not run refuses datagrams and shutdown requests by name; a running one grants a shutdown however often asked |
| `Timer.TimerAgreesExactlyWhen` | crates/ferrumtty-runtime/src/lib.rs:763-803 | in a running session the timer says "now" exactly when a poll whose encodings work emits, if and only if none of three corners applies |
| `Timer.TimerCanOversleep` | crates/ferrumtty-runtime/src/lib.rs:763-803 | a run of host calls into one corner: the peer has confirmed the shutdown, the completion is due, the timer says 999 milliseconds |
| `Timer.TimerCanSpin` | crates/ferrumtty-runtime/src/lib.rs:763-803 | a run of host calls into another: a deadline passes while a peer request is to be answered, the timer says "now", the poll emits nothing |
| `Timer.TimerCanBeStuck` | crates/ferrumtty-runtime/src/lib.rs:719-760 | runs of host calls reach the third: all state numbers used up, input queued, the timer says "now", and no poll can send it |
| `Timer.PollFailsIff` | crates/ferrumtty-runtime/src/lib.rs:624-717 | a poll whose encodings work fails if and only if it loses input that can no longer be numbered or counted |
| `Timer.WaitIsHonoured` | crates/ferrumtty-runtime/src/lib.rs:624-717 | in an ordinary session any number of polls before the announced wait emits nothing and the poll at its end succeeds and emits |
| `Timer.EmitsIff` | crates/ferrumtty-runtime/src/lib.rs:624-717 | a poll whose encodings work emits a datagram or a completion if and only if something is due or over and it does not lose input |
| `Timer.SendingPollIsFollowedByWait` | crates/ferrumtty-runtime/src/lib.rs:763-803 | after any poll that sent a datagram the wait is positive unless the shutdown retry limit is reached |
| `Shutdown.OneCompletion` | crates/ferrumtty-runtime/src/lib.rs:950-956 | over any run at most one completion is reported, and it is the outcome the session keeps |
| `Shutdown.ShutdownIsSentOnce` | crates/ferrumtty-runtime/src/lib.rs:733-755 | the reserved state is sent fresh at most once, with everything still queued, and no input ever follows it |
| `Shutdown.TransmissionsAreBounded` | crates/ferrumtty-runtime/src/lib.rs:925-941 | at most 16 transmissions are counted in a run; a 17th only answers a peer request and ends the session |
| `Shutdown.StepSenderStep` | crates/ferrumtty-runtime/src/lib.rs:308-717 | a host call leaves the sent input alone, or sends the whole queue as one state under the promised number |
| `Shutdown.PollAnswers` | crates/ferrumtty-runtime/src/lib.rs:943-956 | every datagram of a poll acknowledges the latest remote state, and a peer-requested completion stands right behind one |
| `Shutdown.AdvancedShutdownIsAcknowledged` | crates/ferrumtty-runtime/src/lib.rs:546-551 | once a peer shutdown has advanced the remote state, the completing poll sends its acknowledgement right before the completion |
| `Shutdown.PeerShutdownIsAcknowledgedIff` | crates/ferrumtty-runtime/src/lib.rs:943-956 | the promised acknowledgement precedes a peer-requested completion if and only if the reserved state is the latest remote state |
| `Shutdown.UnknownBaseShutdownIsNotAcknowledged` | crates/ferrumtty-runtime/src/lib.rs:546-551 | a concrete run in which the promise fails: a shutdown update on an unknown base |
| `Association.AssociationIsSentIff` | crates/ferrumtty-runtime/src/lib.rs:631-717 | the first poll succeeds with the association datagram first if and only if it can be encoded, no unanswered shutdown deadline has passed, and what else there is to send can be sent; a poll past its encoding never leaves it for later |
| `Association.AssociationCanBeDropped` | crates/ferrumtty-runtime/src/lib.rs:631-660 | a concrete run in which a shutdown deadline drops it |
| `Association.AssociationCanFailWithInput` | crates/ferrumtty-runtime/src/lib.rs:631-665 | a concrete run in which queued input that cannot be encoded takes it along |
| `InputQueue.InputArrivesOnce` | crates/ferrumtty-runtime/src/lib.rs:308-355 | over any run in which no poll loses input and no cancellation discards any, sent and queued input have the effect of the accepted input: each item once, in order, under its viewport |
| `InputQueue.LogIsWhatWasSent` | crates/ferrumtty-runtime/src/lib.rs:661-671 | the sender's log is exactly what fresh updates carried, over any run |
| `InputQueue.CoalescingKeepsEffect` | crates/ferrumtty-runtime/src/lib.rs:327-355 | coalescing consecutive resizes changes no effect |
| `InputQueue.PollLosesInputIff` | crates/ferrumtty-runtime/src/lib.rs:624-760 | a poll loses input if and only if it goes on with nothing pending and input queued and the update cannot be encoded, counted or numbered; it then loses all that was queued |
| `InputQueue.PollCanLoseInput` | crates/ferrumtty-runtime/src/lib.rs:719-760 | a run from a new session that accepts one byte and loses it |
| `InputQueue.LandsInNamedState` | crates/ferrumtty-runtime/src/lib.rs:824-826 | queued input goes out together in the state `prediction_frame_id` named when it was queued, or in the shutdown state |
| `Predict.OverlayIsUndone` | crates/ferrumtty-predict/src/lib.rs:289-314 | in insert mode and with one anchor, after any run of offers, acknowledgements and round-trip changes, the local reconciliation restores the authoritative line, cursor and rendition, given blanks for the longest span at the line's end |
| `Predict.OfferShows` | crates/ferrumtty-predict/src/lib.rs:206-275 | every emitted edit leaves the screen showing the authoritative line with the predicted span pushed in, cursor included |
| `Predict.ReconciliationRestores` | crates/ferrumtty-predict/src/lib.rs:470-486 | deleting the rolled-back cells and restoring the cursor state undoes the span |
| `Predict.OfferKeepsInv` | crates/ferrumtty-predict/src/lib.rs:206-275 | cursor offset, predicted cells, displayed and rollback counts agree and stay within 1,024, across barriers and invalidation |
| `Predict.AcknowledgesExactly` | crates/ferrumtty-predict/src/lib.rs:318-344 | an acknowledgement that is news clears exactly the pending frames and confirms exactly the cells it covers |
| `Predict.AcknowledgedCellsStay` | crates/ferrumtty-predict/src/lib.rs:423-433 | a backspace never takes back an acknowledged cell |
| `Keystrokes.ShownIff` | crates/ferrumtty-predict/src/lib.rs:206-275 | a key is shown if and only if it is no older than one seen, predictions are wanted (always, or from a round trip of 20 ms), none waits for a redraw, fewer than 1,024 are held, and it has its place on the line; control characters have none |
| `Keystrokes.ShownLeaves` | crates/ferrumtty-predict/src/lib.rs:375-461 | what is predicted after a key that is shown |
| `Keystrokes.UnshownLeaves` | crates/ferrumtty-predict/src/lib.rs:206-275 | a key that is not shown changes nothing but the frame seen, or gives everything up, exactly when it could change the line in ways that cannot be shown |
| `Keystrokes.OverwritingShows` | crates/ferrumtty-predict/src/lib.rs:395-416 | overwriting, a key replaces the cell under the cursor, underlined, and moves on, the rendition as before |
| `Keystrokes.ReconcilesIff` | crates/ferrumtty-predict/src/lib.rs:289-314 | what was shown is undone locally if and only if it was inserted at a known place, takes a redraw otherwise, and nothing is left of it |
| `Keystrokes.CountsIff` | crates/ferrumtty-predict/src/lib.rs:318-344 | an acknowledgement counts if and only if it is above the last and of a frame that has been offered |
| `Predict.PrintableIsShownIff` | crates/ferrumtty-predict/src/lib.rs:375-396 | with nothing shown, a printable key is shown if and only if no anchor is left over and it is not at the margin |
| `Predict.MarginRefusalSticks` | crates/ferrumtty-predict/src/lib.rs:384-394 | a refusal leaves a stale anchor if and only if it happened at the margin |
| `Predict.MarginRefusalIsPermanent` | crates/ferrumtty-predict/src/lib.rs:289-314 | after such a refusal no run of keys, barriers, acknowledgements and reconciliations ever shows a key again |
| `Predict.PredictionOverlay.OfferForFrameWithContext` | crates/ferrumtty-predict/src/lib.rs:206-275 | the overlay's fields and output after an offer |
| `Predict.PredictionOverlay.TakeReconciliation` | crates/ferrumtty-predict/src/lib.rs:289-314 | the overlay's fields and the restoration after reconciling |
| `Predict.PredictionOverlay.AcknowledgeThrough` | crates/ferrumtty-predict/src/lib.rs:318-344 | the pop loop and the cell loop compute the acknowledgement |
| `Predict.PredictionOverlay.LineConfidence` | crates/ferrumtty-predict/src/lib.rs:353-364 | acknowledged only when every remaining cell is |
| `Title.OnlyTitlesAreRewritten` | crates/ferrumtty-terminal/src/lib.rs:181-359 | over any calls the remote output cuts into stretches passed on unchanged and recognised title commands answered with nothing or one pair of titles, in order; every emission is such a pair and the last one is what the filter takes the host to show |
| `Title.PassesThrough` | crates/ferrumtty-terminal/src/lib.rs:201-359 | remote output no contiguous part of which opens a title command comes out unchanged up to the bytes still held |
| `TitleCommands.TitleIsTaken` | crates/ferrumtty-terminal/src/lib.rs:201-393 | a title command in any of its forms becomes the stored pair and is answered with the commands that show it, "[mosh] " in front of the window's title, unless the host shows it already; one too long is swallowed |
| `TitleCommands.CancelledTitleIsDropped` | crates/ferrumtty-terminal/src/lib.rs:201-359 | a cancelled title command is swallowed and changes nothing |
| `TitleCommands.OtherCommandPasses` | crates/ferrumtty-terminal/src/lib.rs:201-359 | a command with another name comes out as it went in and leaves the filter where it was |
| `TitleCommands.BareCommandPasses` | crates/ferrumtty-terminal/src/lib.rs:226-262 | so does a command that ends before any text |
| `TitleCommands.LongNamePasses` | crates/ferrumtty-terminal/src/lib.rs:248-262 | at most 16 bytes of a name are withheld |
| `Title.CallsKeepInv` | crates/ferrumtty-terminal/src/lib.rs:181-393 | over any output, restoring and reapplying: buffered and stored titles never exceed 1,024 bytes, and the host shows the policy's rendering of the stored pair |
| `Title.StoredTitlesSurvive` | crates/ferrumtty-terminal/src/lib.rs:411-425 | sending the stored pair of any reachable filter to a new filter stores the same pair |
| `Title.HeaderPassesLimitIff` | crates/ferrumtty-terminal/src/lib.rs:226-262 | one byte takes a held header over its limit if and only if it is an escape after an escape after a header of exactly the limit |
| `Title.HeaderIsOverLimitIff` | crates/ferrumtty-terminal/src/lib.rs:226-262 | over any calls the header buffer is over its limit if and only if at some point the held bytes spelled a command of just that limit and at least two escapes and nothing else have come since |
| `Title.HeaderIsUnbounded` | crates/ferrumtty-terminal/src/lib.rs:226-262 | an opener and any number of escapes fill the buffer accordingly |
| `Title.TitleOutputFilter.ProcessByte` | crates/ferrumtty-terminal/src/lib.rs:201-359 | every transition of the automaton, in place |
| `Title.TitleOutputFilter.Process` | crates/ferrumtty-terminal/src/lib.rs:168-178 | the byte loop, for fragments split anywhere |
| `Title.TitleOutputFilter.EmitTitles` | crates/ferrumtty-terminal/src/lib.rs:373-393 | emits the shown pair unless the host already shows it |

## Left out

- AES/OCB3, Base64 keys and zeroization: foreign or opaque code; sealing is ideal.
- zlib compression, the generated protobuf code and the compressed outer message: taken as lossless; the walkers and the batch encoding are modelled.
- vt100 and vte: the terminal is an abstract fold; that a screen difference reproduces the screen is a stated hypothesis, not proved.
- Capabilities, diagnostics and counters: no hard property.
- RuntimeObject.SessionRuntime.ReceiveDatagram: capabilities and the action that reports them are left out, and what ingestion makes of the packet is its argument; `PacketSession.PacketRuntime.ReceiveDatagram` supplies that.
- `offer` (the UTF-8 parse before an offer) and the offered, displayed and reconciled metrics.
- Two-column characters, overwrite mode and background-colour erasing in the undo theorem: the local undo does not cover them; what overwriting shows is `Keystrokes.OverwritingShows`.
- Terminal guard, raw mode, key, mouse and paste encoding, escape interpreter, client, lab: terminal I/O and plumbing.
- HostEffects.HostHearsHistoryOnce: assumes that no update of the run advances by a screen difference, because such an advance replaces history by rendered bytes; against a server whose deltas are slices of one log within the limits this is proved never to happen.
- HostEffects.HostHearsServerLogOnce: a server that renders differences between screens instead of cutting one log is not covered, because its histories diverge; what its updates show is `ScreenDifferences.HostShowsScreenAcrossDifferences`.
- PacketSession.HostHearsServerLog: the same server; that its fragments under one number decode only to slices of its log is assumed where a number is used for several messages of more than one packet, because checksums are not modelled.
- HostRuns.SessionTellsHistoryOnce: the same assumption, and that a resize before the first update starts from an empty terminal, as the source does.
- TwoParty.OneRoundTripRecovers: assumes room below the 1,024-state cap and that the peer's own apply accepts the batch, because the receive rule may refuse for either reason.
- LossySession.ExchangeRecovers: the same.
- Predict.OverlayIsUndone: assumes blanks at the end of the line for the longest span, because cells pushed past the margin are gone, and that the captured context describes the line.
- InputQueue.InputArrivesOnce: assumes runs in which no poll loses input, whose exact condition is `InputQueue.PollLosesInputIff`, and no cancellation discards any.
- Timer.WaitIsHonoured: assumes clocks that ran forward, no peer shutdown due and no acknowledged local shutdown, where `Timer.TimerAgreesExactlyWhen` gives the exact condition at one moment.
- Arrival.UpdateArrivesWhenComplete: assumes that each packet under the number that gets through suits what is held or is refused by its header, because others mix contents; `Arrival.SealingArrivesIff` is exact about what may be held.
- Arrival.UpdateArrives: assumes that packets of other messages leave the progress under the number as it is, because a shared number has one reassembly; likewise `Arrival.UpdateArrivesOnce`.
- Arrival.SealingArrivesIff: for more than 128 packets the order has to stay inside the replay window, because the filter refuses packets that come later than that.
- ScreenDifferences.HostShowsScreenAcrossDifferences: assumes the law of screen differences, compactions whose snapshot rebuilds the screen, and one initial size where a missing part of a history is sent, because without them the host's screen differs; the exact condition of the last is `ScreenDifferences.SuffixReproducesIff`.
- ScreenRuns.SessionShowsScreen: the same, and that a resize before the first update brings an empty terminal.
- Reports.HostKnowsWhatHolds: assumes that no poll fails having just noticed silence, the exact condition of `Reports.StepTellsIff`.
- Echoes.HostKnowsEcho: assumes that no state without an echo acknowledgement is delivered after one with, the exact condition of `Echoes.StepTellsEchoIff`.
- Acknowledging.AdvanceIsAcknowledged: assumes that no poll in between gets as far as sending or draining, because that poll acknowledges, or fails and loses, in its place.
- TitleCommands.OtherCommandPasses: names of up to 16 bytes without escapes; longer ones pass by `Title.PassesThrough`.
- Outgoing timestamps: which stamp a datagram echoes is not part of an update here.
