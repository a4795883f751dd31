# Verification of the counter-UAS unit's state machines

A Dafny model of the parts of the system whose correctness depends on state, interleaving or exact
arithmetic, with machine-checked proofs about every input, every run or every reachable state.

`dafny verify dfyconfig.toml` checks the whole project.

## What is modelled

**Fusion's track store** (`services/fusion/track.go`). `Detections`, `TrackRecords` and `TrackIndex` describe
the store as a value: every track ever minted, the live set, two live indexes and two indexes of closed flights.
`TrackStores` is the store as the service builds it, `Track` objects updated in place and shared between five
maps; each method is proved to do to the abstract value exactly what its specification function does. On the
value side, `TrackSoundness` proves that every index entry leads to a track that owns the key, `TrackRuns` what
holds in every reachable state, `TrackLedger` that everything a track has measured is a function of the detections
folded into it, `TrackLifecycle` when a track is TENTATIVE, CONFIRMED, COASTING or CLOSED and where a detection goes, `TrackReadings`
which fixes, words and weights a track shows, `TrackReaping` what the timing of the reaper can change, `TrackFinding` how
long an identity leads to a track, and `OneFlight` that one aircraft in contact is one track; `TrackExamples` holds runs
from the empty store.

**The ZMTP publisher** (`services/sensor-sdr/src/zmtp.rs`). `ZmtpCodec` is the wire format with its encoders and
readers (formal grammar of ZMTP 3.0, ZeroMQ RFC 23); `ZmtpPub` is the socket as concurrent steps of senders, the
hub and one reader thread a subscriber, where a write may stop short; `ZmtpDelivery` proves who is sent a message, and
`ZmtpStream` which interleavings tear a subscriber's stream.

**The GraphQL cost check** (`services/api/internal/graphqlapi/handler.go`): `QueryCost` proves the
fragment-walking checks equal to the same checks on the document with every spread written out (section 5.5.2.2
of the GraphQL October 2021 specification is the rule the documents may break).

**Smaller protocols and algorithms**: the alert cooldown (`Cooldown`), the terrain cache (`TerrainCache`), the
channel hopper and its plan swaps (`ChannelHopper`), the SBS line reader (`SbsLines`), RFC 3339 timestamps
(`Calendar`), three ULID encoders (`Ulid`, with `Lexical` for text order), and geofencing (`Geofence`).

## What the proofs found

- A subscriber's stream can be torn. `Peer::deliver` lets go of the stream lock after a short write and before
  `kill` shuts the stream, and the reader thread does the same with a PONG; in either window the other thread can still
  write. `ZmtpStream.TornExactly`: a stream is torn exactly when a bus message was written in the reader thread's window,
  or a PONG in the hub's whose bytes are not, by chance, the missing ones. `ZmtpPub.TornByAPong` and
  `ZmtpStream.TornByAMessage` are such runs; a peer that sends no PING is never torn
  (`ZmtpStream.UntornWithoutPings`).
- `Dispatcher.release` can re-arm too early. Its comment says that no race is possible; one is, when a delivery
  outlasts its own cooldown and then fails. `Cooldown.LateReleaseAlertsTwice` is the run; by `Cooldown.ReleaseExact` a
  release is safe, whatever follows, exactly when no other claim of its key is still running. A stale clock reading
  does the same with every release clear (`Cooldown.StaleReadingAlertsTwice`).
- Whether a flight is rejoined can depend on the reaper. The comments in `Ingest` and above `flightIsOver` say that it
  does not. It does for a TENTATIVE flight, which a Reap forgets; for a detection whose MAC leads to another live track,
  which `resolve` prefers once the flight's serial is out of the live index; and for a detection that arrives late: a
  Reap whose clock is ahead of its stamp ends a flight, even a CONFIRMED one, that the stamp says was still on, and then
  only an airborne fix resumes it. `TrackReaping.RejoinsAfterReap` and `TrackReaping.RejoinsAlone` give the exact
  conditions for a flight the Reap ends, `TrackReaping.KeepsAfterReap` for one it does not;
  `TrackExamples.TentativeForgotten` and `TrackExamples.LateForgotten` are runs with and without the Reap.
- A live track can stop being findable. `Reap` deletes index entries by key, whoever they lead to by then, so ending a
  superseded flight takes its successor's (`TrackExamples.SuccessorReached`); `Ingest` does it too, by unindexing a
  superseded flight, reopening one, or rebinding the detection's MAC (`TrackExamples.HiddenByADetection`).
  `TrackFinding.FindableExactly` says for how long a key goes on leading to a track, over any run.
- A flight that is over can be given the serial of the next one. `resolve` promotes a track known by MAC alone before
  `Ingest` finds its flight over; `TrackLifecycle.DetectMoves` says which track, and that no other changes.
- The hopper drops an aircraft it is holding. A lock makes a widened receiver narrow, and the next pick gives the lock
  up if the split plan lacks its channel: `ChannelHopper.NarrowedUnderLock` is a run, `ChannelHopper.LockHeldExactly`
  the exact condition. The design says that a radio holding a contact should keep holding it.
- A plan whose weights do not sum to more than 0 is refused by `set_channels` only after the hopper's channel list
  has been replaced, so plan state and hopper disagree (`ChannelHopper.ReconcileExact`, `ChannelHopper.RefusedPlan`).
  Nothing catches the error on the way out of the capture loop, so the disagreement lasts no longer than that.
- A page size given as a float past the int64 range is converted before it is checked, and the conversion's result is up
  to the platform: `QueryCost.HugePageAccepted`, with `QueryCost.FloatLimitExact` for exactly when it matters.
- The three ULID encoders disagree before the epoch and past 2^48 ms: `Ulid.AgreeExactly` says where.
- The comment above `checkFanOut` calls spreads leaves; the code expands them, and the model follows the code.

## Model

| member | source | states |
|---|---|---|
| TrackSoundness.IngestKeepsSound | services/fusion/track.go:620-755 | one detection, whether it promotes, supersedes, resumes or starts a track, keeps every live index entry on a live track that owns the key and every closed one on a CLOSED, unlisted track with a take-off point; the track answered is live |
| TrackSoundness.ReapKeepsSound | services/fusion/track.go:760-801 | a Reap, for any map iteration order, keeps index soundness, leaves exactly the non-closed tracks seen within CloseAfter, and advances each live track once |
| TrackSoundness.AttributeKeeps | services/fusion/track.go:640-700 | attribution alone keeps the indexes sound and ends on a live track |
| TrackSoundness.ResolveKeeps | services/fusion/track.go:594-616 | identity lookup keeps the indexes sound up to the MAC it has just rebound, and finds only live tracks |
| TrackSoundness.ReapAllKeeps | services/fusion/track.go:765-787 | the first loop over any duplicate-free list of live tracks: sound, each listed track advanced once, the closed ones gone from the live set |
| TrackSoundness.FoundAgain | services/fusion/track.go:666-698 | whatever track a detection went to, known, resumed, promoted or new, its serial and MAC lead to that track right afterwards |
| TrackReaping.EntriesTaken | services/fusion/track.go:771-778 | a Reap takes a key out of a live index exactly when it ends a live track that carries the key, its owner or a superseded one; keys that stay lead where they led |
| TrackReaping.SuccessorHidden | services/fusion/track.go:489-502 | in any sound store, ending a superseded flight leaves a live successor not findable by their serial |
| TrackExamples.SuccessorReached | services/fusion/track.go:773-778 | a run from the empty store, two detections and a Reap, that ends with a live track neither its serial nor its MAC leads to |
| TrackExamples.HiddenByADetection | services/fusion/track.go:594-600 | a run of three detections and no Reap that ends with a live track nothing leads to |
| TrackFinding.IngestMoves | services/fusion/track.go:594-700 | a detection takes a live key away from where it leads exactly when the flight it supersedes or the one it reopens carries the key, or it is the detection's MAC and led elsewhere than to the flight the detection keeps to |
| TrackFinding.TickMoves | services/fusion/track.go:771-778 | a Reap does exactly when it ends a live track that carries the key |
| TrackFinding.FindableExactly | services/fusion/track.go:594-801 | over any run a track stays findable by a key exactly as long as no step takes the key away in one of those ways |
| TrackRuns.NextKeepsValid | services/fusion/track.go:620-801 | every detection and every tick keeps soundness, corroboration of everything shown or remembered, and LastSeen not beyond the largest clock ingested |
| TrackRuns.RunsStayValid | services/fusion/track.go:128-157 | in every reachable state, CONFIRMED, COASTING and remembered flights have a class outside C/D/H, enough detections and enough span, across COASTING and reopening |
| TrackRuns.NoPhantoms | services/fusion/track.go:633-643 | whatever future stamps detections carried, one Reap more than CloseAfter past the last clock empties the live maps, and past ResumeWithin the closed ones too |
| TrackRuns.RejoinsOnlyAirborne | services/fusion/track.go:502-528 | a flight that is over takes up a detection only within ResumeWithin and with a fix 200 m from or 40 m above its take-off point |
| TrackReaping.OverExactly | services/fusion/track.go:466-487 | a Reap changes whether a flight counts as over exactly when its clock is ahead of the detection and the flight's end falls between the two |
| TrackReaping.RejoinsAfterReap | services/fusion/track.go:651-669 | for a detection with any identities and any stamp that would be folded into a flight: after a Reap that ends the flight it still is, exactly when its MAC does not still lead to another live track that takes it, the flight is what its serial, else its MAC, is remembered by, and the detection resumes it |
| TrackReaping.RejoinsAfterEarlierReap | services/fusion/track.go:651-669 | the last condition holds by itself when the Reap's clock is not ahead of the stamp |
| TrackReaping.KeepsAfterReap | services/fusion/track.go:771-778 | after a Reap that does not end the flight, exactly when the detection's serial, else its MAC, still leads there |
| TrackReaping.RejoinsAlone | services/fusion/track.go:466-487 | with no other ended or remembered flight under those identities, exactly when the flight is not TENTATIVE, the detection resumes it, the Reap did not find it past ResumeWithin, and no other live track takes a MAC the flight lacks; for a serial, a MAC or both, and any stamp |
| TrackReaping.RejoinsAloneAfterEarlierReap | services/fusion/track.go:651-669 | when the Reap's clock is not ahead of the stamp, exactly when it is not TENTATIVE and no other live track takes such a MAC |
| TrackReaping.AttributeAfterReap | services/fusion/track.go:640-700 | where any detection goes after any Reap, from the store before it: the live track its keys still lead to, if that takes it, else the flight remembered under them, if it is resumed, else a new one |
| TrackExamples.TentativeForgotten | services/fusion/track.go:779-785 | runs from the empty store: the same two detections are one track without a Reap between them, two with one |
| TrackExamples.LateForgotten | services/fusion/track.go:474-481 | the same for two detections of equal stamp, the second arriving late and without a fix, whatever the lifecycle; the flight is CONFIRMED where one detection confirms |
| TrackReaping.AfterReap | services/fusion/track.go:771-799 | what the closed indexes hold after a Reap: under each serial and MAC the last flight it ended that was on the map with a take-off point, else the one already there, unless past ResumeWithin |
| TrackLifecycle.TickExactly | services/fusion/track.go:357-379 | right after any Reap of any run, a live track is COASTING exactly when it was on the map and CoastAfter < now - LastSeen <= CloseAfter; CONFIRMED exactly when it was heard within both and was on the map before, or was TENTATIVE and its list of detections confirms it: a class other than C, D and H, enough of them, over enough time; CLOSED and gone exactly when quiet for more than CloseAfter; tracks that are not live keep their state |
| TrackLifecycle.DetectExactly | services/fusion/track.go:620-755 | right after any detection of any run, the same of the track it went to, from the state that track was in: TENTATIVE if new, COASTING if a closed flight rejoined; LastSeen is the newest clamped stamp of its list |
| TrackLifecycle.GoesExactly | services/fusion/track.go:620-680 | over any run, where a detection goes: nowhere if it is class D or has neither serial nor MAC, and then nothing changes; else to the live track its serial, else its MAC, leads to, unless that flight is over and the aircraft is not within ResumeWithin and 200 m from or 40 m above its take-off point; else to the closed flight they lead to, if it is; else to a new track |
| TrackLifecycle.AttributedExactly | services/fusion/track.go:646-680 | the same of attribution alone, in any store whose entries lead to tracks |
| TrackLifecycle.DetectMoves | services/fusion/track.go:562-616 | what else a detection changes: the track it goes to is live, and its entries, alone, are out of the closed indexes; it bears its own serial or the detection's, and the detection's MAC; no other track changes but the one promoted by its MAC |
| TrackLifecycle.ReportedExactly | services/fusion/track.go:764-770 | a Reap reports a track exactly when it changed the track's state |
| TrackLedger.FoldLedger | services/fusion/track.go:708-752 | one more detection keeps counts, class and sensor tallies, peaks, confidence, trail, LastSeen and current position equal to what the list of detections amounts to |
| TrackLedger.RunsStayBooked | services/fusion/track.go:714-751 | over any run, closing and reopening included, DetectionCount is the sum of evidence counts, receiver counts leave out only unnamed sensors, peaks are the strongest readings, History is the last HistoryDepth points of the thinned path, and first and last times and the current position are those of the detections folded in |
| TrackLedger.RunsStayMade | services/fusion/track.go:701-752 | over any run all a track has measured, down to vendor, operator and each entry's kind and last time, is made from its list of detections alone |
| TrackLedger.PeakOverReceivers | services/fusion/track.go:332-355 | with every sensor named, a track's RSSI is the maximum of its receivers' peaks |
| TrackLedger.ThinApart | services/fusion/track.go:389-403 | neighbours of the uncapped trail are HistoryMinMoveM apart or HistoryMinInterval apart |
| TrackLedger.TrailApart | services/fusion/track.go:389-408 | the same of the trail shown, which is never over the cap |
| TrackReadings.TrailOverRuns | services/fusion/track.go:389-408 | over any run a trail is its detections' fixes, in order; from its oldest point on, a fix is missing exactly when it is within HistoryMinMoveM and HistoryMinInterval of the point kept before it; the oldest is the first fix of all unless the trail is at HistoryDepth |
| TrackReadings.WordsOverRuns | services/fusion/track.go:701-706 | over any run the vendor is the first detection's, operator ID, type and operator are those of the last detection that gave them, each class has its first detection's sensor kind, its last one's time and its configured weight, and each receiver its first kind and newest time |
| TrackReadings.ConfidenceExactly | services/fusion/track.go:305-311 | over any run confidence is, to three decimals, 1 less the product of 1 less the weights of the distinct classes detected, in any order |
| TrackLedger.ConfidenceNeverFalls | services/fusion/track.go:305-321 | with weights in [0, 1], no detection lowers the rounded noisy-OR, which stays in [0, 1] |
| TrackLedger.ConfidenceOverRuns | services/fusion/track.go:305-311 | over any run a track's confidence never falls and stays in [0, 1], across closing and reopening |
| TrackRecords.MissesAnyOrder | services/fusion/track.go:307-309 | the product behind confidence does not depend on the order of the evidence map |
| OneFlight.NextFlying | services/fusion/track.go:594-616 | a step of a run keeps all of one aircraft's detections on one track while other aircraft and ticks interleave |
| OneFlight.OneFlightIsOneTrack | services/fusion/track.go:620-716 | detections sharing a MAC, serials missing, late or differing, in contact throughout, are folded into exactly one track that counts each once |
| TrackStores.Track.RecomputeConfidence | services/fusion/track.go:305-311 | the loop, in any map order, computes the noisy-OR |
| TrackStores.Track.AddEvidence | services/fusion/track.go:313-321 | counts the class, creating it once, and refreshes confidence |
| TrackStores.Track.NoteReceiver | services/fusion/track.go:332-355 | one receiver's count, peak and newest time, and no other receiver's |
| TrackStores.Track.UpdateState | services/fusion/track.go:357-379 | advances the object's state as the specification function does, which TrackLifecycle.TickExactly and DetectExactly determine, and changes nothing else |
| TrackStores.Track.AddPosition | services/fusion/track.go:389-408 | sets the current position; extends, leaves or trims the trail |
| TrackStores.TrackStore.Resolve | services/fusion/track.go:594-616 | the objects and maps afterwards are the abstract lookup's, promotion and rebinding included |
| TrackStores.TrackStore.Unindex | services/fusion/track.go:495-502 | drops a track's live index entries and nothing else |
| TrackStores.TrackStore.ResolveClosed | services/fusion/track.go:532-544 | the closed flight a serial, else a MAC, leads to |
| TrackStores.TrackStore.Remember | services/fusion/track.go:550-560 | a closed flight becomes findable by every key it owns, if it has a take-off point |
| TrackStores.TrackStore.Forget | services/fusion/track.go:562-571 | removes the closed entries that lead to this flight, not another's |
| TrackStores.TrackStore.Reopen | services/fusion/track.go:578-588 | a closed flight is live and COASTING again under all its keys |
| TrackStores.TrackStore.Ingest | services/fusion/track.go:620-755 | the whole of Ingest on shared mutable objects has the abstract effect and keeps the store valid |
| TrackStores.TrackStore.ReapAll | services/fusion/track.go:764-787 | the loop over the live map while deleting from it is the abstract pass in the order the map yielded, and reports exactly the tracks whose state changed |
| TrackStores.TrackStore.ExpireAll | services/fusion/track.go:788-799 | the two closing loops drop exactly the entries of flights past ResumeWithin |
| TrackStores.TrackStore.Reap | services/fusion/track.go:760-801 | the whole of Reap on shared mutable objects, with the list it returns |
| ZmtpCodec.MessageRoundTrip | services/sensor-sdr/src/zmtp.rs:511-593 | a multipart message read off a stream is the one written and the rest is left alone, exactly within the reader's frame-size and frame-count caps, and is refused beyond them |
| ZmtpCodec.FrameLayout | services/sensor-sdr/src/zmtp.rs:511-521 | a frame is a flags byte with MORE 1, LONG 2 and COMMAND 4, the length in one byte up to 255 and in eight big-endian ones beyond, and the body |
| ZmtpCodec.StreamRoundTrip | services/sensor-sdr/src/zmtp.rs:556-593 | two messages back to back are read as those two |
| ZmtpCodec.CutShort | services/sensor-sdr/src/zmtp.rs:550-593 | a message cut anywhere makes the reader wait, never misread |
| ZmtpCodec.CommandRoundTrip | services/sensor-sdr/src/zmtp.rs:523-529 | splitting undoes encoding a command exactly when one byte holds the name's length |
| ZmtpCodec.SplitRejoins | services/sensor-sdr/src/zmtp.rs:628-634 | any body can be split exactly when it holds a length byte and that much after it, and the parts are the body again |
| ZmtpCodec.PropertiesRoundTrip | services/sensor-sdr/src/zmtp.rs:636-657 | looking a key up in encoded metadata finds the first property of the list whose key, capitals made small, is the one wanted; a property cut short at the end counts for nothing |
| ZmtpCodec.PropertyLayout | services/sensor-sdr/src/zmtp.rs:531-536 | a property is its key after one length byte and its value after four big-endian ones |
| ZmtpCodec.Buffer.EncodeFrame | services/sensor-sdr/src/zmtp.rs:511-521 | appends one frame, long form above 255 bytes |
| ZmtpCodec.Buffer.EncodeCommand | services/sensor-sdr/src/zmtp.rs:523-529 | appends one command frame |
| ZmtpCodec.Source.ReadFrameBody | services/sensor-sdr/src/zmtp.rs:574-593 | reads what the grammar says, or reports too few bytes or a refused size |
| ZmtpCodec.Source.ReadMessage | services/sensor-sdr/src/zmtp.rs:556-572 | the reading loop ends on any bytes and reads what the grammar says |
| ZmtpCodec.FindProperty | services/sensor-sdr/src/zmtp.rs:639-657 | the lookup loop ends on any bytes, truncated ones included, with the reference answer |
| ZmtpPub.NextValid | services/sensor-sdr/src/zmtp.rs:117-208 | every step keeps the queue's books and each peer's list of items ordered, unrepeated and subscribed to |
| ZmtpPub.RunsStayValid | services/sensor-sdr/src/zmtp.rs:117-145 | under any interleaving accepted + dropped = sends once counted, dequeued + queued = accepted, the queue holds at most max(hwm, 1), and peers get accepted messages in order, once, each matching a prefix subscribed at the time |
| ZmtpDelivery.MatchExactly | services/sensor-sdr/src/zmtp.rs:177-185 | the hub goes on to write to the peer it has come to exactly when one of the peer's subscriptions is a beginning of the topic; the empty one always is |
| ZmtpDelivery.TurnExactly | services/sensor-sdr/src/zmtp.rs:289-307 | over any run, from taking a message to waiting again, the hub comes once to each peer that was alive at the start and to no other, writes to it once if it then holds a subscription that begins the topic and not otherwise, and leaves it one copy of the message if that write got anything out, none if not |
| ZmtpDelivery.DeliveredExactly | services/sensor-sdr/src/zmtp.rs:289-307 | so a peer has the message after the turn exactly when such a write got something out, and never twice |
| ZmtpDelivery.HeldExactly | services/sensor-sdr/src/zmtp.rs:447-463 | over any run a peer holds exactly the topics it has asked for and not cancelled since |
| ZmtpDelivery.SendExactly | services/sensor-sdr/src/zmtp.rs:117-145 | a message is taken exactly when fewer wait than the high-water mark, or than one, and the hub takes the one that has waited longest |
| ZmtpDelivery.EndsExactly | services/sensor-sdr/src/zmtp.rs:164-176 | over any run a peer's reader reads until the peer hangs up or a PONG stops short, the peer is alive until the hub or its reader kills it, and its stream open until one of them shuts it |
| ZmtpDelivery.RunsShutOnce | services/sensor-sdr/src/zmtp.rs:169-176 | over any run, whichever threads kill a peer and however often, exactly one shuts its stream |
| ZmtpDelivery.NeverStuck | services/sensor-sdr/src/zmtp.rs:164-208 | the hub can always take its next step, and waits again after at most four a peer; a reader on its way to kill its peer can |
| ZmtpStream.TornExactly | services/sensor-sdr/src/zmtp.rs:187-208 | over any run a peer's bytes stop being a beginning of whole messages and PONGs exactly when a bus message was written in its reader thread's kill window, or a PONG in the hub's that does not coincide with the missing bytes |
| ZmtpStream.RunsStayWatched | services/sensor-sdr/src/zmtp.rs:164-175 | bytes are missing only in one of the two kill windows, or once the peer is dead, no longer a target and not written to by its reader |
| ZmtpStream.UntornWithoutPings | services/sensor-sdr/src/zmtp.rs:424-469 | a peer that sends no PING is never sent a torn stream, however writes fail |
| ZmtpStream.TornByAMessage | services/sensor-sdr/src/zmtp.rs:435-446 | a run of the code that tears the stream with a bus message after a PONG cut short |
| ZmtpStream.DecodesUntilTorn | services/sensor-sdr/src/zmtp.rs:289-307 | until such a step, what has reached a peer decodes to exactly the items that arrived whole, in order, and to all it was sent when no bytes are missing |
| ZmtpPub.PongAfterShortWrite | services/sensor-sdr/src/zmtp.rs:435-446 | a PONG of which n bytes get out after a short write fits exactly when the missing bytes begin with those, or are the two that a PONG's third byte repeats the first of |
| ZmtpPub.MessageAfterShortPong | services/sensor-sdr/src/zmtp.rs:194-207 | a bus message after a PONG cut short never fits |
| ZmtpPub.TornByAPong | services/sensor-sdr/src/zmtp.rs:198-207 | a run of the code that tears the stream |
| ZmtpPub.SubscriberDecodes | services/sensor-sdr/src/zmtp.rs:289-307 | what has reached an untorn peer decodes to exactly the items that arrived whole, in order, and to all of them when no bytes are missing |
| ZmtpPub.MessageIs | services/sensor-sdr/src/zmtp.rs:187-192 | a bus message on the wire is the topic frame with MORE and the body frame without |
| ZmtpPub.RequestExactly | services/sensor-sdr/src/zmtp.rs:424-465 | of all messages the reader acts on a lone command frame that begins with PING, and on a lone message frame that begins with 1 or 0, whose rest is the topic |
| ZmtpPub.SubscriptionRead | services/sensor-sdr/src/zmtp.rs:447-463 | a subscription frame on the wire is read as that subscription, with nothing swallowed after it |
| ZmtpPub.SubscriptionsExact | services/sensor-sdr/src/zmtp.rs:456-462 | subscribing and cancelling touch the one topic, however often it was added |
| ZmtpPub.SubscriptionList.Apply | services/sensor-sdr/src/zmtp.rs:451-463 | the in-place edit of the subscription list, order kept |
| QueryCost.CountExpands | services/api/internal/graphqlapi/handler.go:197-215 | on acyclic spreads the count equals that of the document written out |
| QueryCost.DepthExpands | services/api/internal/graphqlapi/handler.go:358-388 | so does the depth |
| QueryCost.HasExpands | services/api/internal/graphqlapi/handler.go:286-313 | so does the search for a field below |
| QueryCost.FanOutExpands | services/api/internal/graphqlapi/handler.go:247-284 | so does the first over-large page found |
| QueryCost.CheckedExactly | services/api/internal/graphqlapi/handler.go:145-192 | a document is accepted exactly when every operation written out has at most 24 top-level fields, depth at most 8, and no tracks field with detections anywhere below it whose first limit argument asks for more than 100 |
| QueryCost.OperationExact | services/api/internal/graphqlapi/handler.go:168-192 | an operation is refused for its width if it has over 24 fields, else for its depth if over 8, else for the first over-large page in document order, with that page's size |
| QueryCost.PageChecked | services/api/internal/graphqlapi/handler.go:318-349 | tracks with detections, any arguments around the first limit: refused with n exactly when the limit asks for n over 100; a limit that asks for nothing usable passes |
| QueryCost.PageSizes | services/api/internal/graphqlapi/handler.go:318-349 | so a literal is refused exactly between 100 and 2^63, a variable exactly when it holds an int, or a positive float converted, over 100; no limit passes, and a second one is not read |
| QueryCost.FragmentsExactly | services/api/internal/graphqlapi/handler.go:166-171 | a name is that of a fragment exactly when some definition has it, and means the last that does |
| QueryCost.CountSelections | services/api/internal/graphqlapi/handler.go:197-215 | terminates on every document, cyclic ones included, and leaves the shared path as it found it |
| QueryCost.MeasureDepth | services/api/internal/graphqlapi/handler.go:358-388 | the same of the depth walker |
| QueryCost.FindInSubtree | services/api/internal/graphqlapi/handler.go:286-313 | the same of the subtree search, early exit included |
| QueryCost.CheckFanOut | services/api/internal/graphqlapi/handler.go:247-284 | the same of the fan-out walker |
| QueryCost.LimitArgument | services/api/internal/graphqlapi/handler.go:318-349 | the loop finds the first limit argument and its usable value, else the default; what a float converts to is an input |
| QueryCost.FloatLimitExact | services/api/internal/graphqlapi/handler.go:336-341 | a page size given as a float is checked for what it asks exactly when it is below 2^63, or converts to something over the budget too |
| QueryCost.HugePageAccepted | services/api/internal/graphqlapi/handler.go:336-341 | a page of 10^19 tracks that passes |
| QueryCost.Check | services/api/internal/graphqlapi/handler.go:145-192 | the whole check, first failing operation first |
| Cooldown.DeliveriesSpaced | services/api/internal/hooks/dispatcher.go:303-339 | in any interleaving with an advancing clock and releases only when clear, two deliveries for one (rule, subject) were claimed at least the first's cooldown apart |
| Cooldown.LetThroughExactly | services/api/internal/hooks/dispatcher.go:303-326 | in the same runs a claim is let through, until its reading plus the cooldown, exactly when no claim of its key that was not given back ends after the reading |
| Cooldown.PromptIsClear | services/api/internal/hooks/dispatcher.go:332-339 | a delivery that fails before its own cooldown ends releases a clear slot |
| Cooldown.ReleaseExact | services/api/internal/hooks/dispatcher.go:332-339 | a release is safe, in that deliveries stay apart whatever the workers do next, exactly when no other claim of its key is still running |
| Cooldown.SweepExact | services/api/internal/hooks/dispatcher.go:315-324 | the sweep changes an answer exactly for a clock reading before the end of a slot that the sweeper's reading is past; never for a later one |
| Cooldown.LateReleaseAlertsTwice | services/api/internal/hooks/dispatcher.go:401-411 | a run of the code that alerts twice within a cooldown, after a release that is not clear |
| Cooldown.StaleReadingAlertsTwice | services/api/internal/hooks/dispatcher.go:304-313 | another, with every release clear, because the clock is read before the lock is taken |
| Cooldown.KeysApart | services/api/internal/hooks/dispatcher.go:328-330 | rule IDs free of NUL keep every (rule, subject) apart |
| Cooldown.QueueAccounted | services/api/internal/hooks/dispatcher.go:218-251 | every fired event is dropped and counted, queued, or handled in order |
| Cooldown.Dispatcher.Suppressed | services/api/internal/hooks/dispatcher.go:303-326 | answers and claims as specified, the sweep loop included |
| TerrainCache.RunsStayGood | services/fusion/terrain.go:185-238 | under any interleaving a cell is pending exactly when one request for it is under way, and the cache is the newest CacheSize insertions in order |
| TerrainCache.HitsWereFetched | services/fusion/terrain.go:159-173 | every hit is a value fetched for that very cell plus the geoid offset; keys and order agree and fit the cap |
| TerrainCache.HitsExactly | services/fusion/terrain.go:159-173 | over any run a lookup hits exactly when the cell is among the CacheSize newest insertions, and answers that elevation plus the offset |
| TerrainCache.StoreExactly | services/fusion/terrain.go:212-227 | a fetch that succeeds leaves its cell cached, with the value fetched unless one was there, and no longer pending |
| TerrainCache.MissScheduled | services/fusion/terrain.go:185-192 | a miss leaves one request under way for its cell and changes nothing for others |
| TerrainCache.RequestsExactly | services/fusion/terrain.go:194-204 | over any run the cells taken up and waiting are those queued while fewer than 256 waited, in that order |
| TerrainCache.NextOneEach | services/fusion/terrain.go:185-204 | every step, the full queue's included, keeps one request for each pending cell |
| TerrainCache.Resolver.StoreFetched | services/fusion/terrain.go:212-227 | the eviction loop leaves what the reference says |
| TerrainCache.Resolver.MarkMissed | services/fusion/terrain.go:185-192 | marks a cell once |
| ChannelHopper.PickExact | services/sensor-wifi/classg_wifi/hopper.py:248-255 | a draw picks the channel whose cumulative interval it lies in, and the interval is as long as the channel's share |
| ChannelHopper.SweepExact | services/sensor-wifi/classg_wifi/hopper.py:219-231 | so does the draw of a scan slot, over the pool without the locked channel |
| ChannelHopper.ScansCounted | services/sensor-wifi/classg_wifi/hopper.py:201-210 | while the lock is held, scan slots among any number of picks are counted out exactly, one every N, whatever renewals and swaps come between |
| ChannelHopper.OneScanAWindow | services/sensor-wifi/classg_wifi/hopper.py:233-246 | any window of N >= 2 picks under the lock has exactly one scan slot |
| ChannelHopper.DwellLands | services/sensor-wifi/classg_wifi/hopper.py:233-246 | a locked dwell is on the locked channel, a scan slot on another one whenever the plan has one, and a lock on a channel the plan lacks is dropped |
| ChannelHopper.FreeDwell | services/sensor-wifi/classg_wifi/hopper.py:248-255 | without a lock that still runs, a dwell is on the channel in whose interval of the running totals over the total the draw lies, and there is one |
| ChannelHopper.DroppedDwell | services/sensor-wifi/classg_wifi/hopper.py:241-255 | so is the dwell that drops a lock on a channel the plan lacks |
| ChannelHopper.LockedDwell | services/sensor-wifi/classg_wifi/hopper.py:241-245 | under a lock on a channel of the plan, a dwell that is no scan slot is on the plan's first entry for it |
| ChannelHopper.ScanDwell | services/sensor-wifi/classg_wifi/hopper.py:212-240 | a scan slot is drawn in the same way from the plan without the locked channel; it is the first of the others when they weigh nothing, the plan's first when there is no other |
| ChannelHopper.HitIsHeld | services/sensor-wifi/classg_wifi/hopper.py:178-188 | after a hit the lock runs at exactly the times before now + hold, dwells then are on the channel unless they are scan slots, and only a lock that had lapsed counts as a new escalation |
| ChannelHopper.RunsStayInStep | services/sensor-wifi/classg_wifi/capture.py:381-410 | over any run the plan loaded is solo exactly when widened is set, and the weights are that plan's |
| ChannelHopper.ReconcileExact | services/sensor-wifi/classg_wifi/hopper.py:165-168 | one reconciliation keeps them together exactly unless it swaps to a plan whose weights do not sum to more than 0 |
| ChannelHopper.SwapsCounted | services/sensor-wifi/classg_wifi/capture.py:381-410 | over any run the swaps are the reconciliations that found a solo plan and no fallback, the plan to be on (solo for a busy peer while no own lock runs) not loaded, min_hold_s gone since the last swap, and weight in that plan |
| ChannelHopper.RefusedPlan | services/sensor-wifi/classg_wifi/hopper.py:165-168 | such a plan, and the state it leaves |
| ChannelHopper.WidenedWhileFree | services/sensor-wifi/classg_wifi/capture.py:393-401 | over any run, a receiver found widened was widened by a reconciliation that saw a busy peer and no lock of its own, and has stayed widened since |
| ChannelHopper.LockHeldExactly | services/sensor-wifi/classg_wifi/hopper.py:233-246 | over any run, an unexpired lock is held exactly when no pick but a scan slot came while the plan then loaded lacked the channel |
| ChannelHopper.ReconcileUnderLock | services/sensor-wifi/classg_wifi/capture.py:393-403 | under the lock a reconciliation takes the locked channel out of the plan exactly when a narrowing is due and the split plan lacks it |
| ChannelHopper.HeldByBoth | services/sensor-wifi/classg_wifi/capture.py:349-351 | a lock on a channel of both plans is held until it runs out, whatever the peer does |
| ChannelHopper.NarrowedUnderLock | services/sensor-wifi/classg_wifi/capture.py:349-351 | a run of the code that narrows under its own lock and drops it with 20 seconds to go |
| ChannelHopper.SwapsRateLimited | services/sensor-wifi/classg_wifi/capture.py:396-403 | over any run, swaps number at most 1 + elapsed / min_hold_s |
| ChannelHopper.Hopper.RebuildWeights | services/sensor-wifi/classg_wifi/hopper.py:138-146 | the running sum gives every channel its upper bound, or refuses and keeps the old bounds |
| ChannelHopper.Hopper.PickExcluding | services/sensor-wifi/classg_wifi/hopper.py:212-231 | the filter and the accumulating loop pick as specified |
| ChannelHopper.Hopper.NextChannel | services/sensor-wifi/classg_wifi/hopper.py:233-255 | the whole choice of the next dwell on the hopper's fields |
| ChannelHopper.Hopper.OnDroneDetected | services/sensor-wifi/classg_wifi/hopper.py:178-188 | locks or renews; only a new escalation restarts the count |
| ChannelHopper.PlanState.Reconcile | services/sensor-wifi/classg_wifi/capture.py:381-410 | the effect on plan state and hopper together, refusal included |
| SbsLines.CutUnique | services/sensor-sdr/src/adsb.rs:239-264 | the lines cut out of a stream are the one way to read it as newline-free segments each ended by a newline, and a rest |
| SbsLines.Stats.Pump | services/sensor-sdr/src/adsb.rs:203-266 | for any chunks and timeouts, the lines handled are those of the bytes delivered, in order, carriage returns dropped, ones over 64 KiB given up on |
| SbsLines.DeliveredExactly | services/sensor-sdr/src/adsb.rs:216-238 | the stream is read past every retry to the first empty read or failure, and is the bytes until then |
| SbsLines.ReturnsDropped | services/sensor-sdr/src/adsb.rs:252-254 | carriage returns go and every other byte stays in its place |
| SbsLines.Stats.TakeChunk | services/sensor-sdr/src/adsb.rs:239-264 | the byte loop: the buffer never exceeds 64 KiB and holds the unfinished line, or only that it is too long |
| SbsLines.Stats.HandleLine | services/sensor-sdr/src/adsb.rs:268-323 | read = parsed + unparsed, dropped = the detections the bus refused, and the ICAO set is all addresses seen or, saturated, 4096 of more than that |
| SbsLines.RefusedExactly | services/sensor-sdr/src/adsb.rs:268-323 | dropped counts the detections the bus does not accept |
| SbsLines.DetectionsExactly | services/sensor-sdr/src/adsb.rs:268-323 | each line the parser takes becomes one detection, in order, and nothing else does |
| Calendar.CivilIsProper | services/sensor-sdr/src/clock.rs:45-56 | every day count gives a proper date whose day count it is |
| Calendar.CivilBack | services/sensor-sdr/src/clock.rs:45-56 | every proper date comes back from its day count |
| Calendar.CivilIsTheCalendar | services/sensor-sdr/src/clock.rs:45-56 | day 0 is 1 January 1970 and each day is followed by the Gregorian calendar's next day |
| Calendar.DatesAdvance | services/sensor-sdr/src/clock.rs:45-56 | later days have later dates |
| Calendar.FourDigitYears | services/sensor-sdr/src/clock.rs:28-43 | the instants whose year has four digits, as a range of milliseconds |
| Calendar.TimestampsSort | services/sensor-sdr/src/clock.rs:28-43 | in the years 0 to 9999 timestamps sort as text exactly as the instants do, and no two instants share one |
| Calendar.TimestampReads | services/sensor-sdr/src/clock.rs:28-43 | in those years a timestamp has the form yyyy-mm-ddThh:mm:ss.mmmZ, of a proper date and a time of day, and what it says is the instant |
| Calendar.PadReads | services/sensor-sdr/src/clock.rs:42 | a padded number reads as itself, behind a minus if negative, and is wider than asked only without a zero in front |
| Ulid.GoTimestamp | services/fusion/id.go:17-46 | the peel loop writes the ten base-32 digits of the 64-bit timestamp |
| Ulid.GoEntropy | services/fusion/id.go:17-46 | the accumulator that wraps at 64 bits writes the 16 digits of the 80 bits and ends with no bits left |
| Ulid.Emit | services/fusion/id.go:17-46 | the inner loop: each digit emitted is the next one, although high bits of the accumulator are lost |
| Ulid.RustMint | services/sensor-sdr/src/ulid.rs:48-64 | the shift-indexed form writes the same digits of the clamped and masked time |
| Ulid.PythonUlid | services/sensor-wifi/classg_wifi/detection.py:38-60 | the single big integer, peeled and reversed |
| Ulid.EncodersAgree | services/sensor-wifi/classg_wifi/detection.py:52-60 | from the epoch until 2^48 ms, the three give the same 26 characters for the same 80 bits |
| Ulid.AgreeExactly | services/sensor-sdr/src/ulid.rs:48-64 | on every integer time: Go's digits equal Python's exactly from the epoch on, or before it at multiples of 2^50; Rust's equal Python's exactly before the epoch, or when the low 50 bits fit in 48 |
| Ulid.GoUlid | services/fusion/id.go:17-46 | the whole generator fills its 26-byte buffer with the time's and the entropy's digits, zeros when no entropy could be read |
| Ulid.TimestampsAgreeExactly | services/sensor-sdr/src/ulid.rs:48-64 | two timestamps give the same ten characters exactly when they agree to 50 bits |
| Ulid.DecodesBack | services/fusion/id.go:17-46 | decoding inverts encoding, up to the bits the digits hold |
| Ulid.UlidDecodes | services/fusion/id.go:17-46 | an identifier gives back its time and its entropy |
| Ulid.UlidsSortByTime | services/sensor-sdr/src/ulid.rs:48-64 | identifiers sort by time whatever their entropy |
| Geofence.Contains | services/api/internal/geofence/geofence.go:69-84 | the toggling loop computes the parity of the edges crossed |
| Geofence.RotationInvariant | services/api/internal/geofence/geofence.go:69-84 | the answer does not depend on the first vertex |
| Geofence.ReversalInvariant | services/api/internal/geofence/geofence.go:69-84 | nor on the direction |
| Geofence.CutAlongChord | services/api/internal/geofence/geofence.go:69-84 | cut along the chord between any two vertices, the inside is what is in exactly one part |
| Geofence.OutsideTheBox | services/api/internal/geofence/geofence.go:69-84 | a point beyond any side of the bounding box is outside |
| Geofence.CrossesBySide | services/api/internal/geofence/geofence.go:73-82 | for every point, its vertices and edges included, an edge is crossed exactly when it climbs past the point's latitude with the point strictly on one side, or comes down with it strictly on the other |
| Geofence.TriangleExactly | services/api/internal/geofence/geofence.go:69-84 | a point on none of a triangle's edge lines is inside exactly when the three cross products over its edges have one sign |
| Geofence.InsideExactly | services/api/internal/geofence/geofence.go:69-84 | off the lines of its edges and of the chords from the first vertex, a point is inside any polygon exactly when it is inside an odd number of the triangles those make |

## Left out

- Index completeness of the track store over whole runs ("every live track is findable") does not hold of the code; `FoundAgain` and `FindableExactly` say how far it does. Nor does "no CLOSED track is listed" between Reaps.
- Horizontal distance is an abstract function (non-negative where the trail theorems need it); confidence, weights, coordinates and hopper weights are exact reals, so rounding is not modelled.
- Times are integers counted from Go's zero time; saturation of time differences is not modelled.
- The ID generator's freshness is an assumption: an ID that is already in use is not minted.
- The terrain answer is an input to Ingest; correlation with ADS-B contacts, JSON encoding and locking of the store are not part of this model.
- The concurrent protocols (ZMTP peers and queue, cooldown workers, terrain requests) are values stepped one locked section at a time; threads and memory ordering are not modelled below that grain.
- The store's mutex makes its calls one step each; the run theorems are about sequences of calls.
- Handshake, greeting, dialling, accepting and endpoint parsing of the ZMTP socket; the hub never exits, so a send to a closed channel does not occur.
- Property keys are compared byte by byte with ASCII folding and values returned as bytes: lossy UTF-8 decoding is not modelled.
- Removal of dead peers from the registry is modelled as leaving them out of the hub's snapshot.
- Cyclic GraphQL documents: termination and the restored path are proved; their verdict is only the specification function's.
- Parsing of GraphQL, SBS records, YAML and JSON: what the parser makes of a line or a document is an input.
- Cooldown.DeliveriesSpaced: holds for runs with clear releases and a clock that advances between lock takings, because without them the code does alert twice.
- ChannelHopper.Run: goes on past a refused plan, where the source's error ends the capture loop; the theorems about plans are about plans that are accepted.
- Rule and boundary caches, delivery records, retry timing, draining and shutdown of the dispatcher.
- Terrain: rounding a coordinate to a cell, the HTTP fetch, cancellation and the counters.
- ChannelHopper.Hopper.constructor: a plan the source refuses with an exception is excluded by its precondition.
- Hopper statistics other than scan slots and escalations; dwell lengths and the efficiency report.
- The generators behind ULID entropy are inputs; so are the clock readings.
- Ulid.RustMint: takes the 80 random bits as one number, because the generator's two draws are not modelled.
- The SBS reader's heartbeats, reconnecting and the time of the last message.
- Validation of boundaries. Geofence.InsideExactly says nothing of points on the lines it names; what the ray does there is only Geofence.CrossesBySide.
- ADS-B contact expiry and correlation, health counting, capture busy flags, sweep planning, spectrum analysis, authentication, delivery channels and the UI.
