# Green Power Device: model and proofs

This project models the Zigbee Green Power Device stack of this repository: its frame codec, its CCM security, its
persistent frame counter and its commissioning state machine. It also models a few fixed-point, ring-buffer, bit and
MPU kernels of the CMSIS headers that the repository carries.

## How the model is built

- `Stack.dfy` is the device in its own form: a class `Node` with the fields of `EmberGpd_t`, the static buffers and
  nonces, and one method per C function. Each method's contract gives the new state as a function, from `Gpd.dfy`, of
  the old one. `Nwk.dfy` and `MbedCcm.dfy` do the same for the byte-level builder and parser and for the CCM loop.
- `Gpd.dfy`, `Frames.dfy` and `Ccm.dfy` are the specification on values. CCM is taken from sections 2.2 to 2.5 of
  RFC 3610 over an arbitrary block function, so that opening undoes sealing is proved and not taken for granted;
  `CcmFormat.dfy` checks that definition byte by byte against the numbering of the RFC. `Sink.dfy` and `Parsing.dfy`
  do the same for frames and commands: what is built is read back by its own bits, and what is received is judged by
  its raw bytes, without the functions that the builder and the parser are tied to.
- A device carries its history: saves, wraps, built and sent frames, windows, configurations, replies, power-ups
  and decommissionings. A run (`Runs.dfy`) is a sequence of operations, each completed or cut short by a power loss
  after any number of its effects; a power loss restarts the device on what flash held then, with any frames in the
  air afterwards. A receive window is an arbitrary sequence of well-formed frames.
- The state switch of the main loop is the one in `GPD/plugin/rtos-support/src/soc/rtos_gpd.c`.
- The theorems are in `Counters.dfy`, `CounterTheorems.dfy`, `Counting.dfy`, `Nonces.dfy`, `KeySync.dfy`,
  `Session.dfy`, `Reboots.dfy`, `Commissioning.dfy`, `ChannelRequests.dfy`, `Retries.dfy`, `ReceiveWindows.dfy`,
  `Sink.dfy`, `Parsing.dfy`, `Delivery.dfy`, `Payloads.dfy`, `Reflection.dfy`, `Persistence.dfy` and `Task.dfy`;
  the CMSIS kernels are in `Interpolation.dfy`, `BitOps.dfy`, `MpuLoad.dfy` and `RingBuffer.dfy`.

## Where the code is weaker than one would expect

The model follows the code; each point is a lemma in the table below.

- The decryption status is not used. At level 3 a wrong tag still comes to nothing, because mbedTLS zeroes its output;
  at level 2 it is not checked (its range also starts at byte 7 rather than 8). So a frame with a wrong tag changes
  nothing exactly if it is at level 3, has no payload, or carries no command that the device obeys.
- The handler takes no notice of a payload's length. A command shorter than what it reads goes on into the tag, the
  check sequence and stale bytes of the receive buffer: a lone Channel Configuration byte takes its channel from the
  tag, and a reply that ends behind its options can install stale bytes as the key.
- The frame counter wraps at 2^32 without notice, and nonces repeat from there on.
- The send command is obeyed in every state, so it can put a device into operation with the link key loaded, and a
  reply that fails to unwrap after commissioning, or in a toggle's own window, does the same.
- Decommissioning changes the key in the record but loads none.
- A Channel Configuration that arrives in the last window of the rx-channel phase is overwritten, and one that a
  Commissioning Reply follows in the same window is undone.
- The request count is never reset but by a reboot: the reset after a reply stands where no reply ever leads. So one
  boot sends at most four Commissioning Requests in all, those of successful commissionings included, and gives up at
  once from then on.
- A power loss between a Success frame and the store at the end of its pass sends the frame again after power-up.
- The loop of the write kernels warns of negative increments but checks only the upper end of the ring.
- Interpolation takes 0xFFFFF for one, so positive table values lose one step, and the value below x = 0 does not.
- q31 interpolation cuts its two products separately, so it can fall by up to 2 where the table is flat or rises; it
  does not where the exact sums are 2^32 apart, nor anywhere from 0 on for a table whose neighbours are
  2^32 / 2047 apart or more.

## Model

| member | source | states |
|---|---|---|
| `CounterTheorems.EveryRunCounts` | GPD/components/gpd-send-receive.c:76-113 | Over every run from a fresh chip, of commands, passes of `GpdTask`, application sends, decommissionings and restarts, with anything received and power lost between any two effects: the flash counter never falls exactly if no counter save wrote 0; and then built frames carry strictly increasing counters and flash is never below a transmitted one |
| `CounterTheorems.NeverFallsIffNoRollover` | GPD/components/gpd-send-receive.c:77-78 | The 32-bit rollover is the only way the flash counter can fall |
| `CounterTheorems.RolloverFalls` | GPD/components/gpd-send-receive.c:77 | At counter 2^32 - 1 the next send does roll over: it saves 0, below the counter before |
| `CounterTheorems.RebootKeepsCounter` | GPD/components/gpd-nv.c:91-103 | After every run the RAM and flash counters agree, and a reboot comes up with the same one |
| `CounterTheorems.EveryRunOwnNonces` | GPD/components/gpd-security.c:224-267 | Every frame of every run is built under source id, source id, its own counter, 0x05, although key wrapping rewrites the counter bytes in between |
| `Nonces.NoncesDistinctIff` | GPD/components/gpd-security.c:135-165 | In every run, across restarts and power losses, no key but the link key seals twice under one nonce, exactly as long as the counter saves between any two of its seals are no multiple of 2^32 |
| `Nonces.SharedNonceIff` | GPD/components/gpd-security.c:73-76 | Any two frames of a history share a nonce exactly if the counter saves between them are a multiple of 2^32 |
| `Nonces.NonceRepeats` | GPD/components/gpd-send-receive.c:76-94 | It happens: a device that has sent 2^32 frames since the factory seals the next payload under the key and the nonce of its first |
| `CounterTheorems.NoNonceTwice` | GPD/components/gpd-security.c:135-165 | So in every run short of a rollover no key but the link key seals twice under one nonce |
| `CounterTheorems.EveryRunFrames` | GPD/components/gpd-send-receive.c:85-113 | Every frame on the air in every run, repeats included, is the last one built: its payload under the key and nonce recorded for it, with the counter that flash holds at that moment |
| `Delivery.WrapIsConstant` | GPD/components/gpd-security.c:135-165 | Key wrapping uses one nonce only and seals the same each time: any two requests, built in whatever reachable states, carry the same wrapped key and tag |
| `Counting.RolloverIff` | GPD/components/gpd-send-receive.c:77-78 | In every run the counter has rolled over exactly if it was saved 2^32 times or more |
| `Counters.KeepRun` | GPD/components/gpd-send-receive.c:61-116 | Every step of every run, power losses included, keeps the discipline that the counter theorems rest on: a save steps the counter by one, and no frame is built or sent except on the saved counter |
| `Counters.KeepBoot` | GPD/plugin/apps/gpd-apps-node.c:66-74 | Power-up on whatever flash a history left restores that discipline |
| `KeySync.EveryRunKeys` | GPD/plugin/apps/gpd-apps-commission.c:434-510 | In every run, of any operations with anything received and any power losses, the history alone determines the key in CCM and the key in the record, and they agree exactly if the last event that concerns a key was power-up, a processed reply, a wrap while the record held the link key, or a decommissioning to the key that was loaded; a send command at its end leaves the device in sync exactly then |
| `KeySync.OwnKeyHeldIff` | GPD/plugin/apps/gpd-apps-commission.c:434-510 | That condition on the last key event is the equality of the two keys that the whole history accounts for |
| `KeySync.CommissionedInSync` | GPD/plugin/apps/gpd-apps-commission.c:434-510 | So in every run a device from reply-received through operation has its own key loaded in CCM, across requests that load the link key, replies and power losses, provided send commands come in those states only and no reply fails to unwrap in them or in a toggle's window |
| `KeySync.ReplyLoadsIff` | GPD/plugin/apps/gpd-apps-commission.c:460-494 | A reply leaves the device's own key loaded exactly if its key, when wrapped, unwraps; a failure leaves the link key loaded and a key of zeros recorded |
| `KeySync.ToggleIff` | GPD/plugin/rtos-support/src/soc/rtos_gpd.c:200-204 | A toggle pass ends in operation, in sync exactly if the last reply heard in its window was processed, or none was heard and the device was in sync before |
| `KeySync.EarlySendDesyncs` | GPD/plugin/rtos-support/src/soc/rtos_gpd.c:158-160 | A toggle commanded right after a request puts the device into operation without its own key, unless a reply comes in one of the two windows |
| `KeySync.DecommissionKeepsLoadedKey` | GPD/plugin/apps/gpd-apps-commission.c:512-522 | Decommissioning puts the configured key into the record and loads none: whatever is in the air, the key loaded after it is the one before, or what the last reply in its window loaded |
| `KeySync.RequestLeavesLinkKey` | GPD/components/gpd-security.c:135-165 | A Commissioning Request leaves the link key loaded and the record's key alone, whatever is heard, unless a reply comes in its window |
| `Session.SessionDiscipline` | GPD/plugin/apps/gpd-apps-commission.c:337-413 | In every session that starts uncommissioned, each Commissioning Request and Success frame goes out on the channel of the latest Channel Configuration of that session, none before one was heard, and Success frames never outnumber the replies processed |
| `Session.GoodSuccess` | GPD/plugin/apps/gpd-apps-commission.c:524-538 | A Success frame spends one reply, even if further replies arrive in its own receive window |
| `Session.GoodRxRequests` | GPD/plugin/apps/gpd-apps-commission.c:355-371 | However replies and configurations fall in its windows, the rx-channel phase keeps that balance and ends with a trustworthy channel or back in the request state |
| `Session.LatestChannelIff` | GPD/plugin/apps/gpd-apps-commission.c:496-500 | The channel the discipline speaks of is a given one exactly if a Channel Configuration was heard and the last was for that channel |
| `Reboots.EveryRunCommissions` | GPD/plugin/apps/gpd-apps-commission.c:337-413 | In every run of commands, passes, decommissionings, restarts and power losses from the factory, each Commissioning Request and Success frame goes out on a channel that some earlier Channel Configuration named, across reboots, and at no time do Success frames outnumber the replies processed and the boots together |
| `Reboots.BootInRun` | GPD/components/gpd-nv.c:82-103 | Power-up on what any such history left in flash, also one cut short by a power loss, comes up on a channel named before whenever its state goes on with commissioning |
| `Reboots.SuccessAgain` | GPD/plugin/apps/gpd-apps-commission.c:524-538 | The boots do count: power lost between a Success frame and the store of its pass brings up a device that still has the reply to answer, one Success frame on and no reply more |
| `ChannelRequests.RxPhaseExact` | GPD/plugin/apps/gpd-apps-commission.c:355-371 | For any request count above 0 the rx-channel phase ends with a channel received exactly if the last decisive frame of one of the first n-1 windows is a Channel Configuration, on the channel (11 to 26) of the first such window; otherwise, also if only the last window brought one, in the request state |
| `ChannelRequests.RxPhaseEnds` | GPD/plugin/apps/gpd-apps-commission.c:355-371 | The phase stops at the first window, short of the n-th, that leaves a channel received |
| `ChannelRequests.WindowDecides` | GPD/components/gpd-send-receive.c:134-145 | After one request the state and channel are those of the last decisive frame of its window |
| `ChannelRequests.AllChannelsPhase` | GPD/plugin/apps/gpd-apps-commission.c:337-352 | For any channel array and round count the sweep sends the array round after round, each channel rounds times its multiplicity, opens no receive window, and steps the counter once per frame |
| `ChannelRequests.TimesCounts` | GPD/plugin/apps/gpd-apps-commission.c:337-352 | The multiplicity of a channel in a sweep is the round count times that in the array |
| `Retries.RequestsCounted` | GPD/plugin/apps/gpd-apps-commission.c:397-413 | In every session, with anything in the air, the Commissioning Requests sent are exactly the growth of the request count, which never falls and never exceeds its limit |
| `Retries.BootAsksAtMost` | GPD/plugin/apps/gpd-apps-commission.c:397-413 | So one boot sends no more requests than the limit in all, however often it is commissioned: the reset of the count is never reached |
| `Retries.UnansweredGivesUp` | GPD/plugin/apps/gpd-apps-commission.c:397-413 | A device whose passes bring no processed reply, whatever else they bring, sends exactly as many requests as its count leaves, then becomes uncommissioned |
| `Retries.ShippedGivesUp` | GPD/gpd-configuration.h:43 | As shipped that is four requests, less those already counted |
| `Retries.CountBounded` | GPD/plugin/apps/gpd-apps-commission.c:397-413 | In every run the request count stays within its limit |
| `Commissioning.CommissioningSucceeds` | GPD/plugin/apps/gpd-apps-commission.c:337-538 | Commissioning works, from any state of any run: if the first rx-channel window ends with a Channel Configuration and the request is answered by any encoded reply, five passes end in operation, on that channel, with the key, type and level of the reply, that key loaded, and a restart brings all of it up again |
| `Commissioning.RequestAnswered` | GPD/plugin/apps/gpd-apps-commission.c:169-186 | A Commissioning Request whose window ends with an encoded reply, whatever comes before it there, ends the pass with that key, type and level, that key loaded, and the reply noted |
| `Commissioning.PassPersists` | GPD/plugin/rtos-support/src/soc/rtos_gpd.c:215 | After a pass from any state a restart changes none of the six persisted fields, and loads the key |
| `Commissioning.PassLeads` | GPD/plugin/rtos-support/src/soc/rtos_gpd.c:177-214 | Where each pass leads: requests and Success frames to where the last decisive frame of their window puts the device, the others to the next state, and those that send nothing change no other field of the record |
| `Commissioning.PassSays` | GPD/plugin/rtos-support/src/soc/rtos_gpd.c:177-214 | What each pass sends: one request while the count allows, a Success frame for a reply, a toggle on command, a Decommissioning in the invalid state, otherwise nothing |
| `Commissioning.SweepPass` | GPD/plugin/apps/gpd-apps-commission.c:337-352 | A pass in the sweep phase sends the configured channels round after round as requests with the auto-commissioning bit that name channel 11, hears nothing, turns security off and goes over to the rx-channel phase |
| `Commissioning.RxPass` | GPD/plugin/apps/gpd-apps-commission.c:355-371 | A pass in that phase asks on channel 11 without the bit, goes back to the sweep phase, and ends with a channel received exactly if a window but the last brought a configuration |
| `Commissioning.RequestUnsecures` | GPD/plugin/apps/gpd-apps-commission.c:169-186 | A request leaves security off until a reply is processed |
| `Commissioning.SendCommandToggles` | GPD/plugin/rtos-support/src/soc/rtos_gpd.c:154-160 | A send command is obeyed in every state: the next pass sends one toggle and ends in operation |
| `Commissioning.PowerUp` | GPD/plugin/apps/gpd-apps-node.c:66-74 | Power-up leaves the configured identity, listening on, a fresh request count and phase, and both nonces of the source id and the loaded counter |
| `ReceiveWindows.SendOpens` | GPD/components/gpd-send-receive.c:95-113 | A send transmits as often as asked and at least once; directly after each frame a window opens on its channel exactly if receive-after-transmit is set, nowhere else, and each takes the next part of the air |
| `ReceiveWindows.LastFrame` | GPD/components/gpd-send-receive.c:30-59 | A window hands over its frames in order: the last one meets the device that the others leave |
| `ReceiveWindows.ReplyHeard` | GPD/components/gpd-send-receive.c:95-113 | Any listening send whose window ends with an encoded reply ends with its state, key, type and level, and that key loaded |
| `ReceiveWindows.ConfigurationHeard` | GPD/components/gpd-send-receive.c:95-113 | Any listening send whose window ends with a Channel Configuration ends with that channel received |
| `ReceiveWindows.DownlinkAnswered` | GPD/components/gpd-send-receive.c:85-113 | A sink that answers a send with a level-3 frame sealed under the counter just sent is understood: exactly its payload reaches the command handler |
| `ReceiveWindows.SendSettles` | GPD/plugin/apps/gpd-apps-commission.c:434-494 | Level and key type change in a window only with a processed reply |
| `Sink.EveryRunReads` | GPD/components/gpd-nwk.c:20-257 | In every run each frame on the air reads back, at a sink that has the key recorded for it and makes the nonce of the frame itself, as the payload and counter sent |
| `Sink.SendReads` | GPD/components/gpd-send-receive.c:61-113 | A send puts only its payload of at most 59 bytes on the air, in frames that read back with the record's settings, its level and key type included, and the next counter |
| `Sink.FrameReads` | GPD/components/gpd-nwk.c:20-257 | Every frame built, of either type, at every level and for every payload, reads back bit by bit as what was meant by it |
| `Sink.RequestOnAir` | GPD/plugin/apps/gpd-apps-commission.c:169-186 | A Commissioning Request on the air reads back as an unsecured data frame whose command gives a sink with the link key the configured key and the counter |
| `Sink.RequestReads` | GPD/plugin/apps/gpd-apps-commission.c:21-163 | The option bits of the command announce exactly what it carries, for any key, key type and counter, with a key or without: a sink that goes by them finds all fields and no byte is left over |
| `Sink.SinkLearnsKey` | GPD/plugin/apps/gpd-apps-commission.c:21-163 | What a Commissioning Request carries, found by its option bits, unwraps under the link key to the configured key, next to the frame counter |
| `Sink.ChannelsRead` | GPD/plugin/apps/gpd-apps-commission.c:203-218 | A channel request names any two next channels of 11 to 26 in four bits each |
| `Parsing.DroppedIff` | GPD/components/gpd-nwk.c:259-342 | By the raw bytes of a frame: it is dropped exactly for fewer than 8 bytes, another MAC frame control, another version than 3, a type above 1, an extended field without direction bit, auto-commissioning with receive-after-transmit, or a data frame with another source id |
| `Parsing.PayloadDelivered` | GPD/components/gpd-nwk.c:343-383 | And any other hands over exactly the bytes between header and tag, opened first if it is a level-3 data frame for a source id |
| `Parsing.FrameChangesIff` | GPD/components/gpd-send-receive.c:118-150 | So by its bytes a frame changes more than the receive buffer exactly if that payload starts with one of the two commands obeyed |
| `Delivery.DownlinkDelivered` | GPD/components/gpd-nwk.c:259-385 | Every level-3 downlink frame laid out as the builder does, direction set, without both auto-commissioning and receive-after-transmit, and sealed under the receive nonce is delivered as exactly its payload |
| `Reflection.CleanRunReflects` | GPD/components/gpd-nwk.c:298-342 | In every run whose application sends no command that the device obeys, each frame ever sent, heard back at its end, changes nothing but the receive buffer |
| `Reflection.EveryRunReflects` | GPD/components/gpd-nwk.c:298-342 | In every run at all the same holds of a frame exactly unless it is a maintenance frame with such a command |
| `Reflection.CleanRun` | GPD/plugin/apps/gpd-apps-commission.c:169-218 | The stack itself sends no such command in any run |
| `Delivery.ReflectionIff` | GPD/components/gpd-nwk.c:298-342 | The same for any frame that can be built for a non-zero source id, at every level and payload |
| `Delivery.OwnDataFrameIgnored` | GPD/components/gpd-nwk.c:298-342 | The data frame part of that, at every level and for every payload: direction or address check drops it |
| `Delivery.MaintenanceFrameObeyed` | GPD/components/gpd-send-receive.c:118-150 | A maintenance frame changes nothing exactly if it carries neither command that the device obeys; a Channel Configuration in one is obeyed |
| `Delivery.ChangesIff` | GPD/components/gpd-nwk.c:354-383 | Any frame at all changes nothing but the receive buffer exactly if it hands over no payload, or one whose command the device does not obey |
| `Delivery.WrongTagIff` | GPD/components/gpd-nwk.c:365-376 | The decryption status is not used: a secured data frame, not authentic if at level 3, changes nothing exactly if it is at level 3, or has no payload, or no command that the device obeys |
| `Delivery.WrongTagComesToNothing` | GPD/components/gpd-nwk.c:365-376 | So a level-3 frame with a wrong tag, short or long address, changes nothing: its payload has been zeroed |
| `Payloads.PayloadDecidesIff` | GPD/components/gpd-send-receive.c:133-145 | What a command does is decided by the delivered payload alone exactly if the payload covers what its handler reads: two bytes of a Channel Configuration; of a reply the options, and with a key the PAN id in front of it and the key, or the wrapped key, tag and counter |
| `Payloads.DeliveredByPayload` | GPD/components/gpd-nwk.c:354-383 | For every frame that hands over such a payload, or none, what the device becomes depends on that payload alone: not on tag, check sequence, or anything received before |
| `Payloads.ShortConfigReadsTag` | GPD/components/gpd-send-receive.c:134-139 | A level-2 Channel Configuration without its channel byte, under any control bytes, takes the channel from its tag |
| `Payloads.ShortReplyReadsStaleBytes` | GPD/plugin/apps/gpd-apps-commission.c:434-494 | A reply that announces a key and ends there installs and loads its check sequence followed by stale bytes of the receive buffer |
| `Payloads.LevelTwoTagIgnored` | GPD/components/gpd-nwk.c:365-369 | In every level-2 data frame, whatever its control bytes, a payload that covers its command is obeyed with any tag |
| `Delivery.ReplyDelivered` | GPD/components/gpd-send-receive.c:140-145 | From the air to the record: such a reply in a maintenance frame leaves a device of any run with that key, type and level, that key loaded, and the reply noted |
| `Delivery.ReplyDecoded` | GPD/plugin/apps/gpd-apps-commission.c:434-494 | Every well-formed Commissioning Reply, with or without PAN id, without key, with a plain or a wrapped one, sets key, type and level exactly as encoded and loads that key |
| `Delivery.WrappedReply` | GPD/components/gpd-security.c:173-200 | A key the sink wrapped under a counter of its choice is unwrapped to that key |
| `Delivery.OptionBits` | GPD/plugin/apps/gpd-apps-commission.c:434-494 | The masks and shifts read the five fields of the options byte back |
| `Persistence.StoredFieldsSurvive` | GPD/components/gpd-nv.c:52-103 | Store, then any run of sends, commands, restarts and power losses, then a reset: key, level, type, channel and state come up as stored, and the counter has moved on by the number of counter saves |
| `Counting.FlashCounterCounts` | GPD/components/gpd-nv.c:52-62 | The flash counter counts the counter saves, modulo 2^32 |
| `Persistence.FreshLoad` | GPD/gpd-callbacks.c:154-183 | A load on a fresh chip changes no field, and stores what a next load finds again |
| `Persistence.LoadAfterStore` | GPD/components/gpd-nv.c:82-103 | Loading straight after storing changes nothing |
| `Persistence.DecommissionSurvives` | GPD/plugin/apps/gpd-apps-commission.c:512-522 | After a decommissioning any reset comes up with the configured defaults and the counter one further |
| `Frames.Partition` | GPD/components/gpd-nwk.c:343-358 | Header, payload, tag and check sequence of an accepted frame tile its 1 + buffer[0] bytes without gap or overlap |
| `Frames.StaleBytesIrrelevant` | GPD/components/gpd-nwk.c:259-358 | What earlier frames left in the static receive buffer changes nothing in how the header of a new one is read |
| `Frames.Frame` | GPD/components/gpd-nwk.c:235-257 | For every frame type, level and capped payload the first byte is the returned length - 1 + 2, and at most 81 bytes are returned |
| `FrameProperties.PayloadPosition` | GPD/components/gpd-nwk.c:143-190 | In a secured frame authentication start plus the fixed length is exactly where the payload starts |
| `FrameProperties.DownlinkOpens` | GPD/components/gpd-nwk.c:259-385 | Every such downlink frame passes all header checks and opens to its payload |
| `FrameProperties.OwnDataFrameDropped` | GPD/components/gpd-nwk.c:298-342 | No frame that the device builds as a data frame passes its own header checks |
| `FrameProperties.OwnMaintenanceFrameAccepted` | GPD/components/gpd-nwk.c:283-358 | A maintenance frame passes them and hands on its payload unchanged |
| `IeeeFrames.IeeePayloadPosition` | GPD/components/gpd-nwk.c:72-89 | The same position property for the IEEE address layout |
| `IeeeFrames.IeeeFrame` | GPD/components/gpd-nwk.c:113-190 | The same length property for the IEEE address layout and its payloads of up to 54 bytes |
| `IeeeFrames.BuildIeeePdu` | GPD/components/gpd-nwk.c:235-257 | Built and secured in place, byte by byte, that frame stays inside the 128-byte buffer and the 80-byte scratch |
| `IeeeFrames.BuildIeeeHeader` | GPD/components/gpd-nwk.c:20-111 | The index-driven header builder of that layout writes exactly its header |
| `IeeeFrames.IeeeHeaderReads` | GPD/components/gpd-nwk.c:20-133 | The header of that layout reads back bit by bit, for every record and payload |
| `IeeeFrames.IeeeFrameAuthentic` | GPD/components/gpd-security.c:96-112 | A level-2 frame of that layout ends with a tag over all of it from its control bytes on |
| `IeeeFrames.IeeeFrameOpens` | GPD/components/gpd-security.c:114-133 | A level-3 frame of that layout opens to its payload |
| `Nwk.BuildHeader` | GPD/components/gpd-nwk.c:20-111 | The index-driven header builder writes exactly the specified header, inside its buffer |
| `Nwk.BuildMpdu` | GPD/components/gpd-nwk.c:113-141 | It adds the payload and clears receive-after-transmit in a Success frame |
| `Nwk.SecureOutgoingMpdu` | GPD/components/gpd-nwk.c:143-190 | Securing in place gives the specified secured frame for each level, inside buffer and scratch |
| `Nwk.EncryptAndTagTxBuff` | GPD/components/gpd-security.c:114-133 | Encryption through the 80-byte scratch leaves header, ciphertext and tag in place |
| `Nwk.TagTxBuff` | GPD/components/gpd-security.c:96-112 | Authentication only appends the tag |
| `Nwk.BuildMaintMpdu` | GPD/components/gpd-nwk.c:192-233 | Header and payload end where the specification of maintenance frames has them, inside the buffer |
| `Nwk.BuildOutgoingPdu` | GPD/components/gpd-nwk.c:235-257 | The three frame types, an unknown one giving no bytes |
| `Nwk.WalkHeader` | GPD/components/gpd-nwk.c:262-358 | The finger-walking parser accepts exactly the frames the declarative predicate accepts, and finds the payload where header end and size say |
| `Nwk.DecryptRxBuffer` | GPD/components/gpd-security.c:202-222 | Decryption through the scratch puts the opened payload, or zeros, in place and nothing else |
| `Ccm.OpenIffSealed` | util/third_party/mbedtls/library/ccm.c:321-363 | A sealed text opens exactly if it is what sealing some message gives |
| `Ccm.OpenSealed` | util/third_party/mbedtls/library/ccm.c:321-363 | Opening undoes sealing, for every block function, key, nonce, header and message |
| `Ccm.CryptCancels` | util/third_party/mbedtls/library/ccm.c:141-146 | Counter-mode encryption is its own inverse |
| `CcmFormat.SealedByNumbers` | util/third_party/mbedtls/library/ccm.c:151-319 | CCM byte by byte as sections 2.2 and 2.3 of RFC 3610 number it: for any blocks B, chain X and counter blocks A that fit their description, ciphertext and tag are masked with the key stream as said there |
| `CcmFormat.MacInputIff` | util/third_party/mbedtls/library/ccm.c:185-249 | The blocks authenticated are the only ones that fit that description: flags, nonce, length, then lengthened data and message, each padded with zeros |
| `CcmFormat.MacBlocksInjective` | util/third_party/mbedtls/library/ccm.c:185-249 | They determine nonce, additional data and message |
| `CcmFormat.StreamsApart` | util/third_party/mbedtls/library/ccm.c:185-312 | No counter block is used in two key streams, twice in one, or as the first block of a chain |
| `CcmFormat.XorAt` | util/third_party/mbedtls/library/ccm.c:129-149 | Exclusive or, bit by bit |
| `MbedCcm.EncryptAndTag` | util/third_party/mbedtls/library/ccm.c:321-329 | The streaming CCM loop computes CCM as sections 2.2 to 2.5 of RFC 3610 define it |
| `MbedCcm.AuthDecrypt` | util/third_party/mbedtls/library/ccm.c:334-363 | Decryption returns the message exactly if the tag is right, and zeros otherwise |
| `MbedCcm.Stream` | util/third_party/mbedtls/library/ccm.c:258-304 | The interleaved MAC and counter rounds give the MAC chain and key stream of the definition |
| `MbedCcm.MacAad` | util/third_party/mbedtls/library/ccm.c:218-246 | The blocks of authenticated data, with their length prefix and padding |
| `Stack.Node.GpdfSend` | GPD/components/gpd-send-receive.c:61-116 | Counter, flash, both nonces, build, and the transmit loop with its receive windows, as one send on the device value |
| `Stack.Node.TransmitLoop` | GPD/components/gpd-send-receive.c:94-113 | The do-while loop transmits once for a repeat number of 0 or 1 and that many times otherwise |
| `Stack.Node.ScheduledReceive` | GPD/components/gpd-send-receive.c:30-59 | The window is noted on the current channel, takes the next frames out of the air, and delivers them in order |
| `Stack.Node.IncomingMessageHandler` | GPD/components/gpd-nwk.c:259-385 | A dropped frame changes nothing; an accepted one is opened in place and its command acts as specified |
| `Stack.Node.DecryptRxBuffer` | GPD/components/gpd-security.c:202-222 | The receive buffer is opened under the key and the receive nonce the device holds at that moment |
| `Stack.Node.IncomingCommandHandler` | GPD/components/gpd-send-receive.c:118-150 | A Channel Configuration and a Commissioning Reply act as specified, and every other command leaves the device as it was |
| `Stack.Node.SecurityInit` | GPD/components/gpd-security.c:224-267 | Both nonces and the key set up from the record |
| `Stack.Node.SecurityEncryptKey` | GPD/components/gpd-security.c:135-165 | Wrapping leaves the link key loaded and the source id in the counter bytes of the Tx nonce |
| `Stack.Node.SecurityDecryptKey` | GPD/components/gpd-security.c:173-200 | Unwrapping takes the counter from the reply, and leaves the link key loaded |
| `Stack.Node.ProcessCommissioningReply` | GPD/plugin/apps/gpd-apps-commission.c:434-494 | The reply parser as specified, failing exactly if a wrapped key does not unwrap |
| `Stack.Node.CommissioningReplyCallback` | GPD/plugin/apps/gpd-apps-commission.c:502-510 | Only a processed reply changes the state |
| `Stack.Node.ChannelConfigCallback` | GPD/plugin/apps/gpd-apps-commission.c:496-500 | Exactly the channel and the state change, to the channel heard and channel-received |
| `Stack.Node.SendCommissioningRequest` | GPD/plugin/apps/gpd-apps-commission.c:169-187 | The record goes to level 0, the key is wrapped, the command carries the key sealed so, and one frame is sent with it |
| `Stack.Node.BuildCommissioningCommand` | GPD/plugin/apps/gpd-apps-commission.c:21-163 | For any key, key type and counter, with the key or without, the command of the shipped options, the key sealed in place |
| `Stack.Node.SendChannelRequest` | GPD/plugin/apps/gpd-apps-commission.c:204-218 | One maintenance frame naming any two next channels goes out on the channel given, which the record keeps |
| `Stack.Node.ChannelRequestOnAllChannels` | GPD/plugin/apps/gpd-apps-commission.c:337-352 | The nested loops send what the sweep specification sends, whatever that delivers |
| `Stack.Node.ChannelRequestOnRxChannel` | GPD/plugin/apps/gpd-apps-commission.c:355-371 | The loop stops at a received channel, and otherwise ends by overwriting the state |
| `Stack.Node.ChannelRequestStateMachine` | GPD/plugin/apps/gpd-apps-commission.c:378-390 | The two substates alternate, and both clear level and key type first |
| `Stack.Node.BidirCommissioningStateMachine` | GPD/plugin/apps/gpd-apps-commission.c:397-413 | One request per step while the count lasts, and giving up exactly when it is used up |
| `Task.GpdTask` | GPD/plugin/rtos-support/src/soc/rtos_gpd.c:142-248 | Over any number of wake-ups the object with its buffers goes through the session that the value specification plays; its history keeps the session discipline, and from any reachable state rising built counters, flash ahead of them, the nonce condition and the key condition above |
| `Task.Handle` | GPD/plugin/rtos-support/src/soc/rtos_gpd.c:154-215 | Each thing `GpdTask` does is the operation of the value specification |
| `Stack.Node.Init` | GPD/plugin/apps/gpd-apps-node.c:66-74 | What flash holds overrides the defaults, and nonces and loaded key are set up from the outcome |
| `Stack.Node.LoadGpdDefaultConfiguration` | GPD/plugin/apps/gpd-apps-node.c:27-61 | The defaults, frame counter excepted |
| `Stack.Node.NvLoad` | GPD/gpd-callbacks.c:152-184 | A fresh chip is written, any other is read |
| `Stack.Node.NvStore` | GPD/gpd-callbacks.c:186-206 | Flash ends as the whole shadow, and no more changes |
| `Stack.Node.SaveFrameCounterToNV` | GPD/components/gpd-nv.c:52-62 | Only the counter bytes of the shadow change before it is saved |
| `Stack.Node.CopyToShadow` | GPD/components/gpd-nv.c:73-81 | Six fields go to their places in the shadow, and its reserved bytes stay |
| `Stack.Node.StoreSecDataToNV` | GPD/components/gpd-nv.c:82-89 | Flash and shadow both end as the image of the record |
| `Stack.Node.LoadSecDataFromNV` | GPD/components/gpd-nv.c:91-103 | The six fields end as flash holds them; on a fresh chip as they were |
| `Stack.Node.SetFcIntoTxNonce` | GPD/components/gpd-security.c:73-76 | Only the counter bytes of the Tx nonce change |
| `Stack.Node.SetFcIntoRxNonce` | GPD/components/gpd-security.c:78-81 | Only the counter bytes of the Rx nonce change |
| `Stack.Node.constructor` | GPD/plugin/apps/gpd-apps-node.c:20 | All of RAM is zero, and flash is as it was left |
| `Bytes.Copy4Bytes` | GPD/plugin/apps/gpd-apps-utility.c:20-26 | Four little-endian bytes are written and nothing else |
| `Bytes.WordOfLe4` | GPD/plugin/apps/gpd-apps-utility.c:20-26 | Reading them back as a word gives the value |
| `Interpolation.RisesFromZero` | platform/CMSIS/Include/arm_math.h:5529-5571 | A nondecreasing table makes q15 interpolation nondecreasing for x from 0 on, within cells, across them and into the top clamp |
| `Interpolation.RisesEverywhereIff` | platform/CMSIS/Include/arm_math.h:5529-5571 | Over all x it is nondecreasing exactly if the table has one value or does not start with a positive one |
| `Interpolation.NearIdeal` | platform/CMSIS/Include/arm_math.h:5529-5571 | For every x the result is less than two steps off the table's piecewise line with its ends held, and exact outside the cells |
| `Interpolation.NearIdeal31` | platform/CMSIS/Include/arm_math.h:5471-5512 | For every x the q31 result is less than five steps off it, and exact outside the cells |
| `Interpolation.InCellRange` | platform/CMSIS/Include/arm_math.h:5529-5571 | An in-cell result is the straight line through the neighbours, less a 2^20-th of the left one, rounded down, and lies in [min(y0, y1) - 1, max(y0, y1)] |
| `Interpolation.KnotExactIff` | platform/CMSIS/Include/arm_math.h:5529-5571 | At a table point inside the table the table's value is returned exactly if it is not positive |
| `Interpolation.SevenIsFifteen` | platform/CMSIS/Include/arm_math.h:5586-5628 | The q7 routine is the q15 routine on q7 tables |
| `Interpolation.InCellRange31` | platform/CMSIS/Include/arm_math.h:5471-5512 | A q31 in-cell result is even, lies in [min(y0, y1) - 4, max(y0, y1)], and less than four steps below the line less a 2^31-th of the left neighbour, never above |
| `Interpolation.NearlyRises31` | platform/CMSIS/Include/arm_math.h:5471-5512 | For x from 0 on q31 interpolation of a nondecreasing table falls by at most 2 |
| `Interpolation.Falls31` | platform/CMSIS/Include/arm_math.h:5471-5512 | And it can fall by 2, for a constant table |
| `Interpolation.RisesWhenApart31` | platform/CMSIS/Include/arm_math.h:5493-5507 | It does not fall between two arguments whose exact sums, before the cut, are 2^32 apart |
| `Interpolation.ApartInCell31` | platform/CMSIS/Include/arm_math.h:5493-5507 | Within a cell that is a product of value step and fraction step of at least 2^21 |
| `Interpolation.SteepRises31` | platform/CMSIS/Include/arm_math.h:5471-5512 | So for a table whose neighbours are 2^32 / 2047 apart or more it never falls from 0 on, within cells, across them and into the clamp |
| `BitOps.Rbit` | platform/CMSIS/Include/cmsis_iccarm.h:502-513 | The loop reverses all 32 bits |
| `BitOps.ReverseTwice` | platform/CMSIS/Include/cmsis_iccarm.h:502-513 | Reversing twice is the identity |
| `BitOps.Clz` | platform/CMSIS/Include/cmsis_iccarm.h:487-499 | 32 for 0, and otherwise the n with 2^(31-n) <= data < 2^(32-n) |
| `BitOps.LeadingZerosUnique` | platform/CMSIS/Include/cmsis_iccarm.h:487-499 | No other n has that property |
| `BitOps.LeadingOfReversed` | platform/CMSIS/Include/cmsis_iccarm.h:487-513 | The leading zeros of the reversed word give the lowest set bit of the word |
| `MpuLoad.Mpu.Load` | platform/CMSIS/Include/mpu_armv8.h:285-308 | Loading through the alias windows leaves what setting region rnr + i to table[i] one at a time leaves, for every rnr, cnt and power-of-two window count |
| `MpuLoad.SetEachAt` | platform/CMSIS/Include/mpu_armv8.h:285-308 | That is the table at rnr and every other region as it was |
| `MpuLoad.Mpu.OrderedCopy` | platform/CMSIS/Include/mpu_armv8.h:270-277 | The word-by-word copy sets whole regions |
| `MpuLoad.Mpu.SetRegion` | platform/CMSIS/Include/mpu_armv8.h:236-241 | One region is set and no other |
| `MpuLoad.WindowBase` | platform/CMSIS/Include/mpu_armv8.h:292-293 | Masking the region number and taking its remainder split it into window base and offset |
| `RingBuffer.RingHoldsStream` | platform/CMSIS/Include/arm_math.h:5886-5924 | After any sequence of unit-increment writes into a ring of at most 2^16 samples the ring holds the last L samples of the whole stream in order, and its offset is the total mod L |
| `RingBuffer.ReadBack` | platform/CMSIS/Include/arm_math.h:5930-5980 | Reading n samples, n at most L, from a write's start offset returns what that write stored |
| `RingBuffer.ReadHeld` | platform/CMSIS/Include/arm_math.h:5930-5980 | Reading L samples from where writing stopped returns the last L samples of the stream |
| `RingBuffer.StaysInsideIff` | platform/CMSIS/Include/arm_math.h:5913-5916 | The kernels stay inside the ring exactly for increments from 0 to L |
| `RingBuffer.KeptIff` | platform/CMSIS/Include/arm_math.h:5923 | The 16-bit write offset is right exactly for rings of at most 2^16 samples |
| `RingBuffer.AfterIs` | platform/CMSIS/Include/arm_math.h:5886-5980 | For every increment from 0 to L the offset moves on by n increments modulo L |
| `RingBuffer.ReadPlaces` | platform/CMSIS/Include/arm_math.h:5930-5980 | Sample k is read from k increments on |
| `RingBuffer.PickPlaces` | platform/CMSIS/Include/arm_math.h:5886-5924 | And taken from the source at its own stride |
| `RingBuffer.WritePlaces` | platform/CMSIS/Include/arm_math.h:5886-5924 | After a write of any length at any increment each slot holds the last sample written there |
| `RingBuffer.WriteMisses` | platform/CMSIS/Include/arm_math.h:5886-5924 | Or what it held, if none was |
| `RingBuffer.SpreadIsWrite` | platform/CMSIS/Include/arm_math.h:5930-5980 | A destination that its end cuts off is filled like a ring |
| `RingBuffer.CircularWrite` | platform/CMSIS/Include/arm_math.h:5886-5924 | The loop writes one sample per increment |
| `RingBuffer.CircularRead` | platform/CMSIS/Include/arm_math.h:5930-5980 | The loop reads one sample per increment and wraps the destination |
| `RingBuffer.SpreadInOrder` | platform/CMSIS/Include/arm_math.h:5930-5980 | Samples read arrive in order in a destination that has room for them |

## Left out

- The receive path of the IEEE address layout, which the shipped configuration compiles out, and the device around it;
  its data frames are in `IeeeFrames.dfy`, built in place.
- Unidirectional commissioning, application descriptions, random MAC sequence numbers, an unencrypted key in the
  commissioning command and its level-0 options, which the shipped configuration does not compile.
- Received frames that are too short for the header or tag their control bytes announce, unless version, type or
  direction already drop them: the C code reads past such a frame, into the stale rest of the buffer, or beyond the
  buffer or its 80-byte scratch, and the model has no value for the latter.
- RAIL radio calls, timers, receive offsets and window lengths, CCA and the radio state: a transmission is an event,
  a window delivers an arbitrary list of frames.
- Tasks, event flags and preemption inside a pass; the BLE side of the application.
- AES itself: the block cipher is an arbitrary function on 16-byte blocks. Error returns of mbedTLS for bad lengths
  cannot occur here and are not modelled.
- Flash below an atomic save that succeeds or halts the device; the NVM3 and PSStore variants of the callback.
- The PAN id of a Commissioning Reply: the code computes and discards it, and only its two bytes' place matters.
- The transmit buffer between sends: every send rewrites what it uses of it, so it is not part of a device value.
- An application's own command callback: the model has the shipped stub, which leaves every command to the stack.
- Bilinear interpolation, the float DSP kernels, reciprocals, clips, `mult32x64`, and PID updates of `arm_math.h`.
- PTI and board set-up files, generated tables and configuration headers.
