# Xbox wireless adapter: a verified model

The adapter stack on macOS is three programs. The daemon (`XboxDaemon/xbox_daemon.c`) drives the MT76 dongle over USB,
lets controllers associate, maps each to one of eight slots and prints what happens as lines of JSON text over UDP. The
bridge (`XboxDaemon/xbox_hid_bridge.c`) and the injector (`XboxDaemon/ryujinx_sdl_inject.c`) read those lines with
substring scanners and rebuild the eight slots. Below the daemon sit packet framing and firmware loading
(`XboxDaemon/mt76_init.h`, `XboxDaemon/mt76_firmware.h`). This project models all of these and proves what they keep.

| file | contents |
|---|---|
| `Bytes.dfy`, `Text.dfy` | bytes, MACs, little-endian words; `strstr`, `strtol`, `strtok_r`, decimal printing |
| `Gip.dfy` | GIP header, input payload layouts, HID report |
| `EventLines.dfy` | printing and scanning event lines, and the proof that one inverts the other |
| `DaemonModel.dfy` | the live session path as a state machine: one USB transfer or one wake-up per step |
| `DaemonInvariants.dfy`, `DaemonRuns.dfy` | what each handler keeps; what it does seen from outside |
| `DaemonTheorems.dfy`, `DaemonRadio.dfy`, `DaemonSession.dfy` | the statements about whole runs |
| `DaemonInputs.dfy` | what an input means, by the bytes of the transfer |
| `DaemonEffects.dfy`, `DaemonLaws.dfy`, `DaemonAnswers.dfy` | what one input makes the daemon send and remember, exactly; the 802.11 answers as a station reads them |
| `DaemonHistory.dfy`, `DaemonSlots.dfy`, `DaemonWakeups.dfy` | sessions and host commands from the inputs alone, slots from their events, channel and beacon at every wake-up |
| `Daemon.dfy` | the daemon as the source writes it, a class over arrays, proved to run the state machine |
| `Bridge.dfy`, `Agreement.dfy`, `GuideGap.dfy` | the bridge, its agreement with the daemon over a wire of datagrams, and the run where it fails |
| `Injector.dfy`, `InjectorRuns.dfy`, `InjectorDisplay.dfy` | the injector with SDL and the mutex as a trace of calls, and what each device shows |
| `Framing.dfy`, `Firmware.dfy` | packets and their decoders; the two firmware loaders |

Check everything with `dafny verify dfyconfig.toml`.

How it is built: imperative code is a class or a method with loops, and each such method is proved equal to a function of
the old state (`XboxDaemon.HandleTransfer` to `Step`, `HidBridge.Receive` to `OnDatagram`, `SdlInjector.Receive` to
`OnLines`, the packet builders to packets). The properties are lemmas about those functions, stated against something
independent of them: the list of distinct first contacts, the grammar of the event stream, a packet decoder, the printed
text, a script of device answers, the meaning of an input's bytes and what is due for it. `Daemon.Live`,
`Bridge.DatagramIsEvent` and `InjectorRuns.StreamIsEvents` join the two sides.

Points where the code decides the statement:

- Entry 127 of the peer table is reused for every further MAC, because the next WCID stops there
  (`XboxDaemon/xbox_daemon.c:253-268`). Entries 1 to 126 are permanent; the statements about permanence and about the
  firmware's client list are for those.
- A disconnect clears the slot but not the peer's handshake flag (`XboxDaemon/xbox_daemon.c:457-465`), so a controller
  gets its slot back only by its own CTRL_ADDED frame. `ComebackOnlyByCtrlAdded` says so in both directions.
- The daemon sets the guide flag of an inactive slot, the bridge ignores it. The two agree on a slot throughout a run exactly
  when no input is a guide press from that slot's controller while the slot is idle (`SlotAgreement`, with the guard
  `PressesIdleGuide`), and `ReplicasCanDiffer` is a run where they do not.
- When both input layouts look plausible the 14-byte one wins, so it is the one that round-trips; `BareRoundTrip` and
  `WrappedRoundTrip` give the exact condition without a limit on the triggers. A bare state with ten or more bytes behind it
  may look wrapped and is then read eight bytes late (`BareLooksWrapped`, `BareCanBeMisread`); `PlausibleRoundTrip` is the
  exact condition for states with triggers in range, in terms of their bytes.
- The size check of the firmware image adds in 32 bits. `SizeCheckMeans` is the exact condition, `SizeCheckCanWrap` the example.
- A partial-retry upload may return 0 without having sent the whole file (`ZeroMayBePartial`). `WhyShort` says, in terms of
  the device's answers alone, exactly when the whole file is sent, when the upload gives up and when it stops short.
- The comment on `gip_header_t` calls byte 1 a client number from 1 to 8; dispatch reads it as a type and a device nibble and
  takes the slot from the WCID. The model follows dispatch.
- The descriptor comment gives the command field seven bits while the parameter has eight; `CommandFields` says what that costs.

Assumptions shared by all statements: each received frame and each wake-up is one atomic step (the source's reader threads
share the state without a lock); USB and register writes succeed; the millisecond clock is a parameter, and the timed
statements take it to be monotone and below 2^64.

## Model

| member | source | states |
|---|---|---|
| DaemonTheorems.FirstContactTable | XboxDaemon/xbox_daemon.c:239-274 | after any run, entries 1-126 of the peer table are the distinct MACs heard, in order of first contact, each with its own index as WCID; entry 127 holds the latest MAC that found no permanent place; all other entries are unused |
| DaemonTheorems.EntriesArePermanent | XboxDaemon/xbox_daemon.c:248-274 | an entry below 127 that is in use at any moment of a run keeps its MAC and WCID to the end of the run |
| DaemonRuns.TableMacsDiffer | XboxDaemon/xbox_daemon.c:239-246 | no two entries in use hold the same MAC |
| DaemonRuns.RememberRefines | XboxDaemon/xbox_daemon.c:248-274 | remembering a MAC is appending it to the list of contacts, through the reference definition of the table |
| DaemonTheorems.SlotAttribution | XboxDaemon/xbox_daemon.c:957-966 | every event ever emitted for slot k was caused by a session frame of the (k+1)-th first-contact MAC of the whole run, or is a disconnect caused by the firmware's client-lost event for that WCID |
| DaemonTheorems.SlotOwners | XboxDaemon/xbox_daemon.c:1165-1234 | an active slot k belongs to entry k+1, which is in use and past its handshake; no entry above 8 ever has a slot or a handshake |
| DaemonTheorems.SessionsAreLocal | XboxDaemon/xbox_daemon.c:1133-1147 | an initialised session implies the initial commands were sent, the handshake done, and one of the first eight entries |
| DaemonTheorems.EventGrammar | XboxDaemon/xbox_daemon.c:445-583 | in every run connected and disconnected of a slot strictly alternate starting with connected, inputs lie in between, and a slot is active exactly while its stream says it is online |
| DaemonTheorems.SequenceAccounting | XboxDaemon/xbox_daemon.c:1034-1084 | the host commands of a run carry sequence numbers 1, 2, 3, ... at most 24, so none is zero or repeated; each initialised controller got exactly PowerOn, LED, Serial with three consecutive numbers, and the counter is three times their number |
| DaemonTheorems.SessionQuiescence | XboxDaemon/xbox_daemon.c:1441-1466 | once a session is initialised, no later step of any run sends its MAC an explicit association or reassociation response, and the session stays initialised |
| DaemonTheorems.ClientAddOnce | XboxDaemon/xbox_daemon.c:808-843 | the firmware is told about a WCID below 127 at most once per run, and only if the entry is in use |
| DaemonTheorems.HardwareMirror | XboxDaemon/mt76_init.h:961-979 | after every run the two table words of each entry in use decode to that entry's MAC, whatever other register writes happened |
| DaemonTheorems.TickIsSilent | XboxDaemon/xbox_daemon.c:1509-1546 | a wake-up of the main loop touches no peer, no slot, neither the next WCID nor the host sequence counter, and emits no event, no 802.11 frame and no GIP message |
| DaemonInvariants.InvStep | XboxDaemon/xbox_daemon.c:1236-1493 | every USB transfer and every wake-up keeps the whole invariant: peer table shape, slot ownership, event grammar, command script, client list, register mirror |
| DaemonInvariants.InvRun | XboxDaemon/xbox_daemon.c:1236-1549 | every reachable state satisfies that invariant |
| DaemonInvariants.InvPeerFor | XboxDaemon/xbox_daemon.c:957-966 | after the lookup that opens both session handlers the sender is in the table, and it has a slot exactly when it is one of the first eight entries, namely its index less one |
| DaemonInvariants.FirstAnnounceSends | XboxDaemon/xbox_daemon.c:1133-1147 | the first announce adds exactly the controller's three commands to the host commands sent so far, with the next three numbers |
| DaemonRuns.ManagementAnswers | XboxDaemon/xbox_daemon.c:1400-1466 | a management frame other than the handshake emits no event and moves no slot, answers association requests only to their sender, and changes the channel lock only as pairing traffic does |
| DaemonRuns.DataWorks | XboxDaemon/xbox_daemon.c:1192-1234 | a data frame changes no slot and no peer entry but the sender's own, and emits events for the sender's slot only |
| DaemonRuns.ActionWorks | XboxDaemon/xbox_daemon.c:1165-1190 | a handshake frame changes no slot and no peer entry but the sender's own, and emits events for the sender's slot only |
| DaemonSession.KnownPeerFor | XboxDaemon/xbox_daemon.c:957-966 | for a controller past its handshake the lookup changes nothing and returns its own entry and slot |
| DaemonSession.InputReported | XboxDaemon/xbox_daemon.c:467-572 | an input frame from the controller of an active slot is reported as exactly the state in its payload's bytes: the offset of the state, each trigger and signed stick by its two bytes, and the button word; the HID report shows that state, sticks and triggers by name, the pad by direction, the buttons bit by bit; no other slot changes |
| DaemonSession.ControllerStateArrives | XboxDaemon/xbox_daemon.c:467-572 | every controller state with triggers up to 4095, encoded in 14 bytes, wrapped or bare, with any trailing bytes, passes frame, dispatch and decoding, is reported once and is what the report shows, field by field; it is reported unchanged if and only if it is wrapped, its own bytes do not look like a wrapper with ten bytes behind it, or the bytes eight further on repeat it |
| DaemonSession.ComebackOnlyByCtrlAdded | XboxDaemon/xbox_daemon.c:457-465 | an inactive slot whose controller already shook hands becomes active at a step if and only if that step is the controller's own CTRL_ADDED frame |
| DaemonInputs.Unpacks | XboxDaemon/xbox_daemon.c:1273-1333 | the unpacking of a transfer in terms of its bytes: a frame exactly when 60 bytes are there and the bits of the first word say so, with its type, subtype, addresses and body; a notice of the firmware; or nothing |
| DaemonInputs.StepReacts | XboxDaemon/xbox_daemon.c:1273-1484 | every transfer is handled by the meaning of its bytes, for all frame types, subtypes and bodies |
| DaemonEffects.TransferEmits | XboxDaemon/xbox_daemon.c:1236-1493 | everything a transfer sends, sorted into events, host commands, acknowledgements, 802.11 frames, firmware clients, beacons and channel switches, is what its meaning makes due, and nothing else |
| DaemonEffects.TransferLeaves | XboxDaemon/xbox_daemon.c:1236-1493 | the peer table, the lock and the beacon flag after any transfer, by its meaning |
| DaemonEffects.DispatchIs | XboxDaemon/xbox_daemon.c:1111-1163 | a message is acknowledged first and handled second; its output is exactly the acknowledgement asked for and then its commands or events |
| DaemonLaws.SessionFlags | XboxDaemon/xbox_daemon.c:1133-1234 | a step sets the handshake flag of an entry if and only if the entry is one of the first eight and the step a session frame of its controller; the session and initial-commands flags if and only if it is one of the first eight and the step its announce (command 2, byte 0x20); the firmware flag of an entry below 127 if and only if the step is its association request outside a session; nothing clears any of them |
| DaemonLaws.AnnounceStartsSession | XboxDaemon/xbox_daemon.c:1133-1147 | a known controller's session starts at a step if and only if the step is a data frame from it to us with an announce of device 0 and type request, and then exactly its three numbered commands go out, unless they were sent before |
| DaemonLaws.CommandsOfStep | XboxDaemon/xbox_daemon.c:1133-1147 | any input adds to the host commands exactly the three of a seated controller's first announce, a newcomer's first frame included, or nothing |
| DaemonLaws.AcksOfStep | XboxDaemon/xbox_daemon.c:1086-1125 | one acknowledgement for every message of a seated controller whose type asks for one, to that controller, with the sequence number received and the command, device and length repeated in its nine bytes; else none |
| DaemonLaws.EventsOfStep | XboxDaemon/xbox_daemon.c:445-583 | the events of any input, exactly: connect at a first session frame or at CTRL_ADDED of a closed slot, disconnect at CTRL_LOST or a client-lost notice of an open one, input of an open one, guide of any |
| DaemonLaws.ClientsOfStep | XboxDaemon/xbox_daemon.c:837-840 | the firmware is told of a client at its first association request outside a session, and at no other input |
| DaemonAnswers.AnswersOfStep | XboxDaemon/xbox_daemon.c:732-947 | read by a station's decoder, any input gets exactly the answers due, each from us and addressed to the sender: authentication one success with its algorithm and the next sequence number (2 after none or zero, wrapping), on the sender's WCID; a probe without a name our channel and the vendor element; a (re)association outside a session one success of the same kind; the first pairing stage the second; a first greeting the WCID; anything else none |
| DaemonHistory.EntryIsPlace | XboxDaemon/xbox_daemon.c:239-274 | the entry a sender has or gets is its place in the list of distinct contacts, up to the 126 permanent ones |
| DaemonHistory.SessionHistory | XboxDaemon/xbox_daemon.c:1133-1234 | after any run the controller at each of the first eight places has its handshake if and only if it ever sent a session frame, and its session and initial commands if and only if it ever sent an announce |
| DaemonHistory.CommandHistory | XboxDaemon/xbox_daemon.c:1034-1147 | the complete list of host commands of any run is a function of its inputs: three for each of the first eight controllers at its first announce, in the order of the announces, numbered through |
| DaemonSlots.SlotIsItsEvents | XboxDaemon/xbox_daemon.c:445-583 | after any run a slot with its guide flag and its whole report is the fold of its own events; it opens at rest with a neutral pad, its guide bit is lit exactly while the flag is set, and a closed slot is blank but for the guide |
| DaemonRadio.ChannelIsValid | XboxDaemon/mt76_init.h:1114-1154 | the pairing channel is always one of 36, 40, 44, 48; a forced one never changes and the hardware is never retuned |
| DaemonRadio.SwitchSchedule | XboxDaemon/mt76_init.h:1114-1154 | hardware channel switches are more than 2000 ms apart, any four in a row visit all four channels, and the channel follows the latest switch |
| DaemonRadio.LockHolds | XboxDaemon/xbox_daemon.c:211-217 | pairing traffic at time t keeps the channel locked until at least t + 5000, however much more traffic follows |
| DaemonRadio.ChannelMovesOnlyWhenIdle | XboxDaemon/xbox_daemon.c:1525-1538 | if a step changes the channel, it is a wake-up of an unforced daemon with no active slot, at least 5000 ms after every earlier pairing frame |
| DaemonRadio.UsbTuning | XboxDaemon/xbox_daemon.c:1400-1466 | USB traffic never tunes the radio, and locks the channel exactly when it is pairing traffic |
| DaemonWakeups.HopsWhenDue | XboxDaemon/mt76_init.h:1114-1154 | at a wake-up the hardware is retuned if and only if nothing is forced, no slot is active, every pairing frame is at least 5000 ms old and the last switch (or 0) more than 2000 ms; it goes to the next of 36, 40, 44, 48, and the daemon's channel follows as soon as the scan may run |
| DaemonWakeups.LockIsLatest | XboxDaemon/xbox_daemon.c:211-217 | the lock ends exactly five seconds after the latest pairing traffic of the run, and there is none before the first |
| DaemonWakeups.ChannelHistory | XboxDaemon/xbox_daemon.c:1525-1538 | the channel at any moment is the forced one, or 44 until a scan runs, or the one of the cycle that the number of switches so far points to |
| DaemonWakeups.WakeSends | XboxDaemon/mt76_init.h:1114-1154 | all a wake-up sends: the pairing beacon when its flag changes, and with a switch of a scan that knows its MAC a beacon under that MAC on the new channel |
| DaemonWakeups.WakeLeaves | XboxDaemon/mt76_init.h:1114-1154 | the radio after any wake-up, field by field; the scan MAC is the Xbox prefix and the last three bytes of the first EFUSE read that works |
| DaemonWakeups.BeaconOfStep | XboxDaemon/xbox_daemon.c:219-228 | the beacon flag after any input and the beacons written by it: off at a first session frame or pairing request in single mode, as the free slots say in multi-pair mode, on with the dongle button, a lost client in multi-pair mode and whenever nobody is connected; written exactly when it changes, and with every switch |
| DaemonWakeups.BeaconFromPowerOn | XboxDaemon/xbox_daemon.c:219-228 | the beacon is on from power-on until an input turns it off |
| DaemonWakeups.BeaconBits | XboxDaemon/mt76_init.h:870-880 | writing a beacon sets bits 16 to 20 of the beacon timer and leaves the others |
| DaemonWakeups.KickBits | XboxDaemon/mt76_init.h:346-352 | an EFUSE read sets the kick bit, clears address and mode and leaves the other bits |
| Gip.BareRoundTrip | XboxDaemon/xbox_daemon.c:467-560 | a bare 14-byte state with any bytes behind it decodes to itself exactly under a condition on its own fields and those bytes: not taken for a wrapped one, no out-of-range left trigger that the 16-byte reading would repair; or taken for a wrapped one and repeated eight bytes further on in the layout that is then read |
| Gip.PlausibleRoundTrip | XboxDaemon/xbox_daemon.c:467-560 | with triggers up to 4095 a bare state decodes to itself if and only if it is not taken for a wrapped one or is repeated eight bytes further on |
| Gip.ReadAs14 | XboxDaemon/xbox_daemon.c:491-500 | the 14-byte reading of a payload is a given state if and only if the payload starts with its encoding |
| Gip.ReadAs16 | XboxDaemon/xbox_daemon.c:504-535 | the 16-byte reading is a given state if and only if its button word means the buttons and bytes 4 to 15 encode the rest |
| Gip.BareLooksWrapped | XboxDaemon/xbox_daemon.c:473-479 | a bare state is taken for a wrapped one exactly when ten bytes follow it, its right trigger's low byte is 0x20 and its left stick's high byte is at least 14 |
| Gip.BareCanBeMisread | XboxDaemon/xbox_daemon.c:473-500 | a concrete state with triggers in range that ten trailing bytes turn into another one |
| Gip.WrappedRoundTrip | XboxDaemon/xbox_daemon.c:480-500 | behind the 8-byte wrapper, whatever its other bytes are, a state decodes to itself if and only if its left trigger is in range or the 16-byte reading would have triggers out of range too |
| Gip.LayoutChoice | XboxDaemon/xbox_daemon.c:537-549 | only payloads too short for 14 bytes are dropped; the reported triggers are in range whenever one of the two readings has them in range, and a plausible 14-byte reading is never overruled |
| Gip.GuideAfterInput | XboxDaemon/xbox_protocol.h:197-235 | setting the guide bit of a report afterwards equals building the report with the new guide flag |
| Gip.GipFrameRoundTrip | XboxDaemon/xbox_protocol.h:240-251 | dispatch recovers command, flags, sequence and payload of a built packet, trailing radio bytes or not |
| Gip.GipBuild | XboxDaemon/xbox_protocol.h:240-251 | writes the packet into the caller's buffer, leaves the rest of the buffer alone, and writes nothing when it does not fit |
| Gip.FillReport | XboxDaemon/xbox_protocol.h:197-235 | the field-by-field filling with OR-ed bits gives a report that shows the state: six numbers by name, each side of the pad exactly when held without its opposite and no pair cancels, each report bit exactly when its one button is held or the guide flag is set |
| Gip.ReportShows | XboxDaemon/xbox_protocol.h:197-235 | the report of a state holds its four sticks and two triggers under their own names, its pad as a direction and its buttons bit by bit |
| Gip.DecodesBytes | XboxDaemon/xbox_daemon.c:467-560 | every payload decodes to the state in its bytes: start at 0 or behind the wrapper, two bytes later when only there the triggers are in range, each number by its two bytes with its sign, each button by its bit; it is dropped exactly when 14 bytes are not there |
| Gip.FillButtons | XboxDaemon/xbox_protocol.h:197-212 | a report bit is set if and only if the one controller button assigned to it is pressed, or it is the guide bit and the flag is set; share and padding bits stay clear |
| Gip.ButtonsAreDistinct | XboxDaemon/xbox_protocol.h:197-212 | no two report bits stand for the same button |
| Gip.ParseInput | XboxDaemon/xbox_daemon.c:467-560 | the source's two readings and three-way tie-break on the triggers decode every payload, short ones included, as the choice between the layouts says |
| Text.StrstrIsFirst | XboxDaemon/xbox_hid_bridge.c:109-143 | the needle search returns the first occurrence, and none only when there is none |
| Text.StrtolInvertsDec | XboxDaemon/xbox_hid_bridge.c:116-121 | reading a printed signed number returns it and stops right behind it |
| Text.TokensOfUnlines | XboxDaemon/xbox_hid_bridge.c:302-306 | splitting newline-terminated lines gives back exactly those lines |
| EventLines.FindsKey | XboxDaemon/xbox_hid_bridge.c:109-123 | in a line made of well-formed fields the first hit of a key needle is the field with that key, never a value or part of another key |
| EventLines.MissesKey | XboxDaemon/xbox_hid_bridge.c:109-123 | a key that no field has is not found anywhere in the line |
| EventLines.MissingIsZero | XboxDaemon/xbox_hid_bridge.c:109-123 | in a line of well-formed fields a missing key reads as missing, and as zero where zero is the default |
| EventLines.TypeIsExact | XboxDaemon/xbox_hid_bridge.c:138-143 | a type test succeeds on a line if and only if the line has exactly that type |
| EventLines.PrintIsLine | XboxDaemon/xbox_daemon.c:562-571 | the printed format strings are such lines |
| EventLines.ReadsKind | XboxDaemon/xbox_hid_bridge.c:138-143 | every kind of event is recognised as itself and as nothing else, although one kind's name ends another's |
| EventLines.KindsSeen | XboxDaemon/xbox_hid_bridge.c:222-249 | the readers' chain of type tests takes the branch of the event's own kind |
| EventLines.ReadsSlot | XboxDaemon/xbox_hid_bridge.c:109-123 | the slot of every event is read back exactly |
| EventLines.ReadsPressed | XboxDaemon/xbox_hid_bridge.c:125-136 | the guide flag is read back exactly |
| EventLines.ReadsButtons | XboxDaemon/xbox_hid_bridge.c:190-220 | the button word is read back exactly |
| EventLines.ReadsTriggers | XboxDaemon/xbox_hid_bridge.c:190-220 | both triggers are read back exactly |
| EventLines.ReadsSticks | XboxDaemon/xbox_hid_bridge.c:190-220 | all four signed stick values are read back exactly |
| EventLines.DatagramIsLine | XboxDaemon/xbox_daemon.c:104-126 | no event is ever cut by the 320-byte buffer |
| EventLines.StreamRoundTrip | XboxDaemon/xbox_hid_bridge.c:302-306 | any number of events in one buffer split back into exactly their lines, in order |
| EventLines.JsonGetInt | XboxDaemon/ryujinx_sdl_inject.c:206-220 | the pointer walk finds what the functional scanner finds and leaves the default otherwise |
| EventLines.JsonGetBool | XboxDaemon/xbox_hid_bridge.c:125-136 | the same for booleans |
| EventLines.SplitLines | XboxDaemon/xbox_hid_bridge.c:302-306 | the in-place splitting loop yields exactly the non-empty lines |
| Bridge.LineIsEvent | XboxDaemon/xbox_hid_bridge.c:222-249 | handling a printed event does to the bridge's slots exactly what the event means, for every event and every slot state |
| Bridge.DatagramIsEvent | XboxDaemon/xbox_hid_bridge.c:290-307 | the same for a received datagram |
| Bridge.NeedsSlot | XboxDaemon/xbox_hid_bridge.c:222-249 | a line of well-formed fields without a slot number changes nothing |
| Bridge.NeedsDevice | XboxDaemon/xbox_hid_bridge.c:145-164 | while the system refuses to create gamepads no text activates a slot |
| Bridge.HidBridge.constructor | XboxDaemon/xbox_hid_bridge.c:33 | all slots start empty |
| Bridge.HidBridge.HandleConnected | XboxDaemon/xbox_hid_bridge.c:145-164 | an idle slot becomes active with a neutral report, anything else is left alone |
| Bridge.HidBridge.HandleDisconnected | XboxDaemon/xbox_hid_bridge.c:166-177 | an active slot is emptied |
| Bridge.HidBridge.HandleGuide | XboxDaemon/xbox_hid_bridge.c:179-188 | only an active slot takes the guide flag and bit |
| Bridge.HidBridge.HandleInput | XboxDaemon/xbox_hid_bridge.c:190-220 | only an active slot takes the report of the scanned state |
| Bridge.HidBridge.HandleEventLine | XboxDaemon/xbox_hid_bridge.c:222-249 | one line of any text updates the slots as the specification of the reader says |
| Bridge.HidBridge.Receive | XboxDaemon/xbox_hid_bridge.c:293-307 | one datagram of any text is handled line by line, in order |
| Agreement.GuideTracks | XboxDaemon/xbox_daemon.c:574-583 | if the two programs agree on a slot, a guide message keeps them agreeing on it if and only if it is for another slot, a release, or the slot is active |
| Agreement.StepTracks | XboxDaemon/xbox_daemon.c:1236-1493 | if the two programs agree on a slot, any step keeps them agreeing on it if and only if it is not a guide press in a data frame to us from that slot's own controller, past its handshake, while the slot is inactive |
| Agreement.SlotAgreement | XboxDaemon/xbox_hid_bridge.c:145-249 | slot by slot over a whole run: replaying the events gives the daemon's slot (active, guide flag, report) at every moment if and only if no input is a guide press from that slot's own controller while the slot is idle, whatever the other controllers do |
| Agreement.ReplicaAgreement | XboxDaemon/xbox_hid_bridge.c:145-249 | hence all eight slots agree at every moment if and only if no input is such a guide press for any slot |
| Agreement.InputsDecide | XboxDaemon/xbox_daemon.c:574-583 | the emitted stream contains no guide press for a slot while it is offline if and only if the inputs contain none for it while it is idle, and then the programs agree on it |
| Agreement.SystemAgreement | XboxDaemon/xbox_hid_bridge.c:290-307 | in every interleaving of daemon steps and in-order deliveries, reading what is in flight, as text, gives the daemon's slot, for each slot whose own controller never presses its guide while it is idle |
| Agreement.WireHoldsTheRest | XboxDaemon/xbox_daemon.c:104-126 | the datagrams in flight are exactly what separates the bridge from the daemon's events |
| GuideGap.ReplicasCanDiffer | XboxDaemon/xbox_daemon.c:574-583 | on every configuration and for every MAC two concrete frames (controller lost, then guide pressed) make the two programs differ |
| GuideGap.ReceivesAirData | XboxDaemon/xbox_daemon.c:1273-1333 | a transfer laid out as RxInfo, RxWi, header, body, end marker is unpacked into its type, addresses and body |
| InjectorRuns.LateJoiner | XboxDaemon/ryujinx_sdl_inject.c:497-613 | when SDL is there and attaching works: after missing any prefix of a grammatical stream the injector holds a device for exactly the slots that are online and whose controller connected or sent input since it joined |
| InjectorRuns.LateJoinerOfDaemon | XboxDaemon/ryujinx_sdl_inject.c:550-629 | the same against every run of the daemon, for every joining point, with the stream read as text |
| InjectorRuns.OnlyWhileOnline | XboxDaemon/ryujinx_sdl_inject.c:497-613 | whatever SDL answers, the injector never holds a device for a slot the stream has offline |
| InjectorRuns.OnlyForActiveSlots | XboxDaemon/ryujinx_sdl_inject.c:497-629 | whatever SDL answers, in every run of the daemon and for every joining point a device is held only for a slot the daemon has active |
| InjectorRuns.Conservation | XboxDaemon/ryujinx_sdl_inject.c:497-613 | after any lines and any answers of SDL the attached devices are exactly the active slots' devices, the mutex is free, it was never taken twice, and every device was touched only under it and only while attached; a device that did not open was detached by the next call; a device is detached only by the call after its close or its failed opening |
| InjectorRuns.DetachedOnce | XboxDaemon/ryujinx_sdl_inject.c:534-548 | in a disciplined list of calls, a second detach of an id that was attached at most once at the first is preceded by a new attach of it |
| InjectorRuns.NeverDetachedTwice | XboxDaemon/ryujinx_sdl_inject.c:497-548 | the same for the calls made over any lines, when SDL hands out no id that is still attached |
| InjectorRuns.Calibration | XboxDaemon/ryujinx_sdl_inject.c:575-612 | whatever SDL answers and whenever it becomes available: a slot's baseline is the first input since its device appeared and stays so as long as the device does; each stick shown plus the first reading is the latest reading, each trigger shown is the distance of the two, up to 4095 |
| InjectorDisplay.DeviceShows | XboxDaemon/ryujinx_sdl_inject.c:343-426 | as long as SDL does not return an id in use: the last value given to each axis, button and hat of a slot's device, read off all SDL calls so far, is that of the latest input relative to the first one: sticks by dead zone and gain, cut to 16 bits, up negative; triggers as the share of 32767; each axis in its role, each button by its bit, the hat by direction |
| InjectorDisplay.JoinedShows | XboxDaemon/ryujinx_sdl_inject.c:343-426 | over any stream every device held shows its slot's whole state, and no two slots hold one device |
| InjectorDisplay.FurtherRight | XboxDaemon/ryujinx_sdl_inject.c:248-257 | with the same first input a stick further to the right never shows further to the left |
| InjectorDisplay.AttachesExactly | XboxDaemon/ryujinx_sdl_inject.c:497-532 | a connect gives an empty slot a device if and only if SDL is there, the id is positive (SDL 3) or not negative (SDL 2), and it opens |
| InjectorDisplay.NeedsSlotAndButtons | XboxDaemon/ryujinx_sdl_inject.c:550-560 | an input line without a slot number or without buttons changes nothing |
| InjectorRuns.RestIsCentred | XboxDaemon/ryujinx_sdl_inject.c:575-612 | whatever the resting position, the first input shows centred sticks and released triggers |
| InjectorRuns.AxisCarries | XboxDaemon/ryujinx_sdl_inject.c:343-398 | each of the six axes is set once, to the control that layout and swaps assign to it |
| InjectorRuns.RolesAreDistinct | XboxDaemon/ryujinx_sdl_inject.c:343-398 | under every layout and swap no control drives two axes |
| Injector.TriggerMonotone | XboxDaemon/ryujinx_sdl_inject.c:240-246 | a trigger pressed further shows strictly more, over the whole range |
| Injector.StickMonotone | XboxDaemon/ryujinx_sdl_inject.c:248-257 | scaling keeps the order of stick readings, and only the dead zone and zero are silent |
| Injector.TriggerAxis | XboxDaemon/ryujinx_sdl_inject.c:240-246 | never negative, zero exactly when released, full exactly from 4095 on |
| Injector.LineIsEvent | XboxDaemon/ryujinx_sdl_inject.c:615-629 | handling a printed event does exactly what the event means, for every event and state |
| Injector.SdlInjector.constructor | XboxDaemon/ryujinx_sdl_inject.c:721-723 | all slots start blank |
| Injector.SdlInjector.TakeLock | XboxDaemon/ryujinx_sdl_inject.c:504 | needs a free mutex, so it can never wait for itself |
| Injector.SdlInjector.ReleaseLock | XboxDaemon/ryujinx_sdl_inject.c:531 | frees the mutex |
| Injector.SdlInjector.EnsureSdlReady | XboxDaemon/ryujinx_sdl_inject.c:428-495 | the API found first is kept |
| Injector.SdlInjector.SetAxes | XboxDaemon/ryujinx_sdl_inject.c:343-398 | writes the six axes of the slot in order |
| Injector.SdlInjector.SetButtons | XboxDaemon/ryujinx_sdl_inject.c:400-421 | writes the seventeen buttons of the slot in order |
| Injector.SdlInjector.ApplySlotStateLocked | XboxDaemon/ryujinx_sdl_inject.c:343-426 | writes the whole state of an open device and nothing for another |
| Injector.SdlInjector.HandleConnected | XboxDaemon/ryujinx_sdl_inject.c:497-532 | the new state and every SDL call, on every path, end with the mutex free |
| Injector.SdlInjector.HandleDisconnected | XboxDaemon/ryujinx_sdl_inject.c:534-548 | an active slot's device is closed, detached and forgotten |
| Injector.SdlInjector.HandleInput | XboxDaemon/ryujinx_sdl_inject.c:550-613 | slot and buttons are required, a missing device is attached first, missing axes are zero |
| Injector.SdlInjector.UpdatePad | XboxDaemon/ryujinx_sdl_inject.c:575-612 | calibrates once, then shows the offset readings |
| Injector.SdlInjector.HandleLine | XboxDaemon/ryujinx_sdl_inject.c:615-629 | one line of any text updates the injector as its specification says |
| Injector.SdlInjector.Receive | XboxDaemon/ryujinx_sdl_inject.c:693-713 | one datagram of any text is handled line by line |
| Framing.CommandFields | XboxDaemon/mt76_init.h:191-198 | the command and port fields of a descriptor survive exactly for commands below 128; length, sequence and type always do |
| Framing.FirmwareFields | XboxDaemon/mt76_init.h:200-205 | the firmware descriptor decodes to its length, port 2 and type 0 |
| Framing.FieldsAreDisjoint | XboxDaemon/mt76_init.h:191-198 | the OR of the descriptor's fields is their sum |
| Framing.FixedFieldsAreDisjoint | XboxDaemon/mt76_init.h:915-919 | the same for the firmware and the 802.11 descriptor |
| Framing.McuRoundTrip | XboxDaemon/mt76_init.h:303-326 | a command packet decodes to its command and padded data if and only if the command is below 128 and the padded length fits 16 bits |
| Framing.McuAligned | XboxDaemon/mt76_init.h:303-326 | every command packet is a multiple of four bytes long, eight more than its padded data |
| Framing.McuCmd | XboxDaemon/mt76_init.h:303-326 | the zeroed buffer filled by two copies is that packet |
| Framing.WlanRoundTrip | XboxDaemon/mt76_init.h:899-955 | every frame up to 2048 bytes comes back with its WCID and asks for an acknowledgement exactly when it is no group frame; the packet is a multiple of four bytes; longer frames are not sent |
| Framing.WlanTransmit | XboxDaemon/mt76_init.h:899-955 | the buffer filled step by step is that packet |
| Framing.GipRoundTrip | XboxDaemon/xbox_daemon.c:968-1032 | every GIP message of 1 to 100 bytes comes back with the peer's WCID, its MAC as receiver, us as sender and network, and its exact bytes, in a QoS data frame from the access point with a plain TxWi; other lengths are not sent |
| Framing.WlanSendGip | XboxDaemon/xbox_daemon.c:968-1032 | the payload buffer filled with a moving offset is that packet, and nothing is sent for an inactive peer |
| Framing.SentIsLogged | XboxDaemon/xbox_daemon.c:968-1032 | the state machine logs a GIP message exactly when a packet leaves, and logs what the packet decodes to |
| Framing.ResponsesReach | XboxDaemon/xbox_daemon.c:732-947 | none of the five management answers is too long to be sent, and each arrives at the station it answers |
| Firmware.Dongle.LoadPart | XboxDaemon/mt76_init.h:375-415 | against any script of answers the part is accepted if and only if every chunk is answered in time and in full; then the whole part is in memory at its place, and in every case memory only gains a prefix of it |
| Firmware.Dongle.LoadChunk | XboxDaemon/mt76_init.h:379-411 | one chunk is accepted exactly when the transfer did not fail and the completion word for its length appears in time |
| Firmware.Dongle.PollDone | XboxDaemon/mt76_init.h:273-285 | at most 200 reads, successful exactly when the device finishes within them with the expected word |
| Firmware.CompletionTells | XboxDaemon/mt76_init.h:394-410 | completion words of different lengths differ, and none equals a length the driver itself wrote |
| Firmware.CompletionIsOr | XboxDaemon/mt76_init.h:406 | the OR of the completion bits is a sum |
| Firmware.ImagePlaced | XboxDaemon/mt76_init.h:421-479 | after a load, data memory holds the data part, every byte of the code part is in instruction memory except those whose place lies in the data part's, which hold the data part's byte, and no other address changed |
| Firmware.Dongle.LoadImage | XboxDaemon/mt76_init.h:472-480 | both parts are accepted if and only if every chunk of the code part and then of the data part is answered well, and then the image is in memory |
| Firmware.Dongle.UploadFwDma | XboxDaemon/mt76_init.h:421-497 | the result for every file, script of answers and setting; a start means that the image is loaded, a refusal or reuse that memory is untouched |
| Firmware.SizeCheckMeans | XboxDaemon/mt76_init.h:421-437 | below four gigabytes a file holds its image if and only if it passes the size check and the header's lengths do not wrap |
| Firmware.SizeCheckCanWrap | XboxDaemon/mt76_init.h:433-436 | for every length the loader accepts, a concrete file of that length that passes the check although its image is not in it |
| Firmware.UploadFirmware | XboxDaemon/mt76_firmware.h:99-152 | against any device the loop ends, the accepted bytes are a prefix of the file, and 0 is returned only if some byte was accepted |
| Firmware.PassesBounded | XboxDaemon/mt76_firmware.h:99-152 | at most three passes per accepted byte, plus three |
| Firmware.WhyShort | XboxDaemon/mt76_firmware.h:119-144 | for any device, read off its answers alone: the whole file is accepted if and only if some pass delivers its last byte, the upload fails on idle passes if and only if some pass is the third idle one in a row, and it stops short without failing if and only if some pass with bytes left ends on a vanished device or a transfer reported as complete |
| Firmware.ZeroMayBePartial | XboxDaemon/mt76_firmware.h:147-152 | a concrete device for which 0 is returned after one byte of two |
| Daemon.XboxDaemon.constructor | XboxDaemon/xbox_daemon.c:56-90 | starts in the initial state of the state machine |
| Daemon.XboxDaemon.FindPeerByMac | XboxDaemon/xbox_daemon.c:239-246 | the loop finds the first entry in use with that MAC, or none |
| Daemon.XboxDaemon.AllocatePeer | XboxDaemon/xbox_daemon.c:253-268 | the next entry is filled and the next WCID stops at the last one |
| Daemon.XboxDaemon.RememberPeer | XboxDaemon/xbox_daemon.c:248-274 | takes the abstract state where remembering the MAC takes it |
| Daemon.XboxDaemon.SlotOfPeer | XboxDaemon/xbox_daemon.c:957-966 | assigns the slot once, by WCID, and only below eight |
| Daemon.XboxDaemon.ActiveSlotCount | XboxDaemon/xbox_daemon.c:230-237 | counts the active slots |
| Daemon.XboxDaemon.SetPairingBeacon | XboxDaemon/xbox_daemon.c:219-228 | writes the beacon only when the flag changes |
| Daemon.XboxDaemon.Connect | XboxDaemon/xbox_daemon.c:445-455 | activates an idle slot and reports it |
| Daemon.XboxDaemon.Disconnect | XboxDaemon/xbox_daemon.c:457-465 | clears an active slot and reports it; the peer keeps its handshake |
| Daemon.XboxDaemon.ReportInput | XboxDaemon/xbox_daemon.c:467-572 | stores and reports the decoded state of an active slot |
| Daemon.XboxDaemon.ReportGuide | XboxDaemon/xbox_daemon.c:574-583 | stores and reports the guide flag of any slot, active or not |
| Daemon.XboxDaemon.WlanSendGip | XboxDaemon/xbox_daemon.c:968-1032 | sends only for an active peer and only what fits |
| Daemon.XboxDaemon.GipNextSequence | XboxDaemon/xbox_daemon.c:1034-1040 | never yields zero |
| Daemon.XboxDaemon.SendFrame | XboxDaemon/xbox_daemon.c:1042-1057 | packs and sends, or nothing when it does not fit |
| Daemon.XboxDaemon.SendHostCommand | XboxDaemon/xbox_daemon.c:1059-1084 | takes the next number and sends |
| Daemon.XboxDaemon.SendGipAck | XboxDaemon/xbox_daemon.c:1086-1109 | acknowledges to the sender with the sequence number received |
| Daemon.XboxDaemon.HandleAnnounce | XboxDaemon/xbox_daemon.c:1133-1147 | initial commands once, then the session is initialised |
| Daemon.XboxDaemon.HandleCommand | XboxDaemon/xbox_daemon.c:1127-1162 | takes the branch of the command byte |
| Daemon.XboxDaemon.DispatchGip | XboxDaemon/xbox_daemon.c:1111-1163 | acknowledges if asked, then handles |
| Daemon.XboxDaemon.AnswerAssoc | XboxDaemon/xbox_daemon.c:808-843 | adds the client to the firmware once, then answers |
| Daemon.XboxDaemon.HandleAssocRequest | XboxDaemon/xbox_daemon.c:1441-1466 | answers only without an initialised session |
| Daemon.XboxDaemon.AnswerProbe | XboxDaemon/xbox_daemon.c:769-806 | answers with the current channel |
| Daemon.XboxDaemon.AnswerAuth | XboxDaemon/xbox_daemon.c:857-916 | answers with algorithm, next sequence and success |
| Daemon.XboxDaemon.HandlePairRequest | XboxDaemon/xbox_daemon.c:1408-1430 | answers only the first pairing stage |
| Daemon.XboxDaemon.HandleAction | XboxDaemon/xbox_daemon.c:1165-1190 | the one-time handshake |
| Daemon.XboxDaemon.HandleData | XboxDaemon/xbox_daemon.c:1192-1234 | implicit handshake, beacon, dispatch |
| Daemon.XboxDaemon.LockPairingChannel | XboxDaemon/xbox_daemon.c:211-217 | five seconds from now |
| Daemon.XboxDaemon.HandleManagement | XboxDaemon/xbox_daemon.c:1361-1466 | takes the branch of the frame's subtype |
| Daemon.XboxDaemon.HandleCpuEvent | XboxDaemon/xbox_daemon.c:1468-1484 | client lost and dongle button |
| Daemon.XboxDaemon.HandleTransfer | XboxDaemon/xbox_daemon.c:1273-1490 | any USB transfer takes the abstract state exactly one step of the state machine further |
| Daemon.XboxDaemon.HandleTick | XboxDaemon/xbox_daemon.c:1518-1545 | so does any wake-up |
| Daemon.XboxDaemon.AddWcidEntry | XboxDaemon/mt76_init.h:961-979 | the MAC goes into the two words of its own entry |
| Daemon.XboxDaemon.LearnScanMac | XboxDaemon/mt76_init.h:1122-1132 | the MAC is read until that works once, then kept |
| Daemon.XboxDaemon.SwitchScanChannel | XboxDaemon/mt76_init.h:1138-1151 | the next channel of the cycle, the time of the switch, and a beacon only with a known MAC |
| Daemon.XboxDaemon.PairingChannelScan | XboxDaemon/mt76_init.h:1114-1154 | learns the MAC once, switches at most every two seconds, returns the channel of the scan |
| Daemon.Live | XboxDaemon/xbox_daemon.c:1236-1549 | the program fed with any inputs reaches exactly the state the run of the state machine describes, so every statement about runs is about the program |

## Left out

- libusb, IOKit and CoreFoundation calls, SDL symbol lookup, sockets, `getenv`, printing and sleeping: parameters, scripts of answers or traces of calls stand for them.
- Data races between the two reader threads and the main thread: steps are atomic.
- HID devices of the daemon and the bridge and the posting of reports to them: only the report value is modelled; the agreement statements take the bridge's device creation to succeed, `HidBridge` itself takes either answer.
- Loss, duplication and reordering of UDP datagrams: the wire of `Agreement` is a FIFO. Missing any prefix is covered by `InjectorRuns.LateJoiner`.
- The constant register sequence of `mt76_init_registers`, crystal trim, TX power, calibration commands and status dumps: device constants; device initialisation comes before the modelled runs.
- Read-back of the beacon and EFUSE control registers: taken to be the value last written.
- The bytes of the beacon frame and its effect on the air: `mt76_write_beacon` uses its pairing argument only for printing, so beacon on and off is a flag of the daemon here as it is there.
- The hardware channel set once at start-up in forced mode, which subtracts 12 from the decimal channel: only the daemon's own channel value is modelled.
- Two readings of the clock in one wake-up (lock test and channel scan): one reading stands for both.
- `process_frame`, `send_ack`, `probe_in_ep`: dead code.
- `XboxOneWirelessDriver`, `XboxControlCenter`, the Python tools and shell scripts: earlier or surrounding code with no property beyond those proved here.
- DaemonTheorems.ClientAddOnce: entry 127 is not covered, because it is recycled and its clients are added again.
- Firmware.Dongle.UploadFwDma: an image that lies outside the file, or lengths that would wrap the loop's 32-bit counter, end in `Undefined` at once; what the C code does after reading past the file has no defined result. The fixed FCE and USB DMA set-up writes before the load are not modelled.
- DMA devices that store anything but a prefix of the bytes they were sent, or report another length than they stored: the scripts of answers leave them out.
- Firmware.UploadFirmware: clearing the endpoint's halt and the pause between passes are not modelled.
- Injector.SdlInjector.UpdatePad: the difference of two readings is a mathematical integer; in C it can overflow for numbers no daemon prints.
- InjectorRuns.Conservation: devices are counted by the id SDL returned; that SDL2 ids are positions in a list that shifts is not modelled.
- InjectorDisplay.DeviceShows: assumes that SDL never returns the id of a device that is still held; with such an answer two slots would write to one device.
