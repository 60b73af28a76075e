# Stairway light controller: verified model

A Dafny model of the stateful engines in the firmware of a stairway light controller, with
proofs of what each of them promises over every input and every run. Code that updates
buffers and fields step by step is modelled by classes, arrays and loops; each such method is
proved against a function of its input and its old state, and the promises are proved about
those functions.

Check the whole project with `dafny verify dfyconfig.toml` (Dafny 4.11).

## What is modelled

**Command line** (`cli/embedded_cli.h`, driven by `cli_putchar`). `EmbeddedCli` holds the
command buffer, right-relative cursor, history, receive queue and flags, with one method per
function of the original. Its line is specified by `CommandLine` (text left and right of the
cursor, history, calls made), its output by `CommandOutput`. About these:

- `LineEditor`: buffer bounds, cursor and history position over every keystroke sequence;
- `ScreenMirror`: fed to a terminal (`Terminal`, with the ECMA-48 functions CUF, CUB, ICH and
  DCH), the output always leaves the row equal to invitation, text, live completion and blanks;
- `EnteredLines`: completion is the longest common prefix, Enter on an exact name or on a unique
  prefix runs that binding, and CR, LF, CR LF and LF CR are interchangeable line by line;
- `EditorKeys`, `EditorPrints`: what every key does and prints, by the characters that are sent;
- `Fifo`, `PackedStrings`, `History`, `Tokenizer`, `Completion`, `CommandParts`, `Commands`: the
  ring buffer, the packed most-recently-used list, the tokenizer in place, and command lookup.

**HTTP** (`network/http_server`). `HttpRequest` reassembles a request from arbitrary TCP segments
and proves exactly when the cut is independent of the segmentation; `HttpResponse` streams
a response under arbitrary send-buffer sizes and write results; `HttpSession` joins the two into
one connection, over every order of segments, acknowledgements, polls and losses; `HttpWritten`
says what becomes of requests by the texts that clients write;
`JsonText`, `DecimalText`, `SettingsNames` and `SettingsJson` print the settings and read
them back by substring search.

**Stairway** (`main.c`, `stairway/stairway_leds.c`). `Stairway` is one iteration of the main
loop for the detectors, the people count and the sweeps' triggers; `Sweeps` is the four sweeps
and the tick; `Leds` is the strip with last-writer-wins states and a clamped fade. `Settling`
says exactly where every LED ends when sweeps overlap and are restarted, and `StairwayLights`
says it over runs of the main loop. `StairwayLaws` says when somebody is counted, when sweeps
start and when the timeout comes, in terms of the sensors and the clock.

**DHCP** (`DhcpOptions`, `DhcpServer`): the option format and the lease table over runs, with
the truncated expiry stamp and the wrapping 32-bit clock written out.

**Modbus and settings** (`CrcTheory`, `Crc16`, `Crc32`, `Modbus`, `ModbusRuns`, `SettingsRecord`,
`SettingsStore`, `SettingsUpload`): both check values are shown to be the same bit-serial division,
whose burst detection is proved once for any width, with the published check values
(`CheckValues`); frames, answers and timeouts, and which
callback belongs to which request over whole runs; the settings page with power cuts between
erase and program, and its way there from the web page.

## Where the code differs from its documentation

- A comment in `cli/embedded_cli.h:1230` says that help is printed when no other options are
  set. The code compares only the first token, so `cmd -h more` prints help as well;
  `Commands.TokensReachCommand` states the code's behaviour.
- A header with two consecutive line feeds before its first CR LF CR LF is cut at different
  places depending on the segments (`network/http_server/http_server.c:255-266`).
  `HttpRequest.SameCutIffClean` proves that this is the only such case, and
  `HttpRequest.DirtyStream` is one.
- A sweep triggered again before it has finished takes the new time but keeps its counter
  (`main.c:280-283`), so the strip can end divided. `Settling.SweepsSettle` proves that it shows
  the newest start if and only if that start found its counter at zero, `Settling.LedsSettle` says
  what each LED shows otherwise, and `RestartExample.RestartSplitsStrip` is a run of the main loop
  in which it happens.
- The receive interrupt reads a byte only while fewer than 255 are collected, but loops while one is
  readable (`modbus_master/modbus_master.c:88-94`). `ModbusRuns.HangsIff` proves that it never
  returns if and only if more than 255 bytes arrive with no request accepted between them, however
  short the awaited answer is. An answer too long for the buffer therefore hangs it with its 256th
  byte; if the main loop polls when exactly 255 bytes are there, the transaction ends without any
  callback (`:46`, `:203-205`). `ModbusRuns.LongReadFails` shows both.
- When received characters of the command line were lost, `cli/embedded_cli.h:907-911` empties the
  line but not the cursor's distance from its end, so a cursor inside the line is left before the
  buffer: `EmbeddedCli.Cli.ProcessQueue` states exactly when. `cli_putchar` never loses one
  (`EmbeddedCli.Cli.PutChar`).

## Conventions

A C string is the `string` before its terminator where only its value matters, and a stretch
of an `array<char>` ended by `'\0'` where it is rewritten in place. Ghost fields record what the
environment sees: characters written, chunks accepted, calls made. The caller passes clock
readings, send-buffer sizes, write results and power cuts as parameters.

The terminal theorem asks for a row no narrower than the invitation and the command buffer
together (less one column), and for commands whose output ends at the start of a blank row.
Binding names are nonempty words of printable characters that leave three characters of the
command buffer free.
The settings page leaves the compiler's field layout as a parameter; `SettingsStore.GoodEnv` lists
what is assumed of it: fields of the right kind, the default values spelled by the default bytes,
and an assignment to the access point's state that changes nothing else. That the defaults pass
the checks, and that such an assignment keeps settings acceptable, is proved, and
`SettingsStore.GoodEnvExists` gives a layout that meets the assumptions and tells bodies apart.
`SettingsUpload` also takes it that typed fields stored over a record read back
(`SettingsUpload.Spells`); `SettingsUpload.SpellingExists` gives a layout in which all of them do.
TCP is taken to acknowledge only bytes that it was given (`HttpSession.Honest`), where a theorem
says so.

## Model

| member | source | states |
|---|---|---|
| CrcTheory.ByteStep | modbus_master/modbus_master.c:30-37 | adding a whole byte to the register and shifting eight times is the bit-serial division by its bits, lowest first |
| CrcTheory.DivideConcat | modbus_master/modbus_master.c:29-38 | the register after two messages in a row is that of the second one started from the first one's register |
| CrcTheory.DivideLinear | modbus_master/modbus_master.c:31-36 | the division is linear: the register of a bitwise difference is the difference of the registers |
| CrcTheory.BurstRemainder | modbus_master/modbus_master.c:26-39 | an error pattern whose wrong bits lie within one register width has a nonzero remainder, for any register width and message length |
| CrcTheory.BurstChangesRemainder | modbus_master/modbus_master.c:60-61 | two messages that differ by such a burst never have the same remainder, whatever the initial register |
| CrcTheory.ZeroIffAppended | modbus_master/modbus_master.c:167-169 | the remainder of message and check is zero exactly when the check is the message's remainder |
| Crc16.CrcChk | modbus_master/modbus_master.c:26-39 | the loop computes the remainder of the reflected polynomial 0xA001 started from all ones |
| Crc16.WordBitsInjective | modbus_master/modbus_master.c:61 | comparing register words compares remainders: different words have different bits |
| Crc16.ResidueZeroIffChecked | modbus_master/modbus_master.c:60-61 | the whole frame's residue is zero exactly when its last two bytes, low byte first, are the check value of the rest |
| Crc16.BurstDetected | modbus_master/modbus_master.c:26-39 | a frame with residue zero that is damaged within 16 consecutive transmitted bits has a nonzero residue |
| CheckValues.CheckValue16 | modbus_master/modbus_master.c:26-39 | the CRC of the characters 1 to 9 is the published 0x4B37, which fixes divisor, bit order and start |
| Modbus.DamagedAnswerRejected | modbus_master/modbus_master.c:54-65 | an answer damaged within 16 consecutive bits is never reported as a success |
| Modbus.ReadAnswered | modbus_master/modbus_master.c:41-86 | the answer of a device that read the registers is a success and hands over exactly their bytes |
| Modbus.WriteAnswered | modbus_master/modbus_master.c:41-86 | so is the answer to a write, without data |
| Modbus.SuccessIff | modbus_master/modbus_master.c:41-86 | nothing but a long enough answer of this device to this function, with its check in place, is a success |
| Modbus.FrameSpells | modbus_master/modbus_master.c:126-163 | a frame holds the request's address and length with the high byte first, the length in bytes counted in one byte, and the data |
| Modbus.Master.Send | modbus_master/modbus_master.c:120-193 | refuses while busy and for unknown functions; else the frame is the request's body with a check that makes its residue zero, the receive buffer is empty, and the request and its time are those of the link's step |
| Modbus.Master.PutBody | modbus_master/modbus_master.c:126-163 | the send buffer holds the request's bytes in network order, with byte count and data for function 16 |
| Modbus.InterruptReturnsIff | modbus_master/modbus_master.c:88-94 | the interrupt's loop drains the readable bytes if and only if they and those already collected are at most 255, and then all are collected in order |
| Modbus.TurnsTake | modbus_master/modbus_master.c:88-94 | after any number of its turns the loop has taken as many bytes as turns, readable bytes and room allow, and no others |
| Modbus.Master.Interrupt | modbus_master/modbus_master.c:88-94 | the loop on the receive buffer does in any number of turns what those turns specify, and leaves the request alone |
| Modbus.Master.Decode | modbus_master/modbus_master.c:41-86 | the callback is the judgement of the received bytes, stated by the residue of the whole frame, with the data's place and announced length for functions 3 and 4 |
| Modbus.Master.Routine | modbus_master/modbus_master.c:199-215 | a transaction ends exactly when the answer or the buffer is complete or the timeout has passed, with the callback of the link's step, and without one exactly when 255 bytes are collected of an answer that is longer |
| ModbusRuns.ReceivedIsInterrupt | modbus_master/modbus_master.c:88-94 | a run goes on after an interrupt exactly when some number of turns drains the readable bytes, with the bytes that those turns collect |
| ModbusRuns.AcceptedIff | modbus_master/modbus_master.c:124-165 | a request is accepted exactly while none is under way, and for functions 3, 4, 6 and 16 |
| ModbusRuns.EndsOnce | modbus_master/modbus_master.c:120-215 | over every run of requests, interrupts and polls, at most one request ends between two accepted ones, and none before the first |
| ModbusRuns.EndsBeforeNext | modbus_master/modbus_master.c:120-215 | a request is accepted only after the one before it has ended, exactly once |
| ModbusRuns.EndBelongsTo | modbus_master/modbus_master.c:41-86 | every callback, and every end without one, is that of the request accepted last, comes at a poll at which it is due, and is told by the bytes received since it was accepted |
| ModbusRuns.EndsWhenDue | modbus_master/modbus_master.c:199-215 | in a run without a hang an accepted request that is due at a poll has ended by then, exactly once, with a callback if its answer fits the buffer |
| ModbusRuns.GoesOnUntilDue | modbus_master/modbus_master.c:199-215 | until a poll at which it is due, a request has not ended and no other one is accepted |
| ModbusRuns.HangsIff | modbus_master/modbus_master.c:88-94 | the interrupt hangs if and only if more than 255 bytes arrive with no request accepted between them, whatever answer is awaited |
| ModbusRuns.LongReadFails | modbus_master/modbus_master.c:46-215 | a read of 126 registers ends without a callback after any 255 bytes, and any byte more hangs the interrupt |
| DhcpOptions.FindWritten | network/dhcp_server/dhcpserver.c:146-181 | round trip: in any written list of options that fits with its end mark, the search returns the first option of a tag with its data, or nothing when it is absent |
| DhcpOptions.OptFind | network/dhcp_server/dhcpserver.c:146-154 | the scan returns where the reference search finds the tag, or nothing |
| DhcpOptions.OptWriteN | network/dhcp_server/dhcpserver.c:156-162 | writes tag, length and data at the pointer and nothing else |
| DhcpOptions.OptWriteU32 | network/dhcp_server/dhcpserver.c:172-181 | writes the value as four bytes in network order |
| DhcpOptions.EncodeAppend | network/dhcp_server/dhcpserver.c:156-162 | writing one more option appends its encoding to that of the list |
| DhcpServer.ExpiredIff | network/dhcp_server/dhcpserver.c:229-230 | at every time after the grant, the stamp reads as expired in the first 2^31 ms of each turn of the clock that begins when the 24 hours, rounded up to their 65536 ms unit, have passed, and as unexpired in the rest |
| DhcpServer.ExpiredSoon | network/dhcp_server/dhcpserver.c:229-230 | read within 2^31 ms of its grant, a stamp is expired exactly after the rounded 24 hours |
| DhcpServer.StepKeepsHolder | network/dhcp_server/dhcpserver.c:214-278 | no message takes a slot from its holder or promises it to someone else while its 24 hours last |
| DhcpServer.LeaseExclusive | network/dhcp_server/dhcpserver.c:214-278 | over every run of messages within 24 hours of an acknowledgement the slot stays with its client and is offered or acknowledged to no other |
| DhcpServer.DiscoverIgnoredIff | network/dhcp_server/dhcpserver.c:215-240 | DISCOVER is ignored exactly when every slot is held by another address under an unexpired stamp |
| DhcpServer.OfferIsGrantable | network/dhcp_server/dhcpserver.c:215-278 | what DISCOVER offers, a following REQUEST for it gets |
| DhcpServer.OwnSlotOffered | network/dhcp_server/dhcpserver.c:217-222 | a client that holds a slot is offered it, the first one if it holds several, wherever a spare one may be |
| DhcpServer.SpareSlotOffered | network/dhcp_server/dhcpserver.c:223-236 | any other client is offered the first slot that is free or has an expired stamp |
| DhcpServer.RequestIff | network/dhcp_server/dhcpserver.c:261-270 | a request is granted exactly when its slot exists and is the client's own or free, expired or not |
| DhcpServer.AddressKept | network/dhcp_server/dhcpserver.c:214-278 | over every run within 24 hours of an acknowledgement, every DISCOVER of the client is answered by an offer of the same slot, unless it held or asks for a lower one itself |
| DhcpServer.LowerSlotTaken | network/dhcp_server/dhcpserver.c:217-270 | a client that asks for a free lower slot is offered that one afterwards, so the exception is real |
| DhcpServer.MessageRead | network/dhcp_server/dhcpserver.c:210-260 | a message of type 1 asks for an offer, and one of type 3 for the slot that its address names in the server's network, in any other network for none |
| DhcpServer.ShortIgnored | network/dhcp_server/dhcpserver.c:193-201 | messages below 243 bytes are not looked at, and longer ones are |
| DhcpServer.AddressOf | network/dhcp_server/dhcpserver.c:242 | the slots' addresses are .16 to .23 of the server's network |
| DhcpServer.AddressNamesSlot | network/dhcp_server/dhcpserver.c:241-261 | a REQUEST message for the address that a reply carried is a request for the reply's slot |
| DhcpServer.ReplyReadsBack | network/dhcp_server/dhcpserver.c:284-289 | searching the written reply for any of its tags finds that option's value |
| DhcpServer.Server.Process | network/dhcp_server/dhcpserver.c:183-295 | messages below 243 bytes are ignored; else parsing the message and changing the lease array is the step of the lease table, and the reply is a datagram of 274 bytes with the operation code 2, the slot's address and the options |
| DhcpServer.Server.Answer | network/dhcp_server/dhcpserver.c:214-282 | only DISCOVER is answered by an offer and only REQUEST by an acknowledgement, each as the lease table says |
| DhcpServer.FindInField | network/dhcp_server/dhcpserver.c:146-154 | the bytes behind the 308-byte field do not change what the search finds |
| DhcpServer.Server.DiscoverLoop | network/dhcp_server/dhcpserver.c:216-236 | the single pass with its changing candidate yields the client's own slot, else the first available one, and clears expired slots as the table's step does |
| DhcpServer.Server.RequestSlot | network/dhcp_server/dhcpserver.c:261-272 | a slot is granted to its holder or when free, and refreshed with the truncated stamp |
| DhcpServer.Server.Request | network/dhcp_server/dhcpserver.c:246-278 | the requested address is checked against the server's own before the slot is touched |
| DhcpServer.Server.WriteReply | network/dhcp_server/dhcpserver.c:284-289 | the buffer holds exactly the encoded options of the reply and its end mark, 34 bytes |
| Leds.NewestWins | stairway/stairway_leds.c:66-69 | after any writes an LED has the newest time among them and its own, and the state of a write with that time |
| Leds.FirstOfNewestWins | stairway/stairway_leds.c:66-69 | of several writes with the newest time the first one stays, and an LED that no newer write reaches is unchanged |
| Leds.OrderIndependent | stairway/stairway_leds.c:62-72 | the same writes with distinct times leave an LED in the same state in every order |
| Leds.AfterConcat | stairway/stairway_leds.c:62-72 | writing two lists one after the other is writing their concatenation |
| Leds.FadeUp | stairway/stairway_leds.c:96-105 | after n refreshes a rising LED is exactly min(start + n steps, on value) |
| Leds.FadeDown | stairway/stairway_leds.c:107-113 | after n refreshes a falling LED is exactly max(start - n steps, off value) |
| Leds.FadeSettles | stairway/stairway_leds.c:95-117 | the value stays a byte and is at its target after at most 255 refreshes |
| Leds.Strip.SetState | stairway/stairway_leds.c:62-72 | an index beyond the strip is refused; else only that LED changes, and only for a newer time |
| Leds.Strip.Resize | stairway/stairway_leds.c:74-85 | the strip has the new length with every LED dark and without a time |
| Leds.Strip.Refresh | stairway/stairway_leds.c:87-124 | every LED takes one fade step towards its target, lit zones counting as on; without the update flag nothing has changed |
| Leds.ZoneEnds | stairway/stairway_leds.c:93-97 | the lower zone is the first LEDs of the strip and the upper one the last, each while it is lit |
| Sweeps.SweepStaysValid | main.c:361-411 | a counter is within the strip, and zero whenever its sweep is not active |
| Sweeps.SweepProgress | main.c:361-401 | after n ticks the sweep has written exactly the first n indices, and the emergency head start on the first tick |
| Sweeps.SweepCovers | main.c:361-411 | a sweep writes each index once, in order, and is idle with counter zero after exactly count - head start + 1 ticks |
| Sweeps.SweepOrder | main.c:361-411 | on sweeps light the LEDs from the end at which somebody enters, off sweeps darken them from the end opposite to the one at which the last one leaves, one LED a tick after those of the zone |
| Sweeps.NoStartNoWrites | main.c:361-411 | ticks without active sweeps change nothing |
| Sweeps.RunSweepsConcat | main.c:361-411 | the sweeps and writes of two stretches of events are those of one stretch after the other |
| Sweeps.Lights.AdvanceSweep | main.c:361-376 | one sweep's part of the tick, with the head start's loop, makes the writes and counter of the specification |
| Sweeps.Lights.RunTick | main.c:361-411 | a tick advances the four sweeps in the order of the source on the shared strip |
| Settling.RunTraced | main.c:276-411 | in every run from rest, each write belongs to a start that found its sweep not past the LED, and each such start has written, was overtaken by a restart, or is on its way |
| Settling.LedBelongsTo | main.c:276-411 | an LED ends with the time of the newest start whose sweep had not passed it, for any restarts, in the state first written with this time: that of a start of this time which took it, and the newest start's own unless such starts disagree |
| Settling.UntakenStays | main.c:276-411 | an LED that every start found already passed keeps its state |
| Settling.LedsSettle | main.c:276-411 | for starts in clock order, every LED has the time of the last start that found its sweep's counter not past the LED and the state first written with this time, or what it showed at first |
| Settling.SweepsSettle | main.c:280-283 | after the newest start and ticks until rest, the whole strip shows that start if and only if it found its sweep's counter at zero |
| Settling.UndisturbedSettle | main.c:361-411 | when no sweep is restarted in mid-run, every LED shows the newest start, whatever the order of the starts |
| Stairway.NetConcat | main.c:239-259 | counting crossings piecewise is counting them together |
| Stairway.NetNonNegative | main.c:255-259 | the count never becomes negative |
| Stairway.StepSettles | main.c:190-325 | one iteration ends with the previous count equal to the count, which is the old one plus its crossings, or zero after a timeout |
| Stairway.IterationIsSound | main.c:190-325 | along a run each iteration keeps times, sweeps and the count consistent |
| Stairway.CountingOverRuns | main.c:190-325 | the count is the net of all crossings since the last timeout, never negative, equal to the previous count between iterations, and zero with resting detectors while daylight blocks |
| Stairway.EntriesSeparated | main.c:217-270 | between two counted entries of one detector its sensors have been clear more than the debounce time after the first, or daylight has blocked it |
| Stairway.SweepsStayValid | main.c:276-325 | triggers and timeout keep every sweep's counter within the strip and zero when idle |
| StairwayLaws.CrossingIff | main.c:203-274 | an iteration counts somebody as entering exactly when the outer sensor was covered first, the inner one now, and in between the outer one was not clear for longer than the debounce time; leaving is the same with the sensors exchanged |
| StairwayLaws.RestsAgainIff | main.c:203-274 | a detector comes back to rest exactly when daylight blocks or its working sensors are clear longer than the debounce time after its last change |
| StairwayLaws.BlockIff | main.c:190-200 | over runs, daylight blocks exactly while it is there, is to be used, and nobody is on the stairs |
| StairwayLaws.LastCrossingIs | main.c:232-263 | the stamp that the timeout looks at is that of the last crossing that changed the count |
| StairwayLaws.TimeoutIff | main.c:312-325 | an iteration counts its crossings, and empties the stairs if and only if somebody is there, all four sweeps rest, and the last crossing that changed the count is longer ago than the off timeout |
| StairwayLaws.LastTickIs | main.c:351-352 | an iteration ticks exactly when more than the interval has passed since the start of the last one that did |
| StairwayLaws.EventsAre | main.c:276-353 | an entry starts the on sweep of its side, the last one's leaving the off sweep of its side, the timeout the off sweep away from the last entry, and nothing else starts one |
| StairwayLights.StepIsEvents | main.c:276-411 | an iteration changes the sweeps and writes the strip as its starts, its timeout and its tick do in this order, although the timeout skips the triggers' guard |
| StairwayLights.RunIsEvents | main.c:276-411 | so does a whole run of the main loop |
| StairwayLights.RunTimed | main.c:276-411 | along a run the start times never go back |
| StairwayLights.LedsOverRuns | main.c:190-411 | whenever the sweeps of a main-loop run rest, each LED has the time of the last start that found its sweep not past it and the state first written with this time, which is that start's own unless opposite starts share the millisecond |
| StairwayLights.LastStartOverRuns | main.c:190-411 | once the sweeps of a main-loop run rest, the strip shows the run's last start if and only if it found its counter at zero |
| RestartExample.RestartSplitsStrip | main.c:276-291 | eight iterations in which a second entry restarts a running sweep and the strip ends half dark with somebody on the stairs |
| Stairway.Controller.UpdateBlock | main.c:190-200 | daylight blocks only while nobody is counted, and stops blocking at once |
| Stairway.Controller.UpdateDetector | main.c:202-274 | one detector's switch with blocking, faulty sensors, count and count time |
| Stairway.Controller.UpdateDetectors | main.c:202-274 | both detectors in turn |
| Stairway.Controller.Count | main.c:190-311 | blocking, detectors and sweep triggers together |
| Stairway.Controller.StartSweeps | main.c:276-311 | a risen count starts the on sweep of every detector that stands in Inc, whether it entered now or earlier, each at its own clock reading; a count that fell to zero starts the off sweep of every detector that stands in Dec |
| Stairway.Controller.TimeoutAndTick | main.c:312-411 | the timeout resets the count and starts the off sweep opposite the last entry; the tick runs when its interval has passed, with its writes to the strip |
| Stairway.Controller.Iterate | main.c:190-411 | the iteration on the fields and the strip is the step of the specification with its writes |
| Stairway.Clock.GetTimeMs | main.c:85-93 | a reading adds the time since the last one less whole turns of the raw clock, so the 64-bit time stays true exactly while readings are less than 2^32 ms apart |
| Crc32.SettingsCrc | settings/settings.c:18-28 | the loop computes the complemented remainder of the reflected polynomial 0xEDB88320 |
| Crc32.BurstChangesCheck | settings/settings.c:18-28 | data damaged within 32 consecutive bits never keeps its check value |
| Crc32.BurstDetected | settings/settings.c:18-33 | a record with its check value behind it, damaged within 32 consecutive bits anywhere in both, no longer carries the check value of its bytes |
| CheckValues.CheckValue32 | settings/settings.c:18-28 | the CRC-32 of the characters 1 to 9 is the published 0xCBF43926, which fixes divisor, bit order, start and complement |
| SettingsRecord.Validate | settings/settings.c:63-80 | accepts exactly the records with a usable LED count, zones inside it, nonzero steps, ordered light thresholds and terminated credentials of allowed length |
| SettingsRecord.DefaultsAcceptable | settings/settings_list.h:1-36 | the default settings pass the checks |
| SettingsRecord.AcceptedIsUsable | settings/settings.c:63-80 | with accepted settings the fades end, the strip has an LED, the zones and head starts lie within it, the light's hysteresis is not inverted, and name and password have 1 to 32 and 8 to 63 characters |
| SettingsRecord.UsableIsAccepted | settings/settings.c:63-80 | nothing else is asked of settings |
| SettingsRecord.FieldLimits | network/http_server/settings.c:238-250 | the fields of one, two and four bytes hold exactly the numbers up to 255, 65535 and 4294967295 |
| SettingsNames.TableIsGood | network/http_server/settings.c:32-68 | the table's names are distinct plain words that fit the search pattern, with the two strings last and only the password secret |
| DecimalText.DecimalRoundTrip | network/http_server/settings.c:136-138 | reading the decimal print of a number gives the number, whatever follows it |
| DecimalText.DecimalSize | network/http_server/settings.c:188-199 | a number below a power of ten prints with at most that many digits |
| DecimalText.Strtoul | network/http_server/settings.c:136 | the value of the leading digits, clamped at the largest unsigned long |
| JsonText.FindValue | network/http_server/settings.c:71-93 | returns what follows the first quoted occurrence of the key, a colon and spaces, or nothing |
| JsonText.UnescapeEscape | network/http_server/settings.c:95-158 | reading an escaped string gives the string back if it fits the field |
| JsonText.ParseString | network/http_server/settings.c:95-114 | the loop unescapes up to the closing quote and fails on a missing quote, an unknown escape or overflow |
| JsonText.ParseUint | network/http_server/settings.c:130-141 | accepts exactly texts that start with a number within the limit |
| JsonText.SpacedValue | network/http_server/settings.c:71-93 | a value is found behind its key's first occurrence, with any white space around the colon |
| JsonText.AbsentValue | network/http_server/settings.c:71-93 | a key that stands nowhere has no value |
| JsonText.SpellingRead | network/http_server/settings.c:95-114 | every spelling of a string, with or without a backslash before a solidus, is read as the string if it fits with its terminator, and overflows otherwise |
| JsonText.UnclosedRefused | network/http_server/settings.c:95-114 | a string without its closing quote is refused |
| JsonText.BadEscapeRefused | network/http_server/settings.c:95-114 | so is any other character after a backslash |
| JsonText.NumberRead | network/http_server/settings.c:130-141 | a number is read exactly when it is within the field's limit, and a text without a leading digit is none |
| JsonText.TruthRead | network/http_server/settings.c:116-128 | the two words are the only truth values |
| JsonText.Append | network/http_server/settings.c:160-171 | succeeds exactly when the text and its terminator fit, and then extends the output by it |
| JsonText.AppendString | network/http_server/settings.c:144-158 | succeeds exactly when the escaped string fits, and then extends the output by it |
| SettingsJson.FoundWhereHeld | network/http_server/settings.c:71-93 | in the printed settings every key but the last is found at its own entry |
| SettingsJson.SecretFoundEmpty | network/http_server/settings.c:204-210 | the last key is found at its own empty entry or, when the preceding string imitates it, not found at all |
| SettingsJson.ReadCopies | network/http_server/settings.c:229-267 | reading a printed record replaces every field but the secret one |
| SettingsJson.JsonRestores | network/http_server/settings.c:173-275 | printed settings read over any other valid settings restore all fields but the password |
| SettingsJson.JsonIdentity | network/http_server/settings.c:173-275 | reading back one's own printed settings changes nothing, for every valid record and any network name |
| SettingsJson.OneFieldRead | network/http_server/settings.c:221-265 | a text that holds one of the keys changes that field alone, and one that holds none changes nothing |
| SettingsJson.FieldRead | network/http_server/settings.c:230-262 | a field takes the readable value found for its key, and keeps its own if the key is absent or the secret is empty |
| SettingsJson.AppliedIsAcceptable | network/http_server/settings.c:266-275 | only settings that pass the checks are put in force |
| SettingsJson.JsonFits | network/http_server/content.c:23 | the printed settings always fit the page's buffer of 1024 characters |
| SettingsJson.EntriesNoZero | network/http_server/settings.c:183-215 | the printed entries contain no zero, so the parser sees all of them |
| SettingsJson.WebSettings.Get | network/http_server/settings.c:173-219 | fills the buffer with the printed settings exactly when they fit |
| SettingsJson.WebSettings.PutEntry | network/http_server/settings.c:184-214 | one turn of the loop appends one entry or fails when it does not fit |
| SettingsJson.WebSettings.Set | network/http_server/settings.c:221-275 | the active settings are replaced only if every value found is readable and the whole passes the checks |
| SettingsUpload.SettingsPage.Upload | network/http_server/settings.c:221-275 | accepted settings are in force and written to flash as the store's step says, under any power cut; refused ones change neither |
| SettingsUpload.UploadSurvivesBoots | network/http_server/settings.c:221-275 | what one device printed, uploaded to another and completely written, is what that one runs after any boots, with its own password and access point's state |
| SettingsStore.AlwaysValid | settings/settings.c:35-46 | over every run of boots, applied settings, defaults, the button and the command that sets the access point, with power cuts, running settings pass the checks and are what flash holds |
| SettingsStore.DefaultsFit | settings/settings.c:41 | the defaults' bytes spell settings that pass the checks |
| SettingsStore.AssignmentFits | main.c:151 | assigning the access point's state keeps acceptable settings acceptable, so the unchecked writes are safe |
| SettingsStore.ApStateChanges | main.c:150-153 | the button toggles the access point's state, the command sets it, and no other setting changes |
| SettingsStore.CrashSafe | settings/settings.c:108-133 | after a change cut at any point and any reboots, the settings are the old ones, the new ones or the defaults |
| SettingsStore.CompletedChangeSurvives | settings/settings.c:82-93 | a change that was completed is what every later boot loads |
| SettingsStore.ResetSurvives | settings/settings.c:48-57 | a completed reset puts the defaults in force, and every later boot loads them |
| SettingsStore.SameNeedsNoWrite | settings/settings.c:108-128 | settings that flash already holds are not written again, so no power cut can harm them |
| SettingsStore.OtherHeaderRestores | settings/settings.c:30-43 | a page with another magic number, version or size is replaced by the defaults, whatever its check value |
| SettingsStore.DamageRestoresDefaults | settings/settings.c:35-46 | a page damaged within 32 consecutive bits, the check value included, is recognised and replaced by the defaults |
| SettingsStore.Store.CrcOf | settings/settings.c:18-28 | the check value covers every byte before it |
| SettingsStore.Store.IsValidHeader | settings/settings.c:30-33 | accepts exactly records with the magic number, version, size and check value |
| SettingsStore.Store.Write | settings/settings.c:108-133 | seals, then erases and programs unless flash already holds the record, stopping at the cut |
| SettingsStore.Store.Init | settings/settings.c:35-46 | loads a valid page, else restores and writes the defaults |
| SettingsStore.Store.ApplySettings | settings/settings.c:82-93 | invalid settings change nothing; valid ones become active and are written |
| SettingsStore.Store.SetDefault | settings/settings.c:48-57 | the defaults become active and are written |
| SettingsStore.Store.FlipAccessPoint | main.c:150-153 | the button's change goes through the same write |
| SettingsStore.Store.SetAccessPoint | commands/commands.c:211-221 | the command's assignment goes through the same write |
| HttpRequest.FindIsFirst | network/http_server/http_server.c:256-260 | the search returns the first place where the separator matches, if any |
| HttpRequest.SameCutIffClean | network/http_server/http_server.c:254-266 | the header's end is the same for every prefix that has one exactly when no LF LF comes before the first CR LF CR LF |
| HttpRequest.DirtyCut | network/http_server/http_server.c:256-260 | otherwise some prefix is cut elsewhere than the whole |
| HttpRequest.DirtyStream | network/http_server/http_server.c:256-260 | LF LF CR LF CR LF is such a stream: it is cut at 2 as a whole, and at 0 when its first two characters come alone |
| HttpRequest.ContentLengthRead | network/http_server/http_server.c:135-147 | a Content-Length line after any other lines is read as the number it spells |
| HttpWritten.Announced | network/http_server/http_server.c:135-147 | the first line with the length's name, in any cases, tells the length: behind blanks and a sign, saturated and wrapped to 32 bits |
| HttpWritten.HeaderEnds | network/http_server/http_server.c:254-266 | written lines with either line break end at their empty line, whatever may follow |
| HttpWritten.WrittenPending | network/http_server/http_server.c:261-276 | until the last byte of its announced body has arrived, a written request is waited for |
| HttpWritten.GetHandled | network/http_server/http_server.c:149-206 | GET, a path without question mark, and any version and other lines hand over that path without parameters |
| HttpWritten.GetWithParams | network/http_server/http_server.c:149-206 | behind a question mark, texts joined by ampersands are handed over as the parameters |
| HttpWritten.PostHandled | network/http_server/http_server.c:207-213 | POST hands over its target and a body of the announced length |
| HttpWritten.OtherMethodRefused | network/http_server/http_server.c:193-210 | any other method is refused once its announced body is there |
| HttpWritten.TooLargeRefused | network/http_server/http_server.c:267-272 | a body that does not fit behind its header is refused as soon as the header is complete |
| HttpRequest.GetContentLength | network/http_server/http_server.c:135-147 | the line loop returns the first length header's value, or zero |
| HttpRequest.JudgedForGood | network/http_server/http_server.c:254-278 | once enough of a clean stream has arrived to decide, more of it does not change the decision |
| HttpRequest.RunAgrees | network/http_server/http_server.c:224-285 | the connection's state and event after each segment depend only on the bytes received so far |
| HttpRequest.SegmentationIndependent | network/http_server/http_server.c:224-285 | whatever the segments, the request is handed over on the segment that completes it, and is the one the whole stream determines |
| HttpRequest.HandedOnce | network/http_server/http_server.c:238-242 | no request is handed over twice |
| HttpRequest.HandedSomewhere | network/http_server/http_server.c:274-280 | a clean stream that holds a complete request is handed over by one of its segments |
| HttpRequest.Connection.FindSeparator | network/http_server/http_server.c:254-263 | the two searches in the buffer find the header's end of the bytes received |
| HttpRequest.Connection.RequestPath | network/http_server/http_server.c:150-157 | the path ends at the first space or line break |
| HttpRequest.Connection.HandleRequest | network/http_server/http_server.c:193-213 | method, path, parameters and body given to the handlers are those of the stored request |
| HttpRequest.Connection.SplitTarget | network/http_server/http_server.c:199-206 | the path ends at the first question mark, behind which the parameters begin |
| HttpRequest.Connection.ParseGetParams | network/http_server/http_server.c:170-191 | counting ampersands and copying as many pieces yields exactly the parameters between them |
| HttpRequest.PiecesOfJoin | network/http_server/http_server.c:170-191 | any list of parameters without ampersands, joined by ampersands, is split into the same list |
| HttpRequest.PiecesCount | network/http_server/http_server.c:173-180 | the counted number is the number of parameters, so the allocated list is filled exactly |
| HttpRequest.Connection.RecvSegment | network/http_server/http_server.c:240-285 | storing, cutting and completing in the buffer is the step of the specification, up to the hand-over or the refusal of the request |
| HttpRequest.Connection.Store | network/http_server/http_server.c:249-251 | the segment is appended to what has been received, with a terminator |
| HttpRequest.Connection.EndHeader | network/http_server/http_server.c:254-272 | waits without a separator, closes for a body that is too large, else fixes where header and body part |
| HttpRequest.Connection.EndBody | network/http_server/http_server.c:209-284 | waits until the body is complete, then hands over a GET or POST request and closes for any other method |
| HttpResponse.StreamIsPrefix | network/http_server/http_server.c:73-119 | under every schedule the accepted chunks spell the beginning of header and body |
| HttpResponse.ChunksStayApart | network/http_server/http_server.c:86-105 | no chunk crosses from header to body, body data is copied unless static, and more is announced exactly before the end |
| HttpResponse.ChunkLength | network/http_server/http_server.c:86-105 | a chunk is as long as its part of the response, the send buffer and a 16-bit length allow |
| HttpResponse.StreamFinishes | network/http_server/http_server.c:77-116 | with room each time the response is complete after at most as many grants as it has bytes |
| HttpResponse.Sender.NextChunk | network/http_server/http_server.c:78-105 | the offered chunk is the next part of the response that fits the send buffer and 65535 |
| HttpResponse.SendsUntil | network/http_server/http_server.c:77-118 | one call writes until all is queued, the buffer has no room or TCP does not take a write, and it fails exactly when that write is answered by an error or the output fails |
| HttpResponse.SendsExtends | network/http_server/http_server.c:73-119 | a call only adds to what was accepted before |
| HttpResponse.SendsAll | network/http_server/http_server.c:77-116 | with room for each write one call queues all that is left and succeeds |
| HttpResponse.Sender.SendMore | network/http_server/http_server.c:73-119 | the loop accepts exactly the writes of the specification and fails exactly where it does |
| HttpSession.OnlyHandedIsStreamed | network/http_server/http_server.c:121-304 | in every order of a connection's callbacks nothing is written before one of them hands over a request, and then what is written is always the beginning of the response that the handlers made for this request |
| HttpSession.HandsOnce | network/http_server/http_server.c:238-242 | no connection hands over two requests |
| HttpSession.RunGrows | network/http_server/http_server.c:121-304 | nothing written is taken back, who is served stays served, and a closed connection changes no more |
| HttpSession.ServedIsStreams | network/http_server/http_server.c:224-285 | for a clean stream that fits, the request served is the one that all received bytes determine, whatever comes between the segments, and an open connection is served exactly when they hold a complete request |
| HttpSession.FinishedIffAcknowledged | network/http_server/http_server.c:121-133 | a connection is closed as finished exactly when its whole response is acknowledged, and then all of it was written |
| HttpSession.RunIdles | network/http_server/http_server.c:238-299 | the idle counter is the number of polls since the last data or acknowledgement, at most ten while the connection is open |
| HttpSession.IdleIff | network/http_server/http_server.c:295-299 | an open connection is closed for idling exactly by the poll that follows ten idle ones |
| HttpSession.RefusedIff | network/http_server/http_server.c:224-285 | an open connection is refused exactly when the client closes it or fails, its request is too large or of another method, or the handlers have no content for it |
| HttpSession.LostIff | network/http_server/http_server.c:306-312 | and it is lost exactly when TCP says so |
| HttpSession.RoomyRunSendsAll | network/http_server/http_server.c:73-119 | with room for each write sending never fails, and a served connection has all of its response queued |
| HttpSession.EventProgresses | network/http_server/http_server.c:121-133 | in an open, served connection with bytes left, every acknowledgement that does not finish it and every poll that does not close it writes more, if TCP takes the first write |
| HttpSession.RunProgresses | network/http_server/http_server.c:121-304 | over runs, a connection that stays open has written a byte for each such callback until all of its response is written |
| HttpSession.EnoughChances | network/http_server/http_server.c:121-304 | after as many such callbacks as the response has bytes, all of it is written |
| HttpSession.RoomyResumes | network/http_server/http_server.c:121-304 | with room for each write, one such callback writes all that is left |
| HttpSession.HandOverWrites | network/http_server/http_server.c:278-284 | the hand-over itself writes the first bytes, if TCP takes them |
| HttpSession.Client.Recv | network/http_server/http_server.c:224-288 | no data or an error closes the connection; otherwise the segment, the hand-over and the first writes are the step of the connection |
| HttpSession.Client.Respond | network/http_server/http_server.c:278-284 | the handlers' response is queued as far as TCP takes it; without a response or with a failing write the connection is closed |
| HttpSession.Client.Sent | network/http_server/http_server.c:121-133 | acknowledged bytes are added up, the idle counter restarts, and the connection is closed or goes on sending as its step says |
| HttpSession.Client.Poll | network/http_server/http_server.c:295-304 | a poll counts, closes after too many of them, and goes on sending only if the request has been handled |
| Fifo.FifoBuf.Available | cli/embedded_cli.h:1503-1508 | returns the number of queued characters |
| Fifo.FifoBuf.Pop | cli/embedded_cli.h:1510-1517 | returns and removes the oldest character, or zero from an empty queue |
| Fifo.FifoBuf.Push | cli/embedded_cli.h:1519-1527 | appends, or refuses and changes nothing exactly when size - 1 characters are queued |
| Terminal.FeedText | cli/embedded_cli.h:1475-1481 | printed text that stays off the margin replaces the row at the cursor |
| Terminal.FeedMove | cli/embedded_cli.h:1483-1493 | the printed cursor movement moves by its decimal parameter, and a movement by zero prints nothing |
| Terminal.FeedSimple | cli/embedded_cli.h:565-581 | each of the short control sequences has its ECMA-48 effect with parameter 1 |
| Terminal.LineEndsBlank | cli/embedded_cli.h:1254-1260 | plain output that ends in a line break leaves the cursor at the start of a blank row |
| ScreenRow.Inserted | cli/embedded_cli.h:1127-1130 | insert mark and character push the rest of the row right by one |
| ScreenRow.Deleted | cli/embedded_cli.h:1158-1159 | cursor left and delete mark pull the rest of the row left by one |
| ScreenRow.Cleared | cli/embedded_cli.h:1461-1473 | spaces over the shown line leave a blank row with the cursor at its start |
| ScreenRow.Refreshed | cli/embedded_cli.h:1395-1411 | a refreshed completion replaces the old one and leaves the cursor where it was |
| PackedStrings.PackSplit | cli/embedded_cli.h:1540-1546 | an item's offset, text and terminator divide the packed form |
| PackedStrings.PackInjective | cli/embedded_cli.h:1572-1583 | two different lists of items never have the same packed form |
| PackedStrings.ItemText | cli/embedded_cli.h:1563-1570 | the C string at an item's offset is the item |
| PackedStrings.GetTokenPosition | cli/embedded_cli.h:1601-1623 | the scan returns the offset of the numbered item, or none when there is no such item |
| History.EnteredIsMru | cli/embedded_cli.h:1529-1561 | the entered command comes first, the others follow in order as far as they fit, nothing appears twice, and the packed form fits the buffer |
| History.EnteredKeepsMost | cli/embedded_cli.h:1540-1553 | no longer stretch of the other commands would have fitted |
| History.FittingIsLongest | cli/embedded_cli.h:1540-1553 | eviction keeps the longest prefix of the list that fits |
| History.WithoutOne | cli/embedded_cli.h:1572-1599 | removal takes out the one occurrence and keeps the order of the rest |
| History.Move | cli/embedded_cli.h:1556 | memmove: the target range holds the old source range and nothing else changes |
| History.CliHistory.Get | cli/embedded_cli.h:1563-1570 | returns the numbered item and its length, or nothing outside 1 to the number of items |
| History.CliHistory.FindItem | cli/embedded_cli.h:1572-1586 | returns the position of a string in the list, or zero when it is absent |
| History.CliHistory.Remove | cli/embedded_cli.h:1572-1599 | closing the gap in the buffer leaves the list without the string |
| History.CliHistory.Evict | cli/embedded_cli.h:1539-1553 | the loop drops oldest items until the new one fits, and reports the space still used |
| History.CliHistory.Put | cli/embedded_cli.h:1529-1561 | the buffer holds the list after entering the string, and refusal means it could never fit |
| Tokenizer.TokensOfJoin | cli/embedded_cli.h:964-1004 | any list of nonempty tokens, escaped by backslashes and joined by spaces, is split into the same list |
| Tokenizer.TokensOfPieces | cli/embedded_cli.h:964-1004 | any list of nonempty tokens, each written bare or in quotes, with spaces where two bare ones meet and elsewhere at will, is split into the same list |
| Tokenizer.SplitItems | cli/embedded_cli.h:996-1003 | tokens are never empty and contain no zero |
| Tokenizer.TokenizeArgs | cli/embedded_cli.h:964-1004 | the rewriting in place leaves exactly the tokens of the text, each ended by a zero, and a second zero at the end |
| Tokenizer.Consume | cli/embedded_cli.h:982-999 | one turn of the loop writes at most at the position it has read |
| Tokenizer.GetTokenCount | cli/embedded_cli.h:1037-1053 | returns the number of tokens |
| Tokenizer.GetToken | cli/embedded_cli.h:1006-1013 | returns the numbered token, or nothing outside 1 to the count |
| Tokenizer.FindToken | cli/embedded_cli.h:1024-1035 | returns the first position of a token, or zero when it is absent |
| Completion.CandidatesAre | cli/embedded_cli.h:1339-1360 | the candidates are exactly the names that extend the typed text |
| Completion.CommonIsLongest | cli/embedded_cli.h:1362-1377 | a string is common to all candidates exactly when it is a prefix of the completion |
| Completion.ExactIsCommon | cli/embedded_cli.h:1362-1377 | a name typed in full is all that its extensions have in common |
| Completion.GetAutocompletedCommand | cli/embedded_cli.h:1329-1381 | returns first candidate, number of candidates and length of their longest common prefix, and marks exactly the candidates |
| Completion.AddCandidate | cli/embedded_cli.h:1362-1377 | one more candidate shortens the completion to what it shares with the first one |
| CommandParts.FindParts | cli/embedded_cli.h:1192-1212 | the scan finds name and arguments and zeroes the spaces before the arguments only |
| CommandParts.PartsHeld | cli/embedded_cli.h:1192-1216 | the C strings at the two pointers are the command's name and the rest of the line |
| Commands.LineParts | cli/embedded_cli.h:1192-1212 | a line made of spaces, a name, spaces and a rest is taken apart into just these |
| Commands.NameRuns | cli/embedded_cli.h:1222-1236 | a bare name runs the first binding of that name, or is unknown without one or without a function |
| Commands.TokensReachCommand | cli/embedded_cli.h:1222-1236 | escaped tokens after a name reach the binding unchanged, unless the first one asks for help |
| Commands.RestReachesCommand | cli/embedded_cli.h:1222-1250 | without tokenizing, the first binding of the name gets the rest as it is unless that is a call for help; without a binding with a function the default callback gets it, or the command is unknown |
| Commands.NameReachesCommand | cli/embedded_cli.h:1222-1250 | the same for a name alone, with spaces around it |
| LineEditor.ProcessSound | cli/embedded_cli.h:887-904 | one character keeps all of the editor's invariants |
| LineEditor.RunSound | cli/embedded_cli.h:1055-1168 | over every keystroke sequence the text leaves two characters of the buffer free, the history position exists, and every history item is unique, fits and can be loaded |
| LineEditor.EraseUndoesTyping | cli/embedded_cli.h:1112-1163 | a typed character stands at the cursor's place in the text, and erasing removes just that character |
| LineEditor.MovesCancel | cli/embedded_cli.h:1100-1108 | left and right undo each other and keep the text |
| LineEditor.UpsRecall | cli/embedded_cli.h:1055-1085 | n times up shows the n-th most recent command, and the oldest when there are fewer |
| LineEditor.DownUndoesUp | cli/embedded_cli.h:1055-1085 | down after up shows the command of the former history position again |
| LineEditor.UpRecallsEntered | cli/embedded_cli.h:1170-1187 | the first command that up brings back is the one just entered, as completed |
| LineEditor.SuffixFits | cli/embedded_cli.h:1422-1436 | what a completion copies into the buffer, with its space, fits |
| LineEditor.EnteredSound | cli/embedded_cli.h:1187 | entering a line keeps the history loadable |
| EditorKeys.UpKeys | cli/embedded_cli.h:1087-1098 | from any line, n up keys show the command n positions further back in the history, or the oldest one, with the cursor at its end |
| EditorKeys.DownKeys | cli/embedded_cli.h:1087-1098 | n down keys show the command n positions nearer, or an empty line |
| EditorKeys.LeftKeys | cli/embedded_cli.h:1105-1108 | n left keys move the cursor n characters to the left, or to the start, and keep the text |
| EditorKeys.RightKeys | cli/embedded_cli.h:1100-1103 | n right keys move the cursor n characters to the right, or to the end, and keep the text |
| EditorKeys.UpKey | cli/embedded_cli.h:1087-1098 | a key's sequence has its effect with any parameters between bracket and final character |
| EditorKeys.OtherSequence | cli/embedded_cli.h:1087-1110 | sequences with another final character change nothing |
| EditorKeys.EraseKeys | cli/embedded_cli.h:1156-1163 | backspace and delete, in any mixture, each remove the character before the cursor |
| EditorKeys.TypedKeys | cli/embedded_cli.h:1112-1131 | typed characters are inserted before the cursor as long as the buffer keeps two free |
| EditorKeys.OtherKey | cli/embedded_cli.h:892-899 | other characters change nothing |
| EditorKeys.TabKey | cli/embedded_cli.h:1414-1459 | tab puts the name of the only binding that extends the text with a space, or the longest text that all such names start with, into the line |
| EditorKeys.EnterKey | cli/embedded_cli.h:1133-1190 | Enter runs the completed line and puts it into the history unless it is blank, and a new line begins |
| EditorKeys.SecondHalf | cli/embedded_cli.h:1133-1145 | the second half of a line break changes nothing |
| EditorPrints.EnterPrints | cli/embedded_cli.h:1133-1327 | Enter prints a line break, the answer to the line, which is the quoted complaint, the tabbed help or the command's own, and the invitation |
| EditorPrints.TabLists | cli/embedded_cli.h:1440-1458 | tab on an ambiguous text clears the line, prints the names that extend it, a line each, and shows the line again |
| ScreenMirror.ProcessMirrors | cli/embedded_cli.h:887-904 | one character's output keeps the row equal to invitation, text, live completion and blanks, and the cursor at its place |
| ScreenMirror.RunMirrors | cli/embedded_cli.h:875-912 | so does the output of every input from the start |
| ScreenMirror.LiveMirrors | cli/embedded_cli.h:1383-1412 | the refresh turns leftovers behind the text into the current completion and blanks |
| ScreenMirror.CompleteDraft | cli/embedded_cli.h:1414-1459 | completing in place and listing the candidates both leave the line and cursor shown |
| ScreenMirror.NavigateDraft | cli/embedded_cli.h:1055-1085 | so does going through the history |
| ScreenMirror.EnterDraft | cli/embedded_cli.h:1138-1155 | after any command, help or complaint a fresh invitation is shown alone |
| EnteredLines.CompletionIsLongestCommon | cli/embedded_cli.h:1329-1381 | a string is a prefix of the text with its completion exactly when all binding names extending the text start with it |
| EnteredLines.EnterExactName | cli/embedded_cli.h:1138-1155 | Enter on a binding's full name runs it even when longer names extend it |
| EnteredLines.EnterUniquePrefix | cli/embedded_cli.h:1138-1155 | Enter on a text that exactly one binding's name extends runs that binding |
| EnteredLines.RunIsSession | cli/embedded_cli.h:1133-1155 | typed lines with any terminators have the effect of entering the lines one by one, and an empty line has none |
| EnteredLines.BreaksDoNotMatter | cli/embedded_cli.h:1133-1155 | calls and history are the same whichever of CR, LF, CR LF or LF CR ends each line |
| EmbeddedCli.InsertChar | cli/embedded_cli.h:1119-1125 | the characters right of the cursor move by one with the terminator, and the new one stands before them |
| EmbeddedCli.RemoveChar | cli/embedded_cli.h:1161-1162 | the character before the cursor is gone, and the rest with its terminator has moved down |
| EmbeddedCli.ArgsText | cli/embedded_cli.h:1229-1231 | the C string at the argument pointer is the first token, or all of untokenized arguments |
| EmbeddedCli.Cli.constructor | cli/embedded_cli.h:799-861 | an empty line, empty history and empty queue |
| EmbeddedCli.Cli.WriteToOutput | cli/embedded_cli.h:1475-1481 | writes the characters of a string in order |
| EmbeddedCli.Cli.MoveCursor | cli/embedded_cli.h:1483-1493 | writes a cursor movement with its decimal parameter, or nothing for zero |
| EmbeddedCli.Cli.ClearCurrentLine | cli/embedded_cli.h:1461-1473 | writes spaces over invitation and line and resets length and cursor |
| EmbeddedCli.Cli.PrintLiveAutocompletion | cli/embedded_cli.h:1383-1412 | writes the untyped rest of the completion and blanks over a longer old one, and records the new length |
| EmbeddedCli.Cli.OnAutocompleteRequest | cli/embedded_cli.h:1414-1459 | does nothing, copies the common part of the candidates, or lists them, with line and output as specified |
| EmbeddedCli.Cli.ListNames | cli/embedded_cli.h:1442-1453 | the marked bindings' names, which are exactly the candidates, are written line by line |
| EmbeddedCli.Cli.NavigateHistory | cli/embedded_cli.h:1055-1085 | the line becomes the next older or newer command, or stays at either end |
| EmbeddedCli.Cli.OnEscapedInput | cli/embedded_cli.h:1087-1110 | the final character of an escape sequence moves in the history or moves the cursor one character between left and right text |
| EmbeddedCli.Cli.OnCharInput | cli/embedded_cli.h:1112-1131 | the character is appended to the left text unless the buffer is full |
| EmbeddedCli.Cli.OnErase | cli/embedded_cli.h:1156-1163 | the last character of the left text is removed if there is one |
| EmbeddedCli.Cli.OnControlInput | cli/embedded_cli.h:1133-1168 | second halves of line breaks are ignored; line breaks, tab and erase act as specified |
| EmbeddedCli.Cli.ParseCommand | cli/embedded_cli.h:1170-1252 | a line that is not blank enters the history and makes exactly the call that its dispatch says |
| EmbeddedCli.Cli.FindBinding | cli/embedded_cli.h:1222-1225 | returns the first binding whose name is the C string in the buffer |
| EmbeddedCli.Cli.PrepareArgs | cli/embedded_cli.h:1227-1228 | the buffer holds the arguments for the binding, tokenized or raw |
| EmbeddedCli.Cli.CallBinding | cli/embedded_cli.h:1229-1236 | help is printed when the first argument asks for it, else the binding runs |
| EmbeddedCli.Cli.RunDefault | cli/embedded_cli.h:1239-1251 | a command without a function goes to the default callback with its raw arguments, or is reported as unknown when none is set |
| EmbeddedCli.Cli.OnUnknownCommand | cli/embedded_cli.h:1322-1327 | the complaint names the command |
| EmbeddedCli.Cli.OnEnter | cli/embedded_cli.h:1138-1155 | completion, line break, command, empty line and invitation in this order |
| EmbeddedCli.Cli.ProcessQueue | cli/embedded_cli.h:875-912 | everything queued is processed in order and the invitation precedes the first output; after lost characters the line is emptied but the cursor stays, which keeps the buffer's shape exactly when the cursor stood at the line's end |
| EmbeddedCli.Cli.ReceiveChar | cli/embedded_cli.h:867-873 | a character is queued, or lost with the overflow flag set exactly when the queue is full |
| EmbeddedCli.Cli.PutChar | cli/cli.c:26-34 | each character is processed at once, the queue is empty again and no character is ever lost |

## Left out

- Hardware and libraries: UART, ADC, GPIO, PIO, watchdog, radio, lwIP internals and flash primitives appear only as environment steps; button sampling, `ws2812_pio`, `network/network.c` and `light_sensor` would only add easy members.
- Content handlers, page routing, `network/dns_server` and the bodies of commands: opaque to the model.
- The help command (cli/embedded_cli.h:1273-1320) counts as one of the bindings whose output ends with a line break; its listing is not modelled.
- `embeddedCliPrint` (cli/embedded_cli.h:926-956), which no other file calls, and adding bindings after input has begun.
- The command line with live completion switched off, which the firmware's default configuration never is.
- The terminal is one row with blank rows below; scrolling and rows above the cursor are not modelled, nor are characters beyond ASCII.
- Logging and failing allocations: allocation is taken to succeed.
- Stale bytes behind a string's terminator in the settings page, and reads behind it.
- PAD options inside received DHCP messages, and the message's fixed fields other than the client's hardware address, the reply's address and its operation code.
- Emergency flags' own timing, test mode, and changing the number of LEDs while a sweep runs; the zones enter `Leds.Strip.Refresh` as inputs.
- Brightness in the main-loop theorems: it fades between the writes and is in `Leds` alone.
- The people count is unbounded, where the firmware has 32 bits.
- Failing flash operations after a change has been accepted; power cuts are modelled, failing writes are not.
- Modbus.Master.Send: requires that a write's data is present and the frame fits the 32-byte send buffer, which the firmware does not check.
- Modbus.Master.PutBody: requires the same of its request.
- SettingsJson.WebSettings.Set: ends with the accepted record in force; its write to flash follows in `SettingsUpload.SettingsPage.Upload`.
- EmbeddedCli.Cli.constructor: binding names must be nonempty words that leave three characters of the buffer free, because completion copies them without a check.
