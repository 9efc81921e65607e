# Verified models for esp32_common

Dafny 4.11 models of the seven parts of this repository whose behaviour is hardest to read off the code, with proofs of
what each of them is for. `dafny verify dfyconfig.toml` checks everything.

| files | part of the repository |
|---|---|
| `ByteBits`, `OneWireCrc` | bits of byte buffers; the Dallas/Maxim CRC-8, table form and bit form (`owb/onewire_crc.c`) |
| `RomOrder`, `RomSearch`, `OneWireBus`, `OneWireDevice` | the 1-Wire ROM search over a wired-AND bus with a fault script (`owb/onewire_device.c`) |
| `Ds18b20`, `OneWireRmt` | the DS18B20 start-up scan (`owb/ds18b20.c`) and the RMT symbol decoder (`owb/onewire_bus_impl_rmt.c`) |
| `Decimal`, `AppProto`, `AppProtoBuffer` | application frames: meaning, then the builder and the in-place parser (`ws_mqtt_proto/app_proto.c`) |
| `TcpLink`, `TcpFraming` | the TCP handshake and its send tasks as interleaved steps; streams of whole messages (`tcp/tcp_server.c`, `tcp/tcp_client.c`) |
| `TcpServerSide`, `TcpClientSide`, `TcpSafety`, `TcpDelivery`, `TcpQueues`, `TcpAlignment`, `TcpRuns` | what each side keeps, when the streams are framed, what the receive loops get, what the queues lose, and runs in which it goes wrong |
| `Nmea`, `NmeaDecoder` | the NMEA character machine and the sentence-level meaning it refines (`nmea/nmea_parser.c`) |
| `Kalman`, `RotEnc`, `FlashLed` | the simple Kalman filter, the rotary encoder key machine, the LED flasher |
| `CTypes`, `Wrappers` | C integer types and an optional value |

Code that updates state in place is a class or a method over arrays, each proved against a specification function or
predicate; the theorems are lemmas about those. The TCP link, which is concurrent, is a transition system: a run is any
sequence of enabled steps of the server task, its send task, the client task, its send task and the users of the queues.

## How the models read

**ROM search.** A bus is a finite set of 64-bit codes plus the codes still taking part. A read slot answers the AND of
the participants' bits, then the AND of their complements; a write slot drops those that differ. A fault script says for
every bus operation whether it is fine, fails with an error, or (resets and writes) silently loses all devices. The
search keeps three things: the last code, the last discrepancy, and a flag. `RomSearch.SearchAt` says what they mean
after `k` reported devices. Bit index 0 is also the value for "no discrepancy" (`owb/onewire_device.c:91`, `:111`), so a
discrepancy at the first bit always takes the one branch and is never revisited: the search enumerates
`RomSearch.Reachable`, which is the whole bus exactly when all codes agree on bit 0. The DS18B20 family code 0x28 has a
zero first bit, so one device of an odd family code hides every sensor; with more than 20 sensors the table is full
(`Ds18b20.ScanFindsEverySensorIff`).

**Application frames.** `AppProto.Parse` gives the meaning of a received byte string, `AppProto.Encode` the frame of a
message. Both directions of the round trip are stated for every message: it is read back exactly when it is
`WellFormed`. The limit of ten parameters in `ws_mqtt_proto/protocoldef.md` is not what the code does: the bound at
`ws_mqtt_proto/app_proto.c:149` is strict, so nine are accepted and ten never (`AppProto.TenParametersRejected`). The
return value -2 set at line 140 is always replaced by -3 at line 176. The builder accepts a frame of exactly `max_len`
bytes and then writes the closing NUL at index `max_len`, one byte beyond what the header file calls the buffer size.

A last header field without its separator is accepted, and the parser puts no NUL behind it. `AppProto.Seen` is the message
that string functions then see in the memory behind the frame; `AppProto.SeenIsParsedIff` says when it is the one the
frame means, `AppProto.SeenNormalFormIff` when it can be rebuilt. For the same reason a frame cut inside its last header
field may be accepted, with the end of that field for its payload (`AppProto.CutFrame`).

**TCP link.** A wire byte is a byte of a message or a foreign one. Three sends advance a pointer to the message instead of
a byte pointer (`tcp/tcp_server.c:196` and `:232`, `tcp/tcp_client.c:69`): when the first `send` takes only a part, the
next one reads memory beyond the message. The model does the same, and every statement about the streams carries the exact
condition: the client's stream is framed if and only if its send task never resumed a send, the server's if and only if
COMMACK and COMMNACK were never resumed and neither of the server's two writers began a message in the middle of the
other's. `recv` returns less than a message when the other side has closed; neither loop looks at the length, so the rest
of the buffer is that of the message before. A cut inside `cmd_id` can then read COMMINIT, and a connected server refuses
the client (`TcpDelivery.RefusedIff`). `TcpRuns` holds runs with a resumed COMMACK, a resumed client send, and cuts on both
sides. A reset by a starting send task discards what was queued before it; after that only the steps of `TcpQueues.LostBy`
lose a queued message.

**NMEA.** `Nmea.Step` is one turn of the character loop, `Nmea.Batch` the meaning of a list of sentences.

**Assumed of the world.** Sockets deliver bytes in order; allocations, task creations and queue creations succeed. From
some operation on the 1-Wire bus reports no more errors (`Ds18b20.SensorTable.Init` would otherwise retry for ever, as
the source does). `long` has 32 bits, and `atoi` saturates like `strtol`. A message and the output buffer lie in one
32-bit address space.

## Model

| member | source | states |
|---|---|---|
| OneWireCrc.Crc8Fast | owb/onewire_crc.c:32-39 | the shipped loop over a byte array returns the table fold of the message |
| OneWireCrc.Crc8Bitwise | owb/onewire_crc.c:43-58 | the other build's loop returns one register shift for every message bit, least significant bit first |
| OneWireCrc.FastIsBitwise | owb/onewire_crc.c:13-58 | both builds compute the same CRC for every start value and every message |
| OneWireCrc.BurstDetected | owb/onewire_crc.c:43-58 | two messages that differ only inside some window of eight consecutive bits never have the same CRC, from any start value |
| OneWireCrc.CorruptedFrameRejected | owb/onewire_device.c:116 | a frame whose last byte is its CRC fails the check after any burst of at most eight bits, CRC byte included |
| RomOrder.SortedNext | owb/onewire_device.c:87-97 | the listing of a set of codes starts with the least one and each entry is followed by its successor, first bit first |
| RomSearch.SuccessorSplitsAtLastZero | owb/onewire_device.c:94-96 | the next code leaves the last one exactly at the last recorded zero branch, so one number is enough to backtrack |
| RomSearch.FinishedIffAllVisited | owb/onewire_device.c:110-113 | the last-device flag is set exactly when every reachable code has been reported |
| RomSearch.DirectionIsTargetBit | owb/onewire_device.c:73-97 | with the survivors answering, "1 and 1" cannot occur, the branch taken is the bit of the next code in order, and `last_zero` stays the last zero branch of its walk |
| RomSearch.StepKeepsSearch | owb/onewire_device.c:99-107 | after each bit the participants are exactly the codes that match `rom_number` so far, and a pass abandoned here leaves the search where it was |
| RomSearch.OrderListsReachable | owb/onewire_device.c:47-124 | what is reported is exactly the reachable codes, none twice |
| RomSearch.MixedBusExample | owb/onewire_device.c:90-91 | a concrete family of buses on which a device is never reported |
| OneWireDevice.DeviceIter.constructor | owb/onewire_device.c:24-35 | a new iterator has reported nothing and is ready to search |
| OneWireDevice.DeviceIter.SearchBit | owb/onewire_device.c:69-107 | one turn of the loop keeps the walk along the next code and the participants in step, whatever the branch, and says which faults end it |
| OneWireDevice.DeviceIter.GetNext | owb/onewire_device.c:47-124 | a completed pass reports the next code of the search order, once, as good or as a CRC error according to its CRC byte; an abandoned pass changes nothing that matters; without faults the search ends with not-found exactly after the last code |
| OneWireDevice.EnumerateDevices | owb/onewire_device.c:47-124 | on a bus without faults a search loop reports the search order, each code once, good or as a CRC error; passes before not-found are as many as devices, and all devices are reported, if and only if all codes agree on their first bit |
| Ds18b20.SensorTable.NewDevice | owb/ds18b20.c:97-115 | only family 0x28 becomes a device, at 12 bits |
| Ds18b20.SensorTable.SetResolution | owb/ds18b20.c:148-167 | on success exactly the two configuration frames for that address are sent and only that slot's resolution changes; failure implies a bus fault or an empty bus |
| Ds18b20.ResolutionMeans | owb/ds18b20.c:158-221 | the configuration byte has bit 7 clear and the low five bits set, and shifted right by 5 selects the mask, when a temperature is read, that blanks 12 minus the chosen number of bits |
| Ds18b20.ConfigurationsMean | owb/ds18b20.c:148-167 | for every sensor two frames: 0x55, its address and 0x4E, then three bytes of which the last sets the chosen number of bits |
| Ds18b20.SensorTable.Init | owb/ds18b20.c:53-96 | the scan terminates under any finite number of faults, its slots always hold a prefix of the good sensors in search order at the chosen resolution; when it is done exactly their configuration frames were sent, in this order, each a byte string that selects the sensor and sets the chosen number of bits, and without silent faults it stores the first min(20, n) of the n sensors found, which are all sensors of the bus if and only if no device beside a sensor has first bit one and there are at most 20 |
| Ds18b20.SensorsReported | owb/ds18b20.c:69-95 | the sensors the search reports are the reachable ones, each once, so there are as many |
| Ds18b20.ScanFindsEverySensorIff | owb/ds18b20.c:69-102 | what a complete scan stores is every sensor of the bus if and only if no device beside a sensor has first bit one and there are at most 20 sensors; otherwise it stores none, or a full table |
| OneWireRmt.DecodeData | owb/onewire_bus_impl_rmt.c:227-246 | bit i of the buffer follows symbol i, surplus symbols are ignored, bits without a symbol keep their value |
| OneWireRmt.DecodeInvertsEncode | owb/onewire_bus_impl_rmt.c:135-147 | decoding the bit symbols of a byte string of any length gives the string back, whatever symbols follow |
| OneWireRmt.SlotMeans | owb/onewire_bus_impl_rmt.c:232-236 | a slot low for up to 15 microseconds is a one, a longer one a zero |
| OneWireRmt.SlotShape | owb/onewire_bus_impl_rmt.c:135-147 | a bit is sent as a low pulse of 2 or 62 microseconds in a slot of 64 |
| OneWireRmt.CutTransmission | owb/onewire_bus_impl_rmt.c:231-245 | a transmission cut after n symbols delivers its first n bits and leaves the rest of the buffer alone |
| Decimal.ReadPrintInt | ws_mqtt_proto/app_proto.c:50-68 | reading back a printed number gives its sign and magnitude |
| Decimal.PrintShortest | ws_mqtt_proto/app_proto.c:62-69 | what is printed is the shortest digit string that reads back as the number, and the only one of its length |
| Decimal.PrintCanonical | ws_mqtt_proto/app_proto.c:62-69 | no printed number but 0 begins with a zero |
| Decimal.PrintIntShortest | ws_mqtt_proto/app_proto.c:50-57 | the same of signed numbers: a minus sign exactly when negative, then the shortest digits |
| Decimal.NumberText | ws_mqtt_proto/app_proto.c:137-155 | spaces, a sign and a printed number read as that number, held within 32 bits by `atoi`, modulo the width or all ones by `strtoul` and `strtoull` |
| AppProto.RoundTripIff | ws_mqtt_proto/app_proto.c:38-184 | for every message and any bytes after its frame, parsing gives the message back if and only if it is well-formed |
| AppProto.FrameExample | ws_mqtt_proto/app_proto.c:50-101 | one frame with parameters and payload, byte by byte |
| AppProto.AcceptedIsWellFormed | ws_mqtt_proto/app_proto.c:149-173 | every message the parser accepts, from any bytes, is well-formed |
| AppProto.NormalForm | ws_mqtt_proto/app_proto.c:109-184 | rebuilding any accepted frame and parsing again gives the same message |
| AppProto.SeenIsParsedIff | ws_mqtt_proto/app_proto.c:127-147 | the strings of an accepted frame, read on past its end, are those it means if and only if the last field is closed or a NUL stops it |
| AppProto.SeenNormalFormIff | ws_mqtt_proto/app_proto.c:109-184 | the message so seen is well-formed, and survives rebuilding and parsing, if and only if the last field is closed or read on without meeting a separator |
| AppProto.PrefixFree | ws_mqtt_proto/app_proto.c:127-173 | no frame of a well-formed message is a proper prefix of another's, and equal frames mean equal messages |
| AppProto.CutFrame | ws_mqtt_proto/app_proto.c:116-177 | what the parser returns for a frame cut anywhere: -1, -3 or -4 by the place of the cut, and success exactly when the cut lies in the last header field and leaves at least the payload length of it |
| AppProto.TenParametersRejected | ws_mqtt_proto/app_proto.c:149 | a frame with ten parameters is always rejected with -3 |
| AppProtoBuffer.Append | ws_mqtt_proto/app_proto.c:15-21 | copies the text after `pos` or, if no byte below the limit would remain, changes nothing and returns -1 |
| AppProtoBuffer.Build | ws_mqtt_proto/app_proto.c:38-107 | success exactly when the encoding fits, with the encoding and a NUL in the buffer; each error code exactly when its part of the frame is the first that does not fit; nothing beyond the limit is touched on failure |
| AppProtoBuffer.Tokenize | ws_mqtt_proto/app_proto.c:127-147 | the in-place loop overwrites exactly the separators it passes, its tokens read as the fields of the original frame, and if the token count is wrong the frame means -3 |
| AppProtoBuffer.ParseInPlace | ws_mqtt_proto/app_proto.c:109-184 | the structure of pointers, read from the overwritten buffer, denotes exactly the message the original bytes mean, and with the memory behind the frame exactly what `Seen` says; the same error code otherwise; only separators inside the frame are changed |
| TcpFraming.NextMessage | tcp/tcp_server.c:160 | on a framed stream a receive delivers the next message begun, cut short only where the stream ends |
| TcpFraming.CutCommand | tcp/tcp_server.c:160-176 | the command read after a receive of k bytes is the new message's, the old one's, or a mixture of their bytes when k ends inside `cmd_id` |
| TcpSafety.StepKeeps | tcp/tcp_server.c:126-272 | every step of every task keeps what both sides rely on: worker tasks, message order, lengths of what was sent |
| TcpSafety.AtMostOnePair | tcp/tcp_server.c:185-189 | at every moment at most one process task and one send task are alive, a connected serving server has exactly one of each, a listening one none |
| TcpSafety.DownFramedIff | tcp/tcp_server.c:194-240 | in every run the bytes from the server are whole messages if and only if it never resumed a COMMACK or COMMNACK and never began a message inside another |
| TcpSafety.UpFramedIff | tcp/tcp_client.c:65-77 | in every run the bytes from the client are whole messages if and only if its send task never resumed a partial send |
| TcpDelivery.DownStreamInOrder | tcp/tcp_server.c:59-95 | unbroken, a connection's bytes from the server are one COMMACK, then whole application messages in queue order and refusals, only the last message possibly incomplete; which of the queued ones: `TcpQueues.NothingElseLost` |
| TcpDelivery.UpStreamInOrder | tcp/tcp_client.c:149-163 | unbroken, the bytes from the client are one COMMINIT, then whole application messages in queue order |
| TcpDelivery.ConnectedWhenAppArrives | tcp/tcp_server.c:160-210 | in every run a server that is not connected receives nothing but a whole COMMINIT, and answers it, so whenever anything else arrives it is connected |
| TcpDelivery.ConnectedGetsApps | tcp/tcp_server.c:160-258 | on a connection without resumed client sends a connected server receives application messages only |
| TcpDelivery.RefusedIff | tcp/tcp_server.c:176-245 | on such a connection a receive leads to COMMNACK if and only if it ends inside `cmd_id` and its low bytes read COMMINIT over high bytes that are zero |
| TcpDelivery.RefusedOnlyIf | tcp/tcp_server.c:224-245 | without a resumed client send and without a cut inside `cmd_id` no run refuses the client, and then the server's stream is framed if and only if COMMACK was never sent in two parts |
| TcpDelivery.HandshakeIff | tcp/tcp_client.c:171-178 | in every run what the client first receives is whole: the bytes of COMMACK sent before the server first resumed the send, then foreign ones; all of COMMACK if and only if it never did |
| TcpDelivery.HandshakeSucceedsIff | tcp/tcp_client.c:186-202 | the client enters its receive loop always when COMMACK was not resumed before the end of `cmd_id`, and otherwise exactly when the memory sent instead supplies the missing bytes of the number |
| TcpDelivery.ClientQueues | tcp/tcp_client.c:217-231 | while the server's stream is unbroken the client queues the next message, whole unless the server closed inside it, and then exactly which bytes and command are left from the message before; a queued COMMNACK needs a resumed client send or a cut inside `cmd_id` |
| TcpQueues.NothingElseLost | tcp/tcp_server.c:64-81 | in every run, on either side: what was queued since the current send task reset the queue is begun, in its hand or still queued, in this order and without a gap, if and only if no step since lost a message; exactly as many are missing as were lost |
| TcpQueues.StepMovesLine | tcp/tcp_server.c:69-75 | every step appends to that line what it queues and removes nothing but what is named as lost: the queue at a reset, the message in hand when the server is not connected, the socket closed, or the task ends |
| TcpQueues.TakeOverEmpties | tcp/tcp_server.c:64 | a starting send task discards whatever was queued before |
| TcpQueues.QueuedNumbers | tcp/tcp_client.c:58-62 | the messages queued are numbered consecutively |
| TcpAlignment.CommandOctets | tcp/tcp_server.c:176 | in every run, also with foreign bytes, the server takes a command only from bytes 8 to 11 of a message or from foreign ones |
| TcpRuns.LinkComesUp | tcp/tcp_client.c:149-202 | there is a run in which both sides become connected |
| TcpRuns.SplitAck | tcp/tcp_server.c:194-209 | a COMMACK whose first send takes one byte: the client closes while the server takes itself for connected, whatever lies behind the message but the number of COMMACK |
| TcpRuns.SplitMessage | tcp/tcp_client.c:65-77 | a client message whose first send takes one byte, before memory that holds COMMINIT, is answered with COMMNACK |
| TcpRuns.CutMessage | tcp/tcp_server.c:176-228 | a client that closes after nine bytes of a LOG_MESSAGE is refused |
| TcpRuns.SplitRefusal | tcp/tcp_server.c:227-240 | a COMMNACK sent in two parts breaks the server's stream |
| TcpRuns.OverlappingWriters | tcp/tcp_server.c:230-240 | the send task begins an application message after one byte of COMMNACK and breaks the server's stream |
| TcpRuns.CutAnswer | tcp/tcp_client.c:217-231 | a server that closes after eight bytes of its first message makes the client queue another COMMACK |
| Nmea.RunAppend | nmea/nmea_parser.c:538-658 | cutting a stream into chunks anywhere gives the same final state and the same outputs |
| Nmea.RunSentence | nmea/nmea_parser.c:541-655 | one sentence, from any state: its comma-separated fields with their numbers, never the checksum text, the checksum over everything between `$` and `*`, and the events |
| Nmea.GpsSentence | nmea/nmea_parser.c:437-631 | a sentence `$GP` with one of the six names, from any state: its fields are handed on under that name, and it completes that statement, and no other, exactly when the checksum is right and, for GSV, its second field equals its first |
| Nmea.ClassifyMeans | nmea/nmea_parser.c:437-465 | an item is the statement whose name is the first, in the order of the source, among those that stand in it at some index, and unknown if and only if none does |
| Nmea.TalkerItem | nmea/nmea_parser.c:437-465 | `$`, any two characters and a name are that statement unless an earlier name stands in the item |
| Nmea.GpsTalker | nmea/nmea_parser.c:437-465 | with talker GP the item is the statement it names |
| Nmea.NumberReads | nmea/nmea_parser.c:480-483 | a number field reads as the number printed in it, modulo 256 |
| Nmea.ChecksumIsParity | nmea/nmea_parser.c:559-651 | bit k of the checksum is the parity of the bits k of all bytes |
| Nmea.StreamIsBatch | nmea/nmea_parser.c:433-658 | on every list of sentences, from any state, the character machine produces the sentence-level outputs |
| Nmea.UpdateExactlyWhenAllEnded | nmea/nmea_parser.c:585-631 | over any byte stream GPS_UPDATE is posted exactly at the carriage return that completes all six statement kinds since the previous post |
| Nmea.MaskSinceLastPost | nmea/nmea_parser.c:587-631 | the accumulated mask is what was completed since the last post and is never left complete |
| Nmea.LastPostSpec | nmea/nmea_parser.c:625-630 | what "the previous post" means |
| Nmea.ChecksumTextReads | nmea/nmea_parser.c:583 | the two-digit checksum text of NMEA 0183, each digit in upper or lower case, reads back as the checksum |
| NmeaDecoder.GpsDecoder.Decode | nmea/nmea_parser.c:509-660 | decoding a line takes the runtime structure and everything handed on from one machine state to the other |
| NmeaDecoder.GpsDecoder.EndOfSentence | nmea/nmea_parser.c:580-643 | the carriage return branch over the statement bit mask is the machine's end of sentence |
| NmeaDecoder.GpsDecoder.ParseItemSlot | nmea/nmea_parser.c:433-500 | selects the statement, or hands on the field and updates the GSV counters |
| NmeaDecoder.FitsIffShort | nmea/nmea_parser.c:41 | a list of sentences meets the decoder's precondition if and only if every field and checksum text fits `item_str` |
| Kalman.KsFilter.constructor | filters/kalman.c:16-22 | the initial filter |
| Kalman.KsFilter.UpdateEst | filters/kalman.c:24-31 | one update over exact reals: by which part of the innovation the estimate moves, and the error, noise times that move included, as products of the fields |
| Kalman.UpdateLaws | filters/kalman.c:26-29 | those products, for any noise |
| Kalman.KsFilter.UpdateAll | filters/kalman.c:24-31 | a series of updates takes the filter to the run's end, and returns the run's estimates |
| Kalman.RunBounded | filters/kalman.c:24-31 | over every run with measurements in a range containing 0 the gain stays in [0, 1), the estimate in the range, the error below the larger of its start value and range times noise |
| Kalman.NoiselessIsBatch | filters/kalman.c:16-31 | without process noise the filter equals the batch estimate after any number of measurements |
| Kalman.NoiseRaisesErrorIff | filters/kalman.c:16-31 | after any run the error is at least the batch error, and equal to it if and only if there is no noise, no initial error, or every measurement was 0 |
| RotEnc.KeyMachine.HandleAll | utils/rot_enc.c:151-302 | the event loop sends what the specification sends, for any sequence of events |
| RotEnc.SentIsHistory | utils/rot_enc.c:183-294 | from a released key the key events sent are the sessions the events make up, each K_DOWN with the length of its run of short gaps |
| RotEnc.LanguageIffReleased | utils/rot_enc.c:183-308 | every run's key events are a prefix of (K_DOWN (SHORT (LONG LONGLONG*)?)? K_UP)* if and only if the key is released at start-up |
| RotEnc.CountsAreRunLengths | utils/rot_enc.c:222-230 | the i-th K_DOWN carries the run length at the i-th accepted press |
| RotEnc.RunLengthMeans | utils/rot_enc.c:222-225 | a run length counts the gaps below the limit back to the first longer one or to time 0 |
| RotEnc.RepeatCount | utils/rot_enc.c:222-227 | with time stamps that never go back, the count is the length of the last run of gaps below half a second |
| RotEnc.GapMeans | utils/rot_enc.c:222 | a gap is the time passed, with one wrap-around of the 64-bit clock |
| RotEnc.PressLabels | utils/rot_enc.h:17-19 | a held key reports 0.1 s, then 2 s, then 10 s again and again |
| RotEnc.OthersInOrder | utils/rot_enc.c:155-182 | from any state: one turn per edge with S1 high, right exactly when S2 is low, and the inactivity reports, in order and nothing else beside the key events |
| FlashLed.NextPowerOf2 | utils/utils.c:491-497 | the shifts compute the least power of two not below n, and 0 where 32 bits have none |
| FlashLed.Flasher.Tick | utils/utils.c:498-513 | every due LED toggles and its previous state is written to its pin; all others are unchanged |
| FlashLed.Flasher.TickAll | utils/utils.c:498-513 | after n callbacks every slot is where its run of n ticks leads, and the levels written to its pin are those of that run |
| FlashLed.LevelsAlternate | utils/utils.c:498-513 | in any number of ticks a pin gets one level per due tick, alternating from the state the slot had |
| FlashLed.Flasher.SetFlashLed | utils/utils.c:550-589 | the pin's own slot or the first free one, which pin 0 matches, gets the rounded period; each failure exactly when it should, with no slot changed; slots stay packed and pins distinct |
| FlashLed.TogglesPerWindow | utils/utils.c:500-509 | in every window of twice its period, counter wrap-around included, a LED toggles as often as its period has ticks |
| FlashLed.FlashWindow | utils/utils.c:498-513 | after such a window the LED is as before, unless its period is 1 |

## Left out

- OneWireBus: a device lost silently during a read slot is not modelled; between the two reads of one bit it could make the search follow a branch no device has.
- OneWireDevice.DeviceIter.GetNext: null arguments and allocation failures; bus handles are always valid.
- Ds18b20.SensorTable.Init: memory exhaustion and `onewire_new_bus_rmt`; a configuration failure, which aborts the program in the source, ends the scan with `done` false.
- OneWireRmt.DecodeData: the presence-pulse test and the RMT channels, encoders and queues around the decoder.
- AppProto.AcceptedIsWellFormed: strings end with the frame; `AppProto.SeenNormalFormIff` states the case of an unclosed last field, which the source reads on into the memory behind.
- AppProto.NormalForm: the same; without further memory behind the frame it is the whole truth.
- AppProtoBuffer.ParseInPlace: memory behind the buffer is taken to end the last string, as a NUL would. Pointer overflow in the payload bound is undefined in C and not modelled.
- AppProtoBuffer.Build: null arguments (return value -1), and payload pointers whose memory is shorter than the payload length.
- TcpLink: send errors, failed task creation, the receive queues' bounds and resets, and `CLOSE_CONNECTION`, which here is one more way for a client to close; the client's socket close and the deletion of its tasks are one step.
- TcpLink: a connection that breaks off without a close by the other side; a receive is cut short only by a close.
- TcpLink: the memory that a resumed send reads may not be mapped at all; here it always has some content.
- TcpLink: `tParams` at tcp/tcp_server.c:187-189 lives in a block that may have ended before the send task, which has the lower priority, reads the socket from it; here a send task always has the socket it was started with.
- TcpLink: the size and payload layout of `socket_message_t`; any size from the end of `cmd_id` on is covered, and bytes other than those of `cmd_id` have no value. Queued messages do not carry the three numbers of the handshake.
- TcpDelivery.ClientQueues: once the server's stream is broken nothing is said of what the client queues; the bytes are then partly foreign or of two messages.
- Nmea.StreamIsBatch: the storing of fields into the position structure (floats, time, satellites) is left out; the fields are handed on as text. Fields are stored before the checksum is read, so nothing is undone on a bad one.
- NmeaDecoder.GpsDecoder.Decode: items longer than `item_str` are excluded by the precondition `Fits`; the source writes past the array then, which has no meaning in C.
- NmeaDecoder.GpsDecoder.Decode: the position message queued for TCP before each line, printing, and the UART event loop.
- Kalman.RunBounded: holds of exact reals, not of rounded floats.
- Kalman.NoiselessIsBatch: holds of exact reals, not of rounded floats.
- Kalman.NoiseRaisesErrorIff: holds of exact reals, not of rounded floats.
- Kalman.KsFilter.UpdateEst: float rounding; the Madgwick and Mahony filters in the same file depend on it and on square roots.
- RotEnc.KeyMachine.HandleAll: timers, backlight and real durations; a timer event still queued can be taken for a new one. Delivery to the user interface queue is not guaranteed by the source, only the attempt. `key_count` is unbounded here.
- FlashLed.Flasher.SetFlashLed: the creation of the timer.
- The remaining commands, Wi-Fi, Bluetooth, MQTT, OTA, ADC, SPI and I2C drivers, crash logging, and the message stub `build_app_proto_msg`.
