# LoRa/Modbus telemetry gateway — a Dafny model

The firmware runs on an ESP32-S3 gateway. It polls Modbus/TCP slaves over Ethernet and samples two
digital inputs. Each reading goes out as a compact binary LoRaWAN uplink, chunked to the
maximum payload of the current spreading factor. Threshold alarms on polled registers, and mismatch
alarms on the inputs, go out as separate one-frame uplinks on port 2. A serial console lets an
operator reload the JSON configuration from flash, switch into a shell mode, and edit files line by line.

The model covers the data path end to end:

- the uplink encoder (`sendLoRaUplink`): record headers, LSB-first coil packing, big-endian
  registers, the input section, and MTU chunking;
- the alarm encoders and the one-alarm-per-pass drain (`checkAlarmUplink`);
- the Modbus poll loop with its alarm edge detection (`pollModbus`);
- digital-input sampling, counters and input alarms;
- the spreading-factor, data-rate and MTU tables and the LMIC event handling;
- the configuration loaders for `modbus.json`, the `"lora"` and `"mac"` keys, and `inputs.json`,
  including `parseHexString`;
- the serial line editor with its history ring, `getUserLine`, and the `editFile` command language;
- `setup` and one pass of `loop`, over a `Device` object that owns the global state.

Modules, one file each:

| module | file | models |
|---|---|---|
| `Wrappers` | wrappers.dfy | `Option` |
| `Config` | config.dfy | include/config.h, include/inputs.h, src/config.cpp: the fixed-width types, the request and alarm records, the initial tables |
| `LoraCodec` | lora_codec.dfy | the byte formats of src/lora.cpp as functions, with decoders and round-trip lemmas |
| `LoraRadio` | lora_radio.dfy | the LMIC state the firmware touches (`class Radio`) and its abstract `RadioState` |
| `LoraUplink` | lora_uplink.dfy | `sendLoRaUplink` and `checkAlarmUplink` as imperative code over `array`s, proved against `LoraCodec` |
| `Modbus` | modbus.dfy | `pollModbus` and the alarm evaluation |
| `Inputs` | inputs.dfy | src/inputs.cpp |
| `FlashFs` | flashfs.dfy | the loaders of src/flashfs.cpp, with JSON documents as datatypes |
| `SerialEditor` | serial_editor.dfy | src/serial_editor.cpp: `class Console`, the command classifier and the file editor |
| `Gateway` | main.dfy | src/main.cpp: the `Globals`, one `loop` pass as `TickSpec`, `class Device` |

Fixed-width arithmetic is written out. `uint8_t`/`uint16_t`/`uint32_t` are subset types of `int`.
`GetCurrentSF` wraps modulo 256, the counters modulo 2^32, `uplinkCount` modulo 2^16, and
`now - last` on `millis()` modulo 2^32 (`Elapsed`).

The outside world becomes parameters. The current time, the serial bytes, the configuration
documents, the pin levels, the Modbus outcomes and the LMIC events of one pass are all fields of an
`Environment`. Whether a transmission is pending (`LMIC.opmode & OP_TXRXPEND`) is the radio's `busy`
flag, which the environment sets.

Where the design description and the code disagree, the model follows the code:

- Coils are packed LSB first: register r is bit `r % 8` of byte `r / 8`. Ten coils
  1,0,1,1,0,0,1,0,1,1 give 0x4D, 0x03, not 0xB2, 0xC0 (`TenCoilsExample`). A coil is the low bit
  of its `result` word (`result[r] & 0x01`).
- The Modbus alarm frame is 12 bytes; the fields the description lists also add up to 12
  (`ModbusAlarmFrame`).
- A falling edge lowers `active` but keeps an unsent `pending`, so `pending` does not imply `active`
  (`FallingEdgeKeepsPending`).
- Three 12-byte records at MTU 20 go out as three frames of one record each (`ThreeRecordsMtu20`).
- An item longer than the MTU is still sent whole. When it is the first item, an empty chunk goes
  out before it (`OversizedFirstItem`). This cannot happen with the firmware's sizes: a record is at
  most 42 bytes and the MTU at least 51.
- Input alarms are sent inline, from inside `handleDigitalInputs`, when the mismatch is first seen.
  They do not wait in a queue with the Modbus alarms.

## Model

| member | source | states |
|---|---|---|
| Config.Word | src/lora.cpp:66-67 | A byte pair read big-endian gives back the high and low byte `highByte`/`lowByte` produce. |
| Config.WordOfBytes | src/lora.cpp:182-183 | Splitting any value with `highByte`/`lowByte` keeps exactly its low 16 bits, as for `startReg + alarm.index`. |
| Config.WordOfUint16 | src/lora.cpp:89-90 | A 16-bit register split into its two bytes comes back whole. |
| Config.ModbusFunction.Code | include/config.h:19-24 | The enumerators carry the read function codes 1 to 4. |
| Config.FunctionFromCode | src/flashfs.cpp:311-324 | A code names an enumerator exactly when it is 1..4, that enumerator has the code, and codes ≤ 2 are exactly the coil and discrete-input reads. |
| Config.CodeRoundTrip | include/config.h:19-24 | Every function's code maps back to the same function. |
| Config.NewRequest | include/config.h:46-63 | The constructor's defaults and zeroing: `success` false, no alarms, 16 zero results, 4 inactive and non-pending alarm slots; well formed whenever the count fits 16. |
| Config.InputType.Ordinal | include/inputs.h:5 | DIGITAL is 0 and COUNTER is 1, the kind byte of the input section. |
| Config.InitialRequests | src/config.cpp:17-25 | 16 well-formed, unsuccessful slots; the first four address 192.168.0.187 unit 1 with HREG, COILS, IREG, DISCRETE in that order. |
| Config.InitialInputs | include/inputs.h:7-16 | Two channels, each starting with counter 0, last state false and no active alarm. |
| LoraCodec.GetCurrentSF | src/lora.cpp:247-250 | `12 - datarate` in `uint8_t` arithmetic: exact up to DR 12, wrapping modulo 256 above. |
| LoraCodec.DataRateForSF | src/lora.cpp:144-156 | With ADR off, SF 7..12 selects the rate that reads back as that SF, and any other SF selects SF7. |
| LoraCodec.GetMaxMTU | src/lora.cpp:252-262 | The MTU is always 51, 115 or 242: 242 exactly for SF7/SF8, 115 exactly for SF9. |
| LoraCodec.PackBits | src/lora.cpp:73-86 | The packed payload has `ceil(n/8)` bytes. |
| LoraCodec.PackByteBit | src/lora.cpp:78-80 | Bit k of a packed byte is the low bit of value k, and 0 past the values. |
| LoraCodec.PackBitsAt | src/lora.cpp:75-86 | Register r sets bit `r mod 8` of byte `r div 8` exactly when `result[r] & 1` (LSB first). |
| LoraCodec.PackBitsPadding | src/lora.cpp:75-86 | The unused high bits of the last packed byte are 0. |
| LoraCodec.PackBitsRoundTrip | src/lora.cpp:75-86 | Unpacking the packed payload gives back every value's low bit, and nothing else. |
| LoraCodec.TenCoilsExample | src/lora.cpp:75-86 | Ten coils 1,0,1,1,0,0,1,0,1,1 pack into 0x4D, 0x03. |
| LoraCodec.RegisterBytes | src/lora.cpp:87-91 | A register payload is two bytes per register. |
| LoraCodec.RegisterBytesAt | src/lora.cpp:87-91 | Bytes 2k and 2k+1 read big-endian give register k. |
| LoraCodec.RegisterRoundTrip | src/lora.cpp:87-91 | Decoding the register payload gives back all the registers. |
| LoraCodec.ThreeRegistersExample | src/lora.cpp:87-91 | Holding registers 10, 20, 30 go out as 00 0A 00 14 00 1E. |
| LoraCodec.Header | src/lora.cpp:61-70 | 10 bytes: IP octets, unit, `startReg` big-endian, `numRegs`, `success ? 1 : 0` and the function code. |
| LoraCodec.Payload | src/lora.cpp:72-92 | The payload length depends only on the function and `numRegs`, never on `success`; it is all zero when `success` is false. |
| LoraCodec.RecordBytes | src/lora.cpp:56-92 | A record is 10 header bytes plus the payload, and never more than 42 bytes (so it always fits `reqBuf[64]`). |
| LoraCodec.PayloadDecodes | src/lora.cpp:72-92 | A receiver reads back from the payload the register values, the coil bits as 0/1, or zeros after a failed poll. |
| LoraCodec.RecordRoundTrip | src/lora.cpp:61-92 | Decoding a record followed by any bytes gives back its header fields and carried values, plus the rest of the stream unconsumed. |
| LoraCodec.ChannelBytes | src/lora.cpp:111-120 | Each channel entry is 4 bytes and starts with the channel index and its type's ordinal. |
| LoraCodec.ChannelValue | src/lora.cpp:114-120 | A counter channel carries its counter's low 16 bits big-endian; a digital one carries `0x00` and its last state. |
| LoraCodec.InputSection | src/lora.cpp:105-121 | 10 bytes: `0xFF`, 2, then four bytes per channel in channel order. |
| LoraCodec.UplinkItems | src/lora.cpp:55-121 | One record per request in table order, then the input section; every item is 1..42 bytes. |
| LoraCodec.ChunkFromFlatten | src/lora.cpp:95-101 | Chunking loses, adds and reorders no byte: the chunks concatenate to the buffer contents followed by all the items. |
| LoraCodec.ChunksFlatten | src/lora.cpp:95-134 | The chunks of one uplink concatenate to the records followed by the input section. |
| LoraCodec.ChunkFromBounded | src/lora.cpp:95-101 | When every item fits the MTU, every chunk is non-empty and within the MTU. |
| LoraCodec.ChunkFromLast | src/lora.cpp:123-134 | The last item always ends the last chunk, so the input section is at the end of the final frame. |
| LoraCodec.OversizedFirstItem | src/lora.cpp:95-98 | An item longer than the MTU at `index == 0` causes an empty chunk to go out first. |
| LoraCodec.ThreeRecordsMtu20 | src/lora.cpp:95-101 | Three 12-byte records with MTU 20 go out as three one-record chunks. |
| LoraCodec.ModbusAlarmFrame | src/lora.cpp:177-188 | 12 bytes: IP, unit, `startReg + index` modulo 2^16 big-endian, the op character, threshold and value big-endian. |
| LoraCodec.AlarmFramesDecode | src/lora.cpp:177-207 | Both alarm payloads decode back to what they were built from; the 12-byte and 5-byte frames cannot be confused. |
| LoraRadio.ApplyConfigSpec | src/lora.cpp:140-157 | ADR and the sub-band are set; with ADR off the SF mapping picks the data rate at 14 dBm; with ADR on the rate and power are kept; nothing else changes. |
| LoraRadio.InitSpec | src/lora.cpp:27-42 | ABP installs the session and counts as joined at once; OTAA only starts a join; nothing is sent. |
| LoraRadio.EventSpec | src/lora.cpp:224-244 | EV_JOINED sets `joined`; EV_TXCOMPLETE sets `txComplete` and saves the current uplink frame counter `seqnoUp`; no event touches the outbox, the busy flag, the data rate or the counter itself. |
| LoraRadio.TransmitSpec | src/lora.cpp:264-266 | A transmission appends exactly one frame, clears `txComplete` and advances LMIC's frame counter by one modulo 2^32. |
| LoraRadio.SendIfIdleSpec | src/lora.cpp:174-213 | A guarded send does nothing while a transmission is pending; otherwise it transmits and waits for EV_TXCOMPLETE, so `txComplete` ends true and the counter of the frame just sent is saved, whatever the acknowledgement. |
| LoraRadio.TransmitAll | src/lora.cpp:264-279 | Several sends append exactly their frames, in order, advance the counter by their number modulo 2^32, clear `txComplete` when there is at least one, and change nothing else. |
| LoraRadio.SendAllIfIdle | src/lora.cpp:199-213 | Guarded sends in a row: none while busy, otherwise all of them, in order, with the counter advanced by their number; after the last `txComplete` is set and its counter saved. |
| LoraRadio.JoinedIffJoinedEvent | src/lora.cpp:224-244 | After any events the radio is joined exactly when it was joined already or EV_JOINED was among them; events send nothing. |
| LoraRadio.SendsCountFrames | src/lora.cpp:174-279 | Every kind of send keeps LMIC's frame counter equal to the number of frames sent since reset, modulo 2^32. |
| LoraRadio.SavedCounterIsFrameCount | src/lora.cpp:231-235 | After a completed guarded send the saved counter is the number of frames sent, the one just sent included. |
| LoraRadio.Radio.constructor | src/lora.cpp:29-30 | The radio after `LMIC_reset`: not joined, nothing sent, ADR and sub-band at their defaults. |
| LoraRadio.Radio.ApplyLoRaConfig | src/lora.cpp:140-157 | The object's new state is `ApplyConfigSpec` of its old state. |
| LoraRadio.Radio.InitLoRa | src/lora.cpp:27-42 | The object's new state is `InitSpec` of the old state. |
| LoraRadio.Radio.OnEvent | src/lora.cpp:224-244 | The object's new state is `EventSpec` of the old state. |
| LoraRadio.Radio.SetBusy | src/lora.cpp:47 | Only the busy flag that `LMIC.opmode & OP_TXRXPEND` reports changes. |
| LoraRadio.Radio.Transmit | src/lora.cpp:264-266 | One frame appended on the given port, `txComplete` cleared, the counter advanced. |
| LoraRadio.Radio.SendIfIdle | src/lora.cpp:199-213 | Both `sendAlarmUplink` overloads: return at once while busy, else transmit and handle EV_TXCOMPLETE, which sets `txComplete` and saves the counter. |
| LoraUplink.WriteFiller | src/lora.cpp:72-74 | Exactly `filler` zero bytes are written after the header, and the header is untouched. |
| LoraUplink.WritePackedBits | src/lora.cpp:75-86 | The in-place bit-packing loop writes exactly `PackBits(result[..n])` after the header. |
| LoraUplink.PackOne | src/lora.cpp:78-85 | One iteration keeps the loop invariant: earlier bytes are untouched, and each byte it flushes is the matching packed byte. |
| LoraUplink.WriteRegisters | src/lora.cpp:87-91 | The register loop writes exactly `RegisterBytes(result[..n])` after the header. |
| LoraUplink.EncodeRecord | src/lora.cpp:56-92 | The record built in `reqBuf` is `RecordBytes(req)`. |
| LoraUplink.WriteHeader | src/lora.cpp:61-70 | The first ten bytes of `reqBuf` are the header. |
| LoraUplink.WritePayload | src/lora.cpp:72-92 | The bytes behind the header are the payload and end within 64 bytes, with the header untouched. |
| LoraUplink.EncodeInputSection | src/lora.cpp:105-121 | The section built in `inputSection[16]` is `InputSection` of the channels. |
| LoraUplink.WriteChannel | src/lora.cpp:112-120 | Four channel bytes are written at `inputLen`, with the earlier bytes untouched. |
| LoraUplink.CopyInto | src/lora.cpp:100-101 | `memcpy` behind `index` keeps the prefix and appends the item. |
| LoraUplink.UplinkFramesShape | src/lora.cpp:46-134 | All frames go out on port 1, each is non-empty and within the MTU, and together they carry the records and the input section in order. |
| LoraUplink.ChunksWithinMtu | src/lora.cpp:95-101 | No chunk exceeds the MTU and none is empty when every item fits. |
| LoraUplink.SendChunk | src/lora.cpp:96-97 | The filled part of the buffer goes out as the next chunk on port 1. |
| LoraUplink.PlaceItem | src/lora.cpp:95-101 | Placing one item keeps the chunking invariant: sent chunks plus the chunking of the rest of the items equal the target. |
| LoraUplink.FlushAndPlace | src/lora.cpp:95-100 | When the item does not fit, the buffer is sent and the item starts the next chunk. |
| LoraUplink.PlaceRecords | src/lora.cpp:55-102 | After the record loop, the chunks sent and the buffer left match the chunking of all records so far. |
| LoraUplink.TransmitUplink | src/lora.cpp:49-134 | The frames sent are exactly `UplinkFrames` of the table prefix and the inputs, at the MTU. |
| LoraUplink.FinishUplink | src/lora.cpp:123-134 | The input section is placed last and whatever is buffered goes out as the final chunk. |
| LoraUplink.SendUplinkEffect | src/lora.cpp:46-138 | Busy: nothing changes. Otherwise the uplink frames are appended, `txComplete` is left cleared (the 3000 ms wait is not modelled), the counter advances by the number of frames and nothing else in the radio changes; the counters become `ResetSpec` of the channels, and `uplinkCount` advances by one modulo 2^16, so it always changes. |
| LoraUplink.UplinkFramesNonEmpty | src/lora.cpp:123-134 | Every uplink has at least one frame, since the input section always goes out. |
| LoraUplink.SendLoRaUplink | src/lora.cpp:46-138 | The radio, the channels and the count afterwards are `SendUplinkEffect` of their values before. |
| LoraUplink.FirstPendingAlarm | src/lora.cpp:163-170 | The slot chosen is pending, within `alarmCount`, and no earlier slot is pending; `None` means no slot from a on is pending. |
| LoraUplink.FindPending | src/lora.cpp:159-172 | The alarm chosen is the first pending one in (request, slot) order, and `None` means none is pending. |
| LoraUplink.DrainTable | src/lora.cpp:159-172 | The drain clears `pending` on exactly the alarm `FindPending` chooses; every other field, slot and request stays as it was, and the table stays well formed. |
| LoraUplink.PendingAlarmFrames | src/lora.cpp:159-188 | At most one frame, present exactly when an alarm is pending: the port-2 Modbus alarm frame of the first pending alarm with the current value of its register. |
| LoraUplink.AlarmRadioSpec | src/lora.cpp:159-213 | While busy nothing is sent; otherwise exactly `PendingAlarmFrames` is appended to the outbox; when an alarm goes out, `txComplete` is set and that frame's counter is saved; nothing else in the radio changes. |
| LoraUplink.AlarmSendCountsFrames | src/lora.cpp:159-196 | The alarm drain keeps the frame counter equal to the number of frames sent. |
| LoraUplink.CheckAlarmUplink | src/lora.cpp:159-172 | The table becomes `DrainTable` and the radio `AlarmRadioSpec`; the flag is cleared even when busy suppresses the send. |
| LoraUplink.DrainRemovesExactlyOne | src/lora.cpp:159-172 | The drain removes exactly the chosen alarm from the pending set, one fewer, and nothing when none is pending. |
| LoraUplink.DrainEmptiesPendingSet | src/lora.cpp:159-172 | Repeated drains without new alarms empty the pending set, one per pass. |
| Modbus.Triggered | src/modbus.cpp:150-157 | '>', '<' and '=' compare the value with the threshold; any other op never triggers. |
| Modbus.EvaluateAlarm | src/modbus.cpp:159-167 | `active` follows the condition; `pending` is raised on a rising edge and never lowered; index, op and threshold are kept. |
| Modbus.EvaluateAlarms | src/modbus.cpp:145-168 | Each slot becomes its evaluation when it is configured and its index is below `numRegs`, and is untouched otherwise; nothing else changes. |
| Modbus.BitWords | src/modbus.cpp:121-123 | Word j is 1 exactly when bit j is set, else 0. |
| Modbus.AfterRead | src/modbus.cpp:110-137 | Only `result` changes, and the request stays well formed. |
| Modbus.PollRequest | src/modbus.cpp:94-169 | `success` is true exactly when connected and the read succeeded; an unconnected request only gets `success` false; a register read stores the returned words in the first `numRegs` slots and keeps the rest; after a successful read every configured alarm whose index is below `numRegs` becomes `EvaluateAlarm` of the stored word at its index; alarms change only after a successful read. |
| Modbus.PollTable | src/modbus.cpp:87-171 | Ethernet off or not up changes nothing; otherwise every request below `requestCount` becomes its `PollRequest`; requests after it are untouched; the table stays well formed. |
| Modbus.ConnectAttempts | src/modbus.cpp:97-102 | At most one connect attempt per request, and none when every slave is connected or Ethernet is off. |
| Modbus.CopyBits | src/modbus.cpp:121-123 | `result[j] := bits[j] ? 1 : 0` for j below n; the later slots are kept. |
| Modbus.EvaluateAlarmsLoop | src/modbus.cpp:145-168 | The in-place alarm loop computes `EvaluateAlarms`. |
| Modbus.PollOne | src/modbus.cpp:94-169 | The loop body for one request computes `PollRequest`. |
| Modbus.PollModbus | src/modbus.cpp:87-171 | The table afterwards is `PollTable`, and the slaves asked to connect are `ConnectAttempts`, in table order. |
| Modbus.PollAt | src/modbus.cpp:93-169 | One loop iteration takes the table and the connect list from prefix i to prefix i + 1. |
| Modbus.AlarmRunTracksCondition | src/modbus.cpp:159-167 | Over any run of successful polls, `active` is the last evaluation and `pending` is set exactly when it was set already or the condition rose. |
| Modbus.SustainedConditionRisesOnce | src/modbus.cpp:159-164 | While the condition stays true the alarm rises at most once, and not at all if already active. |
| Modbus.FallingEdgeKeepsPending | src/modbus.cpp:165-167 | A falling edge lowers `active` and keeps an unsent `pending`. |
| Modbus.PollRun | src/modbus.cpp:94-169 | Polling one request repeatedly keeps it well formed and keeps its function, register count and alarm count. |
| Modbus.PollRunIsAlarmRun | src/modbus.cpp:104-167 | Over any run of successful register polls, each configured alarm evolves exactly as `AlarmRun` over the words read at its index, so `AlarmRunTracksCondition` describes the polling loop itself. |
| Inputs.SampleChannel | src/inputs.cpp:10-16 | A COUNTER counts a rising edge (modulo 2^32), a DIGITAL counter never moves, and the level is remembered. |
| Inputs.Observed | src/inputs.cpp:40 | `actual` is 1 exactly for a non-zero counter or a high last level, else 0. |
| Inputs.CheckChannel | src/inputs.cpp:42-47 | `alarmActive` ends equal to the mismatch; a send happens exactly when a mismatch is new. |
| Inputs.AlarmSends | src/inputs.cpp:37-49 | At most one alarm frame per checked channel. |
| Inputs.CheckAlarms | src/inputs.cpp:37-49 | Each channel becomes its `CheckChannel` result; at most two frames. |
| Inputs.HandleInputsSpec | src/inputs.cpp:6-26 | Each channel is sampled and then checked, and keeps the level just read. |
| Inputs.ResetSpec | src/inputs.cpp:28-34 | Only COUNTER channels change, and only their counter, which becomes 0. |
| Inputs.HandleDigitalInputs | src/inputs.cpp:6-26 | The channels become `HandleInputsSpec(...).0` and the radio sends its frames, guarded by the busy check. |
| Inputs.CheckInputAlarms | src/inputs.cpp:37-49 | The channels become `CheckAlarms(...).0` and the radio sends its frames, guarded by the busy check. |
| Inputs.CheckOne | src/inputs.cpp:39-47 | One iteration updates channel i alone and sends channel i's frame exactly when its alarm is raised. |
| Inputs.RaiseAlarm | src/inputs.cpp:43-44 | The raise branch appends the input-alarm frame of channel i, guarded by the busy check. |
| Inputs.ResetCounters | src/inputs.cpp:28-34 | The channels afterwards are `ResetSpec` of the channels before. |
| Inputs.CounterCountsRisingEdges | src/inputs.cpp:10-16 | Over any run of samples a COUNTER holds its rising edges modulo 2^32, a DIGITAL counter never moves, and the last level is kept. |
| Inputs.DigitalAlarmOncePerEpisode | src/inputs.cpp:37-49 | Over any run of samples a DIGITAL channel sends one alarm per rising edge of the mismatch signal, and `alarmActive` ends as the last mismatch. |
| Inputs.CheckChannelIdempotent | src/inputs.cpp:42-47 | Checking again without a new sample changes and sends nothing. |
| FlashFs.StrToULHexOf | src/flashfs.cpp:136 | `strtoul(…, 16)` reads up to eight hex digits back as the value they were written from. |
| FlashFs.ParseHex | src/flashfs.cpp:27-35 | Fails exactly when the length is not `2 * len`; otherwise it gives `len` bytes. |
| FlashFs.ParseHexString | src/flashfs.cpp:27-35 | Returns false and leaves `output` untouched on a wrong length; otherwise writes `ParseHex` into `output[..len]` and nothing past it. |
| FlashFs.ParseHexRoundTrip | src/flashfs.cpp:27-35 | A key written as upper-case hex text is read back byte for byte. |
| FlashFs.ParseHexAcceptsJunk | src/flashfs.cpp:28-34 | The text "zz" has the right length, is accepted, and reads as the byte 0. |
| FlashFs.KeyFrom | src/flashfs.cpp:111-132 | A key array keeps its length whatever the text. |
| FlashFs.ConfigureLoRa | src/flashfs.cpp:99-160 | No `"lora"` object changes nothing; key lengths are kept. |
| FlashFs.ConfigureLoRaRules | src/flashfs.cpp:104-139 | ABP exactly for the text "abp"; DEVADDR changes only through an 8-character text, and an 8-digit hex address is read back. |
| FlashFs.ConfigureLoRaKeys | src/flashfs.cpp:125-128 | A session key written in hex with the right length is installed as written. |
| FlashFs.ConfigureMac | src/flashfs.cpp:82-89 | The MAC changes only to a 6-element array, and always to one. |
| FlashFs.LoadAlarms | src/flashfs.cpp:328-340 | The alarm count never exceeds 4 and never goes down. |
| FlashFs.LoadAlarmsShape | src/flashfs.cpp:328-340 | The first valid entries, at most four, in order, fill slots n..; every other slot is kept. |
| FlashFs.RequestFromDoc | src/flashfs.cpp:318-340 | An accepted entry keeps `result` and the slot's 4 alarm slots. |
| FlashFs.LoadRequests | src/flashfs.cpp:299-318 | The count never exceeds 16 and the table keeps its shape. |
| FlashFs.LoadRequestsCount | src/flashfs.cpp:300-318 | The count is the number of valid entries, capped at 16. |
| FlashFs.LoadRequestsShape | src/flashfs.cpp:299-343 | The table is refilled from slot c with the valid entries in order; slots past the new count keep their contents. |
| FlashFs.LoadWith | src/flashfs.cpp:284-300 | A document that did not parse changes nothing; otherwise the count is at most 16. |
| FlashFs.RequestFromDocLoaded | src/flashfs.cpp:320-340 | An accepted entry's slot carries the entry's fields, `success` false, and its first valid alarms (at most four) inactive and, in the corrected loader, not pending. |
| FlashFs.LoadModbusShape | src/flashfs.cpp:284-343 | A reload leaves the first valid entries in order (at most 16), each loaded from its entry, with later slots untouched; the scan interval comes from the document, else it is kept. |
| FlashFs.LoadModbusWellFormed | src/flashfs.cpp:302-340 | The corrected reload keeps every request well formed when the accepted counts fit 16 slots. |
| FlashFs.ReloadKeepsStalePending | src/flashfs.cpp:335-339 | The reload as written can leave a pending alarm pointing to index 200 of a 2-register request, which the corrected reload does not. |
| FlashFs.LoadAlarmSlots | src/flashfs.cpp:328-340 | The in-place alarm loop computes the corrected `LoadAlarms`. |
| FlashFs.LoadModbusConfig | src/flashfs.cpp:284-343 | The table, count and interval afterwards are the corrected `LoadModbus` of those before; a parse error changes nothing. |
| FlashFs.LoadInputs | src/flashfs.cpp:370-378 | At most two channels are configured; COUNTER exactly for "counter"; `alarmExpected` defaults to 0; counters and levels are never touched. |
| FlashFs.LoadInputsConfig | src/flashfs.cpp:362-378 | The channels afterwards are `LoadInputs` of those before. |
| FlashFs.ConfigureChannel | src/flashfs.cpp:373-376 | The four field assignments give `ChannelFromDoc`. |
| FlashFs.DefaultModbusFits | src/flashfs.cpp:263-281 | The default modbus.json fits the 16 slots of the table and `result`. |
| FlashFs.MissingModbusLoadsDefault | src/flashfs.cpp:263-343 | A missing modbus.json is written with its default and loaded: one request to 192.168.0.187 unit 1 reading 4 holding registers with two alarms, a 5000 ms scan, and the other slots untouched. |
| FlashFs.MissingInputsLoadsDefault | src/flashfs.cpp:351-378 | A missing inputs.json loads channel 0 as DIGITAL on pin 14 with its alarm active and expecting 1, and channel 1 as COUNTER on pin 15 with no alarm; counters are kept. |
| FlashFs.MissingLoraLoadsDefault | src/flashfs.cpp:216-259 | A missing lora.json loads ABP, a 10000 ms uplink interval, sub-band 4, ADR on and SF10. |
| FlashFs.MissingEthernetLoadsDefault | src/flashfs.cpp:199-245 | A missing ethernet.json installs the MAC address DE:AD:BE:EF:FE:EE. |
| SerialEditor.Trim | src/serial_editor.cpp:14-15 | Trimming never lengthens, and keeps a command without surrounding white space. |
| SerialEditor.TrimPadding | src/serial_editor.cpp:14-15 | White space around a command changes neither the trimmed text nor its classification. |
| SerialEditor.ShellWord | src/serial_editor.cpp:82-86 | "shell" with any white space around it is the Shell command. |
| SerialEditor.MonitorWord | src/serial_editor.cpp:88-92 | "monitor" with any white space around it is the Monitor command. |
| SerialEditor.ReloadWord | src/serial_editor.cpp:129-135 | "reload" with any white space around it is the Reload command. |
| SerialEditor.ViewPath | src/serial_editor.cpp:28-29 | "view " then a path names that path; "view" alone is Unknown. |
| SerialEditor.ShellModeOnlyByModeWords | src/serial_editor.cpp:82-92 | Shell mode changes only by "shell" (to true) or "monitor" (to false). |
| SerialEditor.EnterSpec | src/serial_editor.cpp:255-264 | Enter stores the buffer at `historyIndex`, advances both indices modulo 10 and clears the buffer. |
| SerialEditor.ArrowSpec | src/serial_editor.cpp:270-283 | Up and down move the browse position by one modulo 10 and load that entry; other keys change nothing. |
| SerialEditor.KeyStep | src/serial_editor.cpp:252-288 | Each key consumes at least one character and runs at most the non-empty buffer. |
| SerialEditor.ExecutedLinesNonEmpty | src/serial_editor.cpp:255-261 | Only non-empty lines are ever handed to `executeCommand`. |
| SerialEditor.PlainKey | src/serial_editor.cpp:284-287 | A plain character is appended to the buffer. |
| SerialEditor.EnterKey | src/serial_editor.cpp:255-264 | Enter on a non-empty buffer runs it first and then continues with the rest. |
| SerialEditor.BackspaceKey | src/serial_editor.cpp:265-269 | Backspace removes the last character. |
| SerialEditor.ArrowKey | src/serial_editor.cpp:270-283 | ESC `[` and a direction act as `ArrowSpec`. |
| SerialEditor.TypingFillsBuffer | src/serial_editor.cpp:284-287 | Typed text goes into the buffer and nothing runs. |
| SerialEditor.EnterStoresLine | src/serial_editor.cpp:255-264 | A typed line and Enter execute it once and store it in the current history slot. |
| SerialEditor.EnterEndsLine | src/serial_editor.cpp:255-264 | Enter alone on a non-empty buffer is `EnterSpec` and runs the buffer. |
| SerialEditor.EmptyKeysChangeNothing | src/serial_editor.cpp:255-269 | Enter or backspace on an empty buffer change nothing. |
| SerialEditor.TypeThenBackspace | src/serial_editor.cpp:265-287 | A character then backspace leaves the console as it was. |
| SerialEditor.UpThenDown | src/serial_editor.cpp:270-283 | Up then down returns to the same slot and shows its entry. |
| SerialEditor.Console.constructor | src/serial_editor.cpp:9-11 | Ten empty history slots, both indices 0, an empty buffer. |
| SerialEditor.Console.HandleSerialCommand | src/serial_editor.cpp:250-289 | The console afterwards and the lines executed are `KeysSpec` of the input. |
| SerialEditor.Console.HandleKey | src/serial_editor.cpp:252-288 | One key advances `KeysSpec` by one step. |
| SerialEditor.Console.HandleKeyStep | src/serial_editor.cpp:253-287 | One key's state change is `KeyStep`. |
| SerialEditor.UserLine | src/serial_editor.cpp:291-317 | A completed line always consumes input. |
| SerialEditor.UserLineReadsLine | src/serial_editor.cpp:296-313 | A plain line ended by `\n` or `\r\n` is read exactly, and the input after it is left. |
| SerialEditor.GetUserLine | src/serial_editor.cpp:291-317 | Completes exactly when `UserLine` does, returning that line and the position after it. |
| SerialEditor.EditShorthand | src/serial_editor.cpp:166-168 | The rewrite adds at most one character. |
| SerialEditor.EditShorthandExamples | src/serial_editor.cpp:166-168 | "e4" and "e 4" are the same edit. |
| SerialEditor.ShorthandNeedsNoSpace | src/serial_editor.cpp:166-168 | "e4 5" is not rewritten and is not a command. |
| SerialEditor.NonNumericIndexIsZero | src/serial_editor.cpp:211-212 | A non-numeric index reads as 0. |
| SerialEditor.EditCommandWords | src/serial_editor.cpp:170-204 | "q", "s" and "a" are the quit, save and append commands. |
| SerialEditor.RemoveLine | src/serial_editor.cpp:211-220 | Line n is removed exactly when `0 <= n < size`, otherwise the list is unchanged. |
| SerialEditor.InsertLine | src/serial_editor.cpp:235-243 | The line is inserted at n+1 exactly when `0 <= n < size`, with the rest kept in order. |
| SerialEditor.InsertThenRemove | src/serial_editor.cpp:211-243 | Deleting the line just inserted restores the list. |
| SerialEditor.QuitKeepsLines | src/serial_editor.cpp:170-173 | "q" ends the session with the lines unchanged. |
| SerialEditor.AppendAddsLine | src/serial_editor.cpp:204-209 | "a" and a line append exactly that line. |
| SerialEditor.OutOfRangeIgnored | src/serial_editor.cpp:211-243 | An out-of-range delete, replace or insert changes nothing and reads no further line. |
| SerialEditor.EditFile | src/serial_editor.cpp:160-247 | The editor loop computes `EditSession`. |
| Gateway.Elapsed | src/main.cpp:51 | `now - last` on 32-bit `unsigned long`s, counting through the wrap. |
| Gateway.FirstPollWaits | src/config.cpp:9-13 | The first poll waits until `now >= 5000`. |
| Gateway.FirstUplinkImmediate | src/config.cpp:44-48 | With `lastUplink = -10000`, an uplink is due on every pass before `millis()` first wraps, the very first included. |
| Gateway.DueAcrossWrap | src/main.cpp:51-59 | A timer keeps firing across the wrap of `millis()`. |
| Gateway.ReloadedTableOK | src/flashfs.cpp:263-343 | With the corrected loader, a reload (of the file, or of the default when it is missing) keeps the request table well formed and its count within 16. |
| Gateway.ReloadSpec | src/flashfs.cpp:194-378 | `reload`, with the corrected loader: each file is loaded, a missing one after its default is written; a file that does not parse leaves its globals as they were; the radio, console, shell mode, timers and uplink count are kept; the globals stay well formed. |
| Gateway.LoadedDocFits | src/flashfs.cpp:263-343 | Whatever `reload` goes on to load, the file or its default, fits the table. |
| Gateway.ApplyDocs | src/flashfs.cpp:237-378 | Applying the resolved documents keeps the globals well formed and touches only the configuration globals; a document that is absent leaves its globals alone. |
| Gateway.ReloadLoadsDefaults | src/flashfs.cpp:198-378 | A reload where files are missing ends with their defaults loaded: the default request and 5000 ms scan, the default channels, ABP with 10000 ms, sub-band 4, ADR and SF10, and the default MAC. |
| Gateway.ExecuteSpec | src/serial_editor.cpp:13-138 | Only `reload` touches more than shell mode, and shell mode changes only for `shell` or `monitor`; the globals stay well formed. |
| Gateway.ExecuteAll | src/serial_editor.cpp:255-261 | Executing the lines in turn keeps the globals well formed. |
| Gateway.SerialSpec | src/main.cpp:33 | The console becomes `KeysSpec` of the keys; the radio, the timers and the uplink count are untouched; the globals stay well formed. |
| Gateway.AlarmsSpec | src/main.cpp:47-49 | The alarm drain and sampling touch only the table, the channels and the radio outbox, and keep the request count. |
| Gateway.PollSpec | src/main.cpp:51-57 | The poll check touches only the table and `lastModbusPoll`, and never the radio. |
| Gateway.SendUplinkSpec | src/main.cpp:64 | Only the radio, the channels and the count change; nothing at all while busy; otherwise the uplink frames of the first `requestCount` requests are appended. |
| Gateway.UplinkSpec | src/main.cpp:59-66 | `lastUplink` becomes `now` exactly when due, busy or not; the count moves exactly when due and idle; the poll timer is untouched. |
| Gateway.JoinedSpec | src/main.cpp:47-66 | The joined part keeps the globals well formed. |
| Gateway.TickSpec | src/main.cpp:32-67 | A pass keeps the globals well formed. |
| Gateway.ExecuteAllKeepsRadio | src/serial_editor.cpp:13-138 | Commands never touch the radio, the console, the timers or the uplink count. |
| Gateway.ShellPassSendsNothing | src/main.cpp:33-38 | In shell mode a pass sends nothing and moves no timer. |
| Gateway.UnjoinedPassSendsNothing | src/main.cpp:42-45 | An unjoined pass sends, samples, polls and uplinks nothing, and ends joined exactly when EV_JOINED arrived. |
| Gateway.JoinedTimers | src/main.cpp:40-66 | Each timer restarts exactly when its own interval is due from the same `now`; neither moves the other. |
| Gateway.JoinedPassTimers | src/main.cpp:40-66 | The same for a whole joined pass outside shell mode. |
| Gateway.JoinedFrames | src/main.cpp:47-66 | The frames of a joined pass, in order: at most one Modbus alarm, the input alarms, then the uplink when due; nothing while busy. |
| Gateway.JoinedPassRunsJoinedPart | src/main.cpp:33-49 | A joined pass outside shell mode is the joined part run on what serial handling left, with the radio untouched. |
| Gateway.AlarmsCountFrames | src/main.cpp:47-49 | The alarm drain and input handling keep the frame counter equal to the number of frames sent. |
| Gateway.UplinkCountsFrames | src/main.cpp:59-66 | So does the uplink check. |
| Gateway.TickCountsFrames | src/main.cpp:32-67 | Every pass keeps the frame counter equal to the number of frames sent, so a saved counter is never that of an earlier frame. |
| Gateway.InitialGlobals | src/config.cpp:5-57 | The initial globals are well formed. |
| Gateway.SetupSpec | src/main.cpp:12-30 | With the corrected loader: setup sends nothing and leaves the console, shell mode, the timers and the count alone; the globals stay well formed. |
| Gateway.SetupState | src/main.cpp:12-30 | After setup nothing has been sent, the console is empty, shell mode is off, the device is joined exactly in ABP mode, `ethOK` says whether Ethernet came up, and the frame counter is 0, the number of frames sent. |
| Gateway.Device.constructor | src/config.cpp:5-57 | The objects start as `InitialGlobals`. |
| Gateway.Device.Setup | src/main.cpp:12-30 | The globals afterwards are `SetupSpec` of those before. |
| Gateway.Device.ReloadConfig | src/serial_editor.cpp:129-135 | The globals afterwards are `ReloadSpec` (with the corrected loader). |
| Gateway.Device.ApplyConfig | src/flashfs.cpp:237-378 | The globals afterwards are `ApplyDocs` of the resolved documents. |
| Gateway.Device.InitEthernet | src/main.cpp:23 | `ethOK` takes whether Ethernet came up, unless Ethernet is disabled; nothing else changes. |
| Gateway.Device.InitLoRa | src/main.cpp:25 | Only the radio changes, to `InitSpec` of the current LoRa settings. |
| Gateway.Device.ExecuteCommand | src/serial_editor.cpp:13-138 | The globals afterwards are `ExecuteSpec`. |
| Gateway.Device.ExecuteCommands | src/serial_editor.cpp:255-261 | The globals afterwards are `ExecuteAll`. |
| Gateway.Device.SerialStep | src/main.cpp:33 | The globals afterwards are `SerialSpec`. |
| Gateway.Device.AlarmStep | src/main.cpp:47-49 | The globals afterwards are `AlarmsSpec`. |
| Gateway.Device.PollStep | src/main.cpp:51-57 | The globals afterwards are `PollSpec`. |
| Gateway.Device.UplinkStep | src/main.cpp:59-66 | The globals afterwards are `UplinkSpec`. |
| Gateway.Device.StampUplink | src/main.cpp:61 | Only `lastUplink` changes, to `now`. |
| Gateway.Device.SendUplink | src/main.cpp:64 | The globals afterwards are `SendUplinkSpec`. |
| Gateway.Device.RunLmic | src/main.cpp:42-45 | Only the radio changes, by the events delivered. |
| Gateway.Device.Loop | src/main.cpp:32-67 | The globals afterwards are `TickSpec` of those before. |

## Left out

- `configureEthernetFromJson`: only the `"mac"` key of ethernet.json is modelled. `enableEthernet`, the IP settings and `useDHCP` are never reloaded; they keep their initial values from src/config.cpp.
- `initEthernet`: the bring-up is hardware. Whether Ethernet came up is the input `ethernetUp` of `Setup`, and `printIP` is printing.
- LittleFS: each file is read as an already-parsed document (`Stored`): missing, unparsable or parsed. A missing file is loaded as its default, as if writing the default had succeeded; a failed write of a default file is not modelled. `fileExistsFS`/`readFileFS` and the file-writing side of `saveFrameCounter` are not modelled; `EventSpec` records the saved counter value.
- ArduinoJson: numbers arrive already converted to their field types. Conversions of out-of-range JSON values are not modelled.
- `loadFrameCounter` and the restore of `LMIC.seqnoUp` at start-up: the model starts from a reset radio.
- LMIC timing: the scheduling inside `os_runloop_once`, the 3000 ms timeout of `sendLoRaPayloadChunk` and `LMIC_clrTxData`. A transmission is modelled as its frame being appended to the outbox. The events LMIC delivers on an unjoined pass are an input; the `while (!txComplete) os_runloop_once()` wait of an alarm send is modelled as that send followed by its EV_TXCOMPLETE.
- ModbusEthernet: `mb.isConnected`, `mb.connect`, the reads, `mb.task()` and the 50 ms wait loop. Each request's outcome (connected, read succeeded, the registers or bits returned) is an input `PollOutcome`. `PollModbus` returns the slaves it asked to connect, and `loop` discards that list.
- The file console commands `list`, `view`, `write`, `delete`, `resetfs`, `reboot` and `help` are classified but change no modelled state. The `edit` and `write` commands read further serial lines inside `executeCommand`; the model does not consume those lines within a pass. `EditFile` models the editor session on its own, and `s` ends the session without writing the file.
- `pinMode`/`digitalRead`: the pin levels of a pass are an input. Printing, `Serial.printf` and the emoji logs carry no state.
- `src/main2.cpp` and the declaration-only headers (include/lora.h, include/flashfs.h, include/serial_editor.h) are not part of this model.
- `SerialEditor.NonNumericIndexIsZero`: indices are read as `String::toInt` reads them, on unbounded integers; an index too large for a `long` is not modelled.
- The console works on `char`s; there is no byte encoding of the serial input.
- `Config.WellFormed`, `FlashFs.WithinCapacity`, `Gateway.FitsTable`: the model requires every accepted request to have `count <= 16`, the size of `result[16]`. The firmware accepts counts up to 125 and then overruns `result`; that overrun is not modelled.
- `LoraCodec.PackBits`: the firmware's `ceil(numRegs / 8.0)` is the integer `(n + 7) / 8`, which agrees for every `uint8_t` count.
- `Gateway.ReloadedTableOK`: stated of the corrected loader `FlashFs.LoadModbus`, which clears `pending` with `active`; the loader as written is `FlashFs.LoadModbusAsWritten` (see Findings).
- `Gateway.ReloadSpec`: uses the corrected loader `FlashFs.LoadModbus`, not the loader as written (see Findings).
- `Gateway.SetupSpec`: uses the corrected loader through `Gateway.ReloadSpec`.
- `Gateway.Device.ReloadConfig`: runs the corrected loader `FlashFs.LoadModbusConfig`.
- `LoraUplink.SendUplinkEffect`: the 3000 ms wait of `sendLoRaPayloadChunk` for EV_TXCOMPLETE is not modelled, so after an uplink's chunks `txComplete` stays cleared and no counter is saved for them.
- `LoraRadio.TransmitSpec`: a bare transmission, without the event that completes it; only the alarm sends (`SendIfIdleSpec`) are followed by EV_TXCOMPLETE.
- `Gateway.TickSpec`: on a joined pass a frame counter is saved only by the alarm sends' waits, not by the uplink chunks.
- LMIC's retransmissions and its session resets of `seqnoUp` are not modelled; the counter counts the frames handed to LMIC.

## Findings

| source | as written | input that shows it | evidently intended | confidence | as-written member | corrected member |
|---|---|---|---|---|---|---|
| src/flashfs.cpp:335-339 | Reloading an alarm slot sets `index`, `op`, `threshold` and `active` but never `pending`, so a slot pending before `reload` stays pending and takes on the new index; `checkAlarmUplink` then reads `result[index]` for it, which can lie past `numRegs` and past the 16-slot buffer | slot 0 pending with `alarmCount` 1; then a `modbus.json` with one request of count 2 whose only alarm has index 200 | `pending` cleared along with `active` when an alarm is loaded | not executed | `FlashFs.ReloadKeepsStalePending` (on `FlashFs.LoadModbusAsWritten`) | `FlashFs.LoadModbusWellFormed` (on `FlashFs.LoadModbus`, which the rest of the model uses) |
