# elrs-sniffer core, modelled in Dafny

The elrs-sniffer firmware runs on an SX1280 2.4 GHz receiver. It puts the radio into a promiscuous
LoRa mode. The main loop polls the radio when the receive interrupt has fired or more than 10 ms
have passed since the last poll. Each received frame of 1 to 64 bytes goes into a 256-slot
capture ring. It then tries to decode the frame as a CRSF RC-channels frame and hands it to web clients.
This project models four parts of it:

- `elrs_decoder.dfy` (module `ElrsDecoder`) models the CRSF decoder. It covers:
  - the bit-serial CRC-8 with polynomial 0xD5, as a loop proved equal to a recursive definition;
  - the CRC check over the type and payload span;
  - the RC-channels frame filter;
  - the 11-bit channel unpacker, **exactly as written**, in the source's own widths (8-bit channel
    counter, 16-bit bit index). For bit offsets 0 to 5 that unpacker never reads the next byte, so
    only channels 2, 5, 10 and 13 come out as full 11-bit fields, and the lemmas say so.
- `packet_capture.dfy` (module `Capture`) models the capture ring as a class with an array of
  slots, two cursors, a count and lifetime counters. Each method is proved against the pure `Ring`
  functions (`Add`, `Get`, `Cleared`), and the ring's behaviour is proved about those functions
  through its abstract `Contents`.
- `sx1280_driver.dfy` (module `Sx1280`) models the SX1280 driver.
  - Every command is a `Command` value. `Encode` gives its bytes on the wire, and a reference
    `Parse` (the chip's reading) inverts it.
  - The response decoders are pure functions.
  - The driver class only appends SPI exchanges to a ghost trace. This makes the promiscuous
    configuration a fixed, byte-exact sequence of six frames.
- `main.dfy` (module `MainLoop`) models the application.
  - One `loop()` pass is the pure `Step`, which gives the list of actions (bus exchanges, store,
    decode, broadcast) and the new `packetReady` and `lastPacketCheck`.
  - The `Sniffer.Loop` method carries that pass out on the driver and the capture ring, and is
    proved to do exactly what `Step` says.
  - `setup()` is modelled both as a method and as a pure step sequence with its halting rule.

`bytes.dfy` (octets, 16-bit words, C's truncating division, signed bytes) and `config.dfy` (the
constants of `config.h`) are shared.

A correct LSB-first 11-bit unpacker returns 0x7FF on every channel when the payload is all ones.
This unpacker does not: `UnpackAllOnesLosesBits` shows `Unpack` returning 0xFF on channel 0. The
model follows the code.

## Model

| member | source | states |
|---|---|---|
| ElrsDecoder.CrcFrom | elrs-sniffer/src/elrs_decoder.cpp:11-22 | the register after feeding bytes one at a time (an XOR into the register, then eight steps); `CrcFromAppend`, `CrcFromZeros` and `CrcFromInjective` state its properties |
| ElrsDecoder.Crc8 | elrs-sniffer/src/elrs_decoder.cpp:9-23 | `CrcFrom` started at 0; `CalculateCrc8` is proved to compute it, and `CrcSelfCheck` and `SingleByteErrorDetected` state what it promises |
| ElrsDecoder.CrcShift | elrs-sniffer/src/elrs_decoder.cpp:15-19 | one register step never turns a non-zero register into zero (the polynomial has its x^0 term) |
| ElrsDecoder.CrcShifts | elrs-sniffer/src/elrs_decoder.cpp:14-20 | any number of register steps leave a non-zero register non-zero (the induction uses `CrcShift`'s contract at each step) |
| ElrsDecoder.CrcUpdate | elrs-sniffer/src/elrs_decoder.cpp:12-20 | one byte fed in: XOR it into the register, then eight steps; `CrcUpdateInjective` and `CrcUpdateDetects` state that a fed byte is never lost |
| ElrsDecoder.CalculateCrc8 | elrs-sniffer/src/elrs_decoder.cpp:9-23 | the nested byte/bit loop returns the CRC-8 of the whole input, as `Crc8` defines it byte after byte |
| ElrsDecoder.CrcFromAppend | elrs-sniffer/src/elrs_decoder.cpp:11-22 | feeding `a + b` is feeding `a`, then `b` from the register `a` left |
| ElrsDecoder.CrcSelfCheck | elrs-sniffer/src/elrs_decoder.cpp:11-22 | appending a string's CRC to it makes the CRC of the result 0 (zero start, no final XOR) |
| ElrsDecoder.CrcFromZeros | elrs-sniffer/src/elrs_decoder.cpp:11-22 | zero bytes leave a zero register at zero and a non-zero register non-zero |
| ElrsDecoder.CrcOfZeros | elrs-sniffer/src/elrs_decoder.cpp:11-22 | the CRC of the empty string and of every all-zero string is 0 |
| ElrsDecoder.CrcShiftInjective | elrs-sniffer/src/elrs_decoder.cpp:15-19 | two registers that give the same register after one step were equal |
| ElrsDecoder.CrcShiftsInjective | elrs-sniffer/src/elrs_decoder.cpp:14-20 | the same holds after any number of steps |
| ElrsDecoder.CrcUpdateInjective | elrs-sniffer/src/elrs_decoder.cpp:12-20 | feeding one byte to two registers that end equal means they started equal |
| ElrsDecoder.CrcUpdateDetects | elrs-sniffer/src/elrs_decoder.cpp:12-20 | feeding two different bytes to one register gives two different registers |
| ElrsDecoder.CrcFromInjective | elrs-sniffer/src/elrs_decoder.cpp:11-22 | feeding the same bytes to two different registers leaves two different registers |
| ElrsDecoder.Crc8CheckSteps | elrs-sniffer/src/elrs_decoder.cpp:12-20 | the register values after each byte of the ASCII string "123456789": 0x23, 0x87, 0xE7, 0x8A, 0x64, 0xB0, 0xBB, 0x45, 0xBC |
| ElrsDecoder.Crc8CheckValue | elrs-sniffer/src/elrs_decoder.cpp:9-23 | the CRC-8 of "123456789" is 0xBC, the catalogued check value of CRC-8/DVB-S2 (polynomial 0xD5, zero start, no reflection, no final XOR) |
| ElrsDecoder.SingleByteErrorDetected | elrs-sniffer/src/elrs_decoder.cpp:9-23 | replacing any one byte by a different value changes the CRC-8 |
| ElrsDecoder.SingleByteFlipDetected | elrs-sniffer/src/elrs_decoder.cpp:9-23 | XOR-ing a non-zero mask into one byte changes the CRC-8 |
| ElrsDecoder.CrcValid | elrs-sniffer/src/elrs_decoder.cpp:25-37 | the check as a predicate; `ValidateCrc` is proved to compute it, and `CrcValidSpanOnly`, `FrameWithCrcValidates` and `CorruptedFrameRejected` state its properties |
| ElrsDecoder.ValidateCrc | elrs-sniffer/src/elrs_decoder.cpp:25-37 | false below 3 bytes; otherwise true exactly when the CRC of `packet[2 .. length-1)` equals `packet[length-1]` |
| ElrsDecoder.CrcValidSpanOnly | elrs-sniffer/src/elrs_decoder.cpp:30-36 | the sync byte, the length byte and everything past `length` never affect the check |
| ElrsDecoder.FrameWithCrcValidates | elrs-sniffer/src/elrs_decoder.cpp:30-36 | a frame whose last byte is the CRC of its type and payload validates, whatever follows it |
| ElrsDecoder.CorruptedFrameRejected | elrs-sniffer/src/elrs_decoder.cpp:25-37 | a frame that validates no longer validates once any one byte of its type, payload or CRC is changed |
| ElrsDecoder.ByteIndexOf | elrs-sniffer/src/elrs_decoder.cpp:87 | the 8-bit byte index of channel `ch` is `11 * ch / 8` |
| ElrsDecoder.BitOffsetOf | elrs-sniffer/src/elrs_decoder.cpp:88 | the 8-bit bit offset of channel `ch` is `11 * ch % 8` |
| ElrsDecoder.UnpackChannel | elrs-sniffer/src/elrs_decoder.cpp:84-103 | every channel value the unpacker produces is below 2048 |
| ElrsDecoder.Unpack | elrs-sniffer/src/elrs_decoder.cpp:82-105 | the unpacker yields sixteen values, each below 2048 |
| ElrsDecoder.UnpackFullChannels | elrs-sniffer/src/elrs_decoder.cpp:87-101 | channels 2, 5, 10 and 13 (offsets 6 and 7) are exactly the LSB-first 11-bit fields at bit `11 * ch` |
| ElrsDecoder.UnpackTruncatedChannels | elrs-sniffer/src/elrs_decoder.cpp:87-101 | every channel at offset 0 to 5 is its first byte shifted down by the offset, so it is below `2^(8 - offset)` |
| ElrsDecoder.UnpackZeros | elrs-sniffer/src/elrs_decoder.cpp:87-101 | an all-zero payload gives sixteen zero channels |
| ElrsDecoder.UnpackAllOnesLosesBits | elrs-sniffer/src/elrs_decoder.cpp:87-101 | with all bytes 0xFF, channel 0's field is 0x7FF but the unpacker returns 0xFF: pack then unpack is not the identity |
| ElrsDecoder.UnpackChannel0Is1000 | elrs-sniffer/src/elrs_decoder.cpp:87-101 | channel 0 = 1000 with the rest 0 comes back as 232 on channel 0 and 0 elsewhere |
| ElrsDecoder.ChannelData.constructor | elrs-sniffer/src/elrs_decoder.h:27-30 | a channel record has sixteen slots and a validity flag, starting from whatever the caller's storage held |
| ElrsDecoder.ExtractChannels | elrs-sniffer/src/elrs_decoder.cpp:76-108 | fills all sixteen slots in place with `Unpack` of payload bytes 0 to 20 only, and returns true |
| ElrsDecoder.Decode | elrs-sniffer/src/elrs_decoder.cpp:39-74 | the decode as a function: `None` below 4 bytes, on a CRC mismatch or for another type, else the unpacked `packet[3..24)`; `DecodePacket` is proved to compute it, and `DecodeIgnoresHeader` and `DecodeBuiltFrame` state its properties |
| ElrsDecoder.DecodePacket | elrs-sniffer/src/elrs_decoder.cpp:39-74 | returns true exactly when `length >= 4`, the CRC checks and the type is 0x16; `valid` equals the result; on true the slots hold the unpacked `packet[3..24)`, on false they are unchanged |
| ElrsDecoder.DecodeIgnoresHeader | elrs-sniffer/src/elrs_decoder.cpp:48-58 | the sync byte and the length field `packet[1]` never change the decode |
| ElrsDecoder.DecodeBuiltFrame | elrs-sniffer/src/elrs_decoder.cpp:39-74 | an RC-channels frame with its correct CRC decodes to the unpacked payload; with any other CRC byte it is rejected |
| ElrsDecoder.ChannelToMicroseconds | elrs-sniffer/src/elrs_decoder.cpp:110-115 | an 11-bit value maps into 988..2012 |
| ElrsDecoder.ChannelToMicrosecondsPoints | elrs-sniffer/src/elrs_decoder.cpp:110-115 | 0 maps to 988, 1024 to 1500 and 2047 to 2012 |
| ElrsDecoder.ChannelToMicrosecondsMonotone | elrs-sniffer/src/elrs_decoder.cpp:110-115 | the mapping never decreases |
| Capture.Add | elrs-sniffer/src/packet_capture.cpp:16-34 | an add on the ring's state: when full, count a drop, set the flag and advance the read cursor; then write the slot, advance the write cursor, count the frame; `AddPreservesInv`, `AddContents`, `AddFullAt` and `AddRoomAt` state its properties |
| Capture.Get | elrs-sniffer/src/packet_capture.cpp:36-46 | absence when `index >= count`, else slot `(read + index) % 256`; `GetIsContents` and `AddThenGetNewest` state its properties |
| Capture.Cleared | elrs-sniffer/src/packet_capture.cpp:50-56 | cursors, count and the full flag reset; `ClearedEmpty` states its properties |
| Capture.InitialInv | elrs-sniffer/src/packet_capture.cpp:7-9 | the constructor's state satisfies the ring invariant and holds no frame |
| Capture.AddPreservesInv | elrs-sniffer/src/packet_capture.cpp:16-34 | `addPacket` keeps cursors below 256, `count <= 256`, `write == (read + count) % 256` and the counter bounds |
| Capture.AddContents | elrs-sniffer/src/packet_capture.cpp:16-34 | the held frames become the old ones plus `p`, losing only the oldest and only on a full ring; received +1; dropped +1 exactly on a full ring |
| Capture.AddFullAt | elrs-sniffer/src/packet_capture.cpp:18-30 | on a full ring, held frame `i` after an add is the old frame `i + 1`, or `p` at the newest end |
| Capture.AddRoomAt | elrs-sniffer/src/packet_capture.cpp:27-30 | on a ring with room, an add keeps every held frame in place and puts `p` after them |
| Capture.AddThenGetNewest | elrs-sniffer/src/packet_capture.cpp:16-46 | after `addPacket(p)`, `getPacket(count - 1)` yields `p` |
| Capture.GetIsContents | elrs-sniffer/src/packet_capture.cpp:36-46 | `getPacket(i)` fails exactly when `i >= count` and otherwise yields the `i`-th oldest held frame |
| Capture.ClearedEmpty | elrs-sniffer/src/packet_capture.cpp:50-56 | clearing empties the ring, keeps the invariant and leaves both lifetime counters |
| Capture.AddAllContents | elrs-sniffer/src/packet_capture.cpp:16-34 | a run of adds leaves the newest 256 of the old frames followed by the run, counts every frame received and exactly the overflow dropped |
| Capture.FillFromEmpty | elrs-sniffer/src/packet_capture.cpp:16-46 | from empty, `256 + k` adds leave a full ring with `k` drops and `256 + k` receptions, and `getPacket(0)` is frame `k + 1` |
| Capture.PacketCapture.constructor | elrs-sniffer/src/packet_capture.cpp:7-9 | zeroed cursors, counters and flag, and a valid ring |
| Capture.PacketCapture.Begin | elrs-sniffer/src/packet_capture.cpp:11-14 | `begin` clears the ring |
| Capture.PacketCapture.AddPacket | elrs-sniffer/src/packet_capture.cpp:16-34 | returns true, keeps the invariant, and the new state is `Add` of the old one |
| Capture.PacketCapture.GetPacket | elrs-sniffer/src/packet_capture.cpp:36-46 | succeeds exactly when `index < count`, then yielding the `index`-th oldest frame; otherwise the caller's record keeps its value; nothing in the ring changes |
| Capture.PacketCapture.GetPacketCount | elrs-sniffer/src/packet_capture.cpp:48 | the number of frames held, at most 256 |
| Capture.PacketCapture.ClearBuffer | elrs-sniffer/src/packet_capture.cpp:50-56 | cursors, count and the full flag reset; slots and lifetime counters untouched |
| Capture.PacketCapture.GetTotalPacketsReceived | elrs-sniffer/src/packet_capture.cpp:58 | every frame ever added, at least as many as held |
| Capture.PacketCapture.GetTotalPacketsDropped | elrs-sniffer/src/packet_capture.cpp:60 | the evictions, which together with the held frames never exceed the receptions |
| Sx1280.Encode | elrs-sniffer/src/sx1280_driver.cpp:45-257 | every command frame starts with its opcode |
| Sx1280.ParseEncode | elrs-sniffer/src/sx1280_driver.cpp:45-257 | every command whose fields fit its frame is read back by the chip exactly as sent |
| Sx1280.RoundTripStandby | elrs-sniffer/src/sx1280_driver.cpp:48-49 | the standby frame reads back as the same mode |
| Sx1280.RoundTripPacketType | elrs-sniffer/src/sx1280_driver.cpp:58-59 | the packet-type frame reads back as the same type |
| Sx1280.RoundTripFrequency | elrs-sniffer/src/sx1280_driver.cpp:72-75 | a 24-bit frequency register reads back unchanged |
| Sx1280.Word24OfOctets | elrs-sniffer/src/sx1280_driver.cpp:72-74 | the three frequency octets, joined high first, are the register's low 24 bits |
| Sx1280.ParseFrequencyFrame | elrs-sniffer/src/sx1280_driver.cpp:72-75 | any 4-byte frame with opcode 0x86 reads as the frequency its octets spell |
| Sx1280.RoundTripModulation | elrs-sniffer/src/sx1280_driver.cpp:84-90 | the modulation frame reads back as the same three parameters |
| Sx1280.RoundTripPacketParams | elrs-sniffer/src/sx1280_driver.cpp:101-113 | the 10-byte packet-parameter frame reads back as the same five fields |
| Sx1280.RoundTripDioIrq | elrs-sniffer/src/sx1280_driver.cpp:123-129 | the 9-byte IRQ-routing frame reads back as the same four masks |
| Sx1280.RoundTripBufferBase | elrs-sniffer/src/sx1280_driver.cpp:139-141 | the buffer-base frame reads back as the same two addresses |
| Sx1280.RoundTripRx | elrs-sniffer/src/sx1280_driver.cpp:202-205 | the RX frame reads back as the same timeout |
| Sx1280.RoundTripClearIrq | elrs-sniffer/src/sx1280_driver.cpp:251-253 | the IRQ-clear frame reads back as the same mask |
| Sx1280.RoundTripQuery | elrs-sniffer/src/sx1280_driver.cpp:215-217 | the four one-byte queries read back as themselves |
| Sx1280.RoundTripReadBuffer | elrs-sniffer/src/sx1280_driver.cpp:229-230 | the read-buffer frame reads back as the same offset |
| Sx1280.FrameLengths | elrs-sniffer/src/sx1280_driver.cpp:45-257 | frame lengths: 10 for packet parameters, 9 for IRQ routing, 4 for frequency, modulation and RX, 3 for buffer bases and IRQ clear, 2 for standby, packet type and read buffer, 1 for queries |
| Sx1280.FrequencyFrame | elrs-sniffer/src/sx1280_driver.cpp:72-75 | the frequency frame is 4 bytes, opcode 0x86, carrying the register's low 24 bits high octet first |
| Sx1280.Register | elrs-sniffer/src/sx1280_driver.cpp:68 | the 64-bit `(f << 18) / 52e6`, cut to 32 bits; `ElrsRegister` ties it to the exact quotient at 2440 MHz and `FrequencyFrame` to the bytes sent |
| Sx1280.ElrsRegister | elrs-sniffer/src/sx1280_driver.cpp:68 | 2440 MHz gives register 0xBBB13B, the floor of `2440e6 * 2^18 / 52e6` |
| Sx1280.ElrsFrequencyFrame | elrs-sniffer/src/sx1280_driver.cpp:68-75 | the 2440 MHz frame is `86 BB B1 3B` |
| Sx1280.IrqStatusOf | elrs-sniffer/src/sx1280_driver.cpp:245 | the IRQ word is response byte 1 high, byte 2 low; `IrqStatusRoundTrip` inverts the chip-side `IrqResponse` with it |
| Sx1280.IrqStatusRoundTrip | elrs-sniffer/src/sx1280_driver.cpp:236-246 | the host recovers the flags the chip reports, whatever status byte precedes them |
| Sx1280.IrqStatusIgnoresStatusByte | elrs-sniffer/src/sx1280_driver.cpp:245 | the IRQ status ignores response byte 0 and is byte 1 high, byte 2 low |
| Sx1280.RxBufferStatusOf | elrs-sniffer/src/sx1280_driver.cpp:221-222 | the payload length is response byte 1 and the start pointer byte 2; `RxBufferStatusRoundTrip` inverts the chip-side `RxBufferResponse` with it |
| Sx1280.RxBufferStatusRoundTrip | elrs-sniffer/src/sx1280_driver.cpp:211-224 | the host recovers the length and start pointer the chip reports, whatever status byte precedes them |
| Sx1280.RxBufferStatusIgnoresStatusByte | elrs-sniffer/src/sx1280_driver.cpp:221-222 | response byte 0 never changes the decoded status, and every response is the chip-side encoding of its decoding |
| Sx1280.PacketStatusOf | elrs-sniffer/src/sx1280_driver.cpp:273-274 | RSSI is `-(raw / 2)` in [-127, 0]; SNR is the signed byte truncated-divided by 4, in [-32, 31], with its sign |
| Sx1280.PacketStatusExamples | elrs-sniffer/src/sx1280_driver.cpp:273-274 | raw RSSI 0xB4 is -90 dBm; raw SNR 0xF6 is -2 dB and 0x1F is 7 dB |
| Sx1280.PromiscuousFrames | elrs-sniffer/src/sx1280_driver.cpp:147-195 | the promiscuous configuration is exactly six frames, byte for byte, each reading nothing back |
| Sx1280.PromiscuousCommands | elrs-sniffer/src/sx1280_driver.cpp:147-195 | the six configuration commands in order: LoRa packet type, the ELRS frequency, SF/BW/CR, the packet parameters, the buffer base addresses, and the IRQ mask for RX done, CRC error and header error on DIO1; `PromiscuousFrames` states their bytes |
| Sx1280.Sx1280Driver.constructor | elrs-sniffer/src/sx1280_driver.cpp:7 | a new driver is uninitialised with an empty trace |
| Sx1280.Sx1280Driver.Begin | elrs-sniffer/src/sx1280_driver.cpp:9-35 | issues the standby (RC) frame, sets initialised and returns true |
| Sx1280.Sx1280Driver.SetStandby | elrs-sniffer/src/sx1280_driver.cpp:45-53 | appends the standby frame and returns true |
| Sx1280.Sx1280Driver.SetPacketType | elrs-sniffer/src/sx1280_driver.cpp:55-63 | appends the packet-type frame and returns true |
| Sx1280.Sx1280Driver.SetRfFrequency | elrs-sniffer/src/sx1280_driver.cpp:65-79 | appends the frequency frame of `Register(frequency)` and returns true |
| Sx1280.Sx1280Driver.SetModulationParams | elrs-sniffer/src/sx1280_driver.cpp:81-94 | appends the modulation frame and returns true |
| Sx1280.Sx1280Driver.SetPacketParams | elrs-sniffer/src/sx1280_driver.cpp:96-117 | appends the packet-parameter frame and returns true |
| Sx1280.Sx1280Driver.SetDioIrqParams | elrs-sniffer/src/sx1280_driver.cpp:119-133 | appends the IRQ-routing frame and returns true |
| Sx1280.Sx1280Driver.SetBufferBaseAddress | elrs-sniffer/src/sx1280_driver.cpp:135-145 | appends the buffer-base frame and returns true |
| Sx1280.Sx1280Driver.EnablePromiscuousMode | elrs-sniffer/src/sx1280_driver.cpp:147-195 | appends exactly the six configuration frames in order and returns true |
| Sx1280.Sx1280Driver.SetRx | elrs-sniffer/src/sx1280_driver.cpp:197-209 | appends the RX frame and returns true |
| Sx1280.Sx1280Driver.ClearIrqStatus | elrs-sniffer/src/sx1280_driver.cpp:248-257 | appends the IRQ-clear frame and returns true |
| Sx1280.Sx1280Driver.GetRxBufferStatus | elrs-sniffer/src/sx1280_driver.cpp:211-224 | returns the decoded length and start pointer of the chip's response, recording the exchange |
| Sx1280.Sx1280Driver.ReadBuffer | elrs-sniffer/src/sx1280_driver.cpp:226-234 | delivers the bytes the chip clocks out after the offset frame, recording the exchange |
| Sx1280.Sx1280Driver.GetIrqStatus | elrs-sniffer/src/sx1280_driver.cpp:236-246 | returns the decoded flags of the chip's response, recording the exchange |
| Sx1280.Sx1280Driver.GetPacketStatus | elrs-sniffer/src/sx1280_driver.cpp:259-277 | returns the decoded RSSI and SNR of the chip's response, recording the exchange |
| Sx1280.Sx1280Driver.GetStatus | elrs-sniffer/src/sx1280_driver.cpp:279-288 | returns the status byte the chip clocks out, recording the exchange |
| MainLoop.Elapsed | elrs-sniffer/src/main.cpp:122 | `millis() - lastPacketCheck` is a 32-bit unsigned difference, the plain difference while no wrap happened |
| MainLoop.AcceptedLength | elrs-sniffer/src/main.cpp:142 | an accepted length lies in 1..64 |
| MainLoop.Captured | elrs-sniffer/src/main.cpp:132-143 | the stored record has the reported length, a 64-byte data area, and the bytes read from the radio in front |
| MainLoop.PollActions | elrs-sniffer/src/main.cpp:125-183 | a poll: the IRQ read, the RX-done branch when its flag is set, then the CRC-error pair when its flag is set |
| MainLoop.CheckDue | elrs-sniffer/src/main.cpp:122 | a poll is due when `packetReady` is set or the 32-bit unsigned `millis() - lastPacketCheck` exceeds 10; `StepRunsIffDue` states that a pass talks to the radio exactly then |
| MainLoop.LengthAccepted | elrs-sniffer/src/main.cpp:142 | the length check `0 < length <= MAX_PACKET_SIZE` (64); `AcceptedLength` states the bounds, and `Sniffer.Poll` stores a frame exactly when the check holds |
| MainLoop.Rearm | elrs-sniffer/src/main.cpp:171-182 | the clear-IRQ write with the given mask, then continuous RX; it ends the RX-done branch with RX done and CRC error (171-172) and the CRC-error branch with CRC error alone (181-182) |
| MainLoop.SlotsAfter | elrs-sniffer/src/main.cpp:148-151 | the channel slots a broadcast carries: the decoded values when the decode succeeds, the untouched contents of the stack record otherwise; `PublishedSlots` and `DecodeChannels` tie it to the decoder object |
| MainLoop.FrameActions | elrs-sniffer/src/main.cpp:142-168 | an accepted frame: read `length` bytes from the start pointer, store, decode, broadcast, in that order; `BroadcastCarriesDecode` states what the broadcast carries |
| MainLoop.RxDoneActions | elrs-sniffer/src/main.cpp:128-176 | the RX-done branch: packet status, buffer status, the frame's actions when its length is accepted, then the re-arm with RX done and CRC error |
| MainLoop.CrcErrorActions | elrs-sniffer/src/main.cpp:179-183 | the CRC-error branch: the re-arm with CRC error when that bit is set, nothing otherwise; `CrcErrorPairLast` states where it falls in a poll |
| MainLoop.ClearedFits | elrs-sniffer/src/main.cpp:62 | the ring that `packetCapture.begin()` leaves is well formed and holds no frame of a bad length |
| MainLoop.AddKeepsFit | elrs-sniffer/src/main.cpp:142-146 | adding a frame whose length passed the check keeps the ring well formed and every held frame 1 to 64 bytes long |
| MainLoop.DecodeChannels | elrs-sniffer/src/main.cpp:148-151 | decoding into a fresh stack record leaves the slots `SlotsAfter` gives and flags them valid exactly when the decode succeeds |
| MainLoop.Step | elrs-sniffer/src/main.cpp:122-184 | one pass: nothing when no poll is due, else the poll's actions, `packetReady` cleared on RX done and `lastPacketCheck` moved to now; the lemmas below and `Sniffer.Loop` state its properties |
| MainLoop.StepRunsIffDue | elrs-sniffer/src/main.cpp:122-126 | a pass talks to the radio exactly when `packetReady` is set or more than 10 ms passed, starts with the IRQ read, and only then moves `lastPacketCheck` to now |
| MainLoop.StoreIffAccepted | elrs-sniffer/src/main.cpp:128-146 | a frame is stored exactly when the poll saw RX done and the length is in 1..64, and it is the frame read |
| MainLoop.DecodedOnlyOnAcceptedFrame | elrs-sniffer/src/main.cpp:142-151 | a decode happens only in that case, as the sixth action |
| MainLoop.BroadcastOnlyOnAcceptedFrame | elrs-sniffer/src/main.cpp:142-154 | a broadcast happens only on an accepted frame, as the seventh action |
| MainLoop.BroadcastCarriesDecode | elrs-sniffer/src/main.cpp:148-154 | the broadcast follows the decode of the stored frame; its channel record is flagged valid exactly when the decode succeeded and then holds the decoded values |
| MainLoop.StoreBeforeDecode | elrs-sniffer/src/main.cpp:146-151 | every decode directly follows the store of the same frame and decodes the stored bytes, so the decode cannot affect what is stored |
| MainLoop.RearmAfterRxDone | elrs-sniffer/src/main.cpp:171-172 | after RX done, clear(0x0042) then continuous RX are issued whether or not the frame was accepted, followed only by the CRC-error pair |
| MainLoop.CrcErrorPairLast | elrs-sniffer/src/main.cpp:179-183 | with the CRC-error bit, clear(0x0040) and continuous RX come last; with neither bit the IRQ read is the only action |
| MainLoop.PacketReadyClearedOnlyOnRxDone | elrs-sniffer/src/main.cpp:128-176 | a pass clears `packetReady` exactly when its poll saw RX done, and never sets it |
| MainLoop.SetupSteps | elrs-sniffer/src/main.cpp:60-102 | `setup` as a step list, with the three results that can halt it as parameters; `SetupOrder` and `SetupHaltsOnFailure` state its properties |
| MainLoop.SetupOrder | elrs-sniffer/src/main.cpp:60-102 | with every step succeeding: capture init, radio begin, promiscuous configuration, interrupt attach, continuous RX, web server begin |
| MainLoop.SetupHaltsOnFailure | elrs-sniffer/src/main.cpp:62-102 | a halt happens exactly when a step failed and nothing follows it; RX starts only after both radio steps succeeded |
| MainLoop.Sniffer.constructor | elrs-sniffer/src/main.cpp:26-34 | globals start with `packetReady` false, `lastPacketCheck` 0, an empty ring and an empty radio trace |
| MainLoop.Sniffer.OnPacketReceived | elrs-sniffer/src/main.cpp:37 | the interrupt handler only raises `packetReady` |
| MainLoop.Sniffer.Setup | elrs-sniffer/src/main.cpp:39-115 | follows the setup order, clears the ring, sends standby, the six configuration frames and continuous RX, and halts only when the web server fails |
| MainLoop.Sniffer.Loop | elrs-sniffer/src/main.cpp:122-184 | one pass performs exactly `Step`'s actions on the radio log, sets `packetReady` and `lastPacketCheck` as `Step` says, adds the captured frame to the ring exactly when it was accepted, keeps every held frame 1 to 64 bytes long, and leaves the radio's initialised flag as it was |
| MainLoop.Sniffer.Poll | elrs-sniffer/src/main.cpp:125-183 | a poll performs exactly `PollActions` on the radio, reports whether RX done was set, and adds the captured frame to the ring exactly when its length was accepted |
| MainLoop.Sniffer.RearmReceiver | elrs-sniffer/src/main.cpp:171-172 | issues clear(mask) then continuous RX |
| MainLoop.Sniffer.HandleRxDone | elrs-sniffer/src/main.cpp:128-176 | the RX-done branch performs `RxDoneActions` and adds the frame to the ring exactly when its length is accepted |
| MainLoop.Sniffer.HandleFrame | elrs-sniffer/src/main.cpp:142-168 | an accepted frame is read, added to the ring, decoded and broadcast with the channel record the decoder left, in that order |
| MainLoop.Sniffer.StoreFrame | elrs-sniffer/src/main.cpp:146 | `addPacket` of an accepted frame: the ring becomes `Add` of the old ring and keeps every held frame 1 to 64 bytes long |

## Left out

- The web server (`webServer.begin`, `handleClient`, `broadcastPacket`) is not part of this model. Its start result is a parameter of `Setup`. A broadcast is recorded as an action that carries the frame and the channel record; the JSON text built from them is not modelled.
- Pin level, SPI and timing: the BUSY wait with its timeout, chip select, reset delays and the `spiWrite`/`spiRead` loop bodies. A bus transaction is one `Exchange` holding the command and the bytes read back. The chip's responses are inputs.
- Sx1280.Sx1280Driver.ReadBuffer: the bytes clocked out after the offset frame are taken as the frame's data, as the source takes them. Whether the chip first clocks out a status byte is not modelled.
- The interrupt and `volatile` interplay. `OnPacketReceived` is a method that sets the flag; it is not concurrent with a pass. The empty `handlePacketReceived` has nothing to model.
- Serial output, `printPacketHex`, the LED, the blink loops that never return (a halt is a `Halt` step) and the 10-second status print.
- `millis()`: a pass takes two readings as inputs. `now` serves for the poll check and also for `lastPacketCheck`, which the source reads separately. `rxTime` is the frame's timestamp.
- `Sniffer.Setup`: the radio start and the promiscuous configuration always report success in the source, so their halting branches are unreachable. The pure `SetupSteps` models them with the failures as parameters.
- Capture.PacketCapture: the lifetime counters are unbounded `nat`s. They do not model the `uint32_t` wrap-around, and the `uint16_t` cursors never exceed 256.
- ElrsDecoder.ChannelToMicroseconds: Arduino's `map` is not part of this model. Its documented formula `v * 1024 / 2047 + 988` is used instead.
- Sx1280.Register: the 64-bit quotient is computed as the source writes it. It is tied to the exact integer `floor(f * 2^18 / 52e6)` only for 2440 MHz (`ElrsRegister`), not for every frequency.
- Sx1280.Parse is a reference reading of frames. It is not the chip's documented behaviour for malformed frames.
- Uninitialised memory: the decoder reads `packet[3..24)` whatever `length` says, and `loop()` leaves both the frame's data past `length` and the channel record on the stack uninitialised. These contents are inputs (`staleData`, `staleChannels`, `staleValid`).
