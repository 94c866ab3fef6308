/** The SX1280 driver: every setter writes one fixed-layout, big-endian command frame over SPI and
    every getter writes an opcode and decodes a fixed-size response. The bus is abstracted as a
    trace of exchanges; pin handling and the BUSY wait are not modelled. */
module Sx1280 {
  import opened Bytes
  import opened Config

  // Command opcodes (SX1280 command set)
  const CmdGetStatus: Byte := 0xC0
  const CmdReadBuffer: Byte := 0x1B
  const CmdSetStandby: Byte := 0x80
  const CmdSetRx: Byte := 0x82
  const CmdSetPacketType: Byte := 0x8A
  const CmdSetRfFrequency: Byte := 0x86
  const CmdSetBufferBaseAddress: Byte := 0x8F
  const CmdSetModulationParams: Byte := 0x8B
  const CmdSetPacketParams: Byte := 0x8C
  const CmdGetRxBufferStatus: Byte := 0x17
  const CmdGetPacketStatus: Byte := 0x1D
  const CmdSetDioIrqParams: Byte := 0x8D
  const CmdGetIrqStatus: Byte := 0x15
  const CmdClrIrqStatus: Byte := 0x97

  const PacketTypeLora: Byte := 0x01
  const StandbyRc: Byte := 0x00

  // Interrupt bits
  const IrqRxDone: bv16 := 0x0002
  const IrqHeaderError: bv16 := 0x0020
  const IrqCrcError: bv16 := 0x0040

  /** Crystal frequency of the frequency synthesiser: one register step is 52 MHz / 2^18. */
  const XtalHz: bv64 := 52_000_000
  const FrequencyStepShift: bv64 := 18

  // ---------------------------------------------------------------------------
  // Command frames
  // ---------------------------------------------------------------------------

  datatype Command =
    | SetStandby(mode: Byte)
    | SetPacketType(packetType: Byte)
    | SetRfFrequency(reg: bv32)
    | SetModulationParams(sf: Byte, bw: Byte, cr: Byte)
    | SetPacketParams(preambleLength: bv16, headerType: Byte, payloadLength: Byte, crc: Byte, invertIq: Byte)
    | SetDioIrqParams(irqMask: bv16, dio1Mask: bv16, dio2Mask: bv16, dio3Mask: bv16)
    | SetBufferBaseAddress(txBase: Byte, rxBase: Byte)
    | SetRx(timeout: bv16)
    | ClearIrqStatus(mask: bv16)
    | GetStatus
    | GetIrqStatus
    | GetRxBufferStatus
    | GetPacketStatus
    | ReadBuffer(offset: Byte)

  /** Commands whose fields fit their frame: only the frequency register can be too wide (the
      frame carries 24 bits of it). */
  predicate WellFormed(c: Command)
  {
    c.SetRfFrequency? ==> c.reg < 0x100_0000
  }

  function Opcode(c: Command): Byte
  {
    match c
    case SetStandby(_) => CmdSetStandby
    case SetPacketType(_) => CmdSetPacketType
    case SetRfFrequency(_) => CmdSetRfFrequency
    case SetModulationParams(_, _, _) => CmdSetModulationParams
    case SetPacketParams(_, _, _, _, _) => CmdSetPacketParams
    case SetDioIrqParams(_, _, _, _) => CmdSetDioIrqParams
    case SetBufferBaseAddress(_, _) => CmdSetBufferBaseAddress
    case SetRx(_) => CmdSetRx
    case ClearIrqStatus(_) => CmdClrIrqStatus
    case GetStatus => CmdGetStatus
    case GetIrqStatus => CmdGetIrqStatus
    case GetRxBufferStatus => CmdGetRxBufferStatus
    case GetPacketStatus => CmdGetPacketStatus
    case ReadBuffer(_) => CmdReadBuffer
  }

  /** The bytes the host clocks out for a command (the `cmd[]` initialisers): the opcode, then
      the parameters, 16-bit ones high byte first. */
  function Encode(c: Command): (frame: seq<Byte>)
    ensures |frame| >= 1 && frame[0] == Opcode(c)
  {
    match c
    case SetStandby(mode) => [CmdSetStandby, mode]
    case SetPacketType(t) => [CmdSetPacketType, t]
    case SetRfFrequency(reg) =>
      [CmdSetRfFrequency, ((reg >> 16) & 0xFF) as Byte, ((reg >> 8) & 0xFF) as Byte, (reg & 0xFF) as Byte]
    case SetModulationParams(sf, bw, cr) => [CmdSetModulationParams, sf, bw, cr]
    case SetPacketParams(pre, hdr, len, crc, iq) =>
      [CmdSetPacketParams, HighByte(pre), LowByte(pre), hdr, len, crc, iq, 0x00, 0x00, 0x00]
    case SetDioIrqParams(irq, d1, d2, d3) =>
      [CmdSetDioIrqParams, HighByte(irq), LowByte(irq), HighByte(d1), LowByte(d1),
       HighByte(d2), LowByte(d2), HighByte(d3), LowByte(d3)]
    case SetBufferBaseAddress(tx, rx) => [CmdSetBufferBaseAddress, tx, rx]
    case SetRx(t) => [CmdSetRx, 0x00, HighByte(t), LowByte(t)]
    case ClearIrqStatus(m) => [CmdClrIrqStatus, HighByte(m), LowByte(m)]
    case GetStatus => [CmdGetStatus]
    case GetIrqStatus => [CmdGetIrqStatus]
    case GetRxBufferStatus => [CmdGetRxBufferStatus]
    case GetPacketStatus => [CmdGetPacketStatus]
    case ReadBuffer(offset) => [CmdReadBuffer, offset]
  }

  /** Reference decoder: how the chip reads a host frame back into a command. The reserved
      bytes of the packet-parameter frame and the period base of the RX frame must be zero. */
  function Parse(f: seq<Byte>): Option<Command>
  {
    if |f| == 0 then None
    else if f[0] == CmdSetStandby && |f| == 2 then Some(SetStandby(f[1]))
    else if f[0] == CmdSetPacketType && |f| == 2 then Some(SetPacketType(f[1]))
    else if f[0] == CmdSetRfFrequency && |f| == 4 then Some(SetRfFrequency(Word24(f[1], f[2], f[3])))
    else if f[0] == CmdSetModulationParams && |f| == 4 then Some(SetModulationParams(f[1], f[2], f[3]))
    else if f[0] == CmdSetPacketParams && |f| == 10 && f[7] == 0 && f[8] == 0 && f[9] == 0
    then Some(SetPacketParams(Word(f[1], f[2]), f[3], f[4], f[5], f[6]))
    else if f[0] == CmdSetDioIrqParams && |f| == 9
    then Some(SetDioIrqParams(Word(f[1], f[2]), Word(f[3], f[4]), Word(f[5], f[6]), Word(f[7], f[8])))
    else if f[0] == CmdSetBufferBaseAddress && |f| == 3 then Some(SetBufferBaseAddress(f[1], f[2]))
    else if f[0] == CmdSetRx && |f| == 4 && f[1] == 0 then Some(SetRx(Word(f[2], f[3])))
    else if f[0] == CmdClrIrqStatus && |f| == 3 then Some(ClearIrqStatus(Word(f[1], f[2])))
    else if f == [CmdGetStatus] then Some(GetStatus)
    else if f == [CmdGetIrqStatus] then Some(GetIrqStatus)
    else if f == [CmdGetRxBufferStatus] then Some(GetRxBufferStatus)
    else if f == [CmdGetPacketStatus] then Some(GetPacketStatus)
    else if f[0] == CmdReadBuffer && |f| == 2 then Some(ReadBuffer(f[1]))
    else None
  }

  /** Every well-formed command survives encoding: the chip reads back exactly what was meant. */
  lemma ParseEncode(c: Command)
    requires WellFormed(c)
    ensures Parse(Encode(c)) == Some(c)
  {
    match c
    case SetStandby(mode) => RoundTripStandby(mode);
    case SetPacketType(t) => RoundTripPacketType(t);
    case SetRfFrequency(reg) => RoundTripFrequency(reg);
    case SetModulationParams(sf, bw, cr) => RoundTripModulation(sf, bw, cr);
    case SetPacketParams(pre, hdr, len, crc, iq) => RoundTripPacketParams(pre, hdr, len, crc, iq);
    case SetDioIrqParams(irq, d1, d2, d3) => RoundTripDioIrq(irq, d1, d2, d3);
    case SetBufferBaseAddress(tx, rx) => RoundTripBufferBase(tx, rx);
    case SetRx(t) => RoundTripRx(t);
    case ClearIrqStatus(m) => RoundTripClearIrq(m);
    case ReadBuffer(offset) => RoundTripReadBuffer(offset);
    case GetStatus => RoundTripQuery(c);
    case GetIrqStatus => RoundTripQuery(c);
    case GetRxBufferStatus => RoundTripQuery(c);
    case GetPacketStatus => RoundTripQuery(c);
  }

  lemma RoundTripStandby(mode: Byte)
    ensures Parse(Encode(SetStandby(mode))) == Some(SetStandby(mode))
  {
  }

  lemma RoundTripPacketType(t: Byte)
    ensures Parse(Encode(SetPacketType(t))) == Some(SetPacketType(t))
  {
  }

  lemma RoundTripFrequency(reg: bv32)
    requires reg < 0x100_0000
    ensures Parse(Encode(SetRfFrequency(reg))) == Some(SetRfFrequency(reg))
  {
    Word24OfOctets(reg);
    ParseFrequencyFrame(Encode(SetRfFrequency(reg)));
  }

  /** Three octets read high first, as the chip assembles the 24-bit frequency register. */
  function Word24(b2: Byte, b1: Byte, b0: Byte): bv32
  {
    ((b2 as bv32) << 16) | ((b1 as bv32) << 8) | (b0 as bv32)
  }

  /** The octets of the encoding, joined again, are the low 24 bits of the register. */
  lemma Word24OfOctets(reg: bv32)
    ensures Word24(((reg >> 16) & 0xFF) as Byte, ((reg >> 8) & 0xFF) as Byte, (reg & 0xFF) as Byte)
            == reg & 0xFF_FFFF
  {
  }

  lemma ParseFrequencyFrame(f: seq<Byte>)
    requires |f| == 4 && f[0] == CmdSetRfFrequency
    ensures Parse(f) == Some(SetRfFrequency(Word24(f[1], f[2], f[3])))
  {
  }

  lemma RoundTripModulation(sf: Byte, bw: Byte, cr: Byte)
    ensures Parse(Encode(SetModulationParams(sf, bw, cr))) == Some(SetModulationParams(sf, bw, cr))
  {
  }

  lemma RoundTripPacketParams(pre: bv16, hdr: Byte, len: Byte, crc: Byte, iq: Byte)
    ensures Parse(Encode(SetPacketParams(pre, hdr, len, crc, iq))) == Some(SetPacketParams(pre, hdr, len, crc, iq))
  {
    WordOfBytes(pre);
  }

  lemma RoundTripDioIrq(irq: bv16, d1: bv16, d2: bv16, d3: bv16)
    ensures Parse(Encode(SetDioIrqParams(irq, d1, d2, d3))) == Some(SetDioIrqParams(irq, d1, d2, d3))
  {
    WordOfBytes(irq); WordOfBytes(d1); WordOfBytes(d2); WordOfBytes(d3);
  }

  lemma RoundTripBufferBase(tx: Byte, rx: Byte)
    ensures Parse(Encode(SetBufferBaseAddress(tx, rx))) == Some(SetBufferBaseAddress(tx, rx))
  {
  }

  lemma RoundTripRx(t: bv16)
    ensures Parse(Encode(SetRx(t))) == Some(SetRx(t))
  {
    WordOfBytes(t);
  }

  lemma RoundTripClearIrq(m: bv16)
    ensures Parse(Encode(ClearIrqStatus(m))) == Some(ClearIrqStatus(m))
  {
    WordOfBytes(m);
  }

  /** The four one-byte queries. */
  lemma RoundTripQuery(c: Command)
    requires c.GetStatus? || c.GetIrqStatus? || c.GetRxBufferStatus? || c.GetPacketStatus?
    ensures Parse(Encode(c)) == Some(c)
  {
  }

  lemma RoundTripReadBuffer(offset: Byte)
    ensures Parse(Encode(ReadBuffer(offset))) == Some(ReadBuffer(offset))
  {
  }

  /** Frame lengths: 10 bytes for the packet parameters, 9 for the IRQ routing, 4 for the
      frequency, the modulation and RX, 3 for the buffer bases and the IRQ clear. */
  lemma FrameLengths(c: Command)
    ensures c.SetPacketParams? ==> |Encode(c)| == 10
    ensures c.SetDioIrqParams? ==> |Encode(c)| == 9
    ensures c.SetRfFrequency? || c.SetModulationParams? || c.SetRx? ==> |Encode(c)| == 4
    ensures c.SetBufferBaseAddress? || c.ClearIrqStatus? ==> |Encode(c)| == 3
    ensures c.SetStandby? || c.SetPacketType? || c.ReadBuffer? ==> |Encode(c)| == 2
    ensures c.GetStatus? || c.GetIrqStatus? || c.GetRxBufferStatus? || c.GetPacketStatus? ==> |Encode(c)| == 1
  {
  }

  // ---------------------------------------------------------------------------
  // Frequency register
  // ---------------------------------------------------------------------------

  /** `setRfFrequency`'s register: `(f << 18) / 52 MHz` computed on 64 bits, then kept in a
      `uint32_t` (the quotient is below 2^25, so nothing is cut there). */
  function Register(f: bv32): bv32
  {
    (((f as bv64) << FrequencyStepShift) / XtalHz) as bv32
  }

  /** The frequency frame carries the register's low 24 bits, high octet first. */
  lemma FrequencyFrame(reg: bv32)
    ensures var frame := Encode(SetRfFrequency(reg));
            |frame| == 4 && frame[0] == CmdSetRfFrequency
            && Word24(frame[1], frame[2], frame[3]) == reg & 0xFF_FFFF
  {
    Word24OfOctets(reg);
  }

  /** 2440 MHz is register 12300603 = 0xBBB13B: the largest `r` with `r * 52 MHz` at most
      `2440 MHz * 2^18` (the division leaves 4000000). */
  lemma ElrsRegister()
    ensures Register(ElrsFrequency) == 0xBB_B13B
    ensures 0xBB_B13B * 52_000_000 + 4_000_000 == 2_440_000_000 * 0x4_0000
  {
  }

  /** The 2440 MHz frame is 86 BB B1 3B. */
  lemma ElrsFrequencyFrame()
    ensures Encode(SetRfFrequency(Register(ElrsFrequency))) == [0x86, 0xBB, 0xB1, 0x3B]
  {
    ElrsRegister();
  }

  // ---------------------------------------------------------------------------
  // Responses
  // ---------------------------------------------------------------------------

  /** `getIrqStatus`: bytes 1 and 2 of the response, high byte first; byte 0 (the status the
      chip clocks out first) is ignored. */
  function IrqStatusOf(resp: seq<Byte>): bv16
    requires |resp| == 3
  {
    Word(resp[1], resp[2])
  }

  /** The chip's side of GetIrqStatus: a status byte, then the flags high byte first. */
  function IrqResponse(status: Byte, flags: bv16): seq<Byte>
  {
    [status, HighByte(flags), LowByte(flags)]
  }

  /** The host recovers whatever flags the chip reports, whatever status byte precedes them. */
  lemma IrqStatusRoundTrip(status: Byte, flags: bv16)
    ensures IrqStatusOf(IrqResponse(status, flags)) == flags
  {
    WordOfBytes(flags);
  }

  lemma IrqStatusIgnoresStatusByte(resp: seq<Byte>, status: Byte)
    requires |resp| == 3
    ensures IrqStatusOf(resp[0 := status]) == IrqStatusOf(resp)
    ensures HighByte(IrqStatusOf(resp)) == resp[1] && LowByte(IrqStatusOf(resp)) == resp[2]
  {
  }

  datatype RxBufferStatus = RxBufferStatus(payloadLength: Byte, startPointer: Byte)

  /** `getRxBufferStatus`: the payload length is byte 1, the start pointer byte 2. */
  function RxBufferStatusOf(resp: seq<Byte>): (s: RxBufferStatus)
    requires |resp| == 3
    ensures s.payloadLength == resp[1] && s.startPointer == resp[2]
  {
    RxBufferStatus(resp[1], resp[2])
  }

  /** The chip's side of GetRxBufferStatus: a status byte, then the payload length and the start
      pointer of the last frame received. */
  function RxBufferResponse(status: Byte, payloadLength: Byte, startPointer: Byte): seq<Byte>
  {
    [status, payloadLength, startPointer]
  }

  /** The host recovers the length and start pointer the chip reports, whatever status byte
      precedes them. */
  lemma RxBufferStatusRoundTrip(status: Byte, payloadLength: Byte, startPointer: Byte)
    ensures RxBufferStatusOf(RxBufferResponse(status, payloadLength, startPointer))
            == RxBufferStatus(payloadLength, startPointer)
  {
  }

  /** Response byte 0 never influences the decoded buffer status, and every response is the
      chip-side encoding of what it decodes to. */
  lemma RxBufferStatusIgnoresStatusByte(resp: seq<Byte>, status: Byte)
    requires |resp| == 3
    ensures RxBufferStatusOf(resp[0 := status]) == RxBufferStatusOf(resp)
    ensures var s := RxBufferStatusOf(resp);
            RxBufferResponse(resp[0], s.payloadLength, s.startPointer) == resp
  {
  }

  datatype PacketStatus = PacketStatus(rssi: int, snr: int)

  /** `getPacketStatus`: RSSI is the negated raw byte 2 halved, SNR the signed byte 3 divided by
      4, both with C's truncating division; both fit the `int8_t` they are stored into. */
  function PacketStatusOf(resp: seq<Byte>): (s: PacketStatus)
    requires |resp| == 6
    ensures -127 <= s.rssi <= 0 && s.rssi == -((resp[2] as int) / 2)
    ensures -32 <= s.snr <= 31
    ensures (s.snr < 0 <==> SignedByte(resp[3]) <= -4) && (s.snr > 0 <==> SignedByte(resp[3]) >= 4)
  {
    PacketStatus(TruncDiv(-(resp[2] as int), 2), TruncDiv(SignedByte(resp[3]), 4))
  }

  /** Concrete values: raw RSSI 0xB4 (180) is -90 dBm, raw SNR 0xF6 (-10) is -2 dB, raw SNR
      0x1F (31) is 7 dB. */
  lemma PacketStatusExamples()
    ensures PacketStatusOf([0, 0, 0xB4, 0xF6, 0, 0]) == PacketStatus(-90, -2)
    ensures PacketStatusOf([0, 0, 0xB4, 0x1F, 0, 0]) == PacketStatus(-90, 7)
  {
  }

  // ---------------------------------------------------------------------------
  // The driver object: the bus as a trace of exchanges
  // ---------------------------------------------------------------------------

  /** One SPI transaction under one chip select: the frame `Encode(command)` written, then the
      bytes `received` read back. */
  datatype Exchange = Exchange(command: Command, received: seq<Byte>)

  /** The bytes the host clocks out in an exchange. */
  function Sent(e: Exchange): seq<Byte>
  {
    Encode(e.command)
  }

  /** A command that reads nothing back. */
  function Write(c: Command): Exchange
  {
    Exchange(c, [])
  }

  function Writes(cs: seq<Command>): (es: seq<Exchange>)
    ensures |es| == |cs| && forall i :: 0 <= i < |cs| ==> es[i] == Write(cs[i])
  {
    seq(|cs|, i requires 0 <= i < |cs| => Write(cs[i]))
  }

  /** IRQ sources routed by the promiscuous configuration: RX done, CRC error, header error. */
  const PromiscuousIrqMask: bv16 := IrqRxDone | IrqCrcError | IrqHeaderError

  /** The configuration `enablePromiscuousMode` applies, in order. */
  function PromiscuousCommands(): seq<Command>
  {
    [ SetPacketType(PacketTypeLora),
      SetRfFrequency(Register(ElrsFrequency)),
      SetModulationParams(LoraSpreadingFactor, LoraBandwidth, LoraCodingRate),
      SetPacketParams(LoraPreambleLength, 0x00, 0xFF, 0x00, 0x00),
      SetBufferBaseAddress(0x00, 0x00),
      SetDioIrqParams(PromiscuousIrqMask, PromiscuousIrqMask, 0x0000, 0x0000) ]
  }

  /** The six frames on the wire, byte for byte, none of them reading anything back. */
  lemma PromiscuousFrames()
    ensures PromiscuousIrqMask == 0x0062
    ensures var es := Writes(PromiscuousCommands());
            |es| == 6 && (forall i :: 0 <= i < 6 ==> es[i].received == [])
            && Sent(es[0]) == [0x8A, 0x01]
            && Sent(es[1]) == [0x86, 0xBB, 0xB1, 0x3B]
            && Sent(es[2]) == [0x8B, 0x06, 0x18, 0x06]
            && Sent(es[3]) == [0x8C, 0x00, 0x0C, 0x00, 0xFF, 0x00, 0x00, 0x00, 0x00, 0x00]
            && Sent(es[4]) == [0x8F, 0x00, 0x00]
            && Sent(es[5]) == [0x8D, 0x00, 0x62, 0x00, 0x62, 0x00, 0x00, 0x00, 0x00]
  {
    ElrsFrequencyFrame();
  }

  class Sx1280Driver {
    var initialized: bool
    /** Every SPI transaction so far, oldest first. */
    ghost var trace: seq<Exchange>

    constructor()
      ensures !initialized && trace == []
    {
      initialized := false;
      trace := [];
    }

    /** `begin`: after the pin set-up and reset, one standby (RC) frame; then initialised. */
    method Begin() returns (ok: bool)
      modifies this
      ensures ok && initialized
      ensures trace == old(trace) + [Write(Command.SetStandby(StandbyRc))]
    {
      var standbyOk := SetStandby(StandbyRc);
      initialized := true;
      ok := true;
    }

    method SetStandby(mode: Byte) returns (ok: bool)
      modifies this
      ensures ok && initialized == old(initialized)
      ensures trace == old(trace) + [Write(Command.SetStandby(mode))]
    {
      trace := trace + [Write(Command.SetStandby(mode))];
      ok := true;
    }

    method SetPacketType(packetType: Byte) returns (ok: bool)
      modifies this
      ensures ok && initialized == old(initialized)
      ensures trace == old(trace) + [Write(Command.SetPacketType(packetType))]
    {
      trace := trace + [Write(Command.SetPacketType(packetType))];
      ok := true;
    }

    /** `setRfFrequency`: `frequency` is a `uint32_t`. */
    method SetRfFrequency(frequency: bv32) returns (ok: bool)
      modifies this
      ensures ok && initialized == old(initialized)
      ensures trace == old(trace) + [Write(Command.SetRfFrequency(Register(frequency)))]
    {
      var freqReg := (((frequency as bv64) << FrequencyStepShift) / XtalHz) as bv32;
      trace := trace + [Write(Command.SetRfFrequency(freqReg))];
      ok := true;
    }

    method SetModulationParams(sf: Byte, bw: Byte, cr: Byte) returns (ok: bool)
      modifies this
      ensures ok && initialized == old(initialized)
      ensures trace == old(trace) + [Write(Command.SetModulationParams(sf, bw, cr))]
    {
      trace := trace + [Write(Command.SetModulationParams(sf, bw, cr))];
      ok := true;
    }

    method SetPacketParams(preambleLength: bv16, headerType: Byte, payloadLength: Byte, crc: Byte, invertIq: Byte)
      returns (ok: bool)
      modifies this
      ensures ok && initialized == old(initialized)
      ensures trace == old(trace) + [Write(Command.SetPacketParams(preambleLength, headerType, payloadLength, crc, invertIq))]
    {
      trace := trace + [Write(Command.SetPacketParams(preambleLength, headerType, payloadLength, crc, invertIq))];
      ok := true;
    }

    method SetDioIrqParams(irqMask: bv16, dio1Mask: bv16, dio2Mask: bv16, dio3Mask: bv16) returns (ok: bool)
      modifies this
      ensures ok && initialized == old(initialized)
      ensures trace == old(trace) + [Write(Command.SetDioIrqParams(irqMask, dio1Mask, dio2Mask, dio3Mask))]
    {
      trace := trace + [Write(Command.SetDioIrqParams(irqMask, dio1Mask, dio2Mask, dio3Mask))];
      ok := true;
    }

    method SetBufferBaseAddress(txBase: Byte, rxBase: Byte) returns (ok: bool)
      modifies this
      ensures ok && initialized == old(initialized)
      ensures trace == old(trace) + [Write(Command.SetBufferBaseAddress(txBase, rxBase))]
    {
      trace := trace + [Write(Command.SetBufferBaseAddress(txBase, rxBase))];
      ok := true;
    }

    /** `enablePromiscuousMode`: the six configuration frames in order. Every setter reports
        success, so none of the early returns is taken and the result is true. */
    method EnablePromiscuousMode() returns (ok: bool)
      modifies this
      ensures ok && initialized == old(initialized)
      ensures trace == old(trace) + Writes(PromiscuousCommands())
    {
      ok := SetPacketType(PacketTypeLora);
      ok := SetRfFrequency(ElrsFrequency);
      ok := SetModulationParams(LoraSpreadingFactor, LoraBandwidth, LoraCodingRate);
      ok := SetPacketParams(LoraPreambleLength, 0x00, 0xFF, 0x00, 0x00);
      ok := SetBufferBaseAddress(0x00, 0x00);
      ok := SetDioIrqParams(PromiscuousIrqMask, PromiscuousIrqMask, 0x0000, 0x0000);
    }

    /** `setRx`: 0xFFFF asks for continuous reception. */
    method SetRx(timeout: bv16) returns (ok: bool)
      modifies this
      ensures ok && initialized == old(initialized)
      ensures trace == old(trace) + [Write(Command.SetRx(timeout))]
    {
      trace := trace + [Write(Command.SetRx(timeout))];
      ok := true;
    }

    method ClearIrqStatus(mask: bv16) returns (ok: bool)
      modifies this
      ensures ok && initialized == old(initialized)
      ensures trace == old(trace) + [Write(Command.ClearIrqStatus(mask))]
    {
      trace := trace + [Write(Command.ClearIrqStatus(mask))];
      ok := true;
    }

    /** `getRxBufferStatus`; `response` is what the chip clocks out. */
    method GetRxBufferStatus(response: seq<Byte>) returns (ok: bool, payloadLength: Byte, startPointer: Byte)
      requires |response| == 3
      modifies this
      ensures ok && initialized == old(initialized)
      ensures RxBufferStatus(payloadLength, startPointer) == RxBufferStatusOf(response)
      ensures trace == old(trace) + [Exchange(Command.GetRxBufferStatus, response)]
    {
      trace := trace + [Exchange(Command.GetRxBufferStatus, response)];
      payloadLength := response[1];
      startPointer := response[2];
      ok := true;
    }

    /** `readBuffer`: the offset frame, then `length` bytes read into the caller's buffer. */
    method ReadBuffer(offset: Byte, length: nat, response: seq<Byte>) returns (ok: bool, data: seq<Byte>)
      requires |response| == length
      modifies this
      ensures ok && initialized == old(initialized) && data == response
      ensures trace == old(trace) + [Exchange(Command.ReadBuffer(offset), response)]
    {
      trace := trace + [Exchange(Command.ReadBuffer(offset), response)];
      data := response;
      ok := true;
    }

    method GetIrqStatus(response: seq<Byte>) returns (flags: bv16)
      requires |response| == 3
      modifies this
      ensures initialized == old(initialized) && flags == IrqStatusOf(response)
      ensures trace == old(trace) + [Exchange(Command.GetIrqStatus, response)]
    {
      trace := trace + [Exchange(Command.GetIrqStatus, response)];
      flags := ((response[1] as bv16) << 8) | (response[2] as bv16);
    }

    method GetPacketStatus(response: seq<Byte>) returns (ok: bool, rssi: int, snr: int)
      requires |response| == 6
      modifies this
      ensures ok && initialized == old(initialized)
      ensures PacketStatus(rssi, snr) == PacketStatusOf(response)
      ensures trace == old(trace) + [Exchange(Command.GetPacketStatus, response)]
    {
      trace := trace + [Exchange(Command.GetPacketStatus, response)];
      rssi := TruncDiv(-(response[2] as int), 2);
      snr := TruncDiv(SignedByte(response[3]), 4);
      ok := true;
    }

    method GetStatus(response: seq<Byte>) returns (status: Byte)
      requires |response| == 1
      modifies this
      ensures initialized == old(initialized) && status == response[0]
      ensures trace == old(trace) + [Exchange(Command.GetStatus, response)]
    {
      trace := trace + [Exchange(Command.GetStatus, response)];
      status := response[0];
    }
  }
}
