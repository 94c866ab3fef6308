/** The application: `setup` brings the capture ring and the radio up in a fixed order, halting on
    a failed step, and each `loop` pass polls the radio, stores and decodes a received frame and
    re-arms reception. One pass is described by the pure `Step`, which the `Sniffer.Loop` method
    is proved to carry out. */
module MainLoop {
  import opened Bytes
  import opened Config
  import opened ElrsDecoder
  import opened Capture
  import opened Sx1280

  /** Minimum time between two unprompted IRQ polls, in ms. */
  const PollIntervalMs: nat := 10
  /** Timeout 0xFFFF puts the receiver in continuous mode. */
  const RxContinuous: bv16 := 0xFFFF

  /** What one `loop` pass observes from outside: the `millis()` readings, the radio's responses,
      and the stale stack contents the frame record and the channel record start with (the
      frame's data past `length` and the whole channel record are never initialised). */
  datatype LoopInputs = LoopInputs(
    now: nat,
    rxTime: nat,
    irqResponse: seq<Byte>,
    packetStatusResponse: seq<Byte>,
    rxBufferResponse: seq<Byte>,
    rxData: seq<Byte>,
    staleData: seq<Byte>,
    staleChannels: seq<bv16>,
    staleValid: bool)

  predicate WellFormedInputs(inp: LoopInputs)
  {
    |inp.irqResponse| == 3 && |inp.packetStatusResponse| == 6 && |inp.rxBufferResponse| == 3
    && |inp.rxData| == MaxPacketSize && |inp.staleData| == MaxPacketSize
    && |inp.staleChannels| == CrsfNumChannels
  }

  /** Something one pass does, in order: a bus exchange with the radio, storing a frame in the
      capture ring, decoding it, or handing it to the web clients together with the channel
      record as the decoder left it. */
  datatype Action =
    | Bus(exchange: Exchange)
    | Store(packet: PacketData)
    | Decoded(packet: PacketData, result: Option<seq<bv16>>)
    | Broadcast(packet: PacketData, channels: seq<bv16>, valid: bool)

  datatype LoopState = LoopState(packetReady: bool, lastPacketCheck: nat)
  datatype StepResult = StepResult(actions: seq<Action>, packetReady: bool, lastPacketCheck: nat)

  /** `millis() - lastPacketCheck` on 32-bit unsigned integers. */
  function Elapsed(now: nat, last: nat): (d: nat)
    ensures d < 0x1_0000_0000
    ensures last <= now < last + 0x1_0000_0000 ==> d == now - last
  {
    (now - last) % 0x1_0000_0000
  }

  /** A poll runs when the interrupt flagged a frame or more than 10 ms have passed. */
  predicate CheckDue(s: LoopState, now: nat)
  {
    s.packetReady || Elapsed(now, s.lastPacketCheck) > PollIntervalMs
  }

  /** The payload length check: `0 < length <= MAX_PACKET_SIZE`. */
  predicate LengthAccepted(length: Byte)
  {
    length != 0 && length <= 0x40
  }

  lemma AcceptedLength(length: Byte)
    requires LengthAccepted(length)
    ensures 0 < length as nat <= MaxPacketSize
  {
  }

  function RxLength(inp: LoopInputs): Byte
    requires WellFormedInputs(inp)
  {
    RxBufferStatusOf(inp.rxBufferResponse).payloadLength
  }

  /** The frame record a pass fills: time, signal report, length, the bytes read from the radio
      and, past them, whatever the stack held. */
  function Captured(inp: LoopInputs): (p: PacketData)
    requires WellFormedInputs(inp) && LengthAccepted(RxLength(inp))
    ensures p.length == RxLength(inp) as nat && |p.data| == MaxPacketSize
    ensures p.data[..p.length] == inp.rxData[..p.length]
  {
    AcceptedLength(RxLength(inp));
    var length := RxLength(inp) as nat;
    var status := PacketStatusOf(inp.packetStatusResponse);
    PacketData(inp.rxTime, status.rssi, status.snr, length, inp.rxData[..length] + inp.staleData[length..])
  }

  /** Clear the given IRQ flags, then restart continuous reception. */
  function Rearm(mask: bv16): seq<Action>
  {
    [Bus(Write(Command.ClearIrqStatus(mask))), Bus(Write(Command.SetRx(RxContinuous)))]
  }

  /** The channel slots after a decode: the unpacked values on success, the stale stack
      contents otherwise (the decoder leaves them alone and only clears `valid`). */
  function SlotsAfter(result: Option<seq<bv16>>, stale: seq<bv16>): seq<bv16>
  {
    if result.Some? then result.value else stale
  }

  /** Reading, storing, decoding and publishing an accepted frame. */
  function FrameActions(inp: LoopInputs): seq<Action>
    requires WellFormedInputs(inp) && LengthAccepted(RxLength(inp))
  {
    var p := Captured(inp);
    var start := RxBufferStatusOf(inp.rxBufferResponse).startPointer;
    var result := Decode(p.data, p.length);
    [Bus(Exchange(Command.ReadBuffer(start), inp.rxData[..p.length])), Store(p),
     Decoded(p, result), Broadcast(p, SlotsAfter(result, inp.staleChannels), result.Some?)]
  }

  /** The RX-done branch: signal report, buffer status, the frame when its length is accepted,
      then the re-arm pair whatever the length. */
  function RxDoneActions(inp: LoopInputs): seq<Action>
    requires WellFormedInputs(inp)
  {
    [Bus(Exchange(Command.GetPacketStatus, inp.packetStatusResponse)),
     Bus(Exchange(Command.GetRxBufferStatus, inp.rxBufferResponse))]
    + (if LengthAccepted(RxLength(inp)) then FrameActions(inp) else [])
    + Rearm(IrqRxDone | IrqCrcError)
  }

  function CrcErrorActions(irq: bv16): seq<Action>
  {
    if (irq & IrqCrcError) != 0 then Rearm(IrqCrcError) else []
  }

  /** A poll: the IRQ read, the RX-done branch when its flag is set, then the CRC-error pair. */
  function PollActions(inp: LoopInputs): seq<Action>
    requires WellFormedInputs(inp)
  {
    var irq := IrqStatusOf(inp.irqResponse);
    [Bus(Exchange(Command.GetIrqStatus, inp.irqResponse))]
    + (if (irq & IrqRxDone) != 0 then RxDoneActions(inp) else [])
    + CrcErrorActions(irq)
  }

  /** One `loop` pass (the packet-handling part). */
  function Step(s: LoopState, inp: LoopInputs): StepResult
    requires WellFormedInputs(inp)
  {
    if !CheckDue(s, inp.now) then StepResult([], s.packetReady, s.lastPacketCheck)
    else
      var rxDone := (IrqStatusOf(inp.irqResponse) & IrqRxDone) != 0;
      StepResult(PollActions(inp), if rxDone then false else s.packetReady, inp.now)
  }

  predicate RxDoneSeen(s: LoopState, inp: LoopInputs)
    requires WellFormedInputs(inp)
  {
    CheckDue(s, inp.now) && (IrqStatusOf(inp.irqResponse) & IrqRxDone) != 0
  }

  // ---------------------------------------------------------------------------
  // Projections of an action list
  // ---------------------------------------------------------------------------

  /** The bus exchanges, in order. */
  function Exchanges(acts: seq<Action>): seq<Exchange>
    decreases |acts|
  {
    if acts == [] then []
    else
      var rest := Exchanges(acts[..|acts| - 1]);
      match acts[|acts| - 1]
      case Bus(e) => rest + [e]
      case _ => rest
  }

  /** The frames stored, in order. */
  function Stores(acts: seq<Action>): seq<PacketData>
    decreases |acts|
  {
    if acts == [] then []
    else
      var rest := Stores(acts[..|acts| - 1]);
      match acts[|acts| - 1]
      case Store(p) => rest + [p]
      case _ => rest
  }

  lemma {:induction false} StoresAppend(a: seq<Action>, b: seq<Action>)
    ensures Stores(a + b) == Stores(a) + Stores(b)
    decreases |b|
  {
    if b == [] {
      assert a + b == a;
    } else {
      var b' := b[..|b| - 1];
      assert (a + b)[..|a + b| - 1] == a + b';
      assert (a + b)[|a + b| - 1] == b[|b| - 1];
      StoresAppend(a, b');
    }
  }

  lemma NoStores(acts: seq<Action>)
    requires forall i :: 0 <= i < |acts| ==> !acts[i].Store?
    ensures Stores(acts) == []
    decreases |acts|
  {
    if acts != [] {
      NoStores(acts[..|acts| - 1]);
    }
  }

  // ---------------------------------------------------------------------------
  // Properties of one pass
  // ---------------------------------------------------------------------------

  /** A pass touches the radio exactly when a poll is due, and only then moves
      `lastPacketCheck`, to the time of the poll. */
  lemma StepRunsIffDue(s: LoopState, inp: LoopInputs)
    requires WellFormedInputs(inp)
    ensures Exchanges(Step(s, inp).actions) == [] <==> !CheckDue(s, inp.now)
    ensures Step(s, inp).lastPacketCheck == if CheckDue(s, inp.now) then inp.now else s.lastPacketCheck
    ensures CheckDue(s, inp.now) ==> Step(s, inp).actions[0] == Bus(Exchange(Command.GetIrqStatus, inp.irqResponse))
  {
    var acts := Step(s, inp).actions;
    if CheckDue(s, inp.now) {
      var first := [Bus(Exchange(Command.GetIrqStatus, inp.irqResponse))];
      ExchangesAppend(first, acts[1..]);
      assert acts == first + acts[1..];
      assert Exchanges(first) == [Exchange(Command.GetIrqStatus, inp.irqResponse)] by {
        assert first[..0] == [];
      }
    }
  }

  lemma {:induction false} ExchangesAppend(a: seq<Action>, b: seq<Action>)
    ensures Exchanges(a + b) == Exchanges(a) + Exchanges(b)
    decreases |b|
  {
    if b == [] {
      assert a + b == a;
    } else {
      var b' := b[..|b| - 1];
      assert (a + b)[..|a + b| - 1] == a + b';
      assert (a + b)[|a + b| - 1] == b[|b| - 1];
      ExchangesAppend(a, b');
    }
  }

  lemma FrameStores(inp: LoopInputs)
    requires WellFormedInputs(inp) && LengthAccepted(RxLength(inp))
    ensures Stores(FrameActions(inp)) == [Captured(inp)]
  {
    var p := Captured(inp);
    var f := FrameActions(inp);
    assert f == [f[0], Store(p)] + [f[2], f[3]];
    StoresAppend([f[0], Store(p)], [f[2], f[3]]);
    NoStores([f[2], f[3]]);
    assert [f[0], Store(p)][..1] == [f[0]];
    NoStores([f[0]]);
  }

  lemma RxDoneStores(inp: LoopInputs)
    requires WellFormedInputs(inp)
    ensures Stores(RxDoneActions(inp)) == if LengthAccepted(RxLength(inp)) then [Captured(inp)] else []
  {
    var pre := [Bus(Exchange(Command.GetPacketStatus, inp.packetStatusResponse)),
                Bus(Exchange(Command.GetRxBufferStatus, inp.rxBufferResponse))];
    var mid := if LengthAccepted(RxLength(inp)) then FrameActions(inp) else [];
    var post := Rearm(IrqRxDone | IrqCrcError);
    assert RxDoneActions(inp) == pre + mid + post;
    StoresAppend(pre + mid, post);
    StoresAppend(pre, mid);
    NoStores(pre);
    NoStores(post);
    if LengthAccepted(RxLength(inp)) {
      FrameStores(inp);
    }
  }

  /** A frame is stored exactly when a poll saw RX done and the reported length is in
      `1..64`; the stored record carries the bytes read from the radio. */
  lemma StoreIffAccepted(s: LoopState, inp: LoopInputs)
    requires WellFormedInputs(inp)
    ensures Stores(Step(s, inp).actions)
            == if RxDoneSeen(s, inp) && LengthAccepted(RxLength(inp)) then [Captured(inp)] else []
  {
    if CheckDue(s, inp.now) {
      var irq := IrqStatusOf(inp.irqResponse);
      var head := [Bus(Exchange(Command.GetIrqStatus, inp.irqResponse))];
      var rx := if (irq & IrqRxDone) != 0 then RxDoneActions(inp) else [];
      var tail := CrcErrorActions(irq);
      assert Step(s, inp).actions == head + rx + tail;
      StoresAppend(head + rx, tail);
      StoresAppend(head, rx);
      NoStores(head);
      NoStores(tail);
      if (irq & IrqRxDone) != 0 {
        RxDoneStores(inp);
      }
    }
  }

  /** The only decode of a pass is its sixth action, in a poll that saw RX done and accepted
      the length. */
  lemma DecodedOnlyOnAcceptedFrame(s: LoopState, inp: LoopInputs)
    requires WellFormedInputs(inp)
    ensures var acts := Step(s, inp).actions;
            forall k :: 0 <= k < |acts| && acts[k].Decoded? ==>
              k == 5 && RxDoneSeen(s, inp) && LengthAccepted(RxLength(inp))
  {
    if CheckDue(s, inp.now) {
      var irq := IrqStatusOf(inp.irqResponse);
      var acts := Step(s, inp).actions;
      var head := [Bus(Exchange(Command.GetIrqStatus, inp.irqResponse))];
      var tail := CrcErrorActions(irq);
      if (irq & IrqRxDone) != 0 {
        var pre := head + [Bus(Exchange(Command.GetPacketStatus, inp.packetStatusResponse)),
                           Bus(Exchange(Command.GetRxBufferStatus, inp.rxBufferResponse))];
        var mid := if LengthAccepted(RxLength(inp)) then FrameActions(inp) else [];
        var post := Rearm(IrqRxDone | IrqCrcError) + tail;
        assert acts == pre + mid + post;
      } else {
        assert acts == head + tail;
      }
    }
  }

  /** The only broadcast of a pass is its seventh action, in a poll that saw RX done and
      accepted the length. */
  lemma BroadcastOnlyOnAcceptedFrame(s: LoopState, inp: LoopInputs)
    requires WellFormedInputs(inp)
    ensures var acts := Step(s, inp).actions;
            forall k :: 0 <= k < |acts| && acts[k].Broadcast? ==>
              k == 6 && RxDoneSeen(s, inp) && LengthAccepted(RxLength(inp))
  {
    if CheckDue(s, inp.now) {
      var irq := IrqStatusOf(inp.irqResponse);
      var acts := Step(s, inp).actions;
      var head := [Bus(Exchange(Command.GetIrqStatus, inp.irqResponse))];
      var tail := CrcErrorActions(irq);
      if (irq & IrqRxDone) != 0 {
        var pre := head + [Bus(Exchange(Command.GetPacketStatus, inp.packetStatusResponse)),
                           Bus(Exchange(Command.GetRxBufferStatus, inp.rxBufferResponse))];
        var mid := if LengthAccepted(RxLength(inp)) then FrameActions(inp) else [];
        var post := Rearm(IrqRxDone | IrqCrcError) + tail;
        assert acts == pre + mid + post;
      } else {
        assert acts == head + tail;
      }
    }
  }

  /** Every decode comes right after the store of the same frame, and decodes the stored bytes
      with the received length: the stored record never depends on the decode. */
  lemma StoreBeforeDecode(s: LoopState, inp: LoopInputs, j: nat)
    requires WellFormedInputs(inp)
    requires j < |Step(s, inp).actions| && Step(s, inp).actions[j].Decoded?
    ensures var acts := Step(s, inp).actions;
            j >= 1 && acts[j - 1] == Store(acts[j].packet)
            && acts[j].result == Decode(acts[j].packet.data, acts[j].packet.length)
            && acts[j].packet == Captured(inp)
  {
    DecodedOnlyOnAcceptedFrame(s, inp);
    var irq := IrqStatusOf(inp.irqResponse);
    var acts := Step(s, inp).actions;
    var pre := [Bus(Exchange(Command.GetIrqStatus, inp.irqResponse)),
                Bus(Exchange(Command.GetPacketStatus, inp.packetStatusResponse)),
                Bus(Exchange(Command.GetRxBufferStatus, inp.rxBufferResponse))];
    assert acts == pre + FrameActions(inp) + Rearm(IrqRxDone | IrqCrcError) + CrcErrorActions(irq);
  }

  /** The web clients get the stored frame with a channel record whose `valid` flag says whether
      the decode succeeded (never the stale flag), holding the decoded values when it did. */
  lemma BroadcastCarriesDecode(s: LoopState, inp: LoopInputs, j: nat)
    requires WellFormedInputs(inp)
    requires j < |Step(s, inp).actions| && Step(s, inp).actions[j].Broadcast?
    ensures var acts := Step(s, inp).actions;
            var b := acts[j];
            j >= 1 && acts[j - 1] == Decoded(b.packet, Decode(b.packet.data, b.packet.length))
            && b.packet == Captured(inp)
            && (b.valid <==> Decode(b.packet.data, b.packet.length).Some?)
            && (b.valid ==> Decode(b.packet.data, b.packet.length) == Some(b.channels))
  {
    BroadcastOnlyOnAcceptedFrame(s, inp);
    var irq := IrqStatusOf(inp.irqResponse);
    var acts := Step(s, inp).actions;
    var pre := [Bus(Exchange(Command.GetIrqStatus, inp.irqResponse)),
                Bus(Exchange(Command.GetPacketStatus, inp.packetStatusResponse)),
                Bus(Exchange(Command.GetRxBufferStatus, inp.rxBufferResponse))];
    assert acts == pre + FrameActions(inp) + Rearm(IrqRxDone | IrqCrcError) + CrcErrorActions(irq);
  }

  /** Whenever a poll sees RX done, the pass ends its RX handling with clear(RX done | CRC
      error) then continuous RX, whether or not the frame was accepted; only the CRC-error pair
      can follow. */
  lemma RearmAfterRxDone(s: LoopState, inp: LoopInputs)
    requires WellFormedInputs(inp) && RxDoneSeen(s, inp)
    ensures IrqRxDone | IrqCrcError == 0x0042
    ensures var acts := Step(s, inp).actions;
            var tail := CrcErrorActions(IrqStatusOf(inp.irqResponse));
            |acts| >= |tail| + 2
            && acts[|acts| - |tail| - 2..|acts| - |tail|] == Rearm(0x0042)
            && acts[|acts| - |tail|..] == tail
  {
    var irq := IrqStatusOf(inp.irqResponse);
    var acts := Step(s, inp).actions;
    var tail := CrcErrorActions(irq);
    var pre := [Bus(Exchange(Command.GetIrqStatus, inp.irqResponse)),
                Bus(Exchange(Command.GetPacketStatus, inp.packetStatusResponse)),
                Bus(Exchange(Command.GetRxBufferStatus, inp.rxBufferResponse))]
               + (if LengthAccepted(RxLength(inp)) then FrameActions(inp) else []);
    assert acts == pre + Rearm(IrqRxDone | IrqCrcError) + tail;
  }

  /** A CRC-error flag in the same snapshot adds clear(CRC error) and continuous RX at the very
      end, after the RX-done handling; without it nothing follows. */
  lemma CrcErrorPairLast(s: LoopState, inp: LoopInputs)
    requires WellFormedInputs(inp) && CheckDue(s, inp.now)
    ensures var acts := Step(s, inp).actions;
            var irq := IrqStatusOf(inp.irqResponse);
            ((irq & IrqCrcError) != 0 ==> |acts| >= 2 && acts[|acts| - 2..] == Rearm(IrqCrcError))
            && ((irq & IrqCrcError) == 0 && (irq & IrqRxDone) != 0
                ==> acts[|acts| - 2..] == Rearm(IrqRxDone | IrqCrcError))
            && ((irq & IrqCrcError) == 0 && (irq & IrqRxDone) == 0 ==> |acts| == 1)
  {
  }

  /** `packetReady` is cleared exactly by a poll that saw RX done and is otherwise left as it
      was; a pass never sets it. */
  lemma PacketReadyClearedOnlyOnRxDone(s: LoopState, inp: LoopInputs)
    requires WellFormedInputs(inp)
    ensures Step(s, inp).packetReady == (s.packetReady && !RxDoneSeen(s, inp))
  {
  }

  // ---------------------------------------------------------------------------
  // Setup
  // ---------------------------------------------------------------------------

  datatype SetupStep = CaptureInit | RadioBegin | PromiscuousConfig | AttachInterrupt | StartRx | WebBegin | Ready | Halt

  /** `setup` in order; a failed radio start, radio configuration or web server start halts
      (the blink loop never returns). */
  function SetupSteps(radioOk: bool, promiscuousOk: bool, webOk: bool): seq<SetupStep>
  {
    [CaptureInit, RadioBegin]
    + if !radioOk then [Halt]
      else [PromiscuousConfig]
           + if !promiscuousOk then [Halt]
             else [AttachInterrupt, StartRx, WebBegin] + if !webOk then [Halt] else [Ready]
  }

  /** With every step succeeding, the order is capture init, radio start, promiscuous
      configuration, interrupt attach, continuous RX, web server start. */
  lemma SetupOrder()
    ensures SetupSteps(true, true, true)
            == [CaptureInit, RadioBegin, PromiscuousConfig, AttachInterrupt, StartRx, WebBegin, Ready]
  {
  }

  /** A halt is the last step and happens exactly when some step failed; RX is started only
      after both radio steps succeeded, and a failed step is followed by nothing but the halt. */
  lemma SetupHaltsOnFailure(radioOk: bool, promiscuousOk: bool, webOk: bool)
    ensures var steps := SetupSteps(radioOk, promiscuousOk, webOk);
            (Halt in steps <==> !(radioOk && promiscuousOk && webOk))
            && (forall i :: 0 <= i < |steps| && steps[i] == Halt ==> i == |steps| - 1)
            && (StartRx in steps <==> radioOk && promiscuousOk)
            && (PromiscuousConfig in steps <==> radioOk)
            && (Ready in steps <==> radioOk && promiscuousOk && webOk)
  {
  }

  /** Every frame the ring holds has a length in `1..MAX_PACKET_SIZE`. */
  ghost predicate HeldFramesFit(r: Ring)
    requires Inv(r)
  {
    forall i :: 0 <= i < |Contents(r)| ==> 1 <= Contents(r)[i].length <= MaxPacketSize
  }

  /** An empty ring trivially fits, and adding an accepted frame keeps every held frame fitting. */
  lemma ClearedFits(r: Ring)
    requires Inv(r)
    ensures Inv(Cleared(r)) && HeldFramesFit(Cleared(r))
  {
    ClearedEmpty(r);
  }

  lemma AddKeepsFit(r: Ring, p: PacketData)
    requires Inv(r) && HeldFramesFit(r) && 1 <= p.length <= MaxPacketSize
    ensures Inv(Add(r, p)) && HeldFramesFit(Add(r, p))
  {
    AddContents(r, p);
    var old' := if r.count == N then Contents(r)[1..] else Contents(r);
    forall i | 0 <= i < |Contents(Add(r, p))|
      ensures 1 <= Contents(Add(r, p))[i].length <= MaxPacketSize
    {
      if i < |old'| {
        assert Contents(Add(r, p))[i] == Contents(r)[if r.count == N then i + 1 else i];
      }
    }
  }

  // ---------------------------------------------------------------------------
  // The application object
  // ---------------------------------------------------------------------------

  class Sniffer {
    const radio: Sx1280Driver
    const capture: PacketCapture
    var packetReady: bool
    var lastPacketCheck: nat
    var interruptAttached: bool
    /** Everything the passes did so far, bus exchanges included. */
    ghost var log: seq<Action>
    ghost var setupLog: seq<SetupStep>

    /** The ring is well formed, and every frame it holds has an accepted length. */
    ghost predicate Valid()
      reads this, capture, capture.buffer
    {
      capture.Valid() && HeldFramesFit(capture.State())
    }

    constructor()
      ensures Valid() && !packetReady && lastPacketCheck == 0 && !interruptAttached
      ensures log == [] && setupLog == [] && fresh(radio) && fresh(capture) && fresh(capture.buffer)
      ensures radio.trace == [] && capture.State() == Initial()
    {
      radio := new Sx1280Driver();
      capture := new PacketCapture();
      packetReady := false;
      lastPacketCheck := 0;
      interruptAttached := false;
      log := [];
      setupLog := [];
      InitialInv();
    }

    /** The DIO1 interrupt handler: it only ever raises `packetReady`. */
    method OnPacketReceived()
      modifies this
      ensures packetReady && lastPacketCheck == old(lastPacketCheck) && log == old(log)
      ensures interruptAttached == old(interruptAttached) && setupLog == old(setupLog)
    {
      packetReady := true;
    }

    /** `setup`; `webOk` is what the web server's start reports. The radio driver's start and
        configuration both report success, so only the web server can halt it. */
    method Setup(webOk: bool) returns (halted: bool)
      requires Valid()
      modifies this, radio, capture
      ensures Valid()
      ensures setupLog == old(setupLog) + SetupSteps(true, true, webOk)
      ensures halted == !webOk && interruptAttached
      ensures radio.initialized
      ensures radio.trace == old(radio.trace) + [Write(Command.SetStandby(StandbyRc))]
                             + Writes(PromiscuousCommands()) + [Write(Command.SetRx(RxContinuous))]
      ensures capture.State() == Cleared(old(capture.State()))
      ensures packetReady == old(packetReady) && lastPacketCheck == old(lastPacketCheck) && log == old(log)
    {
      ClearedFits(capture.State());
      capture.Begin();
      setupLog := setupLog + [CaptureInit];
      var radioOk := radio.Begin();
      setupLog := setupLog + [RadioBegin];
      var promiscuousOk := radio.EnablePromiscuousMode();
      setupLog := setupLog + [PromiscuousConfig];
      interruptAttached := true;
      setupLog := setupLog + [AttachInterrupt];
      var rxOk := radio.SetRx(RxContinuous);
      setupLog := setupLog + [StartRx, WebBegin];
      if !webOk {
        setupLog := setupLog + [Halt];
        return true;
      }
      setupLog := setupLog + [Ready];
      halted := false;
    }

    /** The radio's transactions are exactly the exchanges of `acts`, on top of `t0`. */
    ghost predicate Tracks(t0: seq<Exchange>, acts: seq<Action>)
      reads this, radio
    {
      radio.trace == t0 + Exchanges(acts)
    }

    /** One `loop` pass, carrying out `Step` on the radio, the capture ring and the log. */
    method Loop(inp: LoopInputs)
      requires Valid() && WellFormedInputs(inp)
      modifies this, radio, capture, capture.buffer
      ensures Valid()
      ensures radio.initialized == old(radio.initialized)
      ensures var r := Step(LoopState(old(packetReady), old(lastPacketCheck)), inp);
              log == old(log) + r.actions
              && packetReady == r.packetReady && lastPacketCheck == r.lastPacketCheck
              && radio.trace == old(radio.trace) + Exchanges(r.actions)
              && capture.State() == if RxDoneSeen(LoopState(old(packetReady), old(lastPacketCheck)), inp)
                                       && LengthAccepted(RxLength(inp))
                                    then Add(old(capture.State()), Captured(inp)) else old(capture.State())
      ensures interruptAttached == old(interruptAttached) && setupLog == old(setupLog)
    {
      ghost var s := LoopState(packetReady, lastPacketCheck);
      ghost var acts: seq<Action> := [];
      if packetReady || Elapsed(inp.now, lastPacketCheck) > PollIntervalMs {
        lastPacketCheck := inp.now;
        var rxDone;
        rxDone, acts := Poll(inp);
        if rxDone {
          packetReady := false;
        }
      }
      log := log + acts;
      assert acts == Step(s, inp).actions;
    }

    /** A poll of the radio: the IRQ read, the RX-done branch, the CRC-error pair. */
    method Poll(inp: LoopInputs) returns (rxDone: bool, ghost acts: seq<Action>)
      requires Valid() && WellFormedInputs(inp)
      modifies radio, capture, capture.buffer
      ensures Valid() && radio.initialized == old(radio.initialized)
      ensures rxDone == ((IrqStatusOf(inp.irqResponse) & IrqRxDone) != 0)
      ensures acts == PollActions(inp) && radio.trace == old(radio.trace) + Exchanges(acts)
      ensures capture.State() == if rxDone && LengthAccepted(RxLength(inp))
                                 then Add(old(capture.State()), Captured(inp)) else old(capture.State())
    {
      ghost var t0 := radio.trace;
      BusStep(t0, radio.trace, [], Exchange(Command.GetIrqStatus, inp.irqResponse));
      var irq := radio.GetIrqStatus(inp.irqResponse);
      acts := [Bus(Exchange(Command.GetIrqStatus, inp.irqResponse))];
      assert Tracks(t0, acts);
      rxDone := (irq & IrqRxDone) != 0;
      ghost var afterRx := acts;
      if rxDone {
        afterRx := HandleRxDone(inp, t0, acts);
      }
      assert Tracks(t0, afterRx);
      acts := afterRx;
      if (irq & IrqCrcError) != 0 {
        acts := RearmReceiver(IrqCrcError, t0, afterRx);
      }
      PollTrace(inp, afterRx, acts);
    }

    /** Clearing the flags in `mask` and restarting continuous reception. */
    method RearmReceiver(mask: bv16, ghost t0: seq<Exchange>, ghost acts: seq<Action>)
      returns (ghost acts': seq<Action>)
      requires Tracks(t0, acts)
      modifies radio
      ensures acts' == acts + Rearm(mask) && Tracks(t0, acts')
      ensures radio.initialized == old(radio.initialized)
    {
      ghost var clear := Write(Command.ClearIrqStatus(mask));
      ghost var restart := Write(Command.SetRx(RxContinuous));
      BusStep(t0, radio.trace, acts, clear);
      var cleared := radio.ClearIrqStatus(mask);
      acts' := acts + [Bus(clear)];
      assert Tracks(t0, acts');
      BusStep(t0, radio.trace, acts', restart);
      var rxOk := radio.SetRx(RxContinuous);
      acts' := acts' + [Bus(restart)];
      assert acts' == acts + Rearm(mask);
    }

    /** Adding an accepted frame to the capture ring, which keeps every held frame fitting. */
    method StoreFrame(packet: PacketData)
      requires Valid() && 1 <= packet.length <= MaxPacketSize
      modifies capture, capture.buffer
      ensures Valid() && capture.State() == Add(old(capture.State()), packet)
    {
      AddKeepsFit(capture.State(), packet);
      var added := capture.AddPacket(packet);
    }

    /** The RX-done branch of a pass. */
    method HandleRxDone(inp: LoopInputs, ghost t0: seq<Exchange>, ghost acts: seq<Action>)
      returns (ghost acts': seq<Action>)
      requires Valid() && WellFormedInputs(inp) && Tracks(t0, acts)
      modifies radio, capture, capture.buffer
      ensures Valid() && acts' == acts + RxDoneActions(inp) && Tracks(t0, acts')
      ensures radio.initialized == old(radio.initialized)
      ensures capture.State() == if LengthAccepted(RxLength(inp)) then Add(old(capture.State()), Captured(inp))
                                 else old(capture.State())
    {
      BusStep(t0, radio.trace, acts, Exchange(Command.GetPacketStatus, inp.packetStatusResponse));
      var ok, rssi, snr := radio.GetPacketStatus(inp.packetStatusResponse);
      acts' := acts + [Bus(Exchange(Command.GetPacketStatus, inp.packetStatusResponse))];
      BusStep(t0, radio.trace, acts', Exchange(Command.GetRxBufferStatus, inp.rxBufferResponse));
      var ok2, length, start := radio.GetRxBufferStatus(inp.rxBufferResponse);
      acts' := acts' + [Bus(Exchange(Command.GetRxBufferStatus, inp.rxBufferResponse))];
      ghost var beforeFrame := acts';
      if length != 0 && length <= 0x40 {
        acts' := HandleFrame(inp, rssi, snr, start, t0, acts');
      }
      acts' := RearmReceiver(IrqRxDone | IrqCrcError, t0, acts');
      RxDoneTrace(inp, acts, acts');
    }

    /** An accepted frame: read it, store it, decode it, hand it to the web clients. */
    method HandleFrame(inp: LoopInputs, rssi: int, snr: int, start: Byte,
                       ghost t0: seq<Exchange>, ghost acts: seq<Action>)
      returns (ghost acts': seq<Action>)
      requires Valid() && WellFormedInputs(inp) && LengthAccepted(RxLength(inp)) && Tracks(t0, acts)
      requires PacketStatus(rssi, snr) == PacketStatusOf(inp.packetStatusResponse)
      requires start == RxBufferStatusOf(inp.rxBufferResponse).startPointer
      modifies radio, capture, capture.buffer
      ensures Valid() && acts' == acts + FrameActions(inp) && Tracks(t0, acts')
      ensures radio.initialized == old(radio.initialized)
      ensures capture.State() == Add(old(capture.State()), Captured(inp))
    {
      AcceptedLength(RxLength(inp));
      var n := RxLength(inp) as nat;
      BusStep(t0, radio.trace, acts, Exchange(Command.ReadBuffer(start), inp.rxData[..n]));
      var ok, data := radio.ReadBuffer(start, n, inp.rxData[..n]);
      acts' := acts + [Bus(Exchange(Command.ReadBuffer(start), data))];
      var packet := PacketData(inp.rxTime, rssi, snr, n, data + inp.staleData[n..]);
      CapturedRecord(inp, rssi, snr, packet);
      StoreStep(acts', packet);
      StoreFrame(packet);
      acts' := acts' + [Store(packet)];
      var slots, valid := DecodeChannels(packet, inp.staleChannels, inp.staleValid);
      QuietStep(acts', Decoded(packet, Decode(packet.data, n)));
      acts' := acts' + [Decoded(packet, Decode(packet.data, n))];
      QuietStep(acts', Broadcast(packet, slots, valid));
      acts' := acts' + [Broadcast(packet, slots, valid)];
      FrameTrace(inp, acts, acts');
    }
  }

  /** Decoding a stored frame into a channel record on the stack, which starts out holding
      `staleChannels` and `staleValid`: the record the web clients are then given. */
  method DecodeChannels(packet: PacketData, staleChannels: seq<bv16>, staleValid: bool)
    returns (slots: seq<bv16>, valid: bool)
    requires |packet.data| == MaxPacketSize && packet.length <= MaxPacketSize
    requires |staleChannels| == CrsfNumChannels
    ensures slots == SlotsAfter(Decode(packet.data, packet.length), staleChannels)
    ensures valid <==> Decode(packet.data, packet.length).Some?
  {
    var channels := new ChannelData(staleChannels, staleValid);
    var decoded := DecodePacket(packet.data, packet.length, channels);
    slots := channels.channels[..];
    valid := channels.valid;
    PublishedSlots(Decode(packet.data, packet.length), slots, valid, staleChannels);
  }

  /** The RX-done branch's actions, appended one group at a time, make up `RxDoneActions`. */
  lemma RxDoneTrace(inp: LoopInputs, acts: seq<Action>, acts': seq<Action>)
    requires WellFormedInputs(inp)
    requires acts' == acts + [Bus(Exchange(Command.GetPacketStatus, inp.packetStatusResponse))]
                      + [Bus(Exchange(Command.GetRxBufferStatus, inp.rxBufferResponse))]
                      + (if LengthAccepted(RxLength(inp)) then FrameActions(inp) else [])
                      + Rearm(IrqRxDone | IrqCrcError)
    ensures acts' == acts + RxDoneActions(inp)
  {
  }

  /** A poll's actions, appended one branch at a time, make up `PollActions`. */
  lemma PollTrace(inp: LoopInputs, afterRx: seq<Action>, acts: seq<Action>)
    requires WellFormedInputs(inp)
    requires var irq := IrqStatusOf(inp.irqResponse);
             afterRx == [Bus(Exchange(Command.GetIrqStatus, inp.irqResponse))]
                        + (if (irq & IrqRxDone) != 0 then RxDoneActions(inp) else [])
             && acts == afterRx + CrcErrorActions(irq)
    ensures acts == PollActions(inp)
  {
  }

  /** The record a pass builds from the signal report and the bytes read is `Captured`. */
  lemma CapturedRecord(inp: LoopInputs, rssi: int, snr: int, packet: PacketData)
    requires WellFormedInputs(inp) && LengthAccepted(RxLength(inp))
    requires PacketStatus(rssi, snr) == PacketStatusOf(inp.packetStatusResponse)
    requires packet == PacketData(inp.rxTime, rssi, snr, RxLength(inp) as nat,
                                  inp.rxData[..RxLength(inp) as nat] + inp.staleData[RxLength(inp) as nat..])
    ensures packet == Captured(inp)
  {
  }

  /** The frame branch's actions, appended one at a time, make up `FrameActions`. */
  lemma FrameTrace(inp: LoopInputs, acts: seq<Action>, acts': seq<Action>)
    requires WellFormedInputs(inp) && LengthAccepted(RxLength(inp))
    requires var p := Captured(inp);
             var result := Decode(p.data, p.length);
             acts' == acts + [Bus(Exchange(Command.ReadBuffer(RxBufferStatusOf(inp.rxBufferResponse).startPointer),
                                           inp.rxData[..p.length]))]
                      + [Store(p)] + [Decoded(p, result)]
                      + [Broadcast(p, SlotsAfter(result, inp.staleChannels), result.Some?)]
    ensures acts' == acts + FrameActions(inp)
  {
  }

  /** The record the decoder leaves behind is `SlotsAfter` its result, flagged valid exactly on
      success. */
  lemma PublishedSlots(result: Option<seq<bv16>>, slots: seq<bv16>, valid: bool, stale: seq<bv16>)
    requires valid ==> result == Some(slots)
    requires !valid ==> result == None && slots == stale
    ensures slots == SlotsAfter(result, stale) && valid == result.Some?
  {
  }

  /** A bus exchange extends the radio's trace by that exchange and stores nothing. */
  lemma BusStep(t0: seq<Exchange>, trace: seq<Exchange>, acts: seq<Action>, e: Exchange)
    requires trace == t0 + Exchanges(acts)
    ensures trace + [e] == t0 + Exchanges(acts + [Bus(e)])
    ensures Stores(acts + [Bus(e)]) == Stores(acts)
  {
    assert (acts + [Bus(e)])[..|acts|] == acts;
  }

  /** A store adds the frame to the stored list and exchanges nothing. */
  lemma StoreStep(acts: seq<Action>, p: PacketData)
    ensures Stores(acts + [Store(p)]) == Stores(acts) + [p]
    ensures Exchanges(acts + [Store(p)]) == Exchanges(acts)
  {
    assert (acts + [Store(p)])[..|acts|] == acts;
  }

  /** A decode or a broadcast touches neither the radio nor the ring. */
  lemma QuietStep(acts: seq<Action>, a: Action)
    requires !a.Bus? && !a.Store?
    ensures Exchanges(acts + [a]) == Exchanges(acts) && Stores(acts + [a]) == Stores(acts)
  {
    assert (acts + [a])[..|acts|] == acts;
  }
}
