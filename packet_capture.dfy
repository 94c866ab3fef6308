/** The capture ring: a fixed array of frame slots with read and write cursors, an occupancy count
    and two lifetime counters. When the ring is full the oldest frame is evicted and counted. */
module Capture {
  import opened Bytes
  import opened Config

  /** One captured frame: arrival time in ms, signal report, received length and the 64-byte
      data area (only its first `length` bytes come from the radio). */
  datatype PacketData = PacketData(timestamp: nat, rssi: int, snr: int, length: nat, data: seq<Byte>)

  /** The all-zero slot a statically allocated buffer starts with. */
  const BlankPacket: PacketData := PacketData(0, 0, 0, 0, seq(MaxPacketSize, _ => 0))

  const N: nat := PacketBufferSize

  // ---------------------------------------------------------------------------
  // The ring as a value: the specification the class is proved against
  // ---------------------------------------------------------------------------

  datatype Ring = Ring(slots: seq<PacketData>, writeIndex: nat, readIndex: nat, count: nat,
                       received: nat, dropped: nat, full: bool)

  /** The ring invariant: cursors in range, the write cursor `count` slots past the read cursor,
      at most `N` frames held, the full flag only on a full ring, and every frame held or dropped
      was once received. */
  ghost predicate Inv(r: Ring)
  {
    |r.slots| == N && r.writeIndex < N && r.readIndex < N && r.count <= N
    && r.writeIndex == (r.readIndex + r.count) % N
    && (r.full ==> r.count == N)
    && r.count + r.dropped <= r.received
  }

  /** The state the constructor leaves: zeroed cursors, counters and slots. */
  function Initial(): Ring
  {
    Ring(seq(N, _ => BlankPacket), 0, 0, 0, 0, 0, false)
  }

  /** `addPacket`: evict the oldest frame when `count` has reached `N`, then store at the write
      cursor and advance it. */
  function Add(r: Ring, p: PacketData): Ring
    requires |r.slots| == N && r.writeIndex < N
  {
    var r1 := if r.count >= N
              then r.(dropped := r.dropped + 1, full := true,
                      readIndex := (r.readIndex + 1) % N, count := r.count - 1)
              else r;
    r1.(slots := r1.slots[r1.writeIndex := p], writeIndex := (r1.writeIndex + 1) % N,
        count := r1.count + 1, received := r1.received + 1)
  }

  /** `getPacket`: the frame `index` places after the read cursor, or nothing past `count`. */
  function Get(r: Ring, index: nat): Option<PacketData>
    requires |r.slots| == N
  {
    if index >= r.count then None else Some(r.slots[(r.readIndex + index) % N])
  }

  /** `clearBuffer`: cursors, count and the full flag reset; slots and lifetime counters kept. */
  function Cleared(r: Ring): Ring
  {
    r.(writeIndex := 0, readIndex := 0, count := 0, full := false)
  }

  /** The frames held, oldest first: the abstract view of a ring. */
  ghost function Contents(r: Ring): (s: seq<PacketData>)
    requires Inv(r)
    ensures |s| == r.count
  {
    seq(r.count, i requires 0 <= i < r.count => r.slots[(r.readIndex + i) % N])
  }

  /** Adding the frames of `ps` one after the other, first frame first. */
  function AddAll(r: Ring, ps: seq<PacketData>): Ring
    requires |r.slots| == N && r.writeIndex < N
    ensures |AddAll(r, ps).slots| == N && AddAll(r, ps).writeIndex < N
    decreases |ps|
  {
    if ps == [] then r else Add(AddAll(r, ps[..|ps| - 1]), ps[|ps| - 1])
  }

  /** The last `N` elements of `s` (all of it when shorter). */
  function Newest(s: seq<PacketData>): (t: seq<PacketData>)
    ensures |t| == if |s| <= N then |s| else N
  {
    if |s| <= N then s else s[|s| - N..]
  }

  lemma ModStep(a: nat, b: nat)
    ensures ((a % N) + b) % N == (a + b) % N
  {
  }

  lemma ModDistinct(a: nat, i: nat, j: nat)
    requires i < j < N
    ensures (a + i) % N != (a + j) % N
  {
  }

  lemma InitialInv()
    ensures Inv(Initial()) && Contents(Initial()) == []
  {
  }

  /** `addPacket` keeps the invariant from every reachable state. */
  lemma AddPreservesInv(r: Ring, p: PacketData)
    requires Inv(r)
    ensures Inv(Add(r, p))
  {
    if r.count >= N {
      assert r.writeIndex == r.readIndex;
      ModStep(r.readIndex + 1, N);
    } else {
      ModStep(r.readIndex + r.count, 1);
    }
  }

  /** What `addPacket` does to the held frames and the counters: `p` is appended; the oldest frame
      is lost exactly when the ring was full, and only then is a drop counted. */
  lemma AddContents(r: Ring, p: PacketData)
    requires Inv(r)
    ensures Inv(Add(r, p))
    ensures Contents(Add(r, p)) == (if r.count == N then Contents(r)[1..] else Contents(r)) + [p]
    ensures Add(r, p).received == r.received + 1
    ensures Add(r, p).dropped == if r.count == N then r.dropped + 1 else r.dropped
    ensures Add(r, p).full == (r.full || r.count == N)
  {
    var r' := Add(r, p);
    AddPreservesInv(r, p);
    var expected := (if r.count == N then Contents(r)[1..] else Contents(r)) + [p];
    assert |Contents(r')| == |expected|;
    forall i | 0 <= i < r'.count
      ensures Contents(r')[i] == expected[i]
    {
      if r.count == N {
        AddFullAt(r, p, i);
      } else {
        AddRoomAt(r, p, i);
      }
    }
  }

  /** Slot `i` of a full ring after an add: the old slot `i + 1`, or `p` at the newest end. */
  lemma AddFullAt(r: Ring, p: PacketData, i: nat)
    requires Inv(r) && r.count == N && i < N
    ensures Inv(Add(r, p))
    ensures Contents(Add(r, p))[i] == if i < N - 1 then Contents(r)[i + 1] else p
  {
    AddPreservesInv(r, p);
    var r' := Add(r, p);
    assert r.writeIndex == r.readIndex;
    assert r'.readIndex == (r.readIndex + 1) % N;
    ModStep(r.readIndex + 1, i);
    assert Contents(r')[i] == r'.slots[(r.readIndex + 1 + i) % N];
    if i < N - 1 {
      ModDistinct(r.readIndex, 0, i + 1);
    } else {
      assert (r.readIndex + N) % N == r.writeIndex;
    }
  }

  /** Slot `i` of a ring with room after an add: unchanged below `count`, `p` at `count`. */
  lemma AddRoomAt(r: Ring, p: PacketData, i: nat)
    requires Inv(r) && r.count < N && i <= r.count
    ensures Inv(Add(r, p))
    ensures Contents(Add(r, p))[i] == if i < r.count then Contents(r)[i] else p
  {
    AddPreservesInv(r, p);
    var r' := Add(r, p);
    assert Contents(r')[i] == r'.slots[(r.readIndex + i) % N];
    if i < r.count {
      ModDistinct(r.readIndex, i, r.count);
    }
  }

  /** After `addPacket(p)` the newest frame, at index `count - 1`, is `p`. */
  lemma AddThenGetNewest(r: Ring, p: PacketData)
    requires Inv(r)
    ensures Add(r, p).count >= 1
    ensures Get(Add(r, p), Add(r, p).count - 1) == Some(p)
  {
    AddContents(r, p);
    GetIsContents(Add(r, p), Add(r, p).count - 1);
  }

  /** `getPacket(i)` fails exactly when `i >= count`, and otherwise yields the `i`-th oldest frame
      held. */
  lemma GetIsContents(r: Ring, index: nat)
    requires Inv(r)
    ensures Get(r, index).None? <==> index >= r.count
    ensures index < r.count ==> Get(r, index) == Some(Contents(r)[index])
  {
  }

  /** `clearBuffer` empties the ring, keeps the invariant and leaves both lifetime counters. */
  lemma ClearedEmpty(r: Ring)
    requires Inv(r)
    ensures Inv(Cleared(r)) && Contents(Cleared(r)) == []
    ensures Cleared(r).received == r.received && Cleared(r).dropped == r.dropped
    ensures forall i: nat :: Get(Cleared(r), i) == None
  {
  }

  /** Adding a run of frames: the ring holds the newest `N` of what it held followed by the run,
      every frame is counted as received, and exactly the overflow is counted as dropped. */
  lemma {:induction false} AddAllContents(r: Ring, ps: seq<PacketData>)
    requires Inv(r)
    ensures Inv(AddAll(r, ps))
    ensures Contents(AddAll(r, ps)) == Newest(Contents(r) + ps)
    ensures AddAll(r, ps).received == r.received + |ps|
    ensures AddAll(r, ps).dropped
            == r.dropped + (if r.count + |ps| > N then r.count + |ps| - N else 0)
    decreases |ps|
  {
    if ps != [] {
      var init, last := ps[..|ps| - 1], ps[|ps| - 1];
      AddAllContents(r, init);
      var mid := AddAll(r, init);
      AddContents(mid, last);
      NewestAppend(Contents(r) + init, last);
      assert Contents(r) + ps == (Contents(r) + init) + [last];
    }
  }

  lemma NewestAppend(s: seq<PacketData>, x: PacketData)
    ensures Newest(s + [x]) == (if |Newest(s)| == N then Newest(s)[1..] else Newest(s)) + [x]
  {
    if |s| >= N {
      assert (s + [x])[|s| + 1 - N..] == s[|s| - N..][1..] + [x];
    }
  }

  /** From an empty ring, `N + k` frames leave the ring full with the last `N` of them, `k` more
      drops and `N + k` more receptions; the oldest held frame is frame number `k + 1`. */
  lemma FillFromEmpty(r: Ring, ps: seq<PacketData>)
    requires Inv(r) && r.count == 0 && |ps| >= N
    ensures Inv(AddAll(r, ps)) && AddAll(r, ps).count == N
    ensures AddAll(r, ps).dropped == r.dropped + (|ps| - N)
    ensures AddAll(r, ps).received == r.received + |ps|
    ensures Contents(AddAll(r, ps)) == ps[|ps| - N..]
    ensures Get(AddAll(r, ps), 0) == Some(ps[|ps| - N])
  {
    assert (if r.count + |ps| > N then r.count + |ps| - N else 0) == |ps| - N;
    assert Contents(r) + ps == ps;
    assert Newest(ps) == ps[|ps| - N..] by {
      if |ps| == N {
        assert ps[0..] == ps;
      }
    }
    AddAllContents(r, ps);
    var r' := AddAll(r, ps);
    assert Contents(r') == ps[|ps| - N..];
    GetIsContents(r', 0);
  }

  // ---------------------------------------------------------------------------
  // The object: fields updated in place, each method proved against the ring functions
  // ---------------------------------------------------------------------------

  class PacketCapture {
    const buffer: array<PacketData>
    var writeIndex: nat
    var readIndex: nat
    var count: nat
    var totalReceived: nat
    var totalDropped: nat
    var bufferFull: bool

    ghost function State(): Ring
      reads this, buffer
    {
      Ring(buffer[..], writeIndex, readIndex, count, totalReceived, totalDropped, bufferFull)
    }

    ghost predicate Valid()
      reads this, buffer
    {
      Inv(State())
    }

    /** Zeroed cursors and counters; the statically allocated slots start zeroed too. */
    constructor()
      ensures Valid() && State() == Initial() && fresh(buffer)
    {
      buffer := new PacketData[N](_ => BlankPacket);
      writeIndex, readIndex, count := 0, 0, 0;
      totalReceived, totalDropped := 0, 0;
      bufferFull := false;
    }

    /** `begin`: clears the ring. */
    method Begin()
      requires Valid()
      modifies this
      ensures Valid() && State() == Cleared(old(State()))
    {
      ClearBuffer();
    }

    /** `addPacket`: always succeeds. */
    method AddPacket(packet: PacketData) returns (ok: bool)
      requires Valid()
      modifies this, buffer
      ensures Valid() && ok
      ensures State() == Add(old(State()), packet)
    {
      AddPreservesInv(State(), packet);
      if count >= N {
        totalDropped := totalDropped + 1;
        bufferFull := true;
        readIndex := (readIndex + 1) % N;
        count := count - 1;
      }
      buffer[writeIndex] := packet;
      writeIndex := (writeIndex + 1) % N;
      count := count + 1;
      totalReceived := totalReceived + 1;
      ok := true;
    }

    /** `getPacket`: on success the caller's record is overwritten with the frame, otherwise it
        keeps the value `packet` it had. Nothing in the ring changes. */
    method GetPacket(index: nat, packet: PacketData) returns (found: bool, out: PacketData)
      requires Valid()
      ensures found <==> index < count
      ensures found ==> Get(State(), index) == Some(out) && out == Contents(State())[index]
      ensures !found ==> Get(State(), index) == None && out == packet
    {
      if index >= count {
        return false, packet;
      }
      var bufferIndex := (readIndex + index) % N;
      out := buffer[bufferIndex];
      found := true;
    }

    /** `getPacketCount`: the number of frames held. */
    method GetPacketCount() returns (n: nat)
      requires Valid()
      ensures n == |Contents(State())| && n <= N
    {
      n := count;
    }

    /** `clearBuffer`: cursors, count and the full flag reset; the lifetime counters survive. */
    method ClearBuffer()
      requires Valid()
      modifies this
      ensures Valid() && State() == Cleared(old(State()))
    {
      writeIndex := 0;
      readIndex := 0;
      count := 0;
      bufferFull := false;
    }

    /** `getTotalPacketsReceived`: every frame ever added, evicted or cleared ones included. */
    method GetTotalPacketsReceived() returns (n: nat)
      requires Valid()
      ensures n == State().received && n >= |Contents(State())|
    {
      n := totalReceived;
    }

    /** `getTotalPacketsDropped`: the frames evicted by a full ring. */
    method GetTotalPacketsDropped() returns (n: nat)
      requires Valid()
      ensures n == State().dropped && n + |Contents(State())| <= State().received
    {
      n := totalDropped;
    }
  }
}
