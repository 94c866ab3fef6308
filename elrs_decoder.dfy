/** CRSF frame decoding: the CRC-8 check over the type and payload span, the RC-channels frame
    filter and the 11-bit channel unpacker, modelled operation by operation as written. */
module ElrsDecoder {
  import opened Bytes
  import opened Config

  const CrsfFrameTypeRcChannelsPacked: Byte := 0x16
  const CrsfNumChannels: nat := 16
  /** Generator polynomial x^8 + x^7 + x^6 + x^4 + x^2 + 1 without its x^8 term. */
  const CrcPoly: Byte := 0xD5
  /** The unpacker reads payload bytes 0 to 20 and no others. */
  const ChannelBytesRead: nat := 21
  /** An RC-channels payload carries 16 channels of 11 bits in 22 bytes. */
  const ChannelPayloadSize: nat := 22

  // ---------------------------------------------------------------------------
  // CRC-8, polynomial 0xD5, register initialised to 0, no reflection, no final XOR
  // ---------------------------------------------------------------------------

  /** One step of the bit-serial register: shift left, folding in the polynomial when the top
      bit falls out. Because the polynomial has its x^0 term, a non-zero register stays non-zero. */
  function CrcShift(crc: Byte): (r: Byte)
    ensures crc != 0 ==> r != 0
  {
    if (crc & 0x80) != 0 then (crc << 1) ^ CrcPoly else crc << 1
  }

  /** `n` register steps. */
  function CrcShifts(crc: Byte, n: nat): (r: Byte)
    ensures crc != 0 ==> r != 0
  {
    if n == 0 then crc else CrcShift(CrcShifts(crc, n - 1))
  }

  /** Feeding one byte: XOR it into the register, then eight steps. */
  function CrcUpdate(crc: Byte, b: Byte): Byte
  {
    CrcShifts(crc ^ b, 8)
  }

  /** The register after feeding `data`, first byte first, starting from `init`. */
  function CrcFrom(init: Byte, data: seq<Byte>): Byte
    decreases |data|
  {
    if data == [] then init else CrcUpdate(CrcFrom(init, data[..|data| - 1]), data[|data| - 1])
  }

  /** The CRC-8 of a byte string (the register starts at 0). */
  function Crc8(data: seq<Byte>): Byte
  {
    CrcFrom(0, data)
  }

  /** `calculateCRC8`: the byte-by-byte, bit-by-bit register loop. */
  method CalculateCrc8(data: seq<Byte>) returns (crc: Byte)
    requires |data| < 0x100
    ensures crc == Crc8(data)
  {
    crc := 0;
    var i := 0;
    while i < |data|
      invariant 0 <= i <= |data|
      invariant crc == Crc8(data[..i])
    {
      crc := crc ^ data[i];
      ghost var fed := crc;
      var j := 0;
      while j < 8
        invariant 0 <= j <= 8
        invariant crc == CrcShifts(fed, j)
      {
        if (crc & 0x80) != 0 {
          crc := (crc << 1) ^ CrcPoly;
        } else {
          crc := crc << 1;
        }
        j := j + 1;
      }
      assert data[..i + 1][..i] == data[..i];
      i := i + 1;
    }
    assert data[..i] == data;
  }

  /** Feeding a concatenation is feeding its parts one after the other. */
  lemma {:induction false} CrcFromAppend(init: Byte, a: seq<Byte>, b: seq<Byte>)
    ensures CrcFrom(init, a + b) == CrcFrom(CrcFrom(init, a), b)
    decreases |b|
  {
    if b == [] {
      assert a + b == a;
    } else {
      var b' := b[..|b| - 1];
      assert (a + b)[..|a + b| - 1] == a + b';
      assert (a + b)[|a + b| - 1] == b[|b| - 1];
      CrcFromAppend(init, a, b');
    }
  }

  /** Appending the CRC makes the register end at 0 (no final XOR, zero start). */
  lemma CrcSelfCheck(data: seq<Byte>)
    ensures Crc8(data + [Crc8(data)]) == 0
  {
    var d := data + [Crc8(data)];
    assert d[..|d| - 1] == data;
    assert CrcShifts(0, 8) == 0 by { ZeroStaysZero(8); }
  }

  lemma {:induction false} ZeroStaysZero(n: nat)
    ensures CrcShifts(0, n) == 0
  {
    if n > 0 { ZeroStaysZero(n - 1); }
  }

  /** A string of zero bytes, fed from any register value, leaves 0 at 0 and a non-zero
      register non-zero. */
  lemma {:induction false} CrcFromZeros(init: Byte, n: nat)
    ensures init == 0 ==> CrcFrom(init, Zeros(n)) == 0
    ensures init != 0 ==> CrcFrom(init, Zeros(n)) != 0
  {
    if n > 0 {
      assert Zeros(n)[..n - 1] == Zeros(n - 1);
      CrcFromZeros(init, n - 1);
      ZeroStaysZero(8);
    }
  }

  /** The CRC of an all-zero string, the empty one included, is 0. */
  lemma CrcOfZeros(n: nat)
    ensures Crc8(Zeros(n)) == 0
  {
    CrcFromZeros(0, n);
  }

  /** One register step loses nothing: the low bit of the result says whether the polynomial
      was folded in, so the step can be undone. */
  lemma CrcShiftInjective(a: Byte, b: Byte)
    requires CrcShift(a) == CrcShift(b)
    ensures a == b
  {
  }

  lemma {:induction false} CrcShiftsInjective(a: Byte, b: Byte, n: nat)
    requires CrcShifts(a, n) == CrcShifts(b, n)
    ensures a == b
  {
    if n > 0 {
      CrcShiftInjective(CrcShifts(a, n - 1), CrcShifts(b, n - 1));
      CrcShiftsInjective(a, b, n - 1);
    }
  }

  /** Feeding the same bytes to two different registers leaves two different registers. */
  lemma {:induction false} CrcFromInjective(a: Byte, b: Byte, s: seq<Byte>)
    requires CrcFrom(a, s) == CrcFrom(b, s)
    ensures a == b
    decreases |s|
  {
    if s != [] {
      var s' := s[..|s| - 1];
      var e := s[|s| - 1];
      CrcUpdateInjective(CrcFrom(a, s'), CrcFrom(b, s'), e);
      CrcFromInjective(a, b, s');
    }
  }

  lemma CrcUpdateInjective(x: Byte, y: Byte, e: Byte)
    requires CrcUpdate(x, e) == CrcUpdate(y, e)
    ensures x == y
  {
    CrcShiftsInjective(x ^ e, y ^ e, 8);
  }

  /** Error detection: replacing any one byte by a different value changes the CRC-8. */
  lemma SingleByteErrorDetected(d: seq<Byte>, i: nat, v: Byte)
    requires i < |d| && v != d[i]
    ensures Crc8(d[i := v]) != Crc8(d)
  {
    var d' := d[i := v];
    var pre, post := d[..i], d[i + 1..];
    assert d == (pre + [d[i]]) + post;
    assert d' == (pre + [v]) + post;
    CrcFromAppend(0, pre + [d[i]], post);
    CrcFromAppend(0, pre + [v], post);
    assert (pre + [d[i]])[..i] == pre;
    assert (pre + [v])[..i] == pre;
    var c := Crc8(pre);
    CrcUpdateDetects(c, d[i], v);
    if Crc8(d') == Crc8(d) {
      CrcFromInjective(CrcUpdate(c, d[i]), CrcUpdate(c, v), post);
    }
  }

  /** The same, stated as an error pattern: XOR-ing a non-zero mask into one byte. */
  lemma SingleByteFlipDetected(d: seq<Byte>, i: nat, m: Byte)
    requires i < |d| && m != 0
    ensures Crc8(d[i := d[i] ^ m]) != Crc8(d)
  {
    XorChanges(d[i], m);
    SingleByteErrorDetected(d, i, d[i] ^ m);
  }

  lemma XorChanges(x: Byte, m: Byte)
    requires m != 0
    ensures x ^ m != x
  {
  }

  /** Feeding two different bytes to one register leaves two different registers. */
  lemma CrcUpdateDetects(c: Byte, x: Byte, v: Byte)
    requires x != v
    ensures CrcUpdate(c, x) != CrcUpdate(c, v)
  {
    if CrcUpdate(c, x) == CrcUpdate(c, v) {
      CrcShiftsInjective(c ^ x, c ^ v, 8);
    }
  }

  /** The register steps for the ASCII string "123456789", one byte at a time. */
  lemma Crc8CheckSteps()
    ensures CrcUpdate(0, 0x31) == 0x23
    ensures CrcUpdate(0x23, 0x32) == 0x87
    ensures CrcUpdate(0x87, 0x33) == 0xE7
    ensures CrcUpdate(0xE7, 0x34) == 0x8A
    ensures CrcUpdate(0x8A, 0x35) == 0x64
    ensures CrcUpdate(0x64, 0x36) == 0xB0
    ensures CrcUpdate(0xB0, 0x37) == 0xBB
    ensures CrcUpdate(0xBB, 0x38) == 0x45
    ensures CrcUpdate(0x45, 0x39) == 0xBC
  {
    assert CrcShifts(0x31, 1) == 0x62;
    assert CrcShifts(0x31, 2) == 0xC4;
    assert CrcShifts(0x31, 3) == 0x5D;
    assert CrcShifts(0x31, 4) == 0xBA;
    assert CrcShifts(0x31, 5) == 0xA1;
    assert CrcShifts(0x31, 6) == 0x97;
    assert CrcShifts(0x31, 7) == 0xFB;
    assert CrcShifts(0x31, 8) == 0x23;

    assert CrcShifts(0x11, 1) == 0x22;
    assert CrcShifts(0x11, 2) == 0x44;
    assert CrcShifts(0x11, 3) == 0x88;
    assert CrcShifts(0x11, 4) == 0xC5;
    assert CrcShifts(0x11, 5) == 0x5F;
    assert CrcShifts(0x11, 6) == 0xBE;
    assert CrcShifts(0x11, 7) == 0xA9;
    assert CrcShifts(0x11, 8) == 0x87;

    assert CrcShifts(0xB4, 1) == 0xBD;
    assert CrcShifts(0xB4, 2) == 0xAF;
    assert CrcShifts(0xB4, 3) == 0x8B;
    assert CrcShifts(0xB4, 4) == 0xC3;
    assert CrcShifts(0xB4, 5) == 0x53;
    assert CrcShifts(0xB4, 6) == 0xA6;
    assert CrcShifts(0xB4, 7) == 0x99;
    assert CrcShifts(0xB4, 8) == 0xE7;

    assert CrcShifts(0xD3, 1) == 0x73;
    assert CrcShifts(0xD3, 2) == 0xE6;
    assert CrcShifts(0xD3, 3) == 0x19;
    assert CrcShifts(0xD3, 4) == 0x32;
    assert CrcShifts(0xD3, 5) == 0x64;
    assert CrcShifts(0xD3, 6) == 0xC8;
    assert CrcShifts(0xD3, 7) == 0x45;
    assert CrcShifts(0xD3, 8) == 0x8A;

    assert CrcShifts(0xBF, 1) == 0xAB;
    assert CrcShifts(0xBF, 2) == 0x83;
    assert CrcShifts(0xBF, 3) == 0xD3;
    assert CrcShifts(0xBF, 4) == 0x73;
    assert CrcShifts(0xBF, 5) == 0xE6;
    assert CrcShifts(0xBF, 6) == 0x19;
    assert CrcShifts(0xBF, 7) == 0x32;
    assert CrcShifts(0xBF, 8) == 0x64;

    assert CrcShifts(0x52, 1) == 0xA4;
    assert CrcShifts(0x52, 2) == 0x9D;
    assert CrcShifts(0x52, 3) == 0xEF;
    assert CrcShifts(0x52, 4) == 0x0B;
    assert CrcShifts(0x52, 5) == 0x16;
    assert CrcShifts(0x52, 6) == 0x2C;
    assert CrcShifts(0x52, 7) == 0x58;
    assert CrcShifts(0x52, 8) == 0xB0;

    assert CrcShifts(0x87, 1) == 0xDB;
    assert CrcShifts(0x87, 2) == 0x63;
    assert CrcShifts(0x87, 3) == 0xC6;
    assert CrcShifts(0x87, 4) == 0x59;
    assert CrcShifts(0x87, 5) == 0xB2;
    assert CrcShifts(0x87, 6) == 0xB1;
    assert CrcShifts(0x87, 7) == 0xB7;
    assert CrcShifts(0x87, 8) == 0xBB;

    assert CrcShifts(0x83, 1) == 0xD3;
    assert CrcShifts(0x83, 2) == 0x73;
    assert CrcShifts(0x83, 3) == 0xE6;
    assert CrcShifts(0x83, 4) == 0x19;
    assert CrcShifts(0x83, 5) == 0x32;
    assert CrcShifts(0x83, 6) == 0x64;
    assert CrcShifts(0x83, 7) == 0xC8;
    assert CrcShifts(0x83, 8) == 0x45;

    assert CrcShifts(0x7C, 1) == 0xF8;
    assert CrcShifts(0x7C, 2) == 0x25;
    assert CrcShifts(0x7C, 3) == 0x4A;
    assert CrcShifts(0x7C, 4) == 0x94;
    assert CrcShifts(0x7C, 5) == 0xFD;
    assert CrcShifts(0x7C, 6) == 0x2F;
    assert CrcShifts(0x7C, 7) == 0x5E;
    assert CrcShifts(0x7C, 8) == 0xBC;
  }

  /** Known answer: the CRC-8 of the ASCII string "123456789" is 0xBC, the check value catalogued
      for CRC-8/DVB-S2 (polynomial 0xD5, zero start, no reflection, no final XOR). */
  lemma Crc8CheckValue()
    ensures Crc8([0x31, 0x32, 0x33, 0x34, 0x35, 0x36, 0x37, 0x38, 0x39]) == 0xBC
  {
    var d: seq<Byte> := [0x31, 0x32, 0x33, 0x34, 0x35, 0x36, 0x37, 0x38, 0x39];
    Crc8CheckSteps();
    assert CrcFrom(0, d[..0]) == 0;
    assert d[..1][..0] == d[..0];
    assert CrcFrom(0, d[..1]) == CrcUpdate(0x00, 0x31) == 0x23;
    assert d[..2][..1] == d[..1];
    assert CrcFrom(0, d[..2]) == CrcUpdate(0x23, 0x32) == 0x87;
    assert d[..3][..2] == d[..2];
    assert CrcFrom(0, d[..3]) == CrcUpdate(0x87, 0x33) == 0xE7;
    assert d[..4][..3] == d[..3];
    assert CrcFrom(0, d[..4]) == CrcUpdate(0xE7, 0x34) == 0x8A;
    assert d[..5][..4] == d[..4];
    assert CrcFrom(0, d[..5]) == CrcUpdate(0x8A, 0x35) == 0x64;
    assert d[..6][..5] == d[..5];
    assert CrcFrom(0, d[..6]) == CrcUpdate(0x64, 0x36) == 0xB0;
    assert d[..7][..6] == d[..6];
    assert CrcFrom(0, d[..7]) == CrcUpdate(0xB0, 0x37) == 0xBB;
    assert d[..8][..7] == d[..7];
    assert CrcFrom(0, d[..8]) == CrcUpdate(0xBB, 0x38) == 0x45;
    assert d[..9][..8] == d[..8];
    assert CrcFrom(0, d[..9]) == CrcUpdate(0x45, 0x39) == 0xBC;
    assert d[..9] == d;
  }

  function Zeros(n: nat): (z: seq<Byte>)
    ensures |z| == n && forall i :: 0 <= i < n ==> z[i] == 0
  {
    seq(n, _ => 0)
  }

  // ---------------------------------------------------------------------------
  // Frame validation: [sync][len][type][payload...][crc]
  // ---------------------------------------------------------------------------

  /** `validateCRC` as a predicate: at least 3 bytes, and the CRC of `packet[2 .. length-1)`
      (type and payload) equals the last byte. */
  predicate CrcValid(packet: seq<Byte>, length: nat)
    requires length <= |packet|
  {
    length >= 3 && Crc8(packet[2..length - 1]) == packet[length - 1]
  }

  /** `validateCRC`: the CRC is run over `length - 3` bytes starting at the type byte. */
  method ValidateCrc(packet: seq<Byte>, length: nat) returns (ok: bool)
    requires length <= |packet| && length < 0x100
    ensures ok == CrcValid(packet, length)
    ensures length < 3 ==> !ok
    ensures length >= 3 ==> (ok <==> Crc8(packet[2..length - 1]) == packet[length - 1])
  {
    if length < 3 {
      return false;
    }
    var crcLength := length - 2;
    var calculated := CalculateCrc8(packet[2..2 + (crcLength - 1)]);
    ok := calculated == packet[length - 1];
  }

  /** The sync byte, the length byte and every byte at or past `length` never reach the check:
      two packets that agree on `[2, length)` validate alike. */
  lemma CrcValidSpanOnly(p: seq<Byte>, q: seq<Byte>, length: nat)
    requires length <= |p| && length <= |q|
    requires length >= 3 ==> p[2..length] == q[2..length]
    ensures CrcValid(p, length) == CrcValid(q, length)
  {
    if length >= 3 {
      forall k | 2 <= k < length - 1
        ensures p[k] == q[k]
      {
        assert p[k] == p[2..length][k - 2];
        assert q[k] == q[2..length][k - 2];
      }
      assert p[2..length - 1] == q[2..length - 1];
      assert p[length - 1] == p[2..length][length - 3];
      assert q[length - 1] == q[2..length][length - 3];
    }
  }

  /** A frame that carries the CRC of its type and payload as its last byte validates. */
  lemma FrameWithCrcValidates(sync: Byte, len: Byte, body: seq<Byte>, rest: seq<Byte>)
    ensures var frame := [sync, len] + body + [Crc8(body)];
            CrcValid(frame + rest, |frame|)
  {
    var frame := [sync, len] + body + [Crc8(body)];
    assert (frame + rest)[2..|frame| - 1] == body;
  }

  /** A valid frame with one byte of its type and payload changed fails the check, and so does
      one whose CRC byte is changed. */
  lemma CorruptedFrameRejected(p: seq<Byte>, length: nat, i: nat, v: Byte)
    requires length <= |p| && CrcValid(p, length)
    requires 2 <= i < length && v != p[i]
    ensures !CrcValid(p[i := v], length)
  {
    var q := p[i := v];
    if i < length - 1 {
      var span := p[2..length - 1];
      assert q[2..length - 1] == span[i - 2 := v];
      SingleByteErrorDetected(span, i - 2, v);
    } else {
      assert q[2..length - 1] == p[2..length - 1];
    }
  }

  // ---------------------------------------------------------------------------
  // 11-bit channel unpacking, exactly as written
  // ---------------------------------------------------------------------------

  /** Byte index and bit offset of channel `ch`'s field, `bitIndex / 8` and `bitIndex % 8` for
      `bitIndex = 11 * ch`, computed in the widths the source uses. */
  function ByteIndexOf(ch: bv8): (b: bv8)
    requires ch < 16
    ensures b as nat == 11 * (ch as nat) / 8
  {
    ((11 * (ch as bv16)) / 8) as bv8
  }

  function BitOffsetOf(ch: bv8): (off: bv8)
    requires ch < 16
    ensures off as nat == 11 * (ch as nat) % 8
  {
    ((11 * (ch as bv16)) % 8) as bv8
  }

  /** One iteration of `extractChannels`: bits from `payload[byteIndex]`, the next byte only when
      the offset exceeds 5, the third byte when the offset exceeds 5 or is 5 before the last
      channel, then the 11-bit mask. */
  function UnpackChannel(payload: seq<Byte>, ch: bv8): (v: bv16)
    requires ch < 16 && |payload| == ChannelBytesRead
    ensures v < 0x800
  {
    var byteIndex := ByteIndexOf(ch);
    var bitOffset := BitOffsetOf(ch);
    var low := (payload[byteIndex] as bv16) >> bitOffset;
    var mid := if bitOffset > 5 then low | ((payload[byteIndex + 1] as bv16) << (8 - bitOffset)) else low;
    var high := if bitOffset > 5 || (bitOffset == 5 && ch < 15)
                then mid | ((payload[byteIndex + 2] as bv16) << (16 - bitOffset))
                else mid;
    high & 0x7FF
  }

  /** All sixteen channel values the unpacker produces from the 21 payload bytes it reads. */
  function Unpack(payload: seq<Byte>): (vs: seq<bv16>)
    requires |payload| == ChannelBytesRead
    ensures |vs| == CrsfNumChannels
    ensures forall ch :: 0 <= ch < CrsfNumChannels ==> vs[ch] < 0x800
  {
    seq(CrsfNumChannels, ch requires 0 <= ch < CrsfNumChannels => UnpackChannel(payload, ch as bv8))
  }

  /** Octet `k` of the payload, 0 past its end. */
  function ByteAt(payload: seq<Byte>, k: nat): Byte
  {
    if k < |payload| then payload[k] else 0
  }

  /** Reference definition: the 11-bit field that starts at bit `11 * ch` of the payload read as
      one little-endian bit stream (bit `j` of the stream is bit `j % 8` of byte `j / 8`). */
  function Field11(payload: seq<Byte>, ch: nat): bv16
  {
    var byteIndex := 11 * ch / 8;
    var bitOffset := 11 * ch % 8;
    var window := (ByteAt(payload, byteIndex) as bv32)
                  | ((ByteAt(payload, byteIndex + 1) as bv32) << 8)
                  | ((ByteAt(payload, byteIndex + 2) as bv32) << 16);
    ((window >> bitOffset) & 0x7FF) as bv16
  }

  lemma Offset6Field(b0: Byte, b1: Byte, b2: Byte)
    ensures ((((b0 as bv16) >> 6) | ((b1 as bv16) << 2) | ((b2 as bv16) << 10)) & 0x7FF)
            == ((((b0 as bv32) | ((b1 as bv32) << 8) | ((b2 as bv32) << 16)) >> 6) & 0x7FF) as bv16
  {
  }

  lemma Offset7Field(b0: Byte, b1: Byte, b2: Byte)
    ensures ((((b0 as bv16) >> 7) | ((b1 as bv16) << 1) | ((b2 as bv16) << 9)) & 0x7FF)
            == ((((b0 as bv32) | ((b1 as bv32) << 8) | ((b2 as bv32) << 16)) >> 7) & 0x7FF) as bv16
  {
  }

  /** Channels 2, 5, 10 and 13, whose fields start at bit offset 6 or 7, come out as their full
      11-bit fields. */
  lemma UnpackFullChannels(payload: seq<Byte>)
    requires |payload| == ChannelBytesRead
    ensures UnpackChannel(payload, 2) == Field11(payload, 2)
    ensures UnpackChannel(payload, 5) == Field11(payload, 5)
    ensures UnpackChannel(payload, 10) == Field11(payload, 10)
    ensures UnpackChannel(payload, 13) == Field11(payload, 13)
  {
    FullChannel2(payload);
    FullChannel5(payload);
    FullChannel10(payload);
    FullChannel13(payload);
  }

  lemma FullChannel2(payload: seq<Byte>)
    requires |payload| == ChannelBytesRead
    ensures UnpackChannel(payload, 2) == Field11(payload, 2)
  {
    Offset6Field(payload[2], payload[3], payload[4]);
  }

  lemma FullChannel5(payload: seq<Byte>)
    requires |payload| == ChannelBytesRead
    ensures UnpackChannel(payload, 5) == Field11(payload, 5)
  {
    Offset7Field(payload[6], payload[7], payload[8]);
  }

  lemma FullChannel10(payload: seq<Byte>)
    requires |payload| == ChannelBytesRead
    ensures UnpackChannel(payload, 10) == Field11(payload, 10)
  {
    Offset6Field(payload[13], payload[14], payload[15]);
  }

  lemma FullChannel13(payload: seq<Byte>)
    requires |payload| == ChannelBytesRead
    ensures UnpackChannel(payload, 13) == Field11(payload, 13)
  {
    Offset7Field(payload[17], payload[18], payload[19]);
  }

  /** Every other channel is the first payload byte of its field shifted down by the bit offset,
      so it stays below `2^(8 - offset)`. */
  lemma UnpackTruncatedChannels(payload: seq<Byte>, ch: bv8)
    requires ch < 16 && |payload| == ChannelBytesRead
    requires BitOffsetOf(ch) <= 5
    ensures UnpackChannel(payload, ch) == (payload[ByteIndexOf(ch)] as bv16) >> BitOffsetOf(ch)
    ensures UnpackChannel(payload, ch) < (1 as bv16) << (8 - BitOffsetOf(ch))
  {
    ShiftedByteBound(payload[ByteIndexOf(ch)], BitOffsetOf(ch));
  }

  /** An octet shifted down by at most 5 already fits the 11-bit mask, below `2^(8 - off)`. */
  lemma ShiftedByteBound(b: Byte, off: bv8)
    requires off <= 5
    ensures ((b as bv16) >> off) & 0x7FF == (b as bv16) >> off
    ensures (b as bv16) >> off < (1 as bv16) << (8 - off)
  {
    if off == 0 {} else if off == 1 {} else if off == 2 {} else if off == 3 {} else if off == 4 {} else {}
  }

  /** An all-zero payload decodes to all-zero channels. */
  lemma UnpackZeros(payload: seq<Byte>)
    requires |payload| == ChannelBytesRead
    requires forall i :: 0 <= i < |payload| ==> payload[i] == 0
    ensures forall ch :: 0 <= ch < CrsfNumChannels ==> Unpack(payload)[ch] == 0
  {
    forall ch: bv8 | ch < 16
      ensures UnpackChannel(payload, ch) == 0
    {
      var b := ByteIndexOf(ch);
      assert payload[b] == 0;
      if b < 20 { assert payload[b + 1] == 0; }
      if b < 19 { assert payload[b + 2] == 0; }
    }
  }

  /** Sixteen channels of 0x7FF pack into bytes of 0xFF, yet channel 0 comes back as 0xFF:
      packing then unpacking is not the identity for this unpacker. */
  lemma UnpackAllOnesLosesBits()
    ensures Field11(seq(ChannelBytesRead, _ => 0xFF), 0) == 0x7FF
    ensures UnpackChannel(seq(ChannelBytesRead, _ => 0xFF), 0) == 0xFF
  {
    var p: seq<Byte> := seq(ChannelBytesRead, _ => 0xFF);
    assert p[0] == 0xFF && p[1] == 0xFF && p[2] == 0xFF;
  }

  /** Channel 0 set to 1000 (0x3E8), all others 0, packs as `E8 03 00 ...`; the unpacker returns
      232 (0xE8) for channel 0 and 0 for the rest. */
  lemma UnpackChannel0Is1000()
    ensures var p: seq<Byte> := [0xE8, 0x03] + Zeros(19);
            Field11(p, 0) == 1000 && UnpackChannel(p, 0) == 0xE8 &&
            forall ch: bv8 :: 1 <= ch < 16 ==> UnpackChannel(p, ch) == 0
  {
    var p: seq<Byte> := [0xE8, 0x03] + Zeros(19);
    assert p[0] == 0xE8 && p[1] == 0x03 && p[2] == 0;
    forall ch: bv8 | 1 <= ch < 16
      ensures UnpackChannel(p, ch) == 0
    {
      var b := ByteIndexOf(ch);
      assert b >= 1;
      assert BitOffsetOf(ch) <= 5 ==> b >= 2 || ch == 1;
      if ch == 1 {
        assert UnpackChannel(p, 1) == ((p[1] as bv16) >> 3) & 0x7FF;
      } else {
        assert p[b] == 0;
        if b < 20 { assert p[b + 1] == 0; }
        if b < 19 { assert p[b + 2] == 0; }
      }
    }
  }

  // ---------------------------------------------------------------------------
  // Decoded channel data and the decoder entry points
  // ---------------------------------------------------------------------------

  /** `ChannelData`: the caller-owned record `decodePacket` and `extractChannels` write into. */
  class ChannelData {
    const channels: array<bv16>
    var valid: bool

    ghost predicate Valid()
      reads this
    {
      channels.Length == CrsfNumChannels
    }

    /** A record whose prior contents are whatever the caller's storage held. */
    constructor (initial: seq<bv16>, initialValid: bool)
      requires |initial| == CrsfNumChannels
      ensures Valid() && fresh(channels)
      ensures channels[..] == initial && valid == initialValid
    {
      channels := new bv16[CrsfNumChannels](i requires 0 <= i < CrsfNumChannels => initial[i]);
      valid := initialValid;
    }
  }

  /** `extractChannels`: fills all sixteen slots in place from the first 21 payload bytes (the
      bytes past them never influence a slot) and always reports success. */
  method ExtractChannels(payload: seq<Byte>, data: ChannelData) returns (ok: bool)
    requires |payload| >= ChannelBytesRead && data.Valid()
    modifies data.channels
    ensures ok
    ensures data.channels[..] == Unpack(payload[..ChannelBytesRead])
  {
    ghost var read := payload[..ChannelBytesRead];
    var bitIndex: bv16 := 0;
    var ch: bv8 := 0;
    while ch < 16
      invariant ch <= 16
      invariant bitIndex == 11 * (ch as bv16)
      invariant forall k: bv8 :: k < ch ==> data.channels[k] == UnpackChannel(read, k)
      decreases 16 - ch as int
    {
      var byteIndex: bv8 := (bitIndex / 8) as bv8;
      var bitOffset: bv8 := (bitIndex % 8) as bv8;
      assert payload[byteIndex] == read[byteIndex];
      assert bitOffset > 5 ==> payload[byteIndex + 1] == read[byteIndex + 1];
      assert bitOffset > 5 || (bitOffset == 5 && ch < 15) ==> payload[byteIndex + 2] == read[byteIndex + 2];
      var value := (payload[byteIndex] as bv16) >> bitOffset;
      if bitOffset > 5 {
        value := value | ((payload[byteIndex + 1] as bv16) << (8 - bitOffset));
      }
      if bitOffset > 5 || (bitOffset == 5 && ch < 15) {
        value := value | ((payload[byteIndex + 2] as bv16) << (16 - bitOffset));
      }
      value := value & 0x7FF;
      assert value == UnpackChannel(read, ch);
      data.channels[ch] := value;
      bitIndex := bitIndex + 11;
      ch := ch + 1;
    }
    forall i | 0 <= i < CrsfNumChannels
      ensures data.channels[i] == Unpack(read)[i]
    {
      SmallRoundTrip(i);
    }
    ok := true;
  }

  lemma SmallRoundTrip(i: nat)
    requires i < 16
    ensures (i as bv8) as nat == i
  {
    if i < 4 {} else if i < 8 {} else if i < 12 {} else {}
  }

  /** `decodePacket` as a function: the channel values, or `None` when the frame is shorter than
      4 bytes, fails the CRC check or is not an RC-channels frame. The payload is taken from
      `packet[3..24)` whatever `length` says, so a 4-byte frame still yields channel values
      taken from bytes past its end. */
  function Decode(packet: seq<Byte>, length: nat): Option<seq<bv16>>
    requires |packet| == MaxPacketSize && length <= |packet|
  {
    if length < 4 then None
    else if !CrcValid(packet, length) then None
    else if packet[2] == CrsfFrameTypeRcChannelsPacked then Some(Unpack(packet[3..3 + ChannelBytesRead]))
    else None
  }

  /** `decodePacket`: clears `valid`, returns early on a short frame, a CRC mismatch or another
      frame type (leaving the channel slots as they were), and otherwise unpacks. */
  method DecodePacket(packet: seq<Byte>, length: nat, data: ChannelData) returns (ok: bool)
    requires |packet| == MaxPacketSize && length <= |packet| && data.Valid()
    modifies data, data.channels
    ensures data.Valid() && data.valid == ok
    ensures ok == (length >= 4 && CrcValid(packet, length) && packet[2] == CrsfFrameTypeRcChannelsPacked)
    ensures ok ==> Decode(packet, length) == Some(data.channels[..])
    ensures !ok ==> Decode(packet, length) == None && data.channels[..] == old(data.channels[..])
  {
    data.valid := false;
    if length < 4 {
      return false;
    }
    var frameType := packet[2];
    var crcOk := ValidateCrc(packet, length);
    if !crcOk {
      return false;
    }
    if frameType == CrsfFrameTypeRcChannelsPacked {
      var extracted := ExtractChannels(packet[3..], data);
      assert packet[3..][..ChannelBytesRead] == packet[3..3 + ChannelBytesRead];
      if extracted {
        data.valid := true;
        return true;
      }
    }
    return false;
  }

  /** Neither the sync byte nor the length byte `packet[1]` influences the decode. */
  lemma DecodeIgnoresHeader(packet: seq<Byte>, length: nat, sync: Byte, len: Byte)
    requires |packet| == MaxPacketSize && length <= |packet|
    ensures Decode(packet[0 := sync][1 := len], length) == Decode(packet, length)
  {
    var q := packet[0 := sync][1 := len];
    if length >= 3 {
      assert q[2..length] == packet[2..length];
    }
    CrcValidSpanOnly(packet, q, length);
    assert q[3..3 + ChannelBytesRead] == packet[3..3 + ChannelBytesRead];
  }

  /** End to end: an RC-channels frame built with its CRC decodes to the unpacked payload, and
      the same frame with any other CRC byte is rejected. */
  lemma DecodeBuiltFrame(sync: Byte, len: Byte, payload: seq<Byte>, crc: Byte, rest: seq<Byte>)
    requires |payload| == ChannelPayloadSize && |rest| == MaxPacketSize - 26
    ensures var body := [CrsfFrameTypeRcChannelsPacked] + payload;
            var packet := [sync, len] + body + [crc] + rest;
            Decode(packet, 26) == if crc == Crc8(body) then Some(Unpack(payload[..ChannelBytesRead])) else None
  {
    var body := [CrsfFrameTypeRcChannelsPacked] + payload;
    var packet := [sync, len] + body + [crc] + rest;
    assert packet[2..25] == body;
    assert packet[2] == CrsfFrameTypeRcChannelsPacked;
    assert packet[3..3 + ChannelBytesRead] == payload[..ChannelBytesRead];
  }

  // ---------------------------------------------------------------------------
  // Display mapping
  // ---------------------------------------------------------------------------

  /** `channelToMicroseconds`: Arduino's `map(v, 0, 2047, 988, 2012)`, i.e. `v*1024/2047 + 988`
      on non-negative operands. */
  function ChannelToMicroseconds(v: bv16): (us: nat)
    ensures v < 0x800 ==> 988 <= us <= 2012
  {
    (v as nat) * 1024 / 2047 + 988
  }

  /** End points and centre of the range. */
  lemma ChannelToMicrosecondsPoints()
    ensures ChannelToMicroseconds(0) == 988
    ensures ChannelToMicroseconds(1024) == 1500
    ensures ChannelToMicroseconds(2047) == 2012
  {
  }

  /** The mapping never decreases. */
  lemma ChannelToMicrosecondsMonotone(a: bv16, b: bv16)
    requires a as nat <= b as nat
    ensures ChannelToMicroseconds(a) <= ChannelToMicroseconds(b)
  {
    DivMonotone(a as nat * 1024, b as nat * 1024);
  }

  lemma DivMonotone(x: nat, y: nat)
    requires x <= y
    ensures x / 2047 <= y / 2047
  {
  }
}
