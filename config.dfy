/** Build-time constants of the sniffer (pin maps, Wi-Fi and debug settings are not modelled). */
module Config {
  import opened Bytes

  /** Number of frames the capture ring holds. */
  const PacketBufferSize: nat := 256
  /** Size of the raw data area of one captured frame. */
  const MaxPacketSize: nat := 64

  /** Centre frequency listened on, in Hz (2440 MHz), passed on as a `uint32_t`. */
  const ElrsFrequency: bv32 := 2_440_000_000
  /** LoRa modulation profile: SF6, 800 kHz bandwidth, coding rate 4/6 with long interleaving. */
  const LoraSpreadingFactor: Byte := 6
  const LoraBw0800: Byte := 0x18
  const LoraCrLi46: Byte := 0x06
  const LoraBandwidth: Byte := LoraBw0800
  const LoraCodingRate: Byte := LoraCrLi46
  const LoraPreambleLength: bv16 := 12
}
