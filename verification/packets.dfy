/** The 5-byte sensor packet `[0xAA] [V_H] [V_L] [TEMP] [CHECKSUM]` and the
    gateway's per-packet logic on it: validation, decoding and the safety
    classifier. These are the expression-only steps of the gateway loop. */
module Packets {
  import opened Bytes

  const PACKET_SIZE: nat := 5
  const SYNC: byte := 0xAA

  /** Status codes carried in byte 3 of the frame payload. */
  const STATUS_OK: byte := 0x00
  const STATUS_WARN_LOW_VOLT: byte := 0x01
  const STATUS_CRIT_TEMP: byte := 0x02

  /** Classifier thresholds. */
  const CRIT_TEMP_ABOVE: int := 60
  const LOW_VOLT_BELOW: int := 3100

  /** A packet as it sits in the gateway's 5-byte receive buffer. */
  type Packet = s: seq<byte> | |s| == PACKET_SIZE witness [0, 0, 0, 0, 0]

  /** The additive modulo-256 checksum over the sync byte and the three data bytes. */
  function Checksum(voltHi: byte, voltLo: byte, temp: byte): (cs: byte)
    ensures (cs - (SYNC as int + voltHi as int + voltLo as int + temp as int)) % 0x100 == 0
  {
    (SYNC as int + voltHi as int + voltLo as int + temp as int) % 0x100
  }

  /** The reading carried by a valid packet. */
  datatype Reading = Reading(voltHi: byte, voltLo: byte, temp: byte)
  {
    /** `(volt_hi << 8) | volt_lo` as a `uint16_t`. */
    function VoltageMv(): u16
    {
      Be16(voltHi, voltLo)
    }
  }

  /** Why a packet was dropped. */
  datatype Discard = BadSync | BadChecksum

  datatype Validated = Accepted(reading: Reading) | Dropped(reason: Discard)

  /** The packet that carries `reading`, with its checksum in place. */
  function Encode(reading: Reading): (p: Packet)
    ensures p[0] == SYNC && p[4] == Checksum(p[1], p[2], p[3])
    ensures p[1] as int * 0x100 + p[2] as int == reading.VoltageMv() && p[3] == reading.temp
  {
    [SYNC, reading.voltHi, reading.voltLo, reading.temp,
     Checksum(reading.voltHi, reading.voltLo, reading.temp)]
  }

  /** Sync check first, then checksum check; on success the reading is the
      packet's three data bytes. */
  function Validate(p: Packet): (r: Validated)
    ensures r == Dropped(BadSync) <==> p[0] != SYNC
    ensures r == Dropped(BadChecksum) <==> p[0] == SYNC && p[4] != Checksum(p[1], p[2], p[3])
    ensures r.Accepted? ==> Encode(r.reading) == p
  {
    if p[0] != SYNC then Dropped(BadSync)
    else if p[4] != Checksum(p[1], p[2], p[3]) then Dropped(BadChecksum)
    else Accepted(Reading(p[1], p[2], p[3]))
  }

  /** Every packet built by `Encode` is accepted and gives back its reading. */
  lemma ValidateEncode(reading: Reading)
    ensures Validate(Encode(reading)) == Accepted(reading)
  {
  }

  /** The reading whose packet carries voltage `mv` and temperature `temp`
      (the sensor's `buffer[1] = (v >> 8) & 0xFF; buffer[2] = v & 0xFF`). */
  function ReadingOf(mv: u16, temp: byte): (r: Reading)
    ensures r.VoltageMv() == mv && r.temp == temp
  {
    Reading(mv / 0x100, mv % 0x100, temp)
  }

  /** The single-bit masks of a byte, bit 0 first. */
  const BIT_MASKS: seq<bv8> := [1, 2, 4, 8, 16, 32, 64, 128]

  /** Flip bit `k` of a byte. */
  function FlipBit(x: byte, k: nat): (y: byte)
    requires k < 8
  {
    ((x as bv8) ^ BIT_MASKS[k]) as int
  }

  lemma FlipBitChanges(x: byte, k: nat)
    requires k < 8
    ensures FlipBit(x, k) != x
  {
    var m := BIT_MASKS[k];
    assert m != 0;
    assert (x as bv8) ^ m != x as bv8;
  }

  /** Corrupting any single bit of the checksum byte of an accepted packet
      makes the gateway drop it. */
  lemma ChecksumBitFlipDropped(p: Packet, k: nat)
    requires k < 8
    requires Validate(p).Accepted?
    ensures Validate(p[4 := FlipBit(p[4], k)]) == Dropped(BadChecksum)
  {
    FlipBitChanges(p[4], k);
  }

  /** The safety status of a reading. */
  datatype Status = Ok | WarnLowVolt | CritTemp
  {
    function Code(): (c: byte)
      ensures c <= 2
      ensures c == STATUS_OK <==> this == Ok
      ensures c == STATUS_WARN_LOW_VOLT <==> this == WarnLowVolt
      ensures c == STATUS_CRIT_TEMP <==> this == CritTemp
    {
      match this
      case Ok => STATUS_OK
      case WarnLowVolt => STATUS_WARN_LOW_VOLT
      case CritTemp => STATUS_CRIT_TEMP
    }
  }

  /** Fixed precedence: hot beats low voltage, which beats nominal. */
  function Classify(voltageMv: u16, temp: byte): (s: Status)
    ensures s == CritTemp <==> temp > CRIT_TEMP_ABOVE
    ensures s == WarnLowVolt <==> temp <= CRIT_TEMP_ABOVE && voltageMv < LOW_VOLT_BELOW
    ensures s == Ok <==> temp <= CRIT_TEMP_ABOVE && voltageMv >= LOW_VOLT_BELOW
  {
    if temp > CRIT_TEMP_ABOVE then CritTemp
    else if voltageMv < LOW_VOLT_BELOW then WarnLowVolt
    else Ok
  }

  /** The status codes are distinct, so the code determines the status. */
  lemma StatusCodeInjective(a: Status, b: Status)
    ensures a.Code() == b.Code() <==> a == b
  {
  }

  /** The classifier's boundary values. */
  lemma ClassifyBoundaries(voltageMv: u16, temp: byte)
    ensures Classify(voltageMv, 61) == CritTemp
    ensures temp <= 60 ==> Classify(3100, temp) == Ok
    ensures temp <= 60 ==> Classify(3099, temp) == WarnLowVolt
    ensures voltageMv >= 3100 ==> Classify(voltageMv, 60) == Ok
  {
  }
}
