/** The gateway's fake CAN frame `{ uint32 can_id; uint8 dlc; uint8 data[8] }`,
    its explicit little-endian 13-byte wire form, and the listeners' `<IB8s`
    decoder of that wire form. */
module Frames {
  import opened Bytes
  import opened Packets

  const CAN_ID: u32 := 0x100
  const DLC: byte := 8
  const PAYLOAD_SIZE: nat := 8
  const FRAME_SIZE: nat := 13

  datatype Frame = Frame(canId: u32, dlc: byte, data: seq<byte>)
  {
    ghost predicate WellFormed()
    {
      |data| == PAYLOAD_SIZE
    }
  }

  /** The frame the gateway builds for an accepted reading and its status:
      `data = [volt_hi, volt_lo, temp, status, 0, 0, 0, 0]`. */
  function Pack(reading: Reading, status: Status): (f: Frame)
    ensures f.WellFormed() && f.canId == CAN_ID && f.dlc == DLC
    ensures f.data[0] as int * 0x100 + f.data[1] as int == reading.VoltageMv()
    ensures f.data[2] == reading.temp && f.data[3] == status.Code()
    ensures f.data[4..] == [0, 0, 0, 0]
  {
    Frame(CAN_ID, DLC, [reading.voltHi, reading.voltLo, reading.temp, status.Code(), 0, 0, 0, 0])
  }

  /** The wire form: can_id little-endian, then dlc, then the payload. */
  function Serialize(f: Frame): (bytes: seq<byte>)
    requires f.WellFormed()
    ensures |bytes| == FRAME_SIZE
  {
    LeBytes32(f.canId) + [f.dlc] + f.data
  }

  /** Python's `struct.unpack("<IB8s", data)`, defined on exactly 13 bytes. */
  function Unpack(bytes: seq<byte>): (f: Frame)
    requires |bytes| == FRAME_SIZE
    ensures f.WellFormed() && f.dlc == bytes[4] && f.data == bytes[5..]
  {
    Frame(LeValue32(bytes[..4]), bytes[4], bytes[5..])
  }

  /** Decoding the serialised frame gives the frame back. */
  lemma {:induction false} UnpackSerialize(f: Frame)
    requires f.WellFormed()
    ensures Unpack(Serialize(f)) == f
  {
    var bytes := Serialize(f);
    assert bytes[..4] == LeBytes32(f.canId);
    LeValueOfBytes(f.canId);
  }

  /** Every 13-byte datagram is the serialisation of the frame it decodes to. */
  lemma {:induction false} SerializeUnpack(bytes: seq<byte>)
    requires |bytes| == FRAME_SIZE
    ensures Serialize(Unpack(bytes)) == bytes
  {
    LeBytesOfValue(bytes[..4]);
    assert bytes == bytes[..4] + [bytes[4]] + bytes[5..];
  }

  /** The gateway's frame on the wire: bytes 0..3 are `00 01 00 00`, byte 4
      is 8, bytes 5..12 the payload. */
  lemma PackedWireLayout(reading: Reading, status: Status)
    ensures Serialize(Pack(reading, status))
         == [0x00, 0x01, 0x00, 0x00, 8, reading.voltHi, reading.voltLo, reading.temp, status.Code(), 0, 0, 0, 0]
  {
  }
}
