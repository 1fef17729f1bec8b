/** The plain UDP listener: every 13-byte datagram is unpacked as `<IB8s`
    and its payload split into voltage, temperature and status; datagrams of
    any other length are ignored. */
module TestUdp {
  import opened Bytes
  import opened Packets
  import opened Frames
  import Gateway

  /** The fields the listener prints for one datagram. */
  datatype Decoded = Decoded(canId: u32, dlc: byte, voltage: u16, temp: byte, status: byte)

  /** The listener's handling of one datagram: `None` when it is ignored. */
  function Decode(data: seq<byte>): (r: Option<Decoded>)
    ensures r.Some? <==> |data| == FRAME_SIZE
  {
    if |data| != FRAME_SIZE then None
    else
      var frame := Unpack(data);
      Some(Decoded(frame.canId, frame.dlc, Be16(frame.data[0], frame.data[1]), frame.data[2], frame.data[3]))
  }

  /** The decoded fields sit where the frame layout puts them: id in bytes
      0..3 little-endian, dlc in byte 4, then voltage high, voltage low,
      temperature and status. */
  lemma DecodeFields(data: seq<byte>)
    requires |data| == FRAME_SIZE
    ensures Decode(data).value.canId
         == data[0] as int + 0x100 * data[1] as int + 0x1_0000 * data[2] as int + 0x100_0000 * data[3] as int
    ensures Decode(data).value.dlc == data[4]
    ensures Decode(data).value.voltage == data[5] as int * 0x100 + data[6] as int
    ensures Decode(data).value.temp == data[7] && Decode(data).value.status == data[8]
  {
  }

  /** Two datagrams that decode alike agree on their first nine bytes; the
      last four payload bytes are not looked at. */
  lemma {:induction false} DecodeDeterminesHeader(a: seq<byte>, b: seq<byte>)
    requires |a| == FRAME_SIZE && |b| == FRAME_SIZE
    requires Decode(a) == Decode(b)
    ensures a[..9] == b[..9]
  {
    var fa := Unpack(a);
    var fb := Unpack(b);
    SerializeUnpack(a);
    SerializeUnpack(b);
    assert fa.canId == fb.canId;
    assert Serialize(fa)[..4] == Serialize(fb)[..4];
    var va := Be16(fa.data[0], fa.data[1]);
    assert fa.data[0] == va / 0x100 == fb.data[0];
    assert fa.data[1] == va % 0x100 == fb.data[1];
    assert a[..9] == a[..4] + [a[4]] + fa.data[..4];
    assert b[..9] == b[..4] + [b[4]] + fb.data[..4];
  }

  /** Decoding what the gateway sends for a reading gives id 0x100, dlc 8
      and the reading's voltage, temperature and status. */
  lemma {:induction false} DecodeGatewayFrame(reading: Reading)
    ensures Decode(Gateway.FrameFor(reading))
         == Some(Decoded(CAN_ID, DLC, reading.VoltageMv(), reading.temp,
                         Classify(reading.VoltageMv(), reading.temp).Code()))
  {
    UnpackSerialize(Pack(reading, Classify(reading.VoltageMv(), reading.temp)));
  }

  /** End to end: for a packet the gateway accepts, the listener prints the
      packet's own voltage and temperature. */
  lemma {:induction false} DecodeForwardedPacket(p: Packet)
    requires Validate(p).Accepted?
    ensures Gateway.Emit(p) == [Gateway.FrameFor(Validate(p).reading)]
    ensures Decode(Gateway.Emit(p)[0]).value.voltage == p[1] as int * 0x100 + p[2] as int
    ensures Decode(Gateway.Emit(p)[0]).value.temp == p[3]
  {
    Gateway.ProcessSpec(p);
    var reading := Validate(p).reading;
    assert Encode(reading) == p;
    DecodeGatewayFrame(reading);
    assert Gateway.Emit(p) == [Gateway.FrameFor(reading)];
  }
}
