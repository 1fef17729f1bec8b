/** The gateway node: it reads 5-byte packets from the sensor's TCP stream,
    validates and classifies them, and broadcasts one 13-byte frame per valid
    packet on the UDP "virtual CAN bus". The sockets are modelled as objects
    holding what the peer will deliver (`TcpLink`) and what was sent
    (`UdpBus`); the lifecycle is an explicit state machine. */
module Gateway {
  import opened Bytes
  import opened Packets
  import opened Frames

  // ---------------------------------------------------------------------
  // Specification of the bridge on the byte stream
  // ---------------------------------------------------------------------

  /** Validation, classification and packing of one received packet. */
  function Process(p: Packet): (r: Option<Frame>)
    ensures r.Some? <==> p[0] == SYNC && p[4] == Checksum(p[1], p[2], p[3])
    ensures r.Some? ==> r.value.WellFormed() && r.value.canId == CAN_ID && r.value.dlc == DLC
  {
    match Validate(p)
    case Dropped(_) => None
    case Accepted(reading) => Some(Pack(reading, Classify(reading.VoltageMv(), reading.temp)))
  }

  /** The datagrams sent for one received packet: one frame or nothing. */
  function Emit(p: Packet): (out: seq<seq<byte>>)
    ensures |out| <= 1
    ensures |out| == 1 <==> p[0] == SYNC && p[4] == Checksum(p[1], p[2], p[3])
    ensures forall i :: 0 <= i < |out| ==> |out[i]| == FRAME_SIZE
  {
    match Process(p)
    case None => []
    case Some(f) => [Serialize(f)]
  }

  /** A packet yields a frame exactly when it passes validation; the frame has
      the fixed id and length, carries the packet's three data bytes and the
      classifier's status code for them, and goes out as one datagram. */
  lemma ProcessSpec(p: Packet)
    ensures Process(p).Some? <==> p[0] == SYNC && p[4] == Checksum(p[1], p[2], p[3])
    ensures Process(p).Some? ==>
      && Process(p).value.WellFormed() && Process(p).value.canId == CAN_ID && Process(p).value.dlc == DLC
      && Process(p).value.data[..3] == p[1..4]
      && Process(p).value.data[3] == Classify(Be16(p[1], p[2]), p[3]).Code()
      && Process(p).value.data[4..] == [0, 0, 0, 0]
    ensures Emit(p) == if Process(p).Some? then [Serialize(Process(p).value)] else []
  {
  }

  /** Everything the gateway broadcasts for the byte stream `s`: the stream is
      cut into consecutive 5-byte packets with no sync-byte search, each is
      processed on its own, and a trailing partial packet sends nothing. */
  function Bridge(s: seq<byte>): (out: seq<seq<byte>>)
    ensures |out| <= |s| / PACKET_SIZE
    ensures forall i :: 0 <= i < |out| ==> |out[i]| == FRAME_SIZE
    decreases |s|
  {
    if |s| < PACKET_SIZE then [] else Emit(s[..PACKET_SIZE]) + Bridge(s[PACKET_SIZE..])
  }

  /** Frames follow arrival order: appending one packet appends its frame. */
  lemma {:induction false} BridgeAppendPacket(s: seq<byte>, p: Packet)
    requires |s| % PACKET_SIZE == 0
    ensures Bridge(s + p) == Bridge(s) + Emit(p)
    decreases |s|
  {
    if |s| == 0 {
      assert (s + p)[..PACKET_SIZE] == p;
      assert (s + p)[PACKET_SIZE..] == [];
    } else {
      assert (s + p)[..PACKET_SIZE] == s[..PACKET_SIZE];
      assert (s + p)[PACKET_SIZE..] == s[PACKET_SIZE..] + p;
      BridgeAppendPacket(s[PACKET_SIZE..], p);
    }
  }

  /** The first 5 bytes of a stream are handled before the rest. */
  lemma BridgeCons(p: Packet, rest: seq<byte>)
    ensures Bridge(p + rest) == Emit(p) + Bridge(rest)
  {
    assert (p + rest)[..PACKET_SIZE] == p;
    assert (p + rest)[PACKET_SIZE..] == rest;
  }

  /** Fewer than 5 bytes produce no frame. */
  lemma BridgeOfShortStream(s: seq<byte>)
    requires |s| < PACKET_SIZE
    ensures Bridge(s) == []
  {
  }

  /** Handling the next packet moves its frame from "still to come" to "sent". */
  lemma BridgeStep(sent: seq<seq<byte>>, p: Packet, rest: seq<byte>)
    ensures (sent + Emit(p)) + Bridge(rest) == sent + Bridge(p + rest)
  {
    BridgeCons(p, rest);
  }

  /** A packet cut short by the end of the stream never produces a frame. */
  lemma {:induction false} BridgeIgnoresPartialTail(s: seq<byte>, tail: seq<byte>)
    requires |s| % PACKET_SIZE == 0 && |tail| < PACKET_SIZE
    ensures Bridge(s + tail) == Bridge(s)
    decreases |s|
  {
    if |s| == 0 {
      assert s + tail == tail;
    } else {
      assert (s + tail)[..PACKET_SIZE] == s[..PACKET_SIZE];
      assert (s + tail)[PACKET_SIZE..] == s[PACKET_SIZE..] + tail;
      BridgeIgnoresPartialTail(s[PACKET_SIZE..], tail);
    }
  }

  /** No resynchronisation: a packet with a bad sync byte is dropped whole and
      the next packet is simply the next 5 bytes of the stream. */
  lemma NoResyncAfterBadSync(s: seq<byte>)
    requires |s| >= PACKET_SIZE && s[0] != SYNC
    ensures Bridge(s) == Bridge(s[PACKET_SIZE..])
  {
  }

  /** At most one frame per 5 stream bytes, each a well-formed 13-byte frame
      with the fixed id and length. */
  lemma {:induction false} BridgeShape(s: seq<byte>)
    ensures |Bridge(s)| <= |s| / PACKET_SIZE
    ensures forall i :: 0 <= i < |Bridge(s)| ==>
      |Bridge(s)[i]| == FRAME_SIZE && Unpack(Bridge(s)[i]).canId == CAN_ID && Unpack(Bridge(s)[i]).dlc == DLC
    decreases |s|
  {
    if |s| >= PACKET_SIZE {
      var p := s[..PACKET_SIZE];
      BridgeShape(s[PACKET_SIZE..]);
      if f :| Process(p) == Some(f) {
        UnpackSerialize(f);
      }
      assert Bridge(s) == Emit(p) + Bridge(s[PACKET_SIZE..]);
    }
  }

  /** The byte stream carrying `readings` one packet after the other. */
  function EncodeAll(readings: seq<Reading>): (s: seq<byte>)
    ensures |s| == PACKET_SIZE * |readings|
  {
    if readings == [] then [] else Encode(readings[0]) + EncodeAll(readings[1..])
  }

  /** Sending one more packet appends its 5 bytes to the stream. */
  lemma {:induction false} EncodeAllAppend(readings: seq<Reading>, r: Reading)
    ensures EncodeAll(readings + [r]) == EncodeAll(readings) + Encode(r)
    decreases |readings|
  {
    if readings == [] {
      assert readings + [r] == [r];
    } else {
      assert (readings + [r])[1..] == readings[1..] + [r];
      EncodeAllAppend(readings[1..], r);
    }
  }

  /** The frame the gateway sends for a reading that arrived intact. */
  function FrameFor(reading: Reading): (bytes: seq<byte>)
    ensures |bytes| == FRAME_SIZE
  {
    Serialize(Pack(reading, Classify(reading.VoltageMv(), reading.temp)))
  }

  /** One frame per packet, in order, for a stream of well-formed packets. */
  lemma {:induction false} BridgeEncodeAll(readings: seq<Reading>)
    ensures |Bridge(EncodeAll(readings))| == |readings|
    ensures forall i :: 0 <= i < |readings| ==> Bridge(EncodeAll(readings))[i] == FrameFor(readings[i])
    decreases |readings|
  {
    if readings != [] {
      var p := Encode(readings[0]);
      var rest := EncodeAll(readings[1..]);
      BridgeCons(p, rest);
      ValidateEncode(readings[0]);
      assert Emit(p) == [FrameFor(readings[0])];
      BridgeEncodeAll(readings[1..]);
      assert Bridge(EncodeAll(readings)) == [FrameFor(readings[0])] + Bridge(rest);
    }
  }

  /** One inserted byte ahead of two good packets misframes both of them:
      neither is forwarded. */
  lemma InsertedByteMisframes()
    ensures Encode(ReadingOf(3300, 45)) == [0xAA, 0x0C, 0xE4, 0x2D, 0xC7]
    ensures Bridge([0x00] + Encode(ReadingOf(3300, 45)) + Encode(ReadingOf(3300, 45))) == []
  {
    var s: seq<byte> := [0x00] + Encode(ReadingOf(3300, 45)) + Encode(ReadingOf(3300, 45));
    assert s == [0x00, 0xAA, 0x0C, 0xE4, 0x2D, 0xC7, 0xAA, 0x0C, 0xE4, 0x2D, 0xC7];
    var rest := s[PACKET_SIZE..];
    assert rest == [0xC7, 0xAA, 0x0C, 0xE4, 0x2D, 0xC7];
    assert Emit(s[..PACKET_SIZE]) == [] by { assert s[..PACKET_SIZE][0] == 0x00; }
    assert Emit(rest[..PACKET_SIZE]) == [] by { assert rest[..PACKET_SIZE][0] == 0xC7; }
    assert Bridge(rest[PACKET_SIZE..]) == [] by { assert |rest[PACKET_SIZE..]| == 1; }
    assert Bridge(rest) == Emit(rest[..PACKET_SIZE]) + Bridge(rest[PACKET_SIZE..]);
    assert Bridge(s) == Emit(s[..PACKET_SIZE]) + Bridge(rest);
  }

  /** The packet for 3300 mV and 45 degrees: accepted, nominal status and
      payload `[0x0C, 0xE4, 0x2D, 0x00, 0, 0, 0, 0]`; with 0xE7 as its last
      byte it is dropped. */
  lemma WorkedExample()
    ensures Process([0xAA, 0x0C, 0xE4, 0x2D, 0xC7]) == Some(Frame(0x100, 8, [0x0C, 0xE4, 0x2D, 0x00, 0, 0, 0, 0]))
    ensures Validate([0xAA, 0x0C, 0xE4, 0x2D, 0xE7]) == Dropped(BadChecksum)
  {
    assert Reading(0x0C, 0xE4, 0x2D).VoltageMv() == 3300;
  }

  // ---------------------------------------------------------------------
  // The sockets
  // ---------------------------------------------------------------------

  /** Bytes a peer will deliver before the first read that fails: the link
      delivers its chunks in order, and an empty chunk (or running out of
      chunks) stands for `recv` returning 0 or -1. */
  function Received(chunks: seq<seq<byte>>): (r: seq<byte>)
    ensures r == [] <==> chunks == [] || chunks[0] == []
    ensures chunks != [] ==> |r| >= |chunks[0]|
  {
    if chunks == [] || chunks[0] == [] then [] else chunks[0] + Received(chunks[1..])
  }

  /** The chunks left after the first `k` bytes of the first chunk were read. */
  function Advance(chunks: seq<seq<byte>>, k: nat): seq<seq<byte>>
    requires chunks != [] && k <= |chunks[0]|
  {
    if k == |chunks[0]| then chunks[1..] else [chunks[0][k..]] + chunks[1..]
  }

  lemma ReceivedAdvance(chunks: seq<seq<byte>>, k: nat)
    requires chunks != [] && 0 < k <= |chunks[0]|
    ensures Received(chunks) == chunks[0][..k] + Received(Advance(chunks, k))
  {
    var c := chunks[0];
    var tail := Received(chunks[1..]);
    assert c != [];
    assert Received(chunks) == c + tail;
    if k == |c| {
      assert c[..k] == c;
    } else {
      var a := Advance(chunks, k);
      assert a == [c[k..]] + chunks[1..];
      assert a[0] == c[k..] && a[0] != [] && a[1..] == chunks[1..];
      assert Received(a) == c[k..] + tail;
      assert c == c[..k] + c[k..];
      assert c + tail == c[..k] + (c[k..] + tail);
    }
  }

  /** The TCP connection to the sensor. */
  class TcpLink {
    var chunks: seq<seq<byte>>
    var open: bool

    constructor (chunks: seq<seq<byte>>)
      ensures this.chunks == chunks && open
    {
      this.chunks := chunks;
      open := true;
    }

    /** `recv(sock, buf + offset, max, 0)`: copies at most `max` of the bytes
        that have arrived into `buf` at `offset`, leaving the rest of a chunk
        for the next call; returns 0 at end of stream. */
    method Recv(buf: array<byte>, offset: nat, max: nat) returns (result: int)
      requires open && 0 < max && offset + max <= buf.Length
      modifies this, buf
      ensures open
      ensures result <= 0 <==> Received(old(chunks)) == []
      ensures result <= 0 ==> chunks == old(chunks) && buf[..] == old(buf[..])
      ensures result > 0 ==> result <= max && Received(old(chunks)) == buf[offset..offset + result] + Received(chunks)
      ensures buf[..offset] == old(buf[..offset])
      ensures forall i :: 0 <= i < buf.Length && !(offset <= i < offset + result) ==> buf[i] == old(buf[i])
    {
      if chunks == [] || chunks[0] == [] {
        return 0;
      }
      var c := chunks[0];
      var k := if |c| < max then |c| else max;
      forall j | 0 <= j < k {
        buf[offset + j] := c[j];
      }
      assert buf[offset..offset + k] == c[..k];
      ReceivedAdvance(chunks, k);
      chunks := Advance(chunks, k);
      result := k;
    }

    method Close()
      modifies this
      ensures !open && chunks == old(chunks)
    {
      open := false;
    }
  }

  /** The UDP socket of the virtual CAN bus; `sendto`'s result is ignored by
      the gateway, so only the datagrams handed to it are recorded. */
  class UdpBus {
    var sent: seq<seq<byte>>
    var open: bool

    constructor ()
      ensures sent == [] && open
    {
      sent := [];
      open := true;
    }

    method SendTo(datagram: seq<byte>)
      requires open
      modifies this
      ensures open && sent == old(sent) + [datagram]
    {
      sent := sent + [datagram];
    }

    method Close()
      modifies this
      ensures !open && sent == old(sent)
    {
      open := false;
    }
  }

  /** The packed `fake_can_frame_t` the gateway fills field by field. */
  class FakeCanFrame {
    var canId: u32
    var dlc: byte
    const data: array<byte>

    constructor ()
      ensures fresh(data) && data.Length == PAYLOAD_SIZE
    {
      canId := 0;
      dlc := 0;
      data := new byte[PAYLOAD_SIZE];
    }

    function Value(): (f: Frame)
      reads this, data
      ensures f.WellFormed() == (data.Length == PAYLOAD_SIZE)
    {
      Frame(canId, dlc, data[..])
    }

    /** Fills the frame for an accepted reading: fixed id and length, the
        three data bytes, the status code, then four zero bytes. */
    method Load(reading: Reading, status: Status)
      requires data.Length == PAYLOAD_SIZE
      modifies this, data
      ensures Value() == Pack(reading, status)
    {
      canId := CAN_ID;
      dlc := DLC;
      data[0] := reading.voltHi;
      data[1] := reading.voltLo;
      data[2] := reading.temp;
      data[3] := status.Code();
      forall j | 4 <= j < PAYLOAD_SIZE {
        data[j] := 0;
      }
    }
  }

  // ---------------------------------------------------------------------
  // Lifecycle
  // ---------------------------------------------------------------------

  datatype Phase = Connecting | Streaming | Terminated(exitCode: int)

  datatype Event = ConnectFailed | Connected | PacketHandled | ReadFailed

  /** Connection attempts are retried forever; once streaming, a failed read
      ends the process with status 1 and there is no reconnection. */
  function Step(phase: Phase, event: Event): (next: Phase)
    ensures phase.Terminated? ==> next == phase
    ensures phase == Connecting ==> !next.Terminated?
    ensures phase == Streaming ==> next != Connecting
    ensures next == Terminated(1) <==> phase == Terminated(1) || (phase == Streaming && event == ReadFailed)
    ensures next == Streaming <==> (phase == Connecting && event == Connected) || (phase == Streaming && event != ReadFailed)
  {
    match (phase, event)
    case (Connecting, Connected) => Streaming
    case (Streaming, ReadFailed) => Terminated(1)
    case _ => phase
  }

  /** The phase after a sequence of events. */
  function Run(phase: Phase, events: seq<Event>): (r: Phase)
    ensures r == Connecting ==> phase == Connecting
    decreases |events|
  {
    if events == [] then phase else Run(Step(phase, events[0]), events[1..])
  }

  /** Termination is final. */
  lemma {:induction false} TerminatedIsFinal(code: int, events: seq<Event>)
    ensures Run(Terminated(code), events) == Terminated(code)
    decreases |events|
  {
    if events != [] {
      TerminatedIsFinal(code, events[1..]);
    }
  }

  /** Once connected, the gateway never goes back to connecting. */
  lemma {:induction false} NoReconnect(events: seq<Event>)
    ensures Run(Streaming, events) != Connecting
    decreases |events|
  {
    if events != [] {
      var next := Step(Streaming, events[0]);
      if next == Streaming {
        NoReconnect(events[1..]);
      } else {
        TerminatedIsFinal(next.exitCode, events[1..]);
      }
    }
  }

  /** Failed connection attempts alone never end the process. */
  lemma {:induction false} ConnectRetriesForever(n: nat)
    ensures Run(Connecting, seq(n, _ => ConnectFailed)) == Connecting
    decreases n
  {
    if n > 0 {
      assert seq(n, _ => ConnectFailed)[1..] == seq(n - 1, _ => ConnectFailed);
      ConnectRetriesForever(n - 1);
    }
  }

  /** The first index of `true` in `results`, or `|results|` when there is none. */
  function FirstSuccess(results: seq<bool>): (k: nat)
    ensures k <= |results|
    ensures k < |results| ==> results[k]
    ensures forall j :: 0 <= j < k ==> !results[j]
  {
    if results == [] || results[0] then 0 else 1 + FirstSuccess(results[1..])
  }

  // ---------------------------------------------------------------------
  // The gateway process
  // ---------------------------------------------------------------------

  /** Reading a slice off the front of what remains moves it to the end of
      what was read, leaving the input unchanged. */
  lemma ConcatRead(input: seq<byte>, got: seq<byte>, rest: seq<byte>, slice: seq<byte>, rest': seq<byte>)
    requires input == got + rest && rest == slice + rest'
    ensures input == (got + slice) + rest'
  {
    assert got + (slice + rest') == (got + slice) + rest';
  }

  /** The inner read loop: `recv` is asked for the `5 - bytes_read` bytes
      still missing until the buffer holds a whole packet. On success the
      buffer holds the next 5 bytes of the stream; on a failed read fewer
      than 5 bytes were left before it and none are left after. */
  method ReadPacket(link: TcpLink, buffer: array<byte>) returns (ok: bool)
    requires link.open && buffer.Length == PACKET_SIZE
    modifies link, buffer
    ensures link.open
    ensures ok <==> |Received(old(link.chunks))| >= PACKET_SIZE
    ensures ok ==> Received(old(link.chunks)) == buffer[..] + Received(link.chunks)
    ensures !ok ==> Received(link.chunks) == []
  {
    ghost var input := Received(link.chunks);
    var bytesRead := 0;
    while bytesRead < PACKET_SIZE
      invariant 0 <= bytesRead <= PACKET_SIZE
      invariant link.open
      invariant input == buffer[..bytesRead] + Received(link.chunks)
      decreases |Received(link.chunks)|
    {
      ghost var got := buffer[..bytesRead];
      ghost var rest := Received(link.chunks);
      var result := link.Recv(buffer, bytesRead, PACKET_SIZE - bytesRead);
      if result <= 0 {
        return false;
      }
      ghost var slice := buffer[bytesRead..bytesRead + result];
      ghost var rest' := Received(link.chunks);
      assert buffer[..bytesRead + result] == got + slice;
      ConcatRead(input, got, rest, slice, rest');
      bytesRead := bytesRead + result;
    }
    assert buffer[..bytesRead] == buffer[..];
    return true;
  }

  /** Validation, classification, packing and broadcast of one packet. */
  method HandlePacket(packet: Packet, frame: FakeCanFrame, bus: UdpBus)
    requires bus.open && frame.data.Length == PAYLOAD_SIZE
    modifies frame, frame.data, bus
    ensures bus.open && bus.sent == old(bus.sent) + Emit(packet)
  {
    var validated := Validate(packet);
    if validated.Dropped? {
      return;
    }
    var reading := validated.reading;
    var status := Classify(reading.VoltageMv(), reading.temp);
    frame.Load(reading, status);
    bus.SendTo(Serialize(frame.Value()));
  }

  /** One pass of the bridge loop: read a packet, then handle it. Either a
      whole packet was read and what was sent plus what the rest of the
      stream will produce is unchanged, or the read failed with fewer than 5
      bytes left, which produce nothing. */
  method BridgeOnce(link: TcpLink, bus: UdpBus, buffer: array<byte>, frame: FakeCanFrame) returns (ok: bool)
    requires link.open && bus.open
    requires buffer.Length == PACKET_SIZE && frame.data.Length == PAYLOAD_SIZE
    modifies link, bus, buffer, frame, frame.data
    ensures link.open && bus.open
    ensures ok ==> |Received(link.chunks)| < |Received(old(link.chunks))|
    ensures ok ==> bus.sent + Bridge(Received(link.chunks)) == old(bus.sent) + Bridge(Received(old(link.chunks)))
    ensures !ok ==> bus.sent == old(bus.sent) && Bridge(Received(old(link.chunks))) == []
  {
    ghost var before := Received(link.chunks);
    ok := ReadPacket(link, buffer);
    if !ok {
      BridgeOfShortStream(before);
      return;
    }
    var packet: Packet := buffer[..];
    ghost var after := Received(link.chunks);
    ghost var sent := bus.sent;
    HandlePacket(packet, frame, bus);
    BridgeStep(sent, packet, after);
  }

  /** The data bridge, from the first read after connecting: packets are
      read and handled one after the other until a read fails, which closes
      both sockets. What was broadcast is exactly `Bridge` of the bytes
      received. */
  method StreamLoop(link: TcpLink, bus: UdpBus) returns (phase: Phase)
    requires link.open && bus.open
    modifies link, bus
    ensures phase == Terminated(1) && !link.open && !bus.open
    ensures bus.sent == old(bus.sent) + Bridge(Received(old(link.chunks)))
  {
    phase := Streaming;
    var buffer := new byte[PACKET_SIZE];
    var frame := new FakeCanFrame();
    ghost var sent0 := bus.sent;
    ghost var input := Received(link.chunks);

    while true
      invariant phase == Streaming && link.open && bus.open
      invariant frame.data.Length == PAYLOAD_SIZE && buffer.Length == PACKET_SIZE
      invariant bus.sent + Bridge(Received(link.chunks)) == sent0 + Bridge(input)
      decreases |Received(link.chunks)|
    {
      var ok := BridgeOnce(link, bus, buffer, frame);
      if !ok {
        link.Close();
        bus.Close();
        phase := Step(phase, ReadFailed);
        return;
      }
      phase := Step(phase, PacketHandled);
    }
  }

  /** The gateway's `main`. `udpSocketOk` and `tcpSocketOk` are the outcomes
      of the two `socket` calls, `connectResults` those of successive
      `connect` attempts, and `chunks` what the sensor delivers once
      connected. The bus exists once its socket is created and the link once
      a connect succeeds. If every attempt fails the model stops while still
      connecting (the process would keep retrying). Otherwise it bridges the
      sensor stream until the first failed read, then closes both sockets
      and exits with status 1. Returns the final phase and every datagram
      broadcast. */
  method RunGateway(udpSocketOk: bool, tcpSocketOk: bool, connectResults: seq<bool>, chunks: seq<seq<byte>>)
    returns (phase: Phase, sent: seq<seq<byte>>)
    ensures !udpSocketOk || !tcpSocketOk ==> phase == Terminated(1) && sent == []
    ensures udpSocketOk && tcpSocketOk && FirstSuccess(connectResults) == |connectResults| ==>
      phase == Connecting && sent == []
    ensures udpSocketOk && tcpSocketOk && FirstSuccess(connectResults) < |connectResults| ==>
      phase == Terminated(1) && sent == Bridge(Received(chunks))
  {
    sent := [];
    if !udpSocketOk {
      return Terminated(1), sent;
    }
    var bus := new UdpBus();
    if !tcpSocketOk {
      return Terminated(1), sent;
    }
    phase := Connecting;
    var attempt := 0;
    while attempt < |connectResults| && !connectResults[attempt]
      invariant 0 <= attempt <= FirstSuccess(connectResults)
      invariant phase == Connecting
    {
      phase := Step(phase, ConnectFailed);
      attempt := attempt + 1;
    }
    if attempt == |connectResults| {
      return;
    }
    phase := Step(phase, Connected);
    var link := new TcpLink(chunks);
    phase := StreamLoop(link, bus);
    sent := bus.sent;
  }
}
