/** The deterministic mock sensor: a TCP server that sends one 5-byte packet
    per loop iteration. Its voltage follows a +10 mV sawtooth between 3000 and
    4000 mV, overwritten by a 100 mV fault on every 50th packet after the
    300th. The random `noise` it computes is never added, so the sequence of
    packets depends on the packet count alone. */
module MockSensor {
  import opened Bytes
  import opened Packets
  import opened Frames
  import opened Gateway

  const START_MV: u16 := 3300
  const TEMP_C: byte := 45
  const SAW_STEP: int := 10
  const SAW_TOP: int := 4000
  const SAW_BOTTOM: u16 := 3000
  const FAULT_AFTER: int := 300
  const FAULT_EVERY: int := 50
  const FAULT_MV: u16 := 100

  /** `voltage_mv += 10; if (voltage_mv > 4000) voltage_mv = 3000;` on a `uint16_t`. */
  function Sawtooth(v: u16): (w: u16)
    ensures SAW_BOTTOM <= v <= SAW_TOP ==> SAW_BOTTOM <= w <= SAW_TOP
    ensures v + SAW_STEP <= SAW_TOP ==> w == v + SAW_STEP
    ensures SAW_TOP < v + SAW_STEP < 0x1_0000 ==> w == SAW_BOTTOM
    ensures v + SAW_STEP >= 0x1_0000 ==> w == v + SAW_STEP - 0x1_0000
  {
    var raised := WrapU16(v + SAW_STEP);
    if raised > SAW_TOP then SAW_BOTTOM else raised
  }

  /** Whether packet number `count` (counting from 1) carries the fault. */
  predicate IsFaultPacket(count: nat)
    ensures IsFaultPacket(count) ==> count >= FAULT_AFTER + FAULT_EVERY
  {
    count > FAULT_AFTER && count % FAULT_EVERY == 0
  }

  /** The voltage sent in packet `n` (n >= 1); `Voltage(0)` is the start value. */
  function Voltage(n: nat): (v: u16)
    ensures n <= FAULT_AFTER ==> SAW_BOTTOM <= v <= SAW_TOP
    ensures IsFaultPacket(n) ==> v == FAULT_MV
  {
    if n == 0 then START_MV
    else if IsFaultPacket(n) then FAULT_MV
    else Sawtooth(Voltage(n - 1))
  }

  /** The readings of the first `n` packets, in sending order. */
  function Readings(n: nat): (rs: seq<Reading>)
    ensures |rs| == n
    ensures forall i :: 0 <= i < n ==> rs[i] == ReadingOf(Voltage(i + 1), TEMP_C)
  {
    if n == 0 then [] else Readings(n - 1) + [ReadingOf(Voltage(n), TEMP_C)]
  }

  /** Packetise `[0xAA] [VH] [VL] [T] [CS]` into the buffer in place. */
  method FillPacket(buffer: array<byte>, voltageMv: u16, tempC: byte)
    requires buffer.Length == PACKET_SIZE
    modifies buffer
    ensures buffer[..] == Encode(ReadingOf(voltageMv, tempC))
  {
    buffer[0] := SYNC;
    buffer[1] := (voltageMv / 0x100) % 0x100;
    buffer[2] := voltageMv % 0x100;
    buffer[3] := tempC;
    buffer[4] := (SYNC as int + buffer[1] as int + buffer[2] as int + buffer[3] as int) % 0x100;
  }

  /** Packet `n` is sent after the first `n - 1`. */
  lemma SimulateStep(n: nat)
    requires n >= 1
    ensures EncodeAll(Readings(n)) == EncodeAll(Readings(n - 1)) + Encode(ReadingOf(Voltage(n), TEMP_C))
  {
    var r := ReadingOf(Voltage(n), TEMP_C);
    assert Readings(n) == Readings(n - 1) + [r];
    EncodeAllAppend(Readings(n - 1), r);
  }

  /** The simulation loop run for `n` iterations: each one bumps the packet
      counter, steps the voltage, fills the 5-byte buffer in place and sends
      it. Returns the bytes written to the socket and the final counter. */
  method Simulate(n: nat) returns (sent: seq<byte>, totalPacketsSent: nat)
    ensures totalPacketsSent == n
    ensures sent == EncodeAll(Readings(n))
  {
    var voltageMv: u16 := START_MV;
    var tempC: byte := TEMP_C;
    var buffer := new byte[PACKET_SIZE];
    totalPacketsSent := 0;
    sent := [];
    while totalPacketsSent < n
      invariant totalPacketsSent <= n
      invariant voltageMv == Voltage(totalPacketsSent)
      invariant sent == EncodeAll(Readings(totalPacketsSent))
    {
      totalPacketsSent := totalPacketsSent + 1;
      voltageMv := WrapU16(voltageMv + SAW_STEP);
      if voltageMv > SAW_TOP {
        voltageMv := SAW_BOTTOM;
      }
      if totalPacketsSent > FAULT_AFTER {
        if totalPacketsSent % FAULT_EVERY == 0 {
          voltageMv := FAULT_MV;
        }
      }
      assert voltageMv == Voltage(totalPacketsSent);
      FillPacket(buffer, voltageMv, tempC);
      SimulateStep(totalPacketsSent);
      sent := sent + buffer[..];
    }
  }

  /** Packets 1..300 all carry a voltage in [3000, 4000]. */
  lemma {:induction false} EarlyVoltagesInRange(n: nat)
    requires n <= FAULT_AFTER
    ensures SAW_BOTTOM <= Voltage(n) <= SAW_TOP
  {
    if n > 0 {
      EarlyVoltagesInRange(n - 1);
    }
  }

  /** Packet `n` carries 100 mV exactly on the fault schedule, and otherwise
      the sawtooth step of the previous voltage. */
  lemma FaultSchedule(n: nat)
    requires n >= 1
    ensures IsFaultPacket(n) ==> Voltage(n) == FAULT_MV
    ensures !IsFaultPacket(n) ==> Voltage(n) == Sawtooth(Voltage(n - 1))
    ensures n <= FAULT_AFTER ==> !IsFaultPacket(n)
  {
  }

  /** After the first fault (packet 350) the sawtooth restarts from 100 mV and
      never climbs back to 3000 mV before the next fault resets it: packet `n`
      carries 100 + 10 * (n mod 50) mV. */
  lemma {:induction false} VoltageAfterFirstFault(n: nat)
    requires n >= FAULT_AFTER + FAULT_EVERY
    ensures Voltage(n) == FAULT_MV + SAW_STEP * (n % FAULT_EVERY)
    decreases n
  {
    var r := n % FAULT_EVERY;
    if r == 0 {
      assert IsFaultPacket(n);
    } else {
      assert !IsFaultPacket(n);
      VoltageAfterFirstFault(n - 1);
      assert (n - 1) % FAULT_EVERY == r - 1;
      assert Voltage(n - 1) == FAULT_MV + SAW_STEP * (r - 1) <= SAW_TOP - SAW_STEP;
      assert Voltage(n) == Sawtooth(Voltage(n - 1)) == Voltage(n - 1) + SAW_STEP;
    }
  }

  /** The temperature is always 45, so the gateway never reports this sensor
      as critically hot; a fault packet is reported as low voltage. */
  lemma GatewayStatusOfPacket(n: nat)
    requires n >= 1
    ensures Classify(Voltage(n), TEMP_C) != CritTemp
    ensures IsFaultPacket(n) ==> Classify(Voltage(n), TEMP_C) == WarnLowVolt
    ensures n <= FAULT_AFTER ==> Classify(Voltage(n), TEMP_C) == (if Voltage(n) < LOW_VOLT_BELOW then WarnLowVolt else Ok)
  {
  }

  /** From the first fault on, every packet is reported as low voltage. */
  lemma {:induction false} LowVoltageAfterFirstFault(n: nat)
    requires n >= FAULT_AFTER + FAULT_EVERY
    ensures Classify(Voltage(n), TEMP_C) == WarnLowVolt
  {
    VoltageAfterFirstFault(n);
  }

  /** Sensor to gateway: the gateway forwards every one of the first `n`
      packets, in order, each as the frame for that packet's reading. */
  lemma {:induction false} SensorToGateway(n: nat)
    ensures |Bridge(EncodeAll(Readings(n)))| == n
    ensures forall i :: 0 <= i < n ==>
      Bridge(EncodeAll(Readings(n)))[i] == FrameFor(ReadingOf(Voltage(i + 1), TEMP_C))
  {
    BridgeEncodeAll(Readings(n));
  }
}
