/** The degrading mock sensor: the same sawtooth as the deterministic one,
    then random noise added to the `uint16_t` voltage, a 1 mV sag per packet
    after 600 packets, and after 300 packets a fault (100 mV) whenever the
    fault dice roll 1 or 2 out of 100. The noise values and the dice rolls
    are inputs of the model. */
module NoisySensor {
  import opened Bytes
  import opened Packets
  import opened Gateway
  import MockSensor

  const START_MV: u16 := 3300
  const TEMP_C: byte := 45
  const SAG_AFTER: int := 600
  const SAG_FLOOR: int := 200
  const FAULT_AFTER: int := 300
  const FAULT_CHANCE_PERCENT: int := 2
  const FAULT_MV: u16 := 100

  /** A fault dice roll, `(rand() % 100) + 1`. */
  type Roll = x: int | 1 <= x <= 100 witness 1

  /** The loop's persistent variables. */
  datatype SensorState = SensorState(voltageMv: u16, totalPacketsSent: nat, degradationCounter: nat)

  const INITIAL: SensorState := SensorState(START_MV, 0, 0)

  /** `voltage_mv += noise` on a `uint16_t`: the sum taken modulo 2^16. */
  function AddNoise(v: u16, noise: int): (w: u16)
    ensures (w - (v + noise)) % 0x1_0000 == 0
    ensures 0 <= v + noise < 0x1_0000 ==> w == v + noise
  {
    WrapU16(v + noise)
  }

  /** The capacity-loss sag: after 600 packets, 1 mV less per packet while
      the voltage is above 200 mV. */
  function Sag(v: u16, degradationCounter: nat): (w: u16)
    ensures degradationCounter <= SAG_AFTER ==> w == v
    ensures degradationCounter > SAG_AFTER && v > SAG_FLOOR ==> w == v - 1
    ensures v <= SAG_FLOOR ==> w == v
    ensures v >= SAG_FLOOR ==> w >= SAG_FLOOR
  {
    if degradationCounter > SAG_AFTER && v > SAG_FLOOR then v - 1 else v
  }

  /** The hard fault: only after 300 packets, and only on a roll of 1 or 2. */
  function Fault(v: u16, totalPacketsSent: nat, roll: Roll): (w: u16)
    ensures w != v ==> totalPacketsSent > FAULT_AFTER && roll <= FAULT_CHANCE_PERCENT && w == FAULT_MV
    ensures totalPacketsSent > FAULT_AFTER && roll <= FAULT_CHANCE_PERCENT ==> w == FAULT_MV
  {
    if totalPacketsSent > FAULT_AFTER && roll <= FAULT_CHANCE_PERCENT then FAULT_MV else v
  }

  /** One loop iteration: both counters advance, then sawtooth, noise, sag
      and fault are applied in that order. */
  function Step(s: SensorState, noise: int, roll: Roll): (t: SensorState)
    ensures t.totalPacketsSent == s.totalPacketsSent + 1
    ensures t.degradationCounter == s.degradationCounter + 1
  {
    var total := s.totalPacketsSent + 1;
    var degradation := s.degradationCounter + 1;
    var v := MockSensor.Sawtooth(s.voltageMv);
    var v := AddNoise(v, noise);
    var v := Sag(v, degradation);
    var v := Fault(v, total, roll);
    SensorState(v, total, degradation)
  }

  /** The state after the iterations fed by `noise` and `rolls`. */
  function Run(noise: seq<int>, rolls: seq<Roll>): (s: SensorState)
    requires |noise| == |rolls|
    ensures s.totalPacketsSent == |noise| && s.degradationCounter == |noise|
    decreases |noise|
  {
    if noise == [] then INITIAL
    else
      var n := |noise| - 1;
      Step(Run(noise[..n], rolls[..n]), noise[n], rolls[n])
  }

  /** The readings sent, one per iteration, in order. */
  function Readings(noise: seq<int>, rolls: seq<Roll>): (rs: seq<Reading>)
    requires |noise| == |rolls|
    ensures |rs| == |noise|
    decreases |noise|
  {
    if noise == [] then []
    else
      var n := |noise| - 1;
      Readings(noise[..n], rolls[..n]) + [ReadingOf(Run(noise, rolls).voltageMv, TEMP_C)]
  }

  /** The two counters advance together, once per packet. */
  lemma {:induction false} CountersInStep(noise: seq<int>, rolls: seq<Roll>)
    requires |noise| == |rolls|
    ensures Run(noise, rolls).totalPacketsSent == |noise|
    ensures Run(noise, rolls).degradationCounter == |noise|
    decreases |noise|
  {
    if noise != [] {
      var n := |noise| - 1;
      CountersInStep(noise[..n], rolls[..n]);
    }
  }

  /** Every packet carries 45 degrees. */
  lemma {:induction false} ConstantTemperature(noise: seq<int>, rolls: seq<Roll>)
    requires |noise| == |rolls|
    ensures forall i :: 0 <= i < |noise| ==> Readings(noise, rolls)[i].temp == TEMP_C
    decreases |noise|
  {
    if noise != [] {
      var n := |noise| - 1;
      ConstantTemperature(noise[..n], rolls[..n]);
    }
  }

  /** During the first 300 packets no fault is injected: the voltage is the
      sawtooth, noise and sag steps of the previous one, whatever the rolls. */
  lemma NoFaultEarly(s: SensorState, noise: int, roll: Roll)
    requires s.totalPacketsSent < FAULT_AFTER
    ensures Step(s, noise, roll).voltageMv
         == Sag(AddNoise(MockSensor.Sawtooth(s.voltageMv), noise), s.degradationCounter + 1)
  {
  }

  /** The fault dice are irrelevant before packet 301. */
  lemma {:induction false} RollsIrrelevantEarly(noise: seq<int>, rolls: seq<Roll>, rolls': seq<Roll>)
    requires |noise| == |rolls| == |rolls'| <= FAULT_AFTER
    ensures Run(noise, rolls) == Run(noise, rolls')
    decreases |noise|
  {
    if noise != [] {
      var n := |noise| - 1;
      RollsIrrelevantEarly(noise[..n], rolls[..n], rolls'[..n]);
      CountersInStep(noise[..n], rolls[..n]);
    }
  }

  /** The n_mock_sensor packetiser: the checksum is the sum of the four bytes
      already in the buffer, sync byte included. */
  method FillPacket(buffer: array<byte>, voltageMv: u16, tempC: byte)
    requires buffer.Length == PACKET_SIZE
    modifies buffer
    ensures buffer[..] == Encode(ReadingOf(voltageMv, tempC))
  {
    buffer[0] := SYNC;
    buffer[1] := (voltageMv / 0x100) % 0x100;
    buffer[2] := voltageMv % 0x100;
    buffer[3] := tempC;
    buffer[4] := (buffer[0] as int + buffer[1] as int + buffer[2] as int + buffer[3] as int) % 0x100;
  }

  /** One more iteration at the end of the input extends the run by one step
      and the readings by the reading of the new state. */
  lemma RunSnoc(noise: seq<int>, rolls: seq<Roll>, x: int, roll: Roll)
    requires |noise| == |rolls|
    ensures Run(noise + [x], rolls + [roll]) == Step(Run(noise, rolls), x, roll)
    ensures Readings(noise + [x], rolls + [roll])
         == Readings(noise, rolls) + [ReadingOf(Step(Run(noise, rolls), x, roll).voltageMv, TEMP_C)]
  {
    assert (noise + [x])[..|noise|] == noise;
    assert (rolls + [roll])[..|rolls|] == rolls;
  }

  /** Iteration `i` of the loop: the state takes one `Step` and the stream
      gains the packet of the new voltage. */
  lemma SimulateStep(noise: seq<int>, rolls: seq<Roll>, i: nat)
    requires |noise| == |rolls| && i < |noise|
    ensures Run(noise[..i + 1], rolls[..i + 1]) == Step(Run(noise[..i], rolls[..i]), noise[i], rolls[i])
    ensures EncodeAll(Readings(noise[..i + 1], rolls[..i + 1]))
         == EncodeAll(Readings(noise[..i], rolls[..i]))
          + Encode(ReadingOf(Step(Run(noise[..i], rolls[..i]), noise[i], rolls[i]).voltageMv, TEMP_C))
  {
    var ns, rs := noise[..i], rolls[..i];
    assert noise[..i + 1] == ns + [noise[i]] && rolls[..i + 1] == rs + [rolls[i]];
    RunSnoc(ns, rs, noise[i], rolls[i]);
    var r := ReadingOf(Step(Run(ns, rs), noise[i], rolls[i]).voltageMv, TEMP_C);
    assert Readings(noise[..i + 1], rolls[..i + 1]) == Readings(ns, rs) + [r];
    EncodeAllAppend(Readings(ns, rs), r);
  }

  /** The voltage update of one loop iteration, after both counters have
      been incremented: sawtooth, noise, sag, then the fault dice. */
  method Tick(voltageMv: u16, totalPacketsSent: nat, degradationCounter: nat, noise: int, roll: Roll)
    returns (v: u16)
    requires totalPacketsSent >= 1 && degradationCounter >= 1
    ensures SensorState(v, totalPacketsSent, degradationCounter)
         == Step(SensorState(voltageMv, totalPacketsSent - 1, degradationCounter - 1), noise, roll)
  {
    v := WrapU16(voltageMv + MockSensor.SAW_STEP);
    if v > MockSensor.SAW_TOP {
      v := MockSensor.SAW_BOTTOM;
    }
    v := WrapU16(v + noise);
    if degradationCounter > SAG_AFTER {
      if v > SAG_FLOOR {
        v := v - 1;
      }
    }
    if totalPacketsSent > FAULT_AFTER {
      if roll <= FAULT_CHANCE_PERCENT {
        v := FAULT_MV;
      }
    }
  }

  /** The simulation loop run once per noise value and roll. Returns the
      bytes written to the socket and the final loop state. */
  method Simulate(noise: seq<int>, rolls: seq<Roll>) returns (sent: seq<byte>, state: SensorState)
    requires |noise| == |rolls|
    ensures state == Run(noise, rolls)
    ensures sent == EncodeAll(Readings(noise, rolls))
  {
    var voltageMv: u16 := START_MV;
    var tempC: byte := TEMP_C;
    var totalPacketsSent: nat := 0;
    var degradationCounter: nat := 0;
    var buffer := new byte[PACKET_SIZE];
    sent := [];
    var i := 0;
    while i < |noise|
      invariant 0 <= i <= |noise|
      invariant SensorState(voltageMv, totalPacketsSent, degradationCounter) == Run(noise[..i], rolls[..i])
      invariant sent == EncodeAll(Readings(noise[..i], rolls[..i]))
    {
      ghost var before := SensorState(voltageMv, totalPacketsSent, degradationCounter);
      totalPacketsSent := totalPacketsSent + 1;
      degradationCounter := degradationCounter + 1;
      voltageMv := Tick(voltageMv, totalPacketsSent, degradationCounter, noise[i], rolls[i]);
      assert SensorState(voltageMv, totalPacketsSent, degradationCounter) == Step(before, noise[i], rolls[i]);

      FillPacket(buffer, voltageMv, tempC);
      SimulateStep(noise, rolls, i);
      sent := sent + buffer[..];
      i := i + 1;
    }
    assert noise[..i] == noise && rolls[..i] == rolls;
    state := SensorState(voltageMv, totalPacketsSent, degradationCounter);
  }

  /** Sensor to gateway: every packet the noisy sensor sends passes the
      gateway's checks and is forwarded, in order, as the frame of its reading. */
  lemma {:induction false} SensorToGateway(noise: seq<int>, rolls: seq<Roll>)
    requires |noise| == |rolls|
    ensures |Bridge(EncodeAll(Readings(noise, rolls)))| == |noise|
    ensures forall i :: 0 <= i < |noise| ==>
      Bridge(EncodeAll(Readings(noise, rolls)))[i] == FrameFor(Readings(noise, rolls)[i])
  {
    BridgeEncodeAll(Readings(noise, rolls));
  }
}
