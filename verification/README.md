# Battery HIL bridge: a verified model

This project models, in Dafny, the data path of a small hardware-in-the-loop
battery bench.

A mock STM32 sensor (`mock_sensor.c`, or its degrading variant `n_mock_sensor.c`)
streams 5-byte packets `[0xAA] [V_H] [V_L] [TEMP] [CHECKSUM]` over TCP. The
gateway (`gateway.c`) then does the following:

- reads the packets back out of the byte stream;
- checks the sync byte and the additive mod-256 checksum;
- decodes the voltage and the temperature;
- runs a fixed-precedence safety classifier;
- broadcasts one 13-byte fake CAN frame `{u32 can_id; u8 dlc; u8 data[8]}`
  per valid packet on a UDP "virtual CAN bus".

Two listeners decode those frames with `<IB8s`:

- a plain printer (`test_udp.py`);
- an AI monitor (`ai_tester.py`). It keeps a voltage window and an anomaly
  history, requires anomalies to persist before it alerts, and attaches a
  reason and a recommended action to each alert.

Modules:

- `Bytes` (bytes.dfy): the fixed-width integer types, the big-endian voltage
  and the little-endian 32-bit id.
- `Packets` (packets.dfy): the packet, its checksum, validation and the
  classifier. These are pure functions.
- `Frames` (frames.dfy): the frame, its explicit little-endian serialisation
  and the `<IB8s` unpacking.
- `Gateway` (gateway.dfy): the stream specification `Bridge`. Beside it sit
  the imperative gateway: the sockets as classes (`TcpLink`, `UdpBus`), the
  frame struct as a class over an array (`FakeCanFrame`), and the read loop,
  the bridge loop and `main` as methods. The bridge loop and `main` are
  proved against `Bridge`, the read loop against the received byte stream
  `Received`, and packet handling against `Emit`. The
  connect/stream/terminate lifecycle is a state machine.
- `MockSensor` (mock_sensor.dfy) and `NoisySensor` (noisy_sensor.dfy): the two
  sensors' loops as methods. Each is proved to send exactly the packets of a
  voltage schedule. Each also has a lemma stating that the gateway forwards
  every one of those packets.
- `TestUdp` (test_udp.dfy) and `AiTester` (ai_tester.py's logic, in
  ai_tester.dfy): the listeners. The training and monitoring loops are
  methods that keep their sliding windows as `Window` objects updated in
  place.

The 5-byte packet for 3300 mV and 45 °C is `[AA 0C E4 2D C7]`, since
0xAA + 0x0C + 0xE4 + 0x2D = 455 and 455 mod 256 = 0xC7. A packet carrying
0xE7 in place of 0xC7 fails the checksum and is dropped
(`Gateway.WorkedExample`).

## Model

| member | source | states |
|---|---|---|
| Bytes.Be16 | gateway.c:147 | `(hi << 8) \| lo` is a `uint16_t` whose high byte is `hi` and whose low byte is `lo` |
| Bytes.LeBytes32 | gateway.c:38-42 | the packed `can_id` is four bytes, least significant first and most significant last |
| Bytes.LeValue32 | test_udp.py:18 | `<I` reads the first byte as the least significant and the fourth as the most significant |
| Bytes.LeValueOfBytes | test_udp.py:18 | reading back the four little-endian bytes of a 32-bit id gives the id |
| Bytes.LeBytesOfValue | test_udp.py:18 | every 4 bytes are the little-endian bytes of the value `<I` reads from them |
| Bytes.WrapU16 | n_mock_sensor.c:131 | assigning an int to a `uint16_t` keeps it modulo 2^16, and in-range values are unchanged |
| Packets.Checksum | gateway.c:140 | the checksum is congruent to 0xAA + b1 + b2 + b3 modulo 256 |
| Packets.Encode | mock_sensor.c:87-91 | the sensor packet starts with 0xAA, carries the voltage big-endian and the temperature, and ends with the checksum of bytes 1..3 |
| Packets.Validate | gateway.c:130-145 | the result is a sync drop iff byte 0 is not 0xAA; it is a checksum drop iff sync is right and byte 4 is not the checksum; an accepted packet is exactly the encoding of its reading |
| Packets.ValidateEncode | mock_sensor.c:87-91 | every packet a sensor builds is accepted by the gateway and decodes to the voltage and temperature it was built from |
| Packets.ReadingOf | mock_sensor.c:88-90 | splitting `v` into `v >> 8` and `v & 0xFF` gives back `v` and the temperature |
| Packets.ChecksumBitFlipDropped | gateway.c:140-145 | flipping any one bit of the checksum byte of an accepted packet makes it a checksum drop |
| Packets.Classify | gateway.c:154-160 | critical iff temp > 60; low-voltage iff temp <= 60 and voltage < 3100; OK iff temp <= 60 and voltage >= 3100 |
| Packets.Status.Code | gateway.c:32-34 | the status bytes 0x00, 0x01 and 0x02 stand for OK, low-voltage warning and critical temperature, each iff that status |
| Packets.StatusCodeInjective | gateway.c:32-34 | the three status codes are distinct |
| Packets.ClassifyBoundaries | gateway.c:156-158 | temperature 61 is critical at any voltage, while temperature 60 is not; 3100 mV is OK and 3099 mV warns |
| Frames.Pack | gateway.c:166-175 | the frame has id 0x100 and dlc 8; its data is `[volt_hi, volt_lo, temp, status, 0, 0, 0, 0]` |
| Frames.Serialize | gateway.c:181-188 | a frame goes on the wire as 13 bytes |
| Frames.Unpack | test_udp.py:18 | `<IB8s` takes dlc from byte 4 and the payload from bytes 5..12 |
| Frames.UnpackSerialize | gateway.c:38-42 | unpacking the serialised frame gives the frame back |
| Frames.SerializeUnpack | test_udp.py:16-18 | every 13-byte datagram is the serialisation of the frame it unpacks to |
| Frames.PackedWireLayout | gateway.c:38-42 | the gateway's datagram is `00 01 00 00 08 V_H V_L T S 00 00 00 00` |
| Gateway.Process | gateway.c:130-188 | a packet yields a frame iff its sync byte is 0xAA and its checksum matches bytes 1..3; that frame is well formed, with id 0x100 and dlc 8 |
| Gateway.Emit | gateway.c:130-188 | one packet sends at most one datagram, exactly one iff sync and checksum are right, and that datagram is 13 bytes long |
| Gateway.Bridge | gateway.c:109-207 | the stream is cut into consecutive 5-byte packets with no resynchronisation, each handled as `Emit` says, and a partial tail is dropped; this gives at most one 13-byte datagram per 5 stream bytes |
| Gateway.ProcessSpec | gateway.c:130-188 | a packet yields a frame iff sync and checksum are right; the frame carries the packet's bytes 1..3, the classifier's status and four zeros; exactly one datagram is sent for it, and none for a dropped packet |
| Gateway.BridgeAppendPacket | gateway.c:109-207 | a packet arriving after whole packets appends its frame, if any, after the earlier frames |
| Gateway.BridgeCons | gateway.c:109-124 | the first 5 stream bytes are handled before the rest |
| Gateway.BridgeOfShortStream | gateway.c:113-121 | fewer than 5 bytes produce no frame |
| Gateway.BridgeStep | gateway.c:109-207 | handling the next packet moves its frame from "still to come" to "sent" |
| Gateway.BridgeIgnoresPartialTail | gateway.c:113-121 | a packet cut short by the end of the stream sends nothing |
| Gateway.NoResyncAfterBadSync | gateway.c:130-133 | a bad sync byte drops the whole 5 bytes and the next packet is the next 5 bytes; there is no sync search |
| Gateway.BridgeShape | gateway.c:109-207 | at most one datagram per 5 stream bytes, each 13 bytes long with id 0x100 and dlc 8 |
| Gateway.EncodeAll | mock_sensor.c:86-93 | a stream of n packets is 5n bytes |
| Gateway.EncodeAllAppend | mock_sensor.c:93 | sending one more packet appends its 5 bytes |
| Gateway.FrameFor | gateway.c:166-188 | the datagram sent for an intact reading is 13 bytes |
| Gateway.BridgeEncodeAll | gateway.c:109-207 | for a stream of well-formed packets, exactly one frame per packet is sent, in arrival order |
| Gateway.InsertedByteMisframes | gateway.c:130-145 | one stray byte ahead of two good packets misframes both, and neither is forwarded |
| Gateway.WorkedExample | gateway.c:140-175 | `[AA 0C E4 2D C7]` becomes frame 0x100/8/`[0C E4 2D 00 0 0 0 0]`; `[AA 0C E4 2D E7]` is a checksum drop |
| Gateway.ReceivedAdvance | gateway.c:114 | consuming the front of the first chunk splits off exactly those bytes from what the peer still delivers |
| Gateway.TcpLink.constructor | gateway.c:83-100 | a connected link delivers the given chunks |
| Gateway.TcpLink.Recv | gateway.c:114-116 | `recv` returns at most the requested count, writes the bytes it returns at the offset and leaves every other byte of the buffer unchanged, and returns <= 0 exactly when the peer delivers nothing more |
| Gateway.TcpLink.Close | gateway.c:118 | closing leaves the pending chunks untouched |
| Gateway.UdpBus.constructor | gateway.c:66-75 | a new bus has sent nothing |
| Gateway.UdpBus.SendTo | gateway.c:181-188 | one `sendto` appends exactly one datagram |
| Gateway.UdpBus.Close | gateway.c:119 | closing sends nothing |
| Gateway.FakeCanFrame.constructor | gateway.c:51 | the frame struct has an 8-byte payload |
| Gateway.FakeCanFrame.Value | gateway.c:38-42 | the struct's value is well formed iff its payload is 8 bytes |
| Gateway.FakeCanFrame.Load | gateway.c:166-175 | filling the struct field by field gives exactly `Pack` of the reading and status |
| Gateway.Run | gateway.c:97-121 | the phase after a sequence of lifecycle events; the gateway is still connecting only if it started out connecting |
| Gateway.Step | gateway.c:97-121 | termination is final, connecting never terminates, streaming never reconnects; exit 1 iff a read fails while streaming; streaming iff connected or still reading |
| Gateway.TerminatedIsFinal | gateway.c:120 | nothing happens after the gateway returns |
| Gateway.NoReconnect | gateway.c:109-121 | once streaming, the gateway never goes back to connecting |
| Gateway.ConnectRetriesForever | gateway.c:97-100 | any number of failed connects leaves the gateway connecting |
| Gateway.FirstSuccess | gateway.c:97-100 | the connect loop stops at the first successful attempt; all earlier ones failed |
| Gateway.Received | gateway.c:113-121 | the bytes `recv` delivers, chunk by chunk in order, before its first 0 or -1; empty iff the first read fails, and otherwise at least the first chunk long |
| Gateway.ReadPacket | gateway.c:110-124 | the read loop succeeds iff at least 5 bytes arrive, and the buffer then holds exactly the next 5 stream bytes; otherwise the stream is exhausted |
| Gateway.HandlePacket | gateway.c:130-188 | handling a packet sends exactly `Emit(packet)` |
| Gateway.BridgeOnce | gateway.c:110-188 | one pass either consumes a packet and moves its frames from "to come" to "sent", or finds the stream too short to yield any frame and sends nothing |
| Gateway.StreamLoop | gateway.c:109-207 | the bridge loop sends exactly `Bridge` of the received stream, in order, then closes both sockets and exits with 1 |
| Gateway.RunGateway | gateway.c:44-210 | a socket-creation failure returns 1 with nothing sent; with no successful connect the gateway stays connecting; otherwise exactly `Bridge` of the received stream is sent and the gateway exits with 1. The UDP socket exists only once created, and the TCP link only once a connect succeeds |
| MockSensor.Voltage | mock_sensor.c:64-84 | the voltage of packet n: up to packet 300 it stays inside the sawtooth range [3000, 4000], and every fault packet carries 100 mV |
| MockSensor.IsFaultPacket | mock_sensor.c:78-80 | a fault needs more than 300 packets sent and a multiple of 50, so the first fault is packet 350 |
| MockSensor.Sawtooth | mock_sensor.c:72-73 | the step stays inside [3000, 4000]; below the top it adds 10; past 4000 it resets to 3000; an add that overflows 16 bits wraps modulo 2^16 |
| MockSensor.Readings | mock_sensor.c:59-93 | packet i+1 carries the voltage of step i+1 and 45 °C |
| MockSensor.FillPacket | mock_sensor.c:87-91 | the buffer holds exactly the encoding of the voltage and temperature |
| MockSensor.SimulateStep | mock_sensor.c:86-93 | packet n goes on the stream right after the first n-1, as the encoding of voltage n and 45 °C |
| MockSensor.Simulate | mock_sensor.c:59-93 | after n iterations the counter is n and the socket has received the encodings of the first n voltages, in order; the unused noise plays no part |
| MockSensor.EarlyVoltagesInRange | mock_sensor.c:59-84 | packets 1..300 all carry voltages in [3000, 4000] |
| MockSensor.FaultSchedule | mock_sensor.c:78-84 | a packet numbered above 300 and divisible by 50 carries 100 mV; every other packet carries the sawtooth step; no fault happens before packet 301 |
| MockSensor.VoltageAfterFirstFault | mock_sensor.c:72-84 | from packet 350 on, packet n carries 100 + 10·(n mod 50) mV |
| MockSensor.GatewayStatusOfPacket | mock_sensor.c:60 | at 45 °C no packet is critical; fault packets warn low voltage |
| MockSensor.LowVoltageAfterFirstFault | gateway.c:158-159 | from packet 350 on, every packet is classified low voltage |
| MockSensor.SensorToGateway | mock_sensor.c:86-93 | the gateway forwards every packet the sensor sends, in order, as the frame of its reading |
| NoisySensor.AddNoise | n_mock_sensor.c:130-131 | adding noise to the `uint16_t` voltage gives (v + noise) mod 65536 |
| NoisySensor.Sag | n_mock_sensor.c:138-142 | no sag up to packet 600; after that, the voltage drops by exactly 1 when above 200 and is unchanged otherwise, so the sag never takes it below 200 |
| NoisySensor.Fault | n_mock_sensor.c:150-156 | the voltage changes only after packet 300 and on a roll of 1 or 2, and then it becomes 100 |
| NoisySensor.Run | n_mock_sensor.c:104-156 | the state after the iterations fed by the noise values and fault rolls; both counters equal the number of iterations |
| NoisySensor.Step | n_mock_sensor.c:104-156 | each iteration increments both counters by one |
| NoisySensor.Readings | n_mock_sensor.c:104-173 | one reading per iteration |
| NoisySensor.CountersInStep | n_mock_sensor.c:105-106 | after n iterations both counters equal n |
| NoisySensor.ConstantTemperature | n_mock_sensor.c:94 | every packet carries 45 °C |
| NoisySensor.NoFaultEarly | n_mock_sensor.c:150 | before packet 301 the step is the sawtooth, noise and sag, whatever the roll |
| NoisySensor.RollsIrrelevantEarly | n_mock_sensor.c:150-156 | the first 300 iterations do not depend on the fault rolls |
| NoisySensor.RunSnoc | n_mock_sensor.c:104-173 | one more iteration extends the run by one step and the readings by the new reading |
| NoisySensor.SimulateStep | n_mock_sensor.c:104-173 | iteration i takes one step of the state and appends the packet of the new voltage to the stream |
| NoisySensor.FillPacket | n_mock_sensor.c:167-171 | the checksum summed over `buffer[0..3]` gives exactly the gateway's packet |
| NoisySensor.Tick | n_mock_sensor.c:114-156 | the in-place voltage update equals `Step` |
| NoisySensor.Simulate | n_mock_sensor.c:104-173 | the loop's final state is `Run` of the inputs and the socket receives the encodings of its readings, in order |
| NoisySensor.SensorToGateway | n_mock_sensor.c:167-173 | the gateway forwards every packet, in order, as the frame of its reading |
| TestUdp.Decode | test_udp.py:16 | a datagram is decoded iff it is 13 bytes long |
| TestUdp.DecodeFields | test_udp.py:18-26 | can_id is the little-endian u32 of bytes 0-3, dlc is byte 4, voltage is `payload[0] << 8 \| payload[1]`, then temp and status |
| TestUdp.DecodeDeterminesHeader | test_udp.py:18-26 | two datagrams decoding alike agree on their first nine bytes |
| TestUdp.DecodeGatewayFrame | test_udp.py:18-26 | the gateway's frame decodes to id 0x100, dlc 8, the reading's voltage and temperature, and its status |
| TestUdp.DecodeForwardedPacket | test_udp.py:18-28 | for an accepted packet, the listener shows the packet's own voltage and temperature |
| AiTester.ParseCanFrame | ai_tester.py:60-77 | can_id is the little-endian u32 of bytes 0-3; voltage's high and low bytes are bytes 5 and 6; temp and status are bytes 7 and 8 |
| AiTester.ParseGatewayFrame | ai_tester.py:60-77 | parsing the gateway's frame recovers id 0x100, the voltage, the temperature and the status |
| AiTester.Contains | ai_tester.py:105-109 | Python's `in` on strings: a match needs the part to be no longer than the text, and a prefix always matches |
| AiTester.AiRecommendation | ai_tester.py:100-111 | derating iff "Noise" occurs; safe mode iff it does not and "Voltage below" does; cooling iff neither does and "Temperature" does; otherwise "Monitor only" |
| AiTester.Join | ai_tester.py:97 | `" + ".join`: empty for no parts, the part itself for one part, and always starting with the first part |
| AiTester.ExplainAnomaly | ai_tester.py:80-97 | "Behavioral outlier" when no rule fires; the explanation starts with "Sudden voltage change" when that rule fires, and otherwise with "Noise growth detected" when that one does |
| AiTester.Reasons | ai_tester.py:85-96 | each finding adds its phrase and only findings add phrases; the list is empty iff there is no finding; the phrases come in test order: sudden change, noise, voltage, temperature |
| AiTester.ContainsConcat | ai_tester.py:97 | a substring of one part is a substring of the concatenation |
| AiTester.JoinContains | ai_tester.py:97 | a substring of one reason is a substring of the joined text |
| AiTester.JoinMissing | ai_tester.py:97 | a letter absent from every reason and from `" + "` is absent from the joined text |
| AiTester.NoiseKeyword | ai_tester.py:89-97 | the explanation contains "Noise" iff noise growth was found |
| AiTester.VoltageBelowKeyword | ai_tester.py:91-97 | the explanation contains "Voltage below" iff the voltage was below the learned range |
| AiTester.TemperatureKeyword | ai_tester.py:93-97 | the explanation contains "Temperature" iff the temperature was out of range |
| AiTester.RecommendationPriority | ai_tester.py:80-111 | the action for an explanation depends only on the findings: noise first, then low voltage, then temperature, else "Monitor only" |
| AiTester.LastN | ai_tester.py:136-138 | the window keeps the min(n, length) most recent items, in arrival order |
| AiTester.LastNSnoc | ai_tester.py:136-138 | trimming after every append keeps the same window as trimming once at the end |
| AiTester.Window.constructor | ai_tester.py:122 | a new window is empty |
| AiTester.Window.Push | ai_tester.py:136-138 | `append` then `pop(0)` when over capacity leaves the last `capacity` items, in order |
| AiTester.CountTrue | ai_tester.py:249 | `count(True)` is at most the length |
| AiTester.CountTrueAppend | ai_tester.py:249 | counts add over concatenation |
| AiTester.PushChangesCountByAtMostOne | ai_tester.py:244-250 | one new verdict raises the anomaly count by at most one, and a normal verdict never raises it; persistence can only switch on at an anomalous sample |
| AiTester.Samples | ai_tester.py:126-131 | at most one sample per datagram |
| AiTester.FeatureAt | ai_tester.py:134-147 | the feature of sample j carries its voltage and temperature, `delta_v` from the previous voltage, and a window of 1 to 20 voltages ending with its own |
| AiTester.SamplesSnoc | ai_tester.py:128-131 | a datagram that is not 13 bytes changes nothing; a 13-byte one appends its parse |
| AiTester.WindowOf | ai_tester.py:136-138 | the voltage window never holds more than 20 entries |
| AiTester.FeaturesOf | ai_tester.py:133-147 | the first sample adds no feature, and every later one adds exactly one |
| AiTester.SampleSnoc | ai_tester.py:133-152 | a new sample appends its voltage, pushes it into the window, and appends the feature `(voltage, voltage - prev_voltage, window, temp)` |
| AiTester.DeltasTelescope | ai_tester.py:134 | the deltas sum to the last voltage minus the first |
| AiTester.FeatureWindows | ai_tester.py:136-140 | each feature's window holds 1 to 20 voltages and ends with the feature's own voltage |
| AiTester.TrainOnce | ai_tester.py:126-152 | one datagram updates prev_voltage, the window and the features as the specification does |
| AiTester.Train | ai_tester.py:125-152 | the features are those of the datagrams consumed; there are at most 200; the loop stops exactly when 200 are collected |
| AiTester.Persistent | ai_tester.py:249 | at least 3 of the recent verdicts are anomalous, which needs a history of at least 3 verdicts |
| AiTester.HistoryOf | ai_tester.py:244-246 | the anomaly history holds the verdicts of the most recent samples, never more than 10 |
| AiTester.Verdicts | ai_tester.py:244 | one verdict per accepted sample, in order, each the model's `prediction == -1` |
| AiTester.EntryAt | ai_tester.py:270-281 | the row of accepted sample j carries its parsed voltage and its verdict, and is persistent iff at least 3 anomalies are among the recent verdicts up to it |
| AiTester.AlertFor | ai_tester.py:239-252 | persistent iff at least 3 of the recent verdicts are anomalous; the reason is then the explanation and the action the prioritised recommendation; otherwise both are empty |
| AiTester.Accepted | ai_tester.py:221-222 | only 13-byte datagrams are kept |
| AiTester.LogOf | ai_tester.py:226-281 | one row per accepted sample after the first |
| AiTester.AcceptedSnoc | ai_tester.py:221-222 | a datagram of another length leaves the monitor's state untouched |
| AiTester.AcceptedObservationSnoc | ai_tester.py:229-246 | a new sample extends the voltages and verdicts, and pushes its verdict into the 10-entry history |
| AiTester.LogOfSnoc | ai_tester.py:226-283 | a new sample appends exactly its own row |
| AiTester.MonitorWindows | ai_tester.py:229-246 | each sample after the first pushes its voltage into the 20-entry window and its verdict into the 10-entry history |
| AiTester.MonitorRow | ai_tester.py:226-281 | each sample after the first adds the row with its voltage, `voltage - prev_voltage`, the new window, its temperature, its verdict and the alert for the new history |
| AiTester.LogRow | ai_tester.py:226-281 | row k carries feature k, the model's verdict on that sample, and the alert for the last ten verdicts |
| AiTester.FirstRowsNeverPersistent | ai_tester.py:249 | the first two rows can never be persistent alerts |
| AiTester.Decide | ai_tester.py:239-252 | the alert columns start empty and are set exactly as the persistence decision says |
| AiTester.MonitorNext | ai_tester.py:226-281 | a sample after the first pushes both windows and logs exactly the row `LogOf` gives it |
| AiTester.MonitorOnce | ai_tester.py:219-283 | one datagram updates prev_voltage, both windows and the log exactly as `LastVoltage`, `WindowOf`, `HistoryOf` and `LogOf` of the accepted datagrams say |
| AiTester.MonitorLog | ai_tester.py:212-284 | one log row per accepted 13-byte datagram after the first, so never more rows than datagrams received |
| AiTester.Monitor | ai_tester.py:212-284 | starting from cleared windows, the monitoring loop's log is exactly `MonitorLog` of the observations |

## Left out

- Socket creation, `bind`/`listen`/`accept`, `connect`, `send`/`sendto`/`recv`/`recvfrom`.
  These are modelled as in-memory links, because they are real I/O.
  - A link holds the chunks its peer delivers.
  - An empty chunk, or running out of chunks, stands for `recv` returning 0 or -1.
  - The bus records the datagrams sent.
  - A failing `sendto` is not modelled. The gateway ignores its result anyway.
- Gateway.RunGateway: the connect outcomes are a finite list of inputs. When
  none of them succeeds, the model stops in the connecting phase. The program
  instead retries forever.
- `sleep`, `usleep` and `time.sleep`: timing is not modelled.
- `printf`, `fflush` and `print` output; the pandas CSV files; the
  commented-out plotting.
- The packed-struct memory layout of `fake_can_frame_t` is replaced by an
  explicit little-endian serialiser. The program's byte order is the host's.
- `rand`/`srand`: in `n_mock_sensor.c` the noise values and the fault rolls
  (1..100) are inputs. The float `noise_amplitude` and its growth every 100
  packets are left out: they only bound the noise. The deterministic
  sensor's `noise` is never applied, so it is left out.
- NoisySensor.Simulate and MockSensor.Simulate run a given number of
  iterations. The programs loop until killed.
- `np.std`: the feature keeps the voltage window itself instead of its
  standard deviation. This is floating point.
- The Isolation Forest (`fit`, `predict`, `decision_function`), and the anomaly
  score it logs. The model's verdict on each sample is an input, and the score
  is not modelled.
- `explain_anomaly`'s four tests: two floating-point tests against
  `BASELINE` (ai_tester.py:87, 89) and two integer range tests against the
  training data's lowest voltage and its temperature range (ai_tester.py:91,
  93). Their outcomes are an input (`Findings`); the text built from them and
  the recommendation are modelled.
- AiTester.Train takes a finite list of datagrams. When the list runs out
  before 200 features, the model returns early, while the program blocks on
  `recvfrom`.
- AiTester.Monitor: the wall-clock bound of the monitoring loop and
  `KeyboardInterrupt` are not modelled; the loop runs over a given list of
  datagrams.
- The `"Time"` column of the monitoring log is not modelled.
