/** The AI battery monitor's integer and list logic: the `<IB8s` frame parser,
    the 13-byte datagram filter, `prev_voltage` / `delta_v` bookkeeping, the
    two bounded sliding windows (`voltage_window`, `anomaly_history`), the
    persistence threshold, the reason text and the recommendation derived from
    it. The Isolation Forest's verdict on each sample and the outcome of the
    four floating-point tests behind the reason text are inputs. */
module AiTester {
  import opened Bytes
  import opened Packets
  import opened Frames
  import Gateway

  const TRAINING_SAMPLES: nat := 200
  const WINDOW_SIZE: nat := 20
  const ANOMALY_WINDOW: nat := 10
  const ANOMALY_THRESHOLD: nat := 3

  /** What `parse_can_frame` returns: `(can_id, voltage, temp, status)`. */
  datatype Sample = Sample(canId: u32, voltage: u16, temp: byte, status: byte)

  /** `parse_can_frame`: `struct.unpack("<IB8s", data)` (which rejects any
      other length) and the payload fields. */
  function ParseCanFrame(data: seq<byte>): (s: Sample)
    requires |data| == FRAME_SIZE
    ensures s.canId == LeValue32(data[..4])
    ensures s.voltage / 0x100 == data[5] && s.voltage % 0x100 == data[6]
    ensures s.temp == data[7] && s.status == data[8]
  {
    var frame := Unpack(data);
    Sample(frame.canId, Be16(frame.data[0], frame.data[1]), frame.data[2], frame.data[3])
  }

  /** Parsing what the gateway sends for a reading recovers id 0x100, the
      reading's voltage and temperature, and the gateway's status code. */
  lemma {:induction false} ParseGatewayFrame(reading: Reading)
    ensures ParseCanFrame(Gateway.FrameFor(reading))
         == Sample(CAN_ID, reading.VoltageMv(), reading.temp, Classify(reading.VoltageMv(), reading.temp).Code())
  {
    UnpackSerialize(Pack(reading, Classify(reading.VoltageMv(), reading.temp)));
  }

  // ---------------------------------------------------------------------
  // Reason text and recommendation
  // ---------------------------------------------------------------------

  /** `part` occurs in `text` starting at index `i`. */
  predicate OccursAt(text: string, part: string, i: int)
  {
    0 <= i <= |text| - |part| && text[i..i + |part|] == part
  }

  /** Python's `part in text` on strings. */
  predicate Contains(text: string, part: string)
    ensures Contains(text, part) ==> |part| <= |text|
    ensures part <= text ==> Contains(text, part)
  {
    assert part <= text ==> OccursAt(text, part, 0);
    exists i :: 0 <= i <= |text| - |part| && OccursAt(text, part, i)
  }

  const DERATE: string := "Recommend derating"
  const SAFE_MODE: string := "Recommend safe mode"
  const CHECK_COOLING: string := "Check cooling / thermal system"
  const MONITOR_ONLY: string := "Monitor only"

  /** `ai_recommendation`: the first matching keyword, in a fixed priority. */
  function AiRecommendation(reason: string): (action: string)
    ensures action == DERATE <==> Contains(reason, "Noise")
    ensures action == SAFE_MODE <==> !Contains(reason, "Noise") && Contains(reason, "Voltage below")
    ensures action == CHECK_COOLING
        <==> !Contains(reason, "Noise") && !Contains(reason, "Voltage below") && Contains(reason, "Temperature")
    ensures action == MONITOR_ONLY
        <==> !Contains(reason, "Noise") && !Contains(reason, "Voltage below") && !Contains(reason, "Temperature")
  {
    if Contains(reason, "Noise") then DERATE
    else if Contains(reason, "Voltage below") then SAFE_MODE
    else if Contains(reason, "Temperature") then CHECK_COOLING
    else MONITOR_ONLY
  }

  const SUDDEN_CHANGE: string := "Sudden voltage change"
  const NOISE_GROWTH: string := "Noise growth detected"
  const VOLTAGE_BELOW: string := "Voltage below learned normal range"
  const TEMPERATURE_OUT: string := "Temperature out of normal range"
  const BEHAVIORAL_OUTLIER: string := "Behavioral outlier"
  const SEPARATOR: string := " + "

  /** The outcomes of `explain_anomaly`'s four tests: two floating-point
      tests against the learned baseline and two range tests against the
      training data, taken as given. */
  datatype Findings = Findings(suddenChange: bool, noiseGrowth: bool, voltageBelow: bool, temperatureOut: bool)

  /** The position of a reason in `explain_anomaly`'s order of tests. */
  function Rank(reason: string): nat
  {
    if reason == SUDDEN_CHANGE then 0
    else if reason == NOISE_GROWTH then 1
    else if reason == VOLTAGE_BELOW then 2
    else 3
  }

  lemma RankOfReasons()
    ensures Rank(SUDDEN_CHANGE) == 0 && Rank(NOISE_GROWTH) == 1
    ensures Rank(VOLTAGE_BELOW) == 2 && Rank(TEMPERATURE_OUT) == 3
  {
  }

  /** The reasons collected by `explain_anomaly`, in test order. */
  function Reasons(f: Findings): (rs: seq<string>)
    ensures forall k :: 0 <= k < |rs| ==>
      || (rs[k] == SUDDEN_CHANGE && f.suddenChange)
      || (rs[k] == NOISE_GROWTH && f.noiseGrowth)
      || (rs[k] == VOLTAGE_BELOW && f.voltageBelow)
      || (rs[k] == TEMPERATURE_OUT && f.temperatureOut)
    ensures f.suddenChange ==> SUDDEN_CHANGE in rs
    ensures f.noiseGrowth ==> NOISE_GROWTH in rs
    ensures f.voltageBelow ==> VOLTAGE_BELOW in rs
    ensures f.temperatureOut ==> TEMPERATURE_OUT in rs
    ensures rs == [] <==> !f.suddenChange && !f.noiseGrowth && !f.voltageBelow && !f.temperatureOut
    ensures forall i, j :: 0 <= i < j < |rs| ==> Rank(rs[i]) < Rank(rs[j])
  {
    RankOfReasons();
    (if f.suddenChange then [SUDDEN_CHANGE] else [])
    + (if f.noiseGrowth then [NOISE_GROWTH] else [])
    + (if f.voltageBelow then [VOLTAGE_BELOW] else [])
    + (if f.temperatureOut then [TEMPERATURE_OUT] else [])
  }

  /** Python's `sep.join(parts)`. */
  function Join(parts: seq<string>, sep: string): (r: string)
    ensures parts == [] ==> r == ""
    ensures parts != [] ==> parts[0] <= r
    ensures |parts| == 1 ==> r == parts[0]
    decreases |parts|
  {
    if parts == [] then ""
    else if |parts| == 1 then parts[0]
    else parts[0] + sep + Join(parts[1..], sep)
  }

  /** `explain_anomaly`: the collected reasons joined with " + ", or
      "Behavioral outlier" when no test fired. */
  function ExplainAnomaly(f: Findings): (r: string)
    ensures !f.suddenChange && !f.noiseGrowth && !f.voltageBelow && !f.temperatureOut ==> r == BEHAVIORAL_OUTLIER
    ensures f.suddenChange ==> SUDDEN_CHANGE <= r
    ensures f.noiseGrowth && !f.suddenChange ==> NOISE_GROWTH <= r
  {
    var rs := Reasons(f);
    if rs == [] then BEHAVIORAL_OUTLIER else Join(rs, SEPARATOR)
  }

  lemma ContainsPrefix(text: string, part: string)
    requires |part| <= |text| && text[..|part|] == part
    ensures Contains(text, part)
  {
    assert OccursAt(text, part, 0);
  }

  lemma ContainsConcat(a: string, b: string, part: string)
    requires Contains(a, part) || Contains(b, part)
    ensures Contains(a + b, part)
  {
    if Contains(a, part) {
      var i :| 0 <= i <= |a| - |part| && OccursAt(a, part, i);
      assert (a + b)[i..i + |part|] == a[i..i + |part|];
      assert OccursAt(a + b, part, i);
    } else {
      var i :| 0 <= i <= |b| - |part| && OccursAt(b, part, i);
      assert (a + b)[|a| + i..|a| + i + |part|] == b[i..i + |part|];
      assert OccursAt(a + b, part, |a| + i);
    }
  }

  /** A text in which the first letter of `part` never occurs cannot contain it. */
  lemma MissingHead(text: string, part: string)
    requires |part| > 0 && part[0] !in text
    ensures !Contains(text, part)
  {
    forall i | 0 <= i <= |text| - |part|
      ensures !OccursAt(text, part, i)
    {
      assert text[i..i + |part|][0] == text[i];
    }
  }

  lemma {:induction false} JoinContains(parts: seq<string>, sep: string, k: nat, part: string)
    requires k < |parts| && Contains(parts[k], part)
    ensures Contains(Join(parts, sep), part)
    decreases |parts|
  {
    if |parts| > 1 {
      if k == 0 {
        ContainsConcat(parts[0], sep, part);
        ContainsConcat(parts[0] + sep, Join(parts[1..], sep), part);
      } else {
        JoinContains(parts[1..], sep, k - 1, part);
        ContainsConcat(parts[0] + sep, Join(parts[1..], sep), part);
      }
    }
  }

  lemma {:induction false} JoinMissing(parts: seq<string>, sep: string, c: char)
    requires c !in sep
    requires forall k :: 0 <= k < |parts| ==> c !in parts[k]
    ensures c !in Join(parts, sep)
    decreases |parts|
  {
    if |parts| > 1 {
      JoinMissing(parts[1..], sep, c);
    }
  }

  /** A keyword that starts one of the reasons that fired occurs in the
      explanation. */
  lemma ExplanationContains(f: Findings, phrase: string, keyword: string)
    requires phrase in Reasons(f)
    requires |keyword| <= |phrase| && phrase[..|keyword|] == keyword
    ensures Contains(ExplainAnomaly(f), keyword)
  {
    var rs := Reasons(f);
    var k :| 0 <= k < |rs| && rs[k] == phrase;
    ContainsPrefix(phrase, keyword);
    JoinContains(rs, SEPARATOR, k, keyword);
  }

  /** A keyword whose first letter occurs in none of the reasons that fired
      (nor in the separator, nor in "Behavioral outlier") is absent. */
  lemma ExplanationMissing(f: Findings, keyword: string)
    requires |keyword| > 0 && keyword[0] !in SEPARATOR && keyword[0] !in BEHAVIORAL_OUTLIER
    requires forall k :: 0 <= k < |Reasons(f)| ==> keyword[0] !in Reasons(f)[k]
    ensures !Contains(ExplainAnomaly(f), keyword)
  {
    if Reasons(f) != [] {
      JoinMissing(Reasons(f), SEPARATOR, keyword[0]);
    }
    MissingHead(ExplainAnomaly(f), keyword);
  }

  /** None of the keywords' first letters occurs in the separator or in
      "Behavioral outlier". */
  lemma FillerLetters()
    ensures 'N' !in SEPARATOR && 'V' !in SEPARATOR && 'T' !in SEPARATOR
    ensures 'N' !in BEHAVIORAL_OUTLIER && 'V' !in BEHAVIORAL_OUTLIER && 'T' !in BEHAVIORAL_OUTLIER
  {
  }

  /** 'N' (of "Noise") occurs only in the noise phrase. */
  lemma NoiseLetter()
    ensures 'N' !in SUDDEN_CHANGE && 'N' !in VOLTAGE_BELOW && 'N' !in TEMPERATURE_OUT
  {
  }

  /** 'V' (of "Voltage below") occurs only in the low-voltage phrase. */
  lemma VoltageLetter()
    ensures 'V' !in SUDDEN_CHANGE && 'V' !in NOISE_GROWTH && 'V' !in TEMPERATURE_OUT
  {
  }

  /** 'T' (of "Temperature") occurs only in the temperature phrase. */
  lemma TemperatureLetter()
    ensures 'T' !in SUDDEN_CHANGE && 'T' !in NOISE_GROWTH && 'T' !in VOLTAGE_BELOW
  {
  }

  /** "Noise" occurs in the explanation exactly when noise growth was found. */
  lemma {:induction false} NoiseKeyword(f: Findings)
    ensures Contains(ExplainAnomaly(f), "Noise") <==> f.noiseGrowth
  {
    if f.noiseGrowth {
      assert NOISE_GROWTH[..5] == "Noise";
      ExplanationContains(f, NOISE_GROWTH, "Noise");
    } else {
      NoiseLetter();
      FillerLetters();
      ExplanationMissing(f, "Noise");
    }
  }

  /** "Voltage below" occurs in the explanation exactly when the voltage was
      found below the learned range. */
  lemma {:induction false} VoltageBelowKeyword(f: Findings)
    ensures Contains(ExplainAnomaly(f), "Voltage below") <==> f.voltageBelow
  {
    if f.voltageBelow {
      assert VOLTAGE_BELOW[..13] == "Voltage below";
      ExplanationContains(f, VOLTAGE_BELOW, "Voltage below");
    } else {
      VoltageLetter();
      FillerLetters();
      ExplanationMissing(f, "Voltage below");
    }
  }

  /** "Temperature" occurs in the explanation exactly when the temperature
      was found outside the learned range. */
  lemma {:induction false} TemperatureKeyword(f: Findings)
    ensures Contains(ExplainAnomaly(f), "Temperature") <==> f.temperatureOut
  {
    if f.temperatureOut {
      assert TEMPERATURE_OUT[..11] == "Temperature";
      ExplanationContains(f, TEMPERATURE_OUT, "Temperature");
    } else {
      TemperatureLetter();
      FillerLetters();
      ExplanationMissing(f, "Temperature");
    }
  }

  /** The recommendation for an explained anomaly follows the tests in
      priority order: noise growth, then low voltage, then temperature; a
      sudden voltage change alone, or no finding, only asks to monitor. */
  lemma {:induction false} RecommendationPriority(f: Findings)
    ensures AiRecommendation(ExplainAnomaly(f))
         == if f.noiseGrowth then DERATE
            else if f.voltageBelow then SAFE_MODE
            else if f.temperatureOut then CHECK_COOLING
            else MONITOR_ONLY
  {
    NoiseKeyword(f);
    VoltageBelowKeyword(f);
    TemperatureKeyword(f);
  }

  // ---------------------------------------------------------------------
  // Sliding windows and persistence
  // ---------------------------------------------------------------------

  /** The last `n` elements of `s` (all of `s` when it is shorter). */
  function LastN<T>(s: seq<T>, n: nat): (r: seq<T>)
    ensures |r| == if |s| <= n then |s| else n
    ensures |s| <= n ==> r == s
    ensures |s| > n ==> r == s[|s| - n..]
  {
    if |s| <= n then s else s[|s| - n..]
  }

  /** Trimming before an append gives the same window as trimming after it:
      a bounded window always holds the most recent elements. */
  lemma LastNSnoc<T>(s: seq<T>, x: T, n: nat)
    ensures LastN(LastN(s, n) + [x], n) == LastN(s + [x], n)
  {
    if |s| > n && n > 0 {
      assert s[|s| - n..] + [x] == (s + [x])[|s| - n..];
      assert (s[|s| - n..] + [x])[1..] == (s + [x])[|s| + 1 - n..];
    }
  }

  /** A Python list used as a bounded queue: `append`, then `pop(0)` when it
      has grown past `capacity`. */
  class Window<T> {
    var items: seq<T>
    const capacity: nat

    ghost predicate Valid()
      reads this
    {
      |items| <= capacity
    }

    constructor (capacity: nat)
      ensures Valid() && this.capacity == capacity && items == []
    {
      this.capacity := capacity;
      items := [];
    }

    method Push(x: T)
      requires Valid()
      modifies this
      ensures Valid()
      ensures items == LastN(old(items) + [x], capacity)
    {
      items := items + [x];
      if |items| > capacity {
        items := items[1..];
      }
    }
  }

  /** `list.count(True)`. */
  function CountTrue(s: seq<bool>): (c: nat)
    ensures c <= |s|
  {
    if s == [] then 0 else (if s[0] then 1 else 0) + CountTrue(s[1..])
  }

  lemma {:induction false} CountTrueAppend(a: seq<bool>, b: seq<bool>)
    ensures CountTrue(a + b) == CountTrue(a) + CountTrue(b)
    decreases |a|
  {
    if a == [] {
      assert a + b == b;
    } else {
      assert (a + b)[0] == a[0] && (a + b)[1..] == a[1..] + b;
      CountTrueAppend(a[1..], b);
    }
  }

  /** Persistence: at least three anomalies among the recent predictions. */
  predicate Persistent(history: seq<bool>)
    ensures Persistent(history) ==> |history| >= ANOMALY_THRESHOLD
  {
    CountTrue(history) >= ANOMALY_THRESHOLD
  }

  /** Pushing a normal verdict into the history never raises the anomaly
      count; pushing an anomalous one raises it by at most one. So a
      persistent alert can only start on an anomalous sample. */
  lemma {:induction false} PushChangesCountByAtMostOne(h: seq<bool>, x: bool, n: nat)
    requires n > 0
    ensures !x ==> CountTrue(LastN(h + [x], n)) <= CountTrue(LastN(h, n))
    ensures x ==> CountTrue(LastN(h + [x], n)) <= CountTrue(LastN(h, n)) + 1
    ensures Persistent(LastN(h + [x], n)) && !Persistent(LastN(h, n)) ==> x
  {
    var w := LastN(h, n);
    LastNSnoc(h, x, n);
    CountTrueAppend(w, [x]);
    assert CountTrue([x]) == if x then 1 else 0;
    if |w| + 1 > n {
      assert w == [w[0]] + w[1..];
      CountTrueAppend([w[0]], w[1..]);
      CountTrueAppend(w[1..], [x]);
      assert (w + [x])[1..] == w[1..] + [x];
    }
  }

  // ---------------------------------------------------------------------
  // Features: the 13-byte filter, prev_voltage, delta_v and voltage_window
  // ---------------------------------------------------------------------

  /** One training or monitoring sample: `[voltage, delta_v, noise_std, temp]`,
      where `noise_std` is kept as the window it is the deviation of. */
  datatype Feature = Feature(voltage: u16, deltaV: int, window: seq<u16>, temp: byte)

  /** The samples parsed from the datagrams of exactly 13 bytes, in order. */
  function Samples(ds: seq<seq<byte>>): (ps: seq<Sample>)
    ensures |ps| <= |ds|
    decreases |ds|
  {
    if ds == [] then []
    else
      var n := |ds| - 1;
      Samples(ds[..n]) + (if |ds[n]| == FRAME_SIZE then [ParseCanFrame(ds[n])] else [])
  }

  function Voltages(ps: seq<Sample>): (vs: seq<u16>)
    ensures |vs| == |ps|
  {
    seq(|ps|, i requires 0 <= i < |ps| => ps[i].voltage)
  }

  /** The last voltage seen, `None` before any sample. */
  function LastVoltage(ps: seq<Sample>): Option<u16>
  {
    if ps == [] then None else Some(ps[|ps| - 1].voltage)
  }

  /** What a bounded window holds after the samples `xs`: the first sample
      only sets `prev_voltage`, so it is never pushed. */
  function Recent<T>(xs: seq<T>, n: nat): (w: seq<T>)
    ensures |w| <= n
  {
    if |xs| <= 1 then [] else LastN(xs[1..], n)
  }

  /** The `voltage_window` after the samples `ps`. */
  function WindowOf(ps: seq<Sample>): (w: seq<u16>)
    ensures |w| <= WINDOW_SIZE
  {
    Recent(Voltages(ps), WINDOW_SIZE)
  }

  /** The feature recorded for sample `j` (never for sample 0). */
  function FeatureAt(ps: seq<Sample>, j: nat): (r: Feature)
    requires 1 <= j < |ps|
    ensures r.voltage == ps[j].voltage && r.temp == ps[j].temp
    ensures r.voltage as int == ps[j - 1].voltage as int + r.deltaV
    ensures 1 <= |r.window| <= WINDOW_SIZE && r.window[|r.window| - 1] == r.voltage
  {
    assert Voltages(ps[..j + 1])[j] == ps[j].voltage;
    Feature(ps[j].voltage, ps[j].voltage as int - ps[j - 1].voltage as int, WindowOf(ps[..j + 1]), ps[j].temp)
  }

  /** All features recorded for the samples `ps`, one per sample after the first. */
  function FeaturesOf(ps: seq<Sample>): (fs: seq<Feature>)
    ensures |fs| == if ps == [] then 0 else |ps| - 1
  {
    seq(if ps == [] then 0 else |ps| - 1, k requires 0 <= k < |ps| - 1 => FeatureAt(ps, k + 1))
  }

  lemma RecentSnoc<T>(xs: seq<T>, x: T, n: nat)
    requires |xs| >= 1
    ensures Recent(xs + [x], n) == LastN(Recent(xs, n) + [x], n)
  {
    assert (xs + [x])[1..] == xs[1..] + [x];
    LastNSnoc(xs[1..], x, n);
  }

  /** One more sample: the window gains its voltage and, after the first
      sample, one feature is added whose delta is taken from the previous
      sample; earlier features do not change. */
  lemma SampleSnoc(ps: seq<Sample>, p: Sample)
    ensures Voltages(ps + [p]) == Voltages(ps) + [p.voltage]
    ensures ps != [] ==> WindowOf(ps + [p]) == LastN(WindowOf(ps) + [p.voltage], WINDOW_SIZE)
    ensures ps == [] ==> WindowOf(ps + [p]) == []
    ensures FeaturesOf(ps + [p])
         == FeaturesOf(ps)
          + if ps == [] then []
            else [Feature(p.voltage, p.voltage as int - ps[|ps| - 1].voltage as int,
                          LastN(WindowOf(ps) + [p.voltage], WINDOW_SIZE), p.temp)]
  {
    var qs := ps + [p];
    assert Voltages(qs) == Voltages(ps) + [p.voltage];
    if ps != [] {
      RecentSnoc(Voltages(ps), p.voltage, WINDOW_SIZE);
      FeaturesSnoc(ps, p);
      assert FeatureAt(qs, |ps|)
          == Feature(p.voltage, p.voltage as int - ps[|ps| - 1].voltage as int,
                     LastN(WindowOf(ps) + [p.voltage], WINDOW_SIZE), p.temp) by {
        assert qs[..|ps| + 1] == qs;
        assert qs[|ps| - 1] == ps[|ps| - 1];
      }
    }
  }

  /** Earlier features do not change when a sample is added. */
  lemma FeaturesSnoc(ps: seq<Sample>, p: Sample)
    requires ps != []
    ensures FeaturesOf(ps + [p]) == FeaturesOf(ps) + [FeatureAt(ps + [p], |ps|)]
  {
    var qs := ps + [p];
    forall k | 0 <= k < |ps| - 1
      ensures FeaturesOf(qs)[k] == FeaturesOf(ps)[k]
    {
      assert qs[..k + 2] == ps[..k + 2];
    }
    assert FeaturesOf(qs)[|ps| - 1] == FeatureAt(qs, |ps|);
  }

  /** A datagram of any length other than 13 leaves the samples, and so every
      list and variable derived from them, unchanged. */
  lemma SamplesSnoc(ds: seq<seq<byte>>, d: seq<byte>)
    ensures |d| != FRAME_SIZE ==> Samples(ds + [d]) == Samples(ds)
    ensures |d| == FRAME_SIZE ==> Samples(ds + [d]) == Samples(ds) + [ParseCanFrame(d)]
  {
    assert (ds + [d])[..|ds|] == ds;
  }

  /** The deltas telescope: their sum is the last voltage minus the first. */
  function SumDeltas(fs: seq<Feature>): int
  {
    if fs == [] then 0 else SumDeltas(fs[..|fs| - 1]) + fs[|fs| - 1].deltaV
  }

  lemma {:induction false} DeltasTelescope(ps: seq<Sample>)
    requires ps != []
    ensures SumDeltas(FeaturesOf(ps)) == ps[|ps| - 1].voltage as int - ps[0].voltage as int
    decreases |ps|
  {
    if |ps| > 1 {
      var n := |ps| - 1;
      assert ps == ps[..n] + [ps[n]];
      SampleSnoc(ps[..n], ps[n]);
      DeltasTelescope(ps[..n]);
      assert FeaturesOf(ps)[..|FeaturesOf(ps)| - 1] == FeaturesOf(ps[..n]);
    }
  }

  /** Every feature's window ends with its own voltage and holds at most 20
      voltages. */
  lemma {:induction false} FeatureWindows(ps: seq<Sample>, k: nat)
    requires k < |FeaturesOf(ps)|
    ensures 1 <= |FeaturesOf(ps)[k].window| <= WINDOW_SIZE
    ensures FeaturesOf(ps)[k].window[|FeaturesOf(ps)[k].window| - 1] == FeaturesOf(ps)[k].voltage
  {
    var qs := ps[..k + 2];
    assert qs == ps[..k + 1] + [ps[k + 1]];
    SampleSnoc(ps[..k + 1], ps[k + 1]);
  }

  // ---------------------------------------------------------------------
  // Phase 1: the training loop
  // ---------------------------------------------------------------------

  /** One received datagram in the training loop. */
  method TrainOnce(data: seq<byte>, voltageWindow: Window<u16>, prevVoltage: Option<u16>, features: seq<Feature>,
                   ghost ds: seq<seq<byte>>)
    returns (prevVoltage': Option<u16>, features': seq<Feature>)
    requires voltageWindow.Valid() && voltageWindow.capacity == WINDOW_SIZE
    requires prevVoltage == LastVoltage(Samples(ds))
    requires voltageWindow.items == WindowOf(Samples(ds))
    requires features == FeaturesOf(Samples(ds))
    modifies voltageWindow
    ensures voltageWindow.Valid()
    ensures prevVoltage' == LastVoltage(Samples(ds + [data]))
    ensures voltageWindow.items == WindowOf(Samples(ds + [data]))
    ensures features' == FeaturesOf(Samples(ds + [data]))
    ensures |features'| <= |features| + 1
  {
    SamplesSnoc(ds, data);
    prevVoltage', features' := prevVoltage, features;
    if |data| != FRAME_SIZE {
      return;
    }
    var sample := ParseCanFrame(data);
    SampleSnoc(Samples(ds), sample);
    match prevVoltage {
      case Some(prev) =>
        var deltaV := sample.voltage as int - prev as int;
        voltageWindow.Push(sample.voltage);
        features' := features + [Feature(sample.voltage, deltaV, voltageWindow.items, sample.temp)];
      case None =>
    }
    prevVoltage' := Some(sample.voltage);
  }

  /** Phase 1: read datagrams until 200 features are collected. The
      datagrams the socket delivers are the input; if they run out first,
      the loop stops there (the real loop would wait for more). */
  method Train(datagrams: seq<seq<byte>>) returns (features: seq<Feature>, consumed: nat)
    ensures consumed <= |datagrams|
    ensures features == FeaturesOf(Samples(datagrams[..consumed]))
    ensures |features| <= TRAINING_SAMPLES
    ensures consumed < |datagrams| ==> |features| == TRAINING_SAMPLES
    ensures forall c :: 0 <= c < consumed ==> |FeaturesOf(Samples(datagrams[..c]))| < TRAINING_SAMPLES
  {
    var voltageWindow := new Window<u16>(WINDOW_SIZE);
    var prevVoltage: Option<u16> := None;
    features := [];
    consumed := 0;
    while |features| < TRAINING_SAMPLES && consumed < |datagrams|
      invariant consumed <= |datagrams|
      invariant voltageWindow.Valid() && voltageWindow.capacity == WINDOW_SIZE
      invariant prevVoltage == LastVoltage(Samples(datagrams[..consumed]))
      invariant voltageWindow.items == WindowOf(Samples(datagrams[..consumed]))
      invariant features == FeaturesOf(Samples(datagrams[..consumed]))
      invariant |features| <= TRAINING_SAMPLES
      invariant forall c :: 0 <= c < consumed ==> |FeaturesOf(Samples(datagrams[..c]))| < TRAINING_SAMPLES
      decreases |datagrams| - consumed
    {
      ghost var ds := datagrams[..consumed];
      assert |FeaturesOf(Samples(ds))| < TRAINING_SAMPLES;
      prevVoltage, features := TrainOnce(datagrams[consumed], voltageWindow, prevVoltage, features, ds);
      assert datagrams[..consumed + 1] == ds + [datagrams[consumed]];
      forall c | 0 <= c < consumed + 1
        ensures |FeaturesOf(Samples(datagrams[..c]))| < TRAINING_SAMPLES
      {
        if c == consumed {
          assert datagrams[..c] == ds;
        }
      }
      consumed := consumed + 1;
    }
  }

  // ---------------------------------------------------------------------
  // Phase 3: the monitoring loop
  // ---------------------------------------------------------------------

  /** One received datagram with what the trained model says about it: the
      Isolation Forest's verdict (`prediction == -1`) and the outcome of
      `explain_anomaly`'s tests. */
  datatype Observation = Observation(data: seq<byte>, anomalous: bool, findings: Findings)

  /** The alert columns of a log row: `persistent`, `reason`, `action`. */
  datatype Alert = Alert(persistent: bool, reason: string, action: string)

  /** One row of `data_log` (the wall-clock time and the forest's score are
      not modelled). */
  datatype LogEntry = LogEntry(feature: Feature, anomaly: bool, alert: Alert)

  /** The persistence decision on the current `anomaly_history`: only a
      persistent anomaly is explained and given a recommendation, and the
      recommendation follows the findings in priority order. */
  function AlertFor(history: seq<bool>, f: Findings): (a: Alert)
    ensures a.persistent <==> CountTrue(history) >= ANOMALY_THRESHOLD
    ensures a.persistent ==> a.reason == ExplainAnomaly(f)
    ensures a.persistent ==> a.action == if f.noiseGrowth then DERATE
                                         else if f.voltageBelow then SAFE_MODE
                                         else if f.temperatureOut then CHECK_COOLING
                                         else MONITOR_ONLY
    ensures !a.persistent ==> a.reason == "" && a.action == ""
  {
    if Persistent(history) then
      RecommendationPriority(f);
      var reason := ExplainAnomaly(f);
      Alert(true, reason, AiRecommendation(reason))
    else
      Alert(false, "", "")
  }

  /** The observations whose datagram is 13 bytes long, in order. */
  function Accepted(obs: seq<Observation>): (acc: seq<Observation>)
    ensures |acc| <= |obs|
    ensures forall i :: 0 <= i < |acc| ==> |acc[i].data| == FRAME_SIZE
    decreases |obs|
  {
    if obs == [] then []
    else
      var n := |obs| - 1;
      Accepted(obs[..n]) + (if |obs[n].data| == FRAME_SIZE then [obs[n]] else [])
  }

  /** All observations are 13-byte datagrams. */
  ghost predicate AllFrames(acc: seq<Observation>)
  {
    forall i :: 0 <= i < |acc| ==> |acc[i].data| == FRAME_SIZE
  }

  function Parsed(acc: seq<Observation>): (ps: seq<Sample>)
    requires AllFrames(acc)
    ensures |ps| == |acc|
  {
    seq(|acc|, i requires 0 <= i < |acc| && |acc[i].data| == FRAME_SIZE => ParseCanFrame(acc[i].data))
  }

  function Verdicts(acc: seq<Observation>): (vs: seq<bool>)
    ensures |vs| == |acc|
    ensures forall i :: 0 <= i < |acc| ==> vs[i] == acc[i].anomalous
  {
    seq(|acc|, i requires 0 <= i < |acc| => acc[i].anomalous)
  }

  /** The `anomaly_history` after the accepted observations `acc`. */
  function HistoryOf(acc: seq<Observation>): (h: seq<bool>)
    ensures |h| <= ANOMALY_WINDOW
  {
    Recent(Verdicts(acc), ANOMALY_WINDOW)
  }

  /** The log row for accepted observation `j`: its feature, then the alert
      decision taken on the history that now ends with its verdict. */
  function EntryAt(acc: seq<Observation>, j: nat): (e: LogEntry)
    requires AllFrames(acc)
    requires 1 <= j < |acc|
    ensures e.feature.voltage == ParseCanFrame(acc[j].data).voltage
    ensures e.anomaly == acc[j].anomalous
    ensures e.alert.persistent <==> CountTrue(HistoryOf(acc[..j + 1])) >= ANOMALY_THRESHOLD
  {
    LogEntry(FeatureAt(Parsed(acc), j), acc[j].anomalous, AlertFor(HistoryOf(acc[..j + 1]), acc[j].findings))
  }

  /** The rows of `data_log` for the accepted observations `acc`, one per
      observation after the first. */
  function LogOf(acc: seq<Observation>): (log: seq<LogEntry>)
    requires AllFrames(acc)
    ensures |log| == if acc == [] then 0 else |acc| - 1
  {
    seq(if acc == [] then 0 else |acc| - 1, k requires 0 <= k < |acc| - 1 => EntryAt(acc, k + 1))
  }

  /** The rows of `data_log` after the observations `obs`. */
  function MonitorLog(obs: seq<Observation>): (log: seq<LogEntry>)
    ensures |log| == if Accepted(obs) == [] then 0 else |Accepted(obs)| - 1
    ensures |log| <= |obs|
  {
    LogOf(Accepted(obs))
  }

  lemma AcceptedSnoc(obs: seq<Observation>, o: Observation)
    ensures Accepted(obs + [o]) == Accepted(obs) + if |o.data| == FRAME_SIZE then [o] else []
  {
    assert (obs + [o])[..|obs|] == obs;
  }

  /** Appending an accepted observation appends its sample and its verdict,
      and pushes the verdict into the history. */
  lemma AcceptedObservationSnoc(acc: seq<Observation>, o: Observation)
    requires AllFrames(acc) && |o.data| == FRAME_SIZE
    ensures AllFrames(acc + [o])
    ensures Parsed(acc + [o]) == Parsed(acc) + [ParseCanFrame(o.data)]
    ensures Verdicts(acc + [o]) == Verdicts(acc) + [o.anomalous]
    ensures acc != [] ==> HistoryOf(acc + [o]) == LastN(HistoryOf(acc) + [o.anomalous], ANOMALY_WINDOW)
    ensures acc == [] ==> HistoryOf(acc + [o]) == []
  {
    assert Parsed(acc + [o]) == Parsed(acc) + [ParseCanFrame(o.data)];
    assert Verdicts(acc + [o]) == Verdicts(acc) + [o.anomalous];
    if acc != [] {
      RecentSnoc(Verdicts(acc), o.anomalous, ANOMALY_WINDOW);
    }
  }

  /** Earlier rows do not depend on later observations. */
  lemma EntryAtSnoc(acc: seq<Observation>, o: Observation, j: nat)
    requires AllFrames(acc) && |o.data| == FRAME_SIZE
    requires 1 <= j < |acc|
    ensures AllFrames(acc + [o])
    ensures EntryAt(acc + [o], j) == EntryAt(acc, j)
  {
    var acc' := acc + [o];
    AcceptedObservationSnoc(acc, o);
    assert acc'[..j + 1] == acc[..j + 1];
    assert Parsed(acc')[..j + 1] == Parsed(acc)[..j + 1];
  }

  /** The row of the newest observation. */
  lemma LastEntry(acc: seq<Observation>, o: Observation)
    requires AllFrames(acc) && |o.data| == FRAME_SIZE && acc != []
    ensures AllFrames(acc + [o])
    ensures EntryAt(acc + [o], |acc|)
         == LogEntry(FeatureAt(Parsed(acc + [o]), |acc|), o.anomalous, AlertFor(HistoryOf(acc + [o]), o.findings))
  {
    AcceptedObservationSnoc(acc, o);
    assert (acc + [o])[..|acc| + 1] == acc + [o];
  }

  /** An accepted observation appends one row, except the very first,
      which only sets `prev_voltage`; earlier rows do not change. */
  lemma {:induction false} LogOfSnoc(acc: seq<Observation>, o: Observation)
    requires AllFrames(acc) && |o.data| == FRAME_SIZE
    ensures AllFrames(acc + [o])
    ensures LogOf(acc + [o]) == LogOf(acc) + if acc == [] then [] else [EntryAt(acc + [o], |acc|)]
  {
    assert forall i :: 0 <= i < |acc| ==> (acc + [o])[i] == acc[i];
    assert AllFrames(acc + [o]);
    if acc != [] {
      var acc' := acc + [o];
      var log := LogOf(acc);
      var log' := LogOf(acc');
      forall k | 0 <= k < |log|
        ensures log'[k] == log[k]
      {
        EntryAtSnoc(acc, o, k + 1);
      }
      assert log' == log + [EntryAt(acc', |acc|)];
    }
  }

  /** What row `k` of the log says: the feature of the (k+1)-th accepted
      sample after the first, and an alert decided on the last ten verdicts
      up to and including its own. */
  lemma {:induction false} LogRow(obs: seq<Observation>, k: nat)
    requires k < |MonitorLog(obs)|
    ensures MonitorLog(obs)[k].feature == FeaturesOf(Parsed(Accepted(obs)))[k]
    ensures MonitorLog(obs)[k].anomaly == Accepted(obs)[k + 1].anomalous
    ensures MonitorLog(obs)[k].alert
         == AlertFor(LastN(Verdicts(Accepted(obs))[1..k + 2], ANOMALY_WINDOW), Accepted(obs)[k + 1].findings)
  {
    var acc := Accepted(obs);
    var vs := Verdicts(acc[..k + 2]);
    assert vs == Verdicts(acc)[..k + 2];
    assert vs[1..] == Verdicts(acc)[1..k + 2];
    assert MonitorLog(obs)[k] == EntryAt(acc, k + 1);
    assert HistoryOf(acc[..k + 2]) == LastN(vs[1..], ANOMALY_WINDOW);
    assert FeaturesOf(Parsed(acc))[k] == FeatureAt(Parsed(acc), k + 1);
  }

  /** An alert needs three anomalous verdicts among the last ten, so neither
      of the first two rows is ever a persistent anomaly. */
  lemma {:induction false} FirstRowsNeverPersistent(obs: seq<Observation>, k: nat)
    requires k < |MonitorLog(obs)| && k < 2
    ensures !MonitorLog(obs)[k].alert.persistent
  {
    LogRow(obs, k);
    var h := LastN(Verdicts(Accepted(obs))[1..k + 2], ANOMALY_WINDOW);
    assert |h| <= k + 1;
  }

  /** The first accepted observation only sets `prev_voltage`: both windows
      and the log stay empty. */
  lemma {:induction false} MonitorFirst(o: Observation)
    requires |o.data| == FRAME_SIZE
    ensures AllFrames([o])
    ensures Parsed([o]) == [ParseCanFrame(o.data)]
    ensures WindowOf(Parsed([o])) == WindowOf(Parsed([])) == []
    ensures HistoryOf([o]) == HistoryOf([]) == []
    ensures LogOf([o]) == LogOf([]) == []
  {
    AcceptedObservationSnoc([], o);
    assert [] + [o] == [o];
  }

  /** One accepted observation after the first pushes its voltage and its
      verdict into the two windows. */
  lemma {:induction false} MonitorWindows(acc: seq<Observation>, o: Observation)
    requires AllFrames(acc) && |o.data| == FRAME_SIZE && acc != []
    ensures AllFrames(acc + [o])
    ensures Parsed(acc + [o]) == Parsed(acc) + [ParseCanFrame(o.data)]
    ensures WindowOf(Parsed(acc + [o])) == LastN(WindowOf(Parsed(acc)) + [ParseCanFrame(o.data).voltage], WINDOW_SIZE)
    ensures HistoryOf(acc + [o]) == LastN(HistoryOf(acc) + [o.anomalous], ANOMALY_WINDOW)
  {
    AcceptedObservationSnoc(acc, o);
    var ps := Parsed(acc);
    var v := ParseCanFrame(o.data).voltage;
    assert Voltages(ps + [ParseCanFrame(o.data)]) == Voltages(ps) + [v];
    RecentSnoc(Voltages(ps), v, WINDOW_SIZE);
  }

  /** One accepted observation after the first adds the row built from the
      new voltage window, the delta to the previous voltage and the alert
      decision on the new history. */
  lemma {:induction false} MonitorRow(acc: seq<Observation>, o: Observation)
    requires AllFrames(acc) && |o.data| == FRAME_SIZE && acc != []
    ensures AllFrames(acc + [o])
    ensures LogOf(acc + [o])
         == LogOf(acc) + [LogEntry(Feature(ParseCanFrame(o.data).voltage,
                                           ParseCanFrame(o.data).voltage as int - LastVoltage(Parsed(acc)).value as int,
                                           WindowOf(Parsed(acc + [o])), ParseCanFrame(o.data).temp),
                                   o.anomalous, AlertFor(HistoryOf(acc + [o]), o.findings))]
  {
    var acc' := acc + [o];
    AcceptedObservationSnoc(acc, o);
    LogOfSnoc(acc, o);
    LastEntry(acc, o);
    var ps' := Parsed(acc');
    assert ps'[..|acc| + 1] == ps';
    assert ps'[|acc| - 1] == Parsed(acc)[|acc| - 1];
  }

  /** The persistence check on the updated history: the alert columns start
      empty and are filled in only for a persistent anomaly. */
  method Decide(history: seq<bool>, f: Findings) returns (persistent: bool, reason: string, action: string)
    ensures Alert(persistent, reason, action) == AlertFor(history, f)
  {
    persistent := false;
    reason := "";
    action := "";
    if CountTrue(history) >= ANOMALY_THRESHOLD {
      persistent := true;
      reason := ExplainAnomaly(f);
      action := AiRecommendation(reason);
    }
  }

  /** A 13-byte datagram after the first: both windows are pushed and the
      row with its feature and the alert decision is logged. */
  method MonitorNext(o: Observation, prev: u16, voltageWindow: Window<u16>, anomalyHistory: Window<bool>,
                     log: seq<LogEntry>, ghost acc: seq<Observation>)
    returns (log': seq<LogEntry>)
    requires AllFrames(acc) && |o.data| == FRAME_SIZE
    requires voltageWindow.Valid() && voltageWindow.capacity == WINDOW_SIZE
    requires anomalyHistory.Valid() && anomalyHistory.capacity == ANOMALY_WINDOW
    requires LastVoltage(Parsed(acc)) == Some(prev)
    requires voltageWindow.items == WindowOf(Parsed(acc))
    requires anomalyHistory.items == HistoryOf(acc)
    requires log == LogOf(acc)
    modifies voltageWindow, anomalyHistory
    ensures AllFrames(acc + [o])
    ensures voltageWindow.Valid() && anomalyHistory.Valid()
    ensures voltageWindow.items == WindowOf(Parsed(acc + [o]))
    ensures anomalyHistory.items == HistoryOf(acc + [o])
    ensures log' == LogOf(acc + [o])
  {
    assert acc != [];
    MonitorWindows(acc, o);
    MonitorRow(acc, o);
    ghost var window := WindowOf(Parsed(acc + [o]));
    ghost var history := HistoryOf(acc + [o]);
    var sample := ParseCanFrame(o.data);
    var deltaV := sample.voltage as int - prev as int;
    voltageWindow.Push(sample.voltage);
    assert voltageWindow.items == window;
    anomalyHistory.Push(o.anomalous);
    assert anomalyHistory.items == history;
    var persistent, reason, action := Decide(anomalyHistory.items, o.findings);
    var entry := LogEntry(Feature(sample.voltage, deltaV, voltageWindow.items, sample.temp),
                          o.anomalous, Alert(persistent, reason, action));
    assert entry == LogOf(acc + [o])[|acc| - 1] by {
      assert Alert(persistent, reason, action) == AlertFor(history, o.findings);
      assert Some(prev) == LastVoltage(Parsed(acc));
    }
    log' := log + [entry];
  }

  /** One received datagram in the monitoring loop. */
  method MonitorOnce(o: Observation, voltageWindow: Window<u16>, anomalyHistory: Window<bool>,
                     prevVoltage: Option<u16>, log: seq<LogEntry>, ghost acc: seq<Observation>)
    returns (prevVoltage': Option<u16>, log': seq<LogEntry>, ghost acc': seq<Observation>)
    requires AllFrames(acc)
    requires voltageWindow.Valid() && voltageWindow.capacity == WINDOW_SIZE
    requires anomalyHistory.Valid() && anomalyHistory.capacity == ANOMALY_WINDOW
    requires prevVoltage == LastVoltage(Parsed(acc))
    requires voltageWindow.items == WindowOf(Parsed(acc))
    requires anomalyHistory.items == HistoryOf(acc)
    requires log == LogOf(acc)
    modifies voltageWindow, anomalyHistory
    ensures acc' == acc + if |o.data| == FRAME_SIZE then [o] else []
    ensures AllFrames(acc')
    ensures voltageWindow.Valid() && anomalyHistory.Valid()
    ensures prevVoltage' == LastVoltage(Parsed(acc'))
    ensures voltageWindow.items == WindowOf(Parsed(acc'))
    ensures anomalyHistory.items == HistoryOf(acc')
    ensures log' == LogOf(acc')
  {
    prevVoltage', log', acc' := prevVoltage, log, acc;
    if |o.data| != FRAME_SIZE {
      return;
    }
    acc' := acc + [o];
    var sample := ParseCanFrame(o.data);
    match prevVoltage {
      case Some(prev) =>
        log' := MonitorNext(o, prev, voltageWindow, anomalyHistory, log, acc);
      case None =>
        assert |Parsed(acc)| == 0;
        MonitorFirst(o);
    }
    prevVoltage' := Some(sample.voltage);
  }

  /** Phase 3: every datagram received during the collection period is
      filtered, parsed, turned into a feature and logged with the alert
      decision. The windows start empty (`voltage_window.clear()`). */
  method Monitor(obs: seq<Observation>) returns (log: seq<LogEntry>)
    ensures log == MonitorLog(obs)
  {
    var voltageWindow := new Window<u16>(WINDOW_SIZE);
    var anomalyHistory := new Window<bool>(ANOMALY_WINDOW);
    var prevVoltage: Option<u16> := None;
    ghost var acc: seq<Observation> := [];
    log := [];
    var i := 0;
    while i < |obs|
      invariant 0 <= i <= |obs|
      invariant acc == Accepted(obs[..i]) && AllFrames(acc)
      invariant voltageWindow.Valid() && voltageWindow.capacity == WINDOW_SIZE
      invariant anomalyHistory.Valid() && anomalyHistory.capacity == ANOMALY_WINDOW
      invariant prevVoltage == LastVoltage(Parsed(acc))
      invariant voltageWindow.items == WindowOf(Parsed(acc))
      invariant anomalyHistory.items == HistoryOf(acc)
      invariant log == LogOf(acc)
    {
      assert obs[..i + 1] == obs[..i] + [obs[i]];
      AcceptedSnoc(obs[..i], obs[i]);
      prevVoltage, log, acc := MonitorOnce(obs[i], voltageWindow, anomalyHistory, prevVoltage, log, acc);
      i := i + 1;
    }
    assert obs[..i] == obs;
  }
}
