/** setup(): one wake cycle of the sensor node. Each stage runs only when the one before
    it succeeded; the first failure goes straight to the failure pattern, whose deep sleep
    ends the cycle. */
module Cycle {
  import opened Events
  import opened Indicator
  import opened Link
  import opened Session
  import opened Report

  /** I2C address passed to sht31.begin. */
  const SensorAddress: nat := 0x45

  /** Port passed to client.setServer. */
  const MqttPort: nat := 1883

  datatype Stage = SensorInit | WiFi | Mqtt | Telemetry

  datatype Outcome = Success | Failed(stage: Stage)

  /** Position of a stage in setup(). */
  function Order(s: Stage): nat
  {
    match s
    case SensorInit => 0
    case WiFi => 1
    case Mqtt => 2
    case Telemetry => 3
  }

  /** Stage s ran: the cycle succeeded or failed at s or later. */
  predicate Ran(outcome: Outcome, s: Stage)
  {
    outcome.Success? || Order(s) <= Order(outcome.stage)
  }

  /** The reference outcome: the first stage whose check fails, Success when none does. */
  function FirstFailure(sensorOk: bool, wifiOk: bool, mqttOk: bool, readingsOk: bool): (r: Outcome)
    ensures r == Success <==> sensorOk && wifiOk && mqttOk && readingsOk
  {
    if !sensorOk then Failed(SensorInit)
    else if !wifiOk then Failed(WiFi)
    else if !mqttOk then Failed(Mqtt)
    else if !readingsOk then Failed(Telemetry)
    else Success
  }

  /** Each stage fails exactly when it is the first whose check fails. */
  lemma FirstFailureStages(sensorOk: bool, wifiOk: bool, mqttOk: bool, readingsOk: bool)
    ensures FirstFailure(sensorOk, wifiOk, mqttOk, readingsOk) == Failed(SensorInit) <==> !sensorOk
    ensures FirstFailure(sensorOk, wifiOk, mqttOk, readingsOk) == Failed(WiFi) <==> sensorOk && !wifiOk
    ensures FirstFailure(sensorOk, wifiOk, mqttOk, readingsOk) == Failed(Mqtt) <==> sensorOk && wifiOk && !mqttOk
    ensures FirstFailure(sensorOk, wifiOk, mqttOk, readingsOk) == Failed(Telemetry) <==>
      sensorOk && wifiOk && mqttOk && !readingsOk
    ensures Ran(FirstFailure(sensorOk, wifiOk, mqttOk, readingsOk), WiFi) <==> sensorOk
    ensures Ran(FirstFailure(sensorOk, wifiOk, mqttOk, readingsOk), Mqtt) <==> sensorOk && wifiOk
    ensures Ran(FirstFailure(sensorOk, wifiOk, mqttOk, readingsOk), Telemetry) <==> sensorOk && wifiOk && mqttOk
  {
  }

  /** Everything before the blink pattern: no LOW write to the LED and no sleep. */
  predicate Quiet(t: seq<Event>)
  {
    SleepFree(t) && Led(Low) !in t
  }

  /** Wi-Fi and MQTT traces hold only begin, attempt and delay events. */
  lemma LinkTraceQuiet(t: seq<Event>)
    requires forall i :: 0 <= i < |t| ==> t[i] == WiFiBegin || t[i].Delay? || t[i] == ConnectAttempt
    ensures Quiet(t)
    ensures ReadSensor !in t && ClientLoop !in t && SetServer(MqttPort) !in t
    ensures forall i :: 0 <= i < |t| ==> !t[i].Publish?
  {
  }

  /** The events of a stage added to a quiet prefix: still quiet, delays add up. */
  lemma Extend(a: seq<Event>, b: seq<Event>)
    requires Quiet(a) && Quiet(b)
    ensures Quiet(a + b)
    ensures DelayTotal(a + b) == DelayTotal(a) + DelayTotal(b)
  {
    SleepFreeAppend(a, b);
    DelayTotalAppend(a, b);
  }

  /** Both readings are numbers. */
  predicate ReadingsOk(temperature: Reading, humidity: Reading)
  {
    temperature.Value? && humidity.Value?
  }

  /** The text client.publish sends for the readings, when both are numbers. */
  function Payload(temperature: Reading, humidity: Reading): string
  {
    if ReadingsOk(temperature, humidity) then Transmitted(Json(temperature.text, humidity.text)) else []
  }

  /** The calls of the last stage, in order: the readings and, when they were valid, the
      publish of text and then client.loop(). */
  function ReportEvents(sent: bool, text: string): seq<Event>
  {
    if sent then [ReadSensor, Publish(Topic, text), ClientLoop] else [ReadSensor]
  }

  /** The calls of the Wi-Fi stage: WiFi.begin, then one delay(1000) per wait-loop pass. */
  function WiFiEvents(status: nat -> WlStatus): seq<Event>
  {
    [WiFiBegin] + Delays(PollDelayMs, WaitPasses(status))
  }

  /** The calls from client.setServer on, when the connect loop makes n passes: the server
      set-up, the connect loop, then the last stage if the session came up. */
  function ServerEvents(outcome: Outcome, attempt: nat -> bool, n: nat, text: string): seq<Event>
  {
    [SetServer(MqttPort)] + ConnectTrace(attempt, n)
    + (if Ran(outcome, Telemetry) then ReportEvents(outcome == Success, text) else [])
  }

  /** The calls setup() makes before its blink pattern, in the order it runs its stages: the
      LED off and sht31.begin, then the Wi-Fi stage's calls wifi if that stage ran, then the
      calls server from client.setServer on if that stage ran. */
  function StageEvents(outcome: Outcome, wifi: seq<Event>, server: seq<Event>): seq<Event>
  {
    [Led(High), SensorBegin(SensorAddress)]
    + (if Ran(outcome, WiFi) then wifi else [])
    + (if Ran(outcome, Mqtt) then server else [])
  }

  /** What the later stages rely on in the Wi-Fi stage's calls: WiFi.begin, no LOW write, no
      sleep, and none of the other stages' calls. */
  predicate WiFiPart(w: seq<Event>)
  {
    Quiet(w) && WiFiBegin in w && Attempts(w) == 0 &&
    ReadSensor !in w && ClientLoop !in w && SetServer(MqttPort) !in w &&
    forall i :: 0 <= i < |w| ==> !w[i].Publish?
  }

  /** What setup() relies on in the calls from client.setServer on, for an outcome:
      setServer first, no LOW write, no sleep, no WiFi.begin, the readings exactly when the
      last stage ran, and the publish of text and client.loop(), last, exactly on success. */
  predicate ServerPart(outcome: Outcome, m: seq<Event>, text: string)
  {
    |m| > 0 && m[0] == SetServer(MqttPort) && Quiet(m) && WiFiBegin !in m &&
    (ReadSensor in m <==> Ran(outcome, Telemetry)) &&
    (ClientLoop in m <==> outcome == Success) &&
    (outcome == Success ==> m[|m| - 1] == ClientLoop && Publish(Topic, text) in m) &&
    (outcome != Success ==> forall i :: 0 <= i < |m| ==> !m[i].Publish?)
  }

  /** The last stage holds the readings, and the publish and client.loop(), last, exactly
      when it succeeded; it waits for nothing. */
  lemma ReportEventsFacts(sent: bool, text: string)
    ensures var r := ReportEvents(sent, text);
      Quiet(r) && DelayTotal(r) == 0 && ReadSensor in r &&
      WiFiBegin !in r && SetServer(MqttPort) !in r && ConnectAttempt !in r &&
      (ClientLoop in r <==> sent) &&
      (sent ==> r[|r| - 1] == ClientLoop && Publish(Topic, text) in r) &&
      (!sent ==> forall i :: 0 <= i < |r| ==> !r[i].Publish?)
  {
    var r := ReportEvents(sent, text);
    NoDelays(r);
  }

  /** The Wi-Fi stage: WiFi.begin and one second per wait-loop pass, nothing else. */
  lemma WiFiEventsFacts(status: nat -> WlStatus)
    ensures WiFiPart(WiFiEvents(status))
    ensures DelayTotal(WiFiEvents(status)) == PollDelayMs * WaitPasses(status)
  {
    var w := WiFiEvents(status);
    forall i | 0 <= i < |w| ensures w[i] == WiFiBegin || w[i].Delay? {
      if i > 0 {
        assert w[i] == Delays(PollDelayMs, WaitPasses(status))[i - 1];
      }
    }
    LinkTraceQuiet(w);
    CountAbsent(w, ConnectAttempt);
    DelayTotalAppend([WiFiBegin], Delays(PollDelayMs, WaitPasses(status)));
    DelaysTotal(PollDelayMs, WaitPasses(status));
    NoDelays([WiFiBegin]);
  }

  /** The calls from client.setServer on: setServer first, n attempts with 5000 ms per
      failure, and the readings, publish and client.loop() as the last stage provides. */
  lemma ServerEventsFacts(outcome: Outcome, attempt: nat -> bool, n: nat, text: string)
    ensures ServerPart(outcome, ServerEvents(outcome, attempt, n, text), text)
    ensures Attempts(ServerEvents(outcome, attempt, n, text)) == n
    ensures DelayTotal(ServerEvents(outcome, attempt, n, text)) == RetryDelayMs * Failures(attempt, n)
  {
    var head, loop := [SetServer(MqttPort)], ConnectTrace(attempt, n);
    var tail: seq<Event> := if Ran(outcome, Telemetry) then ReportEvents(outcome == Success, text) else [];
    ReportEventsFacts(outcome == Success, text);
    ConnectTraceKinds(attempt, n);
    ConnectTraceAttempts(attempt, n);
    ConnectTraceDelays(attempt, n);
    LinkTraceQuiet(loop);
    NoDelays(head);
    NoDelays([]);
    Extend(head, loop);
    Extend(head + loop, tail);
    CountAbsent(head, ConnectAttempt);
    CountAbsent(tail, ConnectAttempt);
    CountAppend(head, loop, ConnectAttempt);
    CountAppend(head + loop, tail, ConnectAttempt);
    var s := head + loop + tail;
    if outcome != Success {
      forall i | 0 <= i < |s| ensures !s[i].Publish? {
        if i < |head + loop| {
          assert s[i] == (head + loop)[i];
        } else {
          assert s[i] == tail[i - |head + loop|];
        }
      }
    }
  }

  /** The calls before the blink pattern start with the LED off and sht31.begin, and each
      stage's first call appears exactly when that stage ran; client.loop() exactly on success. */
  lemma StageEventsMembers(outcome: Outcome, wifi: seq<Event>, server: seq<Event>, text: string)
    requires WiFiPart(wifi) && ServerPart(outcome, server, text)
    ensures var s := StageEvents(outcome, wifi, server);
      |s| >= 2 && s[0] == Led(High) && s[1] == SensorBegin(SensorAddress) &&
      (WiFiBegin in s <==> Ran(outcome, WiFi)) &&
      (SetServer(MqttPort) in s <==> Ran(outcome, Mqtt)) &&
      (ReadSensor in s <==> Ran(outcome, Telemetry)) &&
      (ClientLoop in s <==> outcome == Success)
  {
    var prelude := [Led(High), SensorBegin(SensorAddress)];
    var s := StageEvents(outcome, wifi, server);
    if !Ran(outcome, WiFi) {
      assert s == prelude;
    } else if !Ran(outcome, Mqtt) {
      assert s == prelude + wifi;
    } else {
      assert server[0] in server;
      assert s == prelude + wifi + server;
    }
  }

  /** On success the publish of text is made and client.loop() is the last call before the
      blink pattern; otherwise nothing is published. */
  lemma StageEventsPublish(outcome: Outcome, wifi: seq<Event>, server: seq<Event>, text: string)
    requires WiFiPart(wifi) && ServerPart(outcome, server, text)
    ensures var s := StageEvents(outcome, wifi, server);
      (outcome == Success ==> s[|s| - 1] == ClientLoop && Publish(Topic, text) in s) &&
      (outcome != Success ==> forall i :: 0 <= i < |s| ==> !s[i].Publish?)
  {
    var prelude := [Led(High), SensorBegin(SensorAddress)];
    var w: seq<Event> := if Ran(outcome, WiFi) then wifi else [];
    var m: seq<Event> := if Ran(outcome, Mqtt) then server else [];
    var s := StageEvents(outcome, wifi, server);
    assert s == prelude + w + m;
    if outcome == Success {
      assert s[|s| - 1] == m[|m| - 1];
    } else {
      forall i | 0 <= i < |s| ensures !s[i].Publish? {
        if i >= |prelude + w| {
          assert s[i] == m[i - |prelude + w|];
        } else if i >= 2 {
          assert s[i] == w[i - 2];
        }
      }
    }
  }

  /** The calls before the blink pattern: no LOW write and no sleep, and attempts only in
      the connect loop. */
  lemma StageEventsQuiet(outcome: Outcome, wifi: seq<Event>, server: seq<Event>)
    requires Quiet(wifi) && Quiet(server) && Attempts(wifi) == 0
    ensures Quiet(StageEvents(outcome, wifi, server))
    ensures Attempts(StageEvents(outcome, wifi, server)) == if Ran(outcome, Mqtt) then Attempts(server) else 0
  {
    var prelude := [Led(High), SensorBegin(SensorAddress)];
    var w: seq<Event> := if Ran(outcome, WiFi) then wifi else [];
    var m: seq<Event> := if Ran(outcome, Mqtt) then server else [];
    CountAbsent(prelude, ConnectAttempt);
    CountAbsent([], ConnectAttempt);
    LinkTraceQuiet([]);
    assert Quiet(prelude);
    SleepFreeAppend(prelude, w);
    SleepFreeAppend(prelude + w, m);
    CountAppend(prelude, w, ConnectAttempt);
    CountAppend(prelude + w, m, ConnectAttempt);
    assert StageEvents(outcome, wifi, server) == prelude + w + m;
  }

  /** The waiting before the blink pattern is that of the stages that ran. */
  lemma StageEventsDelays(outcome: Outcome, wifi: seq<Event>, server: seq<Event>)
    ensures DelayTotal(StageEvents(outcome, wifi, server)) ==
      (if Ran(outcome, WiFi) then DelayTotal(wifi) else 0) + (if Ran(outcome, Mqtt) then DelayTotal(server) else 0)
  {
    var prelude := [Led(High), SensorBegin(SensorAddress)];
    var w: seq<Event> := if Ran(outcome, WiFi) then wifi else [];
    var m: seq<Event> := if Ran(outcome, Mqtt) then server else [];
    NoDelays(prelude);
    NoDelays([]);
    DelayTotalAppend(prelude, w);
    DelayTotalAppend(prelude + w, m);
    assert StageEvents(outcome, wifi, server) == prelude + w + m;
  }

  /** The stages of setup() from client.setServer on, once the sensor and Wi-Fi are up. */
  method ServerStages(connected: nat -> bool, attempt: nat -> bool, temperature: Reading, humidity: Reading, publishOk: bool)
    returns (outcome: Outcome, rest: seq<Event>)
    requires Terminates(connected, attempt)
    ensures outcome == FirstFailure(true, true, ConnectSucceeds(connected, attempt), ReadingsOk(temperature, humidity))
    ensures rest == ServerEvents(outcome, attempt, Attempts(rest), Payload(temperature, humidity))
    ensures forall j: nat :: Attempted(connected, attempt, j) <==> j < Attempts(rest)
    ensures Failures(attempt, Attempts(rest)) <= MaxFailures
  {
    var head := [SetServer(MqttPort)];
    var mqttOk, mqttTrace := Connect(connected, attempt);
    CountAbsent(head, ConnectAttempt);
    CountAppend(head, mqttTrace, ConnectAttempt);
    rest := head + mqttTrace;
    assert Attempts(rest) == Attempts(mqttTrace);
    if !mqttOk {
      outcome := Failed(Mqtt);
      assert rest + [] == rest;
      return;
    }
    var sent, tail := ReportStage(temperature, humidity, publishOk);
    CountAbsent(tail, ConnectAttempt);
    CountAppend(rest, tail, ConnectAttempt);
    assert tail == ReportEvents(sent, Payload(temperature, humidity));
    rest := rest + tail;
    outcome := if sent then Success else Failed(Telemetry);
  }

  /** The last stage: read and publish, then client.loop() when that succeeded. */
  method ReportStage(temperature: Reading, humidity: Reading, publishOk: bool) returns (sent: bool, tail: seq<Event>)
    ensures sent <==> ReadingsOk(temperature, humidity)
    ensures tail == if sent then [ReadSensor, Publish(Topic, Transmitted(Json(temperature.text, humidity.text))), ClientLoop]
                    else [ReadSensor]
    ensures ConnectAttempt !in tail
  {
    sent, tail := GetAndSend(temperature, humidity, publishOk);
    if sent {
      tail := tail + [ClientLoop];
    }
  }

  /** Whatever the two parts hold, the calls before the blink pattern start with the LED off
      and sht31.begin, each stage's first call appears exactly when that stage ran,
      client.loop() is the last call and the publish is made only on success. */
  lemma PartsInOrder(outcome: Outcome, wifi: seq<Event>, server: seq<Event>, text: string)
    requires WiFiPart(wifi) && ServerPart(outcome, server, text)
    ensures var s := StageEvents(outcome, wifi, server);
      |s| >= 2 && s[0] == Led(High) && s[1] == SensorBegin(SensorAddress) && Quiet(s) &&
      (WiFiBegin in s <==> Ran(outcome, WiFi)) &&
      (SetServer(MqttPort) in s <==> Ran(outcome, Mqtt)) &&
      (ReadSensor in s <==> Ran(outcome, Telemetry)) &&
      (ClientLoop in s <==> outcome == Success) &&
      (outcome == Success ==> s[|s| - 1] == ClientLoop && Publish(Topic, text) in s) &&
      (outcome != Success ==> forall i :: 0 <= i < |s| ==> !s[i].Publish?) &&
      Attempts(s) == (if Ran(outcome, Mqtt) then Attempts(server) else 0) &&
      DelayTotal(s) == (if Ran(outcome, WiFi) then DelayTotal(wifi) else 0)
                       + (if Ran(outcome, Mqtt) then DelayTotal(server) else 0)
  {
    StageEventsMembers(outcome, wifi, server, text);
    StageEventsPublish(outcome, wifi, server, text);
    StageEventsQuiet(outcome, wifi, server);
    StageEventsDelays(outcome, wifi, server);
  }

  /** No stage before the blink pattern writes the LED, apart from the first write. */
  lemma PartsLedFree(outcome: Outcome, status: nat -> WlStatus, attempt: nat -> bool, n: nat, text: string)
    ensures LedFree(WiFiEvents(status)) && LedFree(ServerEvents(outcome, attempt, n, text))
  {
    var w := WiFiEvents(status);
    forall i | 0 <= i < |w| ensures !w[i].Led? {
      if i > 0 {
        assert w[i] == Delays(PollDelayMs, WaitPasses(status))[i - 1];
      }
    }
    var head, loop := [SetServer(MqttPort)], ConnectTrace(attempt, n);
    var tail: seq<Event> := if Ran(outcome, Telemetry) then ReportEvents(outcome == Success, text) else [];
    ConnectTraceKinds(attempt, n);
    LedFreeAppend(head, loop);
    LedFreeAppend(head + loop, tail);
  }

  /** Until the blink pattern the LED stays in the one HIGH phase of the first write, for
      all the waiting of the stages. */
  lemma StageEventsPhases(outcome: Outcome, wifi: seq<Event>, server: seq<Event>)
    requires LedFree(wifi) && LedFree(server)
    ensures Phases(StageEvents(outcome, wifi, server)) == [Phase(High, DelayTotal(StageEvents(outcome, wifi, server)))]
  {
    var w: seq<Event> := if Ran(outcome, WiFi) then wifi else [];
    var m: seq<Event> := if Ran(outcome, Mqtt) then server else [];
    var rest := [SensorBegin(SensorAddress)] + w + m;
    LedFreeAppend([SensorBegin(SensorAddress)], w);
    LedFreeAppend([SensorBegin(SensorAddress)] + w, m);
    assert StageEvents(outcome, wifi, server) == [Led(High)] + rest;
    PhasesOneWrite(High, rest);
    DelayTotalAppend([Led(High)], rest);
    assert [Led(High)][1..] == [];
  }

  /** The Wi-Fi stage's calls and those from client.setServer on have what the calls before
      the blink pattern need, and wait at most 7000 ms and 30 000 ms. */
  lemma PartsOf(outcome: Outcome, status: nat -> WlStatus, attempt: nat -> bool, n: nat, text: string)
    requires Failures(attempt, n) <= MaxFailures
    ensures WiFiPart(WiFiEvents(status)) && DelayTotal(WiFiEvents(status)) <= 7000
    ensures ServerPart(outcome, ServerEvents(outcome, attempt, n, text), text)
    ensures Attempts(ServerEvents(outcome, attempt, n, text)) == n
    ensures DelayTotal(ServerEvents(outcome, attempt, n, text)) <= 30000
    ensures LedFree(WiFiEvents(status)) && LedFree(ServerEvents(outcome, attempt, n, text))
  {
    PartsLedFree(outcome, status, attempt, n, text);
    WiFiEventsFacts(status);
    ServerEventsFacts(outcome, attempt, n, text);
  }

  /** The calls of the stages, in order, carry the outcome: each stage's first call appears
      exactly when the stages before it succeeded, client.loop() is the last call and the
      publish of text is made only on success, and waiting is bounded by the two loops. */
  lemma StagesInOrder(outcome: Outcome, active: seq<Event>, sensorFound: bool, wifiUp: bool, sessionUp: bool,
                      valid: bool, wifi: seq<Event>, server: seq<Event>, text: string)
    requires outcome == FirstFailure(sensorFound, wifiUp, sessionUp, valid)
    requires WiFiPart(wifi) && ServerPart(outcome, server, text)
    requires DelayTotal(wifi) <= 7000 && DelayTotal(server) <= 30000
    requires active == StageEvents(outcome, wifi, server)
    ensures |active| >= 2 && active[0] == Led(High) && active[1] == SensorBegin(SensorAddress)
    ensures Quiet(active)
    ensures Attempts(active) == if sensorFound && wifiUp then Attempts(server) else 0
    ensures WiFiBegin in active <==> sensorFound
    ensures SetServer(MqttPort) in active <==> sensorFound && wifiUp
    ensures ReadSensor in active <==> sensorFound && wifiUp && sessionUp
    ensures ClientLoop in active <==> outcome == Success
    ensures outcome == Success ==> active[|active| - 1] == ClientLoop && Publish(Topic, text) in active
    ensures outcome != Success ==> forall i :: 0 <= i < |active| ==> !active[i].Publish?
    ensures DelayTotal(active) <= 7000 + 30000
  {
    FirstFailureStages(sensorFound, wifiUp, sessionUp, valid);
    PartsInOrder(outcome, wifi, server, text);
  }

  /** The stages of setup() up to the blink pattern, in the order the source runs them,
      with the events they produce. */
  method RunStages(sensorFound: bool, status: nat -> WlStatus, connected: nat -> bool, attempt: nat -> bool,
                   temperature: Reading, humidity: Reading, publishOk: bool)
    returns (outcome: Outcome, active: seq<Event>)
    requires sensorFound && WiFiConnects(status) ==> Terminates(connected, attempt)
    ensures outcome == FirstFailure(sensorFound, WiFiConnects(status), ConnectSucceeds(connected, attempt),
                                    ReadingsOk(temperature, humidity))
    ensures active == StageEvents(outcome, WiFiEvents(status),
                                  ServerEvents(outcome, attempt, Attempts(active), Payload(temperature, humidity)))
    ensures Failures(attempt, Attempts(active)) <= MaxFailures
    ensures Ran(outcome, Mqtt) ==> forall j: nat :: Attempted(connected, attempt, j) <==> j < Attempts(active)
  {
    var prelude := [Led(High), SensorBegin(SensorAddress)];
    CountAbsent(prelude, ConnectAttempt);
    active := prelude;
    if !sensorFound {
      outcome := Failed(SensorInit);
      return;
    }
    var wifiOk, wifiTrace := InitWiFi(status);
    CountAbsent(wifiTrace, ConnectAttempt);
    CountAppend(prelude, wifiTrace, ConnectAttempt);
    active := prelude + wifiTrace;
    if !wifiOk {
      outcome := Failed(WiFi);
      return;
    }
    var rest;
    outcome, rest := ServerStages(connected, attempt, temperature, humidity, publishOk);
    CountAppend(prelude + wifiTrace, rest, ConnectAttempt);
    active := prelude + wifiTrace + rest;
    assert Ran(outcome, Mqtt) && Attempts(active) == Attempts(rest);
  }

  /** The blink pattern appended to the calls of the stages: it adds none of the stage calls
      and no publish, and the LED, sleep and delay measures are the pattern's own. */
  lemma AfterStages(active: seq<Event>, signal: seq<Event>)
    requires Quiet(active)
    requires IndicatorOnly(signal) && EndsInSleep(signal, SleepMicros) && LastLevel(signal) != None
    ensures var t := active + signal;
      t[..|active|] == active && t[|active|..] == signal && Attempts(t) == Attempts(active) &&
      EndsInSleep(t, SleepMicros) && LowPulses(t) == LowPulses(signal) && LowWrites(t) == LowWrites(signal) &&
      LastLevel(t) == LastLevel(signal) && DelayTotal(t) == DelayTotal(active) + DelayTotal(signal)
    ensures var t := active + signal;
      (WiFiBegin in t <==> WiFiBegin in active) && (SetServer(MqttPort) in t <==> SetServer(MqttPort) in active) &&
      (ReadSensor in t <==> ReadSensor in active) && (ClientLoop in t <==> ClientLoop in active) &&
      (forall e: Event :: e in active ==> e in t)
    ensures (forall i :: 0 <= i < |active| ==> !active[i].Publish?) ==>
            forall i :: 0 <= i < |active + signal| ==> !(active + signal)[i].Publish?
  {
    var t := active + signal;
    SignalAfter(active, signal, SleepMicros);
    CountAbsent(signal, ConnectAttempt);
    CountAppend(active, signal, ConnectAttempt);
    assert t[..|active|] == active && t[|active|..] == signal;
    forall i | |active| <= i < |t| ensures !t[i].Publish? {
      assert t[i] == signal[i - |active|];
    }
  }

  /** Number of calls the blink pattern makes, the deep sleep included. */
  function SignalLength(outcome: Outcome): nat
  {
    if outcome == Success then 8 else 16
  }

  /** One wake cycle's calls are the stages' calls followed by the blink pattern: they start
      with the LED off and sht31.begin, end in the one deep sleep, show the pattern of the
      outcome, and hold each stage's calls exactly when it ran. */
  lemma CycleTrace(outcome: Outcome, active: seq<Event>, signal: seq<Event>, sensorFound: bool, wifiUp: bool,
                   sessionUp: bool, valid: bool, wifi: seq<Event>, server: seq<Event>, text: string)
    requires outcome == FirstFailure(sensorFound, wifiUp, sessionUp, valid)
    requires WiFiPart(wifi) && ServerPart(outcome, server, text)
    requires DelayTotal(wifi) <= 7000 && DelayTotal(server) <= 30000
    requires active == StageEvents(outcome, wifi, server)
    requires |signal| == SignalLength(outcome) && IndicatorOnly(signal) && EndsInSleep(signal, SleepMicros)
    requires LastLevel(signal) == Some(High) && DelayTotal(signal) <= 1550
    requires outcome == Success ==> LowWrites(signal) == 2 && LowPulses(signal) == [500, 500]
    requires outcome != Success ==> LowWrites(signal) == 4 && LowPulses(signal) == [500, 50, 50, 50]
    requires LedFree(wifi) && LedFree(server) && signal[0] == Led(Low)
    requires Phases(signal) == if outcome == Success then SuccessPhases else FailedPhases
    ensures var t := active + signal;
      |t| >= SignalLength(outcome) + 2 && t[..|t| - SignalLength(outcome)] == active &&
      IndicatorOnly(t[|t| - SignalLength(outcome)..]) && Attempts(t) == Attempts(active)
    ensures var t := active + signal;
      outcome == Success ==> t[|t| - SignalLength(outcome) - 1] == ClientLoop
    ensures var t := active + signal;
      t[0] == Led(High) && t[1] == SensorBegin(SensorAddress) &&
      EndsInSleep(t, SleepMicros) && LastLevel(t) == Some(High)
    ensures var t := active + signal;
      outcome == Success ==> LowWrites(t) == 2 && LowPulses(t) == [500, 500]
    ensures var t := active + signal;
      outcome != Success ==> LowWrites(t) == 4 && LowPulses(t) == [500, 50, 50, 50]
    ensures var t := active + signal;
      (WiFiBegin in t <==> sensorFound) &&
      (SetServer(MqttPort) in t <==> sensorFound && wifiUp) &&
      (ReadSensor in t <==> sensorFound && wifiUp && sessionUp) &&
      (ClientLoop in t <==> outcome == Success)
    ensures var t := active + signal;
      outcome != Success ==> forall i :: 0 <= i < |t| ==> !t[i].Publish?
    ensures outcome == Success ==> Publish(Topic, text) in active + signal
    ensures DelayTotal(active + signal) <= 7000 + 30000 + 1550
    ensures var t := active + signal;
      Phases(t) == [Phase(High, DelayTotal(t[..|t| - SignalLength(outcome)]))]
                   + if outcome == Success then SuccessPhases else FailedPhases
  {
    StagesInOrder(outcome, active, sensorFound, wifiUp, sessionUp, valid, wifi, server, text);
    AfterStages(active, signal);
    StageEventsPhases(outcome, wifi, server);
    PhasesAppend(active, signal);
  }

  method Setup(sensorFound: bool, status: nat -> WlStatus, connected: nat -> bool, attempt: nat -> bool,
               temperature: Reading, humidity: Reading, publishOk: bool)
    returns (outcome: Outcome, trace: seq<Event>)
    requires sensorFound && WiFiConnects(status) ==> Terminates(connected, attempt)
    // the first failing stage decides the outcome
    ensures outcome == Failed(SensorInit) <==> !sensorFound
    ensures outcome == Failed(WiFi) <==> sensorFound && !WiFiConnects(status)
    ensures outcome == Failed(Mqtt) <==>
      sensorFound && WiFiConnects(status) && !ConnectSucceeds(connected, attempt)
    ensures outcome == Failed(Telemetry) <==>
      sensorFound && WiFiConnects(status) && ConnectSucceeds(connected, attempt) && !ReadingsOk(temperature, humidity)
    ensures outcome == Success <==>
      sensorFound && WiFiConnects(status) && ConnectSucceeds(connected, attempt) && ReadingsOk(temperature, humidity)
    // every cycle starts with the LED off and ends in exactly one deep sleep
    // the stages' calls in the order setup() makes them, then the blink pattern
    ensures |trace| >= SignalLength(outcome) + 2
    ensures trace[..|trace| - SignalLength(outcome)] ==
      StageEvents(outcome, WiFiEvents(status), ServerEvents(outcome, attempt, Attempts(trace), Payload(temperature, humidity)))
    ensures IndicatorOnly(trace[|trace| - SignalLength(outcome)..])
    ensures outcome == Success ==> trace[|trace| - SignalLength(outcome) - 1] == ClientLoop
    ensures |trace| >= 2 && trace[0] == Led(High) && trace[1] == SensorBegin(SensorAddress)
    ensures EndsInSleep(trace, SleepMicros)
    ensures LastLevel(trace) == Some(High)
    ensures outcome == Success ==> LowWrites(trace) == 2 && LowPulses(trace) == [500, 500]
    ensures outcome != Success ==> LowWrites(trace) == 4 && LowPulses(trace) == [500, 50, 50, 50]
    // later stages run only after the earlier ones succeeded
    ensures WiFiBegin in trace <==> sensorFound
    ensures SetServer(MqttPort) in trace <==> sensorFound && WiFiConnects(status)
    ensures ReadSensor in trace <==> sensorFound && WiFiConnects(status) && ConnectSucceeds(connected, attempt)
    ensures ClientLoop in trace <==> outcome == Success
    ensures outcome != Success ==> forall i :: 0 <= i < |trace| ==> !trace[i].Publish?
    ensures outcome == Success ==>
      Publish(Topic, Transmitted(Json(temperature.text, humidity.text))) in trace
    ensures DelayTotal(trace) <= 7000 + 30000 + 1550
    // the LED stays HIGH through the stages, then shows exactly the pattern of the outcome
    ensures Phases(trace) == [Phase(High, DelayTotal(trace[..|trace| - SignalLength(outcome)]))]
                             + if outcome == Success then SuccessPhases else FailedPhases
    // the connect loop makes exactly the passes nothing stopped
    ensures Ran(outcome, Mqtt) ==> forall j: nat :: Attempted(connected, attempt, j) <==> j < Attempts(trace)
  {
    var active;
    outcome, active := RunStages(sensorFound, status, connected, attempt, temperature, humidity, publishOk);
    var signal: seq<Event>;
    if outcome == Success {
      signal := BlinkSuccessAndSleep();
    } else {
      // blinkFailedAndSleep is called right where the stage failed; it never returns
      signal := BlinkFailedAndSleep();
    }
    var text := Payload(temperature, humidity);
    PartsOf(outcome, status, attempt, Attempts(active), text);
    CycleTrace(outcome, active, signal, sensorFound, WiFiConnects(status), ConnectSucceeds(connected, attempt),
               ReadingsOk(temperature, humidity), WiFiEvents(status),
               ServerEvents(outcome, attempt, Attempts(active), text), text);
    FirstFailureStages(sensorFound, WiFiConnects(status), ConnectSucceeds(connected, attempt), ReadingsOk(temperature, humidity));
    trace := active + signal;
  }
}
