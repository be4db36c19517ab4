/** The observable behaviour of one wake cycle of the sketch: every call it makes
    into the board or a library, in the order it makes them. */
module Events {

  datatype Option<T> = None | Some(value: T)

  /** Level written to the LED pin D4 (the D1 mini LED is lit while the pin is LOW). */
  datatype Level = Low | High

  datatype Event =
    | Led(level: Level)                     // digitalWrite(D4, level)
    | Delay(ms: nat)                        // delay(ms)
    | SensorBegin(address: nat)             // sht31.begin(address)
    | WiFiBegin                             // WiFi.mode(WIFI_STA); WiFi.begin(ssid, password)
    | SetServer(port: nat)                  // client.setServer(host, port)
    | ConnectAttempt                        // client.connect(clientId, token, NULL)
    | ReadSensor                            // sht31.readTemperature(); sht31.readHumidity()
    | Publish(topic: string, text: string)  // client.publish(topic, text)
    | ClientLoop                            // client.loop()
    | Sleep(us: nat)                        // ESP.deepSleep(us): never returns

  /** Milliseconds spent in delay() over a trace. */
  function DelayTotal(t: seq<Event>): nat
    decreases |t|
  {
    if |t| == 0 then 0 else (if t[0].Delay? then t[0].ms else 0) + DelayTotal(t[1..])
  }

  lemma {:induction false} DelayTotalAppend(a: seq<Event>, b: seq<Event>)
    ensures DelayTotal(a + b) == DelayTotal(a) + DelayTotal(b)
    decreases |a|
  {
    if |a| == 0 {
      assert a + b == b;
    } else {
      assert (a + b)[1..] == a[1..] + b;
      DelayTotalAppend(a[1..], b);
    }
  }

  /** How often e occurs in t. */
  function Count(t: seq<Event>, e: Event): nat
    decreases |t|
  {
    if |t| == 0 then 0 else (if t[0] == e then 1 else 0) + Count(t[1..], e)
  }

  lemma {:induction false} CountAppend(a: seq<Event>, b: seq<Event>, e: Event)
    ensures Count(a + b, e) == Count(a, e) + Count(b, e)
    decreases |a|
  {
    if |a| == 0 {
      assert a + b == b;
    } else {
      assert (a + b)[1..] == a[1..] + b;
      CountAppend(a[1..], b, e);
    }
  }

  lemma {:induction false} CountAbsent(t: seq<Event>, e: Event)
    requires e !in t
    ensures Count(t, e) == 0
    decreases |t|
  {
    if |t| > 0 {
      assert t[0] in t;
      assert forall x :: x in t[1..] ==> x in t;
      CountAbsent(t[1..], e);
    }
  }

  /** A trace without delay() calls spends no time waiting. */
  lemma {:induction false} NoDelays(t: seq<Event>)
    requires forall i :: 0 <= i < |t| ==> !t[i].Delay?
    ensures DelayTotal(t) == 0
  {
    if |t| > 0 {
      NoDelays(t[1..]);
    }
  }

  /** n consecutive delay(ms) calls. */
  function Delays(ms: nat, n: nat): (r: seq<Event>)
    ensures |r| == n
    ensures forall i :: 0 <= i < n ==> r[i] == Delay(ms)
  {
    if n == 0 then [] else Delays(ms, n - 1) + [Delay(ms)]
  }

  lemma {:induction false} DelaysTotal(ms: nat, n: nat)
    ensures DelayTotal(Delays(ms, n)) == ms * n
  {
    if n > 0 {
      DelaysTotal(ms, n - 1);
      DelayTotalAppend(Delays(ms, n - 1), [Delay(ms)]);
    }
  }

  /** How long each LOW phase of the LED lasts: a Led(Low) immediately followed by delay(d) gives d. */
  function LowPulses(t: seq<Event>): seq<nat>
    decreases |t|
  {
    if |t| < 2 then []
    else if t[0] == Led(Low) && t[1].Delay? then [t[1].ms] + LowPulses(t[2..])
    else LowPulses(t[1..])
  }

  lemma {:induction false} LowPulsesAfterNoLow(a: seq<Event>, b: seq<Event>)
    requires Led(Low) !in a
    ensures LowPulses(a + b) == LowPulses(b)
    decreases |a|
  {
    if |a| == 0 {
      assert a + b == b;
    } else {
      assert (a + b)[1..] == a[1..] + b;
      assert a[0] in a;
      LowPulsesAfterNoLow(a[1..], b);
    }
  }

  lemma {:induction false} LowPulsesAppend(a: seq<Event>, b: seq<Event>)
    requires |a| == 0 || a[|a| - 1] != Led(Low)
    ensures LowPulses(a + b) == LowPulses(a) + LowPulses(b)
    decreases |a|
  {
    var t := a + b;
    if |a| == 0 {
      assert t == b;
    } else if a[0] != Led(Low) {
      assert t[0] == a[0] && t[1..] == a[1..] + b;
      LowPulsesAppend(a[1..], b);
    } else {
      // a LOW write is never the last event of a
      assert |a| >= 2 && t[0] == a[0] && t[1] == a[1];
      if a[1].Delay? {
        assert t[2..] == a[2..] + b;
        LowPulsesAppend(a[2..], b);
      } else {
        assert t[1..] == a[1..] + b;
        LowPulsesAppend(a[1..], b);
      }
    }
  }

  /** Pulse durations and delay time add up over an append that does not split a LOW pulse. */
  lemma AppendTimings(a: seq<Event>, b: seq<Event>)
    requires |a| == 0 || a[|a| - 1] != Led(Low)
    ensures LowPulses(a + b) == LowPulses(a) + LowPulses(b)
    ensures DelayTotal(a + b) == DelayTotal(a) + DelayTotal(b)
  {
    LowPulsesAppend(a, b);
    DelayTotalAppend(a, b);
  }

  /** Number of LOW writes to the LED pin. */
  function LowWrites(t: seq<Event>): nat
  {
    Count(t, Led(Low))
  }

  /** The level of the last LED write in the trace, if any. */
  function LastLevel(t: seq<Event>): Option<Level>
    decreases |t|
  {
    if |t| == 0 then None
    else if t[|t| - 1].Led? then Some(t[|t| - 1].level)
    else LastLevel(t[..|t| - 1])
  }

  lemma {:induction false} LastLevelAppend(a: seq<Event>, b: seq<Event>)
    requires LastLevel(b) != None
    ensures LastLevel(a + b) == LastLevel(b)
    decreases |b|
  {
    assert (a + b)[|a + b| - 1] == b[|b| - 1];
    if !b[|b| - 1].Led? {
      assert (a + b)[..|a + b| - 1] == a + b[..|b| - 1];
      LastLevelAppend(a, b[..|b| - 1]);
    }
  }

  /** A phase of the LED: the level one write set, and the delay() time until the next write. */
  datatype Phase = Phase(level: Level, ms: nat)

  /** The LED's phases in order: each LED write starts one, and each delay() lengthens the
      current one. Delays before the first write belong to no phase. */
  function Phases(t: seq<Event>): seq<Phase>
    decreases |t|
  {
    if |t| == 0 then [] else Step(Phases(t[..|t| - 1]), t[|t| - 1])
  }

  /** The phases once one more event has happened. */
  function Step(p: seq<Phase>, e: Event): seq<Phase>
  {
    if e.Led? then p + [Phase(e.level, 0)]
    else if e.Delay? && |p| > 0 then p[..|p| - 1] + [Phase(p[|p| - 1].level, p[|p| - 1].ms + e.ms)]
    else p
  }

  /** An event changes only the last phase, or adds one. */
  lemma StepAppend(p: seq<Phase>, q: seq<Phase>, e: Event)
    requires |q| > 0
    ensures Step(p + q, e) == p + Step(q, e)
  {
    var r := p + q;
    assert r[..|r| - 1] == p + q[..|q| - 1] && r[|r| - 1] == q[|q| - 1];
  }

  /** A trace that starts with an LED write has at least one phase. */
  lemma {:induction false} PhasesStart(t: seq<Event>)
    requires |t| > 0 && t[0].Led?
    ensures |Phases(t)| > 0
    decreases |t|
  {
    if |t| > 1 {
      PhasesStart(t[..|t| - 1]);
    } else {
      assert t[..0] == [];
    }
  }

  /** Phases add up over an append whose second part starts with an LED write. */
  lemma {:induction false} PhasesAppend(a: seq<Event>, b: seq<Event>)
    requires |b| > 0 && b[0].Led?
    ensures Phases(a + b) == Phases(a) + Phases(b)
    decreases |b|
  {
    var t := a + b;
    var e := b[|b| - 1];
    assert t[|t| - 1] == e;
    if |b| == 1 {
      assert t[..|t| - 1] == a && b[..0] == [];
    } else {
      var b' := b[..|b| - 1];
      assert t[..|t| - 1] == a + b';
      PhasesAppend(a, b');
      PhasesStart(b');
      StepAppend(Phases(a), Phases(b'), e);
    }
  }

  /** A non-LED event lengthens a single phase by its delay, if it is one. */
  lemma StepNoWrite(l: Level, d: nat, e: Event)
    requires !e.Led?
    ensures Step([Phase(l, d)], e) == [Phase(l, d + if e.Delay? then e.ms else 0)]
  {
  }

  lemma DelayTotalLast(t: seq<Event>, e: Event)
    ensures DelayTotal(t + [e]) == DelayTotal(t) + if e.Delay? then e.ms else 0
  {
    DelayTotalAppend(t, [e]);
    assert [e][1..] == [];
  }

  /** One LED write followed by no other: one phase, as long as all the delays after it. */
  lemma {:induction false} PhasesOneWrite(l: Level, t: seq<Event>)
    requires LedFree(t)
    ensures Phases([Led(l)] + t) == [Phase(l, DelayTotal(t))]
    decreases |t|
  {
    var s := [Led(l)] + t;
    if |t| == 0 {
      assert s[..0] == [] && s == [Led(l)];
    } else {
      var t', e := t[..|t| - 1], t[|t| - 1];
      assert s[..|s| - 1] == [Led(l)] + t' && s[|s| - 1] == e && t == t' + [e];
      assert LedFree(t') by {
        forall i | 0 <= i < |t'| ensures !t'[i].Led? { assert t'[i] == t[i]; }
      }
      PhasesOneWrite(l, t');
      StepNoWrite(l, DelayTotal(t'), e);
      DelayTotalLast(t', e);
    }
  }

  /** No LED write at all. */
  predicate LedFree(t: seq<Event>)
  {
    forall i :: 0 <= i < |t| ==> !t[i].Led?
  }

  lemma LedFreeAppend(a: seq<Event>, b: seq<Event>)
    requires LedFree(a) && LedFree(b)
    ensures LedFree(a + b)
  {
    forall i | 0 <= i < |a + b| ensures !(a + b)[i].Led? {
      if i >= |a| { assert (a + b)[i] == b[i - |a|]; }
    }
  }

  predicate SleepFree(t: seq<Event>)
  {
    forall i :: 0 <= i < |t| ==> !t[i].Sleep?
  }

  lemma SleepFreeAppend(a: seq<Event>, b: seq<Event>)
    requires SleepFree(a) && SleepFree(b)
    ensures SleepFree(a + b)
  {
    forall i | 0 <= i < |a + b| ensures !(a + b)[i].Sleep? {
      if i >= |a| { assert (a + b)[i] == b[i - |a|]; }
    }
  }

  /** The trace ends with deepSleep(us), the only sleep it contains. */
  predicate EndsInSleep(t: seq<Event>, us: nat)
  {
    |t| > 0 && t[|t| - 1] == Sleep(us) && SleepFree(t[..|t| - 1])
  }

  /** Only LED writes, delays and the sleep: what the blink patterns emit. */
  predicate IndicatorOnly(t: seq<Event>)
  {
    forall i :: 0 <= i < |t| ==> t[i].Led? || t[i].Delay? || t[i].Sleep?
  }

  /** Appending a signalling sequence that ends in deepSleep to an active phase that
      never sleeps nor lights the LED leaves the signal's observable properties intact. */
  lemma {:induction false} SignalAfter(active: seq<Event>, signal: seq<Event>, us: nat)
    requires SleepFree(active) && Led(Low) !in active
    requires EndsInSleep(signal, us) && LastLevel(signal) != None
    ensures EndsInSleep(active + signal, us)
    ensures LowPulses(active + signal) == LowPulses(signal)
    ensures LowWrites(active + signal) == LowWrites(signal)
    ensures LastLevel(active + signal) == LastLevel(signal)
    ensures DelayTotal(active + signal) == DelayTotal(active) + DelayTotal(signal)
  {
    var t := active + signal;
    assert t[|t| - 1] == signal[|signal| - 1];
    assert t[..|t| - 1] == active + signal[..|signal| - 1];
    SleepFreeAppend(active, signal[..|signal| - 1]);
    LowPulsesAfterNoLow(active, signal);
    CountAbsent(active, Led(Low));
    CountAppend(active, signal, Led(Low));
    LastLevelAppend(active, signal);
    DelayTotalAppend(active, signal);
  }
}
