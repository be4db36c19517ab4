/** The two LED patterns that close every wake cycle, each ending in deep sleep. */
module Indicator {
  import opened Events

  /** Seconds between wake-ups. */
  const UpdateInterval: nat := 300

  /** The argument of ESP.deepSleep: updateInterval * 1e6, in microseconds. */
  const SleepMicros: nat := UpdateInterval * 1000000

  /** The LED phases of blinkSuccessAndSleep: on 500 ms, off 500 ms, on 500 ms, then off. */
  const SuccessPhases: seq<Phase> := [Phase(Low, 500), Phase(High, 500), Phase(Low, 500), Phase(High, 0)]

  /** The LED phases of blinkFailedAndSleep: on 500 ms, off 500 ms, then three 50 ms flashes
      200 ms apart, then off. */
  const FailedPhases: seq<Phase> := [Phase(Low, 500), Phase(High, 500), Phase(Low, 50), Phase(High, 200),
                                     Phase(Low, 50), Phase(High, 200), Phase(Low, 50), Phase(High, 0)]

  /** LED writes and delays only, no sleep yet. */
  predicate Blinking(t: seq<Event>)
  {
    IndicatorOnly(t) && SleepFree(t)
  }

  /** digitalWrite(D4, LOW); delay(lowMs); digitalWrite(D4, HIGH): one LOW pulse of lowMs. */
  function Flash(lowMs: nat): (r: seq<Event>)
    ensures Blinking(r) && LowWrites(r) == 1 && LowPulses(r) == [lowMs]
    ensures DelayTotal(r) == lowMs && LastLevel(r) == Some(High)
    ensures |r| > 0 && r[0] == Led(Low) && r[|r| - 1] == Led(High)
  {
    var r := [Led(Low), Delay(lowMs), Led(High)];
    assert r[1..] == [Delay(lowMs), Led(High)] && r[1..][1..] == [Led(High)] && r[2..] == [Led(High)];
    assert LowPulses(r[2..]) == [] && DelayTotal(r[1..][1..]) == 0;
    assert r[1..][1..][1..] == [];
    assert Count(r[1..][1..], Led(Low)) == 0;
    assert Count(r[1..], Led(Low)) == 0;
    r
  }

  /** A pulse is a LOW phase of lowMs and then a HIGH phase that has not lasted yet. */
  lemma FlashPhases(lowMs: nat)
    ensures Phases(Flash(lowMs)) == [Phase(Low, lowMs), Phase(High, 0)]
  {
    var one, two := [Led(Low)], [Led(Low), Delay(lowMs)];
    assert one[..0] == [] && two[..1] == one;
    assert Phases(one) == Step([], Led(Low));
    assert Phases(two) == Step([Phase(Low, 0)], Delay(lowMs));
    assert Flash(lowMs) == two + [Led(High)];
    assert (two + [Led(High)])[..2] == two;
  }

  /** A sequence with no LED write leaves the last level unchanged. */
  lemma {:induction false} LastLevelNoLed(a: seq<Event>, b: seq<Event>)
    requires LastLevel(b) == None
    ensures LastLevel(a + b) == LastLevel(a)
    decreases |b|
  {
    if |b| == 0 {
      assert a + b == a;
    } else {
      assert (a + b)[..|a + b| - 1] == a + b[..|b| - 1];
      LastLevelNoLed(a, b[..|b| - 1]);
    }
  }

  /** Following one blinking sequence by another adds up their pulses, LOW writes and delays;
      the LED ends at the level the second one leaves it. */
  lemma Then(a: seq<Event>, b: seq<Event>)
    requires Blinking(a) && Blinking(b)
    requires |a| > 0 && a[|a| - 1] != Led(Low)
    ensures Blinking(a + b)
    ensures LowWrites(a + b) == LowWrites(a) + LowWrites(b)
    ensures LowPulses(a + b) == LowPulses(a) + LowPulses(b)
    ensures DelayTotal(a + b) == DelayTotal(a) + DelayTotal(b)
    ensures LastLevel(a + b) == if LastLevel(b) == None then LastLevel(a) else LastLevel(b)
  {
    AppendTimings(a, b);
    CountAppend(a, b, Led(Low));
    SleepFreeAppend(a, b);
    if LastLevel(b) == None {
      LastLevelNoLed(a, b);
    } else {
      LastLevelAppend(a, b);
    }
    forall i | 0 <= i < |a + b| ensures (a + b)[i].Led? || (a + b)[i].Delay? || (a + b)[i].Sleep? {
      if i >= |a| { assert (a + b)[i] == b[i - |a|]; }
    }
  }

  /** One delay between pulses. */
  lemma Pause(ms: nat)
    ensures Blinking([Delay(ms)]) && LowWrites([Delay(ms)]) == 0 && LowPulses([Delay(ms)]) == []
    ensures DelayTotal([Delay(ms)]) == ms && LastLevel([Delay(ms)]) == None
  {
    assert [Delay(ms)][1..] == [] && [Delay(ms)][..0] == [];
    assert Count([Delay(ms)], Led(Low)) == Count([], Led(Low)) == 0;
  }

  /** Ending a blinking sequence with ESP.deepSleep. */
  lemma SleepAtEnd(t: seq<Event>)
    requires Blinking(t) && |t| > 0 && t[|t| - 1] == Led(High)
    ensures IndicatorOnly(t + [Sleep(SleepMicros)]) && EndsInSleep(t + [Sleep(SleepMicros)], SleepMicros)
    ensures LowWrites(t + [Sleep(SleepMicros)]) == LowWrites(t)
    ensures LowPulses(t + [Sleep(SleepMicros)]) == LowPulses(t)
    ensures DelayTotal(t + [Sleep(SleepMicros)]) == DelayTotal(t)
    ensures LastLevel(t + [Sleep(SleepMicros)]) == LastLevel(t)
    ensures Phases(t + [Sleep(SleepMicros)]) == Phases(t)
  {
    var s := t + [Sleep(SleepMicros)];
    assert s[..|s| - 1] == t;
    AppendTimings(t, [Sleep(SleepMicros)]);
    CountAppend(t, [Sleep(SleepMicros)], Led(Low));
    assert [Sleep(SleepMicros)][1..] == [];
    forall i | 0 <= i < |s| ensures s[i].Led? || s[i].Delay? || s[i].Sleep? {
      if i < |t| { assert s[i] == t[i]; }
    }
  }

  /** delay(gapMs) then one LOW pulse of lowMs: the step both patterns repeat. */
  function Beat(gapMs: nat, lowMs: nat): (r: seq<Event>)
    ensures Blinking(r) && LowWrites(r) == 1 && LowPulses(r) == [lowMs]
    ensures DelayTotal(r) == gapMs + lowMs && LastLevel(r) == Some(High)
    ensures |r| > 0 && r[|r| - 1] == Led(High)
  {
    Pause(gapMs);
    Then([Delay(gapMs)], Flash(lowMs));
    [Delay(gapMs)] + Flash(lowMs)
  }

  /** After a sequence whose last phase is HIGH and not yet delayed, one Beat lengthens that
      HIGH phase by its gap and adds its LOW pulse and a new HIGH phase. */
  lemma BeatPhases(a: seq<Event>, p: seq<Phase>, gapMs: nat, lowMs: nat)
    requires Phases(a) == p + [Phase(High, 0)]
    ensures Phases(a + Beat(gapMs, lowMs)) == p + [Phase(High, gapMs), Phase(Low, lowMs), Phase(High, 0)]
  {
    var d := a + [Delay(gapMs)];
    assert a + Beat(gapMs, lowMs) == d + Flash(lowMs);
    assert d[..|d| - 1] == a && d[|d| - 1] == Delay(gapMs);
    assert Phases(d) == p + [Phase(High, gapMs)];
    PhasesAppend(d, Flash(lowMs));
    FlashPhases(lowMs);
  }

  /** Pattern "- -": two 500 ms LOW pulses, LED left HIGH, then deep sleep. */
  method BlinkSuccessAndSleep() returns (trace: seq<Event>)
    ensures |trace| == 8
    ensures IndicatorOnly(trace)
    ensures LowWrites(trace) == 2
    ensures LowPulses(trace) == [500, 500]
    ensures LastLevel(trace) == Some(High)
    ensures DelayTotal(trace) == 1500
    ensures EndsInSleep(trace, 300000000)
    ensures trace[0] == Led(Low)
    ensures Phases(trace) == SuccessPhases
  {
    var slow: nat, gap: nat := 500, 500;
    trace := Flash(slow);
    Then(trace, Beat(gap, slow));
    FlashPhases(slow);
    BeatPhases(trace, [Phase(Low, slow)], gap, slow);
    trace := trace + Beat(gap, slow);
    // ESP.deepSleep does not return: the delay(100) after it is never reached
    SleepAtEnd(trace);
    trace := trace + [Sleep(SleepMicros)];
  }

  /** Four single-pulse steps, each ending with the LED HIGH, one after the other: their
      pulses in order, four LOW writes, the delays added up, and the LED ends HIGH. */
  lemma {:induction false} FourSteps(a: seq<Event>, b: seq<Event>, c: seq<Event>, d: seq<Event>, pa: nat, pb: nat, pc: nat, pd: nat)
    requires Blinking(a) && Blinking(b) && Blinking(c) && Blinking(d)
    requires LowWrites(a) == LowWrites(b) == LowWrites(c) == LowWrites(d) == 1
    requires LowPulses(a) == [pa] && LowPulses(b) == [pb] && LowPulses(c) == [pc] && LowPulses(d) == [pd]
    requires |a| > 0 && a[|a| - 1] == Led(High) && |b| > 0 && b[|b| - 1] == Led(High)
    requires |c| > 0 && c[|c| - 1] == Led(High) && |d| > 0 && d[|d| - 1] == Led(High)
    requires LastLevel(d) == Some(High)
    ensures Blinking(a + b + c + d) && LowWrites(a + b + c + d) == 4
    ensures LowPulses(a + b + c + d) == [pa, pb, pc, pd]
    ensures DelayTotal(a + b + c + d) == DelayTotal(a) + DelayTotal(b) + DelayTotal(c) + DelayTotal(d)
    ensures LastLevel(a + b + c + d) == Some(High)
    ensures (a + b + c + d)[|a + b + c + d| - 1] == Led(High)
  {
    Then(a, b);
    assert (a + b)[|a + b| - 1] == b[|b| - 1];
    Then(a + b, c);
    assert (a + b + c)[|a + b + c| - 1] == c[|c| - 1];
    Then(a + b + c, d);
    assert (a + b + c + d)[|a + b + c + d| - 1] == d[|d| - 1];
  }

  /** Pattern "- ...": one 500 ms LOW pulse and three 50 ms LOW pulses, LED left HIGH,
      then deep sleep for the same duration as the success pattern. */
  method BlinkFailedAndSleep() returns (trace: seq<Event>)
    ensures |trace| == 16
    ensures IndicatorOnly(trace)
    ensures LowWrites(trace) == 4
    ensures LowPulses(trace) == [500, 50, 50, 50]
    ensures LastLevel(trace) == Some(High)
    ensures DelayTotal(trace) == 1550
    ensures EndsInSleep(trace, 300000000)
    ensures trace[0] == Led(Low)
    ensures Phases(trace) == FailedPhases
  {
    var slow: nat, fast: nat, gap: nat, shortGap: nat := 500, 50, 500, 200;
    trace := Flash(slow) + Beat(gap, fast) + Beat(shortGap, fast) + Beat(shortGap, fast);
    FourSteps(Flash(slow), Beat(gap, fast), Beat(shortGap, fast), Beat(shortGap, fast), slow, fast, fast, fast);
    FlashPhases(slow);
    BeatPhases(Flash(slow), [Phase(Low, slow)], gap, fast);
    BeatPhases(Flash(slow) + Beat(gap, fast), [Phase(Low, slow), Phase(High, gap), Phase(Low, fast)], shortGap, fast);
    BeatPhases(Flash(slow) + Beat(gap, fast) + Beat(shortGap, fast),
               [Phase(Low, slow), Phase(High, gap), Phase(Low, fast), Phase(High, shortGap), Phase(Low, fast)], shortGap, fast);
    assert trace[0] == Flash(slow)[0];
    SleepAtEnd(trace);
    trace := trace + [Sleep(SleepMicros)];
  }
}
