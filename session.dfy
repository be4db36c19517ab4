/** connect(): bounded retry of the MQTT session with the telemetry server.

    The n-th call of client.connected() (from 0) reports connected(n), and the n-th call of
    client.connect(...) reports attempt(n). Both are made once per pass of the loop, so n is
    also the pass number. */
module Session {
  import opened Events

  /** A failed attempt is followed by delay(5000); the sixth failure ends the loop (`i > 5`). */
  const MaxFailures: nat := 6
  const RetryDelayMs: nat := 5000

  /** Failed client.connect calls among the first n. */
  function Failures(attempt: nat -> bool, n: nat): (r: nat)
    ensures r <= n
  {
    if n == 0 then 0 else Failures(attempt, n - 1) + (if attempt(n - 1) then 0 else 1)
  }

  /** The loop does not start pass m: client.connected() reports true at its head, or six
      attempts out of the first m have failed and the counter broke the loop. */
  predicate StopsBefore(connected: nat -> bool, attempt: nat -> bool, m: nat)
  {
    connected(m) || Failures(attempt, m) >= MaxFailures
  }

  /** Pass j is run: nothing stopped the loop before it, so client.connect is called a (j+1)-th time. */
  predicate Attempted(connected: nat -> bool, attempt: nat -> bool, j: nat)
  {
    forall l: nat :: l <= j ==> !StopsBefore(connected, attempt, l)
  }

  /** The loop ends. Successes do not advance the counter, so when client.connected()
      keeps reporting false after a successful connect the source loops for ever. */
  ghost predicate Terminates(connected: nat -> bool, attempt: nat -> bool)
  {
    exists m: nat :: StopsBefore(connected, attempt, m)
  }

  /** The value connect() returns: some client.connect call it made succeeded. */
  ghost predicate ConnectSucceeds(connected: nat -> bool, attempt: nat -> bool)
  {
    exists j: nat :: Attempted(connected, attempt, j) && attempt(j)
  }

  /** Some client.connect call among the first n succeeded. */
  function Succeeded(attempt: nat -> bool, n: nat): (r: bool)
    ensures r <==> exists j: nat :: j < n && attempt(j)
  {
    if n == 0 then false
    else
      var r := Succeeded(attempt, n - 1) || attempt(n - 1);
      assert r ==> exists j: nat :: j < n && attempt(j) by {
        if attempt(n - 1) { assert n - 1 < n; }
      }
      r
  }

  /** The events of one pass: the attempt, and delay(5000) when it failed. */
  function PassEvents(succeeded: bool): (r: seq<Event>)
    ensures Count(r, ConnectAttempt) == 1
    ensures Count(r, Delay(RetryDelayMs)) == if succeeded then 0 else 1
    ensures forall i :: 0 <= i < |r| ==> r[i] == ConnectAttempt || r[i] == Delay(RetryDelayMs)
    ensures DelayTotal(r) == if succeeded then 0 else RetryDelayMs
  {
    if succeeded then
      assert [ConnectAttempt][1..] == [];
      [ConnectAttempt]
    else
      var r := [ConnectAttempt, Delay(RetryDelayMs)];
      assert r[1..] == [Delay(RetryDelayMs)] && r[1..][1..] == [];
      assert DelayTotal(r[1..]) == RetryDelayMs && Count(r[1..], ConnectAttempt) == 0;
      r
  }

  /** The events of the first n passes: each makes one attempt, and a failed one is
      followed by exactly one delay(5000). */
  function ConnectTrace(attempt: nat -> bool, n: nat): seq<Event>
  {
    if n == 0 then [] else ConnectTrace(attempt, n - 1) + PassEvents(attempt(n - 1))
  }

  /** One client.connect call per pass. */
  lemma {:induction false} ConnectTraceAttempts(attempt: nat -> bool, n: nat)
    ensures Count(ConnectTrace(attempt, n), ConnectAttempt) == n
  {
    if n > 0 {
      var before, last := ConnectTrace(attempt, n - 1), PassEvents(attempt(n - 1));
      ConnectTraceAttempts(attempt, n - 1);
      CountAppend(before, last, ConnectAttempt);
    }
  }

  /** One delay(5000) per failed attempt. */
  lemma {:induction false} ConnectTraceRetries(attempt: nat -> bool, n: nat)
    ensures Count(ConnectTrace(attempt, n), Delay(RetryDelayMs)) == Failures(attempt, n)
  {
    if n > 0 {
      var before, last := ConnectTrace(attempt, n - 1), PassEvents(attempt(n - 1));
      ConnectTraceRetries(attempt, n - 1);
      CountAppend(before, last, Delay(RetryDelayMs));
    }
  }

  /** Nothing but attempts and retry delays. */
  lemma {:induction false} ConnectTraceKinds(attempt: nat -> bool, n: nat)
    ensures forall i :: 0 <= i < |ConnectTrace(attempt, n)| ==>
      ConnectTrace(attempt, n)[i] == ConnectAttempt || ConnectTrace(attempt, n)[i] == Delay(RetryDelayMs)
  {
    if n > 0 {
      var before, last := ConnectTrace(attempt, n - 1), PassEvents(attempt(n - 1));
      ConnectTraceKinds(attempt, n - 1);
      forall i | 0 <= i < |before + last| ensures (before + last)[i] == ConnectAttempt || (before + last)[i] == Delay(RetryDelayMs) {
        if i < |before| {
          assert (before + last)[i] == before[i];
        } else {
          assert (before + last)[i] == last[i - |before|];
        }
      }
    }
  }

  /** Five seconds of waiting per failed attempt. */
  lemma {:induction false} ConnectTraceDelays(attempt: nat -> bool, n: nat)
    ensures DelayTotal(ConnectTrace(attempt, n)) == RetryDelayMs * Failures(attempt, n)
  {
    if n > 0 {
      ConnectTraceDelays(attempt, n - 1);
      DelayTotalAppend(ConnectTrace(attempt, n - 1), PassEvents(attempt(n - 1)));
    }
  }

  /** Number of client.connect calls in a trace. */
  function Attempts(t: seq<Event>): nat
  {
    Count(t, ConnectAttempt)
  }

  method Connect(connected: nat -> bool, attempt: nat -> bool) returns (ok: bool, trace: seq<Event>)
    requires Terminates(connected, attempt)
    ensures trace == ConnectTrace(attempt, Attempts(trace))
    ensures forall j: nat :: Attempted(connected, attempt, j) <==> j < Attempts(trace)
    ensures ok == Succeeded(attempt, Attempts(trace))
    ensures ok == ConnectSucceeds(connected, attempt)
    ensures Failures(attempt, Attempts(trace)) <= MaxFailures
    ensures Count(trace, Delay(RetryDelayMs)) == Failures(attempt, Attempts(trace))
    ensures DelayTotal(trace) <= MaxFailures * RetryDelayMs
    ensures connected(0) ==> !ok && trace == []
  {
    ok := false;
    var i := 0;
    var pass := 0;  // client.connected() and client.connect() calls so far
    trace := [];
    ghost var stop: nat :| StopsBefore(connected, attempt, stop);
    while !connected(pass)
      invariant i == Failures(attempt, pass) && i < MaxFailures
      invariant forall l: nat :: l < pass ==> !StopsBefore(connected, attempt, l)
      invariant pass <= stop
      invariant trace == ConnectTrace(attempt, pass)
      invariant ok == Succeeded(attempt, pass)
      decreases stop - pass
    {
      assert !StopsBefore(connected, attempt, pass);
      if attempt(pass) {
        ok := true;
        trace := trace + PassEvents(true);
      } else {
        trace := trace + PassEvents(false);
        i := i + 1;
      }
      pass := pass + 1;
      if i > 5 {
        break;
      }
    }
    LoopExit(connected, attempt, pass, ok, trace);
  }

  /** What the loop leaves behind when it stops before pass n and not earlier. */
  lemma LoopExit(connected: nat -> bool, attempt: nat -> bool, n: nat, ok: bool, trace: seq<Event>)
    requires StopsBefore(connected, attempt, n)
    requires forall l: nat :: l < n ==> !StopsBefore(connected, attempt, l)
    requires Failures(attempt, n) <= MaxFailures
    requires trace == ConnectTrace(attempt, n) && ok == Succeeded(attempt, n)
    ensures Attempts(trace) == n
    ensures Count(trace, Delay(RetryDelayMs)) == Failures(attempt, n)
    ensures DelayTotal(trace) <= MaxFailures * RetryDelayMs
    ensures forall j: nat :: Attempted(connected, attempt, j) <==> j < n
    ensures ok == ConnectSucceeds(connected, attempt)
    ensures connected(0) ==> !ok && trace == []
  {
    assert n > 0 ==> !StopsBefore(connected, attempt, 0);
    ConnectTraceAttempts(attempt, n);
    ConnectTraceRetries(attempt, n);
    ConnectTraceDelays(attempt, n);
    RunLength(connected, attempt, n);
  }

  /** When the loop stops before pass n and not earlier, exactly passes 0 .. n-1 ran, and
      connect() succeeds iff one of their attempts did. */
  lemma RunLength(connected: nat -> bool, attempt: nat -> bool, n: nat)
    requires StopsBefore(connected, attempt, n)
    requires forall l: nat :: l < n ==> !StopsBefore(connected, attempt, l)
    ensures forall j: nat :: Attempted(connected, attempt, j) <==> j < n
    ensures ConnectSucceeds(connected, attempt) == Succeeded(attempt, n)
  {
    forall j: nat ensures Attempted(connected, attempt, j) <==> j < n {
      if j >= n {
        assert !(n <= j ==> !StopsBefore(connected, attempt, n));
      }
    }
  }

  /** What PubSubClient guarantees: right after client.connect succeeded, client.connected()
      reports true (no TCP drop between the two calls). */
  ghost predicate SessionSticks(connected: nat -> bool, attempt: nat -> bool)
  {
    forall k: nat :: attempt(k) ==> connected(k + 1)
  }

  /** Under that guarantee every pass before the last one failed. */
  lemma {:induction false} EarlierPassesFailed(connected: nat -> bool, attempt: nat -> bool, j: nat)
    requires SessionSticks(connected, attempt)
    requires Attempted(connected, attempt, j)
    ensures Failures(attempt, j) == j
    ensures forall l: nat :: l < j ==> !attempt(l)
  {
    if j > 0 {
      assert Attempted(connected, attempt, j - 1);
      EarlierPassesFailed(connected, attempt, j - 1);
      assert !StopsBefore(connected, attempt, j);
      assert attempt(j - 1) ==> connected(j);
    }
  }

  /** Under that guarantee connect() always ends, after at most six attempts, of which
      only the last can have succeeded. */
  lemma StickyTerminates(connected: nat -> bool, attempt: nat -> bool)
    requires SessionSticks(connected, attempt)
    ensures Terminates(connected, attempt)
    ensures forall j: nat :: Attempted(connected, attempt, j) ==> j < MaxFailures
    ensures forall j: nat :: Attempted(connected, attempt, j) && attempt(j) ==> !Attempted(connected, attempt, j + 1)
  {
    forall j: nat | Attempted(connected, attempt, j) ensures j < MaxFailures {
      EarlierPassesFailed(connected, attempt, j);
      assert !StopsBefore(connected, attempt, j);
    }
    forall j: nat | Attempted(connected, attempt, j) && attempt(j) ensures !Attempted(connected, attempt, j + 1) {
      assert connected(j + 1);
      assert StopsBefore(connected, attempt, j + 1);
    }
    StopWithin(connected, attempt, 0);
  }

  /** Under that guarantee, once passes 0 .. k-1 have run the loop stops at some m with k <= m <= 6. */
  lemma {:induction false} StopWithin(connected: nat -> bool, attempt: nat -> bool, k: nat)
    requires SessionSticks(connected, attempt)
    requires k <= MaxFailures
    requires forall l: nat :: l < k ==> !StopsBefore(connected, attempt, l)
    ensures exists m: nat :: k <= m <= MaxFailures && StopsBefore(connected, attempt, m)
    decreases MaxFailures - k
  {
    if !StopsBefore(connected, attempt, k) {
      assert Attempted(connected, attempt, k);
      EarlierPassesFailed(connected, attempt, k);
      if k == MaxFailures - 1 {
        if attempt(k) {
          assert StopsBefore(connected, attempt, k + 1);
        } else {
          assert Failures(attempt, k + 1) == MaxFailures;
          assert StopsBefore(connected, attempt, k + 1);
        }
      } else {
        StopWithin(connected, attempt, k + 1);
      }
    }
  }

  /** A server that never accepts: six attempts, each followed by one delay(5000), then false. */
  lemma NeverAccepted(connected: nat -> bool, attempt: nat -> bool)
    requires forall k: nat :: k < MaxFailures ==> !connected(k) && !attempt(k)
    ensures forall j: nat :: Attempted(connected, attempt, j) <==> j < MaxFailures
    ensures Failures(attempt, MaxFailures) == MaxFailures
    ensures !ConnectSucceeds(connected, attempt)
  {
    AllFailed(attempt, MaxFailures);
    forall j: nat ensures Attempted(connected, attempt, j) <==> j < MaxFailures {
      if j < MaxFailures {
        forall l: nat | l <= j ensures !StopsBefore(connected, attempt, l) {
          AllFailed(attempt, l);
        }
      } else {
        assert StopsBefore(connected, attempt, MaxFailures);
      }
    }
  }

  lemma {:induction false} AllFailed(attempt: nat -> bool, n: nat)
    requires forall k: nat :: k < n ==> !attempt(k)
    ensures Failures(attempt, n) == n
  {
    if n > 0 {
      AllFailed(attempt, n - 1);
    }
  }
}
