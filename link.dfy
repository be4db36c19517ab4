/** InitWiFi: bounded wait for the station to associate with the access point. */
module Link {
  import opened Events

  /** What WiFi.status() reports (wl_status_t of the ESP8266 core). */
  datatype WlStatus =
    | NoShield | IdleStatus | NoSsidAvail | ScanCompleted | Connected
    | ConnectFailed | ConnectionLost | WrongPassword | Disconnected

  /** The loop body runs at most this often: `i++ > 5` breaks on the seventh pass. */
  const MaxPasses: nat := 7

  const PollDelayMs: nat := 1000

  /** The index of the first of the status polls k, k+1, ..., 6 that reports Connected, or 7 if none does. */
  function FirstConnectedFrom(status: nat -> WlStatus, k: nat): (r: nat)
    requires k <= MaxPasses
    ensures k <= r <= MaxPasses
    ensures r < MaxPasses ==> status(r) == Connected
    ensures forall l :: k <= l < r ==> status(l) != Connected
    decreases MaxPasses - k
  {
    if k == MaxPasses then MaxPasses
    else if status(k) == Connected then k
    else FirstConnectedFrom(status, k + 1)
  }

  /** Passes through the body of the wait loop, so also the number of delay(1000) calls.
      The n-th call of WiFi.status() (from 0) reports status(n). */
  function WaitPasses(status: nat -> WlStatus): nat
  {
    FirstConnectedFrom(status, 0)
  }

  /** Index of the WiFi.status() call after the loop that decides the result: the loop
      head read WaitPasses + 1 times when it saw Connected, 7 times when the counter broke it. */
  function FinalRead(status: nat -> WlStatus): nat
  {
    var p := WaitPasses(status);
    if p < MaxPasses then p + 1 else MaxPasses
  }

  predicate WiFiConnects(status: nat -> WlStatus)
  {
    status(FinalRead(status)) == Connected
  }

  method InitWiFi(status: nat -> WlStatus) returns (ok: bool, trace: seq<Event>)
    ensures trace == [WiFiBegin] + Delays(PollDelayMs, WaitPasses(status))
    ensures ok <==> status(FinalRead(status)) == Connected
    ensures forall i :: 0 <= i < |trace| ==> trace[i] == WiFiBegin || trace[i] == Delay(1000)
    ensures DelayTotal(trace) <= 7000
  {
    var i := 0;
    var polls := 0;  // WiFi.status() calls made so far
    trace := [WiFiBegin];
    while true
      invariant i <= 6 && polls == i
      invariant forall l :: 0 <= l < polls ==> status(l) != Connected
      invariant trace == [WiFiBegin] + Delays(PollDelayMs, i)
      decreases MaxPasses - i
    {
      var s := status(polls);
      polls := polls + 1;
      if s == Connected {
        break;
      }
      trace := trace + [Delay(PollDelayMs)];
      var pass := i;
      i := i + 1;
      if pass > 5 {
        break;
      }
    }
    assert i == WaitPasses(status) && polls == FinalRead(status);
    ok := status(polls) == Connected;
    DelayTotalAppend([WiFiBegin], Delays(PollDelayMs, i));
    DelaysTotal(PollDelayMs, i);
  }

  /** A link that never reports Connected: seven delays of one second, then failure. */
  lemma NeverConnected(status: nat -> WlStatus)
    requires forall k :: 0 <= k <= MaxPasses ==> status(k) != Connected
    ensures WaitPasses(status) == 7 && FinalRead(status) == 7 && !WiFiConnects(status)
  {
  }

  /** A link that associates at read j < 7 and stays up: j delays, then success. */
  lemma ConnectsAt(status: nat -> WlStatus, j: nat)
    requires j < MaxPasses
    requires forall k :: 0 <= k < j ==> status(k) != Connected
    requires status(j) == Connected && status(j + 1) == Connected
    ensures WaitPasses(status) == j && WiFiConnects(status)
  {
  }
}
