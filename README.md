# SHT3x to ThingsBoard wake cycle, in Dafny

The sketch `src/sht3x_to_thingsboard.cpp` runs on a Wemos D1 mini (ESP8266). It does all its
work in `setup()`, once per wake-up:

1. It switches the LED off.
2. It starts the SHT31 sensor at I2C address 0x45.
3. It joins the Wi-Fi network, polling for at most seven seconds.
4. It opens an MQTT session with a ThingsBoard server on port 1883, trying up to six failed times.
5. It reads temperature and humidity and publishes them as JSON on `v1/devices/me/telemetry`.
6. It blinks the LED in a success or a failure pattern.
7. It deep-sleeps for 300 s.

The first stage that fails goes straight to the failure pattern and its deep sleep.

The model turns each function of the sketch into a Dafny method. Each method returns the
sketch's result and the **trace** of the calls it makes into the board and its libraries
(`Events.Event`): LED writes, delays, `WiFi.begin`, `client.setServer`, `client.connect`,
sensor reads, `client.publish`, `client.loop` and `ESP.deepSleep`. What the hardware and
the libraries answer comes in as parameters:

- `status(n)` is the n-th answer of `WiFi.status()`.
- `connected(n)` and `attempt(n)` are the answers of `client.connected()` and
  `client.connect(...)` in the n-th pass of the connect loop.
- `sensorFound` is the answer of `sht31.begin`.
- The readings are `Report.Reading`: NaN, or the text `String(float)` makes of the value.
- `publishOk` is the answer of `client.publish`.

The modules follow the sketch:

- `Events`: events, and measures over traces (delay time, LOW pulses, last LED level, counts).
- `Indicator`: the two blink patterns.
- `Link`: `InitWiFi`.
- `Session`: `connect`.
- `Report`: `getAndSendTemperatureAndHumidityData`, the 100-byte buffer and the JSON payload.
- `Cycle`: `setup`.

Four facts about the code are easy to misread, and the model follows each:

- **Publish result.** `client.publish`'s result is only logged. The result that
  `getAndSendTemperatureAndHumidityData` returns is `ret`, and `ret` depends on the
  readings alone. A rejected publish therefore still counts as a success.
- **Wi-Fi polling.** The wait loop's guard `i++ > 5` lets its body run seven times. That
  makes up to seven `delay(1000)` calls. Counting the check after the loop, that is up to
  eight `WiFi.status()` calls.
- **Order of stages.** `setup()` calls `sht31.begin` first but reads the sensor last, only
  after Wi-Fi and MQTT are up.
- **Retry counting.** `connect()` counts only failed attempts. A successful `client.connect`
  that `client.connected()` does not confirm keeps the loop going, without a bound.

## Model

| member | source | states |
|---|---|---|
| `Indicator.Flash` | src/sht3x_to_thingsboard.cpp:175-177 | LOW, delay, HIGH is one LOW pulse of that length, starting with the LOW write; one LOW write, LED left HIGH, no sleep |
| `Indicator.FlashPhases` | src/sht3x_to_thingsboard.cpp:175-177 | the LED phases of a pulse: LOW for its length, then HIGH |
| `Indicator.Beat` | src/sht3x_to_thingsboard.cpp:193-196 | a delay followed by a pulse: one pulse, gap plus pulse of waiting, LED left HIGH |
| `Indicator.BeatPhases` | src/sht3x_to_thingsboard.cpp:193-196 | after a HIGH phase, a gap and a pulse lengthen that HIGH phase by the gap, then add the LOW phase of the pulse and a new HIGH phase |
| `Indicator.BlinkSuccessAndSleep` | src/sht3x_to_thingsboard.cpp:173-186 | the LED phases are exactly LOW 500 ms, HIGH 500 ms, LOW 500 ms, then HIGH until the sleep; two LOW writes, pulses [500, 500], 1500 ms of delays, starts with the LOW write, ends in the one deep sleep of 300 000 000 µs |
| `Indicator.BlinkFailedAndSleep` | src/sht3x_to_thingsboard.cpp:188-208 | the LED phases are exactly LOW 500, HIGH 500, then LOW 50 and HIGH 200 twice, LOW 50, then HIGH until the sleep; four LOW writes, pulses [500, 50, 50, 50], 1550 ms of delays, same deep sleep as on success |
| `Link.FirstConnectedFrom` | src/sht3x_to_thingsboard.cpp:125-133 | the first status poll from k on that reports connected, or 7: every poll before it reports not connected |
| `Link.InitWiFi` | src/sht3x_to_thingsboard.cpp:117-144 | `WiFi.begin`, then one `delay(1000)` per loop pass up to the first connected poll, at most 7 (7000 ms); returns true iff the status read after the loop is connected |
| `Link.NeverConnected` | src/sht3x_to_thingsboard.cpp:125-143 | a link that never connects costs seven delays and fails |
| `Link.ConnectsAt` | src/sht3x_to_thingsboard.cpp:125-138 | a link that connects at poll j < 7 and stays up costs j delays and succeeds |
| `Session.Succeeded` | src/sht3x_to_thingsboard.cpp:155-157 | true iff one of the first n `client.connect` calls succeeded |
| `Session.PassEvents` | src/sht3x_to_thingsboard.cpp:155-165 | one pass makes one attempt, and a `delay(5000)` exactly when the attempt failed |
| `Session.ConnectTraceAttempts` | src/sht3x_to_thingsboard.cpp:152-155 | n passes make exactly n `client.connect` calls |
| `Session.ConnectTraceRetries` | src/sht3x_to_thingsboard.cpp:158-164 | n passes make one `delay(5000)` per failed attempt among them |
| `Session.ConnectTraceKinds` | src/sht3x_to_thingsboard.cpp:152-168 | the connect loop emits only attempts and retry delays |
| `Session.ConnectTraceDelays` | src/sht3x_to_thingsboard.cpp:163 | n passes wait 5000 ms per failed attempt |
| `Session.Connect` | src/sht3x_to_thingsboard.cpp:146-170 | exactly the passes nothing stopped are run; at most six failures, each followed by one `delay(5000)`, at most 30 000 ms; returns true iff some `client.connect` call of this invocation succeeded; already connected on entry means no attempt and false |
| `Session.LoopExit` | src/sht3x_to_thingsboard.cpp:152-169 | when the loop stops before pass n and not earlier: n attempts, one delay per failure, and the result is whether an attempt succeeded |
| `Session.RunLength` | src/sht3x_to_thingsboard.cpp:152-169 | the passes run are exactly 0 .. n-1, and connect succeeds iff one of their attempts did |
| `Session.EarlierPassesFailed` | src/sht3x_to_thingsboard.cpp:152-165 | when a successful connect is confirmed by the next `client.connected()`, every pass before a running one failed |
| `Session.StopWithin` | src/sht3x_to_thingsboard.cpp:152-168 | under that confirmation the loop stops by the sixth pass |
| `Session.StickyTerminates` | src/sht3x_to_thingsboard.cpp:152-168 | under that confirmation connect always ends, after at most six passes, and only the last attempt can have succeeded |
| `Session.NeverAccepted` | src/sht3x_to_thingsboard.cpp:152-169 | a server that never accepts gets exactly six attempts, and connect fails |
| `Session.AllFailed` | src/sht3x_to_thingsboard.cpp:158-164 | n failed attempts count n failures |
| `Report.IndexOf` | src/sht3x_to_thingsboard.cpp:101-102 | the first position of a character, with no earlier occurrence, or the length |
| `Report.CString` | src/sht3x_to_thingsboard.cpp:104-106 | the text a char buffer holds is its NUL-free prefix ending at the first NUL |
| `Report.CStringUnique` | src/sht3x_to_thingsboard.cpp:104-106 | any NUL-free prefix that ends at a NUL or at the end is that text |
| `Report.Transmitted` | src/sht3x_to_thingsboard.cpp:101-106 | what publish sends is a NUL-free prefix of the payload of at most 99 characters |
| `Report.ToCharArray` | src/sht3x_to_thingsboard.cpp:101-102 | `toCharArray` copies the first min(len, size - 1) characters strncpy-style and puts a NUL after them; the buffer then reads as that prefix |
| `Report.GetAndSend` | src/sht3x_to_thingsboard.cpp:65-115 | returns true iff neither reading is NaN, whatever publish returns; with a NaN it only reads and never publishes; otherwise it publishes on `v1/devices/me/telemetry` the payload `{"temperature":T,"humidity":H}` cut to min(length, 99) characters and at any NUL |
| `Report.ParseJsonRoundTrip` | src/sht3x_to_thingsboard.cpp:94-98 | when the temperature text has no comma (which `String(float)` never produces), the payload parses back to the two readings it was built from |
| `Report.ParseJsonSound` | src/sht3x_to_thingsboard.cpp:94-98 | every text the parser accepts is a payload built by lines 94-98 |
| `Report.ShortPayloadSentWhole` | src/sht3x_to_thingsboard.cpp:94-106 | readings of at most 71 characters together are sent whole and parse back |
| `Report.LongPayloadCut` | src/sht3x_to_thingsboard.cpp:94-106 | longer readings are cut at 99 characters and the text sent no longer parses |
| `Cycle.FirstFailure` | src/sht3x_to_thingsboard.cpp:33-57 | the outcome is Success iff every stage's check passes |
| `Cycle.FirstFailureStages` | src/sht3x_to_thingsboard.cpp:33-57 | each stage fails iff it is the first that fails, and a stage runs iff all earlier ones passed |
| `Cycle.ReportEventsFacts` | src/sht3x_to_thingsboard.cpp:49-53 | the last stage always reads the sensor; it makes the publish and then `client.loop`, as its last call, exactly when it succeeded; otherwise it publishes nothing; it waits for nothing and makes no Wi-Fi, server or connect call |
| `Cycle.ReportStage` | src/sht3x_to_thingsboard.cpp:49-53 | succeeds iff both readings are numbers; then its calls are, in this order, the reads, the publish of the JSON payload on `v1/devices/me/telemetry` and `client.loop`; otherwise they are the reads alone |
| `Cycle.WiFiEventsFacts` | src/sht3x_to_thingsboard.cpp:121-133 | the Wi-Fi stage makes `WiFi.begin` and one 1000 ms delay per wait-loop pass, and nothing else: no LED write, no sleep, no connect, no other stage's call |
| `Cycle.ServerEventsFacts` | src/sht3x_to_thingsboard.cpp:43-57 | from `client.setServer(…, 1883)` on: `setServer` is the first call; n passes make n attempts and wait 5000 ms per failure; the sensor is read iff the session came up; `client.loop` is the last call, and the payload is published, exactly on success; otherwise nothing is published |
| `Cycle.ServerStages` | src/sht3x_to_thingsboard.cpp:43-57 | the outcome is the first failure once the sensor and Wi-Fi are up; the calls are, in this order, `setServer(…, 1883)`, the connect loop and, only when the session came up, the last stage; the loop makes exactly the passes nothing stopped (pass j runs iff j is below the attempt count); at most six failed attempts |
| `Cycle.StageEventsMembers` | src/sht3x_to_thingsboard.cpp:27-57 | the calls before the blink pattern start with the LED off and `sht31.begin(0x45)`; `WiFi.begin`, `setServer` and the reads appear exactly when their stage ran; `client.loop` appears exactly on success |
| `Cycle.StageEventsPublish` | src/sht3x_to_thingsboard.cpp:49-57 | on success `client.loop` is the last call before the blink pattern and the payload is published; otherwise nothing is published |
| `Cycle.StageEventsQuiet` | src/sht3x_to_thingsboard.cpp:27-57 | before the blink pattern there is no LOW write and no sleep; all connect attempts come from the connect loop, and only if it ran |
| `Cycle.StageEventsDelays` | src/sht3x_to_thingsboard.cpp:27-57 | the waiting before the blink pattern is the waiting of the Wi-Fi and server stages that ran |
| `Cycle.PartsInOrder` | src/sht3x_to_thingsboard.cpp:27-57 | combines the four lemmas above into one statement about the calls before the blink pattern |
| `Cycle.PartsLedFree` | src/sht3x_to_thingsboard.cpp:38-57 | no call from the Wi-Fi stage to the last stage writes the LED |
| `Cycle.StageEventsPhases` | src/sht3x_to_thingsboard.cpp:27-57 | until the blink pattern the LED is in the one HIGH phase of the first write, for all the stages' waiting |
| `Cycle.PartsOf` | src/sht3x_to_thingsboard.cpp:43-57 | the Wi-Fi stage's calls and the calls from `setServer` on have what the lemmas above need; they write no LED and wait at most 7000 ms and 30 000 ms |
| `Cycle.StagesInOrder` | src/sht3x_to_thingsboard.cpp:33-57 | in terms of the stage results: `WiFi.begin` iff the sensor was found; `setServer` iff Wi-Fi also came up; the reads iff the session also came up; `client.loop` last and a publish only on success; at most 37 000 ms of delays |
| `Cycle.RunStages` | src/sht3x_to_thingsboard.cpp:27-57 | the outcome is the first failure; the calls are, in this order, the LED off, `sht31.begin(0x45)`, the Wi-Fi stage if the sensor was found, then `setServer`, the connect loop and the last stage if Wi-Fi came up; when the connect loop ran, it made exactly the passes nothing stopped; at most six failed attempts |
| `Cycle.AfterStages` | src/sht3x_to_thingsboard.cpp:33-57 | appending a blink pattern keeps the stage calls as a prefix; it adds no stage call, no connect attempt and no publish, and the LED, sleep and delay measures become the pattern's own |
| `Cycle.CycleTrace` | src/sht3x_to_thingsboard.cpp:25-58 | the stage calls followed by the pattern of the outcome: they start with the LED off and `sht31.begin`, end in the one deep sleep, show that pattern's LOW writes, pulses and LED phases after one HIGH phase over the stages, and hold each stage's calls exactly when it ran |
| `Cycle.Setup` | src/sht3x_to_thingsboard.cpp:25-58 | the first failing stage decides the outcome; the trace is the stage calls in the order `setup()` makes them, followed by the 8 calls of the success pattern or the 16 of the failure pattern; the LED is HIGH for all the stages' waiting, then goes through exactly the phases of that pattern; `client.loop` comes right before the success pattern; the connect loop, when reached, makes exactly the passes nothing stopped, so none when already connected; the trace starts with the LED off and `sht31.begin(0x45)` and ends in exactly one deep sleep of 300 s; the sensor is read only after Wi-Fi and MQTT succeeded; a publish only on success; at most 38 550 ms of delays |

## Left out

- Serial output (`Serial.begin`, `print`, `println`) and `client.state()`: diagnostics only, no effect on control flow.
- `pinMode(D4, OUTPUT)` and `pinMode(D0, WAKEUP_PULLUP)`: pin configuration is not traced.
- `WiFi.mode(WIFI_STA)` is folded into the `WiFiBegin` event.
- `sht31.readTemperature()` and `sht31.readHumidity()` are folded into one `ReadSensor` event. The code makes them back to back, temperature first, so the trace does not show their order.
- The server host, SSID, password, token and client id come from `credentials.h`, which is not part of this model.
- `String(float)` formatting: a reading is the text it produces, taken as given.
- The sketch's empty `loop()`: deep sleep ends every cycle, so it never runs.
- The `delay(100)` after `ESP.deepSleep`: it is never reached.
- `updateInterval * 1e6` is computed in floating point. It is modelled as the exact integer 300 000 000, which the double represents exactly.
- The library side of `client.publish` (packet framing, size limit) is not modelled. Its answer is a parameter that the sketch ignores.
- Session.Connect: requires that the loop ends (`Terminates`). The code counts only failed attempts, so a successful `client.connect` that `client.connected()` never confirms loops for ever. `Session.StickyTerminates` proves that the loop ends whenever the library confirms a successful connect on the next check.
- Cycle.Setup: requires `Terminates` only when the MQTT stage is reached, for the same reason.
- Time spent inside library calls is not modelled. Only `delay` time is counted in the traces.
