/** getAndSendTemperatureAndHumidityData: read the SHT31, build the JSON telemetry text,
    copy it into the 100-byte C buffer and publish that buffer. */
module Report {
  import opened Events

  /** One sensor reading: NaN, or the text String(float) makes of a number. */
  datatype Reading = NaN | Value(text: string)

  const Topic: string := "v1/devices/me/telemetry"

  /** `char attributes[100]`: room for 99 characters and the terminating NUL. */
  const BufferSize: nat := 100

  const TemperatureKey: string := "{\"temperature\":"
  const HumidityKey: string := ",\"humidity\":"

  function Min(a: nat, b: nat): nat
  {
    if a <= b then a else b
  }

  /** The payload String the source builds piece by piece. */
  function Json(t: string, h: string): string
  {
    TemperatureKey + t + HumidityKey + h + "}"
  }

  /** Position of the first c in s, |s| when there is none. */
  function IndexOf(s: string, c: char): (r: nat)
    ensures r <= |s|
    ensures r < |s| ==> s[r] == c
    ensures forall k :: 0 <= k < r ==> s[k] != c
  {
    if |s| == 0 then 0
    else if s[0] == c then 0
    else 1 + IndexOf(s[1..], c)
  }

  /** The characters of a char buffer read as a C string: everything before the first NUL. */
  function CString(s: string): (r: string)
    ensures r <= s
    ensures '\0' !in r
    ensures |r| < |s| ==> s[|r|] == '\0'
  {
    if |s| == 0 || s[0] == '\0' then []
    else
      var rest := CString(s[1..]);
      assert [s[0]] + rest <= s by {
        assert s == [s[0]] + s[1..];
      }
      [s[0]] + rest
  }

  /** A NUL-free prefix that ends at a NUL or at the end is the C string. */
  lemma {:induction false} CStringUnique(p: string, s: string)
    requires p <= s && '\0' !in p
    requires |p| == |s| || s[|p|] == '\0'
    ensures CString(s) == p
  {
    var r := CString(s);
    assert r == s[..|r|] && p == s[..|p|];
  }

  /** What client.publish sends when handed the buffer filled from payload: its first
      min(|payload|, 99) characters, up to any NUL among them. */
  function Transmitted(payload: string): (r: string)
    ensures |r| <= BufferSize - 1
    ensures r <= payload
    ensures '\0' !in r
  {
    CString(payload[..Min(|payload|, BufferSize - 1)])
  }

  /** strncpy into a buffer: position k holds src[k] before the first NUL of src[..n] and
      NUL from there on. */
  predicate CopiedUpTo(src: string, n: nat, buf: seq<char>, k: nat)
    requires n <= |src| && k <= n && k <= |buf|
  {
    var c := IndexOf(src[..n], '\0');
    forall j :: 0 <= j < k ==> buf[j] == if j < c then src[j] else '\0'
  }

  /** String::toCharArray(buf, size): copy at most size - 1 characters with strncpy and
      terminate with a NUL; a zero-sized buffer is left alone. */
  method ToCharArray(s: string, buf: array<char>)
    modifies buf
    ensures buf.Length == 0 ==> buf[..] == old(buf[..])
    ensures buf.Length > 0 ==> CopiedUpTo(s, Min(|s|, buf.Length - 1), buf[..], Min(|s|, buf.Length - 1))
    ensures buf.Length > 0 ==> buf[Min(|s|, buf.Length - 1)] == '\0'
    ensures buf.Length > 0 ==> forall j :: Min(|s|, buf.Length - 1) < j < buf.Length ==> buf[j] == old(buf[j])
    ensures buf.Length > 0 ==> CString(buf[..]) == CString(s[..Min(|s|, buf.Length - 1)])
  {
    if buf.Length == 0 {
      return;
    }
    var n := Min(|s|, buf.Length - 1);
    ghost var c := IndexOf(s[..n], '\0');
    var k := 0;
    var ended := false;
    while k < n
      invariant k <= n
      invariant ended <==> c < k
      invariant CopiedUpTo(s, n, buf[..], k)
      invariant forall j :: k <= j < buf.Length ==> buf[j] == old(buf[j])
    {
      if !ended && s[k] == '\0' {
        ended := true;
      }
      buf[k] := if ended then '\0' else s[k];
      k := k + 1;
    }
    buf[n] := '\0';
    assert CopiedUpTo(s, n, buf[..], n);
    assert buf[..][..c] == s[..n][..c];
    CStringUnique(s[..c], buf[..]);
    CStringUnique(s[..c], s[..n]);
  }

  /** Reads both values; with a NaN among them returns false without publishing, otherwise
      publishes the JSON text through the buffer and returns true whatever publish reports. */
  method GetAndSend(temperature: Reading, humidity: Reading, publishOk: bool) returns (ok: bool, trace: seq<Event>)
    ensures ok <==> temperature.Value? && humidity.Value?
    ensures !ok ==> trace == [ReadSensor]
    ensures ok ==> trace == [ReadSensor, Publish(Topic, Transmitted(Json(temperature.text, humidity.text)))]
  {
    trace := [ReadSensor];
    ok := true;
    if temperature.NaN? {
      ok := false;
    }
    if humidity.NaN? {
      ok := false;
    }
    if !ok {
      return;
    }
    var payload := "{";
    payload := payload + "\"temperature\":";
    payload := payload + temperature.text;
    payload := payload + ",";
    payload := payload + "\"humidity\":";
    payload := payload + humidity.text;
    payload := payload + "}";
    assert payload == Json(temperature.text, humidity.text);
    var attributes := new char[BufferSize];
    ToCharArray(payload, attributes);
    // publishOk, what client.publish reports, is only logged
    trace := trace + [Publish(Topic, CString(attributes[..]))];
  }

  /** The parser a consumer applies: the two values between the keys, if the text has the
      shape the sketch produces. */
  function ParseJson(s: string): Option<(string, string)>
  {
    var n := |s|;
    if n < |TemperatureKey| + |HumidityKey| + 1 || s[..|TemperatureKey|] != TemperatureKey || s[n - 1] != '}' then None
    else
      var body := s[|TemperatureKey|..n - 1];
      var c := IndexOf(body, ',');
      if |body| - c < |HumidityKey| || body[c..c + |HumidityKey|] != HumidityKey then None
      else Some((body[..c], body[c + |HumidityKey|..]))
  }

  /** The payload is read back as the two values it was built from, provided the
      temperature text holds no comma (String(float) never does). */
  lemma ParseJsonRoundTrip(t: string, h: string)
    requires ',' !in t
    ensures ParseJson(Json(t, h)) == Some((t, h))
  {
    var s := Json(t, h);
    var n := |s|;
    assert s[..|TemperatureKey|] == TemperatureKey;
    var body := s[|TemperatureKey|..n - 1];
    assert body == t + HumidityKey + h;
    var c := IndexOf(body, ',');
    assert body[|t|] == ',';
    assert c == |t|;
    assert body[c..c + |HumidityKey|] == HumidityKey;
    assert body[..c] == t && body[c + |HumidityKey|..] == h;
  }

  /** Every text the parser accepts is a payload of the sketch's shape. */
  lemma ParseJsonSound(s: string)
    requires ParseJson(s).Some?
    ensures s == Json(ParseJson(s).value.0, ParseJson(s).value.1)
    ensures ',' !in ParseJson(s).value.0
  {
    var n := |s|;
    var body := s[|TemperatureKey|..n - 1];
    var c := IndexOf(body, ',');
    var t, h := body[..c], body[c + |HumidityKey|..];
    assert body == t + HumidityKey + h by {
      assert body == body[..c] + body[c..c + |HumidityKey|] + body[c + |HumidityKey|..];
    }
    assert s == s[..|TemperatureKey|] + body + [s[n - 1]];
    forall k | 0 <= k < |t| ensures t[k] != ',' {
      assert t[k] == body[k];
    }
  }

  /** Readings with at most 71 characters together fit the buffer: the whole payload is sent. */
  lemma ShortPayloadSentWhole(t: string, h: string)
    requires |t| + |h| <= BufferSize - 1 - |Json("", "")|
    requires '\0' !in t && '\0' !in h
    ensures Transmitted(Json(t, h)) == Json(t, h)
    ensures ',' !in t ==> ParseJson(Transmitted(Json(t, h))) == Some((t, h))
  {
    var s := Json(t, h);
    assert |s| <= BufferSize - 1;
    assert s[..|s|] == s;
    assert '\0' !in s ;
    CStringUnique(s, s);
    if ',' !in t {
      ParseJsonRoundTrip(t, h);
    }
  }

  /** Longer readings lose the payload's tail: what is sent is no longer a payload the
      parser accepts. */
  lemma LongPayloadCut(t: string, h: string)
    requires |t| + |h| > BufferSize - 1 - |Json("", "")|
    requires '}' !in t && '}' !in h
    ensures |Transmitted(Json(t, h))| < |Json(t, h)|
    ensures ParseJson(Transmitted(Json(t, h))) == None
  {
    var s := Json(t, h);
    var r := Transmitted(s);
    // every '}' of the payload is its last character, which the first 99 do not reach
    var body := TemperatureKey + t + HumidityKey + h;
    assert s == body + "}" && '}' !in body;
    assert s[..BufferSize - 1] <= body;
    assert |r| == 0 || r[|r| - 1] in body;
  }
}
