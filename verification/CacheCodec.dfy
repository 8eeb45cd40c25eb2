/**
 The file format of the device cache (crates/signal-auras-cli/src/input_cache.rs:610-761): a
 printer, the parser that reads it back, and when the parser undoes the printer.

 Text is a sequence of bytes. What the source decodes from hexadecimal is checked to be UTF-8
 there, so those fields have a type of their own; paths are taken to be UTF-8.
*/
module CacheCodec {
  import opened Wrappers
  import opened Bytes

  const U128_LIMIT: nat := 0x1_0000_0000_0000_0000_0000_0000_0000_0000

  type U128 = n: nat | n < U128_LIMIT

  predicate Continuation(b: Byte) {
    128 <= b < 192
  }

  /** Well-formed UTF-8, as in section 4 of RFC 3629. */
  predicate ValidUtf8(s: seq<Byte>) {
    if s == [] then true
    else if s[0] < 128 then ValidUtf8(s[1..])
    else if 194 <= s[0] <= 223 then |s| >= 2 && Continuation(s[1]) && ValidUtf8(s[2..])
    else if 224 <= s[0] <= 239 then
      && |s| >= 3 && Continuation(s[1]) && Continuation(s[2])
      && (s[0] == 224 ==> s[1] >= 160) && (s[0] == 237 ==> s[1] < 160)
      && ValidUtf8(s[3..])
    else
      && 240 <= s[0] <= 244
      && |s| >= 4 && Continuation(s[1]) && Continuation(s[2]) && Continuation(s[3])
      && (s[0] == 240 ==> s[1] >= 144) && (s[0] == 244 ==> s[1] < 144)
      && ValidUtf8(s[4..])
  }

  type Text = s: seq<Byte> | ValidUtf8(s) witness []

  datatype Identity = Identity(
    eventName: Text, name: Option<Text>, phys: Option<Text>, uniq: Option<Text>,
    bustype: Option<Text>, vendor: Option<Text>, product: Option<Text>, version: Option<Text>)

  datatype Device = Device(path: Text, identity: Identity)

  datatype Cache = Cache(
    version: seq<Byte>, script: Text, mode: Text, output: Text, updated: U128, devices: seq<Device>)

  /** A source that does not parse is refused; a slice inside a character aborts. */
  datatype ParseFailure = Refused | Aborted

  const VERSION: seq<Byte> := [118, 101, 114, 115, 105, 111, 110]
  const SCRIPT: seq<Byte> := [115, 99, 114, 105, 112, 116]
  const MODE: seq<Byte> := [109, 111, 100, 101]
  const OUTPUT: seq<Byte> := [111, 117, 116, 112, 117, 116]
  const UPDATED: seq<Byte> := [117, 112, 100, 97, 116, 101, 100, 95, 117, 110, 105, 120, 95, 109, 115]
  const DEVICE: seq<Byte> := [100, 101, 118, 105, 99, 101]

  // ---- printing ----

  function Digit(n: nat): Byte
    requires n < 16
  {
    if n < 10 then 48 + n else 87 + n
  }

  function HexEncode(bytes: seq<Byte>): seq<Byte> {
    if bytes == [] then [] else [Digit(bytes[0] / 16), Digit(bytes[0] % 16)] + HexEncode(bytes[1..])
  }

  function Decimal(n: nat): seq<Byte> {
    if n < 10 then [Digit(n)] else Decimal(n / 10) + [Digit(n % 10)]
  }

  function Join(parts: seq<seq<Byte>>, separator: Byte): seq<Byte> {
    if parts == [] then []
    else if |parts| == 1 then parts[0]
    else parts[0] + [separator] + Join(parts[1..], separator)
  }

  function OrEmpty(field: Option<Text>): Text {
    if field.None? then [] else field.value
  }

  function Fields(device: Device): seq<Text> {
    var id := device.identity;
    [device.path, id.eventName, OrEmpty(id.name), OrEmpty(id.phys), OrEmpty(id.uniq),
     OrEmpty(id.bustype), OrEmpty(id.vendor), OrEmpty(id.product), OrEmpty(id.version)]
  }

  function EncodeAll(fields: seq<Text>): seq<seq<Byte>> {
    if fields == [] then [] else [HexEncode(fields[0])] + EncodeAll(fields[1..])
  }

  function Entry(key: seq<Byte>, value: seq<Byte>): seq<Byte> {
    key + [EQUALS] + value
  }

  function RenderDevice(device: Device): seq<Byte> {
    Entry(DEVICE, Join(EncodeAll(Fields(device)), COMMA))
  }

  function RenderDevices(devices: seq<Device>): seq<seq<Byte>> {
    if devices == [] then [] else [RenderDevice(devices[0])] + RenderDevices(devices[1..])
  }

  function RenderLines(c: Cache): seq<seq<Byte>> {
    [Entry(VERSION, c.version), Entry(SCRIPT, HexEncode(c.script)), Entry(MODE, HexEncode(c.mode)),
     Entry(OUTPUT, HexEncode(c.output)), Entry(UPDATED, Decimal(c.updated))]
    + RenderDevices(c.devices)
  }

  function Render(c: Cache): seq<Byte> {
    Join(RenderLines(c) + [[]], NEWLINE)
  }

  // ---- parsing ----

  /** The position of the first `b`, or the length of the text. */
  function Find(text: seq<Byte>, b: Byte): (n: nat)
    ensures n <= |text|
    ensures n < |text| ==> text[n] == b
    ensures b !in text[..n]
    ensures n == |text| <==> b !in text
  {
    if text == [] then 0
    else if text[0] == b then 0
    else
      var n := Find(text[1..], b) + 1;
      assert text[..n] == [text[0]] + text[1..][..n - 1];
      n
  }

  function StripReturn(line: seq<Byte>): seq<Byte> {
    if line != [] && line[|line| - 1] == RETURN then line[..|line| - 1] else line
  }

  /** `str::lines`: a carriage return is dropped only in front of a line feed. */
  function Lines(text: seq<Byte>): seq<seq<Byte>>
    decreases |text|
  {
    if text == [] then []
    else
      var n := Find(text, NEWLINE);
      if n == |text| then [text] else [StripReturn(text[..n])] + Lines(text[n + 1..])
  }

  function Split(text: seq<Byte>, separator: Byte): seq<seq<Byte>>
    decreases |text|
  {
    var n := Find(text, separator);
    if n == |text| then [text] else [text[..n]] + Split(text[n + 1..], separator)
  }

  function DigitValue(b: Byte): Option<nat> {
    if 48 <= b <= 57 then Some(b - 48)
    else if 97 <= b <= 102 then Some(b - 87)
    else if 65 <= b <= 70 then Some(b - 55)
    else None
  }

  /** `u8::from_str_radix` on two bytes, which takes a plus sign. */
  function PairValue(a: Byte, b: Byte): Option<Byte> {
    if DigitValue(b).None? then None
    else if a == PLUS then Some(DigitValue(b).value)
    else if DigitValue(a).None? then None
    else
      assert DigitValue(a).value < 16 && DigitValue(b).value < 16;
      Some(DigitValue(a).value * 16 + DigitValue(b).value)
  }

  /** The pairs in order; a pair that ends inside a character aborts. */
  function DecodePairs(value: seq<Byte>): Result<seq<Byte>, ParseFailure>
    requires |value| % 2 == 0
  {
    if value == [] then Success([])
    else if |value| > 2 && Continuation(value[2]) then Failure(Aborted)
    else if PairValue(value[0], value[1]).None? then Failure(Refused)
    else
      match DecodePairs(value[2..])
      case Failure(f) => Failure(f)
      case Success(rest) => Success([PairValue(value[0], value[1]).value] + rest)
  }

  function HexDecode(value: seq<Byte>): Result<Text, ParseFailure> {
    if |value| % 2 != 0 then Failure(Refused)
    else
      match DecodePairs(value)
      case Failure(f) => Failure(f)
      case Success(bytes) => if ValidUtf8(bytes) then Success(bytes) else Failure(Refused)
  }

  function DecodeAll(parts: seq<seq<Byte>>): Result<seq<Text>, ParseFailure> {
    if parts == [] then Success([])
    else
      match HexDecode(parts[0])
      case Failure(f) => Failure(f)
      case Success(first) =>
        match DecodeAll(parts[1..])
        case Failure(f) => Failure(f)
        case Success(rest) => Success([first] + rest)
  }

  function NonEmpty(value: Text): Option<Text> {
    if value == [] then None else Some(value)
  }

  function ParseDevice(value: seq<Byte>): Result<Device, ParseFailure> {
    match DecodeAll(Split(value, COMMA))
    case Failure(f) => Failure(f)
    case Success(fields) =>
      if |fields| != 9 then Failure(Refused)
      else
        Success(Device(fields[0], Identity(
          fields[1], NonEmpty(fields[2]), NonEmpty(fields[3]), NonEmpty(fields[4]),
          NonEmpty(fields[5]), NonEmpty(fields[6]), NonEmpty(fields[7]), NonEmpty(fields[8]))))
  }

  function DecimalValue(digits: seq<Byte>): Option<nat> {
    if digits == [] then Some(0)
    else
      var last := digits[|digits| - 1];
      match DecimalValue(digits[..|digits| - 1])
      case None => None
      case Some(n) => if 48 <= last <= 57 then Some(n * 10 + (last - 48)) else None
  }

  /** `parse::<u128>().ok()`: digits after an optional plus sign, within range. */
  function ParseU128(value: seq<Byte>): Option<U128> {
    var digits := if value != [] && value[0] == PLUS then value[1..] else value;
    if digits == [] then None
    else
      match DecimalValue(digits)
      case None => None
      case Some(n) => if n < U128_LIMIT then Some(n) else None
  }

  /** What the parser has collected so far. */
  datatype Partial = Partial(
    version: Option<seq<Byte>>, script: Option<Text>, mode: Option<Text>, output: Option<Text>,
    updated: Option<U128>, devices: seq<Device>)

  const NOTHING := Partial(None, None, None, None, None, [])

  function Decoded<T>(r: Result<T, ParseFailure>, use: T -> Partial): Result<Partial, ParseFailure> {
    match r
    case Failure(f) => Failure(f)
    case Success(value) => Success(use(value))
  }

  /** One line; a line without `=` or with an unknown key is skipped. */
  function Step(p: Partial, line: seq<Byte>): Result<Partial, ParseFailure> {
    var n := Find(line, EQUALS);
    if n == |line| then Success(p)
    else
      var key, value := line[..n], line[n + 1..];
      if key == VERSION then Success(p.(version := Some(value)))
      else if key == SCRIPT then Decoded(HexDecode(value), (t: Text) => p.(script := Some(t)))
      else if key == MODE then Decoded(HexDecode(value), (t: Text) => p.(mode := Some(t)))
      else if key == OUTPUT then Decoded(HexDecode(value), (t: Text) => p.(output := Some(t)))
      else if key == UPDATED then Success(p.(updated := ParseU128(value)))
      else if key == DEVICE then Decoded(ParseDevice(value), (d: Device) => p.(devices := p.devices + [d]))
      else Success(p)
  }

  function Collect(p: Partial, lines: seq<seq<Byte>>): Result<Partial, ParseFailure>
    decreases |lines|
  {
    if lines == [] then Success(p)
    else
      match Step(p, lines[0])
      case Failure(f) => Failure(f)
      case Success(next) => Collect(next, lines[1..])
  }

  /** Every part but the time must have been given; the time defaults to zero. */
  function Finish(p: Partial): Result<Cache, ParseFailure> {
    if p.version.None? || p.script.None? || p.mode.None? || p.output.None? then Failure(Refused)
    else
      Success(Cache(p.version.value, p.script.value, p.mode.value, p.output.value,
                    if p.updated.None? then 0 else p.updated.value, p.devices))
  }

  function Parse(source: seq<Byte>): Result<Cache, ParseFailure> {
    match Collect(NOTHING, Lines(source))
    case Failure(f) => Failure(f)
    case Success(p) => Finish(p)
  }

  /** `RuntimeDeviceCache::parse`: one loop over the lines fills the parts. */
  method ParseCache(source: seq<Byte>) returns (r: Result<Cache, ParseFailure>)
    ensures r == Parse(source)
  {
    var version: Option<seq<Byte>> := None;
    var script: Option<Text>, mode: Option<Text>, output: Option<Text> := None, None, None;
    var updated: Option<U128> := None;
    var devices: seq<Device> := [];
    var lines := Lines(source);
    for i := 0 to |lines|
      invariant Collect(Partial(version, script, mode, output, updated, devices), lines[i..])
                == Collect(NOTHING, lines)
    {
      var line := lines[i];
      assert lines[i..][1..] == lines[i + 1..];
      var n := Find(line, EQUALS);
      if n == |line| {
        continue;
      }
      var key, value := line[..n], line[n + 1..];
      if key == VERSION {
        version := Some(value);
      } else if key == SCRIPT || key == MODE || key == OUTPUT {
        var decoded := HexDecode(value);
        if decoded.Failure? {
          return Failure(decoded.error);
        }
        if key == SCRIPT {
          script := Some(decoded.value);
        } else if key == MODE {
          mode := Some(decoded.value);
        } else {
          output := Some(decoded.value);
        }
      } else if key == UPDATED {
        updated := ParseU128(value);
      } else if key == DEVICE {
        var device := ParseDevice(value);
        if device.Failure? {
          return Failure(device.error);
        }
        devices := devices + [device.value];
      }
    }
    r := Finish(Partial(version, script, mode, output, updated, devices));
  }
}
