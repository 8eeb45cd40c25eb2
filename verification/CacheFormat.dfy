/**
 What the device cache file looks like, and what the parser makes of any source, printed or not
 (crates/signal-auras-cli/src/input_cache.rs:638-761).
*/
module CacheFormat {
  import opened Wrappers
  import opened Bytes
  import opened CacheCodec
  import opened CacheRoundTrip

  /** The bytes of an ASCII text. */
  function Spelled(text: string): (r: seq<Byte>)
    requires forall i :: 0 <= i < |text| ==> text[i] < 128 as char
    ensures |r| == |text| && forall i :: 0 <= i < |r| ==> r[i] == text[i] as int
  {
    seq(|text|, i requires 0 <= i < |text| => text[i] as int)
  }

  const HEX_DIGITS: seq<Byte> := Spelled("0123456789abcdef")

  // ---- the printed text ----

  lemma KeysSpelled()
    ensures VERSION == Spelled("version") && SCRIPT == Spelled("script") && MODE == Spelled("mode")
    ensures OUTPUT == Spelled("output") && UPDATED == Spelled("updated_unix_ms") && DEVICE == Spelled("device")
  {
  }

  /** Byte `i` becomes the digits number `2 i` and `2 i + 1`, the higher half first, in lower case. */
  lemma {:induction false} HexSpelled(bytes: seq<Byte>, i: nat)
    requires i < |bytes|
    ensures |HexEncode(bytes)| == 2 * |bytes|
    ensures HexEncode(bytes)[2 * i] == HEX_DIGITS[bytes[i] / 16] && HexEncode(bytes)[2 * i + 1] == HEX_DIGITS[bytes[i] % 16]
  {
    HexIsDigits(bytes);
    if i > 0 {
      HexSpelled(bytes[1..], i - 1);
      assert HexEncode(bytes)[2..] == HexEncode(bytes[1..]);
    }
  }

  function PowerOfTen(k: nat): (r: nat)
    ensures r > 0
  {
    if k == 0 then 1 else 10 * PowerOfTen(k - 1)
  }

  lemma DivideTwice(n: nat, d: nat)
    requires d > 0
    ensures n / 10 / d == n / (10 * d)
  {
    var m, r := n / 10, n % 10;
    var q, r' := m / d, m % d;
    assert n == 10 * (q * d + r') + r;
    assert 10 * (q * d) == q * (10 * d);
    QuotientIs(n, 10 * d, q, 10 * r' + r);
  }

  lemma QuotientIs(n: nat, d: nat, q: nat, r: nat)
    requires d > 0 && n == q * d + r && r < d
    ensures n / d == q
  {
    var gap := n / d - q;
    assert (n / d) * d == n - n % d;
    assert gap * d == (n / d) * d - q * d;
    assert gap * d == r - n % d && 0 <= n % d < d;
    NoMultipleBetween(gap, d);
  }

  lemma NoMultipleBetween(k: int, d: int)
    requires d >= 0
    ensures k >= 1 ==> k * d >= d
    ensures k <= -1 ==> k * d <= -d
  {
    if k >= 1 {
      assert (k - 1) * d >= 0 && k * d == (k - 1) * d + d;
    } else if k <= -1 {
      assert (-k - 1) * d >= 0 && k * d == -((-k - 1) * d) - d;
    }
  }

  /** The `k`-th digit from the right is that of the number, and the first one is zero only for zero itself. */
  lemma {:induction false} DecimalSpelled(n: nat, k: nat)
    requires k < |Decimal(n)|
    ensures Decimal(n)[|Decimal(n)| - 1 - k] == 48 + n / PowerOfTen(k) % 10
    ensures n > 0 ==> Decimal(n)[0] != 48
  {
    if n >= 10 {
      if k > 0 {
        DecimalSpelled(n / 10, k - 1);
        DivideTwice(n, PowerOfTen(k - 1));
      }
      DecimalRead(n / 10);
      DecimalSpelled(n / 10, 0);
    }
  }

  /** The nine fields of a device in hexadecimal, in the order of the file. */
  function HexFields(d: Device): seq<seq<Byte>> {
    var id := d.identity;
    [HexEncode(d.path), HexEncode(id.eventName),
     HexEncode(OrEmpty(id.name)), HexEncode(OrEmpty(id.phys)), HexEncode(OrEmpty(id.uniq)), HexEncode(OrEmpty(id.bustype)),
     HexEncode(OrEmpty(id.vendor)), HexEncode(OrEmpty(id.product)), HexEncode(OrEmpty(id.version))]
  }

  /** The headed lines of the file, then one for each device. */
  function TextLines(c: Cache): seq<seq<Byte>> {
    [Spelled("version=") + c.version, Spelled("script=") + HexEncode(c.script), Spelled("mode=") + HexEncode(c.mode),
     Spelled("output=") + HexEncode(c.output), Spelled("updated_unix_ms=") + Decimal(c.updated)]
    + seq(|c.devices|, i requires 0 <= i < |c.devices| => Spelled("device=") + Join(HexFields(c.devices[i]), COMMA))
  }

  /** The lines, each ended by a line feed. */
  function Ended(lines: seq<seq<Byte>>): seq<Byte> {
    if lines == [] then [] else lines[0] + [NEWLINE] + Ended(lines[1..])
  }

  lemma {:induction false} JoinedEnds(lines: seq<seq<Byte>>)
    ensures Join(lines + [[]], NEWLINE) == Ended(lines)
  {
    if lines != [] {
      JoinedEnds(lines[1..]);
      assert (lines + [[]])[1..] == lines[1..] + [[]];
    }
  }

  lemma EntriesSpelled(v: seq<Byte>, s: seq<Byte>, m: seq<Byte>, o: seq<Byte>, u: seq<Byte>)
    ensures Entry(VERSION, v) == Spelled("version=") + v && Entry(SCRIPT, s) == Spelled("script=") + s
    ensures Entry(MODE, m) == Spelled("mode=") + m && Entry(OUTPUT, o) == Spelled("output=") + o
    ensures Entry(UPDATED, u) == Spelled("updated_unix_ms=") + u
  {
    KeysSpelled();
    assert VERSION + [EQUALS] == Spelled("version=") && SCRIPT + [EQUALS] == Spelled("script=");
    assert MODE + [EQUALS] == Spelled("mode=") && OUTPUT + [EQUALS] == Spelled("output=");
    assert UPDATED + [EQUALS] == Spelled("updated_unix_ms=");
  }

  lemma {:induction false} EncodesEach(f: seq<Text>)
    ensures |EncodeAll(f)| == |f| && forall i :: 0 <= i < |f| ==> EncodeAll(f)[i] == HexEncode(f[i])
  {
    hide HexEncode;
    if f != [] {
      EncodesEach(f[1..]);
    }
  }

  lemma DeviceSpelled(d: Device)
    ensures RenderDevice(d) == Spelled("device=") + Join(HexFields(d), COMMA)
  {
    hide HexEncode;
    hide Join;
    KeysSpelled();
    assert DEVICE + [EQUALS] == Spelled("device=");
    EncodesEach(Fields(d));
    assert EncodeAll(Fields(d)) == HexFields(d);
  }

  lemma {:induction false} DevicesSpelled(devices: seq<Device>)
    ensures |RenderDevices(devices)| == |devices|
    ensures forall i :: 0 <= i < |devices| ==>
      RenderDevices(devices)[i] == Spelled("device=") + Join(HexFields(devices[i]), COMMA)
  {
    hide RenderDevice;
    hide HexFields;
    hide Join;
    if devices != [] {
      DevicesSpelled(devices[1..]);
      DeviceSpelled(devices[0]);
    }
  }

  /** The printed text is exactly those lines. */
  lemma {:induction false} RenderSpelled(c: Cache)
    ensures Render(c) == Ended(TextLines(c))
  {
    hide HexEncode;
    hide HexFields;
    hide Join;
    hide Decimal;
    hide Ended;
    hide Spelled;
    DevicesSpelled(c.devices);
    EntriesSpelled(c.version, HexEncode(c.script), HexEncode(c.mode), HexEncode(c.output), Decimal(c.updated));
    assert RenderLines(c) == TextLines(c);
    JoinedEnds(TextLines(c));
  }

  // ---- any source ----

  /** The value that the line gives to the key, if it does. */
  function ValueOf(line: seq<Byte>, key: seq<Byte>): Option<seq<Byte>> {
    if |line| > |key| && line[..|key| + 1] == key + [EQUALS] then Some(line[|key| + 1..]) else None
  }

  /** The value of the last of the lines that gives one. */
  function LastValue(lines: seq<seq<Byte>>, key: seq<Byte>): Option<seq<Byte>> {
    if lines == [] then None
    else
      var value := ValueOf(lines[|lines| - 1], key);
      if value.Some? then value else LastValue(lines[..|lines| - 1], key)
  }

  /** All the values that the lines give to the key, in order. */
  function Values(lines: seq<seq<Byte>>, key: seq<Byte>): seq<seq<Byte>> {
    if lines == [] then []
    else
      var value := ValueOf(lines[|lines| - 1], key);
      Values(lines[..|lines| - 1], key) + if value.Some? then [value.value] else []
  }

  /** The line splits at its first equals sign into exactly this key and this value. */
  lemma KeyFound(line: seq<Byte>, key: seq<Byte>)
    requires EQUALS !in key
    ensures var n := Find(line, EQUALS);
      && (ValueOf(line, key).Some? <==> n < |line| && line[..n] == key)
      && (ValueOf(line, key).Some? ==> ValueOf(line, key).value == line[n + 1..])
  {
    if ValueOf(line, key).Some? {
      assert line == Entry(key, line[|key| + 1..]);
      EntryRead(key, line[|key| + 1..]);
    } else {
      var n := Find(line, EQUALS);
      assert n < |line| ==> line[..n + 1] == line[..n] + [EQUALS];
    }
  }

  /** A value given in hexadecimal can be read. */
  ghost predicate Readable(value: Option<seq<Byte>>) {
    value.Some? ==> HexDecode(value.value).Success?
  }

  /** What the line gives to each key can be read; a time is never refused. */
  ghost predicate LineOk(line: seq<Byte>) {
    && Readable(ValueOf(line, SCRIPT)) && Readable(ValueOf(line, MODE)) && Readable(ValueOf(line, OUTPUT))
    && (ValueOf(line, DEVICE).Some? ==> ParseDevice(ValueOf(line, DEVICE).value).Success?)
  }

  /** `text` is read from the value, or is what it was when there is none. */
  ghost predicate ReadFrom(value: Option<seq<Byte>>, was: Option<Text>, text: Option<Text>) {
    if value.None? then text == was else text.Some? && HexDecode(value.value) == Success(text.value)
  }

  lemma StepMeaning(p: Partial, line: seq<Byte>)
    ensures Step(p, line).Success? <==> LineOk(line)
    ensures Step(p, line).Success? ==>
      var q := Step(p, line).value;
      && q.version == (if ValueOf(line, VERSION).Some? then ValueOf(line, VERSION) else p.version)
      && ReadFrom(ValueOf(line, SCRIPT), p.script, q.script)
      && ReadFrom(ValueOf(line, MODE), p.mode, q.mode)
      && ReadFrom(ValueOf(line, OUTPUT), p.output, q.output)
      && q.updated == (if ValueOf(line, UPDATED).Some? then ParseU128(ValueOf(line, UPDATED).value) else p.updated)
      && (if ValueOf(line, DEVICE).Some?
          then exists d :: ParseDevice(ValueOf(line, DEVICE).value) == Success(d) && q.devices == p.devices + [d]
          else q.devices == p.devices)
  {
    hide HexDecode;
    hide ParseDevice;
    hide ParseU128;
    hide ValueOf;
    KeysDiffer();
    KeyFound(line, VERSION);
    KeyFound(line, SCRIPT);
    KeyFound(line, MODE);
    KeyFound(line, OUTPUT);
    KeyFound(line, UPDATED);
    KeyFound(line, DEVICE);
  }

  lemma {:induction false} CollectSnoc(p: Partial, lines: seq<seq<Byte>>, last: seq<Byte>)
    ensures Collect(p, lines + [last]) ==
      match Collect(p, lines) case Failure(f) => Failure(f) case Success(q) => Step(q, last)
    decreases |lines|
  {
    hide Step;
    if lines == [] {
      assert ([] + [last])[1..] == [];
    } else {
      assert (lines + [last])[1..] == lines[1..] + [last];
      match Step(p, lines[0])
      case Failure(_) =>
      case Success(next) => CollectSnoc(next, lines[1..], last);
    }
  }

  /** Each device is read from one of these values, in order. */
  ghost predicate DevicesRead(values: seq<seq<Byte>>, devices: seq<Device>) {
    |devices| == |values| && forall i :: 0 <= i < |values| ==> ParseDevice(values[i]) == Success(devices[i])
  }

  /** What the parser has collected when it has read these lines. */
  ghost predicate CollectedFrom(lines: seq<seq<Byte>>, p: Partial) {
    && p.version == LastValue(lines, VERSION)
    && ReadFrom(LastValue(lines, SCRIPT), None, p.script)
    && ReadFrom(LastValue(lines, MODE), None, p.mode)
    && ReadFrom(LastValue(lines, OUTPUT), None, p.output)
    && p.updated == (if LastValue(lines, UPDATED).Some? then ParseU128(LastValue(lines, UPDATED).value) else None)
    && DevicesRead(Values(lines, DEVICE), p.devices)
  }

  ghost predicate LinesOk(lines: seq<seq<Byte>>) {
    forall i :: 0 <= i < |lines| ==> LineOk(lines[i])
  }

  lemma LinesOkSnoc(lines: seq<seq<Byte>>)
    requires lines != []
    ensures LinesOk(lines) <==> LinesOk(lines[..|lines| - 1]) && LineOk(lines[|lines| - 1])
  {
    hide LineOk;
  }

  lemma StepCollects(lines: seq<seq<Byte>>, p: Partial)
    requires lines != [] && CollectedFrom(lines[..|lines| - 1], p) && Step(p, lines[|lines| - 1]).Success?
    ensures CollectedFrom(lines, Step(p, lines[|lines| - 1]).value)
  {
    hide Step;
    hide ValueOf;
    hide HexDecode;
    hide ParseDevice;
    hide ParseU128;
    hide LineOk;
    StepMeaning(p, lines[|lines| - 1]);
    var q, values := Step(p, lines[|lines| - 1]).value, Values(lines[..|lines| - 1], DEVICE);
    assert values + [] == values;
  }

  lemma {:induction false} CollectMeaning(lines: seq<seq<Byte>>)
    ensures Collect(NOTHING, lines).Success? <==> LinesOk(lines)
    ensures Collect(NOTHING, lines).Success? ==> CollectedFrom(lines, Collect(NOTHING, lines).value)
  {
    hide Step;
    hide LineOk;
    hide CollectedFrom;
    if lines == [] {
      NothingRead();
    } else {
      var before, last := lines[..|lines| - 1], lines[|lines| - 1];
      CollectMeaning(before);
      assert lines == before + [last];
      CollectSnoc(NOTHING, before, last);
      LinesOkSnoc(lines);
      if Collect(NOTHING, before).Success? {
        var p := Collect(NOTHING, before).value;
        StepMeaning(p, last);
        if Step(p, last).Success? {
          StepCollects(lines, p);
        }
      }
    }
  }

  lemma NothingRead()
    ensures CollectedFrom([], NOTHING)
  {
  }

  /**
   A source is accepted exactly when all that its lines give to the keys can be read and none of the four
   texts is missing. Of several lines with the same key the last one counts, but each has to be readable;
   a time that is missing or cannot be read is zero; the devices are those of all device lines, in order;
   every other line is ignored.
  */
  lemma {:induction false} ParseMeaning(source: seq<Byte>)
    ensures var lines := Lines(source);
      && (Parse(source).Success? <==>
            LinesOk(lines) && LastValue(lines, VERSION).Some? && LastValue(lines, SCRIPT).Some?
            && LastValue(lines, MODE).Some? && LastValue(lines, OUTPUT).Some?)
      && (Parse(source).Success? ==>
            var c := Parse(source).value;
            && LastValue(lines, VERSION) == Some(c.version)
            && HexDecode(LastValue(lines, SCRIPT).value) == Success(c.script)
            && HexDecode(LastValue(lines, MODE).value) == Success(c.mode)
            && HexDecode(LastValue(lines, OUTPUT).value) == Success(c.output)
            && c.updated == TimeOf(LastValue(lines, UPDATED))
            && DevicesRead(Values(lines, DEVICE), c.devices))
  {
    hide HexDecode;
    hide ParseDevice;
    hide LineOk;
    hide LastValue;
    hide Values;
    CollectMeaning(Lines(source));
  }

  function TimeOf(value: Option<seq<Byte>>): U128 {
    if value.Some? && ParseU128(value.value).Some? then ParseU128(value.value).value else 0
  }

  // ---- one value ----

  lemma {:induction false} DecodeAllIff(parts: seq<seq<Byte>>)
    ensures DecodeAll(parts).Success? <==> forall i :: 0 <= i < |parts| ==> HexDecode(parts[i]).Success?
    ensures DecodeAll(parts).Success? ==>
      |DecodeAll(parts).value| == |parts|
      && forall i :: 0 <= i < |parts| ==> HexDecode(parts[i]) == Success(DecodeAll(parts).value[i])
  {
    hide HexDecode;
    if parts != [] {
      DecodeAllIff(parts[1..]);
      assert forall i :: 0 <= i < |parts| - 1 ==> parts[1..][i] == parts[i + 1];
      if forall i :: 0 <= i < |parts| ==> HexDecode(parts[i]).Success? {
        assert forall i :: 0 <= i < |parts[1..]| ==> parts[1..][i] == parts[i + 1];
      }
    }
  }

  /** A device line is read exactly when it has nine fields between its commas and each can be read. */
  lemma {:induction false} DeviceParsedIff(value: seq<Byte>)
    ensures ParseDevice(value).Success? <==>
      |Split(value, COMMA)| == 9 && forall i :: 0 <= i < 9 ==> HexDecode(Split(value, COMMA)[i]).Success?
  {
    hide HexDecode;
    hide Split;
    DecodeAllIff(Split(value, COMMA));
  }

  /** The two digits at pair `i`. */
  function PairAt(value: seq<Byte>, i: nat): Option<Byte>
    requires 2 * i + 1 < |value|
  {
    PairValue(value[2 * i], value[2 * i + 1])
  }

  /** The slice of some pair, with all pairs before it in order, would end inside a character. */
  ghost predicate CutsCharacter(value: seq<Byte>) {
    exists j: nat :: CutsAt(value, j)
  }

  ghost predicate CutsAt(value: seq<Byte>, j: nat) {
    2 * j + 2 < |value| && Continuation(value[2 * j + 2]) && forall i :: 0 <= i < j ==> PairAt(value, i).Some?
  }

  lemma CutsLater(value: seq<Byte>)
    requires |value| > 2 && PairAt(value, 0).Some? && !Continuation(value[2])
    ensures CutsCharacter(value) <==> CutsCharacter(value[2..])
  {
    hide PairValue;
    var rest := value[2..];
    forall j: nat | CutsAt(rest, j) ensures CutsAt(value, j + 1) {
      forall i | 0 <= i < j + 1 ensures PairAt(value, i).Some? {
        if i > 0 {
          assert PairAt(rest, i - 1) == PairAt(value, i);
        }
      }
    }
    forall j: nat | CutsAt(value, j) ensures j > 0 && CutsAt(rest, j - 1) {
      forall i | 0 <= i < j - 1 ensures PairAt(rest, i).Some? {
        assert PairAt(rest, i) == PairAt(value, i + 1);
      }
    }
  }

  /** Pairs are decoded one by one; the decoding aborts exactly when a slice cuts a character before any pair is wrong. */
  lemma {:induction false} PairsMeaning(value: seq<Byte>)
    requires |value| % 2 == 0
    ensures DecodePairs(value) == Failure(Aborted) <==> CutsCharacter(value)
    ensures DecodePairs(value).Success? ==>
      var bytes := DecodePairs(value).value;
      2 * |bytes| == |value| && forall i :: 0 <= i < |bytes| ==> PairAt(value, i) == Some(bytes[i])
    ensures (forall i :: 0 <= i < |value| / 2 ==> PairAt(value, i).Some?) && !CutsCharacter(value) ==>
      DecodePairs(value).Success?
  {
    hide PairValue;
    if value != [] {
      PairsMeaning(value[2..]);
      var rest := value[2..];
      assert forall i :: 0 <= i < |rest| / 2 ==> PairAt(rest, i) == PairAt(value, i + 1);
      if |value| > 2 && Continuation(value[2]) {
        assert CutsAt(value, 0);
      } else if PairAt(value, 0).Some? {
        if |value| > 2 {
          CutsLater(value);
        }
      }
    }
  }
}
