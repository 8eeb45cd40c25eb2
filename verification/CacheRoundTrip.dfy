/** When the cache parser undoes the cache printer, and what it gives back when it does not. */
module CacheRoundTrip {
  import opened Wrappers
  import opened Bytes
  import opened CacheCodec

  // ---- hexadecimal ----

  /** Bytes of a printed hexadecimal or decimal number; none of them means anything to the format. */
  predicate Digits(s: seq<Byte>) {
    forall i :: 0 <= i < |s| ==> 48 <= s[i] <= 57 || 97 <= s[i] <= 102
  }

  lemma DigitsAppend(a: seq<Byte>, b: seq<Byte>)
    requires Digits(a) && Digits(b)
    ensures Digits(a + b)
  {
  }

  lemma {:induction false} HexIsDigits(bytes: seq<Byte>)
    ensures Digits(HexEncode(bytes)) && |HexEncode(bytes)| == 2 * |bytes|
  {
    if bytes != [] {
      HexIsDigits(bytes[1..]);
      DigitsAppend([Digit(bytes[0] / 16), Digit(bytes[0] % 16)], HexEncode(bytes[1..]));
    }
  }

  lemma DigitRead(n: nat)
    requires n < 16
    ensures DigitValue(Digit(n)) == Some(n) && Digit(n) != PLUS && !Continuation(Digit(n))
  {
  }

  lemma PairDecoded(b: Byte, hex: seq<Byte>, rest: seq<Byte>)
    requires |hex| % 2 == 0 && Digits(hex) && DecodePairs(hex) == Success(rest)
    ensures DecodePairs([Digit(b / 16), Digit(b % 16)] + hex) == Success([b] + rest)
  {
    var value := [Digit(b / 16), Digit(b % 16)] + hex;
    DigitRead(b / 16);
    DigitRead(b % 16);
    assert value[0] == Digit(b / 16) && value[1] == Digit(b % 16) && value[2..] == hex;
    if hex != [] {
      assert value[2] == hex[0];
    }
    hide Digit;
    hide DigitValue;
  }

  lemma NothingDecoded()
    ensures DecodePairs([]) == Success([])
  {
  }

  lemma {:induction false} PairsDecoded(bytes: seq<Byte>)
    ensures |HexEncode(bytes)| % 2 == 0 && DecodePairs(HexEncode(bytes)) == Success(bytes)
  {
    hide Digit;
    hide DecodePairs;
    if bytes == [] {
      NothingDecoded();
    } else {
      HexIsDigits(bytes[1..]);
      PairsDecoded(bytes[1..]);
      PairDecoded(bytes[0], HexEncode(bytes[1..]), bytes[1..]);
      assert bytes == [bytes[0]] + bytes[1..];
    }
  }

  /** Decoding undoes encoding, for every text. */
  lemma HexRoundTrip(text: Text)
    ensures HexDecode(HexEncode(text)) == Success(text)
  {
    PairsDecoded(text);
  }

  // ---- decimal ----

  lemma {:induction false} DecimalRead(n: nat)
    ensures Digits(Decimal(n)) && Decimal(n) != [] && DecimalValue(Decimal(n)) == Some(n)
  {
    if n < 10 {
      assert [Digit(n)][..0] == [];
    } else {
      var front, last := Decimal(n / 10), [Digit(n % 10)];
      DecimalRead(n / 10);
      DigitsAppend(front, last);
      assert (front + last)[..|front + last| - 1] == front;
    }
  }

  lemma {:induction false} TimeRoundTrip(n: U128)
    ensures ParseU128(Decimal(n)) == Some(n)
  {
    DecimalRead(n);
  }

  // ---- separators ----

  lemma {:induction false} FindAfter(a: seq<Byte>, b: Byte, rest: seq<Byte>)
    requires b !in a
    ensures Find(a + [b] + rest, b) == |a|
  {
    if a == [] {
      assert [] + [b] + rest == [b] + rest;
    } else {
      FindAfter(a[1..], b, rest);
      assert (a + [b] + rest)[1..] == a[1..] + [b] + rest;
    }
  }

  /** Splitting undoes joining when no part has the separator in it. */
  lemma {:induction false} SplitJoined(parts: seq<seq<Byte>>, separator: Byte)
    requires parts != [] && forall i :: 0 <= i < |parts| ==> separator !in parts[i]
    ensures Split(Join(parts, separator), separator) == parts
  {
    var text := Join(parts, separator);
    if |parts| == 1 {
      assert parts == [parts[0]];
    } else {
      var rest := Join(parts[1..], separator);
      SplitJoined(parts[1..], separator);
      FindAfter(parts[0], separator, rest);
      assert text[..|parts[0]|] == parts[0] && text[|parts[0]| + 1..] == rest;
      assert parts == [parts[0]] + parts[1..];
    }
  }

  function Stripped(lines: seq<seq<Byte>>): seq<seq<Byte>> {
    if lines == [] then [] else [StripReturn(lines[0])] + Stripped(lines[1..])
  }

  /** The lines of joined lines, each ended by a line feed, are those lines without a final return. */
  lemma {:induction false} LinesJoined(lines: seq<seq<Byte>>)
    requires forall i :: 0 <= i < |lines| ==> NEWLINE !in lines[i]
    ensures Lines(Join(lines + [[]], NEWLINE)) == Stripped(lines)
    decreases |lines|
  {
    if lines == [] {
      assert lines + [[]] == [[]];
    } else {
      var rest := Join(lines[1..] + [[]], NEWLINE);
      LinesJoined(lines[1..]);
      assert (lines + [[]])[1..] == lines[1..] + [[]];
      var text := lines[0] + [NEWLINE] + rest;
      FindAfter(lines[0], NEWLINE, rest);
      assert text[..|lines[0]|] == lines[0] && text[|lines[0]| + 1..] == rest;
    }
  }

  // ---- one line ----

  lemma EntryRead(key: seq<Byte>, value: seq<Byte>)
    requires EQUALS !in key
    ensures var line := Entry(key, value); var n := Find(line, EQUALS);
      n < |line| && line[..n] == key && line[n + 1..] == value
  {
    FindAfter(key, EQUALS, value);
    assert Entry(key, value) == key + [EQUALS] + value;
  }

  lemma KeysDiffer()
    ensures EQUALS !in VERSION && EQUALS !in SCRIPT && EQUALS !in MODE
    ensures EQUALS !in OUTPUT && EQUALS !in UPDATED && EQUALS !in DEVICE
    ensures NEWLINE !in VERSION && NEWLINE !in SCRIPT && NEWLINE !in MODE
    ensures NEWLINE !in OUTPUT && NEWLINE !in UPDATED && NEWLINE !in DEVICE
    ensures |VERSION| == 7 && |MODE| == 4 && |UPDATED| == 15
    ensures |SCRIPT| == |OUTPUT| == |DEVICE| == 6
    ensures SCRIPT != OUTPUT && SCRIPT != DEVICE && OUTPUT != DEVICE
  {
    assert SCRIPT[0] == 115 && OUTPUT[0] == 111 && DEVICE[0] == 100;
  }

  lemma StepVersion(p: Partial, value: seq<Byte>)
    ensures Step(p, Entry(VERSION, value)) == Success(p.(version := Some(value)))
  {
    KeysDiffer();
    EntryRead(VERSION, value);
  }

  lemma StepTexts(p: Partial, text: Text)
    ensures Step(p, Entry(SCRIPT, HexEncode(text))) == Success(p.(script := Some(text)))
    ensures Step(p, Entry(MODE, HexEncode(text))) == Success(p.(mode := Some(text)))
    ensures Step(p, Entry(OUTPUT, HexEncode(text))) == Success(p.(output := Some(text)))
  {
    KeysDiffer();
    HexRoundTrip(text);
    EntryRead(SCRIPT, HexEncode(text));
    EntryRead(MODE, HexEncode(text));
    EntryRead(OUTPUT, HexEncode(text));
  }

  lemma StepTime(p: Partial, n: U128)
    ensures Step(p, Entry(UPDATED, Decimal(n))) == Success(p.(updated := Some(n)))
  {
    KeysDiffer();
    TimeRoundTrip(n);
    EntryRead(UPDATED, Decimal(n));
  }

  // ---- devices ----

  /** An optional field that holds an empty text is printed like one that holds nothing. */
  function NormalField(field: Option<Text>): Option<Text> {
    if field == Some([]) then None else field
  }

  function NormalDevice(d: Device): Device {
    var id := d.identity;
    Device(d.path, Identity(
      id.eventName, NormalField(id.name), NormalField(id.phys), NormalField(id.uniq),
      NormalField(id.bustype), NormalField(id.vendor), NormalField(id.product), NormalField(id.version)))
  }

  function NormalDevices(devices: seq<Device>): seq<Device> {
    if devices == [] then [] else [NormalDevice(devices[0])] + NormalDevices(devices[1..])
  }

  lemma {:induction false} FieldsDecoded(fields: seq<Text>)
    ensures DecodeAll(EncodeAll(fields)) == Success(fields)
    ensures |EncodeAll(fields)| == |fields|
    ensures forall i :: 0 <= i < |fields| ==> Digits(EncodeAll(fields)[i])
  {
    if fields != [] {
      FieldsDecoded(fields[1..]);
      HexRoundTrip(fields[0]);
      HexIsDigits(fields[0]);
      assert EncodeAll(fields)[1..] == EncodeAll(fields[1..]);
      assert fields == [fields[0]] + fields[1..];
    }
  }

  lemma FieldRead(field: Option<Text>)
    ensures NonEmpty(OrEmpty(field)) == NormalField(field)
  {
  }

  lemma FieldsRead(d: Device)
    ensures |Fields(d)| == 9 && Fields(d)[0] == d.path && Fields(d)[1] == d.identity.eventName
    ensures var f, id := Fields(d), NormalDevice(d).identity;
      && NonEmpty(f[2]) == id.name && NonEmpty(f[3]) == id.phys && NonEmpty(f[4]) == id.uniq
      && NonEmpty(f[5]) == id.bustype && NonEmpty(f[6]) == id.vendor && NonEmpty(f[7]) == id.product
      && NonEmpty(f[8]) == id.version
  {
    hide NonEmpty;
    hide OrEmpty;
    hide NormalField;
    var id := d.identity;
    FieldRead(id.name);
    FieldRead(id.phys);
    FieldRead(id.uniq);
    FieldRead(id.bustype);
    FieldRead(id.vendor);
    FieldRead(id.product);
    FieldRead(id.version);
  }

  /** Reading a printed device gives it back, up to empty optional fields. */
  lemma DeviceRead(d: Device)
    ensures ParseDevice(Join(EncodeAll(Fields(d)), COMMA)) == Success(NormalDevice(d))
  {
    hide Fields;
    hide Join;
    hide Split;
    hide EncodeAll;
    hide DecodeAll;
    hide NonEmpty;
    hide NormalField;
    FieldsRead(d);
    FieldsDecoded(Fields(d));
    SplitJoined(EncodeAll(Fields(d)), COMMA);
  }

  lemma StepDevice(p: Partial, d: Device)
    ensures Step(p, RenderDevice(d)) == Success(p.(devices := p.devices + [NormalDevice(d)]))
  {
    hide ParseDevice;
    hide NormalDevice;
    KeysDiffer();
    DeviceRead(d);
    EntryRead(DEVICE, Join(EncodeAll(Fields(d)), COMMA));
  }

  // ---- no printed line has a break in it ----

  lemma EntryHasNoBreak(key: seq<Byte>, value: seq<Byte>)
    requires NEWLINE !in key && NEWLINE !in value
    ensures NEWLINE !in Entry(key, value)
  {
  }

  lemma StripEntry(key: seq<Byte>, value: seq<Byte>)
    ensures StripReturn(Entry(key, value)) == Entry(key, StripReturn(value))
  {
    if value != [] && value[|value| - 1] == RETURN {
      var line := Entry(key, value);
      assert line[..|line| - 1] == Entry(key, value[..|value| - 1]);
    }
  }

  /** Text without a line break, whose end is not a carriage return. */
  predicate Unbroken(text: seq<Byte>) {
    NEWLINE !in text && StripReturn(text) == text
  }

  lemma DigitsUnbroken(key: seq<Byte>, digits: seq<Byte>)
    requires NEWLINE !in key && Digits(digits)
    ensures Unbroken(Entry(key, digits))
  {
    StripEntry(key, digits);
    EntryHasNoBreak(key, digits);
  }

  lemma {:induction false} JoinedUnbroken(parts: seq<seq<Byte>>)
    requires forall i :: 0 <= i < |parts| ==> Digits(parts[i])
    requires |parts| > 0
    ensures Unbroken(Join(parts, COMMA))
  {
    if |parts| > 1 {
      var rest := Join(parts[1..], COMMA);
      JoinedUnbroken(parts[1..]);
      StripTail(parts[0] + [COMMA], rest);
    }
  }

  lemma StripTail(front: seq<Byte>, rest: seq<Byte>)
    requires NEWLINE !in front && Unbroken(rest) && front != [] && front[|front| - 1] != RETURN
    ensures Unbroken(front + rest)
  {
    if rest == [] {
      assert front + rest == front;
    }
  }

  lemma DeviceUnbroken(d: Device)
    ensures Unbroken(RenderDevice(d))
  {
    FieldsDecoded(Fields(d));
    JoinedUnbroken(EncodeAll(Fields(d)));
    KeysDiffer();
    var value := Join(EncodeAll(Fields(d)), COMMA);
    StripEntry(DEVICE, value);
    EntryHasNoBreak(DEVICE, value);
  }

  lemma {:induction false} DevicesUnbroken(devices: seq<Device>)
    ensures forall i :: 0 <= i < |RenderDevices(devices)| ==> Unbroken(RenderDevices(devices)[i])
  {
    if devices != [] {
      DeviceUnbroken(devices[0]);
      DevicesUnbroken(devices[1..]);
      assert RenderDevices(devices)[1..] == RenderDevices(devices[1..]);
    }
  }

  lemma {:induction false} UnbrokenStripped(lines: seq<seq<Byte>>)
    requires forall i :: 0 <= i < |lines| ==> Unbroken(lines[i])
    ensures Stripped(lines) == lines
  {
    if lines != [] {
      UnbrokenStripped(lines[1..]);
      assert lines == [lines[0]] + lines[1..];
    }
  }

  // ---- the whole file ----

  /** The four entries after the version. */
  function Middle(c: Cache): seq<seq<Byte>> {
    [Entry(SCRIPT, HexEncode(c.script)), Entry(MODE, HexEncode(c.mode)),
     Entry(OUTPUT, HexEncode(c.output)), Entry(UPDATED, Decimal(c.updated))]
  }

  lemma MiddleUnbroken(c: Cache)
    ensures forall i :: 0 <= i < 4 ==> Unbroken(Middle(c)[i])
  {
    KeysDiffer();
    HexIsDigits(c.script);
    HexIsDigits(c.mode);
    HexIsDigits(c.output);
    DecimalRead(c.updated);
    DigitsUnbroken(SCRIPT, HexEncode(c.script));
    DigitsUnbroken(MODE, HexEncode(c.mode));
    DigitsUnbroken(OUTPUT, HexEncode(c.output));
    DigitsUnbroken(UPDATED, Decimal(c.updated));
  }

  /** What the parser sees of a printed cache whose version has no line break. */
  lemma RenderedLines(c: Cache)
    requires NEWLINE !in c.version
    ensures Lines(Render(c)) == [Entry(VERSION, StripReturn(c.version))] + Middle(c) + RenderDevices(c.devices)
  {
    var tail := Middle(c) + RenderDevices(c.devices);
    var lines := [Entry(VERSION, c.version)] + tail;
    assert RenderLines(c) == lines;
    MiddleUnbroken(c);
    DevicesUnbroken(c.devices);
    assert forall i :: 0 <= i < |tail| ==> Unbroken(tail[i]);
    UnbrokenStripped(tail);
    KeysDiffer();
    EntryHasNoBreak(VERSION, c.version);
    StripEntry(VERSION, c.version);
    LinesJoined(lines);
    assert lines[1..] == tail;
  }

  lemma CollectCons(p: Partial, line: seq<Byte>, rest: seq<seq<Byte>>, next: Partial)
    requires Step(p, line) == Success(next)
    ensures Collect(p, [line] + rest) == Collect(next, rest)
  {
    hide Step;
    assert ([line] + rest)[1..] == rest;
  }

  lemma NothingCollected(p: Partial)
    ensures Collect(p, []) == Success(p)
  {
  }

  lemma {:induction false} DevicesCollected(p: Partial, devices: seq<Device>)
    ensures Collect(p, RenderDevices(devices)) == Success(p.(devices := p.devices + NormalDevices(devices)))
    decreases |devices|
  {
    hide Step;
    hide Collect;
    hide RenderDevice;
    hide NormalDevice;
    if devices == [] {
      NothingCollected(p);
      assert p.devices + [] == p.devices;
    } else {
      var next := p.(devices := p.devices + [NormalDevice(devices[0])]);
      StepDevice(p, devices[0]);
      CollectCons(p, RenderDevice(devices[0]), RenderDevices(devices[1..]), next);
      DevicesCollected(next, devices[1..]);
      assert next.devices + NormalDevices(devices[1..]) == p.devices + NormalDevices(devices);
    }
  }

  /** What the entries before the devices leave collected. */
  function Header(c: Cache, version: seq<Byte>): Partial {
    Partial(Some(version), Some(c.script), Some(c.mode), Some(c.output), Some(c.updated), [])
  }

  lemma HeaderCollected(c: Cache, version: seq<Byte>, rest: seq<seq<Byte>>)
    ensures Collect(NOTHING, [Entry(VERSION, version)] + Middle(c) + rest) == Collect(Header(c, version), rest)
  {
    hide Step;
    hide Entry;
    hide Collect;
    var p1 := NOTHING.(version := Some(version));
    var p2 := p1.(script := Some(c.script));
    var p3 := p2.(mode := Some(c.mode));
    var p4 := p3.(output := Some(c.output));
    StepVersion(NOTHING, version);
    StepTexts(p1, c.script);
    StepTexts(p2, c.mode);
    StepTexts(p3, c.output);
    StepTime(p4, c.updated);
    var l4 := [Entry(UPDATED, Decimal(c.updated))] + rest;
    var l3 := [Entry(OUTPUT, HexEncode(c.output))] + l4;
    var l2 := [Entry(MODE, HexEncode(c.mode))] + l3;
    var l1 := [Entry(SCRIPT, HexEncode(c.script))] + l2;
    assert [Entry(VERSION, version)] + Middle(c) + rest == [Entry(VERSION, version)] + l1;
    CollectCons(NOTHING, Entry(VERSION, version), l1, p1);
    CollectCons(p1, Entry(SCRIPT, HexEncode(c.script)), l2, p2);
    CollectCons(p2, Entry(MODE, HexEncode(c.mode)), l3, p3);
    CollectCons(p3, Entry(OUTPUT, HexEncode(c.output)), l4, p4);
    CollectCons(p4, Entry(UPDATED, Decimal(c.updated)), rest, Header(c, version));
  }

  /** The cache that comes back: the version without a final return, no optional field empty. */
  function Normal(c: Cache): Cache {
    c.(version := StripReturn(c.version), devices := NormalDevices(c.devices))
  }

  /** Parsing a printed cache gives its normal form, as long as the version has no line break. */
  lemma ParseOfRender(c: Cache)
    requires NEWLINE !in c.version
    ensures Parse(Render(c)) == Success(Normal(c))
  {
    hide Collect;
    hide Lines;
    hide Render;
    hide RenderDevices;
    hide NormalDevices;
    hide StripReturn;
    var header := Header(c, StripReturn(c.version));
    RenderedLines(c);
    HeaderCollected(c, StripReturn(c.version), RenderDevices(c.devices));
    DevicesCollected(header, c.devices);
    assert header.devices + NormalDevices(c.devices) == NormalDevices(c.devices);
  }

  // ---- what no parse can return ----

  lemma {:induction false} LinesHaveNoBreak(text: seq<Byte>)
    ensures forall i :: 0 <= i < |Lines(text)| ==> NEWLINE !in Lines(text)[i]
    decreases |text|
  {
    if text != [] {
      var n := Find(text, NEWLINE);
      if n < |text| {
        LinesHaveNoBreak(text[n + 1..]);
        assert Lines(text)[1..] == Lines(text[n + 1..]);
        assert NEWLINE !in text[..n];
      }
    }
  }

  predicate VersionUnbroken(p: Partial) {
    p.version.Some? ==> NEWLINE !in p.version.value
  }

  lemma StepVersionUnbroken(p: Partial, line: seq<Byte>)
    requires VersionUnbroken(p) && NEWLINE !in line
    ensures Step(p, line).Success? ==> VersionUnbroken(Step(p, line).value)
  {
    hide HexDecode;
    hide ParseDevice;
    hide ParseU128;
  }

  lemma {:induction false} CollectVersionUnbroken(p: Partial, lines: seq<seq<Byte>>)
    requires VersionUnbroken(p) && forall i :: 0 <= i < |lines| ==> NEWLINE !in lines[i]
    ensures Collect(p, lines).Success? ==> VersionUnbroken(Collect(p, lines).value)
    decreases |lines|
  {
    if lines != [] {
      hide Step;
      StepVersionUnbroken(p, lines[0]);
      if Step(p, lines[0]).Success? {
        CollectVersionUnbroken(Step(p, lines[0]).value, lines[1..]);
      }
    }
  }

  /** No source parses to a version with a line break in it. */
  lemma ParsedVersionUnbroken(source: seq<Byte>)
    ensures Parse(source).Success? ==> NEWLINE !in Parse(source).value.version
  {
    LinesHaveNoBreak(source);
    CollectVersionUnbroken(NOTHING, Lines(source));
  }

  // ---- exactly when the round trip is the identity ----

  predicate NoEmptyField(d: Device) {
    var id := d.identity;
    && id.name != Some([]) && id.phys != Some([]) && id.uniq != Some([]) && id.bustype != Some([])
    && id.vendor != Some([]) && id.product != Some([]) && id.version != Some([])
  }

  predicate EndsInReturn(text: seq<Byte>) {
    text != [] && text[|text| - 1] == RETURN
  }

  lemma {:induction false} NormalDevicesIff(devices: seq<Device>)
    ensures NormalDevices(devices) == devices <==> forall i :: 0 <= i < |devices| ==> NoEmptyField(devices[i])
  {
    if devices != [] {
      NormalDevicesIff(devices[1..]);
      NormalDeviceIff(devices[0]);
      assert devices == [devices[0]] + devices[1..];
      if NormalDevices(devices) == devices {
        assert NormalDevices(devices)[0] == devices[0] && NormalDevices(devices)[1..] == devices[1..];
      }
    }
  }

  lemma NormalDeviceIff(d: Device)
    ensures NormalDevice(d) == d <==> NoEmptyField(d)
  {
  }

  /**
   The parser gives back exactly the printed cache if and only if its version has no line feed and
   does not end in a carriage return, and no optional identity field is present and empty.
  */
  lemma RoundTripIff(c: Cache)
    ensures Parse(Render(c)) == Success(c) <==>
      && NEWLINE !in c.version && !EndsInReturn(c.version)
      && forall i :: 0 <= i < |c.devices| ==> NoEmptyField(c.devices[i])
  {
    hide Parse;
    hide Render;
    hide NoEmptyField;
    if NEWLINE in c.version {
      ParsedVersionUnbroken(Render(c));
    } else {
      ParseOfRender(c);
      NormalDevicesIff(c.devices);
    }
  }
}
