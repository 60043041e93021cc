/**
 * The configuration rules of src/flashfs.cpp. The file system and the JSON parser are not
 * modelled: each loader receives the document already parsed, `None` when the file could not
 * be read or did not parse, and a field is `None` when its key is absent. What is modelled is
 * `parseHexString` with the `strtoul(…, 16)` it relies on, the LoRa and MAC field rules, the
 * request and alarm validation of `loadModbusConfigFromFlash`, and `loadInputsConfig`.
 */
module FlashFs {
  import opened Config
  import opened Wrappers

  // ----- strtoul(s, nullptr, 16) with a 32-bit unsigned long -----

  const CHAR_0: byte := 0x30
  const CHAR_A: byte := 0x41
  const CHAR_LOWER_A: byte := 0x61
  const CHAR_PLUS: byte := 0x2B
  const CHAR_MINUS: byte := 0x2D
  const CHAR_X: byte := 0x58
  const CHAR_LOWER_X: byte := 0x78

  /** `isspace` in the C locale: space, `\t`, `\n`, `\v`, `\f`, `\r`. */
  predicate IsSpace(c: byte)
  {
    c == 0x20 || 0x09 <= c <= 0x0D
  }

  /** The value of a hexadecimal digit in either case. */
  function HexDigit(c: byte): (d: Option<nat>)
    ensures d.Some? <==> (CHAR_0 <= c < CHAR_0 + 10 || CHAR_A <= c < CHAR_A + 6 || CHAR_LOWER_A <= c < CHAR_LOWER_A + 6)
    ensures d.Some? ==> d.value < 16
  {
    if CHAR_0 <= c < CHAR_0 + 10 then Some(c - CHAR_0)
    else if CHAR_A <= c < CHAR_A + 6 then Some(c - CHAR_A + 10)
    else if CHAR_LOWER_A <= c < CHAR_LOWER_A + 6 then Some(c - CHAR_LOWER_A + 10)
    else None
  }

  predicate AllHex(s: Text)
  {
    forall i :: 0 <= i < |s| ==> HexDigit(s[i]).Some?
  }

  /** The number of leading hexadecimal digits: the part of the text `strtoul` consumes. */
  function HexRun(s: Text): (n: nat)
    ensures n <= |s| && AllHex(s[..n])
    ensures n < |s| ==> HexDigit(s[n]).None?
  {
    if s == [] || HexDigit(s[0]).None? then 0
    else
      var n := 1 + HexRun(s[1..]);
      assert s[..n] == [s[0]] + s[1..][..n - 1];
      n
  }

  /** The value of a string of hexadecimal digits, most significant first. */
  function HexValue(s: Text): nat
    requires AllHex(s)
  {
    if s == [] then 0 else 16 * HexValue(s[..|s| - 1]) + HexDigit(s[|s| - 1]).value
  }

  /** What is left after the leading white space. */
  function SkipSpace(s: Text): (t: Text)
    ensures |t| <= |s| && t == s[|s| - |t|..]
    ensures t != [] ==> !IsSpace(t[0])
    ensures (forall i :: 0 <= i < |s| ==> !IsSpace(s[i])) ==> t == s
  {
    if s != [] && IsSpace(s[0]) then SkipSpace(s[1..]) else s
  }

  /** Whether the text, after its white space, starts with a minus sign. */
  predicate Negative(s: Text)
  {
    var t := SkipSpace(s);
    t != [] && t[0] == CHAR_MINUS
  }

  /** The text from which the digits are read: white space, one sign and a `0x`/`0X` removed. */
  function DigitText(s: Text): Text
  {
    var t := SkipSpace(s);
    var u := if t != [] && (t[0] == CHAR_PLUS || t[0] == CHAR_MINUS) then t[1..] else t;
    if |u| >= 2 && u[0] == CHAR_0 && (u[1] == CHAR_X || u[1] == CHAR_LOWER_X) then u[2..] else u
  }

  /**
   * `strtoul(s, nullptr, 16)` of the C library: white space, an optional sign and an
   * optional `0x`/`0X` are skipped, then the leading hex digits are read. A value beyond
   * 32 bits gives `ULONG_MAX`; a minus sign negates modulo 2^32. No digits give 0.
   */
  function StrToULHex(s: Text): (v: uint32)
  {
    var d := DigitText(s);
    var acc := HexValue(d[..HexRun(d)]);
    if acc > 0xFFFF_FFFF then 0xFFFF_FFFF
    else if Negative(s) then (0x1_0000_0000 - acc) % 0x1_0000_0000
    else acc
  }

  // ----- Hexadecimal text written by the configuration tools -----

  function Pow16(k: nat): (p: nat)
    ensures p >= 1
  {
    if k == 0 then 1 else 16 * Pow16(k - 1)
  }

  /** An upper-case hexadecimal digit. */
  function HexChar(d: nat): (c: byte)
    requires d < 16
    ensures HexDigit(c) == Some(d)
    ensures !IsSpace(c) && c != CHAR_PLUS && c != CHAR_MINUS && c != CHAR_X && c != CHAR_LOWER_X
  {
    if d < 10 then CHAR_0 + d else CHAR_A + (d - 10)
  }

  /** x written with exactly k hexadecimal digits, most significant first. */
  function HexOf(x: nat, k: nat): (s: Text)
    ensures |s| == k && AllHex(s)
    ensures forall i :: 0 <= i < |s| ==> !IsSpace(s[i]) && s[i] != CHAR_PLUS && s[i] != CHAR_MINUS
    ensures forall i :: 0 <= i < |s| ==> s[i] != CHAR_X && s[i] != CHAR_LOWER_X
  {
    if k == 0 then [] else HexOf(x / 16, k - 1) + [HexChar(x % 16)]
  }

  lemma {:induction false} HexOfValue(x: nat, k: nat)
    requires x < Pow16(k)
    ensures HexValue(HexOf(x, k)) == x
    decreases k
  {
    if k > 0 {
      var s := HexOf(x, k);
      assert s[..k - 1] == HexOf(x / 16, k - 1);
      HexOfValue(x / 16, k - 1);
    }
  }

  lemma {:induction false} Pow16Monotone(a: nat, b: nat)
    requires a <= b
    ensures Pow16(a) <= Pow16(b)
    decreases b
  {
    if a < b { Pow16Monotone(a, b - 1); }
  }

  /** A text of digits alone is read as it stands. */
  lemma PlainDigitText(s: Text)
    requires forall i :: 0 <= i < |s| ==> !IsSpace(s[i]) && s[i] != CHAR_PLUS && s[i] != CHAR_MINUS
    requires forall i :: 0 <= i < |s| ==> s[i] != CHAR_X && s[i] != CHAR_LOWER_X
    ensures DigitText(s) == s && !Negative(s)
  {
    assert SkipSpace(s) == s;
  }

  /** Up to eight hexadecimal digits read back by `strtoul` give the value they were written from. */
  lemma StrToULHexOf(x: nat, k: nat)
    requires k <= 8 && x < Pow16(k)
    ensures StrToULHex(HexOf(x, k)) == x
  {
    var s := HexOf(x, k);
    HexOfValue(x, k);
    Pow16Monotone(k, 8);
    assert Pow16(8) == 0x1_0000_0000;
    assert x <= 0xFFFF_FFFF;
    PlainDigitText(s);
    assert HexRun(s) == |s|;
    assert s[..HexRun(s)] == s;
  }

  // ----- parseHexString -----

  /** `strtoul((String() + high + low).c_str(), nullptr, 16)` stored in a `uint8_t`. */
  function PairByte(high: byte, low: byte): byte
  {
    StrToULHex([high, low]) % 0x100
  }

  /**
   * `parseHexString(hex, output, len)` as a value: `None` for a text that is not exactly
   * `2 * len` characters long; otherwise byte i is read from characters 2i and 2i+1.
   * Non-hex characters do not make it fail: `strtoul` stops at them.
   */
  function ParseHex(hex: Text, len: nat): (r: Option<seq<byte>>)
    ensures r.Some? <==> |hex| == 2 * len
    ensures r.Some? ==> |r.value| == len
  {
    if |hex| != 2 * len then None
    else Some(seq(len, i requires 0 <= i < len => PairByte(hex[2 * i], hex[2 * i + 1])))
  }

  /** The firmware's `parseHexString`, writing `output[0 .. len)` in a loop. */
  method ParseHexString(hex: Text, output: array<byte>, len: nat) returns (ok: bool)
    requires len <= output.Length
    modifies output
    ensures ok <==> |hex| == 2 * len
    ensures !ok ==> unchanged(output)
    ensures ok ==> output[..len] == ParseHex(hex, len).value && output[len..] == old(output[len..])
  {
    if |hex| != 2 * len {
      return false;
    }
    ghost var want := ParseHex(hex, len).value;
    for i := 0 to len
      invariant output[..i] == want[..i]
      invariant output[i..] == old(output[i..])
    {
      output[i] := PairByte(hex[2 * i], hex[2 * i + 1]);
      assert output[..i + 1] == want[..i] + [want[i]];
    }
    assert want[..len] == want;
    return true;
  }

  /** Every byte as two upper-case hexadecimal digits, high nibble first. */
  function HexEncode(bytes: seq<byte>): (hex: Text)
    ensures |hex| == 2 * |bytes|
  {
    seq(2 * |bytes|, j requires 0 <= j < 2 * |bytes| => HexOf(bytes[j / 2], 2)[j % 2])
  }

  /** One byte written as two hex digits is read back by `strtoul`. */
  lemma PairOfHex(b: byte)
    ensures PairByte(HexOf(b, 2)[0], HexOf(b, 2)[1]) == b
  {
    var s := HexOf(b, 2);
    assert [s[0], s[1]] == s;
    assert Pow16(2) == 256;
    StrToULHexOf(b, 2);
  }

  lemma HexEncodeAt(bytes: seq<byte>, i: nat)
    requires i < |bytes|
    ensures HexEncode(bytes)[2 * i] == HexOf(bytes[i], 2)[0]
    ensures HexEncode(bytes)[2 * i + 1] == HexOf(bytes[i], 2)[1]
  {
    var j := 2 * i;
    assert j / 2 == i && j % 2 == 0;
    assert (j + 1) / 2 == i && (j + 1) % 2 == 1;
  }

  lemma ParseHexAt(bytes: seq<byte>, i: nat)
    requires i < |bytes|
    ensures ParseHex(HexEncode(bytes), |bytes|).value[i] == bytes[i]
  {
    var hex := HexEncode(bytes);
    var pair := HexOf(bytes[i], 2);
    HexEncodeAt(bytes, i);
    PairOfHex(bytes[i]);
    calc {
      ParseHex(hex, |bytes|).value[i];
      PairByte(hex[2 * i], hex[2 * i + 1]);
      { assert hex[2 * i] == pair[0] && hex[2 * i + 1] == pair[1]; }
      PairByte(pair[0], pair[1]);
    }
  }

  /** A key written as hexadecimal text is read back byte for byte. */
  lemma ParseHexRoundTrip(bytes: seq<byte>)
    ensures ParseHex(HexEncode(bytes), |bytes|) == Some(bytes)
  {
    var r := ParseHex(HexEncode(bytes), |bytes|).value;
    forall i | 0 <= i < |bytes| ensures r[i] == bytes[i] {
      ParseHexAt(bytes, i);
    }
    assert r == bytes;
  }

  /** A pair that is not hexadecimal still succeeds, and reads as 0. */
  lemma ParseHexAcceptsJunk()
    ensures ParseHex([0x7A, 0x7A], 1) == Some([0])
  {
    var s: Text := [0x7A, 0x7A];
    assert SkipSpace(s) == s;
    assert HexRun(s) == 0;
    assert s[..0] == [];
    assert PairByte(0x7A, 0x7A) == 0;
    var r := ParseHex(s, 1).value;
    assert r[0] == PairByte(s[0], s[1]);
    assert r == [0];
  }

  // ----- configureLoRaFromJson and configureMACAddressFromJson -----

  /** The LoRa globals `configureLoRaFromJson` may set. */
  datatype LoraSettings = LoraSettings(
    joinAbp: bool,
    devEui: seq<byte>,
    appEui: seq<byte>,
    appKey: seq<byte>,
    nwkSKey: seq<byte>,
    appSKey: seq<byte>,
    devAddr: uint32,
    uplinkInterval: uint32,
    subBand: byte,
    adr: bool,
    sf: byte)

  /** The all-zero session key `NWKSKEY` and `APPSKEY` start as. */
  const ZERO_KEY: seq<byte> := [0, 0, 0, 0, 0, 0, 0, 0, 0, 0, 0, 0, 0, 0, 0, 0]

  /** The initial values of those globals. */
  const INITIAL_LORA := LoraSettings(
    INITIAL_JOIN_MODE_ABP,
    [0x0E, 0x7A, 0x5B, 0x11, 0x8B, 0x3F, 0x10, 0x2B],
    [0x8F, 0xCD, 0xCE, 0xB4, 0x06, 0xAD, 0xBC, 0x06],
    [0xC6, 0x65, 0x98, 0xC4, 0xA8, 0x90, 0x7C, 0x38, 0x79, 0x0A, 0xEC, 0x2B, 0x4B, 0x5B, 0x23, 0x41],
    ZERO_KEY,
    ZERO_KEY,
    INITIAL_DEVADDR,
    INITIAL_UPLINK_INTERVAL,
    INITIAL_SUBBAND,
    INITIAL_ADR,
    INITIAL_SF)

  /** The `"lora"` object of lora.json. */
  datatype LoraDoc = LoraDoc(
    join: Option<Text>,
    deveui: Option<Text>,
    appeui: Option<Text>,
    appkey: Option<Text>,
    nwkskey: Option<Text>,
    appskey: Option<Text>,
    devaddr: Option<Text>,
    interval: Option<uint32>,
    subband: Option<byte>,
    adr: Option<bool>,
    sf: Option<byte>)

  /** A key array after `parseHexString`: replaced only by a text of the right length. */
  function KeyFrom(key: seq<byte>, field: Option<Text>): (r: seq<byte>)
    ensures |r| == |key|
  {
    if field.None? then key
    else match ParseHex(field.value, |key|)
      case None => key
      case Some(bytes) => bytes
  }

  /** `DEVADDR = strtoul(s, nullptr, 16)`, for an eight-character text only. */
  function DevAddrFrom(devAddr: uint32, field: Option<Text>): uint32
  {
    if field.Some? && |field.value| == 8 then StrToULHex(field.value) else devAddr
  }

  function OrElse<T>(field: Option<T>, current: T): T
  {
    if field.Some? then field.value else current
  }

  /** `configureLoRaFromJson`: every present key updates its global; nothing without a `"lora"` object. */
  function ConfigureLoRa(s: LoraSettings, doc: Option<LoraDoc>): (r: LoraSettings)
    ensures doc.None? ==> r == s
    ensures |r.devEui| == |s.devEui| && |r.appEui| == |s.appEui| && |r.appKey| == |s.appKey|
    ensures |r.nwkSKey| == |s.nwkSKey| && |r.appSKey| == |s.appSKey|
  {
    match doc
    case None => s
    case Some(d) =>
      LoraSettings(
        if d.join.Some? then d.join.value == Ascii("abp") else s.joinAbp,
        KeyFrom(s.devEui, d.deveui),
        KeyFrom(s.appEui, d.appeui),
        KeyFrom(s.appKey, d.appkey),
        KeyFrom(s.nwkSKey, d.nwkskey),
        KeyFrom(s.appSKey, d.appskey),
        DevAddrFrom(s.devAddr, d.devaddr),
        OrElse(d.interval, s.uplinkInterval),
        OrElse(d.subband, s.subBand),
        OrElse(d.adr, s.adr),
        OrElse(d.sf, s.sf))
  }

  /**
   * The join mode becomes ABP exactly for the text "abp"; the device address changes only
   * through an eight-character text, and an eight-digit address written in hex is read back.
   */
  lemma ConfigureLoRaRules(s: LoraSettings, d: LoraDoc)
    ensures var r := ConfigureLoRa(s, Some(d));
      && (d.join.Some? ==> (r.joinAbp <==> d.join.value == Ascii("abp")))
      && (d.join.None? ==> r.joinAbp == s.joinAbp)
      && (r.devAddr != s.devAddr ==> d.devaddr.Some? && |d.devaddr.value| == 8)
      && (forall x: uint32 :: d.devaddr == Some(HexOf(x, 8)) ==> r.devAddr == x)
  {
    forall x: uint32 | d.devaddr == Some(HexOf(x, 8)) ensures ConfigureLoRa(s, Some(d)).devAddr == x {
      assert Pow16(8) == 0x1_0000_0000;
      StrToULHexOf(x, 8);
    }
  }

  /** A key written in hex with the right number of digits is installed as written. */
  lemma ConfigureLoRaKeys(s: LoraSettings, d: LoraDoc, key: seq<byte>)
    requires d.nwkskey == Some(HexEncode(key)) && |key| == |s.nwkSKey|
    ensures ConfigureLoRa(s, Some(d)).nwkSKey == key
  {
    ParseHexRoundTrip(key);
  }

  /** `configureMACAddressFromJson`: only an array of exactly six bytes replaces the address. */
  function ConfigureMac(mac: seq<byte>, field: Option<seq<byte>>): (r: seq<byte>)
    ensures r == mac || (field.Some? && |field.value| == 6 && r == field.value)
    ensures field.Some? && |field.value| == 6 ==> r == field.value
  {
    if field.Some? && |field.value| == 6 then field.value else mac
  }

  // ----- loadModbusConfigFromFlash: requests and alarms -----

  /** One element of an `"alarms"` array. */
  datatype AlarmDoc = AlarmDoc(index: Option<byte>, op: Option<Text>, threshold: Option<uint16>)

  /** One element of the `"requests"` array; an absent `"alarms"` key reads as no alarms. */
  datatype RequestDoc = RequestDoc(
    ip: Option<seq<byte>>,
    unitID: Option<byte>,
    start: Option<uint16>,
    count: Option<int>,
    func: Option<int>,
    alarms: seq<AlarmDoc>)

  /** modbus.json; an absent `"requests"` key reads as an empty array. */
  datatype ModbusDoc = ModbusDoc(interval: Option<uint32>, requests: seq<RequestDoc>)

  /** The largest register count the validator lets through (section 6.3 of the Modbus Application Protocol V1.1b3). */
  const MAX_REGISTER_COUNT := 125

  /** The first check of the request loop: every key present and a 4-element ip. */
  predicate RequestKeysPresent(e: RequestDoc)
  {
    && e.ip.Some? && |e.ip.value| == 4
    && e.unitID.Some? && e.start.Some? && e.count.Some? && e.func.Some?
  }

  /** The second check: a register count of 1..125 and a read function code. */
  predicate RequestParametersValid(e: RequestDoc)
    requires RequestKeysPresent(e)
  {
    0 < e.count.value <= MAX_REGISTER_COUNT && 1 <= e.func.value <= 4
  }

  predicate ValidRequest(e: RequestDoc)
  {
    RequestKeysPresent(e) && RequestParametersValid(e)
  }

  predicate ValidAlarm(a: AlarmDoc)
  {
    a.index.Some? && a.op.Some? && a.threshold.Some?
  }

  /** `alarm["op"].as<const char*>()[0]`: the first character, or the terminating 0 of an empty text. */
  function OpByte(op: Text): byte
  {
    if op == [] then 0 else op[0]
  }

  /**
   * One alarm slot written from a valid entry. The firmware writes index, op, threshold and
   * `active := false` and leaves `pending` as the slot had it (`clearPending` false); the
   * corrected loader clears it too.
   */
  function AlarmFromDoc(slot: AlarmCondition, a: AlarmDoc, clearPending: bool): (r: AlarmCondition)
    requires ValidAlarm(a)
  {
    AlarmCondition(a.index.value, OpByte(a.op.value), a.threshold.value, false,
                   if clearPending then false else slot.pending)
  }

  /** The valid entries, in order. */
  function ValidAlarms(docs: seq<AlarmDoc>): (r: seq<AlarmDoc>)
    ensures |r| <= |docs|
    ensures forall k :: 0 <= k < |r| ==> ValidAlarm(r[k]) && r[k] in docs
  {
    if docs == [] then []
    else (if ValidAlarm(docs[0]) then [docs[0]] else []) + ValidAlarms(docs[1..])
  }

  function Min(a: int, b: int): int { if a < b then a else b }

  /** The alarm loop: leave at four alarms, skip an incomplete entry, else fill slot n. */
  function LoadAlarms(slots: seq<AlarmCondition>, n: nat, docs: seq<AlarmDoc>, clearPending: bool)
    : (r: (seq<AlarmCondition>, nat))
    requires |slots| == MAX_ALARMS_PER_REQUEST && n <= MAX_ALARMS_PER_REQUEST
    ensures |r.0| == MAX_ALARMS_PER_REQUEST && n <= r.1 <= MAX_ALARMS_PER_REQUEST
    decreases |docs|
  {
    if docs == [] || n >= MAX_ALARMS_PER_REQUEST then (slots, n)
    else if !ValidAlarm(docs[0]) then LoadAlarms(slots, n, docs[1..], clearPending)
    else LoadAlarms(slots[n := AlarmFromDoc(slots[n], docs[0], clearPending)], n + 1, docs[1..], clearPending)
  }

  /** The alarm loop keeps the first valid entries, at most four, in slots n.. in order, and no other slot changes. */
  lemma {:induction false} LoadAlarmsShape(slots: seq<AlarmCondition>, n: nat, docs: seq<AlarmDoc>, clearPending: bool)
    requires |slots| == MAX_ALARMS_PER_REQUEST && n <= MAX_ALARMS_PER_REQUEST
    ensures var (s2, n2) := LoadAlarms(slots, n, docs, clearPending);
      && n2 == Min(MAX_ALARMS_PER_REQUEST, n + |ValidAlarms(docs)|)
      && forall a :: 0 <= a < MAX_ALARMS_PER_REQUEST ==>
           s2[a] == if n <= a < n2 then AlarmFromDoc(slots[a], ValidAlarms(docs)[a - n], clearPending) else slots[a]
    decreases |docs|
  {
    if docs == [] || n >= MAX_ALARMS_PER_REQUEST {
    } else if !ValidAlarm(docs[0]) {
      LoadAlarmsShape(slots, n, docs[1..], clearPending);
    } else {
      var slots1 := slots[n := AlarmFromDoc(slots[n], docs[0], clearPending)];
      LoadAlarmsShape(slots1, n + 1, docs[1..], clearPending);
      var v := ValidAlarms(docs);
      assert v == [docs[0]] + ValidAlarms(docs[1..]);
    }
  }

  /** Every request slot has the firmware's buffer sizes. */
  predicate Shaped(t: seq<ModbusRequest>)
  {
    |t| == MAX_REQUESTS &&
    forall i :: 0 <= i < |t| ==> |t[i].result| == RESULT_SLOTS && |t[i].alarms| == MAX_ALARMS_PER_REQUEST
  }

  /** One accepted entry written over slot `slot`; `result` keeps its old contents. */
  function RequestFromDoc(slot: ModbusRequest, e: RequestDoc, clearPending: bool): (r: ModbusRequest)
    requires ValidRequest(e) && |slot.alarms| == MAX_ALARMS_PER_REQUEST
    ensures |r.alarms| == MAX_ALARMS_PER_REQUEST && r.result == slot.result
  {
    var ip := e.ip.value;
    var (alarms, count) := LoadAlarms(slot.alarms, 0, e.alarms, clearPending);
    slot.(slaveIP := IPAddress(ip[0], ip[1], ip[2], ip[3]),
          unitID := e.unitID.value,
          startReg := e.start.value,
          numRegs := e.count.value,
          func := FunctionFromCode(e.func.value).value,
          success := false,
          alarms := alarms,
          alarmCount := count)
  }

  function ValidRequests(entries: seq<RequestDoc>): (r: seq<RequestDoc>)
    ensures |r| <= |entries|
    ensures forall k :: 0 <= k < |r| ==> ValidRequest(r[k]) && r[k] in entries
  {
    if entries == [] then []
    else (if ValidRequest(entries[0]) then [entries[0]] else []) + ValidRequests(entries[1..])
  }

  /**
   * The request loop from slot c on: skip an invalid entry, leave when the table is full,
   * else fill slot c and move on.
   */
  function LoadRequests(t: seq<ModbusRequest>, c: nat, entries: seq<RequestDoc>, clearPending: bool)
    : (r: (seq<ModbusRequest>, nat))
    requires Shaped(t) && c <= MAX_REQUESTS
    ensures Shaped(r.0) && c <= r.1 <= MAX_REQUESTS
    decreases |entries|
  {
    if entries == [] then (t, c)
    else if !ValidRequest(entries[0]) then LoadRequests(t, c, entries[1..], clearPending)
    else if c >= MAX_REQUESTS then (t, c)
    else LoadRequests(t[c := RequestFromDoc(t[c], entries[0], clearPending)], c + 1, entries[1..], clearPending)
  }

  /** The loop stops at the capacity or after the last valid entry. */
  lemma {:induction false} LoadRequestsCount(t: seq<ModbusRequest>, c: nat, entries: seq<RequestDoc>, clearPending: bool)
    requires Shaped(t) && c <= MAX_REQUESTS
    ensures LoadRequests(t, c, entries, clearPending).1 == Min(MAX_REQUESTS, c + |ValidRequests(entries)|)
    decreases |entries|
  {
    if entries == [] {
    } else if !ValidRequest(entries[0]) {
      LoadRequestsCount(t, c, entries[1..], clearPending);
    } else if c < MAX_REQUESTS {
      LoadRequestsCount(t[c := RequestFromDoc(t[c], entries[0], clearPending)], c + 1, entries[1..], clearPending);
    }
  }

  /** The table is refilled from slot c with the first valid entries in order, at most up to the capacity. */
  lemma {:induction false} LoadRequestsShape(t: seq<ModbusRequest>, c: nat, entries: seq<RequestDoc>, clearPending: bool)
    requires Shaped(t) && c <= MAX_REQUESTS
    ensures var (t2, c2) := LoadRequests(t, c, entries, clearPending);
      && c2 == Min(MAX_REQUESTS, c + |ValidRequests(entries)|)
      && forall i :: 0 <= i < MAX_REQUESTS ==>
           t2[i] == if c <= i < c2 then RequestFromDoc(t[i], ValidRequests(entries)[i - c], clearPending) else t[i]
    decreases |entries|
  {
    LoadRequestsCount(t, c, entries, clearPending);
    if entries == [] {
    } else if !ValidRequest(entries[0]) {
      LoadRequestsShape(t, c, entries[1..], clearPending);
    } else if c < MAX_REQUESTS {
      LoadRequestsStep(t, c, entries, clearPending);
    }
  }

  lemma {:induction false} LoadRequestsStep(t: seq<ModbusRequest>, c: nat, entries: seq<RequestDoc>, clearPending: bool)
    requires Shaped(t) && c < MAX_REQUESTS && entries != [] && ValidRequest(entries[0])
    ensures var (t2, c2) := LoadRequests(t, c, entries, clearPending);
      && c2 == Min(MAX_REQUESTS, c + |ValidRequests(entries)|)
      && forall i :: 0 <= i < MAX_REQUESTS ==>
           t2[i] == if c <= i < c2 then RequestFromDoc(t[i], ValidRequests(entries)[i - c], clearPending) else t[i]
    decreases |entries|, 0
  {
    LoadRequestsCount(t, c, entries, clearPending);
    var t1 := t[c := RequestFromDoc(t[c], entries[0], clearPending)];
    LoadRequestsShape(t1, c + 1, entries[1..], clearPending);
    var v := ValidRequests(entries);
    var v1 := ValidRequests(entries[1..]);
    assert v == [entries[0]] + v1;
    var (t2, c2) := LoadRequests(t1, c + 1, entries[1..], clearPending);
    assert (t2, c2) == LoadRequests(t, c, entries, clearPending);
    assert c2 == Min(MAX_REQUESTS, c + |v|) && c < c2;
    forall i | 0 <= i < MAX_REQUESTS
      ensures t2[i] == if c <= i < c2 then RequestFromDoc(t[i], v[i - c], clearPending) else t[i]
    {
      RefillShiftAt(t, c, entries[0], v1, clearPending, c2, t2, i);
    }
  }

  /** Slot i after filling slot c with e0 and the slots after it with v1, seen from t. */
  lemma RefillShiftAt(t: seq<ModbusRequest>, c: nat, e0: RequestDoc, v1: seq<RequestDoc>, clearPending: bool,
                      c2: nat, t2: seq<ModbusRequest>, i: nat)
    requires Shaped(t) && ValidRequest(e0) && c < c2 <= MAX_REQUESTS && c2 - c <= 1 + |v1| && i < MAX_REQUESTS
    requires forall k :: 0 <= k < |v1| ==> ValidRequest(v1[k])
    requires var t1 := t[c := RequestFromDoc(t[c], e0, clearPending)];
      |t2| == MAX_REQUESTS &&
      t2[i] == if c + 1 <= i < c2 then RequestFromDoc(t1[i], v1[i - (c + 1)], clearPending) else t1[i]
    ensures t2[i] == if c <= i < c2 then RequestFromDoc(t[i], ([e0] + v1)[i - c], clearPending) else t[i]
  {
    var v := [e0] + v1;
    if c < i < c2 {
      assert v[i - c] == v1[i - (c + 1)];
    }
  }

  /** The globals `loadModbusConfigFromFlash` rebuilds. */
  datatype ModbusConfig = ModbusConfig(table: seq<ModbusRequest>, count: nat, scanInterval: uint32)

  function LoadWith(m: ModbusConfig, doc: Option<ModbusDoc>, clearPending: bool): (r: ModbusConfig)
    requires Shaped(m.table)
    ensures Shaped(r.table) && (doc.Some? ==> r.count <= MAX_REQUESTS)
    ensures doc.None? ==> r == m
  {
    match doc
    case None => m
    case Some(d) =>
      var (t2, c2) := LoadRequests(m.table, 0, d.requests, clearPending);
      ModbusConfig(t2, c2, OrElse(d.interval, m.scanInterval))
  }

  /** The Modbus part of `loadModbusConfigFromFlash` as the firmware has it. */
  function LoadModbusAsWritten(m: ModbusConfig, doc: Option<ModbusDoc>): ModbusConfig
    requires Shaped(m.table)
  {
    LoadWith(m, doc, false)
  }

  /** The same with the reloaded alarms' `pending` cleared, as a fresh `ModbusRequest` has it. */
  function LoadModbus(m: ModbusConfig, doc: Option<ModbusDoc>): ModbusConfig
    requires Shaped(m.table)
  {
    LoadWith(m, doc, true)
  }

  /** Every entry the validator accepts fits the 16 result slots. */
  predicate WithinCapacity(d: ModbusDoc)
  {
    forall e :: e in d.requests && ValidRequest(e) ==> e.count.value <= RESULT_SLOTS
  }

  /** What one accepted entry leaves in its slot under the corrected loader. */
  predicate LoadedFrom(r: ModbusRequest, e: RequestDoc)
    requires ValidRequest(e)
  {
    var v := ValidAlarms(e.alarms);
    && |r.alarms| == MAX_ALARMS_PER_REQUEST
    && r.slaveIP.Octets() == e.ip.value
    && r.unitID == e.unitID.value && r.startReg == e.start.value
    && r.numRegs as int == e.count.value
    && r.func.Code() as int == e.func.value
    && !r.success
    && r.alarmCount as int == Min(MAX_ALARMS_PER_REQUEST, |v|)
    && forall a :: 0 <= a < r.alarmCount as int ==>
         && r.alarms[a].index == v[a].index.value
         && r.alarms[a].op == OpByte(v[a].op.value)
         && r.alarms[a].threshold == v[a].threshold.value
         && !r.alarms[a].active && !r.alarms[a].pending
  }

  lemma RequestFromDocLoaded(slot: ModbusRequest, e: RequestDoc)
    requires ValidRequest(e) && |slot.alarms| == MAX_ALARMS_PER_REQUEST
    ensures LoadedFrom(RequestFromDoc(slot, e, true), e)
  {
    LoadAlarmsShape(slot.alarms, 0, e.alarms, true);
    var ip := e.ip.value;
    assert [ip[0], ip[1], ip[2], ip[3]] == ip;
  }

  /**
   * What a reload leaves: the first valid entries in order, at most 16, each with
   * `success` false and its first valid alarms (at most four) inactive and not pending;
   * slots past the new count keep their old contents.
   */
  lemma LoadModbusShape(m: ModbusConfig, d: ModbusDoc)
    requires Shaped(m.table)
    ensures var r := LoadModbus(m, Some(d));
      var v := ValidRequests(d.requests);
      && r.count == Min(MAX_REQUESTS, |v|)
      && r.scanInterval == OrElse(d.interval, m.scanInterval)
      && (forall i :: r.count <= i < MAX_REQUESTS ==> r.table[i] == m.table[i])
      && forall i :: 0 <= i < r.count ==> LoadedFrom(r.table[i], v[i])
  {
    LoadRequestsShape(m.table, 0, d.requests, true);
    var v := ValidRequests(d.requests);
    var r := LoadModbus(m, Some(d));
    forall i | 0 <= i < r.count ensures LoadedFrom(r.table[i], v[i]) {
      RequestFromDocLoaded(m.table[i], v[i]);
    }
  }

  /** The corrected reload keeps every request well formed when the accepted entries fit the buffers. */
  lemma LoadModbusWellFormed(m: ModbusConfig, d: ModbusDoc)
    requires Shaped(m.table) && forall i :: 0 <= i < |m.table| ==> WellFormed(m.table[i])
    requires WithinCapacity(d)
    ensures var r := LoadModbus(m, Some(d)); forall i :: 0 <= i < |r.table| ==> WellFormed(r.table[i])
  {
    LoadModbusShape(m, d);
    var v := ValidRequests(d.requests);
    forall i | 0 <= i < Min(MAX_REQUESTS, |v|) ensures v[i].count.value <= RESULT_SLOTS {
      assert v[i] in d.requests;
    }
  }

  /**
   * The firmware's reload can leave a pending alarm whose index lies past the new
   * register count: slot 0 had alarm 0 pending, the new entry puts that alarm at index 200
   * of a 2-register request.
   */
  lemma ReloadKeepsStalePending()
    ensures var req := NewRequest(IPAddress(192, 168, 0, 187), 1, 0, 4, ReadHreg);
      var old0 := req.(alarms := [ZERO_ALARM.(active := true, pending := true)] + req.alarms[1..], alarmCount := 1);
      var m := ModbusConfig([old0] + seq(MAX_REQUESTS - 1, _ => NewRequest()), 1, INITIAL_SCAN_INTERVAL);
      var d := ModbusDoc(None, [RequestDoc(Some([192, 168, 0, 187]), Some(1), Some(0), Some(2), Some(3),
                                           [AlarmDoc(Some(200), Some([0x3E]), Some(5))])]);
      && Shaped(m.table) && WellFormed(m.table[0]) && WithinCapacity(d)
      && LoadModbusAsWritten(m, Some(d)).table[0].alarms[0].pending
      && LoadModbusAsWritten(m, Some(d)).table[0].alarms[0].index == 200
      && !WellFormed(LoadModbusAsWritten(m, Some(d)).table[0])
      && WellFormed(LoadModbus(m, Some(d)).table[0])
  {
    var req := NewRequest(IPAddress(192, 168, 0, 187), 1, 0, 4, ReadHreg);
    var old0 := req.(alarms := [ZERO_ALARM.(active := true, pending := true)] + req.alarms[1..], alarmCount := 1);
    var m := ModbusConfig([old0] + seq(MAX_REQUESTS - 1, _ => NewRequest()), 1, INITIAL_SCAN_INTERVAL);
    var e := RequestDoc(Some([192, 168, 0, 187]), Some(1), Some(0), Some(2), Some(3),
                        [AlarmDoc(Some(200), Some([0x3E]), Some(5))]);
    var d := ModbusDoc(None, [e]);
    assert m.table[0] == old0;
    assert ValidRequest(e);
    assert d.requests[1..] == [];
    assert LoadRequests(m.table, 0, d.requests, false) == LoadRequests(m.table[0 := RequestFromDoc(old0, e, false)], 1, [], false);
    assert e.alarms[1..] == [];
    var loaded := RequestFromDoc(old0, e, false);
    assert loaded.alarms[0].pending && loaded.alarms[0].index == 200 && loaded.alarmCount == 1 && loaded.numRegs == 2;
    LoadModbusWellFormed(m, d);
  }

  /** The alarm loop of one entry, as the corrected loader runs it on the slot array of the request. */
  method LoadAlarmSlots(slots: seq<AlarmCondition>, docs: seq<AlarmDoc>) returns (alarms: seq<AlarmCondition>, count: nat)
    requires |slots| == MAX_ALARMS_PER_REQUEST
    ensures (alarms, count) == LoadAlarms(slots, 0, docs, true)
  {
    alarms, count := slots, 0;
    var k := 0;
    while k < |docs|
      invariant 0 <= k <= |docs| && count <= MAX_ALARMS_PER_REQUEST && |alarms| == MAX_ALARMS_PER_REQUEST
      invariant LoadAlarms(alarms, count, docs[k..], true) == LoadAlarms(slots, 0, docs, true)
    {
      assert docs[k..][0] == docs[k] && docs[k..][1..] == docs[k + 1..];
      if count >= MAX_ALARMS_PER_REQUEST {
        break;
      }
      var a := docs[k];
      if ValidAlarm(a) {
        alarms := alarms[count := alarms[count].(index := a.index.value, op := OpByte(a.op.value),
                                                 threshold := a.threshold.value, active := false, pending := false)];
        count := count + 1;
      }
      k := k + 1;
    }
  }

  /**
   * The Modbus part of `loadModbusConfigFromFlash` on the global table, with the reloaded
   * alarms' `pending` cleared. A document that did not parse changes nothing.
   */
  method LoadModbusConfig(requests: array<ModbusRequest>, requestCount: nat, scanInterval: uint32, doc: Option<ModbusDoc>)
    returns (newCount: nat, newInterval: uint32)
    requires Shaped(requests[..])
    modifies requests
    ensures ModbusConfig(requests[..], newCount, newInterval)
         == LoadModbus(ModbusConfig(old(requests[..]), requestCount, scanInterval), doc)
  {
    if doc.None? {
      return requestCount, scanInterval;
    }
    var d := doc.value;
    newInterval := if d.interval.Some? then d.interval.value else scanInterval;
    newCount := 0;
    ghost var t0 := requests[..];
    var k := 0;
    while k < |d.requests|
      invariant 0 <= k <= |d.requests| && newCount <= MAX_REQUESTS && Shaped(requests[..])
      invariant LoadRequests(requests[..], newCount, d.requests[k..], true) == LoadRequests(t0, 0, d.requests, true)
    {
      var e := d.requests[k];
      assert d.requests[k..][0] == e && d.requests[k..][1..] == d.requests[k + 1..];
      if RequestKeysPresent(e) && RequestParametersValid(e) {
        if newCount >= MAX_REQUESTS {
          break;
        }
        var req := requests[newCount];
        assert req == requests[..][newCount];
        var alarms, alarmCount := LoadAlarmSlots(req.alarms, e.alarms);
        var ip := e.ip.value;
        requests[newCount] := req.(slaveIP := IPAddress(ip[0], ip[1], ip[2], ip[3]), unitID := e.unitID.value,
                                   startReg := e.start.value, numRegs := e.count.value,
                                   func := FunctionFromCode(e.func.value).value, success := false,
                                   alarms := alarms, alarmCount := alarmCount);
        newCount := newCount + 1;
      }
      k := k + 1;
    }
  }

  // ----- loadInputsConfig -----

  /**
   * One element of the `"inputs"` array. A missing `"pin"`, `"alarm"."active"` or
   * `"alarm"."expected"` reads as 0 or false; `"type"` is the text `strcmp` compares.
   */
  datatype InputDoc = InputDoc(pin: Option<byte>, inputType: Text, alarmActive: Option<bool>, alarmExpected: Option<byte>)

  function ChannelFromDoc(c: InputConfig, e: InputDoc): InputConfig
  {
    c.(pin := OrElse(e.pin, 0),
       inputType := if e.inputType == Ascii("counter") then Counter else Digital,
       alarmActive := OrElse(e.alarmActive, false),
       alarmExpected := OrElse(e.alarmExpected, 0))
  }

  /**
   * `loadInputsConfig`: the first two entries configure channels 0 and 1; a channel is a
   * counter exactly for the type "counter"; the counter and last sampled state of every
   * channel, and every channel without an entry, stay as they were.
   */
  function LoadInputs(cs: seq<InputConfig>, doc: Option<seq<InputDoc>>): (r: seq<InputConfig>)
    requires |cs| == INPUT_CHANNELS
    ensures |r| == INPUT_CHANNELS
    ensures doc.None? ==> r == cs
    ensures forall i :: 0 <= i < INPUT_CHANNELS ==> r[i].counterValue == cs[i].counterValue && r[i].lastState == cs[i].lastState
    ensures doc.Some? ==> forall i :: 0 <= i < INPUT_CHANNELS ==>
      if i < |doc.value| then
        && (r[i].inputType == Counter <==> doc.value[i].inputType == Ascii("counter"))
        && r[i].alarmExpected == OrElse(doc.value[i].alarmExpected, 0)
        && r[i].alarmActive == (doc.value[i].alarmActive == Some(true))
        && r[i].pin == OrElse(doc.value[i].pin, 0)
      else r[i] == cs[i]
  {
    match doc
    case None => cs
    case Some(docs) =>
      seq(INPUT_CHANNELS, i requires 0 <= i < INPUT_CHANNELS => if i < |docs| then ChannelFromDoc(cs[i], docs[i]) else cs[i])
  }

  method LoadInputsConfig(inputs: array<InputConfig>, doc: Option<seq<InputDoc>>)
    requires inputs.Length == INPUT_CHANNELS
    modifies inputs
    ensures inputs[..] == LoadInputs(old(inputs[..]), doc)
  {
    if doc.None? {
      return;
    }
    var docs := doc.value;
    ghost var cs := inputs[..];
    var i := 0;
    while i < INPUT_CHANNELS && i < |docs|
      invariant 0 <= i <= INPUT_CHANNELS && i <= |docs|
      invariant inputs[..] == LoadInputs(cs, Some(docs[..i]))
    {
      LoadInputsStep(cs, docs, i);
      var ch := ConfigureChannel(inputs[i], docs[i]);
      inputs[i] := ch;
      i := i + 1;
    }
    LoadInputsPrefix(cs, docs, i);
  }

  /** The four field assignments of `inputs[i]` from one entry. */
  method ConfigureChannel(c: InputConfig, e: InputDoc) returns (ch: InputConfig)
    ensures ch == ChannelFromDoc(c, e)
  {
    ch := c;
    ch := ch.(pin := if e.pin.Some? then e.pin.value else 0);
    ch := ch.(inputType := if e.inputType == Ascii("counter") then Counter else Digital);
    ch := ch.(alarmActive := if e.alarmActive.Some? then e.alarmActive.value else false);
    ch := ch.(alarmExpected := if e.alarmExpected.Some? then e.alarmExpected.value else 0);
  }

  /** One more entry read configures one more channel and leaves the rest. */
  lemma LoadInputsStep(cs: seq<InputConfig>, docs: seq<InputDoc>, i: nat)
    requires |cs| == INPUT_CHANNELS && i < INPUT_CHANNELS && i < |docs|
    ensures LoadInputs(cs, Some(docs[..i]))[i] == cs[i]
    ensures LoadInputs(cs, Some(docs[..i + 1])) == LoadInputs(cs, Some(docs[..i]))[i := ChannelFromDoc(cs[i], docs[i])]
  {
    var before, after := LoadInputs(cs, Some(docs[..i])), LoadInputs(cs, Some(docs[..i + 1]));
    forall k | 0 <= k < INPUT_CHANNELS ensures after[k] == before[i := ChannelFromDoc(cs[i], docs[i])][k] {
      if k < i {
        assert docs[..i][k] == docs[k] && docs[..i + 1][k] == docs[k];
      }
    }
  }

  /** The loop stops after the channels or the entries run out: the rest of the entries are never read. */
  lemma LoadInputsPrefix(cs: seq<InputConfig>, docs: seq<InputDoc>, i: nat)
    requires |cs| == INPUT_CHANNELS && i <= |docs| && (i == INPUT_CHANNELS || i == |docs|) && i <= INPUT_CHANNELS
    ensures LoadInputs(cs, Some(docs[..i])) == LoadInputs(cs, Some(docs))
  {
    var short, full := LoadInputs(cs, Some(docs[..i])), LoadInputs(cs, Some(docs));
    forall k | 0 <= k < INPUT_CHANNELS ensures short[k] == full[k] {
      if k < i {
        assert docs[..i][k] == docs[k];
      }
    }
  }

  // ----- The default files the loaders write when a file is missing -----

  /** A configuration file as a loader finds it: missing, present but not parseable, or parsed. */
  datatype Stored<T> = Missing | Unparsable | Parsed(doc: T)

  /**
   * The document a loader goes on with. A missing file is first written with its default
   * text and then read back, so it yields the default document; a file that does not parse
   * yields nothing and the loader leaves its globals alone.
   */
  function Loaded<T>(f: Stored<T>, default: T): (r: Option<T>)
  {
    match f
    case Missing => Some(default)
    case Unparsable => None
    case Parsed(d) => Some(d)
  }

  /** The `"mac"` array of the default ethernet.json. */
  const DEFAULT_MAC: seq<byte> := [222, 173, 190, 239, 254, 238]

  /** The `"lora"` object of the default lora.json. */
  const DEFAULT_LORA_DOC := LoraDoc(
    Some(Ascii("abp")),
    // "0E7A5B118B3F102B"
    Some([0x30, 0x45, 0x37, 0x41, 0x35, 0x42, 0x31, 0x31, 0x38, 0x42, 0x33, 0x46, 0x31, 0x30, 0x32, 0x42]),
    // "8FCDCEB406ADC006"
    Some([0x38, 0x46, 0x43, 0x44, 0x43, 0x45, 0x42, 0x34, 0x30, 0x36, 0x41, 0x44, 0x43, 0x30, 0x30, 0x36]),
    // "C66598C4A8907C38790AEC2B4B5B2341"
    Some([0x43, 0x36, 0x36, 0x35, 0x39, 0x38, 0x43, 0x34, 0x41, 0x38, 0x39, 0x30, 0x37, 0x43, 0x33, 0x38, 0x37, 0x39, 0x30, 0x41, 0x45, 0x43, 0x32, 0x42, 0x34, 0x42, 0x35, 0x42, 0x32, 0x33, 0x34, 0x31]),
    // "E2A3D6B2C3457899AABBCCDDEEFF0011"
    Some([0x45, 0x32, 0x41, 0x33, 0x44, 0x36, 0x42, 0x32, 0x43, 0x33, 0x34, 0x35, 0x37, 0x38, 0x39, 0x39, 0x41, 0x41, 0x42, 0x42, 0x43, 0x43, 0x44, 0x44, 0x45, 0x45, 0x46, 0x46, 0x30, 0x30, 0x31, 0x31]),
    // "112233445566778899AABBCCDDEEFF00"
    Some([0x31, 0x31, 0x32, 0x32, 0x33, 0x33, 0x34, 0x34, 0x35, 0x35, 0x36, 0x36, 0x37, 0x37, 0x38, 0x38, 0x39, 0x39, 0x41, 0x41, 0x42, 0x42, 0x43, 0x43, 0x44, 0x44, 0x45, 0x45, 0x46, 0x46, 0x30, 0x30]),
    // "26011BA0"
    Some([0x32, 0x36, 0x30, 0x31, 0x31, 0x42, 0x41, 0x30]),
    Some(10000),
    Some(4),
    Some(true),
    Some(10))

  /** The default modbus.json: one holding-register request with two alarms, scanned every 5000 ms. */
  const DEFAULT_MODBUS_DOC := ModbusDoc(
    Some(5000),
    [RequestDoc(Some([192, 168, 0, 187]), Some(1), Some(0), Some(4), Some(3),
                [AlarmDoc(Some(0), Some(Ascii(">")), Some(1000)), AlarmDoc(Some(2), Some(Ascii("=")), Some(123))])])

  /** The default inputs.json: a digital channel on pin 14 expecting 1, a counter on pin 15. */
  const DEFAULT_INPUTS_DOC := [
    InputDoc(Some(14), Ascii("digital"), Some(true), Some(1)),
    InputDoc(Some(15), Ascii("counter"), Some(false), None)]

  /** The default request table fits the 16 result slots. */
  lemma DefaultModbusFits()
    ensures WithinCapacity(DEFAULT_MODBUS_DOC)
  {
  }

  /**
   * A missing modbus.json loads its default: one request, read as written in the default
   * file, with its two alarms inactive and not pending, and a 5000 ms scan interval.
   */
  lemma MissingModbusLoadsDefault(m: ModbusConfig)
    requires Shaped(m.table)
    ensures var r := LoadModbus(m, Loaded(Missing, DEFAULT_MODBUS_DOC));
      && r.count == 1 && r.scanInterval == 5000
      && LoadedFrom(r.table[0], DEFAULT_MODBUS_DOC.requests[0])
      && r.table[0].alarmCount == 2 && r.table[0].func == ReadHreg && r.table[0].numRegs == 4
      && (forall i :: 1 <= i < MAX_REQUESTS ==> r.table[i] == m.table[i])
  {
    var d := DEFAULT_MODBUS_DOC;
    var e := d.requests[0];
    assert ValidRequest(e);
    assert d.requests[1..] == [];
    assert ValidRequests(d.requests) == [e];
    assert e.alarms[1..][1..] == [];
    assert ValidAlarms(e.alarms) == e.alarms;
    LoadModbusShape(m, d);
    var r := LoadModbus(m, Some(d));
    assert r.table[0].func.Code() == 3;
  }

  /** A missing inputs.json loads its default: a digital channel 0 on pin 14, a counter channel 1 on pin 15. */
  lemma MissingInputsLoadsDefault(cs: seq<InputConfig>)
    requires |cs| == INPUT_CHANNELS
    ensures var r := LoadInputs(cs, Loaded(Missing, DEFAULT_INPUTS_DOC));
      && r[0].inputType == Digital && r[0].pin == 14 && r[0].alarmActive && r[0].alarmExpected == 1
      && r[1].inputType == Counter && r[1].pin == 15 && !r[1].alarmActive && r[1].alarmExpected == 0
      && r[0].counterValue == cs[0].counterValue && r[1].counterValue == cs[1].counterValue
  {
    assert Ascii("digital") != Ascii("counter") by {
      assert Ascii("digital")[0] != Ascii("counter")[0];
    }
  }

  /** A missing lora.json installs the default radio settings: ABP, 10000 ms, sub-band 4, ADR on, SF10. */
  lemma MissingLoraLoadsDefault(s: LoraSettings)
    ensures var r := ConfigureLoRa(s, Loaded(Missing, Some(DEFAULT_LORA_DOC)).value);
      && r.joinAbp && r.uplinkInterval == 10000 && r.subBand == 4 && r.adr && r.sf == 10
  {
  }

  /** A missing ethernet.json installs the default MAC address. */
  lemma MissingEthernetLoadsDefault(mac: seq<byte>)
    ensures ConfigureMac(mac, Loaded(Missing, Some(DEFAULT_MAC)).value) == DEFAULT_MAC
  {
  }
}
