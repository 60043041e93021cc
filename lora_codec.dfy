/**
 * The byte layouts of src/lora.cpp: spreading factor and MTU selection, the per-request
 * uplink record, the input-channel section, the chunking rule of `sendLoRaUplink`, and the
 * two alarm frames of `sendAlarmUplink`. Everything here is a function of its inputs;
 * the methods that fill the firmware's buffers are in LoraUplink.
 */
module LoraCodec {
  import opened Config
  import opened Wrappers

  /** One buffer handed to `LMIC_setTxData2` (always confirmed): its fPort and its bytes. */
  datatype Frame = Frame(port: byte, payload: Text)

  const UPLINK_PORT: byte := 1
  const ALARM_PORT: byte := 2

  // ----- Spreading factor, data rate and MTU -----

  /** LMIC data rates of the AU915 plan: DR_0 is SF12 and DR_5 is SF7. */
  const DR_SF12: byte := 0
  const DR_SF11: byte := 1
  const DR_SF10: byte := 2
  const DR_SF9: byte := 3
  const DR_SF8: byte := 4
  const DR_SF7: byte := 5
  /** The transmit power `applyLoRaConfig` passes with every fixed data rate. */
  const FIXED_TX_POWER := 14

  /** `getCurrentSF`: `12 - LMIC.datarate`, returned as a `uint8_t`. */
  function GetCurrentSF(dataRate: byte): (sf: byte)
    ensures dataRate <= 12 ==> sf == 12 - dataRate
    ensures dataRate > 12 ==> sf == 268 - dataRate
  {
    (12 - dataRate) % 0x100
  }

  /** The data rate the `switch (LORA_SF)` of `applyLoRaConfig` selects when ADR is off. */
  function DataRateForSF(sf: byte): (dr: byte)
    ensures GetCurrentSF(dr) == if 7 <= sf <= 12 then sf else 7
  {
    if sf == 7 then DR_SF7
    else if sf == 8 then DR_SF8
    else if sf == 9 then DR_SF9
    else if sf == 10 then DR_SF10
    else if sf == 11 then DR_SF11
    else if sf == 12 then DR_SF12
    else DR_SF7
  }

  /**
   * `getMaxMTU`: the maximum application payload per spreading factor
   * (the AU915-928 maximum payload size table of the LoRaWAN Regional Parameters).
   */
  function GetMaxMTU(sf: byte): (mtu: nat)
    ensures mtu in {51, 115, 242}
    ensures mtu == 242 <==> sf == 7 || sf == 8
    ensures mtu == 115 <==> sf == 9
  {
    if sf == 7 || sf == 8 then 242
    else if sf == 9 then 115
    else 51
  }

  // ----- Bit packing (coil and discrete-input payloads) -----

  function Pow2(k: nat): (p: nat)
    ensures p >= 1
  {
    if k == 0 then 1 else 2 * Pow2(k - 1)
  }

  lemma {:induction false} Pow2Monotone(a: nat, b: nat)
    requires a <= b
    ensures Pow2(a) <= Pow2(b)
    decreases b
  {
    if a < b { Pow2Monotone(a, b - 1); }
  }

  /** `(b >> k) & 1` */
  function Bit(b: nat, k: nat): (v: nat)
    ensures v < 2
  {
    if k == 0 then b % 2 else Bit(b / 2, k - 1)
  }

  /** Up to eight values packed least significant bit first, one bit `v & 1` per value. */
  function PackByte(vals: seq<uint16>): (b: nat)
    ensures b < Pow2(|vals|)
  {
    if vals == [] then 0 else vals[0] % 2 + 2 * PackByte(vals[1..])
  }

  function Min(a: int, b: int): int { if a < b then a else b }

  /** The registers that share payload byte k: indices 8k .. 8k+7 that exist. */
  function Group(vals: seq<uint16>, k: nat): (g: seq<uint16>)
    requires 8 * k < |vals|
    ensures 1 <= |g| <= 8
  {
    vals[8 * k .. Min(8 * k + 8, |vals|)]
  }

  function GroupByte(vals: seq<uint16>, k: nat): (b: byte)
    requires 8 * k < |vals|
  {
    var g := Group(vals, k);
    Pow2Monotone(|g|, 8);
    assert Pow2(8) == 256;
    PackByte(g)
  }

  /** The bit-packed payload: ceil(n/8) bytes. */
  function PackBits(vals: seq<uint16>): (bytes: Text)
    ensures |bytes| == (|vals| + 7) / 8
  {
    seq((|vals| + 7) / 8, k requires 0 <= k < (|vals| + 7) / 8 => GroupByte(vals, k))
  }

  lemma {:induction false} PackByteBit(vals: seq<uint16>, k: nat)
    ensures Bit(PackByte(vals), k) == if k < |vals| then vals[k] % 2 else 0
    decreases k
  {
    if vals == [] {
      BitOfZero(k);
    } else if k > 0 {
      assert PackByte(vals) / 2 == PackByte(vals[1..]);
      PackByteBit(vals[1..], k - 1);
    }
  }

  lemma {:induction false} BitOfZero(k: nat)
    ensures Bit(0, k) == 0
  {
    if k > 0 { BitOfZero(k - 1); }
  }

  /** Value r sets bit `r mod 8` of payload byte `r div 8` exactly when `vals[r] & 1`. */
  lemma PackBitsAt(vals: seq<uint16>, r: nat)
    requires r < |vals|
    ensures r / 8 < |PackBits(vals)|
    ensures Bit(PackBits(vals)[r / 8], r % 8) == vals[r] % 2
  {
    var k := r / 8;
    var g := Group(vals, k);
    assert g[r % 8] == vals[r];
    PackByteBit(g, r % 8);
  }

  /** The unused high bits of the last payload byte are zero. */
  lemma PackBitsPadding(vals: seq<uint16>, r: nat)
    requires |vals| <= r < 8 * |PackBits(vals)|
    ensures Bit(PackBits(vals)[r / 8], r % 8) == 0
  {
    var k := r / 8;
    var g := Group(vals, k);
    assert |g| <= r % 8;
    PackByteBit(g, r % 8);
  }

  /** What a receiver reads back from a bit-packed payload: n values, each 0 or 1. */
  function UnpackBits(bytes: Text, n: nat): (vals: seq<uint16>)
    requires n <= 8 * |bytes|
    ensures |vals| == n
  {
    seq(n, r requires 0 <= r < n => Bit(bytes[r / 8], r % 8))
  }

  /** Bit packing loses nothing but the upper 15 bits of every value. */
  lemma PackBitsRoundTrip(vals: seq<uint16>)
    ensures UnpackBits(PackBits(vals), |vals|) == seq(|vals|, r requires 0 <= r < |vals| => vals[r] % 2)
  {
    forall r | 0 <= r < |vals| { PackBitsAt(vals, r); }
  }

  /** Ten coils 1,0,1,1,0,0,1,0,1,1 pack into 0x4D then 0x03. */
  lemma TenCoilsExample()
    ensures PackBits([1, 0, 1, 1, 0, 0, 1, 0, 1, 1]) == [0x4D, 0x03]
  {
    var vals: seq<uint16> := [1, 0, 1, 1, 0, 0, 1, 0, 1, 1];
    assert Group(vals, 0) == [1, 0, 1, 1, 0, 0, 1, 0];
    assert Group(vals, 1) == [1, 1];
    assert PackByte([1, 1]) == 3;
    assert PackByte([0, 0, 1, 0]) == 4;
    assert PackByte([1, 0, 1, 1, 0, 0, 1, 0]) == 0x4D;
  }

  // ----- Register payloads -----

  /** Every register high byte first, in order. */
  function RegisterBytes(vals: seq<uint16>): (bytes: Text)
    ensures |bytes| == 2 * |vals|
  {
    seq(2 * |vals|, j requires 0 <= j < 2 * |vals| =>
      if j % 2 == 0 then HighByte(vals[j / 2]) else LowByte(vals[j / 2]))
  }

  lemma Halves(k: nat)
    ensures (2 * k) / 2 == k && (2 * k) % 2 == 0 && (2 * k + 1) / 2 == k && (2 * k + 1) % 2 == 1
  {
  }

  lemma RegisterBytesAt(vals: seq<uint16>, k: nat)
    requires k < |vals|
    ensures Word(RegisterBytes(vals)[2 * k], RegisterBytes(vals)[2 * k + 1]) == vals[k]
  {
    var bytes := RegisterBytes(vals);
    Halves(k);
    assert bytes[2 * k] == HighByte(vals[k]);
    assert bytes[2 * k + 1] == LowByte(vals[k]);
    WordOfUint16(vals[k]);
  }

  function DecodeRegisters(bytes: Text): (vals: seq<uint16>)
    requires |bytes| % 2 == 0
    ensures |vals| == |bytes| / 2
  {
    seq(|bytes| / 2, k requires 0 <= k < |bytes| / 2 => Word(bytes[2 * k], bytes[2 * k + 1]))
  }

  lemma RegisterRoundTrip(vals: seq<uint16>)
    ensures DecodeRegisters(RegisterBytes(vals)) == vals
  {
    var bytes := RegisterBytes(vals);
    forall k | 0 <= k < |vals| ensures DecodeRegisters(bytes)[k] == vals[k] {
      RegisterBytesAt(vals, k);
    }
  }

  // ----- One request record -----

  /** The payload length a receiver derives from the header: `ceil(n/8)` for bit reads, else `2n`. */
  function PayloadLength(f: ModbusFunction, n: nat): nat
  {
    if f.IsBitType() then (n + 7) / 8 else 2 * n
  }

  /** The 10-byte record header. */
  function Header(req: ModbusRequest): (h: Text)
    ensures |h| == 10
    ensures h[..4] == req.slaveIP.Octets() && h[4] == req.unitID
    ensures Word(h[5], h[6]) == req.startReg
    ensures h[7] == req.numRegs && h[8] == (if req.success then 1 else 0) && h[9] == req.func.Code()
  {
    WordOfBytes(req.startReg);
    req.slaveIP.Octets()
    + [req.unitID, HighByte(req.startReg), LowByte(req.startReg), req.numRegs,
       if req.success then 1 else 0, req.func.Code()]
  }

  /** The record payload; zero filler of the same length when the last poll failed. */
  function Payload(req: ModbusRequest): (p: Text)
    requires WellFormed(req)
    ensures |p| == PayloadLength(req.func, req.numRegs as nat)
    ensures !req.success ==> forall k :: 0 <= k < |p| ==> p[k] == 0
  {
    var n := req.numRegs as nat;
    if !req.success then seq(PayloadLength(req.func, n), _ => 0)
    else if req.func.IsBitType() then PackBits(req.result[..n])
    else RegisterBytes(req.result[..n])
  }

  function RecordBytes(req: ModbusRequest): (r: Text)
    requires WellFormed(req)
    ensures |r| == 10 + PayloadLength(req.func, req.numRegs as nat) <= 42
  {
    Header(req) + Payload(req)
  }

  /** What a receiver learns from one record. */
  datatype RecordView = RecordView(
    ip: seq<byte>, unitID: byte, startReg: uint16, numRegs: byte, success: bool,
    func: ModbusFunction, values: seq<uint16>)

  /**
   * A receiver's parse of one record at the front of a byte stream: the header gives the
   * payload length, bit payloads are unpacked LSB first and register payloads read big-endian.
   * Returns the view and the bytes after the record.
   */
  function DecodeRecord(bytes: Text): Option<(RecordView, Text)>
  {
    if |bytes| < 10 || bytes[8] > 1 then None
    else match FunctionFromCode(bytes[9])
      case None => None
      case Some(f) =>
        var n := bytes[7];
        var len := PayloadLength(f, n);
        if |bytes| < 10 + len then None
        else
          var p := bytes[10 .. 10 + len];
          var values := if f.IsBitType() then UnpackBits(p, n) else DecodeRegisters(p);
          Some((RecordView(bytes[..4], bytes[4], Word(bytes[5], bytes[6]), n, bytes[8] == 1, f, values),
                bytes[10 + len..]))
  }

  /** The values an encoded record carries: register values, bits as 0/1, or zeros after a failed poll. */
  function CarriedValues(req: ModbusRequest): (vals: seq<uint16>)
    requires WellFormed(req)
    ensures |vals| == req.numRegs as int
  {
    var n := req.numRegs as nat;
    if !req.success then seq(n, _ => 0)
    else if req.func.IsBitType() then seq(n, r requires 0 <= r < n => req.result[r] % 2)
    else req.result[..n]
  }

  /** The payload alone yields the carried values. */
  lemma PayloadDecodes(req: ModbusRequest)
    requires WellFormed(req)
    ensures var n := req.numRegs as nat;
      (if req.func.IsBitType() then UnpackBits(Payload(req), n) else DecodeRegisters(Payload(req)))
      == CarriedValues(req)
  {
    var n := req.numRegs as nat;
    var p := Payload(req);
    if !req.success {
      if req.func.IsBitType() {
        forall r | 0 <= r < n ensures UnpackBits(p, n)[r] == 0 {
          PackZeroBit(p, r);
        }
        assert UnpackBits(p, n) == CarriedValues(req);
      } else {
        forall k | 0 <= k < n ensures DecodeRegisters(p)[k] == 0 {
          assert p[2 * k] == 0 && p[2 * k + 1] == 0;
        }
        assert DecodeRegisters(p) == CarriedValues(req);
      }
    } else if req.func.IsBitType() {
      PackBitsRoundTrip(req.result[..n]);
    } else {
      RegisterRoundTrip(req.result[..n]);
    }
  }

  /**
   * A record can always be parsed back: the header alone fixes its length, and the
   * payload yields the carried values, whatever follows the record in the stream.
   */
  lemma RecordRoundTrip(req: ModbusRequest, rest: Text)
    requires WellFormed(req)
    ensures DecodeRecord(RecordBytes(req) + rest)
         == Some((RecordView(req.slaveIP.Octets(), req.unitID, req.startReg, req.numRegs, req.success,
                             req.func, CarriedValues(req)), rest))
  {
    var bytes := RecordBytes(req) + rest;
    var len := PayloadLength(req.func, req.numRegs as nat);
    var h := Header(req);
    assert bytes[..10] == h;
    assert bytes[8] == h[8] && bytes[9] == h[9] && bytes[7] == h[7];
    assert bytes[5] == h[5] && bytes[6] == h[6] && bytes[4] == h[4];
    assert bytes[10 .. 10 + len] == Payload(req);
    assert bytes[10 + len..] == rest;
    assert bytes[..4] == h[..4];
    CodeRoundTrip(req.func);
    PayloadDecodes(req);
  }

  lemma PackZeroBit(p: Text, r: nat)
    requires r / 8 < |p| && p[r / 8] == 0
    ensures Bit(p[r / 8], r % 8) == 0
  {
    BitOfZero(r % 8);
  }

  // ----- Input-channel section -----

  /** `[index][kind]` then the counter's low 16 bits big-endian, or `0x00, lastState`. */
  function ChannelBytes(i: byte, c: InputConfig): (b: Text)
    ensures |b| == 4 && b[0] == i && b[1] == c.inputType.Ordinal()
  {
    [i, c.inputType.Ordinal()]
    + if c.inputType == Counter then [HighByte(c.counterValue), LowByte(c.counterValue)]
      else [0, if c.lastState then 1 else 0]
  }

  /** A counter channel carries the counter's low 16 bits; a digital one its last state. */
  lemma ChannelValue(i: byte, c: InputConfig)
    ensures var b := ChannelBytes(i, c);
      (c.inputType == Counter ==> Word(b[2], b[3]) == c.counterValue % 0x1_0000) &&
      (c.inputType == Digital ==> b[2] == 0 && b[3] == (if c.lastState then 1 else 0))
  {
    WordOfBytes(c.counterValue);
  }

  /** The `0xFF` marker, the channel count, then four bytes per channel. */
  function InputSection(inputs: seq<InputConfig>): (s: Text)
    requires |inputs| == INPUT_CHANNELS
    ensures |s| == 10 && s[0] == 0xFF && s[1] == INPUT_CHANNELS
    ensures forall i :: 0 <= i < INPUT_CHANNELS ==> s[2 + 4 * i .. 6 + 4 * i] == ChannelBytes(i, inputs[i])
  {
    var c0, c1 := ChannelBytes(0, inputs[0]), ChannelBytes(1, inputs[1]);
    var s := [0xFF, INPUT_CHANNELS] + c0 + c1;
    assert s[2..6] == c0 && s[6..10] == c1;
    s
  }

  // ----- The uplink byte stream and its chunks -----

  /** All records in table order, then the input section. */
  function UplinkItems(reqs: seq<ModbusRequest>, inputs: seq<InputConfig>): (items: seq<Text>)
    requires forall i :: 0 <= i < |reqs| ==> WellFormed(reqs[i])
    requires |inputs| == INPUT_CHANNELS
    ensures |items| == |reqs| + 1
    ensures forall i :: 0 <= i < |items| ==> 0 < |items[i]| <= 42
    ensures forall i :: 0 <= i < |reqs| ==> items[i] == RecordBytes(reqs[i])
    ensures items[|reqs|] == InputSection(inputs)
  {
    seq(|reqs|, i requires 0 <= i < |reqs| => RecordBytes(reqs[i])) + [InputSection(inputs)]
  }

  function Flatten(xs: seq<Text>): Text
  {
    if xs == [] then [] else xs[0] + Flatten(xs[1..])
  }

  /**
   * The chunking of `sendLoRaUplink`, with `cur` the bytes already in `buffer`: before an
   * item is appended, the buffer is sent if `index + len > mtu` (even when it is empty),
   * and what remains at the end is sent only if non-empty.
   */
  function ChunkFrom(items: seq<Text>, mtu: nat, cur: Text): seq<Text>
    decreases |items|
  {
    if items == [] then (if |cur| > 0 then [cur] else [])
    else if |cur| + |items[0]| > mtu then [cur] + ChunkFrom(items[1..], mtu, items[0])
    else ChunkFrom(items[1..], mtu, cur + items[0])
  }

  function Chunks(items: seq<Text>, mtu: nat): seq<Text>
  {
    ChunkFrom(items, mtu, [])
  }

  /** Chunking loses, adds and reorders nothing. */
  lemma {:induction false} ChunkFromFlatten(items: seq<Text>, mtu: nat, cur: Text)
    ensures Flatten(ChunkFrom(items, mtu, cur)) == cur + Flatten(items)
    decreases |items|
  {
    if items == [] {
      assert Flatten([cur]) == cur + Flatten([]);
    } else if |cur| + |items[0]| > mtu {
      ChunkFromFlatten(items[1..], mtu, items[0]);
      assert Flatten([cur] + ChunkFrom(items[1..], mtu, items[0]))
          == cur + Flatten(ChunkFrom(items[1..], mtu, items[0]));
    } else {
      ChunkFromFlatten(items[1..], mtu, cur + items[0]);
      assert cur + items[0] + Flatten(items[1..]) == cur + (items[0] + Flatten(items[1..]));
    }
  }

  lemma ChunksFlatten(items: seq<Text>, mtu: nat)
    ensures Flatten(Chunks(items, mtu)) == Flatten(items)
  {
    ChunkFromFlatten(items, mtu, []);
  }

  /** When no item exceeds the MTU, no chunk does, and no chunk is empty. */
  lemma {:induction false} ChunkFromBounded(items: seq<Text>, mtu: nat, cur: Text)
    requires |cur| <= mtu
    requires forall i :: 0 <= i < |items| ==> 0 < |items[i]| <= mtu
    ensures forall c :: c in ChunkFrom(items, mtu, cur) ==> 0 < |c| <= mtu
    decreases |items|
  {
    if items != [] {
      if |cur| + |items[0]| > mtu {
        ChunkFromBounded(items[1..], mtu, items[0]);
      } else {
        ChunkFromBounded(items[1..], mtu, cur + items[0]);
      }
    }
  }

  predicate EndsWith(s: Text, t: Text)
  {
    |t| <= |s| && s[|s| - |t|..] == t
  }

  /** The last item always ends the last chunk. */
  lemma {:induction false} ChunkFromLast(items: seq<Text>, mtu: nat, cur: Text)
    requires items != [] && |items[|items| - 1]| > 0
    ensures var c := ChunkFrom(items, mtu, cur); c != [] && EndsWith(c[|c| - 1], items[|items| - 1])
    decreases |items|
  {
    if |items| == 1 {
      if |cur| + |items[0]| <= mtu {
        assert ChunkFrom(items, mtu, cur) == [cur + items[0]];
        assert (cur + items[0])[|cur|..] == items[0];
      }
    } else {
      var next := if |cur| + |items[0]| > mtu then items[0] else cur + items[0];
      ChunkFromLast(items[1..], mtu, next);
      assert items[1..][|items[1..]| - 1] == items[|items| - 1];
    }
  }

  /** An item longer than the MTU at the start of the stream is preceded by an empty chunk. */
  lemma OversizedFirstItem(items: seq<Text>, mtu: nat)
    requires items != [] && |items[0]| > mtu
    ensures Chunks(items, mtu)[0] == []
  {
  }

  /** Holding registers 10, 20, 30 go out as 00 0A 00 14 00 1E. */
  lemma ThreeRegistersExample()
    ensures RegisterBytes([10, 20, 30]) == [0x00, 0x0A, 0x00, 0x14, 0x00, 0x1E]
  {
    var b := RegisterBytes([10, 20, 30]);
    assert b[0] == HighByte(10) && b[1] == LowByte(10);
    assert b[2] == HighByte(20) && b[3] == LowByte(20);
    assert b[4] == HighByte(30) && b[5] == LowByte(30);
  }

  /** Three 12-byte records with an MTU of 20 go out as three chunks of one record each. */
  lemma ThreeRecordsMtu20(a: Text, b: Text, c: Text)
    requires |a| == |b| == |c| == 12
    ensures Chunks([a, b, c], 20) == [a, b, c]
  {
    assert [a, b, c][1..] == [b, c];
    assert [b, c][1..] == [c];
    assert ChunkFrom([c], 20, b) == [b] + ChunkFrom([], 20, c) == [b, c];
    assert ChunkFrom([b, c], 20, a) == [a] + ChunkFrom([c], 20, b);
    assert ChunkFrom([a, b, c], 20, []) == ChunkFrom([b, c], 20, [] + a);
    assert [] + a == a;
  }

  // ----- Alarm frames (fPort 2) -----

  /** Modbus alarm: IP, unit, `startReg + index` and threshold and value big-endian, op. */
  function ModbusAlarmFrame(req: ModbusRequest, alarm: AlarmCondition, value: uint16): (f: Text)
    ensures |f| == 12
    ensures f[..4] == req.slaveIP.Octets() && f[4] == req.unitID && f[7] == alarm.op
    ensures Word(f[5], f[6]) == (req.startReg + alarm.index) % 0x1_0000
    ensures Word(f[8], f[9]) == alarm.threshold && Word(f[10], f[11]) == value
  {
    var reg := req.startReg + alarm.index;
    WordOfBytes(reg);
    WordOfBytes(alarm.threshold);
    WordOfBytes(value);
    req.slaveIP.Octets()
    + [req.unitID, HighByte(reg), LowByte(reg), alarm.op,
       HighByte(alarm.threshold), LowByte(alarm.threshold), HighByte(value), LowByte(value)]
  }

  /** Input alarm: the 0xFF marker, channel, expected, actual and a reserved zero. */
  function InputAlarmFrame(index: byte, expected: byte, actual: byte): (f: Text)
  {
    [0xFF, index, expected, actual, 0x00]
  }

  /** What a receiver learns from an alarm frame. */
  datatype AlarmNotice =
    | ModbusAlarm(ip: seq<byte>, unitID: byte, register: uint16, op: byte, threshold: uint16, value: uint16)
    | InputAlarm(index: byte, expected: byte, actual: byte)

  /** The two alarm frames differ in length, so a receiver can tell them apart. */
  function DecodeAlarm(f: Text): Option<AlarmNotice>
  {
    if |f| == 12 then
      Some(ModbusAlarm(f[..4], f[4], Word(f[5], f[6]), f[7], Word(f[8], f[9]), Word(f[10], f[11])))
    else if |f| == 5 && f[0] == 0xFF && f[4] == 0 then Some(InputAlarm(f[1], f[2], f[3]))
    else None
  }

  lemma AlarmFramesDecode(req: ModbusRequest, alarm: AlarmCondition, value: uint16, i: byte, e: byte, a: byte)
    ensures DecodeAlarm(ModbusAlarmFrame(req, alarm, value))
         == Some(ModbusAlarm(req.slaveIP.Octets(), req.unitID, (req.startReg + alarm.index) % 0x1_0000,
                             alarm.op, alarm.threshold, value))
    ensures DecodeAlarm(InputAlarmFrame(i, e, a)) == Some(InputAlarm(i, e, a))
  {
  }
}
