/**
 * The shared data definitions of the gateway (include/config.h, include/inputs.h)
 * and the initial values of its globals (src/config.cpp).
 */
module Config {
  import opened Wrappers

  type byte = x: int | 0 <= x < 0x100
  type uint16 = x: int | 0 <= x < 0x1_0000
  type uint32 = x: int | 0 <= x < 0x1_0000_0000

  /** The contents of an Arduino `String` or a JSON string: raw bytes. */
  type Text = seq<byte>

  /** The bytes of an ASCII literal, for writing the firmware's string constants. */
  function Ascii(s: string): (t: Text)
    ensures |t| == |s|
  {
    if s == [] then [] else [if s[0] as int < 0x100 then s[0] as int else 0] + Ascii(s[1..])
  }

  const MAX_REQUESTS := 16
  const MAX_ALARMS_PER_REQUEST := 4
  /** `uint16_t result[16]` */
  const RESULT_SLOTS := 16
  /** `InputConfig inputConfigs[2]` */
  const INPUT_CHANNELS := 2

  /** `highByte`/`lowByte` of the Arduino core: bits 8..15 and 0..7. */
  function HighByte(x: nat): byte { (x / 0x100) % 0x100 }
  function LowByte(x: nat): byte { x % 0x100 }

  /** The 16-bit value a big-endian byte pair denotes: the inverse of HighByte/LowByte. */
  function Word(hi: byte, lo: byte): (w: uint16)
    ensures HighByte(w) == hi && LowByte(w) == lo
  {
    hi * 0x100 + lo
  }

  /** A byte pair keeps the low 16 bits of any value split by highByte/lowByte. */
  lemma WordOfBytes(x: nat)
    ensures Word(HighByte(x), LowByte(x)) == x % 0x1_0000
  {
    var q := x / 0x1_0000;
    var r := x % 0x1_0000;
    assert x == 0x1_0000 * q + r;
    assert x / 0x100 == 0x100 * q + r / 0x100;
    assert (x / 0x100) % 0x100 == r / 0x100;
    assert x % 0x100 == r % 0x100;
  }

  /** A 16-bit value split by highByte/lowByte comes back whole. */
  lemma WordOfUint16(x: uint16)
    ensures Word(HighByte(x), LowByte(x)) == x
  {
    WordOfBytes(x);
  }

  datatype IPAddress = IPAddress(a: byte, b: byte, c: byte, d: byte) {
    /** `ip[0] .. ip[3]` */
    function Octets(): (o: seq<byte>)
      ensures |o| == 4
    {
      [a, b, c, d]
    }
  }

  /**
   * `enum ModbusFunction`, the Modbus read function codes (sections 6.1 to 6.4 of the
   * Modbus Application Protocol Specification V1.1b3).
   */
  datatype ModbusFunction = ReadCoils | ReadDiscreteInputs | ReadHreg | ReadIreg {
    function Code(): (c: byte)
      ensures 1 <= c <= 4
    {
      match this
      case ReadCoils => 1
      case ReadDiscreteInputs => 2
      case ReadHreg => 3
      case ReadIreg => 4
    }

    /** The firmware tests `function <= 2` for the bit-valued reads. */
    predicate IsBitType()
    {
      Code() <= 2
    }
  }

  /** `static_cast<ModbusFunction>(function)` for the codes the enum names. */
  function FunctionFromCode(code: int): (f: Option<ModbusFunction>)
    ensures f.Some? <==> 1 <= code <= 4
    ensures f.Some? ==> f.value.Code() == code
    ensures f.Some? ==> (f.value.IsBitType() <==> f.value in {ReadCoils, ReadDiscreteInputs})
  {
    if code == 1 then Some(ReadCoils)
    else if code == 2 then Some(ReadDiscreteInputs)
    else if code == 3 then Some(ReadHreg)
    else if code == 4 then Some(ReadIreg)
    else None
  }

  /** Every function code maps back to its enumerator. */
  lemma CodeRoundTrip(f: ModbusFunction)
    ensures FunctionFromCode(f.Code()) == Some(f)
  {
  }

  /**
   * `struct AlarmCondition`. `op` is the C `char` holding the comparison
   * ('>', '<' or '='), kept as its byte value.
   */
  datatype AlarmCondition = AlarmCondition(index: byte, op: byte, threshold: uint16, active: bool, pending: bool)

  /** An alarm slot after `memset(alarms, 0, ...)`. */
  const ZERO_ALARM := AlarmCondition(0, 0, 0, false, false)

  /** `struct ModbusRequest`: `result` has 16 slots and `alarms` 4, as in the struct. */
  datatype ModbusRequest = ModbusRequest(
    slaveIP: IPAddress,
    unitID: byte,
    startReg: uint16,
    numRegs: byte,
    result: seq<uint16>,
    success: bool,
    func: ModbusFunction,
    alarms: seq<AlarmCondition>,
    alarmCount: byte)

  /**
   * The shape every request of the running table keeps: the fixed buffer sizes, at most
   * 4 configured alarms, a register count that fits the 16 result slots (the capacity
   * the firmware's buffers have), and no pending alarm that refers to a register outside
   * the polled range.
   */
  ghost predicate WellFormed(r: ModbusRequest)
  {
    && |r.result| == RESULT_SLOTS
    && |r.alarms| == MAX_ALARMS_PER_REQUEST
    && r.alarmCount as int <= MAX_ALARMS_PER_REQUEST
    && r.numRegs as int <= RESULT_SLOTS
    && forall a :: 0 <= a < r.alarmCount as int ==> (r.alarms[a].pending ==> r.alarms[a].index < r.numRegs)
  }

  /** The `ModbusRequest` constructor with its default arguments. */
  function NewRequest(
    ip: IPAddress := IPAddress(0, 0, 0, 0),
    unit: byte := 1,
    start: uint16 := 0,
    count: byte := 1,
    func: ModbusFunction := ReadHreg): (r: ModbusRequest)
    ensures r.slaveIP == ip && r.unitID == unit && r.startReg == start
    ensures r.numRegs == count && r.func == func
    ensures !r.success && r.alarmCount == 0
    ensures |r.result| == RESULT_SLOTS && forall j :: 0 <= j < |r.result| ==> r.result[j] == 0
    ensures |r.alarms| == MAX_ALARMS_PER_REQUEST
    ensures forall a :: 0 <= a < |r.alarms| ==> !r.alarms[a].active && !r.alarms[a].pending
    ensures count as int <= RESULT_SLOTS ==> WellFormed(r)
  {
    ModbusRequest(ip, unit, start, count, seq(RESULT_SLOTS, _ => 0), false, func,
                  seq(MAX_ALARMS_PER_REQUEST, _ => ZERO_ALARM), 0)
  }

  /** `enum InputType { DIGITAL, COUNTER }` */
  datatype InputType = Digital | Counter {
    /** The enumerator's ordinal, which is also the kind byte of the uplink input section. */
    function Ordinal(): (o: byte)
      ensures o == 0 <==> this == Digital
      ensures o == 1 <==> this == Counter
    {
      match this
      case Digital => 0
      case Counter => 1
    }
  }

  /** `struct InputConfig` */
  datatype InputConfig = InputConfig(
    pin: byte,
    inputType: InputType,
    alarmActive: bool,
    alarmExpected: byte,
    counterValue: uint32,
    lastState: bool)

  /** A channel of the zero-initialised global `inputConfigs` (counterValue 0, lastState false). */
  const DEFAULT_INPUT := InputConfig(0, Digital, false, 0, 0, false)

  // ----- Initial values of the globals (src/config.cpp) -----

  const INITIAL_REQUEST_COUNT := 4
  const INITIAL_SCAN_INTERVAL: uint32 := 5000
  const INITIAL_UPLINK_INTERVAL: uint32 := 10000
  const INITIAL_LAST_MODBUS_POLL: uint32 := 0
  /** `lastUplink = -LORA_UPLINK_INTERVAL` as an `unsigned long` (32 bits on this target). */
  const INITIAL_LAST_UPLINK: uint32 := 0x1_0000_0000 - 10000
  const INITIAL_SUBBAND: byte := 4
  const INITIAL_ADR := true
  const INITIAL_SF: byte := 7
  const INITIAL_JOIN_MODE_ABP := false
  const INITIAL_DEVADDR: uint32 := 0
  const INITIAL_MAC: seq<byte> := [0xDE, 0xAD, 0xBE, 0xEF, 0xFE, 0xEE]

  /** The request table: four configured entries and twelve default-constructed slots. */
  function InitialRequests(): (t: seq<ModbusRequest>)
    ensures |t| == MAX_REQUESTS && INITIAL_REQUEST_COUNT <= MAX_REQUESTS
    ensures forall i :: 0 <= i < |t| ==> WellFormed(t[i]) && !t[i].success
    ensures forall i :: 0 <= i < INITIAL_REQUEST_COUNT ==> t[i].slaveIP == IPAddress(192, 168, 0, 187) && t[i].unitID == 1
    ensures t[0].func == ReadHreg && t[1].func == ReadCoils
    ensures t[2].func == ReadIreg && t[3].func == ReadDiscreteInputs
  {
    var slave := IPAddress(192, 168, 0, 187);
    [ NewRequest(slave, 1, 0, 4, ReadHreg),
      NewRequest(slave, 1, 4100, 8, ReadCoils),
      NewRequest(slave, 1, 1100, 2, ReadIreg),
      NewRequest(slave, 1, 3100, 6, ReadDiscreteInputs) ]
    + seq(MAX_REQUESTS - INITIAL_REQUEST_COUNT, _ => NewRequest())
  }

  function InitialInputs(): (c: seq<InputConfig>)
    ensures |c| == INPUT_CHANNELS
    ensures forall i :: 0 <= i < |c| ==> c[i].counterValue == 0 && !c[i].lastState && !c[i].alarmActive
  {
    [DEFAULT_INPUT, DEFAULT_INPUT]
  }
}
