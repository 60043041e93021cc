/**
 * The two input channels of src/inputs.cpp: pin sampling with rising-edge counters,
 * counter reset after an uplink, and mismatch alarms sent as 5-byte frames on port 2.
 * The sampled pin levels are an input (one per channel, in channel order).
 */
module Inputs {
  import opened Config
  import opened LoraCodec
  import opened LoraRadio

  const COUNTER_MODULUS := 0x1_0000_0000

  /** One channel after sampling: a COUNTER channel counts a rising edge, every channel remembers the level. */
  function SampleChannel(c: InputConfig, state: bool): (r: InputConfig)
    ensures r.lastState == state
    ensures c.inputType == Digital ==> r.counterValue == c.counterValue
    ensures c.inputType == Counter ==>
      r.counterValue == (c.counterValue + if state && !c.lastState then 1 else 0) % COUNTER_MODULUS
    ensures r == c.(lastState := state, counterValue := r.counterValue)
  {
    var counted := if c.inputType == Counter && state && !c.lastState
      then c.(counterValue := (c.counterValue + 1) % COUNTER_MODULUS) else c;
    counted.(lastState := state)
  }

  /** The `actual` value of `checkInputAlarms`: counter non-zero, or the last level, as 1/0. */
  function Observed(c: InputConfig): (v: byte)
    ensures v <= 1
    ensures v == 1 <==> if c.inputType == Counter then c.counterValue > 0 else c.lastState
  {
    if c.inputType == Counter then (if c.counterValue > 0 then 1 else 0) else (if c.lastState then 1 else 0)
  }

  /**
   * One channel of `checkInputAlarms`: the channel afterwards, and whether an alarm send
   * is attempted. `alarmActive` ends up recording whether the channel is in mismatch.
   */
  function CheckChannel(c: InputConfig): (r: (InputConfig, bool))
    ensures r.0 == c.(alarmActive := r.0.alarmActive)
    ensures r.0.alarmActive <==> Observed(c) != c.alarmExpected
    ensures r.1 <==> Observed(c) != c.alarmExpected && !c.alarmActive
  {
    var actual := Observed(c);
    if actual != c.alarmExpected && !c.alarmActive then (c.(alarmActive := true), true)
    else if actual == c.alarmExpected && c.alarmActive then (c.(alarmActive := false), false)
    else (c, false)
  }

  function AlarmFrameFor(i: byte, c: InputConfig): Frame
  {
    Frame(ALARM_PORT, InputAlarmFrame(i, c.alarmExpected, Observed(c)))
  }

  /** Channel i's contribution to the alarm sends of one check. */
  function AlarmSends(cs: seq<InputConfig>, n: nat): (frames: seq<Frame>)
    requires n <= |cs| <= 0x100
    ensures |frames| <= n
  {
    if n == 0 then []
    else AlarmSends(cs, n - 1) + if CheckChannel(cs[n - 1]).1 then [AlarmFrameFor(n - 1, cs[n - 1])] else []
  }

  /** One more channel checked: one more frame exactly when its alarm is raised. */
  lemma AlarmSendsStep(cs: seq<InputConfig>, i: nat)
    requires i < |cs| <= 0x100
    ensures AlarmSends(cs, i + 1) == AlarmSends(cs, i) + if CheckChannel(cs[i]).1 then [AlarmFrameFor(i, cs[i])] else []
  {
  }

  /** `checkInputAlarms`: the channels afterwards and the alarm frames attempted, in channel order. */
  function CheckAlarms(cs: seq<InputConfig>): (r: (seq<InputConfig>, seq<Frame>))
    requires |cs| == INPUT_CHANNELS
    ensures |r.0| == INPUT_CHANNELS && |r.1| <= INPUT_CHANNELS
    ensures forall i :: 0 <= i < INPUT_CHANNELS ==> r.0[i] == CheckChannel(cs[i]).0
  {
    (seq(INPUT_CHANNELS, i requires 0 <= i < INPUT_CHANNELS => CheckChannel(cs[i]).0), AlarmSends(cs, INPUT_CHANNELS))
  }

  /** `handleDigitalInputs`: both channels are sampled before the alarm check runs. */
  function HandleInputsSpec(cs: seq<InputConfig>, states: seq<bool>): (r: (seq<InputConfig>, seq<Frame>))
    requires |cs| == INPUT_CHANNELS && |states| == INPUT_CHANNELS
    ensures |r.0| == INPUT_CHANNELS
    ensures forall i :: 0 <= i < INPUT_CHANNELS ==>
      r.0[i] == CheckChannel(SampleChannel(cs[i], states[i])).0 && r.0[i].lastState == states[i]
  {
    CheckAlarms(seq(INPUT_CHANNELS, i requires 0 <= i < INPUT_CHANNELS => SampleChannel(cs[i], states[i])))
  }

  /** `resetCounters`: counters of COUNTER channels go to zero, nothing else changes. */
  function ResetSpec(cs: seq<InputConfig>): (r: seq<InputConfig>)
    ensures |r| == |cs|
    ensures forall i :: 0 <= i < |cs| ==>
      r[i] == cs[i].(counterValue := r[i].counterValue)
      && r[i].counterValue == if cs[i].inputType == Counter then 0 else cs[i].counterValue
  {
    seq(|cs|, i requires 0 <= i < |cs| => if cs[i].inputType == Counter then cs[i].(counterValue := 0) else cs[i])
  }

  // ----- The firmware's loops -----

  method HandleDigitalInputs(inputs: array<InputConfig>, states: seq<bool>, radio: Radio)
    requires inputs.Length == INPUT_CHANNELS && |states| == INPUT_CHANNELS
    modifies inputs, radio
    ensures inputs[..] == HandleInputsSpec(old(inputs[..]), states).0
    ensures radio.Abs() == SendAllIfIdle(old(radio.Abs()), HandleInputsSpec(old(inputs[..]), states).1)
  {
    ghost var cs := inputs[..];
    for i := 0 to INPUT_CHANNELS
      invariant forall k :: 0 <= k < INPUT_CHANNELS ==>
        inputs[k] == if k < i then SampleChannel(cs[k], states[k]) else cs[k]
      invariant unchanged(radio)
    {
      var state := states[i];
      if inputs[i].inputType == Counter {
        if state && !inputs[i].lastState {
          inputs[i] := inputs[i].(counterValue := (inputs[i].counterValue + 1) % COUNTER_MODULUS);
        }
      }
      inputs[i] := inputs[i].(lastState := state);
    }
    assert inputs[..] == seq(INPUT_CHANNELS, i requires 0 <= i < INPUT_CHANNELS => SampleChannel(cs[i], states[i]));
    CheckInputAlarms(inputs, radio);
  }

  method CheckInputAlarms(inputs: array<InputConfig>, radio: Radio)
    requires inputs.Length == INPUT_CHANNELS
    modifies inputs, radio
    ensures inputs[..] == CheckAlarms(old(inputs[..])).0
    ensures radio.Abs() == SendAllIfIdle(old(radio.Abs()), CheckAlarms(old(inputs[..])).1)
  {
    ghost var cs := inputs[..];
    ghost var r0 := radio.Abs();
    for i := 0 to INPUT_CHANNELS
      invariant forall k :: 0 <= k < INPUT_CHANNELS ==>
        inputs[k] == if k < i then CheckChannel(cs[k]).0 else cs[k]
      invariant radio.Abs() == SendAllIfIdle(r0, AlarmSends(cs, i))
    {
      CheckOne(inputs, i, radio, r0, cs);
    }
    assert inputs[..] == CheckAlarms(cs).0;
  }

  /** One channel of `checkInputAlarms`: raise or clear its alarm, sending a frame when it is raised. */
  method CheckOne(inputs: array<InputConfig>, i: nat, radio: Radio, ghost r0: RadioState, ghost cs: seq<InputConfig>)
    requires inputs.Length == INPUT_CHANNELS && |cs| == INPUT_CHANNELS && i < INPUT_CHANNELS && inputs[i] == cs[i]
    requires radio.Abs() == SendAllIfIdle(r0, AlarmSends(cs, i))
    modifies inputs, radio
    ensures inputs[..] == old(inputs[..])[i := CheckChannel(cs[i]).0]
    ensures radio.Abs() == SendAllIfIdle(r0, AlarmSends(cs, i + 1))
  {
    var cfg := inputs[i];
    var actual := Observed(cfg);
    AlarmSendsStep(cs, i);
    if actual != cfg.alarmExpected && !cfg.alarmActive {
      inputs[i] := cfg.(alarmActive := true);
      RaiseAlarm(radio, i, cfg.alarmExpected, actual, r0, cs);
    } else if actual == cfg.alarmExpected && cfg.alarmActive {
      inputs[i] := cfg.(alarmActive := false);
    }
  }

  /** `sendAlarmUplink` for channel i, whose alarm has just been raised. */
  method RaiseAlarm(radio: Radio, i: nat, expected: byte, actual: byte, ghost r0: RadioState, ghost cs: seq<InputConfig>)
    requires |cs| == INPUT_CHANNELS && i < INPUT_CHANNELS && expected == cs[i].alarmExpected && actual == Observed(cs[i])
    requires radio.Abs() == SendAllIfIdle(r0, AlarmSends(cs, i))
    modifies radio
    ensures radio.Abs() == SendAllIfIdle(r0, AlarmSends(cs, i) + [AlarmFrameFor(i, cs[i])])
  {
    SendAllIfIdleSnoc(r0, AlarmSends(cs, i), AlarmFrameFor(i, cs[i]));
    radio.SendIfIdle(ALARM_PORT, InputAlarmFrame(i, expected, actual));
  }

  method ResetCounters(inputs: array<InputConfig>)
    modifies inputs
    ensures inputs[..] == ResetSpec(old(inputs[..]))
  {
    for i := 0 to inputs.Length
      invariant forall k :: 0 <= k < inputs.Length ==>
        inputs[k] == if k < i then ResetSpec(old(inputs[..]))[k] else old(inputs[k])
    {
      if inputs[i].inputType == Counter {
        inputs[i] := inputs[i].(counterValue := 0);
      }
    }
  }

  // ----- Properties over several samples -----

  /** The number of false-to-true transitions in `states`, starting from level `last`. */
  function Rises(last: bool, states: seq<bool>): nat
    decreases |states|
  {
    if states == [] then 0 else (if states[0] && !last then 1 else 0) + Rises(states[0], states[1..])
  }

  function SampleRun(c: InputConfig, states: seq<bool>): InputConfig
    decreases |states|
  {
    if states == [] then c else SampleRun(SampleChannel(c, states[0]), states[1..])
  }

  /**
   * Between two resets a COUNTER channel holds the number of rising edges seen (modulo
   * 2^32); a DIGITAL channel's counter never moves; the channel remembers the last level.
   */
  lemma {:induction false} CounterCountsRisingEdges(c: InputConfig, states: seq<bool>)
    ensures SampleRun(c, states).counterValue
        == if c.inputType == Counter then (c.counterValue + Rises(c.lastState, states)) % COUNTER_MODULUS
           else c.counterValue
    ensures states != [] ==> SampleRun(c, states).lastState == states[|states| - 1]
    ensures SampleRun(c, states).inputType == c.inputType
    decreases |states|
  {
    if states != [] {
      var next := SampleChannel(c, states[0]);
      CounterCountsRisingEdges(next, states[1..]);
      if |states| > 1 {
        assert states[1..][|states[1..]| - 1] == states[|states| - 1];
      }
      if c.inputType == Counter {
        var step := if states[0] && !c.lastState then 1 else 0;
        ModAddAssoc(c.counterValue + step, Rises(states[0], states[1..]));
      }
    }
  }

  lemma ModAddAssoc(a: nat, b: nat)
    ensures (a % COUNTER_MODULUS + b) % COUNTER_MODULUS == (a + b) % COUNTER_MODULUS
  {
  }

  /** Successive loop passes on a DIGITAL channel: the channel afterwards and the alarm sends attempted. */
  function DigitalRun(c: InputConfig, states: seq<bool>): (r: (InputConfig, nat))
    decreases |states|
  {
    if states == [] then (c, 0)
    else
      var step := CheckChannel(SampleChannel(c, states[0]));
      var rest := DigitalRun(step.0, states[1..]);
      (rest.0, rest.1 + if step.1 then 1 else 0)
  }

  /** The mismatch signal of a DIGITAL channel: level differs from `alarmExpected`. */
  function Mismatches(expected: byte, states: seq<bool>): (m: seq<bool>)
    ensures |m| == |states|
  {
    seq(|states|, k requires 0 <= k < |states| => (if states[k] then 1 else 0) != expected)
  }

  /**
   * A DIGITAL channel sends exactly one alarm per mismatch episode: the number of sends
   * equals the number of times the mismatch signal rises, starting from `alarmActive`.
   */
  lemma {:induction false} DigitalAlarmOncePerEpisode(c: InputConfig, states: seq<bool>)
    requires c.inputType == Digital
    ensures DigitalRun(c, states).1 == Rises(c.alarmActive, Mismatches(c.alarmExpected, states))
    ensures states != [] ==> DigitalRun(c, states).0.alarmActive == Mismatches(c.alarmExpected, states)[|states| - 1]
    decreases |states|
  {
    if states != [] {
      var step := CheckChannel(SampleChannel(c, states[0]));
      DigitalAlarmOncePerEpisode(step.0, states[1..]);
      var m := Mismatches(c.alarmExpected, states);
      forall k | 0 <= k < |states| - 1 ensures Mismatches(c.alarmExpected, states[1..])[k] == m[1..][k] {
        assert states[1..][k] == states[k + 1];
      }
      assert Mismatches(c.alarmExpected, states[1..]) == m[1..];
      if |states| > 1 {
        assert m[1..][|m[1..]| - 1] == m[|m| - 1];
      }
    }
  }

  /** A second check without a new sample changes nothing and sends nothing. */
  lemma CheckChannelIdempotent(c: InputConfig)
    ensures CheckChannel(CheckChannel(c).0) == (CheckChannel(c).0, false)
  {
  }
}
