/**
 * `pollModbus` of src/modbus.cpp. The ModbusEthernet transport is abstract: for every
 * request of a poll, a `PollOutcome` says whether the slave was connected, whether the
 * read reported success, and which words or bits the read delivered.
 */
module Modbus {
  import opened Config

  /**
   * The transport's answer for one request. `words` is what a register read leaves in
   * `result` (left unconstrained on failure); `bits` is the coil or discrete-input buffer.
   */
  datatype PollOutcome = PollOutcome(connected: bool, ok: bool, words: seq<uint16>, bits: seq<bool>)

  predicate ValidOutcome(o: PollOutcome)
  {
    |o.words| == RESULT_SLOTS && |o.bits| == RESULT_SLOTS
  }

  /** The comparison characters of `AlarmCondition.op`. */
  const OP_GREATER: byte := 62
  const OP_LESS: byte := 60
  const OP_EQUAL: byte := 61

  /** The alarm comparison; any other op character never triggers. */
  function Triggered(op: byte, value: uint16, threshold: uint16): (t: bool)
    ensures t ==> op == OP_GREATER || op == OP_LESS || op == OP_EQUAL
    ensures op == OP_GREATER ==> (t <==> value > threshold)
    ensures op == OP_LESS ==> (t <==> value < threshold)
    ensures op == OP_EQUAL ==> (t <==> value == threshold)
  {
    if op == OP_GREATER then value > threshold
    else if op == OP_LESS then value < threshold
    else if op == OP_EQUAL then value == threshold
    else false
  }

  /**
   * The edge-triggered update of one alarm: `active` follows the condition, and
   * `pending` is raised on a rising edge and never lowered here.
   */
  function EvaluateAlarm(alarm: AlarmCondition, value: uint16): (next: AlarmCondition)
    ensures next.index == alarm.index && next.op == alarm.op && next.threshold == alarm.threshold
    ensures next.active == Triggered(alarm.op, value, alarm.threshold)
    ensures next.pending == (alarm.pending || (next.active && !alarm.active))
  {
    var triggered := Triggered(alarm.op, value, alarm.threshold);
    if triggered && !alarm.active then alarm.(active := true, pending := true)
    else if !triggered && alarm.active then alarm.(active := false)
    else alarm
  }

  /** Alarm slot a after the alarm pass of a successful read. */
  function AlarmAfterPoll(req: ModbusRequest, a: nat): AlarmCondition
    requires WellFormed(req) && a < |req.alarms|
  {
    var alarm := req.alarms[a];
    if a < req.alarmCount as int && alarm.index < req.numRegs then EvaluateAlarm(alarm, req.result[alarm.index])
    else alarm
  }

  function EvaluateAlarms(req: ModbusRequest): (r: ModbusRequest)
    requires WellFormed(req)
    ensures WellFormed(r)
    ensures r == req.(alarms := r.alarms)
    ensures |r.alarms| == |req.alarms|
    ensures forall a :: 0 <= a < |r.alarms| ==> r.alarms[a] == AlarmAfterPoll(req, a)
  {
    req.(alarms := seq(|req.alarms|, a requires 0 <= a < |req.alarms| => AlarmAfterPoll(req, a)))
  }

  /** `bits[j] ? 1 : 0` for the first n bits. */
  function BitWords(bits: seq<bool>, n: nat): (w: seq<uint16>)
    requires n <= |bits|
    ensures |w| == n
    ensures forall j :: 0 <= j < n ==> (w[j] == 1 <==> bits[j]) && w[j] <= 1
  {
    seq(n, j requires 0 <= j < n => if bits[j] then 1 else 0)
  }

  /** `result` after the read call: register reads write n words, bit reads copy only on success. */
  function AfterRead(req: ModbusRequest, o: PollOutcome): (r: ModbusRequest)
    requires WellFormed(req) && ValidOutcome(o)
    ensures WellFormed(r) && r == req.(result := r.result)
  {
    var n := req.numRegs as nat;
    if req.func.IsBitType() then
      if o.ok then req.(result := BitWords(o.bits, n) + req.result[n..]) else req
    else req.(result := o.words[..n] + req.result[n..])
  }

  /** One request's turn in `pollModbus`. */
  function PollRequest(req: ModbusRequest, o: PollOutcome): (r: ModbusRequest)
    requires WellFormed(req) && ValidOutcome(o)
    ensures WellFormed(r)
    ensures r.success <==> o.connected && o.ok
    ensures r == req.(success := r.success, result := r.result, alarms := r.alarms)
    ensures !o.connected ==> r == req.(success := false)
    ensures !(o.connected && o.ok) ==> r.alarms == req.alarms
    ensures req.func.IsBitType() && !o.ok ==> r.result == req.result
    ensures req.func.IsBitType() && o.connected && o.ok ==>
      forall j :: 0 <= j < |r.result| ==>
        r.result[j] == if j < req.numRegs as int then (if o.bits[j] then 1 else 0) else req.result[j]
    ensures !req.func.IsBitType() && o.connected ==>
      r.result[..req.numRegs] == o.words[..req.numRegs] && r.result[req.numRegs..] == req.result[req.numRegs..]
    ensures o.connected && o.ok ==>
      forall a :: 0 <= a < req.alarmCount as int && req.alarms[a].index < req.numRegs ==>
        r.alarms[a] == EvaluateAlarm(req.alarms[a], r.result[req.alarms[a].index])
    ensures forall a :: 0 <= a < |r.alarms| && (a >= req.alarmCount as int || req.alarms[a].index >= req.numRegs) ==>
      r.alarms[a] == req.alarms[a]
  {
    var cleared := req.(success := false);
    if !o.connected then cleared
    else
      var read := AfterRead(cleared, o);
      if o.ok then EvaluateAlarms(read.(success := true)) else read
  }

  ghost predicate TableWellFormed(t: seq<ModbusRequest>)
  {
    forall i :: 0 <= i < |t| ==> WellFormed(t[i])
  }

  /** The request table after `pollModbus`; nothing changes when Ethernet is off or not up. */
  function PollTable(t: seq<ModbusRequest>, count: nat, online: bool, outcomes: seq<PollOutcome>)
    : (t2: seq<ModbusRequest>)
    requires TableWellFormed(t) && count <= |t| && count <= |outcomes|
    requires forall i :: 0 <= i < |outcomes| ==> ValidOutcome(outcomes[i])
    ensures |t2| == |t| && TableWellFormed(t2)
    ensures !online ==> t2 == t
    ensures online ==> forall i :: 0 <= i < count ==> t2[i] == PollRequest(t[i], outcomes[i])
    ensures forall i :: count <= i < |t| ==> t2[i] == t[i]
  {
    if !online then t
    else seq(|t|, i requires 0 <= i < |t| => if i < count then PollRequest(t[i], outcomes[i]) else t[i])
  }

  /** The slaves `pollModbus` asks the transport to connect to, in table order. */
  function ConnectAttempts(t: seq<ModbusRequest>, count: nat, online: bool, outcomes: seq<PollOutcome>)
    : (ips: seq<IPAddress>)
    requires count <= |t| && count <= |outcomes|
    ensures |ips| <= count
    ensures (forall i :: 0 <= i < count ==> outcomes[i].connected) ==> ips == []
    ensures !online ==> ips == []
  {
    if !online || count == 0 then []
    else
      var ip := if outcomes[count - 1].connected then [] else [t[count - 1].slaveIP];
      ConnectAttempts(t, count - 1, online, outcomes) + ip
  }

  // ----- The firmware's loops -----

  /** The coil/discrete copy loop: `result[j] = bits[j] ? 1 : 0` for `j < numRegs`. */
  method CopyBits(result: seq<uint16>, bits: seq<bool>, n: nat) returns (r: seq<uint16>)
    requires n <= |result| && n <= |bits|
    ensures r == BitWords(bits, n) + result[n..]
  {
    r := result;
    var j := 0;
    while j < n
      invariant 0 <= j <= n && |r| == |result|
      invariant r == BitWords(bits, j) + result[j..]
    {
      CopyBitsStep(result, bits, j);
      r := r[j := if bits[j] then 1 else 0];
      j := j + 1;
    }
  }

  /** Copying bit j extends the converted prefix by one word. */
  lemma CopyBitsStep(result: seq<uint16>, bits: seq<bool>, j: nat)
    requires j < |result| && j < |bits|
    ensures (BitWords(bits, j) + result[j..])[j := if bits[j] then 1 else 0] == BitWords(bits, j + 1) + result[j + 1..]
  {
    var before := BitWords(bits, j) + result[j..];
    var after := BitWords(bits, j + 1) + result[j + 1..];
    assert |before| == |after| == |result|;
    forall k | 0 <= k < |result| ensures before[j := if bits[j] then 1 else 0][k] == after[k] {
      if k < j {
        assert before[k] == BitWords(bits, j)[k] && after[k] == BitWords(bits, j + 1)[k];
      } else if k > j {
        assert before[k] == result[k] && after[k] == result[k];
      }
    }
  }

  /** The alarm pass `for (a = 0; a < alarmCount; a++)` of a successful read. */
  method EvaluateAlarmsLoop(req: ModbusRequest) returns (r: ModbusRequest)
    requires WellFormed(req)
    ensures r == EvaluateAlarms(req)
  {
    var alarms := req.alarms;
    var a := 0;
    while a < req.alarmCount as int
      invariant 0 <= a <= req.alarmCount as int && |alarms| == |req.alarms|
      invariant forall k :: 0 <= k < |alarms| ==> alarms[k] == if k < a then AlarmAfterPoll(req, k) else req.alarms[k]
    {
      var alarm := alarms[a];
      if alarm.index < req.numRegs {
        var value := req.result[alarm.index];
        var triggered := Triggered(alarm.op, value, alarm.threshold);
        if triggered && !alarm.active {
          alarms := alarms[a := alarm.(active := true, pending := true)];
        } else if !triggered && alarm.active {
          alarms := alarms[a := alarm.(active := false)];
        }
      }
      a := a + 1;
    }
    r := req.(alarms := alarms);
  }

  /** The body of `pollModbus` for one table entry: the read, the copy and the alarm pass. */
  method PollOne(request: ModbusRequest, o: PollOutcome) returns (req: ModbusRequest)
    requires WellFormed(request) && ValidOutcome(o)
    ensures req == PollRequest(request, o)
  {
    req := request.(success := false);
    if o.connected {
      var n := req.numRegs as nat;
      if req.func.IsBitType() {
        if o.ok {
          var res := CopyBits(req.result, o.bits, n);
          req := req.(result := res);
        }
      } else {
        req := req.(result := o.words[..n] + req.result[n..]);
      }
      if o.ok {
        req := req.(success := true);
        req := EvaluateAlarmsLoop(req);
      }
    }
  }

  /**
   * `pollModbus` over the global request table. Returns the slaves it asked to connect to.
   */
  method PollModbus(requests: array<ModbusRequest>, count: nat, enableEthernet: bool, ethOK: bool,
                    outcomes: seq<PollOutcome>) returns (connects: seq<IPAddress>)
    requires TableWellFormed(requests[..]) && count <= requests.Length && count <= |outcomes|
    requires forall i :: 0 <= i < |outcomes| ==> ValidOutcome(outcomes[i])
    modifies requests
    ensures requests[..] == PollTable(old(requests[..]), count, enableEthernet && ethOK, outcomes)
    ensures connects == ConnectAttempts(old(requests[..]), count, enableEthernet && ethOK, outcomes)
  {
    connects := [];
    if !enableEthernet || !ethOK {
      return;
    }
    ghost var t := requests[..];
    var i := 0;
    while i < count
      invariant 0 <= i <= count
      invariant requests[..] == PollTable(t, i, true, outcomes)
      invariant connects == ConnectAttempts(t, i, true, outcomes)
    {
      connects := PollAt(requests, i, t, outcomes, connects);
      i := i + 1;
    }
  }

  /** Entry i of the table polled in place, with its connect attempt when the slave is not connected. */
  method PollAt(requests: array<ModbusRequest>, i: nat, ghost t: seq<ModbusRequest>, outcomes: seq<PollOutcome>,
                connects: seq<IPAddress>) returns (connects': seq<IPAddress>)
    requires TableWellFormed(t) && i < |t| == requests.Length && i < |outcomes|
    requires forall k :: 0 <= k < |outcomes| ==> ValidOutcome(outcomes[k])
    requires requests[..] == PollTable(t, i, true, outcomes)
    requires connects == ConnectAttempts(t, i, true, outcomes)
    modifies requests
    ensures requests[..] == PollTable(t, i + 1, true, outcomes)
    ensures connects' == ConnectAttempts(t, i + 1, true, outcomes)
  {
    PollTableStep(t, i, outcomes);
    ConnectAttemptsStep(t, i, outcomes);
    connects' := connects;
    if !outcomes[i].connected {
      connects' := connects + [requests[i].slaveIP];
    }
    var req := PollOne(requests[i], outcomes[i]);
    requests[i] := req;
  }

  /** One more request polled: one more connect attempt exactly when its outcome is not connected. */
  lemma ConnectAttemptsStep(t: seq<ModbusRequest>, i: nat, outcomes: seq<PollOutcome>)
    requires i < |t| && i < |outcomes|
    ensures ConnectAttempts(t, i + 1, true, outcomes) ==
      ConnectAttempts(t, i, true, outcomes) + if outcomes[i].connected then [] else [t[i].slaveIP]
  {
  }

  /** Polling one more request of the table changes that request and nothing else. */
  lemma PollTableStep(t: seq<ModbusRequest>, i: nat, outcomes: seq<PollOutcome>)
    requires TableWellFormed(t) && i < |t| && i < |outcomes|
    requires forall k :: 0 <= k < |outcomes| ==> ValidOutcome(outcomes[k])
    ensures PollTable(t, i, true, outcomes)[i] == t[i]
    ensures PollTable(t, i + 1, true, outcomes) == PollTable(t, i, true, outcomes)[i := PollRequest(t[i], outcomes[i])]
  {
  }

  // ----- Properties over repeated polls -----

  /** The alarm after a poll sequence delivering `values` for its register. */
  function AlarmRun(alarm: AlarmCondition, values: seq<uint16>): AlarmCondition
    decreases |values|
  {
    if values == [] then alarm else AlarmRun(EvaluateAlarm(alarm, values[0]), values[1..])
  }

  /** The number of false-to-true transitions of the condition, starting from `active`. */
  function RisingEdges(active: bool, op: byte, threshold: uint16, values: seq<uint16>): nat
    decreases |values|
  {
    if values == [] then 0
    else
      var t := Triggered(op, values[0], threshold);
      (if t && !active then 1 else 0) + RisingEdges(t, op, threshold, values[1..])
  }

  /**
   * Over any sequence of successful polls, `active` ends equal to the last evaluation of
   * the condition, and `pending` is set exactly when it was already set or the condition
   * rose at least once.
   */
  lemma {:induction false} AlarmRunTracksCondition(alarm: AlarmCondition, values: seq<uint16>)
    ensures values != [] ==>
      AlarmRun(alarm, values).active == Triggered(alarm.op, values[|values| - 1], alarm.threshold)
    ensures AlarmRun(alarm, values).pending
        == (alarm.pending || RisingEdges(alarm.active, alarm.op, alarm.threshold, values) > 0)
    ensures AlarmRun(alarm, values).op == alarm.op && AlarmRun(alarm, values).threshold == alarm.threshold
    ensures AlarmRun(alarm, values).index == alarm.index
    decreases |values|
  {
    if values != [] {
      var next := EvaluateAlarm(alarm, values[0]);
      AlarmRunTracksCondition(next, values[1..]);
      if |values| > 1 {
        assert values[1..][|values[1..]| - 1] == values[|values| - 1];
      }
    }
  }

  /** While the condition stays true, the alarm is raised at most once. */
  lemma {:induction false} SustainedConditionRisesOnce(active: bool, op: byte, threshold: uint16, values: seq<uint16>)
    requires forall k :: 0 <= k < |values| ==> Triggered(op, values[k], threshold)
    ensures RisingEdges(active, op, threshold, values) <= 1
    ensures active ==> RisingEdges(active, op, threshold, values) == 0
    decreases |values|
  {
    if values != [] {
      SustainedConditionRisesOnce(true, op, threshold, values[1..]);
    }
  }

  /** One request over several successive `pollModbus` calls. */
  function PollRun(req: ModbusRequest, outs: seq<PollOutcome>): (r: ModbusRequest)
    requires WellFormed(req)
    requires forall k :: 0 <= k < |outs| ==> ValidOutcome(outs[k])
    ensures WellFormed(r)
    ensures r.func == req.func && r.numRegs == req.numRegs && r.alarmCount == req.alarmCount
    decreases |outs|
  {
    if outs == [] then req else PollRun(PollRequest(req, outs[0]), outs[1..])
  }

  /** The word a register read delivers at position j, poll by poll. */
  function WordsAt(outs: seq<PollOutcome>, j: nat): (w: seq<uint16>)
    requires j < RESULT_SLOTS
    requires forall k :: 0 <= k < |outs| ==> ValidOutcome(outs[k])
    ensures |w| == |outs|
  {
    seq(|outs|, k requires 0 <= k < |outs| && ValidOutcome(outs[k]) => outs[k].words[j])
  }

  /**
   * Over successful register reads, an in-range alarm of the request goes through exactly
   * the run of `EvaluateAlarm` on the words read at its index, so `AlarmRunTracksCondition`
   * and `SustainedConditionRisesOnce` describe `pollModbus` itself.
   */
  lemma {:induction false} PollRunIsAlarmRun(req: ModbusRequest, outs: seq<PollOutcome>, a: nat)
    requires WellFormed(req) && !req.func.IsBitType()
    requires forall k :: 0 <= k < |outs| ==> ValidOutcome(outs[k]) && outs[k].connected && outs[k].ok
    requires a < req.alarmCount as int && req.alarms[a].index < req.numRegs
    ensures PollRun(req, outs).alarms[a] == AlarmRun(req.alarms[a], WordsAt(outs, req.alarms[a].index as nat))
    decreases |outs|
  {
    if outs != [] {
      var next := PollRequest(req, outs[0]);
      var j := req.alarms[a].index as nat;
      assert next.result[j] == next.result[..req.numRegs][j] == outs[0].words[j];
      assert next.alarms[a] == EvaluateAlarm(req.alarms[a], outs[0].words[j]);
      PollRunIsAlarmRun(next, outs[1..], a);
      assert WordsAt(outs[1..], j) == WordsAt(outs, j)[1..];
    }
  }

  /** A falling edge lowers `active` but keeps an unsent `pending`. */
  lemma FallingEdgeKeepsPending(alarm: AlarmCondition, value: uint16)
    requires alarm.active && alarm.pending && !Triggered(alarm.op, value, alarm.threshold)
    ensures !EvaluateAlarm(alarm, value).active && EvaluateAlarm(alarm, value).pending
  {
  }
}
