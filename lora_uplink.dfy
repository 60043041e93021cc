/**
 * The two uplink paths of src/lora.cpp that walk the request table: `sendLoRaUplink`
 * (records into `reqBuf`, chunks into `buffer`, sent on port 1) and `checkAlarmUplink`
 * (one pending Modbus alarm per call, sent on port 2).
 */
module LoraUplink {
  import opened Config
  import opened Wrappers
  import opened LoraCodec
  import opened LoraRadio
  import opened Modbus
  import opened Inputs

  // ----- sendLoRaUplink -----

  lemma {:induction false} PackByteSnoc(s: seq<uint16>, v: uint16)
    ensures PackByte(s + [v]) == PackByte(s) + if v % 2 == 1 then Pow2(|s|) else 0
    decreases |s|
  {
    if s != [] {
      assert (s + [v])[1..] == s[1..] + [v];
      PackByteSnoc(s[1..], v);
    }
  }

  /** `while (filler--) reqBuf[reqLen++] = 0x00;` */
  method WriteFiller(reqBuf: array<byte>, start: nat, filler: nat) returns (reqLen: nat)
    requires start + filler <= reqBuf.Length
    modifies reqBuf
    ensures reqLen == start + filler
    ensures reqBuf[..start] == old(reqBuf[..start])
    ensures reqBuf[start..reqLen] == seq(filler, _ => 0)
  {
    reqLen := start;
    var left := filler;
    while left > 0
      invariant reqLen + left == start + filler
      invariant reqBuf[..start] == old(reqBuf[..start])
      invariant forall j :: start <= j < reqLen ==> reqBuf[j] == 0
    {
      reqBuf[reqLen] := 0;
      reqLen, left := reqLen + 1, left - 1;
    }
    assert reqBuf[start..reqLen] == seq(filler, _ => 0);
  }

  lemma PackStep(vals: seq<uint16>, r: nat, bitIndex: nat)
    requires bitIndex <= r < |vals|
    ensures PackByte(vals[r - bitIndex .. r + 1]) == PackByte(vals[r - bitIndex .. r]) + if vals[r] % 2 == 1 then Pow2(bitIndex) else 0
  {
    var s := vals[r - bitIndex .. r];
    var s1 := vals[r - bitIndex .. r + 1];
    assert |s| == bitIndex;
    assert s1 == s + [vals[r]];
    PackByteSnoc(s, vals[r]);
  }

  /** The bits collected when the loop flushes form the group of byte `r / 8`. */
  lemma FlushedGroup(vals: seq<uint16>, r: nat)
    requires r < |vals| && (r % 8 == 7 || r == |vals| - 1)
    ensures GroupByte(vals, r / 8) == PackByte(vals[r - r % 8 .. r + 1])
  {
    assert vals[r - r % 8 .. r + 1] == Group(vals, r / 8);
  }

  /** The counters of the bit-packing loop after value r: a flush exactly when a group is complete. */
  lemma PackCounters(n: nat, r: nat)
    requires r < n
    ensures r % 8 == 7 || r == n - 1 ==>
      (r + 1 == n ==> (n + 7) / 8 == r / 8 + 1) && (r + 1 < n ==> (r + 1) % 8 == 0 && (r + 1) / 8 == r / 8 + 1)
    ensures !(r % 8 == 7 || r == n - 1) ==> r + 1 < n && (r + 1) % 8 == r % 8 + 1 && (r + 1) / 8 == r / 8
  {
  }

  /**
   * The counters of the bit-packing loop after the first r values: `bitIndex` bits of the
   * current group collected in `bitPacked`, `written` bytes flushed, all counters reset at the end.
   */
  ghost predicate PackState(vals: seq<uint16>, r: nat, bitIndex: nat, written: nat, bitPacked: int)
  {
    var n := |vals|;
    r <= n && bitIndex <= r && bitIndex == (if r == n then 0 else r % 8) &&
    written == (if r == n then (n + 7) / 8 else r / 8) &&
    bitPacked == PackByte(vals[r - bitIndex .. r])
  }

  /** One iteration: add bit `bitIndex`, and flush the completed group `written` when it is full or last. */
  lemma PackAdvance(vals: seq<uint16>, r: nat, bitIndex: nat, written: nat, bitPacked: int)
    requires PackState(vals, r, bitIndex, written, bitPacked) && r < |vals|
    ensures written < (|vals| + 7) / 8 && bitIndex < 8
    ensures var b := bitPacked + if vals[r] % 2 == 1 then Pow2(bitIndex) else 0;
      if bitIndex + 1 == 8 || r == |vals| - 1 then
        PackBits(vals)[written] == b && PackState(vals, r + 1, 0, written + 1, 0)
      else
        PackState(vals, r + 1, bitIndex + 1, written, b)
  {
    var n := |vals|;
    PackStep(vals, r, bitIndex);
    PackCounters(n, r);
    if bitIndex + 1 == 8 || r == n - 1 {
      FlushedGroup(vals, r);
      assert vals[r + 1 - 0 .. r + 1] == [];
    }
  }

  /** PackAdvance in the branch that flushes: the byte written is payload byte `written`. */
  lemma PackFlush(vals: seq<uint16>, r: nat, bitIndex: nat, written: nat, bitPacked: int, b: int)
    requires PackState(vals, r, bitIndex, written, bitPacked) && r < |vals|
    requires b == bitPacked + if vals[r] % 2 == 1 then Pow2(bitIndex) else 0
    requires bitIndex + 1 == 8 || r == |vals| - 1
    ensures written < (|vals| + 7) / 8 && PackBits(vals)[written] == b
    ensures PackState(vals, r + 1, 0, written + 1, 0)
  {
    PackAdvance(vals, r, bitIndex, written, bitPacked);
  }

  /** PackAdvance in the branch that keeps collecting bits. */
  lemma PackKeep(vals: seq<uint16>, r: nat, bitIndex: nat, written: nat, bitPacked: int, b: int)
    requires PackState(vals, r, bitIndex, written, bitPacked) && r < |vals|
    requires b == bitPacked + if vals[r] % 2 == 1 then Pow2(bitIndex) else 0
    requires !(bitIndex + 1 == 8 || r == |vals| - 1)
    ensures PackState(vals, r + 1, bitIndex + 1, written, b)
  {
    PackAdvance(vals, r, bitIndex, written, bitPacked);
  }

  /** The bit-packing loop: one byte per eight values, the last one flushed at `r == numRegs - 1`. */
  method WritePackedBits(reqBuf: array<byte>, start: nat, vals: seq<uint16>) returns (reqLen: nat)
    requires start + (|vals| + 7) / 8 <= reqBuf.Length
    modifies reqBuf
    ensures reqLen == start + (|vals| + 7) / 8
    ensures reqBuf[..start] == old(reqBuf[..start])
    ensures reqBuf[start..reqLen] == PackBits(vals)
  {
    var n := |vals|;
    reqLen := start;
    var bitPacked := 0;
    var bitIndex := 0;
    var r := 0;
    ghost var written: nat := 0;
    while r < n
      invariant PackState(vals, r, bitIndex, written, bitPacked) && reqLen == start + written
      invariant reqBuf[..start] == old(reqBuf[..start])
      invariant forall k :: 0 <= k < written ==> reqBuf[start + k] == PackBits(vals)[k]
    {
      bitIndex, bitPacked, reqLen, written := PackOne(reqBuf, start, vals, r, bitIndex, bitPacked, reqLen, written);
      r := r + 1;
    }
    assert reqBuf[start..reqLen] == PackBits(vals);
  }

  /** One iteration of the bit-packing loop, for value r. */
  method PackOne(reqBuf: array<byte>, start: nat, vals: seq<uint16>, r: nat, bitIndex: nat, bitPacked: int,
                 reqLen: nat, ghost written: nat)
    returns (newBitIndex: nat, newBitPacked: int, newReqLen: nat, ghost newWritten: nat)
    requires PackState(vals, r, bitIndex, written, bitPacked) && r < |vals| && reqLen == start + written
    requires start + (|vals| + 7) / 8 <= reqBuf.Length
    modifies reqBuf
    ensures PackState(vals, r + 1, newBitIndex, newWritten, newBitPacked) && newReqLen == start + newWritten
    ensures written <= newWritten && reqBuf[..start + written] == old(reqBuf[..start + written])
    ensures forall k :: written <= k < newWritten ==> reqBuf[start + k] == PackBits(vals)[k]
  {
    PackAdvance(vals, r, bitIndex, written, bitPacked);
    newBitPacked, newBitIndex, newReqLen, newWritten := bitPacked, bitIndex, reqLen, written;
    // `bitPacked |= 1 << bitIndex`: bit bitIndex is still clear, so the or adds Pow2(bitIndex).
    if vals[r] % 2 == 1 { newBitPacked := bitPacked + Pow2(bitIndex); }
    newBitIndex := bitIndex + 1;
    if newBitIndex == 8 || r == |vals| - 1 {
      PackFlush(vals, r, bitIndex, written, bitPacked, newBitPacked);
      reqBuf[reqLen] := newBitPacked;
      newReqLen, newWritten := reqLen + 1, written + 1;
      newBitPacked := 0;
      newBitIndex := 0;
    } else {
      PackKeep(vals, r, bitIndex, written, bitPacked, newBitPacked);
    }
  }

  /** The register loop: `highByte(result[r])`, `lowByte(result[r])` for every register. */
  method WriteRegisters(reqBuf: array<byte>, start: nat, vals: seq<uint16>) returns (reqLen: nat)
    requires start + 2 * |vals| <= reqBuf.Length
    modifies reqBuf
    ensures reqLen == start + 2 * |vals|
    ensures reqBuf[..start] == old(reqBuf[..start])
    ensures reqBuf[start..reqLen] == RegisterBytes(vals)
  {
    reqLen := start;
    var r := 0;
    while r < |vals|
      invariant 0 <= r <= |vals| && reqLen == start + 2 * r
      invariant reqBuf[..start] == old(reqBuf[..start])
      invariant forall j :: start <= j < reqLen ==> reqBuf[j] == RegisterBytes(vals)[j - start]
    {
      reqBuf[reqLen] := HighByte(vals[r]);
      reqBuf[reqLen + 1] := LowByte(vals[r]);
      reqLen := reqLen + 2;
      r := r + 1;
    }
    assert reqBuf[start..reqLen] == RegisterBytes(vals);
  }

  /** One request record built in `reqBuf[64]` as the firmware does. */
  method EncodeRecord(req: ModbusRequest) returns (rec: Text)
    requires WellFormed(req)
    ensures rec == RecordBytes(req)
  {
    var reqBuf := new byte[64];
    WriteHeader(reqBuf, req);
    var reqLen := WritePayload(reqBuf, req);
    rec := reqBuf[..reqLen];
    assert rec == reqBuf[..10] + reqBuf[10..reqLen];
  }

  /** The ten header bytes at the start of `reqBuf`. */
  method WriteHeader(reqBuf: array<byte>, req: ModbusRequest)
    requires reqBuf.Length == 64
    modifies reqBuf
    ensures reqBuf[..10] == Header(req)
  {
    reqBuf[0], reqBuf[1], reqBuf[2], reqBuf[3] := req.slaveIP.a, req.slaveIP.b, req.slaveIP.c, req.slaveIP.d;
    reqBuf[4] := req.unitID;
    reqBuf[5], reqBuf[6] := HighByte(req.startReg), LowByte(req.startReg);
    reqBuf[7] := req.numRegs;
    reqBuf[8] := if req.success then 1 else 0;
    reqBuf[9] := req.func.Code();
  }

  /** The payload behind the header: filler for a failed read, packed bits or register words. */
  method WritePayload(reqBuf: array<byte>, req: ModbusRequest) returns (reqLen: nat)
    requires reqBuf.Length == 64 && WellFormed(req)
    modifies reqBuf
    ensures 10 <= reqLen <= 64 && reqBuf[..10] == old(reqBuf[..10]) && reqBuf[10..reqLen] == Payload(req)
  {
    var n := req.numRegs as nat;
    if !req.success {
      reqLen := WriteFiller(reqBuf, 10, PayloadLength(req.func, n));
    } else if req.func.IsBitType() {
      reqLen := WritePackedBits(reqBuf, 10, req.result[..n]);
    } else {
      reqLen := WriteRegisters(reqBuf, 10, req.result[..n]);
    }
  }

  /** The input-channel section built in `inputSection[16]`. */
  method EncodeInputSection(inputs: array<InputConfig>) returns (section: Text)
    requires inputs.Length == INPUT_CHANNELS
    ensures section == InputSection(inputs[..])
  {
    ghost var want := InputSection(inputs[..]);
    var buf := new byte[16];
    buf[0], buf[1] := 0xFF, INPUT_CHANNELS;
    var inputLen := 2;
    assert buf[..inputLen] == want[..inputLen];
    for i := 0 to INPUT_CHANNELS
      invariant inputLen == 2 + 4 * i
      invariant buf[..inputLen] == want[..inputLen]
    {
      ghost var prefix := buf[..inputLen];
      WriteChannel(buf, inputLen, i, inputs[i]);
      assert want[..inputLen + 4] == want[..inputLen] + want[inputLen .. inputLen + 4];
      assert buf[..inputLen + 4] == prefix + buf[inputLen .. inputLen + 4];
      inputLen := inputLen + 4;
    }
    section := buf[..inputLen];
  }

  /** The four bytes of channel i at `inputSection[at]`. */
  method WriteChannel(buf: array<byte>, at: nat, i: byte, c: InputConfig)
    requires at + 4 <= buf.Length
    modifies buf
    ensures buf[..at] == old(buf[..at]) && buf[at .. at + 4] == ChannelBytes(i, c)
  {
    buf[at], buf[at + 1] := i, c.inputType.Ordinal();
    if c.inputType == Counter {
      buf[at + 2], buf[at + 3] := HighByte(c.counterValue), LowByte(c.counterValue);
    } else {
      buf[at + 2], buf[at + 3] := 0, if c.lastState then 1 else 0;
    }
  }

  /** `memcpy(&buffer[index], data, len)` */
  method CopyInto(buffer: array<byte>, index: nat, data: Text)
    requires index + |data| <= buffer.Length
    modifies buffer
    ensures buffer[..index + |data|] == old(buffer[..index]) + data
  {
    forall j | 0 <= j < |data| {
      buffer[index + j] := data[j];
    }
    assert buffer[..index + |data|] == old(buffer[..index]) + data;
  }

  function Framed(port: byte, payloads: seq<Text>): (frames: seq<Frame>)
    ensures |frames| == |payloads|
    ensures forall k :: 0 <= k < |frames| ==> frames[k] == Frame(port, payloads[k])
  {
    seq(|payloads|, k requires 0 <= k < |payloads| => Frame(port, payloads[k]))
  }

  /** The frames one `sendLoRaUplink` hands to LMIC. */
  function UplinkFrames(reqs: seq<ModbusRequest>, inputs: seq<InputConfig>, mtu: nat): seq<Frame>
    requires TableWellFormed(reqs) && |inputs| == INPUT_CHANNELS
  {
    Framed(UPLINK_PORT, Chunks(UplinkItems(reqs, inputs), mtu))
  }

  /**
   * What a receiver gets from one uplink: port-1 frames of 1..mtu bytes whose
   * concatenation is every record in table order followed by the input section, which
   * closes the last frame.
   */
  lemma UplinkFramesShape(reqs: seq<ModbusRequest>, inputs: seq<InputConfig>, sf: byte)
    requires TableWellFormed(reqs) && |inputs| == INPUT_CHANNELS
    ensures var frames := UplinkFrames(reqs, inputs, GetMaxMTU(sf));
      && frames != []
      && (forall k :: 0 <= k < |frames| ==> frames[k].port == UPLINK_PORT)
      && (forall k :: 0 <= k < |frames| ==> 0 < |frames[k].payload| <= GetMaxMTU(sf))
      && EndsWith(frames[|frames| - 1].payload, InputSection(inputs))
    ensures Flatten(Chunks(UplinkItems(reqs, inputs), GetMaxMTU(sf))) == Flatten(UplinkItems(reqs, inputs))
  {
    var mtu := GetMaxMTU(sf);
    var items := UplinkItems(reqs, inputs);
    ChunksFlatten(items, mtu);
    ChunksWithinMtu(items, mtu);
    ChunkFromLast(items, mtu, []);
  }

  lemma ChunksWithinMtu(items: seq<Text>, mtu: nat)
    requires forall i :: 0 <= i < |items| ==> 0 < |items[i]| <= mtu
    ensures forall k :: 0 <= k < |Chunks(items, mtu)| ==> 0 < |Chunks(items, mtu)[k]| <= mtu
  {
    ChunkFromBounded(items, mtu, []);
    var cs := Chunks(items, mtu);
    forall k | 0 <= k < |cs| ensures 0 < |cs[k]| <= mtu {
      assert cs[k] in cs;
    }
  }

  /** `LMIC_setTxData2(1, buffer, index, 1)`: the filled part of the buffer goes out as the next chunk. */
  method SendChunk(buffer: array<byte>, index: nat, radio: Radio, ghost r0: RadioState, ghost sent: seq<Text>)
    returns (ghost newSent: seq<Text>)
    requires index <= buffer.Length
    requires radio.Abs() == TransmitAll(r0, Framed(UPLINK_PORT, sent))
    modifies radio
    ensures newSent == sent + [buffer[..index]]
    ensures radio.Abs() == TransmitAll(r0, Framed(UPLINK_PORT, newSent))
  {
    var chunk := buffer[..index];
    TransmitAllSnoc(r0, Framed(UPLINK_PORT, sent), Frame(UPLINK_PORT, chunk));
    assert Framed(UPLINK_PORT, sent + [chunk]) == Framed(UPLINK_PORT, sent) + [Frame(UPLINK_PORT, chunk)];
    radio.Transmit(UPLINK_PORT, chunk);
    newSent := sent + [chunk];
  }

  /**
   * One item of `sendLoRaUplink`: the buffer goes out first when the item does not fit
   * behind it, then the item is copied in. `rest` is what is still to be placed, `rest[0]`
   * being this item; `sent` the chunks already transmitted.
   */
  method PlaceItem(buffer: array<byte>, index: nat, item: Text, mtu: nat, radio: Radio,
                   ghost r0: RadioState, ghost sent: seq<Text>, ghost rest: seq<Text>, ghost target: seq<Text>)
    returns (newIndex: nat, ghost newSent: seq<Text>)
    requires buffer.Length == 256 && index <= mtu <= 242 && 0 < |item| <= mtu
    requires rest != [] && rest[0] == item
    requires sent + ChunkFrom(rest, mtu, buffer[..index]) == target
    requires radio.Abs() == TransmitAll(r0, Framed(UPLINK_PORT, sent))
    modifies buffer, radio
    ensures 0 < newIndex <= mtu
    ensures newSent + ChunkFrom(rest[1..], mtu, buffer[..newIndex]) == target
    ensures radio.Abs() == TransmitAll(r0, Framed(UPLINK_PORT, newSent))
  {
    if index + |item| > mtu {
      newIndex, newSent := FlushAndPlace(buffer, index, item, mtu, radio, r0, sent, rest, target);
    } else {
      ChunkKeepStep(sent, rest, mtu, buffer[..index], target);
      newSent := sent;
      CopyInto(buffer, index, item);
      newIndex := index + |item|;
    }
  }

  /** The item does not fit behind the buffer: the buffer goes out, and the item starts the next chunk. */
  method FlushAndPlace(buffer: array<byte>, index: nat, item: Text, mtu: nat, radio: Radio,
                       ghost r0: RadioState, ghost sent: seq<Text>, ghost rest: seq<Text>, ghost target: seq<Text>)
    returns (newIndex: nat, ghost newSent: seq<Text>)
    requires buffer.Length == 256 && index <= mtu <= 242 && 0 < |item| <= mtu && index + |item| > mtu
    requires rest != [] && rest[0] == item
    requires sent + ChunkFrom(rest, mtu, buffer[..index]) == target
    requires radio.Abs() == TransmitAll(r0, Framed(UPLINK_PORT, sent))
    modifies buffer, radio
    ensures newIndex == |item| && buffer[..newIndex] == item
    ensures newSent + ChunkFrom(rest[1..], mtu, item) == target
    ensures radio.Abs() == TransmitAll(r0, Framed(UPLINK_PORT, newSent))
  {
    ChunkFlushStep(sent, rest, mtu, buffer[..index], target);
    newSent := SendChunk(buffer, index, radio, r0, sent);
    CopyInto(buffer, 0, item);
    newIndex := |item|;
  }

  /** When the next item does not fit behind `cur`, `cur` is the next chunk and the item starts a new one. */
  lemma ChunkFlushStep(sent: seq<Text>, rest: seq<Text>, mtu: nat, cur: Text, target: seq<Text>)
    requires rest != [] && |cur| + |rest[0]| > mtu
    requires sent + ChunkFrom(rest, mtu, cur) == target
    ensures (sent + [cur]) + ChunkFrom(rest[1..], mtu, rest[0]) == target
  {
    assert ChunkFrom(rest, mtu, cur) == [cur] + ChunkFrom(rest[1..], mtu, rest[0]);
    assert (sent + [cur]) + ChunkFrom(rest[1..], mtu, rest[0]) == sent + ([cur] + ChunkFrom(rest[1..], mtu, rest[0]));
  }

  /** When the next item fits behind `cur`, it joins the current chunk. */
  lemma ChunkKeepStep(sent: seq<Text>, rest: seq<Text>, mtu: nat, cur: Text, target: seq<Text>)
    requires rest != [] && |cur| + |rest[0]| <= mtu
    requires sent + ChunkFrom(rest, mtu, cur) == target
    ensures sent + ChunkFrom(rest[1..], mtu, cur + rest[0]) == target
  {
    assert ChunkFrom(rest, mtu, cur) == ChunkFrom(rest[1..], mtu, cur + rest[0]);
  }

  /** The loop of `sendLoRaUplink` over the request table: each record placed in turn. */
  method PlaceRecords(requests: array<ModbusRequest>, requestCount: nat, buffer: array<byte>, mtu: nat,
                      radio: Radio, ghost items: seq<Text>, ghost target: seq<Text>)
    returns (index: nat, ghost sent: seq<Text>)
    requires requestCount <= requests.Length && TableWellFormed(requests[..requestCount])
    requires buffer.Length == 256 && 42 <= mtu <= 242
    requires requestCount < |items| && forall i :: 0 <= i < |items| ==> 0 < |items[i]| <= 42
    requires forall i :: 0 <= i < requestCount ==> items[i] == RecordBytes(requests[..requestCount][i])
    requires ChunkFrom(items, mtu, []) == target
    modifies buffer, radio
    ensures index <= mtu
    ensures sent + ChunkFrom(items[requestCount..], mtu, buffer[..index]) == target
    ensures radio.Abs() == TransmitAll(old(radio.Abs()), Framed(UPLINK_PORT, sent))
  {
    index := 0;
    sent := [];
    ghost var r0 := radio.Abs();
    assert buffer[..0] == [];
    for i := 0 to requestCount
      invariant index <= mtu
      invariant sent + ChunkFrom(items[i..], mtu, buffer[..index]) == target
      invariant radio.Abs() == TransmitAll(r0, Framed(UPLINK_PORT, sent))
    {
      // `index` is a uint8_t; records are at most 42 bytes and the MTU at most 242, so it never wraps.
      assert requests[i] == requests[..requestCount][i];
      var rec := EncodeRecord(requests[i]);
      assert rec == items[i..][0];
      assert items[i..][1..] == items[i + 1..];
      index, sent := PlaceItem(buffer, index, rec, mtu, radio, r0, sent, items[i..], target);
    }
  }

  /** The body of `sendLoRaUplink` past the busy check: every record, then the input section, chunked at `mtu`. */
  method TransmitUplink(requests: array<ModbusRequest>, requestCount: nat, inputs: array<InputConfig>,
                        radio: Radio, mtu: nat)
    requires TableWellFormed(requests[..]) && requestCount <= requests.Length
    requires inputs.Length == INPUT_CHANNELS && 42 <= mtu <= 242
    modifies radio
    ensures radio.Abs() == TransmitAll(old(radio.Abs()), UplinkFrames(requests[..requestCount], inputs[..], mtu))
  {
    var buffer := new byte[256];
    ghost var reqs := requests[..requestCount];
    assert TableWellFormed(reqs) by {
      forall i | 0 <= i < |reqs| ensures WellFormed(reqs[i]) { assert reqs[i] == requests[..][i]; }
    }
    ghost var ins := inputs[..];
    ghost var items := UplinkItems(reqs, ins);
    ghost var target := Chunks(items, mtu);
    assert UplinkFrames(reqs, ins, mtu) == Framed(UPLINK_PORT, target);
    ghost var r0 := radio.Abs();
    var index, sent := PlaceRecords(requests, requestCount, buffer, mtu, radio, items, target);
    var section := EncodeInputSection(inputs);
    assert items[requestCount..] == [section];
    FinishUplink(buffer, index, section, mtu, radio, r0, sent, target);
  }

  /** The input section placed last, and the rest of the buffer sent as the final chunk. */
  method FinishUplink(buffer: array<byte>, index: nat, section: Text, mtu: nat, radio: Radio,
                      ghost r0: RadioState, ghost sent: seq<Text>, ghost target: seq<Text>)
    requires buffer.Length == 256 && index <= mtu <= 242 && 0 < |section| <= mtu
    requires sent + ChunkFrom([section], mtu, buffer[..index]) == target
    requires radio.Abs() == TransmitAll(r0, Framed(UPLINK_PORT, sent))
    modifies buffer, radio
    ensures radio.Abs() == TransmitAll(r0, Framed(UPLINK_PORT, target))
  {
    var last, sentNow := PlaceItem(buffer, index, section, mtu, radio, r0, sent, [section], target);
    assert ChunkFrom([], mtu, buffer[..last]) == [buffer[..last]];
    sentNow := SendChunk(buffer, last, radio, r0, sentNow);
  }

  /** Every uplink has at least one frame: the input section always goes out. */
  lemma UplinkFramesNonEmpty(reqs: seq<ModbusRequest>, inputs: seq<InputConfig>, sf: byte)
    requires TableWellFormed(reqs) && |inputs| == INPUT_CHANNELS
    ensures UplinkFrames(reqs, inputs, GetMaxMTU(sf)) != []
  {
    UplinkFramesShape(reqs, inputs, sf);
  }

  /**
   * What `sendLoRaUplink` does to the radio, the input channels and `uplinkCount`: nothing while
   * a transmission is pending, otherwise the chunks on port 1 at the MTU of the current
   * spreading factor, the counters reset and the count advanced as a `uint16_t`.
   */
  function SendUplinkEffect(s: RadioState, reqs: seq<ModbusRequest>, ins: seq<InputConfig>, uplinkCount: uint16)
    : (r: (RadioState, seq<InputConfig>, uint16))
    requires TableWellFormed(reqs) && |ins| == INPUT_CHANNELS
    ensures s.busy ==> r == (s, ins, uplinkCount)
    ensures !s.busy ==> var frames := UplinkFrames(reqs, ins, GetMaxMTU(GetCurrentSF(s.dataRate)));
      && r.0.outbox == s.outbox + frames
      && r.0.seqnoUp == (s.seqnoUp + |frames|) % SEQNO_MODULUS
    ensures !s.busy ==> r.0 == s.(outbox := r.0.outbox, txComplete := r.0.txComplete, seqnoUp := r.0.seqnoUp)
    ensures !s.busy ==> !r.0.txComplete
    ensures !s.busy ==> r.1 == ResetSpec(ins) && r.2 == (uplinkCount as int + 1) % 0x1_0000 && r.2 != uplinkCount
  {
    if s.busy then (s, ins, uplinkCount)
    else
      var frames := UplinkFrames(reqs, ins, GetMaxMTU(GetCurrentSF(s.dataRate)));
      UplinkFramesNonEmpty(reqs, ins, GetCurrentSF(s.dataRate));
      (TransmitAll(s, frames), ResetSpec(ins),
       (uplinkCount as int + 1) % 0x1_0000)
  }

  /**
   * `sendLoRaUplink`: nothing at all happens while a transmission is pending; otherwise
   * the chunks go out on port 1 at the MTU of the current spreading factor, `uplinkCount`
   * advances (as a `uint16_t`) and the counters are reset.
   */
  method SendLoRaUplink(requests: array<ModbusRequest>, requestCount: nat, inputs: array<InputConfig>,
                        radio: Radio, uplinkCount: uint16) returns (newUplinkCount: uint16)
    requires TableWellFormed(requests[..]) && requestCount <= requests.Length
    requires inputs.Length == INPUT_CHANNELS
    modifies inputs, radio
    ensures (radio.Abs(), inputs[..], newUplinkCount) ==
      SendUplinkEffect(old(radio.Abs()), old(requests[..requestCount]), old(inputs[..]), uplinkCount)
  {
    if radio.busy {
      return uplinkCount;
    }
    var mtu := GetMaxMTU(GetCurrentSF(radio.dataRate));
    TransmitUplink(requests, requestCount, inputs, radio, mtu);
    newUplinkCount := (uplinkCount + 1) % 0x1_0000;
    ResetCounters(inputs);
  }

  // ----- checkAlarmUplink -----

  /** The first pending alarm of a request at or after slot a. */
  function FirstPendingAlarm(req: ModbusRequest, a: nat): (r: Option<nat>)
    requires WellFormed(req)
    ensures r.Some? ==> a <= r.value < req.alarmCount as int && req.alarms[r.value].pending
    ensures r.Some? ==> forall a2 :: a <= a2 < r.value ==> !req.alarms[a2].pending
    ensures r.None? ==> forall a2 :: a <= a2 < req.alarmCount as int ==> !req.alarms[a2].pending
    decreases req.alarmCount as int - a
  {
    if a >= req.alarmCount as int then None
    else if req.alarms[a].pending then Some(a)
    else FirstPendingAlarm(req, a + 1)
  }

  /** `(i2, a2)` comes before `p` in the scan order of `checkAlarmUplink`. */
  predicate Before(i2: nat, a2: nat, p: (nat, nat))
  {
    i2 < p.0 || (i2 == p.0 && a2 < p.1)
  }

  /** The alarm `checkAlarmUplink` picks: the first pending one by request, then by slot. */
  function FindPending(t: seq<ModbusRequest>, count: nat, i: nat): (r: Option<(nat, nat)>)
    requires TableWellFormed(t) && count <= |t|
    ensures r.Some? ==> i <= r.value.0 < count && r.value.1 < t[r.value.0].alarmCount as int
    ensures r.Some? ==> t[r.value.0].alarms[r.value.1].pending
    ensures r.Some? ==> forall i2, a2 :: i <= i2 < count && 0 <= a2 < t[i2].alarmCount as int && Before(i2, a2, r.value) ==>
      !t[i2].alarms[a2].pending
    ensures r.None? ==> forall i2, a2 :: i <= i2 < count && 0 <= a2 < t[i2].alarmCount as int ==>
      !t[i2].alarms[a2].pending
    decreases count - i
  {
    if i >= count then None
    else match FirstPendingAlarm(t[i], 0)
      case Some(a) => Some((i, a))
      case None => FindPending(t, count, i + 1)
  }

  /**
   * The table after `checkAlarmUplink`: the chosen alarm's `pending` is cleared, and every
   * other field, every other slot and every other request stays as it was.
   */
  function DrainTable(t: seq<ModbusRequest>, count: nat): (t2: seq<ModbusRequest>)
    requires TableWellFormed(t) && count <= |t|
    ensures |t2| == |t| && TableWellFormed(t2)
    ensures forall i :: 0 <= i < |t| ==> t2[i] == t[i].(alarms := t2[i].alarms) && |t2[i].alarms| == |t[i].alarms|
    ensures forall i, a :: 0 <= i < |t| && 0 <= a < |t[i].alarms| ==>
      t2[i].alarms[a] == if FindPending(t, count, 0) == Some((i, a)) then t[i].alarms[a].(pending := false)
                         else t[i].alarms[a]
  {
    match FindPending(t, count, 0)
    case None => t
    case Some((i, a)) =>
      t[i := t[i].(alarms := t[i].alarms[a := t[i].alarms[a].(pending := false)])]
  }

  /** The frame sent for the alarm in slot a of request i, with the register's current value. */
  function AlarmFrameAt(t: seq<ModbusRequest>, i: nat, a: nat): Frame
    requires TableWellFormed(t) && i < |t| && a < t[i].alarmCount as int && t[i].alarms[a].pending
  {
    var alarm := t[i].alarms[a];
    Frame(ALARM_PORT, ModbusAlarmFrame(t[i], alarm, t[i].result[alarm.index]))
  }

  /**
   * The frame `checkAlarmUplink` sends on an idle radio: the first pending alarm's frame on
   * port 2, carrying the register's current value, or nothing when no alarm is pending.
   */
  function PendingAlarmFrames(t: seq<ModbusRequest>, count: nat): (f: seq<Frame>)
    requires TableWellFormed(t) && count <= |t|
    ensures |f| <= 1 && (f != [] <==> FindPending(t, count, 0).Some?)
    ensures FindPending(t, count, 0).Some? ==>
      var (i, a) := FindPending(t, count, 0).value;
      f == [Frame(ALARM_PORT, ModbusAlarmFrame(t[i], t[i].alarms[a], t[i].result[t[i].alarms[a].index]))]
  {
    match FindPending(t, count, 0)
    case None => []
    case Some((i, a)) => [AlarmFrameAt(t, i, a)]
  }

  /** The radio after `checkAlarmUplink`: the first pending alarm's frame, and nothing while busy. */
  function AlarmRadioSpec(s: RadioState, t: seq<ModbusRequest>, count: nat): (r: RadioState)
    requires TableWellFormed(t) && count <= |t|
    ensures r == s.(outbox := r.outbox, txComplete := r.txComplete, seqnoUp := r.seqnoUp,
                    savedFrameCounter := r.savedFrameCounter)
    ensures s.busy || FindPending(t, count, 0).None? ==> r == s
    ensures !s.busy ==> r.outbox == s.outbox + PendingAlarmFrames(t, count)
    ensures !s.busy && FindPending(t, count, 0).Some? ==>
      r.txComplete && r.seqnoUp == (s.seqnoUp + 1) % SEQNO_MODULUS && r.savedFrameCounter == Some(r.seqnoUp)
  {
    match FindPending(t, count, 0)
    case None => s
    case Some((i, a)) => SendIfIdleSpec(s, AlarmFrameAt(t, i, a))
  }

  /** An alarm send keeps LMIC's frame counter in step with the frames sent. */
  lemma AlarmSendCountsFrames(s: RadioState, t: seq<ModbusRequest>, count: nat)
    requires TableWellFormed(t) && count <= |t| && CountsFrames(s)
    ensures CountsFrames(AlarmRadioSpec(s, t, count))
  {
    match FindPending(t, count, 0)
    case None =>
    case Some((i, a)) => SendsCountFrames(s, AlarmFrameAt(t, i, a), []);
  }

  method CheckAlarmUplink(requests: array<ModbusRequest>, requestCount: nat, radio: Radio)
    requires TableWellFormed(requests[..]) && requestCount <= requests.Length
    modifies requests, radio
    ensures requests[..] == DrainTable(old(requests[..]), requestCount)
    ensures radio.Abs() == AlarmRadioSpec(old(radio.Abs()), old(requests[..]), requestCount)
  {
    ghost var t := requests[..];
    for i := 0 to requestCount
      invariant unchanged(requests) && unchanged(radio)
      invariant forall i2, a2 :: 0 <= i2 < i && 0 <= a2 < t[i2].alarmCount as int ==> !t[i2].alarms[a2].pending
    {
      var req := requests[i];
      for a := 0 to req.alarmCount as int
        invariant unchanged(requests) && unchanged(radio)
        invariant forall a2 :: 0 <= a2 < a ==> !req.alarms[a2].pending
      {
        var alarm := req.alarms[a];
        if alarm.pending {
          assert FindPending(t, requestCount, 0) == Some((i, a));
          radio.SendIfIdle(ALARM_PORT, ModbusAlarmFrame(req, alarm, req.result[alarm.index]));
          requests[i] := req.(alarms := req.alarms[a := alarm.(pending := false)]);
          return;
        }
      }
    }
  }

  /** The pending alarms of the first `count` requests, as (request, slot) pairs. */
  ghost function PendingSet(t: seq<ModbusRequest>, count: nat): set<(nat, nat)>
    requires TableWellFormed(t) && count <= |t|
  {
    set i: nat, a: nat | i < count && a < t[i].alarmCount as int && t[i].alarms[a].pending :: (i, a)
  }

  /** `checkAlarmUplink` removes exactly the alarm it picks from the pending set, and nothing when none is pending. */
  lemma DrainRemovesExactlyOne(t: seq<ModbusRequest>, count: nat)
    requires TableWellFormed(t) && count <= |t|
    ensures FindPending(t, count, 0).None? ==> PendingSet(t, count) == {} && DrainTable(t, count) == t
    ensures FindPending(t, count, 0).Some? ==>
      var p := FindPending(t, count, 0).value;
      p in PendingSet(t, count) && PendingSet(DrainTable(t, count), count) == PendingSet(t, count) - {p}
    ensures |PendingSet(DrainTable(t, count), count)|
         == if PendingSet(t, count) == {} then 0 else |PendingSet(t, count)| - 1
  {
    var d := DrainTable(t, count);
    match FindPending(t, count, 0)
    case None =>
      if PendingSet(t, count) != {} {
        var p :| p in PendingSet(t, count);
        assert false;
      }
    case Some(p) =>
      assert p in PendingSet(t, count);
      forall q | q in PendingSet(d, count) ensures q in PendingSet(t, count) - {p} {
        assert d[q.0].alarms[q.1].pending;
      }
      forall q | q in PendingSet(t, count) - {p} ensures q in PendingSet(d, count) {
        assert d[q.0].alarms[q.1] == t[q.0].alarms[q.1];
      }
  }

  /** Repeated passes with no new alarms drain the whole pending set, one alarm per pass. */
  function DrainTimes(t: seq<ModbusRequest>, count: nat, k: nat): (t2: seq<ModbusRequest>)
    requires TableWellFormed(t) && count <= |t|
    ensures |t2| == |t| && TableWellFormed(t2)
    decreases k
  {
    if k == 0 then t else DrainTimes(DrainTable(t, count), count, k - 1)
  }

  lemma {:induction false} DrainEmptiesPendingSet(t: seq<ModbusRequest>, count: nat)
    requires TableWellFormed(t) && count <= |t|
    ensures PendingSet(DrainTimes(t, count, |PendingSet(t, count)|), count) == {}
    decreases |PendingSet(t, count)|
  {
    if |PendingSet(t, count)| > 0 {
      DrainRemovesExactlyOne(t, count);
      DrainEmptiesPendingSet(DrainTable(t, count), count);
    }
  }
}
