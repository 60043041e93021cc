/**
 * The radio side of src/lora.cpp: `initLoRa`, `applyLoRaConfig`, `onEvent` and the
 * hand-over of a payload to LMIC. LMIC itself is abstract: a transmission is one frame
 * appended to `outbox`, and `busy` is `LMIC.opmode & OP_TXRXPEND` as the environment sets it.
 * `seqnoUp` is LMIC's uplink frame counter: every transmission advances it by one.
 */
module LoraRadio {
  import opened Config
  import opened Wrappers
  import opened LoraCodec

  /** The LMIC events `onEvent` distinguishes; `ack` is the `TXRX_ACK` flag, which only decides a message. */
  datatype Event = TxStart | Joining | Joined | TxComplete(ack: bool) | OtherEvent(code: nat)

  /** `LMIC.seqnoUp` is a 32-bit counter. */
  const SEQNO_MODULUS := 0x1_0000_0000

  /** The abstract value of the radio. */
  datatype RadioState = RadioState(
    joined: bool,
    joinStarted: bool,
    session: Option<uint32>,
    txComplete: bool,
    adr: bool,
    subBand: byte,
    dataRate: byte,
    txPower: int,
    busy: bool,
    seqnoUp: uint32,
    savedFrameCounter: Option<uint32>,
    outbox: seq<Frame>)

  /** The joined/OTAA/ABP settings `initLoRa` reads. */
  datatype JoinSettings = JoinSettings(abp: bool, devAddr: uint32, adr: bool, subBand: byte, sf: byte)

  /** `applyLoRaConfig`: with ADR off the configured SF is mapped to a data rate at 14 dBm. */
  function ApplyConfigSpec(s: RadioState, adr: bool, subBand: byte, sf: byte): (r: RadioState)
    ensures r.adr == adr && r.subBand == subBand
    ensures !adr ==> GetCurrentSF(r.dataRate) == (if 7 <= sf <= 12 then sf else 7) && r.txPower == FIXED_TX_POWER
    ensures adr ==> r.dataRate == s.dataRate && r.txPower == s.txPower
    ensures r == s.(adr := adr, subBand := subBand, dataRate := r.dataRate, txPower := r.txPower)
  {
    var s1 := s.(adr := adr, subBand := subBand);
    if adr then s1 else s1.(dataRate := DataRateForSF(sf), txPower := FIXED_TX_POWER)
  }

  /** `initLoRa`: ABP installs the session and counts as joined at once; OTAA starts a join. */
  function InitSpec(s: RadioState, js: JoinSettings): (r: RadioState)
    ensures r.joined <==> js.abp || s.joined
    ensures js.abp ==> r.session == Some(js.devAddr) && r.joinStarted == s.joinStarted
    ensures !js.abp ==> r.joinStarted && r.session == s.session
    ensures r.outbox == s.outbox && r.seqnoUp == s.seqnoUp
  {
    var c := ApplyConfigSpec(s, js.adr, js.subBand, js.sf);
    if js.abp then c.(session := Some(js.devAddr), joined := true) else c.(joinStarted := true)
  }

  /** `onEvent`: EV_JOINED sets `joined`; EV_TXCOMPLETE sets `txComplete` and saves the frame counter. */
  function EventSpec(s: RadioState, ev: Event): (r: RadioState)
    ensures r.outbox == s.outbox && r.busy == s.busy && r.dataRate == s.dataRate && r.seqnoUp == s.seqnoUp
    ensures r.joined <==> s.joined || ev == Joined
    ensures r.txComplete <==> s.txComplete || ev.TxComplete?
    ensures ev.TxComplete? ==> r.savedFrameCounter == Some(s.seqnoUp)
    ensures !ev.TxComplete? ==> r.savedFrameCounter == s.savedFrameCounter
  {
    match ev
    case Joined => s.(joined := true)
    case TxComplete(_) => s.(txComplete := true, savedFrameCounter := Some(s.seqnoUp))
    case _ => s
  }

  /** `LMIC_setTxData2` of one confirmed uplink after `txComplete = false`: the frame takes the next counter value. */
  function TransmitSpec(s: RadioState, f: Frame): (r: RadioState)
    ensures r.outbox == s.outbox + [f] && !r.txComplete
    ensures r.seqnoUp == (s.seqnoUp + 1) % SEQNO_MODULUS
    ensures r == s.(outbox := r.outbox, txComplete := false, seqnoUp := r.seqnoUp)
  {
    s.(txComplete := false, outbox := s.outbox + [f], seqnoUp := (s.seqnoUp + 1) % SEQNO_MODULUS)
  }

  /**
   * A send guarded by the busy check, as both `sendAlarmUplink` overloads make it: nothing
   * happens while a transmission is pending; otherwise the frame goes out and the call waits,
   * with no timeout, until EV_TXCOMPLETE has set `txComplete` again and saved the counter of
   * the frame just sent.
   */
  function SendIfIdleSpec(s: RadioState, f: Frame): (r: RadioState)
    ensures s.busy ==> r == s
    ensures !s.busy ==> r.outbox == s.outbox + [f] && r.txComplete
    ensures !s.busy ==> r.seqnoUp == (s.seqnoUp + 1) % SEQNO_MODULUS && r.savedFrameCounter == Some(r.seqnoUp)
    ensures !s.busy ==> forall ack :: r == EventSpec(TransmitSpec(s, f), TxComplete(ack))
  {
    if s.busy then s
    else
      var sent := TransmitSpec(s, f);
      sent.(txComplete := true, savedFrameCounter := Some(sent.seqnoUp))
  }

  /** Several unguarded sends in order. */
  /** Counting one frame and then `n` more, modulo 2^32, is counting `n + 1`. */
  lemma CounterStep(a: nat, n: nat)
    ensures ((a + 1) % SEQNO_MODULUS + n) % SEQNO_MODULUS == (a + 1 + n) % SEQNO_MODULUS
  {
    var q := (a + 1) / SEQNO_MODULUS;
    assert a + 1 + n == ((a + 1) % SEQNO_MODULUS + n) + q * SEQNO_MODULUS;
  }

  function TransmitAll(s: RadioState, frames: seq<Frame>): (r: RadioState)
    ensures r.outbox == s.outbox + frames
    ensures r.seqnoUp == (s.seqnoUp + |frames|) % SEQNO_MODULUS
    ensures r == s.(outbox := r.outbox, txComplete := r.txComplete, seqnoUp := r.seqnoUp)
    ensures frames != [] ==> !r.txComplete
    ensures frames == [] ==> r == s
    decreases |frames|
  {
    if frames == [] then s
    else
      CounterStep(s.seqnoUp as nat, |frames| - 1);
      TransmitAll(TransmitSpec(s, frames[0]), frames[1..])
  }

  lemma {:induction false} TransmitAllSnoc(s: RadioState, frames: seq<Frame>, f: Frame)
    ensures TransmitAll(s, frames + [f]) == TransmitSpec(TransmitAll(s, frames), f)
    decreases |frames|
  {
    if frames != [] {
      assert (frames + [f])[1..] == frames[1..] + [f];
      TransmitAllSnoc(TransmitSpec(s, frames[0]), frames[1..], f);
    }
  }

  /**
   * Guarded sends one after another. The sends themselves never set `busy` (each waits for
   * its completion), so either all go out or none, and after the last one `txComplete` is set
   * and the counter of the last frame is saved.
   */
  function SendAllIfIdle(s: RadioState, frames: seq<Frame>): (r: RadioState)
    ensures s.busy ==> r == s
    ensures !s.busy ==> r.outbox == s.outbox + frames && r.seqnoUp == (s.seqnoUp + |frames|) % SEQNO_MODULUS
    ensures r == s.(outbox := r.outbox, txComplete := r.txComplete, seqnoUp := r.seqnoUp,
                    savedFrameCounter := r.savedFrameCounter)
    ensures !s.busy && frames != [] ==> r.txComplete && r.savedFrameCounter == Some(r.seqnoUp)
    ensures frames == [] ==> r == s
    decreases |frames|
  {
    if s.busy || frames == [] then s
    else
      CounterStep(s.seqnoUp as nat, |frames| - 1);
      SendAllIfIdle(SendIfIdleSpec(s, frames[0]), frames[1..])
  }

  /** One more guarded send extends the sequence of guarded sends. */
  lemma {:induction false} SendAllIfIdleSnoc(s: RadioState, frames: seq<Frame>, f: Frame)
    ensures SendIfIdleSpec(SendAllIfIdle(s, frames), f) == SendAllIfIdle(s, frames + [f])
    decreases |frames|
  {
    if !s.busy && frames != [] {
      assert (frames + [f])[1..] == frames[1..] + [f];
      SendAllIfIdleSnoc(SendIfIdleSpec(s, frames[0]), frames[1..], f);
    }
  }

  /**
   * LMIC's counter has advanced once per frame handed to it since `LMIC_reset` (modulo 2^32),
   * so no two frames of a run carry the same counter until it wraps.
   */
  predicate CountsFrames(s: RadioState)
  {
    s.seqnoUp == |s.outbox| % SEQNO_MODULUS
  }

  /** Every kind of send keeps the counter in step with the frames sent. */
  lemma {:induction false} SendsCountFrames(s: RadioState, f: Frame, frames: seq<Frame>)
    requires CountsFrames(s)
    ensures CountsFrames(TransmitSpec(s, f)) && CountsFrames(SendIfIdleSpec(s, f))
    ensures CountsFrames(TransmitAll(s, frames)) && CountsFrames(SendAllIfIdle(s, frames))
  {
    var m := SEQNO_MODULUS;
    assert (|s.outbox| % m + 1) % m == (|s.outbox| + 1) % m;
    assert (|s.outbox| % m + |frames|) % m == (|s.outbox| + |frames|) % m;
  }

  /** After a completed guarded send the saved counter is that of the frame just sent: the number of frames sent. */
  lemma SavedCounterIsFrameCount(s: RadioState, f: Frame)
    requires CountsFrames(s) && !s.busy
    ensures SendIfIdleSpec(s, f).savedFrameCounter == Some((|s.outbox| + 1) % SEQNO_MODULUS)
  {
    SendsCountFrames(s, f, []);
  }

  function EventsSpec(s: RadioState, evs: seq<Event>): RadioState
    decreases |evs|
  {
    if evs == [] then s else EventsSpec(EventSpec(s, evs[0]), evs[1..])
  }

  /**
   * Over any event sequence the device ends joined exactly when it was joined already
   * (by ABP or an earlier join) or an EV_JOINED event arrived: no event leaves the joined state.
   */
  lemma {:induction false} JoinedIffJoinedEvent(s: RadioState, evs: seq<Event>)
    ensures EventsSpec(s, evs).joined <==> s.joined || Joined in evs
    ensures EventsSpec(s, evs).outbox == s.outbox && EventsSpec(s, evs).seqnoUp == s.seqnoUp
    decreases |evs|
  {
    if evs != [] {
      JoinedIffJoinedEvent(EventSpec(s, evs[0]), evs[1..]);
      assert evs == [evs[0]] + evs[1..];
    }
  }

  class Radio {
    var joined: bool
    var joinStarted: bool
    var session: Option<uint32>
    /** `volatile bool txComplete` */
    var txComplete: bool
    var adr: bool
    var subBand: byte
    /** `LMIC.datarate` */
    var dataRate: byte
    var txPower: int
    /** `LMIC.opmode & OP_TXRXPEND` */
    var busy: bool
    /** `LMIC.seqnoUp` */
    var seqnoUp: uint32
    /** The last value `saveFrameCounter` wrote. */
    var savedFrameCounter: Option<uint32>
    var outbox: seq<Frame>

    function Abs(): RadioState
      reads this
    {
      RadioState(joined, joinStarted, session, txComplete, adr, subBand, dataRate, txPower, busy,
                 seqnoUp, savedFrameCounter, outbox)
    }

    /** The radio after `LMIC_reset` at the data rate LMIC starts with; `joined` starts false, the counter at 0. */
    constructor (initialDataRate: byte)
      ensures Abs() == RadioState(false, false, None, false, INITIAL_ADR, INITIAL_SUBBAND, initialDataRate,
                                  FIXED_TX_POWER, false, 0, None, [])
    {
      joined, joinStarted, session, txComplete := false, false, None, false;
      adr, subBand, dataRate, txPower := INITIAL_ADR, INITIAL_SUBBAND, initialDataRate, FIXED_TX_POWER;
      busy, seqnoUp, savedFrameCounter, outbox := false, 0, None, [];
    }

    method ApplyLoRaConfig(loraAdr: bool, loraSubBand: byte, loraSF: byte)
      modifies this
      ensures Abs() == ApplyConfigSpec(old(Abs()), loraAdr, loraSubBand, loraSF)
    {
      adr := loraAdr;
      subBand := loraSubBand;
      if !loraAdr {
        if loraSF == 7 { dataRate := DR_SF7; }
        else if loraSF == 8 { dataRate := DR_SF8; }
        else if loraSF == 9 { dataRate := DR_SF9; }
        else if loraSF == 10 { dataRate := DR_SF10; }
        else if loraSF == 11 { dataRate := DR_SF11; }
        else if loraSF == 12 { dataRate := DR_SF12; }
        else { dataRate := DR_SF7; }
        txPower := FIXED_TX_POWER;
      }
    }

    method InitLoRa(js: JoinSettings)
      modifies this
      ensures Abs() == InitSpec(old(Abs()), js)
    {
      ApplyLoRaConfig(js.adr, js.subBand, js.sf);
      if js.abp {
        session := Some(js.devAddr);
        joined := true;
      } else {
        joinStarted := true;
      }
    }

    method OnEvent(ev: Event)
      modifies this
      ensures Abs() == EventSpec(old(Abs()), ev)
    {
      match ev {
        case Joined => joined := true;
        case TxComplete(_) =>
          txComplete := true;
          savedFrameCounter := Some(seqnoUp);
        case _ =>
      }
    }

    /** What the environment reports for `LMIC.opmode` at the start of a loop pass. */
    method SetBusy(b: bool)
      modifies this
      ensures Abs() == old(Abs()).(busy := b)
    {
      busy := b;
    }

    method Transmit(port: byte, payload: Text)
      modifies this
      ensures Abs() == TransmitSpec(old(Abs()), Frame(port, payload))
    {
      txComplete := false;
      outbox := outbox + [Frame(port, payload)];
      seqnoUp := (seqnoUp + 1) % SEQNO_MODULUS;
    }

    /** Both `sendAlarmUplink` overloads: return at once while a transmission is pending. */
    method SendIfIdle(port: byte, payload: Text)
      modifies this
      ensures Abs() == SendIfIdleSpec(old(Abs()), Frame(port, payload))
    {
      if busy { return; }
      Transmit(port, payload);
      // `while (!txComplete) os_runloop_once()` returns once EV_TXCOMPLETE has been handled.
      OnEvent(TxComplete(false));
    }
  }
}
