/**
 * src/main.cpp: `setup` and one pass of `loop` over the firmware's globals. The environment of
 * a pass is a parameter: the characters waiting on the serial port, `millis()`, the files a
 * `reload` reads, the LMIC events `os_runloop_once` delivers, the sampled pins and the Modbus
 * outcomes.
 */
module Gateway {
  import opened Config
  import opened Wrappers
  import opened LoraCodec
  import opened LoraRadio
  import opened Modbus
  import opened Inputs
  import opened LoraUplink
  import opened FlashFs
  import opened SerialEditor

  const TIMER_MODULUS := 0x1_0000_0000

  /**
   * The configuration files as the loaders find them: each one missing, unparsable or parsed.
   * The parsed ethernet.json is its `"mac"` array and the parsed lora.json its `"lora"` object,
   * each `None` when the key is absent.
   */
  datatype FlashFiles = FlashFiles(
    ethernet: Stored<Option<seq<byte>>>,
    lora: Stored<Option<LoraDoc>>,
    modbus: Stored<ModbusDoc>,
    inputs: Stored<seq<InputDoc>>)

  /** The `"mac"` array `configureMACAddressFromJson` sees, after a missing file got its default. */
  function MacField(f: FlashFiles): Option<seq<byte>>
  {
    match Loaded(f.ethernet, Some(DEFAULT_MAC))
    case None => None
    case Some(mac) => mac
  }

  /** The `"lora"` object `configureLoRaFromJson` sees, after a missing file got its default. */
  function LoraObject(f: FlashFiles): Option<LoraDoc>
  {
    match Loaded(f.lora, Some(DEFAULT_LORA_DOC))
    case None => None
    case Some(doc) => doc
  }

  function ModbusDocOf(f: FlashFiles): Option<ModbusDoc>
  {
    Loaded(f.modbus, DEFAULT_MODBUS_DOC)
  }

  function InputsDocOf(f: FlashFiles): Option<seq<InputDoc>>
  {
    Loaded(f.inputs, DEFAULT_INPUTS_DOC)
  }

  /** Every request the validator accepts fits the 16 result slots. */
  predicate FitsTable(f: FlashFiles)
  {
    f.modbus.Parsed? ==> WithinCapacity(f.modbus.doc)
  }

  /** What one pass of `loop` reads from outside the program. */
  datatype Environment = Environment(
    serial: string,
    now: uint32,
    files: FlashFiles,
    events: seq<Event>,
    pins: seq<bool>,
    outcomes: seq<PollOutcome>)

  predicate EnvironmentOK(env: Environment)
  {
    && FitsTable(env.files)
    && |env.pins| == INPUT_CHANNELS
    && |env.outcomes| == MAX_REQUESTS
    && forall i :: 0 <= i < |env.outcomes| ==> ValidOutcome(env.outcomes[i])
  }

  /** The globals of the firmware that `loop` reads or writes. */
  datatype Globals = Globals(
    table: seq<ModbusRequest>,
    requestCount: nat,
    scanInterval: uint32,
    inputs: seq<InputConfig>,
    lora: LoraSettings,
    mac: seq<byte>,
    enableEthernet: bool,
    ethOK: bool,
    lastModbusPoll: uint32,
    lastUplink: uint32,
    uplinkCount: uint16,
    shellMode: bool,
    radio: RadioState,
    console: ConsoleState)

  ghost predicate GlobalsOK(g: Globals)
  {
    && |g.table| == MAX_REQUESTS && TableWellFormed(g.table) && g.requestCount <= MAX_REQUESTS
    && |g.inputs| == INPUT_CHANNELS
  }

  // ----- The interval timers -----

  /** `now - last` on 32-bit `unsigned long`s. */
  function Elapsed(now: uint32, last: uint32): (e: uint32)
    ensures now >= last ==> e == now - last
    ensures now < last ==> e == now + TIMER_MODULUS - last
  {
    (now - last) % TIMER_MODULUS
  }

  predicate Due(now: uint32, last: uint32, interval: uint32)
  {
    Elapsed(now, last) >= interval
  }

  /** The first poll: `lastModbusPoll` starts at 0, so it waits for a full scan interval. */
  lemma FirstPollWaits(now: uint32)
    ensures Due(now, INITIAL_LAST_MODBUS_POLL, INITIAL_SCAN_INTERVAL) <==> now >= 5000
  {
  }

  /**
   * The first uplink: `lastUplink` starts at `-10000`, so with the default interval an uplink
   * is due on every pass before `millis()` first wraps, the very first one included.
   */
  lemma FirstUplinkImmediate(now: uint32)
    ensures Due(now, INITIAL_LAST_UPLINK, INITIAL_UPLINK_INTERVAL) <==> now < TIMER_MODULUS - 10000
  {
    assert Elapsed(now, INITIAL_LAST_UPLINK) == (now + 10000) % TIMER_MODULUS;
  }

  /** A timer keeps firing across the wrap of `millis()`: elapsed time counts through zero. */
  lemma DueAcrossWrap(now: uint32, last: uint32, interval: uint32)
    requires now < last && interval <= now + (TIMER_MODULUS - last)
    ensures Due(now, last, interval)
  {
  }

  // ----- executeCommand: the commands that change the globals -----

  /** A reload, with the corrected loader, keeps the request table well formed. */
  /** The Modbus document `reload` goes on to load, if any, fits the 16 result slots. */
  predicate DocFits(doc: Option<ModbusDoc>)
  {
    doc.Some? ==> WithinCapacity(doc.value)
  }

  lemma LoadedDocFits(f: FlashFiles)
    requires FitsTable(f)
    ensures DocFits(ModbusDocOf(f))
  {
    if f.modbus.Missing? {
      DefaultModbusFits();
    }
  }

  lemma ReloadedTableOK(m: ModbusConfig, f: FlashFiles)
    requires |m.table| == MAX_REQUESTS && TableWellFormed(m.table)
    requires FitsTable(f)
    ensures var r := LoadModbus(m, ModbusDocOf(f)); |r.table| == MAX_REQUESTS && TableWellFormed(r.table)
    ensures ModbusDocOf(f).Some? ==> LoadModbus(m, ModbusDocOf(f)).count <= MAX_REQUESTS
  {
    LoadedDocFits(f);
    if ModbusDocOf(f).Some? {
      LoadModbusWellFormed(m, ModbusDocOf(f).value);
    }
  }

  /** The globals once the four documents `reload` resolved are applied, in its order. */
  function ApplyDocs(g: Globals, mac: Option<seq<byte>>, lora: Option<LoraDoc>,
                     modbus: Option<ModbusDoc>, inputs: Option<seq<InputDoc>>): (r: Globals)
    requires GlobalsOK(g) && DocFits(modbus)
    ensures GlobalsOK(r)
    ensures r.radio == g.radio && r.console == g.console && r.shellMode == g.shellMode
    ensures r.lastModbusPoll == g.lastModbusPoll && r.lastUplink == g.lastUplink && r.uplinkCount == g.uplinkCount
    ensures modbus.None? ==> r.table == g.table && r.requestCount == g.requestCount && r.scanInterval == g.scanInterval
    ensures inputs.None? ==> r.inputs == g.inputs
    ensures lora.None? ==> r.lora == g.lora
  {
    var m := LoadModbus(ModbusConfig(g.table, g.requestCount, g.scanInterval), modbus);
    if modbus.Some? then
      LoadModbusWellFormed(ModbusConfig(g.table, g.requestCount, g.scanInterval), modbus.value);
      g.(mac := ConfigureMac(g.mac, mac), lora := ConfigureLoRa(g.lora, lora),
         table := m.table, requestCount := m.count, scanInterval := m.scanInterval,
         inputs := LoadInputs(g.inputs, inputs))
    else
      g.(mac := ConfigureMac(g.mac, mac), lora := ConfigureLoRa(g.lora, lora),
         inputs := LoadInputs(g.inputs, inputs))
  }

  /**
   * `reload`: `loadModbusConfigFromFlash` (the MAC address, the LoRa settings, then the request
   * table and scan interval) and then `loadInputsConfig`. A missing file is replaced by its
   * default and loaded; a file that does not parse leaves its globals as they were.
   */
  function ReloadSpec(g: Globals, files: FlashFiles): (r: Globals)
    requires GlobalsOK(g) && FitsTable(files)
    ensures GlobalsOK(r)
    ensures r.radio == g.radio && r.console == g.console && r.shellMode == g.shellMode
    ensures r.lastModbusPoll == g.lastModbusPoll && r.lastUplink == g.lastUplink && r.uplinkCount == g.uplinkCount
    ensures files.modbus.Unparsable? ==>
      r.table == g.table && r.requestCount == g.requestCount && r.scanInterval == g.scanInterval
    ensures files.inputs.Unparsable? ==> r.inputs == g.inputs
    ensures files.lora.Unparsable? ==> r.lora == g.lora
  {
    LoadedDocFits(files);
    ApplyDocs(g, MacField(files), LoraObject(files), ModbusDocOf(files), InputsDocOf(files))
  }

  /**
   * A reload where files are missing loads their defaults: the one default request with a
   * 5000 ms scan, a digital channel 0 and a counter channel 1, ABP with a 10000 ms uplink
   * interval on sub-band 4 with ADR and SF10, and the default MAC address.
   */
  lemma ReloadLoadsDefaults(g: Globals, files: FlashFiles)
    requires GlobalsOK(g) && FitsTable(files)
    ensures var r := ReloadSpec(g, files);
      && (files.modbus.Missing? ==>
            r.requestCount == 1 && r.scanInterval == 5000 && LoadedFrom(r.table[0], DEFAULT_MODBUS_DOC.requests[0]))
      && (files.inputs.Missing? ==>
            r.inputs[0].inputType == Digital && r.inputs[0].pin == 14 && r.inputs[0].alarmActive
            && r.inputs[1].inputType == Counter && r.inputs[1].pin == 15 && !r.inputs[1].alarmActive)
      && (files.lora.Missing? ==>
            r.lora.joinAbp && r.lora.uplinkInterval == 10000 && r.lora.subBand == 4 && r.lora.adr && r.lora.sf == 10)
      && (files.ethernet.Missing? ==> r.mac == DEFAULT_MAC)
  {
    var r := ReloadSpec(g, files);
    LoadedDocFits(files);
    assert r == ApplyDocs(g, MacField(files), LoraObject(files), ModbusDocOf(files), InputsDocOf(files));
    if files.modbus.Missing? {
      MissingModbusLoadsDefault(ModbusConfig(g.table, g.requestCount, g.scanInterval));
    }
    if files.inputs.Missing? {
      MissingInputsLoadsDefault(g.inputs);
    }
    if files.lora.Missing? {
      MissingLoraLoadsDefault(g.lora);
    }
    if files.ethernet.Missing? {
      MissingEthernetLoadsDefault(g.mac);
    }
  }

  /** `executeCommand` on one line: only `shell`, `monitor` and `reload` touch the globals. */
  function ExecuteSpec(g: Globals, line: string, files: FlashFiles): (r: Globals)
    requires GlobalsOK(g) && FitsTable(files)
    ensures GlobalsOK(r)
    ensures Classify(line) != Reload ==> r == g.(shellMode := r.shellMode)
    ensures r.shellMode != g.shellMode ==> Classify(line) in {Shell, Monitor}
  {
    if Classify(line) == Reload then ReloadSpec(g, files)
    else g.(shellMode := ShellModeAfter(g.shellMode, line))
  }

  function ExecuteAll(g: Globals, lines: seq<string>, files: FlashFiles): (r: Globals)
    requires GlobalsOK(g) && FitsTable(files)
    ensures GlobalsOK(r)
    decreases |lines|
  {
    if lines == [] then g else ExecuteAll(ExecuteSpec(g, lines[0], files), lines[1..], files)
  }

  /** `handleSerialCommand`: the keys edit the console and every completed line is executed. */
  function SerialSpec(g: Globals, serial: string, files: FlashFiles): (r: Globals)
    requires GlobalsOK(g) && FitsTable(files)
    ensures GlobalsOK(r)
    ensures r.radio == g.radio && r.console == KeysSpec(g.console, serial).0
    ensures r.lastModbusPoll == g.lastModbusPoll && r.lastUplink == g.lastUplink && r.uplinkCount == g.uplinkCount
  {
    var k := KeysSpec(g.console, serial);
    ExecuteAllKeepsRadio(g.(console := k.0), k.1, files);
    ExecuteAll(g.(console := k.0), k.1, files)
  }

  // ----- The joined part of loop -----

  /** `checkAlarmUplink` then `handleDigitalInputs`. */
  function AlarmsSpec(g: Globals, pins: seq<bool>): (r: Globals)
    requires GlobalsOK(g) && |pins| == INPUT_CHANNELS
    ensures GlobalsOK(r)
    ensures r == g.(table := r.table, inputs := r.inputs, radio := r.radio)
    ensures r.requestCount == g.requestCount && r.radio.busy == g.radio.busy && r.radio.dataRate == g.radio.dataRate
  {
    var h := HandleInputsSpec(g.inputs, pins);
    g.(table := DrainTable(g.table, g.requestCount),
       radio := SendAllIfIdle(AlarmRadioSpec(g.radio, g.table, g.requestCount), h.1),
       inputs := h.0)
  }

  /** The poll check: `pollModbus` and a new `lastModbusPoll` exactly when the scan interval has elapsed. */
  function PollSpec(g: Globals, now: uint32, outcomes: seq<PollOutcome>): (r: Globals)
    requires GlobalsOK(g) && |outcomes| == MAX_REQUESTS
    requires forall i :: 0 <= i < |outcomes| ==> ValidOutcome(outcomes[i])
    ensures GlobalsOK(r)
    ensures r == g.(table := r.table, lastModbusPoll := r.lastModbusPoll)
    ensures r.radio == g.radio && r.requestCount == g.requestCount
  {
    if Due(now, g.lastModbusPoll, g.scanInterval) then
      g.(lastModbusPoll := now,
         table := PollTable(g.table, g.requestCount, g.enableEthernet && g.ethOK, outcomes))
    else g
  }

  /** `sendLoRaUplink` as the uplink check calls it; a pending transmission makes it do nothing. */
  function SendUplinkSpec(g: Globals): (r: Globals)
    requires GlobalsOK(g)
    ensures GlobalsOK(r)
    ensures r == g.(radio := r.radio, inputs := r.inputs, uplinkCount := r.uplinkCount)
    ensures g.radio.busy ==> r == g
    ensures !g.radio.busy ==>
      r.radio.outbox == g.radio.outbox + UplinkFrames(g.table[..g.requestCount], g.inputs, GetMaxMTU(GetCurrentSF(g.radio.dataRate)))
  {
    var e := SendUplinkEffect(g.radio, g.table[..g.requestCount], g.inputs, g.uplinkCount);
    g.(radio := e.0, inputs := e.1, uplinkCount := e.2)
  }

  /** The uplink check: `lastUplink` is set before `sendLoRaUplink` runs, busy or not. */
  function UplinkSpec(g: Globals, now: uint32): (r: Globals)
    requires GlobalsOK(g)
    ensures GlobalsOK(r)
    ensures r.lastModbusPoll == g.lastModbusPoll
    ensures r.lastUplink == (if Due(now, g.lastUplink, g.lora.uplinkInterval) then now else g.lastUplink)
    ensures r.uplinkCount != g.uplinkCount <==> Due(now, g.lastUplink, g.lora.uplinkInterval) && !g.radio.busy
  {
    if Due(now, g.lastUplink, g.lora.uplinkInterval) then SendUplinkSpec(g.(lastUplink := now)) else g
  }

  function JoinedSpec(g: Globals, env: Environment): (r: Globals)
    requires GlobalsOK(g) && EnvironmentOK(env)
    ensures GlobalsOK(r)
  {
    UplinkSpec(PollSpec(AlarmsSpec(g, env.pins), env.now, env.outcomes), env.now)
  }

  /** One pass of `loop`. */
  function TickSpec(g: Globals, env: Environment): (r: Globals)
    requires GlobalsOK(g) && EnvironmentOK(env)
    ensures GlobalsOK(r)
  {
    var g1 := SerialSpec(g, env.serial, env.files);
    if g1.shellMode then g1
    else if !g1.radio.joined then g1.(radio := EventsSpec(g1.radio, env.events))
    else JoinedSpec(g1, env)
  }

  // ----- Properties of a pass -----

  /** Executing commands never touches the radio, the timers or the uplink counter. */
  lemma {:induction false} ExecuteAllKeepsRadio(g: Globals, lines: seq<string>, files: FlashFiles)
    requires GlobalsOK(g) && FitsTable(files)
    ensures var r := ExecuteAll(g, lines, files);
      && r.radio == g.radio && r.console == g.console
      && r.lastModbusPoll == g.lastModbusPoll && r.lastUplink == g.lastUplink && r.uplinkCount == g.uplinkCount
    decreases |lines|
  {
    if lines != [] {
      ExecuteAllKeepsRadio(ExecuteSpec(g, lines[0], files), lines[1..], files);
    }
  }

  /**
   * In shell mode a pass does nothing but serial handling: no frame is sent, no timer moves,
   * no poll or uplink happens.
   */
  lemma ShellPassSendsNothing(g: Globals, env: Environment)
    requires GlobalsOK(g) && EnvironmentOK(env)
    requires SerialSpec(g, env.serial, env.files).shellMode
    ensures var r := TickSpec(g, env);
      && r.radio == g.radio
      && r.lastModbusPoll == g.lastModbusPoll && r.lastUplink == g.lastUplink && r.uplinkCount == g.uplinkCount
  {
    var k := KeysSpec(g.console, env.serial);
    ExecuteAllKeepsRadio(g.(console := k.0), k.1, env.files);
  }

  /**
   * Before the join completes a pass sends nothing and samples, polls and uplinks nothing; it
   * only lets LMIC handle its events, and it ends joined exactly when EV_JOINED was among them.
   */
  lemma UnjoinedPassSendsNothing(g: Globals, env: Environment)
    requires GlobalsOK(g) && EnvironmentOK(env)
    requires !g.radio.joined
    ensures var g1 := SerialSpec(g, env.serial, env.files); var r := TickSpec(g, env);
      && r.radio.outbox == g.radio.outbox
      && r.lastModbusPoll == g.lastModbusPoll && r.lastUplink == g.lastUplink && r.uplinkCount == g.uplinkCount
      && r.table == g1.table && r.inputs == g1.inputs
      && (!g1.shellMode ==> (r.radio.joined <==> Joined in env.events))
  {
    var k := KeysSpec(g.console, env.serial);
    ExecuteAllKeepsRadio(g.(console := k.0), k.1, env.files);
    var g1 := SerialSpec(g, env.serial, env.files);
    JoinedIffJoinedEvent(g1.radio, env.events);
  }

  /**
   * The two timers of a joined pass: each restarts exactly when its own interval has elapsed,
   * measured from the same `now`, and neither depends on the other.
   */
  lemma JoinedTimers(g: Globals, env: Environment)
    requires GlobalsOK(g) && EnvironmentOK(env)
    ensures var r := JoinedSpec(g, env);
      && r.lastModbusPoll == (if Due(env.now, g.lastModbusPoll, g.scanInterval) then env.now else g.lastModbusPoll)
      && r.lastUplink == (if Due(env.now, g.lastUplink, g.lora.uplinkInterval) then env.now else g.lastUplink)
      && (r.uplinkCount != g.uplinkCount <==> Due(env.now, g.lastUplink, g.lora.uplinkInterval) && !g.radio.busy)
  {
    var a := AlarmsSpec(g, env.pins);
    var p := PollSpec(a, env.now, env.outcomes);
    assert p.lastUplink == g.lastUplink && p.lora == g.lora && p.uplinkCount == g.uplinkCount;
    assert p.radio.busy == g.radio.busy;
  }

  /** The same timers for a whole pass of `loop` that is joined and not in shell mode. */
  lemma JoinedPassTimers(g: Globals, env: Environment)
    requires GlobalsOK(g) && EnvironmentOK(env)
    requires g.radio.joined && !SerialSpec(g, env.serial, env.files).shellMode
    ensures var g1 := SerialSpec(g, env.serial, env.files); var r := TickSpec(g, env);
      && r.lastModbusPoll == (if Due(env.now, g.lastModbusPoll, g1.scanInterval) then env.now else g.lastModbusPoll)
      && r.lastUplink == (if Due(env.now, g.lastUplink, g1.lora.uplinkInterval) then env.now else g.lastUplink)
      && (r.uplinkCount != g.uplinkCount <==> Due(env.now, g.lastUplink, g1.lora.uplinkInterval) && !g.radio.busy)
  {
    var k := KeysSpec(g.console, env.serial);
    ExecuteAllKeepsRadio(g.(console := k.0), k.1, env.files);
    var g1 := SerialSpec(g, env.serial, env.files);
    JoinedTimers(g1, env);
  }

  /**
   * The frames of the joined part, in order: the first pending Modbus alarm, the input alarms, and
   * the uplink chunks when the uplink is due. Nothing goes out while a transmission is pending.
   */
  lemma JoinedFrames(g: Globals, env: Environment)
    requires GlobalsOK(g) && EnvironmentOK(env)
    ensures g.radio.busy ==> JoinedSpec(g, env).radio.outbox == g.radio.outbox
    ensures !g.radio.busy ==>
      var a := AlarmsSpec(g, env.pins);
      var p := PollSpec(a, env.now, env.outcomes);
      JoinedSpec(g, env).radio.outbox
        == g.radio.outbox + PendingAlarmFrames(g.table, g.requestCount) + HandleInputsSpec(g.inputs, env.pins).1 +
         (if Due(env.now, g.lastUplink, g.lora.uplinkInterval)
          then UplinkFrames(p.table[..p.requestCount], a.inputs, GetMaxMTU(GetCurrentSF(g.radio.dataRate)))
          else [])
  {
    var a := AlarmsSpec(g, env.pins);
    var p := PollSpec(a, env.now, env.outcomes);
    var s1 := AlarmRadioSpec(g.radio, g.table, g.requestCount);
    assert p.radio == a.radio && p.lastUplink == g.lastUplink && p.lora == g.lora;
    assert a.radio == SendAllIfIdle(s1, HandleInputsSpec(g.inputs, env.pins).1);
  }

  /** The alarm part of a joined pass keeps the frame counter in step with the frames sent. */
  lemma AlarmsCountFrames(g: Globals, pins: seq<bool>)
    requires GlobalsOK(g) && |pins| == INPUT_CHANNELS && CountsFrames(g.radio)
    ensures CountsFrames(AlarmsSpec(g, pins).radio)
  {
    var s1 := AlarmRadioSpec(g.radio, g.table, g.requestCount);
    AlarmSendCountsFrames(g.radio, g.table, g.requestCount);
    SendsCountFrames(s1, Frame(0, []), HandleInputsSpec(g.inputs, pins).1);
  }

  /** So does the uplink check. */
  lemma UplinkCountsFrames(g: Globals, now: uint32)
    requires GlobalsOK(g) && CountsFrames(g.radio)
    ensures CountsFrames(UplinkSpec(g, now).radio)
  {
    SendsCountFrames(g.radio, Frame(0, []),
                     UplinkFrames(g.table[..g.requestCount], g.inputs, GetMaxMTU(GetCurrentSF(g.radio.dataRate))));
  }

  /**
   * Every pass keeps LMIC's frame counter equal to the number of frames sent since reset, so a
   * counter saved after a completed alarm send is never that of an earlier frame.
   */
  lemma TickCountsFrames(g: Globals, env: Environment)
    requires GlobalsOK(g) && EnvironmentOK(env) && CountsFrames(g.radio)
    ensures CountsFrames(TickSpec(g, env).radio)
  {
    var k := KeysSpec(g.console, env.serial);
    ExecuteAllKeepsRadio(g.(console := k.0), k.1, env.files);
    var g1 := SerialSpec(g, env.serial, env.files);
    if !g1.shellMode && !g1.radio.joined {
      JoinedIffJoinedEvent(g1.radio, env.events);
    } else if !g1.shellMode {
      AlarmsCountFrames(g1, env.pins);
      var a := AlarmsSpec(g1, env.pins);
      UplinkCountsFrames(PollSpec(a, env.now, env.outcomes), env.now);
    }
  }

  /** A joined pass outside shell mode runs the joined part on the globals serial handling left, radio untouched. */
  lemma JoinedPassRunsJoinedPart(g: Globals, env: Environment)
    requires GlobalsOK(g) && EnvironmentOK(env)
    requires g.radio.joined && !SerialSpec(g, env.serial, env.files).shellMode
    ensures var g1 := SerialSpec(g, env.serial, env.files);
      TickSpec(g, env) == JoinedSpec(g1, env) && g1.radio == g.radio
  {
    var k := KeysSpec(g.console, env.serial);
    ExecuteAllKeepsRadio(g.(console := k.0), k.1, env.files);
  }

  // ----- setup -----

  /** The globals before `setup`: src/config.cpp's initial values and a freshly reset radio. */
  function InitialGlobals(resetDataRate: byte): (g: Globals)
    ensures GlobalsOK(g)
  {
    Globals(InitialRequests(), INITIAL_REQUEST_COUNT, INITIAL_SCAN_INTERVAL, InitialInputs(), INITIAL_LORA,
            INITIAL_MAC, true, false, INITIAL_LAST_MODBUS_POLL, INITIAL_LAST_UPLINK, 0, false,
            RadioState(false, false, None, false, INITIAL_ADR, INITIAL_SUBBAND, resetDataRate,
                       FIXED_TX_POWER, false, 0, None, []),
            INITIAL_CONSOLE)
  }

  /** `initEthernet`: nothing when Ethernet is disabled, otherwise `ethOK` says whether it came up. */
  function EthernetSpec(g: Globals, ethernetUp: bool): Globals
  {
    if g.enableEthernet then g.(ethOK := ethernetUp) else g
  }

  /** The settings `initLoRa` and `applyLoRaConfig` read. */
  function JoinSettingsOf(l: LoraSettings): JoinSettings
  {
    JoinSettings(l.joinAbp, l.devAddr, l.adr, l.subBand, l.sf)
  }

  function SetupSpec(g: Globals, files: FlashFiles, ethernetUp: bool): (r: Globals)
    requires GlobalsOK(g) && FitsTable(files)
    ensures GlobalsOK(r)
    ensures r.radio.outbox == g.radio.outbox && r.console == g.console && r.shellMode == g.shellMode
    ensures r.lastModbusPoll == g.lastModbusPoll && r.lastUplink == g.lastUplink && r.uplinkCount == g.uplinkCount
  {
    var e := EthernetSpec(ReloadSpec(g, files), ethernetUp);
    e.(radio := InitSpec(e.radio, JoinSettingsOf(e.lora)))
  }

  /**
   * After `setup` nothing has been sent, the console is empty and shell mode is off; the device
   * counts as joined exactly in ABP mode, and Modbus is reachable exactly when Ethernet came up.
   */
  lemma SetupState(resetDataRate: byte, files: FlashFiles, ethernetUp: bool)
    requires FitsTable(files)
    ensures var r := SetupSpec(InitialGlobals(resetDataRate), files, ethernetUp);
      && r.radio.outbox == [] && !r.shellMode && r.console == INITIAL_CONSOLE
      && (r.radio.joined <==> r.lora.joinAbp)
      && r.ethOK == ethernetUp
      && r.lastModbusPoll == INITIAL_LAST_MODBUS_POLL && r.lastUplink == INITIAL_LAST_UPLINK && r.uplinkCount == 0
      && CountsFrames(r.radio)
  {
    var g := InitialGlobals(resetDataRate);
    assert g.radio.seqnoUp == 0 && g.radio.outbox == [];
    assert CountsFrames(g.radio);
    var e := EthernetSpec(ReloadSpec(g, files), ethernetUp);
    assert e.radio == g.radio && e.ethOK == ethernetUp;
    assert SetupSpec(g, files, ethernetUp) == e.(radio := InitSpec(e.radio, JoinSettingsOf(e.lora)));
  }

  // ----- The globals as objects -----

  class Device {
    const requests: array<ModbusRequest>
    var requestCount: nat
    /** `MODBUS_SCAN_INTERVAL` */
    var scanInterval: uint32
    /** `inputConfigs` */
    const inputs: array<InputConfig>
    /** The globals `configureLoRaFromJson` sets, `LORA_UPLINK_INTERVAL` among them. */
    var lora: LoraSettings
    /** `MAC_ADDR` */
    var mac: seq<byte>
    var enableEthernet: bool
    var ethOK: bool
    var lastModbusPoll: uint32
    var lastUplink: uint32
    var uplinkCount: uint16
    var shellMode: bool
    const radio: Radio
    const console: Console

    ghost predicate Valid()
      reads this, requests, console
    {
      && requests.Length == MAX_REQUESTS && TableWellFormed(requests[..]) && requestCount <= MAX_REQUESTS
      && inputs.Length == INPUT_CHANNELS && console.Valid()
    }

    function Abs(): Globals
      requires Valid()
      reads this, requests, inputs, radio, console, console.history
    {
      Globals(requests[..], requestCount, scanInterval, inputs[..], lora, mac, enableEthernet, ethOK,
              lastModbusPoll, lastUplink, uplinkCount, shellMode, radio.Abs(), console.State())
    }

    /** The globals with the initial values src/config.cpp gives them, and the radio after `LMIC_reset`. */
    constructor (resetDataRate: byte)
      ensures Valid() && fresh(requests) && fresh(inputs) && fresh(radio) && fresh(console) && fresh(console.history)
      ensures Abs() == InitialGlobals(resetDataRate)
    {
      requests := new ModbusRequest[MAX_REQUESTS](i requires 0 <= i < MAX_REQUESTS => InitialRequests()[i]);
      inputs := new InputConfig[INPUT_CHANNELS](i requires 0 <= i < INPUT_CHANNELS => InitialInputs()[i]);
      requestCount, scanInterval := INITIAL_REQUEST_COUNT, INITIAL_SCAN_INTERVAL;
      lora, mac := INITIAL_LORA, INITIAL_MAC;
      enableEthernet, ethOK := true, false;
      lastModbusPoll, lastUplink, uplinkCount, shellMode := INITIAL_LAST_MODBUS_POLL, INITIAL_LAST_UPLINK, 0, false;
      radio := new Radio(resetDataRate);
      console := new Console();
      new;
      assert requests[..] == InitialRequests();
      assert inputs[..] == InitialInputs();
    }

    /**
     * `setup`: the configuration is loaded, Ethernet comes up (or not, as `ethernetUp` says),
     * and `initLoRa` applies the LoRa settings.
     */
    method Setup(files: FlashFiles, ethernetUp: bool)
      requires Valid() && FitsTable(files)
      modifies this, requests, inputs, radio
      ensures Valid() && Abs() == SetupSpec(old(Abs()), files, ethernetUp)
    {
      ReloadConfig(files);
      InitEthernet(ethernetUp);
      InitLoRa();
    }

    /** `initLoRa`: the radio takes the LoRa settings now in the globals. */
    method InitLoRa()
      requires Valid()
      modifies radio
      ensures Valid() && Abs() == old(Abs()).(radio := InitSpec(old(radio.Abs()), JoinSettingsOf(lora)))
    {
      radio.InitLoRa(JoinSettingsOf(lora));
    }

    /** `initEthernet`, which returns at once when Ethernet is disabled, leaving `ethOK` as it was. */
    method InitEthernet(ethernetUp: bool)
      requires Valid()
      modifies this
      ensures Valid() && Abs() == EthernetSpec(old(Abs()), ethernetUp)
    {
      if enableEthernet {
        ethOK := ethernetUp;
      }
    }

    /** The `reload` command. */
    method ReloadConfig(files: FlashFiles)
      requires Valid() && FitsTable(files)
      modifies this, requests, inputs
      ensures Valid() && Abs() == ReloadSpec(old(Abs()), files)
    {
      LoadedDocFits(files);
      ApplyConfig(MacField(files), LoraObject(files), ModbusDocOf(files), InputsDocOf(files));
    }

    /** The four resolved documents applied to the globals. */
    method ApplyConfig(macDoc: Option<seq<byte>>, loraDoc: Option<LoraDoc>,
                       modbusDoc: Option<ModbusDoc>, inputsDoc: Option<seq<InputDoc>>)
      requires Valid() && DocFits(modbusDoc)
      modifies this, requests, inputs
      ensures Valid() && Abs() == ApplyDocs(old(Abs()), macDoc, loraDoc, modbusDoc, inputsDoc)
    {
      ghost var r := ApplyDocs(Abs(), macDoc, loraDoc, modbusDoc, inputsDoc);
      mac := ConfigureMac(mac, macDoc);
      lora := ConfigureLoRa(lora, loraDoc);
      requestCount, scanInterval := LoadModbusConfig(requests, requestCount, scanInterval, modbusDoc);
      LoadInputsConfig(inputs, inputsDoc);
      assert requests[..] == r.table;
    }

    /** `executeCommand` for the commands that change the globals; the others leave them alone. */
    method ExecuteCommand(line: string, files: FlashFiles)
      requires Valid() && FitsTable(files)
      modifies this, requests, inputs
      ensures Valid() && Abs() == ExecuteSpec(old(Abs()), line, files)
    {
      var cmd := Classify(line);
      if cmd == Shell {
        shellMode := true;
      } else if cmd == Monitor {
        shellMode := false;
      } else if cmd == Reload {
        ReloadConfig(files);
      }
    }

    method ExecuteCommands(lines: seq<string>, files: FlashFiles)
      requires Valid() && FitsTable(files)
      modifies this, requests, inputs
      ensures Valid() && Abs() == ExecuteAll(old(Abs()), lines, files)
    {
      ghost var g := Abs();
      for k := 0 to |lines|
        invariant Valid() && ExecuteAll(Abs(), lines[k..], files) == ExecuteAll(g, lines, files)
      {
        assert lines[k..][0] == lines[k] && lines[k..][1..] == lines[k + 1..];
        ExecuteCommand(lines[k], files);
      }
    }

    /** `handleSerialCommand`, executing each completed line as it is entered. */
    method SerialStep(serial: string, files: FlashFiles)
      requires Valid() && FitsTable(files)
      modifies this, requests, inputs, console, console.history
      ensures Valid() && Abs() == SerialSpec(old(Abs()), serial, files)
    {
      ghost var g := Abs();
      var executed := console.HandleSerialCommand(serial);
      assert Abs() == g.(console := KeysSpec(g.console, serial).0);
      ExecuteCommands(executed, files);
    }

    /** `checkAlarmUplink(); handleDigitalInputs();` */
    method AlarmStep(pins: seq<bool>)
      requires Valid() && |pins| == INPUT_CHANNELS
      modifies requests, inputs, radio
      ensures Valid() && Abs() == AlarmsSpec(old(Abs()), pins)
    {
      CheckAlarmUplink(requests, requestCount, radio);
      HandleDigitalInputs(inputs, pins, radio);
    }

    method PollStep(now: uint32, outcomes: seq<PollOutcome>)
      requires Valid() && |outcomes| == MAX_REQUESTS
      requires forall i :: 0 <= i < |outcomes| ==> ValidOutcome(outcomes[i])
      modifies this, requests
      ensures Valid() && Abs() == PollSpec(old(Abs()), now, outcomes)
    {
      if (now - lastModbusPoll) % TIMER_MODULUS >= scanInterval {
        lastModbusPoll := now;
        var connects := PollModbus(requests, requestCount, enableEthernet, ethOK, outcomes);
      }
    }

    method UplinkStep(now: uint32)
      requires Valid()
      modifies this, inputs, radio
      ensures Valid() && Abs() == UplinkSpec(old(Abs()), now)
    {
      if (now - lastUplink) % TIMER_MODULUS >= lora.uplinkInterval {
        StampUplink(now);
        SendUplink();
      }
    }

    /** `lastUplink = now`. */
    method StampUplink(now: uint32)
      requires Valid()
      modifies this
      ensures Valid() && Abs() == old(Abs()).(lastUplink := now)
    {
      lastUplink := now;
    }

    /** `sendLoRaUplink` on the globals, with `uplinkCount` taking the count it returns. */
    method SendUplink()
      requires Valid()
      modifies this, inputs, radio
      ensures Valid() && Abs() == SendUplinkSpec(old(Abs()))
    {
      ghost var g := Abs();
      ghost var reqs := requests[..requestCount];
      uplinkCount := SendLoRaUplink(requests, requestCount, inputs, radio, uplinkCount);
      assert reqs == g.table[..g.requestCount];
    }

    /** `os_runloop_once` while not joined: LMIC delivers its events to `onEvent`. */
    method RunLmic(events: seq<Event>)
      requires Valid()
      modifies radio
      ensures Valid() && Abs() == old(Abs()).(radio := EventsSpec(old(radio.Abs()), events))
    {
      ghost var s := radio.Abs();
      for k := 0 to |events|
        invariant EventsSpec(radio.Abs(), events[k..]) == EventsSpec(s, events)
      {
        assert events[k..][0] == events[k] && events[k..][1..] == events[k + 1..];
        radio.OnEvent(events[k]);
      }
    }

    /** One pass of `loop`. */
    method Loop(env: Environment)
      requires Valid() && EnvironmentOK(env)
      modifies this, requests, inputs, radio, console, console.history
      ensures Valid() && Abs() == TickSpec(old(Abs()), env)
    {
      SerialStep(env.serial, env.files);
      if shellMode {
        return;
      }
      var now := env.now;
      if !radio.joined {
        RunLmic(env.events);
        return;
      }
      AlarmStep(env.pins);
      PollStep(now, env.outcomes);
      UplinkStep(now);
    }
  }
}
