/**
 * The console of src/serial_editor.cpp: command classification in `executeCommand`, the
 * keystroke handling and history ring of `handleSerialCommand`, `getUserLine`, and the
 * line-list edits of `editFile`. Serial input is a stream of characters; what the console prints
 * and the commands that touch files are not modelled.
 */
module SerialEditor {
  import opened Wrappers

  const LF := '\n'
  const CR := '\r'
  const BS := '\U{8}'
  const DEL := '\U{7F}'
  const ESC := '\U{1B}'

  /** `HISTORY_SIZE` */
  const HISTORY_SIZE := 10

  // ----- String helpers of the Arduino core -----

  /** `isspace` */
  predicate IsSpace(c: char)
  {
    c == ' ' || '\t' <= c <= '\r'
  }

  function TrimStart(s: string): (t: string)
    ensures |t| <= |s|
    ensures t != [] ==> !IsSpace(t[0])
  {
    if s != [] && IsSpace(s[0]) then TrimStart(s[1..]) else s
  }

  function TrimEnd(s: string): (t: string)
    ensures |t| <= |s|
    ensures t != [] ==> !IsSpace(t[|t| - 1])
  {
    if s != [] && IsSpace(s[|s| - 1]) then TrimEnd(s[..|s| - 1]) else s
  }

  /** `String::trim`: white space removed at both ends. */
  function Trim(s: string): (t: string)
    ensures |t| <= |s|
    ensures (s != [] && !IsSpace(s[0]) && !IsSpace(s[|s| - 1])) ==> t == s
  {
    TrimEnd(TrimStart(s))
  }

  predicate StartsWith(s: string, prefix: string)
  {
    |prefix| <= |s| && s[..|prefix|] == prefix
  }

  predicate IsDigit(c: char)
  {
    '0' <= c <= '9'
  }

  /** The number of leading decimal digits. */
  function DigitRun(s: string): (n: nat)
    ensures n <= |s| && forall i :: 0 <= i < n ==> IsDigit(s[i])
    ensures n < |s| ==> !IsDigit(s[n])
  {
    if s == [] || !IsDigit(s[0]) then 0 else 1 + DigitRun(s[1..])
  }

  /** The value of a string of decimal digits, most significant first. */
  function DecimalValue(s: string): nat
    requires forall i :: 0 <= i < |s| ==> IsDigit(s[i])
  {
    if s == [] then 0
    else
      assert IsDigit(s[|s| - 1]);
      10 * DecimalValue(s[..|s| - 1]) + (s[|s| - 1] as int - '0' as int)
  }

  /**
   * `String::toInt`, which is `atol`: white space and one sign skipped, then the leading
   * decimal digits; no digits give 0.
   */
  function ToInt(s: string): int
  {
    var t := TrimStart(s);
    var negative := t != [] && t[0] == '-';
    var u := if t != [] && (t[0] == '+' || t[0] == '-') then t[1..] else t;
    var v: int := DecimalValue(u[..DigitRun(u)]);
    if negative then -v else v
  }

  // ----- executeCommand -----

  /** The commands `executeCommand` tells apart; the path is the text after the prefix. */
  datatype Command =
    | List | View(path: string) | Edit(path: string) | Delete(path: string) | Write(path: string)
    | Shell | Monitor | Help | ResetFs | Reboot | Reload | Unknown

  /** `executeCommand`: the command is trimmed and then classified. */
  function Classify(input: string): Command
  {
    ClassifyTrimmed(Trim(input))
  }

  /** The tests on the trimmed command, in the firmware's order. */
  function ClassifyTrimmed(cmd: string): Command
  {
    if cmd == "list" then List
    else if StartsWith(cmd, "view ") then View(cmd[5..])
    else if StartsWith(cmd, "edit ") then Edit(cmd[5..])
    else if StartsWith(cmd, "delete ") then Delete(cmd[7..])
    else if StartsWith(cmd, "write ") then Write(cmd[6..])
    else if cmd == "shell" then Shell
    else if cmd == "monitor" then Monitor
    else if cmd == "help" then Help
    else if cmd == "resetfs" then ResetFs
    else if cmd == "reboot" then Reboot
    else if cmd == "reload" then Reload
    else Unknown
  }

  /** `shellMode` after a command: set by "shell", cleared by "monitor", kept otherwise. */
  function ShellModeAfter(shellMode: bool, input: string): (r: bool)
  {
    match Classify(input)
    case Shell => true
    case Monitor => false
    case _ => shellMode
  }

  predicate AllSpace(s: string)
  {
    forall i :: 0 <= i < |s| ==> IsSpace(s[i])
  }

  lemma {:induction false} TrimStartPadding(pre: string, rest: string)
    requires AllSpace(pre) && rest != [] && !IsSpace(rest[0])
    ensures TrimStart(pre + rest) == rest
    decreases |pre|
  {
    if pre == [] {
      assert pre + rest == rest;
    } else {
      assert (pre + rest)[1..] == pre[1..] + rest;
      TrimStartPadding(pre[1..], rest);
    }
  }

  lemma {:induction false} TrimEndPadding(rest: string, post: string)
    requires AllSpace(post) && rest != [] && !IsSpace(rest[|rest| - 1])
    ensures TrimEnd(rest + post) == rest
    decreases |post|
  {
    if post == [] {
      assert rest + post == rest;
    } else {
      var shorter := post[..|post| - 1];
      assert (rest + post)[..|rest + post| - 1] == rest + shorter;
      TrimEndPadding(rest, shorter);
    }
  }

  /** White space around a command does not change what it is. */
  lemma TrimPadding(pre: string, cmd: string, post: string)
    requires AllSpace(pre) && AllSpace(post)
    requires cmd != [] && !IsSpace(cmd[0]) && !IsSpace(cmd[|cmd| - 1])
    ensures Trim(pre + cmd + post) == cmd
    ensures Classify(pre + cmd + post) == Classify(cmd) == ClassifyTrimmed(cmd)
  {
    assert pre + cmd + post == pre + (cmd + post);
    TrimStartPadding(pre, cmd + post);
    TrimEndPadding(cmd, post);
  }

  /** "shell" is recognised with any surrounding white space. */
  lemma ShellWord(pre: string, post: string)
    requires AllSpace(pre) && AllSpace(post)
    ensures Classify(pre + "shell" + post) == Shell
  {
    TrimPadding(pre, "shell", post);
    assert !StartsWith("shell", "view ") by { assert "shell"[0] != "view "[0]; }
    assert !StartsWith("shell", "edit ") by { assert "shell"[0] != "edit "[0]; }
  }

  /** "monitor" is recognised with any surrounding white space. */
  lemma MonitorWord(pre: string, post: string)
    requires AllSpace(pre) && AllSpace(post)
    ensures Classify(pre + "monitor" + post) == Monitor
  {
    TrimPadding(pre, "monitor", post);
    assert !StartsWith("monitor", "view ") by { assert "monitor"[0] != "view "[0]; }
    assert !StartsWith("monitor", "edit ") by { assert "monitor"[0] != "edit "[0]; }
    assert !StartsWith("monitor", "delete ") by { assert "monitor"[0] != "delete "[0]; }
    assert !StartsWith("monitor", "write ") by { assert "monitor"[0] != "write "[0]; }
    assert "monitor" != "shell" by { assert "monitor"[0] != "shell"[0]; }
  }

  /** "reload" is recognised with any surrounding white space. */
  lemma ReloadWord(pre: string, post: string)
    requires AllSpace(pre) && AllSpace(post)
    ensures Classify(pre + "reload" + post) == Reload
  {
    TrimPadding(pre, "reload", post);
    assert !StartsWith("reload", "view ") by { assert "reload"[0] != "view "[0]; }
    assert !StartsWith("reload", "edit ") by { assert "reload"[0] != "edit "[0]; }
    assert !StartsWith("reload", "write ") by { assert "reload"[0] != "write "[0]; }
    assert "reload" != "resetfs" by { assert "reload"[2] != "resetfs"[2]; }
    assert "reload" != "reboot" by { assert "reload"[2] != "reboot"[2]; }
  }

  /** "view " and a path name that path; "view" alone is not a command. */
  lemma ViewPath(path: string)
    requires path != [] && !IsSpace(path[|path| - 1])
    ensures Classify("view " + path) == View(path)
    ensures Classify("view") == Unknown
  {
    var cmd := "view " + path;
    assert Trim(cmd) == cmd;
    assert cmd[..5] == "view " && cmd[5..] == path;
    assert cmd != "list" by { assert cmd[0] != "list"[0]; }
    assert Trim("view") == "view";
    assert !StartsWith("view", "delete ") && !StartsWith("view", "write ");
    assert "view" != "list" by { assert "view"[0] != "list"[0]; }
    assert "view" != "help" by { assert "view"[0] != "help"[0]; }
  }

  /** Every shell-mode change comes from one of the two mode words. */
  lemma ShellModeOnlyByModeWords(shellMode: bool, input: string)
    ensures ShellModeAfter(shellMode, input) != shellMode ==>
      (Classify(input) == Shell && !shellMode) || (Classify(input) == Monitor && shellMode)
  {
  }

  // ----- handleSerialCommand -----

  /** The console globals: `commandHistory`, `historyIndex`, `currentHistoryPos` and the static `inputBuffer`. */
  datatype ConsoleState = ConsoleState(history: Ring, historyIndex: Slot, pos: Slot, buffer: string)

  /** An index into the history ring. */
  type Slot = i: int | 0 <= i < HISTORY_SIZE

  /** The contents of `commandHistory[HISTORY_SIZE]`. */
  type Ring = h: seq<string> | |h| == HISTORY_SIZE witness seq(HISTORY_SIZE, _ => [])

  /** Ten empty history slots, written out so that the constant holds no comprehension. */
  const EMPTY_RING: Ring := ["", "", "", "", "", "", "", "", "", ""]

  const INITIAL_CONSOLE := ConsoleState(EMPTY_RING, 0, 0, [])

  /** Enter on a non-empty buffer: store it, advance the ring, reset the browse position, clear the buffer. */
  function EnterSpec(s: ConsoleState): (r: ConsoleState)
    ensures r.history == s.history[s.historyIndex := s.buffer] && r.buffer == []
    ensures r.historyIndex == r.pos == (s.historyIndex + 1) % HISTORY_SIZE
  {
    var next := (s.historyIndex + 1) % HISTORY_SIZE;
    ConsoleState(s.history[s.historyIndex := s.buffer], next, next, [])
  }

  function BackspaceSpec(s: ConsoleState): ConsoleState
  {
    if |s.buffer| > 0 then s.(buffer := s.buffer[..|s.buffer| - 1]) else s
  }

  /** ESC `[` followed by `A` (up) or `B` (down): step the browse position and load that entry. */
  function ArrowSpec(s: ConsoleState, direction: char): (r: ConsoleState)
    ensures r.history == s.history && r.historyIndex == s.historyIndex
    ensures direction == 'A' ==> r.pos == if s.pos == 0 then HISTORY_SIZE - 1 else s.pos - 1
    ensures direction == 'B' ==> r.pos == if s.pos == HISTORY_SIZE - 1 then 0 else s.pos + 1
    ensures direction == 'A' || direction == 'B' ==> r.buffer == s.history[r.pos]
    ensures direction != 'A' && direction != 'B' ==> r == s
  {
    if direction == 'A' then
      var p := (s.pos - 1 + HISTORY_SIZE) % HISTORY_SIZE;
      s.(pos := p, buffer := s.history[p])
    else if direction == 'B' then
      var p := (s.pos + 1) % HISTORY_SIZE;
      s.(pos := p, buffer := s.history[p])
    else s
  }

  /** A character that is typed into the buffer. */
  predicate Plain(c: char)
  {
    c != LF && c != CR && c != DEL && c != BS && c != ESC
  }

  /** What one key does: the new state, how many characters it consumed, the line it ran (if any). */
  datatype Step = Step(state: ConsoleState, used: nat, out: seq<string>)

  predicate PlainText(s: string)
  {
    forall i :: 0 <= i < |s| ==> Plain(s[i])
  }

  /**
   * The key at the front of the input. An ESC not followed by `[` is dropped; ESC `[` at
   * the very end of the input reads no direction.
   */
  function KeyStep(s: ConsoleState, input: string): (st: Step)
    requires input != []
    ensures 1 <= st.used <= |input|
    ensures st.out == [] || (st.out == [s.buffer] && |s.buffer| > 0)
  {
    var c := input[0];
    if c == LF || c == CR then
      if |s.buffer| > 0 then Step(EnterSpec(s), 1, [s.buffer]) else Step(s, 1, [])
    else if c == DEL || c == BS then Step(BackspaceSpec(s), 1, [])
    else if c == ESC then
      if |input| >= 2 && input[1] == '[' then
        if |input| >= 3 then Step(ArrowSpec(s, input[2]), 3, []) else Step(s, 2, [])
      else Step(s, 1, [])
    else Step(s.(buffer := s.buffer + [c]), 1, [])
  }

  /**
   * One `handleSerialCommand` over the characters available: the new console state and
   * the lines handed to `executeCommand`, in order.
   */
  function KeysSpec(s: ConsoleState, input: string): (r: (ConsoleState, seq<string>))
    decreases |input|
  {
    if input == [] then (s, [])
    else
      var st := KeyStep(s, input);
      if st.out == [] then KeysSpec(st.state, input[st.used..])
      else
        var r := KeysSpec(st.state, input[st.used..]);
        (r.0, st.out + r.1)
  }

  /** `KeysSpec` is one `KeyStep` followed by the rest of the input. */
  lemma KeysSpecUnfold(s: ConsoleState, input: string)
    requires input != []
    ensures var st := KeyStep(s, input); var r := KeysSpec(st.state, input[st.used..]);
      KeysSpec(s, input).0 == r.0 && KeysSpec(s, input).1 == st.out + r.1
  {
    var st := KeyStep(s, input);
    if st.out == [] {
      assert st.out + KeysSpec(st.state, input[st.used..]).1 == KeysSpec(st.state, input[st.used..]).1;
    }
  }

  /** Only a non-empty line is ever handed to `executeCommand`. */
  lemma {:induction false} ExecutedLinesNonEmpty(s: ConsoleState, input: string)
    ensures forall k :: 0 <= k < |KeysSpec(s, input).1| ==> |KeysSpec(s, input).1[k]| > 0
    decreases |input|
  {
    if input != [] {
      var st := KeyStep(s, input);
      ExecutedLinesNonEmpty(st.state, input[st.used..]);
    }
  }

  /** A plain key at the front is typed into the buffer. */
  lemma PlainKey(s: ConsoleState, c: char, rest: string)
    requires Plain(c)
    ensures KeysSpec(s, [c] + rest) == KeysSpec(s.(buffer := s.buffer + [c]), rest)
  {
    assert ([c] + rest)[0] == c && ([c] + rest)[1..] == rest;
  }

  /** Enter on a non-empty buffer runs it and then goes on with the rest. */
  lemma EnterKey(s: ConsoleState, rest: string)
    requires |s.buffer| > 0
    ensures var r := KeysSpec(EnterSpec(s), rest); KeysSpec(s, [LF] + rest) == (r.0, [s.buffer] + r.1)
  {
    assert ([LF] + rest)[0] == LF && ([LF] + rest)[1..] == rest;
  }

  lemma BackspaceKey(s: ConsoleState, rest: string)
    ensures KeysSpec(s, [DEL] + rest) == KeysSpec(BackspaceSpec(s), rest)
  {
    assert ([DEL] + rest)[0] == DEL && ([DEL] + rest)[1..] == rest;
  }

  lemma ArrowKey(s: ConsoleState, direction: char, rest: string)
    ensures KeysSpec(s, [ESC, '[', direction] + rest) == KeysSpec(ArrowSpec(s, direction), rest)
  {
    var input := [ESC, '[', direction] + rest;
    assert input[0] == ESC && input[1] == '[' && input[2] == direction && input[3..] == rest;
  }

  /** Typed characters go into the buffer and nothing runs until the line ends. */
  lemma {:induction false} TypingFillsBuffer(s: ConsoleState, text: string, rest: string)
    requires PlainText(text)
    ensures KeysSpec(s, text + rest) == KeysSpec(s.(buffer := s.buffer + text), rest)
    decreases |text|
  {
    if text == [] {
      assert text + rest == rest && s.buffer + text == s.buffer;
      assert s.(buffer := s.buffer + text) == s;
    } else {
      assert text + rest == [text[0]] + (text[1..] + rest);
      PlainKey(s, text[0], text[1..] + rest);
      TypingFillsBuffer(s.(buffer := s.buffer + [text[0]]), text[1..], rest);
      assert s.buffer + [text[0]] + text[1..] == s.buffer + text;
    }
  }

  /**
   * A line typed on an empty buffer and ended with Enter is executed once, stored in the
   * current history slot, and the ring and browse position move to the next slot.
   */
  lemma EnterStoresLine(s: ConsoleState, line: string)
    requires s.buffer == [] && |line| > 0
    requires PlainText(line)
    ensures KeysSpec(s, line + [LF]).1 == [line]
    ensures var r := KeysSpec(s, line + [LF]).0;
      r.history == s.history[s.historyIndex := line] && r.buffer == []
      && r.historyIndex == r.pos == (s.historyIndex + 1) % HISTORY_SIZE
  {
    var typed := s.(buffer := line);
    assert s.buffer + line == line;
    TypingFillsBuffer(s, line, [LF]);
    EnterEndsLine(typed);
  }

  lemma EnterEndsLine(s: ConsoleState)
    requires |s.buffer| > 0
    ensures KeysSpec(s, [LF]).0 == EnterSpec(s) && KeysSpec(s, [LF]).1 == [s.buffer]
  {
    assert [LF] + [] == [LF];
    EnterKey(s, []);
    assert KeysSpec(EnterSpec(s), []) == (EnterSpec(s), []);
    assert [s.buffer] + [] == [s.buffer];
  }

  /** Enter on an empty buffer, and backspace on an empty buffer, change nothing. */
  lemma EmptyKeysChangeNothing(s: ConsoleState)
    requires s.buffer == []
    ensures KeysSpec(s, [LF]) == (s, []) && KeysSpec(s, [CR]) == (s, [])
    ensures KeysSpec(s, [DEL]) == (s, []) && KeysSpec(s, [BS]) == (s, [])
  {
    assert [LF][1..] == [] && [CR][1..] == [] && [DEL][1..] == [] && [BS][1..] == [];
  }

  /** A typed character followed by backspace leaves the console as it was. */
  lemma TypeThenBackspace(s: ConsoleState, c: char)
    requires Plain(c)
    ensures KeysSpec(s, [c, DEL]) == (s, [])
  {
    var s1 := s.(buffer := s.buffer + [c]);
    assert [c, DEL] == [c] + [DEL] && [DEL] == [DEL] + [];
    PlainKey(s, c, [DEL]);
    BackspaceKey(s1, []);
    assert (s.buffer + [c])[..|s.buffer|] == s.buffer;
    assert BackspaceSpec(s1) == s;
  }

  /** Up then down returns to the same history slot and shows its entry, whatever follows. */
  lemma UpThenDown(s: ConsoleState, rest: string)
    ensures KeysSpec(s, [ESC, '[', 'A'] + ([ESC, '[', 'B'] + rest)) == KeysSpec(s.(buffer := s.history[s.pos]), rest)
  {
    ArrowKey(s, 'A', [ESC, '[', 'B'] + rest);
    var up := ArrowSpec(s, 'A');
    ArrowKey(up, 'B', rest);
    var back := ArrowSpec(up, 'B');
    assert back.pos == s.pos;
    assert back.history == s.history && back.historyIndex == s.historyIndex;
    assert back.buffer == s.history[s.pos];
  }

  /** The console of `handleSerialCommand`; `history` is the `commandHistory` array. */
  class Console {
    var history: array<string>
    var historyIndex: Slot
    var currentHistoryPos: Slot
    var inputBuffer: string

    ghost predicate Valid()
      reads this
    {
      history.Length == HISTORY_SIZE
    }

    function State(): ConsoleState
      requires Valid()
      reads this, history
    {
      ConsoleState(history[..], historyIndex, currentHistoryPos, inputBuffer)
    }

    constructor ()
      ensures Valid() && State() == INITIAL_CONSOLE && fresh(history)
    {
      history := new string[HISTORY_SIZE](_ => []);
      historyIndex, currentHistoryPos, inputBuffer := 0, 0, [];
    }

    /** One call: every available character, returning the lines executed. */
    method HandleSerialCommand(input: string) returns (executed: seq<string>)
      requires Valid()
      modifies this, history
      ensures Valid() && history == old(history)
      ensures State() == KeysSpec(old(State()), input).0
      ensures executed == KeysSpec(old(State()), input).1
    {
      ghost var target := KeysSpec(State(), input);
      executed := [];
      var i := 0;
      while i < |input|
        invariant 0 <= i <= |input| && Valid() && history == old(history)
        invariant KeysSpec(State(), input[i..]).0 == target.0
        invariant executed + KeysSpec(State(), input[i..]).1 == target.1
        decreases |input| - i
      {
        ghost var before := executed;
        var used, out := HandleKey(input, i);
        ghost var r := KeysSpec(State(), input[i + used..]);
        executed := executed + out;
        assert executed + r.1 == before + (out + r.1);
        i := i + used;
      }
      assert input[i..] == [];
      assert KeysSpec(State(), input[i..]) == (State(), []);
      assert executed + [] == executed;
    }

    /** The key at `input[i]`, reading ahead after an ESC as the firmware does. */
    method HandleKey(input: string, i: nat) returns (used: nat, out: seq<string>)
      requires Valid() && i < |input|
      modifies this, history
      ensures Valid() && history == old(history)
      ensures Step(State(), used, out) == KeyStep(old(State()), input[i..])
      ensures 1 <= used && i + used <= |input|
      ensures KeysSpec(old(State()), input[i..]).0 == KeysSpec(State(), input[i + used..]).0
      ensures KeysSpec(old(State()), input[i..]).1 == out + KeysSpec(State(), input[i + used..]).1
    {
      ghost var s0 := State();
      KeysSpecUnfold(s0, input[i..]);
      used, out := HandleKeyStep(input, i);
      assert input[i..][used..] == input[i + used..];
    }

    /** The state change of one key, as `KeyStep` describes it. */
    method HandleKeyStep(input: string, i: nat) returns (used: nat, out: seq<string>)
      requires Valid() && i < |input|
      modifies this, history
      ensures Valid() && history == old(history)
      ensures Step(State(), used, out) == KeyStep(old(State()), input[i..])
    {
      var c := input[i];
      ghost var rest := input[i..];
      assert rest[0] == c;
      out := [];
      used := 1;
      if c == LF || c == CR {
        if |inputBuffer| > 0 {
          history[historyIndex] := inputBuffer;
          historyIndex := (historyIndex + 1) % HISTORY_SIZE;
          currentHistoryPos := historyIndex;
          out := [inputBuffer];
          inputBuffer := [];
        }
      } else if c == DEL || c == BS {
        if |inputBuffer| > 0 {
          inputBuffer := inputBuffer[..|inputBuffer| - 1];
        }
      } else if c == ESC {
        if i + 1 < |input| && input[i + 1] == '[' {
          assert rest[1] == '[';
          if i + 2 < |input| {
            var direction := input[i + 2];
            assert rest[2] == direction;
            if direction == 'A' {
              currentHistoryPos := (currentHistoryPos - 1 + HISTORY_SIZE) % HISTORY_SIZE;
              inputBuffer := history[currentHistoryPos];
            } else if direction == 'B' {
              currentHistoryPos := (currentHistoryPos + 1) % HISTORY_SIZE;
              inputBuffer := history[currentHistoryPos];
            }
            used := 3;
          } else {
            used := 2;
          }
        }
      } else {
        inputBuffer := inputBuffer + [c];
      }
    }
  }

  // ----- getUserLine -----

  /**
   * `getUserLine` on the characters that arrive: `\r` ignored, backspace removes the last character,
   * `\n` ends the line. `None` while no `\n` has arrived (the firmware keeps waiting);
   * otherwise the line and the input after the `\n`.
   */
  function UserLine(input: string, acc: string): (r: Option<(string, string)>)
    ensures r.Some? ==> |r.value.1| < |input|
    decreases |input|
  {
    if input == [] then None
    else
      var c := input[0];
      if c == CR then UserLine(input[1..], acc)
      else if c == LF then Some((acc, input[1..]))
      else if c == DEL || c == BS then UserLine(input[1..], if |acc| > 0 then acc[..|acc| - 1] else acc)
      else UserLine(input[1..], acc + [c])
  }

  /** A line without control characters, `\r` or not before the `\n`, is read exactly. */
  lemma {:induction false} UserLineReadsLine(acc: string, text: string, rest: string)
    requires PlainText(text)
    ensures UserLine(text + [LF] + rest, acc) == Some((acc + text, rest))
    ensures UserLine(text + [CR, LF] + rest, acc) == Some((acc + text, rest))
    decreases |text|
  {
    if text == [] {
      assert text + [LF] + rest == [LF] + rest && text + [CR, LF] + rest == [CR, LF] + rest;
      assert acc + text == acc;
      assert ([LF] + rest)[1..] == rest;
      assert ([CR, LF] + rest)[1..] == [LF] + rest;
    } else {
      assert (text + [LF] + rest)[1..] == text[1..] + [LF] + rest;
      assert (text + [CR, LF] + rest)[1..] == text[1..] + [CR, LF] + rest;
      UserLineReadsLine(acc + [text[0]], text[1..], rest);
      assert acc + [text[0]] + text[1..] == acc + text;
    }
  }

  /** `getUserLine` on the stream from position `start`; `complete` is false while it would still be waiting. */
  method GetUserLine(input: string, start: nat) returns (line: string, next: nat, complete: bool)
    requires start <= |input|
    ensures start <= next <= |input|
    ensures complete <==> UserLine(input[start..], []).Some?
    ensures complete ==> UserLine(input[start..], []) == Some((line, input[next..])) && next > start
  {
    line := [];
    var i := start;
    while i < |input|
      invariant start <= i <= |input|
      invariant UserLine(input[i..], line) == UserLine(input[start..], [])
      decreases |input| - i
    {
      var c := input[i];
      assert input[i..][0] == c && input[i..][1..] == input[i + 1..];
      if c == CR {
      } else if c == LF {
        return line, i + 1, true;
      } else if c == DEL || c == BS {
        if |line| > 0 {
          line := line[..|line| - 1];
        }
      } else {
        line := line + [c];
      }
      i := i + 1;
    }
    return line, i, false;
  }

  // ----- editFile -----

  /** The editor commands; an index is `substring(2).toInt()`. */
  datatype EditCommand = Blank | Quit | Save | Append | DeleteLine(n: int) | ReplaceLine(n: int)
                       | InsertAfter(n: int) | Unrecognised

  /** `e4` style shorthand: "e", a digit, and no space after it becomes "e " followed by the rest. */
  function EditShorthand(input: string): (r: string)
    ensures |r| == |input| || |r| == |input| + 1
  {
    // `input[2]` reads the terminating 0 when the text has two characters.
    if StartsWith(input, "e") && |input| > 1 && IsDigit(input[1]) && (|input| == 2 || input[2] != ' ')
    then "e " + input[1..]
    else input
  }

  function ParseEditCommand(raw: string): EditCommand
  {
    var input := EditShorthand(Trim(raw));
    if input == [] then Blank
    else if input == "q" then Quit
    else if input == "s" then Save
    else if input == "a" then Append
    else if StartsWith(input, "d ") then DeleteLine(ToInt(input[2..]))
    else if StartsWith(input, "e ") then ReplaceLine(ToInt(input[2..]))
    else if StartsWith(input, "i ") then InsertAfter(ToInt(input[2..]))
    else Unrecognised
  }

  /** `e4` and `e 4` name the same edit. */
  lemma EditShorthandExamples()
    ensures ParseEditCommand("e4") == ReplaceLine(4)
    ensures ParseEditCommand("e 4") == ReplaceLine(4)
  {
    assert Trim("e4") == "e4";
    assert EditShorthand("e4") == "e 4";
    assert Trim("e 4") == "e 4";
    assert "e 4"[2..] == "4";
    assert TrimStart("4") == "4";
    assert DigitRun("4") == 1 && "4"[..1] == "4";
  }

  /** `e4 5` is not rewritten and is no command. */
  lemma ShorthandNeedsNoSpace()
    ensures ParseEditCommand("e4 5") == Unrecognised
  {
    assert Trim("e4 5") == "e4 5";
    assert EditShorthand("e4 5") == "e4 5";
    assert !StartsWith("e4 5", "d ") by { assert "e4 5"[0] != "d "[0]; }
    assert !StartsWith("e4 5", "e ") by { assert "e4 5"[1] != "e "[1]; }
    assert !StartsWith("e4 5", "i ") by { assert "e4 5"[0] != "i "[0]; }
  }

  /** An index that is not a number reads as 0. */
  lemma NonNumericIndexIsZero()
    ensures ParseEditCommand("d x") == DeleteLine(0)
  {
    assert Trim("d x") == "d x";
    assert "d x"[2..] == "x";
    assert TrimStart("x") == "x";
    assert DigitRun("x") == 0;
  }

  /** The one-letter commands. */
  lemma EditCommandWords()
    ensures ParseEditCommand("q") == Quit && ParseEditCommand("s") == Save && ParseEditCommand("a") == Append
  {
    assert Trim("q") == "q" && Trim("s") == "s" && Trim("a") == "a";
  }

  /** `lines.erase(lines.begin() + n)` behind the `0 <= n < size` check. */
  function RemoveLine(lines: seq<string>, n: int): (r: seq<string>)
    ensures 0 <= n < |lines| ==> r == lines[..n] + lines[n + 1..]
    ensures !(0 <= n < |lines|) ==> r == lines
  {
    if 0 <= n < |lines| then lines[..n] + lines[n + 1..] else lines
  }

  /** `lines.insert(lines.begin() + n + 1, line)` behind the `0 <= n < size` check. */
  function InsertLine(lines: seq<string>, n: int, line: string): (r: seq<string>)
    ensures 0 <= n < |lines| ==> |r| == |lines| + 1 && r[n + 1] == line
    ensures 0 <= n < |lines| ==> r[..n + 1] == lines[..n + 1] && r[n + 2..] == lines[n + 1..]
    ensures !(0 <= n < |lines|) ==> r == lines
  {
    if 0 <= n < |lines| then lines[..n + 1] + [line] + lines[n + 1..] else lines
  }

  /** Deleting the line just inserted restores the list. */
  lemma InsertThenRemove(lines: seq<string>, n: int, line: string)
    requires 0 <= n < |lines|
    ensures RemoveLine(InsertLine(lines, n, line), n + 1) == lines
  {
    var r := InsertLine(lines, n, line);
    assert r[..n + 1] + r[n + 2..] == lines[..n + 1] + lines[n + 1..];
    assert lines[..n + 1] + lines[n + 1..] == lines;
  }

  /** How an editor session ends: "q" without writing, "s" with the lines to write, or still waiting for input. */
  datatype EditOutcome = Quitted | Saved | Waiting

  /** The editor loop over the lines that arrive, one `getUserLine` per command or new line. */
  function EditSession(lines: seq<string>, input: string): (r: (seq<string>, EditOutcome))
    decreases |input|
  {
    match UserLine(input, [])
    case None => (lines, Waiting)
    case Some((raw, rest)) =>
      match ParseEditCommand(raw)
      case Quit => (lines, Quitted)
      case Save => (lines, Saved)
      case Append =>
        (match UserLine(rest, [])
         case None => (lines, Waiting)
         case Some((line, rest2)) => EditSession(lines + [line], rest2))
      case DeleteLine(n) => EditSession(RemoveLine(lines, n), rest)
      case ReplaceLine(n) =>
        if 0 <= n < |lines| then
          (match UserLine(rest, [])
           case None => (lines, Waiting)
           case Some((line, rest2)) => EditSession(lines[n := line], rest2))
        else EditSession(lines, rest)
      case InsertAfter(n) =>
        if 0 <= n < |lines| then
          (match UserLine(rest, [])
           case None => (lines, Waiting)
           case Some((line, rest2)) => EditSession(InsertLine(lines, n, line), rest2))
        else EditSession(lines, rest)
      case _ => EditSession(lines, rest)
  }

  /** A command that reads as "q" ends the session and leaves the lines as they were. */
  lemma QuitKeepsLines(lines: seq<string>, raw: string, rest: string)
    requires PlainText(raw) && ParseEditCommand(raw) == Quit
    ensures EditSession(lines, raw + [LF] + rest) == (lines, Quitted)
  {
    UserLineReadsLine([], raw, rest);
    assert [] + raw == raw;
  }

  /** "a" followed by a line appends exactly that line and goes on with the rest. */
  lemma AppendAddsLine(lines: seq<string>, raw: string, line: string, rest: string)
    requires PlainText(raw) && ParseEditCommand(raw) == Append && PlainText(line)
    ensures EditSession(lines, raw + [LF] + line + [LF] + rest) == EditSession(lines + [line], rest)
  {
    assert raw + [LF] + line + [LF] + rest == raw + [LF] + (line + [LF] + rest);
    UserLineReadsLine([], raw, line + [LF] + rest);
    UserLineReadsLine([], line, rest);
    assert [] + raw == raw && [] + line == line;
  }

  /** A delete, replace or insert whose index is out of range changes nothing and reads no further line. */
  lemma OutOfRangeIgnored(lines: seq<string>, raw: string, rest: string)
    requires PlainText(raw)
    requires var c := ParseEditCommand(raw);
      (c.DeleteLine? || c.ReplaceLine? || c.InsertAfter?) && !(0 <= c.n < |lines|)
    ensures EditSession(lines, raw + [LF] + rest) == EditSession(lines, rest)
  {
    UserLineReadsLine([], raw, rest);
    assert [] + raw == raw;
  }

  /** The editor of `editFile` over the stream, on its own copy of the file's lines. */
  method EditFile(initial: seq<string>, input: string) returns (lines: seq<string>, outcome: EditOutcome)
    ensures (lines, outcome) == EditSession(initial, input)
  {
    lines := initial;
    var pos := 0;
    while true
      invariant pos <= |input|
      invariant EditSession(lines, input[pos..]) == EditSession(initial, input)
      decreases |input| - pos
    {
      var raw, next, complete := GetUserLine(input, pos);
      if !complete {
        return lines, Waiting;
      }
      var command := ParseEditCommand(raw);
      if command == Quit {
        return lines, Quitted;
      }
      if command == Save {
        return lines, Saved;
      }
      if command.Append? || (command.ReplaceLine? && 0 <= command.n < |lines|)
         || (command.InsertAfter? && 0 <= command.n < |lines|) {
        var line, next2, complete2 := GetUserLine(input, next);
        if !complete2 {
          return lines, Waiting;
        }
        if command.Append? {
          lines := lines + [line];
        } else if command.ReplaceLine? {
          lines := lines[command.n := line];
        } else {
          lines := InsertLine(lines, command.n, line);
        }
        pos := next2;
      } else {
        if command.DeleteLine? {
          lines := RemoveLine(lines, command.n);
        }
        pos := next;
      }
    }
  }
}
