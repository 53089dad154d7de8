/** The port reaper (scripts/kill_ports.py): reading the two service ports from
    `.env.ports` with defaults, and sending SIGTERM to every process `lsof`
    lists on each port, one port at a time, an error on one port being
    reported without stopping the others. */
module PortReaper {
  import opened Common
  import opened PyText

  /** The `ports` dictionary: `FLASK` and `STREAMLIT`. */
  datatype Ports = Ports(flask: int, streamlit: int)

  const Defaults := Ports(5001, 8501)

  /** The ValueErrors a config line can raise: more than one `=` (tuple unpacking),
      or a recognised key whose value `int()` rejects. */
  datatype ConfigError = UnpackError | NotAnInteger

  /** One line of the file: lines without `=` and unrecognised keys change nothing;
      the stripped line must split on `=` into exactly a key and a value. */
  function ApplyLine(p: Ports, line: string): (r: Result<Ports, ConfigError>)
    ensures '=' !in line ==> r == Ok(p)
    ensures r.Ok? ==> r.value.flask == p.flask || r.value.streamlit == p.streamlit
  {
    if '=' !in line then Ok(p)
    else
      var parts := Split(Strip(line), '=');
      if |parts| != 2 then Err(UnpackError)
      else if parts[0] == "FLASK_PORT" then
        match ParseInt(parts[1])
        case None => Err(NotAnInteger)
        case Some(n) => Ok(p.(flask := n))
      else if parts[0] == "STREAMLIT_PORT" then
        match ParseInt(parts[1])
        case None => Err(NotAnInteger)
        case Some(n) => Ok(p.(streamlit := n))
      else Ok(p)
  }

  /** The lines of the file applied in order; the first error ends the reading. */
  function ApplyLines(p: Ports, lines: seq<string>): Result<Ports, ConfigError>
    decreases |lines|
  {
    if lines == [] then Ok(p)
    else match ApplyLine(p, lines[0])
      case Err(e) => Err(e)
      case Ok(q) => ApplyLines(q, lines[1..])
  }

  /** `get_config_ports()` on the file's lines, None when the file does not exist. */
  function ConfigPorts(file: Option<seq<string>>): Result<Ports, ConfigError>
  {
    match file
    case None => Ok(Defaults)
    case Some(lines) => ApplyLines(Defaults, lines)
  }

  /** `get_config_ports()`: the loop over the file's lines. */
  method GetConfigPorts(file: Option<seq<string>>) returns (r: Result<Ports, ConfigError>)
    ensures r == ConfigPorts(file)
  {
    var ports := Defaults;
    if file.Some? {
      var lines := file.value;
      for i := 0 to |lines|
        invariant ApplyLines(ports, lines[i..]) == ApplyLines(Defaults, lines)
      {
        assert lines[i..][1..] == lines[i + 1..];
        var step := ApplyLine(ports, lines[i]);
        if step.Err? {
          return Err(step.error);
        }
        ports := step.value;
      }
    }
    return Ok(ports);
  }

  /** No file: the defaults, FLASK 5001 and STREAMLIT 8501. */
  lemma ConfigWithoutFile()
    ensures ConfigPorts(None) == Ok(Ports(5001, 8501))
  {
  }

  /** A line without `=` changes nothing. */
  lemma LineWithoutEquals(p: Ports, line: string)
    requires '=' !in line
    ensures ApplyLine(p, line) == Ok(p)
  {
  }

  /** A line with one `=` whose stripped key is neither FLASK_PORT nor STREAMLIT_PORT changes nothing. */
  lemma LineWithUnknownKey(p: Ports, line: string)
    requires Count(line, '=') == 1
    requires Split(Strip(line), '=')[0] != "FLASK_PORT" && Split(Strip(line), '=')[0] != "STREAMLIT_PORT"
    ensures ApplyLine(p, line) == Ok(p)
  {
    CountStrip(line, '=');
  }

  /** A line with more than one `=` fails, whatever its key. */
  lemma LineWithSeveralEquals(p: Ports, line: string)
    requires Count(line, '=') >= 2
    ensures ApplyLine(p, line) == Err(UnpackError)
  {
    CountStrip(line, '=');
  }

  /** Keys match exactly: a space before the `=` (`FLASK_PORT =5001`) leaves an unknown key,
      and the line changes nothing. */
  lemma KeyWithTrailingSpace(p: Ports, key: string, value: string)
    requires '=' !in key && '=' !in value
    requires |key| > 0 && !IsSpace(key[0])
    requires value == [] || !IsSpace(value[|value| - 1])
    ensures ApplyLine(p, key + " =" + value) == Ok(p)
  {
    var k := key + " ";
    assert k + "=" + value == key + " =" + value;
    assert k != "FLASK_PORT" && k != "STREAMLIT_PORT" by {
      assert k[|k| - 1] == ' ';
    }
    UnknownKeyValue(p, k, value);
  }

  /** `key=value` with a key other than FLASK_PORT and STREAMLIT_PORT changes nothing. */
  lemma UnknownKeyValue(p: Ports, key: string, value: string)
    requires '=' !in key && '=' !in value
    requires |key| > 0 && !IsSpace(key[0])
    requires value == [] || !IsSpace(value[|value| - 1])
    requires key != "FLASK_PORT" && key != "STREAMLIT_PORT"
    ensures ApplyLine(p, key + "=" + value) == Ok(p)
  {
    SettingLineParts(key, value);
  }

  /** `key=value` with no `=` in either part, starting and ending outside whitespace,
      splits into exactly that key and value. */
  lemma SettingLineParts(key: string, value: string)
    requires '=' !in key && '=' !in value
    requires |key| > 0 && !IsSpace(key[0])
    requires value == [] || !IsSpace(value[|value| - 1])
    ensures '=' in key + "=" + value
    ensures Split(Strip(key + "=" + value), '=') == [key, value]
  {
    var line := key + "=" + value;
    assert line == key + ['='] + value;
    assert line[|key|] == '=';
    assert !IsSpace(line[0]) && !IsSpace(line[|line| - 1]);
    TrimUnchanged(StripSpace, line);
    SplitAtFirst(key, value, '=');
    SplitNoSeparator(value, '=');
  }

  /** A recognised key with a value `int()` rejects fails; there is no fallback to the default. */
  lemma RecognisedKeyBadValue(p: Ports, key: string, value: string)
    requires key == "FLASK_PORT" || key == "STREAMLIT_PORT"
    requires '=' !in value && (value == [] || !IsSpace(value[|value| - 1]))
    requires ParseInt(value).None?
    ensures ApplyLine(p, key + "=" + value) == Err(NotAnInteger)
  {
    SettingLineParts(key, value);
    assert Split(Strip(key + "=" + value), '=')[1] == value;
  }

  /** A value led by an information separator (U+001C..U+001F) survives `str.strip()`
      and `int()` rejects it, so a recognised key with such a value fails. */
  lemma SeparatorValueRaises(p: Ports, key: string, c: char, d: string)
    requires key == "FLASK_PORT" || key == "STREAMLIT_PORT"
    requires '\U{1C}' <= c <= '\U{1F}' && DigitGroups(d)
    ensures ApplyLine(p, key + "=" + ([c] + d)) == Err(NotAnInteger)
  {
    var value := [c] + d;
    DigitGroupsEnds(d);
    assert value[|value| - 1] == d[|d| - 1];
    assert '=' !in value by {
      assert forall k :: 0 <= k < |d| ==> d[k] != '=' by {
        DigitGroupsChars(d);
      }
    }
    SeparatorBeforeDigits(c, d);
    RecognisedKeyBadValue(p, key, value);
  }

  /** A recognised key with a value `int()` accepts sets that port and leaves the other. */
  lemma RecognisedKeyValue(p: Ports, key: string, value: string, n: int)
    requires key == "FLASK_PORT" || key == "STREAMLIT_PORT"
    requires '=' !in value && (value == [] || !IsSpace(value[|value| - 1]))
    requires ParseInt(value) == Some(n)
    ensures ApplyLine(p, key + "=" + value) == Ok(if key == "FLASK_PORT" then p.(flask := n) else p.(streamlit := n))
  {
    SettingLineParts(key, value);
    assert Split(Strip(key + "=" + value), '=')[1] == value;
  }

  /** `str(n)` holds no `=`, ends in a digit, and `int()` reads it back as n. */
  lemma IntTextValue(n: int)
    ensures '=' !in IntToString(n)
    ensures !IsSpace(IntToString(n)[|IntToString(n)| - 1])
    ensures ParseInt(IntToString(n)) == Some(n)
  {
    var v := IntToString(n);
    IntToStringChars(n);
    assert '=' !in v;
    ParseIntToString(n);
  }

  /** The line `<key>=<n>`, the number written as `str(n)` writes it. */
  function SettingText(key: string, n: int): string {
    key + "=" + IntToString(n)
  }

  /** `FLASK_PORT=<n>` sets the FLASK port to n, and `STREAMLIT_PORT=<n>` the STREAMLIT port. */
  lemma SettingLineSets(p: Ports, n: int)
    ensures ApplyLine(p, SettingText("FLASK_PORT", n)) == Ok(p.(flask := n))
    ensures ApplyLine(p, SettingText("STREAMLIT_PORT", n)) == Ok(p.(streamlit := n))
  {
    IntTextValue(n);
    RecognisedKeyValue(p, "FLASK_PORT", IntToString(n), n);
    RecognisedKeyValue(p, "STREAMLIT_PORT", IntToString(n), n);
  }

  /** A file holding both settings gives exactly those two ports. */
  lemma ConfigBothSettings(flask: int, streamlit: int)
    ensures ConfigPorts(Some([SettingText("FLASK_PORT", flask), SettingText("STREAMLIT_PORT", streamlit)]))
            == Ok(Ports(flask, streamlit))
  {
    var first, second := SettingText("FLASK_PORT", flask), SettingText("STREAMLIT_PORT", streamlit);
    SettingLineSets(Defaults, flask);
    SettingLineSets(Defaults.(flask := flask), streamlit);
    ApplyTwoLines(Defaults, first, second, Ports(flask, 8501), Ports(flask, streamlit));
  }

  lemma ApplyTwoLines(p: Ports, first: string, second: string, q: Ports, r: Ports)
    requires ApplyLine(p, first) == Ok(q) && ApplyLine(q, second) == Ok(r)
    ensures ApplyLines(p, [first, second]) == Ok(r)
  {
    assert ApplyLines(q, [second]) == Ok(r) by {
      assert [second][1..] == [];
    }
    assert [first, second][1..] == [second];
  }

  /** The value text a single line gives `key`, if it is a `key=value` line. */
  function LineSetting(line: string, key: string): Option<string>
  {
    var parts := Split(Strip(line), '=');
    if '=' in line && |parts| == 2 && parts[0] == key then Some(parts[1]) else None
  }

  /** The value text of the last line that sets `key`, reading the file backwards. */
  function LastSetting(lines: seq<string>, key: string): Option<string>
  {
    if lines == [] then None
    else match LineSetting(lines[|lines| - 1], key)
      case Some(v) => Some(v)
      case None => LastSetting(lines[..|lines| - 1], key)
  }

  /** What a successfully read file gives for one key: the last setting, else the starting value. */
  function Resolved(start: int, setting: Option<string>): int
  {
    match setting
    case None => start
    case Some(v) => match ParseInt(v) case Some(n) => n case None => start
  }

  lemma {:induction false} ApplyLinesSnoc(p: Ports, lines: seq<string>, line: string)
    ensures ApplyLines(p, lines + [line]) ==
      match ApplyLines(p, lines)
      case Err(e) => Err(e)
      case Ok(q) => ApplyLine(q, line)
    decreases |lines|
  {
    if lines == [] {
      assert [line][1..] == [];
    } else {
      assert (lines + [line])[1..] == lines[1..] + [line];
      match ApplyLine(p, lines[0])
      case Err(_) =>
      case Ok(q) => ApplyLinesSnoc(q, lines[1..], line);
    }
  }

  /** When a file reads successfully, each port is the value of the last line that sets it,
      or the default when no line does: a later setting wins over an earlier one. */
  lemma {:induction false} LastSettingWins(p: Ports, lines: seq<string>)
    requires ApplyLines(p, lines).Ok?
    ensures ApplyLines(p, lines).value.flask == Resolved(p.flask, LastSetting(lines, "FLASK_PORT"))
    ensures ApplyLines(p, lines).value.streamlit == Resolved(p.streamlit, LastSetting(lines, "STREAMLIT_PORT"))
    ensures LastSetting(lines, "FLASK_PORT").Some? ==> ParseInt(LastSetting(lines, "FLASK_PORT").value).Some?
    ensures LastSetting(lines, "STREAMLIT_PORT").Some? ==> ParseInt(LastSetting(lines, "STREAMLIT_PORT").value).Some?
  {
    if lines != [] {
      var init, line := lines[..|lines| - 1], lines[|lines| - 1];
      assert lines == init + [line];
      ApplyLinesSnoc(p, init, line);
      LastSettingWins(p, init);
      LineResolves(ApplyLines(p, init).value, line);
    }
  }

  /** A line that reads without error sets each port to its own setting, if it has one. */
  lemma LineResolves(q: Ports, line: string)
    requires ApplyLine(q, line).Ok?
    ensures ApplyLine(q, line).value.flask == Resolved(q.flask, LineSetting(line, "FLASK_PORT"))
    ensures ApplyLine(q, line).value.streamlit == Resolved(q.streamlit, LineSetting(line, "STREAMLIT_PORT"))
    ensures LineSetting(line, "FLASK_PORT").Some? ==> ParseInt(LineSetting(line, "FLASK_PORT").value).Some?
    ensures LineSetting(line, "STREAMLIT_PORT").Some? ==> ParseInt(LineSetting(line, "STREAMLIT_PORT").value).Some?
  {
  }

  /** The rest of a file is not read once a line fails. */
  lemma {:induction false} ErrorStopsReading(p: Ports, before: seq<string>, bad: string, after: seq<string>)
    requires ApplyLines(p, before).Ok? && ApplyLine(ApplyLines(p, before).value, bad).Err?
    ensures ApplyLines(p, before + [bad] + after) == ApplyLine(ApplyLines(p, before).value, bad)
    decreases |before|
  {
    if before == [] {
      assert before + [bad] + after == [bad] + after;
      assert ([bad] + after)[1..] == after;
    } else {
      assert (before + [bad] + after)[1..] == before[1..] + [bad] + after;
      ErrorStopsReading(ApplyLine(p, before[0]).value, before[1..], bad, after);
    }
  }

  /** What `lsof -t -i:<port>` gives: a non-zero exit (no process holds the port),
      its decoded output, or any other failure (lsof missing, undecodable output). */
  datatype Lsof = NoProcess | Output(text: string) | LsofFailed

  /** The observable steps of the reaper: the "busy" notice, a SIGTERM sent, an error report. */
  datatype Event = Busy(port: int, pid: int) | Terminate(pid: int) | Failed(port: int)

  /** The shape of what one port produces: notices and reports name that port, only
      pids `os.kill` accepts are signalled, and a report, if any, comes last. */
  predicate PortTrace(port: int, events: seq<Event>, refused: set<int>) {
    (forall i :: 0 <= i < |events| && !events[i].Terminate? ==> events[i].port == port)
    && (forall i :: 0 <= i < |events| && events[i].Terminate? ==> events[i].pid !in refused)
    && (forall i :: 0 <= i < |events| - 1 ==> !events[i].Failed?)
  }

  /** The inner loop over the lines of lsof's output. An empty line is skipped; a line
      `int()` rejects, or a pid `os.kill` refuses, raises and ends the port with a report. */
  function ReapPids(port: int, pids: seq<string>, refused: set<int>): (events: seq<Event>)
    ensures PortTrace(port, events, refused)
  {
    if pids == [] then []
    else if pids[0] == "" then ReapPids(port, pids[1..], refused)
    else match ParseInt(pids[0])
      case None => [Failed(port)]
      case Some(pid) =>
        if pid in refused then [Busy(port, pid), Failed(port)]
        else
          var rest := ReapPids(port, pids[1..], refused);
          assert forall i :: 2 <= i < 2 + |rest| ==> ([Busy(port, pid), Terminate(pid)] + rest)[i] == rest[i - 2];
          [Busy(port, pid), Terminate(pid)] + rest
  }

  /** One iteration of the outer loop, with its try / except. */
  function ReapPort(port: int, answer: Lsof, refused: set<int>): (events: seq<Event>)
    ensures PortTrace(port, events, refused)
    ensures answer == NoProcess ==> events == []
    ensures answer == LsofFailed ==> events == [Failed(port)]
  {
    match answer
    case NoProcess => []
    case LsofFailed => [Failed(port)]
    case Output(text) => ReapOutput(port, text, refused)
  }

  /** lsof's decoded output for a port: stripped, nothing when empty, else its lines. */
  function ReapOutput(port: int, text: string, refused: set<int>): (events: seq<Event>)
    ensures PortTrace(port, events, refused)
    ensures Strip(text) == "" ==> events == []
  {
    var out := Strip(text);
    if out == "" then [] else ReapPids(port, Split(out, '\n'), refused)
  }

  /** The ports in order, `lsof[k]` being lsof's answer for `ports[k]`. */
  function ReapAll(ports: seq<int>, lsof: seq<Lsof>, refused: set<int>): seq<Event>
    requires |lsof| == |ports|
  {
    if ports == [] then [] else ReapPort(ports[0], lsof[0], refused) + ReapAll(ports[1..], lsof[1..], refused)
  }

  /** The body of the outer loop for one port: lsof's answer, then the inner loop over
      its lines, until the first exception. */
  method ReapOnePort(port: int, answer: Lsof, refused: set<int>) returns (events: seq<Event>)
    ensures events == ReapPort(port, answer, refused)
  {
    events := [];
    match answer {
      case NoProcess =>
      case LsofFailed =>
        events := [Failed(port)];
      case Output(text) =>
        var out := Strip(text);
        if out != "" {
          events := ReapLines(port, Split(out, '\n'), refused);
        }
    }
  }

  lemma ReapPidsStep(port: int, line: string, rest: seq<string>, refused: set<int>, parsed: Option<int>)
    requires parsed == ParseInt(line)
    ensures line == "" ==> ReapPids(port, [line] + rest, refused) == ReapPids(port, rest, refused)
    ensures line != "" && parsed.None? ==> ReapPids(port, [line] + rest, refused) == [Failed(port)]
    ensures line != "" && parsed.Some? && parsed.value in refused ==>
      ReapPids(port, [line] + rest, refused) == [Busy(port, parsed.value), Failed(port)]
    ensures line != "" && parsed.Some? && parsed.value !in refused ==>
      ReapPids(port, [line] + rest, refused) == [Busy(port, parsed.value), Terminate(parsed.value)] + ReapPids(port, rest, refused)
  {
    assert ([line] + rest)[1..] == rest;
  }

  /** The inner loop over the lines of lsof's output; an exception leaves it early. */
  method ReapLines(port: int, pids: seq<string>, refused: set<int>) returns (events: seq<Event>)
    ensures events == ReapPids(port, pids, refused)
  {
    events := [];
    var rest := pids;
    while rest != []
      invariant events + ReapPids(port, rest, refused) == ReapPids(port, pids, refused)
      decreases |rest|
    {
      var line := rest[0];
      var parsed := ParseInt(line);
      assert rest == [line] + rest[1..];
      ReapPidsStep(port, line, rest[1..], refused, parsed);
      rest := rest[1..];
      if line != "" {
        if parsed.None? {
          return events + [Failed(port)];
        }
        var pid := parsed.value;
        if pid in refused {
          return events + [Busy(port, pid), Failed(port)];
        }
        assert events + ([Busy(port, pid), Terminate(pid)] + ReapPids(port, rest, refused))
            == (events + [Busy(port, pid), Terminate(pid)]) + ReapPids(port, rest, refused);
        events := events + [Busy(port, pid), Terminate(pid)];
      }
    }
  }

  /** `kill_processes_on_ports(ports)`: the trace of notices, signals and reports. */
  method KillProcessesOnPorts(ports: seq<int>, lsof: seq<Lsof>, refused: set<int>) returns (trace: seq<Event>)
    requires |lsof| == |ports|
    ensures trace == ReapAll(ports, lsof, refused)
  {
    trace := [];
    for k := 0 to |ports|
      invariant trace == ReapAll(ports[..k], lsof[..k], refused)
    {
      var events := ReapOnePort(ports[k], lsof[k], refused);
      ReapAllStep(ports, lsof, k, refused);
      trace := trace + events;
    }
    assert ports[..|ports|] == ports && lsof[..|lsof|] == lsof;
  }

  /** Ports are independent: the trace for a list is the traces for its parts, one after the other. */
  lemma {:induction false} ReapAllAppend(a: seq<int>, la: seq<Lsof>, b: seq<int>, lb: seq<Lsof>, refused: set<int>)
    requires |la| == |a| && |lb| == |b|
    ensures ReapAll(a + b, la + lb, refused) == ReapAll(a, la, refused) + ReapAll(b, lb, refused)
  {
    if a == [] {
      assert a + b == b && la + lb == lb;
    } else {
      assert (a + b)[1..] == a[1..] + b && (la + lb)[1..] == la[1..] + lb;
      ReapAllAppend(a[1..], la[1..], b, lb, refused);
    }
  }

  lemma ReapAllStep(ports: seq<int>, lsof: seq<Lsof>, k: nat, refused: set<int>)
    requires |lsof| == |ports| && k < |ports|
    ensures ReapAll(ports[..k + 1], lsof[..k + 1], refused) == ReapAll(ports[..k], lsof[..k], refused) + ReapPort(ports[k], lsof[k], refused)
  {
    assert ports[..k + 1] == ports[..k] + [ports[k]] && lsof[..k + 1] == lsof[..k] + [lsof[k]];
    ReapAllAppend(ports[..k], lsof[..k], [ports[k]], [lsof[k]], refused);
    assert ReapAll([ports[k]], [lsof[k]], refused) == ReapPort(ports[k], lsof[k], refused) + ReapAll([], [], refused);
  }

  /** A port no process holds produces nothing, neither a signal nor a report. */
  lemma NoProcessNoEvents(port: int, refused: set<int>)
    ensures ReapPort(port, NoProcess, refused) == []
  {
  }

  /** The non-empty lines, read as integers. */
  function PidsOf(lines: seq<string>): seq<int>
  {
    if lines == [] then []
    else if lines[0] == "" then PidsOf(lines[1..])
    else match ParseInt(lines[0])
      case None => PidsOf(lines[1..])
      case Some(pid) => [pid] + PidsOf(lines[1..])
  }

  /** The pids a trace signals, in order. */
  function Signalled(trace: seq<Event>): seq<int>
  {
    if trace == [] then []
    else if trace[0].Terminate? then [trace[0].pid] + Signalled(trace[1..])
    else Signalled(trace[1..])
  }

  lemma {:induction false} SignalledAppend(a: seq<Event>, b: seq<Event>)
    ensures Signalled(a + b) == Signalled(a) + Signalled(b)
  {
    if a == [] {
      assert a + b == b;
    } else {
      assert (a + b)[1..] == a[1..] + b;
      SignalledAppend(a[1..], b);
    }
  }

  /** When every non-empty line is a pid and every kill succeeds, exactly those pids are
      signalled, in the order lsof listed them, and nothing is reported. */
  lemma {:induction false} AllPidsSignalled(port: int, lines: seq<string>, refused: set<int>)
    requires forall k :: 0 <= k < |lines| && lines[k] != "" ==> ParseInt(lines[k]).Some?
    requires forall k :: 0 <= k < |lines| && lines[k] != "" ==> ParseInt(lines[k]).value !in refused
    ensures Signalled(ReapPids(port, lines, refused)) == PidsOf(lines)
    ensures Failed(port) !in ReapPids(port, lines, refused)
  {
    if lines != [] {
      AllPidsSignalled(port, lines[1..], refused);
      if lines[0] != "" {
        var pid := ParseInt(lines[0]).value;
        var tail := ReapPids(port, lines[1..], refused);
        SignalledAppend([Busy(port, pid), Terminate(pid)], tail);
        assert Signalled([Busy(port, pid), Terminate(pid)]) == [pid] by {
          assert [Busy(port, pid), Terminate(pid)][1..] == [Terminate(pid)];
          assert [Terminate(pid)][1..] == [];
        }
      }
    }
  }

  /** A line that is not an integer stops the port there: the kills before it stand,
      one report follows, and the later lines are never read. */
  lemma {:induction false} BadPidStopsPort(port: int, good: seq<string>, bad: string, rest: seq<string>, refused: set<int>)
    requires forall k :: 0 <= k < |good| && good[k] != "" ==> ParseInt(good[k]).Some?
    requires forall k :: 0 <= k < |good| && good[k] != "" ==> ParseInt(good[k]).value !in refused
    requires bad != "" && ParseInt(bad).None?
    ensures ReapPids(port, good + [bad] + rest, refused) == ReapPids(port, good, refused) + [Failed(port)]
  {
    if good == [] {
      assert good + [bad] + rest == [bad] + rest;
    } else {
      assert (good + [bad] + rest)[1..] == good[1..] + [bad] + rest;
      BadPidStopsPort(port, good[1..], bad, rest, refused);
    }
  }

  /** The script's entry point: the config is read first (an error there ends the script
      before any port is touched), then FLASK's port is reaped, then STREAMLIT's. */
  method ReaperMain(file: Option<seq<string>>, lsof: seq<Lsof>, refused: set<int>)
    returns (r: Result<seq<Event>, ConfigError>)
    requires |lsof| == 2
    ensures ConfigPorts(file).Err? ==> r == Err(ConfigPorts(file).error)
    ensures ConfigPorts(file).Ok? ==>
      var p := ConfigPorts(file).value;
      r == Ok(ReapPort(p.flask, lsof[0], refused) + ReapPort(p.streamlit, lsof[1], refused))
  {
    var config := GetConfigPorts(file);
    if config.Err? {
      return Err(config.error);
    }
    var target := [config.value.flask, config.value.streamlit];
    var trace := KillProcessesOnPorts(target, lsof, refused);
    assert target[1..] == [config.value.streamlit] && lsof[1..] == [lsof[1]];
    assert ReapAll(target[1..], lsof[1..], refused) == ReapPort(target[1], lsof[1], refused);
    return Ok(trace);
  }
}
