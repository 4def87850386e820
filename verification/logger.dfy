/** The logger of utils/logger.js: `formatLogMessage` builds one log line,
    `logToConsole` wraps it in the level's terminal colour, and each method
    of the exported `logger` writes one coloured console line and appends the
    same line, uncoloured, to the log file; `debug` only when DEBUG is set.
    The clock, the environment and JSON.stringify are parameters, and the two
    outputs are kept as values that only grow. */
module Logger {
  import opened Wrappers

  /** The integers a JavaScript number holds exactly and writes as their own
      decimal digits: those of magnitude at most 2^53.  Beyond it a number
      is a rounded double whose text is its shortest round-trip digits padded
      with zeros (2^60 prints as 1152921504606847000), and from 10^21 on the
      text switches to exponent form ("1e+21"). */
  const PlainBound: int := 0x20_0000_0000_0000
  type PlainInt = n: int | -PlainBound <= n <= PlainBound

  /** The JavaScript values a caller can pass as `data`.  Numbers are the
      integers of plain decimal form plus NaN and the two infinities; `Obj`
      stands for any object (arrays included), identified by a reference
      that the serialiser parameter interprets. */
  datatype JsValue =
    | Undefined
    | Null
    | Bool(b: bool)
    | Number(n: PlainInt)
    | NaN
    | Infinity(negative: bool)
    | Str(s: string)
    | Obj(ref: nat)

  /** JavaScript truthiness: the test of `if (data)`. */
  predicate Truthy(v: JsValue) {
    match v
    case Undefined => false
    case Null => false
    case Bool(b) => b
    case Number(n) => n != 0
    case NaN => false
    case Infinity(_) => true
    case Str(s) => s != ""
    case Obj(_) => true
  }

  function TypeOf(v: JsValue): (t: string)
    ensures t == "object" <==> v.Null? || v.Obj?
  {
    match v
    case Undefined => "undefined"
    case Null => "object"
    case Bool(_) => "boolean"
    case Number(_) => "number"
    case NaN => "number"
    case Infinity(_) => "number"
    case Str(_) => "string"
    case Obj(_) => "object"
  }

  function DigitChar(d: nat): (c: char)
    requires d < 10
    ensures '0' <= c <= '9'
  {
    ('0' as int + d) as char
  }

  function NatToString(n: nat): (s: string)
    ensures |s| >= 1
    ensures forall i :: 0 <= i < |s| ==> '0' <= s[i] <= '9'
    ensures n != 0 ==> s[0] != '0'
  {
    if n < 10 then [DigitChar(n)] else NatToString(n / 10) + [DigitChar(n % 10)]
  }

  /** The decimal digits denote the number again: NatToString is injective. */
  function DigitsValue(s: string): int {
    if s == [] then 0 else DigitsValue(s[..|s| - 1]) * 10 + (s[|s| - 1] as int - '0' as int)
  }

  lemma {:induction false} NatToStringValue(n: nat)
    ensures DigitsValue(NatToString(n)) == n
  {
    if n >= 10 {
      NatToStringValue(n / 10);
      var s := NatToString(n);
      assert s[..|s| - 1] == NatToString(n / 10);
    }
  }

  /** The decimal text of an integer, with a '-' when it is negative. */
  function IntToString(n: int): (s: string)
    ensures |s| >= 1
    ensures n >= 0 ==> DigitsValue(s) == n
    ensures n < 0 ==> |s| >= 2 && s[0] == '-' && DigitsValue(s[1..]) == -n
    ensures forall i :: 0 < i < |s| ==> '0' <= s[i] <= '9'
    ensures n >= 0 ==> '0' <= s[0] <= '9' && (|s| > 1 ==> s[0] != '0')
    ensures n < 0 ==> s[1] != '0'
  {
    if n < 0 then
      NatToStringValue(-n);
      var t := "-" + NatToString(-n);
      assert t[1..] == NatToString(-n);
      t
    else
      NatToStringValue(n);
      NatToString(n)
  }

  /** The string form of a primitive value, as `${data}` produces it. */
  function ToJsString(v: JsValue): (s: string)
    requires !v.Obj?
    ensures s == [] <==> v == Str([])
    ensures v.Str? ==> s == v.s
    ensures v.Number? && v.n >= 0 ==> DigitsValue(s) == v.n
    ensures v.Number? && v.n < 0 ==> s[0] == '-' && DigitsValue(s[1..]) == -v.n
    ensures v.Number? ==> forall i :: 0 < i < |s| ==> '0' <= s[i] <= '9'
    ensures v.Number? && v.n >= 0 ==> '0' <= s[0] <= '9' && (|s| > 1 ==> s[0] != '0')
    ensures v.Number? && v.n < 0 ==> s[1] != '0'
  {
    match v
    case Undefined => "undefined"
    case Null => "null"
    case Bool(b) => if b then "true" else "false"
    case Number(n) => IntToString(n)
    case NaN => "NaN"
    case Infinity(negative) => if negative then "-Infinity" else "Infinity"
    case Str(s) => s
  }

  /** The part of a log line every call produces. */
  function Prefix(timestamp: string, level: string, message: string): string {
    "[" + timestamp + "] [" + level + "] " + message
  }

  /** formatLogMessage(level, message, data), with `new Date().toISOString()`
      passed in as `timestamp` and JSON.stringify as `stringify`. */
  function FormatLogMessage(timestamp: string, level: string, message: string, data: JsValue,
                            stringify: nat -> string): (line: string)
    ensures Prefix(timestamp, level, message) <= line
    ensures !Truthy(data) ==> line == Prefix(timestamp, level, message)
    ensures data.Obj? ==> line == Prefix(timestamp, level, message) + " " + stringify(data.ref)
    ensures Truthy(data) && !data.Obj? ==>
              line == Prefix(timestamp, level, message) + " " + ToJsString(data)
  {
    var formatted := "[" + timestamp + "] [" + level + "] " + message;
    if Truthy(data) then
      if TypeOf(data) == "object" then formatted + " " + stringify(data.ref)
      else formatted + " " + ToJsString(data)
    else formatted
  }

  /** Every falsy `data` (null, undefined, false, 0, NaN, "") leaves the line
      at its prefix, and every truthy one lengthens it. */
  lemma FalsyDataAppendsNothing(timestamp: string, level: string, message: string, data: JsValue,
                                stringify: nat -> string)
    ensures (|FormatLogMessage(timestamp, level, message, data, stringify)|
             == |Prefix(timestamp, level, message)|) <==> !Truthy(data)
  {
  }

  /** The line starts with the timestamp and the level in brackets: the
      timestamp is recovered as the text between the first "[" and the first
      "]" whenever the timestamp itself holds no "]". */
  lemma TimestampRecoverable(timestamp: string, level: string, message: string, data: JsValue,
                             stringify: nat -> string)
    requires forall i :: 0 <= i < |timestamp| ==> timestamp[i] != ']'
    ensures var line := FormatLogMessage(timestamp, level, message, data, stringify);
            && line[0] == '['
            && line[1 + |timestamp|] == ']'
            && line[1..1 + |timestamp|] == timestamp
            && forall i :: 1 <= i < 1 + |timestamp| ==> line[i] != ']'
  {
    var line := FormatLogMessage(timestamp, level, message, data, stringify);
    var p := Prefix(timestamp, level, message);
    assert p <= line;
    assert p == "[" + timestamp + "] [" + level + "] " + message;
    assert p[1..1 + |timestamp|] == timestamp;
    assert line[1..1 + |timestamp|] == p[1..1 + |timestamp|];
    forall i | 1 <= i < 1 + |timestamp| ensures line[i] != ']' {
      assert line[i] == p[i] == timestamp[i - 1];
    }
  }

  // ---------------------------------------------------------------------
  // Levels, colours and the exported logger
  // ---------------------------------------------------------------------

  const ResetColor: string := "\U{1B}[0m"

  /** LOG_COLORS[level] || '': the ANSI colour of the five levels, and the
      empty string for any other level text. */
  function Color(level: string): (c: string)
    ensures level !in {"ERROR", "WARN", "INFO", "DEBUG", "SUCCESS"} ==> c == ""
    ensures level in {"ERROR", "WARN", "INFO", "DEBUG", "SUCCESS"} ==> |c| == 5 && c[0] == '\U{1B}'
  {
    if level == "ERROR" then "\U{1B}[31m"
    else if level == "WARN" then "\U{1B}[33m"
    else if level == "INFO" then "\U{1B}[36m"
    else if level == "DEBUG" then "\U{1B}[35m"
    else if level == "SUCCESS" then "\U{1B}[32m"
    else ""
  }

  /** The text logToConsole hands to console.log. */
  function ConsoleLine(timestamp: string, level: string, message: string, data: JsValue,
                       stringify: nat -> string): (out: string)
    ensures Color(level) <= out
    ensures |out| >= |Color(level)| + |ResetColor|
    ensures out[|Color(level)|..|out| - |ResetColor|]
            == FormatLogMessage(timestamp, level, message, data, stringify)
    ensures out[|out| - |ResetColor|..] == ResetColor
  {
    var formatted := FormatLogMessage(timestamp, level, message, data, stringify);
    var out := Color(level) + formatted + ResetColor;
    assert out[|Color(level)|..|out| - |ResetColor|] == formatted;
    out
  }

  /** The five methods of the exported logger. */
  datatype Method = Error | Warn | Info | Debug | Success

  /** LOG_LEVELS: the level text each method logs under. */
  function LevelOf(m: Method): (level: string)
    ensures level in {"ERROR", "WARN", "INFO", "DEBUG", "SUCCESS"}
  {
    match m
    case Error => "ERROR"
    case Warn => "WARN"
    case Info => "INFO"
    case Debug => "DEBUG"
    case Success => "SUCCESS"
  }

  /** Distinct methods log under distinct levels. */
  lemma LevelOfInjective(m1: Method, m2: Method)
    ensures LevelOf(m1) == LevelOf(m2) <==> m1 == m2
  {
  }

  /** `if (process.env.DEBUG)`: set to a non-empty string. */
  predicate DebugEnabled(env: Option<string>) {
    env.Some? && env.value != ""
  }

  /** What the logger has written: the console lines, and the text of the
      log file. */
  datatype Outputs = Outputs(console: seq<string>, file: string)

  /** One call of logger[m](message, data).  Each of the two
      formatLogMessage calls reads the clock on its own, so the console line
      and the file line carry timestamps of their own. */
  function Log(out: Outputs, m: Method, debugEnv: Option<string>, consoleTime: string,
               fileTime: string, message: string, data: JsValue, stringify: nat -> string)
    : (r: Outputs)
    ensures m == Debug && !DebugEnabled(debugEnv) ==> r == out
    ensures m != Debug || DebugEnabled(debugEnv) ==>
              && r.console == out.console
                 + [ConsoleLine(consoleTime, LevelOf(m), message, data, stringify)]
              && r.file == out.file
                 + FormatLogMessage(fileTime, LevelOf(m), message, data, stringify) + "\n"
  {
    if m == Debug && !DebugEnabled(debugEnv) then out
    else
      var level := LevelOf(m);
      var console := out.console + [ConsoleLine(consoleTime, level, message, data, stringify)];
      var file := out.file + (FormatLogMessage(fileTime, level, message, data, stringify) + "\n");
      Outputs(console, file)
  }

  /** When both reads of the clock agree, the console line is exactly the
      file line in the level's colour: strip the colour and the reset code
      from the new console line and the result, followed by a newline, is
      what was appended to the file. */
  lemma ConsoleMatchesFile(out: Outputs, m: Method, debugEnv: Option<string>, time: string,
                           message: string, data: JsValue, stringify: nat -> string)
    requires m != Debug || DebugEnabled(debugEnv)
    ensures var r := Log(out, m, debugEnv, time, time, message, data, stringify);
            var line := r.console[|r.console| - 1];
            var c := Color(LevelOf(m));
            && |r.console| == |out.console| + 1
            && |c| > 0
            && out.file <= r.file
            && r.file[|out.file|..] == line[|c|..|line| - |ResetColor|] + "\n"
  {
    var r := Log(out, m, debugEnv, time, time, message, data, stringify);
    assert r.file[|out.file|..]
           == FormatLogMessage(time, LevelOf(m), message, data, stringify) + "\n";
  }

  /** A run of logger calls. */
  datatype Call = Call(m: Method, consoleTime: string, fileTime: string, message: string,
                       data: JsValue)

  function LogAll(out: Outputs, calls: seq<Call>, debugEnv: Option<string>,
                  stringify: nat -> string): Outputs
    decreases |calls|
  {
    if calls == [] then out
    else
      var c := calls[0];
      LogAll(Log(out, c.m, debugEnv, c.consoleTime, c.fileTime, c.message, c.data, stringify),
             calls[1..], debugEnv, stringify)
  }

  function EmittingCount(calls: seq<Call>, debugEnv: Option<string>): (n: nat)
    ensures n <= |calls|
  {
    if calls == [] then 0
    else (if calls[0].m != Debug || DebugEnabled(debugEnv) then 1 else 0)
         + EmittingCount(calls[1..], debugEnv)
  }

  /** Over any run of calls the console gains one line per call that is not
      a suppressed debug call, and earlier lines are never changed. */
  lemma {:induction false} ConsoleLineCount(out: Outputs, calls: seq<Call>,
                                            debugEnv: Option<string>, stringify: nat -> string)
    ensures var r := LogAll(out, calls, debugEnv, stringify);
            && |r.console| == |out.console| + EmittingCount(calls, debugEnv)
            && out.console <= r.console
            && out.file <= r.file
    decreases |calls|
  {
    if calls != [] {
      var c := calls[0];
      var next := Log(out, c.m, debugEnv, c.consoleTime, c.fileTime, c.message, c.data, stringify);
      ConsoleLineCount(next, calls[1..], debugEnv, stringify);
    }
  }
}
