/** The file in which the dividers survive a restart: key=value lines, written and read back as text. */
module DividerState {
  import opened Options
  import opened Decimals

  const DEFAULT_DEVICE := "/dev/i2c-0"
  const FALLBACK_CLOCK_HZ := 1000000
  const MAX_CLOCK_HZ := 1000000000
  const OUTPUT_COUNT := 7

  datatype Configuration = Configuration(
    devicePath: string,
    referenceClockHz: nat,
    dividers: seq<int>,
    savedOutputs: seq<bool>)
  {
    predicate Shaped() {
      |dividers| == OUTPUT_COUNT && |savedOutputs| == OUTPUT_COUNT
    }

    predicate HasAnyOutput() {
      exists i :: 0 <= i < |savedOutputs| && savedOutputs[i]
    }
  }

  const EMPTY := Configuration(DEFAULT_DEVICE, FALLBACK_CLOCK_HZ, [1, 1, 1, 1, 1, 1, 1], [false, false, false, false, false, false, false])

  function DividerLimit(output: int): int {
    if 0 <= output <= 2 then 1023 else 127
  }

  predicate ValidDivider(output: int, divider: int) {
    0 <= output < OUTPUT_COUNT && 0 < divider <= DividerLimit(output)
  }

  predicate ValidClock(hz: int) {
    0 < hz <= MAX_CLOCK_HZ
  }

  // ---- Numbers ----

  const MIN_INT := -0x8000_0000
  const MAX_INT := 0x7FFF_FFFF
  const UINT64_RANGE := 0x1_0000_0000_0000_0000

  /** A sign and digits, and nothing after them. */
  function ParseSigned(s: string): Option<int> {
    var t := TrimLeft(s);
    var negative := t != [] && t[0] == '-';
    var digits := if negative || (t != [] && t[0] == '+') then t[1..] else t;
    if digits == [] || !AllDigits(digits) then None
    else
      var v: int := Read(digits);
      Some(if negative then -v else v)
  }

  function ParseInt(s: string): Option<int> {
    match ParseSigned(s)
    case None => None
    case Some(v) => if MIN_INT <= v <= MAX_INT then Some(v) else None
  }

  /** A negative number is read as its two's complement. */
  function ParseUInt64(s: string): Option<int> {
    match ParseSigned(s)
    case None => None
    case Some(v) => if -UINT64_RANGE < v < UINT64_RANGE then Some(v % UINT64_RANGE) else None
  }

  lemma ParsesPrinted(n: nat)
    ensures ParseSigned(Print(n)) == Some(n)
  {
    ReadsPrinted(n);
  }

  // ---- Lines ----

  /** Where the first '=' is; the length of the line if there is none. */
  function Separator(line: string): (i: nat)
    ensures i <= |line| && (i < |line| ==> line[i] == '=')
  {
    if line == [] || line[0] == '=' then 0 else 1 + Separator(line[1..])
  }

  function KeyOfOutput(output: nat): string
    requires output < OUTPUT_COUNT
  {
    ['y', DigitChar(output + 1)]
  }

  /** The output that a key names. */
  function OutputOfKey(key: string): Option<nat> {
    if |key| == 2 && key[0] == 'y' && '1' <= key[1] <= '7' then Some(DigitValue(key[1]) - 1) else None
  }

  function WithDivider(c: Configuration, output: nat, divider: int): Configuration
    requires output < OUTPUT_COUNT && c.Shaped()
  {
    c.(dividers := c.dividers[output := divider], savedOutputs := c.savedOutputs[output := true])
  }

  const DEVICE_PATH := "devicePath"
  const REFERENCE_CLOCK := "referenceClockHz"

  function WithPair(c: Configuration, key: string, value: string): (r: Configuration)
    requires c.Shaped()
    ensures r.Shaped()
  {
    if key == DEVICE_PATH then if value != [] then c.(devicePath := value) else c
    else if key == REFERENCE_CLOCK then
      match ParseUInt64(value)
      case None => c
      case Some(hz) => if ValidClock(hz) then c.(referenceClockHz := hz) else c
    else
      match OutputOfKey(key)
      case None => c
      case Some(output) =>
        match ParseInt(value)
        case None => c
        case Some(divider) => if ValidDivider(output, divider) then WithDivider(c, output, divider) else c
  }

  /** What one line of the file does to the configuration; comments and malformed lines do nothing. */
  function WithLine(c: Configuration, rawLine: string): (r: Configuration)
    requires c.Shaped()
    ensures r.Shaped()
  {
    var line := Trim(rawLine);
    var i := Separator(line);
    if line == [] || line[0] == '#' || i == |line| then c
    else WithPair(c, Trim(line[..i]), Trim(line[i + 1..]))
  }

  function WithLines(c: Configuration, lines: seq<string>): (r: Configuration)
    requires c.Shaped()
    ensures r.Shaped()
  {
    if lines == [] then c else WithLine(WithLines(c, lines[..|lines| - 1]), lines[|lines| - 1])
  }

  /** The length of the first line, without its line feed. */
  function LineLength(text: string): (n: nat)
    ensures n <= |text| && (n < |text| ==> text[n] == '\n') && '\n' !in text[..n]
  {
    if text == [] || text[0] == '\n' then 0
    else
      var n := LineLength(text[1..]);
      assert text[..n + 1] == [text[0]] + text[1..][..n];
      n + 1
  }

  function Lines(text: string): seq<string>
    decreases |text|
  {
    if text == [] then []
    else
      var n := LineLength(text);
      [text[..n]] + Lines(if n < |text| then text[n + 1..] else [])
  }

  function Text(lines: seq<string>): string {
    if lines == [] then [] else lines[0] + ['\n'] + Text(lines[1..])
  }

  lemma {:induction false} LinesOfText(lines: seq<string>)
    requires forall i :: 0 <= i < |lines| ==> '\n' !in lines[i]
    ensures Lines(Text(lines)) == lines
  {
    hide LineLength;
    if lines != [] {
      FirstLine(lines[0], Text(lines[1..]));
      LinesOfText(lines[1..]);
    }
  }

  lemma {:induction false} FirstLine(line: string, rest: string)
    requires '\n' !in line
    ensures var text := line + ['\n'] + rest;
      LineLength(text) == |line| && text[..|line|] == line && text[|line| + 1..] == rest
  {
    if line != [] {
      FirstLine(line[1..], rest);
      assert (line + ['\n'] + rest)[1..] == line[1..] + ['\n'] + rest;
    }
  }

  /** The file's content for a snapshot of the seven dividers. */
  method Save(devicePath: string, referenceClockHz: nat, dividers: seq<int>) returns (file: Option<string>)
    requires forall i :: 0 <= i < |dividers| ==> 0 <= dividers[i]
    ensures file.None? <==> |dividers| < OUTPUT_COUNT
    ensures file.Some? ==> file.value == Text(SavedLines(devicePath, referenceClockHz, dividers))
  {
    var lines := Header(devicePath, referenceClockHz);
    for index := 0 to OUTPUT_COUNT
      invariant |lines| == 3 + index && index <= |dividers|
      invariant lines[..3] == Header(devicePath, referenceClockHz)
      invariant forall k :: 0 <= k < index ==> lines[3 + k] == OutputLine(k, dividers[k])
    {
      if index >= |dividers| {
        return None;
      }
      lines := lines + [OutputLine(index, dividers[index])];
    }
    assert lines == SavedLines(devicePath, referenceClockHz, dividers);
    return Some(Text(lines));
  }

  /** In two halves, because the verifier does not look into a literal of this length. */
  const COMMENT := "# Auto-generated by MyIoT" + " JNDM123 divider control"

  function OutputLine(output: nat, divider: nat): string
    requires output < OUTPUT_COUNT
  {
    KeyOfOutput(output) + "=" + Print(divider)
  }

  function SavedPath(devicePath: string): string {
    if devicePath == [] then DEFAULT_DEVICE else devicePath
  }

  function Header(devicePath: string, referenceClockHz: nat): (lines: seq<string>)
    ensures |lines| == 3
  {
    [COMMENT,
     DEVICE_PATH + "=" + SavedPath(devicePath),
     REFERENCE_CLOCK + "=" + Print(referenceClockHz)]
  }

  function SavedLines(devicePath: string, referenceClockHz: nat, dividers: seq<int>): (lines: seq<string>)
    requires |dividers| >= OUTPUT_COUNT
    requires forall i :: 0 <= i < |dividers| ==> 0 <= dividers[i]
    ensures |lines| == 3 + OUTPUT_COUNT
  {
    Header(devicePath, referenceClockHz)
    + seq(OUTPUT_COUNT, i requires 0 <= i < OUTPUT_COUNT => OutputLine(i, dividers[i]))
  }

  /** Reads the file line by line; without a file the defaults remain. */
  method Load(file: Option<string>) returns (c: Configuration)
    ensures c == Loaded(file)
  {
    hide WithPair, Trim, Separator;
    c := EMPTY;
    if file.None? {
      return;
    }
    var lines := Lines(file.value);
    for k := 0 to |lines|
      invariant c.Shaped() && c == WithLines(EMPTY, lines[..k])
    {
      LinesStep(EMPTY, lines, k);
      var line := Trim(lines[k]);
      if line == [] || line[0] == '#' {
        continue;
      }
      var separator := Separator(line);
      if separator == |line| {
        continue;
      }
      c := WithPair(c, Trim(line[..separator]), Trim(line[separator + 1..]));
    }
    assert lines[..|lines|] == lines;
  }

  function Loaded(file: Option<string>): (c: Configuration)
    ensures c.Shaped()
  {
    match file
    case None => EMPTY
    case Some(text) => WithLines(EMPTY, Lines(text))
  }

  // ---- What is saved is what is loaded ----

  lemma SeparatorOf(key: string, value: string)
    requires '=' !in key
    ensures Separator(key + "=" + value) == |key|
    ensures (key + "=" + value)[..|key|] == key && (key + "=" + value)[|key| + 1..] == value
  {
    if key != [] {
      SeparatorOf(key[1..], value);
      assert (key + "=" + value)[1..] == key[1..] + "=" + value;
    }
  }

  lemma PairLine(c: Configuration, key: string, value: string)
    requires c.Shaped() && '=' !in key && key != [] && IsTrimmed(key) && key[0] != '#'
    ensures WithLine(c, key + "=" + value) == WithPair(c, key, Trim(value))
  {
    hide Trim, TrimRight;
    var prefix := key + "=";
    assert prefix[0] == key[0] && prefix[|prefix| - 1] == '=';
    TrimBehind(prefix, value);
    TrimmedStays(key);
    TrimmedOnce(value);
    SeparatorOf(key, TrimRight(value));
  }

  lemma DigitsAreTrimmed(s: string)
    requires AllDigits(s)
    ensures IsTrimmed(s) && '\n' !in s
  {
  }

  lemma OutputLineLoads(c: Configuration, output: nat, divider: nat)
    requires c.Shaped() && output < OUTPUT_COUNT && divider <= DividerLimit(output)
    ensures WithLine(c, OutputLine(output, divider)) == if divider == 0 then c else WithDivider(c, output, divider)
  {
    var key := KeyOfOutput(output);
    DigitsAreTrimmed(Print(divider));
    TrimmedStays(Print(divider));
    PairLine(c, key, Print(divider));
    ParsesPrinted(divider);
    assert OutputOfKey(key) == Some(output);
    assert |key| == 2;
  }

  /** A line feed in the path would begin another line of the file. */
  predicate Savable(devicePath: string, dividers: seq<int>) {
    && '\n' !in devicePath
    && |dividers| == OUTPUT_COUNT
    && forall i :: 0 <= i < OUTPUT_COUNT ==> 0 <= dividers[i] <= DividerLimit(i)
  }

  /** A path is loaded without the white space at its ends; without any path there is the default. */
  function KeptPath(devicePath: string): string {
    if Trim(devicePath) == [] then DEFAULT_DEVICE else Trim(devicePath)
  }

  function KeptClock(hz: nat): nat {
    if ValidClock(hz) then hz else FALLBACK_CLOCK_HZ
  }

  /** The configuration that remembers exactly the dividers that are not zero. */
  function Remembered(devicePath: string, referenceClockHz: nat, dividers: seq<int>): Configuration
    requires |dividers| == OUTPUT_COUNT
  {
    Configuration(KeptPath(devicePath), KeptClock(referenceClockHz),
      seq(OUTPUT_COUNT, i requires 0 <= i < OUTPUT_COUNT => if dividers[i] == 0 then 1 else dividers[i]),
      seq(OUTPUT_COUNT, i requires 0 <= i < OUTPUT_COUNT => dividers[i] != 0))
  }

  /** After the header and n dividers. */
  predicate LoadedUpTo(c: Configuration, devicePath: string, hz: nat, dividers: seq<int>, n: nat) {
    && c.Shaped() && |dividers| == OUTPUT_COUNT && n <= OUTPUT_COUNT
    && c.devicePath == KeptPath(devicePath) && c.referenceClockHz == KeptClock(hz)
    && (forall i :: 0 <= i < n ==> c.dividers[i] == (if dividers[i] == 0 then 1 else dividers[i]) && c.savedOutputs[i] == (dividers[i] != 0))
    && (forall i :: n <= i < OUTPUT_COUNT ==> c.dividers[i] == 1 && !c.savedOutputs[i])
  }

  lemma {:induction false} SavedLinesLoad(devicePath: string, hz: nat, dividers: seq<int>, n: nat)
    requires Savable(devicePath, dividers) && n <= OUTPUT_COUNT
    ensures LoadedUpTo(WithLines(EMPTY, SavedLines(devicePath, hz, dividers)[..3 + n]), devicePath, hz, dividers, n)
  {
    hide WithLine, WithLines, OutputLine;
    var lines := SavedLines(devicePath, hz, dividers);
    if n == 0 {
      HeaderLoads(devicePath, hz);
      assert lines[..3] == Header(devicePath, hz);
    } else {
      SavedLinesLoad(devicePath, hz, dividers, n - 1);
      LinesStep(EMPTY, lines, 2 + n);
      OutputLineLoads(WithLines(EMPTY, lines[..2 + n]), n - 1, dividers[n - 1]);
    }
  }

  lemma LinesStep(c: Configuration, lines: seq<string>, k: nat)
    requires c.Shaped() && k < |lines|
    ensures WithLines(c, lines[..k + 1]) == WithLine(WithLines(c, lines[..k]), lines[k])
  {
    assert lines[..k + 1][..k] == lines[..k];
  }

  lemma HeaderLoads(devicePath: string, hz: nat)
    ensures WithLines(EMPTY, Header(devicePath, hz)) == EMPTY.(devicePath := KeptPath(devicePath), referenceClockHz := KeptClock(hz))
  {
    hide WithLine, Print, KeptPath, KeptClock;
    var lines := Header(devicePath, hz);
    LinesStep(EMPTY, lines, 0);
    LinesStep(EMPTY, lines, 1);
    LinesStep(EMPTY, lines, 2);
    assert lines[..3] == lines;
    CommentLoads();
    PathLoads(EMPTY, devicePath);
    ClockLoads(EMPTY.(devicePath := KeptPath(devicePath)), hz);
  }

  lemma Keys()
    ensures |DEVICE_PATH| == 10 && '=' !in DEVICE_PATH && IsTrimmed(DEVICE_PATH) && DEVICE_PATH[0] == 'd'
    ensures |REFERENCE_CLOCK| == 16 && '=' !in REFERENCE_CLOCK && IsTrimmed(REFERENCE_CLOCK) && REFERENCE_CLOCK[0] == 'r'
    ensures '\n' !in DEVICE_PATH && '\n' !in REFERENCE_CLOCK
  {
  }

  lemma PathLoads(c: Configuration, devicePath: string)
    requires c.Shaped() && c.devicePath == DEFAULT_DEVICE
    ensures WithLine(c, DEVICE_PATH + "=" + SavedPath(devicePath)) == c.(devicePath := KeptPath(devicePath))
  {
    hide WithLine, Trim;
    Keys();
    PairLine(c, DEVICE_PATH, SavedPath(devicePath));
    DefaultIsTrimmed();
  }

  lemma DefaultIsTrimmed()
    ensures Trim(DEFAULT_DEVICE) == DEFAULT_DEVICE && '\n' !in DEFAULT_DEVICE
    ensures Trim([]) == []
  {
    TrimmedStays(DEFAULT_DEVICE);
  }

  lemma ClockLoads(c: Configuration, hz: nat)
    requires c.Shaped() && c.referenceClockHz == FALLBACK_CLOCK_HZ
    ensures WithLine(c, REFERENCE_CLOCK + "=" + Print(hz)) == c.(referenceClockHz := KeptClock(hz))
  {
    hide WithLine, ParseSigned, Trim;
    Keys();
    DigitsAreTrimmed(Print(hz));
    TrimmedStays(Print(hz));
    PairLine(c, REFERENCE_CLOCK, Print(hz));
    ParsesPrinted(hz);
  }

  lemma CommentLoads()
    ensures WithLine(EMPTY, COMMENT) == EMPTY && '\n' !in COMMENT
  {
    assert COMMENT[0] == '#';
    assert TrimLeft(COMMENT) == COMMENT;
  }

  /**
   * A saved configuration is loaded as it was, except that an output with divider zero counts as
   * not saved, an invalid clock as the fallback, and that the path loses white space at its ends.
   */
  lemma SavedIsLoaded(devicePath: string, hz: nat, dividers: seq<int>)
    requires Savable(devicePath, dividers)
    ensures Loaded(Some(Text(SavedLines(devicePath, hz, dividers)))) == Remembered(devicePath, hz, dividers)
  {
    hide WithLines, OutputLine, Lines, Text;
    var lines := SavedLines(devicePath, hz, dividers);
    OneLineEach(devicePath, hz, dividers);
    LinesOfText(lines);
    SavedLinesLoad(devicePath, hz, dividers, OUTPUT_COUNT);
    assert lines[..3 + OUTPUT_COUNT] == lines;
    var c, r := WithLines(EMPTY, lines), Remembered(devicePath, hz, dividers);
    assert c.dividers == r.dividers;
    assert c.savedOutputs == r.savedOutputs;
  }

  lemma OneLineEach(devicePath: string, hz: nat, dividers: seq<int>)
    requires Savable(devicePath, dividers)
    ensures forall line :: line in SavedLines(devicePath, hz, dividers) ==> '\n' !in line
  {
    hide Print;
    Keys();
    var lines := SavedLines(devicePath, hz, dividers);
    forall line | line in lines ensures '\n' !in line {
      var i :| 0 <= i < |lines| && lines[i] == line;
      if i == 0 {
        CommentLoads();
      } else if i == 2 {
        DigitsAreTrimmed(Print(hz));
      } else if i >= 3 {
        DigitsAreTrimmed(Print(dividers[i - 3]));
        assert lines[i] == OutputLine(i - 3, dividers[i - 3]);
      } else {
        DefaultIsTrimmed();
      }
    }
  }
}
