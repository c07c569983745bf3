/** Reading a solar panel's current output out of its detailed-info text
    (SolarArray.GetSolarPanelPowerOutput). The number conversion that the
    program delegates to Convert.ToSingle is the parameter `parseNum`. */
module PanelInfo {
  import opened TextOps

  /** The name that marks the line with the panel's present output. */
  const OutputName: string := "Current Output"

  /** What the parser returns when no line names the output. */
  const NotFound: real := -1.0

  /** The lines of a panel's detailed info: its text split at every newline. */
  function Lines(info: string): seq<string> {
    Split(info, '\n')
  }

  /** A line reading "<name>: <value>" with exactly one colon, whose trimmed
      name is "Current Output". */
  predicate IsOutputLine(line: string) {
    var nameValue := Split(line, ':');
    |nameValue| == 2 && Trim(nameValue[0]) == OutputName
  }

  /** The trimmed value of a "name: value" line. */
  function LineValue(line: string): string
    requires |Split(line, ':')| == 2
  {
    Trim(Split(line, ':')[1])
  }

  /** The number part of an output line: the first space-separated word
      of its trimmed value; the unit after it is dropped. */
  function OutputToken(line: string): string
    requires IsOutputLine(line)
  {
    Split(LineValue(line), ' ')[0]
  }

  /** The token is the leading word of the value: a prefix of it with no
      space, ending where the value ends or at a space. */
  lemma OutputTokenIsLeadingWord(line: string)
    requires IsOutputLine(line)
    ensures var v, tok := LineValue(line), OutputToken(line);
      ' ' !in tok && tok <= v && (|tok| < |v| ==> v[|tok|] == ' ')
  {
    SplitSpec(LineValue(line), ' ');
    SplitHead(LineValue(line), ' ');
  }

  /** Line k is an output line and no earlier line is. */
  ghost predicate IsFirstOutputLine(lines: seq<string>, k: int) {
    0 <= k < |lines| && IsOutputLine(lines[k]) &&
    forall j :: 0 <= j < k ==> !IsOutputLine(lines[j])
  }

  /** The value the parser reports for these lines: the converted token of
      the first output line, NotFound when no line is one. */
  function FirstOutput(lines: seq<string>, parseNum: string -> real): real
    decreases |lines|
  {
    if lines == [] then NotFound
    else if IsOutputLine(lines[0]) then parseNum(OutputToken(lines[0]))
    else FirstOutput(lines[1..], parseNum)
  }

  /** The output a panel's detailed info reports. */
  function PanelOutput(info: string, parseNum: string -> real): real {
    FirstOutput(Lines(info), parseNum)
  }

  /** With no output line among the lines the parser reports NotFound. */
  lemma {:induction false} NoOutputLine(lines: seq<string>, parseNum: string -> real)
    requires forall k :: 0 <= k < |lines| ==> !IsOutputLine(lines[k])
    ensures FirstOutput(lines, parseNum) == NotFound
    decreases |lines|
  {
    if lines != [] {
      assert !IsOutputLine(lines[0]);
      forall k | 0 <= k < |lines| - 1
        ensures !IsOutputLine(lines[1..][k])
      {
        assert lines[1..][k] == lines[k + 1];
      }
      NoOutputLine(lines[1..], parseNum);
    }
  }

  /** Otherwise it reports the converted token of the first output line. */
  lemma {:induction false} FirstOutputLine(lines: seq<string>, parseNum: string -> real, k: int)
    requires IsFirstOutputLine(lines, k)
    ensures FirstOutput(lines, parseNum) == parseNum(OutputToken(lines[k]))
    decreases k
  {
    if k > 0 {
      assert !IsOutputLine(lines[0]);
      forall j | 0 <= j < k - 1
        ensures !IsOutputLine(lines[1..][j])
      {
        assert lines[1..][j] == lines[j + 1];
      }
      assert lines[1..][k - 1] == lines[k];
      FirstOutputLine(lines[1..], parseNum, k - 1);
    }
  }

  /** A line without a colon, or with more than one, never names the output. */
  lemma ColonCountSkipped(line: string)
    ensures multiset(line)[':'] != 1 ==> !IsOutputLine(line)
  {
    SplitCount(line, ':');
  }

  /** The line a panel writes for its output: name, colon, space, number,
      space, unit. */
  function OutputLine(num: string, unit: string): string {
    OutputName + ": " + num + " " + unit
  }

  /** A number as the panel writes it: non-empty, no white space, no colon. */
  ghost predicate IsNumberToken(num: string) {
    num != [] && ':' !in num && forall i :: 0 <= i < |num| ==> !IsWhiteSpace(num[i])
  }

  /** The first space-separated word of `w + rest` is `w` when `w` has no
      space and `rest` is empty or starts with one. */
  lemma LeadingWord(w: string, rest: string)
    requires ' ' !in w
    requires rest == [] || rest[0] == ' '
    ensures Split(w + rest, ' ')[0] == w
  {
    if rest == [] {
      assert w + rest == w;
      SplitWithoutSeparator(w, ' ');
    } else {
      assert w + rest == w + [' '] + rest[1..];
      SplitAfterPiece(w, rest[1..], ' ');
    }
  }

  /** No white-space character occurs in a number token. */
  lemma NoWhiteSpaceIn(num: string, c: char)
    requires IsNumberToken(num) && IsWhiteSpace(c)
    ensures c !in num
  {
    forall i | 0 <= i < |num|
      ensures num[i] != c
    {
      assert !IsWhiteSpace(num[i]);
    }
  }

  /** TrimEnd never cuts into a prefix that ends with a non-white character. */
  lemma {:induction false} TrimEndKeeps(w: string, rest: string)
    requires w != [] && !IsWhiteSpace(w[|w| - 1])
    ensures w <= TrimEnd(w + rest)
    decreases |rest|
  {
    var s := w + rest;
    if rest == [] {
      assert s == w;
    } else if IsWhiteSpace(s[|s| - 1]) {
      assert s[..|s| - 1] == w + rest[..|rest| - 1];
      TrimEndKeeps(w, rest[..|rest| - 1]);
    }
  }

  /** Trimming " <num> <unit>" keeps the number and what follows it, up to
      the unit's trailing white space. */
  lemma TrimmedValue(num: string, unit: string)
    requires IsNumberToken(num)
    ensures var r := Trim(" " + num + " " + unit);
      num <= r && (|r| == |num| || r[|num|] == ' ')
  {
    var v := num + " " + unit;
    assert (" " + num + " " + unit)[1..] == v;
    assert TrimStart(" " + num + " " + unit) == TrimStart(v);
    assert v[0] == num[0];
    assert TrimStart(v) == v;
    assert !IsWhiteSpace(num[|num| - 1]);
    assert num + (" " + unit) == v;
    TrimEndKeeps(num, " " + unit);
    TrimEndSpec(v);
    var r := TrimEnd(v);
    assert Trim(" " + num + " " + unit) == r;
    assert v[|num|] == ' ';
    assert |r| > |num| ==> r[|num|] == v[|num|];
  }

  /** Such a line is an output line, and its token is the number. */
  lemma OutputLineToken(num: string, unit: string)
    requires IsNumberToken(num) && ':' !in unit
    ensures IsOutputLine(OutputLine(num, unit))
    ensures OutputToken(OutputLine(num, unit)) == num
  {
    var line, value := OutputLine(num, unit), " " + num + " " + unit;
    assert ':' !in OutputName;
    assert line == OutputName + [':'] + value;
    assert ':' !in value by {
      assert value == [' '] + num + [' '] + unit;
    }
    SplitAfterPiece(OutputName, value, ':');
    SplitWithoutSeparator(value, ':');
    assert Split(line, ':') == [OutputName, value];
    assert TrimStart(OutputName) == OutputName;
    assert TrimEnd(OutputName) == OutputName;
    TrimmedValue(num, unit);
    var r := Trim(value);
    NoWhiteSpaceIn(num, ' ');
    assert r == num + r[|num|..];
    LeadingWord(num, r[|num|..]);
  }

  /** An output line holds no newline when its unit holds none. */
  lemma OutputLineOnOneLine(num: string, unit: string)
    requires IsNumberToken(num) && '\n' !in unit
    ensures '\n' !in OutputLine(num, unit)
  {
    assert '\n' !in OutputName;
    NoWhiteSpaceIn(num, '\n');
    assert OutputLine(num, unit) == OutputName + [':', ' '] + num + [' '] + unit;
  }

  /** Lines that each hold no newline, put together. */
  lemma NoNewlineInLines(before: seq<string>, line: string, after: seq<string>)
    requires forall i :: 0 <= i < |before| ==> '\n' !in before[i]
    requires '\n' !in line
    requires forall i :: 0 <= i < |after| ==> '\n' !in after[i]
    ensures var lines := before + [line] + after;
      forall i :: 0 <= i < |lines| ==> '\n' !in lines[i]
  {
    var lines := before + [line] + after;
    forall i | 0 <= i < |lines|
      ensures '\n' !in lines[i]
    {
      if i < |before| {
        assert lines[i] == before[i];
      } else if i > |before| {
        assert lines[i] == after[i - |before| - 1];
      }
    }
  }

  /** Such lines, joined at newlines, are split back into themselves. */
  lemma LinesOfJoin(before: seq<string>, line: string, after: seq<string>)
    requires forall i :: 0 <= i < |before| ==> '\n' !in before[i]
    requires '\n' !in line
    requires forall i :: 0 <= i < |after| ==> '\n' !in after[i]
    ensures Lines(Join(before + [line] + after, '\n')) == before + [line] + after
  {
    NoNewlineInLines(before, line, after);
    SplitJoin(before + [line] + after, '\n');
  }

  /** End to end: a readout whose first output line is "Current Output:
      <num> <unit>" reports parseNum(num), whatever lines come before and
      after it. */
  lemma ReportedOutput(before: seq<string>, num: string, unit: string, after: seq<string>,
                       parseNum: string -> real)
    requires forall i :: 0 <= i < |before| ==> '\n' !in before[i] && !IsOutputLine(before[i])
    requires IsNumberToken(num) && ':' !in unit && '\n' !in unit
    requires forall i :: 0 <= i < |after| ==> '\n' !in after[i]
    ensures PanelOutput(Join(before + [OutputLine(num, unit)] + after, '\n'), parseNum) == parseNum(num)
  {
    var line := OutputLine(num, unit);
    var lines := before + [line] + after;
    OutputLineOnOneLine(num, unit);
    LinesOfJoin(before, line, after);
    OutputLineToken(num, unit);
    assert lines[|before|] == line;
    forall j | 0 <= j < |before|
      ensures !IsOutputLine(lines[j])
    {
      assert lines[j] == before[j];
    }
    FirstOutputLine(lines, parseNum, |before|);
  }

  /** GetSolarPanelPowerOutput: scans the lines of `info` in order, skips a
      line that does not split into exactly one name and one value, and
      returns the converted leading word of the first "Current Output" line;
      NotFound when there is none. */
  method PowerOutput(info: string, parseNum: string -> real) returns (r: real)
    ensures r == PanelOutput(info, parseNum)
  {
    var readout := Lines(info);
    for i := 0 to |readout|
      invariant FirstOutput(readout[i..], parseNum) == PanelOutput(info, parseNum)
    {
      var nameValue := Split(readout[i], ':');
      if |nameValue| != 2 {
        assert readout[i..][1..] == readout[i + 1..];
        continue;
      }
      var name := Trim(nameValue[0]);
      var value := Trim(nameValue[1]);
      if name == OutputName {
        var numberSplit := Split(value, ' ');
        return parseNum(numberSplit[0]);
      }
      assert readout[i..][1..] == readout[i + 1..];
    }
    return NotFound;
  }
}
