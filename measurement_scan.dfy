/**
 * `MeasurementParser` of src/line/parsing/measurement.rs: reads the still
 * escaped measurement name up to the first unescaped `,` (tags follow) or
 * space (fields follow). A backslash escapes what follows it, and a run of
 * backslashes keeps the escape on.
 */
module MeasurementScanner {
  import opened Wrappers
  import opened Errors
  import opened Scanning

  const Delimiters: seq<char> := [',', ' ']

  /** What follows the measurement. */
  datatype MeasurementTail = Tags(tags: string) | Fields(fields: string)

  function Rest(t: MeasurementTail): string {
    match t
    case Tags(s) => s
    case Fields(s) => s
  }

  function DelimiterOf(t: MeasurementTail): char {
    if t.Tags? then ',' else ' '
  }

  /**
   * What `process` computes. On success the measurement is non-empty, it is
   * followed in the line by the delimiter the tail names, and that delimiter is
   * the first unescaped one.
   */
  function Scan(line: string): (r: Result<(string, MeasurementTail), InfluxLineError>)
    ensures r.Ok? ==> r.value.0 != [] && r.value.0 + [DelimiterOf(r.value.1)] + Rest(r.value.1) == line
    ensures r.Ok? ==> FirstStop(Sticky, Delimiters, line) == Some(|r.value.0|)
    ensures r.Err? ==> r.error == NoMeasurement || r.error == NoWhitespaceDelimiter
  {
    match FirstStop(Sticky, Delimiters, line)
    case None => Err(NoWhitespaceDelimiter)
    case Some(k) =>
      if k == 0 then Err(NoMeasurement)
      else
        var (m, tail) := ExclusiveSplitAt(line, k);
        if line[k] == ',' then Ok((m, Tags(tail))) else Ok((m, Fields(tail)))
  }

  /** `MeasurementParser::new().process(line)`: one pass with the escape flag as a local. */
  method Process(line: string) returns (r: Result<(string, MeasurementTail), InfluxLineError>)
    ensures r == Scan(line)
  {
    var escaped := No;
    var index := 0;
    while index < |line|
      invariant 0 <= index <= |line|
      invariant escaped == FlagBefore(Sticky, line, index)
      invariant forall j :: 0 <= j < index ==> !StopsAt(Sticky, Delimiters, line, j)
    {
      var character := line[index];
      if escaped == No && (character == ',' || character == ' ') && index == 0 {
        return Err(NoMeasurement);
      } else if escaped == No && character == ',' {
        FirstStopIs(Sticky, Delimiters, line, index);
        var (measurement, tail) := ExclusiveSplitAt(line, index);
        return Ok((measurement, Tags(tail)));
      } else if escaped == No && character == ' ' {
        FirstStopIs(Sticky, Delimiters, line, index);
        var (measurement, tail) := ExclusiveSplitAt(line, index);
        return Ok((measurement, Fields(tail)));
      } else if escaped == No && character == '\\' {
        escaped := Yes;
      } else if escaped == No {
      } else if character == '\\' {
      } else {
        escaped := No;
      }
      index := index + 1;
    }
    return Err(NoWhitespaceDelimiter);
  }

  /** NoMeasurement exactly when the line starts with `,` or space. */
  lemma NoMeasurementIff(line: string)
    ensures Scan(line) == Err(NoMeasurement) <==> line != [] && line[0] in Delimiters
  {
    if line != [] && line[0] in Delimiters {
      assert StopsAt(Sticky, Delimiters, line, 0);
    }
  }

  /** Under the sticky rule, a delimiter stops the scan exactly when no backslash precedes it. */
  lemma StopsIff(line: string, j: nat)
    requires j < |line|
    ensures StopsAt(Sticky, Delimiters, line, j) <==> line[j] in Delimiters && !(j > 0 && line[j - 1] == '\\')
  {
    StickyFlag(line, j);
  }

  /** NoWhitespaceDelimiter exactly when every `,` and space of the line follows a backslash. */
  lemma NoDelimiterIff(line: string)
    ensures Scan(line) == Err(NoWhitespaceDelimiter)
        <==> forall j :: 0 <= j < |line| && line[j] in Delimiters ==> j > 0 && line[j - 1] == '\\'
  {
    forall j | 0 <= j < |line| {
      StopsIff(line, j);
    }
  }

  /** Inside a scanned measurement every `,` and space follows a backslash, and the delimiter does not. */
  lemma MeasurementDelimitersEscaped(line: string)
    requires Scan(line).Ok?
    ensures var m := Scan(line).value.0;
      forall j :: 0 <= j < |m| && m[j] in Delimiters ==> j > 0 && m[j - 1] == '\\'
    ensures var m := Scan(line).value.0;
      line[|m|] in Delimiters && line[|m| - 1] != '\\'
  {
    var m := Scan(line).value.0;
    var k := |m|;
    assert forall j :: 0 <= j < k ==> m[j] == line[j];
    forall j | 0 <= j < k && m[j] in Delimiters
      ensures j > 0 && m[j - 1] == '\\'
    {
      DelimitersBeforeStopAreEscaped(Sticky, Delimiters, line, k, j);
    }
    StickyFlag(line, k);
  }

  /** Example: a doubled backslash keeps the comma escaped, so the scan ends at the space. */
  lemma DoubledBackslashKeepsEscape()
    ensures Scan("a\\\\,b c") == Ok(("a\\\\,b", Fields("c")))
  {
    var s := "a\\\\,b c";
    forall j | 0 <= j < |s| {
      StopsIff(s, j);
    }
    FirstStopIs(Sticky, Delimiters, s, 5);
    assert s[..5] == "a\\\\,b" && s[6..] == "c";
  }

  /** Example: an escaped space stays in the measurement; the comma after it ends it. */
  lemma EscapedSpaceStaysInside()
    ensures Scan("my\\ cpu,host=a f=1") == Ok(("my\\ cpu", Tags("host=a f=1")))
  {
    var s := "my\\ cpu,host=a f=1";
    forall j | 0 <= j < |s| {
      StopsIff(s, j);
    }
    FirstStopIs(Sticky, Delimiters, s, 7);
    assert s[..7] == "my\\ cpu" && s[8..] == "host=a f=1";
  }

  /** A measurement without delimiters or backslashes ends at the first `,` or space. */
  lemma PlainMeasurement(m: string, d: char, rest: string)
    requires m != [] && d in Delimiters
    requires forall i :: 0 <= i < |m| ==> m[i] !in Delimiters && m[i] != '\\'
    ensures Scan(m + [d] + rest) == Ok((m, if d == ',' then Tags(rest) else Fields(rest)))
  {
    var s := m + [d] + rest;
    forall j | 0 <= j <= |m|
      ensures StopsAt(Sticky, Delimiters, s, j) <==> j == |m|
    {
      StopsIff(s, j);
      assert s[j] == if j < |m| then m[j] else d;
      assert j > 0 ==> s[j - 1] == m[j - 1];
    }
    FirstStopIs(Sticky, Delimiters, s, |m|);
    assert s[..|m|] == m && s[|m| + 1..] == rest;
  }
}
