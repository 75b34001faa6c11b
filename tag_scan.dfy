/**
 * `TagParser` and `TagValueParser` of src/line/parsing/tag.rs: a tag is a key
 * (read by the key scanner) and a still escaped value running to the first
 * unescaped `,` (another tag follows) or space (the fields follow). The value
 * scanner treats backslashes like the measurement scanner does.
 */
module TagScanner {
  import opened Wrappers
  import opened Errors
  import opened Scanning
  import KeyScanner

  const Delimiters: seq<char> := [',', ' ']

  /** What follows a tag value. */
  datatype TagParserTail = Tag(tags: string) | Fields(fields: string)

  function Rest(t: TagParserTail): string {
    match t
    case Tag(s) => s
    case Fields(s) => s
  }

  function DelimiterOf(t: TagParserTail): char {
    if t.Tag? then ',' else ' '
  }

  /**
   * What `TagValueParser::process` computes. On success the value is non-empty
   * and followed in the text by the delimiter its tail names.
   */
  function ScanValue(line: string): (r: Result<(string, TagParserTail), InfluxLineError>)
    ensures r.Ok? ==> r.value.0 != [] && r.value.0 + [DelimiterOf(r.value.1)] + Rest(r.value.1) == line
    ensures r.Ok? ==> FirstStop(Sticky, Delimiters, line) == Some(|r.value.0|)
    ensures r.Err? ==> r.error == NoValue || r.error == NoFields
  {
    match FirstStop(Sticky, Delimiters, line)
    case None => Err(NoFields)
    case Some(k) =>
      if k == 0 then Err(NoValue)
      else
        var (value, tail) := ExclusiveSplitAt(line, k);
        if line[k] == ',' then Ok((value, Tag(tail))) else Ok((value, Fields(tail)))
  }

  /** `TagValueParser::new().process(line)`: one pass with the escape flag as a local. */
  method ProcessValue(line: string) returns (r: Result<(string, TagParserTail), InfluxLineError>)
    ensures r == ScanValue(line)
  {
    var escaped := No;
    var index := 0;
    while index < |line|
      invariant 0 <= index <= |line|
      invariant escaped == FlagBefore(Sticky, line, index)
      invariant forall j :: 0 <= j < index ==> !StopsAt(Sticky, Delimiters, line, j)
    {
      var character := line[index];
      if escaped == No && (character == ',' || character == ' ') && index == 0 {
        return Err(NoValue);
      } else if escaped == No && character == ',' {
        FirstStopIs(Sticky, Delimiters, line, index);
        var (value, tail) := ExclusiveSplitAt(line, index);
        return Ok((value, Tag(tail)));
      } else if escaped == No && character == ' ' {
        FirstStopIs(Sticky, Delimiters, line, index);
        var (value, tail) := ExclusiveSplitAt(line, index);
        return Ok((value, Fields(tail)));
      } else if escaped == No && character == '\\' {
        escaped := Yes;
      } else if escaped == No {
      } else if character == '\\' {
        escaped := Yes;
      } else {
        escaped := No;
      }
      index := index + 1;
    }
    return Err(NoFields);
  }

  /**
   * What `TagParser::process` computes: the key, then the value from the rest.
   * On success the pair and its delimiters spell out a prefix of the line, so
   * the tail is strictly shorter than the line.
   */
  function Scan(line: string): (r: Result<(RawKeyValuePair, TagParserTail), InfluxLineError>)
    ensures r.Ok? ==> r.value.0.key + ['='] + r.value.0.value + [DelimiterOf(r.value.1)] + Rest(r.value.1) == line
    ensures r.Ok? ==> r.value.0.value != [] && |Rest(r.value.1)| < |line|
  {
    match KeyScanner.Scan(line)
    case Err(e) => Err(e)
    case Ok((key, valueTail)) =>
      match ScanValue(valueTail)
      case Err(e) => Err(e)
      case Ok((value, tail)) => Ok((RawKeyValuePair(key, value), tail))
  }

  /** `TagParser.process(line)`. */
  method Process(line: string) returns (r: Result<(RawKeyValuePair, TagParserTail), InfluxLineError>)
    ensures r == Scan(line)
  {
    var keyResult := KeyScanner.Process(line);
    if keyResult.Err? {
      return Err(keyResult.error);
    }
    var (key, valueTail) := keyResult.value;
    var valueResult := ProcessValue(valueTail);
    if valueResult.Err? {
      return Err(valueResult.error);
    }
    var (value, tail) := valueResult.value;
    return Ok((RawKeyValuePair(key, value), tail));
  }

  /** Under the sticky rule, a delimiter stops the value scan exactly when no backslash precedes it. */
  lemma StopsIff(line: string, j: nat)
    requires j < |line|
    ensures StopsAt(Sticky, Delimiters, line, j) <==> line[j] in Delimiters && !(j > 0 && line[j - 1] == '\\')
  {
    StickyFlag(line, j);
  }

  /** A value starting with an unescaped `,` or space is missing. */
  lemma MissingValue(key: string, rest: string, d: char)
    requires KeyScanner.Scan(key + ['='] + [d] + rest) == Ok((key, [d] + rest))
    requires d in Delimiters
    ensures Scan(key + ['='] + [d] + rest) == Err(NoValue)
  {
    FirstStopIs(Sticky, Delimiters, [d] + rest, 0);
  }

  /** Text with no delimiter and no backslash. */
  predicate PlainText(s: string) {
    forall i :: 0 <= i < |s| ==> s[i] !in Delimiters && s[i] != '\\'
  }

  /**
   * A plain value ends at the delimiter after it, which names the tail, as in
   * `value field=true` and `1,tag2=2 field=true`; a delimiter at the very end,
   * as in `no_next_tag,`, leaves an empty tail.
   */
  lemma PlainValueEnds(value: string, d: char, rest: string)
    requires value != [] && PlainText(value) && d in Delimiters
    ensures ScanValue(value + [d] + rest) == Ok((value, if d == ',' then Tag(rest) else Fields(rest)))
  {
    var s := value + [d] + rest;
    forall j | 0 <= j <= |value|
      ensures StopsAt(Sticky, Delimiters, s, j) <==> j == |value|
    {
      StopsIff(s, j);
      assert s[j] == if j < |value| then value[j] else d;
      assert j > 0 ==> s[j - 1] == value[j - 1];
    }
    FirstStopIs(Sticky, Delimiters, s, |value|);
    assert s[..|value|] == value && s[|value| + 1..] == rest;
  }

  /** The end of the input without a delimiter means the fields are missing, as in `tav=value`. */
  lemma PlainValueWithoutTail(value: string)
    requires PlainText(value)
    ensures ScanValue(value) == Err(NoFields)
  {
    forall j | 0 <= j < |value| ensures !StopsAt(Sticky, Delimiters, value, j) {
      StopsIff(value, j);
    }
  }

  /**
   * A backslash before a delimiter keeps it inside the raw value, as in
   * `super\ co\=\,ol,tag2=2`: the value runs to the next delimiter.
   */
  lemma EscapedDelimiterStaysInValue(p: string, c: char, q: string, d: char, rest: string)
    requires PlainText(p) && PlainText(q) && c in Delimiters && d in Delimiters
    ensures ScanValue(p + ['\\', c] + q + [d] + rest)
         == Ok((p + ['\\', c] + q, if d == ',' then Tag(rest) else Fields(rest)))
  {
    var value := p + ['\\', c] + q;
    var s := value + [d] + rest;
    var n := |p|;
    assert s == p + ['\\', c] + q + [d] + rest;
    forall j | 0 <= j <= |value|
      ensures StopsAt(Sticky, Delimiters, s, j) <==> j == |value|
    {
      StopsIff(s, j);
      if j < n {
        assert s[j] == p[j];
      } else if j == n {
        assert s[j] == '\\';
      } else if j == n + 1 {
        assert s[j - 1] == '\\';
      } else if j < |value| {
        assert s[j] == q[j - n - 2];
      } else {
        assert s[j] == d;
        assert s[j - 1] == if q == [] then c else q[|q| - 1];
      }
    }
    FirstStopIs(Sticky, Delimiters, s, |value|);
    assert s[..|value|] == value && s[|value| + 1..] == rest;
  }

  /** A tag with a plain key and a plain value ends at the first `,` or space after the `=`. */
  lemma PlainTag(key: string, value: string, d: char, rest: string)
    requires KeyScanner.PlainText(key) && value != [] && PlainText(value) && d in Delimiters
    ensures Scan(key + ['='] + value + [d] + rest)
         == Ok((RawKeyValuePair(key, value), if d == ',' then Tag(rest) else Fields(rest)))
  {
    var s := value + [d] + rest;
    assert key + ['='] + value + [d] + rest == key + ['='] + s;
    KeyScanner.PlainKey(key, s);
    PlainValueEnds(value, d, rest);
  }
}
