/**
 * `FieldParser` and its value scanners of src/line/parsing/field.rs. A field is
 * a key (read by the key scanner) and a value. A value starting with `"` is a
 * quoted string, read by a four-state machine; any other value is read up to
 * the first `,` (another field follows), space (the timestamp follows) or
 * newline (the line ends), and may not contain a backslash.
 */
module FieldScanner {
  import opened Wrappers
  import opened Errors
  import opened Scanning
  import KeyScanner
  import EscapeParser
  import Quoted

  /** What follows a field value. The source's `None` variant is called `NoTail` here. */
  datatype FieldParserTail = Timestamp(timestamp: string) | Field(fields: string) | NoTail

  // Bare values

  const SimpleStops: seq<char> := ['\\', ' ', ',', '\n']

  /**
   * What `SimpleValueParser::process` computes. The first backslash, space,
   * comma or newline decides; a space or comma may not come first.
   */
  function ScanSimple(line: string): (r: Result<(string, FieldParserTail), InfluxLineError>)
    ensures r.Err? ==> r.error == UnexpectedEscapeSymbol || r.error == NoValue
    ensures r.Ok? ==> r.value.0 <= line && '\\' !in r.value.0
    ensures r.Ok? && r.value.1.Timestamp? ==> r.value.0 != [] && r.value.0 + [' '] + r.value.1.timestamp == line
    ensures r.Ok? && r.value.1.Field? ==> r.value.0 != [] && r.value.0 + [','] + r.value.1.fields == line
  {
    match FirstStop(NoEscapes, SimpleStops, line)
    case None =>
      assert forall j :: 0 <= j < |line| ==> line[j] != '\\' by {
        forall j | 0 <= j < |line| ensures line[j] != '\\' {
          assert !StopsAt(NoEscapes, SimpleStops, line, j);
          assert j == 0 || FlagBefore(NoEscapes, line, j) == No;
        }
      }
      Ok((line, NoTail))
    case Some(k) =>
      assert forall j :: 0 <= j < k ==> line[j] != '\\' by {
        forall j | 0 <= j < k ensures line[j] != '\\' {
          assert !StopsAt(NoEscapes, SimpleStops, line, j);
          assert j == 0 || FlagBefore(NoEscapes, line, j) == No;
        }
      }
      if line[k] == '\\' then Err(UnexpectedEscapeSymbol)
      else if k == 0 && line[k] != '\n' then Err(NoValue)
      else
        var (value, tail) := ExclusiveSplitAt(line, k);
        assert value == line[..k];
        if line[k] == ' ' then Ok((value, Timestamp(tail)))
        else if line[k] == ',' then Ok((value, Field(tail)))
        else Ok((value, NoTail))
  }

  /** `SimpleValueParser.process(line)`: one pass, returning at the first character that decides. */
  method ProcessSimple(line: string) returns (r: Result<(string, FieldParserTail), InfluxLineError>)
    ensures r == ScanSimple(line)
  {
    var index := 0;
    while index < |line|
      invariant 0 <= index <= |line|
      invariant forall j :: 0 <= j < index ==> !StopsAt(NoEscapes, SimpleStops, line, j)
    {
      var character := line[index];
      assert FlagBefore(NoEscapes, line, index) == No;
      if character == '\\' {
        FirstStopIs(NoEscapes, SimpleStops, line, index);
        return Err(UnexpectedEscapeSymbol);
      } else if (character == ' ' || character == ',') && index == 0 {
        FirstStopIs(NoEscapes, SimpleStops, line, index);
        return Err(NoValue);
      } else if character == ' ' {
        FirstStopIs(NoEscapes, SimpleStops, line, index);
        var (value, tail) := ExclusiveSplitAt(line, index);
        return Ok((value, Timestamp(tail)));
      } else if character == ',' {
        FirstStopIs(NoEscapes, SimpleStops, line, index);
        var (value, tail) := ExclusiveSplitAt(line, index);
        return Ok((value, Field(tail)));
      } else if character == '\n' {
        FirstStopIs(NoEscapes, SimpleStops, line, index);
        var (value, _) := ExclusiveSplitAt(line, index);
        return Ok((value, NoTail));
      }
      index := index + 1;
    }
    return Ok((line, NoTail));
  }

  // Quoted values

  datatype StringState = Start | StringLeftQuote | StringContent | StringRightQuote

  datatype Transition = ToTimestamp | ToNextField

  /** A state and flag after one character, and what `consume_char` returned. */
  datatype Consumed = Consumed(state: StringState, escaped: Escaped, outcome: Result<Option<Transition>, InfluxLineError>)

  /**
   * One step of the quoted-value machine. Inside the quotes a backslash may
   * only escape `\` or `"`; after the closing quote only `,` or space may come.
   * On an error the state is left as it was.
   */
  function Consume(state: StringState, escaped: Escaped, c: char): Consumed {
    match state
    case Start =>
      if c == '"' then Consumed(StringLeftQuote, escaped, Ok(None))
      else Consumed(state, escaped, Err(NoQuoteDelimiter))
    case StringLeftQuote =>
      if c == '"' then Consumed(StringRightQuote, escaped, Ok(None))
      else Consumed(StringContent, if c == '\\' then Yes else escaped, Ok(None))
    case StringContent =>
      if escaped == No then
        if c == '\\' then Consumed(state, Yes, Ok(None))
        else if c == '"' then Consumed(StringRightQuote, escaped, Ok(None))
        else Consumed(state, escaped, Ok(None))
      else if c == '\\' || c == '"' then Consumed(state, No, Ok(None))
      else Consumed(state, escaped, Err(UnexpectedEscapeSymbol))
    case StringRightQuote =>
      if c == ',' then Consumed(state, escaped, Ok(Some(ToNextField)))
      else if c == ' ' then Consumed(state, escaped, Ok(Some(ToTimestamp)))
      else Consumed(state, escaped, Err(SymbolsAfterClosedString))
  }

  class StringValueParser {
    var state: StringState
    var escaped: Escaped

    constructor ()
      ensures state == Start && escaped == No
    {
      state := Start;
      escaped := No;
    }

    /** `consume_char`: one character, in place. */
    method ConsumeChar(character: char) returns (r: Result<Option<Transition>, InfluxLineError>)
      modifies this
      ensures Consumed(state, escaped, r) == Consume(old(state), old(escaped), character)
    {
      match (state, escaped, character) {
        case (Start, _, '"') =>
          state := StringLeftQuote;
          r := Ok(None);
        case (Start, _, _) =>
          r := Err(NoQuoteDelimiter);
        case (StringLeftQuote, _, '"') =>
          state := StringRightQuote;
          r := Ok(None);
        case (StringLeftQuote, _, c) =>
          if c == '\\' {
            escaped := Yes;
          }
          state := StringContent;
          r := Ok(None);
        case (StringContent, No, '\\') =>
          escaped := Yes;
          r := Ok(None);
        case (StringContent, No, '"') =>
          state := StringRightQuote;
          r := Ok(None);
        case (StringContent, No, _) =>
          r := Ok(None);
        case (StringContent, Yes, '\\') =>
          escaped := No;
          r := Ok(None);
        case (StringContent, Yes, '"') =>
          escaped := No;
          r := Ok(None);
        case (StringContent, Yes, _) =>
          r := Err(UnexpectedEscapeSymbol);
        case (StringRightQuote, _, ',') =>
          r := Ok(Some(ToNextField));
        case (StringRightQuote, _, ' ') =>
          r := Ok(Some(ToTimestamp));
        case (StringRightQuote, _, _) =>
          r := Err(SymbolsAfterClosedString);
      }
    }
  }

  /** What the end of the input means in each state. */
  function EndOfInput(line: string, state: StringState): Result<(string, FieldParserTail), InfluxLineError> {
    match state
    case StringRightQuote => Ok((line, NoTail))
    case Start => Err(Failed)
    case StringLeftQuote => Err(NoQuoteDelimiter)
    case StringContent => Err(NoQuoteDelimiter)
  }

  /** The quoted-value scan from position `i` on, in the given state. */
  function ScanStringFrom(line: string, i: nat, state: StringState, escaped: Escaped): Result<(string, FieldParserTail), InfluxLineError>
    requires i <= |line|
    decreases |line| - i
  {
    if i == |line| then EndOfInput(line, state)
    else
      var c := Consume(state, escaped, line[i]);
      match c.outcome
      case Err(e) => Err(e)
      case Ok(Some(ToNextField)) =>
        var (s, tail) := ExclusiveSplitAt(line, i);
        Ok((s, Field(tail)))
      case Ok(Some(ToTimestamp)) =>
        var (s, tail) := ExclusiveSplitAt(line, i);
        Ok((s, Timestamp(tail)))
      case Ok(None) => ScanStringFrom(line, i + 1, c.state, c.escaped)
  }

  /** What `StringValueParser::new().process(line)` computes. */
  function ScanString(line: string): Result<(string, FieldParserTail), InfluxLineError> {
    ScanStringFrom(line, 0, Start, No)
  }

  /** `StringValueParser::new().process(line)`: the machine driven over the line. */
  method ProcessString(line: string) returns (r: Result<(string, FieldParserTail), InfluxLineError>)
    ensures r == ScanString(line)
  {
    var parser := new StringValueParser();
    var index := 0;
    while index < |line|
      invariant 0 <= index <= |line|
      invariant ScanString(line) == ScanStringFrom(line, index, parser.state, parser.escaped)
    {
      var transition := parser.ConsumeChar(line[index]);
      match transition {
        case Err(e) =>
          return Err(e);
        case Ok(Some(ToNextField)) =>
          var (s, tail) := ExclusiveSplitAt(line, index);
          return Ok((s, Field(tail)));
        case Ok(Some(ToTimestamp)) =>
          var (s, tail) := ExclusiveSplitAt(line, index);
          return Ok((s, Timestamp(tail)));
        case Ok(None) =>
      }
      index := index + 1;
    }
    match parser.state {
      case StringRightQuote => r := Ok((line, NoTail));
      case Start => r := Err(Failed);
      case StringLeftQuote => r := Err(NoQuoteDelimiter);
      case StringContent => r := Err(NoQuoteDelimiter);
    }
  }

  // What a scanned quoted value is

  /**
   * How far the quoted-value machine has got, in terms of the decoder of
   * quoted.rs: after the opening quote, the characters read so far (less a
   * closing quote) leave that decoder in the state the machine's flag names.
   */
  ghost predicate Tracks(line: string, i: nat, state: StringState, escaped: Escaped)
    requires i <= |line|
  {
    match state
    case Start => i == 0 && escaped == No
    case StringLeftQuote => i == 1 && line[0] == '"' && escaped == No
    case StringContent =>
      2 <= i && line[0] == '"'
      && EscapeParser.Feed(Quoted.QuotedConfig, EscapeParser.Initial, line[1..i]).state
         == (if escaped == Yes then EscapeParser.SeenEscapeCharacter else EscapeParser.SeenCharacter)
    case StringRightQuote =>
      2 <= i && line[0] == '"' && line[i - 1] == '"'
      && EscapeParser.Feed(Quoted.QuotedConfig, EscapeParser.Initial, line[1..i - 1]).state == EscapeParser.SeenCharacter
  }

  /** A step that neither fails nor ends the value keeps the machine in step with the decoder. */
  lemma TracksStep(line: string, i: nat, state: StringState, escaped: Escaped)
    requires i < |line| && Tracks(line, i, state, escaped)
    requires Consume(state, escaped, line[i]).outcome == Ok(None)
    ensures Tracks(line, i + 1, Consume(state, escaped, line[i]).state, Consume(state, escaped, line[i]).escaped)
  {
    if state == StringLeftQuote || state == StringContent {
      var cfg := Quoted.QuotedConfig;
      assert line[1..i + 1] == line[1..i] + [line[i]];
      EscapeParser.FeedAppend(cfg, EscapeParser.Initial, line[1..i], [line[i]]);
      var m := EscapeParser.Feed(cfg, EscapeParser.Initial, line[1..i]);
      assert EscapeParser.Feed(cfg, m, [line[i]]) == EscapeParser.Step(cfg, m, line[i]);
      assert line[1..i + 1 - 1] == line[1..i];
    }
  }

  /** A prefix the machine closed with a quote is accepted by the decoder. */
  lemma ClosedPrefixDecodes(line: string, i: nat, escaped: Escaped)
    requires i <= |line| && Tracks(line, i, StringRightQuote, escaped)
    ensures Quoted.HasQuoteDelimiters(line[..i]) && Quoted.Decode(line[..i]).Ok?
  {
    var v := line[..i];
    assert v[1..|v| - 1] == line[1..i - 1];
  }

  /**
   * Whatever the quoted-value machine accepts is a quoted string the decoder
   * of quoted.rs accepts, and the value and its delimiter spell out the line.
   */
  lemma {:induction false} ScanStringFromSound(line: string, i: nat, state: StringState, escaped: Escaped)
    requires i <= |line| && Tracks(line, i, state, escaped)
    ensures var r := ScanStringFrom(line, i, state, escaped);
      && (r.Ok? ==> Quoted.HasQuoteDelimiters(r.value.0) && Quoted.Decode(r.value.0).Ok?)
      && (r.Ok? && r.value.1.Field? ==> r.value.0 + [','] + r.value.1.fields == line)
      && (r.Ok? && r.value.1.Timestamp? ==> r.value.0 + [' '] + r.value.1.timestamp == line)
      && (r.Ok? && r.value.1.NoTail? ==> r.value.0 == line)
      && (r.Err? ==> r.error in {NoQuoteDelimiter, UnexpectedEscapeSymbol, SymbolsAfterClosedString, Failed})
    decreases |line| - i
  {
    if i == |line| {
      if state == StringRightQuote {
        ClosedPrefixDecodes(line, i, escaped);
        assert line[..i] == line;
      }
    } else {
      var c := Consume(state, escaped, line[i]);
      if c.outcome == Ok(None) {
        TracksStep(line, i, state, escaped);
        ScanStringFromSound(line, i + 1, c.state, c.escaped);
      } else if c.outcome.Ok? {
        ClosedPrefixDecodes(line, i, escaped);
      }
    }
  }

  // A whole field

  /**
   * What `FieldValueParser.process` computes: a missing value is an error, a
   * value opening with `"` is read as a quoted string, any other as a bare
   * value. A quoted value the scanner accepts is one the decoder accepts; a
   * bare one holds no backslash.
   */
  function ScanValue(line: string): (r: Result<(string, FieldParserTail), InfluxLineError>)
    ensures line == [] ==> r == Err(NoValue)
    ensures r.Err? ==> r.error in {NoValue, UnexpectedEscapeSymbol, NoQuoteDelimiter, SymbolsAfterClosedString, Failed}
    ensures r.Ok? && r.value.1.Field? ==> r.value.0 != [] && r.value.0 + [','] + r.value.1.fields == line
    ensures r.Ok? && r.value.1.Timestamp? ==> r.value.0 != [] && r.value.0 + [' '] + r.value.1.timestamp == line
    ensures r.Ok? ==> r.value.0 <= line
    ensures r.Ok? && line[0] == '"' ==> Quoted.Decode(r.value.0).Ok?
    ensures r.Ok? && line[0] != '"' ==> '\\' !in r.value.0
  {
    if line == [] then Err(NoValue)
    else if line[0] == '"' then
      ScanStringFromSound(line, 0, Start, No);
      ScanString(line)
    else ScanSimple(line)
  }

  /** `FieldValueParser.process(line)`. */
  method ProcessValue(line: string) returns (r: Result<(string, FieldParserTail), InfluxLineError>)
    ensures r == ScanValue(line)
  {
    if |line| == 0 {
      return Err(NoValue);
    } else if line[0] == '"' {
      r := ProcessString(line);
    } else {
      r := ProcessSimple(line);
    }
  }

  function Rest(t: FieldParserTail): string {
    match t
    case Timestamp(s) => s
    case Field(s) => s
    case NoTail => []
  }

  /**
   * What `FieldParser.process` computes: the key, then the value from the rest.
   * A field followed by another field or a timestamp spells out a prefix of
   * the line, so the tail is strictly shorter than the line.
   */
  function Scan(line: string): (r: Result<(RawKeyValuePair, FieldParserTail), InfluxLineError>)
    ensures r.Ok? && r.value.1.Field? ==> r.value.0.key + ['='] + r.value.0.value + [','] + r.value.1.fields == line
    ensures r.Ok? && r.value.1.Timestamp? ==> r.value.0.key + ['='] + r.value.0.value + [' '] + r.value.1.timestamp == line
    ensures r.Ok? ==> r.value.0.key + ['='] + r.value.0.value <= line
    ensures r.Ok? ==> |Rest(r.value.1)| < |line|
  {
    match KeyScanner.Scan(line)
    case Err(e) => Err(e)
    case Ok((key, valueTail)) =>
      match ScanValue(valueTail)
      case Err(e) => Err(e)
      case Ok((value, tail)) =>
        KeyThenValue(line, key, valueTail, value, tail);
        Ok((RawKeyValuePair(key, value), tail))
  }

  /** The key, `=`, and a value scanned from what follows the `=`, spell out the field's line. */
  lemma KeyThenValue(line: string, key: string, valueTail: string, value: string, tail: FieldParserTail)
    requires key + ['='] + valueTail == line
    requires value <= valueTail
    requires tail.Field? ==> value + [','] + tail.fields == valueTail
    requires tail.Timestamp? ==> value + [' '] + tail.timestamp == valueTail
    requires tail.NoTail? || |Rest(tail)| < |valueTail|
    ensures tail.Field? ==> key + ['='] + value + [','] + tail.fields == line
    ensures tail.Timestamp? ==> key + ['='] + value + [' '] + tail.timestamp == line
    ensures key + ['='] + value <= line
    ensures |Rest(tail)| < |line|
  {
    var head := key + ['='];
    assert line == head + valueTail;
    assert valueTail[..|value|] == value;
    assert (head + valueTail)[..|head + value|] == head + valueTail[..|value|];
    if tail.Field? {
      assert head + value + [','] + tail.fields == head + (value + [','] + tail.fields);
    }
    if tail.Timestamp? {
      assert head + value + [' '] + tail.timestamp == head + (value + [' '] + tail.timestamp);
    }
  }

  /** `FieldParser.process(line)`. */
  method Process(line: string) returns (r: Result<(RawKeyValuePair, FieldParserTail), InfluxLineError>)
    ensures r == Scan(line)
  {
    var keyResult := KeyScanner.Process(line);
    if keyResult.Err? {
      return Err(keyResult.error);
    }
    var (key, valueTail) := keyResult.value;
    var valueResult := ProcessValue(valueTail);
    if valueResult.Err? {
      return Err(valueResult.error);
    }
    var (value, tail) := valueResult.value;
    return Ok((RawKeyValuePair(key, value), tail));
  }

  // Properties of bare values

  /** Without escapes every stop character stops the bare-value scan. */
  lemma SimpleStopsIff(line: string, j: nat)
    requires j < |line|
    ensures StopsAt(NoEscapes, SimpleStops, line, j) <==> line[j] in SimpleStops
  {
    assert j == 0 || FlagBefore(NoEscapes, line, j) == No;
  }

  predicate PlainBare(p: string) {
    forall i :: 0 <= i < |p| ==> p[i] !in SimpleStops
  }

  /** A bare value runs to the first space (timestamp next) or comma (field next). */
  lemma SimpleValueEnds(p: string, d: char, t: string)
    requires p != [] && PlainBare(p) && (d == ' ' || d == ',')
    ensures ScanSimple(p + [d] + t) == Ok((p, if d == ' ' then Timestamp(t) else Field(t)))
  {
    var s := p + [d] + t;
    forall j | 0 <= j <= |p|
      ensures StopsAt(NoEscapes, SimpleStops, s, j) <==> j == |p|
    {
      SimpleStopsIff(s, j);
      assert s[j] == if j < |p| then p[j] else d;
    }
    FirstStopIs(NoEscapes, SimpleStops, s, |p|);
    assert s[..|p|] == p && s[|p| + 1..] == t;
  }

  /** A newline ends a bare value and the line, even when the value is empty. */
  lemma NewlineEndsValue(p: string, t: string)
    requires PlainBare(p)
    ensures ScanSimple(p + ['\n'] + t) == Ok((p, NoTail))
  {
    var s := p + ['\n'] + t;
    forall j | 0 <= j <= |p|
      ensures StopsAt(NoEscapes, SimpleStops, s, j) <==> j == |p|
    {
      SimpleStopsIff(s, j);
      assert s[j] == if j < |p| then p[j] else '\n';
    }
    FirstStopIs(NoEscapes, SimpleStops, s, |p|);
    assert s[..|p|] == p;
  }

  /** A backslash anywhere before the end of a bare value is rejected. */
  lemma BackslashInBareValue(p: string, t: string)
    requires PlainBare(p)
    ensures ScanSimple(p + ['\\'] + t) == Err(UnexpectedEscapeSymbol)
  {
    var s := p + ['\\'] + t;
    forall j | 0 <= j <= |p|
      ensures StopsAt(NoEscapes, SimpleStops, s, j) <==> j == |p|
    {
      SimpleStopsIff(s, j);
      assert s[j] == if j < |p| then p[j] else '\\';
    }
    FirstStopIs(NoEscapes, SimpleStops, s, |p|);
  }

  /** A bare value may not open with a space or a comma. */
  lemma BareValueMissing(d: char, t: string)
    requires d == ' ' || d == ','
    ensures ScanValue([d] + t) == Err(NoValue)
  {
    FirstStopIs(NoEscapes, SimpleStops, [d] + t, 0);
  }

  /** A bare value without stop characters runs to the end of the input. */
  lemma SimpleValueToEnd(p: string)
    requires PlainBare(p)
    ensures ScanSimple(p) == Ok((p, NoTail))
  {
    forall j | 0 <= j < |p|
      ensures !StopsAt(NoEscapes, SimpleStops, p, j)
    {
      SimpleStopsIff(p, j);
    }
  }

  // Properties of quoted values

  predicate PlainString(p: string) {
    forall i :: 0 <= i < |p| ==> p[i] != '"' && p[i] != '\\'
  }

  /** Inside the quotes, characters other than `"` and `\` only move the machine on. */
  lemma {:induction false} PlainContentRun(line: string, i: nat, j: nat)
    requires i <= j <= |line| && PlainString(line[i..j])
    ensures ScanStringFrom(line, i, StringContent, No) == ScanStringFrom(line, j, StringContent, No)
    decreases j - i
  {
    if i < j {
      assert line[i] == line[i..j][0];
      assert line[i + 1..j] == line[i..j][1..];
      PlainContentRun(line, i + 1, j);
    }
  }

  /** After `"` and the plain characters `p` the machine waits in the content, no escape pending. */
  lemma EnterContent(line: string, p: string)
    requires |line| > |p| && line[0] == '"' && line[1..|p| + 1] == p && PlainString(p)
    ensures ScanString(line) == ScanStringFrom(line, |p| + 1, if p == [] then StringLeftQuote else StringContent, No)
  {
    assert ScanString(line) == ScanStringFrom(line, 1, StringLeftQuote, No);
    if p != [] {
      assert line[1] == p[0];
      assert Consume(StringLeftQuote, No, line[1]) == Consumed(StringContent, No, Ok(None));
      assert ScanStringFrom(line, 1, StringLeftQuote, No) == ScanStringFrom(line, 2, StringContent, No);
      assert line[2..|p| + 1] == p[1..];
      PlainContentRun(line, 2, |p| + 1);
    }
  }

  /**
   * A plain quoted string, then what follows the closing quote: `,` or space
   * hand over to the next field or the timestamp, the end of the input ends
   * the line, anything else is an error.
   */
  lemma ClosedPlainString(p: string, c: char, t: string)
    requires PlainString(p)
    ensures ScanString(['"'] + p + ['"']) == Ok((['"'] + p + ['"'], NoTail))
    ensures ScanString(['"'] + p + ['"'] + [c] + t)
         == if c == ',' then Ok((['"'] + p + ['"'], Field(t)))
            else if c == ' ' then Ok((['"'] + p + ['"'], Timestamp(t)))
            else Err(SymbolsAfterClosedString)
  {
    var v := ['"'] + p + ['"'];
    var s := v + [c] + t;
    assert v[1..|p| + 1] == p && s[1..|p| + 1] == p;
    EnterContent(v, p);
    EnterContent(s, p);
    assert v[|p| + 1] == '"' && s[|p| + 1] == '"' && s[|p| + 2] == c;
    assert s[..|p| + 2] == v && s[|p| + 3..] == t;
  }

  /** A quote that is never closed: `"string not closed`. */
  lemma UnterminatedString(p: string)
    requires PlainString(p)
    ensures ScanString(['"'] + p) == Err(NoQuoteDelimiter)
  {
    var s := ['"'] + p;
    assert s[1..|p| + 1] == p;
    if p == [] {
      assert ScanString(s) == ScanStringFrom(s, 1, StringLeftQuote, No);
    } else {
      assert ScanString(s) == ScanStringFrom(s, 1, StringLeftQuote, No);
      assert s[1] == p[0];
      assert ScanStringFrom(s, 1, StringLeftQuote, No) == ScanStringFrom(s, 2, StringContent, No);
      assert s[2..|p| + 1] == p[1..];
      PlainContentRun(s, 2, |p| + 1);
    }
  }

  /** Inside the quotes a backslash may only escape `\` or `"`. */
  lemma BadEscapeInString(p: string, c: char, t: string)
    requires PlainString(p) && c != '"' && c != '\\'
    ensures ScanString(['"'] + p + ['\\', c] + t) == Err(UnexpectedEscapeSymbol)
  {
    var s := ['"'] + p + ['\\', c] + t;
    assert s[1..|p| + 1] == p && s[|p| + 1] == '\\' && s[|p| + 2] == c;
    EnterContent(s, p);
  }

  /** An escaped `\` or `"` leaves the machine in the content with no escape pending. */
  lemma EscapedPairInContent(line: string, i: nat)
    requires i + 2 <= |line| && line[i] == '\\' && (line[i + 1] == '\\' || line[i + 1] == '"')
    ensures ScanStringFrom(line, i, StringContent, No) == ScanStringFrom(line, i + 2, StringContent, No)
  {
  }

  /** A field whose value is the result `v` of the value scan on what follows the first `=`. */
  lemma FieldOf(key: string, valueTail: string)
    requires KeyScanner.PlainText(key)
    ensures Scan(key + ['='] + valueTail)
         == match ScanValue(valueTail)
            case Err(e) => Err(e)
            case Ok((v, t)) => Ok((RawKeyValuePair(key, v), t))
  {
    KeyScanner.PlainKey(key, valueTail);
  }

  /** A plain key and a plain bare value, then a space or a comma. */
  lemma BareField(key: string, p: string, d: char, t: string)
    requires KeyScanner.PlainText(key) && p != [] && p[0] != '"' && PlainBare(p) && (d == ' ' || d == ',')
    ensures Scan(key + ['='] + p + [d] + t) == Ok((RawKeyValuePair(key, p), if d == ' ' then Timestamp(t) else Field(t)))
  {
    assert key + ['='] + p + [d] + t == key + ['='] + (p + [d] + t);
    FieldOf(key, p + [d] + t);
    assert (p + [d] + t)[0] == p[0];
    SimpleValueEnds(p, d, t);
  }

  /** A plain key and a plain bare value that runs to the end of the input. */
  lemma BareFieldToEnd(key: string, p: string)
    requires KeyScanner.PlainText(key) && p != [] && p[0] != '"' && PlainBare(p)
    ensures Scan(key + ['='] + p) == Ok((RawKeyValuePair(key, p), NoTail))
  {
    FieldOf(key, p);
    SimpleValueToEnd(p);
  }

  /** A plain key and a plain quoted value that runs to the end of the input. */
  lemma StringFieldToEnd(key: string, p: string)
    requires KeyScanner.PlainText(key) && PlainString(p)
    ensures Scan(key + ['='] + ['"'] + p + ['"']) == Ok((RawKeyValuePair(key, ['"'] + p + ['"']), NoTail))
  {
    assert key + ['='] + ['"'] + p + ['"'] == key + ['='] + (['"'] + p + ['"']);
    FieldOf(key, ['"'] + p + ['"']);
    ClosedPlainString(p, ' ', []);
  }

  // Tests of field.rs

  /**
   * A delimiter at the very end still names a tail, which is then empty, as in
   * `comma=in_the_end,` and `space=in_the_end `.
   */
  lemma TrailingDelimiter(key: string, p: string, d: char)
    requires KeyScanner.PlainText(key) && p != [] && p[0] != '"' && PlainBare(p) && (d == ' ' || d == ',')
    ensures Scan(key + ['='] + p + [d]) == Ok((RawKeyValuePair(key, p), if d == ' ' then Timestamp([]) else Field([])))
  {
    BareField(key, p, d, []);
    assert key + ['='] + p + [d] + [] == key + ['='] + p + [d];
  }

  /** Quoted values keep both quotes: `s=""`. */
  lemma EmptyString()
    ensures Scan("s=\"\"") == Ok((RawKeyValuePair("s", "\"\""), NoTail))
  {
    var key, p := "s", "";
    assert KeyScanner.PlainText(key) && PlainString(p);
    StringFieldToEnd(key, p);
    assert key + ['='] + ['"'] + p + ['"'] == "s=\"\"";
    assert ['"'] + p + ['"'] == "\"\"";
  }

  /** No `=` at all, a missing value, and a comma where the key should be. */
  lemma MissingParts()
    ensures Scan("123") == Err(NoValue)
    ensures Scan("a=") == Err(NoValue)
    ensures Scan("a=,c=d") == Err(NoValue)
    ensures Scan(",") == Err(UnescapedSpecialCharacter)
    ensures Scan("") == Err(NoValue)
  {
    var s := "123";
    forall j | 0 <= j < |s| {
      KeyScanner.StopsIff(s, j);
    }
    assert KeyScanner.PlainText("a");
    FieldOf("a", "");
    assert "a" + ['='] + "" == "a=";
    FieldOf("a", ",c=d");
    assert "a" + ['='] + ",c=d" == "a=,c=d";
    BareValueMissing(',', "c=d");
    assert [','] + "c=d" == ",c=d";
    FirstStopIs(Toggle, KeyScanner.Stops, ",", 0);
  }

  /** A quoted value that is never closed, as in `a="string not closed`. */
  lemma UnclosedStringField(key: string, p: string)
    requires KeyScanner.PlainText(key) && PlainString(p)
    ensures Scan(key + ['='] + ['"'] + p) == Err(NoQuoteDelimiter)
  {
    assert key + ['='] + ['"'] + p == key + ['='] + (['"'] + p);
    FieldOf(key, ['"'] + p);
    UnterminatedString(p);
  }
}
