/**
 * The text a `RawLine` was cut from: the measurement, the tags after a comma,
 * a space, the fields, and a space and the timestamp when there is one. Put
 * back together, the line parser's results give its input.
 */
module LineText {
  import opened Wrappers
  import opened Scanning
  import MeasurementScanner
  import TagScanner
  import FieldScanner
  import opened LineParser

  /** `key=value` as it stands in the line. */
  function PairText(p: RawKeyValuePair): string {
    p.key + ['='] + p.value
  }

  /** Pairs as they stand in the line, separated by commas. */
  function JoinPairs(ps: seq<RawKeyValuePair>): string
    decreases |ps|
  {
    if ps == [] then []
    else if |ps| == 1 then PairText(ps[0])
    else PairText(ps[0]) + [','] + JoinPairs(ps[1..])
  }

  /** The measurement and the tags, up to and including the space before the fields. */
  function Head(l: RawLine): string {
    l.measurement + (if l.tags == [] then [] else [','] + JoinPairs(l.tags)) + [' ']
  }

  /** The text a raw line was cut from (up to the end of the fields when there is no timestamp). */
  function LineText(l: RawLine): string {
    Head(l) + JoinPairs(l.fields) + (match l.timestamp case Some(ts) => [' '] + ts case None => [])
  }

  /** Joining one more pair in front puts it and a comma before the rest. */
  lemma JoinCons(p: RawKeyValuePair, ps: seq<RawKeyValuePair>)
    ensures JoinPairs([p] + ps) == if ps == [] then PairText(p) else PairText(p) + [','] + JoinPairs(ps)
  {
    assert ([p] + ps)[0] == p && ([p] + ps)[1..] == ps;
  }

  /** One more pair and a comma in front of pairs that a space and `after` follow. */
  lemma JoinStep(line: string, pair: RawKeyValuePair, rest: string, more: seq<RawKeyValuePair>, after: string)
    requires line == PairText(pair) + [','] + rest
    requires rest == JoinPairs(more) + [' '] + after
    requires more != []
    ensures JoinPairs([pair] + more) + [' '] + after == line
  {
    JoinCons(pair, more);
  }

  /** One more pair and a comma in front of pairs that begin the rest of the line. */
  lemma JoinStepPrefix(line: string, pair: RawKeyValuePair, rest: string, more: seq<RawKeyValuePair>)
    requires line == PairText(pair) + [','] + rest
    requires JoinPairs(more) <= rest
    requires more != []
    ensures JoinPairs([pair] + more) <= line
  {
    JoinCons(pair, more);
    var head, j := PairText(pair) + [','], JoinPairs(more);
    assert line == head + rest;
    assert rest[..|j|] == j;
    assert (head + rest)[..|head + j|] == head + rest[..|j|];
  }

  /** The tags, with commas between them and the space after them, spell out the line in order. */
  lemma {:induction false} ParseTagsSpellsLine(line: string)
    requires ParseTags(line).Ok?
    ensures JoinPairs(ParseTags(line).value.0) + [' '] + ParseTags(line).value.1 == line
    decreases |line|
  {
    var scanned := TagScanner.Scan(line).value;
    if scanned.1.Tag? {
      var rest := scanned.1.tags;
      ParseTagsSpellsLine(rest);
      JoinStep(line, scanned.0, rest, ParseTags(rest).value.0, ParseTags(rest).value.1);
    }
  }

  /**
   * With commas between them the fields spell out the line up to the space
   * before the timestamp, and a prefix of it when there is no timestamp.
   */
  lemma {:induction false} ParseFieldsSpellsLine(line: string)
    requires ParseFields(line).Ok?
    ensures ParseFields(line).value.1.Some? ==> JoinPairs(ParseFields(line).value.0) + [' '] + ParseFields(line).value.1.value == line
    ensures ParseFields(line).value.1.None? ==> JoinPairs(ParseFields(line).value.0) <= line
    decreases |line|
  {
    var scanned := FieldScanner.Scan(line).value;
    if scanned.1.Field? {
      var rest := scanned.1.fields;
      ParseFieldsSpellsLine(rest);
      var more := ParseFields(rest).value.0;
      var timestamp := ParseFields(rest).value.1;
      if timestamp.Some? {
        JoinStep(line, scanned.0, rest, more, timestamp.value);
      } else {
        JoinStepPrefix(line, scanned.0, rest, more);
      }
    }
  }

  /** The head, then fields that spell out the rest up to the timestamp, give the line text. */
  lemma HeadThenFields(l: RawLine, fieldsTail: string, line: string)
    requires line == Head(l) + fieldsTail
    requires l.timestamp.Some? ==> JoinPairs(l.fields) + [' '] + l.timestamp.value == fieldsTail
    requires l.timestamp.None? ==> JoinPairs(l.fields) <= fieldsTail
    ensures l.timestamp.Some? ==> LineText(l) == line
    ensures l.timestamp.None? ==> LineText(l) <= line
  {
    var h, j := Head(l), JoinPairs(l.fields);
    if l.timestamp.None? {
      assert LineText(l) == h + j;
      assert fieldsTail[..|j|] == j;
      assert (h + fieldsTail)[..|h + j|] == h + fieldsTail[..|j|];
    }
  }

  /** A measurement, a comma, then tags spelling out the text up to the fields, make up the head. */
  lemma TagsHead(l: RawLine, rest: string, fieldsTail: string, line: string)
    requires l.tags != []
    requires line == l.measurement + [','] + rest
    requires rest == JoinPairs(l.tags) + [' '] + fieldsTail
    ensures line == Head(l) + fieldsTail
  {
  }

  /** With tags, the head spells out the input up to the text the fields were parsed from. */
  lemma TaggedLineHead(line: string) returns (fieldsTail: string)
    requires ParseLine(line).Ok? && MeasurementScanner.Scan(line).value.1.Tags?
    ensures line == Head(ParseLine(line).value) + fieldsTail
    ensures ParseFields(fieldsTail).Ok?
    ensures (ParseLine(line).value.fields, ParseLine(line).value.timestamp) == ParseFields(fieldsTail).value
  {
    var l := ParseLine(line).value;
    var measured := MeasurementScanner.Scan(line).value;
    var rest := measured.1.tags;
    var tagged := ParseTags(rest);
    assert tagged.Ok?;
    fieldsTail := tagged.value.1;
    assert l == RawLine(measured.0, tagged.value.0, ParseFields(fieldsTail).value.0, ParseFields(fieldsTail).value.1);
    ParseTagsSpellsLine(rest);
    TagsHead(l, rest, fieldsTail, line);
  }

  /** Without tags, the head is the measurement and the space before the fields. */
  lemma UntaggedLineHead(line: string) returns (fieldsTail: string)
    requires ParseLine(line).Ok? && MeasurementScanner.Scan(line).value.1.Fields?
    ensures line == Head(ParseLine(line).value) + fieldsTail
    ensures ParseFields(fieldsTail).Ok?
    ensures (ParseLine(line).value.fields, ParseLine(line).value.timestamp) == ParseFields(fieldsTail).value
  {
    var l := ParseLine(line).value;
    var measured := MeasurementScanner.Scan(line).value;
    fieldsTail := measured.1.fields;
    assert line == measured.0 + [' '] + fieldsTail;
    assert l == RawLine(measured.0, [], ParseFields(fieldsTail).value.0, ParseFields(fieldsTail).value.1);
    assert Head(l) == measured.0 + [' '];
  }

  /**
   * The pieces of a parsed line spell out the input: all of it when there
   * is a timestamp, a prefix of it otherwise.
   */
  lemma ParseLineSpellsLine(line: string)
    requires ParseLine(line).Ok?
    ensures ParseLine(line).value.timestamp.Some? ==> LineText(ParseLine(line).value) == line
    ensures ParseLine(line).value.timestamp.None? ==> LineText(ParseLine(line).value) <= line
  {
    var fieldsTail;
    if MeasurementScanner.Scan(line).value.1.Tags? {
      fieldsTail := TaggedLineHead(line);
    } else {
      fieldsTail := UntaggedLineHead(line);
    }
    ParseFieldsSpellsLine(fieldsTail);
    HeadThenFields(ParseLine(line).value, fieldsTail, line);
  }
}
