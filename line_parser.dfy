/**
 * `LinearLineParser` of src/line/parsing/mod.rs: the measurement, then tags
 * while the tag scanner reports another tag, then fields while the field
 * scanner reports another field. Every piece stays a raw, still escaped slice
 * of the input.
 */
module LineParser {
  import opened Wrappers
  import opened Errors
  import opened Scanning
  import MeasurementScanner
  import TagScanner
  import FieldScanner

  datatype RawLine = RawLine(
    measurement: string,
    tags: seq<RawKeyValuePair>,
    fields: seq<RawKeyValuePair>,
    timestamp: Option<string>)

  /** The pairs `ps` in front of whatever a later parse returns; errors pass through. */
  function Prepend<T>(ps: seq<RawKeyValuePair>, r: Result<(seq<RawKeyValuePair>, T), InfluxLineError>): Result<(seq<RawKeyValuePair>, T), InfluxLineError> {
    if r.Err? then r else Ok((ps + r.value.0, r.value.1))
  }

  /**
   * What `parse_tags` computes: tags until one is followed by a space. At
   * least one tag, each with a value; the first error ends it.
   */
  function ParseTags(line: string): (r: Result<(seq<RawKeyValuePair>, string), InfluxLineError>)
    ensures TagScanner.Scan(line).Err? ==> r == Err(TagScanner.Scan(line).error)
    ensures r.Ok? ==> r.value.0 != [] && forall i :: 0 <= i < |r.value.0| ==> r.value.0[i].value != []
    decreases |line|
  {
    var scanned := TagScanner.Scan(line);
    if scanned.Err? then Err(scanned.error)
    else
      var (pair, tail) := scanned.value;
      if tail.Fields? then Ok(([pair], tail.fields))
      else
        var more := ParseTags(tail.tags);
        if more.Err? then Err(more.error)
        else
          var pairs := [pair] + more.value.0;
          assert pairs[0] == pair && pairs[1..] == more.value.0;
          Ok((pairs, more.value.1))
  }

  /**
   * What `parse_fields` computes: fields until one is followed by a space
   * (the rest is the timestamp) or by nothing. At least one field; the first
   * error ends it.
   */
  function ParseFields(line: string): (r: Result<(seq<RawKeyValuePair>, Option<string>), InfluxLineError>)
    ensures FieldScanner.Scan(line).Err? ==> r == Err(FieldScanner.Scan(line).error)
    ensures r.Ok? ==> r.value.0 != []
    decreases |line|
  {
    var scanned := FieldScanner.Scan(line);
    if scanned.Err? then Err(scanned.error)
    else
      var (pair, tail) := scanned.value;
      if tail.Timestamp? then Ok(([pair], Some(tail.timestamp)))
      else if tail.NoTail? then Ok(([pair], None))
      else
        var more := ParseFields(tail.fields);
        if more.Err? then Err(more.error)
        else Ok(([pair] + more.value.0, more.value.1))
  }

  /**
   * What `LinearLineParser.process` computes. A measurement followed by a
   * space has no tags; a parsed line has a measurement and at least one field.
   */
  function ParseLine(line: string): (r: Result<RawLine, InfluxLineError>)
    ensures MeasurementScanner.Scan(line).Err? ==> r == Err(MeasurementScanner.Scan(line).error)
    ensures r.Ok? ==> r.value.measurement != [] && r.value.fields != []
    ensures r.Ok? && MeasurementScanner.Scan(line).value.1.Fields? ==> r.value.tags == []
  {
    var measured := MeasurementScanner.Scan(line);
    if measured.Err? then Err(measured.error)
    else
      var (measurement, tail) := measured.value;
      var tagged := if tail.Tags? then ParseTags(tail.tags) else Ok(([], tail.fields));
      if tagged.Err? then Err(tagged.error)
      else
        var (tags, fieldsTail) := tagged.value;
        var fielded := ParseFields(fieldsTail);
        if fielded.Err? then Err(fielded.error)
        else Ok(RawLine(measurement, tags, fielded.value.0, fielded.value.1))
  }

  /** Prepending nothing changes nothing. */
  lemma PrependNothing<T>(r: Result<(seq<RawKeyValuePair>, T), InfluxLineError>)
    ensures Prepend([], r) == r
  {
    if r.Ok? {
      assert [] + r.value.0 == r.value.0;
    }
  }

  /** Prepending in two steps is prepending the concatenation. */
  lemma PrependTwice<T>(ps: seq<RawKeyValuePair>, qs: seq<RawKeyValuePair>, r: Result<(seq<RawKeyValuePair>, T), InfluxLineError>)
    ensures Prepend(ps, Prepend(qs, r)) == Prepend(ps + qs, r)
  {
    if r.Ok? {
      assert ps + (qs + r.value.0) == ps + qs + r.value.0;
    }
  }

  /** One round of `parse_tags`: the scanned tag, then either the rest of the tags or the fields. */
  lemma ParseTagsUnfold(line: string)
    requires TagScanner.Scan(line).Ok?
    ensures var (pair, tail) := TagScanner.Scan(line).value;
      ParseTags(line) == Prepend([pair], if tail.Tag? then ParseTags(tail.tags) else Ok(([], tail.fields)))
  {
    var (pair, tail) := TagScanner.Scan(line).value;
    assert [pair] + [] == [pair];
  }

  /** One round of `parse_fields`: the scanned field, then either the rest of the fields or the end. */
  lemma ParseFieldsUnfold(line: string)
    requires FieldScanner.Scan(line).Ok?
    ensures var (pair, tail) := FieldScanner.Scan(line).value;
      ParseFields(line) == Prepend([pair],
        if tail.Field? then ParseFields(tail.fields)
        else if tail.Timestamp? then Ok(([], Some(tail.timestamp)))
        else Ok(([], None)))
  {
    var (pair, tail) := FieldScanner.Scan(line).value;
    assert [pair] + [] == [pair];
  }

  /** `parse_tags`: the loop that pushes each tag and moves on to the tail. */
  method ProcessTags(line: string) returns (r: Result<(seq<RawKeyValuePair>, string), InfluxLineError>)
    ensures r == ParseTags(line)
  {
    var pairs: seq<RawKeyValuePair> := [];
    var tail := line;
    PrependNothing(ParseTags(line));
    while true
      invariant ParseTags(line) == Prepend(pairs, ParseTags(tail))
      decreases |tail|
    {
      var step := TagScanner.Process(tail);
      if step.Err? {
        return Err(step.error);
      }
      var (pair, newTail) := step.value;
      ParseTagsUnfold(tail);
      PrependTwice(pairs, [pair], if newTail.Tag? then ParseTags(newTail.tags) else Ok(([], newTail.fields)));
      pairs := pairs + [pair];
      if newTail.Tag? {
        tail := newTail.tags;
      } else {
        assert pairs + [] == pairs;
        return Ok((pairs, newTail.fields));
      }
    }
  }

  /** `parse_fields`: the loop that pushes each field and moves on to the tail. */
  method ProcessFields(line: string) returns (r: Result<(seq<RawKeyValuePair>, Option<string>), InfluxLineError>)
    ensures r == ParseFields(line)
  {
    var pairs: seq<RawKeyValuePair> := [];
    var tail := line;
    PrependNothing(ParseFields(line));
    while true
      invariant ParseFields(line) == Prepend(pairs, ParseFields(tail))
      decreases |tail|
    {
      var step := FieldScanner.Process(tail);
      if step.Err? {
        return Err(step.error);
      }
      var (pair, newTail) := step.value;
      ParseFieldsUnfold(tail);
      PrependTwice(pairs, [pair],
        if newTail.Field? then ParseFields(newTail.fields)
        else if newTail.Timestamp? then Ok(([], Some(newTail.timestamp)))
        else Ok(([], None)));
      pairs := pairs + [pair];
      if newTail.Field? {
        tail := newTail.fields;
      } else if newTail.Timestamp? {
        assert pairs + [] == pairs;
        return Ok((pairs, Some(newTail.timestamp)));
      } else {
        assert pairs + [] == pairs;
        return Ok((pairs, None));
      }
    }
  }

  /** `LinearLineParser.process(line)`. */
  method Process(line: string) returns (r: Result<RawLine, InfluxLineError>)
    ensures r == ParseLine(line)
  {
    var measured := MeasurementScanner.Process(line);
    if measured.Err? {
      return Err(measured.error);
    }
    var (measurement, measurementTail) := measured.value;
    var tags: seq<RawKeyValuePair>;
    var fieldsTail: string;
    if measurementTail.Tags? {
      var tagged := ProcessTags(measurementTail.tags);
      if tagged.Err? {
        return Err(tagged.error);
      }
      tags, fieldsTail := tagged.value.0, tagged.value.1;
    } else {
      tags, fieldsTail := [], measurementTail.fields;
    }
    var fielded := ProcessFields(fieldsTail);
    if fielded.Err? {
      return Err(fielded.error);
    }
    return Ok(RawLine(measurement, tags, fielded.value.0, fielded.value.1));
  }
}
