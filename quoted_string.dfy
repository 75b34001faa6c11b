/**
 * String field values of src/types/string/quoted.rs: text between double
 * quotes in which `"` and `\` are escaped by a backslash. Any other escape is
 * refused (the Forbid policy). Any string may be stored; there is no naming
 * restriction.
 */
module Quoted {
  import opened Wrappers
  import opened Errors
  import opened EscapeParser
  import opened EscapeFormatter
  import opened EscapeRoundTrip

  const SpecialCharacters: seq<char> := ['"', '\\']
  const EscapeCharacter: char := '\\'
  const QuotedConfig: Config := Config(SpecialCharacters, EscapeCharacter, Forbid)
  const QuotedFormatter: LinearFormatter := LinearFormatter(SpecialCharacters, EscapeCharacter)

  /** A decoded string value. */
  datatype QuotedString = QuotedString(value: string)

  /** `new` and both `From` impls: any string, stored unchanged. */
  function New(value: string): (r: QuotedString)
    ensures r.value == value
  {
    QuotedString(value)
  }

  predicate HasQuoteDelimiters(s: string) {
    |s| >= 2 && s[0] == '"' && s[|s| - 1] == '"'
  }

  /**
   * What `from_str` is meant to compute: check the delimiters, then decode the
   * characters strictly between them. Only input without both delimiters is
   * reported as NoQuoteDelimiter.
   */
  function Decode(s: string): (r: Result<QuotedString, InfluxLineError>)
    ensures (r.Err? && r.error == NoQuoteDelimiter) <==> !HasQuoteDelimiters(s)
    ensures r.Ok? ==> HasQuoteDelimiters(s) && |r.value.value| <= |s| - 2
  {
    if |s| < 2 || s[0] != '"' || s[|s| - 1] != '"' then Err(NoQuoteDelimiter)
    else
      UnescapeShortens(QuotedConfig, s[1..|s| - 1]);
      match Unescape(QuotedConfig, s[1..|s| - 1])
      case None => Err(Failed)
      case Some(v) => Ok(New(v))
  }

  /** `from_str`: delimiter checks, then a fresh Forbid-policy parser over the interior. */
  method FromStr(s: string) returns (r: Result<QuotedString, InfluxLineError>)
    ensures r == Decode(s)
  {
    if |s| == 0 {
      return Err(NoQuoteDelimiter);
    }
    var firstQuote, lastQuote := s[0], s[|s| - 1];
    if |s| < 2 || firstQuote != '"' || lastQuote != '"' {
      return Err(NoQuoteDelimiter);
    }
    var parser := new LinearParser(SpecialCharacters, EscapeCharacter, Forbid);
    var ok := ProcessChars(parser, s[1..|s| - 1]);
    if !ok {
      return Err(Failed);
    }
    match parser.Extract() {
      case None => r := Err(Failed);
      case Some(v) => r := Ok(New(v));
    }
  }

  /**
   * `Display`: the escaped value between two quotes. One backslash is added
   * per `"` or `\`, and deleting those backslashes gives back the value.
   */
  function Display(q: QuotedString): (r: string)
    ensures HasQuoteDelimiters(r)
    ensures |r| == |q.value| + CountSpecials(SpecialCharacters, q.value) + 2
    ensures QuotedFormatter.RemoveInsertedEscapes(r[1..|r| - 1]) == q.value
  {
    var inner := QuotedFormatter.Chars(q.value);
    QuotedFormatter.RemoveInsertedEscapesOfChars(q.value);
    assert (['"'] + inner + ['"'])[1..|inner| + 1] == inner;
    ['"'] + inner + ['"']
  }

  /** Every string value survives display and parsing, because the escape is itself special. */
  lemma DisplayRoundTrip(q: QuotedString)
    ensures Decode(Display(q)) == Ok(q)
  {
    var r := Display(q);
    assert r[1..|r| - 1] == QuotedFormatter.Chars(q.value);
    UnescapeChars(QuotedConfig, q.value);
  }

  /** A bare `"` inside the delimiters makes parsing fail. */
  lemma BareQuoteFails(p: string, t: string)
    requires Feed(QuotedConfig, Initial, p).state == SeenCharacter
    ensures Decode(['"'] + p + ['"'] + t + ['"']) == Err(Failed)
  {
    var s := ['"'] + p + ['"'] + t + ['"'];
    assert s[1..|s| - 1] == p + ['"'] + t;
    UnescapeBareSpecial(QuotedConfig, p, '"', t);
  }

  /** A backslash before anything but `"` or `\` makes parsing fail. */
  lemma StrayEscapeFails(p: string, c: char, t: string)
    requires Feed(QuotedConfig, Initial, p).state == SeenCharacter
    requires c !in SpecialCharacters
    ensures Decode(['"'] + p + [EscapeCharacter, c] + t + ['"']) == Err(Failed)
  {
    var s := ['"'] + p + [EscapeCharacter, c] + t + ['"'];
    assert s[1..|s| - 1] == p + [EscapeCharacter, c] + t;
    UnescapeStrayForbidden(QuotedConfig, p, c, t);
  }

  /** Escaped closing quote: in `"dead\"` the interior ends in a lone escape, so parsing fails. */
  lemma EscapedRightQuoteFails()
    ensures Decode("\"dead\\\"") == Err(Failed)
  {
    var s := "\"dead\\\"";
    assert s[1..|s| - 1] == "dead" + [EscapeCharacter];
    FeedPlain(QuotedConfig, [], "dead");
    UnescapeTrailingEscape(QuotedConfig, "dead");
  }

  /** `""` is the empty string; `"\""` and `"\\"` decode to `"` and `\`. */
  lemma SuccessfulParsing(c: char)
    requires c in SpecialCharacters
    ensures Decode(['"', '"']) == Ok(QuotedString([]))
    ensures Decode(['"', EscapeCharacter, c, '"']) == Ok(QuotedString([c]))
  {
    var s := ['"', EscapeCharacter, c, '"'];
    assert s[1..|s| - 1] == [EscapeCharacter, c];
    EscapeSequences(QuotedConfig, [], c);
    assert Initial == Ready([]) && [] + [c] == [c];
  }

  /** The delimiter failures of quoted.rs's tests. */
  lemma DelimiterFailures()
    ensures Decode("") == Err(NoQuoteDelimiter)
    ensures Decode("\"") == Err(NoQuoteDelimiter)
    ensures Decode("a") == Err(NoQuoteDelimiter)
    ensures Decode("\"R") == Err(NoQuoteDelimiter)
    ensures Decode("L\"") == Err(NoQuoteDelimiter)
  {
  }

  // The code as written: the interior is cut by a byte count.

  /** Number of bytes of `c` in UTF-8. */
  function Utf8Width(c: char): nat {
    if c as int < 0x80 then 1
    else if c as int < 0x800 then 2
    else if c as int < 0x10000 then 3
    else 4
  }

  /** `str::len`: the UTF-8 length in bytes, equal to the length in characters iff all are ASCII. */
  function ByteLength(s: string): (n: nat)
    ensures n >= |s|
    ensures n == |s| <==> forall i :: 0 <= i < |s| ==> s[i] as int < 0x80
    decreases |s|
  {
    if s == [] then 0
    else
      var n := Utf8Width(s[0]) + ByteLength(s[1..]);
      assert forall i :: 1 <= i < |s| ==> s[i] == s[1..][i - 1];
      n
  }

  /**
   * `from_str` exactly as written: `take(s.len() - 2)` counts bytes, so for
   * non-ASCII text it takes more characters than lie between the quotes, and
   * the closing quote is fed to the parser.
   */
  function ParseAsWritten(s: string): (r: Result<QuotedString, InfluxLineError>)
    ensures (r.Err? && r.error == NoQuoteDelimiter) <==> !HasQuoteDelimiters(s)
    ensures r.Err? ==> r.error in {NoQuoteDelimiter, Failed}
    ensures r.Ok? ==> HasQuoteDelimiters(s) && |r.value.value| <= |s| - 1
  {
    if |s| == 0 then Err(NoQuoteDelimiter)
    else if ByteLength(s) < 2 || s[0] != '"' || s[|s| - 1] != '"' then Err(NoQuoteDelimiter)
    else
      var count := ByteLength(s) - 2;
      var taken := if count < |s| - 1 then s[1..1 + count] else s[1..];
      UnescapeShortens(QuotedConfig, taken);
      match Unescape(QuotedConfig, taken)
      case None => Err(Failed)
      case Some(v) => Ok(New(v))
  }

  /** On ASCII input the code as written computes `Decode`. */
  lemma AsWrittenAgreesOnAscii(s: string)
    requires forall i :: 0 <= i < |s| ==> s[i] as int < 0x80
    ensures ParseAsWritten(s) == Decode(s)
  {
  }

  /** Whenever the byte count reaches past the closing quote, the code as written decodes all after the opening quote. */
  lemma AsWrittenTakesRest(s: string)
    requires HasQuoteDelimiters(s) && ByteLength(s) - 2 >= |s| - 1
    ensures ParseAsWritten(s) == match Unescape(QuotedConfig, s[1..])
                                 case None => Err(Failed)
                                 case Some(v) => Ok(New(v))
  {
  }

  lemma ByteLengthOfThree(a: char, b: char, c: char)
    ensures ByteLength([a, b, c]) == Utf8Width(a) + Utf8Width(b) + Utf8Width(c)
  {
    var s := [a, b, c];
    assert [c][1..] == [] && ByteLength([c]) == Utf8Width(c) + ByteLength([]);
    assert [b, c][1..] == [c] && ByteLength([b, c]) == Utf8Width(b) + ByteLength([c]);
    assert s[1..] == [b, c] && ByteLength(s) == Utf8Width(a) + ByteLength([b, c]);
  }

  lemma ByteLengthOfFour(a: char, b: char, c: char, d: char)
    ensures ByteLength([a, b, c, d]) == Utf8Width(a) + Utf8Width(b) + Utf8Width(c) + Utf8Width(d)
  {
    var s := [a, b, c, d];
    assert s[1..] == [b, c, d];
    ByteLengthOfThree(b, c, d);
  }

  /** A value made of one non-special character is displayed between quotes as it is, and parsed back. */
  lemma OneCharacterValue(c: char)
    requires c !in SpecialCharacters
    ensures Display(QuotedString([c])) == ['"', c, '"']
    ensures Decode(['"', c, '"']) == Ok(QuotedString([c]))
  {
    assert QuotedFormatter.Chars([c]) == [c];
    var s := ['"', c, '"'];
    assert s[1..|s| - 1] == [c];
    FeedPlain(QuotedConfig, [], [c]);
    assert Initial == Ready([]) && [] + [c] == [c];
  }

  /**
   * The displayed form of a value made of one non-ASCII character, such as
   * `é`, is refused by the code as written, though `Decode` accepts it: the
   * byte count takes the closing quote into the interior.
   */
  lemma AsWrittenRejectsDisplayedNonAscii(c: char)
    requires c as int >= 0x80
    ensures Display(QuotedString([c])) == ['"', c, '"']
    ensures Decode(['"', c, '"']) == Ok(QuotedString([c]))
    ensures ParseAsWritten(['"', c, '"']) == Err(Failed)
  {
    var s := ['"', c, '"'];
    OneCharacterValue(c);
    ByteLengthOfThree('"', c, '"');
    AsWrittenTakesRest(s);
    assert s[1..] == [c] + ['"'] + [];
    FeedPlain(QuotedConfig, [], [c]);
    assert Initial == Ready([]) && [] + [c] == [c];
    UnescapeBareSpecial(QuotedConfig, [c], '"', []);
  }

  /**
   * And it accepts text whose closing quote is escaped, such as `"é\"`:
   * `Decode` reports the lone escape before the closing quote, the code as
   * written decodes the escaped quote as part of the value.
   */
  lemma AsWrittenAcceptsEscapedClosingQuote(c: char)
    requires c as int >= 0x80
    ensures Decode(['"', c, EscapeCharacter, '"']) == Err(Failed)
    ensures ParseAsWritten(['"', c, EscapeCharacter, '"']) == Ok(QuotedString([c, '"']))
  {
    var s := ['"', c, EscapeCharacter, '"'];
    ByteLengthOfFour('"', c, EscapeCharacter, '"');
    AsWrittenTakesRest(s);
    assert s[1..] == [c] + [EscapeCharacter, '"'];
    assert Classify(QuotedConfig, c) == Normal && Classify(QuotedConfig, '"') == Special;
    FeedPlain(QuotedConfig, [], [c]);
    assert Initial == Ready([]) && [] + [c] == [c];
    assert Feed(QuotedConfig, Initial, [c]) == Ready([c]);
    FeedAppend(QuotedConfig, Initial, [c], [EscapeCharacter, '"']);
    EscapeSequences(QuotedConfig, [c], '"');
    assert Feed(QuotedConfig, Ready([c]), [EscapeCharacter, '"']) == Ready([c, '"']);
    assert Unescape(QuotedConfig, s[1..]) == Some([c, '"']);
    assert s[1..|s| - 1] == [c] + [EscapeCharacter];
    UnescapeTrailingEscape(QuotedConfig, [c]);
  }
}
