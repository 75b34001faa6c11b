/**
 * Measurement names of src/types/string/measurement.rs. Only space and `,` are
 * special, the escape character is the backslash, and an escape before any
 * other character is kept. The naming restriction is checked on the decoded
 * name.
 */
module Measurements {
  import opened Wrappers
  import opened Errors
  import opened EscapeParser
  import opened EscapeFormatter
  import opened EscapeRoundTrip
  import InfluxNames

  const SpecialCharacters: seq<char> := [' ', ',']
  const EscapeCharacter: char := '\\'
  const MeasurementConfig: Config := Config(SpecialCharacters, EscapeCharacter, Allow)
  const MeasurementFormatter: LinearFormatter := LinearFormatter(SpecialCharacters, EscapeCharacter)

  /** A decoded (human readable) measurement name. */
  datatype MeasurementName = MeasurementName(name: string)

  /** `try_from`: the naming restriction; the value is stored as given. */
  function TryFrom(value: string): (r: Result<MeasurementName, InfluxLineError>)
    ensures r.Ok? <==> InfluxNames.MeetsNamingRestriction(value)
    ensures r.Ok? ==> r.value.name == value
    ensures r.Err? ==> r.error == NameRestriction
  {
    if value == [] || value[0] == '_' then Err(NameRestriction)
    else Ok(MeasurementName(value))
  }

  /** `PartialEq<str>` (and its `&str` and `String` forms): equal iff the stored name is `other`. */
  function EqualsStr(m: MeasurementName, other: string): (r: bool)
    ensures r <==> m.name == other
  {
    m.name == other
  }

  /** What `from_str` computes: unescape, then apply the naming restriction. */
  function Decode(s: string): (r: Result<MeasurementName, InfluxLineError>)
    ensures Unescape(MeasurementConfig, s).None? ==> r == Err(Failed)
    ensures r.Err? ==> r.error == Failed || r.error == NameRestriction
    ensures r.Ok? ==> InfluxNames.MeetsNamingRestriction(r.value.name) && |r.value.name| <= |s|
  {
    UnescapeShortens(MeasurementConfig, s);
    match Unescape(MeasurementConfig, s)
    case None => Err(Failed)
    case Some(n) => TryFrom(n)
  }

  /** `from_str`: drives a fresh escape parser over `s`, then validates its buffer. */
  method FromStr(s: string) returns (r: Result<MeasurementName, InfluxLineError>)
    ensures r == Decode(s)
  {
    var parser := new LinearParser(SpecialCharacters, EscapeCharacter, Allow);
    var ok := ProcessChars(parser, s);
    if !ok {
      return Err(Failed);
    }
    match parser.Extract() {
      case None => r := Err(Failed);
      case Some(n) => r := TryFrom(n);
    }
  }

  /**
   * `Display`: the escaped form. Exactly one backslash per space or comma is
   * added, and deleting those backslashes gives back the name.
   */
  function Display(m: MeasurementName): (r: string)
    ensures |r| == |m.name| + CountSpecials(SpecialCharacters, m.name)
    ensures MeasurementFormatter.RemoveInsertedEscapes(r) == m.name
  {
    MeasurementFormatter.RemoveInsertedEscapesOfChars(m.name);
    MeasurementFormatter.Chars(m.name)
  }

  /** A name without backslashes survives display and parsing. */
  lemma DisplayRoundTrip(m: MeasurementName)
    requires InfluxNames.MeetsNamingRestriction(m.name)
    requires EscapeCharacter !in m.name
    ensures Decode(Display(m)) == Ok(m)
  {
    UnescapeChars(MeasurementConfig, m.name);
  }

  /** Text with neither spaces, commas nor backslashes. */
  predicate Plain(s: string) {
    PlainText(MeasurementConfig, s)
  }

  /**
   * A backslash before a space, as in `a\ b`, is displayed as two backslashes
   * and an escaped space: the backslash is copied, the space escaped.
   */
  lemma DisplayKeepsBackslash(a: string, b: string)
    requires Plain(a) && Plain(b)
    ensures Display(MeasurementName(a + [EscapeCharacter, ' '] + b)) == a + [EscapeCharacter, EscapeCharacter, ' '] + b
  {
    CharsKeepsEscape(MeasurementConfig, a, ' ', b);
  }

  /**
   * So the round trip does not hold in general: decoding the displayed form
   * reads the doubled backslash as one and then meets a bare space.
   */
  lemma DisplayRoundTripFailsWithBackslash(a: string, b: string)
    requires Plain(a) && Plain(b)
    ensures Decode(Display(MeasurementName(a + [EscapeCharacter, ' '] + b))) == Err(Failed)
  {
    UnescapeFailsAfterKeptEscape(MeasurementConfig, a, ' ', b);
  }

  /** Text without spaces, commas or backslashes is taken literally, restriction included. */
  lemma DecodeLiteral(s: string)
    requires forall i :: 0 <= i < |s| ==> s[i] !in SpecialCharacters && s[i] != EscapeCharacter
    ensures Decode(s) == TryFrom(s)
  {
    FeedPlain(MeasurementConfig, [], s);
    assert [] + s == s;
  }

  /** `=` is not special here: `1+1=10` is accepted bare. */
  lemma BareEqualsAccepted()
    ensures Decode("1+1=10") == Ok(MeasurementName("1+1=10"))
  {
    var s := "1+1=10";
    assert forall i :: 0 <= i < |s| ==> s[i] !in SpecialCharacters && s[i] != EscapeCharacter;
    DecodeLiteral(s);
  }

  /** `"` is not special here: `stupid"quote` is accepted bare. */
  lemma BareQuoteAccepted()
    ensures Decode("stupid\"quote") == Ok(MeasurementName("stupid\"quote"))
  {
    var t := "stupid\"quote";
    assert forall i :: 0 <= i < |t| ==> t[i] !in SpecialCharacters && t[i] != EscapeCharacter;
    DecodeLiteral(t);
  }

  /** An escape before a character that is not special is kept: `a\=b` stays `a\=b`. */
  lemma StrayEscapeKept()
    ensures Decode("a\\=b") == Ok(MeasurementName("a\\=b"))
  {
    assert "a\\=b" == "a" + "\\=" + "b";
    FeedAppend(MeasurementConfig, Initial, "a" + "\\=", "b");
    FeedAppend(MeasurementConfig, Initial, "a", "\\=");
    FeedPlain(MeasurementConfig, [], "a");
    assert [] + "a" == "a";
    EscapeSequences(MeasurementConfig, "a", '=');
    assert Classify(MeasurementConfig, '=') == Normal;
    assert "a" + ['\\', '='] == "a\\=";
    assert Feed(MeasurementConfig, Initial, "a" + "\\=") == Ready("a\\=");
    FeedPlain(MeasurementConfig, "a\\=", "b");
    assert "a\\=" + "b" == "a\\=b";
  }

  /** Between two letters, a run of 2k backslashes decodes to k of them. */
  lemma EvenBackslashRun(k: nat)
    ensures Decode("a" + Repeat(EscapeCharacter, 2 * k) + "a")
         == Ok(MeasurementName("a" + Repeat(EscapeCharacter, k) + "a"))
  {
    var e := EscapeCharacter;
    FeedAppend(MeasurementConfig, Initial, "a" + Repeat(e, 2 * k), "a");
    FeedAppend(MeasurementConfig, Initial, "a", Repeat(e, 2 * k));
    FeedPlain(MeasurementConfig, [], "a");
    assert [] + "a" == "a";
    DoubledEscapes(MeasurementConfig, "a", k);
    FeedPlain(MeasurementConfig, "a" + Repeat(e, k), "a");
  }

  /** Between two letters, a run of 2k+1 backslashes decodes to k+1 of them. */
  lemma OddBackslashRun(k: nat)
    ensures Decode("a" + Repeat(EscapeCharacter, 2 * k + 1) + "a")
         == Ok(MeasurementName("a" + Repeat(EscapeCharacter, k + 1) + "a"))
  {
    var e := EscapeCharacter;
    assert "a" + Repeat(e, 2 * k + 1) + "a" == "a" + (Repeat(e, 2 * k + 1) + ['a']);
    FeedAppend(MeasurementConfig, Initial, "a", Repeat(e, 2 * k + 1) + ['a']);
    FeedPlain(MeasurementConfig, [], "a");
    assert [] + "a" == "a";
    OddEscapesBeforeNormal(MeasurementConfig, "a", k, 'a');
  }

  /** A trailing run of 2k backslashes decodes to k of them, as in `haha\\`. */
  lemma TrailingDoubledBackslashes(k: nat)
    ensures Decode("haha" + Repeat(EscapeCharacter, 2 * k))
         == Ok(MeasurementName("haha" + Repeat(EscapeCharacter, k)))
  {
    FeedAppend(MeasurementConfig, Initial, "haha", Repeat(EscapeCharacter, 2 * k));
    FeedPlain(MeasurementConfig, [], "haha");
    assert [] + "haha" == "haha";
    DoubledEscapes(MeasurementConfig, "haha", k);
  }

  /** A bare space or comma, met outside an escape, makes parsing fail. */
  lemma DecodeBareSpecial(p: string, c: char, t: string)
    requires Feed(MeasurementConfig, Initial, p).state == SeenCharacter
    requires c in SpecialCharacters
    ensures Decode(p + [c] + t) == Err(Failed)
  {
    UnescapeBareSpecial(MeasurementConfig, p, c, t);
  }

  /** Input ending in a lone backslash fails to parse. */
  lemma DecodeTrailingBackslash(p: string)
    requires Feed(MeasurementConfig, Initial, p).state == SeenCharacter
    ensures Decode(p + [EscapeCharacter]) == Err(Failed)
  {
    UnescapeTrailingEscape(MeasurementConfig, p);
  }

  /** The empty input and the reserved namespace are refused by the naming restriction. */
  lemma ParsingFailsOnRestriction()
    ensures Decode("") == Err(NameRestriction)
    ensures Decode("_reserved") == Err(NameRestriction)
  {
    var s := "_reserved";
    assert forall i :: 0 <= i < |s| ==> s[i] !in SpecialCharacters && s[i] != EscapeCharacter;
    DecodeLiteral(s);
  }
}
