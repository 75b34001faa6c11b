/**
 * Tag and field names of src/types/string/key.rs. The special characters are
 * `,`, `=` and space, the escape character is the backslash, and an escape
 * before any other character is kept (the Allow policy). The naming
 * restriction is checked on the decoded name.
 */
module Keys {
  import opened Wrappers
  import opened Errors
  import opened EscapeParser
  import opened EscapeFormatter
  import opened EscapeRoundTrip
  import InfluxNames

  const SpecialCharacters: seq<char> := [',', '=', ' ']
  const EscapeCharacter: char := '\\'
  const KeyConfig: Config := Config(SpecialCharacters, EscapeCharacter, Allow)
  const KeyFormatter: LinearFormatter := LinearFormatter(SpecialCharacters, EscapeCharacter)

  /** A decoded (human readable) tag or field name. */
  datatype KeyName = KeyName(name: string)

  /** `KeyName::new`: the naming restriction; the name is stored as given. */
  function New(name: string): (r: Result<KeyName, InfluxLineError>)
    ensures r.Ok? <==> InfluxNames.MeetsNamingRestriction(name)
    ensures r.Ok? ==> r.value.name == name
    ensures r.Err? ==> r.error == NameRestriction
  {
    if name == [] || name[0] == '_' then Err(NameRestriction)
    else Ok(KeyName(name))
  }

  /** What `from_str` computes: unescape, then apply the naming restriction. */
  function Decode(s: string): (r: Result<KeyName, InfluxLineError>)
    ensures Unescape(KeyConfig, s).None? ==> r == Err(Failed)
    ensures r.Err? ==> r.error == Failed || r.error == NameRestriction
    ensures r.Ok? ==> InfluxNames.MeetsNamingRestriction(r.value.name) && |r.value.name| <= |s|
  {
    UnescapeShortens(KeyConfig, s);
    match Unescape(KeyConfig, s)
    case None => Err(Failed)
    case Some(n) => New(n)
  }

  /** `from_str`: drives a fresh escape parser over `s`, then validates its buffer. */
  method FromStr(s: string) returns (r: Result<KeyName, InfluxLineError>)
    ensures r == Decode(s)
  {
    var parser := new LinearParser(SpecialCharacters, EscapeCharacter, Allow);
    var ok := ProcessChars(parser, s);
    if !ok {
      return Err(Failed);
    }
    match parser.Extract() {
      case None => r := Err(Failed);
      case Some(n) => r := New(n);
    }
  }

  /**
   * `Display`: the escaped form. Exactly one backslash per special character is
   * added, and deleting those backslashes gives back the name.
   */
  function Display(k: KeyName): (r: string)
    ensures |r| == |k.name| + CountSpecials(SpecialCharacters, k.name)
    ensures KeyFormatter.RemoveInsertedEscapes(r) == k.name
  {
    KeyFormatter.RemoveInsertedEscapesOfChars(k.name);
    KeyFormatter.Chars(k.name)
  }

  /** A name without backslashes survives display and parsing. */
  lemma DisplayRoundTrip(k: KeyName)
    requires InfluxNames.MeetsNamingRestriction(k.name)
    requires EscapeCharacter !in k.name
    ensures Decode(Display(k)) == Ok(k)
  {
    UnescapeChars(KeyConfig, k.name);
  }

  /** Text with neither special characters nor backslashes. */
  predicate Plain(s: string) {
    PlainText(KeyConfig, s)
  }

  /** Plain text is fed to a ready parser as it is. */
  lemma FeedPlainText(b: string, s: string)
    requires Plain(s)
    ensures Feed(KeyConfig, Ready(b), s) == Ready(b + s)
  {
    FeedPlain(KeyConfig, b, s);
  }

  /**
   * A backslash before a space, as in `a\ b`, is displayed as two backslashes
   * and an escaped space: the backslash is copied, the space escaped.
   */
  lemma DisplayKeepsBackslash(a: string, b: string)
    requires Plain(a) && Plain(b)
    ensures Display(KeyName(a + [EscapeCharacter, ' '] + b)) == a + [EscapeCharacter, EscapeCharacter, ' '] + b
  {
    CharsKeepsEscape(KeyConfig, a, ' ', b);
  }

  /**
   * So the round trip does not hold in general: decoding the displayed form
   * reads the doubled backslash as one and then meets a bare space.
   */
  lemma DisplayRoundTripFailsWithBackslash(a: string, b: string)
    requires Plain(a) && Plain(b)
    ensures Decode(Display(KeyName(a + [EscapeCharacter, ' '] + b))) == Err(Failed)
  {
    UnescapeFailsAfterKeptEscape(KeyConfig, a, ' ', b);
  }

  /** A bare `,`, `=` or space, met outside an escape, makes parsing fail. */
  lemma DecodeBareSpecial(p: string, c: char, t: string)
    requires Feed(KeyConfig, Initial, p).state == SeenCharacter
    requires c in SpecialCharacters
    ensures Decode(p + [c] + t) == Err(Failed)
  {
    UnescapeBareSpecial(KeyConfig, p, c, t);
  }

  /** Input ending in a lone backslash fails to parse. */
  lemma DecodeTrailingBackslash(p: string)
    requires Feed(KeyConfig, Initial, p).state == SeenCharacter
    ensures Decode(p + [EscapeCharacter]) == Err(Failed)
  {
    UnescapeTrailingEscape(KeyConfig, p);
  }

  /** Text without special characters or backslashes is taken literally, restriction included. */
  lemma DecodeLiteral(s: string)
    requires forall i :: 0 <= i < |s| ==> s[i] !in SpecialCharacters && s[i] != EscapeCharacter
    ensures Decode(s) == New(s)
  {
    FeedPlain(KeyConfig, [], s);
    assert [] + s == s;
  }

  /** Failing input of key.rs's tests: the empty string. */
  lemma ParsingFailsOnEmpty()
    ensures Decode("") == Err(NameRestriction)
  {
  }

  /** Failing input of key.rs's tests: the reserved namespace, checked after unescaping. */
  lemma ParsingFailsOnReserved()
    ensures Decode("_reserved") == Err(NameRestriction)
  {
    var s := "_reserved";
    assert forall i :: 0 <= i < |s| ==> s[i] !in SpecialCharacters && s[i] != EscapeCharacter;
    DecodeLiteral(s);
  }

  /** Failing input of key.rs's tests: an unescaped space or `=` between plain words, as in `hello kitty`. */
  lemma ParsingFailsOnBareSpecial(a: string, c: char, b: string)
    requires Plain(a) && c in SpecialCharacters
    ensures Decode(a + [c] + b) == Err(Failed)
  {
    FeedPlainText([], a);
    assert [] + a == a;
    DecodeBareSpecial(a, c, b);
  }

  /** Failing input of key.rs's tests: a trailing lone backslash. */
  lemma ParsingFailsOnTrailingBackslash()
    ensures Decode("one\\") == Err(Failed)
  {
    FeedPlain(KeyConfig, [], "one");
    assert "one" + [EscapeCharacter] == "one\\";
    DecodeTrailingBackslash("one");
  }

  /**
   * An escape sequence between plain texts: an escaped special character, as in
   * `a\=b`, decodes to the character, a doubled backslash, as in `haha\\`, to one
   * backslash, and an escape before any other character, as in `a\a`, is kept.
   */
  lemma DecodeEscapedPair(a: string, c: char, b: string)
    requires Plain(a) && Plain(b)
    ensures c in SpecialCharacters ==> Decode(a + [EscapeCharacter, c] + b) == New(a + [c] + b)
    ensures c == EscapeCharacter ==> Decode(a + [EscapeCharacter, c] + b) == New(a + [EscapeCharacter] + b)
    ensures c !in SpecialCharacters && c != EscapeCharacter ==>
              Decode(a + [EscapeCharacter, c] + b) == New(a + [EscapeCharacter, c] + b)
  {
    var pair := [EscapeCharacter, c];
    FeedAppend(KeyConfig, Initial, a + pair, b);
    FeedAppend(KeyConfig, Initial, a, pair);
    FeedPlainText([], a);
    assert [] + a == a;
    EscapeSequences(KeyConfig, a, c);
    var out := if c in SpecialCharacters then [c] else if c == EscapeCharacter then [EscapeCharacter] else pair;
    assert Feed(KeyConfig, Initial, a + pair) == Ready(a + out);
    FeedPlainText(a + out, b);
  }
}
