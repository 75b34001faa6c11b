/**
 * How the escape engine of src/types/string/parser.rs and the formatter of
 * src/types/string/formatter.rs fit together when they share a special set and
 * escape character: decoding the formatted text gives back the text, provided
 * the escape character is itself special or does not occur in the text.
 */
module EscapeRoundTrip {
  import opened Wrappers
  import opened EscapeParser
  import opened EscapeFormatter

  function FormatterOf(cfg: Config): LinearFormatter {
    LinearFormatter(cfg.specials, cfg.escape)
  }

  /** One character's expansion, fed to a ready machine, appends that character. */
  lemma FeedExpansion(cfg: Config, b: seq<char>, c: char)
    requires cfg.escape in cfg.specials || c != cfg.escape
    ensures Feed(cfg, Ready(b), Drain(FormatterOf(cfg).Expand(c))) == Ready(b + [c])
  {
    DrainYields(cfg.escape, c);
    if c in cfg.specials {
      EscapeSequences(cfg, b, c);
    } else {
      var head := Drain(FormatterOf(cfg).Expand(c));
      assert head == [c] && head[1..] == [];
    }
  }

  /** A character missing from a sequence is missing from its tail. */
  lemma NotInTail(c: char, s: seq<char>)
    requires s != []
    ensures c !in s ==> c !in s[1..]
  {
    if c in s[1..] {
      var j :| 0 <= j < |s[1..]| && s[1..][j] == c;
      assert s[j + 1] == c;
    }
  }

  /** Feeding formatted text to a ready machine appends exactly the original text. */
  lemma {:induction false} FeedChars(cfg: Config, b: seq<char>, s: seq<char>)
    requires cfg.escape in cfg.specials || cfg.escape !in s
    ensures Feed(cfg, Ready(b), FormatterOf(cfg).Chars(s)) == Ready(b + s)
    decreases |s|
  {
    if s == [] {
      assert b + s == b;
    } else {
      var f := FormatterOf(cfg);
      var c, rest := s[0], s[1..];
      var head := Drain(f.Expand(c));
      assert f.Chars(s) == head + f.Chars(rest);
      FeedAppend(cfg, Ready(b), head, f.Chars(rest));
      FeedExpansion(cfg, b, c);
      NotInTail(cfg.escape, s);
      FeedChars(cfg, b + [c], rest);
      assert b + [c] + rest == b + s;
    }
  }

  /** Decoding the formatted form of `s` gives back `s`, under either policy. */
  lemma UnescapeChars(cfg: Config, s: seq<char>)
    requires cfg.escape in cfg.specials || cfg.escape !in s
    ensures Unescape(cfg, FormatterOf(cfg).Chars(s)) == Some(s)
  {
    FeedChars(cfg, [], s);
    assert [] + s == s;
  }

  // When the escape character is not special

  /** Text with neither special characters nor the escape character. */
  predicate PlainText(cfg: Config, s: seq<char>) {
    forall i :: 0 <= i < |s| ==> s[i] !in cfg.specials && s[i] != cfg.escape
  }

  /** Plain text and an escape character that is not special are formatted as they are. */
  lemma CharsPlainThenEscape(cfg: Config, a: seq<char>)
    requires cfg.escape !in cfg.specials && PlainText(cfg, a)
    ensures FormatterOf(cfg).Chars(a + [cfg.escape]) == a + [cfg.escape]
  {
    var x := a + [cfg.escape];
    assert forall i :: 0 <= i < |x| ==> x[i] !in cfg.specials;
  }

  /** A special character and plain text: the special character is escaped, the rest kept. */
  lemma CharsSpecialThenPlain(cfg: Config, c: char, b: seq<char>)
    requires c in cfg.specials && PlainText(cfg, b)
    ensures FormatterOf(cfg).Chars([c] + b) == [cfg.escape, c] + b
  {
    var f, y := FormatterOf(cfg), [c] + b;
    assert y[0] == c && y[1..] == b;
    assert f.Chars(y) == Drain(f.Expand(c)) + f.Chars(b);
    DrainYields(cfg.escape, c);
    assert forall i :: 0 <= i < |b| ==> b[i] !in f.specialCharacters;
  }

  /** The same text cut into pieces in different ways. */
  lemma Regroup(e: char, c: char, a: seq<char>, b: seq<char>)
    ensures a + [e, c] + b == (a + [e]) + ([c] + b)
    ensures a + [e, e, c] + b == (a + [e]) + ([e, c] + b)
    ensures a + [e, e] + [c] + b == a + [e, e, c] + b
  {
  }

  /**
   * An escape character that is not special is copied and the special
   * character after it escaped: `e c` is formatted as `e e c`.
   */
  lemma CharsKeepsEscape(cfg: Config, a: seq<char>, c: char, b: seq<char>)
    requires cfg.escape !in cfg.specials && c in cfg.specials
    requires PlainText(cfg, a) && PlainText(cfg, b)
    ensures FormatterOf(cfg).Chars(a + [cfg.escape, c] + b) == a + [cfg.escape, cfg.escape, c] + b
  {
    CharsPlainThenEscape(cfg, a);
    CharsSpecialThenPlain(cfg, c, b);
    FormatterOf(cfg).CharsAppend(a + [cfg.escape], [c] + b);
    Regroup(cfg.escape, c, a, b);
  }

  /**
   * So the round trip fails for such text: decoding reads the doubled escape
   * as one escape character and then meets a bare special character.
   */
  lemma UnescapeFailsAfterKeptEscape(cfg: Config, a: seq<char>, c: char, b: seq<char>)
    requires cfg.escape !in cfg.specials && c in cfg.specials
    requires PlainText(cfg, a) && PlainText(cfg, b)
    ensures Unescape(cfg, FormatterOf(cfg).Chars(a + [cfg.escape, c] + b)) == None
  {
    CharsKeepsEscape(cfg, a, c, b);
    var e := cfg.escape;
    FeedAppend(cfg, Initial, a, [e, e]);
    FeedPlain(cfg, [], a);
    assert [] + a == a;
    EscapeSequences(cfg, a, e);
    UnescapeBareSpecial(cfg, a + [e, e], c, b);
    Regroup(e, c, a, b);
  }
}
