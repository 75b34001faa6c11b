/**
 * The inverse escaper of src/types/string/formatter.rs: every special character
 * is emitted as the escape character followed by itself, everything else as is.
 * `chars` is a flat map over the input; each character expands through the
 * two-step iterator `FormattedCharacter`.
 */
module EscapeFormatter {
  import opened Wrappers

  datatype FormattedCharacter =
    | Escaped(escapeCharacter: char, specialSymbol: char)
    | Unescaped(symbol: char)
    | Exhausted

  /** How many characters the iterator still yields. */
  function Size(f: FormattedCharacter): nat {
    match f
    case Escaped(_, _) => 2
    case Unescaped(_) => 1
    case Exhausted => 0
  }

  /** One call of the iterator's `next`: the yielded character and the iterator after it. */
  function Next(f: FormattedCharacter): (r: (Option<char>, FormattedCharacter))
    ensures r.0.None? <==> f.Exhausted?
    ensures Size(r.1) == if f.Exhausted? then 0 else Size(f) - 1
  {
    match f
    case Escaped(escapeCharacter, specialSymbol) => (Some(escapeCharacter), Unescaped(specialSymbol))
    case Unescaped(symbol) => (Some(symbol), Exhausted)
    case Exhausted => (None, Exhausted)
  }

  /** Everything the iterator yields until it returns None. */
  function Drain(f: FormattedCharacter): (out: seq<char>)
    ensures |out| == Size(f)
    decreases Size(f)
  {
    match Next(f)
    case (None, _) => []
    case (Some(c), rest) => [c] + Drain(rest)
  }

  /** `Escaped` yields the escape and then the special character, `Unescaped` its one character. */
  lemma DrainYields(e: char, c: char)
    ensures Drain(Escaped(e, c)) == [e, c]
    ensures Drain(Unescaped(c)) == [c]
    ensures Drain(Exhausted) == []
  {
    assert Drain(Unescaped(c)) == [c] + Drain(Exhausted);
    assert Drain(Escaped(e, c)) == [e] + Drain(Unescaped(c));
  }

  /** Number of characters of `s` that belong to `specials`. */
  function CountSpecials(specials: seq<char>, s: seq<char>): nat
    decreases |s|
  {
    if s == [] then 0
    else (if s[0] in specials then 1 else 0) + CountSpecials(specials, s[1..])
  }

  datatype LinearFormatter = LinearFormatter(specialCharacters: seq<char>, escapeCharacter: char) {

    function Expand(c: char): FormattedCharacter {
      if c in specialCharacters then Escaped(escapeCharacter, c) else Unescaped(c)
    }

    /**
     * The escaped form of `s`. It is `s` plus one character per special
     * character, and it is `s` itself when `s` holds no special character.
     */
    function Chars(s: seq<char>): (r: seq<char>)
      ensures |r| == |s| + CountSpecials(specialCharacters, s)
      ensures (forall i :: 0 <= i < |s| ==> s[i] !in specialCharacters) ==> r == s
      decreases |s|
    {
      if s == [] then []
      else
        DrainYields(escapeCharacter, s[0]);
        Drain(Expand(s[0])) + Chars(s[1..])
    }

    /** Formatting is a homomorphism: it works character by character. */
    lemma {:induction false} CharsAppend(a: seq<char>, b: seq<char>)
      ensures Chars(a + b) == Chars(a) + Chars(b)
      decreases |a|
    {
      if a == [] {
        assert a + b == b;
      } else {
        assert (a + b)[0] == a[0];
        assert (a + b)[1..] == a[1..] + b;
        CharsAppend(a[1..], b);
      }
    }

    /** A special character becomes escape plus character; any other character stays as is. */
    lemma {:induction false} CharsAt(s: seq<char>, i: nat)
      requires i < |s|
      ensures Chars(s) == Chars(s[..i])
                        + (if s[i] in specialCharacters then [escapeCharacter, s[i]] else [s[i]])
                        + Chars(s[i + 1..])
    {
      var pre, c, post := s[..i], s[i], s[i + 1..];
      var tail := [c] + post;
      assert s == pre + tail;
      CharsAppend(pre, tail);
      assert tail[0] == c && tail[1..] == post;
      assert Chars(tail) == Drain(Expand(c)) + Chars(post);
      DrainYields(escapeCharacter, c);
    }

    /**
     * Deletes every escape character that stands before a special character: the
     * reference inverse of `Chars`.
     */
    function RemoveInsertedEscapes(t: seq<char>): (r: seq<char>)
      decreases |t|
    {
      if t == [] then []
      else if |t| >= 2 && t[0] == escapeCharacter && t[1] in specialCharacters then
        [t[1]] + RemoveInsertedEscapes(t[2..])
      else [t[0]] + RemoveInsertedEscapes(t[1..])
    }

    /** The escaped form never starts with a special character unless the escape is one. */
    lemma {:induction false} CharsHead(s: seq<char>)
      requires s != []
      ensures Chars(s)[0] == (if s[0] in specialCharacters then escapeCharacter else s[0])
    {
      DrainYields(escapeCharacter, s[0]);
    }

    /** Order is preserved: deleting the inserted escapes gives back the input. */
    lemma {:induction false} RemoveInsertedEscapesOfChars(s: seq<char>)
      ensures RemoveInsertedEscapes(Chars(s)) == s
      decreases |s|
    {
      if s != [] {
        var c := s[0];
        var rest := Chars(s[1..]);
        DrainYields(escapeCharacter, c);
        RemoveInsertedEscapesOfChars(s[1..]);
        if c in specialCharacters {
          assert Chars(s) == [escapeCharacter, c] + rest;
          assert (Chars(s))[2..] == rest;
        } else {
          assert Chars(s) == [c] + rest;
          assert (Chars(s))[1..] == rest;
          if c == escapeCharacter && rest != [] {
            CharsHead(s[1..]);
            assert Chars(s)[1] == rest[0];
          }
        }
      }
    }
  }
}
