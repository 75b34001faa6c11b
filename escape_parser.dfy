/**
 * The escape engine of src/types/string/parser.rs: a character-by-character
 * state machine that decodes escape sequences for a configurable set of special
 * characters into a buffer.
 *
 * The pure layer (`Classify`, `Step`, `Feed`, `Unescape`) is the specification;
 * the class `LinearParser` is the mutable parser the name types drive, and each of
 * its operations is proved against the pure layer.
 *
 * The shown parser.rs has no stray-escape policy, while its callers (key.rs and
 * quoted.rs) pass one. `Allow` is exactly the parser.rs behaviour (an escape
 * before a normal character keeps both); `Forbid` makes that case an error.
 */
module EscapeParser {
  import opened Wrappers

  datatype ParserState = SeenCharacter | SeenEscapeCharacter | Error

  datatype CharacterType = Normal | Special | Escape

  /** What an escape before a normal character means. */
  datatype StrayEscapes = Allow | Forbid

  /** The constant part of a parser: its special characters, escape character and policy. */
  datatype Config = Config(specials: seq<char>, escape: char, policy: StrayEscapes)

  /** The changing part of a parser: its state and the decoded buffer. */
  datatype Machine = Machine(state: ParserState, buffer: seq<char>)

  const Initial: Machine := Machine(SeenCharacter, [])

  function Ready(buffer: seq<char>): Machine {
    Machine(SeenCharacter, buffer)
  }

  /** Classification of one character; the escape test comes first, so it wins. */
  function Classify(cfg: Config, c: char): (t: CharacterType)
    ensures t == Escape <==> c == cfg.escape
    ensures t == Special <==> c != cfg.escape && c in cfg.specials
    ensures t == Normal <==> c != cfg.escape && c !in cfg.specials
  {
    if c == cfg.escape then Escape
    else if c in cfg.specials then Special
    else Normal
  }

  /** One transition of the state machine. */
  function Step(cfg: Config, m: Machine, c: char): Machine {
    match (m.state, Classify(cfg, c))
    case (SeenCharacter, Normal) => Machine(SeenCharacter, m.buffer + [c])
    case (SeenCharacter, Special) => Machine(Error, m.buffer)
    case (SeenCharacter, Escape) => Machine(SeenEscapeCharacter, m.buffer)
    case (SeenEscapeCharacter, Normal) =>
      if cfg.policy == Allow then Machine(SeenCharacter, m.buffer + [cfg.escape, c])
      else Machine(Error, m.buffer)
    case (SeenEscapeCharacter, Special) => Machine(SeenCharacter, m.buffer + [c])
    case (SeenEscapeCharacter, Escape) => Machine(SeenCharacter, m.buffer + [cfg.escape])
    case (Error, _) => Machine(Error, m.buffer)
  }

  /** The machine after processing every character of `s`, left to right. */
  function Feed(cfg: Config, m: Machine, s: seq<char>): Machine
    decreases |s|
  {
    if s == [] then m else Feed(cfg, Step(cfg, m, s[0]), s[1..])
  }

  /** What `extract` gives for a machine: the buffer, unless it is in error or mid-escape. */
  function ExtractOf(m: Machine): Option<string> {
    match m.state
    case SeenCharacter => Some(m.buffer)
    case SeenEscapeCharacter => None
    case Error => None
  }

  /** The whole decoding: a fresh parser fed `s`, then extracted. */
  function Unescape(cfg: Config, s: seq<char>): Option<string> {
    ExtractOf(Feed(cfg, Initial, s))
  }

  /** One character of input that is still owed to the buffer. */
  function Pending(m: Machine): nat {
    if m.state == SeenEscapeCharacter then 1 else 0
  }

  class LinearParser {
    var buffer: seq<char>
    var state: ParserState
    const specialCharacters: seq<char>
    const escapeCharacter: char
    const strayEscapes: StrayEscapes

    function Cfg(): Config {
      Config(specialCharacters, escapeCharacter, strayEscapes)
    }

    function Current(): Machine
      reads this
    {
      Machine(state, buffer)
    }

    constructor (specialCharacters: seq<char>, escapeCharacter: char, strayEscapes: StrayEscapes)
      ensures this.specialCharacters == specialCharacters
      ensures this.escapeCharacter == escapeCharacter
      ensures this.strayEscapes == strayEscapes
      ensures Current() == Initial
    {
      this.specialCharacters := specialCharacters;
      this.escapeCharacter := escapeCharacter;
      this.strayEscapes := strayEscapes;
      buffer := [];
      state := SeenCharacter;
    }

    /** Processes one character; false once the parser is in error. */
    method ProcessChar(c: char) returns (ok: bool)
      modifies this
      ensures Current() == Step(Cfg(), old(Current()), c)
      ensures ok <==> state != Error
    {
      match (state, Classify(Cfg(), c)) {
        case (SeenCharacter, Normal) =>
          buffer := buffer + [c];
          state := SeenCharacter;
        case (SeenCharacter, Special) =>
          state := Error;
        case (SeenCharacter, Escape) =>
          state := SeenEscapeCharacter;
        case (SeenEscapeCharacter, Normal) =>
          if strayEscapes == Allow {
            buffer := buffer + [escapeCharacter];
            buffer := buffer + [c];
            state := SeenCharacter;
          } else {
            state := Error;
          }
        case (SeenEscapeCharacter, Special) =>
          buffer := buffer + [c];
          state := SeenCharacter;
        case (SeenEscapeCharacter, Escape) =>
          buffer := buffer + [escapeCharacter];
          state := SeenCharacter;
        case (Error, _) =>
          state := Error;
      }
      ok := state != Error;
    }

    /** The decoded string, if input did not end right after an escape and no error occurred. */
    function Extract(): (r: Option<string>)
      reads this
      ensures r == ExtractOf(Current())
    {
      match state
      case SeenCharacter => Some(buffer)
      case SeenEscapeCharacter => None
      case Error => None
    }
  }

  /**
   * The callers' `s.chars().try_for_each(|c| parser.process_char(c))`: feeds
   * characters until one is refused. `ok` is false exactly when some character was
   * refused; the parser then stays in error, so its state is that of feeding all of `s`.
   */
  method ProcessChars(p: LinearParser, s: string) returns (ok: bool)
    modifies p
    ensures p.Current() == Feed(p.Cfg(), old(p.Current()), s)
    ensures ok <==> (s == [] || p.state != Error)
  {
    ghost var start := p.Current();
    var i := 0;
    ok := true;
    while i < |s| && ok
      invariant 0 <= i <= |s|
      invariant Feed(p.Cfg(), start, s) == Feed(p.Cfg(), p.Current(), s[i..])
      invariant ok <==> (i == 0 || p.state != Error)
    {
      assert s[i..][1..] == s[i + 1..];
      ok := p.ProcessChar(s[i]);
      i := i + 1;
    }
    if !ok {
      FeedFromError(p.Cfg(), p.Current(), s[i..]);
    } else {
      assert s[i..] == [];
    }
  }

  /** Error is absorbing: once in error, no further input changes the machine. */
  lemma {:induction false} FeedFromError(cfg: Config, m: Machine, s: seq<char>)
    requires m.state == Error
    ensures Feed(cfg, m, s) == m
    decreases |s|
  {
    if s != [] {
      FeedFromError(cfg, Step(cfg, m, s[0]), s[1..]);
    }
  }

  /** Feeding a concatenation is feeding its parts one after the other. */
  lemma {:induction false} FeedAppend(cfg: Config, m: Machine, a: seq<char>, b: seq<char>)
    ensures Feed(cfg, m, a + b) == Feed(cfg, Feed(cfg, m, a), b)
    decreases |a|
  {
    if a == [] {
      assert a + b == b;
    } else {
      assert (a + b)[0] == a[0];
      assert (a + b)[1..] == a[1..] + b;
      FeedAppend(cfg, Step(cfg, m, a[0]), a[1..], b);
    }
  }

  /** Normal characters, fed to a ready machine, are appended unchanged and it stays ready. */
  lemma {:induction false} FeedPlain(cfg: Config, b: seq<char>, s: seq<char>)
    requires forall i :: 0 <= i < |s| ==> Classify(cfg, s[i]) == Normal
    ensures Feed(cfg, Ready(b), s) == Ready(b + s)
    decreases |s|
  {
    if s == [] {
      assert b + s == b;
    } else {
      assert Classify(cfg, s[0]) == Normal;
      FeedPlain(cfg, b + [s[0]], s[1..]);
      assert b + [s[0]] + s[1..] == b + s;
    }
  }

  /**
   * The buffer only grows, and it never holds more characters than were processed:
   * the buffer plus a pending escape is at most the starting amount plus |s|.
   */
  lemma {:induction false} FeedBound(cfg: Config, m: Machine, s: seq<char>)
    ensures m.buffer <= Feed(cfg, m, s).buffer
    ensures |Feed(cfg, m, s).buffer| + Pending(Feed(cfg, m, s)) <= |m.buffer| + Pending(m) + |s|
    decreases |s|
  {
    if s != [] {
      FeedBound(cfg, Step(cfg, m, s[0]), s[1..]);
    }
  }

  /** A decoded string is never longer than its escaped input. */
  lemma UnescapeShortens(cfg: Config, s: seq<char>)
    ensures Unescape(cfg, s).Some? ==> |Unescape(cfg, s).value| <= |s|
  {
    FeedBound(cfg, Initial, s);
  }

  /** A bare special character, met outside an escape, makes the whole decoding fail. */
  lemma UnescapeBareSpecial(cfg: Config, p: seq<char>, c: char, t: seq<char>)
    requires Feed(cfg, Initial, p).state == SeenCharacter
    requires Classify(cfg, c) == Special
    ensures Unescape(cfg, p + [c] + t) == None
  {
    assert p + [c] + t == p + ([c] + t);
    FeedAppend(cfg, Initial, p, [c] + t);
    var m := Feed(cfg, Initial, p);
    assert ([c] + t)[1..] == t;
    FeedFromError(cfg, Step(cfg, m, c), t);
  }

  /** Input that ends right after an escape fails to decode. */
  lemma UnescapeTrailingEscape(cfg: Config, p: seq<char>)
    requires Feed(cfg, Initial, p).state == SeenCharacter
    ensures Unescape(cfg, p + [cfg.escape]) == None
  {
    FeedAppend(cfg, Initial, p, [cfg.escape]);
  }

  /** Under the Forbid policy, an escape before a normal character makes decoding fail. */
  lemma UnescapeStrayForbidden(cfg: Config, p: seq<char>, c: char, t: seq<char>)
    requires cfg.policy == Forbid
    requires Feed(cfg, Initial, p).state == SeenCharacter
    requires Classify(cfg, c) == Normal
    ensures Unescape(cfg, p + [cfg.escape, c] + t) == None
  {
    assert p + [cfg.escape, c] + t == p + ([cfg.escape, c] + t);
    FeedAppend(cfg, Initial, p, [cfg.escape, c] + t);
    var m := Feed(cfg, Initial, p);
    assert ([cfg.escape, c] + t)[1..] == [c] + t;
    assert ([c] + t)[1..] == t;
    FeedFromError(cfg, Step(cfg, Step(cfg, m, cfg.escape), c), t);
  }

  lemma FeedPair(cfg: Config, m: Machine, x: char, y: char)
    ensures Feed(cfg, m, [x, y]) == Step(cfg, Step(cfg, m, x), y)
  {
    assert [x, y][1..] == [y];
    assert [y][1..] == [];
    var m1 := Step(cfg, m, x);
    assert Feed(cfg, m, [x, y]) == Feed(cfg, m1, [y]);
    assert Feed(cfg, m1, [y]) == Feed(cfg, Step(cfg, m1, y), []);
  }

  /** The three two-character escape sequences, from a ready machine. */
  lemma EscapeSequences(cfg: Config, b: seq<char>, c: char)
    ensures Classify(cfg, c) == Special ==> Feed(cfg, Ready(b), [cfg.escape, c]) == Ready(b + [c])
    ensures Feed(cfg, Ready(b), [cfg.escape, cfg.escape]) == Ready(b + [cfg.escape])
    ensures Classify(cfg, c) == Normal && cfg.policy == Allow ==>
      Feed(cfg, Ready(b), [cfg.escape, c]) == Ready(b + [cfg.escape, c])
  {
    FeedPair(cfg, Ready(b), cfg.escape, c);
    FeedPair(cfg, Ready(b), cfg.escape, cfg.escape);
  }

  function Repeat(c: char, n: nat): (r: seq<char>)
    ensures |r| == n
    ensures forall i :: 0 <= i < n ==> r[i] == c
  {
    if n == 0 then [] else [c] + Repeat(c, n - 1)
  }

  lemma {:induction false} RepeatSnoc(c: char, n: nat)
    ensures Repeat(c, n) + [c] == Repeat(c, n + 1)
  {
    assert Repeat(c, n) + [c] == Repeat(c, n + 1);
  }

  /** A run of 2k escape characters decodes to k of them. */
  lemma {:induction false} DoubledEscapes(cfg: Config, b: seq<char>, k: nat)
    ensures Feed(cfg, Ready(b), Repeat(cfg.escape, 2 * k)) == Ready(b + Repeat(cfg.escape, k))
    decreases k
  {
    var e := cfg.escape;
    if k == 0 {
      assert b + Repeat(e, 0) == b;
    } else {
      assert Repeat(e, 2 * k) == [e, e] + Repeat(e, 2 * (k - 1));
      FeedAppend(cfg, Ready(b), [e, e], Repeat(e, 2 * (k - 1)));
      EscapeSequences(cfg, b, e);
      DoubledEscapes(cfg, b + [e], k - 1);
      assert b + [e] + Repeat(e, k - 1) == b + Repeat(e, k);
    }
  }

  /**
   * Under the Allow policy, a run of 2k+1 escape characters before a normal
   * character decodes to k+1 escape characters and that character.
   */
  lemma OddEscapesBeforeNormal(cfg: Config, b: seq<char>, k: nat, c: char)
    requires cfg.policy == Allow
    requires Classify(cfg, c) == Normal
    ensures Feed(cfg, Ready(b), Repeat(cfg.escape, 2 * k + 1) + [c])
         == Ready(b + Repeat(cfg.escape, k + 1) + [c])
  {
    var e := cfg.escape;
    RepeatSnoc(e, 2 * k);
    assert Repeat(e, 2 * k + 1) + [c] == Repeat(e, 2 * k) + [e, c];
    FeedAppend(cfg, Ready(b), Repeat(e, 2 * k), [e, c]);
    DoubledEscapes(cfg, b, k);
    EscapeSequences(cfg, b + Repeat(e, k), c);
    RepeatSnoc(e, k);
    assert b + Repeat(e, k) + [e, c] == b + Repeat(e, k + 1) + [c];
  }
}
