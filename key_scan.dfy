/**
 * `KeyParser` of src/line/parsing/key.rs: reads a still escaped tag or field
 * key up to the first unescaped `=`. An unescaped space or `,` before it is
 * an error. Unlike the measurement and tag-value scanners, a backslash here
 * escapes exactly the next character, so `\\` turns the escape off again.
 */
module KeyScanner {
  import opened Wrappers
  import opened Errors
  import opened Scanning

  const Stops: seq<char> := ['=', ' ', ',']

  /**
   * What `process` computes: the key before the first unescaped `=` and the
   * text after it. The key may be empty; this scanner does not reject that.
   */
  function Scan(line: string): (r: Result<(string, string), InfluxLineError>)
    ensures r.Ok? ==> r.value.0 + ['='] + r.value.1 == line
    ensures r.Ok? ==> FirstStop(Toggle, Stops, line) == Some(|r.value.0|)
    ensures r.Err? ==> r.error == NoValue || r.error == UnescapedSpecialCharacter
  {
    match FirstStop(Toggle, Stops, line)
    case None => Err(NoValue)
    case Some(k) =>
      if line[k] == '=' then Ok(ExclusiveSplitAt(line, k)) else Err(UnescapedSpecialCharacter)
  }

  /** `KeyParser::new().process(line)`: one pass with the escape flag as a local. */
  method Process(line: string) returns (r: Result<(string, string), InfluxLineError>)
    ensures r == Scan(line)
  {
    var escaped := No;
    var index := 0;
    while index < |line|
      invariant 0 <= index <= |line|
      invariant escaped == FlagBefore(Toggle, line, index)
      invariant forall j :: 0 <= j < index ==> !StopsAt(Toggle, Stops, line, j)
    {
      var character := line[index];
      if escaped == No && character == '\\' {
        escaped := Yes;
      } else if escaped == No && (character == ' ' || character == ',') {
        FirstStopIs(Toggle, Stops, line, index);
        return Err(UnescapedSpecialCharacter);
      } else if escaped == No && character == '=' {
        FirstStopIs(Toggle, Stops, line, index);
        return Ok(ExclusiveSplitAt(line, index));
      } else if escaped == No {
      } else {
        escaped := No;
      }
      index := index + 1;
    }
    return Err(NoValue);
  }

  /** A delimiter stops the key scan exactly when an even run of backslashes precedes it. */
  lemma StopsIff(line: string, j: nat)
    requires j < |line|
    ensures StopsAt(Toggle, Stops, line, j) <==> line[j] in Stops && BackslashRun(line, j) % 2 == 0
  {
    ToggleFlag(line, j);
  }

  /** Every `=`, `,` or space inside a scanned key follows an odd run of backslashes. */
  lemma KeyDelimitersEscaped(line: string)
    requires Scan(line).Ok?
    ensures var key := Scan(line).value.0;
      forall j :: 0 <= j < |key| && key[j] in Stops ==> BackslashRun(line, j) % 2 == 1 && key[j - 1] == '\\'
  {
    var key := Scan(line).value.0;
    assert forall j :: 0 <= j < |key| ==> key[j] == line[j];
    forall j | 0 <= j < |key| && key[j] in Stops
      ensures BackslashRun(line, j) % 2 == 1 && key[j - 1] == '\\'
    {
      StopsIff(line, j);
      DelimitersBeforeStopAreEscaped(Toggle, Stops, line, |key|, j);
    }
  }

  /** An `=` at the very start gives an empty key. */
  lemma EmptyKey(rest: string)
    ensures Scan(['='] + rest) == Ok(([], rest))
  {
    FirstStopIs(Toggle, Stops, ['='] + rest, 0);
  }

  /** Text with no delimiter and no backslash. */
  predicate PlainText(s: string) {
    forall i :: 0 <= i < |s| ==> s[i] !in Stops && s[i] != '\\'
  }

  /** A key with no delimiter and no backslash ends at the first `=`. */
  lemma PlainKey(key: string, rest: string)
    requires PlainText(key)
    ensures Scan(key + ['='] + rest) == Ok((key, rest))
  {
    var s := key + ['='] + rest;
    forall j | 0 <= j <= |key|
      ensures !StopsAt(Toggle, Stops, s, j) <==> j < |key|
    {
      StopsIff(s, j);
      assert s[j] == if j < |key| then key[j] else '=';
      assert j > 0 ==> s[j - 1] == key[j - 1];
    }
    FirstStopIs(Toggle, Stops, s, |key|);
    assert s[..|key|] == key && s[|key| + 1..] == rest;
  }

  /**
   * `a\\=b` splits at the `=`: the doubled backslash is an escaped backslash.
   * A sticky scanner would still see that `=` as escaped.
   */
  lemma DoubledBackslashEndsEscape()
    ensures Scan("a\\\\=b") == Ok(("a\\\\", "b"))
    ensures !StopsAt(Sticky, Stops, "a\\\\=b", 3)
  {
    var s := "a\\\\=b";
    forall j | 0 <= j < |s| {
      StopsIff(s, j);
    }
    FirstStopIs(Toggle, Stops, s, 3);
    assert s[..3] == "a\\\\" && s[4..] == "b";
    StickyFlag(s, 3);
  }

  /**
   * A backslash before a delimiter keeps it inside the raw key, as in
   * `t\ a\=g\,1=super`: the key runs to the first `=` after it.
   */
  lemma EscapedStopStaysInKey(p: string, c: char, q: string, rest: string)
    requires PlainText(p) && PlainText(q) && c in Stops
    ensures Scan(p + ['\\', c] + q + ['='] + rest) == Ok((p + ['\\', c] + q, rest))
  {
    var key := p + ['\\', c] + q;
    var s := key + ['='] + rest;
    var n := |p|;
    assert s == p + ['\\', c] + q + ['='] + rest;
    assert BackslashRun(s, n) == 0 by {
      if n > 0 {
        assert s[n - 1] == p[n - 1];
      }
    }
    assert s[n] == '\\' && s[n + 1] == c;
    assert BackslashRun(s, n + 1) == 1;
    forall j | 0 <= j <= |key|
      ensures StopsAt(Toggle, Stops, s, j) <==> j == |key|
    {
      StopsIff(s, j);
      if j < n {
        assert s[j] == p[j];
      } else if n + 1 < j < |key| {
        assert s[j] == q[j - n - 2];
      } else if j == |key| {
        assert s[j] == '=';
        assert s[j - 1] == if q == [] then c else q[|q| - 1];
      }
    }
    FirstStopIs(Toggle, Stops, s, |key|);
    assert s[..|key|] == key && s[|key| + 1..] == rest;
  }

  /** Failing keys: no `=` at all, and a bare space before the `=`. */
  lemma KeyErrors()
    ensures Scan("novalue") == Err(NoValue)
    ensures Scan("hello kitty=1") == Err(UnescapedSpecialCharacter)
  {
    var s := "novalue";
    forall j | 0 <= j < |s| {
      StopsIff(s, j);
    }
    var t := "hello kitty=1";
    forall j | 0 <= j < |t| {
      StopsIff(t, j);
    }
    FirstStopIs(Toggle, Stops, t, 5);
  }
}
