/**
 * The shared pieces of src/line/parsing/mod.rs on which every segment scanner
 * is built: the `Escaped` flag, `exclusive_split_at`, and the raw key/value
 * pair. It also holds what the scanners compute, stated once: the escape flag
 * before each position and the first position at which a scanner stops.
 *
 * Every delimiter is a single ASCII character, so a string index is a
 * character index here.
 */
module Scanning {
  import opened Wrappers

  datatype Escaped = Yes | No

  /** A key or value slice as it stands in the line, still escaped. */
  datatype RawKeyValuePair = RawKeyValuePair(key: string, value: string)

  /** `exclusive_split_at`: the text before and after position `i`, without the character at `i`. */
  function ExclusiveSplitAt(s: string, i: nat): (r: (string, string))
    requires i < |s|
    ensures r.0 + [s[i]] + r.1 == s
    ensures |r.0| == i && |r.1| == |s| - i - 1
  {
    assert s[..i] + [s[i]] + s[i + 1..] == s;
    (s[..i], s[i + 1..])
  }

  /**
   * How a scanner moves its escape flag. The measurement and tag-value scanners
   * keep it on through a run of backslashes (`Sticky`); the key scanner lets a
   * backslash escape exactly the next character (`Toggle`); the bare field value
   * scanner has no flag.
   */
  datatype EscapeRule = Sticky | Toggle | NoEscapes

  function NextFlag(rule: EscapeRule, flag: Escaped, c: char): Escaped {
    match rule
    case Sticky => if c == '\\' then Yes else No
    case Toggle => if flag == No && c == '\\' then Yes else No
    case NoEscapes => No
  }

  /** The flag a scanner holds when it reaches position `j`. */
  function FlagBefore(rule: EscapeRule, s: string, j: nat): Escaped
    requires j <= |s|
    decreases j
  {
    if j == 0 then No else NextFlag(rule, FlagBefore(rule, s, j - 1), s[j - 1])
  }

  /** Position `j` holds a delimiter the scanner does not see as escaped. */
  predicate StopsAt(rule: EscapeRule, stops: seq<char>, s: string, j: nat) {
    j < |s| && s[j] in stops && FlagBefore(rule, s, j) == No
  }

  /** The first position at or after `i` where the scanner stops. */
  function FirstStopFrom(rule: EscapeRule, stops: seq<char>, s: string, i: nat): (r: Option<nat>)
    requires i <= |s|
    ensures r.Some? ==> i <= r.value < |s| && StopsAt(rule, stops, s, r.value)
    ensures r.Some? ==> forall j :: i <= j < r.value ==> !StopsAt(rule, stops, s, j)
    ensures r.None? ==> forall j :: i <= j < |s| ==> !StopsAt(rule, stops, s, j)
    decreases |s| - i
  {
    if i == |s| then None
    else if StopsAt(rule, stops, s, i) then Some(i)
    else FirstStopFrom(rule, stops, s, i + 1)
  }

  /** The first position where the scanner stops, if any. */
  function FirstStop(rule: EscapeRule, stops: seq<char>, s: string): (r: Option<nat>)
    ensures r.Some? ==> r.value < |s| && StopsAt(rule, stops, s, r.value)
    ensures r.Some? ==> forall j :: 0 <= j < r.value ==> !StopsAt(rule, stops, s, j)
    ensures r.None? ==> forall j :: 0 <= j < |s| ==> !StopsAt(rule, stops, s, j)
  {
    FirstStopFrom(rule, stops, s, 0)
  }

  /** A stop with no stop before it is the first stop. */
  lemma FirstStopIs(rule: EscapeRule, stops: seq<char>, s: string, k: nat)
    requires StopsAt(rule, stops, s, k)
    requires forall j :: 0 <= j < k ==> !StopsAt(rule, stops, s, j)
    ensures FirstStop(rule, stops, s) == Some(k)
  {
  }

  /**
   * Under the sticky rule a character is escaped exactly when a backslash stands
   * right before it; in particular `\\,` keeps the comma escaped.
   */
  lemma StickyFlag(s: string, j: nat)
    requires j <= |s|
    ensures FlagBefore(Sticky, s, j) == Yes <==> j > 0 && s[j - 1] == '\\'
  {
  }

  /** Length of the run of backslashes that ends right before position `j`. */
  function BackslashRun(s: string, j: nat): (n: nat)
    requires j <= |s|
    ensures n <= j
    decreases j
  {
    if j == 0 || s[j - 1] != '\\' then 0 else BackslashRun(s, j - 1) + 1
  }

  /** Under the toggle rule a character is escaped exactly when an odd run of backslashes precedes it. */
  lemma {:induction false} ToggleFlag(s: string, j: nat)
    requires j <= |s|
    ensures FlagBefore(Toggle, s, j) == Yes <==> BackslashRun(s, j) % 2 == 1
    decreases j
  {
    if j > 0 {
      ToggleFlag(s, j - 1);
    }
  }

  /** Under the toggle rule a pair of backslashes leaves the next character unescaped. */
  lemma DoubledBackslashUnescapes(s: string, j: nat)
    requires 2 <= j <= |s|
    requires s[j - 1] == '\\' && s[j - 2] == '\\'
    requires FlagBefore(Toggle, s, j - 2) == No
    ensures FlagBefore(Toggle, s, j) == No
  {
  }

  /** Every delimiter before the first stop is preceded by a backslash, under either flag rule. */
  lemma DelimitersBeforeStopAreEscaped(rule: EscapeRule, stops: seq<char>, s: string, k: nat, j: nat)
    requires rule != NoEscapes
    requires k <= |s| && j < k
    requires forall i :: 0 <= i < k ==> !StopsAt(rule, stops, s, i)
    requires s[j] in stops
    ensures j > 0 && s[j - 1] == '\\'
  {
    assert !StopsAt(rule, stops, s, j);
    assert FlagBefore(rule, s, j) == Yes;
  }
}
