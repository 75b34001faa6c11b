# influx-line in Dafny

A model of the codec core of `influx-line`, a Rust crate for the InfluxDB Line
Protocol v2. Each line of that protocol reads
`measurement[,tag=value...] field=value[,field=value...] [timestamp]`. The
model has four parts, and each part keeps the shape of the Rust code:

- **Escape engine** (`escape_parser.dfy`, `escape_formatter.dfy`,
  `escape_roundtrip.dfy`).
  - `LinearParser` is a class. A method, `ProcessChar`, mutates its state and
    buffer one character at a time. It is proved against a pure state machine:
    `Step`, `Feed` and `Unescape`.
  - The parser takes a stray-escape policy. Under `Allow`, an escape before a
    normal character is kept together with that character. Under `Forbid`, it
    is an error.
  - `LinearFormatter.Chars` is the inverse. It puts the escape character in
    front of every special character.
  - The round-trip lemmas say when decoding the formatted text gives the text
    back, and when it does not.
- **Validated strings and scalars**.
  - Name types: `InfluxName` (`names.dfy`), `KeyName` (`key_name.dfy`) and
    `MeasurementName` (`measurement_name.dfy`). Each has the naming
    restriction, its own special characters, a `FromStr` method that drives
    the parser, and a `Display`.
  - `QuotedString` (`quoted_string.dfy`): quote delimiters, and `Forbid`
    decoding of the text between them.
  - Suffix-typed integers and their narrowing conversions (`integer.dfy`).
  - The Boolean spellings (`boolean.dfy`).
- **Raw-segment tokenizer** (`scanning.dfy`, `measurement_scan.dfy`,
  `key_scan.dfy`, `tag_scan.dfy`, `field_scan.dfy`, `line_parser.dfy`,
  `line_text.dfy`).
  - Each scanner of `src/line/parsing` is a method with a loop. It is proved
    equal to a function that states where the scan stops and what tail it
    reports.
  - The escape flag is stated once, as the flag before each position
    (`FlagBefore`). It comes in three rules: sticky (measurement and tag
    values), toggling (keys) and none (bare field values).
  - `LinearLineParser` loops the scanners into a `RawLine`. Its pieces put
    back together spell out the input line.
- **Record container** (`key_value_storage.dfy`, `influx_line.dfy`).
  - `KeyValueStorage` is a class over a `seq` of pairs. `Add` overwrites a
    value in place or appends a new pair.
  - `InfluxLine` is a class holding two storages. Its builder methods change
    the line in place.

Strings are `seq<char>`. Every delimiter is one ASCII character, so a string
index is a character index. The one place where bytes and characters part is
the byte count in `quoted.rs` (see Findings).

## Model

| member | source | states |
|---|---|---|
| EscapeParser.Classify | src/types/string/parser.rs:36-44 | Escape exactly for the escape character, Special for another listed character, Normal otherwise; escape wins when it is also listed |
| EscapeParser.LinearParser.constructor | src/types/string/parser.rs:27-34 | a new parser is in SeenCharacter with an empty buffer and the given specials, escape and policy |
| EscapeParser.LinearParser.ProcessChar | src/types/string/parser.rs:46-75 | the new state and buffer are one transition of the machine from the old ones; the result is true iff the state is not Error |
| EscapeParser.LinearParser.Extract | src/types/string/parser.rs:77-85 | the buffer in SeenCharacter, None right after an escape or in Error |
| EscapeParser.ProcessChars | src/types/string/key.rs:129-130 | `try_for_each` over the characters leaves the parser as feeding all of them would, and reports false iff one was refused |
| EscapeParser.FeedFromError | src/types/string/parser.rs:71-74 | Error is absorbing: no later input changes state or buffer |
| EscapeParser.FeedAppend | src/types/string/parser.rs:46-75 | feeding `a + b` is feeding `a`, then `b` |
| EscapeParser.FeedPlain | src/types/string/parser.rs:48-51 | normal characters are appended unchanged and the state stays SeenCharacter |
| EscapeParser.FeedBound | src/types/string/parser.rs:47-70 | the buffer only grows, and buffer plus pending escape never exceed the characters processed |
| EscapeParser.UnescapeShortens | src/types/string/parser.rs:47-70 | a decoded string is never longer than its input |
| EscapeParser.UnescapeBareSpecial | src/types/string/parser.rs:52-54 | a special character met outside an escape makes the whole decoding fail |
| EscapeParser.UnescapeTrailingEscape | src/types/string/parser.rs:77-85 | input ending right after an escape fails to decode |
| EscapeParser.UnescapeStrayForbidden | src/types/string/quoted.rs:90-99 | under Forbid, an escape before a normal character makes decoding fail |
| EscapeParser.FeedPair | src/types/string/parser.rs:46-75 | feeding two characters is two transitions |
| EscapeParser.EscapeSequences | src/types/string/parser.rs:58-70 | escape then special appends the special character; escape then escape appends one escape; under Allow escape then normal appends both |
| EscapeParser.DoubledEscapes | src/types/string/measurement.rs:170-175 | a run of 2k escapes decodes to k escapes |
| EscapeParser.OddEscapesBeforeNormal | src/types/string/measurement.rs:169-174 | under Allow, 2k+1 escapes before a normal character decode to k+1 escapes and the character |
| EscapeFormatter.Next | src/types/string/formatter.rs:18-32 | the iterator yields None exactly when exhausted, and each call lowers the count still owed by one |
| EscapeFormatter.Drain | src/types/string/formatter.rs:15-33 | the iterator yields exactly as many characters as its variant holds |
| EscapeFormatter.DrainYields | src/types/string/formatter.rs:18-31 | `Escaped(e, c)` yields `e`, `c`; `Unescaped(c)` yields `c`; `Exhausted` yields nothing |
| EscapeFormatter.LinearFormatter.Chars | src/types/string/formatter.rs:43-54 | output length is input length plus the number of special characters; text without special characters is returned unchanged |
| EscapeFormatter.LinearFormatter.CharsAppend | src/types/string/formatter.rs:47-53 | formatting works character by character: it distributes over concatenation |
| EscapeFormatter.LinearFormatter.CharsAt | src/types/string/formatter.rs:47-53 | each special character becomes escape plus character, every other character stays, in place |
| EscapeFormatter.LinearFormatter.CharsHead | src/types/string/formatter.rs:47-53 | the first output character is the escape for a special first character, else that character |
| EscapeFormatter.LinearFormatter.RemoveInsertedEscapesOfChars | src/types/string/formatter.rs:47-53 | deleting each escape placed before a special character gives back the input, in order |
| EscapeRoundTrip.FeedExpansion | src/types/string/parser.rs:48-66 | one character's formatted form, fed to a ready parser, appends that character |
| EscapeRoundTrip.FeedChars | src/types/string/parser.rs:46-75 | a ready parser fed formatted text appends exactly the original text, when the escape is special or absent |
| EscapeRoundTrip.UnescapeChars | src/types/string/formatter.rs:43-54 | decoding the formatted text gives back the text, under either policy, when the escape is special or absent |
| EscapeRoundTrip.CharsPlainThenEscape | src/types/string/formatter.rs:47-53 | plain text followed by an escape that is not special is formatted as it is |
| EscapeRoundTrip.CharsSpecialThenPlain | src/types/string/formatter.rs:47-53 | a special character then plain text: only the special character gets an escape |
| EscapeRoundTrip.CharsKeepsEscape | src/types/string/formatter.rs:47-53 | with an escape that is not special, `a e c b` is formatted as `a e e c b` |
| EscapeRoundTrip.UnescapeFailsAfterKeptEscape | src/types/string/parser.rs:52-56 | decoding that formatted text fails: the doubled escape reads as one, then a bare special follows |
| InfluxNames.TryFrom | src/types/name.rs:38-44 | accepts exactly the non-empty names not starting with `_`, stores them unchanged, and the error carries the rejected string |
| InfluxNames.EqualsStr | src/types/name.rs:61-65 | a name equals a string iff it stores that string |
| InfluxNames.ReservedNamespace | src/types/name.rs:39-41 | every `_`-prefixed string is rejected with itself in the error |
| InfluxNames.TryFromStored | src/types/name.rs:43 | a stored name is accepted again, to the same name |
| InfluxNames.DocumentedNames | src/types/name.rs:12-15 | `measurement` is accepted and equals its string; `_bad` and the empty string are rejected |
| Keys.New | src/types/string/key.rs:85-94 | Ok iff the naming restriction holds, the name stored unchanged; otherwise NameRestriction |
| Keys.Decode | src/types/string/key.rs:122-134 | what `from_str` computes: a refused character or a pending escape is Failed, every other error is NameRestriction, and a decoded name meets the naming restriction and is no longer than the input |
| Keys.FromStr | src/types/string/key.rs:122-134 | unescape under Allow with specials `,` `=` space, engine failure as Failed, then the naming restriction |
| Keys.Display | src/types/string/key.rs:137-141 | one backslash added per special character, and deleting those gives back the name |
| Keys.DisplayRoundTrip | src/types/string/key.rs:31-35 | a valid name without backslashes parses back from its displayed form |
| Keys.FeedPlainText | src/types/string/key.rs:129-130 | text without specials or backslashes is appended to the buffer as it is |
| Keys.DisplayKeepsBackslash | src/types/string/key.rs:187 | `a\ b` is displayed as `a\\ b`: the backslash copied, the space escaped |
| Keys.DisplayRoundTripFailsWithBackslash | src/types/string/key.rs:185-187 | such a displayed name does not parse back: it fails |
| Keys.DecodeBareSpecial | src/types/string/key.rs:82 | a bare `,`, `=` or space met outside an escape makes parsing fail |
| Keys.DecodeTrailingBackslash | src/types/string/key.rs:178 | input ending in a lone backslash fails |
| Keys.DecodeLiteral | src/types/string/key.rs:151-152 | text without specials or backslashes parses to itself, subject to the restriction |
| Keys.ParsingFailsOnEmpty | src/types/string/key.rs:174 | the empty string is a NameRestriction error |
| Keys.ParsingFailsOnReserved | src/types/string/key.rs:179 | `_reserved` is a NameRestriction error, checked after unescaping |
| Keys.ParsingFailsOnBareSpecial | src/types/string/key.rs:175-177 | a bare space, comma or `=` after plain text fails |
| Keys.ParsingFailsOnTrailingBackslash | src/types/string/key.rs:178 | `one\` fails |
| Keys.DecodeEscapedPair | src/types/string/key.rs:153-162 | an escaped special decodes to the character, `\\` to one backslash, a backslash before any other character is kept |
| Measurements.TryFrom | src/types/string/measurement.rs:90-96 | Ok iff the naming restriction holds, the name stored unchanged; otherwise NameRestriction |
| Measurements.EqualsStr | src/types/string/measurement.rs:113-129 | a name equals a string iff it stores that string |
| Measurements.Decode | src/types/string/measurement.rs:134-143 | what `from_str` computes: a refused character or a pending escape is Failed, every other error is NameRestriction, and a decoded name meets the naming restriction and is no longer than the input |
| Measurements.FromStr | src/types/string/measurement.rs:134-143 | unescape with specials space and `,` (stray escapes kept), engine failure as Failed, then the naming restriction |
| Measurements.Display | src/types/string/measurement.rs:146-151 | one backslash added per space or comma, and deleting those gives back the name |
| Measurements.DisplayRoundTrip | src/types/string/measurement.rs:26-30 | a valid name without backslashes parses back from its displayed form |
| Measurements.DisplayKeepsBackslash | src/types/string/measurement.rs:200 | `a\ b` is displayed as `a\\ b`: the backslash copied, the space escaped |
| Measurements.DisplayRoundTripFailsWithBackslash | src/types/string/measurement.rs:198-200 | such a displayed name does not parse back: it fails |
| Measurements.DecodeLiteral | src/types/string/measurement.rs:160 | text without specials or backslashes parses to itself, subject to the restriction |
| Measurements.BareEqualsAccepted | src/types/string/measurement.rs:161 | `=` is not special: `1+1=10` parses to itself |
| Measurements.BareQuoteAccepted | src/types/string/measurement.rs:163 | `"` is not special: `stupid"quote` parses to itself |
| Measurements.StrayEscapeKept | src/types/string/measurement.rs:162 | `a\=b` parses to `a\=b` |
| Measurements.EvenBackslashRun | src/types/string/measurement.rs:170-174 | between two letters, 2k backslashes parse to k |
| Measurements.OddBackslashRun | src/types/string/measurement.rs:169-173 | between two letters, 2k+1 backslashes parse to k+1 |
| Measurements.TrailingDoubledBackslashes | src/types/string/measurement.rs:175 | a trailing run of 2k backslashes parses to k |
| Measurements.DecodeBareSpecial | src/types/string/measurement.rs:189-190 | a bare space or comma met outside an escape makes parsing fail |
| Measurements.DecodeTrailingBackslash | src/types/string/measurement.rs:191 | input ending in a lone backslash fails |
| Measurements.ParsingFailsOnRestriction | src/types/string/measurement.rs:188-192 | the empty string and `_reserved` are NameRestriction errors |
| Quoted.New | src/types/string/quoted.rs:50-68 | any string is stored unchanged |
| Quoted.Decode | src/types/string/quoted.rs:79-103 | NoQuoteDelimiter iff the input is not at least two characters opening and closing with `"`; a decoded value is shorter than the input by at least two |
| Quoted.FromStr | src/types/string/quoted.rs:79-103 | the delimiter checks, then a Forbid-policy parser over the characters between the quotes, as `Decode` states; this is the corrected reading of the byte count at lines 96-99 (see Findings) |
| Quoted.Display | src/types/string/quoted.rs:106-111 | quotes around the value with `"` and `\` escaped; length grows by two plus one per escaped character, and deleting the escapes gives back the value |
| Quoted.DisplayRoundTrip | src/types/string/quoted.rs:106-111 | every value parses back from its displayed form |
| Quoted.BareQuoteFails | src/types/string/quoted.rs:139 | a bare `"` between the delimiters fails |
| Quoted.StrayEscapeFails | src/types/string/quoted.rs:140 | a backslash before anything but `"` or `\` fails |
| Quoted.EscapedRightQuoteFails | src/types/string/quoted.rs:141 | `"dead\"` fails: the interior ends in a lone escape |
| Quoted.SuccessfulParsing | src/types/string/quoted.rs:120-122 | `""` is the empty value; `"\""` and `"\\"` decode to `"` and `\` |
| Quoted.DelimiterFailures | src/types/string/quoted.rs:132-138 | the empty input, `"`, `a`, `"R` and `L"` are NoQuoteDelimiter |
| Quoted.ParseAsWritten | src/types/string/quoted.rs:79-103 | `from_str` as written, cutting the interior by the byte count: NoQuoteDelimiter iff the delimiters are missing, otherwise Failed or a value at least one character shorter than the input |
| Quoted.ByteLength | src/types/string/quoted.rs:86-98 | `str::len` in bytes: at least the character count, equal iff every character is ASCII |
| Quoted.AsWrittenAgreesOnAscii | src/types/string/quoted.rs:96-99 | on ASCII input the byte-count interior is the character interior |
| Quoted.AsWrittenTakesRest | src/types/string/quoted.rs:96-99 | when the byte count reaches past the closing quote, the code as written decodes everything after the opening quote |
| Quoted.ByteLengthOfThree | src/types/string/quoted.rs:98 | the byte length of three characters is the sum of their UTF-8 widths |
| Quoted.ByteLengthOfFour | src/types/string/quoted.rs:98 | the byte length of four characters is the sum of their UTF-8 widths |
| Quoted.OneCharacterValue | src/types/string/quoted.rs:106-111 | a one-character value that is not special is displayed as that character in quotes, and parsed back |
| Quoted.AsWrittenRejectsDisplayedNonAscii | src/types/string/quoted.rs:96-99 | the displayed form of a one-character non-ASCII value is refused by the code as written, though `Decode` accepts it |
| Quoted.AsWrittenAcceptsEscapedClosingQuote | src/types/string/quoted.rs:96-99 | text like `"é\"` is refused by `Decode`, but decoded by the code as written, with the escaped quote in the value |
| Integers.DigitChar | src/types/integer.rs:28 | the digit character denotes the given digit |
| Integers.NatToDecimal | src/types/integer.rs:28 | non-empty digits without a leading zero (except 0 itself) that denote the number |
| Integers.ParseI64 | src/types/integer.rs:67-69 | stands for `parse::<i64>`: optional sign, digits, range check; never succeeds on the empty string |
| Integers.ParseU64 | src/types/integer.rs:86-88 | stands for `parse::<u64>`: optional `+`, digits, range check; never accepts a leading `-` |
| Integers.FindFirst | src/types/integer.rs:60 | the index of the first occurrence, or None iff the character is absent |
| Integers.SplitOnce | src/types/integer.rs:60 | text before and after the first occurrence, joined back around it; None iff absent |
| Integers.SplitOnceAtEnd | src/types/integer.rs:60-65 | a suffix character at the end, absent before it, splits off an empty remainder |
| Integers.ParseInteger | src/types/integer.rs:59-72 | Ok iff the text ends in its only `i` and the rest is a decimal in i64 range; every error is IntegerNotParsed |
| Integers.ParseUInteger | src/types/integer.rs:78-91 | Ok iff the text ends in its only `u` and the rest is a decimal in u64 range; every error is UIntegerNotParsed |
| Integers.IntToDecimal | src/types/integer.rs:28 | Rust's decimal of a signed value: a leading `-` iff it is negative, then digits without leading zeros denoting its magnitude |
| Integers.DisplayInteger | src/types/integer.rs:28 | text ending in `i`, with no other `i`, whose prefix the i64 parse reads back as the value |
| Integers.DisplayUInteger | src/types/integer.rs:53 | text ending in `u`, with no other `u`, whose prefix the u64 parse reads back as the value |
| Integers.DecimalHasNoLetters | src/types/integer.rs:28 | a printed decimal holds no suffix letter |
| Integers.ParseI64OfDecimal | src/types/integer.rs:67-69 | the signed parse reads back every printed i64 |
| Integers.IntegerRoundTrip | src/types/integer.rs:56-73 | every InfluxInteger parses back from its display |
| Integers.UIntegerRoundTrip | src/types/integer.rs:75-92 | every InfluxUInteger parses back from its display |
| Integers.SuffixesDoNotMix | src/types/integer.rs:177-197 | integer text is no unsigned integer and unsigned integer text is no integer |
| Integers.NegativeIsNoUInteger | src/types/integer.rs:199 | a negative value parses with `i` but not with `u` |
| Integers.ParsesPositive | src/types/integer.rs:167 | `123i` is 123 |
| Integers.ParsesNegative | src/types/integer.rs:169 | `-25565i` is -25565 |
| Integers.ParsesUnsignedZero | src/types/integer.rs:189 | `0u` is 0 |
| Integers.RejectsMissingSuffix | src/types/integer.rs:178-201 | `0`, the empty string and `128.0` fail |
| Integers.RejectsWord | src/types/integer.rs:181 | `randomi` fails |
| Integers.RejectsSpace | src/types/integer.rs:182 | `123 01i` fails |
| Integers.NarrowInteger | src/types/integer.rs:94-125 | narrowing to i32, i16 or i8 gives the value iff it is in range, else TypeConversion |
| Integers.NarrowUInteger | src/types/integer.rs:127-158 | narrowing to u32, u16 or u8 gives the value iff it is in range, else TypeConversion |
| Integers.WidenThenNarrow | src/types/integer.rs:27 | an i32/i16/i8 value widened to InfluxInteger narrows back to itself |
| Integers.WidenThenNarrowUnsigned | src/types/integer.rs:52 | a u32/u16/u8 value widened to InfluxUInteger narrows back to itself |
| Integers.NarrowingIsMonotone | src/types/integer.rs:94-158 | a value that fits a narrow type fits every wider one |
| Booleans.FromStr | src/types/boolean.rs:32-38 | true exactly for the five true spellings, false exactly for the five false spellings, an error for every other string |
| Booleans.Display | src/types/boolean.rs:21 | four characters for true, five for false |
| Booleans.SpellingsDisjoint | src/types/boolean.rs:34-35 | no spelling means both values |
| Booleans.DisplayRoundTrip | src/types/boolean.rs:21-35 | every Boolean parses back from its display |
| Booleans.OtherCasingsRejected | src/types/boolean.rs:36 | `tRUE`, `fALSE` and the empty string fail |
| Scanning.ExclusiveSplitAt | src/line/parsing/mod.rs:18-21 | the left part, the character at the index, and the right part make up the string |
| Scanning.FirstStopFrom | src/line/parsing/measurement.rs:24-46 | the first position from `i` at which an unescaped delimiter stands, or None iff there is none |
| Scanning.FirstStop | src/line/parsing/measurement.rs:24-46 | the first position at which an unescaped delimiter stands, or None iff there is none |
| Scanning.FirstStopIs | src/line/parsing/measurement.rs:24-46 | a stop with no stop before it is the first stop |
| Scanning.StickyFlag | src/line/parsing/measurement.rs:37-44 | under the sticky rule the flag is on exactly after a backslash |
| Scanning.BackslashRun | src/line/parsing/key.rs:19-33 | the run of backslashes before a position is no longer than the prefix |
| Scanning.ToggleFlag | src/line/parsing/key.rs:19-33 | under the toggling rule the flag is on exactly after an odd run of backslashes |
| Scanning.DoubledBackslashUnescapes | src/line/parsing/key.rs:20-32 | under the toggling rule `\\` turns the flag back off |
| Scanning.DelimitersBeforeStopAreEscaped | src/line/parsing/measurement.rs:24-46 | every delimiter before the first stop follows a backslash |
| MeasurementScanner.Scan | src/line/parsing/measurement.rs:23-49 | on success a non-empty measurement, then the delimiter the tail names, then the tail make up the line, split at the first unescaped delimiter; errors are NoMeasurement or NoWhitespaceDelimiter |
| MeasurementScanner.Process | src/line/parsing/measurement.rs:23-49 | the loop computes `Scan` |
| MeasurementScanner.NoMeasurementIff | src/line/parsing/measurement.rs:26-28 | NoMeasurement iff the line starts with `,` or space |
| MeasurementScanner.StopsIff | src/line/parsing/measurement.rs:25-44 | a `,` or space stops the scan iff no backslash precedes it |
| MeasurementScanner.NoDelimiterIff | src/line/parsing/measurement.rs:48 | NoWhitespaceDelimiter iff every `,` and space follows a backslash |
| MeasurementScanner.MeasurementDelimitersEscaped | src/line/parsing/measurement.rs:29-44 | every `,` or space inside the measurement follows a backslash; the delimiter after it does not |
| MeasurementScanner.DoubledBackslashKeepsEscape | src/line/parsing/measurement.rs:41 | `a\\,b c` splits at the space: a run of backslashes keeps the comma escaped |
| MeasurementScanner.EscapedSpaceStaysInside | src/line/parsing/measurement.rs:37-44 | `my\ cpu,host=a f=1` gives measurement `my\ cpu` and the tags tail |
| MeasurementScanner.PlainMeasurement | src/line/parsing/measurement.rs:29-36 | a plain measurement ends at the first `,` (Tags) or space (Fields) |
| KeyScanner.Scan | src/line/parsing/key.rs:17-37 | on success key, `=`, rest make up the line, split at the first unescaped `=`; errors are NoValue or UnescapedSpecialCharacter |
| KeyScanner.Process | src/line/parsing/key.rs:17-37 | the loop computes `Scan` |
| KeyScanner.StopsIff | src/line/parsing/key.rs:19-33 | an `=`, `,` or space stops the scan iff an even run of backslashes precedes it |
| KeyScanner.KeyDelimitersEscaped | src/line/parsing/key.rs:19-33 | every `=`, `,` or space in the key follows an odd run of backslashes |
| KeyScanner.EmptyKey | src/line/parsing/key.rs:26-28 | an `=` at index 0 gives an empty key |
| KeyScanner.PlainKey | src/line/parsing/key.rs:26-28 | a plain key ends at the first `=` |
| KeyScanner.DoubledBackslashEndsEscape | src/line/parsing/key.rs:20-32 | `a\\=b` splits at the `=`, where a sticky scanner would not stop |
| KeyScanner.EscapedStopStaysInKey | src/line/parsing/tag.rs:95-97 | a backslash before a delimiter keeps it in the raw key |
| KeyScanner.KeyErrors | src/line/parsing/key.rs:23-36 | `novalue` is NoValue; a bare space before the `=` is UnescapedSpecialCharacter |
| TagScanner.ScanValue | src/line/parsing/tag.rs:38-69 | on success a non-empty value, the delimiter the tail names and the tail make up the text, split at the first unescaped delimiter; errors are NoValue or NoFields |
| TagScanner.ProcessValue | src/line/parsing/tag.rs:38-69 | the loop computes `ScanValue` |
| TagScanner.Scan | src/line/parsing/tag.rs:20-28 | key, `=`, value, delimiter and tail make up the line; the value is non-empty and the tail shorter than the line |
| TagScanner.Process | src/line/parsing/tag.rs:20-28 | computes `Scan`: the key scanner, then the value scanner on the rest |
| TagScanner.StopsIff | src/line/parsing/tag.rs:43-64 | a `,` or space stops the value scan iff no backslash precedes it |
| TagScanner.MissingValue | src/line/parsing/tag.rs:44-46 | a value opening with an unescaped `,` or space is NoValue |
| TagScanner.PlainValueEnds | src/line/parsing/tag.rs:47-54 | a plain value ends at the next `,` (Tag) or space (Fields); a delimiter at the end leaves an empty tail |
| TagScanner.PlainValueWithoutTail | src/line/parsing/tag.rs:68 | a value without a delimiter, as in `tav=value`, is NoFields |
| TagScanner.EscapedDelimiterStaysInValue | src/line/parsing/tag.rs:55-64 | a backslash before a delimiter keeps it in the raw value |
| TagScanner.PlainTag | src/line/parsing/tag.rs:24-27 | a plain key and value end at the first delimiter after the `=` |
| FieldScanner.ScanSimple | src/line/parsing/field.rs:66-88 | errors are UnexpectedEscapeSymbol or NoValue; the value is a backslash-free prefix, and with a Timestamp or Field tail it is non-empty and value, delimiter, tail make up the line |
| FieldScanner.ProcessSimple | src/line/parsing/field.rs:66-88 | the loop computes `ScanSimple` |
| FieldScanner.StringValueParser.constructor | src/line/parsing/field.rs:92-97 | starts in Start, not escaped |
| FieldScanner.StringValueParser.ConsumeChar | src/line/parsing/field.rs:122-160 | the new state, flag and result are one step of the quoted-value machine |
| FieldScanner.ProcessString | src/line/parsing/field.rs:99-120 | the loop driving `consume_char` computes the quoted-value scan |
| FieldScanner.TracksStep | src/line/parsing/field.rs:122-155 | each accepted step keeps the machine in step with the quoted-string decoder |
| FieldScanner.ClosedPrefixDecodes | src/line/parsing/field.rs:144-147 | a prefix the machine closed with a quote is a quoted string the decoder accepts |
| FieldScanner.ScanStringFromSound | src/line/parsing/field.rs:99-160 | an accepted quoted value is one the decoder accepts, including both quotes, and value, delimiter, tail make up the line |
| FieldScanner.ScanValue | src/line/parsing/field.rs:53-62 | empty input is NoValue; a value opening with `"` is a decodable quoted string, any other is backslash-free; value, delimiter and tail make up the line |
| FieldScanner.ProcessValue | src/line/parsing/field.rs:53-62 | computes `ScanValue` |
| FieldScanner.Scan | src/line/parsing/field.rs:41-49 | key, `=`, value and delimiter spell out a prefix of the line, and the tail is shorter than the line |
| FieldScanner.KeyThenValue | src/line/parsing/field.rs:45-48 | a key, `=`, and a value scanned after them spell out the field's line |
| FieldScanner.Process | src/line/parsing/field.rs:41-49 | computes `Scan`: the key scanner, then the value scanner on the rest |
| FieldScanner.SimpleStopsIff | src/line/parsing/field.rs:67-84 | a bare value has no escapes: every stop character stops the scan |
| FieldScanner.SimpleValueEnds | src/line/parsing/field.rs:71-78 | a plain bare value ends at a space (Timestamp) or comma (Field) |
| FieldScanner.NewlineEndsValue | src/line/parsing/field.rs:79-82 | a newline ends the value with no tail and drops the rest |
| FieldScanner.BackslashInBareValue | src/line/parsing/field.rs:69 | a backslash in a bare value is UnexpectedEscapeSymbol |
| FieldScanner.BareValueMissing | src/line/parsing/field.rs:70 | a bare value opening with a space or comma is NoValue |
| FieldScanner.SimpleValueToEnd | src/line/parsing/field.rs:87 | a bare value without stops runs to the end, with no tail |
| FieldScanner.PlainContentRun | src/line/parsing/field.rs:148 | characters other than `"` and `\` inside the quotes only move the machine on |
| FieldScanner.EnterContent | src/line/parsing/field.rs:124-139 | after `"` and plain characters the machine waits in the content, not escaped |
| FieldScanner.ClosedPlainString | src/line/parsing/field.rs:156-158 | after the closing quote `,` hands over to a field, space to the timestamp, the end ends the line, anything else is SymbolsAfterClosedString |
| FieldScanner.UnterminatedString | src/line/parsing/field.rs:114-119 | a quote never closed is NoQuoteDelimiter |
| FieldScanner.BadEscapeInString | src/line/parsing/field.rs:149-155 | inside the quotes a backslash before anything but `\` or `"` is UnexpectedEscapeSymbol |
| FieldScanner.EscapedPairInContent | src/line/parsing/field.rs:140-152 | an escaped `\` or `"` leaves the machine in the content, not escaped |
| FieldScanner.FieldOf | src/line/parsing/field.rs:41-49 | a field is the key before the `=` and what the value scanner returns for the rest |
| FieldScanner.BareField | src/line/parsing/field.rs:71-78 | a plain key and bare value end at a space or comma |
| FieldScanner.BareFieldToEnd | src/line/parsing/field.rs:168 | `key=value` gives the pair and no tail |
| FieldScanner.StringFieldToEnd | src/line/parsing/field.rs:169-174 | a quoted value keeps both quotes and ends the line |
| FieldScanner.TrailingDelimiter | src/line/parsing/field.rs:194-205 | a delimiter at the very end still names its tail, which is empty |
| FieldScanner.EmptyString | src/line/parsing/field.rs:175 | `s=""` gives value `""` |
| FieldScanner.MissingParts | src/line/parsing/field.rs:226-230 | `123`, `a=`, `a=,c=d` and the empty line are NoValue; `,` is UnescapedSpecialCharacter |
| FieldScanner.UnclosedStringField | src/line/parsing/field.rs:231 | `a="string not closed` is NoQuoteDelimiter |
| LineParser.ParseTags | src/line/parsing/mod.rs:65-84 | a failing tag scan is that error; on success at least one tag, each with a non-empty value |
| LineParser.ParseFields | src/line/parsing/mod.rs:86-106 | a failing field scan is that error; on success at least one field |
| LineParser.ParseLine | src/line/parsing/mod.rs:47-63 | a failing measurement scan is that error; a parsed line has a measurement and a field, and no tags when the measurement ends at a space |
| LineParser.PrependNothing | src/line/parsing/mod.rs:69-83 | prepending no pairs changes nothing |
| LineParser.PrependTwice | src/line/parsing/mod.rs:69-83 | prepending in two steps is prepending both |
| LineParser.ParseTagsUnfold | src/line/parsing/mod.rs:72-81 | one loop round: the scanned tag, then the other tags or the fields tail |
| LineParser.ParseFieldsUnfold | src/line/parsing/mod.rs:93-103 | one loop round: the scanned field, then the other fields, the timestamp, or the end |
| LineParser.ProcessTags | src/line/parsing/mod.rs:65-84 | the loop computes `ParseTags` |
| LineParser.ProcessFields | src/line/parsing/mod.rs:86-106 | the loop computes `ParseFields` |
| LineParser.Process | src/line/parsing/mod.rs:47-63 | computes `ParseLine` |
| LineText.JoinCons | src/line/parsing/mod.rs:72-81 | one more pair in front puts it and a comma before the rest |
| LineText.JoinStep | src/line/parsing/mod.rs:72-81 | a pair, a comma and the rest of the tags spell out the tag text |
| LineText.JoinStepPrefix | src/line/parsing/mod.rs:93-103 | a pair, a comma and a field prefix spell out a prefix of the field text |
| LineText.ParseTagsSpellsLine | src/line/parsing/mod.rs:65-84 | parsed tags with commas between them, a space and the tail give back the input, in order |
| LineText.ParseFieldsSpellsLine | src/line/parsing/mod.rs:86-106 | parsed fields with commas between them, a space and the timestamp give back the input; without a timestamp they spell out a prefix |
| LineText.HeadThenFields | src/line/parsing/mod.rs:55-62 | the head, then fields that spell out the rest, give the line text |
| LineText.TagsHead | src/line/parsing/mod.rs:48-51 | measurement, comma and tags up to the space make up the head |
| LineText.TaggedLineHead | src/line/parsing/mod.rs:48-55 | with tags, the head spells out the input up to where the fields were parsed from |
| LineText.UntaggedLineHead | src/line/parsing/mod.rs:48-55 | without tags, the head is the measurement and a space |
| LineText.ParseLineSpellsLine | src/line/parsing/mod.rs:47-63 | the pieces of a parsed line spell out the input: all of it with a timestamp, a prefix of it otherwise |
| KeyValueStorage.FindIndex | src/line/hash_like.rs:32 | the position of the first pair with the key, or None iff no pair has it |
| KeyValueStorage.LookupIn | src/line/hash_like.rs:45-52 | None iff no key reads `name`; otherwise the value of the first pair whose key does |
| KeyValueStorage.FirstMatchShifts | src/line/hash_like.rs:49-51 | a first match in the tail is the first match when the head does not match |
| KeyValueStorage.KeyValueStorage.constructor | src/line/hash_like.rs:17-21 | `new` holds no pairs |
| KeyValueStorage.KeyValueStorage.FromIter | src/line/hash_like.rs:55-63 | the pairs in the given order, duplicates kept |
| KeyValueStorage.KeyValueStorage.IsEmpty | src/line/hash_like.rs:23-25 | true iff there are no pairs |
| KeyValueStorage.KeyValueStorage.Iter | src/line/hash_like.rs:27-29 | the keys and values in storage order |
| KeyValueStorage.KeyValueStorage.Add | src/line/hash_like.rs:31-39 | the new storage is the upsert of the old one; the result is true iff the key was absent |
| KeyValueStorage.KeyValueStorage.Put | src/line/hash_like.rs:41-43 | `add` of the pair |
| KeyValueStorage.KeyValueStorage.Get | src/line/hash_like.rs:45-52 | the lookup of `name` in storage order |
| KeyValueStorage.FindIndexIs | src/line/hash_like.rs:32 | the first position holding the key is the one found |
| KeyValueStorage.UpsertNew | src/line/hash_like.rs:36-37 | a new key is appended: one more pair, the old ones unchanged |
| KeyValueStorage.UpsertExisting | src/line/hash_like.rs:32-34 | an existing key gets the new value at its own position; length, keys, order and every other pair unchanged |
| KeyValueStorage.UpsertKeepsOrder | src/line/hash_like.rs:31-39 | every old pair keeps its position and key, and the length grows by at most one |
| KeyValueStorage.GetAfterPut | src/line/hash_like.rs:41-52 | after `put(k, v)`, `get` of k's name gives v |
| KeyValueStorage.LookupIs | src/line/hash_like.rs:49-51 | the first position whose key reads `name` is the one read |
| KeyValueStorage.GetOtherAfterPut | src/line/hash_like.rs:31-52 | a `put` leaves `get` of every other name as it was |
| KeyValueStorage.UpsertKeepsUnique | src/line/hash_like.rs:31-39 | unique keys stay unique |
| InfluxLines.InfluxLine.constructor | src/line/mod.rs:24-35 | exactly the given field, no tags, no timestamp, two fresh storages |
| InfluxLines.InfluxLine.Measurement | src/line/mod.rs:55-57 | the stored measurement |
| InfluxLines.InfluxLine.Tag | src/line/mod.rs:59-64 | the lookup of the name among the tags |
| InfluxLines.InfluxLine.Field | src/line/mod.rs:66-71 | the lookup of the name among the fields |
| InfluxLines.InfluxLine.Timestamp | src/line/mod.rs:73-75 | the stored timestamp |
| InfluxLines.InfluxLine.WithTimestamp | src/line/mod.rs:91-97 | sets the timestamp; measurement, tags and fields unchanged, the line invariant kept |
| InfluxLines.InfluxLine.WithTag | src/line/mod.rs:129-132 | the tags are the upsert of the old tags; `tag(k)` gives the new value, every other name reads as before, fields unchanged |
| InfluxLines.InfluxLine.WithField | src/line/mod.rs:168-174 | the fields are the upsert of the old fields and never empty; `field(k)` gives the new value, every other name reads as before, tags unchanged |
| InfluxLines.TryNew | src/line/mod.rs:37-53 | fails, with NameRestriction, iff the measurement fails the naming restriction; otherwise the line `new` gives |
| InfluxLineExamples.TagOverride | src/line/mod.rs:118-127 | tags club, location, club in turn leave `[club: sports, location: siberia]`; a name never added reads None |
| InfluxLineExamples.FieldOverrideStorage | src/line/mod.rs:155-160 | fields height, age, is_epic, name on top of age leave four pairs in first-insertion order, age overwritten |
| InfluxLineExamples.FourFieldsRead | src/line/mod.rs:162-165 | each of four distinct names reads its own value |
| InfluxLineExamples.FourFieldsAbsent | src/line/mod.rs:166 | a fifth name reads None |
| InfluxLineExamples.ReadAt | src/line/hash_like.rs:45-52 | in a storage of distinct names each pair's name reads its value |
| InfluxLineExamples.FieldOverride | src/line/mod.rs:155-166 | the documented field example: every field reads its last value and an unknown name reads None |

## Left out

- Timestamps: `src/types/timestamp.rs` and the chrono `DateTime<Utc>` are calendar conversion in a foreign library. The timestamp of `InfluxLine` is a type parameter `T`.
- Field values: `InfluxValue` of `src/types/value.rs` holds an `f64`. The field value of `InfluxLine` is a type parameter `V`, so no floating point is modelled.
- `str::parse::<i64>` and `str::parse::<u64>` are library calls. `ParseI64` and `ParseU64` stand for them: an optional sign, at least one ASCII digit, and a range check. Rust's other grammar details are not modelled.
- `src/types/string/name.rs` is an older `MeasurementName` with another special set and the old parser API, so it is not part of this model. `src/types/string/mod.rs` as written declares neither it nor `quoted.rs`. `quoted.rs` is modelled all the same, because it is the decoder of quoted field values.
- Error messages, `src/lib.rs`, `src/types/string/mod.rs` and the derived traits (Hash, Ord, Deref, Index, `From`/`Into`) are not modelled. The errors are one datatype of variants. `TypeConversion` is added there because `integer.rs` returns it and the enum as shown lacks it.
- The name types use two different parser APIs:
  - `key.rs` and `quoted.rs` call the parser with a policy and apply `?` to its results.
  - `parser.rs` returns `bool` and `Option`.
  - The conversions between those and `InfluxLineError` are not in these files.
  - The model reports a refused character or a failed `extract` as `Failed`.
  - `MeasurementName`'s own `NameRestrictionError` and `NameParseError` become `NameRestriction` and `Failed`.
- Stray-escape policy: `parser.rs` as written has a two-argument constructor and keeps stray escapes (`Allow`), and `measurement.rs` calls it that way. `key.rs` and `quoted.rs` pass a `StrayEscapes` policy as a third argument. The model takes the policy as a parameter. `Forbid` makes a stray escape an error, as the test at `quoted.rs:140` demands.
- Byte-versus-character indexing: every delimiter is one ASCII character, so the scanners' `char_indices` byte offsets are character indices here. The one effect of bytes the model keeps is the `quoted.rs` byte count (see Findings).
- Typed decoding of a `RawLine` and formatting of a whole `InfluxLine` are not in these files.
- Builders: `with_tag`, `with_field` and `with_timestamp` take `mut self` and return it. Here they are methods that change the line in place, so the model does not capture moving the old value.
- Literal tests: most literal test cases are stated as generic lemmas over plain pieces. The doc comment of each lemma cites the literal it covers (for example `TagScanner.PlainValueEnds` covers `tag1=no_next_tag,`). The key, tag and field test cases with emoji and unescaped quotes are covered only by those generic lemmas.
- Keys.DisplayRoundTrip and Measurements.DisplayRoundTrip require a name without backslashes. The documentation at `key.rs:31-35` and `measurement.rs:26-30` suggests a general round trip. The tests at `key.rs:187` and `measurement.rs:200` show that a backslash defeats it. `DisplayRoundTripFailsWithBackslash` proves that.
- FieldScanner.ScanSimple: a bare value may be empty when a newline comes first (`a=\n`). The scanner checks only space and comma at index 0, and the model follows the code.
- Quoted.FromStr and Quoted.Decode decode the characters between the quotes, which is the corrected reading. The code as written cuts the interior by its byte count; that is `Quoted.ParseAsWritten`. The two agree on ASCII input (`Quoted.AsWrittenAgreesOnAscii`) and differ on non-ASCII input (see Findings).
- Booleans.Display states only the lengths of `true` and `false`. What the text means is stated by `Booleans.DisplayRoundTrip`.

## Findings

| source | as written | input that shows it | evidently intended | confidence | as-written member | corrected member |
|---|---|---|---|---|---|---|
| src/types/string/quoted.rs:96-99 | `take(s.len() - 2)` counts bytes, so for non-ASCII text the closing quote is fed to the parser | `Display` of the value `é` is `"é"`: four bytes, two of them taken, so the closing quote reaches the parser as a bare special and parsing fails. `"é\"` is accepted as `é"`. | decode exactly the characters between the quotes, so that every displayed value parses back | not executed | Quoted.AsWrittenRejectsDisplayedNonAscii | Quoted.DisplayRoundTrip |
