# json-formatter, modelled in Dafny

`json-formatter` is a small JSON front end written in Rust. It has three stages:

1. The **tokenizer** (`src/tokenizer.rs`) scans the text into `JsonToken`s.
2. The **parser** (`src/parser.rs`) builds a `JsonValue` tree from the tokens by recursive descent.
3. The **formatter** (`src/formatter.rs`) prints the tree as indented text. The indent level starts at 1.

This project models the three stages and proves what they do. It also proves how they compose in `format_json` (`src/lib.rs`).

| file | module | what it holds |
|---|---|---|
| `sequences.dfy` | `Sequences` | `Join` (Rust's `join`) and `Repeat` (`str::repeat`) |
| `tokenizer.dfy` | `Tokenizer` | tokens and tokenizer errors; the scan as recursive definitions (`Lex`, `ScanString`, `ScanEscape`, `ScanNumber`, `ScanLiteral`); the source's loops as methods proved equal to them; lemmas about the scan |
| `parser.dfy` | `Parser` | `JsonValue` and `ParserError`; the grammar as recursive definitions over a token index; the source's functions as methods proved equal to them; a token serialization `Serialize`; soundness, completeness and error lemmas |
| `formatter.dfy` | `Formatter` | the printer as recursive functions; proofs that printed text tokenizes back to the value's tokens; the source's expected test texts |
| `pipeline.dfy` | `Pipeline` | `format_json`; proofs that printed text reads back as the printed value; idempotence |

How the model represents the source:

- **Tokenizer cursor.** The source reads characters through a `Peekable<Chars>` cursor. The model uses the remaining input instead. Peeking is `chars[0]` and consuming is `chars[1..]`.
- **Parser cursor.** The source shares a `Peekable<Iter<JsonToken>>` between its functions. The model uses an index `pos` into the token sequence. Every parse function returns the value and the new index. A successful parse always moves the index forward (`Advances`).
- **Recursion measure.** The parser's recursive definitions decrease on the pair (tokens left, rank). `parser_value` hands `[` and `{` to `parser_array` and `parser_object` without consuming a token, so the rank is needed.
- **Numbers.** A number is an abstract type `Num`. The source's float parse is a parameter `parseNum: string -> Option<Num>`, and its float-to-text conversion is a parameter `show: Num -> string`.
- **Panic.** Four characters after `\u` that are not a hex number reach `unwrap()` at tokenizer.rs:133, which panics (`ScanEscapeNotHex`). The model keeps this as a separate outcome, `Panic`.

The model follows the code in these places:

- **Unterminated strings.** A string with no closing quote is not an error. The `while let` at tokenizer.rs:103 ends with the input, and the token holds the text decoded so far (`LexUnterminated`).
- **`\u` counter.** The loop that collects `\u` digits counts UTF-8 **bytes**, not characters (tokenizer.rs:123,129). `Utf8Length` models this count. `ScanEscapeShort` and `ScanEscapeNotHex` state the ASCII cases, where bytes and characters agree. `ScanEscapeWide`, `ScanEscapeTwoByte` and `ScanEscapeOvershoot` show where they part: fewer than four characters can fill the counter and panic, and a counter that jumps past 4 reads on to the closing quote.
- **`\u` sign.** `u32::from_str_radix` accepts a leading `+`, so `\u+041` decodes (`ScanEscapePlusSign`).
- **Surrogates.** A code point in the surrogate range is not a Dafny `char`. Such a code point is `InvalidEscapeCharacter`.
- **Missing colon.** A key followed by anything other than `:` is `UnexpectedEndOfInput` (`ObjectMissingColon`, `ObjectMissingColonAfterComma`).
- **Trailing tokens.** `parser` never checks that the tokens ended (`ParserIgnoresTrailingTokens`).

## Model

| member | source | states |
|---|---|---|
| Tokenizer.Tokenize | src/tokenizer.rs:47-96 | the main loop gives exactly `Lex(input)`: the tokens of the whole input in order, or the first error, or the panic |
| Tokenizer.TokenizeString | src/tokenizer.rs:98-150 | the string loop gives `ScanString`: the decoded text and the input after the closing quote; if there is no closing quote, the input ends the string without an error |
| Tokenizer.TokenizeEscape | src/tokenizer.rs:106-143 | the match after a backslash, including the `\u` digit loop, gives `ScanEscape` |
| Tokenizer.TokenizeNumber | src/tokenizer.rs:152-169 | the number loop gives `ScanNumber`: the maximal run of number characters, handed to the float parser |
| Tokenizer.TokenizeLiteral | src/tokenizer.rs:171-190 | the bareword loop gives `ScanLiteral`: the run up to a structural or whitespace character, matched against `true`/`false`/`null` |
| Tokenizer.ScanToken | src/tokenizer.rs:80-91 | every sub-scanner that succeeds consumes at least one character, so each main-loop turn makes progress |
| Tokenizer.ScanEscape | src/tokenizer.rs:106-143 | a successful escape consumes at least the escape letter |
| Tokenizer.NumberRunLength | src/tokenizer.rs:155-163 | the run holds only `0-9 - + e E .` and stops at the end or at the first other character |
| Tokenizer.LiteralRunLength | src/tokenizer.rs:174-182 | the run holds no structural or whitespace character and stops at the end or at the first such character; `"` does not stop it |
| Tokenizer.LexSkipsWhitespace | src/tokenizer.rs:53-55 | space, newline, tab and carriage return produce no token and leave the rest of the scan unchanged |
| Tokenizer.LexBlank | src/tokenizer.rs:51-55 | empty or whitespace-only input gives `Ok([])` |
| Tokenizer.LexPunctuation | src/tokenizer.rs:56-79 | structural characters give one token each, in input order |
| Tokenizer.LexBareword | src/tokenizer.rs:171-189 | a bareword is `True`/`False`/`Null` only when it is exactly that word; otherwise it is `UnexpectedLiteral` carrying the whole run |
| Tokenizer.LexNumberRun | src/tokenizer.rs:152-168 | a number is the maximal number run; a rejected run is `InvalidNumberLiteral` carrying exactly that run; the next character is left to the main loop |
| Tokenizer.ScanSimpleEscape | src/tokenizer.rs:106-114 | each of `" \ / b f n r t` after a backslash decodes to its single character |
| Tokenizer.StringBodyEscape | src/tokenizer.rs:103-149 | the string scanner inverts `Escape`: escaped text decodes to the original content, whether or not a closing quote follows |
| Tokenizer.LexQuoted | src/tokenizer.rs:80-83 | a quoted, escaped string is read back as one String token, and the scan goes on after it |
| Tokenizer.LexUnterminated | src/tokenizer.rs:103-149 | a string with no closing quote is not an error; its token holds every decoded character after the opening quote |
| Tokenizer.LexBackslashAtEnd | src/tokenizer.rs:103-143 | a backslash as the last input character is `UnexpectedEndOfInput`, whatever string content, escapes included, comes before it |
| Tokenizer.LexInvalidEscape | src/tokenizer.rs:140-142 | any other character after a backslash is `InvalidEscapeCharacter` carrying that character, whatever string content, escapes included, comes before it and whatever follows |
| Tokenizer.ScanEscapeHex | src/tokenizer.rs:115-138 | four hex digits decode to their code point; a surrogate is `InvalidEscapeCharacter` carrying the digits |
| Tokenizer.ScanEscapeShort | src/tokenizer.rs:117-131 | fewer than four ASCII characters other than `"`, before a `"` or the end, are `InvalidEscapeCharacter` carrying the characters taken |
| Tokenizer.ScanEscapeNotHex | src/tokenizer.rs:133 | four ASCII characters other than `"` that are not a hex number make the `unwrap()` panic |
| Tokenizer.ScanEscapePlusSign | src/tokenizer.rs:133 | a `+` and three hex digits are accepted by `from_str_radix` and decode |
| Tokenizer.ScanEscapeWide | src/tokenizer.rs:121-133 | the four-digit counter counts UTF-8 bytes: one character outside the Basic Multilingual Plane fills it, and the `unwrap()` panics |
| Tokenizer.ScanEscapeTwoByte | src/tokenizer.rs:117-133 | two characters of two UTF-8 bytes each fill the counter, and the `unwrap()` panics: over non-ASCII text fewer than four characters can panic |
| Tokenizer.ScanEscapeOvershoot | src/tokenizer.rs:117-131 | three ASCII characters then one of two or more bytes take the counter past 4; the loop reads on to the `"` or the end, and the text taken is `InvalidEscapeCharacter`, not a panic |
| Tokenizer.ScanEscapeNonAsciiExamples | src/tokenizer.rs:117-133 | `\uéé"` panics and `\uabcé"` is `InvalidEscapeCharacter("abcé")` |
| Tokenizer.LexStopsAtFirstError | src/tokenizer.rs:80-91 | a sub-scanner error is returned at once; no tokens come with it |
| Tokenizer.LexTokenText | src/tokenizer.rs:18-34 | the text of a token reads back as that token, for strings without a quote or backslash and numbers that print back |
| Tokenizer.LexEmptyAndWhitespace | src/tokenizer.rs:196-258 | the tests `tokenize_empty` and `tokenize_ignore_whitespace` |
| Tokenizer.LexSingleCharacters | src/tokenizer.rs:204-250 | the six single-character tests |
| Tokenizer.LexTrue | src/tokenizer.rs:260-266 | the test `tokenize_true` |
| Tokenizer.LexFalse | src/tokenizer.rs:268-274 | the test `tokenize_false` |
| Tokenizer.LexNull | src/tokenizer.rs:276-282 | the test `tokenize_null` |
| Tokenizer.LexMisspelledKeyword | src/tokenizer.rs:284-290 | `nulll` is `UnexpectedLiteral("nulll")` |
| Tokenizer.LexStrings | src/tokenizer.rs:292-332 | `"hello"` is one String token; `\x` is `InvalidEscapeCharacter("x")`; `\u123` is `InvalidEscapeCharacter("123")` |
| Tokenizer.LexEscapedCharacters | src/tokenizer.rs:300-308 | the eight simple escapes decode as the test expects |
| Tokenizer.LexUnicodeEscapes | src/tokenizer.rs:310-316 | the five escapes `\u0048\u0065\u006C\u006C\u006F` decode to `Hello` |
| Tokenizer.LexInvalidNumber | src/tokenizer.rs:362-370 | a float parser that rejects `123.456.789` gives `InvalidNumberLiteral("123.456.789")` |
| Tokenizer.LexNumber | src/tokenizer.rs:334-360 | a float parser that accepts `-123e+4` gives one Number token holding its value |
| Parser.ParseValue | src/parser.rs:25-57 | a successful value parse moves the cursor forward and stays inside the tokens |
| Parser.ParseArray | src/parser.rs:132-170 | a successful array parse moves the cursor forward |
| Parser.ParseElements | src/parser.rs:152-169 | the element loop moves the cursor forward when it succeeds |
| Parser.ParseObject | src/parser.rs:59-110 | a successful object parse moves the cursor forward |
| Parser.ParseMembers | src/parser.rs:82-109 | the member loop moves the cursor forward when it succeeds |
| Parser.ParseMember | src/parser.rs:112-130 | a successful key-value parse moves the cursor forward |
| Parser.Parse | src/parser.rs:20-23 | `parser` gives `Parser(ts)`: one value from the first token |
| Parser.ParserValue | src/parser.rs:25-57 | the method gives exactly `ParseValue` |
| Parser.ParserArray | src/parser.rs:132-170 | the method with its `while` loop gives exactly `ParseArray` |
| Parser.ParserObject | src/parser.rs:59-110 | the method with its `while` loop gives exactly `ParseObject` |
| Parser.ParserObjectKeyValue | src/parser.rs:112-130 | the method gives exactly `ParseMember` |
| Parser.ParseValueComplete | src/parser.rs:25-170 | the tokens of any value, in place anywhere, parse to that value and end right after them |
| Parser.ParseValueSound | src/parser.rs:25-170 | the tokens a successful parse consumed are the serialization of the value it built |
| Parser.ParseValueIff | src/parser.rs:25-170 | a value is parsed from `p` to `q` if and only if the tokens between are its serialization |
| Parser.SerializeInjective | src/parser.rs:4-12 | different values have different token serializations |
| Parser.ParserIgnoresTrailingTokens | src/parser.rs:20-23 | a value's tokens followed by any tokens parse to the value; the end of input is never checked |
| Parser.ParserSerialized | src/parser.rs:20-23 | `parser` inverts the token serialization |
| Parser.ParserPrefixStable | src/parser.rs:20-23 | appending tokens after a successful parse does not change its result |
| Parser.ParserTruncated | src/parser.rs:107-109 | a value's tokens cut off anywhere before the end are `UnexpectedEndOfInput` |
| Parser.ParseScalar | src/parser.rs:30-49 | a Null/True/False/Number/String token becomes the matching leaf and consumes exactly one token |
| Parser.ParseNotAValue | src/parser.rs:52-56 | `]`, `}`, `:` or `,` is `UnexpectedToken` carrying that token; no token is `UnexpectedEndOfInput` |
| Parser.ArrayTrailingComma | src/parser.rs:154-158 | after any number of elements, `,` followed by `]` is `UnexpectedToken(])` |
| Parser.ArrayBadSeparator | src/parser.rs:152-166 | after any element, a token other than `,` or `]` is `UnexpectedToken` carrying it |
| Parser.ObjectKeyNotString | src/parser.rs:66-79 | after `{`, a token that is neither `}` nor a String is `UnexpectedToken` carrying it |
| Parser.ObjectKeyNotStringAfterComma | src/parser.rs:84-95 | after any member and `,`, a token that is not a String is `UnexpectedToken` carrying it |
| Parser.ObjectBadSeparator | src/parser.rs:82-107 | after any member, a token other than `,` or `}` is `UnexpectedToken` carrying it |
| Parser.ObjectMissingColon | src/parser.rs:122-125 | the first key not followed by `Colon` is `UnexpectedEndOfInput`, even when another token is there |
| Parser.ObjectMissingColonAfterComma | src/parser.rs:86-125 | a key after any member and `,`, not followed by `Colon`, is `UnexpectedEndOfInput`, even when another token is there |
| Parser.ParserExamples | src/parser.rs:176-251 | no tokens is `UnexpectedEndOfInput`; the scalar tests; `[ ]` is `Array([])`; `{ }` is `Object([])` |
| Parser.ParserArrayWithLiterals | src/parser.rs:218-244 | the test `parse_array_with_literals`: elements in token order |
| Parser.ParserObjectWithLiterals | src/parser.rs:253-289 | the test `parse_object_with_literals`: members in parse order |
| Parser.ParserNestedObject | src/parser.rs:291-331 | the test `parse_nested_object` |
| Parser.ParserDuplicateKeys | src/parser.rs:82-91 | a repeated key is kept twice, in order, and not merged |
| Parser.ParserTrailingCommaExample | src/parser.rs:152-158 | `[1,]` is `UnexpectedToken(])` |
| Formatter.Indent | src/formatter.rs:29 | `"  ".repeat(n)` is `2n` characters long and is all whitespace |
| Formatter.FormatTokens | src/formatter.rs:7-69 | the printed text of a value tokenizes to exactly the value's token serialization, at every level ≥ 1, when its strings and numbers read back |
| Formatter.VerbatimRelexable | src/formatter.rs:12 | strings written verbatim read back when they hold no quote and no backslash |
| Formatter.FormatScalar | src/formatter.rs:8-12 | `null`, `true`/`false`, the number's text, and `"` + s + `"` with s verbatim, the same at every level |
| Formatter.FormatEmpty | src/formatter.rs:18-22 | an empty object is `{}` and an empty array is `[]` at every level, with no newline |
| Formatter.FormatFrame | src/formatter.rs:37-41 | a non-empty container at level k opens with its bracket and a newline and closes with a newline, 2(k−1) spaces and its bracket |
| Formatter.FormatTwoMembers | src/formatter.rs:24-41 | a two-member object at level k is `{`, the two member lines joined by `",\n"`, then the closing line |
| Formatter.FormatThreeMembers | src/formatter.rs:24-41 | the same for three members |
| Formatter.FormatTwoItems | src/formatter.rs:53-65 | a two-element array at level k is `[`, the two element lines joined by `",\n"`, then the closing line |
| Formatter.FormatThreeItems | src/formatter.rs:53-65 | the same for three elements |
| Formatter.EntryVerbatim | src/formatter.rs:26-33 | a member line is 2k spaces, the quoted key, `": "` and the value printed one level deeper |
| Formatter.FormatObjectNestedExample | src/formatter.rs:117-151 | with 123.4 printed as `123.4`, the nested object test prints exactly the expected text |
| Formatter.FormatArrayNestedExample | src/formatter.rs:160-237 | with 18.0 printed as `18` (and 24, 3, 2, 1 likewise), the nested array test prints exactly the expected text |
| Pipeline.Read | src/lib.rs:8-9 | reading succeeds exactly when both stages do, and a tokenizer panic is a crash; the value read is spelled by the first tokens of the input, so anything after them is ignored |
| Pipeline.FormatWith | src/lib.rs:7-12 | `format_json` passes on the error of the stage that failed; when the value read prints as text that lexes back, the output reads back as that same value |
| Pipeline.PrintedReadsBack | src/lib.rs:7-12 | printed text whose strings and numbers lex back reads back, through both stages, as the value printed, at every level |
| Pipeline.FormatRoundTrip | src/lib.rs:7-12 | the printed text of a value with plain strings and numbers that print back reads back as that value |
| Pipeline.FormatJsonIdempotent | src/lib.rs:7-12 | formatting formatted text changes nothing when the value holds plain strings and numbers that print back |
| Pipeline.FormatLosesQuote | src/formatter.rs:12 | the string holding one quote prints as three quotes, which read back as the empty string |
| Pipeline.FormatJsonNotIdempotent | src/formatter.rs:12 | `format_json` maps `"\""` to three quotes and then to two, so it is not idempotent |
| Pipeline.FormatEscapedRoundTrip | src/formatter.rs:12 | with escaped strings, every value whose numbers print back reads back from its printed text |
| Pipeline.FormatJsonEscapedIdempotent | src/formatter.rs:7-12 | with escaped strings, formatting is idempotent whenever the numbers print back |

## Left out

- Floating point is not modelled. `str::parse::<f64>` (tokenizer.rs:165), `f64::to_string` (formatter.rs:11) and the number `Display` (tokenizer.rs:31) are the parameters `parseNum` and `show`. They are library conversions over floats.
- `src/main.rs` is not part of this model. It handles command-line arguments, file reading, printing and exit codes, all of which are I/O.
- `src/error.rs` is not part of this model beyond `Pipeline.Error`. Its `Display`/`From` glue, the `JsValue` conversion and the diagnostic texts of the errors are formatting and foreign calls.
- The debug `println!` at parser.rs:103 is not modelled. It is output with no effect on results.
- `UnexpectedCharacter` is in `Tokenizer.TokenizeError`, but nothing states anything about it. The source never constructs it.
- The tokenizer works on Dafny `char`s, which are Unicode scalar values like Rust's `char`. The model does not represent the input's UTF-8 bytes. It only uses their count in the `\u` counter.
- Ownership, borrowing and the iterator objects are not modelled. The cursors are the remaining input and an index, and the token and value sequences are immutable values.
- Stack depth is not modelled. `parser_value` recurses through `parser_array`/`parser_object` (parser.rs:25-170), and `format_value` through `format_array`/`format_object` (formatter.rs:7-65), once per nesting level. The Rust program overflows its stack and aborts on deeply nested input. The model recurses with no bound.
- Parser.ParseValue: its own contract states only that the cursor advances. Soundness, completeness and the error cases are the lemmas `ParseValueSound`, `ParseValueComplete`, `ParseValueIff`, `ParserTruncated` and the error lemmas.

## Findings

| source | as written | input that shows it | evidently intended | confidence | as-written member | corrected member |
|---|---|---|---|---|---|---|
| src/formatter.rs:12 | string content and keys are written between quotes with no escaping | the JSON text `"\""` (a string holding one quote) formats to `"""`, which formats to `""` | printed text reads back as the printed value, so formatting is idempotent | medium, not executed | Pipeline.FormatJsonNotIdempotent | Pipeline.FormatEscapedRoundTrip |
