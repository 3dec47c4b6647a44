/** The lexical stage (src/tokenizer.rs): a left-to-right scan of the input
    text with one character of lookahead, producing the token sequence or the
    first error.

    The `Peekable<Chars>` cursor of the source is modelled by the remaining
    input: peeking is `chars[0]`, consuming is `chars[1..]`. Each scanner takes
    the remaining input and gives back the token it read together with the
    input that remains after it. The specification functions (`Lex`,
    `ScanString`, `ScanNumber`, `ScanLiteral`) are recursive definitions; the
    methods (`Tokenize`, `TokenizeString`, `TokenizeNumber`,
    `TokenizeLiteral`) are the source's loops, proved equal to them. */
module Tokenizer {
  import Sequences

  /** A 64-bit float. Its conversions from and to text are floating-point
      library code, so they enter the model as parameters. */
  type Num

  datatype Option<T> = None | Some(value: T)

  datatype Token =
    | LeftSquareBracket
    | LeftCurlyBracket
    | RightSquareBracket
    | RightCurlyBracket
    | Colon
    | Comma
    | True
    | False
    | Null
    | String(s: string)
    | Number(n: Num)

  datatype TokenizeError =
    | UnexpectedLiteral(literal: string)
    | UnexpectedCharacter(c: char)
    | UnexpectedEndOfInput
    | InvalidEscapeCharacter(text: string)
    | InvalidNumberLiteral(number: string)

  /** What a scan ends in: a value, an error that the source returns, or a
      panic (the `unwrap()` on a failed hexadecimal parse, tokenizer.rs:133). */
  datatype Outcome<T> = Ok(value: T) | Err(error: TokenizeError) | Panic

  /** The text of a token (the `Display` impl, tokenizer.rs:18-34); numbers
      are printed by `show`. */
  function TokenText(t: Token, show: Num -> string): string
  {
    match t
    case LeftSquareBracket => "["
    case LeftCurlyBracket => "{"
    case RightSquareBracket => "]"
    case RightCurlyBracket => "}"
    case Colon => ":"
    case Comma => ","
    case True => "true"
    case False => "false"
    case Null => "null"
    case String(s) => "\"" + s + "\""
    case Number(n) => show(n)
  }

  // ---------------------------------------------------------------------
  // Character classes

  predicate IsWhitespace(c: char) {
    c == ' ' || c == '\n' || c == '\t' || c == '\r'
  }

  predicate IsStructural(c: char) {
    c == '[' || c == '{' || c == ']' || c == '}' || c == ':' || c == ','
  }

  /** The characters that end a bareword (tokenizer.rs:176); `"` is not one. */
  predicate EndsLiteral(c: char) {
    IsStructural(c) || IsWhitespace(c)
  }

  /** The characters a number run is made of (tokenizer.rs:157). */
  predicate IsNumberChar(c: char) {
    '0' <= c <= '9' || c == '-' || c == '+' || c == 'e' || c == 'E' || c == '.'
  }

  /** The characters that send the main loop to the number scanner
      (tokenizer.rs:84). */
  predicate StartsNumber(c: char) {
    c == '-' || '0' <= c <= '9'
  }

  /** The characters that send the main loop to the bareword scanner: every
      character no other arm of the dispatch takes (tokenizer.rs:88). */
  predicate StartsLiteral(c: char) {
    !IsWhitespace(c) && !IsStructural(c) && c != '"' && !StartsNumber(c)
  }

  /** The token of one structural character (tokenizer.rs:56-79). */
  function Structural(c: char): Token
    requires IsStructural(c)
  {
    if c == '[' then LeftSquareBracket
    else if c == '{' then LeftCurlyBracket
    else if c == ']' then RightSquareBracket
    else if c == '}' then RightCurlyBracket
    else if c == ':' then Colon
    else Comma
  }

  // ---------------------------------------------------------------------
  // UTF-8 length and hexadecimal digits, for the `\u` escape

  /** The number of bytes `c` takes in UTF-8 (what `String::len` adds when
      `c` is pushed). */
  function Utf8Width(c: char): nat
  {
    if c as int < 0x80 then 1
    else if c as int < 0x800 then 2
    else if c as int < 0x1_0000 then 3
    else 4
  }

  /** The UTF-8 byte length of a string (`String::len`). */
  function Utf8Length(s: string): nat
  {
    if s == [] then 0 else Utf8Length(s[..|s| - 1]) + Utf8Width(s[|s| - 1])
  }

  predicate IsHexDigit(c: char) {
    '0' <= c <= '9' || 'a' <= c <= 'f' || 'A' <= c <= 'F'
  }

  predicate AllHexDigits(s: string) {
    forall i :: 0 <= i < |s| ==> IsHexDigit(s[i])
  }

  function HexDigitValue(c: char): (v: nat)
    requires IsHexDigit(c)
    ensures v < 16
  {
    if '0' <= c <= '9' then c as int - '0' as int
    else if 'a' <= c <= 'f' then c as int - 'a' as int + 10
    else c as int - 'A' as int + 10
  }

  /** The value of a string of hexadecimal digits, most significant first. */
  function HexValue(s: string): nat
    requires AllHexDigits(s)
  {
    if s == [] then 0 else 16 * HexValue(s[..|s| - 1]) + HexDigitValue(s[|s| - 1])
  }

  /** `u32::from_str_radix(s, 16)`: an optional leading `+`, then one or more
      hexadecimal digits whose value fits in 32 bits. */
  function ParseHexU32(s: string): Option<nat>
  {
    if s == [] then None
    else
      var digits := if s[0] == '+' then s[1..] else s;
      if digits != [] && AllHexDigits(digits) && HexValue(digits) < 0x1_0000_0000
      then Some(HexValue(digits))
      else None
  }

  /** The code points that are a `char` (`u32::try_into::<char>` succeeds). */
  predicate IsScalarValue(v: int) {
    0 <= v < 0xD800 || 0xE000 <= v < 0x11_0000
  }

  /** How many characters the `\u` loop takes from `s` when `width` bytes
      are already taken (tokenizer.rs:117-127): it stops before a `"` or at
      the end, and after the character that makes the UTF-8 length exactly 4. */
  function HexRunLength(s: string, width: nat): (k: nat)
    ensures k <= |s|
  {
    if s == [] || s[0] == '"' then 0
    else if width + Utf8Width(s[0]) == 4 then 1
    else 1 + HexRunLength(s[1..], width + Utf8Width(s[0]))
  }

  /** What the text `hex` taken after `\u` decodes to (tokenizer.rs:129-138). */
  function DecodeUnicodeEscape(hex: string): Outcome<char>
  {
    if Utf8Length(hex) != 4 then Err(InvalidEscapeCharacter(hex))
    else match ParseHexU32(hex)
      case None => Panic
      case Some(v) =>
        if IsScalarValue(v) then Ok(v as char) else Err(InvalidEscapeCharacter(hex))
  }

  // ---------------------------------------------------------------------
  // The string scanner

  /** The characters that may follow a backslash and stand for one character
      (tokenizer.rs:107-114). */
  predicate IsSimpleEscape(e: char) {
    e == '"' || e == '\\' || e == '/' || e == 'b' || e == 'f' || e == 'n' || e == 'r' || e == 't'
  }

  function SimpleEscape(e: char): char
    requires IsSimpleEscape(e)
  {
    if e == '"' then '"'
    else if e == '\\' then '\\'
    else if e == '/' then '/'
    else if e == 'b' then 8 as char
    else if e == 'f' then 12 as char
    else if e == 'n' then '\n'
    else if e == 'r' then '\r'
    else '\t'
  }

  /** Puts decoded text in front of a scan result. */
  function PrependText(t: string, o: Outcome<(string, string)>): (r: Outcome<(string, string)>)
  {
    match o
    case Ok((v, rest)) => Ok((t + v, rest))
    case Err(e) => Err(e)
    case Panic => Panic
  }

  /** The escape after a backslash (tokenizer.rs:106-143): the character it
      stands for and the input after it. */
  function ScanEscape(s: string): (r: Outcome<(char, string)>)
    ensures r.Ok? ==> |r.value.1| < |s|
  {
    if s == [] then Err(UnexpectedEndOfInput)
    else if IsSimpleEscape(s[0]) then Ok((SimpleEscape(s[0]), s[1..]))
    else if s[0] == 'u' then
      var k := HexRunLength(s[1..], 0);
      match DecodeUnicodeEscape(s[1..][..k])
      case Ok(c) => Ok((c, s[1..][k..]))
      case Err(e) => Err(e)
      case Panic => Panic
    else Err(InvalidEscapeCharacter([s[0]]))
  }

  /** The body of a string after its opening quote (the loop of
      tokenizer.rs:103-147): the decoded text and the input after the closing
      quote. Running out of input ends the string without an error. */
  function StringBody(s: string): (r: Outcome<(string, string)>)
    ensures r.Ok? ==> |r.value.1| <= |s|
    decreases |s|
  {
    if s == [] then Ok(([], []))
    else if s[0] == '"' then Ok(([], s[1..]))
    else if s[0] == '\\' then
      match ScanEscape(s[1..])
      case Ok((c, rest)) => PrependText([c], StringBody(rest))
      case Err(e) => Err(e)
      case Panic => Panic
    else PrependText([s[0]], StringBody(s[1..]))
  }

  /** `tokenize_string`: consumes the opening quote, then the body. */
  function ScanString(chars: string): (r: Outcome<(Token, string)>)
    ensures r.Ok? && chars != [] ==> |r.value.1| < |chars|
  {
    var body := if chars == [] then [] else chars[1..];
    match StringBody(body)
    case Ok((v, rest)) => Ok((String(v), rest))
    case Err(e) => Err(e)
    case Panic => Panic
  }

  // ---------------------------------------------------------------------
  // The number and bareword scanners

  /** The length of the maximal run of number characters at the start of `s`. */
  function NumberRunLength(s: string): (k: nat)
    ensures k <= |s|
    ensures forall i :: 0 <= i < k ==> IsNumberChar(s[i])
    ensures k == |s| || !IsNumberChar(s[k])
  {
    if s != [] && IsNumberChar(s[0]) then 1 + NumberRunLength(s[1..]) else 0
  }

  /** `tokenize_number` (tokenizer.rs:152-168): the maximal run of number
      characters, handed to the float parser `parseNum`. */
  function ScanNumber(chars: string, parseNum: string -> Option<Num>): (r: Outcome<(Token, string)>)
    ensures r.Ok? && chars != [] && StartsNumber(chars[0]) ==> |r.value.1| < |chars|
  {
    var k := NumberRunLength(chars);
    match parseNum(chars[..k])
    case Some(n) => Ok((Number(n), chars[k..]))
    case None => Err(InvalidNumberLiteral(chars[..k]))
  }

  /** The length of the maximal run of characters that do not end a bareword. */
  function LiteralRunLength(s: string): (k: nat)
    ensures k <= |s|
    ensures forall i :: 0 <= i < k ==> !EndsLiteral(s[i])
    ensures k == |s| || EndsLiteral(s[k])
  {
    if s != [] && !EndsLiteral(s[0]) then 1 + LiteralRunLength(s[1..]) else 0
  }

  /** The token a bareword stands for, if any. */
  function Keyword(w: string): Option<Token>
  {
    if w == "true" then Some(True)
    else if w == "false" then Some(False)
    else if w == "null" then Some(Null)
    else None
  }

  /** `tokenize_literal` (tokenizer.rs:171-189). */
  function ScanLiteral(chars: string): (r: Outcome<(Token, string)>)
    ensures r.Ok? && chars != [] && StartsLiteral(chars[0]) ==> |r.value.1| < |chars|
  {
    var k := LiteralRunLength(chars);
    match Keyword(chars[..k])
    case Some(t) => Ok((t, chars[k..]))
    case None => Err(UnexpectedLiteral(chars[..k]))
  }

  // ---------------------------------------------------------------------
  // The main loop

  function Cons(t: Token, o: Outcome<seq<Token>>): Outcome<seq<Token>>
  {
    Prepend([t], o)
  }

  function Prepend(ts: seq<Token>, o: Outcome<seq<Token>>): Outcome<seq<Token>>
  {
    match o
    case Ok(rest) => Ok(ts + rest)
    case Err(e) => Err(e)
    case Panic => Panic
  }

  lemma PrependEmpty(o: Outcome<seq<Token>>)
    ensures Prepend([], o) == o
  {
    if o.Ok? { assert [] + o.value == o.value; }
  }

  lemma PrependPrepend(a: seq<Token>, b: seq<Token>, o: Outcome<seq<Token>>)
    ensures Prepend(a, Prepend(b, o)) == Prepend(a + b, o)
  {
    if o.Ok? { assert a + (b + o.value) == (a + b) + o.value; }
  }

  lemma PrependCons(ts: seq<Token>, t: Token, o: Outcome<seq<Token>>)
    ensures Prepend(ts, Cons(t, o)) == Prepend(ts + [t], o)
  {
    PrependPrepend(ts, [t], o);
  }

  lemma PrependTextEmpty(o: Outcome<(string, string)>)
    ensures PrependText([], o) == o
  {
    if o.Ok? { assert [] + o.value.0 == o.value.0; }
  }

  lemma PrependTextText(a: string, b: string, o: Outcome<(string, string)>)
    ensures PrependText(a, PrependText(b, o)) == PrependText(a + b, o)
  {
    if o.Ok? { assert a + (b + o.value.0) == (a + b) + o.value.0; }
  }

  /** The scanner the main loop hands a non-whitespace, non-structural
      character to (tokenizer.rs:80-91). */
  function ScanToken(chars: string, parseNum: string -> Option<Num>): (r: Outcome<(Token, string)>)
    requires chars != [] && !IsWhitespace(chars[0]) && !IsStructural(chars[0])
    ensures r.Ok? ==> |r.value.1| < |chars|
  {
    if chars[0] == '"' then ScanString(chars)
    else if StartsNumber(chars[0]) then ScanNumber(chars, parseNum)
    else ScanLiteral(chars)
  }

  /** `tokenize` (tokenizer.rs:47-96) as a recursive definition: the tokens of
      the whole input, or the first error. */
  function Lex(chars: string, parseNum: string -> Option<Num>): Outcome<seq<Token>>
    decreases |chars|
  {
    if chars == [] then Ok([])
    else if IsWhitespace(chars[0]) then Lex(chars[1..], parseNum)
    else if IsStructural(chars[0]) then Cons(Structural(chars[0]), Lex(chars[1..], parseNum))
    else match ScanToken(chars, parseNum)
      case Ok((t, rest)) => Cons(t, Lex(rest, parseNum))
      case Err(e) => Err(e)
      case Panic => Panic
  }

  // ---------------------------------------------------------------------
  // The source's loops

  /** `tokenize` (tokenizer.rs:47-96). */
  method Tokenize(input: string, parseNum: string -> Option<Num>) returns (r: Outcome<seq<Token>>)
    ensures r == Lex(input, parseNum)
  {
    var chars := input;
    var tokens: seq<Token> := [];
    PrependEmpty(Lex(input, parseNum));
    while chars != []
      invariant Lex(input, parseNum) == Prepend(tokens, Lex(chars, parseNum))
      decreases |chars|
    {
      var c := chars[0];
      match c {
        case ' ' | '\n' | '\t' | '\r' =>
          chars := chars[1..];
        case '[' =>
          PrependCons(tokens, LeftSquareBracket, Lex(chars[1..], parseNum));
          chars := chars[1..];
          tokens := tokens + [LeftSquareBracket];
        case '{' =>
          PrependCons(tokens, LeftCurlyBracket, Lex(chars[1..], parseNum));
          chars := chars[1..];
          tokens := tokens + [LeftCurlyBracket];
        case ']' =>
          PrependCons(tokens, RightSquareBracket, Lex(chars[1..], parseNum));
          chars := chars[1..];
          tokens := tokens + [RightSquareBracket];
        case '}' =>
          PrependCons(tokens, RightCurlyBracket, Lex(chars[1..], parseNum));
          chars := chars[1..];
          tokens := tokens + [RightCurlyBracket];
        case ':' =>
          PrependCons(tokens, Colon, Lex(chars[1..], parseNum));
          chars := chars[1..];
          tokens := tokens + [Colon];
        case ',' =>
          PrependCons(tokens, Comma, Lex(chars[1..], parseNum));
          chars := chars[1..];
          tokens := tokens + [Comma];
        case _ =>
          var scanned;
          if c == '"' {
            scanned := TokenizeString(chars);
          } else if StartsNumber(c) {
            scanned := TokenizeNumber(chars, parseNum);
          } else {
            scanned := TokenizeLiteral(chars);
          }
          match scanned {
            case Ok((t, rest)) =>
              PrependCons(tokens, t, Lex(rest, parseNum));
              chars := rest;
              tokens := tokens + [t];
            case Err(e) =>
              return Err(e);
            case Panic =>
              return Panic;
          }
      }
    }
    assert tokens + [] == tokens;
    return Ok(tokens);
  }

  /** `tokenize_string` (tokenizer.rs:98-150). */
  method TokenizeString(chars: string) returns (r: Outcome<(Token, string)>)
    ensures r == ScanString(chars)
  {
    var rest := if chars == [] then [] else chars[1..];  // consume the opening quote
    ghost var body := rest;
    var value: string := [];
    PrependTextEmpty(StringBody(body));
    while rest != []
      invariant StringBody(body) == PrependText(value, StringBody(rest))
      decreases |rest|
    {
      var c := rest[0];
      rest := rest[1..];
      if c == '"' {
        assert value + [] == value;
        return Ok((String(value), rest));
      } else if c == '\\' {
        var escaped := TokenizeEscape(rest);
        match escaped {
          case Ok((d, after)) =>
            PrependTextText(value, [d], StringBody(after));
            value := value + [d];
            rest := after;
          case Err(e) =>
            return Err(e);
          case Panic =>
            return Panic;
        }
      } else {
        PrependTextText(value, [c], StringBody(rest));
        value := value + [c];
      }
    }
    assert value + [] == value;
    return Ok((String(value), rest));
  }

  /** One turn of the `\u` digit loop: the character is taken, and the UTF-8
      length grows by its width. */
  lemma HexRunStep(hex: string, rest: string, width: nat)
    requires rest != [] && rest[0] != '"' && width == Utf8Length(hex)
    ensures Utf8Length(hex + [rest[0]]) == width + Utf8Width(rest[0])
    ensures HexRunLength(rest, width) == 1 + (if width + Utf8Width(rest[0]) == 4 then 0
                                              else HexRunLength(rest[1..], width + Utf8Width(rest[0])))
    ensures hex + rest == (hex + [rest[0]]) + rest[1..]
  {
    assert (hex + [rest[0]])[..|hex|] == hex;
    assert rest == [rest[0]] + rest[1..];
    Sequences.AppendAssoc(hex, [rest[0]], rest[1..]);
  }

  /** The digits taken are the first `run` characters. */
  lemma HexRunTaken(s: string, hex: string, rest: string, run: nat)
    requires s == hex + rest && run == |hex|
    ensures run <= |s| && s[..run] == hex && s[run..] == rest
  {
  }

  /** The `match chars.next()` after a backslash in `tokenize_string`
      (tokenizer.rs:106-143), with the `\u` digit loop. */
  method TokenizeEscape(chars: string) returns (r: Outcome<(char, string)>)
    ensures r == ScanEscape(chars)
  {
    if chars == [] {
      return Err(UnexpectedEndOfInput);
    }
    var e := chars[0];
    var rest := chars[1..];
    if IsSimpleEscape(e) {
      return Ok((SimpleEscape(e), rest));
    } else if e == 'u' {
      var hex: string := [];
      var width: nat := 0;
      ghost var run := HexRunLength(chars[1..], 0);
      while rest != [] && rest[0] != '"'
        invariant chars[1..] == hex + rest
        invariant width == Utf8Length(hex) && width != 4
        invariant run == |hex| + HexRunLength(rest, width)
        decreases |rest|
      {
        HexRunStep(hex, rest, width);
        hex := hex + [rest[0]];
        width := width + Utf8Width(rest[0]);
        rest := rest[1..];
        if width == 4 {
          break;
        }
      }
      HexRunTaken(chars[1..], hex, rest, run);
      if width != 4 {
        return Err(InvalidEscapeCharacter(hex));
      }
      match ParseHexU32(hex) {
        case None =>
          return Panic;
        case Some(v) =>
          if IsScalarValue(v) {
            return Ok((v as char, rest));
          } else {
            return Err(InvalidEscapeCharacter(hex));
          }
      }
    } else {
      return Err(InvalidEscapeCharacter([e]));
    }
  }

  /** `tokenize_number` (tokenizer.rs:152-169). */
  method TokenizeNumber(chars: string, parseNum: string -> Option<Num>) returns (r: Outcome<(Token, string)>)
    ensures r == ScanNumber(chars, parseNum)
  {
    var rest := chars;
    var number: string := [];
    while rest != [] && IsNumberChar(rest[0])
      invariant chars == number + rest
      invariant NumberRunLength(chars) == |number| + NumberRunLength(rest)
      decreases |rest|
    {
      number := number + [rest[0]];
      rest := rest[1..];
    }
    assert number == chars[..NumberRunLength(chars)];
    match parseNum(number) {
      case Some(n) => return Ok((Number(n), rest));
      case None => return Err(InvalidNumberLiteral(number));
    }
  }

  /** `tokenize_literal` (tokenizer.rs:171-190). */
  method TokenizeLiteral(chars: string) returns (r: Outcome<(Token, string)>)
    ensures r == ScanLiteral(chars)
  {
    var rest := chars;
    var literal: string := [];
    while rest != [] && !EndsLiteral(rest[0])
      invariant chars == literal + rest
      invariant forall i :: 0 <= i < |literal| ==> !EndsLiteral(literal[i])
      decreases |rest|
    {
      assert rest == [rest[0]] + rest[1..];
      Sequences.AppendAssoc(literal, [rest[0]], rest[1..]);
      literal := literal + [rest[0]];
      rest := rest[1..];
    }
    ScanLiteralSplit(literal, rest);
    if literal == "true" {
      return Ok((True, rest));
    } else if literal == "false" {
      return Ok((False, rest));
    } else if literal == "null" {
      return Ok((Null, rest));
    }
    return Err(UnexpectedLiteral(literal));
  }

  /** A run of bareword characters up to the end or to a character that
      ends it is scanned as that run. */
  lemma ScanLiteralSplit(literal: string, rest: string)
    requires forall i :: 0 <= i < |literal| ==> !EndsLiteral(literal[i])
    requires rest == [] || EndsLiteral(rest[0])
    ensures ScanLiteral(literal + rest) == match Keyword(literal)
      case Some(t) => Ok((t, rest))
      case None => Err(UnexpectedLiteral(literal))
  {
    LiteralRunOf(literal, rest);
    var chars := literal + rest;
    assert chars[..|literal|] == literal && chars[|literal|..] == rest;
  }

  // ---------------------------------------------------------------------
  // Properties of the scan

  predicate AllWhitespace(w: string) {
    forall i :: 0 <= i < |w| ==> IsWhitespace(w[i])
  }

  /** Whitespace never produces a token: skipping it leaves the rest of the
      scan as it was. */
  lemma {:induction false} LexSkipsWhitespace(w: string, s: string, parseNum: string -> Option<Num>)
    requires AllWhitespace(w)
    ensures Lex(w + s, parseNum) == Lex(s, parseNum)
  {
    if w != [] {
      assert (w + s)[0] == w[0] && (w + s)[1..] == w[1..] + s;
      LexSkipsWhitespace(w[1..], s, parseNum);
    } else {
      assert w + s == s;
    }
  }

  /** Empty or whitespace-only input has no tokens. */
  lemma {:induction false} LexBlank(w: string, parseNum: string -> Option<Num>)
    requires AllWhitespace(w)
    ensures Lex(w, parseNum) == Ok([])
  {
    LexSkipsWhitespace(w, [], parseNum);
    assert w + [] == w;
  }

  predicate IsPunctuation(p: string) {
    forall i :: 0 <= i < |p| ==> IsWhitespace(p[i]) || IsStructural(p[i])
  }

  /** The structural characters of `p`, each as its token, in order. */
  function Punctuation(p: string): seq<Token>
    requires IsPunctuation(p)
  {
    if p == [] then []
    else if IsStructural(p[|p| - 1]) then Punctuation(p[..|p| - 1]) + [Structural(p[|p| - 1])]
    else Punctuation(p[..|p| - 1])
  }

  /** Text of whitespace and structural characters gives one token per
      structural character, in input order, and leaves the rest of the scan to
      the text after it. */
  lemma {:induction false} LexPunctuation(p: string, s: string, parseNum: string -> Option<Num>)
    requires IsPunctuation(p)
    ensures Lex(p + s, parseNum) == Prepend(Punctuation(p), Lex(s, parseNum))
    decreases |p|
  {
    if p == [] {
      assert p + s == s;
      PrependEmpty(Lex(s, parseNum));
    } else {
      var init, c := p[..|p| - 1], p[|p| - 1];
      assert p + s == init + ([c] + s);
      LexPunctuation(init, [c] + s, parseNum);
      assert ([c] + s)[0] == c && ([c] + s)[1..] == s;
      if IsStructural(c) {
        PrependPrepend(Punctuation(init), [Structural(c)], Lex(s, parseNum));
      }
    }
  }

  /** The maximal bareword run of `w + s` is `w` when `s` starts with a
      character that ends a bareword. */
  lemma {:induction false} LiteralRunOf(w: string, s: string)
    requires forall i :: 0 <= i < |w| ==> !EndsLiteral(w[i])
    requires s == [] || EndsLiteral(s[0])
    ensures LiteralRunLength(w + s) == |w|
  {
    if w == [] {
      assert w + s == s;
    } else {
      assert (w + s)[0] == w[0] && (w + s)[1..] == w[1..] + s;
      LiteralRunOf(w[1..], s);
    }
  }

  /** A bareword is `true`, `false` or `null` exactly, or it is an error that
      carries the whole run (`nulll`): the scan stops at the first character
      that ends a bareword. */
  lemma LexBareword(w: string, s: string, parseNum: string -> Option<Num>)
    requires w != [] && StartsLiteral(w[0])
    requires forall i :: 0 <= i < |w| ==> !EndsLiteral(w[i])
    requires s == [] || EndsLiteral(s[0])
    ensures w == "true" ==> Lex(w + s, parseNum) == Cons(True, Lex(s, parseNum))
    ensures w == "false" ==> Lex(w + s, parseNum) == Cons(False, Lex(s, parseNum))
    ensures w == "null" ==> Lex(w + s, parseNum) == Cons(Null, Lex(s, parseNum))
    ensures w != "true" && w != "false" && w != "null" ==>
              Lex(w + s, parseNum) == Err(UnexpectedLiteral(w))
  {
    LiteralRunOf(w, s);
    assert (w + s)[..|w|] == w && (w + s)[|w|..] == s;
  }

  /** The maximal number run of `t + s` is `t` when `s` does not start with a
      number character. */
  lemma {:induction false} NumberRunOf(t: string, s: string)
    requires forall i :: 0 <= i < |t| ==> IsNumberChar(t[i])
    requires s == [] || !IsNumberChar(s[0])
    ensures NumberRunLength(t + s) == |t|
  {
    if t == [] {
      assert t + s == s;
    } else {
      assert (t + s)[0] == t[0] && (t + s)[1..] == t[1..] + s;
      NumberRunOf(t[1..], s);
    }
  }

  /** A number is the maximal run of number characters; the float parser
      decides whether it is a number or an error that carries exactly the run
      (`123.456.789`). The character after the run is left to the main loop. */
  lemma LexNumberRun(t: string, s: string, parseNum: string -> Option<Num>)
    requires t != [] && StartsNumber(t[0])
    requires forall i :: 0 <= i < |t| ==> IsNumberChar(t[i])
    requires s == [] || !IsNumberChar(s[0])
    ensures parseNum(t).Some? ==> Lex(t + s, parseNum) == Cons(Number(parseNum(t).value), Lex(s, parseNum))
    ensures parseNum(t).None? ==> Lex(t + s, parseNum) == Err(InvalidNumberLiteral(t))
  {
    NumberRunOf(t, s);
    assert (t + s)[..|t|] == t && (t + s)[|t|..] == s;
  }

  /** The characters string text cannot hold as themselves. */
  predicate NeedsEscape(c: char) {
    c == '"' || c == '\\' || c == 8 as char || c == 12 as char || c == '\n' || c == '\r' || c == '\t'
  }

  /** The letter after the backslash that stands for `c`. */
  function EscapeLetter(c: char): (e: char)
    requires NeedsEscape(c)
    ensures IsSimpleEscape(e) && SimpleEscape(e) == c
  {
    if c == '"' then '"'
    else if c == '\\' then '\\'
    else if c == 8 as char then 'b'
    else if c == 12 as char then 'f'
    else if c == '\n' then 'n'
    else if c == '\r' then 'r'
    else 't'
  }

  /** One character as string text: the escape that stands for it, or itself. */
  function EscapeChar(c: char): string
  {
    if NeedsEscape(c) then ['\\', EscapeLetter(c)] else [c]
  }

  /** String content written with escapes: the inverse of the string scanner. */
  function Escape(v: string): string
  {
    if v == [] then [] else EscapeChar(v[0]) + Escape(v[1..])
  }

  /** Each letter of the escape table after a backslash stands for its
      character, and the scan goes on right after the letter. */
  lemma ScanSimpleEscape(e: char, tail: string)
    requires IsSimpleEscape(e)
    ensures ScanEscape([e] + tail) == Ok((SimpleEscape(e), tail))
  {
    assert ([e] + tail)[0] == e && ([e] + tail)[1..] == tail;
  }

  /** One escaped character reads back as that character. */
  lemma StringBodyEscapeChar(c: char, tail: string)
    ensures StringBody(EscapeChar(c) + tail) == PrependText([c], StringBody(tail))
  {
    var text := EscapeChar(c) + tail;
    if NeedsEscape(c) {
      var e := EscapeLetter(c);
      assert text[0] == '\\' && text[1..] == [e] + tail;
      ScanSimpleEscape(e, tail);
    } else {
      assert text[0] == c && text[1..] == tail;
    }
  }

  /** Escaped text reads back as the content it escapes, and the scan goes
      on right after it. */
  lemma {:induction false} StringBodyEscaped(v: string, t: string)
    ensures StringBody(Escape(v) + t) == PrependText(v, StringBody(t))
  {
    if v == [] {
      assert Escape(v) + t == t;
      PrependTextEmpty(StringBody(t));
    } else {
      var c, tail := v[0], Escape(v[1..]) + t;
      assert Escape(v) + t == EscapeChar(c) + tail;
      StringBodyEscapeChar(c, tail);
      StringBodyEscaped(v[1..], t);
      PrependTextText([c], v[1..], StringBody(t));
      assert [c] + v[1..] == v;
    }
  }

  /** The string scanner decodes escaped text back to the original content,
      whether the closing quote is there or the input ends (an unterminated
      string is not an error). */
  lemma StringBodyEscape(v: string, rest: string)
    requires rest == [] || rest[0] == '"'
    ensures StringBody(Escape(v) + rest) == Ok((v, if rest == [] then [] else rest[1..]))
  {
    StringBodyEscaped(v, rest);
    assert v + [] == v;
  }

  /** A string with no quote and no backslash reads as itself. */
  lemma {:induction false} StringBodyPlain(v: string, rest: string)
    requires IsPlain(v)
    ensures StringBody(v + rest) == PrependText(v, StringBody(rest))
  {
    if v == [] {
      assert v + rest == rest;
      PrependTextEmpty(StringBody(rest));
    } else {
      assert (v + rest)[1..] == v[1..] + rest;
      StringBodyPlain(v[1..], rest);
      PrependTextText([v[0]], v[1..], StringBody(rest));
      assert [v[0]] + v[1..] == v;
    }
  }

  predicate IsPlain(s: string) {
    forall i :: 0 <= i < |s| ==> s[i] != '"' && s[i] != '\\'
  }

  /** A quoted string token, escaped, is read back as its content. */
  lemma LexQuoted(v: string, s: string, parseNum: string -> Option<Num>)
    ensures Lex("\"" + Escape(v) + "\"" + s, parseNum) == Cons(String(v), Lex(s, parseNum))
  {
    var input := "\"" + Escape(v) + "\"" + s;
    assert input[1..] == Escape(v) + ("\"" + s);
    StringBodyEscape(v, "\"" + s);
    assert ("\"" + s)[1..] == s;
  }

  /** A string with no closing quote is not an error: its token holds every
      decoded character after the opening quote. */
  lemma LexUnterminated(v: string, parseNum: string -> Option<Num>)
    ensures Lex("\"" + Escape(v), parseNum) == Ok([String(v)])
  {
    var input := "\"" + Escape(v);
    assert input[1..] == Escape(v) + [];
    StringBodyEscape(v, []);
    assert [String(v)] + [] == [String(v)];
  }

  /** A backslash as the last character of the input is
      `UnexpectedEndOfInput`, whatever content, escapes included, comes
      before it in the string. */
  lemma LexBackslashAtEnd(v: string, parseNum: string -> Option<Num>)
    ensures Lex("\"" + Escape(v) + "\\", parseNum) == Err(UnexpectedEndOfInput)
  {
    var input := "\"" + Escape(v) + "\\";
    assert input[1..] == Escape(v) + "\\";
    StringBodyEscaped(v, "\\");
  }

  /** A backslash followed by a character that starts no escape is an error
      that carries that character, whatever content, escapes included, comes
      before it in the string. */
  lemma LexInvalidEscape(v: string, e: char, s: string, parseNum: string -> Option<Num>)
    requires !IsSimpleEscape(e) && e != 'u'
    ensures Lex("\"" + Escape(v) + "\\" + [e] + s, parseNum) == Err(InvalidEscapeCharacter([e]))
  {
    var input := "\"" + Escape(v) + "\\" + [e] + s;
    assert input[1..] == Escape(v) + ("\\" + [e] + s);
    StringBodyEscaped(v, "\\" + [e] + s);
    assert ("\\" + [e] + s)[1..] == [e] + s;
  }

  // ---------------------------------------------------------------------
  // The `\u` escape

  lemma {:induction false} HexValueBound(s: string)
    requires AllHexDigits(s)
    ensures HexValue(s) < Power16(|s|)
  {
    if s != [] {
      HexValueBound(s[..|s| - 1]);
    }
  }

  function Power16(n: nat): nat
  {
    if n == 0 then 1 else 16 * Power16(n - 1)
  }

  predicate AllAscii(s: string) {
    forall i :: 0 <= i < |s| ==> s[i] as int < 0x80 && s[i] != '"'
  }

  lemma {:induction false} AsciiLength(s: string)
    requires AllAscii(s)
    ensures Utf8Length(s) == |s|
  {
    if s != [] {
      AsciiLength(s[..|s| - 1]);
    }
  }

  /** Over ASCII text the `\u` loop counts characters: it takes at most
      `4 - width` of them, stopping early at a `"` or at the end. */
  lemma {:induction false} HexRunAscii(h: string, s: string, width: nat)
    requires AllAscii(h) && width + |h| <= 4
    requires (h != [] && width + |h| == 4) || s == [] || s[0] == '"'
    ensures HexRunLength(h + s, width) == |h|
    decreases |h|
  {
    if h != [] {
      assert (h + s)[0] == h[0] && (h + s)[1..] == h[1..] + s;
      if width + 1 != 4 {
        HexRunAscii(h[1..], s, width + 1);
      }
    } else {
      assert h + s == s;
    }
  }

  /** Four hexadecimal digits after `\u` decode to that code point, unless it
      is a surrogate, which is `InvalidEscapeCharacter` carrying the digits. */
  lemma ScanEscapeHex(h: string, s: string)
    requires |h| == 4 && AllHexDigits(h)
    ensures IsScalarValue(HexValue(h)) ==> ScanEscape("u" + h + s) == Ok((HexValue(h) as char, s))
    ensures !IsScalarValue(HexValue(h)) ==> ScanEscape("u" + h + s) == Err(InvalidEscapeCharacter(h))
  {
    assert AllAscii(h);
    AsciiLength(h);
    HexRunAscii(h, s, 0);
    HexValueBound(h);
    assert ("u" + h + s)[1..] == h + s;
    assert (h + s)[..4] == h && (h + s)[4..] == s;
  }

  /** Fewer than four characters before a `"` or the end of the input is
      `InvalidEscapeCharacter` carrying the characters taken (`\u123`). */
  lemma ScanEscapeShort(h: string, s: string)
    requires |h| < 4 && AllAscii(h)
    requires s == [] || s[0] == '"'
    ensures ScanEscape("u" + h + s) == Err(InvalidEscapeCharacter(h))
  {
    AsciiLength(h);
    HexRunAscii(h, s, 0);
    assert ("u" + h + s)[1..] == h + s;
    assert (h + s)[..|h|] == h;
  }

  /** Four characters that are not a hexadecimal number make the source's
      `unwrap()` panic. */
  lemma ScanEscapeNotHex(h: string, s: string)
    requires |h| == 4 && AllAscii(h)
    requires !AllHexDigits(h) && !(h[0] == '+' && AllHexDigits(h[1..]))
    ensures ScanEscape("u" + h + s) == Panic
  {
    AsciiLength(h);
    HexRunAscii(h, s, 0);
    assert ("u" + h + s)[1..] == h + s;
    assert (h + s)[..4] == h;
  }

  /** `u32::from_str_radix` accepts a leading `+`, so `\u+041` decodes: a
      plus sign and three digits name a code point below 0x1000. */
  lemma ScanEscapePlusSign(h: string, s: string)
    requires |h| == 3 && AllHexDigits(h)
    ensures HexValue(h) < 0x1000
    ensures ScanEscape("u+" + h + s) == Ok((HexValue(h) as char, s))
  {
    var taken := "+" + h;
    assert AllAscii(taken);
    AsciiLength(taken);
    HexRunAscii(taken, s, 0);
    HexValueBound(h);
    assert ("u+" + h + s)[1..] == taken + s;
    assert (taken + s)[..4] == taken && (taken + s)[4..] == s;
    assert taken[1..] == h;
  }

  /** The four-character counter is a UTF-8 byte count: a character outside
      the Basic Multilingual Plane fills it at once, and the `unwrap()` on the
      non-hexadecimal text panics. */
  lemma ScanEscapeWide(c: char, s: string)
    requires c as int >= 0x1_0000
    ensures ScanEscape("u" + [c] + s) == Panic
  {
    assert ("u" + [c] + s)[1..] == [c] + s;
    assert ([c] + s)[..1] == [c];
    assert Utf8Length([c]) == Utf8Width(c) by {
      assert [c][..0] == [];
    }
  }

  /** Two characters of two UTF-8 bytes each fill the four-byte counter,
      and the `unwrap()` on that non-hexadecimal text panics: over non-ASCII
      text, fewer than four characters can reach the panic (`\uéé`). */
  lemma ScanEscapeTwoByte(c1: char, c2: char, s: string)
    requires 0x80 <= c1 as int < 0x800 && 0x80 <= c2 as int < 0x800
    ensures ScanEscape("u" + [c1, c2] + s) == Panic
  {
    var x := [c1, c2] + s;
    assert ("u" + [c1, c2] + s)[1..] == x;
    assert x[0] == c1 && x[1..][0] == c2;
    assert HexRunLength(x, 0) == 2;
    assert x[..2] == [c1, c2];
    assert [c1, c2][..1] == [c1] && [c1][..0] == [];
    assert Utf8Length([c1]) == Utf8Width(c1) == 2;
    assert Utf8Length([c1, c2]) == Utf8Length([c1]) + Utf8Width(c2) == 4;
    assert !IsHexDigit(c1);
  }

  /** The two ways the byte counter parts from a character count, on `é`
      (two bytes): `\uéé"` panics, and `\uabcé"` reads on to the quote. */
  lemma ScanEscapeNonAsciiExamples()
    ensures ScanEscape("u\U{E9}\U{E9}\"") == Panic
    ensures ScanEscape("uabc\U{E9}\"") == Err(InvalidEscapeCharacter("abc\U{E9}"))
  {
    assert "u\U{E9}\U{E9}\"" == "u" + ['\U{E9}', '\U{E9}'] + "\"";
    ScanEscapeTwoByte('\U{E9}', '\U{E9}', "\"");
    assert AllAscii("abc");
    assert "uabc\U{E9}\"" == "u" + "abc" + ['\U{E9}'] + [] + "\"";
    ScanEscapeOvershoot("abc", '\U{E9}', [], "\"");
    assert "abc" + ['\U{E9}'] + [] == "abc\U{E9}";
  }

  /** The byte length of a concatenation is the sum of the byte lengths. */
  lemma {:induction false} Utf8LengthAppend(a: string, b: string)
    ensures Utf8Length(a + b) == Utf8Length(a) + Utf8Length(b)
    decreases |b|
  {
    if b == [] {
      assert a + b == a;
    } else {
      assert (a + b)[..|a + b| - 1] == a + b[..|b| - 1];
      Utf8LengthAppend(a, b[..|b| - 1]);
    }
  }

  /** Once the byte counter is past four it never equals four again, so the
      loop reads on to the next `"` or to the end of the input. */
  lemma {:induction false} HexRunPastFour(t: string, s: string, width: nat)
    requires width > 4
    requires forall i :: 0 <= i < |t| ==> t[i] != '"'
    requires s == [] || s[0] == '"'
    ensures HexRunLength(t + s, width) == |t|
    decreases |t|
  {
    if t == [] {
      assert t + s == s;
    } else {
      assert (t + s)[0] == t[0] && (t + s)[1..] == t[1..] + s;
      HexRunPastFour(t[1..], s, width + Utf8Width(t[0]));
    }
  }

  /** A character of two or more UTF-8 bytes after three ASCII characters
      takes the counter from 3 past 4: the loop reads on to the `"` or the
      end, and the text taken is `InvalidEscapeCharacter`, not a panic, even
      when it is four characters that are not a hex number (`\uabcé`). */
  lemma ScanEscapeOvershoot(h: string, c: char, t: string, s: string)
    requires |h| == 3 && AllAscii(h) && c as int >= 0x80
    requires forall i :: 0 <= i < |t| ==> t[i] != '"'
    requires s == [] || s[0] == '"'
    ensures ScanEscape("u" + h + [c] + t + s) == Err(InvalidEscapeCharacter(h + [c] + t))
  {
    var x := h + [c] + t + s;
    var taken := h + [c] + t;
    assert ("u" + h + [c] + t + s)[1..] == x;
    var w := 3 + Utf8Width(c);
    assert x[0] == h[0] && x[1..][0] == h[1] && x[1..][1..][0] == h[2];
    assert x[1..][1..][1..][0] == c;
    assert x[1..][1..][1..][1..] == t + s;
    HexRunPastFour(t, s, w);
    assert Utf8Width(h[0]) == 1 && Utf8Width(h[1]) == 1 && Utf8Width(h[2]) == 1;
    assert HexRunLength(x[1..][1..][1..], 3) == 1 + |t|;
    assert HexRunLength(x[1..][1..], 2) == 2 + |t|;
    assert HexRunLength(x[1..], 1) == 3 + |t|;
    assert HexRunLength(x, 0) == |taken|;
    assert x[..|taken|] == taken;
    AsciiLength(h);
    Utf8LengthAppend(h, [c]);
    Utf8LengthAppend(h + [c], t);
    assert [c][..0] == [];
    assert Utf8Length([c]) == Utf8Width(c);
  }

  // ---------------------------------------------------------------------
  // Errors and token text

  /** The first error ends the scan: the tokens before it are dropped, the
      text after it is not looked at, and a panic stays a panic. */
  lemma LexStopsAtFirstError(p: string, rest: string, parseNum: string -> Option<Num>)
    requires IsPunctuation(p)
    requires rest != [] && !IsWhitespace(rest[0]) && !IsStructural(rest[0])
    requires !ScanToken(rest, parseNum).Ok?
    ensures ScanToken(rest, parseNum).Err? ==> Lex(p + rest, parseNum) == Err(ScanToken(rest, parseNum).error)
    ensures ScanToken(rest, parseNum).Panic? ==> Lex(p + rest, parseNum) == Panic
  {
    LexPunctuation(p, rest, parseNum);
  }

  /** The numbers whose printed text reads back as the same number. */
  ghost predicate NumberRoundTrips(n: Num, show: Num -> string, parseNum: string -> Option<Num>) {
    var text := show(n);
    text != [] && StartsNumber(text[0]) &&
    (forall i :: 0 <= i < |text| ==> IsNumberChar(text[i])) &&
    parseNum(text) == Some(n)
  }

  /** The tokens whose text reads back as the same token: every token but a
      string holding a quote or a backslash (the text is not escaped) and a
      number whose printed form does not parse back to it. */
  ghost predicate TextReadsBack(t: Token, show: Num -> string, parseNum: string -> Option<Num>) {
    match t
    case String(v) => IsPlain(v)
    case Number(n) => NumberRoundTrips(n, show, parseNum)
    case _ => true
  }

  /** A one-character structural token reads back as itself. */
  lemma LexStructural(c: char, s: string, parseNum: string -> Option<Num>)
    requires IsStructural(c)
    ensures Lex([c] + s, parseNum) == Cons(Structural(c), Lex(s, parseNum))
  {
    assert ([c] + s)[0] == c && ([c] + s)[1..] == s;
  }

  /** A quoted string without a quote or backslash inside reads back as
      itself. */
  lemma LexPlainString(v: string, s: string, parseNum: string -> Option<Num>)
    requires IsPlain(v)
    ensures Lex("\"" + v + "\"" + s, parseNum) == Cons(String(v), Lex(s, parseNum))
  {
    var input := "\"" + v + "\"" + s;
    assert input[0] == '"' && input[1..] == v + ("\"" + s);
    StringBodyPlain(v, "\"" + s);
    assert ("\"" + s)[1..] == s;
    assert v + [] == v;
  }

  /** One character that is neither a quote nor a backslash reads as
      itself. */
  lemma StringBodyChar(c: char, tail: string)
    requires c != '"' && c != '\\'
    ensures StringBody([c] + tail) == PrependText([c], StringBody(tail))
  {
    assert ([c] + tail)[1..] == tail;
  }

  /** A space, a backslash and a letter of the escape table read as the
      space and the character the letter stands for. */
  lemma StringBodySpacedEscape(e: char, tail: string)
    requires IsSimpleEscape(e)
    ensures StringBody([' ', '\\', e] + tail) == PrependText([' ', SimpleEscape(e)], StringBody(tail))
  {
    var text := [' ', '\\', e] + tail;
    assert text[0] == ' ' && text[1..] == ['\\', e] + tail;
    assert (['\\', e] + tail)[1..] == [e] + tail;
    ScanSimpleEscape(e, tail);
    var rest := ['\\', e] + tail;
    assert rest[0] == '\\' && rest[1..] == [e] + tail;
    match StringBody(tail)
    case Ok((v, r)) =>
      assert [' '] + ([SimpleEscape(e)] + v) == [' ', SimpleEscape(e)] + v;
    case Err(_) =>
    case Panic =>
  }

  /** Text put in front twice is put in front once. */
  lemma PrependTextTwice(a: string, b: string, o: Outcome<(string, string)>)
    ensures PrependText(a, PrependText(b, o)) == PrependText(a + b, o)
  {
    match o
    case Ok((v, r)) => assert a + (b + v) == a + b + v;
    case Err(_) =>
    case Panic =>
  }

  /** The value of four hexadecimal digits. */
  lemma HexValueOfFour(h: string)
    requires |h| == 4 && AllHexDigits(h)
    ensures HexValue(h) == 4096 * HexDigitValue(h[0]) + 256 * HexDigitValue(h[1])
                           + 16 * HexDigitValue(h[2]) + HexDigitValue(h[3])
  {
    assert h[..3][..2] == h[..2] && h[..2][..1] == h[..1] && h[..1][..0] == [];
    assert HexValue(h[..1]) == HexDigitValue(h[0]);
    assert HexValue(h[..2]) == 16 * HexValue(h[..1]) + HexDigitValue(h[1]);
    assert HexValue(h[..3]) == 16 * HexValue(h[..2]) + HexDigitValue(h[2]);
  }

  /** `\u` and four hexadecimal digits naming the character `c` read as
      `c`. */
  lemma UnicodeEscape(h0: char, h1: char, h2: char, h3: char, c: char, tail: string)
    requires IsHexDigit(h0) && IsHexDigit(h1) && IsHexDigit(h2) && IsHexDigit(h3)
    requires 4096 * HexDigitValue(h0) + 256 * HexDigitValue(h1) + 16 * HexDigitValue(h2)
             + HexDigitValue(h3) == c as int
    ensures StringBody(['\\', 'u', h0, h1, h2, h3] + tail) == PrependText([c], StringBody(tail))
  {
    var h := [h0, h1, h2, h3];
    HexValueOfFour(h);
    var text := ['\\', 'u', h0, h1, h2, h3] + tail;
    assert text[0] == '\\' && text[1..] == "u" + h + tail;
    ScanEscapeHex(h, tail);
  }

  /** A string body that ends the input is one string token. */
  lemma LexWholeString(body: string, v: string, parseNum: string -> Option<Num>)
    requires StringBody(body) == Ok((v, []))
    ensures Lex("\"" + body, parseNum) == Ok([String(v)])
  {
    assert ("\"" + body)[1..] == body;
    assert [String(v)] + [] == [String(v)];
  }

  /** The text of a token reads back as that token, when what follows it is
      the end or a character that ends a bareword. */
  lemma LexTokenText(t: Token, s: string, show: Num -> string, parseNum: string -> Option<Num>)
    requires TextReadsBack(t, show, parseNum)
    requires s == [] || EndsLiteral(s[0])
    ensures Lex(TokenText(t, show) + s, parseNum) == Cons(t, Lex(s, parseNum))
  {
    match t
    case String(v) => LexPlainString(v, s, parseNum);
    case Number(n) => LexNumberRun(show(n), s, parseNum);
    case True => LexBareword("true", s, parseNum);
    case False => LexBareword("false", s, parseNum);
    case Null => LexBareword("null", s, parseNum);
    case LeftSquareBracket => LexStructural('[', s, parseNum);
    case LeftCurlyBracket => LexStructural('{', s, parseNum);
    case RightSquareBracket => LexStructural(']', s, parseNum);
    case RightCurlyBracket => LexStructural('}', s, parseNum);
    case Colon => LexStructural(':', s, parseNum);
    case Comma => LexStructural(',', s, parseNum);
  }

  // ---------------------------------------------------------------------
  // The source's unit tests (tokenizer.rs:195-371)

  lemma LexEmptyAndWhitespace(parseNum: string -> Option<Num>)
    ensures Lex("", parseNum) == Ok([])
    ensures Lex(" \n\t\r", parseNum) == Ok([])
  {
    LexBlank(" \n\t\r", parseNum);
  }

  lemma LexSingleCharacters(parseNum: string -> Option<Num>)
    ensures Lex("[", parseNum) == Ok([LeftSquareBracket])
    ensures Lex("]", parseNum) == Ok([RightSquareBracket])
    ensures Lex("{", parseNum) == Ok([LeftCurlyBracket])
    ensures Lex("}", parseNum) == Ok([RightCurlyBracket])
    ensures Lex(":", parseNum) == Ok([Colon])
    ensures Lex(",", parseNum) == Ok([Comma])
  {
    var cs := "[]{}:,";
    LexAlone(cs[0], parseNum);
    LexAlone(cs[1], parseNum);
    LexAlone(cs[2], parseNum);
    LexAlone(cs[3], parseNum);
    LexAlone(cs[4], parseNum);
    LexAlone(cs[5], parseNum);
  }

  /** A structural character on its own is its one token. */
  lemma LexAlone(c: char, parseNum: string -> Option<Num>)
    requires IsStructural(c)
    ensures Lex([c], parseNum) == Ok([Structural(c)])
  {
    LexStructural(c, [], parseNum);
    assert [c] + [] == [c];
    assert [Structural(c)] + [] == [Structural(c)];
  }

  lemma LexTrue(parseNum: string -> Option<Num>)
    ensures Lex("true", parseNum) == Ok([True])
  {
    assert "true" + [] == "true";
    LexBareword("true", [], parseNum);
    assert [True] + [] == [True];
  }

  lemma LexFalse(parseNum: string -> Option<Num>)
    ensures Lex("false", parseNum) == Ok([False])
  {
    assert "false" + [] == "false";
    LexBareword("false", [], parseNum);
    assert [False] + [] == [False];
  }

  lemma LexNull(parseNum: string -> Option<Num>)
    ensures Lex("null", parseNum) == Ok([Null])
  {
    assert "null" + [] == "null";
    LexBareword("null", [], parseNum);
    assert [Null] + [] == [Null];
  }

  lemma LexMisspelledKeyword(parseNum: string -> Option<Num>)
    ensures Lex("nulll", parseNum) == Err(UnexpectedLiteral("nulll"))
  {
    assert "nulll" + [] == "nulll";
    LexBareword("nulll", [], parseNum);
  }

  lemma LexStrings(parseNum: string -> Option<Num>)
    ensures Lex("\"hello\"", parseNum) == Ok([String("hello")])
    ensures Lex("\"\\x\"", parseNum) == Err(InvalidEscapeCharacter("x"))
    ensures Lex("\"\\u123\"", parseNum) == Err(InvalidEscapeCharacter("123"))
  {
    assert "\"" + "hello" + "\"" + [] == "\"hello\"";
    LexPlainString("hello", [], parseNum);
    assert [String("hello")] + [] == [String("hello")];
    assert Escape("") == "";
    assert "\"" + Escape("") + "\\" + ['x'] + "\"" == "\"\\x\"";
    LexInvalidEscape("", 'x', "\"", parseNum);
    var input := "\"\\u123\"";
    assert input[1..] == "\\u123\"" && input[1..][1..] == "u" + "123" + "\"";
    ScanEscapeShort("123", "\"");
  }

  /** In the next two tests the input and the expected text are written one
      escape at a time, nested to the right as the scanner reads them. */
  lemma LexEscapedCharacters(parseNum: string -> Option<Num>)
    ensures Lex("\"" + (" \\\"" + (" \\\\" + (" \\/" + (" \\b" + (" \\f" + (" \\n" + (" \\r" + (" \\t" + "\"")))))))), parseNum)
         == Ok([String(" \"" + (" \\" + (" /" + (" \U{0008}" + (" \U{000C}" + (" \n" + (" \r" + " \t")))))))])
  {
    var s8 := "\"";
    var s7 := " \\t" + s8;
    var s6 := " \\r" + s7;
    var s5 := " \\n" + s6;
    var s4 := " \\f" + s5;
    var s3 := " \\b" + s4;
    var s2 := " \\/" + s3;
    var s1 := " \\\\" + s2;
    var s0 := " \\\"" + s1;
    assert StringBody(s8) == Ok(([], []));
    StringBodySpacedEscape('t', s8);
    assert " \t" + [] == " \t";
    StringBodySpacedEscape('r', s7);
    StringBodySpacedEscape('n', s6);
    StringBodySpacedEscape('f', s5);
    StringBodySpacedEscape('b', s4);
    StringBodySpacedEscape('/', s3);
    StringBodySpacedEscape('\\', s2);
    StringBodySpacedEscape('"', s1);
    LexWholeString(s0, " \"" + (" \\" + (" /" + (" \U{0008}" + (" \U{000C}" + (" \n" + (" \r" + " \t")))))), parseNum);
  }

  lemma LexUnicodeEscapes(parseNum: string -> Option<Num>)
    ensures Lex("\"" + ("\\u0048" + ("\\u0065" + ("\\u006C" + ("\\u006C" + ("\\u006F" + "\""))))), parseNum)
         == Ok([String("H" + ("e" + ("l" + ("l" + "o"))))])
  {
    HelloEscapes("\"");
    assert StringBody("\"") == Ok(([], []));
    assert "H" + ("e" + ("l" + ("l" + "o"))) + [] == "H" + ("e" + ("l" + ("l" + "o")));
    LexWholeString("\\u0048" + ("\\u0065" + ("\\u006C" + ("\\u006C" + ("\\u006F" + "\"")))),
                   "H" + ("e" + ("l" + ("l" + "o"))), parseNum);
  }

  /** The five `\u` escapes of the test above, before any `tail`. */
  lemma HelloEscapes(tail: string)
    ensures StringBody("\\u0048" + ("\\u0065" + ("\\u006C" + ("\\u006C" + ("\\u006F" + tail)))))
         == PrependText("H" + ("e" + ("l" + ("l" + "o"))), StringBody(tail))
  {
    var s4 := "\\u006F" + tail;
    var s3 := "\\u006C" + s4;
    var s2 := "\\u006C" + s3;
    var s1 := "\\u0065" + s2;
    UnicodeEscape('0', '0', '6', 'F', 'o', tail);
    UnicodeEscape('0', '0', '6', 'C', 'l', s4);
    PrependTextTwice("l", "o", StringBody(tail));
    UnicodeEscape('0', '0', '6', 'C', 'l', s3);
    PrependTextTwice("l", "l" + "o", StringBody(tail));
    UnicodeEscape('0', '0', '6', '5', 'e', s2);
    PrependTextTwice("e", "l" + ("l" + "o"), StringBody(tail));
    UnicodeEscape('0', '0', '4', '8', 'H', s1);
    PrependTextTwice("H", "e" + ("l" + ("l" + "o")), StringBody(tail));
  }

  lemma LexInvalidNumber(parseNum: string -> Option<Num>)
    requires parseNum("123.456.789").None?
    ensures Lex("123.456.789", parseNum) == Err(InvalidNumberLiteral("123.456.789"))
  {
    assert "123.456.789" + [] == "123.456.789";
    LexNumberRun("123.456.789", [], parseNum);
  }

  lemma LexNumber(parseNum: string -> Option<Num>)
    requires parseNum("-123e+4").Some?
    ensures Lex("-123e+4", parseNum) == Ok([Number(parseNum("-123e+4").value)])
  {
    assert "-123e+4" + [] == "-123e+4";
    LexNumberRun("-123e+4", [], parseNum);
    var n := Number(parseNum("-123e+4").value);
    assert [n] + [] == [n];
  }
}
