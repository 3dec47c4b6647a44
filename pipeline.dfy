/** The three stages composed (`format_json`, lib.rs:7-12): tokenize, parse
    one value, print it. A tokenizer error or a parser error is returned as
    it is; the `\u` escape that makes the tokenizer panic is `Crash`. */
module Pipeline {
  import T = Tokenizer
  import P = Parser
  import F = Formatter

  /** `error::Error`: which stage failed, and how. */
  datatype Error = TokenizeError(tokenize: T.TokenizeError) | ParseError(parse: P.ParserError)

  /** What reading a text gives: a value, an error, or a panic. */
  datatype ReadResult = Parsed(value: P.JsonValue) | ReadFailed(error: Error) | ReadCrash

  /** What `format_json` gives. */
  datatype FormatResult = Formatted(text: string) | Failed(error: Error) | Crash

  /** The first two stages: `tokenize`, then `parser`. A value read is
      spelled by the first tokens of the text; whatever follows them is
      ignored. */
  function Read(content: string, parseNum: string -> T.Option<T.Num>): (r: ReadResult)
    ensures r.ReadCrash? <==> T.Lex(content, parseNum).Panic?
    ensures r.Parsed? <==> T.Lex(content, parseNum).Ok? && P.Parser(T.Lex(content, parseNum).value).Ok?
    ensures r.Parsed? ==> P.Serialize(r.value) <= T.Lex(content, parseNum).value
  {
    match T.Lex(content, parseNum)
    case Panic => ReadCrash
    case Err(e) => ReadFailed(TokenizeError(e))
    case Ok(tokens) =>
      match P.Parser(tokens)
      case Err(e) => ReadFailed(ParseError(e))
      case Ok(v) =>
        P.ParseValueSound(tokens, 0);
        Parsed(v)
  }

  /** The pipeline with the printer's string writer as a parameter. When the
      value read prints as text that lexes back, the output reads back as
      the value the input read as. */
  function FormatWith(content: string, parseNum: string -> T.Option<T.Num>, show: T.Num -> string,
                      quote: string -> string): (r: FormatResult)
    ensures r.Formatted? <==> Read(content, parseNum).Parsed?
    ensures r.Formatted? ==> r.text == F.FormatValue(Read(content, parseNum).value, 1, show, quote)
    ensures r.Failed? <==> Read(content, parseNum).ReadFailed?
    ensures r.Failed? ==> r.error == Read(content, parseNum).error
    ensures Read(content, parseNum).Parsed? && F.Relexable(Read(content, parseNum).value, show, parseNum, quote)
            ==> r.Formatted? && Read(r.text, parseNum) == Read(content, parseNum)
  {
    match Read(content, parseNum)
    case ReadCrash => Crash
    case ReadFailed(e) => Failed(e)
    case Parsed(v) =>
      PrintedReadsBack(v, 1, show, parseNum, quote);
      Formatted(F.FormatValue(v, 1, show, quote))
  }

  /** `format_json` (lib.rs:7-12), with the source's string writer. */
  function FormatJson(content: string, parseNum: string -> T.Option<T.Num>, show: T.Num -> string): FormatResult
  {
    FormatWith(content, parseNum, show, F.Verbatim)
  }

  /** The corrected pipeline, which writes strings with escapes. */
  function FormatJsonEscaped(content: string, parseNum: string -> T.Option<T.Num>, show: T.Num -> string): FormatResult
  {
    FormatWith(content, parseNum, show, T.Escape)
  }

  // ---------------------------------------------------------------------
  // Reading printed text back

  /** Printed text whose strings and numbers read back reads back as the
      value printed. */
  lemma PrintedReadsBack(v: P.JsonValue, k: nat, show: T.Num -> string, parseNum: string -> T.Option<T.Num>,
                         quote: string -> string)
    requires k >= 1
    ensures F.Relexable(v, show, parseNum, quote) ==> Read(F.FormatValue(v, k, show, quote), parseNum) == Parsed(v)
  {
    if F.Relexable(v, show, parseNum, quote) {
      F.FormatTokens(v, k, show, parseNum, quote);
      P.ParserIgnoresTrailingTokens(v, []);
      assert P.Serialize(v) + [] == P.Serialize(v);
    }
  }

  /** The source's printer: a value whose strings and keys hold no quote and
      no backslash, and whose numbers print as text that parses back, reads
      back from its printed text. */
  lemma FormatRoundTrip(v: P.JsonValue, show: T.Num -> string, parseNum: string -> T.Option<T.Num>)
    requires F.NumbersRoundTrip(v, show, parseNum) && F.PlainStrings(v)
    ensures Read(F.Format(v, show), parseNum) == Parsed(v)
  {
    F.VerbatimRelexable(v, show, parseNum);
    PrintedReadsBack(v, 1, show, parseNum, F.Verbatim);
  }

  /** The corrected printer: every value whose numbers round-trip reads back
      from its printed text. */
  lemma FormatEscapedRoundTrip(v: P.JsonValue, show: T.Num -> string, parseNum: string -> T.Option<T.Num>)
    requires F.NumbersRoundTrip(v, show, parseNum)
    ensures Read(F.FormatEscaped(v, show), parseNum) == Parsed(v)
  {
    F.EscapedRelexable(v, show, parseNum);
    PrintedReadsBack(v, 1, show, parseNum, T.Escape);
  }

  /** Formatting formatted text changes nothing, when the value read holds
      plain strings and round-tripping numbers. */
  lemma FormatJsonIdempotent(content: string, parseNum: string -> T.Option<T.Num>, show: T.Num -> string)
    requires Read(content, parseNum).Parsed?
    requires var v := Read(content, parseNum).value;
      F.NumbersRoundTrip(v, show, parseNum) && F.PlainStrings(v)
    ensures FormatJson(content, parseNum, show).Formatted?
    ensures var text := FormatJson(content, parseNum, show).text;
      FormatJson(text, parseNum, show) == Formatted(text)
  {
    FormatRoundTrip(Read(content, parseNum).value, show, parseNum);
  }

  /** The corrected pipeline is idempotent whenever the numbers round-trip. */
  lemma FormatJsonEscapedIdempotent(content: string, parseNum: string -> T.Option<T.Num>, show: T.Num -> string)
    requires Read(content, parseNum).Parsed?
    requires F.NumbersRoundTrip(Read(content, parseNum).value, show, parseNum)
    ensures FormatJsonEscaped(content, parseNum, show).Formatted?
    ensures var text := FormatJsonEscaped(content, parseNum, show).text;
      FormatJsonEscaped(text, parseNum, show) == Formatted(text)
  {
    FormatEscapedRoundTrip(Read(content, parseNum).value, show, parseNum);
  }

  // ---------------------------------------------------------------------
  // The missing re-escaping

  /** The string holding one quote character prints as three quotes, which
      read back as the empty string: the source's printer loses it. */
  lemma FormatLosesQuote(show: T.Num -> string, parseNum: string -> T.Option<T.Num>)
    ensures F.Format(P.String("\""), show) == "\"\"\""
    ensures Read(F.Format(P.String("\""), show), parseNum) == Parsed(P.String(""))
  {
    var text := F.Format(P.String("\""), show);
    assert text == "\"" + "" + "\"" + "\"";
    T.LexPlainString("", "\"", parseNum);
    T.LexUnterminated("", parseNum);
    assert "\"" + T.Escape("") == "\"";
    assert [T.String("")] + [T.String("")] == [T.String(""), T.String("")];
    assert P.Parser([T.String(""), T.String("")]) == P.Ok(P.String(""));
  }

  /** `format_json` is not idempotent: the input `"\""` (a string holding a
      quote) formats to three quotes, which format to two. */
  lemma FormatJsonNotIdempotent(show: T.Num -> string, parseNum: string -> T.Option<T.Num>)
    ensures FormatJson("\"\\\"\"", parseNum, show) == Formatted("\"\"\"")
    ensures FormatJson("\"\"\"", parseNum, show) == Formatted("\"\"")
  {
    assert T.Escape("\"") == "\\\"";
    assert "\"\\\"\"" == "\"" + T.Escape("\"") + "\"" + "";
    F.EscapedReadsBack("\"");
    F.LexQuotedText(T.Escape, "\"", "", parseNum);
    assert P.Parser([T.String("\"")]) == P.Ok(P.String("\""));
    FormatLosesQuote(show, parseNum);
    assert F.Format(P.String(""), show) == "\"\"";
  }
}
