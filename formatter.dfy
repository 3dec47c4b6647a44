/** The printing stage (src/formatter.rs): a pure recursive pretty-printer
    over the value tree. Containers open on their own line, every element or
    member goes on a line of its own indented by two spaces per level, the
    lines are separated by `",\n"`, and the closing bracket goes on a line
    indented one level less. The indent level starts at 1.

    Numbers are printed by the parameter `show` (Rust's `f64::to_string`).
    How string content is written between its quotes is the parameter
    `quote`: the source writes it as it is (`Verbatim`); `FormatEscaped` is
    the corrected printer, which writes the escapes the tokenizer reads back
    (`Tokenizer.Escape`). */
module Formatter {
  import opened Sequences
  import opened Parser
  import T = Tokenizer

  /** `"  ".repeat(n)`. */
  function Indent(n: nat): (r: string)
    ensures |r| == 2 * n
    ensures T.AllWhitespace(r)
  {
    Repeat("  ", n)
  }

  /** String content as the source writes it: unchanged. */
  function Verbatim(s: string): string
  {
    s
  }

  /** `format_value` (formatter.rs:7-16). */
  function FormatValue(v: JsonValue, level: nat, show: T.Num -> string, quote: string -> string): string
    requires level >= 1
    decreases v, 2
  {
    match v
    case Null => "null"
    case Bool(b) => if b then "true" else "false"
    case Number(n) => show(n)
    case String(s) => "\"" + quote(s) + "\""
    case Object(_) => FormatObject(v, level, show, quote)
    case Array(_) => FormatArray(v, level, show, quote)
  }

  /** `format_object` (formatter.rs:18-45). The `panic!` arm is unreachable:
      the precondition says the value is an object, and every call in the
      model is checked against it. */
  function FormatObject(v: JsonValue, level: nat, show: T.Num -> string, quote: string -> string): string
    requires v.Object? && level >= 1
    decreases v, 1
  {
    if |v.entries| == 0 then "{}"
    else "{\n" + Join(EntryLines(v, level, show, quote), ",\n") + "\n" + Indent(level - 1) + "}"
  }

  /** The member lines of a non-empty object (formatter.rs:24-34). */
  function EntryLines(v: JsonValue, level: nat, show: T.Num -> string, quote: string -> string): (lines: seq<string>)
    requires v.Object? && level >= 1
    ensures |lines| == |v.entries|
    decreases v, 0
  {
    seq(|v.entries|, i requires 0 <= i < |v.entries| =>
      EntryText(v.entries[i].0, v.entries[i].1, level, show, quote))
  }

  /** One member: the indent, the quoted key, `": "`, then the value one
      level deeper (formatter.rs:26-33). */
  function EntryText(key: string, value: JsonValue, level: nat, show: T.Num -> string, quote: string -> string): string
    requires level >= 1
    decreases value, 3
  {
    Indent(level) + "\"" + quote(key) + "\": " + FormatValue(value, level + 1, show, quote)
  }

  /** `format_array` (formatter.rs:47-69). The `panic!` arm is unreachable,
      as for objects. */
  function FormatArray(v: JsonValue, level: nat, show: T.Num -> string, quote: string -> string): string
    requires v.Array? && level >= 1
    decreases v, 1
  {
    if |v.items| == 0 then "[]"
    else "[\n" + Join(ItemLines(v, level, show, quote), ",\n") + "\n" + Indent(level - 1) + "]"
  }

  /** The element lines of a non-empty array (formatter.rs:53-63). */
  function ItemLines(v: JsonValue, level: nat, show: T.Num -> string, quote: string -> string): (lines: seq<string>)
    requires v.Array? && level >= 1
    ensures |lines| == |v.items|
    decreases v, 0
  {
    seq(|v.items|, i requires 0 <= i < |v.items| => ItemText(v.items[i], level, show, quote))
  }

  /** One element: the indent, then the value one level deeper
      (formatter.rs:55-61). */
  function ItemText(item: JsonValue, level: nat, show: T.Num -> string, quote: string -> string): string
    requires level >= 1
    decreases item, 3
  {
    Indent(level) + FormatValue(item, level + 1, show, quote)
  }

  /** `format` (formatter.rs:3-5): level 1, string content unchanged. */
  function Format(v: JsonValue, show: T.Num -> string): string
  {
    FormatValue(v, 1, show, Verbatim)
  }

  /** The corrected printer: the same layout, with string content and keys
      written with escapes. */
  function FormatEscaped(v: JsonValue, show: T.Num -> string): string
  {
    FormatValue(v, 1, show, T.Escape)
  }

  // ---------------------------------------------------------------------
  // Reading the text back

  /** The written form of `s` reads back as `s`, whatever follows the
      closing quote. */
  ghost predicate ReadsBack(quote: string -> string, s: string) {
    forall rest :: T.StringBody(quote(s) + "\"" + rest) == T.Ok((s, rest))
  }

  /** The values whose every string, key and number reads back. */
  ghost predicate Relexable(v: JsonValue, show: T.Num -> string, parseNum: string -> T.Option<T.Num>,
                            quote: string -> string)
  {
    match v
    case Number(n) => T.NumberRoundTrips(n, show, parseNum)
    case String(s) => ReadsBack(quote, s)
    case Array(items) =>
      forall i :: 0 <= i < |items| ==> Relexable(items[i], show, parseNum, quote)
    case Object(entries) =>
      forall i :: 0 <= i < |entries| ==>
        ReadsBack(quote, entries[i].0) && Relexable(entries[i].1, show, parseNum, quote)
    case _ => true
  }

  /** Text without a quote or a backslash, written as it is, reads back. */
  lemma PlainReadsBack(s: string)
    requires T.IsPlain(s)
    ensures ReadsBack(Verbatim, s)
  {
    forall rest ensures T.StringBody(Verbatim(s) + "\"" + rest) == T.Ok((s, rest)) {
      assert Verbatim(s) + "\"" + rest == s + ("\"" + rest);
      T.StringBodyPlain(s, "\"" + rest);
      assert ("\"" + rest)[0] == '"' && ("\"" + rest)[1..] == rest;
      assert s + [] == s;
    }
  }

  /** Every text, written with escapes, reads back. */
  lemma EscapedReadsBack(s: string)
    ensures ReadsBack(T.Escape, s)
  {
    forall rest ensures T.StringBody(T.Escape(s) + "\"" + rest) == T.Ok((s, rest)) {
      assert T.Escape(s) + "\"" + rest == T.Escape(s) + ("\"" + rest);
      T.StringBodyEscape(s, "\"" + rest);
      assert ("\"" + rest)[1..] == rest;
    }
  }

  /** A structural character, then whitespace. */
  lemma LexOpen(c: char, w: string, s: string, parseNum: string -> T.Option<T.Num>)
    requires T.IsStructural(c) && T.AllWhitespace(w)
    ensures T.Lex([c] + w + s, parseNum) == T.Cons(T.Structural(c), T.Lex(s, parseNum))
  {
    assert [c] + w + s == [c] + (w + s);
    T.LexStructural(c, w + s, parseNum);
    T.LexSkipsWhitespace(w, s, parseNum);
  }

  /** Whitespace, then a structural character. */
  lemma LexClose(w: string, c: char, s: string, parseNum: string -> T.Option<T.Num>)
    requires T.IsStructural(c) && T.AllWhitespace(w)
    ensures T.Lex(w + [c] + s, parseNum) == T.Cons(T.Structural(c), T.Lex(s, parseNum))
  {
    assert w + [c] + s == w + ([c] + s);
    T.LexSkipsWhitespace(w, [c] + s, parseNum);
    T.LexStructural(c, s, parseNum);
  }

  /** A quoted string that reads back. */
  lemma LexQuotedText(quote: string -> string, s: string, more: string, parseNum: string -> T.Option<T.Num>)
    requires ReadsBack(quote, s)
    ensures T.Lex("\"" + quote(s) + "\"" + more, parseNum) == T.Cons(T.String(s), T.Lex(more, parseNum))
  {
    var text := "\"" + quote(s) + "\"" + more;
    assert text[0] == '"' && text[1..] == quote(s) + "\"" + more;
    assert T.StringBody(quote(s) + "\"" + more) == T.Ok((s, more));
  }

  /** The tokenizer reads the printed text of a value back as the value's
      token serialization, and goes on with what follows it. */
  lemma {:induction false} FormatRelexes(v: JsonValue, k: nat, rest: string, show: T.Num -> string,
                                         parseNum: string -> T.Option<T.Num>, quote: string -> string)
    requires k >= 1 && Relexable(v, show, parseNum, quote)
    requires rest == [] || T.EndsLiteral(rest[0])
    ensures T.Lex(FormatValue(v, k, show, quote) + rest, parseNum)
            == T.Prepend(Serialize(v), T.Lex(rest, parseNum))
    decreases v, 2
  {
    match v
    case Null => T.LexBareword("null", rest, parseNum);
    case Bool(b) =>
      if b { T.LexBareword("true", rest, parseNum); } else { T.LexBareword("false", rest, parseNum); }
    case Number(n) => T.LexNumberRun(show(n), rest, parseNum);
    case String(s) => LexQuotedText(quote, s, rest, parseNum);
    case Array(_) => ArrayRelexes(v, k, rest, show, parseNum, quote);
    case Object(_) => ObjectRelexes(v, k, rest, show, parseNum, quote);
  }

  /** `{}` and `[]` read back as their two tokens. */
  lemma EmptyRelexes(rest: string, parseNum: string -> T.Option<T.Num>)
    ensures T.Lex("{}" + rest, parseNum) == T.Prepend([T.LeftCurlyBracket, T.RightCurlyBracket], T.Lex(rest, parseNum))
    ensures T.Lex("[]" + rest, parseNum) == T.Prepend([T.LeftSquareBracket, T.RightSquareBracket], T.Lex(rest, parseNum))
  {
    var tail := T.Lex(rest, parseNum);
    assert "{}" + rest == ['{'] + [] + (['}'] + rest);
    LexOpen('{', [], ['}'] + rest, parseNum);
    T.LexStructural('}', rest, parseNum);
    T.PrependPrepend([T.LeftCurlyBracket], [T.RightCurlyBracket], tail);
    assert [T.LeftCurlyBracket] + [T.RightCurlyBracket] == [T.LeftCurlyBracket, T.RightCurlyBracket];
    assert "[]" + rest == ['['] + [] + ([']'] + rest);
    LexOpen('[', [], [']'] + rest, parseNum);
    T.LexStructural(']', rest, parseNum);
    T.PrependPrepend([T.LeftSquareBracket], [T.RightSquareBracket], tail);
    assert [T.LeftSquareBracket] + [T.RightSquareBracket] == [T.LeftSquareBracket, T.RightSquareBracket];
  }

  /** The text of a non-empty container, regrouped after its first line. */
  lemma ContainerText(body: string, w: string, rest: string)
    ensures "[\n" + body + "\n" + w + "]" + rest == ['['] + "\n" + (body + ("\n" + w + "]" + rest))
    ensures "{\n" + body + "\n" + w + "}" + rest == ['{'] + "\n" + (body + ("\n" + w + "}" + rest))
  {
    assert "[\n" == ['['] + "\n" && "{\n" == ['{'] + "\n";
  }

  lemma {:induction false} ArrayRelexes(v: JsonValue, k: nat, rest: string, show: T.Num -> string,
                                        parseNum: string -> T.Option<T.Num>, quote: string -> string)
    requires v.Array? && k >= 1 && Relexable(v, show, parseNum, quote)
    requires rest == [] || T.EndsLiteral(rest[0])
    ensures T.Lex(FormatArray(v, k, show, quote) + rest, parseNum)
            == T.Prepend(Serialize(v), T.Lex(rest, parseNum))
    decreases v, 1
  {
    var tail := T.Lex(rest, parseNum);
    if |v.items| == 0 {
      EmptyRelexes(rest, parseNum);
      assert Serialize(v) == [T.LeftSquareBracket, T.RightSquareBracket];
    } else {
      var lines := ItemLines(v, k, show, quote);
      var close := "\n" + Indent(k - 1) + "]" + rest;
      ContainerText(Join(lines, ",\n"), Indent(k - 1), rest);
      LexOpen('[', "\n", Join(lines, ",\n") + close, parseNum);
      assert lines[0..] == lines;
      ItemsRelex(v, k, 0, rest, show, parseNum, quote);
      ArrayShape(v);
      T.PrependPrepend([T.LeftSquareBracket], Serialize(v.items[0]) + ElementsTail(v, 1), tail);
    }
  }

  lemma {:induction false} ItemRelexes(item: JsonValue, k: nat, more: string, show: T.Num -> string,
                                       parseNum: string -> T.Option<T.Num>, quote: string -> string)
    requires k >= 1 && Relexable(item, show, parseNum, quote)
    requires more == [] || T.EndsLiteral(more[0])
    ensures T.Lex(ItemText(item, k, show, quote) + more, parseNum)
            == T.Prepend(Serialize(item), T.Lex(more, parseNum))
    decreases item, 3
  {
    var text := FormatValue(item, k + 1, show, quote);
    assert ItemText(item, k, show, quote) + more == Indent(k) + (text + more);
    T.LexSkipsWhitespace(Indent(k), text + more, parseNum);
    FormatRelexes(item, k + 1, more, show, parseNum, quote);
  }

  /** The separator `",\n"` is a comma, then a newline. */
  lemma CommaText(more: string)
    ensures ",\n" + more == [','] + "\n" + more
  {
  }

  /** An element line, then the `",\n"` that separates it from the next. */
  lemma ItemThenComma(item: JsonValue, k: nat, more: string, show: T.Num -> string,
                      parseNum: string -> T.Option<T.Num>, quote: string -> string)
    requires k >= 1 && Relexable(item, show, parseNum, quote)
    ensures T.Lex(ItemText(item, k, show, quote) + (",\n" + more), parseNum)
            == T.Prepend(Serialize(item) + [T.Comma], T.Lex(more, parseNum))
    decreases item, 4
  {
    ItemRelexes(item, k, ",\n" + more, show, parseNum, quote);
    CommaText(more);
    LexOpen(',', "\n", more, parseNum);
    T.PrependCons(Serialize(item), T.Comma, T.Lex(more, parseNum));
  }

  /** The last element line, then the line that closes the array. */
  lemma ItemThenClose(item: JsonValue, k: nat, rest: string, show: T.Num -> string,
                      parseNum: string -> T.Option<T.Num>, quote: string -> string)
    requires k >= 1 && Relexable(item, show, parseNum, quote)
    requires rest == [] || T.EndsLiteral(rest[0])
    ensures T.Lex(ItemText(item, k, show, quote) + ("\n" + Indent(k - 1) + "]" + rest), parseNum)
            == T.Prepend(Serialize(item) + [T.RightSquareBracket], T.Lex(rest, parseNum))
    decreases item, 4
  {
    ItemRelexes(item, k, "\n" + Indent(k - 1) + "]" + rest, show, parseNum, quote);
    LexClose("\n" + Indent(k - 1), ']', rest, parseNum);
    T.PrependCons(Serialize(item), T.RightSquareBracket, T.Lex(rest, parseNum));
  }

  /** Joined lines from `j` on, regrouped after line `j` and its separator. */
  lemma JoinNext(lines: seq<string>, j: nat, close: string)
    requires j + 1 < |lines|
    ensures Join(lines[j..], ",\n") + close == lines[j] + (",\n" + (Join(lines[j + 1..], ",\n") + close))
  {
    JoinFrom(lines, ",\n", j);
    AppendAssoc(lines[j] + ",\n", Join(lines[j + 1..], ",\n"), close);
    AppendAssoc(lines[j], ",\n", Join(lines[j + 1..], ",\n") + close);
  }

  /** The last element line, then the closing line. */
  lemma ItemsLast(v: JsonValue, k: nat, j: nat, rest: string, show: T.Num -> string,
                  parseNum: string -> T.Option<T.Num>, quote: string -> string)
    requires v.Array? && k >= 1 && j + 1 == |v.items| && Relexable(v, show, parseNum, quote)
    requires rest == [] || T.EndsLiteral(rest[0])
    ensures T.Lex(Join(ItemLines(v, k, show, quote)[j..], ",\n") + ("\n" + Indent(k - 1) + "]" + rest), parseNum)
            == T.Prepend(Serialize(v.items[j]) + ElementsTail(v, j + 1), T.Lex(rest, parseNum))
    decreases v, 0, 0
  {
    var lines := ItemLines(v, k, show, quote);
    var item := v.items[j];
    assert Relexable(item, show, parseNum, quote);
    assert lines[j] == ItemText(item, k, show, quote);
    JoinLast(lines, ",\n");
    ItemThenClose(item, k, rest, show, parseNum, quote);
    assert ElementsTail(v, j + 1) == [T.RightSquareBracket];
  }

  /** An element line and its `",\n"`, before the lines of the elements after it. */
  lemma ItemsNext(v: JsonValue, k: nat, j: nat, rest: string, show: T.Num -> string,
                  parseNum: string -> T.Option<T.Num>, quote: string -> string)
    requires v.Array? && k >= 1 && j + 1 < |v.items| && Relexable(v, show, parseNum, quote)
    requires T.Lex(Join(ItemLines(v, k, show, quote)[j + 1..], ",\n") + ("\n" + Indent(k - 1) + "]" + rest), parseNum)
             == T.Prepend(Serialize(v.items[j + 1]) + ElementsTail(v, j + 2), T.Lex(rest, parseNum))
    ensures T.Lex(Join(ItemLines(v, k, show, quote)[j..], ",\n") + ("\n" + Indent(k - 1) + "]" + rest), parseNum)
            == T.Prepend(Serialize(v.items[j]) + ElementsTail(v, j + 1), T.Lex(rest, parseNum))
    decreases v, 0, 1
  {
    var item := v.items[j];
    var close := "\n" + Indent(k - 1) + "]" + rest;
    ItemLineThenComma(v, k, j, close, show, parseNum, quote);
    var next := Serialize(v.items[j + 1]) + ElementsTail(v, j + 2);
    assert ElementsTail(v, j + 1) == [T.Comma] + next;
    T.PrependPrepend(Serialize(item) + [T.Comma], next, T.Lex(rest, parseNum));
    AppendAssoc(Serialize(item), [T.Comma], next);
  }

  /** Element line `j` of several, and its `",\n"`. */
  lemma ItemLineThenComma(v: JsonValue, k: nat, j: nat, close: string, show: T.Num -> string,
                          parseNum: string -> T.Option<T.Num>, quote: string -> string)
    requires v.Array? && k >= 1 && j + 1 < |v.items| && Relexable(v, show, parseNum, quote)
    ensures var lines := ItemLines(v, k, show, quote);
      T.Lex(Join(lines[j..], ",\n") + close, parseNum)
      == T.Prepend(Serialize(v.items[j]) + [T.Comma], T.Lex(Join(lines[j + 1..], ",\n") + close, parseNum))
    decreases v, 0, 0
  {
    var lines := ItemLines(v, k, show, quote);
    var item := v.items[j];
    assert Relexable(item, show, parseNum, quote);
    assert lines[j] == ItemText(item, k, show, quote);
    JoinNext(lines, j, close);
    ItemThenComma(item, k, Join(lines[j + 1..], ",\n") + close, show, parseNum, quote);
  }

  lemma {:induction false} ItemsRelex(v: JsonValue, k: nat, j: nat, rest: string, show: T.Num -> string,
                                      parseNum: string -> T.Option<T.Num>, quote: string -> string)
    requires v.Array? && k >= 1 && j < |v.items| && Relexable(v, show, parseNum, quote)
    requires rest == [] || T.EndsLiteral(rest[0])
    ensures T.Lex(Join(ItemLines(v, k, show, quote)[j..], ",\n") + ("\n" + Indent(k - 1) + "]" + rest), parseNum)
            == T.Prepend(Serialize(v.items[j]) + ElementsTail(v, j + 1), T.Lex(rest, parseNum))
    decreases v, 0, |v.items| - j
  {
    if j + 1 == |v.items| {
      ItemsLast(v, k, j, rest, show, parseNum, quote);
    } else {
      ItemsRelex(v, k, j + 1, rest, show, parseNum, quote);
      ItemsNext(v, k, j, rest, show, parseNum, quote);
    }
  }


  lemma {:induction false} ObjectRelexes(v: JsonValue, k: nat, rest: string, show: T.Num -> string,
                                         parseNum: string -> T.Option<T.Num>, quote: string -> string)
    requires v.Object? && k >= 1 && Relexable(v, show, parseNum, quote)
    requires rest == [] || T.EndsLiteral(rest[0])
    ensures T.Lex(FormatObject(v, k, show, quote) + rest, parseNum)
            == T.Prepend(Serialize(v), T.Lex(rest, parseNum))
    decreases v, 1
  {
    var tail := T.Lex(rest, parseNum);
    if |v.entries| == 0 {
      EmptyRelexes(rest, parseNum);
      assert Serialize(v) == [T.LeftCurlyBracket, T.RightCurlyBracket];
    } else {
      var lines := EntryLines(v, k, show, quote);
      var close := "\n" + Indent(k - 1) + "}" + rest;
      ContainerText(Join(lines, ",\n"), Indent(k - 1), rest);
      LexOpen('{', "\n", Join(lines, ",\n") + close, parseNum);
      assert lines[0..] == lines;
      EntriesRelex(v, k, 0, rest, show, parseNum, quote);
      ObjectShape(v);
      T.PrependPrepend([T.LeftCurlyBracket], MemberTokens(v.entries[0].0, v.entries[0].1) + MembersTail(v, 1), tail);
    }
  }

  /** The indent, a quoted key that reads back, then `": "`. */
  lemma LexKey(quote: string -> string, key: string, k: nat, after: string, parseNum: string -> T.Option<T.Num>)
    requires ReadsBack(quote, key)
    ensures T.Lex(Indent(k) + "\"" + quote(key) + "\": " + after, parseNum)
            == T.Prepend([T.String(key), T.Colon], T.Lex(after, parseNum))
  {
    var colon := [':'] + " " + after;
    var text := "\"" + quote(key) + "\"" + colon;
    KeyText(Indent(k), quote(key), after);
    T.LexSkipsWhitespace(Indent(k), text, parseNum);
    LexQuotedText(quote, key, colon, parseNum);
    LexOpen(':', " ", after, parseNum);
    T.PrependPrepend([T.String(key)], [T.Colon], T.Lex(after, parseNum));
    assert [T.String(key)] + [T.Colon] == [T.String(key), T.Colon];
  }

  /** The text of a key line, regrouped at its closing quote and colon. */
  lemma KeyText(w: string, q: string, after: string)
    ensures w + "\"" + q + "\": " + after == w + ("\"" + q + "\"" + ([':'] + " " + after))
  {
    assert "\": " == "\"" + [':'] + " ";
  }

  lemma {:induction false} EntryRelexes(key: string, value: JsonValue, k: nat, more: string, show: T.Num -> string,
                                        parseNum: string -> T.Option<T.Num>, quote: string -> string)
    requires k >= 1 && ReadsBack(quote, key) && Relexable(value, show, parseNum, quote)
    requires more == [] || T.EndsLiteral(more[0])
    ensures T.Lex(EntryText(key, value, k, show, quote) + more, parseNum)
            == T.Prepend(MemberTokens(key, value), T.Lex(more, parseNum))
    decreases value, 3
  {
    var text := FormatValue(value, k + 1, show, quote);
    var prefix := Indent(k) + "\"" + quote(key) + "\": ";
    AppendAssoc(prefix, text, more);
    LexKey(quote, key, k, text + more, parseNum);
    FormatRelexes(value, k + 1, more, show, parseNum, quote);
    T.PrependPrepend([T.String(key), T.Colon], Serialize(value), T.Lex(more, parseNum));
  }

  /** A member line, then the `",\n"` that separates it from the next. */
  lemma EntryThenComma(key: string, value: JsonValue, k: nat, more: string, show: T.Num -> string,
                       parseNum: string -> T.Option<T.Num>, quote: string -> string)
    requires k >= 1 && ReadsBack(quote, key) && Relexable(value, show, parseNum, quote)
    ensures T.Lex(EntryText(key, value, k, show, quote) + (",\n" + more), parseNum)
            == T.Prepend(MemberTokens(key, value) + [T.Comma], T.Lex(more, parseNum))
    decreases value, 4
  {
    EntryRelexes(key, value, k, ",\n" + more, show, parseNum, quote);
    CommaText(more);
    LexOpen(',', "\n", more, parseNum);
    T.PrependCons(MemberTokens(key, value), T.Comma, T.Lex(more, parseNum));
  }

  /** The last member line, then the line that closes the object. */
  lemma EntryThenClose(key: string, value: JsonValue, k: nat, rest: string, show: T.Num -> string,
                       parseNum: string -> T.Option<T.Num>, quote: string -> string)
    requires k >= 1 && ReadsBack(quote, key) && Relexable(value, show, parseNum, quote)
    requires rest == [] || T.EndsLiteral(rest[0])
    ensures T.Lex(EntryText(key, value, k, show, quote) + ("\n" + Indent(k - 1) + "}" + rest), parseNum)
            == T.Prepend(MemberTokens(key, value) + [T.RightCurlyBracket], T.Lex(rest, parseNum))
    decreases value, 4
  {
    EntryRelexes(key, value, k, "\n" + Indent(k - 1) + "}" + rest, show, parseNum, quote);
    LexClose("\n" + Indent(k - 1), '}', rest, parseNum);
    T.PrependCons(MemberTokens(key, value), T.RightCurlyBracket, T.Lex(rest, parseNum));
  }

  /** The last member line, then the closing line. */
  lemma EntriesLast(v: JsonValue, k: nat, j: nat, rest: string, show: T.Num -> string,
                    parseNum: string -> T.Option<T.Num>, quote: string -> string)
    requires v.Object? && k >= 1 && j + 1 == |v.entries| && Relexable(v, show, parseNum, quote)
    requires rest == [] || T.EndsLiteral(rest[0])
    ensures T.Lex(Join(EntryLines(v, k, show, quote)[j..], ",\n") + ("\n" + Indent(k - 1) + "}" + rest), parseNum)
            == T.Prepend(MemberTokens(v.entries[j].0, v.entries[j].1) + MembersTail(v, j + 1), T.Lex(rest, parseNum))
    decreases v, 0, 0
  {
    var lines := EntryLines(v, k, show, quote);
    var key, value := v.entries[j].0, v.entries[j].1;
    assert ReadsBack(quote, key) && Relexable(value, show, parseNum, quote);
    assert lines[j] == EntryText(key, value, k, show, quote);
    JoinLast(lines, ",\n");
    EntryThenClose(key, value, k, rest, show, parseNum, quote);
    assert MembersTail(v, j + 1) == [T.RightCurlyBracket];
  }

  /** A member line and its `",\n"`, before the lines of the members after it. */
  lemma EntriesNext(v: JsonValue, k: nat, j: nat, rest: string, show: T.Num -> string,
                    parseNum: string -> T.Option<T.Num>, quote: string -> string)
    requires v.Object? && k >= 1 && j + 1 < |v.entries| && Relexable(v, show, parseNum, quote)
    requires T.Lex(Join(EntryLines(v, k, show, quote)[j + 1..], ",\n") + ("\n" + Indent(k - 1) + "}" + rest), parseNum)
             == T.Prepend(MemberTokens(v.entries[j + 1].0, v.entries[j + 1].1) + MembersTail(v, j + 2), T.Lex(rest, parseNum))
    ensures T.Lex(Join(EntryLines(v, k, show, quote)[j..], ",\n") + ("\n" + Indent(k - 1) + "}" + rest), parseNum)
            == T.Prepend(MemberTokens(v.entries[j].0, v.entries[j].1) + MembersTail(v, j + 1), T.Lex(rest, parseNum))
    decreases v, 0, 1
  {
    var key, value := v.entries[j].0, v.entries[j].1;
    var close := "\n" + Indent(k - 1) + "}" + rest;
    EntryLineThenComma(v, k, j, close, show, parseNum, quote);
    var next := MemberTokens(v.entries[j + 1].0, v.entries[j + 1].1) + MembersTail(v, j + 2);
    assert MembersTail(v, j + 1) == [T.Comma] + next;
    T.PrependPrepend(MemberTokens(key, value) + [T.Comma], next, T.Lex(rest, parseNum));
    AppendAssoc(MemberTokens(key, value), [T.Comma], next);
  }

  /** Member line `j` of several, and its `",\n"`. */
  lemma EntryLineThenComma(v: JsonValue, k: nat, j: nat, close: string, show: T.Num -> string,
                           parseNum: string -> T.Option<T.Num>, quote: string -> string)
    requires v.Object? && k >= 1 && j + 1 < |v.entries| && Relexable(v, show, parseNum, quote)
    ensures var lines := EntryLines(v, k, show, quote);
      T.Lex(Join(lines[j..], ",\n") + close, parseNum)
      == T.Prepend(MemberTokens(v.entries[j].0, v.entries[j].1) + [T.Comma],
                   T.Lex(Join(lines[j + 1..], ",\n") + close, parseNum))
    decreases v, 0, 0
  {
    var lines := EntryLines(v, k, show, quote);
    var key, value := v.entries[j].0, v.entries[j].1;
    assert ReadsBack(quote, key) && Relexable(value, show, parseNum, quote);
    assert lines[j] == EntryText(key, value, k, show, quote);
    JoinNext(lines, j, close);
    EntryThenComma(key, value, k, Join(lines[j + 1..], ",\n") + close, show, parseNum, quote);
  }

  lemma {:induction false} EntriesRelex(v: JsonValue, k: nat, j: nat, rest: string, show: T.Num -> string,
                                        parseNum: string -> T.Option<T.Num>, quote: string -> string)
    requires v.Object? && k >= 1 && j < |v.entries| && Relexable(v, show, parseNum, quote)
    requires rest == [] || T.EndsLiteral(rest[0])
    ensures T.Lex(Join(EntryLines(v, k, show, quote)[j..], ",\n") + ("\n" + Indent(k - 1) + "}" + rest), parseNum)
            == T.Prepend(MemberTokens(v.entries[j].0, v.entries[j].1) + MembersTail(v, j + 1), T.Lex(rest, parseNum))
    decreases v, 0, |v.entries| - j
  {
    if j + 1 == |v.entries| {
      EntriesLast(v, k, j, rest, show, parseNum, quote);
    } else {
      EntriesRelex(v, k, j + 1, rest, show, parseNum, quote);
      EntriesNext(v, k, j, rest, show, parseNum, quote);
    }
  }


  /** The printed text of a value, tokenized, is the value's token
      serialization. */
  lemma FormatTokens(v: JsonValue, k: nat, show: T.Num -> string, parseNum: string -> T.Option<T.Num>,
                     quote: string -> string)
    requires k >= 1 && Relexable(v, show, parseNum, quote)
    ensures T.Lex(FormatValue(v, k, show, quote), parseNum) == T.Ok(Serialize(v))
  {
    FormatRelexes(v, k, [], show, parseNum, quote);
    assert FormatValue(v, k, show, quote) + [] == FormatValue(v, k, show, quote);
    assert Serialize(v) + [] == Serialize(v);
  }

  /** Every number of the value prints as text that parses back to it. */
  ghost predicate NumbersRoundTrip(v: JsonValue, show: T.Num -> string, parseNum: string -> T.Option<T.Num>)
  {
    match v
    case Number(n) => T.NumberRoundTrips(n, show, parseNum)
    case Array(items) => forall i :: 0 <= i < |items| ==> NumbersRoundTrip(items[i], show, parseNum)
    case Object(entries) => forall i :: 0 <= i < |entries| ==> NumbersRoundTrip(entries[i].1, show, parseNum)
    case _ => true
  }

  /** No string and no key of the value holds a quote or a backslash. */
  ghost predicate PlainStrings(v: JsonValue)
  {
    match v
    case String(s) => T.IsPlain(s)
    case Array(items) => forall i :: 0 <= i < |items| ==> PlainStrings(items[i])
    case Object(entries) => forall i :: 0 <= i < |entries| ==> T.IsPlain(entries[i].0) && PlainStrings(entries[i].1)
    case _ => true
  }

  /** The source's printer writes text that reads back when the strings are
      plain and the numbers round-trip. */
  lemma {:induction false} VerbatimRelexable(v: JsonValue, show: T.Num -> string, parseNum: string -> T.Option<T.Num>)
    requires NumbersRoundTrip(v, show, parseNum) && PlainStrings(v)
    ensures Relexable(v, show, parseNum, Verbatim)
  {
    match v
    case String(s) => PlainReadsBack(s);
    case Array(items) =>
      forall i | 0 <= i < |items| ensures Relexable(items[i], show, parseNum, Verbatim) {
        VerbatimRelexable(items[i], show, parseNum);
      }
    case Object(entries) =>
      forall i | 0 <= i < |entries|
        ensures ReadsBack(Verbatim, entries[i].0) && Relexable(entries[i].1, show, parseNum, Verbatim)
      {
        PlainReadsBack(entries[i].0);
        VerbatimRelexable(entries[i].1, show, parseNum);
      }
    case _ =>
  }

  /** The corrected printer writes text that reads back whenever the numbers
      round-trip. */
  lemma {:induction false} EscapedRelexable(v: JsonValue, show: T.Num -> string, parseNum: string -> T.Option<T.Num>)
    requires NumbersRoundTrip(v, show, parseNum)
    ensures Relexable(v, show, parseNum, T.Escape)
  {
    match v
    case String(s) => EscapedReadsBack(s);
    case Array(items) =>
      forall i | 0 <= i < |items| ensures Relexable(items[i], show, parseNum, T.Escape) {
        EscapedRelexable(items[i], show, parseNum);
      }
    case Object(entries) =>
      forall i | 0 <= i < |entries|
        ensures ReadsBack(T.Escape, entries[i].0) && Relexable(entries[i].1, show, parseNum, T.Escape)
      {
        EscapedReadsBack(entries[i].0);
        EscapedRelexable(entries[i].1, show, parseNum);
      }
    case _ =>
  }

  // ---------------------------------------------------------------------
  // Layout

  /** Scalars print the same at every level: `null`, `true`, `false`, the
      number's text, and the string between quotes as the writer gives it
      (the source's writer adds no escapes). */
  lemma FormatScalar(v: JsonValue, k: nat, show: T.Num -> string, quote: string -> string)
    requires k >= 1 && !v.Array? && !v.Object?
    ensures FormatValue(v, k, show, quote) == FormatValue(v, 1, show, quote)
    ensures v.Null? ==> FormatValue(v, k, show, quote) == "null"
    ensures v.Bool? ==> FormatValue(v, k, show, quote) == (if v.b then "true" else "false")
    ensures v.Number? ==> FormatValue(v, k, show, quote) == show(v.n)
    ensures v.String? ==> FormatValue(v, k, show, Verbatim) == "\"" + v.str + "\""
  {
  }

  /** Empty containers print as `{}` and `[]` at every level, on one line. */
  lemma FormatEmpty(k: nat, show: T.Num -> string, quote: string -> string)
    requires k >= 1
    ensures FormatValue(Object([]), k, show, quote) == "{}"
    ensures FormatValue(Array([]), k, show, quote) == "[]"
  {
  }

  /** A non-empty container at level `k` opens with its bracket and a
      newline, and closes on a line of its own indented `k - 1` levels. */
  lemma FormatFrame(v: JsonValue, k: nat, show: T.Num -> string, quote: string -> string)
    requires k >= 1
    requires (v.Array? && v.items != []) || (v.Object? && v.entries != [])
    ensures var r := FormatValue(v, k, show, quote);
      var open, close := if v.Array? then '[' else '{', if v.Array? then ']' else '}';
      |r| >= 2 * k + 2 && r[..2] == [open, '\n'] && r[|r| - 2 * k..] == "\n" + Indent(k - 1) + [close]
  {
    var r := FormatValue(v, k, show, quote);
    var open, close := if v.Array? then '[' else '{', if v.Array? then ']' else '}';
    var body := if v.Array? then Join(ItemLines(v, k, show, quote), ",\n")
                else Join(EntryLines(v, k, show, quote), ",\n");
    var tail := "\n" + Indent(k - 1) + [close];
    if v.Array? {
      assert r == FormatArray(v, k, show, quote);
      assert r == "[\n" + body + "\n" + Indent(k - 1) + "]";
    } else {
      assert r == FormatObject(v, k, show, quote);
      assert r == "{\n" + body + "\n" + Indent(k - 1) + "}";
    }
    assert r == [open, '\n'] + body + tail;
    assert |tail| == 2 * k;
    assert r[|r| - 2 * k..] == tail;
  }

  // ---------------------------------------------------------------------
  // The source's unit tests (formatter.rs:74-237)

  lemma JoinTwo(a: string, b: string, sep: string)
    ensures Join([a, b], sep) == a + sep + b
  {
    assert [a, b][1..] == [b];
  }

  lemma JoinThree(a: string, b: string, c: string, sep: string)
    ensures Join([a, b, c], sep) == a + sep + b + sep + c
  {
    assert [a, b, c][1..] == [b, c];
    JoinTwo(b, c, sep);
  }

  /** An object with two members, at any level. */
  lemma FormatTwoMembers(k1: string, v1: JsonValue, k2: string, v2: JsonValue, level: nat,
                         show: T.Num -> string, quote: string -> string)
    requires level >= 1
    ensures FormatValue(Object([(k1, v1), (k2, v2)]), level, show, quote)
            == "{\n" + EntryText(k1, v1, level, show, quote) + ",\n" + EntryText(k2, v2, level, show, quote)
               + "\n" + Indent(level - 1) + "}"
  {
    var lines := EntryLines(Object([(k1, v1), (k2, v2)]), level, show, quote);
    assert lines == [lines[0], lines[1]];
    JoinTwo(lines[0], lines[1], ",\n");
  }

  /** The indents of the test texts. */
  lemma IndentTexts()
    ensures Indent(0) == "" && Indent(1) == "  " && Indent(2) == "    "
    ensures Indent(3) == "      " && Indent(4) == "        "
  {
  }

  /** A member line, for the source's writer. */
  lemma EntryVerbatim(key: string, value: JsonValue, level: nat, show: T.Num -> string)
    requires level >= 1
    ensures EntryText(key, value, level, show, Verbatim)
            == Indent(level) + "\"" + key + "\": " + FormatValue(value, level + 1, show, Verbatim)
  {
  }

  /* The expected texts of the tests below are the raw strings of the tests,
     written as one parenthesized piece per line (the indent, the quoted key
     and `": "`, then the value) and grouped by nesting. */

  /** The innermost array of `format_object_nested`, at level 3. */
  lemma NestedObjectArray(show: T.Num -> string)
    ensures FormatValue(Array([Bool(true), Bool(false), Null]), 3, show, Verbatim)
            == "[\n" + (("      " + "true") + ",\n" + ("      " + "false") + ",\n" + ("      " + "null"))
               + "\n" + "    " + "]"
  {
    IndentTexts();
    FormatThreeItems(Bool(true), Bool(false), Null, 3, show, Verbatim);
  }

  /** The inner object of `format_object_nested`, at level 2, whatever its
      array prints as. */
  lemma NestedObjectInner(arr: JsonValue, list: string, show: T.Num -> string)
    requires FormatValue(arr, 3, show, Verbatim) == list
    ensures FormatValue(Object([("string", String("hello")), ("array", arr)]), 2, show, Verbatim)
            == "{\n" + ("    " + "\"" + "string" + "\": " + ("\"" + "hello" + "\"")) + ",\n"
               + ("    " + "\"" + "array" + "\": " + list) + "\n" + "  " + "}"
  {
    IndentTexts();
    FormatTwoMembers("string", String("hello"), "array", arr, 2, show, Verbatim);
    EntryVerbatim("string", String("hello"), 2, show);
    EntryVerbatim("array", arr, 2, show);
  }

  /** `format_object_nested` (formatter.rs:117-151), with the number printer
      giving `123.4`. */
  lemma FormatObjectNestedExample(n: T.Num, show: T.Num -> string)
    requires show(n) == "123.4"
    ensures Format(Object([("number", Number(n)),
                           ("object", Object([("string", String("hello")),
                                              ("array", Array([Bool(true), Bool(false), Null]))]))]), show)
            == "{\n" + ("  " + "\"" + "number" + "\": " + "123.4") + ",\n"
               + ("  " + "\"" + "object" + "\": "
                  + ("{\n" + ("    " + "\"" + "string" + "\": " + ("\"" + "hello" + "\"")) + ",\n"
                     + ("    " + "\"" + "array" + "\": "
                        + ("[\n" + (("      " + "true") + ",\n" + ("      " + "false") + ",\n" + ("      " + "null"))
                           + "\n" + "    " + "]"))
                     + "\n" + "  " + "}"))
               + "\n" + "}"
  {
    IndentTexts();
    var arr := Array([Bool(true), Bool(false), Null]);
    var inner := Object([("string", String("hello")), ("array", arr)]);
    NestedObjectArray(show);
    NestedObjectInner(arr, FormatValue(arr, 3, show, Verbatim), show);
    FormatTwoMembers("number", Number(n), "object", inner, 1, show, Verbatim);
    EntryVerbatim("number", Number(n), 1, show);
    EntryVerbatim("object", inner, 1, show);
  }

  /** An object with three members, at any level. */
  lemma FormatThreeMembers(k1: string, v1: JsonValue, k2: string, v2: JsonValue, k3: string, v3: JsonValue,
                           level: nat, show: T.Num -> string, quote: string -> string)
    requires level >= 1
    ensures FormatValue(Object([(k1, v1), (k2, v2), (k3, v3)]), level, show, quote)
            == "{\n" + (EntryText(k1, v1, level, show, quote) + ",\n" + EntryText(k2, v2, level, show, quote)
                         + ",\n" + EntryText(k3, v3, level, show, quote)) + "\n" + Indent(level - 1) + "}"
  {
    var v := Object([(k1, v1), (k2, v2), (k3, v3)]);
    var lines := EntryLines(v, level, show, quote);
    assert lines == [lines[0], lines[1], lines[2]];
    JoinThree(lines[0], lines[1], lines[2], ",\n");
    assert FormatValue(v, level, show, quote) == "{\n" + Join(lines, ",\n") + "\n" + Indent(level - 1) + "}";
  }

  /** An array with two elements, at any level. */
  lemma FormatTwoItems(a: JsonValue, b: JsonValue, level: nat, show: T.Num -> string, quote: string -> string)
    requires level >= 1
    ensures FormatValue(Array([a, b]), level, show, quote)
            == "[\n" + ItemText(a, level, show, quote) + ",\n" + ItemText(b, level, show, quote)
               + "\n" + Indent(level - 1) + "]"
  {
    var lines := ItemLines(Array([a, b]), level, show, quote);
    assert lines == [lines[0], lines[1]];
    JoinTwo(lines[0], lines[1], ",\n");
  }

  /** An array with three elements, at any level. */
  lemma FormatThreeItems(a: JsonValue, b: JsonValue, c: JsonValue, level: nat, show: T.Num -> string,
                         quote: string -> string)
    requires level >= 1
    ensures FormatValue(Array([a, b, c]), level, show, quote)
            == "[\n" + (ItemText(a, level, show, quote) + ",\n" + ItemText(b, level, show, quote)
                         + ",\n" + ItemText(c, level, show, quote)) + "\n" + Indent(level - 1) + "]"
  {
    var v := Array([a, b, c]);
    var lines := ItemLines(v, level, show, quote);
    assert lines == [lines[0], lines[1], lines[2]];
    JoinThree(lines[0], lines[1], lines[2], ",\n");
    assert FormatValue(v, level, show, quote) == "[\n" + Join(lines, ",\n") + "\n" + Indent(level - 1) + "]";
  }

  /** A hobby of `format_array_nested`, at level 4. */
  lemma NestedArrayHobby(name: string, n: T.Num, level: string, show: T.Num -> string)
    requires show(n) == level
    ensures FormatValue(Object([("name", String(name)), ("level", Number(n))]), 4, show, Verbatim)
            == "{\n" + ("        " + "\"" + "name" + "\": " + ("\"" + name + "\"")) + ",\n"
               + ("        " + "\"" + "level" + "\": " + level) + "\n" + "      " + "}"
  {
    IndentTexts();
    FormatTwoMembers("name", String(name), "level", Number(n), 4, show, Verbatim);
    EntryVerbatim("name", String(name), 4, show);
    EntryVerbatim("level", Number(n), 4, show);
  }

  /** The hobby list of a person of `format_array_nested`, at level 3,
      whatever its hobbies print as. */
  lemma NestedArrayHobbies(a: JsonValue, b: JsonValue, ta: string, tb: string, show: T.Num -> string)
    requires FormatValue(a, 4, show, Verbatim) == ta && FormatValue(b, 4, show, Verbatim) == tb
    ensures FormatValue(Array([a, b]), 3, show, Verbatim)
            == "[\n" + ("      " + ta) + ",\n" + ("      " + tb) + "\n" + "    " + "]"
  {
    IndentTexts();
    FormatTwoItems(a, b, 3, show, Verbatim);
  }

  /** A person of `format_array_nested`, at level 2, whatever its hobby list
      prints as. */
  lemma NestedArrayPerson(age: T.Num, name: string, hobbies: JsonValue, list: string, show: T.Num -> string)
    requires FormatValue(hobbies, 3, show, Verbatim) == list
    ensures FormatValue(Object([("age", Number(age)), ("name", String(name)), ("hobbies", hobbies)]), 2, show, Verbatim)
            == "{\n" + (("    " + "\"" + "age" + "\": " + show(age)) + ",\n"
                        + ("    " + "\"" + "name" + "\": " + ("\"" + name + "\"")) + ",\n"
                        + ("    " + "\"" + "hobbies" + "\": " + list))
               + "\n" + "  " + "}"
  {
    IndentTexts();
    FormatThreeMembers("age", Number(age), "name", String(name), "hobbies", hobbies, 2, show, Verbatim);
    EntryVerbatim("age", Number(age), 2, show);
    EntryVerbatim("name", String(name), 2, show);
    EntryVerbatim("hobbies", hobbies, 2, show);
  }

  /** One person of `format_array_nested` (Alice or Bob), at level 2: an age, a
      name and two hobbies, each with a name and a level. */
  lemma NestedArrayMember(age: T.Num, ageText: string, name: string,
                          hobby1: string, level1: T.Num, level1Text: string,
                          hobby2: string, level2: T.Num, level2Text: string,
                          show: T.Num -> string)
    requires show(age) == ageText && show(level1) == level1Text && show(level2) == level2Text
    ensures FormatValue(Object([("age", Number(age)), ("name", String(name)),
                                ("hobbies", Array([Object([("name", String(hobby1)), ("level", Number(level1))]),
                                                   Object([("name", String(hobby2)), ("level", Number(level2))])]))]),
                        2, show, Verbatim)
            == "{\n" + (("    " + "\"" + "age" + "\": " + ageText) + ",\n"
                        + ("    " + "\"" + "name" + "\": " + ("\"" + name + "\"")) + ",\n"
                        + ("    " + "\"" + "hobbies" + "\": "
                           + ("[\n"
                              + ("      " + ("{\n" + ("        " + "\"" + "name" + "\": " + ("\"" + hobby1 + "\"")) + ",\n"
                                            + ("        " + "\"" + "level" + "\": " + level1Text) + "\n" + "      " + "}"))
                              + ",\n"
                              + ("      " + ("{\n" + ("        " + "\"" + "name" + "\": " + ("\"" + hobby2 + "\"")) + ",\n"
                                            + ("        " + "\"" + "level" + "\": " + level2Text) + "\n" + "      " + "}"))
                              + "\n" + "    " + "]")))
               + "\n" + "  " + "}"
  {
    var h1 := Object([("name", String(hobby1)), ("level", Number(level1))]);
    var h2 := Object([("name", String(hobby2)), ("level", Number(level2))]);
    NestedArrayHobby(hobby1, level1, level1Text, show);
    NestedArrayHobby(hobby2, level2, level2Text, show);
    NestedArrayHobbies(h1, h2, FormatValue(h1, 4, show, Verbatim), FormatValue(h2, 4, show, Verbatim), show);
    NestedArrayPerson(age, name, Array([h1, h2]), FormatValue(Array([h1, h2]), 3, show, Verbatim), show);
  }

  /** `format_array_nested` (formatter.rs:153-237), with the number printer
      giving `18`, `24`, `3`, `2` and `1`. */
  lemma FormatArrayNestedExample(n18: T.Num, n24: T.Num, n3: T.Num, n2: T.Num, n1: T.Num, show: T.Num -> string)
    requires show(n18) == "18" && show(n24) == "24" && show(n3) == "3" && show(n2) == "2" && show(n1) == "1"
    ensures var alice := Object([("age", Number(n18)), ("name", String("Alice")),
                                 ("hobbies", Array([Object([("name", String("Reading")), ("level", Number(n3))]),
                                                    Object([("name", String("Swimming")), ("level", Number(n2))])]))]);
            var bob := Object([("age", Number(n24)), ("name", String("Bob")),
                               ("hobbies", Array([Object([("name", String("Running")), ("level", Number(n1))]),
                                                  Object([("name", String("Cycling")), ("level", Number(n2))])]))]);
            Format(Array([String("hello"), alice, bob]), show)
            == "[\n" + (("  " + ("\"" + "hello" + "\"")) + ",\n"
                        + ("  " + ("{\n" + (("    " + "\"" + "age" + "\": " + "18") + ",\n"
                                     + ("    " + "\"" + "name" + "\": " + ("\"" + "Alice" + "\"")) + ",\n"
                                     + ("    " + "\"" + "hobbies" + "\": "
                                        + ("[\n"
                                           + ("      " + ("{\n" + ("        " + "\"" + "name" + "\": " + ("\"" + "Reading" + "\"")) + ",\n"
                                                         + ("        " + "\"" + "level" + "\": " + "3") + "\n" + "      " + "}"))
                                           + ",\n"
                                           + ("      " + ("{\n" + ("        " + "\"" + "name" + "\": " + ("\"" + "Swimming" + "\"")) + ",\n"
                                                         + ("        " + "\"" + "level" + "\": " + "2") + "\n" + "      " + "}"))
                                           + "\n" + "    " + "]")))
                            + "\n" + "  " + "}")) + ",\n"
                        + ("  " + ("{\n" + (("    " + "\"" + "age" + "\": " + "24") + ",\n"
                                     + ("    " + "\"" + "name" + "\": " + ("\"" + "Bob" + "\"")) + ",\n"
                                     + ("    " + "\"" + "hobbies" + "\": "
                                        + ("[\n"
                                           + ("      " + ("{\n" + ("        " + "\"" + "name" + "\": " + ("\"" + "Running" + "\"")) + ",\n"
                                                         + ("        " + "\"" + "level" + "\": " + "1") + "\n" + "      " + "}"))
                                           + ",\n"
                                           + ("      " + ("{\n" + ("        " + "\"" + "name" + "\": " + ("\"" + "Cycling" + "\"")) + ",\n"
                                                         + ("        " + "\"" + "level" + "\": " + "2") + "\n" + "      " + "}"))
                                           + "\n" + "    " + "]")))
                            + "\n" + "  " + "}")))
               + "\n" + "]"
  {
    var alice := Object([("age", Number(n18)), ("name", String("Alice")),
                         ("hobbies", Array([Object([("name", String("Reading")), ("level", Number(n3))]),
                                            Object([("name", String("Swimming")), ("level", Number(n2))])]))]);
    var bob := Object([("age", Number(n24)), ("name", String("Bob")),
                       ("hobbies", Array([Object([("name", String("Running")), ("level", Number(n1))]),
                                          Object([("name", String("Cycling")), ("level", Number(n2))])]))]);
    IndentTexts();
    NestedArrayMember(n18, "18", "Alice", "Reading", n3, "3", "Swimming", n2, "2", show);
    NestedArrayMember(n24, "24", "Bob", "Running", n1, "1", "Cycling", n2, "2", show);
    FormatThreeItems(String("hello"), alice, bob, 1, show, Verbatim);
  }
}
