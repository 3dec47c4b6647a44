/** The syntactic stage (src/parser.rs): recursive descent over the token
    sequence with one token of lookahead, building the value tree.

    The shared `Peekable<Iter<JsonToken>>` cursor of the source is modelled by
    an index `pos` into the token sequence: peeking is `ts[pos]`, consuming is
    moving `pos` on, and every parse returns the value it built together with
    the index after it. The specification functions (`ParseValue`,
    `ParseArray`, `ParseElements`, `ParseObject`, `ParseMembers`,
    `ParseMember`) are recursive definitions; the methods (`ParserValue`,
    `ParserArray`, `ParserObject`, `ParserObjectKeyValue`, `Parse`) are the
    source's functions with their `while` loops, proved equal to them. */
module Parser {
  import T = Tokenizer

  datatype JsonValue =
    | Null
    | Bool(b: bool)
    | Number(n: T.Num)
    | String(str: string)
    | Array(items: seq<JsonValue>)
    | Object(entries: seq<(string, JsonValue)>)

  datatype ParserError = UnexpectedToken(token: T.Token) | UnexpectedEndOfInput

  datatype ParseResult<X> = Ok(value: X) | Err(error: ParserError)

  /** A parse that ended in `Ok` moved the cursor forward and stayed inside
      the tokens. */
  ghost predicate Advances<X>(r: ParseResult<(X, nat)>, ts: seq<T.Token>, pos: nat) {
    r.Ok? ==> pos < r.value.1 <= |ts|
  }

  // ---------------------------------------------------------------------
  // The grammar as recursive definitions. The `decreases` clauses are
  // (tokens left, rank): `ParseValue` hands `[` and `{` on to
  // `ParseArray` and `ParseObject` without consuming anything.

  /** `parser_value` (parser.rs:25-57). */
  function ParseValue(ts: seq<T.Token>, pos: nat): (r: ParseResult<(JsonValue, nat)>)
    requires pos <= |ts|
    ensures Advances(r, ts, pos)
    decreases |ts| - pos, 1
  {
    if pos == |ts| then Err(UnexpectedEndOfInput)
    else match ts[pos]
      case Null => Ok((Null, pos + 1))
      case True => Ok((Bool(true), pos + 1))
      case False => Ok((Bool(false), pos + 1))
      case Number(n) => Ok((Number(n), pos + 1))
      case String(s) => Ok((String(s), pos + 1))
      case LeftSquareBracket => ParseArray(ts, pos)
      case LeftCurlyBracket => ParseObject(ts, pos)
      case _ => Err(UnexpectedToken(ts[pos]))
  }

  /** `parser_array` (parser.rs:132-170): consume the `[` (if there is a
      token), then `]` or a first element, then the rest. */
  function ParseArray(ts: seq<T.Token>, pos: nat): (r: ParseResult<(JsonValue, nat)>)
    requires pos <= |ts|
    ensures Advances(r, ts, pos)
    decreases |ts| - pos, 0
  {
    var p := if pos < |ts| then pos + 1 else pos;
    if p == |ts| then Err(UnexpectedEndOfInput)
    else if ts[p].RightSquareBracket? then Ok((Array([]), p + 1))
    else match ParseValue(ts, p)
      case Err(e) => Err(e)
      case Ok((v, q)) => ParseElements(ts, q, [v])
  }

  /** The `while let` loop of `parser_array` (parser.rs:152-169), with the
      elements read so far in `acc`. */
  function ParseElements(ts: seq<T.Token>, pos: nat, acc: seq<JsonValue>): (r: ParseResult<(JsonValue, nat)>)
    requires pos <= |ts|
    ensures Advances(r, ts, pos)
    decreases |ts| - pos, 2
  {
    if pos == |ts| then Err(UnexpectedEndOfInput)
    else if ts[pos].Comma? then
      match ParseValue(ts, pos + 1)
      case Err(e) => Err(e)
      case Ok((v, q)) => ParseElements(ts, q, acc + [v])
    else if ts[pos].RightSquareBracket? then Ok((Array(acc), pos + 1))
    else Err(UnexpectedToken(ts[pos]))
  }

  /** `parser_object` (parser.rs:59-110): consume the `{` (if there is a
      token), then `}` or a first member, then the rest. */
  function ParseObject(ts: seq<T.Token>, pos: nat): (r: ParseResult<(JsonValue, nat)>)
    requires pos <= |ts|
    ensures Advances(r, ts, pos)
    decreases |ts| - pos, 0
  {
    var p := if pos < |ts| then pos + 1 else pos;
    if p == |ts| then Err(UnexpectedEndOfInput)
    else if ts[p].RightCurlyBracket? then Ok((Object([]), p + 1))
    else if ts[p].String? then
      match ParseMember(ts, p)
      case Err(e) => Err(e)
      case Ok((m, q)) => ParseMembers(ts, q, [m])
    else Err(UnexpectedToken(ts[p]))
  }

  /** The `while let` loop of `parser_object` (parser.rs:82-109), with the
      members read so far in `acc`. A `,` at the very end leaves the loop
      with nothing to peek, which is `UnexpectedEndOfInput`. */
  function ParseMembers(ts: seq<T.Token>, pos: nat, acc: seq<(string, JsonValue)>): (r: ParseResult<(JsonValue, nat)>)
    requires pos <= |ts|
    ensures Advances(r, ts, pos)
    decreases |ts| - pos, 2
  {
    if pos == |ts| then Err(UnexpectedEndOfInput)
    else if ts[pos].Comma? then
      if pos + 1 == |ts| then Err(UnexpectedEndOfInput)
      else if ts[pos + 1].String? then
        match ParseMember(ts, pos + 1)
        case Err(e) => Err(e)
        case Ok((m, q)) => ParseMembers(ts, q, acc + [m])
      else Err(UnexpectedToken(ts[pos + 1]))
    else if ts[pos].RightCurlyBracket? then Ok((Object(acc), pos + 1))
    else Err(UnexpectedToken(ts[pos]))
  }

  /** `parser_object_key_value` (parser.rs:112-130): a String key, a token
      that must be `Colon` (anything else, or nothing, is
      `UnexpectedEndOfInput`), then a value. */
  function ParseMember(ts: seq<T.Token>, pos: nat): (r: ParseResult<((string, JsonValue), nat)>)
    requires pos <= |ts|
    ensures Advances(r, ts, pos)
    decreases |ts| - pos, 0
  {
    if pos == |ts| then Err(UnexpectedEndOfInput)
    else if !ts[pos].String? then Err(UnexpectedToken(ts[pos]))
    else if pos + 1 == |ts| || !ts[pos + 1].Colon? then Err(UnexpectedEndOfInput)
    else match ParseValue(ts, pos + 2)
      case Err(e) => Err(e)
      case Ok((v, q)) => Ok(((ts[pos].s, v), q))
  }

  /** `parser` (parser.rs:20-23): one value from the start of the tokens;
      whatever follows it is not looked at. */
  function Parser(ts: seq<T.Token>): ParseResult<JsonValue>
  {
    match ParseValue(ts, 0)
    case Ok((v, _)) => Ok(v)
    case Err(e) => Err(e)
  }

  // ---------------------------------------------------------------------
  // The source's functions

  /** `parser` (parser.rs:20-23). */
  method Parse(ts: seq<T.Token>) returns (r: ParseResult<JsonValue>)
    ensures r == Parser(ts)
  {
    var p := ParserValue(ts, 0);
    match p
    case Ok((v, _)) => r := Ok(v);
    case Err(e) => r := Err(e);
  }

  /** `parser_value` (parser.rs:25-57). */
  method ParserValue(ts: seq<T.Token>, pos: nat) returns (r: ParseResult<(JsonValue, nat)>)
    requires pos <= |ts|
    ensures r == ParseValue(ts, pos)
    decreases |ts| - pos, 1
  {
    if pos == |ts| {
      return Err(UnexpectedEndOfInput);
    }
    match ts[pos]
    case Null => r := Ok((Null, pos + 1));
    case True => r := Ok((Bool(true), pos + 1));
    case False => r := Ok((Bool(false), pos + 1));
    case Number(n) => r := Ok((Number(n), pos + 1));
    case String(s) => r := Ok((String(s), pos + 1));
    case LeftSquareBracket => r := ParserArray(ts, pos);
    case LeftCurlyBracket => r := ParserObject(ts, pos);
    case _ => r := Err(UnexpectedToken(ts[pos]));
  }

  /** `parser_array` (parser.rs:132-170). */
  method ParserArray(ts: seq<T.Token>, pos: nat) returns (r: ParseResult<(JsonValue, nat)>)
    requires pos <= |ts|
    ensures r == ParseArray(ts, pos)
    decreases |ts| - pos, 0
  {
    var items: seq<JsonValue> := [];
    var p := if pos < |ts| then pos + 1 else pos;
    if p < |ts| {
      if ts[p].RightSquareBracket? {
        return Ok((Array(items), p + 1));
      }
      var first := ParserValue(ts, p);
      match first
      case Err(e) => return Err(e);
      case Ok((v, q)) =>
        assert items + [v] == [v];
        items := items + [v];
        p := q;
    }
    while p < |ts|
      invariant pos <= p <= |ts|
      invariant ParseArray(ts, pos) == ParseElements(ts, p, items)
      decreases |ts| - p
    {
      if ts[p].Comma? {
        var next := ParserValue(ts, p + 1);
        match next
        case Err(e) => return Err(e);
        case Ok((v, q)) =>
          items := items + [v];
          p := q;
      } else if ts[p].RightSquareBracket? {
        return Ok((Array(items), p + 1));
      } else {
        return Err(UnexpectedToken(ts[p]));
      }
    }
    return Err(UnexpectedEndOfInput);
  }

  /** `parser_object` (parser.rs:59-110). */
  method ParserObject(ts: seq<T.Token>, pos: nat) returns (r: ParseResult<(JsonValue, nat)>)
    requires pos <= |ts|
    ensures r == ParseObject(ts, pos)
    decreases |ts| - pos, 0
  {
    var members: seq<(string, JsonValue)> := [];
    var p := if pos < |ts| then pos + 1 else pos;
    if p < |ts| {
      if ts[p].RightCurlyBracket? {
        return Ok((Object(members), p + 1));
      } else if ts[p].String? {
        var first := ParserObjectKeyValue(ts, p);
        match first
        case Err(e) => return Err(e);
        case Ok((m, q)) =>
          assert members + [m] == [m];
          members := members + [m];
          p := q;
      } else {
        return Err(UnexpectedToken(ts[p]));
      }
    }
    while p < |ts|
      invariant pos <= p <= |ts|
      invariant ParseObject(ts, pos) == ParseMembers(ts, p, members)
      decreases |ts| - p
    {
      if ts[p].Comma? {
        p := p + 1;
        if p < |ts| {
          if ts[p].String? {
            var next := ParserObjectKeyValue(ts, p);
            match next
            case Err(e) => return Err(e);
            case Ok((m, q)) =>
              members := members + [m];
              p := q;
          } else {
            return Err(UnexpectedToken(ts[p]));
          }
        }
      } else if ts[p].RightCurlyBracket? {
        return Ok((Object(members), p + 1));
      } else {
        return Err(UnexpectedToken(ts[p]));
      }
    }
    return Err(UnexpectedEndOfInput);
  }

  /** `parser_object_key_value` (parser.rs:112-130). */
  method ParserObjectKeyValue(ts: seq<T.Token>, pos: nat) returns (r: ParseResult<((string, JsonValue), nat)>)
    requires pos <= |ts|
    ensures r == ParseMember(ts, pos)
    decreases |ts| - pos, 0
  {
    if pos == |ts| {
      return Err(UnexpectedEndOfInput);
    }
    if !ts[pos].String? {
      return Err(UnexpectedToken(ts[pos]));
    }
    var key := ts[pos].s;
    if pos + 1 == |ts| || !ts[pos + 1].Colon? {
      return Err(UnexpectedEndOfInput);
    }
    var value := ParserValue(ts, pos + 2);
    match value
    case Err(e) => r := Err(e);
    case Ok((v, q)) => r := Ok(((key, v), q));
  }

  // ---------------------------------------------------------------------
  // The token sequences the grammar accepts

  /** The tokens of a value, with no whitespace: `[` and `{` open, the
      elements or `"key" :` members are separated by `,`, and `]` or `}`
      closes (the array and object grammar of sections 4 and 5 of RFC 8259,
      on tokens). */
  function Serialize(v: JsonValue): seq<T.Token>
    decreases v, 1
  {
    match v
    case Null => [T.Null]
    case Bool(b) => if b then [T.True] else [T.False]
    case Number(n) => [T.Number(n)]
    case String(s) => [T.String(s)]
    case Array(items) =>
      [T.LeftSquareBracket] +
      (if items == [] then [T.RightSquareBracket] else Serialize(items[0]) + ElementsTail(v, 1))
    case Object(entries) =>
      [T.LeftCurlyBracket] +
      (if entries == [] then [T.RightCurlyBracket]
       else MemberTokens(entries[0].0, entries[0].1) + MembersTail(v, 1))
  }

  /** The tokens of one member: the key, a `:`, then the value. */
  function MemberTokens(key: string, value: JsonValue): seq<T.Token>
    decreases value, 2
  {
    [T.String(key), T.Colon] + Serialize(value)
  }

  /** The tokens of the elements from index `j` on, each after a `,`, then
      the closing `]`. */
  function ElementsTail(v: JsonValue, j: nat): seq<T.Token>
    requires v.Array? && j <= |v.items|
    decreases v, 0, |v.items| - j
  {
    if j == |v.items| then [T.RightSquareBracket]
    else [T.Comma] + Serialize(v.items[j]) + ElementsTail(v, j + 1)
  }

  /** The tokens of the members from index `j` on, each after a `,`, then
      the closing `}`. */
  function MembersTail(v: JsonValue, j: nat): seq<T.Token>
    requires v.Object? && j <= |v.entries|
    decreases v, 0, |v.entries| - j
  {
    if j == |v.entries| then [T.RightCurlyBracket]
    else [T.Comma] + MemberTokens(v.entries[j].0, v.entries[j].1) + MembersTail(v, j + 1)
  }

  /** A slice holding `a + b` holds `a` and then `b`. */
  lemma SliceSplit(ts: seq<T.Token>, p: nat, a: seq<T.Token>, b: seq<T.Token>)
    requires p + |a| + |b| <= |ts| && ts[p..p + |a| + |b|] == a + b
    ensures ts[p..p + |a|] == a && ts[p + |a|..p + |a| + |b|] == b
  {
    assert ts[p..p + |a|] == ts[p..p + |a| + |b|][..|a|];
    assert ts[p + |a|..p + |a| + |b|] == ts[p..p + |a| + |b|][|a|..];
  }

  /** A slice holding an opening token, then `a`, then `b`. */
  lemma SliceOpen(ts: seq<T.Token>, p: nat, s: seq<T.Token>, t: T.Token, a: seq<T.Token>, b: seq<T.Token>)
    requires s == [t] + (a + b) && p + |s| <= |ts| && ts[p..p + |s|] == s
    ensures |s| == 1 + |a| + |b|
    ensures ts[p + 1..p + 1 + |a|] == a && ts[p + 1 + |a|..p + 1 + |a| + |b|] == b
    ensures |a| > 0 ==> ts[p + 1] == a[0]
  {
    SliceSplit(ts, p, [t], a + b);
    SliceSplit(ts, p + 1, a, b);
    if |a| > 0 {
      assert ts[p + 1] == ts[p + 1..p + 1 + |a|][0];
    }
  }

  /** A slice is its first token, then two neighbouring slices. */
  lemma SliceCons(ts: seq<T.Token>, p: nat, q1: nat, q: nat)
    requires p < q1 <= q <= |ts|
    ensures ts[p..q] == [ts[p]] + (ts[p + 1..q1] + ts[q1..q])
  {
    assert ts[p..q] == [ts[p]] + ts[p + 1..q];
    assert ts[p + 1..q] == ts[p + 1..q1] + ts[q1..q];
  }

  /** Neighbouring slices join. */
  lemma SliceJoin(ts: seq<T.Token>, a: nat, b: nat, c: nat)
    requires a <= b <= c <= |ts|
    ensures ts[a..b] + ts[b..c] == ts[a..c]
  {
  }

  // ---------------------------------------------------------------------
  // Completeness: the tokens of a value parse back to it

  lemma {:induction false} ParseValueComplete(v: JsonValue, ts: seq<T.Token>, p: nat)
    requires p + |Serialize(v)| <= |ts| && ts[p..p + |Serialize(v)|] == Serialize(v)
    ensures ParseValue(ts, p) == Ok((v, p + |Serialize(v)|))
    decreases v, 1
  {
    assert ts[p] == ts[p..p + |Serialize(v)|][0];
    match v
    case Array(_) => ArrayComplete(v, ts, p);
    case Object(_) => ObjectComplete(v, ts, p);
    case _ =>
  }

  /** The tokens of a non-empty array: `[`, the first element, the rest. */
  lemma ArrayShape(v: JsonValue)
    requires v.Array? && v.items != []
    ensures Serialize(v) == [T.LeftSquareBracket] + (Serialize(v.items[0]) + ElementsTail(v, 1))
  {
  }

  /** The tokens of a non-empty object: `{`, the first member, the rest. */
  lemma ObjectShape(v: JsonValue)
    requires v.Object? && v.entries != []
    ensures Serialize(v) == [T.LeftCurlyBracket] + (MemberTokens(v.entries[0].0, v.entries[0].1) + MembersTail(v, 1))
    ensures MemberTokens(v.entries[0].0, v.entries[0].1)[0] == T.String(v.entries[0].0)
  {
  }

  /** A `[` and a first value in `parser_array`. */
  lemma ArrayStep(ts: seq<T.Token>, p: nat, x: JsonValue, q: nat)
    requires p + 1 < |ts| && !ts[p + 1].RightSquareBracket? && ParseValue(ts, p + 1) == Ok((x, q))
    ensures ParseArray(ts, p) == ParseElements(ts, q, [x])
  {
  }

  /** The tokens of a non-empty array, in place at `p`: a `[`, the first
      element's tokens, then the rest. */
  lemma ArraySplit(v: JsonValue, ts: seq<T.Token>, p: nat)
    requires v.Array? && v.items != []
    requires p + |Serialize(v)| <= |ts| && ts[p..p + |Serialize(v)|] == Serialize(v)
    ensures var first, rest := Serialize(v.items[0]), ElementsTail(v, 1);
      |Serialize(v)| == 1 + |first| + |rest| && !ts[p + 1].RightSquareBracket? &&
      ts[p + 1..p + 1 + |first|] == first && ts[p + 1 + |first|..p + 1 + |first| + |rest|] == rest
  {
    var first, rest := Serialize(v.items[0]), ElementsTail(v, 1);
    ArrayShape(v);
    SerializeStart(v.items[0]);
    SliceOpen(ts, p, Serialize(v), T.LeftSquareBracket, first, rest);
  }

  lemma {:induction false} ArrayComplete(v: JsonValue, ts: seq<T.Token>, p: nat)
    requires v.Array?
    requires p + |Serialize(v)| <= |ts| && ts[p..p + |Serialize(v)|] == Serialize(v)
    ensures ParseArray(ts, p) == Ok((v, p + |Serialize(v)|))
    decreases v, 0, |v.items| + 1
  {
    var items := v.items;
    if items != [] {
      var first := Serialize(items[0]);
      ArraySplit(v, ts, p);
      var q := p + 1 + |first|;
      ParseValueComplete(items[0], ts, p + 1);
      ArrayStep(ts, p, items[0], q);
      assert items[..1] == [items[0]];
      ElementsComplete(v, 1, ts, q);
    } else {
      assert ts[p + 1] == ts[p..p + |Serialize(v)|][1];
    }
  }

  /** A `{` and a first member in `parser_object`. */
  lemma ObjectStep(ts: seq<T.Token>, p: nat, m: (string, JsonValue), q: nat)
    requires p + 1 < |ts| && ts[p + 1].String? && ParseMember(ts, p + 1) == Ok((m, q))
    ensures ParseObject(ts, p) == ParseMembers(ts, q, [m])
  {
  }

  /** The tokens of a non-empty object, in place at `p`: a `{`, the first
      member's tokens, then the rest. */
  lemma ObjectSplit(v: JsonValue, ts: seq<T.Token>, p: nat)
    requires v.Object? && v.entries != []
    requires p + |Serialize(v)| <= |ts| && ts[p..p + |Serialize(v)|] == Serialize(v)
    ensures var first, rest := MemberTokens(v.entries[0].0, v.entries[0].1), MembersTail(v, 1);
      |Serialize(v)| == 1 + |first| + |rest| && ts[p + 1] == T.String(v.entries[0].0) &&
      ts[p + 1..p + 1 + |first|] == first && ts[p + 1 + |first|..p + 1 + |first| + |rest|] == rest
  {
    var first, rest := MemberTokens(v.entries[0].0, v.entries[0].1), MembersTail(v, 1);
    ObjectShape(v);
    SliceOpen(ts, p, Serialize(v), T.LeftCurlyBracket, first, rest);
  }

  lemma {:induction false} ObjectComplete(v: JsonValue, ts: seq<T.Token>, p: nat)
    requires v.Object?
    requires p + |Serialize(v)| <= |ts| && ts[p..p + |Serialize(v)|] == Serialize(v)
    ensures ParseObject(ts, p) == Ok((v, p + |Serialize(v)|))
    decreases v, 0, |v.entries| + 1
  {
    var entries := v.entries;
    if entries != [] {
      var (key, value) := entries[0];
      var first := MemberTokens(key, value);
      ObjectSplit(v, ts, p);
      var q := p + 1 + |first|;
      MemberComplete(key, value, ts, p + 1);
      ObjectStep(ts, p, (key, value), q);
      assert entries[..1] == [(key, value)];
      MembersComplete(v, 1, ts, q);
    } else {
      assert ts[p + 1] == ts[p..p + |Serialize(v)|][1];
    }
  }

  lemma {:induction false} MemberComplete(key: string, value: JsonValue, ts: seq<T.Token>, p: nat)
    requires p + |MemberTokens(key, value)| <= |ts|
    requires ts[p..p + |MemberTokens(key, value)|] == MemberTokens(key, value)
    ensures ParseMember(ts, p) == Ok(((key, value), p + |MemberTokens(key, value)|))
    decreases value, 2
  {
    var n := |MemberTokens(key, value)|;
    SliceSplit(ts, p, [T.String(key), T.Colon], Serialize(value));
    assert ts[p] == ts[p..p + 2][0] && ts[p + 1] == ts[p..p + 2][1];
    ParseValueComplete(value, ts, p + 2);
  }

  /** A `,` and a value in the loop of `parser_array`. */
  lemma ElementsStep(ts: seq<T.Token>, p: nat, acc: seq<JsonValue>, x: JsonValue, q: nat)
    requires p < |ts| && ts[p].Comma? && ParseValue(ts, p + 1) == Ok((x, q))
    ensures ParseElements(ts, p, acc) == ParseElements(ts, q, acc + [x])
  {
  }

  /** The tokens after element `j - 1`, in place at `p`: a `,`, the
      element's tokens, then the rest. */
  lemma ElementsTailSplit(v: JsonValue, j: nat, ts: seq<T.Token>, p: nat)
    requires v.Array? && j < |v.items|
    requires p + |ElementsTail(v, j)| <= |ts| && ts[p..p + |ElementsTail(v, j)|] == ElementsTail(v, j)
    ensures var item, rest := Serialize(v.items[j]), ElementsTail(v, j + 1);
      |ElementsTail(v, j)| == 1 + |item| + |rest| && ts[p].Comma? &&
      ts[p + 1..p + 1 + |item|] == item && ts[p + 1 + |item|..p + 1 + |item| + |rest|] == rest
  {
    var item, rest := Serialize(v.items[j]), ElementsTail(v, j + 1);
    assert ElementsTail(v, j) == [T.Comma] + (item + rest);
    SliceSplit(ts, p, [T.Comma], item + rest);
    SliceSplit(ts, p + 1, item, rest);
  }

  lemma {:induction false} ElementsComplete(v: JsonValue, j: nat, ts: seq<T.Token>, p: nat)
    requires v.Array? && j <= |v.items|
    requires p + |ElementsTail(v, j)| <= |ts| && ts[p..p + |ElementsTail(v, j)|] == ElementsTail(v, j)
    ensures ParseElements(ts, p, v.items[..j]) == Ok((v, p + |ElementsTail(v, j)|))
    decreases v, 0, |v.items| - j
  {
    if j == |v.items| {
      assert ts[p] == ts[p..p + 1][0];
      assert v.items[..j] == v.items;
    } else {
      var item := Serialize(v.items[j]);
      ElementsTailSplit(v, j, ts, p);
      var q := p + 1 + |item|;
      ParseValueComplete(v.items[j], ts, p + 1);
      ElementsStep(ts, p, v.items[..j], v.items[j], q);
      assert v.items[..j] + [v.items[j]] == v.items[..j + 1];
      ElementsComplete(v, j + 1, ts, q);
    }
  }

  /** A `,` and a member in the loop of `parser_object`. */
  lemma MembersStep(ts: seq<T.Token>, p: nat, acc: seq<(string, JsonValue)>, m: (string, JsonValue), q: nat)
    requires p + 1 < |ts| && ts[p].Comma? && ts[p + 1].String? && ParseMember(ts, p + 1) == Ok((m, q))
    ensures ParseMembers(ts, p, acc) == ParseMembers(ts, q, acc + [m])
  {
  }

  /** The tokens after member `j - 1`, in place at `p`: a `,`, the member's
      tokens, then the rest. */
  lemma MembersTailSplit(v: JsonValue, j: nat, ts: seq<T.Token>, p: nat)
    requires v.Object? && j < |v.entries|
    requires p + |MembersTail(v, j)| <= |ts| && ts[p..p + |MembersTail(v, j)|] == MembersTail(v, j)
    ensures var item, rest := MemberTokens(v.entries[j].0, v.entries[j].1), MembersTail(v, j + 1);
      |MembersTail(v, j)| == 1 + |item| + |rest| && ts[p].Comma? && ts[p + 1] == T.String(v.entries[j].0) &&
      ts[p + 1..p + 1 + |item|] == item && ts[p + 1 + |item|..p + 1 + |item| + |rest|] == rest
  {
    var item, rest := MemberTokens(v.entries[j].0, v.entries[j].1), MembersTail(v, j + 1);
    assert MembersTail(v, j) == [T.Comma] + (item + rest);
    SliceSplit(ts, p, [T.Comma], item + rest);
    SliceSplit(ts, p + 1, item, rest);
    assert ts[p + 1] == ts[p + 1..p + 1 + |item|][0];
  }

  lemma {:induction false} MembersComplete(v: JsonValue, j: nat, ts: seq<T.Token>, p: nat)
    requires v.Object? && j <= |v.entries|
    requires p + |MembersTail(v, j)| <= |ts| && ts[p..p + |MembersTail(v, j)|] == MembersTail(v, j)
    ensures ParseMembers(ts, p, v.entries[..j]) == Ok((v, p + |MembersTail(v, j)|))
    decreases v, 0, |v.entries| - j
  {
    if j == |v.entries| {
      assert ts[p] == ts[p..p + 1][0];
      assert v.entries[..j] == v.entries;
    } else {
      var (key, value) := v.entries[j];
      var item := MemberTokens(key, value);
      MembersTailSplit(v, j, ts, p);
      var q := p + 1 + |item|;
      MemberComplete(key, value, ts, p + 1);
      MembersStep(ts, p, v.entries[..j], (key, value), q);
      assert v.entries[..j] + [(key, value)] == v.entries[..j + 1];
      MembersComplete(v, j + 1, ts, q);
    }
  }

  // ---------------------------------------------------------------------
  // Soundness: whatever parses is the tokens of the value built

  lemma {:induction false} ParseValueSound(ts: seq<T.Token>, p: nat)
    requires p <= |ts| && ParseValue(ts, p).Ok?
    ensures ts[p..ParseValue(ts, p).value.1] == Serialize(ParseValue(ts, p).value.0)
    decreases |ts| - p, 1
  {
    if ts[p].LeftSquareBracket? {
      ArraySound(ts, p);
    } else if ts[p].LeftCurlyBracket? {
      ObjectSound(ts, p);
    } else {
      assert ts[p..p + 1] == [ts[p]];
    }
  }

  lemma {:induction false} ArraySound(ts: seq<T.Token>, p: nat)
    requires p < |ts| && ts[p].LeftSquareBracket? && ParseArray(ts, p).Ok?
    ensures ts[p..ParseArray(ts, p).value.1] == Serialize(ParseArray(ts, p).value.0)
    decreases |ts| - p, 0
  {
    var (v, q) := ParseArray(ts, p).value;
    if ts[p + 1].RightSquareBracket? {
      assert ts[p..q] == [ts[p], ts[p + 1]];
    } else {
      var (w, q1) := ParseValue(ts, p + 1).value;
      ArrayStep(ts, p, w, q1);
      ParseValueSound(ts, p + 1);
      ElementsSound(ts, q1, [w]);
      assert v.items[0] == [w][0];
      ArrayShape(v);
      SliceCons(ts, p, q1, q);
    }
  }

  lemma {:induction false} ElementsSound(ts: seq<T.Token>, p: nat, acc: seq<JsonValue>)
    requires p <= |ts| && ParseElements(ts, p, acc).Ok?
    ensures var (v, q) := ParseElements(ts, p, acc).value;
      v.Array? && |acc| <= |v.items| && v.items[..|acc|] == acc &&
      ts[p..q] == ElementsTail(v, |acc|)
    decreases |ts| - p, 2
  {
    var (v, q) := ParseElements(ts, p, acc).value;
    if ts[p].Comma? {
      var (w, q1) := ParseValue(ts, p + 1).value;
      ParseValueSound(ts, p + 1);
      ElementsSound(ts, q1, acc + [w]);
      assert v.items[..|acc|] == (acc + [w])[..|acc|] == acc;
      assert v.items[|acc|] == (acc + [w])[|acc|] == w;
      SliceJoin(ts, p, p + 1, q1);
      SliceJoin(ts, p, q1, q);
      assert ts[p..p + 1] == [T.Comma];
      assert ts[p..q] == [T.Comma] + Serialize(w) + ElementsTail(v, |acc| + 1);
    } else {
      assert v.items[..|acc|] == acc;
      assert ts[p..q] == [ts[p]];
    }
  }

  lemma {:induction false} ObjectSound(ts: seq<T.Token>, p: nat)
    requires p < |ts| && ts[p].LeftCurlyBracket? && ParseObject(ts, p).Ok?
    ensures ts[p..ParseObject(ts, p).value.1] == Serialize(ParseObject(ts, p).value.0)
    decreases |ts| - p, 0
  {
    var (v, q) := ParseObject(ts, p).value;
    if ts[p + 1].RightCurlyBracket? {
      assert ts[p..q] == [ts[p], ts[p + 1]];
    } else {
      var ((key, value), q1) := ParseMember(ts, p + 1).value;
      ObjectStep(ts, p, (key, value), q1);
      MemberSound(ts, p + 1);
      MembersSound(ts, q1, [(key, value)]);
      assert v.entries[0] == [(key, value)][0];
      ObjectShape(v);
      SliceCons(ts, p, q1, q);
    }
  }

  lemma {:induction false} MemberSound(ts: seq<T.Token>, p: nat)
    requires p <= |ts| && ParseMember(ts, p).Ok?
    ensures var ((key, value), q) := ParseMember(ts, p).value;
      ts[p..q] == MemberTokens(key, value)
    decreases |ts| - p, 0
  {
    var ((key, value), q) := ParseMember(ts, p).value;
    ParseValueSound(ts, p + 2);
    SliceJoin(ts, p, p + 2, q);
    assert ts[p..p + 2] == [T.String(key), T.Colon];
  }

  lemma {:induction false} MembersSound(ts: seq<T.Token>, p: nat, acc: seq<(string, JsonValue)>)
    requires p <= |ts| && ParseMembers(ts, p, acc).Ok?
    ensures var (v, q) := ParseMembers(ts, p, acc).value;
      v.Object? && |acc| <= |v.entries| && v.entries[..|acc|] == acc &&
      ts[p..q] == MembersTail(v, |acc|)
    decreases |ts| - p, 2
  {
    var (v, q) := ParseMembers(ts, p, acc).value;
    if ts[p].Comma? {
      var ((key, value), q1) := ParseMember(ts, p + 1).value;
      MemberSound(ts, p + 1);
      MembersSound(ts, q1, acc + [(key, value)]);
      assert v.entries[..|acc|] == (acc + [(key, value)])[..|acc|] == acc;
      assert v.entries[|acc|] == (acc + [(key, value)])[|acc|] == (key, value);
      SliceJoin(ts, p, p + 1, q1);
      SliceJoin(ts, p, q1, q);
      assert ts[p..p + 1] == [T.Comma];
      assert ts[p..q] == [T.Comma] + MemberTokens(key, value) + MembersTail(v, |acc| + 1);
    } else {
      assert v.entries[..|acc|] == acc;
      assert ts[p..q] == [ts[p]];
    }
  }

  // ---------------------------------------------------------------------
  // The grammar, both ways

  /** A value is parsed from `p` to `q` exactly when the tokens between are
      its serialization: the parser accepts the grammar and nothing else,
      and builds the value the tokens spell. */
  lemma ParseValueIff(ts: seq<T.Token>, p: nat, v: JsonValue, q: nat)
    requires p <= q <= |ts|
    ensures ParseValue(ts, p) == Ok((v, q)) <==> ts[p..q] == Serialize(v)
  {
    if ParseValue(ts, p) == Ok((v, q)) {
      ParseValueSound(ts, p);
    }
    if ts[p..q] == Serialize(v) {
      ParseValueComplete(v, ts, p);
    }
  }

  /** Different values have different tokens. */
  lemma SerializeInjective(v: JsonValue, w: JsonValue)
    requires Serialize(v) == Serialize(w)
    ensures v == w
  {
    var ts := Serialize(v);
    assert ts[0..|ts|] == ts;
    ParseValueComplete(v, ts, 0);
    ParseValueComplete(w, ts, 0);
  }

  /** `parser` reads one value and never checks that the tokens ended: the
      tokens of a value, followed by anything at all, parse to that value. */
  lemma ParserIgnoresTrailingTokens(v: JsonValue, extra: seq<T.Token>)
    ensures Parser(Serialize(v) + extra) == Ok(v)
  {
    var ts := Serialize(v) + extra;
    assert ts[0..|Serialize(v)|] == Serialize(v);
    ParseValueComplete(v, ts, 0);
  }

  /** `parser` inverts the token serialization. */
  lemma ParserSerialized(v: JsonValue)
    ensures Parser(Serialize(v)) == Ok(v)
  {
    ParserIgnoresTrailingTokens(v, []);
    assert Serialize(v) + [] == Serialize(v);
  }

  /** Appending tokens after a successful parse does not change its result. */
  lemma ParserPrefixStable(ts: seq<T.Token>, extra: seq<T.Token>)
    requires Parser(ts).Ok?
    ensures Parser(ts + extra) == Parser(ts)
  {
    var (v, q) := ParseValue(ts, 0).value;
    ParseValueSound(ts, 0);
    assert (ts + extra)[0..q] == ts[0..q];
    ParseValueComplete(v, ts + extra, 0);
  }

  // ---------------------------------------------------------------------
  // Running out of tokens

  /** The tokens from `p` to the end are a proper prefix of `x`. */
  ghost predicate CutShort(ts: seq<T.Token>, p: nat, x: seq<T.Token>) {
    p <= |ts| && |ts| - p < |x| && ts[p..] == x[..|ts| - p]
  }

  /** Cutting `a + b` short either cuts `a` short, or leaves all of `a` and
      cuts `b` short. */
  lemma CutShortSplit(ts: seq<T.Token>, p: nat, a: seq<T.Token>, b: seq<T.Token>)
    requires CutShort(ts, p, a + b)
    ensures |ts| - p < |a| ==> CutShort(ts, p, a)
    ensures |ts| - p >= |a| ==> ts[p..p + |a|] == a && CutShort(ts, p + |a|, b)
  {
    var m := |ts| - p;
    if m < |a| {
      assert (a + b)[..m] == a[..m];
    } else {
      assert ts[p..p + |a|] == ts[p..][..|a|] == (a + b)[..m][..|a|] == a;
      assert ts[p + |a|..] == ts[p..][|a|..] == (a + b)[..m][|a|..] == b[..m - |a|];
    }
  }

  /** Every serialization starts with a token that starts a value. */
  lemma SerializeStart(v: JsonValue)
    ensures |Serialize(v)| > 0
    ensures var t := Serialize(v)[0];
      !t.RightSquareBracket? && !t.RightCurlyBracket? && !t.Comma? && !t.Colon?
  {
  }

  /** Tokens that stop before a value is complete are `UnexpectedEndOfInput`:
      every proper prefix of a value's tokens is. */
  lemma {:induction false} ParseValueCutShort(v: JsonValue, ts: seq<T.Token>, p: nat)
    requires CutShort(ts, p, Serialize(v))
    ensures ParseValue(ts, p) == Err(UnexpectedEndOfInput)
    decreases v, 1
  {
    if p < |ts| {
      assert ts[p] == ts[p..][0] == Serialize(v)[0];
      match v
      case Array(_) => ArrayCutShort(v, ts, p);
      case Object(_) => ObjectCutShort(v, ts, p);
      case _ =>
    }
  }

  /** A `[` followed by a value that fails in `parser_array`. */
  lemma ArrayStepFails(ts: seq<T.Token>, p: nat)
    requires p + 1 < |ts| && !ts[p + 1].RightSquareBracket? && ParseValue(ts, p + 1).Err?
    ensures ParseArray(ts, p) == Err(ParseValue(ts, p + 1).error)
  {
  }

  /** The tokens of a non-empty array cut short after its `[`. */
  lemma ArrayCutSplit(v: JsonValue, ts: seq<T.Token>, p: nat)
    requires v.Array? && p + 1 < |ts| && CutShort(ts, p, Serialize(v))
    ensures v.items != [] && !ts[p + 1].RightSquareBracket?
    ensures var first, rest := Serialize(v.items[0]), ElementsTail(v, 1);
      (|ts| - (p + 1) < |first| ==> CutShort(ts, p + 1, first)) &&
      (|ts| - (p + 1) >= |first| ==> ts[p + 1..p + 1 + |first|] == first && CutShort(ts, p + 1 + |first|, rest))
  {
    assert v.items != [];
    var first, rest := Serialize(v.items[0]), ElementsTail(v, 1);
    ArrayShape(v);
    CutShortSplit(ts, p, [T.LeftSquareBracket], first + rest);
    CutShortSplit(ts, p + 1, first, rest);
    SerializeStart(v.items[0]);
    assert ts[p + 1] == ts[p + 1..][0] == first[0];
  }

  lemma {:induction false} ArrayCutShort(v: JsonValue, ts: seq<T.Token>, p: nat)
    requires v.Array? && p < |ts| && CutShort(ts, p, Serialize(v))
    ensures ParseArray(ts, p) == Err(UnexpectedEndOfInput)
    decreases v, 0, |v.items| + 1
  {
    if p + 1 < |ts| {
      ArrayCutSplit(v, ts, p);
      if |ts| - (p + 1) < |Serialize(v.items[0])| {
        ParseValueCutShort(v.items[0], ts, p + 1);
        ArrayStepFails(ts, p);
      } else {
        ArrayCutLater(v, ts, p);
      }
    }
  }

  /** The array's tokens cut short after its first element. */
  lemma {:induction false} ArrayCutLater(v: JsonValue, ts: seq<T.Token>, p: nat)
    requires v.Array? && v.items != [] && p + 1 < |ts| && !ts[p + 1].RightSquareBracket?
    requires var first := Serialize(v.items[0]);
      p + 1 + |first| <= |ts| && ts[p + 1..p + 1 + |first|] == first &&
      CutShort(ts, p + 1 + |first|, ElementsTail(v, 1))
    ensures ParseArray(ts, p) == Err(UnexpectedEndOfInput)
    decreases v, 0, |v.items|
  {
    var first := Serialize(v.items[0]);
    ParseValueComplete(v.items[0], ts, p + 1);
    ArrayStep(ts, p, v.items[0], p + 1 + |first|);
    ElementsCutShort(v, 1, ts, p + 1 + |first|, [v.items[0]]);
  }

  /** A `,` followed by a value that fails in the loop of `parser_array`. */
  lemma ElementsStepFails(ts: seq<T.Token>, p: nat, acc: seq<JsonValue>)
    requires p < |ts| && ts[p].Comma? && ParseValue(ts, p + 1).Err?
    ensures ParseElements(ts, p, acc) == Err(ParseValue(ts, p + 1).error)
  {
  }

  /** The tokens after element `j - 1` cut short, with at least one left. */
  lemma ElementsCutSplit(v: JsonValue, j: nat, ts: seq<T.Token>, p: nat)
    requires v.Array? && j <= |v.items| && p < |ts| && CutShort(ts, p, ElementsTail(v, j))
    ensures j < |v.items| && ts[p].Comma?
    ensures var item, rest := Serialize(v.items[j]), ElementsTail(v, j + 1);
      (|ts| - (p + 1) < |item| ==> CutShort(ts, p + 1, item)) &&
      (|ts| - (p + 1) >= |item| ==> ts[p + 1..p + 1 + |item|] == item && CutShort(ts, p + 1 + |item|, rest))
  {
    assert j < |v.items|;
    var item, rest := Serialize(v.items[j]), ElementsTail(v, j + 1);
    assert ElementsTail(v, j) == [T.Comma] + (item + rest);
    CutShortSplit(ts, p, [T.Comma], item + rest);
    CutShortSplit(ts, p + 1, item, rest);
  }

  lemma {:induction false} ElementsCutShort(v: JsonValue, j: nat, ts: seq<T.Token>, p: nat, acc: seq<JsonValue>)
    requires v.Array? && j <= |v.items| && CutShort(ts, p, ElementsTail(v, j))
    ensures ParseElements(ts, p, acc) == Err(UnexpectedEndOfInput)
    decreases v, 0, |v.items| - j
  {
    if p < |ts| {
      ElementsCutSplit(v, j, ts, p);
      var item := Serialize(v.items[j]);
      if |ts| - (p + 1) < |item| {
        ParseValueCutShort(v.items[j], ts, p + 1);
        ElementsStepFails(ts, p, acc);
      } else {
        ParseValueComplete(v.items[j], ts, p + 1);
        ElementsStep(ts, p, acc, v.items[j], p + 1 + |item|);
        ElementsCutShort(v, j + 1, ts, p + 1 + |item|, acc + [v.items[j]]);
      }
    }
  }

  /** A `{` followed by a member that fails in `parser_object`. */
  lemma ObjectStepFails(ts: seq<T.Token>, p: nat)
    requires p + 1 < |ts| && ts[p + 1].String? && ParseMember(ts, p + 1).Err?
    ensures ParseObject(ts, p) == Err(ParseMember(ts, p + 1).error)
  {
  }

  /** The tokens of a non-empty object cut short after its `{`. */
  lemma ObjectCutSplit(v: JsonValue, ts: seq<T.Token>, p: nat)
    requires v.Object? && p + 1 < |ts| && CutShort(ts, p, Serialize(v))
    ensures v.entries != [] && ts[p + 1] == T.String(v.entries[0].0)
    ensures var first, rest := MemberTokens(v.entries[0].0, v.entries[0].1), MembersTail(v, 1);
      (|ts| - (p + 1) < |first| ==> CutShort(ts, p + 1, first)) &&
      (|ts| - (p + 1) >= |first| ==> ts[p + 1..p + 1 + |first|] == first && CutShort(ts, p + 1 + |first|, rest))
  {
    assert v.entries != [];
    var first, rest := MemberTokens(v.entries[0].0, v.entries[0].1), MembersTail(v, 1);
    ObjectShape(v);
    CutShortSplit(ts, p, [T.LeftCurlyBracket], first + rest);
    CutShortSplit(ts, p + 1, first, rest);
    assert ts[p + 1] == ts[p + 1..][0] == first[0];
  }

  lemma {:induction false} ObjectCutShort(v: JsonValue, ts: seq<T.Token>, p: nat)
    requires v.Object? && p < |ts| && CutShort(ts, p, Serialize(v))
    ensures ParseObject(ts, p) == Err(UnexpectedEndOfInput)
    decreases v, 0, |v.entries| + 1
  {
    if p + 1 < |ts| {
      ObjectCutSplit(v, ts, p);
      var (key, value) := v.entries[0];
      if |ts| - (p + 1) < |MemberTokens(key, value)| {
        MemberCutShort(key, value, ts, p + 1);
        ObjectStepFails(ts, p);
      } else {
        ObjectCutLater(v, ts, p);
      }
    }
  }

  /** The object's tokens cut short after its first member. */
  lemma {:induction false} ObjectCutLater(v: JsonValue, ts: seq<T.Token>, p: nat)
    requires v.Object? && v.entries != [] && p + 1 < |ts| && ts[p + 1].String?
    requires var first := MemberTokens(v.entries[0].0, v.entries[0].1);
      p + 1 + |first| <= |ts| && ts[p + 1..p + 1 + |first|] == first &&
      CutShort(ts, p + 1 + |first|, MembersTail(v, 1))
    ensures ParseObject(ts, p) == Err(UnexpectedEndOfInput)
    decreases v, 0, |v.entries|
  {
    var (key, value) := v.entries[0];
    var first := MemberTokens(key, value);
    MemberComplete(key, value, ts, p + 1);
    ObjectStep(ts, p, (key, value), p + 1 + |first|);
    MembersCutShort(v, 1, ts, p + 1 + |first|, [(key, value)]);
  }

  lemma {:induction false} MemberCutShort(key: string, value: JsonValue, ts: seq<T.Token>, p: nat)
    requires CutShort(ts, p, MemberTokens(key, value))
    ensures ParseMember(ts, p) == Err(UnexpectedEndOfInput)
    decreases value, 2
  {
    if p + 1 < |ts| {
      CutShortSplit(ts, p, [T.String(key), T.Colon], Serialize(value));
      assert ts[p] == ts[p..p + 2][0] && ts[p + 1] == ts[p..p + 2][1];
      ParseValueCutShort(value, ts, p + 2);
    } else if p < |ts| {
      assert ts[p] == ts[p..][0] == T.String(key);
    }
  }

  /** A `,` followed by a member that fails in the loop of `parser_object`. */
  lemma MembersStepFails(ts: seq<T.Token>, p: nat, acc: seq<(string, JsonValue)>)
    requires p + 1 < |ts| && ts[p].Comma? && ts[p + 1].String? && ParseMember(ts, p + 1).Err?
    ensures ParseMembers(ts, p, acc) == Err(ParseMember(ts, p + 1).error)
  {
  }

  /** The tokens after member `j - 1` cut short, with at least one left. */
  lemma MembersCutSplit(v: JsonValue, j: nat, ts: seq<T.Token>, p: nat)
    requires v.Object? && j <= |v.entries| && p < |ts| && CutShort(ts, p, MembersTail(v, j))
    ensures j < |v.entries| && ts[p].Comma?
    ensures p + 1 < |ts| ==> ts[p + 1] == T.String(v.entries[j].0)
    ensures var item, rest := MemberTokens(v.entries[j].0, v.entries[j].1), MembersTail(v, j + 1);
      (|ts| - (p + 1) < |item| ==> CutShort(ts, p + 1, item)) &&
      (|ts| - (p + 1) >= |item| ==> ts[p + 1..p + 1 + |item|] == item && CutShort(ts, p + 1 + |item|, rest))
  {
    assert j < |v.entries|;
    var item, rest := MemberTokens(v.entries[j].0, v.entries[j].1), MembersTail(v, j + 1);
    assert MembersTail(v, j) == [T.Comma] + (item + rest);
    CutShortSplit(ts, p, [T.Comma], item + rest);
    CutShortSplit(ts, p + 1, item, rest);
    if p + 1 < |ts| {
      assert ts[p + 1] == ts[p + 1..][0] == item[0];
    }
  }

  lemma {:induction false} MembersCutShort(v: JsonValue, j: nat, ts: seq<T.Token>, p: nat, acc: seq<(string, JsonValue)>)
    requires v.Object? && j <= |v.entries| && CutShort(ts, p, MembersTail(v, j))
    ensures ParseMembers(ts, p, acc) == Err(UnexpectedEndOfInput)
    decreases v, 0, |v.entries| - j
  {
    if p < |ts| {
      MembersCutSplit(v, j, ts, p);
      if p + 1 < |ts| {
        var (key, value) := v.entries[j];
        var item := MemberTokens(key, value);
        if |ts| - (p + 1) < |item| {
          MemberCutShort(key, value, ts, p + 1);
          MembersStepFails(ts, p, acc);
        } else {
          MemberComplete(key, value, ts, p + 1);
          MembersStep(ts, p, acc, (key, value), p + 1 + |item|);
          MembersCutShort(v, j + 1, ts, p + 1 + |item|, acc + [(key, value)]);
        }
      }
    }
  }

  /** A value's tokens cut off anywhere before the end are
      `UnexpectedEndOfInput`. */
  lemma ParserTruncated(v: JsonValue, k: nat)
    requires k < |Serialize(v)|
    ensures Parser(Serialize(v)[..k]) == Err(UnexpectedEndOfInput)
  {
    var ts := Serialize(v)[..k];
    assert ts[0..] == ts;
    ParseValueCutShort(v, ts, 0);
  }

  // ---------------------------------------------------------------------
  // Single tokens and malformed input

  /** The tokens that are a whole value on their own. */
  predicate IsScalarToken(t: T.Token) {
    t.Null? || t.True? || t.False? || t.Number? || t.String?
  }

  /** A scalar token becomes the leaf whose tokens it is, and consumes
      exactly that token; nothing else in the input is looked at. */
  lemma ParseScalar(ts: seq<T.Token>, p: nat)
    requires p < |ts| && IsScalarToken(ts[p])
    ensures ParseValue(ts, p).Ok? && ParseValue(ts, p).value.1 == p + 1
    ensures Serialize(ParseValue(ts, p).value.0) == [ts[p]]
  {
  }

  /** A token that cannot start a value is `UnexpectedToken` carrying it;
      no tokens at all is `UnexpectedEndOfInput`. */
  lemma ParseNotAValue(ts: seq<T.Token>, p: nat)
    requires p <= |ts|
    requires p < |ts| ==> ts[p].RightSquareBracket? || ts[p].RightCurlyBracket? || ts[p].Colon? || ts[p].Comma?
    ensures p == |ts| ==> ParseValue(ts, p) == Err(UnexpectedEndOfInput)
    ensures p < |ts| ==> ParseValue(ts, p) == Err(UnexpectedToken(ts[p]))
  {
  }

  // ---------------------------------------------------------------------
  // Malformed input after any number of elements or members: the tokens of
  // a non-empty array or object with its closing bracket replaced

  /** The tokens of the elements from index `j` on, each after a `,`, with
      no closing `]`. */
  function ElementsOpen(v: JsonValue, j: nat): seq<T.Token>
    requires v.Array? && j <= |v.items|
    decreases |v.items| - j
  {
    if j == |v.items| then [] else [T.Comma] + Serialize(v.items[j]) + ElementsOpen(v, j + 1)
  }

  /** The tokens of the members from index `j` on, each after a `,`, with
      no closing `}`. */
  function MembersOpen(v: JsonValue, j: nat): seq<T.Token>
    requires v.Object? && j <= |v.entries|
    decreases |v.entries| - j
  {
    if j == |v.entries| then [] else [T.Comma] + MemberTokens(v.entries[j].0, v.entries[j].1) + MembersOpen(v, j + 1)
  }

  /** The tokens of a non-empty array or object up to, and not including,
      its closing bracket. */
  function Unclosed(v: JsonValue): (r: seq<T.Token>)
    requires (v.Array? && v.items != []) || (v.Object? && v.entries != [])
    ensures Serialize(v) == r + [if v.Array? then T.RightSquareBracket else T.RightCurlyBracket]
  {
    if v.Array? then
      ElementsClose(v, 1);
      [T.LeftSquareBracket] + Serialize(v.items[0]) + ElementsOpen(v, 1)
    else
      MembersClose(v, 1);
      [T.LeftCurlyBracket] + MemberTokens(v.entries[0].0, v.entries[0].1) + MembersOpen(v, 1)
  }

  lemma {:induction false} ElementsClose(v: JsonValue, j: nat)
    requires v.Array? && j <= |v.items|
    ensures ElementsTail(v, j) == ElementsOpen(v, j) + [T.RightSquareBracket]
    decreases |v.items| - j
  {
    if j < |v.items| {
      ElementsClose(v, j + 1);
    }
  }

  lemma {:induction false} MembersClose(v: JsonValue, j: nat)
    requires v.Object? && j <= |v.entries|
    ensures MembersTail(v, j) == MembersOpen(v, j) + [T.RightCurlyBracket]
    decreases |v.entries| - j
  {
    if j < |v.entries| {
      MembersClose(v, j + 1);
    }
  }

  /** The open tokens from element `j` on, in place at `p`: a `,`, the
      element's tokens, then the rest. */
  lemma ElementsOpenSplit(v: JsonValue, j: nat, ts: seq<T.Token>, p: nat)
    requires v.Array? && j < |v.items|
    requires p + |ElementsOpen(v, j)| <= |ts| && ts[p..p + |ElementsOpen(v, j)|] == ElementsOpen(v, j)
    ensures var item, rest := Serialize(v.items[j]), ElementsOpen(v, j + 1);
      |ElementsOpen(v, j)| == 1 + |item| + |rest| && ts[p].Comma? &&
      ts[p + 1..p + 1 + |item|] == item && ts[p + 1 + |item|..p + 1 + |item| + |rest|] == rest
  {
    var item, rest := Serialize(v.items[j]), ElementsOpen(v, j + 1);
    assert ElementsOpen(v, j) == [T.Comma] + (item + rest);
    SliceSplit(ts, p, [T.Comma], item + rest);
    SliceSplit(ts, p + 1, item, rest);
  }

  /** The loop of `parser_array` reads elements `j` on and stops where the
      closing `]` would be, whatever is there. */
  lemma {:induction false} ElementsUpToClose(v: JsonValue, j: nat, ts: seq<T.Token>, p: nat)
    requires v.Array? && j <= |v.items|
    requires p + |ElementsOpen(v, j)| <= |ts| && ts[p..p + |ElementsOpen(v, j)|] == ElementsOpen(v, j)
    ensures ParseElements(ts, p, v.items[..j]) == ParseElements(ts, p + |ElementsOpen(v, j)|, v.items)
    decreases |v.items| - j
  {
    if j == |v.items| {
      assert v.items[..j] == v.items;
    } else {
      var item, rest := Serialize(v.items[j]), ElementsOpen(v, j + 1);
      ElementsOpenSplit(v, j, ts, p);
      ParseValueComplete(v.items[j], ts, p + 1);
      ElementsStep(ts, p, v.items[..j], v.items[j], p + 1 + |item|);
      assert v.items[..j] + [v.items[j]] == v.items[..j + 1];
      ElementsUpToClose(v, j + 1, ts, p + 1 + |item|);
    }
  }

  /** The loop of `parser_object` reads members `j` on and stops where the
      closing `}` would be, whatever is there. */
  lemma {:induction false} MembersUpToClose(v: JsonValue, j: nat, ts: seq<T.Token>, p: nat)
    requires v.Object? && j <= |v.entries|
    requires p + |MembersOpen(v, j)| <= |ts| && ts[p..p + |MembersOpen(v, j)|] == MembersOpen(v, j)
    ensures ParseMembers(ts, p, v.entries[..j]) == ParseMembers(ts, p + |MembersOpen(v, j)|, v.entries)
    decreases |v.entries| - j
  {
    if j == |v.entries| {
      assert v.entries[..j] == v.entries;
    } else {
      var (key, value) := v.entries[j];
      var item, rest := MemberTokens(key, value), MembersOpen(v, j + 1);
      assert MembersOpen(v, j) == [T.Comma] + (item + rest);
      SliceSplit(ts, p, [T.Comma], item + rest);
      SliceSplit(ts, p + 1, item, rest);
      assert ts[p] == ts[p..p + 1][0] && ts[p + 1] == ts[p + 1..p + 1 + |item|][0];
      MemberComplete(key, value, ts, p + 1);
      MembersStep(ts, p, v.entries[..j], (key, value), p + 1 + |item|);
      assert v.entries[..j] + [(key, value)] == v.entries[..j + 1];
      MembersUpToClose(v, j + 1, ts, p + 1 + |item|);
    }
  }

  /** `parser_value` on the tokens of a non-empty array without its `]`
      reaches the loop of `parser_array` with every element read. */
  lemma ArrayUpToClose(v: JsonValue, ts: seq<T.Token>, p: nat)
    requires v.Array? && v.items != []
    requires p + |Unclosed(v)| <= |ts| && ts[p..p + |Unclosed(v)|] == Unclosed(v)
    ensures ParseValue(ts, p) == ParseElements(ts, p + |Unclosed(v)|, v.items)
  {
    var first, rest := Serialize(v.items[0]), ElementsOpen(v, 1);
    SliceOpen(ts, p, Unclosed(v), T.LeftSquareBracket, first, rest);
    assert ts[p] == ts[p..p + |Unclosed(v)|][0];
    SerializeStart(v.items[0]);
    ParseValueComplete(v.items[0], ts, p + 1);
    ArrayStep(ts, p, v.items[0], p + 1 + |first|);
    assert v.items[..1] == [v.items[0]];
    ElementsUpToClose(v, 1, ts, p + 1 + |first|);
  }

  /** `parser_value` on the tokens of a non-empty object without its `}`
      reaches the loop of `parser_object` with every member read. */
  lemma ObjectUpToClose(v: JsonValue, ts: seq<T.Token>, p: nat)
    requires v.Object? && v.entries != []
    requires p + |Unclosed(v)| <= |ts| && ts[p..p + |Unclosed(v)|] == Unclosed(v)
    ensures ParseValue(ts, p) == ParseMembers(ts, p + |Unclosed(v)|, v.entries)
  {
    var (key, value) := v.entries[0];
    var first, rest := MemberTokens(key, value), MembersOpen(v, 1);
    SliceOpen(ts, p, Unclosed(v), T.LeftCurlyBracket, first, rest);
    assert ts[p] == ts[p..p + |Unclosed(v)|][0];
    MemberComplete(key, value, ts, p + 1);
    ObjectStep(ts, p, (key, value), p + 1 + |first|);
    assert v.entries[..1] == [(key, value)];
    MembersUpToClose(v, 1, ts, p + 1 + |first|);
  }

  /** A trailing comma is refused after any number of elements: the tokens
      of a non-empty array with `, ]` in place of its `]` are
      `UnexpectedToken(])`. */
  lemma ArrayTrailingComma(v: JsonValue, ts: seq<T.Token>, p: nat)
    requires v.Array? && v.items != []
    requires p + |Unclosed(v)| + 2 <= |ts|
    requires ts[p..p + |Unclosed(v)| + 2] == Unclosed(v) + [T.Comma, T.RightSquareBracket]
    ensures ParseValue(ts, p) == Err(UnexpectedToken(T.RightSquareBracket))
  {
    var q := p + |Unclosed(v)|;
    SliceSplit(ts, p, Unclosed(v), [T.Comma, T.RightSquareBracket]);
    assert ts[q] == ts[q..q + 2][0] && ts[q + 1] == ts[q..q + 2][1];
    ArrayUpToClose(v, ts, p);
    ElementsStepFails(ts, q, v.items);
  }

  /** After any element, a token other than `,` and `]` is `UnexpectedToken`
      carrying it. */
  lemma ArrayBadSeparator(v: JsonValue, ts: seq<T.Token>, p: nat)
    requires v.Array? && v.items != []
    requires p + |Unclosed(v)| < |ts| && ts[p..p + |Unclosed(v)|] == Unclosed(v)
    requires var t := ts[p + |Unclosed(v)|]; !t.Comma? && !t.RightSquareBracket?
    ensures ParseValue(ts, p) == Err(UnexpectedToken(ts[p + |Unclosed(v)|]))
  {
    ArrayUpToClose(v, ts, p);
  }

  /** After `{`, a token other than `}` that is not a String key is
      `UnexpectedToken` carrying it. */
  lemma ObjectKeyNotString(ts: seq<T.Token>, p: nat)
    requires p + 1 < |ts| && ts[p].LeftCurlyBracket?
    requires !ts[p + 1].String? && !ts[p + 1].RightCurlyBracket?
    ensures ParseValue(ts, p) == Err(UnexpectedToken(ts[p + 1]))
  {
  }

  /** After any member and a `,`, a token that is not a String key is
      `UnexpectedToken` carrying it; `}` is refused there too. */
  lemma ObjectKeyNotStringAfterComma(v: JsonValue, ts: seq<T.Token>, p: nat)
    requires v.Object? && v.entries != []
    requires p + |Unclosed(v)| + 1 < |ts| && ts[p..p + |Unclosed(v)|] == Unclosed(v)
    requires ts[p + |Unclosed(v)|].Comma? && !ts[p + |Unclosed(v)| + 1].String?
    ensures ParseValue(ts, p) == Err(UnexpectedToken(ts[p + |Unclosed(v)| + 1]))
  {
    ObjectUpToClose(v, ts, p);
  }

  /** After any member, a token other than `,` and `}` is `UnexpectedToken`
      carrying it. */
  lemma ObjectBadSeparator(v: JsonValue, ts: seq<T.Token>, p: nat)
    requires v.Object? && v.entries != []
    requires p + |Unclosed(v)| < |ts| && ts[p..p + |Unclosed(v)|] == Unclosed(v)
    requires var t := ts[p + |Unclosed(v)|]; !t.Comma? && !t.RightCurlyBracket?
    ensures ParseValue(ts, p) == Err(UnexpectedToken(ts[p + |Unclosed(v)|]))
  {
    ObjectUpToClose(v, ts, p);
  }

  /** The first key not followed by `Colon` is `UnexpectedEndOfInput`,
      whether another token is there or not. */
  lemma ObjectMissingColon(ts: seq<T.Token>, p: nat)
    requires p + 1 < |ts| && ts[p].LeftCurlyBracket? && ts[p + 1].String?
    requires p + 2 < |ts| ==> !ts[p + 2].Colon?
    ensures ParseValue(ts, p) == Err(UnexpectedEndOfInput)
  {
    assert ParseMember(ts, p + 1) == Err(UnexpectedEndOfInput);
    assert ParseObject(ts, p) == Err(UnexpectedEndOfInput);
  }

  /** A key after any member and a `,`, not followed by `Colon`, is
      `UnexpectedEndOfInput` too, whether another token is there or not. */
  lemma ObjectMissingColonAfterComma(v: JsonValue, ts: seq<T.Token>, p: nat)
    requires v.Object? && v.entries != []
    requires p + |Unclosed(v)| + 1 < |ts| && ts[p..p + |Unclosed(v)|] == Unclosed(v)
    requires ts[p + |Unclosed(v)|].Comma? && ts[p + |Unclosed(v)| + 1].String?
    requires p + |Unclosed(v)| + 2 < |ts| ==> !ts[p + |Unclosed(v)| + 2].Colon?
    ensures ParseValue(ts, p) == Err(UnexpectedEndOfInput)
  {
    var q := p + |Unclosed(v)|;
    ObjectUpToClose(v, ts, p);
    assert ParseMember(ts, q + 1) == Err(UnexpectedEndOfInput);
  }

  // ---------------------------------------------------------------------
  // The source's unit tests (parser.rs:172-332); `n` stands for 42.0

  lemma ParserExamples(n: T.Num)
    ensures Parser([]) == Err(UnexpectedEndOfInput)
    ensures Parser([T.Null]) == Ok(Null)
    ensures Parser([T.True]) == Ok(Bool(true))
    ensures Parser([T.False]) == Ok(Bool(false))
    ensures Parser([T.Number(n)]) == Ok(Number(n))
    ensures Parser([T.String("hello")]) == Ok(String("hello"))
    ensures Parser([T.LeftSquareBracket, T.RightSquareBracket]) == Ok(Array([]))
    ensures Parser([T.LeftCurlyBracket, T.RightCurlyBracket]) == Ok(Object([]))
  {
  }

  lemma ParserArrayWithLiterals(n: T.Num)
    ensures Parser([T.LeftSquareBracket, T.Null, T.Comma, T.True, T.Comma, T.False, T.Comma,
                    T.String("hello"), T.Comma, T.Number(n), T.RightSquareBracket])
         == Ok(Array([Null, Bool(true), Bool(false), String("hello"), Number(n)]))
  {
    var v := Array([Null, Bool(true), Bool(false), String("hello"), Number(n)]);
    var ts := [T.LeftSquareBracket, T.Null, T.Comma, T.True, T.Comma, T.False, T.Comma,
               T.String("hello"), T.Comma, T.Number(n), T.RightSquareBracket];
    assert ElementsTail(v, 5) == ts[10..];
    assert ElementsTail(v, 4) == ts[8..];
    assert ElementsTail(v, 3) == ts[6..];
    assert ElementsTail(v, 2) == ts[4..];
    assert ElementsTail(v, 1) == ts[2..];
    assert Serialize(v) == ts;
    ParserIgnoresTrailingTokens(v, []);
    assert ts + [] == ts;
  }

  /** A flat list of members, one of each kind of value (parser.rs:254-290).
      In these proofs the flat token list is matched first against pieces
      shaped like `Serialize`, then `Serialize` is unfolded piece by piece. */
  lemma ParserObjectWithLiterals(n: T.Num)
    ensures Parser([T.LeftCurlyBracket, T.String("null"), T.Colon, T.Null, T.Comma,
                    T.String("true"), T.Colon, T.True, T.Comma,
                    T.String("false"), T.Colon, T.False, T.Comma,
                    T.String("string"), T.Colon, T.String("hello"), T.Comma,
                    T.String("number"), T.Colon, T.Number(n), T.RightCurlyBracket])
         == Ok(Object([("null", Null), ("true", Bool(true)), ("false", Bool(false)),
                       ("string", String("hello")), ("number", Number(n))]))
  {
    var t4 := [T.Comma] + ([T.String("number"), T.Colon] + [T.Number(n)]) + [T.RightCurlyBracket];
    var t3 := [T.Comma] + ([T.String("string"), T.Colon] + [T.String("hello")]) + t4;
    var t2 := [T.Comma] + ([T.String("false"), T.Colon] + [T.False]) + t3;
    var t1 := [T.Comma] + ([T.String("true"), T.Colon] + [T.True]) + t2;
    var ts := [T.LeftCurlyBracket] + (([T.String("null"), T.Colon] + [T.Null]) + t1);
    assert ts == [T.LeftCurlyBracket, T.String("null"), T.Colon, T.Null, T.Comma,
                  T.String("true"), T.Colon, T.True, T.Comma,
                  T.String("false"), T.Colon, T.False, T.Comma,
                  T.String("string"), T.Colon, T.String("hello"), T.Comma,
                  T.String("number"), T.Colon, T.Number(n), T.RightCurlyBracket];
    var v := Object([("null", Null), ("true", Bool(true)), ("false", Bool(false)),
                     ("string", String("hello")), ("number", Number(n))]);
    assert MembersTail(v, 5) == [T.RightCurlyBracket];
    assert v.entries[4] == ("number", Number(n));
    assert MemberTokens("number", Number(n)) == [T.String("number"), T.Colon] + [T.Number(n)];
    assert MembersTail(v, 4) == t4;
    assert MembersTail(v, 3) == t3;
    assert MembersTail(v, 2) == t2;
    assert MembersTail(v, 1) == t1;
    assert Serialize(v) == ts;
    ParserSerialized(v);
  }

  /** An object inside an object, holding an array (parser.rs:292-331). */
  lemma ParserNestedObject(n: T.Num)
    ensures Parser([T.LeftCurlyBracket, T.String("true"), T.Colon, T.True, T.Comma,
                    T.String("object"), T.Colon, T.LeftCurlyBracket,
                    T.String("null"), T.Colon, T.Null, T.Comma,
                    T.String("array"), T.Colon, T.LeftSquareBracket, T.Number(n), T.RightSquareBracket,
                    T.RightCurlyBracket, T.RightCurlyBracket])
         == Ok(Object([("true", Bool(true)),
                       ("object", Object([("null", Null), ("array", Array([Number(n)]))]))]))
  {
    var a := [T.LeftSquareBracket] + ([T.Number(n)] + [T.RightSquareBracket]);
    var b1 := [T.Comma] + ([T.String("array"), T.Colon] + a) + [T.RightCurlyBracket];
    var b := [T.LeftCurlyBracket] + (([T.String("null"), T.Colon] + [T.Null]) + b1);
    var t1 := [T.Comma] + ([T.String("object"), T.Colon] + b) + [T.RightCurlyBracket];
    var ts := [T.LeftCurlyBracket] + (([T.String("true"), T.Colon] + [T.True]) + t1);
    assert ts == [T.LeftCurlyBracket, T.String("true"), T.Colon, T.True, T.Comma,
                  T.String("object"), T.Colon, T.LeftCurlyBracket,
                  T.String("null"), T.Colon, T.Null, T.Comma,
                  T.String("array"), T.Colon, T.LeftSquareBracket, T.Number(n), T.RightSquareBracket,
                  T.RightCurlyBracket, T.RightCurlyBracket];
    var arr := Array([Number(n)]);
    var inner := Object([("null", Null), ("array", arr)]);
    var v := Object([("true", Bool(true)), ("object", inner)]);
    assert ElementsTail(arr, 1) == [T.RightSquareBracket];
    assert Serialize(arr) == a;
    assert MembersTail(inner, 2) == [T.RightCurlyBracket];
    assert MembersTail(inner, 1) == b1;
    assert Serialize(inner) == b;
    assert MembersTail(v, 2) == [T.RightCurlyBracket];
    assert MembersTail(v, 1) == t1;
    assert Serialize(v) == ts;
    ParserSerialized(v);
  }

  /** Keys stay in token order and a repeated key is kept twice. */
  lemma ParserDuplicateKeys()
    ensures Parser([T.LeftCurlyBracket, T.String("a"), T.Colon, T.Null, T.Comma,
                    T.String("a"), T.Colon, T.True, T.RightCurlyBracket])
         == Ok(Object([("a", Null), ("a", Bool(true))]))
  {
    var v := Object([("a", Null), ("a", Bool(true))]);
    var ts := [T.LeftCurlyBracket, T.String("a"), T.Colon, T.Null, T.Comma,
               T.String("a"), T.Colon, T.True, T.RightCurlyBracket];
    assert Serialize(v) == ts;
    ParserIgnoresTrailingTokens(v, []);
    assert ts + [] == ts;
  }

  lemma ParserTrailingCommaExample(n: T.Num)
    ensures Parser([T.LeftSquareBracket, T.Number(n), T.Comma, T.RightSquareBracket])
         == Err(UnexpectedToken(T.RightSquareBracket))
  {
    var ts := [T.LeftSquareBracket, T.Number(n), T.Comma, T.RightSquareBracket];
    assert ts[0..4] == Unclosed(Array([Number(n)])) + [T.Comma, T.RightSquareBracket];
    ArrayTrailingComma(Array([Number(n)]), ts, 0);
  }
}
