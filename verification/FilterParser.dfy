/**
 * The recursive-descent parser of src/filter.rs. Functions `P...` say what each parser method
 * reads from position `i` of the input bytes; class `Parser` in module `FilterCursor` moves the cursor
 * the way the source does and is proved to follow them.
 */
module FilterParser {
  import opened Wrappers
  import opened Utf8
  import opened Decimal
  import opened FilterTree

  datatype ParseError =
    | TooLong
    | TrailingInput(at: nat)
    | TooDeep
    | ExpectedClose(at: nat)
    | ExpectedField(at: nat)
    | ExpectedOperator(at: nat)
    | NullWithOp(op: Op)
    | NeedsLiteral(at: nat)
    | Unterminated
    | ExpectedValue(at: nat)

  /** A value read and the position after it, or the error that stops the parse. */
  datatype Read<T> = Done(value: T, at: nat) | Fail(error: ParseError)

  datatype Input = Input(b: seq<Byte>, mode: Mode, realOf: RealOracle) {
    predicate Valid() {
      ValidUtf8(b)
    }
  }

  // ------------------------------------------------------------------ bytes

  /** `u8::is_ascii_whitespace`: space, tab, line feed, form feed, carriage return. */
  predicate IsWs(x: Byte) {
    x == 32 || x == 9 || x == 10 || x == 12 || x == 13
  }

  predicate IsIdentByte(x: Byte) {
    IsAscii(x) && IsIdentChar(x as char)
  }

  /** The bytes that end a bare word. */
  predicate IsDelim(x: Byte) {
    x == '(' as int || x == ')' as int || x == '&' as int || x == '|' as int || x == '\'' as int || IsWs(x)
  }

  function SkipWs(b: seq<Byte>, i: nat): (r: nat)
    requires i <= |b|
    ensures i <= r <= |b| && (r < |b| ==> !IsWs(b[r]))
    ensures r == i || IsWs(b[r - 1])
    ensures Boundary(b, i) ==> Boundary(b, r)
    decreases |b| - i
  {
    if i < |b| && IsWs(b[i]) then SkipWs(b, i + 1) else i
  }

  function IdentEnd(b: seq<Byte>, i: nat): (r: nat)
    requires i <= |b|
    ensures i <= r <= |b| && (r < |b| ==> !IsIdentByte(b[r]))
    ensures forall k :: i <= k < r ==> IsIdentByte(b[k])
    decreases |b| - i
  {
    if i < |b| && IsIdentByte(b[i]) then IdentEnd(b, i + 1) else i
  }

  function WordEnd(b: seq<Byte>, i: nat): (r: nat)
    requires i <= |b|
    ensures i <= r <= |b| && (r < |b| ==> IsDelim(b[r]))
    ensures forall k :: i <= k < r ==> !IsDelim(b[k])
    decreases |b| - i
  {
    if i < |b| && !IsDelim(b[i]) then WordEnd(b, i + 1) else i
  }

  predicate Starts(b: seq<Byte>, i: nat, tok: string): (r: bool)
    ensures r && tok != "" ==> i + |tok| <= |b| && b[i + |tok| - 1] == tok[|tok| - 1] as int
  {
    i + |tok| <= |b| && forall k :: 0 <= k < |tok| ==> b[i + k] == tok[k] as int
  }

  // ------------------------------------------------------------------ grammar

  /** The first operator that matches, two-character operators before their prefixes. */
  function PickOp(b: seq<Byte>, i: nat): (r: Read<Op>)
    ensures r.Done? ==> i < r.at <= |b| && Boundary(b, r.at)
  {
    if Starts(b, i, "!=") then Done(Ne, i + 2)
    else if Starts(b, i, "!~") then Done(NotLike, i + 2)
    else if Starts(b, i, ">=") then Done(Ge, i + 2)
    else if Starts(b, i, "<=") then Done(Le, i + 2)
    else if Starts(b, i, "=") then Done(Eq, i + 1)
    else if Starts(b, i, ">") then Done(Gt, i + 1)
    else if Starts(b, i, "<") then Done(Lt, i + 1)
    else if Starts(b, i, "~") then Done(Like, i + 1)
    else Fail(ExpectedOperator(i))
  }

  /** The rest of a quoted string, `acc` being the bytes read so far. */
  function PQuoted(b: seq<Byte>, i: nat, acc: seq<Byte>): (r: Read<string>)
    requires i <= |b| && ValidUtf8(acc + b[i..])
    ensures r.Done? ==> i < r.at <= |b|
    decreases |b| - i
  {
    if i == |b| then Fail(Unterminated)
    else if b[i] == '\'' as int then
      QuotedCut(b, i, acc);
      if Starts(b, i + 1, "'") then PQuoted(b, i + 2, acc + [39]) else Done(Unwrap(acc), i + 1)
    else
      assert (acc + [b[i]]) + b[i + 1..] == acc + b[i..];
      PQuoted(b, i + 1, acc + [b[i]])
  }

  /** At a quote, the text so far is valid on its own, and dropping one of two quotes keeps the
      whole valid. */
  lemma QuotedCut(b: seq<Byte>, i: nat, acc: seq<Byte>)
    requires i < |b| && b[i] == 39 && ValidUtf8(acc + b[i..])
    ensures ValidUtf8(acc)
    ensures Starts(b, i + 1, "'") ==> ValidUtf8(acc + [39] + b[i + 2..])
  {
    var whole := acc + b[i..];
    CutBeforeAscii(whole, |acc|);
    assert whole[..|acc|] == acc && whole[|acc|..] == b[i..];
    if Starts(b, i + 1, "'") {
      assert b[i + 1] == "'"[0] as int;
      CutBeforeAscii(b[i..], 1);
      assert b[i..][1..] == [39] + b[i + 2..];
      ValidConcat(acc, b[i..][1..]);
      assert acc + b[i..][1..] == acc + [39] + b[i + 2..];
    }
  }

  /** What a bare word means. `start` only feeds the error position. */
  function Classify(p: Input, w: string, start: nat): Result<Operand, ParseError> {
    if w == "" then Err(ExpectedValue(start))
    else if w == TOKEN then Ok(Auth)
    else if w == "true" then Ok(Val(Integer(1)))
    else if w == "false" then Ok(Val(Integer(0)))
    else if w == "null" then Ok(Null)
    else
      match ParseI64(w)
      case Some(n) => Ok(Val(Integer(n)))
      case None =>
        match p.realOf(w)
        case Some(f) => Ok(Val(Real(f)))
        case None =>
          if p.mode == Filter then Ok(Val(Text(w)))
          else if IdentOk(w) then Ok(Col(w))
          else Err(ExpectedField(start))
  }

  /** A bare word: a maximal run of bytes that are not delimiters. */
  function PWord(p: Input, i: nat): (r: Read<Operand>)
    requires p.Valid() && i <= |p.b| && Boundary(p.b, i)
    ensures r.Done? ==> i < r.at <= |p.b|
  {
    var j := WordEnd(p.b, i);
    SliceValid(p.b, i, j);
    match Classify(p, Unwrap(p.b[i..j]), i)
    case Err(e) => Fail(e)
    case Ok(v) => Done(v, j)
  }

  function PString(p: Input, i: nat): (r: Read<Operand>)
    requires p.Valid() && i <= |p.b| && Starts(p.b, i, "'")
    ensures r.Done? ==> i < r.at <= |p.b|
  {
    SliceValid(p.b, i + 1, |p.b|);
    assert [] + p.b[i + 1..] == p.b[i + 1..];
    match PQuoted(p.b, i + 1, [])
    case Fail(e) => Fail(e)
    case Done(s, j) => Done(Val(Text(s)), j)
  }

  function PValue(p: Input, i: nat): (r: Read<Operand>)
    requires p.Valid() && i <= |p.b| && Boundary(p.b, i)
    ensures r.Done? ==> i < r.at <= |p.b|
  {
    if Starts(p.b, i, "'") then PString(p, i) else PWord(p, i)
  }

  function PLhs(p: Input, i: nat): (r: Read<Operand>)
    requires p.Valid() && i <= |p.b|
    ensures r.Done? ==> i < r.at <= |p.b|
  {
    if Starts(p.b, i, TOKEN) then Done(Auth, i + |TOKEN|)
    else
      var j := IdentEnd(p.b, i);
      AsciiIsValid(p.b[i..j]);
      var field := Unwrap(p.b[i..j]);
      if IdentOk(field) then Done(Col(field), j) else Fail(ExpectedField(i))
  }

  /** Null only with = and !=; no column on the right of a LIKE. */
  function CheckRhs(op: Op, rhs: Operand, at: nat): (r: Option<ParseError>)
    ensures r.None? <==> OpFits(op, rhs)
  {
    if rhs.Null? && !(op.Eq? || op.Ne?) then Some(NullWithOp(op))
    else if rhs.Col? && IsLike(op) then Some(NeedsLiteral(at))
    else None
  }

  function PComparison(p: Input, i: nat): (r: Read<Node>)
    requires p.Valid() && i <= |p.b|
    ensures r.Done? ==> i < r.at <= |p.b|
  {
    match PLhs(p, SkipWs(p.b, i))
    case Fail(e) => Fail(e)
    case Done(lhs, j) =>
      match PickOp(p.b, SkipWs(p.b, j))
      case Fail(e) => Fail(e)
      case Done(op, k) =>
        match PValue(p, SkipWs(p.b, k))
        case Fail(e) => Fail(e)
        case Done(rhs, m) =>
          match CheckRhs(op, rhs, m)
          case Some(e) => Fail(e)
          case None => Done(Cmp(lhs, op, rhs), m)
  }

  /** unit := "(" expr ")" | comparison */
  function PUnit(p: Input, i: nat, depth: nat): (r: Read<Node>)
    requires p.Valid() && i <= |p.b| && depth <= MAX_DEPTH
    ensures r.Done? ==> i < r.at <= |p.b|
    decreases |p.b| - i, 0
  {
    var j := SkipWs(p.b, i);
    if !Starts(p.b, j, "(") then PComparison(p, j)
    else if depth >= MAX_DEPTH then Fail(TooDeep)
    else
      match PExpr(p, j + 1, depth + 1)
      case Fail(e) => Fail(e)
      case Done(n, k) =>
        var m := SkipWs(p.b, k);
        if Starts(p.b, m, ")") then Done(n, m + 1) else Fail(ExpectedClose(m))
  }

  /** and := unit ( "&&" unit )* */
  function PAnd(p: Input, i: nat, depth: nat): (r: Read<Node>)
    requires p.Valid() && i <= |p.b| && depth <= MAX_DEPTH
    ensures r.Done? ==> i < r.at <= |p.b|
    decreases |p.b| - i, 1
  {
    match PUnit(p, i, depth)
    case Fail(e) => Fail(e)
    case Done(n, j) => PAndTail(p, j, depth, n)
  }

  function PAndTail(p: Input, i: nat, depth: nat, n: Node): (r: Read<Node>)
    requires p.Valid() && i <= |p.b| && depth <= MAX_DEPTH
    ensures r.Done? ==> i <= r.at <= |p.b|
    decreases |p.b| - i, 0
  {
    var j := SkipWs(p.b, i);
    if !Starts(p.b, j, "&&") then Done(n, j)
    else
      match PUnit(p, j + 2, depth)
      case Fail(e) => Fail(e)
      case Done(m, k) => PAndTail(p, k, depth, And(n, m))
  }

  /** expr := and ( "||" and )* */
  function PExpr(p: Input, i: nat, depth: nat): (r: Read<Node>)
    requires p.Valid() && i <= |p.b| && depth <= MAX_DEPTH
    ensures r.Done? ==> i < r.at <= |p.b|
    decreases |p.b| - i, 2
  {
    match PAnd(p, i, depth)
    case Fail(e) => Fail(e)
    case Done(n, j) => PExprTail(p, j, depth, n)
  }

  function PExprTail(p: Input, i: nat, depth: nat, n: Node): (r: Read<Node>)
    requires p.Valid() && i <= |p.b| && depth <= MAX_DEPTH
    ensures r.Done? ==> i <= r.at <= |p.b|
    decreases |p.b| - i, 0
  {
    var j := SkipWs(p.b, i);
    if !Starts(p.b, j, "||") then Done(n, j)
    else
      match PAnd(p, j + 2, depth)
      case Fail(e) => Fail(e)
      case Done(m, k) => PExprTail(p, k, depth, Or(n, m))
  }

  /** `filter::parse`. */
  function Parse(realOf: RealOracle, mode: Mode, input: string): Result<Node, ParseError> {
    if |Encode(input)| > MAX_LEN then Err(TooLong)
    else
      DecodeEncode(input);
      var p := Input(Encode(input), mode, realOf);
      match PExpr(p, 0, 0)
      case Fail(e) => Err(e)
      case Done(n, i) =>
        var j := SkipWs(p.b, i);
        if j < |p.b| then Err(TrailingInput(j)) else Ok(n)
  }

  // ------------------------------------------------------------------ accepted trees

  lemma ComparisonSound(p: Input, i: nat)
    requires p.Valid() && i <= |p.b|
    ensures var r := PComparison(p, i); r.Done? ==> r.value.Cmp? && Wf(p.mode, p.realOf, r.value)
  {
    hide FromUtf8, PickOp, Starts, SkipWs;
  }

  lemma AfterToken(p: Input, j: nat, tok: string)
    requires j <= |p.b| && Starts(p.b, j, tok)
    ensures j + |tok| <= |p.b|
  {
  }

  lemma JoinSound(p: Input, n: Node, m: Node)
    ensures Wf(p.mode, p.realOf, n) && Wf(p.mode, p.realOf, m) ==>
              Wf(p.mode, p.realOf, And(n, m)) && Wf(p.mode, p.realOf, Or(n, m))
    ensures Nesting(And(n, m), 1) == Max(Nesting(n, 1), Nesting(m, 2))
    ensures Nesting(Or(n, m), 0) == Max(Nesting(n, 0), Nesting(m, 1))
  {
  }

  lemma {:induction false} UnitSound(p: Input, i: nat, depth: nat)
    requires p.Valid() && i <= |p.b| && depth <= MAX_DEPTH
    ensures var r := PUnit(p, i, depth);
            r.Done? ==> Wf(p.mode, p.realOf, r.value) && depth + Nesting(r.value, 2) <= MAX_DEPTH
    decreases |p.b| - i, 0
  {
    var j := SkipWs(p.b, i);
    if !Starts(p.b, j, "(") {
      ComparisonSound(p, j);
    } else if depth < MAX_DEPTH {
      ExprSound(p, j + 1, depth + 1);
    }
  }

  lemma {:induction false} AndSound(p: Input, i: nat, depth: nat)
    requires p.Valid() && i <= |p.b| && depth <= MAX_DEPTH
    ensures var r := PAnd(p, i, depth);
            r.Done? ==> Wf(p.mode, p.realOf, r.value) && depth + Nesting(r.value, 1) <= MAX_DEPTH
    decreases |p.b| - i, 1
  {
    UnitSound(p, i, depth);
    var r := PUnit(p, i, depth);
    if r.Done? {
      AndTailSound(p, r.at, depth, r.value);
    }
  }

  lemma {:induction false} AndTailSound(p: Input, i: nat, depth: nat, n: Node)
    requires p.Valid() && i <= |p.b| && depth <= MAX_DEPTH
    requires Wf(p.mode, p.realOf, n) && depth + Nesting(n, 1) <= MAX_DEPTH
    ensures var r := PAndTail(p, i, depth, n);
            r.Done? ==> Wf(p.mode, p.realOf, r.value) && depth + Nesting(r.value, 1) <= MAX_DEPTH
    decreases |p.b| - i, 0
  {
    hide PUnit, Wf, Nesting, SkipWs, Starts;
    var j := SkipWs(p.b, i);
    if Starts(p.b, j, "&&") {
      AfterToken(p, j, "&&");
      UnitSound(p, j + 2, depth);
      var r := PUnit(p, j + 2, depth);
      if r.Done? {
        JoinSound(p, n, r.value);
        AndTailSound(p, r.at, depth, And(n, r.value));
      }
    }
  }

  lemma {:induction false} ExprSound(p: Input, i: nat, depth: nat)
    requires p.Valid() && i <= |p.b| && depth <= MAX_DEPTH
    ensures var r := PExpr(p, i, depth);
            r.Done? ==> Wf(p.mode, p.realOf, r.value) && depth + Nesting(r.value, 0) <= MAX_DEPTH
    decreases |p.b| - i, 2
  {
    AndSound(p, i, depth);
    var r := PAnd(p, i, depth);
    if r.Done? {
      ExprTailSound(p, r.at, depth, r.value);
    }
  }

  lemma {:induction false} ExprTailSound(p: Input, i: nat, depth: nat, n: Node)
    requires p.Valid() && i <= |p.b| && depth <= MAX_DEPTH
    requires Wf(p.mode, p.realOf, n) && depth + Nesting(n, 0) <= MAX_DEPTH
    ensures var r := PExprTail(p, i, depth, n);
            r.Done? ==> Wf(p.mode, p.realOf, r.value) && depth + Nesting(r.value, 0) <= MAX_DEPTH
    decreases |p.b| - i, 0
  {
    hide PAnd, Wf, Nesting, SkipWs, Starts;
    var j := SkipWs(p.b, i);
    if Starts(p.b, j, "||") {
      AfterToken(p, j, "||");
      AndSound(p, j + 2, depth);
      var r := PAnd(p, j + 2, depth);
      if r.Done? {
        JoinSound(p, n, r.value);
        ExprTailSound(p, r.at, depth, Or(n, r.value));
      }
    }
  }

  /** Every accepted tree is well formed: identifier-only columns, a column or the auth token on the
      left, null only under = and !=, no column on the right of a LIKE; and even its minimally
      parenthesised form nests no deeper than the limit. */
  lemma ParseSound(realOf: RealOracle, mode: Mode, input: string)
    requires Parse(realOf, mode, input).Ok?
    ensures var n := Parse(realOf, mode, input).value;
            Wf(mode, realOf, n) && Nesting(n, 0) <= MAX_DEPTH
  {
    DecodeEncode(input);
    ExprSound(Input(Encode(input), mode, realOf), 0, 0);
  }
}
