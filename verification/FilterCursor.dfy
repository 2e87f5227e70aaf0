/**
 * The parser as src/filter.rs runs it: one mutable cursor `i` moved by small methods, with loops in
 * `Ws`, `Expr`, `And` and `Value`. Each method is proved to read what the grammar function of the
 * same name reads, so no slice is out of range and no UTF-8 unwrap can fail.
 */
module FilterCursor {
  import opened Wrappers
  import opened Utf8
  import opened FilterTree
  import opened FilterParser

  /** The method returned what the grammar reads, and on success left the cursor after it. */
  predicate Follows(got: Result<Node, ParseError>, i: nat, spec: Read<Node>) {
    match spec
    case Done(v, at) => got == Ok(v) && i == at
    case Fail(e) => got == Err(e)
  }

  /** The same for operands. */
  predicate FollowsOperand(got: Result<Operand, ParseError>, i: nat, spec: Read<Operand>) {
    match spec
    case Done(v, at) => got == Ok(v) && i == at
    case Fail(e) => got == Err(e)
  }

  class Parser {
    const p: Input
    var i: nat

    constructor (p: Input)
      requires p.Valid()
      ensures this.p == p && i == 0 && Valid()
    {
      this.p := p;
      i := 0;
    }

    ghost predicate Valid()
      reads this
    {
      p.Valid() && i <= |p.b|
    }

    method Ws()
      requires Valid()
      modifies this
      ensures Valid() && i == SkipWs(p.b, old(i))
    {
      while i < |p.b| && IsWs(p.b[i])
        invariant Valid() && SkipWs(p.b, i) == SkipWs(p.b, old(i))
      {
        i := i + 1;
      }
    }

    method Eat(tok: string) returns (ok: bool)
      requires Valid()
      modifies this
      ensures Valid() && ok == Starts(p.b, old(i), tok)
      ensures i == if ok then old(i) + |tok| else old(i)
    {
      ok := Starts(p.b, i, tok);
      if ok {
        i := i + |tok|;
      }
    }

    method Expr(depth: nat) returns (r: Result<Node, ParseError>)
      requires Valid() && depth <= MAX_DEPTH
      modifies this
      ensures Valid() && i >= old(i) && Follows(r, i, PExpr(p, old(i), depth))
      decreases |p.b| - i, 3
    {
      hide PAnd, PExprTail, SkipWs, Starts;
      ghost var spec := PExpr(p, i, depth);
      r := And(depth);
      if r.Err? { return; }
      var n := r.value;
      while true
        invariant Valid() && i > old(i)
        invariant PExprTail(p, i, depth, n) == spec
        decreases |p.b| - i
      {
        ExprStep(p, i, depth, n, SkipWs(p.b, i));
        Ws();
        var more := Eat("||");
        if !more { return Ok(n); }
        r := And(depth);
        if r.Err? { return; }
        n := Or(n, r.value);
      }
    }

    method And(depth: nat) returns (r: Result<Node, ParseError>)
      requires Valid() && depth <= MAX_DEPTH
      modifies this
      ensures Valid() && i >= old(i) && Follows(r, i, PAnd(p, old(i), depth))
      decreases |p.b| - i, 2
    {
      hide PUnit, PAndTail, SkipWs, Starts;
      ghost var spec := PAnd(p, i, depth);
      r := Unit(depth);
      if r.Err? { return; }
      var n := r.value;
      while true
        invariant Valid() && i > old(i)
        invariant PAndTail(p, i, depth, n) == spec
        decreases |p.b| - i
      {
        AndStep(p, i, depth, n, SkipWs(p.b, i));
        Ws();
        var more := Eat("&&");
        if !more { return Ok(n); }
        r := Unit(depth);
        if r.Err? { return; }
        n := Node.And(n, r.value);
      }
    }

    method Unit(depth: nat) returns (r: Result<Node, ParseError>)
      requires Valid() && depth <= MAX_DEPTH
      modifies this
      ensures Valid() && i >= old(i) && Follows(r, i, PUnit(p, old(i), depth))
      decreases |p.b| - i, 1
    {
      hide PComparison, PExpr;
      Ws();
      var open := Eat("(");
      if !open {
        r := Comparison();
        return;
      }
      if depth >= MAX_DEPTH { return Err(TooDeep); }
      r := Expr(depth + 1);
      if r.Err? { return; }
      Ws();
      var close := Eat(")");
      if !close { return Err(ExpectedClose(i)); }
    }

    method Comparison() returns (r: Result<Node, ParseError>)
      requires Valid()
      modifies this
      ensures Valid() && i >= old(i) && Follows(r, i, PComparison(p, old(i)))
    {
      hide PLhs, PickOp, PValue, SkipWs, CheckRhs;
      Ws();
      var lhs := Lhs();
      if lhs.Err? { return Err(lhs.error); }
      Ws();
      var op := Operator();
      if op.Err? { return Err(op.error); }
      Ws();
      var rhs := Value();
      if rhs.Err? { return Err(rhs.error); }
      match CheckRhs(op.value, rhs.value, i)
      case Some(e) => return Err(e);
      case None => return Ok(Cmp(lhs.value, op.value, rhs.value));
    }

    method Lhs() returns (r: Result<Operand, ParseError>)
      requires Valid()
      modifies this
      ensures Valid() && i >= old(i) && FollowsOperand(r, i, PLhs(p, old(i)))
    {
      var auth := Eat(TOKEN);
      if auth { return Ok(Auth); }
      var start := i;
      while i < |p.b| && IsIdentByte(p.b[i])
        invariant Valid() && start <= i && IdentEnd(p.b, i) == IdentEnd(p.b, start)
      {
        i := i + 1;
      }
      AsciiIsValid(p.b[start..i]);
      var field := Unwrap(p.b[start..i]);
      if !IdentOk(field) { return Err(ExpectedField(start)); }
      return Ok(Col(field));
    }

    method Operator() returns (r: Result<Op, ParseError>)
      requires Valid()
      modifies this
      ensures Valid() && i >= old(i)
      ensures match PickOp(p.b, old(i)) case Done(op, at) => r == Ok(op) && i == at case Fail(e) => r == Err(e)
      ensures r.Ok? ==> Boundary(p.b, i)
    {
      hide Starts;
      var hit := Eat("!=");
      if hit { return Ok(Ne); }
      hit := Eat("!~");
      if hit { return Ok(NotLike); }
      hit := Eat(">=");
      if hit { return Ok(Ge); }
      hit := Eat("<=");
      if hit { return Ok(Le); }
      hit := Eat("=");
      if hit { return Ok(Eq); }
      hit := Eat(">");
      if hit { return Ok(Gt); }
      hit := Eat("<");
      if hit { return Ok(Lt); }
      hit := Eat("~");
      if hit { return Ok(Like); }
      return Err(ExpectedOperator(i));
    }

    method Value() returns (r: Result<Operand, ParseError>)
      requires Valid() && Boundary(p.b, i)
      modifies this
      ensures Valid() && i >= old(i) && FollowsOperand(r, i, PValue(p, old(i)))
    {
      hide FromUtf8, Classify, PQuoted;
      var quoted := Eat("'");
      if quoted {
        SliceValid(p.b, i, |p.b|);
        assert [] + p.b[i..] == p.b[i..];
        r := Quoted();
        return;
      }
      var start := i;
      while i < |p.b| && !IsDelim(p.b[i])
        invariant Valid() && start <= i && WordEnd(p.b, i) == WordEnd(p.b, start)
      {
        i := i + 1;
      }

      SliceValid(p.b, start, i);
      r := Classify(p, Unwrap(p.b[start..i]), start);
    }

    /** The loop over a quoted string, entered after its opening quote. */
    method Quoted() returns (r: Result<Operand, ParseError>)
      requires Valid() && ValidUtf8([] + p.b[i..])
      modifies this
      ensures Valid() && i >= old(i)
      ensures match PQuoted(p.b, old(i), [])
              case Fail(e) => r == Err(e)
              case Done(text, at) => r == Ok(Val(Text(text))) && i == at
    {
      hide PQuoted, FromUtf8, Starts;
      ghost var start := i;
      var s: seq<Byte> := [];
      while true
        invariant Valid() && i >= start && ValidUtf8(s + p.b[i..])
        invariant PQuoted(p.b, i, s) == PQuoted(p.b, start, [])
        decreases |p.b| - i
      {
        QuotedStep(p.b, i, s);
        if i == |p.b| { return Err(Unterminated); }
        if p.b[i] == '\'' as int {
          i := i + 1;
          var twice := Eat("'");
          if !twice { return Ok(Val(Text(Unwrap(s)))); }
          s := s + [39];
        } else {
          s := s + [p.b[i]];
          i := i + 1;
        }
      }
    }
  }

  /** One turn of the `||` loop. */
  lemma ExprStep(p: Input, i: nat, depth: nat, n: Node, j: nat)
    requires p.Valid() && i <= |p.b| && depth <= MAX_DEPTH && j == SkipWs(p.b, i)
    ensures !Starts(p.b, j, "||") ==> PExprTail(p, i, depth, n) == Done(n, j)
    ensures Starts(p.b, j, "||") ==>
              match PAnd(p, j + 2, depth)
              case Fail(e) => PExprTail(p, i, depth, n) == Fail(e)
              case Done(m, k) => PExprTail(p, i, depth, n) == PExprTail(p, k, depth, Or(n, m))
  {
    hide PAnd;
  }

  /** One turn of the `&&` loop. */
  lemma AndStep(p: Input, i: nat, depth: nat, n: Node, j: nat)
    requires p.Valid() && i <= |p.b| && depth <= MAX_DEPTH && j == SkipWs(p.b, i)
    ensures !Starts(p.b, j, "&&") ==> PAndTail(p, i, depth, n) == Done(n, j)
    ensures Starts(p.b, j, "&&") ==>
              match PUnit(p, j + 2, depth)
              case Fail(e) => PAndTail(p, i, depth, n) == Fail(e)
              case Done(m, k) => PAndTail(p, i, depth, n) == PAndTail(p, k, depth, And(n, m))
  {
    hide PUnit;
  }

  /** One turn of the quoted-string loop. */
  lemma QuotedStep(b: seq<Byte>, i: nat, acc: seq<Byte>)
    requires i <= |b| && ValidUtf8(acc + b[i..])
    ensures i == |b| ==> PQuoted(b, i, acc) == Fail(Unterminated)
    ensures i < |b| && b[i] != 39 ==>
              ValidUtf8((acc + [b[i]]) + b[i + 1..]) && PQuoted(b, i, acc) == PQuoted(b, i + 1, acc + [b[i]])
    ensures i < |b| && b[i] == 39 && !Starts(b, i + 1, "'") ==>
              ValidUtf8(acc) && PQuoted(b, i, acc) == Done(Unwrap(acc), i + 1)
    ensures i < |b| && b[i] == 39 && Starts(b, i + 1, "'") ==>
              ValidUtf8(acc + [39] + b[i + 2..]) && PQuoted(b, i, acc) == PQuoted(b, i + 2, acc + [39])
  {
    if i < |b| {
      if b[i] == 39 {
        QuotedCut(b, i, acc);
      } else {
        assert (acc + [b[i]]) + b[i + 1..] == acc + b[i..];
      }
    }
  }

  /** `filter::parse`, run on the cursor. */
  method RunParse(realOf: RealOracle, mode: Mode, input: string) returns (r: Result<Node, ParseError>)
    ensures r == Parse(realOf, mode, input)
  {
    var bytes := Encode(input);
    if |bytes| > MAX_LEN { return Err(TooLong); }
    DecodeEncode(input);
    var parser := new Parser(Input(bytes, mode, realOf));
    r := parser.Expr(0);
    if r.Err? { return; }
    parser.Ws();
    if parser.i < |bytes| { return Err(TrailingInput(parser.i)); }
  }
}
