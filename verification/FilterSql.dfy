/**
 * The SQL backend of src/filter.rs: a tree becomes a flat token stream and a list of binds, with
 * parentheses only where SQL's own precedence needs them. The theorems read that text back with the
 * SQL reader, alone and spliced into the WHERE clauses of src/records.rs.
 */
module FilterSql {
  import opened Wrappers
  import opened Decimal
  import opened FilterTree
  import opened Json
  import opened Like
  import opened Sql

  // ------------------------------------------------------------------ emission

  predicate IsRowColumn(name: string) {
    name == "id" || name == "created" || name == "updated"
  }

  function OperandTok(x: Operand): Tok {
    match x
    case Col(f) => if IsRowColumn(f) then Name(f) else JsonPath(f)
    case Null => NullKw
    case _ => Mark
  }

  function OperandBinds(x: Operand, auth: string): seq<Value> {
    match x
    case Auth => [Text(auth)]
    case Val(v) => [v]
    case _ => []
  }

  /** The text a LIKE searches for. Floats go through the float formatter. */
  function Needle(o: Oracles, r: Operand, auth: string): string {
    match r
    case Auth => auth
    case Val(Text(s)) => s
    case Val(Integer(n)) => Dec(n)
    case Val(Real(f)) => o.realText(f)
    case _ => ""
  }

  function CmpToks(l: Operand, op: Op, r: Operand): seq<Tok> {
    if r.Null? then [Open, OperandTok(l), IsKw] + (if op.Ne? then [NotKw] else []) + [NullKw, Close]
    else if IsLike(op) then
      [Open, OperandTok(l)] + (if op.NotLike? then [NotKw] else []) + [LikeKw, Mark, EscapeKw, Close]
    else [Open, OperandTok(l), CmpKw(op), OperandTok(r), Close]
  }

  function CmpBinds(o: Oracles, l: Operand, op: Op, r: Operand, auth: string): seq<Value> {
    if r.Null? then OperandBinds(l, auth)
    else if IsLike(op) then OperandBinds(l, auth) + [Text(Pattern(Needle(o, r, auth)))]
    else OperandBinds(l, auth) + OperandBinds(r, auth)
  }

  /** What `Node::sql` appends: an OR under an AND is the only thing that gets parentheses. */
  function Toks(n: Node): seq<Tok>
    decreases n, 0
  {
    match n
    case Or(a, b) => Toks(a) + ([OrKw] + Toks(b))
    case And(a, b) => SideToks(a) + ([AndKw] + SideToks(b))
    case Cmp(l, op, r) => CmpToks(l, op, r)
  }

  function SideToks(n: Node): seq<Tok>
    decreases n, 1
  {
    if n.Or? then [Open] + (Toks(n) + [Close]) else Toks(n)
  }

  function Binds(o: Oracles, n: Node, auth: string): seq<Value> {
    match n
    case Or(a, b) => Binds(o, a, auth) + Binds(o, b, auth)
    case And(a, b) => Binds(o, a, auth) + Binds(o, b, auth)
    case Cmp(l, op, r) => CmpBinds(o, l, op, r, auth)
  }

  /** The buffer and the bind vector that the compiler pushes onto. */
  class SqlBuffer {
    var out: seq<Tok>
    var binds: seq<Value>
    const o: Oracles

    constructor (o: Oracles)
      ensures out == [] && binds == [] && this.o == o
    {
      this.o := o;
      out, binds := [], [];
    }

    method PushOperand(x: Operand, auth: string) returns (t: Tok)
      modifies this
      ensures t == OperandTok(x) && out == old(out) && binds == old(binds) + OperandBinds(x, auth)
    {
      match x {
        case Col(f) => t := if IsRowColumn(f) then Name(f) else JsonPath(f);
        case Auth =>
          binds := binds + [Text(auth)];
          t := Mark;
        case Val(v) =>
          binds := binds + [v];
          t := Mark;
        case Null => t := NullKw;
      }
    }

    method PushCmp(l: Operand, op: Op, r: Operand, auth: string)
      modifies this
      ensures out == old(out) + CmpToks(l, op, r)
      ensures binds == old(binds) + CmpBinds(o, l, op, r, auth)
    {
      hide OperandTok, OperandBinds, Needle, LikeEscape;
      var lt := PushOperand(l, auth);
      if r.Null? {
        out := out + ([Open, lt, IsKw] + (if op.Ne? then [NotKw] else []) + [NullKw, Close]);
      } else if IsLike(op) {
        out := out + ([Open, lt] + (if op.NotLike? then [NotKw] else []) + [LikeKw, Mark, EscapeKw, Close]);
        var escaped := EscapeLoop(Needle(o, r, auth));
        binds := binds + [Text("%" + (escaped + "%"))];
      } else {
        var rt := PushOperand(r, auth);
        out := out + [Open, lt, CmpKw(op), rt, Close];
      }
    }

    /** `Node::sql`. */
    method Push(n: Node, auth: string)
      modifies this
      ensures out == old(out) + Toks(n) && binds == old(binds) + Binds(o, n, auth)
      decreases n, 1
    {
      hide SideToks, CmpToks, CmpBinds;
      match n {
        case Or(a, b) =>
          Push(a, auth);
          out := out + [OrKw];
          Push(b, auth);
          assert out == old(out) + (Toks(a) + ([OrKw] + Toks(b)));
        case And(a, b) => PushAnd(a, b, auth);
        case Cmp(l, op, r) => PushCmp(l, op, r, auth);
      }
    }

    /** The loop over the two sides of an AND. */
    method PushAnd(a: Node, b: Node, auth: string)
      modifies this
      ensures out == old(out) + (SideToks(a) + ([AndKw] + SideToks(b)))
      ensures binds == old(binds) + (Binds(o, a, auth) + Binds(o, b, auth))
      decreases And(a, b), 0
    {
      hide Toks, Binds;
      ghost var out0, binds0 := out, binds;
      var sides := [a, b];
      var i := 0;
      while i < 2
        invariant 0 <= i <= 2
        invariant i == 0 ==> out == out0 && binds == binds0
        invariant i == 1 ==> out == out0 + SideToks(a) && binds == binds0 + Binds(o, a, auth)
        invariant i == 2 ==> out == out0 + (SideToks(a) + ([AndKw] + SideToks(b)))
        invariant i == 2 ==> binds == binds0 + (Binds(o, a, auth) + Binds(o, b, auth))
      {
        if i == 1 {
          out := out + [AndKw];
        }
        ghost var before := out;
        var paren := sides[i].Or?;
        if paren {
          out := out + [Open];
        }
        Push(sides[i], auth);
        if paren {
          out := out + [Close];
        }
        assert out == before + SideToks(sides[i]);
        i := i + 1;
      }
    }
  }

  /** `Node::to_sql`: the fragment, its root OR wrapped, and its binds in placeholder order. */
  method ToSql(o: Oracles, n: Node, auth: string) returns (sql: seq<Tok>, binds: seq<Value>)
    ensures sql == SideToks(n) && binds == Binds(o, n, auth)
  {
    var buf := new SqlBuffer(o);
    buf.Push(n, auth);
    sql, binds := buf.out, buf.binds;
    if n.Or? {
      sql := [Open] + (sql + [Close]);
    }
  }

  // ------------------------------------------------------------------ meaning of a tree

  function OperandValue(o: Oracles, x: Operand, auth: string, row: Row): Sql {
    match x
    case Col(f) => if IsRowColumn(f) then VText(ColumnText(row, f)) else FromJson(o, Get(row.data, f))
    case Auth => VText(auth)
    case Val(v) => FromBind(v)
    case Null => VNull
  }

  predicate IsTextColumn(x: Operand) {
    x.Col? && IsRowColumn(x.name)
  }

  function CmpMeaning(o: Oracles, l: Operand, op: Op, r: Operand, auth: string, row: Row): Truth {
    var lv := OperandValue(o, l, auth, row);
    if r.Null? then Of(lv.VNull? != op.Ne?)
    else if IsLike(op) then LikeTruth(o, lv, op.NotLike?, Pattern(Needle(o, r, auth)))
    else CompareTerms(o, op, lv, IsTextColumn(l), OperandValue(o, r, auth, row), IsTextColumn(r))
  }

  /** The three-valued meaning of a tree on a row, with no SQL text in between. */
  function Meaning(o: Oracles, n: Node, auth: string, row: Row): Truth {
    match n
    case Or(a, b) => OrT(Meaning(o, a, auth, row), Meaning(o, b, auth, row))
    case And(a, b) => AndT(Meaning(o, a, auth, row), Meaning(o, b, auth, row))
    case Cmp(l, op, r) => CmpMeaning(o, l, op, r, auth, row)
  }

  // ------------------------------------------------------------------ reading fragments back

  /** `s` stands in `ts` at position `i`. */
  predicate Here<T(==)>(ts: seq<T>, i: nat, s: seq<T>) {
    i + |s| <= |ts| && ts[i..i + |s|] == s
  }

  lemma HereConcat<T>(ts: seq<T>, i: nat, s: seq<T>, t: seq<T>)
    requires Here(ts, i, s + t)
    ensures Here(ts, i, s) && Here(ts, i + |s|, t)
  {
    var whole := ts[i..i + |s + t|];
    assert whole[..|s|] == ts[i..i + |s|] && whole[|s|..] == ts[i + |s|..i + |s| + |t|];
  }

  lemma HereAt<T>(ts: seq<T>, i: nat, s: seq<T>)
    requires Here(ts, i, s)
    ensures forall k :: 0 <= k < |s| ==> ts[i + k] == s[k]
  {
    var whole := ts[i..i + |s|];
    assert forall k :: 0 <= k < |s| ==> ts[i + k] == whole[k];
  }

  /** Everything one reading lemma is about: the text, the binds, a caller and a row. */
  datatype Run = Run(o: Oracles, ts: seq<Tok>, binds: seq<Value>, auth: string, row: Row) {
    predicate Means(e: Expr, n: Node) {
      Denote(o, e, binds, row) == Meaning(o, n, auth, row)
    }

    /** `n` was printed at token `i`, and its binds start at placeholder `k`. */
    predicate Has(n: Node, i: nat, s: seq<Tok>, k: nat) {
      Here(ts, i, s) && Here(binds, k, Binds(o, n, auth))
    }
  }

  lemma TermRead(r: Run, i: nat, k: nat, x: Operand)
    requires i < |r.ts| && r.ts[i] == OperandTok(x) && Here(r.binds, k, OperandBinds(x, r.auth))
    ensures RTerm(r.ts, i, k).Got?
    ensures RTerm(r.ts, i, k).at == i + 1 && RTerm(r.ts, i, k).k == k + |OperandBinds(x, r.auth)|
    ensures TermValue(r.o, RTerm(r.ts, i, k).v, r.binds, r.row) == OperandValue(r.o, x, r.auth, r.row)
    ensures RTerm(r.ts, i, k).v.Column? == IsTextColumn(x)
  {
    HereAt(r.binds, k, OperandBinds(x, r.auth));
    if x.Auth? || x.Val? {
      assert r.binds[k + 0] == OperandBinds(x, r.auth)[0];
    }
  }

  /** Splits what was read at a keyword. */
  lemma SplitAt<T>(ts: seq<T>, i: nat, s: seq<T>, kw: T, t: seq<T>)
    requires Here(ts, i, s + ([kw] + t))
    ensures Here(ts, i, s) && Here(ts, i + |s|, [kw] + t) && ts[i + |s|] == kw
  {
    HereConcat(ts, i, s, [kw] + t);
    HereAt(ts, i + |s|, [kw] + t);
    assert ts[i + |s| + 0] == kw;
  }

  lemma Leading<T>(ts: seq<T>, i: nat, kw: T, t: seq<T>)
    requires Here(ts, i, [kw] + t)
    ensures Here(ts, i + 1, t) && ts[i] == kw
  {
    HereConcat(ts, i, [kw], t);
    HereAt(ts, i, [kw]);
    assert ts[i + 0] == kw;
  }

  /** The same for a piece that itself starts with a keyword. */
  lemma SplitAfter<T>(ts: seq<T>, i: nat, kw: T, whole: seq<T>, s: seq<T>, t: seq<T>)
    requires whole == s + ([kw] + t) && Here(ts, i, [kw] + whole)
    ensures Here(ts, i, [kw] + s) && Here(ts, i + 1 + |s|, [kw] + t) && ts[i + 1 + |s|] == kw
  {
    assert [kw] + whole == ([kw] + s) + ([kw] + t);
    SplitAt(ts, i, [kw] + s, kw, t);
  }

  /** A parenthesised comparison reads as one unit that means what the comparison means. */
  lemma CmpRead(r: Run, i: nat, k: nat, n: Node) returns (e: Expr)
    requires n.Cmp? && r.Has(n, i, Toks(n), k)
    ensures RPrim(r.ts, i, k) == Got(e, i + |Toks(n)|, k + |Binds(r.o, n, r.auth)|) && r.Means(e, n)
  {
    hide RPrim, RPred, RTerm, Denote, CmpMeaning, OperandBinds, CmpBinds;
    var l, s := n.lhs, Toks(n);
    HereAt(r.ts, i, s);
    assert r.ts[i + 0] == s[0] && r.ts[i + 1] == s[1] && r.ts[i + (|s| - 1)] == s[|s| - 1];
    var k1;
    if n.rhs.Null? {
      e, k1 := NullRead(r, i, k, n);
    } else if IsLike(n.op) {
      e, k1 := LikeRead(r, i, k, n);
    } else {
      e, k1 := CompareRead(r, i, k, n);
    }
    PredIsPrim(r.ts, i, k, e, i + |s| - 1, k1);
  }

  lemma NullRead(r: Run, i: nat, k: nat, n: Node) returns (e: Expr, k1: nat)
    requires n.Cmp? && n.rhs.Null? && r.Has(n, i, Toks(n), k)
    ensures RPred(r.ts, i + 1, k) == Got(e, i + |Toks(n)| - 1, k1) && k1 == k + |Binds(r.o, n, r.auth)|
    ensures r.Means(e, n)
  {
    hide RTerm;
    var s := Toks(n);
    HereAt(r.ts, i, s);
    assert r.ts[i + 1] == s[1] && r.ts[i + 2] == s[2] && r.ts[i + 3] == s[3];
    assert n.op.Ne? ==> r.ts[i + 4] == s[4];
    TermRead(r, i + 1, k, n.lhs);
    k1 := RTerm(r.ts, i + 1, k).k;
    e := EIsNull(RTerm(r.ts, i + 1, k).v, n.op.Ne?);
  }

  lemma LikeRead(r: Run, i: nat, k: nat, n: Node) returns (e: Expr, k1: nat)
    requires n.Cmp? && !n.rhs.Null? && IsLike(n.op) && r.Has(n, i, Toks(n), k)
    ensures RPred(r.ts, i + 1, k) == Got(e, i + |Toks(n)| - 1, k1) && k1 == k + |Binds(r.o, n, r.auth)|
    ensures r.Means(e, n)
  {
    hide RTerm, Pattern, LikeMatch, Needle, OperandTok, OperandBinds;
    var s, lb := Toks(n), OperandBinds(n.lhs, r.auth);
    var rest := [Text(Pattern(Needle(r.o, n.rhs, r.auth)))];
    HereConcat(r.binds, k, lb, rest);
    HereAt(r.binds, k + |lb|, rest);
    assert r.binds[k + |lb| + 0] == rest[0];
    HereAt(r.ts, i, s);
    assert r.ts[i + 1] == s[1] && r.ts[i + 2] == s[2] && r.ts[i + 3] == s[3] && r.ts[i + 4] == s[4];
    assert n.op.NotLike? ==> r.ts[i + 5] == s[5];
    TermRead(r, i + 1, k, n.lhs);
    e := ELike(RTerm(r.ts, i + 1, k).v, n.op.NotLike?, k + |lb|);
    k1 := k + |lb| + 1;
  }

  lemma CompareRead(r: Run, i: nat, k: nat, n: Node) returns (e: Expr, k1: nat)
    requires n.Cmp? && !n.rhs.Null? && !IsLike(n.op) && r.Has(n, i, Toks(n), k)
    ensures RPred(r.ts, i + 1, k) == Got(e, i + |Toks(n)| - 1, k1) && k1 == k + |Binds(r.o, n, r.auth)|
    ensures r.Means(e, n)
  {
    hide RTerm, CompareTerms, OperandTok, OperandBinds;
    var s, lb := Toks(n), OperandBinds(n.lhs, r.auth);
    HereConcat(r.binds, k, lb, OperandBinds(n.rhs, r.auth));
    HereAt(r.ts, i, s);
    assert r.ts[i + 1] == s[1] && r.ts[i + 2] == s[2] && r.ts[i + 3] == s[3];
    TermRead(r, i + 1, k, n.lhs);
    TermRead(r, i + 3, k + |lb|, n.rhs);
    var u := RTerm(r.ts, i + 3, k + |lb|);
    e := ECmp(RTerm(r.ts, i + 1, k).v, n.op, u.v);
    k1 := u.k;
  }

  /** A predicate alone inside parentheses is a unit: nothing joins it to the closing one. */
  lemma PredIsPrim(ts: seq<Tok>, i: nat, k: nat, e: Expr, j: nat, k1: nat)
    requires Peek(ts, i) == Some(Open) && Peek(ts, j) == Some(Close) && Peek(ts, i + 1) != Some(Open)
    requires RPred(ts, i + 1, k) == Got(e, j, k1)
    ensures RPrim(ts, i, k) == Got(e, j + 1, k1)
  {
    hide RPred;
    assert RPrim(ts, i + 1, k) == Got(e, j, k1);
    assert RAndTail(ts, j, k1, e) == Got(e, j, k1);
    assert RAnd(ts, i + 1, k) == Got(e, j, k1);
    assert RExpr(ts, i + 1, k) == Got(e, j, k1);
  }

  predicate Stops(ts: seq<Tok>, j: nat) {
    j <= |ts| && Peek(ts, j) != Some(AndKw)
  }

  /** A side of an AND that is not itself an AND reads as one unit. */
  lemma {:induction false} UnitRead(r: Run, i: nat, k: nat, n: Node) returns (e: Expr)
    requires !n.And? && r.Has(n, i, SideToks(n), k)
    ensures RPrim(r.ts, i, k) == Got(e, i + |SideToks(n)|, k + |Binds(r.o, n, r.auth)|) && r.Means(e, n)
    decreases n, if n.Or? then 3 else 0
  {
    hide RPred, RAnd, RExpr, Denote, Meaning, CmpToks, CmpBinds;
    if n.Cmp? {
      e := CmpRead(r, i, k, n);
    } else {
      e := ParenRead(r, i, k, n);
    }
  }

  /** Any tree between parentheses reads as one unit. */
  lemma {:induction false} ParenRead(r: Run, i: nat, k: nat, n: Node) returns (e: Expr)
    requires r.Has(n, i, [Open] + (Toks(n) + [Close]), k)
    ensures RPrim(r.ts, i, k) == Got(e, i + |Toks(n)| + 2, k + |Binds(r.o, n, r.auth)|) && r.Means(e, n)
    decreases n, if n.Or? then 2 else 4
  {
    hide RPred, RAnd, RAndTail, Denote, Meaning, Binds, Toks;
    HereConcat(r.ts, i, [Open], Toks(n) + [Close]);
    HereConcat(r.ts, i + 1, Toks(n), [Close]);
    var j := i + 1 + |Toks(n)|;
    HereAt(r.ts, i, [Open]);
    HereAt(r.ts, j, [Close]);
    assert r.ts[i + 0] == Open && r.ts[j + 0] == Close;
    e := ExprRead(r, i + 1, k, n);
  }

  /** A conjunct chain read from its start leaves the reader with what the chain means. */
  lemma {:induction false} ChainRead(r: Run, i: nat, k: nat, n: Node) returns (e: Expr)
    requires r.Has(n, i, SideToks(n), k)
    ensures RAnd(r.ts, i, k) == RAndTail(r.ts, i + |SideToks(n)|, k + |Binds(r.o, n, r.auth)|, e)
    ensures r.Means(e, n)
    decreases n, if n.Or? then 4 else 1
  {
    hide RPrim, RAndTail, Denote, Meaning, Toks, SideToks, Binds;
    match n {
      case And(a, b) =>
        AndUnfolds(r, a, b);
        AndParts(r, i, k, a, b);
        e := ChainRead(r, i, k, a);
        e := ChainNext(r, i + |SideToks(a)|, k + |Binds(r.o, a, r.auth)|, b, e);
      case _ =>
        e := UnitRead(r, i, k, n);
    }
  }

  /** A conjunct chain read after an AND adds its meaning to what was read before it. */
  lemma {:induction false} ChainNext(r: Run, i: nat, k: nat, n: Node, acc: Expr) returns (e: Expr)
    requires r.Has(n, i, [AndKw] + SideToks(n), k)
    ensures RAndTail(r.ts, i, k, acc) == RAndTail(r.ts, i + 1 + |SideToks(n)|, k + |Binds(r.o, n, r.auth)|, e)
    ensures Denote(r.o, e, r.binds, r.row) ==
            AndT(Denote(r.o, acc, r.binds, r.row), Meaning(r.o, n, r.auth, r.row))
    decreases n, if n.Or? then 4 else 1
  {
    hide RPrim, RAndTail, Denote, Meaning, Toks, SideToks, Binds;
    match n {
      case And(a, b) =>
        AndUnfolds(r, a, b);
        AndNextParts(r, i, k, a, b);
        var f := ChainNext(r, i, k, a, acc);
        e := ChainNext(r, i + 1 + |SideToks(a)|, k + |Binds(r.o, a, r.auth)|, b, f);
      case _ =>
        Leading(r.ts, i, AndKw, SideToks(n));
        var u := UnitRead(r, i + 1, k, n);
        AndStep(r.ts, i, k, acc, u, i + 1 + |SideToks(n)|, k + |Binds(r.o, n, r.auth)|);
        JoinMeans(r, acc, u);
        e := EAnd(acc, u);
    }
  }

  lemma AndParts(r: Run, i: nat, k: nat, a: Node, b: Node)
    requires r.Has(And(a, b), i, SideToks(And(a, b)), k)
    ensures r.Has(a, i, SideToks(a), k)
    ensures r.Has(b, i + |SideToks(a)|, [AndKw] + SideToks(b), k + |Binds(r.o, a, r.auth)|)
  {
    hide Toks, SideToks, Binds, Meaning;
    AndUnfolds(r, a, b);
    SplitAt(r.ts, i, SideToks(a), AndKw, SideToks(b));
    HereConcat(r.binds, k, Binds(r.o, a, r.auth), Binds(r.o, b, r.auth));
  }

  /** A tree not followed by AND reads as a whole expression: `Expr` in front of a closing
      parenthesis or the end, a disjunct chain in front of OR. */
  lemma {:induction false} DisjunctRead(r: Run, i: nat, k: nat, n: Node) returns (e: Expr)
    requires r.Has(n, i, Toks(n), k) && Stops(r.ts, i + |Toks(n)|)
    ensures RExpr(r.ts, i, k) == ROrTail(r.ts, i + |Toks(n)|, k + |Binds(r.o, n, r.auth)|, e)
    ensures r.Means(e, n)
    decreases n, if n.Or? then 0 else 2
  {
    hide RPrim, RAnd, ROrTail, Denote, Meaning, Toks, SideToks, Binds;
    match n {
      case Or(a, b) =>
        OrUnfolds(r, a, b);
        OrParts(r, i, k, a, b);
        var f := DisjunctRead(r, i, k, a);
        e := DisjunctNext(r, i + |Toks(a)|, k + |Binds(r.o, a, r.auth)|, b, f);
      case _ =>
        NoParens(n);
        e := ChainRead(r, i, k, n);
        ChainIsDisjunct(r.ts, i, k, e, i + |Toks(n)|, k + |Binds(r.o, n, r.auth)|);
    }
  }

  lemma {:induction false} DisjunctNext(r: Run, i: nat, k: nat, n: Node, acc: Expr) returns (e: Expr)
    requires r.Has(n, i, [OrKw] + Toks(n), k) && Stops(r.ts, i + 1 + |Toks(n)|)
    ensures ROrTail(r.ts, i, k, acc) == ROrTail(r.ts, i + 1 + |Toks(n)|, k + |Binds(r.o, n, r.auth)|, e)
    ensures Denote(r.o, e, r.binds, r.row) ==
            OrT(Denote(r.o, acc, r.binds, r.row), Meaning(r.o, n, r.auth, r.row))
    decreases n, if n.Or? then 0 else 2
  {
    hide RPrim, RAnd, RAndTail, ROrTail, Denote, Meaning, Toks, SideToks, Binds;
    match n {
      case Or(a, b) =>
        OrUnfolds(r, a, b);
        OrNextParts(r, i, k, a, b);
        var f := DisjunctNext(r, i, k, a, acc);
        e := DisjunctNext(r, i + 1 + |Toks(a)|, k + |Binds(r.o, a, r.auth)|, b, f);
      case _ =>
        NoParens(n);
        Leading(r.ts, i, OrKw, Toks(n));
        var u := ChainRead(r, i + 1, k, n);
        JoinMeans(r, acc, u);
        OrStep(r.ts, i, k, acc, u, i + 1 + |Toks(n)|, k + |Binds(r.o, n, r.auth)|);
        e := EOr(acc, u);
    }
  }

  lemma OrUnfolds(r: Run, a: Node, b: Node)
    ensures Toks(Or(a, b)) == Toks(a) + ([OrKw] + Toks(b))
    ensures Binds(r.o, Or(a, b), r.auth) == Binds(r.o, a, r.auth) + Binds(r.o, b, r.auth)
    ensures Meaning(r.o, Or(a, b), r.auth, r.row) ==
            OrT(Meaning(r.o, a, r.auth, r.row), Meaning(r.o, b, r.auth, r.row))
  {
  }

  lemma AndUnfolds(r: Run, a: Node, b: Node)
    ensures SideToks(And(a, b)) == SideToks(a) + ([AndKw] + SideToks(b))
    ensures Binds(r.o, And(a, b), r.auth) == Binds(r.o, a, r.auth) + Binds(r.o, b, r.auth)
    ensures Meaning(r.o, And(a, b), r.auth, r.row) ==
            AndT(Meaning(r.o, a, r.auth, r.row), Meaning(r.o, b, r.auth, r.row))
  {
  }

  lemma AndNextParts(r: Run, i: nat, k: nat, a: Node, b: Node)
    requires r.Has(And(a, b), i, [AndKw] + SideToks(And(a, b)), k)
    ensures r.Has(a, i, [AndKw] + SideToks(a), k)
    ensures r.Has(b, i + 1 + |SideToks(a)|, [AndKw] + SideToks(b), k + |Binds(r.o, a, r.auth)|)
  {
    hide Toks, SideToks, Binds, Meaning;
    AndUnfolds(r, a, b);
    SplitAfter(r.ts, i, AndKw, SideToks(And(a, b)), SideToks(a), SideToks(b));
    HereConcat(r.binds, k, Binds(r.o, a, r.auth), Binds(r.o, b, r.auth));
  }

  lemma OrNextParts(r: Run, i: nat, k: nat, a: Node, b: Node)
    requires r.Has(Or(a, b), i, [OrKw] + Toks(Or(a, b)), k)
    ensures r.Has(a, i, [OrKw] + Toks(a), k) && Stops(r.ts, i + 1 + |Toks(a)|)
    ensures r.Has(b, i + 1 + |Toks(a)|, [OrKw] + Toks(b), k + |Binds(r.o, a, r.auth)|)
  {
    hide Toks, SideToks, Binds, Meaning;
    OrUnfolds(r, a, b);
    SplitAfter(r.ts, i, OrKw, Toks(Or(a, b)), Toks(a), Toks(b));
    HereConcat(r.binds, k, Binds(r.o, a, r.auth), Binds(r.o, b, r.auth));
  }

  lemma NoParens(n: Node)
    requires !n.Or?
    ensures SideToks(n) == Toks(n)
  {
  }

  lemma JoinMeans(r: Run, a: Expr, b: Expr)
    ensures Denote(r.o, EAnd(a, b), r.binds, r.row) ==
            AndT(Denote(r.o, a, r.binds, r.row), Denote(r.o, b, r.binds, r.row))
    ensures Denote(r.o, EOr(a, b), r.binds, r.row) ==
            OrT(Denote(r.o, a, r.binds, r.row), Denote(r.o, b, r.binds, r.row))
  {
  }

  lemma ChainIsDisjunct(ts: seq<Tok>, i: nat, k: nat, e: Expr, j: nat, k1: nat)
    requires Stops(ts, j) && RAnd(ts, i, k) == RAndTail(ts, j, k1, e)
    ensures RExpr(ts, i, k) == ROrTail(ts, j, k1, e)
  {
    hide RAnd, RPrim, ROrTail;
  }

  lemma AndStep(ts: seq<Tok>, i: nat, k: nat, acc: Expr, u: Expr, j: nat, k1: nat)
    requires Peek(ts, i) == Some(AndKw) && RPrim(ts, i + 1, k) == Got(u, j, k1)
    ensures RAndTail(ts, i, k, acc) == RAndTail(ts, j, k1, EAnd(acc, u))
  {
    hide RPrim;
  }

  lemma OrStep(ts: seq<Tok>, i: nat, k: nat, acc: Expr, u: Expr, j: nat, k1: nat)
    requires Peek(ts, i) == Some(OrKw) && Stops(ts, j) && RAnd(ts, i + 1, k) == RAndTail(ts, j, k1, u)
    ensures ROrTail(ts, i, k, acc) == ROrTail(ts, j, k1, EOr(acc, u))
  {
    hide RAnd;
  }

  lemma OrParts(r: Run, i: nat, k: nat, a: Node, b: Node)
    requires r.Has(Or(a, b), i, Toks(Or(a, b)), k)
    ensures r.Has(a, i, Toks(a), k)
    ensures r.Has(b, i + |Toks(a)|, [OrKw] + Toks(b), k + |Binds(r.o, a, r.auth)|)
    ensures r.ts[i + |Toks(a)|] == OrKw
  {
    hide Toks, Binds, Meaning;
    OrUnfolds(r, a, b);
    SplitAt(r.ts, i, Toks(a), OrKw, Toks(b));
    HereConcat(r.binds, k, Binds(r.o, a, r.auth), Binds(r.o, b, r.auth));
  }

  lemma {:induction false} ExprRead(r: Run, i: nat, k: nat, n: Node) returns (e: Expr)
    requires r.Has(n, i, Toks(n), k)
    requires var t := Peek(r.ts, i + |Toks(n)|); t == None || t == Some(Close)
    ensures RExpr(r.ts, i, k) == Got(e, i + |Toks(n)|, k + |Binds(r.o, n, r.auth)|) && r.Means(e, n)
    decreases n, if n.Or? then 1 else 3
  {
    hide RPred, RPrim, RAnd, RExpr, CmpToks, CmpBinds, Denote, Meaning;
    e := DisjunctRead(r, i, k, n);
  }
}
