/**
 * The part of SQL that the filter compiler relies on: three-valued logic, SQLite's comparison rules,
 * and a reader that recovers an expression from a flat token stream by operator precedence.
 */
module Sql {
  import opened Wrappers
  import opened Decimal
  import opened FilterTree
  import opened Json
  import opened Like

  // ------------------------------------------------------------------ three-valued logic

  datatype Truth = Yes | No | Unknown

  function Of(b: bool): Truth {
    if b then Yes else No
  }

  function AndT(a: Truth, b: Truth): Truth {
    if a.No? || b.No? then No else if a.Yes? && b.Yes? then Yes else Unknown
  }

  function OrT(a: Truth, b: Truth): Truth {
    if a.Yes? || b.Yes? then Yes else if a.No? && b.No? then No else Unknown
  }

  // ------------------------------------------------------------------ values

  datatype Sql = VNull | VInt(n: int) | VReal(r: real) | VInf(positive: bool) | VText(s: string)

  /** What `json_extract` yields for a JSON value. */
  function FromJson(o: Oracles, j: Json): Sql {
    match j
    case JNull => VNull
    case JBool(b) => VInt(if b then 1 else 0)
    case JInt(n) => VInt(n)
    case JReal(r) => VReal(r)
    case JStr(s) => VText(s)
    case _ => VText(o.sqlText(j))
  }

  function FromBind(v: Value): Sql {
    match v case Integer(n) => VInt(n) case Real(f) => FromFloat(f) case Text(s) => VText(s)
  }

  /** SQLite binds a NaN as NULL. */
  function FromFloat(f: Float): Sql {
    match f case Finite(r) => VReal(r) case Infinite(p) => VInf(p) case NotANumber => VNull
  }

  function InfText(positive: bool): string {
    if positive then "Inf" else "-Inf"
  }

  function TextOf(o: Oracles, v: Sql): string {
    match v
    case VNull => ""
    case VInt(n) => Dec(n)
    case VReal(r) => o.sqlText(JReal(r))
    case VInf(p) => InfText(p)
    case VText(s) => s
  }

  predicate IsNum(v: Sql) {
    v.VInt? || v.VReal? || v.VInf?
  }

  function NumOf(v: Sql): real
    requires IsNum(v) && !v.VInf?
  {
    if v.VInt? then v.n as real else v.r
  }

  predicate NumLess(a: Sql, b: Sql)
    requires IsNum(a) && IsNum(b)
  {
    if a.VInf? then !a.positive && b != a
    else if b.VInf? then b.positive
    else NumOf(a) < NumOf(b)
  }

  predicate NumSame(a: Sql, b: Sql)
    requires IsNum(a) && IsNum(b)
  {
    if a.VInf? || b.VInf? then a == b else NumOf(a) == NumOf(b)
  }

  /** BINARY collation. */
  predicate TextLess(a: string, b: string) {
    b != "" && (a == "" || a[0] < b[0] || (a[0] == b[0] && TextLess(a[1..], b[1..])))
  }

  /** Numbers sort before text. */
  predicate Less(a: Sql, b: Sql)
    requires !a.VNull? && !b.VNull?
  {
    if IsNum(a) && IsNum(b) then NumLess(a, b)
    else if a.VText? && b.VText? then TextLess(a.s, b.s)
    else IsNum(a)
  }

  predicate Same(a: Sql, b: Sql)
    requires !a.VNull? && !b.VNull?
  {
    if IsNum(a) && IsNum(b) then NumSame(a, b) else a == b
  }

  predicate Holds(op: Op, less: bool, same: bool) {
    match op
    case Eq => same
    case Ne => !same
    case Gt => !less && !same
    case Ge => !less
    case Lt => less
    case _ => less || same
  }

  /** A comparison; NULL on either side makes it unknown. */
  function Compare(op: Op, a: Sql, b: Sql): Truth {
    if a.VNull? || b.VNull? then Unknown else Of(Holds(op, Less(a, b), Same(a, b)))
  }

  /** A TEXT column turns the number it is compared with into text. */
  function Applied(o: Oracles, v: Sql, otherIsText: bool): Sql {
    if otherIsText && IsNum(v) then VText(TextOf(o, v)) else v
  }

  /** `v LIKE pat ESCAPE '\'`. */
  function LikeTruth(o: Oracles, v: Sql, negated: bool, pat: string): Truth {
    if v.VNull? then Unknown else Of(LikeMatch(pat, TextOf(o, v)) != negated)
  }

  // ------------------------------------------------------------------ expressions

  datatype Term = Column(name: string) | Path(name: string) | Bind(k: nat) | NullTerm

  datatype Expr =
    | EOr(l: Expr, r: Expr)
    | EAnd(l: Expr, r: Expr)
    | ECmp(a: Term, op: Op, b: Term)
    | EIsNull(t: Term, negated: bool)
    | ELike(t: Term, negated: bool, pat: nat)
    | EIn(t: Term, first: nat, count: nat)

  function ColumnText(row: Row, name: string): string {
    match name
    case "id" => row.id
    case "created" => row.created
    case "updated" => row.updated
    case _ => row.collection
  }

  /** A parameter nobody bound is NULL. */
  function BindAt(binds: seq<Value>, k: nat): Sql {
    if k < |binds| then FromBind(binds[k]) else VNull
  }

  function TermValue(o: Oracles, t: Term, binds: seq<Value>, row: Row): Sql {
    match t
    case Column(name) => VText(ColumnText(row, name))
    case Path(name) => FromJson(o, Get(row.data, name))
    case Bind(k) => BindAt(binds, k)
    case NullTerm => VNull
  }

  function CompareTerms(o: Oracles, op: Op, a: Sql, aCol: bool, b: Sql, bCol: bool): Truth {
    Compare(op, Applied(o, a, bCol && !aCol), Applied(o, b, aCol && !bCol))
  }

  function InTruth(o: Oracles, v: Sql, binds: seq<Value>, first: nat, count: nat): Truth {
    if count == 0 then No
    else OrT(InTruth(o, v, binds, first, count - 1), Compare(Eq, v, BindAt(binds, first + count - 1)))
  }

  function Denote(o: Oracles, e: Expr, binds: seq<Value>, row: Row): Truth {
    match e
    case EOr(l, r) => OrT(Denote(o, l, binds, row), Denote(o, r, binds, row))
    case EAnd(l, r) => AndT(Denote(o, l, binds, row), Denote(o, r, binds, row))
    case ECmp(a, op, b) =>
      CompareTerms(o, op, TermValue(o, a, binds, row), a.Column?, TermValue(o, b, binds, row), b.Column?)
    case EIsNull(t, negated) => Of(TermValue(o, t, binds, row).VNull? != negated)
    case ELike(t, negated, pat) =>
      LikeTruth(o, TermValue(o, t, binds, row), negated, TextOf(o, BindAt(binds, pat)))
    case EIn(t, first, count) => InTruth(o, TermValue(o, t, binds, row), binds, first, count)
  }

  // ------------------------------------------------------------------ reading SQL text

  /** `Mark` is the placeholder `?`; `EscapeKw` stands for `ESCAPE '\'`. */
  datatype Tok =
    | Open | Close | Comma
    | AndKw | OrKw | NotKw | IsKw | NullKw | LikeKw | EscapeKw | InKw
    | Mark
    | Name(name: string)
    | JsonPath(name: string)
    | CmpKw(op: Op)

  /** What was read, the next token, and the next placeholder number. */
  datatype Got<T> = Got(v: T, at: nat, k: nat) | Bad

  function Peek(ts: seq<Tok>, i: nat): Option<Tok> {
    if i < |ts| then Some(ts[i]) else None
  }

  function RTerm(ts: seq<Tok>, i: nat, k: nat): (r: Got<Term>)
    ensures r.Got? ==> i < r.at <= |ts|
  {
    match Peek(ts, i)
    case Some(Name(n)) => Got(Column(n), i + 1, k)
    case Some(JsonPath(n)) => Got(Path(n), i + 1, k)
    case Some(Mark) => Got(Bind(k), i + 1, k + 1)
    case Some(NullKw) => Got(NullTerm, i + 1, k)
    case _ => Bad
  }

  /** `(, ?)* )` after the first placeholder of an IN list. */
  function RMarks(ts: seq<Tok>, i: nat, count: nat): (r: Got<nat>)
    ensures r.Got? ==> i < r.at <= |ts|
    decreases |ts| - i
  {
    if Peek(ts, i) == Some(Close) then Got(count, i + 1, 0)
    else if Peek(ts, i) == Some(Comma) && Peek(ts, i + 1) == Some(Mark) then RMarks(ts, i + 2, count + 1)
    else Bad
  }

  function RLike(ts: seq<Tok>, i: nat, k: nat, t: Term, negated: bool): (r: Got<Expr>)
    ensures r.Got? ==> i < r.at <= |ts|
  {
    if Peek(ts, i) == Some(LikeKw) && Peek(ts, i + 1) == Some(Mark) && Peek(ts, i + 2) == Some(EscapeKw)
    then Got(ELike(t, negated, k), i + 3, k + 1) else Bad
  }

  function RPred(ts: seq<Tok>, i: nat, k: nat): (r: Got<Expr>)
    ensures r.Got? ==> i < r.at <= |ts|
  {
    match RTerm(ts, i, k)
    case Bad => Bad
    case Got(t, j, k1) =>
      match Peek(ts, j)
      case Some(IsKw) =>
        if Peek(ts, j + 1) == Some(NullKw) then Got(EIsNull(t, false), j + 2, k1)
        else if Peek(ts, j + 1) == Some(NotKw) && Peek(ts, j + 2) == Some(NullKw)
        then Got(EIsNull(t, true), j + 3, k1) else Bad
      case Some(LikeKw) => RLike(ts, j, k1, t, false)
      case Some(NotKw) => RLike(ts, j + 1, k1, t, true)
      case Some(InKw) =>
        if Peek(ts, j + 1) == Some(Open) && Peek(ts, j + 2) == Some(Mark) then
          match RMarks(ts, j + 3, 1)
          case Bad => Bad
          case Got(count, m, _) => Got(EIn(t, k1, count), m, k1 + count)
        else Bad
      case Some(CmpKw(op)) =>
        (match RTerm(ts, j + 1, k1)
         case Bad => Bad
         case Got(u, m, k2) => Got(ECmp(t, op, u), m, k2))
      case _ => Bad
  }

  function RPrim(ts: seq<Tok>, i: nat, k: nat): (r: Got<Expr>)
    ensures r.Got? ==> i < r.at <= |ts|
    decreases |ts| - i, 0
  {
    if Peek(ts, i) == Some(Open) then
      match RExpr(ts, i + 1, k)
      case Bad => Bad
      case Got(e, j, k1) => if Peek(ts, j) == Some(Close) then Got(e, j + 1, k1) else Bad
    else RPred(ts, i, k)
  }

  /** AND binds tighter than OR; both associate to the left. */
  function RAnd(ts: seq<Tok>, i: nat, k: nat): (r: Got<Expr>)
    ensures r.Got? ==> i < r.at <= |ts|
    decreases |ts| - i, 1
  {
    match RPrim(ts, i, k)
    case Bad => Bad
    case Got(e, j, k1) => RAndTail(ts, j, k1, e)
  }

  function RAndTail(ts: seq<Tok>, i: nat, k: nat, acc: Expr): (r: Got<Expr>)
    requires i <= |ts|
    ensures r.Got? ==> i <= r.at <= |ts|
    decreases |ts| - i, 0
  {
    if Peek(ts, i) != Some(AndKw) then Got(acc, i, k)
    else
      match RPrim(ts, i + 1, k)
      case Bad => Bad
      case Got(e, j, k1) => RAndTail(ts, j, k1, EAnd(acc, e))
  }

  function RExpr(ts: seq<Tok>, i: nat, k: nat): (r: Got<Expr>)
    ensures r.Got? ==> i < r.at <= |ts|
    decreases |ts| - i, 2
  {
    match RAnd(ts, i, k)
    case Bad => Bad
    case Got(e, j, k1) => ROrTail(ts, j, k1, e)
  }

  function ROrTail(ts: seq<Tok>, i: nat, k: nat, acc: Expr): (r: Got<Expr>)
    requires i <= |ts|
    ensures r.Got? ==> i <= r.at <= |ts|
    decreases |ts| - i, 0
  {
    if Peek(ts, i) != Some(OrKw) then Got(acc, i, k)
    else
      match RAnd(ts, i + 1, k)
      case Bad => Bad
      case Got(e, j, k1) => ROrTail(ts, j, k1, EOr(acc, e))
  }

  /** A whole WHERE clause: the expression and the number of placeholders in it. */
  function ReadWhere(ts: seq<Tok>): Option<(Expr, nat)> {
    match RExpr(ts, 0, 0)
    case Bad => None
    case Got(e, at, k) => if at == |ts| then Some((e, k)) else None
  }

  /** A row is selected when the clause is TRUE, neither FALSE nor NULL. The clause must read as SQL
      and have one bind per placeholder. */
  predicate Selects(o: Oracles, ts: seq<Tok>, binds: seq<Value>, row: Row) {
    match ReadWhere(ts)
    case None => false
    case Some((e, k)) => k == |binds| && Denote(o, e, binds, row) == Yes
  }
}
