/**
 * The expression tree shared by `filter=` parameters and the per-collection API rules
 * (src/filter.rs). Two backends consume it: SQL text and an in-memory evaluator.
 */
module FilterTree {
  import opened Wrappers
  import opened Decimal

  /** Filter: an unquoted word on the right is a text literal. Rule: it is a column. */
  datatype Mode = Filter | Rule

  datatype Op = Eq | Ne | Gt | Ge | Lt | Le | Like | NotLike

  /** A 64-bit float. */
  datatype Float = Finite(r: real) | Infinite(positive: bool) | NotANumber

  /** The SQL bind values the parser can produce. */
  datatype Value = Integer(n: int) | Real(f: Float) | Text(s: string)

  datatype Operand = Col(name: string) | Auth | Val(v: Value) | Null

  datatype Node =
    | Or(l: Node, r: Node)
    | And(l: Node, r: Node)
    | Cmp(lhs: Operand, op: Op, rhs: Operand)

  const TOKEN := "@request.auth.id"
  const MAX_LEN := 2048
  const MAX_DEPTH := 32

  predicate IsIdentChar(c: char) {
    'a' <= c <= 'z' || 'A' <= c <= 'Z' || '0' <= c <= '9' || c == '_'
  }

  /** `ident_ok`: the whitelist that guards every interpolated name. */
  predicate IdentOk(s: string) {
    0 < |s| <= 64 && forall k :: 0 <= k < |s| ==> IsIdentChar(s[k])
  }

  predicate IsLike(op: Op) {
    op.Like? || op.NotLike?
  }

  /** `str::parse::<f64>`, as an oracle. It reads `inf` and `nan` too. */
  type RealOracle = string -> Option<Float>

  /** A word that the parser reads as a column in rule mode. */
  predicate ColumnWord(realOf: RealOracle, w: string) {
    IdentOk(w) && w !in {"true", "false", "null"} && ParseI64(w).None? && realOf(w).None?
  }

  predicate WfLhs(lhs: Operand) {
    lhs.Auth? || (lhs.Col? && IdentOk(lhs.name))
  }

  predicate WfRhs(mode: Mode, realOf: RealOracle, rhs: Operand) {
    match rhs
    case Col(w) => mode == Rule && ColumnWord(realOf, w)
    case Val(Integer(n)) => InI64(n)
    case _ => true
  }

  /** Null is only a presence test, and a LIKE takes a literal on the right. */
  predicate OpFits(op: Op, rhs: Operand) {
    && (rhs.Null? ==> op.Eq? || op.Ne?)
    && (rhs.Col? ==> !IsLike(op))
  }

  predicate Wf(mode: Mode, realOf: RealOracle, n: Node) {
    match n
    case Or(a, b) => Wf(mode, realOf, a) && Wf(mode, realOf, b)
    case And(a, b) => Wf(mode, realOf, a) && Wf(mode, realOf, b)
    case Cmp(l, op, r) => WfLhs(l) && WfRhs(mode, realOf, r) && OpFits(op, r)
  }

  /** Binding strength: how tightly the root of a tree holds its operands together. */
  function Level(n: Node): nat {
    match n case Or(_, _) => 0 case And(_, _) => 1 case Cmp(_, _, _) => 2
  }

  function Max(a: nat, b: nat): nat {
    if a < b then b else a
  }

  /** Parenthesis nesting of the minimally parenthesised form of `n` where at least `level` is
      expected. */
  function Nesting(n: Node, level: nat): nat {
    var inner :=
      match n
      case Or(a, b) => Max(Nesting(a, 0), Nesting(b, 1))
      case And(a, b) => Max(Nesting(a, 1), Nesting(b, 2))
      case Cmp(_, _, _) => 0;
    if Level(n) < level then inner + 1 else inner
  }
}
