/** The in-memory backend of src/filter.rs: a two-valued evaluator over a JSON object. */
module FilterEval {
  import opened Wrappers
  import opened Decimal
  import opened FilterTree
  import opened Json
  import opened Like

  const TWO53 := 0x20_0000_0000_0000

  /** The spacing of 64-bit floats at the magnitude of `n`. */
  function Spacing(n: nat): (u: nat)
    ensures u >= 1
  {
    if n < TWO53 then 1 else 2 * Spacing(n / 2)
  }

  /** The nearest multiple of `u`, an even one on a tie. */
  function RoundTo(n: nat, u: nat): nat
    requires u >= 1
  {
    var q, r := n / u, n % u;
    if 2 * r > u || (2 * r == u && q % 2 == 1) then (q + 1) * u else q * u
  }

  function F64OfNat(n: nat): nat {
    RoundTo(n, Spacing(n))
  }

  /** `as f64` of an integer: rounds to nearest, ties to even. */
  function F64(n: int): int {
    if n < 0 then -(F64OfNat(-n) as int) else F64OfNat(n)
  }

  predicate FitsF64(n: int) {
    -TWO53 <= n <= TWO53
  }

  lemma F64Exact(n: int)
    requires FitsF64(n)
    ensures F64(n) == n
  {
    var m: nat := if n < 0 then -n else n;
    assert Spacing(TWO53 / 2) == 1;
    assert m == TWO53 ==> Spacing(m) == 2;
  }

  /** Spacing doubles from one binade to the next, and a number takes at most 53 bits of it. */
  lemma {:induction false} SpacingBounds(n: nat)
    ensures n < TWO53 * Spacing(n) && (Spacing(n) > 1 ==> TWO53 / 2 * Spacing(n) <= n)
  {
    if n >= TWO53 {
      SpacingBounds(n / 2);
    }
  }

  lemma {:induction false} SpacingGrows(n: nat, m: nat)
    requires n <= m
    ensures Spacing(n) == Spacing(m) || 2 * Spacing(n) <= Spacing(m)
  {
    if n >= TWO53 {
      SpacingGrows(n / 2, m / 2);
    }
  }

  lemma RoundToBounds(n: nat, u: nat)
    requires u >= 1
    ensures n / u * u <= RoundTo(n, u) <= (n / u + 1) * u
  {
  }

  lemma RoundToMonotone(n: nat, m: nat, u: nat)
    requires u >= 1 && n <= m
    ensures RoundTo(n, u) <= RoundTo(m, u)
  {
    hide RoundTo;
    QuotientMonotone(n, m, u);
    if n / u < m / u {
      RoundToBounds(n, u);
      RoundToBounds(m, u);
      TimesMonotone(n / u + 1, m / u, u);
    } else {
      SameQuotient(n, m, u);
    }
  }

  lemma SameQuotient(n: nat, m: nat, u: nat)
    requires u >= 1 && n <= m && n / u == m / u
    ensures RoundTo(n, u) <= RoundTo(m, u)
  {
    assert n == n / u * u + n % u && m == m / u * u + m % u;
  }

  lemma QuotientMonotone(n: nat, m: nat, u: nat)
    requires u >= 1 && n <= m
    ensures n / u <= m / u
  {
    assert n == n / u * u + n % u && m == m / u * u + m % u;
    if n / u > m / u {
      TimesMonotone(m / u + 1, n / u, u);
    }
  }

  lemma TimesMonotone(a: nat, b: nat, u: nat)
    requires a <= b
    ensures a * u <= b * u
  {
    assert b * u == a * u + (b - a) * u;
  }

  lemma F64OfNatMonotone(n: nat, m: nat)
    requires n <= m
    ensures F64OfNat(n) <= F64OfNat(m)
  {
    hide RoundTo, Spacing;
    SpacingGrows(n, m);
    if Spacing(n) == Spacing(m) {
      RoundToMonotone(n, m, Spacing(n));
    } else {
      SpacingBounds(n);
      SpacingBounds(m);
      CrossingBinades(n, Spacing(n), m, Spacing(m));
    }
  }

  /** Between them lies the boundary of a binade, on which both spacings have a point. */
  lemma CrossingBinades(n: nat, u: nat, m: nat, v: nat)
    requires u >= 1 && 2 * u <= v && n < TWO53 * u && TWO53 / 2 * v <= m
    ensures RoundTo(n, u) <= RoundTo(m, v)
  {
    hide RoundTo;
    RoundToBounds(n, u);
    RoundToBounds(m, v);
    Below(n, u, TWO53);
    AtLeast(m, v, TWO53 / 2);
  }

  lemma Below(n: nat, u: nat, b: nat)
    requires u >= 1 && n < b * u
    ensures (n / u + 1) * u <= b * u
  {
    assert n == n / u * u + n % u;
    if n / u + 1 > b {
      TimesMonotone(b, n / u, u);
    } else {
      TimesMonotone(n / u + 1, b, u);
    }
  }

  lemma AtLeast(m: nat, v: nat, b: nat)
    requires v >= 1 && b * v <= m
    ensures b * v <= m / v * v
  {
    assert m == m / v * v + m % v;
    if m / v < b {
      TimesMonotone(m / v + 1, b, v);
    } else {
      TimesMonotone(b, m / v, v);
    }
  }

  /** Rounding to a 64-bit float never turns an order around. */
  lemma F64Monotone(a: int, b: int)
    requires a <= b
    ensures F64(a) <= F64(b)
  {
    hide F64OfNat;
    if 0 <= a {
      F64OfNatMonotone(a, b);
    } else if b < 0 {
      F64OfNatMonotone(-b, -a);
    }
  }

  /** `num`: booleans count as 1 and 0. */
  function Num(v: Json): Option<real> {
    match v
    case JBool(b) => Some(if b then 1.0 else 0.0)
    case JInt(n) => Some(F64(n) as real)
    case JReal(r) => Some(r)
    case _ => None
  }

  /** `text`. */
  function TextOfJson(o: Oracles, v: Json): string {
    match v
    case JStr(s) => s
    case JBool(b) => if b then "true" else "false"
    case JInt(n) => Dec(n)
    case JNull => "null"
    case _ => o.serdeText(v)
  }

  /** `Operand::json`. */
  function OperandJson(x: Operand, auth: string, data: Object): Json {
    match x
    case Col(f) => Get(data, f)
    case Auth => JStr(auth)
    case Val(Text(s)) => JStr(s)
    case Val(Integer(n)) => JInt(n)
    case Val(Real(f)) => if f.Finite? then JReal(f.r) else JNull
    case Null => JNull
  }

  predicate CompareNums(op: Op, a: real, b: real) {
    match op
    case Eq => a == b
    case Ne => a != b
    case Gt => a > b
    case Ge => a >= b
    case Lt => a < b
    case _ => a <= b
  }

  predicate CompareJson(o: Oracles, op: Op, lv: Json, rv: Json) {
    if lv.JNull? || rv.JNull? then false
    else if IsLike(op) then
      Contains(Lower(TextOfJson(o, lv)), Lower(TextOfJson(o, rv))) == op.Like?
    else
      match (Num(lv), Num(rv))
      case (Some(a), Some(b)) => CompareNums(op, a, b)
      case _ => if op.Eq? then lv == rv else if op.Ne? then lv != rv else false
  }

  /** `Node::eval`. */
  predicate Eval(o: Oracles, n: Node, auth: string, data: Object) {
    match n
    case Or(a, b) => Eval(o, a, auth, data) || Eval(o, b, auth, data)
    case And(a, b) => Eval(o, a, auth, data) && Eval(o, b, auth, data)
    case Cmp(l, op, r) =>
      var lv := OperandJson(l, auth, data);
      if r.Null? then lv.JNull? == op.Eq?
      else CompareJson(o, op, lv, OperandJson(r, auth, data))
  }
}
