/**
 * The central claim of src/filter.rs: the in-memory backend and the SQL backend give the same
 * verdict. Whether they do can be told from the values alone, for every tree and every row.
 */
module Backends {
  import opened Wrappers
  import opened Decimal
  import opened FilterTree
  import opened Json
  import opened Like
  import opened Sql
  import opened FilterSql
  import opened FilterEval

  // ------------------------------------------------------------------ one object, one row

  /** The value a column name stands for on a row. */
  function ColumnJson(row: Row, name: string): Json {
    if IsRowColumn(name) then JStr(ColumnText(row, name)) else Get(row.data, name)
  }

  predicate AgreesOnOperand(x: Operand, data: Object, row: Row) {
    x.Col? ==> Get(data, x.name) == ColumnJson(row, x.name)
  }

  /** The object and the row hold the same values under every name the tree mentions. */
  predicate AgreesOn(n: Node, data: Object, row: Row) {
    match n
    case Or(a, b) => AgreesOn(a, data, row) && AgreesOn(b, data, row)
    case And(a, b) => AgreesOn(a, data, row) && AgreesOn(b, data, row)
    case Cmp(l, _, r) => AgreesOnOperand(l, data, row) && AgreesOnOperand(r, data, row)
  }

  /** The object that holds what the row holds, under every name. */
  function RowObject(row: Row): Object {
    row.data["id" := JStr(row.id)]["created" := JStr(row.created)]["updated" := JStr(row.updated)]
  }

  lemma {:induction false} RowObjectAgrees(n: Node, row: Row)
    ensures AgreesOn(n, RowObject(row), row)
  {
    if !n.Cmp? {
      RowObjectAgrees(n.l, row);
      RowObjectAgrees(n.r, row);
    }
  }

  // ------------------------------------------------------------------ where the backends part ways

  predicate IsOrdering(op: Op) {
    op.Gt? || op.Ge? || op.Lt? || op.Le?
  }

  /** The number a JSON value stands for, not rounded to a 64-bit float. */
  function ExactNum(v: Json): real
    requires Num(v).Some?
  {
    match v case JBool(b) => if b then 1.0 else 0.0 case JInt(n) => n as real case JReal(r) => r
  }

  /** Two numbers on whose order the rounding to 64-bit floats has a say. */
  predicate RoundingShows(op: Op, lv: Json, rv: Json)
    requires Num(lv).Some? && Num(rv).Some?
  {
    CompareNums(op, Num(lv).value, Num(rv).value) != CompareNums(op, ExactNum(lv), ExactNum(rv))
  }

  function SqlSpelling(o: Oracles, v: Json): string {
    TextOf(o, FromJson(o, v))
  }

  /** How a value sorts when it is not compared as a number with a number: a TEXT column on either
      side turns a number into text. */
  datatype Side = Amount | Words(s: string)

  function SideOf(o: Oracles, v: Json, asText: bool): Side {
    if Num(v).Some? && !asText then Amount else Words(SqlSpelling(o, v))
  }

  /** Numbers come before text. */
  predicate SortsBefore(a: Side, b: Side) {
    match (a, b) case (Words(s), Words(t)) => TextLess(s, t) case (Amount, Words(_)) => true case _ => false
  }

  predicate SameWords(a: Side, b: Side) {
    a.Words? && a == b
  }

  /** Under an ordering operator: SQL orders what is not two numbers, memory never does. */
  predicate TextOrders(op: Op, a: Side, b: Side) {
    Holds(op, SortsBefore(a, b), SameWords(a, b))
  }

  predicate Found(hay: string, needle: string) {
    Contains(Lower(hay), Lower(needle))
  }

  /** Under a LIKE: the needle is in one spelling of the value and not in the other. A literal that is
      not a finite number is NULL in memory, where nothing is found, and has a spelling in SQL. */
  predicate SpellingShows(o: Oracles, op: Op, needle: string, lv: Json, rv: Json) {
    if rv.JNull? then Found(SqlSpelling(o, lv), needle) == op.Like?
    else Found(SqlSpelling(o, lv), needle) != Found(TextOfJson(o, lv), TextOfJson(o, rv))
  }

  /** An infinite literal is NULL in memory and beyond every number in SQL. */
  predicate InfinityShows(o: Oracles, op: Op, lv: Json, asText: bool, positive: bool) {
    if Num(lv).Some? && !asText then Holds(op, positive, false)
    else TextOrders(op, SideOf(o, lv, asText), if asText then Words(InfText(positive)) else Amount)
  }

  /** The comparisons on which the two backends differ, told from the values compared. */
  predicate PartWays(o: Oracles, l: Operand, op: Op, r: Operand, auth: string, lv: Json, rv: Json) {
    var asText := IsTextColumn(l) || IsTextColumn(r);
    if r.Null? || lv.JNull? then false
    else if IsLike(op) then SpellingShows(o, op, Needle(o, r, auth), lv, rv)
    else if r.Val? && r.v.Real? && r.v.f.Infinite? then InfinityShows(o, op, lv, asText, r.v.f.positive)
    else if rv.JNull? then false
    else if Num(lv).Some? && Num(rv).Some? then RoundingShows(op, lv, rv)
    else if IsOrdering(op) then TextOrders(op, SideOf(o, lv, asText), SideOf(o, rv, asText))
    else SameWords(SideOf(o, lv, asText), SideOf(o, rv, asText)) != (lv == rv)
  }

  predicate ApartAt(o: Oracles, l: Operand, op: Op, r: Operand, auth: string, data: Object) {
    PartWays(o, l, op, r, auth, OperandJson(l, auth, data), OperandJson(r, auth, data))
  }

  /** The evaluator as it would be if each comparison on which SQL differs went SQL's way. */
  predicate EvalSql(o: Oracles, n: Node, auth: string, data: Object) {
    match n
    case Or(a, b) => EvalSql(o, a, auth, data) || EvalSql(o, b, auth, data)
    case And(a, b) => EvalSql(o, a, auth, data) && EvalSql(o, b, auth, data)
    case Cmp(l, op, r) => Eval(o, n, auth, data) != ApartAt(o, l, op, r, auth, data)
  }

  // ------------------------------------------------------------------ leaves

  /** Both sides are ordinary values: neither NULL, and no infinite literal. */
  predicate Ordinary(l: Operand, r: Operand, lv: Json, rv: Json) {
    && !lv.JNull? && !rv.JNull?
    && (IsTextColumn(l) ==> lv.JStr?) && (IsTextColumn(r) ==> rv.JStr?)
  }

  lemma SqlNumber(o: Oracles, v: Json)
    requires !v.JNull?
    ensures Num(v).Some? <==> IsNum(FromJson(o, v))
    ensures Num(v).Some? ==> !FromJson(o, v).VInf? && NumOf(FromJson(o, v)) == ExactNum(v)
    ensures Num(v).None? ==> FromJson(o, v) == VText(SqlSpelling(o, v))
  {
  }

  /** A comparison in SQL, told from the values. */
  lemma CompareIs(o: Oracles, l: Operand, op: Op, r: Operand, lv: Json, rv: Json)
    requires Ordinary(l, r, lv, rv) && !IsLike(op)
    ensures CompareTerms(o, op, FromJson(o, lv), IsTextColumn(l), FromJson(o, rv), IsTextColumn(r)) == Yes <==>
            if Num(lv).Some? && Num(rv).Some? then CompareNums(op, ExactNum(lv), ExactNum(rv))
            else
              TextOrders(op, SideOf(o, lv, IsTextColumn(l) || IsTextColumn(r)),
                         SideOf(o, rv, IsTextColumn(l) || IsTextColumn(r)))
  {
    hide TextLess, Dec;
    SqlNumber(o, lv);
    SqlNumber(o, rv);
  }

  lemma InfinityIs(o: Oracles, l: Operand, op: Op, lv: Json, positive: bool)
    requires !lv.JNull? && !IsLike(op) && (IsTextColumn(l) ==> lv.JStr?)
    ensures CompareTerms(o, op, FromJson(o, lv), IsTextColumn(l), VInf(positive), false) == Yes <==>
            InfinityShows(o, op, lv, IsTextColumn(l), positive)
  {
    hide TextLess, Dec;
    SqlNumber(o, lv);
  }

  lemma OperandMatches(o: Oracles, x: Operand, auth: string, data: Object, row: Row)
    requires AgreesOnOperand(x, data, row)
    ensures OperandValue(o, x, auth, row) ==
            if x.Val? && x.v.Real? then FromFloat(x.v.f) else FromJson(o, OperandJson(x, auth, data))
    ensures IsTextColumn(x) ==> OperandJson(x, auth, data).JStr?
    ensures x.Val? && x.v.Real? && x.v.f.Finite? ==> FromFloat(x.v.f) == FromJson(o, OperandJson(x, auth, data))
  {
  }

  lemma LikeIs(o: Oracles, op: Op, needle: string, lv: Json)
    requires IsLike(op) && !lv.JNull?
    ensures LikeTruth(o, FromJson(o, lv), op.NotLike?, Pattern(needle)) == Yes <==>
            (Found(SqlSpelling(o, lv), needle) == op.Like?)
  {
    hide LikeMatch, Pattern, Contains, Lower, Dec;
    LikeIsContains(needle, SqlSpelling(o, lv));
  }

  /** One comparison: SQL selects the row exactly when the evaluator grants it or the two part ways,
      and not both. */
  lemma LeafExact(o: Oracles, l: Operand, op: Op, r: Operand, auth: string, data: Object, row: Row)
    requires AgreesOn(Cmp(l, op, r), data, row) && WfLhs(l) && OpFits(op, r)
    ensures CmpMeaning(o, l, op, r, auth, row) == Yes <==>
            (Eval(o, Cmp(l, op, r), auth, data) != ApartAt(o, l, op, r, auth, data))
  {
    hide LikeTruth, Pattern, Contains, Lower, Dec, CompareTerms, Needle, SideOf, TextOrders, InfinityShows, TextLess;
    var lv, rv := OperandJson(l, auth, data), OperandJson(r, auth, data);
    OperandMatches(o, l, auth, data, row);
    OperandMatches(o, r, auth, data, row);
    if !r.Null? && !lv.JNull? {
      if IsLike(op) {
        LikeIs(o, op, Needle(o, r, auth), lv);
      } else if r.Val? && r.v.Real? && !r.v.f.Finite? {
        if r.v.f.Infinite? {
          InfinityIs(o, l, op, lv, r.v.f.positive);
        } else {
          NullCompares(o, op, FromJson(o, lv), IsTextColumn(l));
        }
      } else if rv.JNull? {
        NullCompares(o, op, FromJson(o, lv), IsTextColumn(l));
      } else {
        CompareIs(o, l, op, r, lv, rv);
        TextOrdersEq(op, SideOf(o, lv, IsTextColumn(l) || IsTextColumn(r)),
                     SideOf(o, rv, IsTextColumn(l) || IsTextColumn(r)));
      }
    } else if lv.JNull? {
      NullLeft(o, op, r, auth, OperandValue(o, r, auth, row), IsTextColumn(l), IsTextColumn(r));
    }
  }

  lemma NullCompares(o: Oracles, op: Op, v: Sql, aCol: bool)
    ensures CompareTerms(o, op, v, aCol, VNull, false) == Unknown
    ensures CompareTerms(o, op, v, aCol, VNull, true) == Unknown
  {
  }

  lemma NullLeft(o: Oracles, op: Op, r: Operand, auth: string, v: Sql, aCol: bool, bCol: bool)
    ensures CompareTerms(o, op, VNull, aCol, v, bCol) == Unknown
    ensures LikeTruth(o, VNull, op.NotLike?, Pattern(Needle(o, r, auth))) == Unknown
  {
  }

  lemma TextOrdersEq(op: Op, a: Side, b: Side)
    ensures op.Eq? ==> (TextOrders(op, a, b) <==> SameWords(a, b))
    ensures op.Ne? ==> (TextOrders(op, a, b) <==> !SameWords(a, b))
  {
  }

  // ------------------------------------------------------------------ trees

  /** What SQL selects, for every tree and every row, is what the corrected evaluator grants on the
      values of that row. */
  lemma {:induction false} SqlIsEvalSql(o: Oracles, mode: Mode, n: Node, auth: string, data: Object, row: Row)
    requires Wf(mode, o.realOf, n) && AgreesOn(n, data, row)
    ensures Meaning(o, n, auth, row) == Yes <==> EvalSql(o, n, auth, data)
  {
    hide Eval, ApartAt, CmpMeaning;
    match n
    case Or(a, b) =>
      SqlIsEvalSql(o, mode, a, auth, data, row);
      SqlIsEvalSql(o, mode, b, auth, data, row);
    case And(a, b) =>
      SqlIsEvalSql(o, mode, a, auth, data, row);
      SqlIsEvalSql(o, mode, b, auth, data, row);
    case Cmp(l, op, r) =>
      LeafExact(o, l, op, r, auth, data, row);
  }

  /** Exactly when the two backends agree on a tree, and exactly when what the evaluator grants the
      SQL backend selects: both told from the values alone. */
  lemma AgreeExactly(o: Oracles, mode: Mode, n: Node, auth: string, data: Object, row: Row)
    requires Wf(mode, o.realOf, n) && AgreesOn(n, data, row)
    ensures (Eval(o, n, auth, data) <==> Meaning(o, n, auth, row) == Yes) <==>
            (Eval(o, n, auth, data) == EvalSql(o, n, auth, data))
    ensures (Eval(o, n, auth, data) ==> Meaning(o, n, auth, row) == Yes) <==>
            (Eval(o, n, auth, data) ==> EvalSql(o, n, auth, data))
  {
    hide Eval, EvalSql, Meaning, Wf, AgreesOn;
    SqlIsEvalSql(o, mode, n, auth, data, row);
  }

  /** No comparison of the tree is granted in memory and refused by SQL. */
  predicate NothingLost(o: Oracles, n: Node, auth: string, data: Object) {
    match n
    case Or(a, b) => NothingLost(o, a, auth, data) && NothingLost(o, b, auth, data)
    case And(a, b) => NothingLost(o, a, auth, data) && NothingLost(o, b, auth, data)
    case Cmp(l, op, r) => !(Eval(o, n, auth, data) && ApartAt(o, l, op, r, auth, data))
  }

  /** The backends part ways at no comparison of the tree. */
  predicate NowhereApart(o: Oracles, n: Node, auth: string, data: Object) {
    match n
    case Or(a, b) => NowhereApart(o, a, auth, data) && NowhereApart(o, b, auth, data)
    case And(a, b) => NowhereApart(o, a, auth, data) && NowhereApart(o, b, auth, data)
    case Cmp(l, op, r) => !ApartAt(o, l, op, r, auth, data)
  }

  /** If no comparison loses what memory grants, then whatever memory grants SQL selects: the tree has
      no negation, so the implication lifts through && and ||. */
  lemma {:induction false} EvalImpliesSql(o: Oracles, mode: Mode, n: Node, auth: string, data: Object, row: Row)
    requires Wf(mode, o.realOf, n) && AgreesOn(n, data, row) && NothingLost(o, n, auth, data)
    ensures Eval(o, n, auth, data) ==> Meaning(o, n, auth, row) == Yes
  {
    hide ApartAt, CmpMeaning;
    match n
    case Or(a, b) =>
      EvalImpliesSql(o, mode, a, auth, data, row);
      EvalImpliesSql(o, mode, b, auth, data, row);
    case And(a, b) =>
      EvalImpliesSql(o, mode, a, auth, data, row);
      EvalImpliesSql(o, mode, b, auth, data, row);
    case Cmp(l, op, r) =>
      LeafExact(o, l, op, r, auth, data, row);
  }

  lemma {:induction false} BackendsAgree(o: Oracles, mode: Mode, n: Node, auth: string, data: Object, row: Row)
    requires Wf(mode, o.realOf, n) && AgreesOn(n, data, row) && NowhereApart(o, n, auth, data)
    ensures Eval(o, n, auth, data) <==> Meaning(o, n, auth, row) == Yes
  {
    hide ApartAt, CmpMeaning;
    match n
    case Or(a, b) =>
      BackendsAgree(o, mode, a, auth, data, row);
      BackendsAgree(o, mode, b, auth, data, row);
    case And(a, b) =>
      BackendsAgree(o, mode, a, auth, data, row);
      BackendsAgree(o, mode, b, auth, data, row);
    case Cmp(l, op, r) =>
      LeafExact(o, l, op, r, auth, data, row);
  }

  // ------------------------------------------------------------------ everyday values

  /** A scalar whose number, if it is one, survives the trip through a 64-bit float. */
  predicate Plain(v: Json) {
    match v
    case JInt(n) => FitsF64(n)
    case JArr(_) => false
    case JObj(_) => false
    case _ => true
  }

  predicate TextOrNull(v: Json) {
    v.JStr? || v.JNull?
  }

  /** Everyday values: a LIKE searches text or integers; other operators compare plain scalars; a TEXT
      column is not compared with a number; literals are finite. */
  predicate CmpFits(l: Operand, op: Op, r: Operand, lv: Json, rv: Json) {
    if r.Null? then true
    else if r.Val? && r.v.Real? && !r.v.f.Finite? then false
    else if IsLike(op) then (TextOrNull(lv) || lv.JInt?) && (r.Auth? || r.Val?) && !rv.JReal?
    else
      && Plain(lv) && Plain(rv)
      && (IsTextColumn(l) ==> TextOrNull(rv))
      && (IsTextColumn(r) ==> TextOrNull(lv))
  }

  predicate Fits(n: Node, auth: string, data: Object) {
    match n
    case Or(a, b) => Fits(a, auth, data) && Fits(b, auth, data)
    case And(a, b) => Fits(a, auth, data) && Fits(b, auth, data)
    case Cmp(l, op, r) => CmpFits(l, op, r, OperandJson(l, auth, data), OperandJson(r, auth, data))
  }

  predicate OrdersNumbers(op: Op, lv: Json, rv: Json) {
    IsOrdering(op) ==> lv.JNull? || rv.JNull? || (Num(lv).Some? && Num(rv).Some?)
  }

  /** Ordering operators see only numbers (or nothing). */
  predicate Numeric(n: Node, auth: string, data: Object) {
    match n
    case Or(a, b) => Numeric(a, auth, data) && Numeric(b, auth, data)
    case And(a, b) => Numeric(a, auth, data) && Numeric(b, auth, data)
    case Cmp(l, op, r) => r.Null? || OrdersNumbers(op, OperandJson(l, auth, data), OperandJson(r, auth, data))
  }

  /** On everyday values the backends part ways exactly where an ordering operator meets something
      that is not two numbers and the values are in that order as text. */
  lemma EverydayApart(o: Oracles, l: Operand, op: Op, r: Operand, auth: string, data: Object, row: Row)
    requires Fits(Cmp(l, op, r), auth, data) && WfLhs(l) && OpFits(op, r) && AgreesOn(Cmp(l, op, r), data, row)
    ensures var lv, rv := OperandJson(l, auth, data), OperandJson(r, auth, data);
            var asText := IsTextColumn(l) || IsTextColumn(r);
            ApartAt(o, l, op, r, auth, data) <==>
            !r.Null? && !OrdersNumbers(op, lv, rv) && TextOrders(op, SideOf(o, lv, asText), SideOf(o, rv, asText))
    ensures !Numeric(Cmp(l, op, r), auth, data) ==> !Eval(o, Cmp(l, op, r), auth, data)
  {
    hide Found, Dec, SortsBefore, SqlSpelling, Needle;
    var lv, rv := OperandJson(l, auth, data), OperandJson(r, auth, data);
    if !r.Null? {
      if IsLike(op) {
        if !lv.JNull? {
          EverydayLike(o, l, op, r, auth, lv, rv, data);
        }
      } else {
        EverydayExact(lv);
        EverydayExact(rv);
        EverydaySpelling(o, lv);
        EverydaySpelling(o, rv);
      }
    }
  }

  /** So on everyday values SQL selects exactly what memory grants and, besides, what an ordering
      operator finds in order as text. */
  lemma EverydayExactly(o: Oracles, l: Operand, op: Op, r: Operand, auth: string, data: Object, row: Row)
    requires Fits(Cmp(l, op, r), auth, data) && WfLhs(l) && OpFits(op, r) && AgreesOn(Cmp(l, op, r), data, row)
    ensures var lv, rv := OperandJson(l, auth, data), OperandJson(r, auth, data);
            var asText := IsTextColumn(l) || IsTextColumn(r);
            CmpMeaning(o, l, op, r, auth, row) == Yes <==>
            Eval(o, Cmp(l, op, r), auth, data) ||
            (!r.Null? && !OrdersNumbers(op, lv, rv) && TextOrders(op, SideOf(o, lv, asText), SideOf(o, rv, asText)))
  {
    hide Eval, CmpMeaning, ApartAt, TextOrders, SideOf, AgreesOn, Fits;
    LeafExact(o, l, op, r, auth, data, row);
    EverydayApart(o, l, op, r, auth, data, row);
  }

  lemma EverydayLike(o: Oracles, l: Operand, op: Op, r: Operand, auth: string, lv: Json, rv: Json, data: Object)
    requires IsLike(op) && CmpFits(l, op, r, lv, rv) && !r.Null? && rv == OperandJson(r, auth, data) && !lv.JNull?
    ensures !rv.JNull? && !SpellingShows(o, op, Needle(o, r, auth), lv, rv)
  {
    hide Found, Dec;
  }

  lemma EverydaySpelling(o: Oracles, v: Json)
    ensures v.JStr? ==> SqlSpelling(o, v) == v.s
  {
  }

  lemma EverydayExact(v: Json)
    requires Plain(v)
    ensures Num(v).Some? ==> Num(v) == Some(ExactNum(v))
  {
    if v.JInt? {
      F64Exact(v.n);
    }
  }

  /** On everyday values nothing is lost, and if ordering operators see only numbers the backends
      agree. */
  lemma {:induction false} EverydayValues(o: Oracles, mode: Mode, n: Node, auth: string, data: Object, row: Row)
    requires Wf(mode, o.realOf, n) && Fits(n, auth, data) && AgreesOn(n, data, row)
    ensures NothingLost(o, n, auth, data)
    ensures Numeric(n, auth, data) ==> NowhereApart(o, n, auth, data)
  {
    hide ApartAt, TextOrders, SideOf;
    match n
    case Or(a, b) =>
      EverydayValues(o, mode, a, auth, data, row);
      EverydayValues(o, mode, b, auth, data, row);
    case And(a, b) =>
      EverydayValues(o, mode, a, auth, data, row);
      EverydayValues(o, mode, b, auth, data, row);
    case Cmp(l, op, r) =>
      EverydayApart(o, l, op, r, auth, data, row);
  }

  // ------------------------------------------------------------------ the families that part ways

  /** Two strings under an ordering operator: false in memory, so the backends agree exactly when the
      strings are not in that order. */
  lemma OrderedText(o: Oracles, f: string, op: Op, s: string, t: string, auth: string, row: Row)
    requires !IsRowColumn(f) && IsOrdering(op) && Get(row.data, f) == JStr(s)
    ensures !Eval(o, Cmp(Col(f), op, Val(Text(t))), auth, row.data)
    ensures Meaning(o, Cmp(Col(f), op, Val(Text(t))), auth, row) == Yes <==> Holds(op, TextLess(s, t), s == t)
  {
    hide TextLess;
  }

  /** A string under an ordering operator with a number sorts after it. */
  lemma TextAgainstNumber(o: Oracles, f: string, op: Op, s: string, b: int, auth: string, row: Row)
    requires !IsRowColumn(f) && !IsLike(op) && Get(row.data, f) == JStr(s)
    ensures (Eval(o, Cmp(Col(f), op, Val(Integer(b))), auth, row.data) <==>
             Meaning(o, Cmp(Col(f), op, Val(Integer(b))), auth, row) == Yes) <==>
            !(op.Gt? || op.Ge?)
  {
  }

  /** Two integers that one 64-bit float stands for, in the order that the operator tells apart. */
  predicate RoundsAway(op: Op, a: int, b: int) {
    F64(a) == F64(b) &&
    match op
    case Eq => a != b
    case Ne => a != b
    case Lt => a < b
    case Ge => a < b
    case _ => a > b
  }

  lemma RoundingExactly(op: Op, a: int, b: int)
    requires !IsLike(op)
    ensures CompareNums(op, F64(a) as real, F64(b) as real) != CompareNums(op, a as real, b as real) <==>
            RoundsAway(op, a, b)
  {
    hide F64;
    if a <= b {
      F64Monotone(a, b);
    }
    if b <= a {
      F64Monotone(b, a);
    }
  }

  /** Two integers under any operator: the backends agree exactly when rounding does not bring the two
      together in the order the operator asks about. Under =, <= and >= it is then memory that
      grants what SQL refuses. */
  lemma LargeIntegers(o: Oracles, f: string, op: Op, a: int, b: int, auth: string, row: Row)
    requires !IsRowColumn(f) && !IsLike(op) && Get(row.data, f) == JInt(a)
    ensures (Eval(o, Cmp(Col(f), op, Val(Integer(b))), auth, row.data) <==>
             Meaning(o, Cmp(Col(f), op, Val(Integer(b))), auth, row) == Yes) <==>
            !RoundsAway(op, a, b)
    ensures RoundsAway(op, a, b) ==>
              (Eval(o, Cmp(Col(f), op, Val(Integer(b))), auth, row.data) <==> op.Eq? || op.Le? || op.Ge?)
  {
    hide F64;
    RoundingExactly(op, a, b);
  }

  /** The first such pair: 2^53 and 2^53 + 1. */
  lemma LargeIntegersExist()
    ensures RoundsAway(Eq, TWO53, TWO53 + 1)
  {
    F64Exact(TWO53);
    assert Spacing(TWO53 / 2) == 1 && Spacing(TWO53 + 1) == 2;
  }

  /** A TEXT column against an integer: SQL compares it with the integer's decimal text, memory sees a
      string and a number. They agree under = and != exactly when the column is not that text, and
      under an ordering operator exactly when the texts are not in that order. */
  lemma TextColumnAgainstNumber(o: Oracles, c: string, op: Op, k: int, auth: string, row: Row)
    requires IsRowColumn(c) && !IsLike(op)
    ensures (Eval(o, Cmp(Col(c), op, Val(Integer(k))), auth, RowObject(row)) <==>
             Meaning(o, Cmp(Col(c), op, Val(Integer(k))), auth, row) == Yes) <==>
            if op.Eq? || op.Ne? then ColumnText(row, c) != Dec(k)
            else !Holds(op, TextLess(ColumnText(row, c), Dec(k)), ColumnText(row, c) == Dec(k))
    ensures Eval(o, Cmp(Col(c), op, Val(Integer(k))), auth, RowObject(row)) <==> op.Ne?
  {
    hide TextLess, Dec;
  }

  /** Under a LIKE a boolean is searched as `true`/`false` in memory and as `1`/`0` in SQL; the
      backends agree exactly when the needle is found in both texts or in neither. */
  lemma BooleanLike(o: Oracles, f: string, op: Op, b: bool, needle: string, auth: string, row: Row)
    requires !IsRowColumn(f) && IsLike(op) && Get(row.data, f) == JBool(b)
    ensures (Eval(o, Cmp(Col(f), op, Val(Text(needle))), auth, row.data) <==>
             Meaning(o, Cmp(Col(f), op, Val(Text(needle))), auth, row) == Yes) <==>
            (Found(if b then "true" else "false", needle) <==> Found(if b then "1" else "0", needle))
  {
    hide LikeMatch, Pattern, Contains, Lower;
    LikeIsContains(needle, if b then "1" else "0");
    assert Dec(1) == "1" && Dec(0) == "0";
  }

  /** A number against an infinite literal: NULL in memory, so the backends agree exactly when the
      operator does not put the number on its side of infinity. */
  lemma NumberAgainstInfinity(o: Oracles, f: string, op: Op, positive: bool, auth: string, row: Row)
    requires !IsRowColumn(f) && !IsLike(op) && Num(Get(row.data, f)).Some?
    ensures !Eval(o, Cmp(Col(f), op, Val(Real(Infinite(positive)))), auth, row.data)
    ensures Meaning(o, Cmp(Col(f), op, Val(Real(Infinite(positive)))), auth, row) == Yes <==>
            op.Ne? || (if positive then op.Lt? || op.Le? else op.Gt? || op.Ge?)
  {
  }
}
