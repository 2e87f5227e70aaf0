/**
 * Printing a tree with minimal parentheses and doubled quotes, and the round trip through the
 * parser of src/filter.rs: reading the printed text back gives the same tree.
 */
module FilterPrinter {
  import opened Wrappers
  import opened Utf8
  import opened Decimal
  import opened FilterTree
  import opened FilterParser
  import opened FilterText
  import opened FilterWritten
  import opened FilterLanguage

  /** How floats are printed, which this model leaves to the float formatter. */
  type Show = Float -> string

  function PrintOperand(show: Show, o: Operand): string {
    match o
    case Col(w) => w
    case Auth => TOKEN
    case Null => "null"
    case Val(Integer(n)) => Dec(n)
    case Val(Text(s)) => "'" + (Doubled(s) + "'")
    case Val(Real(f)) => show(f)
  }

  /** The text of `n` where the grammar expects an expression that binds at least at `level`. */
  function Print(show: Show, n: Node, level: nat): string {
    var inner :=
      match n
      case Or(a, b) => Print(show, a, 0) + ("||" + Print(show, b, 1))
      case And(a, b) => Print(show, a, 1) + ("&&" + Print(show, b, 2))
      case Cmp(l, op, r) => PrintOperand(show, l) + (OpText(op) + PrintOperand(show, r));
    if Level(n) < level then "(" + (inner + ")") else inner
  }

  /** A float literal prints as a word that is read back as that float: not as an integer, which is
      what a whole float prints as. */
  predicate ShowsBack(mode: Mode, realOf: RealOracle, show: Show, o: Operand) {
    o.Val? && o.v.Real? ==> IsWord(show(o.v.f)) && WordFor(mode, realOf, show(o.v.f), o) && show(o.v.f)[0] != '='
  }

  predicate Printable(mode: Mode, realOf: RealOracle, show: Show, n: Node) {
    match n
    case Or(a, b) => Printable(mode, realOf, show, a) && Printable(mode, realOf, show, b)
    case And(a, b) => Printable(mode, realOf, show, a) && Printable(mode, realOf, show, b)
    case Cmp(_, _, r) => ShowsBack(mode, realOf, show, r)
  }

  // ------------------------------------------------------------------ the printed text as written

  /** A tree as the printer writes it: no white space, and parentheses only where they are needed. */
  function Written(show: Show, n: Node, level: nat): FilterWritten.Written {
    var inner :=
      match n
      case Or(a, b) => Either(Written(show, a, 0), "", Written(show, b, 1))
      case And(a, b) => Both(Written(show, a, 1), "", Written(show, b, 2))
      case Cmp(l, op, r) => Leaf("", l, "", op, "", PrintOperand(show, r), r);
    if Level(n) < level then Group("", inner, "") else inner
  }

  lemma {:induction false} WrittenTree(show: Show, n: Node, level: nat)
    ensures TreeOf(Written(show, n, level)) == n && Deep(Written(show, n, level)) == Nesting(n, level)
    decreases n
  {
    hide PrintOperand;
    match n {
      case Or(a, b) =>
        WrittenTree(show, a, 0);
        WrittenTree(show, b, 1);
      case And(a, b) =>
        WrittenTree(show, a, 1);
        WrittenTree(show, b, 2);
      case Cmp(_, _, _) =>
    }
  }

  lemma {:induction false} WrittenText(mode: Mode, realOf: RealOracle, show: Show, n: Node, level: nat)
    requires Wf(mode, realOf, n)
    ensures TextOf(Written(show, n, level)) == Print(show, n, level)
    decreases n, if level == 0 then 0 else 1
  {
    hide OpText, PrintOperand, WfRhs, OpFits;
    if level > 0 {
      WrittenText(mode, realOf, show, n, 0);
      NoBlanks(Print(show, n, 0) + ")", Print(show, n, 0));
    } else {
      match n {
        case Or(a, b) =>
          WrittenText(mode, realOf, show, a, 0);
          WrittenText(mode, realOf, show, b, 1);
          NoBlanks("||" + Print(show, b, 1), "");
        case And(a, b) =>
          WrittenText(mode, realOf, show, a, 1);
          WrittenText(mode, realOf, show, b, 2);
          NoBlanks("&&" + Print(show, b, 2), "");
        case Cmp(l, op, r) =>
          LhsPrinted(show, l);
          NoBlanks(PrintOperand(show, r), "");
          NoBlanks(OpText(op) + PrintOperand(show, r), "");
          NoBlanks(LhsOf(l) + (OpText(op) + PrintOperand(show, r)), "");
      }
    }
  }

  lemma LhsPrinted(show: Show, l: Operand)
    requires WfLhs(l)
    ensures PrintOperand(show, l) == LhsOf(l)
  {
  }

  /** Empty white space adds nothing. */
  lemma NoBlanks(s: string, t: string)
    ensures "" + s == s && "" + ")" == ")" && "" + ("(" + (t + ")")) == "(" + (t + ")")
  {
  }

  lemma {:induction false} WrittenWell(mode: Mode, realOf: RealOracle, show: Show, n: Node, level: nat)
    requires Wf(mode, realOf, n) && Printable(mode, realOf, show, n) && level <= 2
    ensures WellWritten(mode, realOf, Written(show, n, level)) && FilterWritten.Binds(Written(show, n, level)) >= level
    decreases n
  {
    hide ValueFor, PrintOperand;
    match n {
      case Or(a, b) =>
        WrittenWell(mode, realOf, show, a, 0);
        WrittenWell(mode, realOf, show, b, 1);
      case And(a, b) =>
        WrittenWell(mode, realOf, show, a, 1);
        WrittenWell(mode, realOf, show, b, 2);
      case Cmp(l, op, r) => OperandWritten(mode, realOf, show, r);
    }
  }

  lemma OperandWritten(mode: Mode, realOf: RealOracle, show: Show, v: Operand)
    requires WfRhs(mode, realOf, v) && ShowsBack(mode, realOf, show, v)
    ensures ValueFor(mode, realOf, PrintOperand(show, v), v)
    ensures PrintOperand(show, v) != "" && PrintOperand(show, v)[0] != '='
  {
    hide Dec, ParseI64, Doubled;
    match v {
      case Col(w) => IdentWord(w);
      case Auth => assert TOKEN[0] == '@';
      case Null =>
      case Val(Integer(n)) => IntegerWritten(mode, realOf, n);
      case Val(Text(s)) =>
      case Val(Real(f)) =>
    }
  }

  lemma IntegerWritten(mode: Mode, realOf: RealOracle, n: int)
    requires InI64(n)
    ensures IsWord(Dec(n)) && WordFor(mode, realOf, Dec(n), Val(Integer(n))) && Dec(n)[0] != '='
  {
    hide DecNat, ParseI64;
    ParseDec(n);
    assert forall k :: 0 <= k < |Dec(n)| ==> Dec(n)[k] == '-' || IsDigit(Dec(n)[k]);
  }

  // ------------------------------------------------------------------ the round trip

  /** Every well-formed tree, printed within the size and nesting limits, parses back to exactly that
      tree, as long as its float literals print as words that are read back as those floats. */
  lemma RoundTrip(mode: Mode, realOf: RealOracle, show: Show, n: Node)
    requires Wf(mode, realOf, n) && Printable(mode, realOf, show, n)
    requires |Encode(Print(show, n, 0))| <= MAX_LEN && Nesting(n, 0) <= MAX_DEPTH
    ensures Parse(realOf, mode, Print(show, n, 0)) == Ok(n)
  {
    hide Parse, Encode, Print, Wf, Nesting, Printable, WellWritten, TextOf, TreeOf, Deep, Written;
    WrittenTree(show, n, 0);
    WrittenText(mode, realOf, show, n, 0);
    WrittenWell(mode, realOf, show, n, 0);
    assert TextOf(Written(show, n, 0)) + "" == TextOf(Written(show, n, 0));
    WrittenParses(mode, realOf, Print(show, n, 0), Written(show, n, 0), "", n);
  }

  /** Reprinting whatever the parser accepted and reading it again changes nothing. */
  lemma Reprint(mode: Mode, realOf: RealOracle, show: Show, input: string, n: Node)
    requires Parse(realOf, mode, input) == Ok(n) && Printable(mode, realOf, show, n)
    requires |Encode(Print(show, n, 0))| <= MAX_LEN
    ensures Parse(realOf, mode, Print(show, n, 0)) == Parse(realOf, mode, input)
  {
    hide Parse, Encode, Print, Printable;
    ParseSound(realOf, mode, input);
    RoundTrip(mode, realOf, show, n);
  }

  /** A comparison written with single spaces around its operator parses to that comparison. */
  lemma SpacedParses(mode: Mode, realOf: RealOracle, show: Show, l: Operand, op: Op, r: Operand, s: string)
    requires WfLhs(l) && WfRhs(mode, realOf, r) && OpFits(op, r) && ShowsBack(mode, realOf, show, r)
    requires s == LhsOf(l) + (" " + (OpText(op) + (" " + PrintOperand(show, r)))) && |Encode(s)| <= MAX_LEN
    ensures Parse(realOf, mode, s) == Ok(Cmp(l, op, r))
  {
    hide Parse, Encode, ValueFor, OpText, PrintOperand, LhsOf;
    OperandWritten(mode, realOf, show, r);
    var w := Leaf("", l, " ", op, " ", PrintOperand(show, r), r);
    assert TextOf(w) == s && s + "" == s;
    WrittenParses(mode, realOf, s, w, "", Cmp(l, op, r));
  }
}
