/**
 * The written language of src/filter.rs: what text stands for what tree, said without a parser. White
 * space may stand between any two tokens, and any comparison or group in any number of parentheses.
 * Whatever is written this way within the limits, the parser reads as the tree it stands for.
 */
module FilterWritten {
  import opened Wrappers
  import opened Utf8
  import opened Decimal
  import opened FilterTree
  import opened FilterParser
  import opened FilterText

  // ------------------------------------------------------------------ the language

  /** An expression as it was written. The strings `ws` are white space; `rhs` is the text of `r`. */
  datatype Written =
    | Leaf(ws0: string, l: Operand, ws1: string, op: Op, ws2: string, rhs: string, r: Operand)
    | Group(ws0: string, inner: Written, ws1: string)
    | Both(left: Written, ws: string, right: Written)
    | Either(left: Written, ws: string, right: Written)

  function LhsOf(l: Operand): string {
    if l.Col? then l.name else TOKEN
  }

  function TextOf(w: Written): string {
    match w
    case Leaf(ws0, l, ws1, op, ws2, rhs, _) => ws0 + (LhsOf(l) + (ws1 + (OpText(op) + (ws2 + rhs))))
    case Group(ws0, inner, ws1) => ws0 + ("(" + (TextOf(inner) + (ws1 + ")")))
    case Both(a, ws, b) => TextOf(a) + (ws + ("&&" + TextOf(b)))
    case Either(a, ws, b) => TextOf(a) + (ws + ("||" + TextOf(b)))
  }

  function TreeOf(w: Written): Node {
    match w
    case Leaf(_, l, _, op, _, _, r) => Cmp(l, op, r)
    case Group(_, inner, _) => TreeOf(inner)
    case Both(a, _, b) => And(TreeOf(a), TreeOf(b))
    case Either(a, _, b) => Or(TreeOf(a), TreeOf(b))
  }

  /** How deep the parentheses go, as written. */
  function Deep(w: Written): nat {
    match w
    case Leaf(_, _, _, _, _, _, _) => 0
    case Group(_, inner, _) => 1 + Deep(inner)
    case Both(a, _, b) => Max(Deep(a), Deep(b))
    case Either(a, _, b) => Max(Deep(a), Deep(b))
  }

  /** How tightly the root of a written expression binds: 0 for `||`, 1 for `&&`, 2 for a unit. */
  function Binds(w: Written): nat {
    match w case Either(_, _, _) => 0 case Both(_, _, _) => 1 case _ => 2
  }

  predicate IsDelimChar(c: char) {
    c as int < 0x80 && IsDelim(c as int)
  }

  /** A word that is no keyword, no integer and no float. */
  predicate Unmarked(realOf: RealOracle, w: string) {
    w != TOKEN && w !in {"true", "false", "null"} && ParseI64(w).None? && realOf(w).None?
  }

  /** What a bare word stands for: an unmarked one is a column in a rule and text in a filter. */
  predicate WordFor(mode: Mode, realOf: RealOracle, w: string, v: Operand) {
    match v
    case Auth => w == TOKEN
    case Null => w == "null"
    case Val(Integer(n)) => (w == "true" && n == 1) || (w == "false" && n == 0) || ParseI64(w) == Some(n)
    case Val(Real(f)) =>
      w != TOKEN && w !in {"true", "false", "null"} && ParseI64(w).None? && realOf(w) == Some(f)
    case Val(Text(t)) => mode == Filter && t == w && Unmarked(realOf, w)
    case Col(c) => mode == Rule && c == w && Unmarked(realOf, w) && IdentOk(w)
  }

  /** Free of delimiters. */
  predicate IsWord(s: string) {
    s != "" && forall k :: 0 <= k < |s| ==> !IsDelimChar(s[k])
  }

  /** A quoted string, its quotes doubled, or a bare word. */
  predicate ValueFor(mode: Mode, realOf: RealOracle, s: string, v: Operand) {
    || (v.Val? && v.v.Text? && s == "'" + (Doubled(v.v.s) + "'"))
    || (IsWord(s) && WordFor(mode, realOf, s, v))
  }

  /** Well-formed writing. The one thing that may not touch is a `>` or `<` and a value that starts with
      `=`: that would be another operator. */
  predicate WellWritten(mode: Mode, realOf: RealOracle, w: Written) {
    match w
    case Leaf(ws0, l, ws1, op, ws2, rhs, r) =>
      && Blank(ws0) && Blank(ws1) && Blank(ws2)
      && WfLhs(l) && ValueFor(mode, realOf, rhs, r) && OpFits(op, r)
      && ((op.Gt? || op.Lt?) && ws2 == "" ==> rhs[0] != '=')
    case Group(ws0, inner, ws1) => Blank(ws0) && WellWritten(mode, realOf, inner) && Blank(ws1)
    case Both(a, ws, b) =>
      WellWritten(mode, realOf, a) && Blank(ws) && WellWritten(mode, realOf, b) && Binds(a) >= 1 && Binds(b) == 2
    case Either(a, ws, b) => WellWritten(mode, realOf, a) && Blank(ws) && WellWritten(mode, realOf, b) && Binds(b) >= 1
  }

  /** The text `s` says the tree `n`, in at most 32 levels of parentheses. */
  predicate Says(mode: Mode, realOf: RealOracle, s: string, w: Written, end: string, n: Node) {
    WellWritten(mode, realOf, w) && Blank(end) && s == TextOf(w) + end && TreeOf(w) == n && Deep(w) <= MAX_DEPTH
  }

  // ------------------------------------------------------------------ operands

  lemma {:induction false} PlainBytes(s: string)
    requires forall k :: 0 <= k < |s| ==> !IsDelimChar(s[k])
    ensures forall k :: 0 <= k < |Encode(s)| ==> !IsDelim(Encode(s)[k])
  {
    hide IsDelim;
    if s != "" {
      assert !IsDelimChar(s[0]);
      PlainChar(s[0]);
      PlainBytes(s[1..]);
    }
  }

  lemma PlainChar(c: char)
    requires !IsDelimChar(c)
    ensures forall k :: 0 <= k < |EncodeChar(c)| ==> !IsDelim(EncodeChar(c)[k])
  {
    if c as int >= 0x80 {
      HighBytes(c);
    }
  }

  lemma HighBytes(c: char)
    requires c as int >= 0x80
    ensures forall k :: 0 <= k < |EncodeChar(c)| ==> EncodeChar(c)[k] >= 0x80
  {
  }

  lemma WordClassified(p: Input, i: nat, w: string, v: Operand)
    requires WordFor(p.mode, p.realOf, w, v) && w != ""
    ensures Classify(p, w, i) == Ok(v)
  {
    hide ParseI64;
    KeywordsAreNoNumbers();
  }

  lemma KeywordsAreNoNumbers()
    ensures ParseI64(TOKEN).None? && ParseI64("true").None? && ParseI64("false").None? && ParseI64("null").None?
    ensures TOKEN != "true" && TOKEN != "false" && TOKEN != "null"
  {
    assert TOKEN[0] == '@' && "true"[0] == 't' && "false"[0] == 'f' && "null"[0] == 'n';
  }

  /** What follows a value: the end, white space, or a joining or closing token. */
  predicate AfterValue(b: seq<Byte>, e: nat) {
    e == |b| || (e < |b| && IsDelim(b[e]) && b[e] != '\'' as int)
  }

  lemma WordRead(p: Input, i: nat, w: string, v: Operand)
    requires p.Valid() && At(p.b, i, w) && Boundary(p.b, i) && AfterValue(p.b, End(i, w))
    requires IsWord(w) && WordFor(p.mode, p.realOf, w, v)
    ensures PValue(p, i) == Done(v, End(i, w))
    ensures i < |p.b| && !IsWs(p.b[i])
  {
    hide Encode, FromUtf8, Classify, WordFor;
    PlainBytes(w);
    EncodedNotEmpty(w);
    var j, piece := End(i, w), p.b[i..End(i, w)];
    assert forall k :: i <= k < j ==> p.b[k] == piece[k - i];
    WordRun(p.b, i, j);
    DecodeEncode(w);
    NotStarts(p.b, i, "'");
    WordClassified(p, i, w, v);
  }

  lemma EncodedNotEmpty(s: string)
    requires s != ""
    ensures Encode(s) != []
  {
  }

  lemma QuotedRead(p: Input, i: nat, s: string)
    requires p.Valid() && At(p.b, i, "'" + (Doubled(s) + "'")) && Boundary(p.b, i)
    requires AfterValue(p.b, End(i, "'" + (Doubled(s) + "'")))
    ensures PValue(p, i) == Done(Val(Text(s)), End(i, "'" + (Doubled(s) + "'")))
    ensures i < |p.b| && !IsWs(p.b[i])
  {
    hide Encode, FromUtf8, PQuoted, Doubled;
    var body := Doubled(s) + "'";
    AtConcat(p.b, i, "'", body);
    AtAscii(p.b, i, "'");
    assert p.b[i] == "'"[0] as int;
    SliceValid(p.b, i + 1, |p.b|);
    EncodeEmpty();
    assert Encode("") + p.b[i + 1..] == p.b[i + 1..];
    QuotedText(p.b, i + 1, "", s);
    assert "" + s == s;
  }

  lemma ValueRead(p: Input, i: nat, s: string, v: Operand)
    requires p.Valid() && At(p.b, i, s) && Boundary(p.b, i) && AfterValue(p.b, End(i, s))
    requires ValueFor(p.mode, p.realOf, s, v)
    ensures PValue(p, i) == Done(v, End(i, s))
    ensures i < |p.b| && !IsWs(p.b[i])
  {
    hide At, PValue, WordFor, End, Doubled, IsDelim;
    if v.Val? && v.v.Text? && s == "'" + (Doubled(v.v.s) + "'") {
      QuotedRead(p, i, v.v.s);
    } else {
      WordRead(p, i, s, v);
    }
  }

  lemma IdentWord(w: string)
    requires IdentOk(w)
    ensures Ascii(w) && w != TOKEN && forall k :: 0 <= k < |w| ==> IsIdentByte(w[k] as int) && !IsDelimChar(w[k])
  {
    assert TOKEN[0] == '@';
    forall k | 0 <= k < |w|
      ensures w[k] as int < 0x80 && IsIdentByte(w[k] as int) && !IsDelimChar(w[k])
    {
      assert IsIdentChar(w[k]);
    }
  }

  lemma LhsRead(p: Input, i: nat, l: Operand)
    requires p.Valid() && WfLhs(l) && At(p.b, i, LhsOf(l))
    requires End(i, LhsOf(l)) < |p.b| && !IsIdentByte(p.b[End(i, LhsOf(l))])
    ensures PLhs(p, i) == Done(l, End(i, LhsOf(l)))
    ensures i < |p.b| && !IsWs(p.b[i]) && p.b[i] != '(' as int
  {
    hide Encode, FromUtf8;
    match l {
      case Auth =>
        AtAscii(p.b, i, TOKEN);
        assert p.b[i] == TOKEN[0] as int == '@' as int;
      case Col(w) =>
        IdentWord(w);
        AtAscii(p.b, i, w);
        assert p.b[i] == w[0] as int && TOKEN[0] == '@' && IsIdentByte(p.b[i]);
        NotStarts(p.b, i, TOKEN);
        var j := End(i, w);
        assert forall k :: i <= k < j ==> IsIdentByte(p.b[k]);
        IdentRun(p.b, i, j);
        DecodeEncode(w);
    }
  }

  // ------------------------------------------------------------------ leaves

  /** Where the five pieces of a written comparison stand. */
  predicate LeafAt(b: seq<Byte>, i: nat, w: Written, i1: nat, i2: nat, i3: nat, i4: nat, i5: nat)
    requires w.Leaf?
  {
    && At(b, i, w.ws0) && i1 == End(i, w.ws0)
    && At(b, i1, LhsOf(w.l)) && i2 == End(i1, LhsOf(w.l))
    && At(b, i2, w.ws1) && i3 == End(i2, w.ws1)
    && At(b, i3, OpText(w.op)) && i4 == End(i3, OpText(w.op))
    && At(b, i4, w.ws2) && i5 == End(i4, w.ws2)
    && At(b, i5, w.rhs)
  }

  lemma LeafPieces(b: seq<Byte>, i: nat, w: Written) returns (i1: nat, i2: nat, i3: nat, i4: nat, i5: nat)
    requires w.Leaf? && At(b, i, TextOf(w))
    ensures LeafAt(b, i, w, i1, i2, i3, i4, i5) && End(i, TextOf(w)) == End(i5, w.rhs)
  {
    hide At, End, LhsOf, OpText;
    AtConcat(b, i, w.ws0, LhsOf(w.l) + (w.ws1 + (OpText(w.op) + (w.ws2 + w.rhs))));
    i1 := End(i, w.ws0);
    AtConcat(b, i1, LhsOf(w.l), w.ws1 + (OpText(w.op) + (w.ws2 + w.rhs)));
    i2 := End(i1, LhsOf(w.l));
    AtConcat(b, i2, w.ws1, OpText(w.op) + (w.ws2 + w.rhs));
    i3 := End(i2, w.ws1);
    AtConcat(b, i3, OpText(w.op), w.ws2 + w.rhs);
    i4 := End(i3, OpText(w.op));
    AtConcat(b, i4, w.ws2, w.rhs);
    i5 := End(i4, w.ws2);
  }

  lemma LeafRead(p: Input, i: nat, w: Written, depth: nat)
    requires p.Valid() && w.Leaf? && WellWritten(p.mode, p.realOf, w) && depth <= MAX_DEPTH
    requires At(p.b, i, TextOf(w)) && AfterValue(p.b, End(i, TextOf(w)))
    ensures PUnit(p, i, depth) == Done(TreeOf(w), End(i, TextOf(w)))
  {
    hide Encode, FromUtf8, At, End, TextOf, LhsOf, OpText, ValueFor, PComparison, PExpr, SkipWs, Blank, OpFits;
    var i1, i2, i3, i4, i5 := LeafPieces(p.b, i, w);
    BlankRead(p.b, i, w.ws0);
    BlankRead(p.b, i2, w.ws1);
    BlankRead(p.b, i4, w.ws2);
    OpThenValue(p, i3, w, i4, i5);
    BeforeOp(p.b, i2, w, i3);
    LhsRead(p, i1, w.l);
    SkipNone(p.b, i1);
    SkipNone(p.b, i3);
    NotStarts(p.b, i1, "(");
    LeafCompared(p, i, w, i1, i2, i3, i4, i5, End(i5, w.rhs), depth);
  }

  lemma BeforeOp(b: seq<Byte>, i2: nat, w: Written, i3: nat)
    requires w.Leaf? && At(b, i2, w.ws1) && i3 == End(i2, w.ws1) && Blank(w.ws1)
    requires i3 < |b| && !IsIdentByte(b[i3])
    ensures i2 < |b| && !IsIdentByte(b[i2])
  {
    hide At;
    BlankRead(b, i2, w.ws1);
    assert End(i2, w.ws1) == i2 + |w.ws1|;
  }

  lemma OpThenValue(p: Input, i3: nat, w: Written, i4: nat, i5: nat)
    requires p.Valid() && w.Leaf? && WellWritten(p.mode, p.realOf, w) && AfterValue(p.b, End(i5, w.rhs))
    requires At(p.b, i3, OpText(w.op)) && i4 == End(i3, OpText(w.op))
    requires At(p.b, i4, w.ws2) && i5 == End(i4, w.ws2) && At(p.b, i5, w.rhs)
    ensures PickOp(p.b, i3) == Done(w.op, i4) && !IsIdentByte(p.b[i3]) && !IsWs(p.b[i3])
    ensures SkipWs(p.b, i4) == i5 && Boundary(p.b, i5) && PValue(p, i5) == Done(w.r, End(i5, w.rhs))
  {
    hide Encode, FromUtf8, PValue, ValueFor, WfLhs, OpFits, OpText, SkipWs, PickOp, At, End;
    BlankRead(p.b, i4, w.ws2);
    if w.op.Gt? || w.op.Lt? {
      NoLongerOp(p, i4, w, i5);
    }
    OpTextRead(p.b, i3, w.op);
    ValueRead(p, i5, w.rhs, w.r);
    SkipNone(p.b, i5);
  }

  /** After a `>` or a `<` comes no `=`. */
  lemma NoLongerOp(p: Input, i4: nat, w: Written, i5: nat)
    requires w.Leaf? && WellWritten(p.mode, p.realOf, w) && (w.op.Gt? || w.op.Lt?)
    requires At(p.b, i4, w.ws2) && i5 == End(i4, w.ws2) && At(p.b, i5, w.rhs)
    ensures i4 < |p.b| ==> p.b[i4] != '=' as int
  {
    hide Encode, WordFor, Doubled, IsDelim;
    BlankRead(p.b, i4, w.ws2);
    if w.ws2 == "" {
      FirstByte(p.b, i5, w.rhs);
    }
  }

  lemma FirstByte(b: seq<Byte>, i: nat, s: string)
    requires s != "" && At(b, i, s)
    ensures i < |b| && (b[i] == '=' as int ==> s[0] == '=')
  {
    assert b[i] == Encode(s)[0] == EncodeChar(s[0])[0];
    if s[0] as int >= 0x80 {
      HighBytes(s[0]);
    }
  }

  lemma LeafCompared(p: Input, i: nat, w: Written, i1: nat, i2: nat, i3: nat, i4: nat, i5: nat, e: nat, depth: nat)
    requires p.Valid() && w.Leaf? && OpFits(w.op, w.r) && depth <= MAX_DEPTH
    requires i <= i1 <= |p.b| && i2 <= |p.b| && i4 <= i5 <= |p.b| && Boundary(p.b, i5)
    requires SkipWs(p.b, i) == i1 && SkipWs(p.b, i1) == i1 && !Starts(p.b, i1, "(")
    requires PLhs(p, i1) == Done(w.l, i2) && SkipWs(p.b, i2) == i3 && PickOp(p.b, i3) == Done(w.op, i4)
    requires SkipWs(p.b, i4) == i5 && PValue(p, i5) == Done(w.r, e)
    ensures PUnit(p, i, depth) == Done(TreeOf(w), e)
  {
    hide FromUtf8, PLhs, PickOp, PValue, PExpr, SkipWs, Starts, OpFits, IsAscii;
    assert PComparison(p, i1) == Done(TreeOf(w), e);
  }

  // ------------------------------------------------------------------ trees

  /** What may follow a written expression: the end, white space or a token that does not join it
      more tightly than `level`. */
  predicate Ends(b: seq<Byte>, e: nat, level: nat) {
    AfterValue(b, e) && (level == 0 ==> e <= |b| && (SkipWs(b, e) < |b| ==> b[SkipWs(b, e)] != '&' as int))
  }

  /** At each level of the grammar, reading a written expression leaves the parser with its tree in
      hand and the cursor after its text. */
  lemma {:induction false} WrittenRead(p: Input, i: nat, w: Written, level: nat, depth: nat)
    requires p.Valid() && WellWritten(p.mode, p.realOf, w) && level <= Binds(w) && depth + Deep(w) <= MAX_DEPTH
    requires At(p.b, i, TextOf(w)) && Ends(p.b, End(i, TextOf(w)), level)
    ensures level == 0 ==> PExpr(p, i, depth) == PExprTail(p, End(i, TextOf(w)), depth, TreeOf(w))
    ensures level == 1 ==> PAnd(p, i, depth) == PAndTail(p, End(i, TextOf(w)), depth, TreeOf(w))
    ensures level == 2 ==> PUnit(p, i, depth) == Done(TreeOf(w), End(i, TextOf(w)))
    decreases w, 3 - level
  {
    hide FromUtf8, At, End, TextOf, PUnit, PAnd, PAndTail, PExpr, PExprTail, SkipWs, WellWritten, TreeOf, AfterValue;
    var e := End(i, TextOf(w));
    if level < Binds(w) {
      AtBounds(p.b, i, TextOf(w));
      WrittenRead(p, i, w, level + 1, depth);
      Ascend(p, i, TreeOf(w), level, depth, e);
    } else {
      match w {
        case Leaf(_, _, _, _, _, _, _) => LeafRead(p, i, w, depth);
        case Group(_, _, _) => GroupRead(p, i, w, depth);
        case Both(_, _, _) => BothRead(p, i, w, depth);
        case Either(_, _, _) => EitherRead(p, i, w, depth);
      }
    }
  }

  lemma AtBounds(b: seq<Byte>, i: nat, s: string)
    requires At(b, i, s)
    ensures i <= End(i, s) <= |b|
  {
    hide Encode;
  }

  /** Where the parentheses of a group and the text in them stand. */
  lemma GroupPieces(b: seq<Byte>, i: nat, w: Written) returns (j: nat, k: nat, m: nat)
    requires w.Group? && Blank(w.ws0) && Blank(w.ws1) && At(b, i, TextOf(w))
    ensures i <= j < k <= m < |b| && SkipWs(b, i) == j && Starts(b, j, "(")
    ensures At(b, j + 1, TextOf(w.inner)) && k == End(j + 1, TextOf(w.inner)) && AfterValue(b, k)
    ensures SkipWs(b, k) == m && Starts(b, m, ")") && b[m] == 41 && End(i, TextOf(w)) == m + 1
  {
    hide Encode, At, SkipWs, Starts;
    var t := TextOf(w.inner);
    AtConcat(b, i, w.ws0, "(" + (t + (w.ws1 + ")")));
    j := End(i, w.ws0);
    AtConcat(b, j, "(", t + (w.ws1 + ")"));
    AtAscii(b, j, "(");
    AtConcat(b, j + 1, t, w.ws1 + ")");
    k := End(j + 1, t);
    AtConcat(b, k, w.ws1, ")");
    m := End(k, w.ws1);
    AtAscii(b, m, ")");
    assert b[j] == "("[0] as int && b[m] == ")"[0] as int;
    BlankRead(b, i, w.ws0);
    BlankRead(b, k, w.ws1);
    SkipNone(b, j);
    SkipNone(b, m);
  }

  lemma {:induction false} GroupRead(p: Input, i: nat, w: Written, depth: nat)
    requires p.Valid() && w.Group? && WellWritten(p.mode, p.realOf, w) && depth + Deep(w) <= MAX_DEPTH
    requires At(p.b, i, TextOf(w))
    ensures PUnit(p, i, depth) == Done(TreeOf(w), End(i, TextOf(w)))
    decreases w, 0
  {
    hide FromUtf8, At, End, TextOf, PUnit, PAnd, PExpr, PExprTail, SkipWs, Starts, AfterValue;
    var j, k, m := GroupPieces(p.b, i, w);
    ClosesGroup(p.b, k, m);
    WrittenRead(p, j + 1, w.inner, 0, depth + 1);
    Close(p, i, TreeOf(w.inner), depth, j, k, m);
  }

  lemma ClosesGroup(b: seq<Byte>, k: nat, m: nat)
    requires AfterValue(b, k) && k <= m < |b| && SkipWs(b, k) == m && b[m] == 41
    ensures Ends(b, k, 0)
  {
    hide SkipWs;
  }

  lemma {:induction false} BothRead(p: Input, i: nat, w: Written, depth: nat)
    requires p.Valid() && w.Both? && WellWritten(p.mode, p.realOf, w) && depth + Deep(w) <= MAX_DEPTH
    requires At(p.b, i, TextOf(w)) && AfterValue(p.b, End(i, TextOf(w)))
    ensures PAnd(p, i, depth) == PAndTail(p, End(i, TextOf(w)), depth, TreeOf(w))
    decreases w, 0
  {
    hide FromUtf8, At, End, TextOf, PUnit, PAnd, PAndTail, PExpr, SkipWs, Blank, Starts, AfterValue;
    var j := JoinerRead(p, i, w, "&&", TextOf(w.left), TextOf(w.right));
    var e := End(i, TextOf(w.left));
    WrittenRead(p, i, w.left, 1, depth);
    WrittenRead(p, j + 2, w.right, 2, depth);
    JoinAnd(p, e, j, TreeOf(w.left), TreeOf(w.right), depth);
  }

  lemma {:induction false} EitherRead(p: Input, i: nat, w: Written, depth: nat)
    requires p.Valid() && w.Either? && WellWritten(p.mode, p.realOf, w) && depth + Deep(w) <= MAX_DEPTH
    requires At(p.b, i, TextOf(w)) && Ends(p.b, End(i, TextOf(w)), 0)
    ensures PExpr(p, i, depth) == PExprTail(p, End(i, TextOf(w)), depth, TreeOf(w))
    decreases w, 0
  {
    hide FromUtf8, At, End, TextOf, PUnit, PAnd, PAndTail, PExpr, PExprTail, SkipWs, Blank, Starts, AfterValue;
    var j := JoinerRead(p, i, w, "||", TextOf(w.left), TextOf(w.right));
    var e, e' := End(i, TextOf(w.left)), End(i, TextOf(w));
    AtBounds(p.b, j + 2, TextOf(w.right));
    BeforeOr(p.b, e, j);
    WrittenRead(p, i, w.left, 0, depth);
    WrittenRead(p, j + 2, w.right, 1, depth);
    StopAnd(p, e', TreeOf(w.right), depth);
    JoinOr(p, e, j, TreeOf(w.left), TreeOf(w.right), depth, e');
  }

  lemma BeforeOr(b: seq<Byte>, e: nat, j: nat)
    requires AfterValue(b, e) && e <= j < |b| && SkipWs(b, e) == j && b[j] == "||"[0] as int
    ensures Ends(b, e, 0)
  {
    hide SkipWs;
  }

  /** Where a joining token stands, past white space. */
  lemma JoinerRead(p: Input, i: nat, w: Written, tok: string, a: string, b: string) returns (j: nat)
    requires w.Both? || w.Either?
    requires tok == (if w.Both? then "&&" else "||") && a == TextOf(w.left) && b == TextOf(w.right)
    requires Blank(w.ws) && At(p.b, i, TextOf(w))
    ensures At(p.b, i, a) && End(i, a) <= |p.b| && SkipWs(p.b, End(i, a)) == j && AfterValue(p.b, End(i, a))
    ensures j + 2 <= |p.b| && Starts(p.b, j, tok) && p.b[j] == tok[0] as int && SkipWs(p.b, j) == j
    ensures At(p.b, j + 2, b) && End(i, TextOf(w)) == End(j + 2, b)
  {
    hide Encode, At, SkipWs, Starts, Blank;
    assert TextOf(w) == a + (w.ws + (tok + b));
    AtConcat(p.b, i, a, w.ws + (tok + b));
    var e := End(i, a);
    AtConcat(p.b, e, w.ws, tok + b);
    j := End(e, w.ws);
    AtConcat(p.b, j, tok, b);
    AtAscii(p.b, j, tok);
    assert p.b[j] == tok[0] as int;
    BlankRead(p.b, e, w.ws);
    SkipNone(p.b, j);
    AtBounds(p.b, i, a);
  }

  /** A unit or a chain of units is an expression when nothing joins it to what follows. */
  lemma Ascend(p: Input, i: nat, n: Node, level: nat, depth: nat, e: nat)
    requires p.Valid() && depth <= MAX_DEPTH && level <= 1 && i <= e <= |p.b| && Ends(p.b, e, level)
    requires level == 0 ==> PAnd(p, i, depth) == PAndTail(p, e, depth, n)
    requires level == 1 ==> PUnit(p, i, depth) == Done(n, e)
    ensures level == 0 ==> PExpr(p, i, depth) == PExprTail(p, e, depth, n)
    ensures level == 1 ==> PAnd(p, i, depth) == PAndTail(p, e, depth, n)
  {
    hide PUnit, PAndTail, PExprTail;
    if level == 0 {
      StopAnd(p, e, n, depth);
      TailSkips(p, e, n, depth);
    }
  }

  lemma StopAnd(p: Input, e: nat, n: Node, depth: nat)
    requires p.Valid() && depth <= MAX_DEPTH && e <= |p.b| && Ends(p.b, e, 0)
    ensures PAndTail(p, e, depth, n) == Done(n, SkipWs(p.b, e))
  {
    hide PUnit, SkipWs;
    if SkipWs(p.b, e) < |p.b| {
      NotStarts(p.b, SkipWs(p.b, e), "&&");
    }
  }

  lemma TailSkips(p: Input, e: nat, n: Node, depth: nat)
    requires p.Valid() && depth <= MAX_DEPTH && e <= |p.b|
    ensures PExprTail(p, SkipWs(p.b, e), depth, n) == PExprTail(p, e, depth, n)
  {
    hide PAnd, SkipWs;
    SkipNone(p.b, SkipWs(p.b, e));
  }

  lemma Close(p: Input, i: nat, n: Node, depth: nat, j: nat, k: nat, m: nat)
    requires p.Valid() && depth < MAX_DEPTH && i <= j < k <= m < |p.b| && SkipWs(p.b, i) == j && SkipWs(p.b, k) == m
    requires Starts(p.b, j, "(") && Starts(p.b, m, ")") && p.b[m] == 41
    requires PExpr(p, j + 1, depth + 1) == PExprTail(p, k, depth + 1, n)
    ensures PUnit(p, i, depth) == Done(n, m + 1)
  {
    hide PExpr, PAnd, PComparison, SkipWs;
    NotStarts(p.b, m, "||");
    SkipNone(p.b, m);
  }

  lemma JoinAnd(p: Input, e: nat, j: nat, a: Node, b: Node, depth: nat)
    requires p.Valid() && depth <= MAX_DEPTH && e <= |p.b| && SkipWs(p.b, e) == j
    requires j + 2 <= |p.b| && Starts(p.b, j, "&&")
    requires PUnit(p, j + 2, depth).Done? && PUnit(p, j + 2, depth).value == b
    ensures PAndTail(p, e, depth, a) == PAndTail(p, PUnit(p, j + 2, depth).at, depth, And(a, b))
  {
    hide PUnit, SkipWs;
  }

  lemma JoinOr(p: Input, e: nat, j: nat, a: Node, b: Node, depth: nat, e': nat)
    requires p.Valid() && depth <= MAX_DEPTH && e <= |p.b| && SkipWs(p.b, e) == j
    requires j + 2 <= e' <= |p.b| && Starts(p.b, j, "||")
    requires PAnd(p, j + 2, depth) == PAndTail(p, e', depth, b) == Done(b, SkipWs(p.b, e'))
    ensures PExprTail(p, e, depth, a) == PExprTail(p, e', depth, Or(a, b))
  {
    hide PAnd, PAndTail, SkipWs;
    TailSkips(p, e', Or(a, b), depth);
  }

  // ------------------------------------------------------------------ completeness

  /** Whatever is written in the language, within 2048 bytes and 32 levels of parentheses, is read as
      the tree it says: any white space between tokens, any redundant parentheses. */
  lemma WrittenParses(mode: Mode, realOf: RealOracle, s: string, w: Written, end: string, n: Node)
    requires Says(mode, realOf, s, w, end, n) && |Encode(s)| <= MAX_LEN
    ensures Parse(realOf, mode, s) == Ok(n)
  {
    hide Encode, FromUtf8, PExpr, PAnd, WellWritten, TextOf, TreeOf, At, End, Blank, SkipWs;
    DecodeEncode(s);
    var p := Input(Encode(s), mode, realOf);
    WholeAt(s);
    AtConcat(p.b, 0, TextOf(w), end);
    var e := End(0, TextOf(w));
    BlankRead(p.b, e, end);
    SkipNone(p.b, |p.b|);
    EndsWithBlank(p.b, e, end);
    WrittenRead(p, 0, w, 0, 0);
    StopExpr(p, e, n);
  }

  lemma EndsWithBlank(b: seq<Byte>, e: nat, end: string)
    requires At(b, e, end) && Blank(end) && End(e, end) == |b| && SkipWs(b, e) == |b|
    ensures Ends(b, e, 0)
  {
    hide Encode, SkipWs;
    BlankRead(b, e, end);
  }

  lemma StopExpr(p: Input, e: nat, n: Node)
    requires p.Valid() && e <= |p.b| && SkipWs(p.b, e) == |p.b|
    ensures PExprTail(p, e, 0, n) == Done(n, |p.b|) && SkipWs(p.b, |p.b|) == |p.b|
  {
    hide PAnd, SkipWs;
    SkipNone(p.b, |p.b|);
  }
}
