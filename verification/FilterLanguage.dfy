/**
 * Nothing else is read: whatever the parser of src/filter.rs accepts is written in the language of
 * `FilterWritten`. Together with completeness this says exactly what the parser accepts.
 */
module FilterLanguage {
  import opened Wrappers
  import opened Utf8
  import opened Decimal
  import opened FilterTree
  import opened FilterParser
  import opened FilterText
  import opened FilterWritten

  // ------------------------------------------------------------------ operands

  /** Every quote byte written twice. */
  function DoubledBytes(x: seq<Byte>): seq<Byte> {
    if x == [] then [] else (if x[0] == 39 then [39, 39] else [x[0]]) + DoubledBytes(x[1..])
  }

  lemma {:induction false} DoubledConcat(x: seq<Byte>, y: seq<Byte>)
    ensures DoubledBytes(x + y) == DoubledBytes(x) + DoubledBytes(y)
  {
    if x == [] {
      assert x + y == y;
    } else {
      assert (x + y)[1..] == x[1..] + y;
      DoubledConcat(x[1..], y);
    }
  }

  lemma {:induction false} DoubledPlain(x: seq<Byte>)
    requires forall k :: 0 <= k < |x| ==> x[k] != 39
    ensures DoubledBytes(x) == x
  {
    if x != [] {
      DoubledPlain(x[1..]);
    }
  }

  /** Doubling the quotes of a string doubles the quote bytes of its encoding. */
  lemma {:induction false} DoubledEncodes(s: string)
    ensures Encode(Doubled(s)) == DoubledBytes(Encode(s))
  {
    hide EncodeChar;
    if s != "" {
      var head := if s[0] == '\'' then "''" else [s[0]];
      EncodeConcat(head, Doubled(s[1..]));
      DoubledEncodes(s[1..]);
      DoubledConcat(EncodeChar(s[0]), Encode(s[1..]));
      DoubledHead(s[0]);
    }
  }

  lemma DoubledHead(c: char)
    ensures Encode(if c == '\'' then "''" else [c]) == DoubledBytes(EncodeChar(c))
  {
    EncodeSingle(c);
    if c == '\'' {
      EncodeAscii("''");
      assert Encode("''") == [39, 39];
      assert EncodeChar(c) == [39] && [39][1..] == [];
    } else {
      NoQuoteByte(c);
      DoubledPlain(EncodeChar(c));
    }
  }

  /** What a quoted string was read from. */
  lemma {:induction false} QuotedStands(b: seq<Byte>, i: nat, acc: seq<Byte>) returns (x: seq<Byte>)
    requires i <= |b| && ValidUtf8(acc + b[i..]) && PQuoted(b, i, acc).Done?
    ensures Encode(PQuoted(b, i, acc).value) == acc + x
    ensures b[i..PQuoted(b, i, acc).at] == DoubledBytes(x) + [39]
    decreases |b| - i
  {
    hide FromUtf8, Encode;
    var k := PQuoted(b, i, acc).at;
    if b[i] == 39 {
      QuotedCut(b, i, acc);
      if Starts(b, i + 1, "'") {
        assert b[i + 1] == "'"[0] as int;
        var y := QuotedStands(b, i + 2, acc + [39]);
        x := [39] + y;
        assert acc + x == (acc + [39]) + y;
        assert b[i..k] == [39, 39] + b[i + 2..k];
        assert x[1..] == y;
      } else {
        EncodeDecode(acc);
        x := [];
        assert acc + x == acc && b[i..k] == [39];
      }
    } else {
      assert (acc + [b[i]]) + b[i + 1..] == acc + b[i..];
      var y := QuotedStands(b, i + 1, acc + [b[i]]);
      x := [b[i]] + y;
      assert acc + x == (acc + [b[i]]) + y;
      assert b[i..k] == [b[i]] + b[i + 1..k];
      assert x[1..] == y;
    }
  }

  lemma StringStands(p: Input, i: nat) returns (s: string)
    requires p.Valid() && i <= |p.b| && Starts(p.b, i, "'") && PString(p, i).Done?
    ensures ValueFor(p.mode, p.realOf, s, PString(p, i).value)
    ensures At(p.b, i, s) && End(i, s) == PString(p, i).at
  {
    hide FromUtf8, Encode, DoubledBytes, PQuoted;
    SliceValid(p.b, i + 1, |p.b|);
    assert [] + p.b[i + 1..] == p.b[i + 1..];
    var t := PQuoted(p.b, i + 1, []).value;
    var k := PQuoted(p.b, i + 1, []).at;
    var x := QuotedStands(p.b, i + 1, []);
    assert [] + x == x;
    DoubledEncodes(t);
    EncodeConcat(Doubled(t), "'");
    EncodeAscii("'");
    assert Encode("'") == [39];
    assert At(p.b, i + 1, Doubled(t) + "'") && End(i + 1, Doubled(t) + "'") == k;
    StartsText(p.b, i, "'");
    s := "'" + (Doubled(t) + "'");
    AtJoin(p.b, i, "'", Doubled(t) + "'");
  }

  lemma ClassifiedFor(p: Input, i: nat, w: string)
    requires Classify(p, w, i).Ok?
    ensures w != "" && WordFor(p.mode, p.realOf, w, Classify(p, w, i).value)
  {
    hide ParseI64;
    KeywordsAreNoNumbers();
  }

  /** Bytes that are no delimiters decode to characters that are none. */
  lemma {:induction false} PlainText(s: string)
    requires forall k :: 0 <= k < |Encode(s)| ==> !IsDelim(Encode(s)[k])
    ensures forall k :: 0 <= k < |s| ==> !IsDelimChar(s[k])
  {
    hide IsDelim;
    if s != "" {
      var e, rest := EncodeChar(s[0]), Encode(s[1..]);
      assert forall k :: 0 <= k < |rest| ==> rest[k] == Encode(s)[|e| + k];
      assert s[0] as int < 0x80 ==> e == [s[0] as int] && Encode(s)[0] == e[0];
      PlainText(s[1..]);
    }
  }

  lemma WordStands(p: Input, i: nat) returns (s: string)
    requires p.Valid() && i <= |p.b| && Boundary(p.b, i) && PWord(p, i).Done?
    ensures ValueFor(p.mode, p.realOf, s, PWord(p, i).value)
    ensures At(p.b, i, s) && End(i, s) == PWord(p, i).at
  {
    hide FromUtf8, Encode, Classify, WordFor;
    var j := WordEnd(p.b, i);
    SliceValid(p.b, i, j);
    s := Unwrap(p.b[i..j]);
    AtDecoded(p.b, i, j);
    assert forall k :: 0 <= k < |Encode(s)| ==> Encode(s)[k] == p.b[i + k];
    PlainText(s);
    ClassifiedFor(p, i, s);
  }

  lemma ValueStands(p: Input, i: nat) returns (s: string)
    requires p.Valid() && i <= |p.b| && Boundary(p.b, i) && PValue(p, i).Done?
    ensures ValueFor(p.mode, p.realOf, s, PValue(p, i).value) && s != ""
    ensures At(p.b, i, s) && End(i, s) == PValue(p, i).at
  {
    hide FromUtf8, At, End, PString, PWord, WordFor, Doubled;
    if Starts(p.b, i, "'") {
      s := StringStands(p, i);
    } else {
      s := WordStands(p, i);
    }
  }

  lemma LhsStands(p: Input, i: nat)
    requires p.Valid() && i <= |p.b| && PLhs(p, i).Done?
    ensures WfLhs(PLhs(p, i).value)
    ensures At(p.b, i, LhsOf(PLhs(p, i).value)) && End(i, LhsOf(PLhs(p, i).value)) == PLhs(p, i).at
  {
    hide FromUtf8, Encode;
    if Starts(p.b, i, TOKEN) {
      StartsText(p.b, i, TOKEN);
    } else {
      var j := IdentEnd(p.b, i);
      AsciiIsValid(p.b[i..j]);
      AtDecoded(p.b, i, j);
    }
  }

  // ------------------------------------------------------------------ leaves

  lemma LeafText(b: seq<Byte>, i: nat, w: Written, i1: nat, i2: nat, i3: nat, i4: nat, i5: nat)
    requires w.Leaf? && LeafAt(b, i, w, i1, i2, i3, i4, i5)
    ensures At(b, i, TextOf(w)) && End(i, TextOf(w)) == End(i5, w.rhs)
  {
    hide At, End, LhsOf, OpText;
    AtJoin(b, i4, w.ws2, w.rhs);
    AtJoin(b, i3, OpText(w.op), w.ws2 + w.rhs);
    AtJoin(b, i2, w.ws1, OpText(w.op) + (w.ws2 + w.rhs));
    AtJoin(b, i1, LhsOf(w.l), w.ws1 + (OpText(w.op) + (w.ws2 + w.rhs)));
    AtJoin(b, i, w.ws0, LhsOf(w.l) + (w.ws1 + (OpText(w.op) + (w.ws2 + w.rhs))));
  }

  /** A value right after a `>` or `<` does not start with `=`. */
  lemma NoEquals(b: seq<Byte>, i: nat, s: string)
    requires s != "" && At(b, i, s) && (i < |b| ==> b[i] != '=' as int)
    ensures s[0] != '='
  {
    EncodedNotEmpty(s);
    assert b[i] == Encode(s)[0] == EncodeChar(s[0])[0];
  }

  lemma ComparisonStands(p: Input, i: nat) returns (w: Written)
    requires p.Valid() && i <= |p.b| && PComparison(p, i).Done?
    ensures w.Leaf? && WellWritten(p.mode, p.realOf, w) && TreeOf(w) == PComparison(p, i).value
    ensures At(p.b, i, TextOf(w)) && End(i, TextOf(w)) == PComparison(p, i).at
  {
    hide FromUtf8, At, End, PLhs, PickOp, PValue, SkipWs, ValueFor, OpText, LhsOf, TextOf, OpFits, WfLhs, Blank;
    var ws0 := SkippedText(p.b, i);
    var i1 := SkipWs(p.b, i);
    LhsStands(p, i1);
    var l, i2 := PLhs(p, i1).value, PLhs(p, i1).at;
    var ws1 := SkippedText(p.b, i2);
    var i3 := SkipWs(p.b, i2);
    OpTextStands(p.b, i3);
    var op, i4 := PickOp(p.b, i3).value, PickOp(p.b, i3).at;
    var ws2 := SkippedText(p.b, i4);
    var i5 := SkipWs(p.b, i4);
    var rhs := ValueStands(p, i5);
    w := Leaf(ws0, l, ws1, op, ws2, rhs, PValue(p, i5).value);
    LeafText(p.b, i, w, i1, i2, i3, i4, i5);
    if (op.Gt? || op.Lt?) && ws2 == "" {
      NoEquals(p.b, i5, rhs);
    }
  }

  // ------------------------------------------------------------------ trees

  /** The written expression `w` stands from `i` to `e`. */
  predicate Stands(p: Input, i: nat, w: Written, e: nat, n: Node, depth: nat) {
    && WellWritten(p.mode, p.realOf, w) && TreeOf(w) == n && depth + Deep(w) <= MAX_DEPTH
    && At(p.b, i, TextOf(w)) && End(i, TextOf(w)) == e && e <= |p.b|
  }

  lemma UnitSkips(p: Input, i: nat, depth: nat)
    requires p.Valid() && i <= |p.b| && depth <= MAX_DEPTH && !Starts(p.b, SkipWs(p.b, i), "(")
    ensures PUnit(p, i, depth) == PComparison(p, i)
  {
    hide FromUtf8, PLhs, PickOp, PValue, PExpr, SkipWs;
    SkipNone(p.b, SkipWs(p.b, i));
  }

  lemma GroupText(b: seq<Byte>, i: nat, w: Written)
    requires w.Group? && At(b, i, w.ws0) && At(b, End(i, w.ws0), "(")
    requires var k := End(End(i, w.ws0), "(");
             && At(b, k, TextOf(w.inner)) && At(b, End(k, TextOf(w.inner)), w.ws1)
             && At(b, End(End(k, TextOf(w.inner)), w.ws1), ")")
    ensures At(b, i, TextOf(w))
    ensures End(i, TextOf(w)) == End(End(End(End(End(i, w.ws0), "("), TextOf(w.inner)), w.ws1), ")")
  {
    hide At, End;
    var t := TextOf(w.inner);
    var j := End(i, w.ws0);
    var k := End(j, "(");
    AtJoin(b, End(k, t), w.ws1, ")");
    AtJoin(b, k, t, w.ws1 + ")");
    AtJoin(b, j, "(", t + (w.ws1 + ")"));
    AtJoin(b, i, w.ws0, "(" + (t + (w.ws1 + ")")));
  }

  lemma {:induction false} UnitStands(p: Input, i: nat, depth: nat) returns (w: Written)
    requires p.Valid() && i <= |p.b| && depth <= MAX_DEPTH && PUnit(p, i, depth).Done?
    ensures Binds(w) == 2 && Stands(p, i, w, PUnit(p, i, depth).at, PUnit(p, i, depth).value, depth)
    decreases |p.b| - i, 0
  {
    hide FromUtf8, At, End, PExpr, PComparison, SkipWs, Starts, TextOf, Blank;
    var j := SkipWs(p.b, i);
    if !Starts(p.b, j, "(") {
      UnitSkips(p, i, depth);
      w := ComparisonStands(p, i);
    } else {
      var ws0 := SkippedText(p.b, i);
      StartsText(p.b, j, "(");
      var inner, e := ExprStands(p, j + 1, depth + 1);
      var k := PExpr(p, j + 1, depth + 1).at;
      SkipNone(p.b, k);
      var ws1 := SkippedText(p.b, e);
      StartsText(p.b, k, ")");
      w := Group(ws0, inner, ws1);
      GroupText(p.b, i, w);
    }
  }

  /** A joining token between two written expressions, past white space. */
  lemma JoinedText(b: seq<Byte>, i: nat, w: Written, e: nat, j: nat)
    requires w.Both? || w.Either?
    requires At(b, i, TextOf(w.left)) && End(i, TextOf(w.left)) == e && At(b, e, w.ws) && End(e, w.ws) == j
    requires Starts(b, j, if w.Both? then "&&" else "||") && At(b, j + 2, TextOf(w.right)) && j <= |b|
    ensures At(b, i, TextOf(w)) && End(i, TextOf(w)) == End(j + 2, TextOf(w.right))
  {
    hide At, End, Starts;
    var tok := if w.Both? then "&&" else "||";
    StartsText(b, j, tok);
    AtJoin(b, j, tok, TextOf(w.right));
    AtJoin(b, e, w.ws, tok + TextOf(w.right));
    AtJoin(b, i, TextOf(w.left), w.ws + (tok + TextOf(w.right)));
  }

  /** The chain that starts at `i` with `a` and is continued from `from`, white space past the end of
      `a`. */
  lemma {:induction false} AndTailStands(p: Input, i: nat, a: Written, e: nat, from: nat, depth: nat, n: Node)
    returns (w: Written, end: nat)
    requires p.Valid() && depth <= MAX_DEPTH && Stands(p, i, a, e, n, depth) && Binds(a) >= 1
    requires from == e || from == SkipWs(p.b, e)
    requires PAndTail(p, from, depth, n).Done?
    ensures Binds(w) >= 1 && Stands(p, i, w, end, PAndTail(p, from, depth, n).value, depth)
    ensures PAndTail(p, from, depth, n).at == SkipWs(p.b, end)
    decreases |p.b| - from, 0
  {
    hide FromUtf8, At, End, PUnit, SkipWs, Starts, TextOf, Blank;
    SkipNone(p.b, SkipWs(p.b, e));
    var j := SkipWs(p.b, e);
    if !Starts(p.b, j, "&&") {
      w, end := a, e;
    } else {
      AfterToken(p, j, "&&");
      var ws := SkippedText(p.b, e);
      var u := UnitStands(p, j + 2, depth);
      var b := Both(a, ws, u);
      JoinedText(p.b, i, b, e, j);
      var k := PUnit(p, j + 2, depth).at;
      w, end := AndTailStands(p, i, b, k, k, depth, TreeOf(b));
    }
  }

  lemma {:induction false} AndStands(p: Input, i: nat, depth: nat) returns (w: Written, end: nat)
    requires p.Valid() && i <= |p.b| && depth <= MAX_DEPTH && PAnd(p, i, depth).Done?
    ensures Binds(w) >= 1 && Stands(p, i, w, end, PAnd(p, i, depth).value, depth)
    ensures PAnd(p, i, depth).at == SkipWs(p.b, end)
    decreases |p.b| - i, 1
  {
    hide FromUtf8, PUnit, PAndTail, SkipWs, Stands;
    var u := UnitStands(p, i, depth);
    var k := PUnit(p, i, depth).at;
    w, end := AndTailStands(p, i, u, k, k, depth, PUnit(p, i, depth).value);
  }

  lemma {:induction false} ExprTailStands(p: Input, i: nat, a: Written, e: nat, from: nat, depth: nat, n: Node)
    returns (w: Written, end: nat)
    requires p.Valid() && depth <= MAX_DEPTH && Stands(p, i, a, e, n, depth) && from == SkipWs(p.b, e)
    requires PExprTail(p, from, depth, n).Done?
    ensures Stands(p, i, w, end, PExprTail(p, from, depth, n).value, depth)
    ensures PExprTail(p, from, depth, n).at == SkipWs(p.b, end)
    decreases |p.b| - from, 0
  {
    hide FromUtf8, At, End, PAnd, SkipWs, Starts, TextOf, Blank;
    SkipNone(p.b, from);
    if !Starts(p.b, from, "||") {
      w, end := a, e;
    } else {
      AfterToken(p, from, "||");
      var ws := SkippedText(p.b, e);
      var u, k := AndStands(p, from + 2, depth);
      var b := Either(a, ws, u);
      JoinedText(p.b, i, b, e, from);
      w, end := ExprTailStands(p, i, b, k, SkipWs(p.b, k), depth, TreeOf(b));
    }
  }

  lemma {:induction false} ExprStands(p: Input, i: nat, depth: nat) returns (w: Written, end: nat)
    requires p.Valid() && i <= |p.b| && depth <= MAX_DEPTH && PExpr(p, i, depth).Done?
    ensures Stands(p, i, w, end, PExpr(p, i, depth).value, depth)
    ensures PExpr(p, i, depth).at == SkipWs(p.b, end)
    decreases |p.b| - i, 2
  {
    hide FromUtf8, PAnd, PExprTail, SkipWs, Stands;
    var u, k := AndStands(p, i, depth);
    w, end := ExprTailStands(p, i, u, k, PAnd(p, i, depth).at, depth, PAnd(p, i, depth).value);
  }

  // ------------------------------------------------------------------ the language, exactly

  lemma SameBytes(s: string, t: string)
    requires Encode(s) == Encode(t)
    ensures s == t
  {
    hide Encode, FromUtf8;
    DecodeEncode(s);
    DecodeEncode(t);
  }

  /** Soundness: an accepted text says the tree it was read as. */
  lemma ParsedIsWritten(mode: Mode, realOf: RealOracle, s: string) returns (w: Written, end: string)
    requires Parse(realOf, mode, s).Ok?
    ensures Says(mode, realOf, s, w, end, Parse(realOf, mode, s).value)
  {
    hide Encode, FromUtf8, PExpr, SkipWs, WellWritten, TextOf, At, End, Blank;
    DecodeEncode(s);
    var p := Input(Encode(s), mode, realOf);
    var e;
    w, e := ExprStands(p, 0, 0);
    SkipNone(p.b, PExpr(p, 0, 0).at);
    end := SkippedText(p.b, e);
    AtJoin(p.b, 0, TextOf(w), end);
    WholeText(p.b, s, TextOf(w) + end);
  }

  lemma WholeText(b: seq<Byte>, s: string, t: string)
    requires b == Encode(s) && At(b, 0, t) && End(0, t) == |b|
    ensures s == t
  {
    hide Encode;
    assert b[0..|b|] == b;
    SameBytes(s, t);
  }

  ghost predicate CanSay(mode: Mode, realOf: RealOracle, s: string, n: Node) {
    exists w, end :: Says(mode, realOf, s, w, end, n)
  }

  /** The parser accepts a text as a tree if and only if the text fits in 2048 bytes and says that
      tree: the whole language, in both modes, white space, redundant parentheses and all. */
  lemma ParseExactly(mode: Mode, realOf: RealOracle, s: string, n: Node)
    ensures Parse(realOf, mode, s) == Ok(n) <==> |Encode(s)| <= MAX_LEN && CanSay(mode, realOf, s, n)
  {
    hide Encode, PExpr, Says;
    if |Encode(s)| <= MAX_LEN && CanSay(mode, realOf, s, n) {
      var w, end :| Says(mode, realOf, s, w, end, n);
      WrittenParses(mode, realOf, s, w, end, n);
    }
    if Parse(realOf, mode, s) == Ok(n) {
      var w, end := ParsedIsWritten(mode, realOf, s);
    }
  }
}
