/**
 * Text and the bytes it stands for: where a string stands in the input of the parser, and how the
 * runs and quoted strings of src/filter.rs are read from there.
 */
module FilterText {
  import opened Wrappers
  import opened Utf8
  import opened FilterTree
  import opened FilterParser

  function OpText(op: Op): string {
    match op
    case Eq => "=" case Ne => "!=" case Gt => ">" case Ge => ">="
    case Lt => "<" case Le => "<=" case Like => "~" case NotLike => "!~"
  }

  /** A quote inside a quoted string is written twice. */
  function Doubled(s: string): string {
    if s == "" then "" else (if s[0] == '\'' then "''" else [s[0]]) + Doubled(s[1..])
  }

  // ------------------------------------------------------------------ text at a position

  function End(i: nat, s: string): nat {
    i + |Encode(s)|
  }

  /** The bytes of `s` stand in `b` at position `i`. */
  predicate At(b: seq<Byte>, i: nat, s: string) {
    End(i, s) <= |b| && b[i..End(i, s)] == Encode(s)
  }

  lemma AtConcat(b: seq<Byte>, i: nat, s: string, t: string)
    requires At(b, i, s + t)
    ensures At(b, i, s) && At(b, End(i, s), t) && End(i, s + t) == End(End(i, s), t)
  {
    hide Encode;
    EncodeConcat(s, t);
    var whole := b[i..End(i, s + t)];
    assert whole[..|Encode(s)|] == b[i..End(i, s)];
    assert whole[|Encode(s)|..] == b[End(i, s)..End(i, s + t)];
  }

  predicate Ascii(s: string) {
    forall k :: 0 <= k < |s| ==> s[k] as int < 0x80
  }

  lemma AtAscii(b: seq<Byte>, i: nat, s: string)
    requires At(b, i, s) && Ascii(s)
    ensures End(i, s) == i + |s| && Starts(b, i, s)
    ensures forall k :: i <= k < i + |s| ==> b[k] == s[k - i] as int
  {
    hide Encode;
    EncodeAscii(s);
    var piece := b[i..End(i, s)];
    assert forall k :: 0 <= k < |s| ==> b[i + k] == piece[k];
  }

  /** Two tokens that differ in their first byte cannot both start at the same place. */
  lemma NotStarts(b: seq<Byte>, i: nat, tok: string)
    requires i < |b| && tok != "" && b[i] != tok[0] as int
    ensures !Starts(b, i, tok)
  {
    assert b[i + 0] != tok[0] as int;
  }

  // ------------------------------------------------------------------ runs of bytes

  lemma {:induction false} IdentRun(b: seq<Byte>, i: nat, j: nat)
    requires i <= j < |b| && !IsIdentByte(b[j])
    requires forall k :: i <= k < j ==> IsIdentByte(b[k])
    ensures IdentEnd(b, i) == j
    decreases j - i
  {
    if i < j {
      IdentRun(b, i + 1, j);
    }
  }

  lemma {:induction false} WordRun(b: seq<Byte>, i: nat, j: nat)
    requires i <= j <= |b| && (j < |b| ==> IsDelim(b[j]))
    requires forall k :: i <= k < j ==> !IsDelim(b[k])
    ensures WordEnd(b, i) == j
    decreases j - i
  {
    if i < j {
      WordRun(b, i + 1, j);
    }
  }

  lemma {:induction false} QuotedRun(b: seq<Byte>, i: nat, j: nat, acc: seq<Byte>)
    requires i <= j <= |b| && ValidUtf8(acc + b[i..])
    requires forall k :: i <= k < j ==> b[k] != 39
    ensures (acc + b[i..j]) + b[j..] == acc + b[i..]
    ensures PQuoted(b, i, acc) == PQuoted(b, j, acc + b[i..j])
    decreases j - i
  {
    hide FromUtf8;
    assert (acc + b[i..j]) + b[j..] == acc + b[i..];
    if i == j {
      assert acc + b[i..j] == acc;
    } else {
      assert (acc + [b[i]]) + b[i + 1..] == acc + b[i..];
      QuotedRun(b, i + 1, j, acc + [b[i]]);
      assert (acc + [b[i]]) + b[i + 1..j] == acc + b[i..j];
    }
  }

  lemma NoQuoteByte(c: char)
    requires c != '\''
    ensures forall k :: 0 <= k < |EncodeChar(c)| ==> EncodeChar(c)[k] != 39
  {
  }

  lemma EncodeSingle(c: char)
    ensures Encode([c]) == EncodeChar(c)
  {
    assert [c][1..] == "";
  }

  /** Reading a doubled string up to its closing quote gives the string. */
  lemma {:induction false} QuotedText(b: seq<Byte>, i: nat, t: string, s: string)
    requires i <= |b| && ValidUtf8(b) && ValidUtf8(Encode(t) + b[i..])
    requires At(b, i, Doubled(s) + "'")
    requires End(i, Doubled(s) + "'") < |b| ==> b[End(i, Doubled(s) + "'")] != 39
    ensures PQuoted(b, i, Encode(t)) == Done(t + s, End(i, Doubled(s) + "'"))
    decreases |s|
  {
    hide FromUtf8, Encode, PQuoted;
    if s == "" {
      assert Doubled(s) + "'" == "'" && t + s == t;
      AtAscii(b, i, "'");
      QuotedEnd(b, i, t);
    } else {
      var c, rest := s[0], s[1..];
      var head := if c == '\'' then "''" else [c];
      assert Doubled(s) + "'" == head + (Doubled(rest) + "'");
      AtConcat(b, i, head, Doubled(rest) + "'");
      var j := End(i, head);
      EncodeConcat(t, [c]);
      EncodeSingle(c);
      assert t + s == (t + [c]) + rest;
      if c == '\'' {
        AtAscii(b, i, "''");
        QuotedPair(b, i, Encode(t));
        assert EncodeChar(c) == [39];
      } else {
        NoQuoteByte(c);
        var piece := b[i..j];
        assert forall k :: i <= k < j ==> b[k] == piece[k - i];
        QuotedRun(b, i, j, Encode(t));
      }
      QuotedText(b, j, t + [c], rest);
    }
  }

  lemma QuotedEnd(b: seq<Byte>, i: nat, t: string)
    requires i < |b| && b[i] == 39 && ValidUtf8(Encode(t) + b[i..]) && (i + 1 < |b| ==> b[i + 1] != 39)
    ensures PQuoted(b, i, Encode(t)) == Done(t, i + 1)
  {
    hide FromUtf8, Encode;
    QuotedCut(b, i, Encode(t));
    DecodeEncode(t);
    if i + 1 < |b| {
      NotStarts(b, i + 1, "'");
    }
  }

  lemma QuotedPair(b: seq<Byte>, i: nat, acc: seq<Byte>)
    requires i < |b| && b[i] == 39 && Starts(b, i, "''") && ValidUtf8(acc + b[i..])
    ensures ValidUtf8(acc + [39] + b[i + 2..]) && PQuoted(b, i, acc) == PQuoted(b, i + 2, acc + [39])
  {
    hide FromUtf8;
    assert b[i + 1] == "''"[1] as int == "'"[0] as int;
    assert Starts(b, i + 1, "'");
    QuotedCut(b, i, acc);
  }

  // ------------------------------------------------------------------ putting text together

  lemma AtJoin(b: seq<Byte>, i: nat, s: string, t: string)
    requires At(b, i, s) && At(b, End(i, s), t)
    ensures At(b, i, s + t) && End(i, s + t) == End(End(i, s), t)
  {
    hide Encode;
    EncodeConcat(s, t);
    assert b[i..End(End(i, s), t)] == b[i..End(i, s)] + b[End(i, s)..End(End(i, s), t)];
  }

  lemma AtNothing(b: seq<Byte>, i: nat)
    requires i <= |b|
    ensures At(b, i, "") && End(i, "") == i
  {
  }

  lemma WholeAt(s: string)
    ensures At(Encode(s), 0, s) && End(0, s) == |Encode(s)|
  {
    hide Encode;
    assert Encode(s)[0..|Encode(s)|] == Encode(s);
  }

  /** The characters of a stretch of ASCII bytes. */
  function Chars(b: seq<Byte>, i: nat, j: nat): (s: string)
    requires i <= j <= |b| && forall k :: i <= k < j ==> IsAscii(b[k])
    ensures |s| == j - i && forall k :: 0 <= k < |s| ==> s[k] as int == b[i + k]
  {
    seq(j - i, k requires 0 <= k < j - i => b[i + k] as char)
  }

  lemma AtChars(b: seq<Byte>, i: nat, j: nat)
    requires i <= j <= |b| && forall k :: i <= k < j ==> IsAscii(b[k])
    ensures At(b, i, Chars(b, i, j)) && End(i, Chars(b, i, j)) == j
  {
    hide Encode;
    var s := Chars(b, i, j);
    EncodeAscii(s);
    assert Encode(s) == b[i..j];
  }

  /** The text of a stretch of bytes that decodes. */
  lemma AtDecoded(b: seq<Byte>, i: nat, j: nat)
    requires i <= j <= |b| && ValidUtf8(b[i..j])
    ensures At(b, i, Unwrap(b[i..j])) && End(i, Unwrap(b[i..j])) == j
  {
    hide Encode, FromUtf8;
    EncodeDecode(b[i..j]);
  }

  // ------------------------------------------------------------------ white space

  /** ASCII white space. */
  predicate IsBlank(c: char) {
    c as int < 0x80 && IsWs(c as int)
  }

  predicate Blank(s: string) {
    forall k :: 0 <= k < |s| ==> IsBlank(s[k])
  }

  lemma {:induction false} SkipRun(b: seq<Byte>, i: nat, j: nat)
    requires i <= j <= |b| && forall k :: i <= k < j ==> IsWs(b[k])
    ensures SkipWs(b, i) == SkipWs(b, j)
    decreases j - i
  {
    if i < j {
      SkipRun(b, i + 1, j);
    }
  }

  /** The reader steps over written white space. */
  lemma BlankRead(b: seq<Byte>, i: nat, s: string)
    requires At(b, i, s) && Blank(s)
    ensures End(i, s) == i + |s| && SkipWs(b, i) == SkipWs(b, End(i, s))
    ensures s != "" ==> IsWs(b[i]) && IsWs(b[End(i, s) - 1])
  {
    hide Encode, SkipWs;
    AtAscii(b, i, s);
    assert forall k :: i <= k < i + |s| ==> b[k] == s[k - i] as int && IsWs(s[k - i] as int);
    SkipRun(b, i, i + |s|);
  }

  lemma {:induction false} SkippedAreWs(b: seq<Byte>, i: nat)
    requires i <= |b|
    ensures forall k :: i <= k < SkipWs(b, i) ==> IsWs(b[k])
    decreases |b| - i
  {
    if i < |b| && IsWs(b[i]) {
      SkippedAreWs(b, i + 1);
    }
  }

  /** What the reader stepped over was white space. */
  lemma SkippedText(b: seq<Byte>, i: nat) returns (s: string)
    requires i <= |b|
    ensures Blank(s) && At(b, i, s) && End(i, s) == SkipWs(b, i)
    ensures s == "" <==> SkipWs(b, i) == i
  {
    hide SkipWs, Encode;
    SkippedAreWs(b, i);
    s := Chars(b, i, SkipWs(b, i));
    AtChars(b, i, SkipWs(b, i));
  }

  lemma SkipNone(b: seq<Byte>, i: nat)
    requires i <= |b| && (i < |b| ==> !IsWs(b[i]))
    ensures SkipWs(b, i) == i
  {
  }

  // ------------------------------------------------------------------ operators

  /** The longest operator that stands there is read: a `>` or `<` is not one before a `=`. */
  lemma OpTextRead(b: seq<Byte>, i: nat, op: Op)
    requires At(b, i, OpText(op))
    requires op.Gt? || op.Lt? ==> End(i, OpText(op)) < |b| ==> b[End(i, OpText(op))] != '=' as int
    ensures PickOp(b, i) == Done(op, End(i, OpText(op)))
    ensures !IsIdentByte(b[i]) && !IsWs(b[i]) && Boundary(b, End(i, OpText(op)))
  {
    hide Encode, Starts, PickOp, IsIdentByte, IsWs, Boundary;
    AtAscii(b, i, OpText(op));
    assert b[i] == OpText(op)[0] as int && (|OpText(op)| == 2 ==> b[i + 1] == OpText(op)[1] as int);
    OpPicked(b, i, op);
    OpBytes(b, i, OpText(op));
  }

  lemma OpPicked(b: seq<Byte>, i: nat, op: Op)
    requires Starts(b, i, OpText(op)) && i + |OpText(op)| <= |b| && b[i] == OpText(op)[0] as int
    requires |OpText(op)| == 2 ==> b[i + 1] == OpText(op)[1] as int
    requires (op.Gt? || op.Lt?) && i + 1 < |b| ==> b[i + 1] != '=' as int
    ensures PickOp(b, i) == Done(op, i + |OpText(op)|)
  {
    hide Starts;
    OtherOps(b, i, OpText(op));
  }

  lemma OpBytes(b: seq<Byte>, i: nat, o: string)
    requires o in ["!=", "!~", ">=", "<=", "=", ">", "<", "~"] && i + |o| <= |b| && b[i] == o[0] as int
    requires |o| == 2 ==> b[i + 1] == o[1] as int
    ensures !IsIdentByte(b[i]) && !IsWs(b[i]) && Boundary(b, i + |o|)
  {
  }

  /** Of all operators, only `o` and its one-character prefix start where `o` stands. */
  lemma OtherOps(b: seq<Byte>, i: nat, o: string)
    requires o in ["!=", "!~", ">=", "<=", "=", ">", "<", "~"] && i + |o| <= |b| && b[i] == o[0] as int
    requires if |o| == 2 then b[i + 1] == o[1] as int
             else (o == ">" || o == "<") && i + 1 < |b| ==> b[i + 1] != '=' as int
    ensures forall tok :: tok in ["!=", "!~", ">=", "<=", "=", ">", "<", "~"] && Starts(b, i, tok) ==>
                            tok[0] == o[0] && (|tok| == 2 ==> tok == o)
  {
    forall tok | tok in ["!=", "!~", ">=", "<=", "=", ">", "<", "~"] && Starts(b, i, tok)
      ensures tok[0] == o[0] && (|tok| == 2 ==> tok == o)
    {
      assert b[i + 0] == tok[0] as int && (|tok| == 2 ==> b[i + 1] == tok[1] as int);
    }
  }

  /** The operator that was read stands there, and a `>` or `<` not before a `=`. */
  lemma OpTextStands(b: seq<Byte>, i: nat)
    requires PickOp(b, i).Done?
    ensures At(b, i, OpText(PickOp(b, i).value)) && End(i, OpText(PickOp(b, i).value)) == PickOp(b, i).at
    ensures PickOp(b, i).value.Gt? || PickOp(b, i).value.Lt? ==>
              PickOp(b, i).at < |b| ==> b[PickOp(b, i).at] != '=' as int
  {
    hide Encode;
    StartsText(b, i, OpText(PickOp(b, i).value));
    LongerFirst(b, i, ">", ">=");
    LongerFirst(b, i, "<", "<=");
  }

  lemma LongerFirst(b: seq<Byte>, i: nat, one: string, two: string)
    requires |one| == 1 && |two| == 2 && two[0] == one[0] && two[1] == '='
    ensures Starts(b, i, one) && !Starts(b, i, two) ==> i + 1 < |b| ==> b[i + 1] != '=' as int
  {
    if Starts(b, i, one) && i + 1 < |b| && b[i + 1] == '=' as int {
      assert b[i + 0] == one[0] as int;
      assert Starts(b, i, two);
    }
  }

  lemma StartsText(b: seq<Byte>, i: nat, tok: string)
    requires Starts(b, i, tok) && Ascii(tok) && i <= |b|
    ensures At(b, i, tok) && End(i, tok) == i + |tok|
  {
    hide Encode;
    EncodeAscii(tok);
    assert b[i..i + |tok|] == Encode(tok);
  }

  lemma EncodeEmpty()
    ensures Encode("") == []
  {
  }
}
