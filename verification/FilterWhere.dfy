/**
 * The WHERE clauses that src/records.rs builds around compiled fragments: a lone fragment, the
 * row gate, the list query and the bulk expand query. Each is read back as SQL text and shown to
 * select exactly the rows it should.
 */
module FilterWhere {
  import opened Wrappers
  import opened FilterTree
  import opened Json
  import opened Sql
  import opened FilterSql

  // ------------------------------------------------------------------ a fragment alone

  lemma StopsRead(ts: seq<Tok>, i: nat, k: nat, e: Expr, j: nat, k1: nat)
    requires j <= |ts| && (Peek(ts, j) == None || Peek(ts, j) == Some(Close))
    requires RAnd(ts, i, k) == RAndTail(ts, j, k1, e)
    ensures RExpr(ts, i, k) == Got(e, j, k1)
  {
    hide RAnd, RPrim;
  }

  /** Reading the emitted fragment under SQL precedence, with binds taken in placeholder order,
      gives the tree's own three-valued meaning, and there is one bind per placeholder. */
  lemma FragmentMeans(o: Oracles, n: Node, auth: string, row: Row)
    ensures ReadWhere(SideToks(n)).Some?
    ensures ReadWhere(SideToks(n)).value.1 == |Binds(o, n, auth)|
    ensures Denote(o, ReadWhere(SideToks(n)).value.0, Binds(o, n, auth), row) == Meaning(o, n, auth, row)
  {
    hide RExpr, RAnd, RAndTail, Denote, Meaning, Toks, SideToks, Binds;
    var ts, binds := SideToks(n), Binds(o, n, auth);
    assert ts[0..0 + |ts|] == ts && binds[0..0 + |binds|] == binds;
    var e := ChainRead(Run(o, ts, binds, auth, row), 0, 0, n);
    StopsRead(ts, 0, 0, e, |ts|, |binds|);
  }

  /** Two trees that differ only in their literals. */
  predicate SameShape(n: Node, m: Node) {
    match (n, m)
    case (Or(a, b), Or(c, d)) => SameShape(a, c) && SameShape(b, d)
    case (And(a, b), And(c, d)) => SameShape(a, c) && SameShape(b, d)
    case (Cmp(l, op, r), Cmp(x, op', y)) =>
      op == op' && (l == x || (l.Val? && x.Val?)) && (r == y || (r.Val? && y.Val?))
    case _ => false
  }

  /** No literal ever reaches the SQL text, and neither does the caller's id: the emitted tokens
      are a function of the tree's shape alone. */
  lemma TextHidesLiterals(n: Node, m: Node)
    requires SameShape(n, m)
    ensures Toks(n) == Toks(m) && SideToks(n) == SideToks(m)
  {
  }

  // ------------------------------------------------------------------ pieces of a WHERE clause

  /** `column = ?` at token `i` reads as one unit that compares the column with the bind. */
  lemma EqualsRead(ts: seq<Tok>, i: nat, k: nat, column: string)
    requires Here(ts, i, [Name(column), CmpKw(Eq), Mark])
    ensures RPrim(ts, i, k) == Got(ECmp(Column(column), Eq, Bind(k)), i + 3, k + 1)
  {
    HereAt(ts, i, [Name(column), CmpKw(Eq), Mark]);
    assert ts[i + 0] == Name(column) && ts[i + 1] == CmpKw(Eq) && ts[i + 2] == Mark;
  }

  lemma EqualsMeans(o: Oracles, column: string, k: nat, binds: seq<Value>, row: Row, text: string)
    requires k < |binds| && binds[k] == Text(text)
    ensures Denote(o, ECmp(Column(column), Eq, Bind(k)), binds, row) == Of(ColumnText(row, column) == text)
  {
  }

  lemma AndMeans(o: Oracles, a: Expr, b: Expr, binds: seq<Value>, row: Row)
    ensures Denote(o, EAnd(a, b), binds, row) == AndT(Denote(o, a, binds, row), Denote(o, b, binds, row))
  {
  }

  /** ` AND (fragment)`, as the list query wraps it. */
  function Wrapped(n: Node): seq<Tok> {
    [Open] + (SideToks(n) + [Close])
  }

  lemma WrappedRead(r: Run, i: nat, k: nat, n: Node) returns (e: Expr)
    requires r.Has(n, i, Wrapped(n), k)
    ensures RPrim(r.ts, i, k) == Got(e, i + |Wrapped(n)|, k + |Binds(r.o, n, r.auth)|) && r.Means(e, n)
  {
    hide RPred, RExpr, RAnd, RAndTail, Denote, Meaning, SideToks, Toks, Binds;
    HereConcat(r.ts, i, [Open], SideToks(n) + [Close]);
    HereConcat(r.ts, i + 1, SideToks(n), [Close]);
    var j := i + 1 + |SideToks(n)|;
    HereAt(r.ts, i, [Open]);
    HereAt(r.ts, j, [Close]);
    assert r.ts[i + 0] == Open && r.ts[j + 0] == Close;
    e := ChainRead(r, i + 1, k, n);
    StopsRead(r.ts, i + 1, k, e, j, k + |Binds(r.o, n, r.auth)|);
  }

  // ------------------------------------------------------------------ the row gate

  const COLLECTION_EQ := [Name("collection"), CmpKw(Eq), Mark]
  const ID_EQ := [Name("id"), CmpKw(Eq), Mark]

  /** `collection = ? AND id = ? AND {frag}`. */
  function GateToks(n: Node): seq<Tok> {
    COLLECTION_EQ + ([AndKw] + (ID_EQ + ([AndKw] + SideToks(n))))
  }

  function GateBinds(o: Oracles, name: string, id: string, n: Node, auth: string): seq<Value> {
    [Text(name), Text(id)] + Binds(o, n, auth)
  }

  /** A whole clause selects a row when every unit of its AND chain is true of it. */
  lemma WhereIs(o: Oracles, ts: seq<Tok>, binds: seq<Value>, row: Row, e: Expr)
    requires RAnd(ts, 0, 0) == RAndTail(ts, |ts|, |binds|, e)
    ensures Selects(o, ts, binds, row) <==> Denote(o, e, binds, row) == Yes
  {
    hide RExpr, RAnd, RAndTail, Denote;
    StopsRead(ts, 0, 0, e, |ts|, |binds|);
  }

  lemma GateParts(ts: seq<Tok>, s: seq<Tok>)
    requires ts == COLLECTION_EQ + ([AndKw] + (ID_EQ + ([AndKw] + s)))
    ensures Here(ts, 0, COLLECTION_EQ) && ts[3] == AndKw && Here(ts, 4, ID_EQ) && Here(ts, 7, [AndKw] + s)
    ensures |ts| == 8 + |s|
  {
    assert ts[0..0 + |ts|] == ts;
    SplitAt(ts, 0, COLLECTION_EQ, AndKw, ID_EQ + ([AndKw] + s));
    Leading(ts, 3, AndKw, ID_EQ + ([AndKw] + s));
    SplitAt(ts, 4, ID_EQ, AndKw, s);
  }

  /** The gate's SQL selects a row exactly when it is the addressed row and the rule is true of it:
      no part of the rule can leak past the two equalities. */
  lemma GateSelects(o: Oracles, name: string, id: string, n: Node, auth: string, row: Row)
    ensures Selects(o, GateToks(n), GateBinds(o, name, id, n, auth), row) <==>
            row.collection == name && row.id == id && Meaning(o, n, auth, row) == Yes
  {
    hide RPrim, RAndTail, Meaning, SideToks, Toks, Binds, Selects, Denote;
    var ts, binds := GateToks(n), GateBinds(o, name, id, n, auth);
    var r := Run(o, ts, binds, auth, row);
    GateParts(ts, SideToks(n));
    assert binds[0..0 + |binds|] == binds;
    HereConcat(binds, 0, [Text(name), Text(id)], Binds(o, n, auth));
    EqualsRead(ts, 0, 0, "collection");
    EqualsRead(ts, 4, 1, "id");
    var c, d := ECmp(Column("collection"), Eq, Bind(0)), ECmp(Column("id"), Eq, Bind(1));
    EqualsMeans(o, "collection", 0, binds, row, name);
    EqualsMeans(o, "id", 1, binds, row, id);
    AndMeans(o, c, d, binds, row);
    AndStep(ts, 3, 1, c, d, 7, 2);
    var e := ChainNext(r, 7, 2, n, EAnd(c, d));
    WhereIs(o, ts, binds, row, e);
  }

  // ------------------------------------------------------------------ the list query

  function Optional(n: Option<Node>): seq<Tok> {
    if n.None? then [] else [AndKw] + Wrapped(n.value)
  }

  function OptionalBinds(o: Oracles, n: Option<Node>, auth: string): seq<Value> {
    if n.None? then [] else Binds(o, n.value, auth)
  }

  predicate OptionalTrue(o: Oracles, n: Option<Node>, auth: string, row: Row) {
    n.Some? ==> Meaning(o, n.value, auth, row) == Yes
  }

  /** `collection = ? [AND (filter)] [AND (rule)]`. */
  function ListToks(filter: Option<Node>, rule: Option<Node>): seq<Tok> {
    COLLECTION_EQ + (Optional(filter) + Optional(rule))
  }

  /** A filter parameter is compiled for nobody in particular; only the rule sees the caller. */
  function ListBinds(o: Oracles, name: string, filter: Option<Node>, rule: Option<Node>, auth: string): seq<Value> {
    [Text(name)] + (OptionalBinds(o, filter, "") + OptionalBinds(o, rule, auth))
  }

  lemma WrappedNext(r: Run, i: nat, k: nat, n: Node, acc: Expr) returns (e: Expr)
    requires r.Has(n, i, [AndKw] + Wrapped(n), k)
    ensures RAndTail(r.ts, i, k, acc) == RAndTail(r.ts, i + 1 + |Wrapped(n)|, k + |Binds(r.o, n, r.auth)|, e)
    ensures Denote(r.o, e, r.binds, r.row) ==
            AndT(Denote(r.o, acc, r.binds, r.row), Meaning(r.o, n, r.auth, r.row))
  {
    hide RPrim, RAndTail, Meaning, Binds, Wrapped, Denote;
    HereConcat(r.ts, i, [AndKw], Wrapped(n));
    HereAt(r.ts, i, [AndKw]);
    assert r.ts[i + 0] == AndKw;
    var u := WrappedRead(r, i + 1, k, n);
    AndMeans(r.o, acc, u, r.binds, r.row);
    AndStep(r.ts, i, k, acc, u, i + 1 + |Wrapped(n)|, k + |Binds(r.o, n, r.auth)|);
    e := EAnd(acc, u);
  }

  lemma OptionalRead(r: Run, i: nat, k: nat, n: Option<Node>, acc: Expr) returns (e: Expr)
    requires Here(r.ts, i, Optional(n)) && Here(r.binds, k, OptionalBinds(r.o, n, r.auth))
    ensures RAndTail(r.ts, i, k, acc) ==
            RAndTail(r.ts, i + |Optional(n)|, k + |OptionalBinds(r.o, n, r.auth)|, e)
    ensures Denote(r.o, e, r.binds, r.row) == Yes <==>
            Denote(r.o, acc, r.binds, r.row) == Yes && OptionalTrue(r.o, n, r.auth, r.row)
  {
    hide RAndTail, Denote, Meaning, Wrapped, Binds;
    e := acc;
    if n.Some? {
      e := WrappedNext(r, i, k, n.value, acc);
    }
  }

  /** The list query selects exactly the rows of the collection that satisfy the filter and the list
      rule, so a filter can only narrow what the rule allows. */
  lemma ListSelects(o: Oracles, name: string, filter: Option<Node>, rule: Option<Node>, auth: string, row: Row)
    ensures Selects(o, ListToks(filter, rule), ListBinds(o, name, filter, rule, auth), row) <==>
            row.collection == name && OptionalTrue(o, filter, "", row) && OptionalTrue(o, rule, auth, row)
  {
    hide RPrim, RAndTail, Optional, OptionalBinds, OptionalTrue, Selects, Denote;
    var ts, binds := ListToks(filter, rule), ListBinds(o, name, filter, rule, auth);
    assert ts[0..0 + |ts|] == ts && binds[0..0 + |binds|] == binds;
    var fb := OptionalBinds(o, filter, "");
    HereConcat(ts, 0, COLLECTION_EQ, Optional(filter) + Optional(rule));
    HereConcat(ts, 3, Optional(filter), Optional(rule));
    HereConcat(binds, 0, [Text(name)], fb + OptionalBinds(o, rule, auth));
    HereConcat(binds, 1, fb, OptionalBinds(o, rule, auth));
    EqualsRead(ts, 0, 0, "collection");
    EqualsMeans(o, "collection", 0, binds, row, name);
    var c := ECmp(Column("collection"), Eq, Bind(0));
    var e := OptionalRead(Run(o, ts, binds, "", row), 3, 1, filter, c);
    e := OptionalRead(Run(o, ts, binds, auth, row), 3 + |Optional(filter)|, 1 + |fb|, rule, e);
    WhereIs(o, ts, binds, row, e);
  }

  // ------------------------------------------------------------------ the expand query

  /** `?, ?, ...` after the first placeholder, and the closing parenthesis. */
  function MoreMarks(count: nat): seq<Tok> {
    if count == 0 then [Close] else [Comma, Mark] + MoreMarks(count - 1)
  }

  function InToks(count: nat): seq<Tok>
    requires count > 0
  {
    [Name("id"), InKw, Open, Mark] + MoreMarks(count - 1)
  }

  function Texts(ids: seq<string>): seq<Value> {
    seq(|ids|, j requires 0 <= j < |ids| => Text(ids[j]))
  }

  /** `collection = ? AND id IN (?, ...) [AND {frag}]`. */
  function ExpandToks(count: nat, rule: Option<Node>): seq<Tok>
    requires count > 0
  {
    COLLECTION_EQ + ([AndKw] + (InToks(count) + Spliced(rule)))
  }

  function Spliced(rule: Option<Node>): seq<Tok> {
    if rule.None? then [] else [AndKw] + SideToks(rule.value)
  }

  function ExpandBinds(o: Oracles, target: string, ids: seq<string>, rule: Option<Node>, auth: string): seq<Value> {
    [Text(target)] + (Texts(ids) + OptionalBinds(o, rule, auth))
  }

  lemma {:induction false} MarksRead(ts: seq<Tok>, i: nat, count: nat, seen: nat)
    requires Here(ts, i, MoreMarks(count))
    ensures RMarks(ts, i, seen) == Got(seen + count, i + |MoreMarks(count)|, 0)
    ensures |MoreMarks(count)| == 2 * count + 1
    decreases count
  {
    HereAt(ts, i, MoreMarks(count));
    assert ts[i + 0] == MoreMarks(count)[0];
    if count > 0 {
      assert ts[i + 1] == MoreMarks(count)[1];
      HereConcat(ts, i, [Comma, Mark], MoreMarks(count - 1));
      MarksRead(ts, i + 2, count - 1, seen + 1);
    }
  }

  lemma InRead(ts: seq<Tok>, i: nat, k: nat, count: nat)
    requires count > 0 && Here(ts, i, InToks(count))
    ensures RPrim(ts, i, k) == Got(EIn(Column("id"), k, count), i + |InToks(count)|, k + count)
  {
    hide RMarks;
    HereConcat(ts, i, [Name("id"), InKw, Open, Mark], MoreMarks(count - 1));
    HereAt(ts, i, [Name("id"), InKw, Open, Mark]);
    assert ts[i + 0] == Name("id") && ts[i + 1] == InKw && ts[i + 2] == Open && ts[i + 3] == Mark;
    MarksRead(ts, i + 4, count - 1, 1);
  }

  /** `id IN (...)` holds exactly for the listed ids, and is never NULL. */
  lemma {:induction false} InMeans(o: Oracles, id: string, binds: seq<Value>, first: nat, ids: seq<string>)
    requires Here(binds, first, Texts(ids))
    ensures InTruth(o, VText(id), binds, first, |ids|) == Of(id in ids)
    decreases |ids|
  {
    if |ids| > 0 {
      var m := |ids| - 1;
      var front := ids[..m];
      HereAt(binds, first, Texts(ids));
      assert binds[first + m] == Texts(ids)[m];
      assert Texts(ids) == Texts(front) + [Text(ids[m])];
      HereConcat(binds, first, Texts(front), [Text(ids[m])]);
      InMeans(o, id, binds, first, front);
      assert ids == front + [ids[m]];
    }
  }

  lemma InDenotes(o: Oracles, first: nat, count: nat, binds: seq<Value>, row: Row)
    ensures Denote(o, EIn(Column("id"), first, count), binds, row) == InTruth(o, VText(row.id), binds, first, count)
  {
    hide InTruth;
  }

  lemma SplicedRead(r: Run, i: nat, k: nat, n: Option<Node>, acc: Expr) returns (e: Expr)
    requires Here(r.ts, i, Spliced(n)) && Here(r.binds, k, OptionalBinds(r.o, n, r.auth))
    ensures RAndTail(r.ts, i, k, acc) ==
            RAndTail(r.ts, i + |Spliced(n)|, k + |OptionalBinds(r.o, n, r.auth)|, e)
    ensures Denote(r.o, e, r.binds, r.row) == Yes <==>
            Denote(r.o, acc, r.binds, r.row) == Yes && OptionalTrue(r.o, n, r.auth, r.row)
  {
    hide RAndTail, Denote, Meaning, SideToks, Toks, Binds;
    if n.None? {
      e := acc;
    } else {
      e := ChainNext(r, i, k, n.value, acc);
    }
  }

  lemma ExpandParts(ts: seq<Tok>, s: seq<Tok>, t: seq<Tok>)
    requires ts == COLLECTION_EQ + ([AndKw] + (s + t))
    ensures Here(ts, 0, COLLECTION_EQ) && ts[3] == AndKw && Here(ts, 4, s) && Here(ts, 4 + |s|, t)
    ensures |ts| == 4 + |s| + |t|
  {
    assert ts[0..0 + |ts|] == ts;
    SplitAt(ts, 0, COLLECTION_EQ, AndKw, s + t);
    Leading(ts, 3, AndKw, s + t);
    HereConcat(ts, 4, s, t);
  }

  lemma BindParts(binds: seq<Value>, v: Value, s: seq<Value>, t: seq<Value>)
    requires binds == [v] + (s + t)
    ensures binds[0] == v && Here(binds, 1, s) && Here(binds, 1 + |s|, t) && |binds| == 1 + |s| + |t|
  {
    assert binds[0..0 + |binds|] == binds;
    HereConcat(binds, 0, [v], s + t);
    HereConcat(binds, 1, s, t);
  }

  /** The bulk query of expand selects exactly the target rows that the per-row gate would pass. */
  lemma ExpandSelects(o: Oracles, target: string, ids: seq<string>, rule: Option<Node>, auth: string, row: Row)
    requires ids != []
    ensures Selects(o, ExpandToks(|ids|, rule), ExpandBinds(o, target, ids, rule, auth), row) <==>
            row.collection == target && row.id in ids && OptionalTrue(o, rule, auth, row)
  {
    hide RPrim, RAndTail, Spliced, OptionalBinds, OptionalTrue, Selects, InToks, InTruth, Denote;
    var ts, binds := ExpandToks(|ids|, rule), ExpandBinds(o, target, ids, rule, auth);
    ExpandParts(ts, InToks(|ids|), Spliced(rule));
    BindParts(binds, Text(target), Texts(ids), OptionalBinds(o, rule, auth));
    EqualsRead(ts, 0, 0, "collection");
    EqualsMeans(o, "collection", 0, binds, row, target);
    InRead(ts, 4, 1, |ids|);
    InMeans(o, row.id, binds, 1, ids);
    InDenotes(o, 1, |ids|, binds, row);
    var c, d := ECmp(Column("collection"), Eq, Bind(0)), EIn(Column("id"), 1, |ids|);
    var j := 4 + |InToks(|ids|)|;
    AndMeans(o, c, d, binds, row);
    AndStep(ts, 3, 1, c, d, j, 1 + |ids|);
    var e := SplicedRead(Run(o, ts, binds, auth, row), j, 1 + |ids|, rule, EAnd(c, d));
    WhereIs(o, ts, binds, row, e);
  }
}
