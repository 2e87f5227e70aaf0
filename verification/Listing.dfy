/**
 * The list endpoint of src/records.rs: the WHERE clause and its binds, the order with its rowid
 * tiebreak, and paging in 32-bit arithmetic.
 */
module Listing {
  import opened Wrappers
  import opened FilterTree
  import opened FilterParser
  import opened Json
  import opened Sql
  import opened SqlOrder
  import opened FilterSql
  import opened FilterWhere
  import opened Rules
  import opened Records
  import opened Words
  import opened Expand
  import Documents

  /** The records table with its rowids, which SQLite hands out once per insert. */
  type Table = map<int, Row>

  // ------------------------------------------------------------------ order

  datatype SortKey = SortKey(term: Term, desc: bool)

  /** `sort_clause`. */
  function SortClause(seg: string): Option<SortKey> {
    var desc := seg != "" && seg[0] == '-';
    var field := if desc then seg[1..] else seg;
    if !IdentOk(field) then None
    else Some(SortKey(if IsRowColumn(field) then Column(field) else Path(field), desc))
  }

  predicate Earlier(o: Oracles, key: SortKey, a: Row, b: Row) {
    var va, vb := TermValue(o, key.term, [], a), TermValue(o, key.term, [], b);
    if key.desc then Precedes(vb, va) else Precedes(va, vb)
  }

  predicate Tied(o: Oracles, key: SortKey, a: Row, b: Row) {
    Ties(TermValue(o, key.term, [], a), TermValue(o, key.term, [], b))
  }

  /** `ORDER BY keys, rowid ASC`. */
  predicate Before(o: Oracles, keys: seq<SortKey>, t: Table, x: int, y: int)
    requires x in t && y in t
  {
    if keys == [] then x < y
    else Earlier(o, keys[0], t[x], t[y]) || (Tied(o, keys[0], t[x], t[y]) && Before(o, keys[1..], t, x, y))
  }

  /** Only whitelisted names reach the ORDER BY clause, and a dash in front of one turns its order
      around and does nothing else. */
  lemma DashReverses(o: Oracles, field: string, a: Row, b: Row)
    requires field == "" || field[0] != '-'
    ensures SortClause(field).Some? <==> IdentOk(field)
    ensures SortClause("-" + field).Some? <==> IdentOk(field)
    ensures IdentOk(field) ==>
              && SortClause(field).value.term.name == SortClause("-" + field).value.term.name == field
              && (Earlier(o, SortClause("-" + field).value, a, b) <==> Earlier(o, SortClause(field).value, b, a))
  {
    hide Precedes, IdentOk;
    assert ("-" + field)[1..] == field;
  }

  lemma KeyOrder(o: Oracles, key: SortKey, a: Row, b: Row, c: Row)
    ensures !(Earlier(o, key, a, b) && Earlier(o, key, b, a))
    ensures !Earlier(o, key, a, b) && !Earlier(o, key, b, a) <==> Tied(o, key, a, b)
    ensures Tied(o, key, a, b) <==> Tied(o, key, b, a)
    ensures Earlier(o, key, a, b) && Earlier(o, key, b, c) ==> Earlier(o, key, a, c)
    ensures Tied(o, key, a, b) ==> (Earlier(o, key, b, c) <==> Earlier(o, key, a, c))
    ensures Tied(o, key, b, c) ==> (Earlier(o, key, a, b) <==> Earlier(o, key, a, c))
    ensures Tied(o, key, a, b) ==> (Tied(o, key, b, c) <==> Tied(o, key, a, c))
  {
    hide Precedes, Ties, TermValue;
    var va, vb, vc := TermValue(o, key.term, [], a), TermValue(o, key.term, [], b), TermValue(o, key.term, [], c);
    PrecedesTrichotomy(va, vb);
    PrecedesTrichotomy(vb, vc);
    PrecedesTransitive(va, vb, vc);
    PrecedesTransitive(vc, vb, va);
  }

  /** The order is strict and total: the rowid breaks every tie. */
  lemma {:induction false} BeforeTotal(o: Oracles, keys: seq<SortKey>, t: Table, x: int, y: int)
    requires x in t && y in t
    ensures if x == y then !Before(o, keys, t, x, y) else Before(o, keys, t, x, y) != Before(o, keys, t, y, x)
    decreases |keys|
  {
    hide Earlier, Tied;
    if keys != [] {
      KeyOrder(o, keys[0], t[x], t[y], t[x]);
      BeforeTotal(o, keys[1..], t, x, y);
    }
  }

  lemma {:induction false} BeforeTransitive(o: Oracles, keys: seq<SortKey>, t: Table, x: int, y: int, z: int)
    requires x in t && y in t && z in t && Before(o, keys, t, x, y) && Before(o, keys, t, y, z)
    ensures Before(o, keys, t, x, z)
    decreases |keys|
  {
    hide Earlier, Tied;
    if keys != [] {
      KeyOrder(o, keys[0], t[x], t[y], t[z]);
      if Tied(o, keys[0], t[x], t[y]) && Tied(o, keys[0], t[y], t[z]) {
        KeyOrder(o, keys[0], t[y], t[z], t[x]);
        BeforeTransitive(o, keys[1..], t, x, y, z);
      }
    }
  }

  // ------------------------------------------------------------------ the full listing

  predicate Ordered(o: Oracles, keys: seq<SortKey>, t: Table, s: seq<int>) {
    && (forall i :: 0 <= i < |s| ==> s[i] in t)
    && (forall i, j :: 0 <= i < j < |s| ==> Before(o, keys, t, s[i], s[j]))
  }

  /** All the selected rows, in order. */
  ghost predicate IsListing(o: Oracles, keys: seq<SortKey>, t: Table, sel: set<int>, s: seq<int>) {
    (forall r :: r in sel <==> r in s) && Ordered(o, keys, t, s)
  }

  lemma TailListing(o: Oracles, keys: seq<SortKey>, t: Table, sel: set<int>, s: seq<int>)
    requires IsListing(o, keys, t, sel, s) && s != []
    ensures IsListing(o, keys, t, sel - {s[0]}, s[1..])
  {
    hide Before;
    forall r
      ensures r in sel - {s[0]} <==> r in s[1..]
    {
      if r in s[1..] {
        var i :| 0 <= i < |s[1..]| && s[1..][i] == r;
        assert Before(o, keys, t, s[0], s[i + 1]);
        BeforeTotal(o, keys, t, s[0], s[0]);
      }
    }
  }

  lemma HeadListed(o: Oracles, keys: seq<SortKey>, t: Table, sel: set<int>, a: seq<int>, b: seq<int>)
    requires IsListing(o, keys, t, sel, a) && IsListing(o, keys, t, sel, b) && a != []
    ensures a[0] in sel && a[0] in b && b != []
  {
    hide Ordered;
    var x := a[0];
    assert x in a;
  }

  lemma EmptyListing(o: Oracles, keys: seq<SortKey>, t: Table, sel: set<int>, s: seq<int>)
    requires IsListing(o, keys, t, sel, s) && s == []
    ensures sel == {}
  {
    hide Ordered;
    assert forall r :: r in sel ==> r in s;
  }

  /** There is only one listing of a set of rows: each row is in it once, at its own place. */
  lemma {:induction false} ListingUnique(
      o: Oracles, keys: seq<SortKey>, t: Table, sel: set<int>, a: seq<int>, b: seq<int>)
    requires IsListing(o, keys, t, sel, a) && IsListing(o, keys, t, sel, b)
    ensures a == b && |a| == |sel|
    decreases |a|
  {
    hide IsListing, Ordered;
    if b != [] {
      HeadListed(o, keys, t, sel, b, a);
    }
    if a == [] {
      EmptyListing(o, keys, t, sel, a);
    } else {
      HeadListed(o, keys, t, sel, a, b);
      ListingOrdered(o, keys, t, sel, a);
      ListingOrdered(o, keys, t, sel, b);
      FirstIsFirst(o, keys, t, a, b);
      TailListing(o, keys, t, sel, a);
      TailListing(o, keys, t, sel, b);
      ListingUnique(o, keys, t, sel - {a[0]}, a[1..], b[1..]);
      assert a == [a[0]] + a[1..] && b == [b[0]] + b[1..];
    }
  }

  /** The listing of fewer rows keeps them in the order of the listing of all. */
  lemma StillListed(
      o: Oracles, keys: seq<SortKey>, t: Table, sel: set<int>, whole: set<int>, s: seq<int>, all: seq<int>)
    requires IsListing(o, keys, t, sel, s) && IsListing(o, keys, t, whole, all) && sel <= whole
    ensures forall i :: 0 <= i < |s| ==> s[i] in all
    ensures forall i, j, k, l ::
              0 <= i < j < |s| && 0 <= k < |all| && 0 <= l < |all| && all[k] == s[i] && all[l] == s[j] ==> k < l
  {
    hide IsListing, Ordered, Before;
    ListedRows(o, keys, t, sel, s);
    ListedRows(o, keys, t, whole, all);
    ListingOrdered(o, keys, t, sel, s);
    ListingOrdered(o, keys, t, whole, all);
    forall i | 0 <= i < |s|
      ensures s[i] in all
    {
      var x := s[i];
      assert x in s && x in sel && x in whole;
    }
    OrderKept(o, keys, t, s, all);
  }

  lemma ListedRows(o: Oracles, keys: seq<SortKey>, t: Table, sel: set<int>, s: seq<int>)
    requires IsListing(o, keys, t, sel, s)
    ensures forall r :: r in sel <==> r in s
  {
    hide Ordered;
  }

  lemma OrderKept(o: Oracles, keys: seq<SortKey>, t: Table, s: seq<int>, all: seq<int>)
    requires Ordered(o, keys, t, s) && Ordered(o, keys, t, all)
    ensures forall i, j, k, l ::
              0 <= i < j < |s| && 0 <= k < |all| && 0 <= l < |all| && all[k] == s[i] && all[l] == s[j] ==> k < l
  {
    hide Before;
    forall i, j, k, l | 0 <= i < j < |s| && 0 <= k < |all| && 0 <= l < |all| && all[k] == s[i] && all[l] == s[j]
      ensures k < l
    {
      assert Before(o, keys, t, s[i], s[j]);
      BeforeTotal(o, keys, t, s[i], s[j]);
    }
  }

  lemma ListingOrdered(o: Oracles, keys: seq<SortKey>, t: Table, sel: set<int>, s: seq<int>)
    requires IsListing(o, keys, t, sel, s)
    ensures Ordered(o, keys, t, s)
  {
    hide Ordered;
  }

  lemma FirstIsFirst(o: Oracles, keys: seq<SortKey>, t: Table, a: seq<int>, b: seq<int>)
    requires Ordered(o, keys, t, a) && Ordered(o, keys, t, b) && a != [] && b != [] && a[0] in b && b[0] in a
    ensures a[0] == b[0]
  {
    hide Before;
    var i :| 0 <= i < |b| && b[i] == a[0];
    var j :| 0 <= j < |a| && a[j] == b[0];
    if i > 0 && j > 0 {
      assert Before(o, keys, t, b[0], b[i]) && Before(o, keys, t, a[0], a[j]);
      BeforeTotal(o, keys, t, a[0], b[0]);
    }
  }

  lemma {:induction false} InsertRow(o: Oracles, keys: seq<SortKey>, t: Table, s: seq<int>, x: int)
    returns (r: seq<int>)
    requires Ordered(o, keys, t, s) && x in t && x !in s
    ensures Ordered(o, keys, t, r) && forall y :: y in r <==> y == x || y in s
  {
    hide Before;
    if s == [] {
      r := [x];
    } else {
      BeforeTotal(o, keys, t, x, s[0]);
      if Before(o, keys, t, x, s[0]) {
        r := [x] + s;
        forall j | 0 < j < |s|
          ensures Before(o, keys, t, x, s[j])
        {
          BeforeTransitive(o, keys, t, x, s[0], s[j]);
        }
      } else {
        var rest := InsertRow(o, keys, t, s[1..], x);
        r := [s[0]] + rest;
        assert forall y :: y in rest ==> Before(o, keys, t, s[0], y);
      }
    }
  }

  /** Every set of rows has a listing. */
  lemma {:induction false} ListingExists(o: Oracles, keys: seq<SortKey>, t: Table, sel: set<int>) returns (s: seq<int>)
    requires sel <= t.Keys
    ensures IsListing(o, keys, t, sel, s)
    decreases |sel|
  {
    hide Before;
    if x :| x in sel {
      var rest := ListingExists(o, keys, t, sel - {x});
      s := InsertRow(o, keys, t, rest, x);
    } else {
      s := [];
    }
  }

  // ------------------------------------------------------------------ the request

  datatype Query = Query(
    page: Option<nat>, perPage: Option<nat>, sort: Option<string>, filter: Option<string>, fields: Option<string>,
    expand: Option<string>, skipTotal: bool)

  datatype ListError = NoSuchCollection | NotAllowed(denial: Denial) | BadFilter | BadSort | BadFields

  datatype Plan = Plan(filter: Option<Node>, rule: Option<Node>, keys: seq<SortKey>)

  datatype Reply = Reply(page: nat, perPage: nat, totalItems: int, totalPages: int, items: seq<Object>)

  const U32 := 0x1_0000_0000

  function PageNumber(q: Query): nat {
    if q.page.Some? && q.page.value > 1 then q.page.value else 1
  }

  function PerPage(q: Query): nat {
    match q.perPage
    case None => 30
    case Some(n) => if n < 1 then 1 else if n > 500 then 500 else n
  }

  function SortKeys(segs: seq<string>): Option<seq<SortKey>> {
    if segs == [] then Some([])
    else
      match (SortClause(segs[0]), SortKeys(segs[1..]))
      case (Some(k), Some(ks)) => Some([k] + ks)
      case _ => None
  }

  const DEFAULT_ORDER := [SortKey(Column("created"), false)]

  function OrderOf(sort: Option<string>): Option<seq<SortKey>> {
    if sort.None? then Some(DEFAULT_ORDER) else SortKeys(Segments(sort.value))
  }

  predicate FieldsOk(fields: Option<string>) {
    fields.Some? ==> forall f :: f in Segments(fields.value) ==> IdentOk(f)
  }

  /** The list rule as a tree: `Err` if a stored expression no longer parses, None if nothing is to be
      enforced. */
  function RuleOf(o: Oracles, rule: Option<string>): Result<Option<Node>, ParseError> {
    match rule
    case None => Ok(None)
    case Some(expr) => match ParseRule(o, expr) case Ok(n) => Ok(Some(n)) case Err(e) => Err(e)
  }

  function FilterOf(o: Oracles, filter: Option<string>): Result<Option<Node>, ParseError> {
    match filter
    case None => Ok(None)
    case Some(f) => match Parse(o.realOf, Filter, f) case Ok(n) => Ok(Some(n)) case Err(e) => Err(e)
  }

  /** What a request asks for, or why it is refused, in the order in which the handler looks. */
  function PlanOf(o: Oracles, cols: map<string, Coll>, w: Who, name: string, q: Query): Result<Plan, ListError> {
    if name !in cols then Err(NoSuchCollection)
    else match CheckRule(w, cols[name].rules.list)
      case Err(d) => Err(NotAllowed(d))
      case Ok(rule) =>
        match FilterOf(o, q.filter)
        case Err(_) => Err(BadFilter)
        case Ok(f) =>
          match RuleOf(o, rule)
          case Err(_) => Err(NotAllowed(Deny(w)))
          case Ok(n) =>
            match OrderOf(q.sort)
            case None => Err(BadSort)
            case Some(keys) => if FieldsOk(q.fields) then Ok(Plan(f, n, keys)) else Err(BadFields)
  }

  // ------------------------------------------------------------------ the request, read literally

  /** A row that the list rule lets this caller see and of which the filter, if there is one, is
      true. */
  predicate Wanted(o: Oracles, w: Who, name: string, list: RuleText, filter: Option<string>, row: Row) {
    && row.collection == name && Documents.MayTouch(o, w, list, row)
    && (filter.Some? ==>
          Parse(o.realOf, Filter, filter.value).Ok? &&
          Meaning(o, Parse(o.realOf, Filter, filter.value).value, "", row) == Yes)
  }

  ghost function WantedRows(
      o: Oracles, t: Table, w: Who, name: string, list: RuleText, filter: Option<string>): set<int>
  {
    set r | r in t && Wanted(o, w, name, list, filter, t[r])
  }

  /** What a listing is sorted by: the segments asked for, or the time of creation. */
  function SortedBy(sort: Option<string>): seq<string> {
    if sort.None? then ["created"] else Segments(sort.value)
  }

  predicate Descends(seg: string) {
    seg != "" && seg[0] == '-'
  }

  function SortName(seg: string): string {
    if Descends(seg) then seg[1..] else seg
  }

  function SortValue(o: Oracles, seg: string, row: Row): Sql {
    var field := SortName(seg);
    if field == "id" then VText(row.id)
    else if field == "created" then VText(row.created)
    else if field == "updated" then VText(row.updated)
    else FromJson(o, Get(row.data, field))
  }

  predicate TiedUpTo(o: Oracles, segs: seq<string>, n: nat, a: Row, b: Row)
    requires n <= |segs|
  {
    forall j :: 0 <= j < n ==> Ties(SortValue(o, segs[j], a), SortValue(o, segs[j], b))
  }

  /** The first segment on which two rows differ puts one of them first; the rowid decides where none
      does. */
  predicate ComesBefore(o: Oracles, segs: seq<string>, t: Table, x: int, y: int)
    requires x in t && y in t
  {
    || (exists k :: 0 <= k < |segs| && TiedUpTo(o, segs, k, t[x], t[y]) && Leads(o, segs[k], t[x], t[y]))
    || (TiedUpTo(o, segs, |segs|, t[x], t[y]) && x < y)
  }

  predicate Leads(o: Oracles, seg: string, a: Row, b: Row) {
    if Descends(seg) then Precedes(SortValue(o, seg, b), SortValue(o, seg, a))
    else Precedes(SortValue(o, seg, a), SortValue(o, seg, b))
  }

  /** The checks of a list request, in the order in which they are made, and what each answers. */
  ghost function ListChecks(o: Oracles, cols: map<string, Coll>, w: Who, name: string, q: Query)
    : seq<(bool, ListError)>
  {
    var list := if name in cols then cols[name].rules.list else None;
    var denied := NotAllowed(if w.Guest? then Unauthorized else Forbidden);
    [(name !in cols, NoSuchCollection),
     (!w.Admin? && list.None?, denied),
     (q.filter.Some? && Parse(o.realOf, Filter, q.filter.value).Err?, BadFilter),
     (!w.Admin? && list.Some? && list.value != "" && Parse(o.realOf, Rule, list.value).Err?, denied),
     (exists i :: 0 <= i < |SortedBy(q.sort)| && !IdentOk(SortName(SortedBy(q.sort)[i])), BadSort),
     (q.fields.Some? && exists f :: f in Segments(q.fields.value) && !IdentOk(f), BadFields)]
  }

  /** What a request is answered from: it is refused by none of the checks, and this is all the rows
      it wants, each before those that come after it. */
  ghost predicate Answers(
      o: Oracles, t: Table, cols: map<string, Coll>, w: Who, name: string, q: Query, s: seq<int>)
  {
    && name in cols && Documents.FirstOf(ListChecks(o, cols, w, name, q)) == None
    && (forall i :: 0 <= i < |s| ==> s[i] in t)
    && (forall r :: r in t ==> (r in s <==> Wanted(o, w, name, cols[name].rules.list, q.filter, t[r])))
    && (forall i, j :: 0 <= i < j < |s| ==> ComesBefore(o, SortedBy(q.sort), t, s[i], s[j]))
  }

  // ------------------------------------------------------------------ the same, as it is planned

  lemma SixChecks(c: seq<(bool, ListError)>)
    requires |c| == 6
    ensures Documents.FirstOf(c) ==
            if c[0].0 then Some(c[0].1) else if c[1].0 then Some(c[1].1) else if c[2].0 then Some(c[2].1)
            else if c[3].0 then Some(c[3].1) else if c[4].0 then Some(c[4].1) else if c[5].0 then Some(c[5].1) else None
  {
    Documents.FirstSteps(c, 3);
    Documents.FirstSteps(c[3..], 3);
    Documents.NoChecks(c[3..][3..]);
  }

  lemma {:induction false} KeysExactly(segs: seq<string>)
    ensures SortKeys(segs).None? <==> exists i :: 0 <= i < |segs| && !IdentOk(SortName(segs[i]))
    ensures SortKeys(segs).Some? ==>
              |SortKeys(segs).value| == |segs| &&
              forall i :: 0 <= i < |segs| ==> SortClause(segs[i]) == Some(SortKeys(segs).value[i])
  {
    hide IdentOk;
    if segs != [] {
      KeysExactly(segs[1..]);
      assert forall i :: 0 < i < |segs| ==> segs[1..][i - 1] == segs[i];
      if i :| 0 <= i < |segs| - 1 && !IdentOk(SortName(segs[1..][i])) {
        assert !IdentOk(SortName(segs[i + 1]));
      }
    }
  }

  lemma OrderExactly(sort: Option<string>)
    ensures OrderOf(sort) == SortKeys(SortedBy(sort))
  {
    hide Segments;
    if sort.None? {
      assert IdentOk("created");
      assert SortClause("created") == Some(DEFAULT_ORDER[0]);
      assert ["created"][1..] == [] && SortKeys([]) == Some([]);
      assert DEFAULT_ORDER == [DEFAULT_ORDER[0]] + [];
    }
  }

  lemma RuleExactly(o: Oracles, w: Who, list: RuleText, row: Row)
    ensures CheckRule(w, list).Err? <==> !w.Admin? && list.None?
    ensures CheckRule(w, list).Err? ==> CheckRule(w, list).error == if w.Guest? then Unauthorized else Forbidden
    ensures CheckRule(w, list).Ok? ==>
              && (RuleOf(o, CheckRule(w, list).value).Err? <==>
                  !w.Admin? && list.Some? && list.value != "" && Parse(o.realOf, Rule, list.value).Err?)
              && (RuleOf(o, CheckRule(w, list).value).Ok? ==>
                  (OptionalTrue(o, RuleOf(o, CheckRule(w, list).value).value, AuthId(w), row) <==>
                   Documents.MayTouch(o, w, list, row)))
  {
    hide Parse, Meaning;
    Documents.EmptyIsNoRule(o);
  }

  lemma FilterExactly(o: Oracles, filter: Option<string>, row: Row)
    ensures FilterOf(o, filter).Err? <==> filter.Some? && Parse(o.realOf, Filter, filter.value).Err?
    ensures FilterOf(o, filter).Ok? ==>
              (OptionalTrue(o, FilterOf(o, filter).value, "", row) <==>
               (filter.Some? ==>
                  Parse(o.realOf, Filter, filter.value).Ok? &&
                  Meaning(o, Parse(o.realOf, Filter, filter.value).value, "", row) == Yes))
  {
    hide Parse, Meaning;
  }

  /** A request is refused with the first of its checks that fails. */
  lemma RefusedExactly(o: Oracles, cols: map<string, Coll>, w: Who, name: string, q: Query)
    ensures Documents.FirstOf(ListChecks(o, cols, w, name, q)) ==
            if PlanOf(o, cols, w, name, q).Err? then Some(PlanOf(o, cols, w, name, q).error) else None
  {
    hide Parse, Meaning, SortKeys, Segments, IdentOk, SortedBy, OrderOf, RuleOf, FilterOf, CheckRule, Documents.FirstOf,
      OptionalTrue, SortName, Documents.MayTouch;
    var row := Row("", "", "", "", map[]);
    if name in cols {
      RuleExactly(o, w, cols[name].rules.list, row);
    }
    FilterExactly(o, q.filter, row);
    OrderExactly(q.sort);
    KeysExactly(SortedBy(q.sort));
    SixChecks(ListChecks(o, cols, w, name, q));
  }

  lemma KeyMeans(o: Oracles, seg: string, a: Row, b: Row)
    requires SortClause(seg).Some?
    ensures Earlier(o, SortClause(seg).value, a, b) <==> Leads(o, seg, a, b)
    ensures Tied(o, SortClause(seg).value, a, b) <==> Ties(SortValue(o, seg, a), SortValue(o, seg, b))
  {
    hide Precedes, Ties, IdentOk;
  }

  lemma TiedShift(o: Oracles, segs: seq<string>, n: nat, a: Row, b: Row)
    requires 0 < n <= |segs|
    ensures TiedUpTo(o, segs, n, a, b) <==>
            Ties(SortValue(o, segs[0], a), SortValue(o, segs[0], b)) && TiedUpTo(o, segs[1..], n - 1, a, b)
  {
    hide Ties, SortValue;
    assert forall j :: 0 < j < |segs| ==> segs[1..][j - 1] == segs[j];
  }

  lemma ComesBeforeStep(o: Oracles, segs: seq<string>, t: Table, x: int, y: int)
    requires x in t && y in t && segs != []
    ensures ComesBefore(o, segs, t, x, y) <==>
            || Leads(o, segs[0], t[x], t[y])
            || (Ties(SortValue(o, segs[0], t[x]), SortValue(o, segs[0], t[y])) && ComesBefore(o, segs[1..], t, x, y))
  {
    hide Ties, SortValue, Leads, TiedUpTo;
    var rest := segs[1..];
    TiedShift(o, segs, |segs|, t[x], t[y]);
    if k :| 0 <= k < |segs| && TiedUpTo(o, segs, k, t[x], t[y]) && Leads(o, segs[k], t[x], t[y]) {
      if k > 0 {
        TiedShift(o, segs, k, t[x], t[y]);
        assert rest[k - 1] == segs[k];
      }
    }
    if k :| 0 <= k < |rest| && TiedUpTo(o, rest, k, t[x], t[y]) && Leads(o, rest[k], t[x], t[y]) {
      TiedShift(o, segs, k + 1, t[x], t[y]);
      assert rest[k] == segs[k + 1];
    }
    TiedAtNone(o, segs, t[x], t[y]);
  }

  lemma TiedAtNone(o: Oracles, segs: seq<string>, a: Row, b: Row)
    ensures TiedUpTo(o, segs, 0, a, b)
  {
  }

  /** The ORDER BY clause sorts as the segments say. */
  lemma {:induction false} BeforeExactly(o: Oracles, segs: seq<string>, t: Table, x: int, y: int)
    requires x in t && y in t && SortKeys(segs).Some?
    ensures Before(o, SortKeys(segs).value, t, x, y) <==> ComesBefore(o, segs, t, x, y)
  {
    hide Earlier, Tied, Leads, Ties, SortValue, SortClause, TiedUpTo;
    if segs == [] {
      TiedAtNone(o, segs, t[x], t[y]);
    } else {
      BeforeExactly(o, segs[1..], t, x, y);
      KeyMeans(o, segs[0], t[x], t[y]);
      ComesBeforeStep(o, segs, t, x, y);
      assert SortKeys(segs).value[1..] == SortKeys(segs[1..]).value;
    }
  }

  /** The plan's listing is what the request is answered from. */
  lemma AnswersExactly(o: Oracles, t: Table, cols: map<string, Coll>, w: Who, name: string, q: Query, s: seq<int>)
    requires PlanOf(o, cols, w, name, q).Ok?
    ensures Answers(o, t, cols, w, name, q, s) <==>
            IsListing(o, PlanOf(o, cols, w, name, q).value.keys, t,
                      WantedRows(o, t, w, name, cols[name].rules.list, q.filter), s)
  {
    hide Wanted, Before, ComesBefore, ListChecks, Documents.FirstOf, OrderOf, SortedBy, RuleOf, FilterOf, CheckRule,
      SortKeys;
    RefusedExactly(o, cols, w, name, q);
    OrderExactly(q.sort);
    var keys := PlanOf(o, cols, w, name, q).value.keys;
    forall x, y | x in t && y in t
      ensures Before(o, keys, t, x, y) <==> ComesBefore(o, SortedBy(q.sort), t, x, y)
    {
      BeforeExactly(o, SortedBy(q.sort), t, x, y);
    }
    if Answers(o, t, cols, w, name, q, s) {
      assert forall r :: r in s ==> r in t;
    }
  }

  ghost function SelectedRows(o: Oracles, t: Table, ts: seq<Tok>, binds: seq<Value>): set<int> {
    set r | r in t && Selects(o, ts, binds, t[r])
  }

  /** SQLite, as far as the handler uses it: a query returns the rows its WHERE clause selects, in
      the order its ORDER BY clause and the rowid say. */
  ghost predicate IsEngine(o: Oracles, t: Table, engine: (seq<Tok>, seq<Value>, seq<SortKey>) -> seq<int>) {
    forall ts, binds, keys :: IsListing(o, keys, t, SelectedRows(o, t, ts, binds), engine(ts, binds, keys))
  }

  /** The clause selects exactly the rows the list rule lets this caller see and the filter asks for,
      and the order is the one asked for. */
  lemma ClauseExactly(o: Oracles, cols: map<string, Coll>, w: Who, name: string, q: Query)
    requires PlanOf(o, cols, w, name, q).Ok?
    ensures name in cols
    ensures forall row ::
              Selects(o, ListToks(PlanOf(o, cols, w, name, q).value.filter, PlanOf(o, cols, w, name, q).value.rule),
                      ListBinds(o, name, PlanOf(o, cols, w, name, q).value.filter,
                                PlanOf(o, cols, w, name, q).value.rule, AuthId(w)), row) <==>
              Wanted(o, w, name, cols[name].rules.list, q.filter, row)
    ensures forall t: Table, x, y | x in t && y in t ::
              Before(o, PlanOf(o, cols, w, name, q).value.keys, t, x, y) <==>
              ComesBefore(o, SortedBy(q.sort), t, x, y)
  {
    hide ListToks, ListBinds, Selects, Meaning, ParseRule, Parse, SortKeys, SortedBy, RuleOf, FilterOf, OrderOf,
      CheckRule, OptionalTrue, Documents.MayTouch, Before, ComesBefore;
    var p := PlanOf(o, cols, w, name, q).value;
    forall row
      ensures Selects(o, ListToks(p.filter, p.rule), ListBinds(o, name, p.filter, p.rule, AuthId(w)), row) <==>
              Wanted(o, w, name, cols[name].rules.list, q.filter, row)
    {
      ListSelects(o, name, p.filter, p.rule, AuthId(w), row);
      RuleExactly(o, w, cols[name].rules.list, row);
      FilterExactly(o, q.filter, row);
    }
    OrderExactly(q.sort);
    forall t: Table, x, y | x in t && y in t
      ensures Before(o, p.keys, t, x, y) <==> ComesBefore(o, SortedBy(q.sort), t, x, y)
    {
      BeforeExactly(o, SortedBy(q.sort), t, x, y);
    }
  }

  lemma PlannedRows(o: Oracles, t: Table, cols: map<string, Coll>, w: Who, name: string, q: Query)
    requires PlanOf(o, cols, w, name, q).Ok?
    ensures var p := PlanOf(o, cols, w, name, q).value;
            SelectedRows(o, t, ListToks(p.filter, p.rule), ListBinds(o, name, p.filter, p.rule, AuthId(w))) ==
            WantedRows(o, t, w, name, cols[name].rules.list, q.filter)
  {
    hide ListToks, ListBinds, Selects, PlanOf, Wanted;
    ClauseExactly(o, cols, w, name, q);
  }

  // ------------------------------------------------------------------ pages

  /** `(page - 1) * per_page` on 32 bits. A build with overflow checks panics where this wraps. */
  function Offset(page: nat, per: nat): nat
    requires page >= 1
  {
    ((page - 1) * per) % U32
  }

  /** `LIMIT per OFFSET off`. */
  function Slice(s: seq<int>, off: nat, per: nat): seq<int> {
    if off >= |s| then [] else if off + per >= |s| then s[off..] else s[off..off + per]
  }

  /** `(total as u32).div_ceil(per_page)`. */
  function TotalPages(total: nat, per: nat): nat
    requires per >= 1
  {
    (total % U32 + per - 1) / per
  }

  function Pages(s: seq<int>, per: nat, count: nat): seq<int>
    requires per >= 1
  {
    if count == 0 then [] else Pages(s, per, count - 1) + Slice(s, Offset(count, per), per)
  }

  /** While the offset fits in 32 bits, a page is the rows from its offset on. */
  lemma PageIs(s: seq<int>, page: nat, per: nat, off: nat)
    requires page >= 1 && off == (page - 1) * per && off < U32
    ensures Slice(s, Offset(page, per), per) == Slice(s, off, per)
  {
    hide Slice;
  }

  /** The first `upTo` rows. */
  function Front(s: seq<int>, upTo: nat): seq<int> {
    if upTo >= |s| then s else s[..upTo]
  }

  lemma FrontGrows(s: seq<int>, off: nat, per: nat)
    ensures Front(s, off) + Slice(s, off, per) == Front(s, off + per)
  {
  }

  lemma {:induction false} PagesPrefix(s: seq<int>, per: nat, count: nat, rows: nat)
    requires per >= 1 && rows == count * per && rows < U32 + per
    ensures Pages(s, per, count) == Front(s, rows)
    decreases count
  {
    hide Slice, Offset, Front;
    if count == 0 {
      NoRows(s);
    } else {
      var off := rows - per;
      assert off == (count - 1) * per;
      PagesPrefix(s, per, count - 1, off);
      PageIs(s, count, per, off);
      FrontGrows(s, off, per);
    }
  }

  lemma NoRows(s: seq<int>)
    ensures Front(s, 0) == []
  {
  }

  lemma CeilBounds(total: nat, per: nat)
    requires per >= 1
    ensures total % U32 <= TotalPages(total, per) * per < total % U32 + per
  {
    var m := total % U32 + per - 1;
    assert m == (m / per) * per + m % per;
  }

  /** Reading pages 1 to `totalPages` gives every row exactly once and in order, precisely as long as
      the total fits in 32 bits. */
  lemma PagesCoverExactly(s: seq<int>, per: nat)
    requires 1 <= per <= 500
    ensures Pages(s, per, TotalPages(|s|, per)) == s <==> |s| < U32
  {
    hide Pages, TotalPages;
    var k := TotalPages(|s|, per);
    CeilBounds(|s|, per);
    PagesPrefix(s, per, k, k * per);
    if |s| >= U32 {
      assert |s| % U32 <= |s| - U32;
    }
  }

  /** A page past the last one is empty precisely when its offset, wrapped to 32 bits, is. It always
      is while the offset fits. */
  lemma PastTheEnd(s: seq<int>, page: nat, per: nat)
    requires |s| < U32 && 1 <= per <= 500 && page > TotalPages(|s|, per)
    ensures Slice(s, Offset(page, per), per) == [] <==> |s| <= Offset(page, per)
    ensures (page - 1) * per < U32 ==> Slice(s, Offset(page, per), per) == []
  {
    hide TotalPages, Slice;
    var k := TotalPages(|s|, per);
    CeilBounds(|s|, per);
    MoreThan(page - 1, k, per);
    SliceEmpty(s, Offset(page, per), per);
  }

  lemma MoreThan(a: nat, b: nat, per: nat)
    requires a >= b
    ensures a * per >= b * per
  {
    assert a * per == b * per + (a - b) * per;
  }

  lemma SliceEmpty(s: seq<int>, off: nat, per: nat)
    requires per >= 1
    ensures Slice(s, off, per) == [] <==> |s| <= off
  {
  }

  /** The wrap is real, where the build does not check for overflow: with two rows a page, page
      2^31 + 1 is page 1 again. */
  lemma OffsetWraps(s: seq<int>)
    requires 0 < |s| < U32
    ensures 0x8000_0001 > TotalPages(|s|, 2)
    ensures Slice(s, Offset(0x8000_0001, 2), 2) == Slice(s, Offset(1, 2), 2) != []
  {
    CeilBounds(|s|, 2);
  }

  // ------------------------------------------------------------------ the handler

  function ItemOf(name: string, row: Row): Object {
    RecordJson(Key(name, row.id), Rec(row.data, row.created, row.updated))
  }

  /** The `fields` projection: `id` and `expand` always survive it. */
  predicate Keeps(fields: Option<string>, key: string) {
    fields.Some? ==> key == "id" || key == "expand" || key in Segments(fields.value)
  }

  function Projected(fields: Option<string>, item: Object): Object {
    map key | key in item && Keeps(fields, key) :: item[key]
  }

  /** Everything that decides how one row is shown. */
  datatype Look = Look(
    o: Oracles, db: Db, w: Who, name: string, fields: Option<string>, expand: Option<string>) {
    function Schema(): seq<Field> {
      if name in db.cols then db.cols[name].schema else []
    }

    function Expanded(item: Object): Object {
      if expand.None? then item
      else WithExpand(item, Resolved(o, db, w, Schema(), Segments(expand.value), item))
    }

    function Item(row: Row): Object {
      Projected(fields, Expanded(ItemOf(name, row)))
    }
  }

  function LookOf(o: Oracles, db: Db, w: Who, name: string, q: Query): Look {
    Look(o, db, w, name, q.fields, q.expand)
  }

  lemma ClauseBuilt(base: seq<Tok>, f: seq<Tok>, n: seq<Tok>, b: seq<Value>, fb: seq<Value>, nb: seq<Value>)
    ensures base + (f + n) == (base + f) + n && b + (fb + nb) == (b + fb) + nb
    ensures base + [] == base && b + [] == b
  {
  }

  /** The first half of `records_list`: the clause and its binds grow together, piece by piece. */
  method BuildClause(o: Oracles, cols: map<string, Coll>, w: Who, name: string, q: Query)
    returns (r: Result<(seq<Tok>, seq<Value>, seq<SortKey>), ListError>)
    ensures PlanOf(o, cols, w, name, q).Err? ==> r == Err(PlanOf(o, cols, w, name, q).error)
    ensures PlanOf(o, cols, w, name, q).Ok? ==>
              var p := PlanOf(o, cols, w, name, q).value;
              r == Ok((ListToks(p.filter, p.rule), ListBinds(o, name, p.filter, p.rule, AuthId(w)), p.keys))
    ensures Documents.FirstOf(ListChecks(o, cols, w, name, q)) == if r.Err? then Some(r.error) else None
    ensures r.Ok? ==>
              && name in cols
              && (forall row :: Selects(o, r.value.0, r.value.1, row) <==>
                    Wanted(o, w, name, cols[name].rules.list, q.filter, row))
              && (forall t: Table, x, y | x in t && y in t ::
                    Before(o, r.value.2, t, x, y) <==> ComesBefore(o, SortedBy(q.sort), t, x, y))
  {
    hide SideToks, Binds, ParseRule, Parse, SortKeys, Segments, ListChecks, Documents.FirstOf, Wanted, ComesBefore,
      Before, Selects, SortedBy;
    RefusedExactly(o, cols, w, name, q);
    if PlanOf(o, cols, w, name, q).Ok? {
      ClauseExactly(o, cols, w, name, q);
    }
    if name !in cols { return Err(NoSuchCollection); }
    var rule := CheckRule(w, cols[name].rules.list);
    if rule.Err? { return Err(NotAllowed(rule.error)); }
    var clause, binds := COLLECTION_EQ, [Text(name)];
    ghost var f, n: Option<Node> := None, None;
    if q.filter.Some? {
      var parsed := Parse(o.realOf, Filter, q.filter.value);
      if parsed.Err? { return Err(BadFilter); }
      clause := clause + ([AndKw] + Wrapped(parsed.value));
      binds := binds + Binds(o, parsed.value, "");
      f := Some(parsed.value);
    }
    assert clause == COLLECTION_EQ + Optional(f) && binds == [Text(name)] + OptionalBinds(o, f, "");
    if rule.value.Some? {
      var parsed := ParseRule(o, rule.value.value);
      if parsed.Err? { return Err(NotAllowed(Deny(w))); }
      clause := clause + ([AndKw] + Wrapped(parsed.value));
      binds := binds + Binds(o, parsed.value, AuthId(w));
      n := Some(parsed.value);
    }
    assert clause == (COLLECTION_EQ + Optional(f)) + Optional(n);
    assert binds == ([Text(name)] + OptionalBinds(o, f, "")) + OptionalBinds(o, n, AuthId(w));
    ClauseBuilt(COLLECTION_EQ, Optional(f), Optional(n),
                [Text(name)], OptionalBinds(o, f, ""), OptionalBinds(o, n, AuthId(w)));
    var order := OrderOf(q.sort);
    if order.None? { return Err(BadSort); }
    if !FieldsOk(q.fields) { return Err(BadFields); }
    return Ok((clause, binds, order.value));
  }

  /** Two listings that answer one request are the same, whichever page it is for and whether or not
      it wants the total. */
  lemma AnswersUnique(
      o: Oracles, t: Table, cols: map<string, Coll>, w: Who, name: string, q: Query, q': Query,
      a: seq<int>, b: seq<int>)
    requires Answers(o, t, cols, w, name, q, a) && Answers(o, t, cols, w, name, q', b)
    requires q'.filter == q.filter && q'.sort == q.sort && q'.fields == q.fields
    ensures a == b && |a| == |WantedRows(o, t, w, name, cols[name].rules.list, q.filter)|
    ensures forall i :: 0 <= i < |a| ==> a[i] in t
    ensures forall i, j :: 0 <= i < j < |a| ==> a[i] != a[j]
  {
    hide WantedRows, Before, ListChecks, Documents.FirstOf, Answers, PlanOf;
    AnswersListed(o, t, cols, w, name, q, a);
    AnswersListed(o, t, cols, w, name, q', b);
    SamePlan(o, cols, w, name, q, q');
    var keys := PlanOf(o, cols, w, name, q).value.keys;
    ListingUnique(o, keys, t, WantedRows(o, t, w, name, cols[name].rules.list, q.filter), a, b);
    forall i, j | 0 <= i < j < |a|
      ensures a[i] != a[j]
    {
      BeforeTotal(o, keys, t, a[i], a[i]);
    }
  }

  lemma AnswersListed(o: Oracles, t: Table, cols: map<string, Coll>, w: Who, name: string, q: Query, s: seq<int>)
    requires Answers(o, t, cols, w, name, q, s)
    ensures name in cols && PlanOf(o, cols, w, name, q).Ok?
    ensures IsListing(o, PlanOf(o, cols, w, name, q).value.keys, t,
                      WantedRows(o, t, w, name, cols[name].rules.list, q.filter), s)
  {
    hide WantedRows, Before, ListChecks, Documents.FirstOf, PlanOf, IsListing, Wanted, ComesBefore;
    RefusedExactly(o, cols, w, name, q);
    AnswersExactly(o, t, cols, w, name, q, s);
  }

  lemma SamePlan(o: Oracles, cols: map<string, Coll>, w: Who, name: string, q: Query, q': Query)
    requires q'.filter == q.filter && q'.sort == q.sort && q'.fields == q.fields
    ensures PlanOf(o, cols, w, name, q') == PlanOf(o, cols, w, name, q)
  {
    hide FilterOf, RuleOf, OrderOf;
  }

  /** `item` shows a row: the record as any caller is shown it, with what it reaches inlined, and then
      cut down to its `id`, its `expand` and the fields asked for. */
  ghost predicate ListsRow(o: Oracles, db: Db, w: Who, name: string, q: Query, row: Row, item: Object) {
    exists shown, full ::
      && Documents.Shows(shown, Key(name, row.id), Rec(row.data, row.created, row.updated))
      && InlinedIn(o, db, w, name, q.expand, shown, full)
      && CutTo(q.fields, full, item)
  }

  ghost predicate InlinedIn(
      o: Oracles, db: Db, w: Who, name: string, expand: Option<string>, shown: Object, full: Object)
  {
    if expand.None? then full == shown
    else Inlined(o, db, w, if name in db.cols then db.cols[name].schema else [], Segments(expand.value), shown, full)
  }

  ghost predicate CutTo(fields: Option<string>, full: Object, item: Object) {
    forall key ::
      Documents.At(item, key) ==
      if fields.None? || key == "id" || key == "expand" || key in Segments(fields.value)
      then Documents.At(full, key) else None
  }

  lemma ItemExactly(o: Oracles, db: Db, w: Who, name: string, q: Query, row: Row)
    ensures ListsRow(o, db, w, name, q, row, LookOf(o, db, w, name, q).Item(row))
  {
    hide RecordJson, Resolved, WithExpand, Inlined, Documents.Shows, Segments;
    var v := LookOf(o, db, w, name, q);
    var shown := ItemOf(name, row);
    var full := v.Expanded(shown);
    Documents.ShownExactly(Key(name, row.id), Rec(row.data, row.created, row.updated));
    if q.expand.Some? {
      InlinedExactly(o, db, w, v.Schema(), Segments(q.expand.value), shown);
    }
    assert InlinedIn(o, db, w, name, q.expand, shown, full);
    CutExactly(q.fields, full);
  }

  lemma CutExactly(fields: Option<string>, full: Object)
    ensures CutTo(fields, full, Projected(fields, full))
  {
    hide Segments;
  }

  /** One page of a listing: 30 rows unless 1 to 500 are asked for, from the offset of the page
      number on, which wraps at 2^32; and, unless it is not wanted, the total and the least number of
      pages that holds it. */
  ghost predicate IsPage(
      o: Oracles, t: Table, db: Db, w: Who, name: string, q: Query, s: seq<int>, reply: Reply)
  {
    && reply.page == (if q.page.Some? && q.page.value > 1 then q.page.value else 1)
    && (q.perPage.None? ==> reply.perPage == 30)
    && (q.perPage.Some? ==>
          reply.perPage == if q.perPage.value < 1 then 1 else if q.perPage.value > 500 then 500 else q.perPage.value)
    && (q.skipTotal ==> reply.totalItems == -1 && reply.totalPages == -1)
    && (!q.skipTotal ==>
          && reply.totalItems == |s|
          && (reply.totalPages - 1) * reply.perPage < |s| % U32 <= reply.totalPages * reply.perPage)
    && IsWindow(o, t, db, w, name, q, s, (reply.page - 1) * reply.perPage % U32, reply.perPage, reply.items)
  }

  /** The items show the rows from the offset on, as many as the page takes and there are. */
  ghost predicate IsWindow(
      o: Oracles, t: Table, db: Db, w: Who, name: string, q: Query, s: seq<int>, off: nat, per: nat, items: seq<Object>)
  {
    && |items| == (if off >= |s| then 0 else if off + per >= |s| then |s| - off else per)
    && forall i :: off <= i < off + |items| ==> s[i] in t && ListsRow(o, db, w, name, q, t[s[i]], items[i - off])
  }

  /** The answer to a list request. */
  ghost predicate IsReply(o: Oracles, t: Table, db: Db, w: Who, name: string, q: Query, reply: Reply) {
    exists s :: Answers(o, t, db.cols, w, name, q, s) && IsPage(o, t, db, w, name, q, s, reply)
  }

  lemma EngineAnswers(
      o: Oracles, t: Table, engine: (seq<Tok>, seq<Value>, seq<SortKey>) -> seq<int>,
      cols: map<string, Coll>, w: Who, name: string, q: Query)
    requires IsEngine(o, t, engine) && PlanOf(o, cols, w, name, q).Ok?
    ensures var p := PlanOf(o, cols, w, name, q).value;
            var s := engine(ListToks(p.filter, p.rule), ListBinds(o, name, p.filter, p.rule, AuthId(w)), p.keys);
            Answers(o, t, cols, w, name, q, s) && forall i :: 0 <= i < |s| ==> s[i] in t
  {
    hide ListToks, ListBinds, SelectedRows, WantedRows, Before, Answers;
    PlannedRows(o, t, cols, w, name, q);
    var p := PlanOf(o, cols, w, name, q).value;
    AnswersExactly(o, t, cols, w, name, q,
                   engine(ListToks(p.filter, p.rule), ListBinds(o, name, p.filter, p.rule, AuthId(w)), p.keys));
  }

  /** `records_list` on one read snapshot: one clause serves both the count and the page; the items of
      the page are expanded together and only then projected. It is refused with the first check that
      fails, and otherwise answered with the page asked for of the rows asked for. */
  method RecordsList(
      o: Oracles, t: Table, engine: (seq<Tok>, seq<Value>, seq<SortKey>) -> seq<int>,
      db: Db, w: Who, name: string, q: Query) returns (r: Result<Reply, ListError>)
    requires IsEngine(o, t, engine)
    ensures r.Err? ==> Documents.FirstOf(ListChecks(o, db.cols, w, name, q)) == Some(r.error)
    ensures r.Ok? ==> Documents.FirstOf(ListChecks(o, db.cols, w, name, q)) == None
    ensures r.Ok? ==> IsReply(o, t, db, w, name, q, r.value)
  {
    hide ListToks, ListBinds, PlanOf, Answers, ItemOf, TotalPages, Offset, IsEngine, Slice, WithExpand,
      Resolved, Projected, ListChecks, Documents.FirstOf, IsPage;
    RefusedExactly(o, db.cols, w, name, q);
    var built := BuildClause(o, db.cols, w, name, q);
    if built.Err? { return Err(built.error); }
    var (clause, binds, order) := built.value;
    EngineAnswers(o, t, engine, db.cols, w, name, q);
    var page, per := PageNumber(q), PerPage(q);
    var rows := engine(clause, binds, order);
    var total: int, pages: int := -1, -1;
    if !q.skipTotal {
      total, pages := |rows|, TotalPages(|rows|, per);
    }
    var shown := Slice(rows, Offset(page, per), per);
    SliceWithin(t, rows, Offset(page, per), per);
    var items := ShowRows(LookOf(o, db, w, name, q), t, shown);
    PageExactly(o, t, db, w, name, q, rows, items);
    return Ok(Reply(page, per, total, pages, items));
  }

  lemma PageExactly(o: Oracles, t: Table, db: Db, w: Who, name: string, q: Query, s: seq<int>, items: seq<Object>)
    requires forall i :: 0 <= i < |s| ==> s[i] in t
    requires var shown := Slice(s, Offset(PageNumber(q), PerPage(q)), PerPage(q));
             && |items| == |shown|
             && forall i :: 0 <= i < |shown| ==>
                  shown[i] in t && items[i] == LookOf(o, db, w, name, q).Item(t[shown[i]])
    ensures IsPage(o, t, db, w, name, q, s,
                   Reply(PageNumber(q), PerPage(q), if q.skipTotal then -1 else |s|,
                         if q.skipTotal then -1 else TotalPages(|s|, PerPage(q)), items))
  {
    hide LookOf, ListsRow, TotalPages, Look.Item;
    var per := PerPage(q);
    var off := Offset(PageNumber(q), per);
    CeilBounds(|s|, per);
    OneLess(TotalPages(|s|, per), per);
    forall i | off <= i < off + |items|
      ensures i < |s| && ListsRow(o, db, w, name, q, t[s[i]], items[i - off])
    {
      assert Slice(s, off, per)[i - off] == s[i];
      ItemExactly(o, db, w, name, q, t[s[i]]);
    }
  }

  lemma OneLess(a: int, per: nat)
    ensures (a - 1) * per == a * per - per
  {
  }

  lemma SliceWithin(t: Table, s: seq<int>, off: nat, per: nat)
    requires forall i :: 0 <= i < |s| ==> s[i] in t
    ensures forall i :: 0 <= i < |Slice(s, off, per)| ==> Slice(s, off, per)[i] in t
  {
  }

  /** The second half: the page's rows as items, expanded in place, then projected in place. */
  method ShowRows(v: Look, t: Table, shown: seq<int>) returns (items: seq<Object>)
    requires forall i :: 0 <= i < |shown| ==> shown[i] in t
    ensures |items| == |shown| && forall i :: 0 <= i < |shown| ==> items[i] == v.Item(t[shown[i]])
  {
    hide ItemOf, WithExpand, Resolved, Projected, Segments;
    var page := new Object[|shown|](i requires 0 <= i < |shown| && shown[i] in t => ItemOf(v.name, t[shown[i]]));
    if v.expand.Some? {
      ExpandRecords(v.o, v.db, v.w, v.Schema(), v.expand.value, page);
    }
    for i := 0 to page.Length
      invariant forall j :: 0 <= j < i ==> page[j] == v.Item(t[shown[j]])
      invariant forall j :: i <= j < page.Length ==> page[j] == v.Expanded(ItemOf(v.name, t[shown[j]]))
    {
      page[i] := Projected(v.fields, page[i]);
    }
    items := page[..];
  }

  // ------------------------------------------------------------------ all the pages

  function AllItems(replies: seq<Reply>): seq<Object> {
    if replies == [] then [] else AllItems(replies[..|replies| - 1]) + replies[|replies| - 1].items
  }

  /** The items of the first pages are the first rows. */
  lemma {:induction false} FirstPages(
      o: Oracles, t: Table, db: Db, w: Who, name: string, q: Query, s: seq<int>, replies: seq<Reply>,
      per: nat, rows: nat)
    requires per == PerPage(q) && rows == |replies| * per && |s| < U32 && rows < |s| + per
    requires forall i :: 0 <= i < |replies| ==> IsPage(o, t, db, w, name, q.(page := Some(i + 1)), s, replies[i])
    ensures |AllItems(replies)| == if rows < |s| then rows else |s|
    ensures forall i :: 0 <= i < |AllItems(replies)| ==>
              s[i] in t && ListsRow(o, db, w, name, q, t[s[i]], AllItems(replies)[i])
    decreases |replies|
  {
    hide ListsRow, IsPage;
    if replies != [] {
      var m := |replies| - 1;
      var off := rows - per;
      OneLess(|replies|, per);
      var before := AllItems(replies[..m]);
      FirstPages(o, t, db, w, name, q, s, replies[..m], per, off);
      PageAfter(o, t, db, w, name, q, s, m + 1, off, replies[m]);
      forall i | off <= i < |AllItems(replies)|
        ensures s[i] in t && ListsRow(o, db, w, name, q, t[s[i]], AllItems(replies)[i])
      {
        assert AllItems(replies)[i] == replies[m].items[i - off];
      }
    }
  }

  lemma PageAfter(
      o: Oracles, t: Table, db: Db, w: Who, name: string, q: Query, s: seq<int>, page: nat, off: nat, reply: Reply)
    requires page >= 1 && off == (page - 1) * PerPage(q) && off < U32
    requires IsPage(o, t, db, w, name, q.(page := Some(page)), s, reply)
    ensures IsWindow(o, t, db, w, name, q, s, off, PerPage(q), reply.items)
  {
    hide ListsRow;
    assert reply.page == page && reply.perPage == PerPage(q);
    assert (reply.page - 1) * reply.perPage == off && off % U32 == off;
    forall i | off <= i < off + |reply.items|
      ensures s[i] in t && ListsRow(o, db, w, name, q, t[s[i]], reply.items[i - off])
    {
      SameLook(o, db, w, name, q, q.(page := Some(page)), t[s[i]], reply.items[i - off]);
    }
  }

  lemma SameLook(o: Oracles, db: Db, w: Who, name: string, q: Query, q': Query, row: Row, item: Object)
    requires q'.expand == q.expand && q'.fields == q.fields
    ensures ListsRow(o, db, w, name, q', row, item) <==> ListsRow(o, db, w, name, q, row, item)
  {
    hide Documents.Shows, InlinedIn, CutTo;
  }

  /** On one snapshot, a client that learns the number of pages and then reads them all gets, put
      together, the records this caller may see and asked for, each exactly once and in the order
      asked for: as long as there are fewer than 2^32 of them. */
  lemma EveryRowOnce(
      o: Oracles, t: Table, db: Db, w: Who, name: string, q: Query, first: Reply, replies: seq<Reply>, s: seq<int>)
    requires Answers(o, t, db.cols, w, name, q, s) && |s| < U32
    requires !q.skipTotal && IsReply(o, t, db, w, name, q, first) && |replies| == first.totalPages
    requires forall i :: 0 <= i < |replies| ==> IsReply(o, t, db, w, name, q.(page := Some(i + 1)), replies[i])
    ensures forall i, j :: 0 <= i < j < |s| ==> s[i] != s[j]
    ensures |AllItems(replies)| == |s| == first.totalItems
    ensures forall i :: 0 <= i < |s| ==> s[i] in t && ListsRow(o, db, w, name, q, t[s[i]], AllItems(replies)[i])
  {
    hide Answers, IsPage, WantedRows, AllItems, ListsRow;
    OnePage(o, t, db, w, name, q, q, first, s);
    var per := PerPage(q);
    FirstPage(o, t, db, w, name, q, first, s);
    forall i | 0 <= i < |replies|
      ensures IsPage(o, t, db, w, name, q.(page := Some(i + 1)), s, replies[i])
    {
      assert IsReply(o, t, db, w, name, q.(page := Some(i + 1)), replies[i]);
      OnePage(o, t, db, w, name, q, q.(page := Some(i + 1)), replies[i], s);
    }
    OneLess(first.totalPages, per);
    FirstPages(o, t, db, w, name, q, s, replies, per, |replies| * per);
    AnswersUnique(o, t, db.cols, w, name, q, q, s, s);
  }

  lemma FirstPage(o: Oracles, t: Table, db: Db, w: Who, name: string, q: Query, first: Reply, s: seq<int>)
    requires IsPage(o, t, db, w, name, q, s, first) && !q.skipTotal && |s| < U32
    ensures first.totalItems == |s| && (first.totalPages - 1) * PerPage(q) < |s| <= first.totalPages * PerPage(q)
  {
    hide IsWindow;
  }

  /** Every reply is a page of the one listing. */
  lemma OnePage(
      o: Oracles, t: Table, db: Db, w: Who, name: string, q: Query, q': Query, reply: Reply, s: seq<int>)
    requires Answers(o, t, db.cols, w, name, q, s) && IsReply(o, t, db, w, name, q', reply)
    requires q'.filter == q.filter && q'.sort == q.sort && q'.fields == q.fields
    ensures IsPage(o, t, db, w, name, q', s, reply)
  {
    hide Answers, IsPage, WantedRows;
    var a :| Answers(o, t, db.cols, w, name, q', a) && IsPage(o, t, db, w, name, q', a, reply);
    AnswersUnique(o, t, db.cols, w, name, q, q', s, a);
  }

  /** A filter only ever narrows what the list rule allows, and leaves the rest in their order. */
  lemma FilterNarrows(
      o: Oracles, t: Table, cols: map<string, Coll>, w: Who, name: string, q: Query, s: seq<int>, all: seq<int>)
    requires Answers(o, t, cols, w, name, q, s) && Answers(o, t, cols, w, name, q.(filter := None), all)
    ensures forall i :: 0 <= i < |s| ==> s[i] in all
    ensures forall i, j, k, l ::
              0 <= i < j < |s| && 0 <= k < |all| && 0 <= l < |all| && all[k] == s[i] && all[l] == s[j] ==> k < l
  {
    hide Before, Answers, PlanOf, WantedRows;
    AnswersListed(o, t, cols, w, name, q, s);
    AnswersListed(o, t, cols, w, name, q.(filter := None), all);
    WantedAnyway(o, t, w, name, cols[name].rules.list, q.filter);
    SameKeys(o, cols, w, name, q);
    var keys := PlanOf(o, cols, w, name, q).value.keys;
    StillListed(o, keys, t, WantedRows(o, t, w, name, cols[name].rules.list, q.filter),
                WantedRows(o, t, w, name, cols[name].rules.list, None), s, all);
  }

  lemma SameKeys(o: Oracles, cols: map<string, Coll>, w: Who, name: string, q: Query)
    requires PlanOf(o, cols, w, name, q).Ok? && PlanOf(o, cols, w, name, q.(filter := None)).Ok?
    ensures PlanOf(o, cols, w, name, q.(filter := None)).value.keys == PlanOf(o, cols, w, name, q).value.keys
  {
    hide FilterOf, RuleOf, OrderOf;
  }

  lemma WantedAnyway(o: Oracles, t: Table, w: Who, name: string, list: RuleText, filter: Option<string>)
    ensures WantedRows(o, t, w, name, list, filter) <= WantedRows(o, t, w, name, list, None)
  {
    hide Parse, Meaning, Documents.MayTouch;
    forall r | r in WantedRows(o, t, w, name, list, filter)
      ensures r in WantedRows(o, t, w, name, list, None)
    {
      assert Wanted(o, w, name, list, None, t[r]);
    }
  }
}
