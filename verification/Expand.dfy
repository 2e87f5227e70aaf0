/**
 * Inlining related records (`expand_records` in src/records.rs): the batched, gated query per field
 * refines fetching and gating each related record on its own.
 */
module Expand {
  import opened Wrappers
  import opened FilterTree
  import opened FilterParser
  import opened Json
  import opened Sql
  import opened SqlOrder
  import opened FilterSql
  import opened FilterWhere
  import opened Rules
  import opened Records
  import opened Words
  import Documents

  // ------------------------------------------------------------------ one row at a time

  /** The target collection of the relation field of that name. */
  function Target(schema: seq<Field>, field: string): Option<string> {
    if schema == [] then None
    else if schema[0].name == field && schema[0].ty.RelationField? then Some(schema[0].target)
    else Target(schema[1..], field)
  }

  /** What `GET /api/collections/<target>/records/<id>` would show this caller (`record_view`). */
  function Viewable(o: Oracles, db: Db, w: Who, k: Key): Option<Object> {
    if k.col in db.cols && k in db.records && Gate(o, db, w, db.cols[k.col].rules.view, k).None?
    then Some(RecordJson(k, db.records[k])) else None
  }

  /** The related record a field of an item resolves to for this caller. */
  function Related(o: Oracles, db: Db, w: Who, schema: seq<Field>, field: string, item: Object): Option<Object> {
    match Target(schema, field)
    case None => None
    case Some(target) =>
      if Get(item, field).JStr? then Viewable(o, db, w, Key(target, Get(item, field).s)) else None
  }

  /** `entry("expand").or_insert({})`, then insert, unless the entry is not an object. */
  function Attach(item: Object, field: string, row: Object): Object {
    if "expand" !in item then item["expand" := JObj(map[field := JObj(row)])]
    else if item["expand"].JObj? then item["expand" := JObj(item["expand"].fields[field := JObj(row)])]
    else item
  }

  function ExpandOne(o: Oracles, db: Db, w: Who, schema: seq<Field>, field: string, item: Object): Object {
    match Related(o, db, w, schema, field, item)
    case None => item
    case Some(row) => Attach(item, field, row)
  }

  /** One item, one field after the other. */
  function ExpandItem(o: Oracles, db: Db, w: Who, schema: seq<Field>, fields: seq<string>, item: Object): Object {
    if fields == [] then item
    else
      var last := |fields| - 1;
      ExpandOne(o, db, w, schema, fields[last], ExpandItem(o, db, w, schema, fields[..last], item))
  }

  // ------------------------------------------------------------------ what an item ends up with

  /** Every requested field that resolves, with the record it resolves to. */
  function Resolved(o: Oracles, db: Db, w: Who, schema: seq<Field>, fields: seq<string>, item: Object): Object {
    map f | f in fields && Related(o, db, w, schema, f, item).Some? ::
      JObj(Related(o, db, w, schema, f, item).value)
  }

  /** The item with these records laid over what it already has under `expand`, if that can hold them. */
  function WithExpand(item: Object, more: Object): Object {
    if more == map[] then item
    else if "expand" !in item then item["expand" := JObj(more)]
    else if item["expand"].JObj? then item["expand" := JObj(item["expand"].fields + more)]
    else item
  }

  /** An item ends up with exactly the requested records this caller could have viewed one by one,
      under `expand`; no other key changes, and if nothing resolves the item stays as it was. Naming
      a field twice, or a field that is no relation, makes no difference. */
  lemma {:induction false} ExpandedExactly(
      o: Oracles, db: Db, w: Who, schema: seq<Field>, fields: seq<string>, item: Object)
    ensures ExpandItem(o, db, w, schema, fields, item) == WithExpand(item, Resolved(o, db, w, schema, fields, item))
    decreases |fields|
  {
    hide Related, ExpandItem;
    if fields == [] {
      NothingAsked(o, db, w, schema, item);
    } else {
      var last := |fields| - 1;
      ExpandItemStep(o, db, w, schema, fields, item);
      ExpandedExactly(o, db, w, schema, fields[..last], item);
      var done := Resolved(o, db, w, schema, fields[..last], item);
      var field := fields[last];
      assert fields == fields[..last] + [field];
      RelatedAfter(o, db, w, schema, field, item, done);
      if Related(o, db, w, schema, field, item).Some? {
        assert Resolved(o, db, w, schema, fields, item) ==
               done[field := JObj(Related(o, db, w, schema, field, item).value)];
        AttachMore(item, done, field, Related(o, db, w, schema, field, item).value);
      } else {
        assert Resolved(o, db, w, schema, fields, item) == done;
      }
    }
  }

  lemma NothingAsked(o: Oracles, db: Db, w: Who, schema: seq<Field>, item: Object)
    ensures ExpandItem(o, db, w, schema, [], item) == WithExpand(item, Resolved(o, db, w, schema, [], item))
  {
    hide Related;
    assert Resolved(o, db, w, schema, [], item) == map[];
  }

  lemma ExpandItemStep(o: Oracles, db: Db, w: Who, schema: seq<Field>, fields: seq<string>, item: Object)
    requires fields != []
    ensures ExpandItem(o, db, w, schema, fields, item) ==
            ExpandOne(o, db, w, schema, fields[|fields| - 1],
                      ExpandItem(o, db, w, schema, fields[..|fields| - 1], item))
  {
    hide ExpandOne;
  }

  /** What earlier fields attached does not change what a later field resolves to; only a field
      called `expand` is touched, and such a field resolves to nothing once records are attached. */
  lemma RelatedAfter(
      o: Oracles, db: Db, w: Who, schema: seq<Field>, field: string, item: Object, more: Object)
    ensures Related(o, db, w, schema, field, WithExpand(item, more)) == Related(o, db, w, schema, field, item)
  {
    hide Viewable, Target;
  }

  lemma AttachMore(item: Object, more: Object, field: string, row: Object)
    ensures Attach(WithExpand(item, more), field, row) == WithExpand(item, more[field := JObj(row)])
  {
    assert field in more[field := JObj(row)];
    if "expand" in item && item["expand"].JObj? {
      var prior := item["expand"].fields;
      assert prior + more[field := JObj(row)] == (prior + more)[field := JObj(row)];
      assert more == map[] ==> prior + more == prior;
    }
  }

  // ------------------------------------------------------------------ the same, from the documents

  /** The id under a field names this record of the target of the first relation field of that name. */
  ghost predicate PointsTo(schema: seq<Field>, item: Object, field: string, k: Key) {
    && Documents.At(item, field) == Some(JStr(k.id))
    && exists i :: IsRelation(schema, i, field) && schema[i].target == k.col
  }

  predicate IsRelation(schema: seq<Field>, i: int, field: string) {
    && 0 <= i < |schema| && schema[i].name == field && schema[i].ty.RelationField?
    && forall j :: 0 <= j < i ==> !(schema[j].name == field && schema[j].ty.RelationField?)
  }

  /** A requested field that leads to a record whose view rule lets this caller at it. */
  ghost predicate Reaches(
      o: Oracles, db: Db, w: Who, schema: seq<Field>, fields: seq<string>, item: Object, field: string, k: Key)
  {
    && field in fields && PointsTo(schema, item, field, k)
    && k in db.records && k.col in db.cols
    && Documents.MayTouch(o, w, db.cols[k.col].rules.view, RowOf(k, db.records[k]))
  }

  ghost predicate ReachesNothing(
      o: Oracles, db: Db, w: Who, schema: seq<Field>, fields: seq<string>, item: Object)
  {
    forall field, k :: !Reaches(o, db, w, schema, fields, item, field, k)
  }

  /** `held` is `prior` with what each field reaches laid over it, as it is shown. */
  ghost predicate Holds(
      o: Oracles, db: Db, w: Who, schema: seq<Field>, fields: seq<string>, item: Object, prior: Object, held: Object)
  {
    forall field ::
      && (forall k :: Reaches(o, db, w, schema, fields, item, field, k) ==>
            field in held && held[field].JObj? && Documents.Shows(held[field].fields, k, db.records[k]))
      && ((forall k :: !Reaches(o, db, w, schema, fields, item, field, k)) ==>
            Documents.At(held, field) == Documents.At(prior, field))
  }

  /** `full` is the item with every record it reaches, and no other, added under `expand`. */
  ghost predicate Inlined(
      o: Oracles, db: Db, w: Who, schema: seq<Field>, fields: seq<string>, item: Object, full: Object)
  {
    && (forall key | key != "expand" :: Documents.At(full, key) == Documents.At(item, key))
    && if ReachesNothing(o, db, w, schema, fields, item) || ("expand" in item && !item["expand"].JObj?)
       then Documents.At(full, "expand") == Documents.At(item, "expand")
       else
         && "expand" in full && full["expand"].JObj?
         && Holds(o, db, w, schema, fields, item,
                  if "expand" in item then item["expand"].fields else map[], full["expand"].fields)
  }

  lemma {:induction false} TargetExactly(schema: seq<Field>, field: string, target: string)
    ensures Target(schema, field) == Some(target) <==>
            exists i :: IsRelation(schema, i, field) && schema[i].target == target
    decreases |schema|
  {
    if schema != [] {
      if schema[0].name == field && schema[0].ty.RelationField? {
        assert IsRelation(schema, 0, field);
      } else {
        TargetExactly(schema[1..], field, target);
        if i :| IsRelation(schema[1..], i, field) && schema[1..][i].target == target {
          assert forall j :: 0 < j < i + 1 ==> schema[j] == schema[1..][j - 1];
          assert IsRelation(schema, i + 1, field) && schema[i + 1] == schema[1..][i];
        }
        if i :| IsRelation(schema, i, field) && schema[i].target == target {
          assert forall j :: 0 <= j < |schema| - 1 ==> schema[1..][j] == schema[j + 1];
          assert IsRelation(schema[1..], i - 1, field) && schema[1..][i - 1] == schema[i];
        }
      }
    }
  }

  lemma ViewableExactly(o: Oracles, db: Db, w: Who, k: Key)
    ensures Viewable(o, db, w, k).Some? <==>
            k in db.records && k.col in db.cols &&
            Documents.MayTouch(o, w, db.cols[k.col].rules.view, RowOf(k, db.records[k]))
    ensures Viewable(o, db, w, k).Some? ==> Documents.Shows(Viewable(o, db, w, k).value, k, db.records[k])
  {
    hide Gate, Documents.MayTouch, RecordJson, Documents.Shows;
    if k in db.records && k.col in db.cols {
      Documents.DeniedExactly(o, db, w, db.cols[k.col].rules.view, k);
      Documents.ShownExactly(k, db.records[k]);
    }
  }

  /** The record a field of an item resolves to is the one it reaches. */
  lemma RelatedExactly(o: Oracles, db: Db, w: Who, schema: seq<Field>, fields: seq<string>, item: Object, field: string)
    requires field in fields
    ensures Related(o, db, w, schema, field, item).None? ==>
              forall k :: !Reaches(o, db, w, schema, fields, item, field, k)
    ensures Related(o, db, w, schema, field, item).Some? ==>
              && Target(schema, field).Some? && Get(item, field).JStr?
              && var at := Key(Target(schema, field).value, Get(item, field).s);
                 && at in db.records && Reaches(o, db, w, schema, fields, item, field, at)
                 && Documents.Shows(Related(o, db, w, schema, field, item).value, at, db.records[at])
                 && forall k :: Reaches(o, db, w, schema, fields, item, field, k) ==> k == at
  {
    hide Viewable, Documents.MayTouch, Documents.Shows, Target, IsRelation;
    forall k: Key
      ensures PointsTo(schema, item, field, k) <==>
              Target(schema, field) == Some(k.col) && Get(item, field) == JStr(k.id)
    {
      TargetExactly(schema, field, k.col);
    }
    if Target(schema, field).Some? && Get(item, field).JStr? {
      ViewableExactly(o, db, w, Key(Target(schema, field).value, Get(item, field).s));
    }
  }

  lemma ResolvedExactly(
      o: Oracles, db: Db, w: Who, schema: seq<Field>, fields: seq<string>, item: Object, field: string)
    ensures var more := Resolved(o, db, w, schema, fields, item);
            && (field !in more ==> forall k :: !Reaches(o, db, w, schema, fields, item, field, k))
            && (field in more ==> exists k :: Reaches(o, db, w, schema, fields, item, field, k))
            && (field in more ==>
                  forall k :: Reaches(o, db, w, schema, fields, item, field, k) ==>
                    k in db.records && more[field].JObj? && Documents.Shows(more[field].fields, k, db.records[k]))
  {
    hide Related, Reaches, Documents.Shows, Target;
    if field in fields {
      RelatedExactly(o, db, w, schema, fields, item, field);
    } else {
      NotAsked(o, db, w, schema, fields, item, field);
    }
  }

  /** Expanding an item adds exactly what it reaches. */
  lemma InlinedExactly(o: Oracles, db: Db, w: Who, schema: seq<Field>, fields: seq<string>, item: Object)
    ensures Inlined(o, db, w, schema, fields, item, WithExpand(item, Resolved(o, db, w, schema, fields, item)))
  {
    hide Resolved, Holds, ReachesNothing;
    var more := Resolved(o, db, w, schema, fields, item);
    NothingReached(o, db, w, schema, fields, item);
    if more != map[] && ("expand" !in item || item["expand"].JObj?) {
      var prior := if "expand" in item then item["expand"].fields else map[];
      LaidOver(o, db, w, schema, fields, item, prior, more);
      assert WithExpand(item, more)["expand"] == JObj(prior + more);
    }
  }

  lemma NothingReached(o: Oracles, db: Db, w: Who, schema: seq<Field>, fields: seq<string>, item: Object)
    ensures ReachesNothing(o, db, w, schema, fields, item) <==> Resolved(o, db, w, schema, fields, item) == map[]
  {
    hide Resolved, Reaches;
    var more := Resolved(o, db, w, schema, fields, item);
    if more == map[] {
      forall field, k
        ensures !Reaches(o, db, w, schema, fields, item, field, k)
      {
        ResolvedExactly(o, db, w, schema, fields, item, field);
      }
    } else {
      var field :| field in more;
      ResolvedExactly(o, db, w, schema, fields, item, field);
    }
  }

  lemma LaidOver(
      o: Oracles, db: Db, w: Who, schema: seq<Field>, fields: seq<string>, item: Object, prior: Object, more: Object)
    requires more == Resolved(o, db, w, schema, fields, item)
    ensures Holds(o, db, w, schema, fields, item, prior, prior + more)
  {
    hide Resolved, Reaches, Documents.Shows;
    forall field
      ensures forall k :: Reaches(o, db, w, schema, fields, item, field, k) ==>
                k in db.records && field in more && more[field].JObj? &&
                Documents.Shows(more[field].fields, k, db.records[k])
      ensures (forall k :: !Reaches(o, db, w, schema, fields, item, field, k)) ==> field !in more
    {
      ResolvedExactly(o, db, w, schema, fields, item, field);
    }
  }

  lemma NotAsked(o: Oracles, db: Db, w: Who, schema: seq<Field>, fields: seq<string>, item: Object, field: string)
    requires field !in fields
    ensures forall k :: !Reaches(o, db, w, schema, fields, item, field, k)
  {
  }

  // ------------------------------------------------------------------ the batched form

  /** The ids a field points at, over all the items. */
  ghost predicate PointsAt(items: seq<Object>, field: string, id: string) {
    exists i :: 0 <= i < |items| && Get(items[i], field) == JStr(id)
  }

  predicate Ascending(ids: seq<string>) {
    forall i, j :: 0 <= i < j < |ids| ==> TextLess(ids[i], ids[j])
  }

  /** `sort` and `dedup`, one id at a time: keeps the list ascending and free of duplicates. */
  method InsertId(ids: seq<string>, id: string) returns (r: seq<string>)
    requires Ascending(ids)
    ensures Ascending(r) && forall x :: x in r <==> x == id || x in ids
  {
    hide TextLess;
    var i := 0;
    while i < |ids| && TextLess(ids[i], id)
      invariant 0 <= i <= |ids| && forall j :: 0 <= j < i ==> TextLess(ids[j], id)
    {
      i := i + 1;
    }
    if i < |ids| && ids[i] == id { return ids; }
    r := ids[..i] + [id] + ids[i..];
    InsertedAscends(ids, id, i);
  }

  lemma InsertedAscends(ids: seq<string>, id: string, i: nat)
    requires Ascending(ids) && i <= |ids| && forall j :: 0 <= j < i ==> TextLess(ids[j], id)
    requires i < |ids| ==> !TextLess(ids[i], id) && ids[i] != id
    ensures Ascending(ids[..i] + [id] + ids[i..])
    ensures forall x :: x in ids[..i] + [id] + ids[i..] <==> x == id || x in ids
  {
    hide TextLess;
    forall j | i <= j < |ids|
      ensures TextLess(id, ids[j])
    {
      TextTrichotomy(id, ids[i]);
      if j > i {
        TextTransitive(id, ids[i], ids[j]);
      }
    }
    assert ids == ids[..i] + ids[i..];
  }

  method CollectIds(items: array<Object>, field: string) returns (ids: seq<string>)
    ensures Ascending(ids) && forall id :: id in ids <==> PointsAt(items[..], field, id)
  {
    ids := [];
    for n := 0 to items.Length
      invariant Ascending(ids) && forall id :: id in ids <==> PointsAt(items[..n], field, id)
    {
      ghost var before := ids;
      assert items[..n + 1] == items[..n] + [items[n]];
      if Get(items[n], field).JStr? {
        ids := InsertId(ids, Get(items[n], field).s);
      }
      forall id
        ensures PointsAt(items[..n + 1], field, id) <==>
                PointsAt(items[..n], field, id) || Get(items[n], field) == JStr(id)
      {
        PointsAtMore(items[..n], items[n], field, id);
      }
    }
    assert items[..items.Length] == items[..];
  }

  lemma PointsAtMore(items: seq<Object>, item: Object, field: string, id: string)
    ensures PointsAt(items + [item], field, id) <==> PointsAt(items, field, id) || Get(item, field) == JStr(id)
  {
    hide Get;
    if PointsAt(items, field, id) {
      var i :| 0 <= i < |items| && Get(items[i], field) == JStr(id);
      assert (items + [item])[i] == items[i];
    }
    assert (items + [item])[|items|] == item;
  }

  predicate Fetched(o: Oracles, db: Db, ts: seq<Tok>, binds: seq<Value>, k: Key)
    requires k in db.records
  {
    Selects(o, ts, binds, RowOf(k, db.records[k]))
  }

  /** A map from ids to shown records holds the selected rows and nothing else; if all of them are in
      the target collection, each id maps to its own record there. */
  predicate IsRowMap(
      o: Oracles, db: Db, ts: seq<Tok>, binds: seq<Value>, target: string, rows: map<string, Object>)
  {
    && (forall k :: k in db.records && Fetched(o, db, ts, binds, k) ==> k.id in rows)
    && (forall id :: id in rows ==> exists k :: k in db.records && k.id == id && Fetched(o, db, ts, binds, k))
    && ((forall k :: k in db.records && Fetched(o, db, ts, binds, k) ==> k.col == target) ==>
          forall id :: id in rows ==>
            var k := Key(target, id); k in db.records && rows[id] == RecordJson(k, db.records[k]))
  }

  /** `stmt.query_map(...).collect()`: the selected rows of the target, by id. */
  method QueryRows(o: Oracles, db: Db, ts: seq<Tok>, binds: seq<Value>, target: string)
    returns (rows: map<string, Object>)
    ensures IsRowMap(o, db, ts, binds, target, rows)
  {
    hide Fetched, RecordJson;
    rows := map[];
    var todo := set k | k in db.records && Fetched(o, db, ts, binds, k);
    ghost var all := todo;
    while todo != {}
      invariant todo <= all
      invariant forall id :: id in rows <==> exists k :: k in all - todo && k.id == id
      invariant (forall k :: k in all ==> k.col == target) ==>
                  forall id :: id in rows ==>
                    var k := Key(target, id); k in db.records && rows[id] == RecordJson(k, db.records[k])
      decreases |todo|
    {
      var k :| k in todo;
      todo := todo - {k};
      rows := rows[k.id := RecordJson(Key(target, k.id), db.records[k])];
      assert k in all - todo;
    }
  }

  /** The rule hoisted out of the row loop: `Err` skips the field, `Ok(None)` gates nothing. */
  function GateNode(o: Oracles, w: Who, rule: RuleText): Result<Option<Node>, ()> {
    match CheckRule(w, rule)
    case Err(_) => Err(())
    case Ok(None) => Ok(None)
    case Ok(Some(expr)) => match ParseRule(o, expr) case Ok(n) => Ok(Some(n)) case Err(_) => Err(())
  }

  lemma GateNodeMeans(o: Oracles, db: Db, w: Who, k: Key)
    requires k in db.records && k.col in db.cols
    ensures var g := GateNode(o, w, db.cols[k.col].rules.view);
            Viewable(o, db, w, k).Some? <==> g.Ok? && OptionalTrue(o, g.value, AuthId(w), RowOf(k, db.records[k]))
  {
    hide ParseRule, Meaning, Gate, RecordJson;
    GateMeans(o, db, w, db.cols[k.col].rules.view, k);
  }

  /** The bulk query returns, for each id it is asked about, exactly the record a fetch and a view
      gate of its own would have returned. */
  lemma BulkIsPerRow(o: Oracles, db: Db, w: Who, target: string, ids: seq<string>, rows: map<string, Object>)
    requires target in db.cols && ids != []
    requires GateNode(o, w, db.cols[target].rules.view).Ok?
    requires var g := GateNode(o, w, db.cols[target].rules.view).value;
             IsRowMap(o, db, ExpandToks(|ids|, g), ExpandBinds(o, target, ids, g, AuthId(w)), target, rows)
    ensures forall id :: id in ids ==>
              Viewable(o, db, w, Key(target, id)) == if id in rows then Some(rows[id]) else None
  {
    hide Selects, ExpandToks, ExpandBinds, GateNode, OptionalTrue, Gate, RecordJson;
    var g := GateNode(o, w, db.cols[target].rules.view).value;
    forall k | k in db.records
      ensures Fetched(o, db, ExpandToks(|ids|, g), ExpandBinds(o, target, ids, g, AuthId(w)), k) <==>
              k.col == target && k.id in ids && OptionalTrue(o, g, AuthId(w), RowOf(k, db.records[k]))
    {
      ExpandSelects(o, target, ids, g, AuthId(w), RowOf(k, db.records[k]));
    }
    forall id | id in ids
      ensures Viewable(o, db, w, Key(target, id)) == if id in rows then Some(rows[id]) else None
    {
      var k := Key(target, id);
      if k in db.records {
        GateNodeMeans(o, db, w, k);
      }
    }
  }

  /** What a field does to one item once the rows are at hand. */
  lemma OneFromRows(
      o: Oracles, db: Db, w: Who, schema: seq<Field>, field: string, target: string, item: Object,
      rows: map<string, Object>)
    requires Target(schema, field) == Some(target)
    requires Get(item, field).JStr? ==>
               var id := Get(item, field).s;
               Viewable(o, db, w, Key(target, id)) == if id in rows then Some(rows[id]) else None
    ensures ExpandOne(o, db, w, schema, field, item) ==
            if Get(item, field).JStr? && Get(item, field).s in rows
            then Attach(item, field, rows[Get(item, field).s]) else item
  {
    hide Viewable, Attach, Target;
  }

  method ExpandField(o: Oracles, db: Db, w: Who, schema: seq<Field>, field: string, items: array<Object>)
    modifies items
    ensures forall i :: 0 <= i < items.Length ==> items[i] == ExpandOne(o, db, w, schema, field, old(items[i]))
  {
    hide ParseRule, Gate, Attach, Viewable, ExpandToks, ExpandBinds, IsRowMap, Target;
    var def := Target(schema, field);
    if def.None? { return; }
    var target := def.value;
    if target !in db.cols {
      NoTarget(o, db, w, target);
      return;
    }
    var ids := CollectIds(items, field);
    forall i | 0 <= i < items.Length && Get(items[i], field).JStr?
      ensures Get(items[i], field).s in ids
    {
      assert items[..][i] == items[i];
      assert PointsAt(items[..], field, Get(items[i], field).s);
    }
    if ids == [] { return; }
    var gate := GateNode(o, w, db.cols[target].rules.view);
    if gate.Err? {
      NothingViewable(o, db, w, target);
      return;
    }
    var sql, binds := ExpandToks(|ids|, gate.value), ExpandBinds(o, target, ids, gate.value, AuthId(w));
    var rows := QueryRows(o, db, sql, binds, target);
    BulkIsPerRow(o, db, w, target, ids, rows);
    forall i | 0 <= i < items.Length
      ensures ExpandOne(o, db, w, schema, field, old(items[i])) ==
              if Get(old(items[i]), field).JStr? && Get(old(items[i]), field).s in rows
              then Attach(old(items[i]), field, rows[Get(old(items[i]), field).s]) else old(items[i])
    {
      OneFromRows(o, db, w, schema, field, target, old(items[i]), rows);
    }
    for i := 0 to items.Length
      invariant forall j :: 0 <= j < i ==> items[j] == ExpandOne(o, db, w, schema, field, old(items[j]))
      invariant forall j :: i <= j < items.Length ==> items[j] == old(items[j])
    {
      var v := Get(items[i], field);
      if v.JStr? && v.s in rows {
        items[i] := Attach(items[i], field, rows[v.s]);
      }
    }
  }

  lemma NoTarget(o: Oracles, db: Db, w: Who, target: string)
    requires target !in db.cols
    ensures forall id :: Viewable(o, db, w, Key(target, id)) == None
  {
    hide Gate;
  }

  lemma NothingViewable(o: Oracles, db: Db, w: Who, target: string)
    requires target in db.cols && GateNode(o, w, db.cols[target].rules.view).Err?
    ensures forall id :: Viewable(o, db, w, Key(target, id)) == None
  {
    hide Gate, GateNode;
    forall id
      ensures Viewable(o, db, w, Key(target, id)) == None
    {
      if Key(target, id) in db.records {
        GateNodeMeans(o, db, w, Key(target, id));
      } else {
        assert Viewable(o, db, w, Key(target, id)) == None;
      }
    }
  }

  /** `expand_records`: field by field over all the items at once. Every item comes out as if it had
      been expanded alone, each related record fetched and gated on its own. */
  method ExpandRecords(o: Oracles, db: Db, w: Who, schema: seq<Field>, expand: string, items: array<Object>)
    modifies items
    ensures forall i :: 0 <= i < items.Length ==>
              items[i] == WithExpand(old(items[i]), Resolved(o, db, w, schema, Segments(expand), old(items[i])))
    ensures forall i :: 0 <= i < items.Length ==>
              Inlined(o, db, w, schema, Segments(expand), old(items[i]), items[i])
  {
    hide ExpandOne, ExpandItem, Resolved, WithExpand, Segments, Inlined;
    var fields := Segments(expand);
    forall i | 0 <= i < items.Length
      ensures ExpandItem(o, db, w, schema, [], items[i]) == items[i]
    {
      NothingYet(o, db, w, schema, items[i]);
    }
    for n := 0 to |fields|
      invariant forall i :: 0 <= i < items.Length ==>
                  items[i] == ExpandItem(o, db, w, schema, fields[..n], old(items[i]))
    {
      ExpandField(o, db, w, schema, fields[n], items);
      forall i | 0 <= i < items.Length
        ensures items[i] == ExpandItem(o, db, w, schema, fields[..n + 1], old(items[i]))
      {
        assert fields[..n + 1][..n] == fields[..n];
        ExpandItemStep(o, db, w, schema, fields[..n + 1], old(items[i]));
      }
    }
    assert fields[..|fields|] == fields;
    forall i | 0 <= i < items.Length
      ensures items[i] == WithExpand(old(items[i]), Resolved(o, db, w, schema, fields, old(items[i])))
      ensures Inlined(o, db, w, schema, fields, old(items[i]), items[i])
    {
      ExpandedExactly(o, db, w, schema, fields, old(items[i]));
      InlinedExactly(o, db, w, schema, fields, old(items[i]));
    }
  }

  lemma NothingYet(o: Oracles, db: Db, w: Who, schema: seq<Field>, item: Object)
    ensures ExpandItem(o, db, w, schema, [], item) == item
  {
  }
}
