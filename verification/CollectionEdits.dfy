/**
 * The admin edits of a collection, said from the request alone: exactly when an edit is refused and
 * with what, and what is stored afterwards, rule by rule and field by field.
 */
module CollectionEdits {
  import opened Wrappers
  import opened FilterTree
  import opened FilterParser
  import opened Json
  import opened Sql
  import opened FilterSql
  import opened Rules
  import opened Records
  import opened Collections
  import opened Documents

  // ------------------------------------------------------------------ words for the statements

  /** What the request's body holds under a key. */
  function Sent(body: Json, key: string): Option<Json> {
    if body.JObj? then At(body.fields, key) else None
  }

  /** A rule key that is neither absent, null, the empty string, nor an expression that parses. */
  predicate BadRuleIn(o: Oracles, body: Json, key: string) {
    Sent(body, key).Some? &&
    var v := Sent(body, key).value;
    !v.JNull? && !(v.JStr? && (v.s == "" || Parse(o.realOf, Rule, v.s).Ok?))
  }

  predicate AnyBadRule(o: Oracles, body: Json) {
    || BadRuleIn(o, body, "listRule") || BadRuleIn(o, body, "viewRule") || BadRuleIn(o, body, "createRule")
    || BadRuleIn(o, body, "updateRule") || BadRuleIn(o, body, "deleteRule")
  }

  /** The rule a request leaves under a key: what it says, or what was there. */
  function RuleLeft(body: Json, key: string, before: RuleText): RuleText {
    if Sent(body, key).None? then before
    else if Sent(body, key).value.JStr? then Some(Sent(body, key).value.s)
    else None
  }

  predicate RulesLeft(body: Json, before: RuleSet, after: RuleSet) {
    && after.list == RuleLeft(body, "listRule", before.list)
    && after.view == RuleLeft(body, "viewRule", before.view)
    && after.create == RuleLeft(body, "createRule", before.create)
    && after.update == RuleLeft(body, "updateRule", before.update)
    && after.delete == RuleLeft(body, "deleteRule", before.delete)
  }

  predicate SpellsType(word: Json, ty: FieldType) {
    && (ty.TextField? ==> word == JStr("text")) && (ty.NumberField? ==> word == JStr("number"))
    && (ty.BoolField? ==> word == JStr("bool")) && (ty.JsonField? ==> word == JStr("json"))
    && (ty.RelationField? ==> word == JStr("relation")) && (ty.FileField? ==> word == JStr("file"))
  }

  /** One entry of a schema and the field it stands for: an identifier that is no system column, a
      type, whether it is required, and the collection under its options, which a relation needs. */
  predicate SpellsField(item: Json, f: Field) {
    && Sent(item, "name") == Some(JStr(f.name)) && IdentOk(f.name)
    && f.name !in {"id", "created", "updated", "collectionName", "password_hash", "token_epoch", "verified"}
    && Sent(item, "type").Some? && SpellsType(Sent(item, "type").value, f.ty)
    && (f.required <==> Sent(item, "required") == Some(JBool(true)))
    && f.target == Pointed(item)
    && (f.ty.RelationField? ==> IdentOk(f.target))
  }

  function Pointed(item: Json): string {
    if Sent(item, "options").Some? && Sent(Sent(item, "options").value, "collection").Some? &&
       Sent(Sent(item, "options").value, "collection").value.JStr?
    then Sent(Sent(item, "options").value, "collection").value.s else ""
  }

  predicate SpellsSchema(sent: Json, fields: seq<Field>) {
    sent.JArr? && |fields| == |sent.items| && forall i :: 0 <= i < |fields| ==> SpellsField(sent.items[i], fields[i])
  }

  /** A schema that is no array, or has an entry that stands for no field. */
  ghost predicate BadSchemaIn(body: Json) {
    Sent(body, "schema").Some? && forall fields :: !SpellsSchema(Sent(body, "schema").value, fields)
  }

  predicate SchemaLeft(body: Json, before: seq<Field>, after: seq<Field>) {
    if Sent(body, "schema").None? then after == before else SpellsSchema(Sent(body, "schema").value, after)
  }

  /** Nothing but the collection of that name is touched. */
  predicate OnlyCollection(a: Db, b: Db, name: string) {
    b.records == a.records && b.tickets == a.tickets && b.cols - {name} == a.cols - {name}
  }

  // ------------------------------------------------------------------ the same, in the model's words

  lemma FieldExactly(item: Json, f: Field)
    ensures FieldOf(item) == Some(f) <==> SpellsField(item, f)
  {
    assert !IdentOk("");
    hide IdentOk;
    TypeExactly(if Sent(item, "type").Some? then Sent(item, "type").value else JNull, f.ty);
  }

  lemma TypeExactly(word: Json, ty: FieldType)
    ensures FieldTypeOf(StrOr(word, "")) == Some(ty) <==> SpellsType(word, ty)
  {
  }

  lemma {:induction false} FieldsExactly(items: seq<Json>, fields: seq<Field>)
    ensures FieldsOf(items) == Some(fields) <==> SpellsSchema(JArr(items), fields)
    decreases |items|
  {
    hide SpellsField, FieldOf;
    if items == [] {
    } else if fields == [] {
      if FieldsOf(items).Some? { FieldsExactly(items[1..], FieldsOf(items[1..]).value); }
    } else {
      FieldExactly(items[0], fields[0]);
      FieldsExactly(items[1..], fields[1..]);
      assert forall i :: 0 < i < |items| ==> items[1..][i - 1] == items[i];
      assert forall i :: 0 < i < |fields| ==> fields[1..][i - 1] == fields[i];
      assert fields == [fields[0]] + fields[1..];
    }
  }

  lemma SchemaExactly(body: Json, before: seq<Field>)
    ensures SchemaIn(body, before).None? <==> BadSchemaIn(body)
    ensures forall after :: SchemaIn(body, before) == Some(after) <==> SchemaLeft(body, before, after)
  {
    hide SpellsField, FieldsOf;
    if Sent(body, "schema").Some? && Sent(body, "schema").value.JArr? {
      forall fields
        ensures FieldsOf(Sent(body, "schema").value.items) == Some(fields) <==>
                SpellsSchema(Sent(body, "schema").value, fields)
      {
        FieldsExactly(Sent(body, "schema").value.items, fields);
      }
    }
  }

  lemma RuleReadExactly(o: Oracles, body: Json, key: string)
    ensures ReadRule(o, FieldsIn(body), key).Err? <==> BadRuleIn(o, body, key)
    ensures ReadRule(o, FieldsIn(body), key).Ok? ==>
              forall before :: RuleLeft(body, key, before) ==
                if ReadRule(o, FieldsIn(body), key).value.None? then before
                else ReadRule(o, FieldsIn(body), key).value.value
  {
    hide Parse, SideToks, Binds;
  }

  lemma RulesStep(o: Oracles, body: Json, before: RuleSet, n: nat)
    requires 0 < n <= 5
    ensures ReadRules(o, FieldsIn(body), before, n).None? <==>
            ReadRules(o, FieldsIn(body), before, n - 1).None? || BadRuleIn(o, body, RULE_KEYS[n - 1])
    ensures ReadRules(o, FieldsIn(body), before, n).Some? ==>
              var was := ReadRules(o, FieldsIn(body), before, n - 1).value;
              ReadRules(o, FieldsIn(body), before, n).value ==
              WithRule(was, n - 1, RuleLeft(body, RULE_KEYS[n - 1], RuleAt(was, n - 1)))
  {
    hide ReadRule, BadRuleIn, RuleLeft;
    RuleReadExactly(o, body, RULE_KEYS[n - 1]);
  }

  lemma RulesExactly(o: Oracles, body: Json, before: RuleSet)
    ensures ReadRules(o, FieldsIn(body), before, 5).None? <==> AnyBadRule(o, body)
    ensures ReadRules(o, FieldsIn(body), before, 5).Some? ==>
              RulesLeft(body, before, ReadRules(o, FieldsIn(body), before, 5).value)
  {
    hide ReadRules, BadRuleIn, RuleLeft;
    NoRules(o, body, before);
    RulesStep(o, body, before, 1);
    RulesStep(o, body, before, 2);
    RulesStep(o, body, before, 3);
    RulesStep(o, body, before, 4);
    RulesStep(o, body, before, 5);
  }

  lemma NoRules(o: Oracles, body: Json, before: RuleSet)
    ensures ReadRules(o, FieldsIn(body), before, 0) == Some(before)
  {
  }

  // ------------------------------------------------------------------ create

  function NameSent(body: Json): string {
    if Sent(body, "name").Some? && Sent(body, "name").value.JStr? then Sent(body, "name").value.s else ""
  }

  function TypeSent(body: Json): string {
    if Sent(body, "type").Some? && Sent(body, "type").value.JStr? then Sent(body, "type").value.s else "base"
  }

  ghost function AddChecks(o: Oracles, db: Db, body: Json): seq<(bool, EditError)> {
    [(!IdentOk(NameSent(body)), BadName),
     (TypeSent(body) != "base" && TypeSent(body) != "auth", BadType),
     (BadSchemaIn(body), BadSchema),
     (AnyBadRule(o, body), BadRule),
     (NameSent(body) in db.cols, AlreadyExists)]
  }

  /** The rules of a collection whose request names none: anyone reads and the signed-in write; or, for
      accounts, anyone signs up, each writes its own, and only the admin reads. */
  function Untold(isAuth: bool): RuleSet {
    if isAuth
    then RuleSet(None, None, Some(""), Some("id = @request.auth.id"), Some("id = @request.auth.id"))
    else RuleSet(Some(""), Some(""), Some("@request.auth.id != ''"), Some("@request.auth.id != ''"),
                 Some("@request.auth.id != ''"))
  }

  /** A collection is refused with the first of its checks that fails. Otherwise it is there, of the
      type, with the fields and under the rules the request spells, and nothing else is touched. */
  lemma AddedExactly(o: Oracles, db: Db, body: Json)
    ensures var r := AddCollection(o, db, body);
            if r.Err? then FirstOf(AddChecks(o, db, body)) == Some(r.error)
            else
              && FirstOf(AddChecks(o, db, body)) == None
              && NameSent(body) in r.value.cols
              && OnlyCollection(db, r.value, NameSent(body))
              && var col := r.value.cols[NameSent(body)];
                 && (col.isAuth <==> TypeSent(body) == "auth")
                 && SchemaLeft(body, [], col.schema)
                 && RulesLeft(body, Untold(col.isAuth), col.rules)
  {
    hide ReadRules, IdentOk, BadSchemaIn, SchemaIn, SchemaLeft, AnyBadRule, RulesLeft, FirstOf, OnlyCollection,
      NameSent, TypeSent, TypeOf;
    WordsExactly(body);
    if AddCollection(o, db, body).Ok? {
      OnlyPut(db, NameSent(body), AddCollection(o, db, body).value.cols[NameSent(body)]);
    }
    SchemaExactly(body, []);
    RulesExactly(o, body, Untold(false));
    RulesExactly(o, body, Untold(true));
    FiveChecks(AddChecks(o, db, body));
  }

  lemma WordsExactly(body: Json)
    ensures StrOr(Member(body, "name"), "") == NameSent(body)
    ensures TypeOf(body) ==
            if TypeSent(body) == "base" then Some(false) else if TypeSent(body) == "auth" then Some(true) else None
  {
  }

  lemma OnlyPut(db: Db, name: string, c: Coll)
    ensures OnlyCollection(db, db.(cols := db.cols[name := c]), name)
  {
  }

  lemma FiveChecks(c: seq<(bool, EditError)>)
    requires |c| == 5
    ensures FirstOf(c) ==
            if c[0].0 then Some(c[0].1) else if c[1].0 then Some(c[1].1) else if c[2].0 then Some(c[2].1)
            else if c[3].0 then Some(c[3].1) else if c[4].0 then Some(c[4].1) else None
  {
    FirstSteps(c, 3);
    assert c[3..][0] == c[3] && c[3..][1..] == [c[4]];
    NoChecks(c[3..][1..][1..]);
  }

  // ------------------------------------------------------------------ update

  ghost function EditChecks(o: Oracles, db: Db, name: string, body: Json): seq<(bool, EditError)> {
    [(Sent(body, "name").Some? || Sent(body, "type").Some?, NameOrTypeFixed),
     (AnyBadRule(o, body), BadRule),
     (BadSchemaIn(body), BadSchema),
     (name !in db.cols, NoSuchCollection)]
  }

  /** An edit is refused with the first of its checks that fails. Otherwise each rule and the schema
      are what the request says, or as they were, and nothing else is touched. */
  lemma EditedExactly(o: Oracles, db: Db, name: string, body: Json)
    ensures var r := EditCollection(o, db, name, body);
            if r.Err? then FirstOf(EditChecks(o, db, name, body)) == Some(r.error)
            else
              && FirstOf(EditChecks(o, db, name, body)) == None
              && name in db.cols && name in r.value.cols
              && OnlyCollection(db, r.value, name)
              && r.value.cols[name].isAuth == db.cols[name].isAuth
              && SchemaLeft(body, db.cols[name].schema, r.value.cols[name].schema)
              && RulesLeft(body, db.cols[name].rules, r.value.cols[name].rules)
  {
    hide ReadRules, BadSchemaIn, SchemaIn, SchemaLeft, AnyBadRule, RulesLeft, FirstOf, OnlyCollection;
    if EditCollection(o, db, name, body).Ok? {
      OnlyPut(db, name, EditCollection(o, db, name, body).value.cols[name]);
    }
    var c := if name in db.cols then db.cols[name] else Coll(false, [], Defaults(false));
    SchemaExactly(body, c.schema);
    RulesExactly(o, body, c.rules);
    FourChecks(EditChecks(o, db, name, body));
  }

  lemma FourChecks(c: seq<(bool, EditError)>)
    requires |c| == 4
    ensures FirstOf(c) ==
            if c[0].0 then Some(c[0].1) else if c[1].0 then Some(c[1].1) else if c[2].0 then Some(c[2].1)
            else if c[3].0 then Some(c[3].1) else None
  {
    FirstSteps(c, 3);
    assert c[3..] == [c[3]];
    NoChecks(c[3..][1..]);
  }

  // ------------------------------------------------------------------ delete

  /** What is stored at an address. */
  function RecordAt(records: map<Key, Rec>, k: Key): Option<Rec> {
    if k in records then Some(records[k]) else None
  }

  /** Only a collection that exists can go; it goes with all its records, and with nothing else. */
  lemma DroppedExactly(db: Db, name: string)
    ensures DropCollection(db, name) == Err(NoSuchCollection) <==> name !in db.cols
    ensures name in db.cols ==>
              var r := DropCollection(db, name);
              && r.Ok? && name !in r.value.cols && r.value.cols == db.cols - {name} && r.value.tickets == db.tickets
              && forall k :: RecordAt(r.value.records, k) == if k.col == name then None else RecordAt(db.records, k)
  {
  }
}
