/**
 * The admin edits of `_collections` (src/collections.rs): what a request may store, and the handlers
 * that store it and bump the version that invalidates cached rules.
 */
module Collections {
  import opened Wrappers
  import opened FilterTree
  import opened Json
  import opened Rules
  import opened Records

  // ------------------------------------------------------------------ schemas

  predicate FieldOk(f: Field) {
    IdentOk(f.name) && (f.ty.RelationField? ==> IdentOk(f.target)) && f.name !in RESERVED
  }

  predicate SchemaOk(schema: seq<Field>) {
    forall i :: 0 <= i < |schema| ==> FieldOk(schema[i])
  }

  function FieldTypeOf(s: string): Option<FieldType> {
    match s
    case "text" => Some(TextField)
    case "number" => Some(NumberField)
    case "bool" => Some(BoolField)
    case "json" => Some(JsonField)
    case "relation" => Some(RelationField)
    case "file" => Some(FileField)
    case _ => None
  }

  /** One field of a schema as the request spells it; None if `schema_ok` refuses it. */
  function FieldOf(f: Json): Option<Field> {
    var name := StrOr(Member(f, "name"), "");
    var ty := FieldTypeOf(StrOr(Member(f, "type"), ""));
    var target := StrOr(Member(Member(f, "options"), "collection"), "");
    if !IdentOk(name) || ty.None? then None
    else if ty.value.RelationField? && !IdentOk(target) then None
    else if name in RESERVED then None
    else Some(Field(name, ty.value, Member(f, "required") == JBool(true), target))
  }

  function FieldsOf(items: seq<Json>): Option<seq<Field>> {
    if items == [] then Some([])
    else
      match (FieldOf(items[0]), FieldsOf(items[1..]))
      case (Some(f), Some(fs)) => Some([f] + fs)
      case _ => None
  }

  /** `schema_ok`. */
  function SchemaOf(schema: Json): Option<seq<Field>> {
    if schema.JArr? then FieldsOf(schema.items) else None
  }

  lemma {:induction false} FieldsAreOk(items: seq<Json>)
    requires FieldsOf(items).Some?
    ensures SchemaOk(FieldsOf(items).value)
  {
    if items != [] {
      FieldsAreOk(items[1..]);
    }
  }

  /** No accepted schema names a reserved column, or anything but an identifier. */
  lemma SchemaIsOk(schema: Json)
    requires SchemaOf(schema).Some?
    ensures SchemaOk(SchemaOf(schema).value)
  {
    FieldsAreOk(schema.items);
  }

  // ------------------------------------------------------------------ rules

  function FieldsIn(body: Json): Object {
    if body.JObj? then body.fields else map[]
  }

  const RULE_KEYS := ["listRule", "viewRule", "createRule", "updateRule", "deleteRule"]

  function RuleAt(r: RuleSet, i: nat): RuleText {
    match i case 0 => r.list case 1 => r.view case 2 => r.create case 3 => r.update case _ => r.delete
  }

  function WithRule(r: RuleSet, i: nat, rule: RuleText): RuleSet {
    match i
    case 0 => r.(list := rule)
    case 1 => r.(view := rule)
    case 2 => r.(create := rule)
    case 3 => r.(update := rule)
    case _ => r.(delete := rule)
  }

  /** The first `n` rules of a request laid over the current ones; None if any is refused. */
  function ReadRules(o: Oracles, body: Object, r: RuleSet, n: nat): Option<RuleSet>
    requires n <= |RULE_KEYS|
  {
    if n == 0 then Some(r)
    else
      match (ReadRules(o, body, r, n - 1), ReadRule(o, body, RULE_KEYS[n - 1]))
      case (Some(before), Ok(None)) => Some(before)
      case (Some(before), Ok(Some(rule))) => Some(WithRule(before, n - 1, rule))
      case _ => None
  }

  lemma {:induction false} ReadRulesOk(o: Oracles, body: Object, r: RuleSet, n: nat)
    requires n <= |RULE_KEYS| && RulesOk(o, r) && ReadRules(o, body, r, n).Some?
    ensures RulesOk(o, ReadRules(o, body, r, n).value)
  {
    hide RuleOk, ReadRule;
    if n > 0 {
      ReadRulesOk(o, body, r, n - 1);
      NewRuleOk(o, body, RULE_KEYS[n - 1]);
    }
  }

  lemma NewRuleOk(o: Oracles, body: Object, key: string)
    ensures ReadRule(o, body, key).Ok? && ReadRule(o, body, key).value.Some? ==>
              RuleOk(o, ReadRule(o, body, key).value.value)
  {
    hide ParseRule;
    if ReadRule(o, body, key).Ok? && ReadRule(o, body, key).value.Some? {
      ReadRuleOk(o, body, key, "");
    }
  }

  /** A key the request leaves out keeps its rule, and a key it names gets exactly what it says. */
  lemma {:induction false} ReadRulesExact(o: Oracles, body: Object, r: RuleSet, n: nat, i: nat)
    requires i < n <= |RULE_KEYS| && ReadRules(o, body, r, n).Some?
    ensures RuleAt(ReadRules(o, body, r, n).value, i) ==
            if RULE_KEYS[i] !in body then RuleAt(r, i)
            else if body[RULE_KEYS[i]].JNull? then None
            else Some(StrOr(body[RULE_KEYS[i]], ""))
  {
    hide CompileRule;
    if i < n - 1 {
      ReadRulesExact(o, body, r, n - 1, i);
    } else {
      LaterRulesKept(o, body, r, n - 1, i);
    }
  }

  lemma {:induction false} LaterRulesKept(o: Oracles, body: Object, r: RuleSet, n: nat, i: nat)
    requires n <= i < |RULE_KEYS| && ReadRules(o, body, r, n).Some?
    ensures RuleAt(ReadRules(o, body, r, n).value, i) == RuleAt(r, i)
  {
    hide ReadRule;
    if n > 0 {
      LaterRulesKept(o, body, r, n - 1, i);
    }
  }

  // ------------------------------------------------------------------ the edits

  datatype EditError = NameOrTypeFixed | BadName | BadType | BadSchema | BadRule | AlreadyExists | NoSuchCollection

  function TypeOf(body: Json): Option<bool> {
    match StrOr(Member(body, "type"), "base") case "base" => Some(false) case "auth" => Some(true) case _ => None
  }

  function SchemaIn(body: Json, absent: seq<Field>): Option<seq<Field>> {
    if "schema" in FieldsIn(body) then SchemaOf(FieldsIn(body)["schema"]) else Some(absent)
  }

  /** `collections_create`. */
  function AddCollection(o: Oracles, db: Db, body: Json): Result<Db, EditError> {
    var name := StrOr(Member(body, "name"), "");
    if !IdentOk(name) then Err(BadName)
    else match TypeOf(body)
      case None => Err(BadType)
      case Some(isAuth) =>
        match SchemaIn(body, [])
        case None => Err(BadSchema)
        case Some(schema) =>
          match ReadRules(o, FieldsIn(body), Defaults(isAuth), |RULE_KEYS|)
          case None => Err(BadRule)
          case Some(rules) =>
            if name in db.cols then Err(AlreadyExists)
            else Ok(db.(cols := db.cols[name := Coll(isAuth, schema, rules)]))
  }

  /** `collections_update`: name and type are fixed, rules and schema may be replaced. */
  function EditCollection(o: Oracles, db: Db, name: string, body: Json): Result<Db, EditError> {
    if "name" in FieldsIn(body) || "type" in FieldsIn(body) then Err(NameOrTypeFixed)
    else
      var c := if name in db.cols then db.cols[name] else Coll(false, [], Defaults(false));
      match (ReadRules(o, FieldsIn(body), c.rules, |RULE_KEYS|), SchemaIn(body, c.schema))
      case (None, _) => Err(BadRule)
      case (_, None) => Err(BadSchema)
      case (Some(rules), Some(schema)) =>
        if name !in db.cols then Err(NoSuchCollection)
        else Ok(db.(cols := db.cols[name := Coll(c.isAuth, schema, rules)]))
  }

  /** `collections_delete`: the collection and all its records. */
  function DropCollection(db: Db, name: string): Result<Db, EditError> {
    if name !in db.cols then Err(NoSuchCollection)
    else Ok(db.(cols := db.cols - {name},
                records := map k | k in db.records && k.col != name :: db.records[k]))
  }

  // ------------------------------------------------------------------ the handlers

  /** The edit happened and the version moved, or it was refused and nothing did. */
  predicate Edited(r: Result<(), EditError>, before: (Db, nat), after: (Db, nat), spec: Result<Db, EditError>) {
    match spec
    case Ok(next) => r == Ok(()) && after == (next, before.1 + 1)
    case Err(e) => r == Err(e) && after == before
  }

  class CollectionServer {
    var db: Db
    var colsVersion: nat
    const o: Oracles

    constructor (o: Oracles, db: Db)
      ensures this.o == o && this.db == db && colsVersion == 0
    {
      this.o := o;
      this.db := db;
      colsVersion := 0;
    }

    /** The loop over the five rule keys. */
    method ReadAll(body: Json, current: RuleSet) returns (r: Option<RuleSet>)
      ensures r == ReadRules(o, FieldsIn(body), current, |RULE_KEYS|)
    {
      hide ReadRule, WithRule;
      var rules := current;
      for i := 0 to |RULE_KEYS|
        invariant ReadRules(o, FieldsIn(body), current, i) == Some(rules)
      {
        var read := ReadRule(o, FieldsIn(body), RULE_KEYS[i]);
        if read.Err? {
          RefusedStays(o, FieldsIn(body), current, i + 1, |RULE_KEYS|);
          return None;
        }
        if read.value.Some? { rules := WithRule(rules, i, read.value.value); }
      }
      return Some(rules);
    }

    method CollectionsCreate(body: Json) returns (r: Result<(), EditError>)
      modifies this
      ensures Edited(r, old((db, colsVersion)), (db, colsVersion), AddCollection(o, old(db), body))
    {
      hide ReadRules, SchemaOf, IdentOk;
      var name := StrOr(Member(body, "name"), "");
      if !IdentOk(name) { return Err(BadName); }
      var isAuth := TypeOf(body);
      if isAuth.None? { return Err(BadType); }
      var schema := SchemaIn(body, []);
      if schema.None? { return Err(BadSchema); }
      var rules := ReadAll(body, Defaults(isAuth.value));
      if rules.None? { return Err(BadRule); }
      if name in db.cols { return Err(AlreadyExists); }
      db := db.(cols := db.cols[name := Coll(isAuth.value, schema.value, rules.value)]);
      colsVersion := colsVersion + 1;
      return Ok(());
    }

    /** Every named key is read before anything is written. The rules and the schema then go in by
        separate statements. */
    method CollectionsUpdate(name: string, body: Json) returns (r: Result<(), EditError>)
      modifies this
      ensures Edited(r, old((db, colsVersion)), (db, colsVersion), EditCollection(o, old(db), name, body))
    {
      hide ReadRules, SchemaOf;
      if "name" in FieldsIn(body) || "type" in FieldsIn(body) { return Err(NameOrTypeFixed); }
      var current := if name in db.cols then db.cols[name] else Coll(false, [], Defaults(false));
      var rules := ReadAll(body, current.rules);
      if rules.None? { return Err(BadRule); }
      var schema := SchemaIn(body, current.schema);
      if schema.None? { return Err(BadSchema); }
      if name !in db.cols { return Err(NoSuchCollection); }
      db := db.(cols := db.cols[name := current.(rules := rules.value)]);
      db := db.(cols := db.cols[name := db.cols[name].(schema := schema.value)]);
      assert db.cols == old(db.cols)[name := Coll(current.isAuth, schema.value, rules.value)];
      colsVersion := colsVersion + 1;
      return Ok(());
    }

    method CollectionsDelete(name: string) returns (r: Result<(), EditError>)
      modifies this
      ensures Edited(r, old((db, colsVersion)), (db, colsVersion), DropCollection(old(db), name))
    {
      if name !in db.cols { return Err(NoSuchCollection); }
      db := db.(cols := db.cols - {name});
      db := db.(records := map k | k in db.records && k.col != name :: db.records[k]);
      colsVersion := colsVersion + 1;
      return Ok(());
    }
  }

  lemma {:induction false} RefusedStays(o: Oracles, body: Object, r: RuleSet, i: nat, n: nat)
    requires i <= n <= |RULE_KEYS| && ReadRules(o, body, r, i).None?
    ensures ReadRules(o, body, r, n).None?
    decreases n
  {
    hide ReadRule;
    if i < n {
      RefusedStays(o, body, r, i, n - 1);
    }
  }
}
