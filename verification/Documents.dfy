/**
 * The record requests, said from the request alone: exactly when a create, an update or a delete is
 * refused and with what, and what the database, the answer and the event hold afterwards, key by key.
 */
module Documents {
  import opened Wrappers
  import opened Utf8
  import opened FilterTree
  import opened FilterParser
  import opened Json
  import opened Sql
  import opened FilterSql
  import opened FilterEval
  import opened Rules
  import opened Records

  // ------------------------------------------------------------------ words for the statements

  /** What a key holds, if it is there. */
  function At(data: Object, key: string): Option<Json> {
    if key in data then Some(data[key]) else None
  }

  /** What a key holds once a patch is laid over a document. */
  function Laid(stored: Object, patch: Object, key: string): Option<Json> {
    if key in patch then At(patch, key) else At(stored, key)
  }

  /** The first failing check decides the answer. */
  function FirstOf<E>(checks: seq<(bool, E)>): Option<E> {
    if checks == [] then None else if checks[0].0 then Some(checks[0].1) else FirstOf(checks[1..])
  }

  /** Evaluated in memory, the rule lets the caller at this document: one sent to be created, or the one
      an event shows. */
  predicate Grants(o: Oracles, w: Who, rule: RuleText, sent: Object) {
    || w.Admin?
    || rule == Some("")
    || (rule.Some? && Parse(o.realOf, Rule, rule.value).Ok? &&
        Eval(o, Parse(o.realOf, Rule, rule.value).value, if w.User? then w.id else "", sent))
  }

  /** Run as SQL, the rule lets the caller at this row. */
  predicate MayTouch(o: Oracles, w: Who, rule: RuleText, row: Row) {
    || w.Admin?
    || rule == Some("")
    || (rule.Some? && Parse(o.realOf, Rule, rule.value).Ok? &&
        Meaning(o, Parse(o.realOf, Rule, rule.value).value, if w.User? then w.id else "", row) == Yes)
  }

  /** The schema's first field of that name. */
  predicate IsField(schema: seq<Field>, i: int, name: string) {
    0 <= i < |schema| && schema[i].name == name && forall j :: 0 <= j < i ==> schema[j].name != name
  }

  predicate NoField(schema: seq<Field>, name: string) {
    forall i :: 0 <= i < |schema| ==> schema[i].name != name
  }

  predicate HasType(f: Field, v: Json) {
    && (f.ty.TextField? || f.ty.RelationField? || f.ty.FileField? ==> v.JStr? || v.JNull?)
    && (f.ty.NumberField? ==> v.JInt? || v.JReal? || v.JNull?)
    && (f.ty.BoolField? ==> v.JBool? || v.JNull?)
  }

  /** Every key is a field of its type, or one of the four an auth collection knows without a schema;
      every required field is there, or may be left out of a patch, and is not null. */
  ghost predicate WellFormed(schema: seq<Field>, data: Object, isAuth: bool, partial: bool) {
    && (forall key :: key in data ==>
          || (exists i :: IsField(schema, i, key) && HasType(schema[i], data[key]))
          || (NoField(schema, key) && isAuth && key in {"email", "password", "oldPassword", "revokeTokens"}))
    && (forall i :: 0 <= i < |schema| && schema[i].required ==>
          if schema[i].name in data then data[schema[i].name] != JNull else partial)
  }

  /** Every string under a relation field is the id of a record of its target. */
  predicate Related(db: Db, schema: seq<Field>, data: Object) {
    forall i :: 0 <= i < |schema| && schema[i].ty.RelationField? ==>
      At(data, schema[i].name).Some? && data[schema[i].name].JStr? ==>
        Key(schema[i].target, data[schema[i].name].s) in db.records
  }

  /** Another record of the collection has this address. */
  ghost predicate HeldByOther(o: Oracles, db: Db, col: string, email: string, id: string) {
    exists k :: k in db.records && k.col == col && k.id != id &&
      FromJson(o, Get(db.records[k].data, "email")) == VText(email)
  }

  /** Not a string, or fewer than eight bytes of one. */
  predicate TooShort(v: Json) {
    !v.JStr? || |Encode(v.s)| < 8
  }

  /** What a caller is shown of a record: everything but the two secrets, and its identity. */
  ghost predicate Shows(shown: Object, k: Key, r: Rec) {
    && At(shown, "id") == Some(JStr(k.id)) && At(shown, "collectionName") == Some(JStr(k.col))
    && At(shown, "created") == Some(JStr(r.created)) && At(shown, "updated") == Some(JStr(r.updated))
    && "password_hash" !in shown && "token_epoch" !in shown
    && forall key | key !in {"id", "collectionName", "created", "updated", "password_hash", "token_epoch"} ::
         At(shown, key) == At(r.data, key)
  }

  /** Nothing but the record at `k` is touched. */
  ghost predicate OnlyAt(a: Db, b: Db, k: Key) {
    a.cols == b.cols && a.tickets == b.tickets &&
    forall j | j != k :: (j in a.records <==> j in b.records) && (j in a.records ==> a.records[j] == b.records[j])
  }

  // ------------------------------------------------------------------ the same, in the model's words

  lemma {:induction false} FoundField(schema: seq<Field>, name: string)
    ensures FindField(schema, name).None? <==> NoField(schema, name)
    ensures FindField(schema, name).Some? ==>
              exists i :: IsField(schema, i, name) && schema[i] == FindField(schema, name).value
  {
    if schema != [] {
      if schema[0].name == name {
        assert IsField(schema, 0, name);
      } else {
        FoundField(schema[1..], name);
        if FindField(schema, name).Some? {
          var i :| IsField(schema[1..], i, name) && schema[1..][i] == FindField(schema, name).value;
          assert forall j :: 0 < j < i + 1 ==> schema[j] == schema[1..][j - 1];
          assert IsField(schema, i + 1, name) && schema[i + 1] == schema[1..][i];
        } else {
          assert forall j :: 0 < j < |schema| ==> schema[j] == schema[1..][j - 1];
        }
      }
    }
  }

  lemma FirstIsOnly(schema: seq<Field>, i: int, j: int, name: string)
    requires IsField(schema, i, name) && IsField(schema, j, name)
    ensures i == j
  {
  }

  lemma KeyExactly(schema: seq<Field>, isAuth: bool, key: string, v: Json)
    ensures KeyFits(schema, isAuth, key, v) <==>
            || (exists i :: IsField(schema, i, key) && HasType(schema[i], v))
            || (NoField(schema, key) && isAuth && key in {"email", "password", "oldPassword", "revokeTokens"})
  {
    FoundField(schema, key);
    if FindField(schema, key).Some? {
      var i :| IsField(schema, i, key) && schema[i] == FindField(schema, key).value;
      forall j | IsField(schema, j, key)
        ensures j == i
      {
        FirstIsOnly(schema, i, j, key);
      }
    }
  }

  /** Which bodies are accepted, field by field. */
  lemma BodyExactly(schema: seq<Field>, data: Object, isAuth: bool, partial: bool)
    ensures BodyOk(schema, data, isAuth, partial) <==> WellFormed(schema, data, isAuth, partial)
  {
    hide KeyFits, NoField, HasType;
    forall key | key in data
      ensures KeyFits(schema, isAuth, key, data[key]) <==>
              || (exists i :: IsField(schema, i, key) && HasType(schema[i], data[key]))
              || (NoField(schema, key) && isAuth && key in {"email", "password", "oldPassword", "revokeTokens"})
    {
      KeyExactly(schema, isAuth, key, data[key]);
    }
    assert forall i :: 0 <= i < |schema| ==>
      (RequiredFits(schema[i], data, partial) <==>
       (schema[i].required ==> if schema[i].name in data then data[schema[i].name] != JNull else partial));
  }

  lemma RelationsExactly(db: Db, schema: seq<Field>, data: Object)
    ensures RelationsOk(db, schema, data) <==> Related(db, schema, data)
  {
    assert forall i :: 0 <= i < |schema| ==>
      (RelationFits(db, schema[i], data) <==>
       (schema[i].ty.RelationField? && At(data, schema[i].name).Some? && data[schema[i].name].JStr? ==>
          Key(schema[i].target, data[schema[i].name].s) in db.records));
  }

  lemma TakenExactly(o: Oracles, db: Db, col: string, email: string, id: string)
    ensures Taken(o, db, col, email, id) <==> HeldByOther(o, db, col, email, id)
  {
    if Taken(o, db, col, email, id) {
      var k :| k in db.records && k.col == col && k.id != id && HasEmail(o, db, k, email);
    }
    if HeldByOther(o, db, col, email, id) {
      var k :| k in db.records && k.col == col && k.id != id &&
               FromJson(o, Get(db.records[k].data, "email")) == VText(email);
      assert HasEmail(o, db, k, email);
    }
  }

  /** Who may create what: the admin, anyone under a public rule, and otherwise exactly those for whom
      the rule is true of the document as it was sent. */
  lemma CreateRuleExactly(o: Oracles, w: Who, rule: RuleText, sent: Object)
    ensures CreateAllowed(o, w, rule, sent) <==> Grants(o, w, rule, sent)
  {
    hide Parse, Eval;
    EmptyIsNoRule(o);
  }

  lemma EmptyIsNoRule(o: Oracles)
    ensures Parse(o.realOf, Rule, "").Err?
  {
    assert Encode("") == [];
  }

  lemma RowRuleExactly(o: Oracles, w: Who, rule: RuleText, row: Row)
    ensures RulePasses(o, w, rule, row) <==> MayTouch(o, w, rule, row)
  {
    hide Parse, Meaning;
    EmptyIsNoRule(o);
  }

  lemma ShownExactly(k: Key, r: Rec)
    ensures Shows(RecordJson(k, r), k, r)
  {
  }

  // ------------------------------------------------------------------ create

  function ColOf(db: Db, name: string): Coll {
    if name in db.cols then db.cols[name] else Coll(false, [], Defaults(false))
  }

  function SentIn(body: Json): Object {
    if body.JObj? then body.fields else map[]
  }

  function DeniedTo(w: Who): Error {
    Denied(if w.Guest? then Unauthorized else Forbidden)
  }

  /** The checks of a create, in the order in which they are made, and the answer each one gives. */
  ghost function CreateChecks(env: Env, db: Db, w: Who, name: string, body: Json): seq<(bool, Error)> {
    var col, data := ColOf(db, name), SentIn(body);
    [(name !in db.cols, NoCollection),
     (!body.JObj?, NotAnObject),
     (!Grants(env.o, w, col.rules.create, data), DeniedTo(w)),
     (!WellFormed(col.schema, data, col.isAuth, false), InvalidBody),
     (!Related(db, col.schema, data), DanglingRelation),
     (col.isAuth && !(Get(data, "email").JStr? && '@' in Get(data, "email").s), BadEmail),
     (col.isAuth && "password" !in data, NoPassword),
     (col.isAuth && TooShort(Get(data, "password")), ShortPassword),
     (col.isAuth && Get(data, "email").JStr? && HeldByOther(env.o, db, name, Get(data, "email").s, ""), EmailTaken)]
  }

  /** A create is refused with the first of its checks that fails, and goes through if none does. */
  lemma CreateRefusedExactly(env: Env, db: Db, w: Who, name: string, body: Json, id: string, ts: string)
    ensures var x := Create(env, db, w, name, body, id, ts);
            if x.Refused? then FirstOf(CreateChecks(env, db, w, name, body)) == Some(x.error)
            else FirstOf(CreateChecks(env, db, w, name, body)) == None
  {
    hide BodyOk, WellFormed, RelationsOk, Related, Taken, HeldByOther, CreateAllowed, Grants, RecordJson, Encode,
      FirstOf;
    ShortExactly("");
    var col, data := ColOf(db, name), SentIn(body);
    CreateRuleExactly(env.o, w, col.rules.create, data);
    BodyExactly(col.schema, data, col.isAuth, false);
    RelationsExactly(db, col.schema, data);
    TakenExactly(env.o, db, name, StrOr(Get(data, "email"), ""), "");
    NineChecks(CreateChecks(env, db, w, name, body));
  }

  /** The first of nine, spelled out. */
  lemma NineChecks(c: seq<(bool, Error)>)
    requires |c| == 9
    ensures FirstOf(c) ==
            if c[0].0 then Some(c[0].1) else if c[1].0 then Some(c[1].1) else if c[2].0 then Some(c[2].1)
            else if c[3].0 then Some(c[3].1) else if c[4].0 then Some(c[4].1) else if c[5].0 then Some(c[5].1)
            else if c[6].0 then Some(c[6].1) else if c[7].0 then Some(c[7].1) else if c[8].0 then Some(c[8].1) else None
  {
    FirstSteps(c, 3);
    FirstSteps(c[3..], 3);
    FirstSteps(c[6..], 3);
    assert c[3..][3..] == c[6..] && c[6..][3..] == [];
  }

  lemma FirstSteps<E>(c: seq<(bool, E)>, n: nat)
    requires n == 3 <= |c|
    ensures FirstOf(c) ==
            if c[0].0 then Some(c[0].1) else if c[1].0 then Some(c[1].1) else if c[2].0 then Some(c[2].1)
            else FirstOf(c[3..])
  {
    var d, e := c[1..], c[2..];
    assert d[0] == c[1] && d[1..] == e && e[0] == c[2] && e[1..] == c[3..];
    assert FirstOf(e) == if c[2].0 then Some(c[2].1) else FirstOf(c[3..]);
    assert FirstOf(d) == if c[1].0 then Some(c[1].1) else FirstOf(e);
  }

  /** What a create stores, key by key, and shows: the document as sent, the password of an account
      replaced by its hash and its address unverified. Nothing else is touched. */
  lemma CreateStores(env: Env, db: Db, w: Who, name: string, body: Json, id: string, ts: string)
    requires Create(env, db, w, name, body, id, ts).Wrote?
    ensures var x := Create(env, db, w, name, body, id, ts);
            var k := Key(name, id);
            && OnlyAt(db, x.db, k) && k in x.db.records
            && x.db.records[k].created == ts && x.db.records[k].updated == ts
            && Shows(x.response, k, x.db.records[k])
            && x.event == Event(CreateAction, name, x.response)
    ensures !db.cols[name].isAuth ==>
              Create(env, db, w, name, body, id, ts).db.records[Key(name, id)].data == body.fields
    ensures db.cols[name].isAuth ==>
              var data := Create(env, db, w, name, body, id, ts).db.records[Key(name, id)].data;
              && At(data, "password") == None
              && body.fields["password"].JStr?
              && At(data, "password_hash") == Some(JStr(env.hash(body.fields["password"].s)))
              && At(data, "verified") == Some(JBool(false))
              && forall key | key !in {"password", "password_hash", "verified"} :: At(data, key) == At(body.fields, key)
  {
    hide BodyOk, RelationsOk, Taken, CreateAllowed, RecordJson, Encode, Shows;
    ShownExactly(Key(name, id), Create(env, db, w, name, body, id, ts).db.records[Key(name, id)]);
    ShortExactly("");
  }

  lemma ShortExactly(s: string)
    ensures s == "" ==> |Encode(s)| < 8
  {
  }

  // ------------------------------------------------------------------ update

  /** The password an update has to hash: the patch's, or one a record of a plain collection has
      stored under that name. */
  function PasswordOf(stored: Object, patch: Object): Option<Json> {
    Laid(stored, patch, "password")
  }

  predicate Revoking(patch: Object) {
    "password" in patch || At(patch, "revokeTokens") == Some(JBool(true))
  }

  predicate KnowsOld(env: Env, stored: Object, patch: Object) {
    && Get(patch, "oldPassword").JStr? && Get(patch, "oldPassword").s != ""
    && env.verify(Get(patch, "oldPassword").s,
                  if Get(stored, "password_hash").JStr? then Get(stored, "password_hash").s else "")
  }

  function RecOf(db: Db, k: Key): Rec {
    if k in db.records then db.records[k] else Rec(map[], "", "")
  }

  ghost function UpdateChecks(env: Env, db: Db, w: Who, k: Key, body: Json): seq<(bool, Error)> {
    var col, prior, patch := ColOf(db, k.col), RecOf(db, k), SentIn(body);
    var email := Get(patch, "email");
    [(k.col !in db.cols, NoCollection),
     (k !in db.records, NoRecord),
     (!MayTouch(env.o, w, col.rules.update, RowOf(k, prior)), DeniedTo(w)),
     (!body.JObj?, NotAnObject),
     (!WellFormed(col.schema, patch, col.isAuth, true), InvalidBody),
     (!Related(db, col.schema, patch), DanglingRelation),
     (col.isAuth && email.JStr? && '@' !in email.s, BadEmail),
     (col.isAuth && email.JStr? && HeldByOther(env.o, db, k.col, email.s, k.id), EmailTaken),
     (col.isAuth && "password" in patch && !w.Admin? && !KnowsOld(env, prior.data, patch), OldPasswordMismatch),
     (PasswordOf(prior.data, patch).Some? && TooShort(PasswordOf(prior.data, patch).value), ShortPassword)]
  }

  lemma TenChecks(c: seq<(bool, Error)>)
    requires |c| == 10
    ensures FirstOf(c) ==
            if c[0].0 then Some(c[0].1) else if c[1].0 then Some(c[1].1) else if c[2].0 then Some(c[2].1)
            else if c[3].0 then Some(c[3].1) else if c[4].0 then Some(c[4].1) else if c[5].0 then Some(c[5].1)
            else if c[6].0 then Some(c[6].1) else if c[7].0 then Some(c[7].1) else if c[8].0 then Some(c[8].1)
            else if c[9].0 then Some(c[9].1) else None
  {
    FirstSteps(c, 3);
    FirstSteps(c[3..], 3);
    FirstSteps(c[6..], 3);
    assert c[3..][3..] == c[6..] && c[6..][3..] == [c[9]] && [c[9]][1..] == [];
  }

  lemma DeniedExactly(o: Oracles, db: Db, w: Who, rule: RuleText, k: Key)
    requires k in db.records
    ensures Gate(o, db, w, rule, k).None? <==> MayTouch(o, w, rule, RowOf(k, db.records[k]))
    ensures Gate(o, db, w, rule, k).Some? ==> Denied(Gate(o, db, w, rule, k).value) == DeniedTo(w)
  {
    hide Parse, Meaning, SqlExists, RulePasses, MayTouch;
    GateMeans(o, db, w, rule, k);
    RowRuleExactly(o, w, rule, RowOf(k, db.records[k]));
  }

  /** An update is refused with the first of its checks that fails, and goes through if none does. */
  lemma UpdateRefusedExactly(env: Env, db: Db, w: Who, k: Key, body: Json, ts: string)
    ensures var x := Update(env, db, w, k, body, ts);
            if x.Refused? then FirstOf(UpdateChecks(env, db, w, k, body)) == Some(x.error)
            else FirstOf(UpdateChecks(env, db, w, k, body)) == None
  {
    hide BodyOk, WellFormed, RelationsOk, Related, Taken, HeldByOther, Gate, MayTouch, RecordJson, FirstOf, Merge,
      KnowsOld, OldPasswordOk, TooShort, PasswordOf;
    var col, prior, patch := ColOf(db, k.col), RecOf(db, k), SentIn(body);
    if k in db.records {
      DeniedExactly(env.o, db, w, col.rules.update, k);
    }
    BodyExactly(col.schema, patch, col.isAuth, true);
    RelationsExactly(db, col.schema, patch);
    TakenExactly(env.o, db, k.col, StrOr(Get(patch, "email"), ""), k.id);
    OldExactly(env, prior.data, patch);
    MergeRefusedExactly(env, prior.data, patch);
    TenChecks(UpdateChecks(env, db, w, k, body));
  }

  lemma OldExactly(env: Env, stored: Object, patch: Object)
    ensures OldPasswordOk(env, stored, patch) <==> KnowsOld(env, stored, patch)
  {
  }

  lemma MergeRefusedExactly(env: Env, stored: Object, patch: Object)
    ensures Merge(env, stored, patch).Err? <==>
            PasswordOf(stored, patch).Some? && TooShort(PasswordOf(stored, patch).value)
    ensures Merge(env, stored, patch).Err? ==> Merge(env, stored, patch).error == ShortPassword
  {
    hide Encode;
    ShortExactly("");
  }

  /** What an update stores, key by key, and shows. Each key of the body holds the body's value and
      every other key what it held, but for the three write-only keys, which are gone, a password,
      which leaves its hash, and the epoch, which a revocation moves on by one. */
  lemma UpdateStores(env: Env, db: Db, w: Who, k: Key, body: Json, ts: string)
    requires Update(env, db, w, k, body, ts).Wrote?
    ensures k in db.records && body.JObj?
    ensures var x := Update(env, db, w, k, body, ts);
            && OnlyAt(db, x.db, k) && k in x.db.records
            && x.db.records[k].created == db.records[k].created && x.db.records[k].updated == ts
            && Shows(x.response, k, x.db.records[k])
            && x.event == Event(UpdateAction, k.col, x.response)
    ensures var data := Update(env, db, w, k, body, ts).db.records[k].data;
            var (stored, patch) := (db.records[k].data, body.fields);
            && At(data, "password") == None && At(data, "oldPassword") == None && At(data, "revokeTokens") == None
            && (forall key | key !in {"password", "oldPassword", "revokeTokens", "password_hash", "token_epoch"} ::
                  At(data, key) == Laid(stored, patch, key))
            && (PasswordOf(stored, patch).None? ==> At(data, "password_hash") == Laid(stored, patch, "password_hash"))
            && (PasswordOf(stored, patch).Some? ==>
                  PasswordOf(stored, patch).value.JStr? &&
                  At(data, "password_hash") == Some(JStr(env.hash(PasswordOf(stored, patch).value.s))))
            && At(data, "token_epoch") ==
               if Revoking(patch) then Some(JInt(NumberAt(Laid(stored, patch, "token_epoch")) + 1))
               else Laid(stored, patch, "token_epoch")
  {
    hide BodyOk, RelationsOk, Gate, PatchRefused, RecordJson, Merge, Shows, Encode;
    var x := Update(env, db, w, k, body, ts);
    ShownExactly(k, x.db.records[k]);
    MergeExactly(env, db.records[k].data, body.fields);
  }

  /** An integer, or 0 for anything else. */
  function NumberAt(v: Option<Json>): int {
    if v.Some? && v.value.JInt? then v.value.n else 0
  }

  lemma MergeExactly(env: Env, stored: Object, patch: Object)
    requires Merge(env, stored, patch).Ok?
    ensures var data := Merge(env, stored, patch).value;
            && At(data, "password") == None && At(data, "oldPassword") == None && At(data, "revokeTokens") == None
            && (forall key | key !in {"password", "oldPassword", "revokeTokens", "password_hash", "token_epoch"} ::
                  At(data, key) == Laid(stored, patch, key))
            && (PasswordOf(stored, patch).None? ==> At(data, "password_hash") == Laid(stored, patch, "password_hash"))
            && (PasswordOf(stored, patch).Some? ==>
                  PasswordOf(stored, patch).value.JStr? &&
                  At(data, "password_hash") == Some(JStr(env.hash(PasswordOf(stored, patch).value.s))))
            && At(data, "token_epoch") ==
               if Revoking(patch) then Some(JInt(NumberAt(Laid(stored, patch, "token_epoch")) + 1))
               else Laid(stored, patch, "token_epoch")
  {
    hide Encode;
    ShortExactly("");
  }

  // ------------------------------------------------------------------ delete

  ghost function DeleteChecks(env: Env, db: Db, w: Who, k: Key): seq<(bool, Error)> {
    [(k.col !in db.cols, NoCollection),
     (k !in db.records, NoRecord),
     (!MayTouch(env.o, w, ColOf(db, k.col).rules.delete, RowOf(k, RecOf(db, k))), DeniedTo(w))]
  }

  /** A delete is refused with the first of its checks that fails. Otherwise the record is gone, and
      nothing else; the answer is empty and the event shows the record as it was. */
  lemma DeleteExactly(env: Env, db: Db, w: Who, k: Key)
    ensures var x := Delete(env, db, w, k);
            if x.Refused? then FirstOf(DeleteChecks(env, db, w, k)) == Some(x.error)
            else
              && FirstOf(DeleteChecks(env, db, w, k)) == None
              && k in db.records && k !in x.db.records && OnlyAt(db, x.db, k) && x.response == map[]
              && x.event.action == DeleteAction && x.event.topic == k.col && Shows(x.event.record, k, db.records[k])
  {
    hide Gate, MayTouch, RecordJson, Shows, FirstOf;
    if k in db.records {
      DeniedExactly(env.o, db, w, ColOf(db, k.col).rules.delete, k);
      ShownExactly(k, db.records[k]);
    }
    var c := DeleteChecks(env, db, w, k);
    FirstSteps(c, 3);
    NoChecks(c[3..]);
  }

  lemma NoChecks<E>(c: seq<(bool, E)>)
    requires c == []
    ensures FirstOf(c) == None
  {
  }

  // ------------------------------------------------------------------ tickets

  /** The ticket is known, was issued for this collection and purpose, and has not expired. */
  predicate Usable(db: Db, name: string, ty: TicketType, token: string, now: int) {
    && token in db.tickets && db.tickets[token].col == name && db.tickets[token].ty == ty
    && now < db.tickets[token].expires
  }

  /** A new ticket can be spent for its collection and purpose, and for nothing else, during one hour;
      the others are as they were, and so is everything else. */
  lemma IssueExactly(
      db: Db, name: string, record: string, ty: TicketType, token: string, now: int,
      name': string, ty': TicketType, token': string, t: int)
    ensures Spendable(Issue(db, name, record, ty, token, now), name', ty', token', t) <==>
            if token' == token then name' == name && ty' == ty && t < now + 3600 else Usable(db, name', ty', token', t)
    ensures Issue(db, name, record, ty, token, now).tickets[token].record == record
    ensures Issue(db, name, record, ty, token, now).records == db.records
    ensures Issue(db, name, record, ty, token, now).cols == db.cols
  {
  }

  /** Exactly when a reset goes through, and what it leaves: the record has the new password's hash, no
      password, and an epoch one higher; its other keys are as they were; the ticket is gone. */
  lemma ResetExactly(env: Env, db: Db, name: string, token: string, password: Json, now: int, ts: string)
    ensures !Usable(db, name, ResetTicket, token, now) ==>
              ConfirmReset(env, db, name, token, password, now, ts) == Refused(BadTicket)
    ensures Usable(db, name, ResetTicket, token, now) ==>
              var x := ConfirmReset(env, db, name, token, password, now, ts);
              var k := Key(name, db.tickets[token].record);
              var refusal := FirstOf(UpdateChecks(env, db, Admin, k, JObj(map["password" := password])));
              if x.Refused? then refusal == Some(x.error) else refusal == None
    ensures ConfirmReset(env, db, name, token, password, now, ts).Wrote? ==>
              var x := ConfirmReset(env, db, name, token, password, now, ts);
              && Usable(db, name, ResetTicket, token, now)
              && var k := Key(name, db.tickets[token].record);
                 && k in db.records && k in x.db.records && password.JStr?
                 && OnlyAt(db, x.db.(tickets := db.tickets), k) && x.db.tickets == db.tickets - {token}
                 && ResetData(env, db.records[k].data, password, x.db.records[k].data)
                 && x.db.records[k].created == db.records[k].created && x.db.records[k].updated == ts
                 && x.event.action == UpdateAction && x.event.topic == name && Shows(x.event.record, k, x.db.records[k])
  {
    hide Update, UpdateChecks, FirstOf, Shows, Laid;
    if Usable(db, name, ResetTicket, token, now) {
      var k, body := Key(name, db.tickets[token].record), JObj(map["password" := password]);
      UpdateRefusedExactly(env, db, Admin, k, body, ts);
      if Update(env, db, Admin, k, body, ts).Wrote? {
        UpdateStores(env, db, Admin, k, body, ts);
        LaidPassword(db.records[k].data, password);
      }
    }
  }

  ghost predicate ResetData(env: Env, stored: Object, password: Json, data: Object)
    requires password.JStr?
  {
    && At(data, "password") == None && At(data, "password_hash") == Some(JStr(env.hash(password.s)))
    && At(data, "token_epoch") == Some(JInt(NumberAt(At(stored, "token_epoch")) + 1))
    && forall key | key !in {"password", "oldPassword", "revokeTokens", "password_hash", "token_epoch"} ::
         At(data, key) == At(stored, key)
  }

  lemma LaidPassword(stored: Object, password: Json)
    ensures PasswordOf(stored, map["password" := password]) == Some(password) && Revoking(map["password" := password])
    ensures forall key | key != "password" :: Laid(stored, map["password" := password], key) == At(stored, key)
  {
  }

  /** Exactly when a verification goes through, and what it leaves: the ticket is gone and a record
      that still exists is marked, with every other key as it was. */
  lemma VerifyExactly(db: Db, name: string, token: string, now: int, ts: string)
    ensures ConfirmVerification(db, name, token, now, ts).Err? <==> !Usable(db, name, VerifyTicket, token, now)
    ensures ConfirmVerification(db, name, token, now, ts).Err? ==>
              ConfirmVerification(db, name, token, now, ts).error == BadTicket
    ensures ConfirmVerification(db, name, token, now, ts).Ok? ==>
              var (next, e) := ConfirmVerification(db, name, token, now, ts).value;
              var k := Key(name, db.tickets[token].record);
              && next.tickets == db.tickets - {token} && OnlyAt(db, next.(tickets := db.tickets), k)
              && (k !in db.records ==> k !in next.records && e == None)
              && (k in db.records ==>
                    && k in next.records && e.Some?
                    && e.value.action == UpdateAction && e.value.topic == name
                    && Shows(e.value.record, k, next.records[k])
                    && next.records[k].created == db.records[k].created && next.records[k].updated == ts
                    && At(next.records[k].data, "verified") == Some(JBool(true))
                    && forall key | key != "verified" :: At(next.records[k].data, key) == At(db.records[k].data, key))
  {
    hide RecordJson, Shows;
    if ConfirmVerification(db, name, token, now, ts).Ok? {
      var next, k := ConfirmVerification(db, name, token, now, ts).value.0, Key(name, db.tickets[token].record);
      if k in db.records {
        ShownExactly(k, next.records[k]);
      }
    }
  }
}
