/**
 * Delivery of change events (src/realtime.rs): each subscriber gates every event in memory, with a
 * cached view rule, because a deleted row is gone by then. Proved against the SQL view gate.
 */
module Realtime {
  import opened Wrappers
  import opened FilterTree
  import opened FilterParser
  import opened Json
  import opened Sql
  import opened FilterSql
  import opened FilterEval
  import opened FilterWhere
  import opened Backends
  import opened Rules
  import opened Records
  import opened Batch
  import opened Events
  import opened RecordInvariants
  import opened Runs
  import opened Words
  import Documents

  /** The view rule a topic has in the database; None is "no such collection". */
  function ViewRuleOf(cols: map<string, Coll>, topic: string): Option<RuleText> {
    if topic in cols then Some(cols[topic].rules.view) else None
  }

  /** The verdict on one event under one view rule. */
  predicate Verdict(o: Oracles, w: Who, rule: Option<RuleText>, record: Json) {
    || w.Admin?
    || (record.JObj? && rule.Some? &&
        match CheckRule(w, rule.value)
        case Err(_) => false
        case Ok(None) => true
        case Ok(Some(expr)) => EvalRule(o, expr, AuthId(w), record.fields))
  }

  /** The verdict, from the stored rules alone: the admin sees everything, and others what the view
      rule of the event's collection grants on the document that the event shows. */
  lemma VerdictExactly(o: Oracles, w: Who, cols: map<string, Coll>, topic: string, record: Json)
    ensures Verdict(o, w, ViewRuleOf(cols, topic), record) <==>
            || w.Admin?
            || (record.JObj? && topic in cols && Documents.Grants(o, w, cols[topic].rules.view, record.fields))
  {
    hide Parse, Eval;
    Documents.EmptyIsNoRule(o);
  }

  /** The topics a subscription names; none at all is no filter. */
  function TopicsOf(param: Option<string>): set<string> {
    var pieces := Segments(if param.Some? then param.value else "");
    set t | t in pieces && t != ""
  }

  /** One open subscription: the caller it was opened by, its topics and its rule cache. */
  class Subscription {
    const w: Who
    const topics: set<string>
    var version: nat
    var rules: map<string, Option<RuleText>>

    constructor (w: Who, param: Option<string>)
      ensures this.w == w && topics == TopicsOf(param) && version == 0 && rules == map[]
    {
      this.w := w;
      topics := TopicsOf(param);
      version, rules := 0, map[];
    }

    /** Every rule cached at the current version is the one in the database. */
    predicate Fresh(colsVersion: nat, cols: map<string, Coll>)
      reads this
    {
      version == colsVersion ==> forall t :: t in rules ==> rules[t] == ViewRuleOf(cols, t)
    }

    /** The rule this event will be gated with. */
    function RuleFor(colsVersion: nat, cols: map<string, Coll>, topic: string): Option<RuleText>
      reads this
    {
      if version == colsVersion && topic in rules then rules[topic] else ViewRuleOf(cols, topic)
    }

    /** `visible`. An admin, or a record that is not an object, never touches the cache; otherwise
        a changed version empties it and the topic's rule is read at most once. */
    method Visible(o: Oracles, colsVersion: nat, cols: map<string, Coll>, topic: string, record: Json)
      returns (ok: bool)
      modifies this
      ensures ok == Verdict(o, w, old(RuleFor(colsVersion, cols, topic)), record)
      ensures old(Fresh(colsVersion, cols)) ==>
                Fresh(colsVersion, cols) && ok == Verdict(o, w, ViewRuleOf(cols, topic), record)
      ensures old(Fresh(colsVersion, cols)) ==>
                (ok <==>
                 || w.Admin?
                 || (record.JObj? && topic in cols && Documents.Grants(o, w, cols[topic].rules.view, record.fields)))
      ensures w.Admin? || !record.JObj? ==> version == old(version) && rules == old(rules)
      ensures !w.Admin? && record.JObj? ==> version == colsVersion
      ensures !w.Admin? && record.JObj? ==>
                rules == (if old(version) == colsVersion then old(rules) else map[])
                  [topic := old(RuleFor(colsVersion, cols, topic))]
    {
      hide EvalRule, Documents.Grants;
      VerdictExactly(o, w, cols, topic, record);
      if w.Admin? { return true; }
      if !record.JObj? { return false; }
      if version != colsVersion {
        version := colsVersion;
        rules := map[];
      }
      if topic !in rules {
        rules := rules[topic := if topic in cols then Some(cols[topic].rules.view) else None];
      }
      var rule := rules[topic];
      assert rules == (if old(version) == colsVersion then old(rules) else map[])[topic := rule];
      if rule.None? { return false; }
      match CheckRule(w, rule.value) {
        case Ok(None) => return true;
        case Ok(Some(expr)) => return EvalRule(o, expr, AuthId(w), record.fields);
        case Err(_) => return false;
      }
    }

    /** One event of the channel. An event on a topic that was not named is dropped before its rule is
        looked up. */
    method Receive(o: Oracles, colsVersion: nat, cols: map<string, Coll>, e: Event) returns (ok: bool)
      modifies this
      ensures topics != {} && e.topic !in topics ==> !ok && version == old(version) && rules == old(rules)
      ensures old(Fresh(colsVersion, cols)) ==>
                && Fresh(colsVersion, cols)
                && (ok <==>
                    && (topics == {} || e.topic in topics)
                    && (w.Admin? ||
                        (e.topic in cols && Documents.Grants(o, w, cols[e.topic].rules.view, e.record))))
    {
      hide Documents.Grants;
      if topics != {} && e.topic !in topics { return false; }
      ok := Visible(o, colsVersion, cols, e.topic, JObj(e.record));
    }
  }

  // ------------------------------------------------------------------ against the view gate

  /** An event shows a column as the row has it, unless the column is one of the secrets it leaves
      out or the collection name it adds. */
  predicate ShownAsStored(x: Operand, k: Key, r: Rec) {
    x.Col? ==>
      if x.name == "collectionName" then Get(r.data, x.name) == JStr(k.col)
      else x.name in {HASH, EPOCH} ==> Get(r.data, x.name) == JNull
  }

  predicate AllShownAsStored(n: Node, k: Key, r: Rec) {
    match n
    case Or(a, b) => AllShownAsStored(a, k, r) && AllShownAsStored(b, k, r)
    case And(a, b) => AllShownAsStored(a, k, r) && AllShownAsStored(b, k, r)
    case Cmp(x, _, y) => ShownAsStored(x, k, r) && ShownAsStored(y, k, r)
  }

  /** The event and the row hold the same values under the columns of a rule exactly when the rule
      names no column that publishing hides or adds. */
  lemma {:induction false} EventMatchesRow(n: Node, k: Key, r: Rec)
    ensures AgreesOn(n, RecordJson(k, r), RowOf(k, r)) <==> AllShownAsStored(n, k, r)
  {
    match n
    case Or(a, b) =>
      EventMatchesRow(a, k, r);
      EventMatchesRow(b, k, r);
    case And(a, b) =>
      EventMatchesRow(a, k, r);
      EventMatchesRow(b, k, r);
    case Cmp(x, _, y) =>
      EventMatchesOperand(x, k, r);
      EventMatchesOperand(y, k, r);
  }

  lemma EventMatchesOperand(x: Operand, k: Key, r: Rec)
    ensures AgreesOnOperand(x, RecordJson(k, r), RowOf(k, r)) <==> ShownAsStored(x, k, r)
  {
  }

  lemma ParsedRuleWf(o: Oracles, rule: string)
    requires ParseRule(o, rule).Ok?
    ensures Wf(Rule, o.realOf, ParseRule(o, rule).value)
  {
    hide Parse, Wf;
    ParseSound(o.realOf, Rule, rule);
  }

  /** The rule is an expression this caller is held to. */
  predicate Held(o: Oracles, w: Who, rule: RuleText) {
    !w.Admin? && rule.Some? && rule.value != "" && ParseRule(o, rule.value).Ok?
  }

  /** What the rule grants on the values the event shows, it would grant in SQL on the values the row
      holds. */
  predicate Shielded(o: Oracles, w: Who, rule: RuleText, k: Key, r: Rec) {
    Held(o, w, rule) && Eval(o, ParseRule(o, rule.value).value, AuthId(w), RecordJson(k, r)) ==>
      EvalSql(o, ParseRule(o, rule.value).value, AuthId(w), RowObject(RowOf(k, r)))
  }

  /** It grants the same on both. */
  predicate Mirrored(o: Oracles, w: Who, rule: RuleText, k: Key, r: Rec) {
    Held(o, w, rule) ==>
      Eval(o, ParseRule(o, rule.value).value, AuthId(w), RecordJson(k, r)) ==
      EvalSql(o, ParseRule(o, rule.value).value, AuthId(w), RowObject(RowOf(k, r)))
  }

  /** For every rule and every record: exactly when an event that is delivered shows a record its
      receiver could have read through the view gate, and exactly when it is delivered to those who
      could and to nobody else. The conditions compare values; no SQL is run. */
  lemma DeliveredExactly(o: Oracles, db: Db, w: Who, k: Key)
    requires k in db.records && k.col in db.cols
    ensures (Verdict(o, w, ViewRuleOf(db.cols, k.col), JObj(RecordJson(k, db.records[k]))) ==>
             Gate(o, db, w, db.cols[k.col].rules.view, k).None?) <==>
            Shielded(o, w, db.cols[k.col].rules.view, k, db.records[k])
    ensures (Verdict(o, w, ViewRuleOf(db.cols, k.col), JObj(RecordJson(k, db.records[k]))) <==>
             Gate(o, db, w, db.cols[k.col].rules.view, k).None?) <==>
            Mirrored(o, w, db.cols[k.col].rules.view, k, db.records[k])
  {
    hide ParseRule, Meaning, Eval, EvalSql, Gate, RecordJson, RowObject, AgreesOn;
    var rule, r := db.cols[k.col].rules.view, db.records[k];
    GateMeans(o, db, w, rule, k);
    if Held(o, w, rule) {
      var n := ParseRule(o, rule.value).value;
      ParsedRuleWf(o, rule.value);
      RowObjectAgrees(n, RowOf(k, r));
      SqlIsEvalSql(o, Rule, n, AuthId(w), RowObject(RowOf(k, r)), RowOf(k, r));
    }
  }

  /** A rule that names only what an event shows, at no comparison of which SQL refuses what memory
      grants. */
  predicate Comparable(o: Oracles, w: Who, rule: RuleText, k: Key, r: Rec) {
    Held(o, w, rule) ==>
      var n := ParseRule(o, rule.value).value;
      AllShownAsStored(n, k, r) && NothingLost(o, n, AuthId(w), RecordJson(k, r))
  }

  predicate ApartNowhere(o: Oracles, w: Who, rule: RuleText, k: Key, r: Rec) {
    Held(o, w, rule) ==> NowhereApart(o, ParseRule(o, rule.value).value, AuthId(w), RecordJson(k, r))
  }

  /** A condition that can be read off the rule and the event alone: then what is delivered could have
      been viewed, and if the backends part ways nowhere, the converse holds too. */
  lemma DeliveredIsViewable(o: Oracles, db: Db, w: Who, k: Key)
    requires k in db.records && k.col in db.cols
    requires Comparable(o, w, db.cols[k.col].rules.view, k, db.records[k])
    ensures Verdict(o, w, ViewRuleOf(db.cols, k.col), JObj(RecordJson(k, db.records[k]))) ==>
              Gate(o, db, w, db.cols[k.col].rules.view, k).None?
    ensures ApartNowhere(o, w, db.cols[k.col].rules.view, k, db.records[k]) ==>
              (Verdict(o, w, ViewRuleOf(db.cols, k.col), JObj(RecordJson(k, db.records[k]))) <==>
               Gate(o, db, w, db.cols[k.col].rules.view, k).None?)
  {
    hide ParseRule, Meaning, Eval, Gate, AgreesOn, AllShownAsStored, NothingLost, NowhereApart, RecordJson;
    var rule, r := db.cols[k.col].rules.view, db.records[k];
    GateMeans(o, db, w, rule, k);
    if Held(o, w, rule) {
      var n := ParseRule(o, rule.value).value;
      ParsedRuleWf(o, rule.value);
      EventMatchesRow(n, k, r);
      EvalImpliesSql(o, Rule, n, AuthId(w), RecordJson(k, r), RowOf(k, r));
      if NowhereApart(o, n, AuthId(w), RecordJson(k, r)) {
        BackendsAgree(o, Rule, n, AuthId(w), RecordJson(k, r), RowOf(k, r));
      }
    }
  }

  // ------------------------------------------------------------------ hidden and added columns

  /** A secret on the left, whatever the operator and the right side: an event never shows it, so the
      one comparison that grants the event and refuses the row is the test for its absence. */
  lemma SecretExactly(o: Oracles, x: string, op: Op, v: Operand, k: Key, r: Rec, auth: string)
    requires x in {HASH, EPOCH} && !Get(r.data, x).JNull? && OpFits(op, v)
    ensures (Eval(o, Cmp(Col(x), op, v), auth, RecordJson(k, r)) ==>
             Meaning(o, Cmp(Col(x), op, v), auth, RowOf(k, r)) == Yes) <==>
            !(op.Eq? && v.Null?)
    ensures Eval(o, Cmp(Col(x), op, v), auth, RecordJson(k, r)) <==> op.Eq? && v.Null?
  {
  }

  /** A secret on the right: nothing is granted on the event, so nothing is granted wrongly. */
  lemma SecretOnRight(o: Oracles, x: string, op: Op, l: Operand, k: Key, r: Rec, auth: string)
    requires x in {HASH, EPOCH}
    ensures !Eval(o, Cmp(l, op, Col(x)), auth, RecordJson(k, r))
  {
  }

  /** The added column on the left, whatever the operator and the right side: the row has no such
      column, so the event is granted and the row refused exactly where the name itself passes. */
  lemma CollectionNameExactly(o: Oracles, op: Op, v: Operand, k: Key, r: Rec, auth: string)
    requires Get(r.data, "collectionName").JNull? && OpFits(op, v)
    ensures (Eval(o, Cmp(Col("collectionName"), op, v), auth, RecordJson(k, r)) ==>
             Meaning(o, Cmp(Col("collectionName"), op, v), auth, RowOf(k, r)) == Yes) <==>
            if v.Null? then op.Eq? else !CompareJson(o, op, JStr(k.col), OperandJson(v, auth, RecordJson(k, r)))
  {
    hide CompareJson, LikeTruth, Needle, CompareTerms;
    NullLeft(o, op, v, auth, OperandValue(o, v, auth, RowOf(k, r)), false, IsTextColumn(v));
  }

  lemma CollectionNameOnRight(o: Oracles, op: Op, l: Operand, k: Key, r: Rec, auth: string)
    requires Get(r.data, "collectionName").JNull? && WfLhs(l) && OpFits(op, Col("collectionName"))
    ensures (Eval(o, Cmp(l, op, Col("collectionName")), auth, RecordJson(k, r)) ==>
             Meaning(o, Cmp(l, op, Col("collectionName")), auth, RowOf(k, r)) == Yes) <==>
            !CompareJson(o, op, OperandJson(l, auth, RecordJson(k, r)), JStr(k.col))
  {
    hide CompareJson, LikeTruth, Needle;
  }

  // ------------------------------------------------------------------ every published event

  /** The event shows its record as it stands in a database. */
  predicate Stands(e: Event, db: Db) {
    && KeyOf(e) in db.records && KeyOf(e).col in db.cols
    && e.record == RecordJson(KeyOf(e), db.records[KeyOf(e)])
  }

  lemma StandsAt(a: Action, k: Key, r: Rec, db: Db)
    requires k in db.records && db.records[k] == r && k.col in db.cols
    ensures Stands(Event(a, k.col, RecordJson(k, r)), db)
  {
    hide RecordJson;
    KeyOfRecord(k, r, a);
  }

  /** The database an event is about: the one after a create or an update, the one before a delete. */
  function About(e: Event, before: Db, after: Db): Db {
    if e.action.DeleteAction? then before else after
  }

  predicate EffectStands(before: Db, x: Effect) {
    x.Wrote? ==> Stands(x.event, About(x.event, before, x.db))
  }

  lemma CreateStands(env: Env, db: Db, w: Who, name: string, body: Json, id: string, ts: string)
    ensures EffectStands(db, Create(env, db, w, name, body, id, ts))
  {
    hide RecordJson, SignUp, BodyOk, RelationsOk, CreateAllowed, Stands;
    var x := Create(env, db, w, name, body, id, ts);
    if x.Wrote? {
      StandsAt(CreateAction, Key(name, id), x.db.records[Key(name, id)], x.db);
    }
  }

  lemma UpdateStands(env: Env, db: Db, w: Who, k: Key, body: Json, ts: string)
    ensures EffectStands(db, Update(env, db, w, k, body, ts))
    ensures Update(env, db, w, k, body, ts).Wrote? ==> Update(env, db, w, k, body, ts).event.action.UpdateAction?
  {
    hide RecordJson, Gate, Merge, PatchRefused, BodyOk, RelationsOk, Stands;
    var x := Update(env, db, w, k, body, ts);
    if x.Wrote? {
      StandsAt(UpdateAction, k, x.db.records[k], x.db);
    }
  }

  lemma DeleteStands(env: Env, db: Db, w: Who, k: Key)
    ensures EffectStands(db, Delete(env, db, w, k))
  {
    hide RecordJson, Gate, Stands;
    if Delete(env, db, w, k).Wrote? {
      StandsAt(DeleteAction, k, db.records[k], db);
    }
  }

  lemma ResetStands(env: Env, db: Db, name: string, token: string, password: Json, now: int, ts: string)
    ensures EffectStands(db, ConfirmReset(env, db, name, token, password, now, ts))
  {
    hide RecordJson, Update;
    if ConfirmReset(env, db, name, token, password, now, ts).Wrote? {
      UpdateStands(env, db, Admin, Key(name, db.tickets[token].record), JObj(map["password" := password]), ts);
    }
  }

  lemma VerifyStands(db: Db, name: string, token: string, now: int, ts: string)
    requires RecordsOk(db) && ConfirmVerification(db, name, token, now, ts).Ok?
    requires ConfirmVerification(db, name, token, now, ts).value.1.Some?
    ensures ConfirmVerification(db, name, token, now, ts).value.1.value.action.UpdateAction?
    ensures Stands(ConfirmVerification(db, name, token, now, ts).value.1.value,
                   ConfirmVerification(db, name, token, now, ts).value.0)
  {
    hide RecordJson, DataOk, Stands;
    var k := Key(name, db.tickets[token].record);
    var next := ConfirmVerification(db, name, token, now, ts).value.0;
    StandsAt(UpdateAction, k, next.records[k], next);
  }

  lemma OneStands(env: Env, db: Db, w: Who, req: Json, tick: Tick)
    ensures EffectStands(db, One(env, db, w, req, tick))
  {
    hide Create, Update, Delete, ParseUrl, Stands;
    if One(env, db, w, req, tick).Wrote? {
      var (col, id) := ParseUrl(Member(req, "url").s).value;
      if id.None? {
        CreateStands(env, db, w, col, Member(req, "body"), tick.id, tick.ts);
      } else if Member(req, "method") == JStr("PATCH") {
        UpdateStands(env, db, w, Key(col, id.value), Member(req, "body"), tick.ts);
      } else {
        DeleteStands(env, db, w, Key(col, id.value));
      }
    }
  }

  /** Each event of a batch shows its record as it stands between two of the requests. */
  lemma {:induction false} BatchEventsStand(
      env: Env, db: Db, w: Who, reqs: seq<Json>, ticks: seq<Tick>, n: nat, i: nat)
    requires i < n <= |reqs| && |reqs| == |ticks| && Fold(env, db, w, reqs, ticks, n).Running?
    ensures Fold(env, db, w, reqs, ticks, i).Running? && Fold(env, db, w, reqs, ticks, i + 1).Running?
    ensures |Fold(env, db, w, reqs, ticks, n).events| == n
    ensures var e := Fold(env, db, w, reqs, ticks, n).events[i];
            Stands(e, About(e, Fold(env, db, w, reqs, ticks, i).db, Fold(env, db, w, reqs, ticks, i + 1).db))
    decreases n
  {
    hide One, Stands, About;
    if n > 1 {
      FoldIsStandalone(env, World(db, []), w, reqs, ticks, n - 1);
    }
    if i == n - 1 {
      OneStands(env, Fold(env, db, w, reqs, ticks, i).db, w, reqs[i], ticks[i]);
    } else {
      BatchEventsStand(env, db, w, reqs, ticks, n - 1, i);
    }
  }

  lemma StepEventStands(env: Env, s: State, step: Step, e: Event)
    requires StateOk(env.o, s) && Legal(s, step) && !step.BatchStep? && Apply(env, s, step).log == s.log + [e]
    ensures Stands(e, About(e, s.db, Apply(env, s, step).db))
  {
    hide Inv, Create, Update, Delete, ConfirmReset, ConfirmVerification, Stands;
    assert (s.log + [e])[|s.log|] == e;
    match step {
      case CreateStep(w, name, body, id, ts) => CreateStands(env, s.db, w, name, body, id, ts);
      case UpdateStep(w, k, body, ts) => UpdateStands(env, s.db, w, k, body, ts);
      case DeleteStep(w, k) => DeleteStands(env, s.db, w, k);
      case ResetStep(name, token, password, now, ts) => ResetStands(env, s.db, name, token, password, now, ts);
      case VerifyStep(name, token, now, ts) =>
        GoodRecords(env.o, s.db);
        VerifyStands(s.db, name, token, now, ts);
      case _ =>
    }
  }

  lemma GoodRecords(o: Oracles, db: Db)
    requires Inv(o, db)
    ensures RecordsOk(db)
  {
    hide RecordsOk;
  }

  /** Whichever single request published it, whoever receives it: the event of a create, an update, a
      reset or a verification is delivered only to those who can view its record in the new database,
      that of a delete only to those who could in the old one, exactly when the collection's view
      rule is shielded on that record. */
  lemma PublishedToViewers(env: Env, s: State, step: Step, e: Event, w: Who)
    requires StateOk(env.o, s) && Legal(s, step) && !step.BatchStep? && Apply(env, s, step).log == s.log + [e]
    ensures Stands(e, About(e, s.db, Apply(env, s, step).db))
    ensures OnlyToViewers(env.o, About(e, s.db, Apply(env, s, step).db), w, e)
  {
    hide Stands, Apply, About, OnlyToViewers, Inv;
    StepEventStands(env, s, step, e);
    StandingOnlyToViewers(env.o, About(e, s.db, Apply(env, s, step).db), w, e);
  }

  /** Delivery to `w` implies that `w` passes the view gate, exactly when the rule is shielded. */
  predicate OnlyToViewers(o: Oracles, db: Db, w: Who, e: Event)
    requires Stands(e, db)
  {
    var k := KeyOf(e);
    var rule := db.cols[k.col].rules.view;
    (Verdict(o, w, ViewRuleOf(db.cols, e.topic), JObj(e.record)) ==> Gate(o, db, w, rule, k).None?) <==>
    Shielded(o, w, rule, k, db.records[k])
  }

  lemma StandingOnlyToViewers(o: Oracles, db: Db, w: Who, e: Event)
    requires Stands(e, db)
    ensures OnlyToViewers(o, db, w, e)
  {
    hide Gate, Verdict, Shielded, RecordJson;
    DeliveredExactly(o, db, w, KeyOf(e));
  }
}
