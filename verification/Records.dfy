/**
 * The record cores of src/records.rs as functions from one database to the next. A core either
 * fails and changes nothing, or yields the new database, the response and one event to publish.
 */
module Records {
  import opened Wrappers
  import opened Utf8
  import opened FilterTree
  import opened Json
  import opened Sql
  import opened FilterSql
  import opened FilterEval
  import opened FilterWhere
  import opened Rules

  // ------------------------------------------------------------------ the database

  datatype FieldType = TextField | NumberField | BoolField | JsonField | RelationField | FileField

  datatype Field = Field(name: string, ty: FieldType, required: bool, target: string)

  datatype Coll = Coll(isAuth: bool, schema: seq<Field>, rules: RuleSet)

  datatype Key = Key(col: string, id: string)

  datatype Rec = Rec(data: Object, created: string, updated: string)

  datatype TicketType = ResetTicket | VerifyTicket

  datatype Ticket = Ticket(col: string, record: string, ty: TicketType, expires: int)

  datatype Db = Db(cols: map<string, Coll>, records: map<Key, Rec>, tickets: map<string, Ticket>)

  datatype Action = CreateAction | UpdateAction | DeleteAction

  /** What is published on the realtime channel. */
  datatype Event = Event(action: Action, topic: string, record: Object)

  /** Library calls: those of the filter backends, plus password hashing. */
  datatype Env = Env(o: Oracles, hash: string -> string, verify: (string, string) -> bool)

  datatype Error =
    | NoCollection
    | NoRecord
    | Denied(denial: Denial)
    | NotAnObject
    | InvalidBody
    | DanglingRelation
    | BadEmail
    | NoPassword
    | ShortPassword
    | EmailTaken
    | OldPasswordMismatch
    | BadTicket
    | BadCall

  datatype Effect = Wrote(db: Db, response: Object, event: Event) | Refused(error: Error)

  const EPOCH := "token_epoch"
  const VERIFIED := "verified"
  const HASH := "password_hash"
  const RESERVED := {"id", "created", "updated", "collectionName", HASH, EPOCH, VERIFIED}

  function RowOf(k: Key, r: Rec): Row {
    Row(k.col, k.id, r.created, r.updated, r.data)
  }

  /** `record_json`: secrets out, identity in. */
  function RecordJson(k: Key, r: Rec): Object {
    (r.data - {HASH, EPOCH})
      ["id" := JStr(k.id)]["collectionName" := JStr(k.col)]
      ["created" := JStr(r.created)]["updated" := JStr(r.updated)]
  }

  function StrOr(v: Json, other: string): string {
    if v.JStr? then v.s else other
  }

  // ------------------------------------------------------------------ request checks

  function FindField(schema: seq<Field>, name: string): Option<Field> {
    if schema == [] then None
    else if schema[0].name == name then Some(schema[0])
    else FindField(schema[1..], name)
  }

  const AUTH_FIELDS := {"email", "password", "oldPassword", "revokeTokens"}

  predicate TypeFits(ty: FieldType, v: Json) {
    v.JNull? ||
    match ty
    case TextField => v.JStr?
    case NumberField => v.JInt? || v.JReal?
    case BoolField => v.JBool?
    case RelationField => v.JStr?
    case FileField => v.JStr?
    case JsonField => true
  }

  predicate KeyFits(schema: seq<Field>, isAuth: bool, name: string, v: Json) {
    match FindField(schema, name)
    case None => isAuth && name in AUTH_FIELDS
    case Some(f) => TypeFits(f.ty, v)
  }

  predicate RequiredFits(f: Field, data: Object, partial: bool) {
    f.required ==> if f.name in data then !data[f.name].JNull? else partial
  }

  /** `validate`: every key known and well typed, every required field present and not null. */
  predicate BodyOk(schema: seq<Field>, data: Object, isAuth: bool, partial: bool) {
    && (forall name :: name in data ==> KeyFits(schema, isAuth, name, data[name]))
    && (forall i :: 0 <= i < |schema| ==> RequiredFits(schema[i], data, partial))
  }

  predicate RelationFits(db: Db, f: Field, data: Object) {
    f.ty.RelationField? && Get(data, f.name).JStr? ==> Key(f.target, data[f.name].s) in db.records
  }

  /** `check_relations`. */
  predicate RelationsOk(db: Db, schema: seq<Field>, data: Object) {
    forall i :: 0 <= i < |schema| ==> RelationFits(db, schema[i], data)
  }

  predicate HasEmail(o: Oracles, db: Db, k: Key, email: string)
    requires k in db.records
  {
    FromJson(o, Get(db.records[k].data, "email")) == VText(email)
  }

  /** `email_taken`. */
  predicate Taken(o: Oracles, db: Db, col: string, email: string, exclude: string) {
    exists k :: k in db.records && k.col == col && k.id != exclude && HasEmail(o, db, k, email)
  }

  /** `hash_password`: trades `password` for `password_hash`. */
  function HashPassword(env: Env, data: Object): Result<Object, Error> {
    if "password" !in data then Ok(data)
    else
      var pw := StrOr(data["password"], "");
      if |Encode(pw)| < 8 then Err(ShortPassword)
      else Ok((data - {"password"})[HASH := JStr(env.hash(pw))])
  }

  /** `check_old_password`. */
  predicate OldPasswordOk(env: Env, stored: Object, patch: Object) {
    var given := StrOr(Get(patch, "oldPassword"), "");
    given != "" && env.verify(given, StrOr(Get(stored, HASH), ""))
  }

  // ------------------------------------------------------------------ the row gate

  predicate SqlExists(o: Oracles, db: Db, ts: seq<Tok>, binds: seq<Value>) {
    exists k :: k in db.records && Selects(o, ts, binds, RowOf(k, db.records[k]))
  }

  /** `gate_record`: runs the rule's SQL against the one addressed row. */
  function Gate(o: Oracles, db: Db, w: Who, rule: RuleText, k: Key): Option<Denial> {
    match CheckRule(w, rule)
    case Err(d) => Some(d)
    case Ok(None) => None
    case Ok(Some(expr)) =>
      match ParseRule(o, expr)
      case Err(_) => Some(Deny(w))
      case Ok(n) =>
        if SqlExists(o, db, GateToks(n), GateBinds(o, k.col, k.id, n, AuthId(w))) then None else Some(Deny(w))
  }

  /** Whether a rule lets a caller at a row, said without SQL. */
  predicate RulePasses(o: Oracles, w: Who, rule: RuleText, row: Row) {
    || w.Admin?
    || (rule.Some? &&
        (rule.value == "" ||
         (ParseRule(o, rule.value).Ok? && Meaning(o, ParseRule(o, rule.value).value, AuthId(w), row) == Yes)))
  }

  /** The gate passes an existing record exactly when its rule passes the caller on that very row:
      the compiled SQL can neither look at another row nor widen the rule. */
  lemma GateMeans(o: Oracles, db: Db, w: Who, rule: RuleText, k: Key)
    requires k in db.records
    ensures Gate(o, db, w, rule, k).None? <==> RulePasses(o, w, rule, RowOf(k, db.records[k]))
  {
    hide ParseRule, Meaning, GateToks, GateBinds, Selects;
    if !w.Admin? && rule.Some? && rule.value != "" && ParseRule(o, rule.value).Ok? {
      var n := ParseRule(o, rule.value).value;
      forall j | j in db.records
        ensures Selects(o, GateToks(n), GateBinds(o, k.col, k.id, n, AuthId(w)), RowOf(j, db.records[j])) <==>
                j == k && Meaning(o, n, AuthId(w), RowOf(j, db.records[j])) == Yes
      {
        GateSelects(o, k.col, k.id, n, AuthId(w), RowOf(j, db.records[j]));
      }
    }
  }

  // ------------------------------------------------------------------ the cores

  function Put(db: Db, k: Key, r: Rec): Db {
    db.(records := db.records[k := r])
  }

  /** What sign-up adds to a validated body: an email with an @, a hashed password, an unused
      address, and `verified` off. */
  function SignUp(env: Env, db: Db, name: string, data: Object): Result<Object, Error> {
    var email := StrOr(Get(data, "email"), "");
    if '@' !in email then Err(BadEmail)
    else if "password" !in data then Err(NoPassword)
    else match HashPassword(env, data)
      case Err(e) => Err(e)
      case Ok(hashed) =>
        if Taken(env.o, db, name, email, "") then Err(EmailTaken)
        else Ok(hashed[VERIFIED := JBool(false)])
  }

  predicate CreateAllowed(o: Oracles, w: Who, rule: RuleText, data: Object) {
    match CheckRule(w, rule)
    case Err(_) => false
    case Ok(None) => true
    case Ok(Some(expr)) => EvalRule(o, expr, AuthId(w), data)
  }

  /** `create_core`, with the fresh id and the timestamp as arguments. */
  function Create(env: Env, db: Db, w: Who, name: string, body: Json, id: string, ts: string): Effect {
    if name !in db.cols then Refused(NoCollection)
    else if !body.JObj? then Refused(NotAnObject)
    else
      var col, data := db.cols[name], body.fields;
      if !CreateAllowed(env.o, w, col.rules.create, data) then Refused(Denied(Deny(w)))
      else if !BodyOk(col.schema, data, col.isAuth, false) then Refused(InvalidBody)
      else if !RelationsOk(db, col.schema, data) then Refused(DanglingRelation)
      else match (if col.isAuth then SignUp(env, db, name, data) else Ok(data))
        case Err(e) => Refused(e)
        case Ok(stored) =>
          var k, r := Key(name, id), Rec(stored, ts, ts);
          Wrote(Put(db, k, r), RecordJson(k, r), Event(CreateAction, name, RecordJson(k, r)))
  }

  /** The checks an auth record's patch must pass. */
  function PatchRefused(env: Env, db: Db, w: Who, k: Key, stored: Object, patch: Object): Option<Error> {
    var email := Get(patch, "email");
    if email.JStr? && '@' !in email.s then Some(BadEmail)
    else if email.JStr? && Taken(env.o, db, k.col, email.s, k.id) then Some(EmailTaken)
    else if "password" in patch && !w.Admin? && !OldPasswordOk(env, stored, patch) then Some(OldPasswordMismatch)
    else None
  }

  predicate Revokes(patch: Object) {
    Get(patch, "revokeTokens") == JBool(true) || "password" in patch
  }

  function EpochOr0(data: Object): int {
    var v := Get(data, EPOCH);
    if v.JInt? then v.n else 0
  }

  /** The merged document: write-only keys consumed, password hashed, epoch moved on revocation. */
  function Merge(env: Env, stored: Object, patch: Object): Result<Object, Error> {
    match HashPassword(env, (stored + patch) - {"oldPassword", "revokeTokens"})
    case Err(e) => Err(e)
    case Ok(merged) => Ok(if Revokes(patch) then merged[EPOCH := JInt(EpochOr0(merged) + 1)] else merged)
  }

  /** `update_core`. */
  function Update(env: Env, db: Db, w: Who, k: Key, body: Json, ts: string): Effect {
    if k.col !in db.cols then Refused(NoCollection)
    else if k !in db.records then Refused(NoRecord)
    else
      var col, prior := db.cols[k.col], db.records[k];
      match Gate(env.o, db, w, col.rules.update, k)
      case Some(d) => Refused(Denied(d))
      case None =>
        if !body.JObj? then Refused(NotAnObject)
        else if !BodyOk(col.schema, body.fields, col.isAuth, true) then Refused(InvalidBody)
        else if !RelationsOk(db, col.schema, body.fields) then Refused(DanglingRelation)
        else match (if col.isAuth then PatchRefused(env, db, w, k, prior.data, body.fields) else None)
          case Some(e) => Refused(e)
          case None =>
            match Merge(env, prior.data, body.fields)
            case Err(e) => Refused(e)
            case Ok(merged) =>
              var r := Rec(merged, prior.created, ts);
              Wrote(Put(db, k, r), RecordJson(k, r), Event(UpdateAction, k.col, RecordJson(k, r)))
  }

  /** `delete_core`: the event still carries the whole record. */
  function Delete(env: Env, db: Db, w: Who, k: Key): Effect {
    if k.col !in db.cols then Refused(NoCollection)
    else if k !in db.records then Refused(NoRecord)
    else
      match Gate(env.o, db, w, db.cols[k.col].rules.delete, k)
      case Some(d) => Refused(Denied(d))
      case None =>
        Wrote(db.(records := db.records - {k}), map[], Event(DeleteAction, k.col, RecordJson(k, db.records[k])))
  }

  // ------------------------------------------------------------------ tickets

  /** `take_ticket`: known, unexpired, for this collection and this purpose. */
  predicate Spendable(db: Db, name: string, ty: TicketType, token: string, now: int) {
    token in db.tickets &&
    var t := db.tickets[token];
    t.col == name && t.ty == ty && t.expires > now
  }

  function Burn(db: Db, token: string): Db {
    db.(tickets := db.tickets - {token})
  }

  /** `confirm_password_reset`, inside its transaction. */
  function ConfirmReset(env: Env, db: Db, name: string, token: string, password: Json, now: int, ts: string): Effect {
    if !Spendable(db, name, ResetTicket, token, now) then Refused(BadTicket)
    else
      match Update(env, db, Admin, Key(name, db.tickets[token].record), JObj(map["password" := password]), ts)
      case Refused(e) => Refused(e)
      case Wrote(next, _, event) => Wrote(Burn(next, token), map[], event)
  }

  /** `confirm_verification`: a ticket whose record is gone is still spent, without an event. */
  function ConfirmVerification(db: Db, name: string, token: string, now: int, ts: string)
    : Result<(Db, Option<Event>), Error>
  {
    if !Spendable(db, name, VerifyTicket, token, now) then Err(BadTicket)
    else
      var k := Key(name, db.tickets[token].record);
      if k !in db.records then Ok((Burn(db, token), None))
      else
        var prior := db.records[k];
        var r := Rec(prior.data[VERIFIED := JBool(true)], prior.created, ts);
        Ok((Burn(Put(db, k, r), token), Some(Event(UpdateAction, name, RecordJson(k, r)))))
  }

  /** `request_ticket`: mints one when the address resolves. An address may match several rows
      only if it is held as something other than a string; any one of them may be chosen. */
  function Issue(db: Db, name: string, record: string, ty: TicketType, token: string, now: int): Db {
    db.(tickets := db.tickets[token := Ticket(name, record, ty, now + 3600)])
  }
}
