/**
 * The record cores and the batch transaction as src/records.rs and src/batch.rs run them: step by
 * step on a connection, with early returns, loops and a rollback. Each is proved to do what its
 * specification function says.
 */
module RecordStore {
  import opened Wrappers
  import opened Utf8
  import opened Json
  import opened Sql
  import opened FilterEval
  import opened Rules
  import opened Records
  import opened Batch

  /** The method returned and stored what the specification says. */
  predicate Follows(r: Result<(Object, Event), Error>, before: Db, after: Db, spec: Effect) {
    match spec
    case Refused(e) => r == Err(e) && after == before
    case Wrote(next, response, event) => r == Ok((response, event)) && after == next
  }

  /** The two loops of `validate`. */
  method Validate(schema: seq<Field>, data: Object, isAuth: bool, partial: bool) returns (ok: bool)
    ensures ok == BodyOk(schema, data, isAuth, partial)
  {
    hide KeyFits, RequiredFits;
    var todo := data.Keys;
    while todo != {}
      invariant todo <= data.Keys
      invariant forall name :: name in data && name !in todo ==> KeyFits(schema, isAuth, name, data[name])
      decreases |todo|
    {
      var name :| name in todo;
      if !KeyFits(schema, isAuth, name, data[name]) { return false; }
      todo := todo - {name};
    }
    for i := 0 to |schema|
      invariant forall j :: 0 <= j < i ==> RequiredFits(schema[j], data, partial)
    {
      if !RequiredFits(schema[i], data, partial) { return false; }
    }
    return true;
  }

  /** The loop that lays a patch over the stored document. */
  method LayOver(stored: Object, patch: Object) returns (merged: Object)
    ensures merged == stored + patch
  {
    merged := stored;
    var todo := patch.Keys;
    while todo != {}
      invariant todo <= patch.Keys
      invariant forall k :: k in merged <==> k in stored || (k in patch && k !in todo)
      invariant forall k :: k in merged ==> merged[k] == if k in patch && k !in todo then patch[k] else stored[k]
      decreases |todo|
    {
      var k :| k in todo;
      merged := merged[k := patch[k]];
      todo := todo - {k};
    }
    assert merged.Keys == (stored + patch).Keys;
  }

  /** Some record of the collection has the address. */
  predicate Held(o: Oracles, db: Db, name: string, email: string) {
    exists k :: k in db.records && k.col == name && HasEmail(o, db, k, email)
  }

  class Server {
    var db: Db
    var published: seq<Event>
    const env: Env

    constructor (env: Env, db: Db)
      ensures this.env == env && this.db == db && published == []
    {
      this.env := env;
      this.db := db;
      published := [];
    }

    /** The loop of `check_relations`. */
    method CheckRelations(schema: seq<Field>, data: Object) returns (ok: bool)
      ensures ok == RelationsOk(db, schema, data)
    {
      for i := 0 to |schema|
        invariant forall j :: 0 <= j < i ==> RelationFits(db, schema[j], data)
      {
        if !RelationFits(db, schema[i], data) { return false; }
      }
      return true;
    }

    method CreateCore(w: Who, name: string, body: Json, id: string, ts: string)
      returns (r: Result<(Object, Event), Error>)
      modifies this`db
      ensures Follows(r, old(db), db, Create(env, old(db), w, name, body, id, ts))
    {
      hide EvalRule, BodyOk, RelationsOk, Taken, RecordJson, Encode;
      if name !in db.cols { return Err(NoCollection); }
      var col := db.cols[name];
      if !body.JObj? { return Err(NotAnObject); }
      var data := body.fields;
      match CheckRule(w, col.rules.create) {
        case Err(d) => return Err(Denied(d));
        case Ok(None) =>
        case Ok(Some(expr)) =>
          if !EvalRule(env.o, expr, AuthId(w), data) { return Err(Denied(Deny(w))); }
      }
      var ok := Validate(col.schema, data, col.isAuth, false);
      if !ok { return Err(InvalidBody); }
      ok := CheckRelations(col.schema, data);
      if !ok { return Err(DanglingRelation); }
      if col.isAuth {
        var email := StrOr(Get(data, "email"), "");
        if '@' !in email { return Err(BadEmail); }
        if "password" !in data { return Err(NoPassword); }
        var hashed := HashPassword(env, data);
        if hashed.Err? { return Err(hashed.error); }
        data := hashed.value;
        if Taken(env.o, db, name, email, "") { return Err(EmailTaken); }
        data := data[VERIFIED := JBool(false)];
      }
      var rec := Rec(data, ts, ts);
      db := db.(records := db.records[Key(name, id) := rec]);
      var shown := RecordJson(Key(name, id), rec);
      return Ok((shown, Event(CreateAction, name, shown)));
    }

    method UpdateCore(w: Who, k: Key, body: Json, ts: string) returns (r: Result<(Object, Event), Error>)
      modifies this`db
      ensures Follows(r, old(db), db, Update(env, old(db), w, k, body, ts))
    {
      hide Gate, BodyOk, RelationsOk, Taken, RecordJson, Encode, OldPasswordOk;
      if k.col !in db.cols { return Err(NoCollection); }
      if k !in db.records { return Err(NoRecord); }
      var col, prior := db.cols[k.col], db.records[k];
      var denied := Gate(env.o, db, w, col.rules.update, k);
      if denied.Some? { return Err(Denied(denied.value)); }
      if !body.JObj? { return Err(NotAnObject); }
      var patch := body.fields;
      var ok := Validate(col.schema, patch, col.isAuth, true);
      if !ok { return Err(InvalidBody); }
      ok := CheckRelations(col.schema, patch);
      if !ok { return Err(DanglingRelation); }
      if col.isAuth {
        var email := Get(patch, "email");
        if email.JStr? {
          if '@' !in email.s { return Err(BadEmail); }
          if Taken(env.o, db, k.col, email.s, k.id) { return Err(EmailTaken); }
        }
        if "password" in patch && !w.Admin? {
          if !OldPasswordOk(env, prior.data, patch) { return Err(OldPasswordMismatch); }
        }
      }
      var revoke := Get(patch, "revokeTokens") == JBool(true);
      var rotated := "password" in patch;
      var merged := LayOver(prior.data, patch);
      merged := merged - {"oldPassword"};
      merged := merged - {"revokeTokens"};
      assert merged == (prior.data + patch) - {"oldPassword", "revokeTokens"};
      var hashed := HashPassword(env, merged);
      if hashed.Err? { return Err(hashed.error); }
      merged := hashed.value;
      if revoke || rotated {
        var epoch := EpochOr0(merged);
        merged := merged[EPOCH := JInt(epoch + 1)];
      }
      var rec := Rec(merged, prior.created, ts);
      db := db.(records := db.records[k := rec]);
      var shown := RecordJson(k, rec);
      return Ok((shown, Event(UpdateAction, k.col, shown)));
    }

    method DeleteCore(w: Who, k: Key) returns (r: Result<(Object, Event), Error>)
      modifies this`db
      ensures Follows(r, old(db), db, Delete(env, old(db), w, k))
    {
      hide Gate, RecordJson;
      if k.col !in db.cols { return Err(NoCollection); }
      if k !in db.records { return Err(NoRecord); }
      var rec := db.records[k];
      var denied := Gate(env.o, db, w, db.cols[k.col].rules.delete, k);
      if denied.Some? { return Err(Denied(denied.value)); }
      db := db.(records := db.records - {k});
      return Ok((map[], Event(DeleteAction, k.col, RecordJson(k, rec))));
    }

    /** `one`. */
    method OneCall(w: Who, req: Json, tick: Tick) returns (r: Result<(Object, Event), Error>)
      modifies this`db
      ensures Follows(r, old(db), db, One(env, old(db), w, req, tick))
    {
      hide Create, Update, Delete, ParseUrl;
      var verb, url := Member(req, "method"), Member(req, "url");
      if !verb.JStr? || !url.JStr? { return Err(BadCall); }
      var target := ParseUrl(url.s);
      if target.None? { return Err(BadCall); }
      var (col, id) := target.value;
      var body := Member(req, "body");
      if verb.s == "POST" && id.None? {
        r := CreateCore(w, col, body, tick.id, tick.ts);
      } else if verb.s == "PATCH" && id.Some? {
        r := UpdateCore(w, Key(col, id.value), body, tick.ts);
      } else if verb.s == "DELETE" && id.Some? {
        r := DeleteCore(w, Key(col, id.value));
      } else {
        r := Err(BadCall);
      }
    }

    /** `batch`: guests are turned away, then anything but an array of at most 50 requests. */
    method HandleBatch(w: Who, body: Json, ticks: seq<Tick>) returns (r: BatchReply)
      requires Member(body, "requests").JArr? ==> |ticks| == |Member(body, "requests").items|
      modifies this
      ensures r == BatchReplyOf(env, old(db), w, body, ticks)
      ensures World(db, published) ==
              if r.Results?
              then BatchWorld(env, World(old(db), old(published)), w, Member(body, "requests").items, ticks)
              else World(old(db), old(published))
    {
      hide Fold, One;
      if w.Guest? { return AuthRequired; }
      var reqs := Member(body, "requests");
      if !reqs.JArr? { return NotAnArray; }
      if |reqs.items| > MAX_BATCH { return TooMany; }
      var done := RunBatch(w, reqs.items, ticks);
      match done
      case Ok(results) => return Results(results);
      case Err((i, e)) => return AtIndex(i, e);
    }

    /** `batch` once its caller and its request list are known: the transaction works on the
        connection, a failure rolls it back, and events leave only after the commit. */
    method RunBatch(w: Who, reqs: seq<Json>, ticks: seq<Tick>) returns (r: Result<seq<Object>, (nat, Error)>)
      requires |reqs| == |ticks|
      modifies this
      ensures match Fold(env, old(db), w, reqs, ticks, |reqs|)
              case Failed(i, e) => r == Err((i, e)) && db == old(db) && published == old(published)
              case Running(next, results, events) =>
                r == Ok(results) && db == next && published == old(published) + events
    {
      hide One;
      var rollback := db;
      ghost var sent := published;
      var results: seq<Object> := [];
      var events: seq<Event> := [];
      for i := 0 to |reqs|
        invariant published == sent
        invariant Fold(env, rollback, w, reqs, ticks, i) == Running(db, results, events)
      {
        var one := OneCall(w, reqs[i], ticks[i]);
        if one.Err? {
          FailedStays(env, rollback, w, reqs, ticks, i + 1, |reqs|);
          db := rollback;
          return Err((i, one.error));
        }
        results := results + [one.value.0];
        events := events + [one.value.1];
      }
      for i := 0 to |events|
        invariant published == sent + events[..i]
        invariant Fold(env, rollback, w, reqs, ticks, |reqs|) == Running(db, results, events)
      {
        published := published + [events[i]];
      }
      return Ok(results);
    }

    // ---------------------------------------------------------------- tickets

    /** `request_ticket`: mints one for a record at the address, if there is one, and looks the same
        to the caller either way. */
    method RequestTicket(name: string, email: string, ty: TicketType, token: string, now: int)
      modifies this`db
      ensures if name in old(db).cols && old(db).cols[name].isAuth && Held(env.o, old(db), name, email)
              then exists k :: k in old(db).records && k.col == name && HasEmail(env.o, old(db), k, email) &&
                     db == Issue(old(db), name, k.id, ty, token, now)
              else db == old(db)
    {
      hide Issue;
      if name !in db.cols || !db.cols[name].isAuth { return; }
      if k :| k in db.records && k.col == name && HasEmail(env.o, db, k, email) {
        db := Issue(db, name, k.id, ty, token, now);
      }
    }

    /** `take_ticket`: looks without spending. */
    method TakeTicket(name: string, ty: TicketType, token: string, now: int) returns (r: Result<string, Error>)
      ensures r == if Spendable(db, name, ty, token, now) then Ok(db.tickets[token].record) else Err(BadTicket)
    {
      if token !in db.tickets { return Err(BadTicket); }
      var t := db.tickets[token];
      if t.col != name || t.ty != ty || t.expires <= now { return Err(BadTicket); }
      return Ok(t.record);
    }

    /** The change and the burn commit together or not at all; the event leaves after the commit. */
    method ConfirmPasswordReset(name: string, token: string, password: Json, now: int, ts: string)
      returns (r: Result<(), Error>)
      modifies this
      ensures match ConfirmReset(env, old(db), name, token, password, now, ts)
              case Refused(e) => r == Err(e) && db == old(db) && published == old(published)
              case Wrote(next, _, event) => r == Ok(()) && db == next && published == old(published) + [event]
    {
      hide Update;
      var rollback := db;
      var id := TakeTicket(name, ResetTicket, token, now);
      if id.Err? { return Err(id.error); }
      var done := UpdateCore(Admin, Key(name, id.value), JObj(map["password" := password]), ts);
      if done.Err? {
        db := rollback;
        return Err(done.error);
      }
      db := db.(tickets := db.tickets - {token});
      published := published + [done.value.1];
      return Ok(());
    }

    /** `confirm_verification`. */
    method ConfirmAddress(name: string, token: string, now: int, ts: string) returns (r: Result<(), Error>)
      modifies this
      ensures match ConfirmVerification(old(db), name, token, now, ts)
              case Err(e) => r == Err(e) && db == old(db) && published == old(published)
              case Ok((next, None)) => r == Ok(()) && db == next && published == old(published)
              case Ok((next, Some(event))) => r == Ok(()) && db == next && published == old(published) + [event]
    {
      hide RecordJson;
      var id := TakeTicket(name, VerifyTicket, token, now);
      if id.Err? { return Err(id.error); }
      var k := Key(name, id.value);
      if k in db.records {
        var rec := db.records[k];
        db := db.(records := db.records[k := rec.(data := rec.data[VERIFIED := JBool(true)], updated := ts)]);
      }
      db := db.(tickets := db.tickets - {token});
      if k in db.records {
        published := published + [Event(UpdateAction, name, RecordJson(k, db.records[k]))];
      }
      return Ok(());
    }
  }

  /** Once a prefix has failed, every longer prefix fails the same way. */
  lemma {:induction false} FailedStays(env: Env, db: Db, w: Who, reqs: seq<Json>, ticks: seq<Tick>, i: nat, n: nat)
    requires i <= n <= |reqs| && |reqs| == |ticks| && Fold(env, db, w, reqs, ticks, i).Failed?
    ensures Fold(env, db, w, reqs, ticks, n) == Fold(env, db, w, reqs, ticks, i)
    decreases n
  {
    hide One;
    if i < n {
      FailedStays(env, db, w, reqs, ticks, i, n - 1);
    }
  }
}
