/**
 * Access control over whole requests: which records a caller can change, by any sub-request of any
 * batch, and what the default rules amount to.
 */
module Access {
  import opened Wrappers
  import opened Utf8
  import opened FilterTree
  import opened FilterParser
  import opened Json
  import opened Sql
  import opened FilterSql
  import opened FilterEval
  import opened Rules
  import opened Records
  import opened Batch
  import opened Documents
  import opened RecordInvariants
  import opened Runs
  import opened Sessions

  /** The record at `k` is not the same in both databases: added, changed or removed. */
  predicate Differs(a: Db, b: Db, k: Key) {
    (k in a.records) != (k in b.records) || (k in a.records && a.records[k] != b.records[k])
  }

  /** The collection's rules let the caller make this change: the update or delete rule holds of the
      row as it was, the create rule of the document as it was sent. */
  predicate Permitted(o: Oracles, w: Who, a: Db, b: Db, k: Key, sent: Json) {
    && k.col in a.cols
    && var rules := a.cols[k.col].rules;
       if k !in a.records then sent.JObj? && Grants(o, w, rules.create, sent.fields)
       else MayTouch(o, w, if k in b.records then rules.update else rules.delete, RowOf(k, a.records[k]))
  }

  /** A sub-request changes one record at most, and only with permission; collections and tickets are
      out of its reach. */
  lemma OneIsPermitted(env: Env, db: Db, w: Who, req: Json, tick: Tick, j: Key, k: Key)
    requires One(env, db, w, req, tick).Wrote?
    ensures var next := One(env, db, w, req, tick).db;
            && next.cols == db.cols && next.tickets == db.tickets
            && (Differs(db, next, j) && Differs(db, next, k) ==> j == k)
            && ((forall i :: i in db.records ==> i.id != tick.id) && Differs(db, next, k) ==>
                  Permitted(env.o, w, db, next, k, Member(req, "body")))
  {
    hide Create, Update, Delete, MayTouch, Grants, ParseUrl;
    var (col, id) := ParseUrl(Member(req, "url").s).value;
    if id.None? {
      CreateChanges(env, db, w, col, Member(req, "body"), tick.id, tick.ts);
    } else if Member(req, "method") == JStr("PATCH") {
      UpdateChanges(env, db, w, Key(col, id.value), Member(req, "body"), tick.ts);
    } else {
      DeleteChanges(env, db, w, Key(col, id.value));
    }
  }

  lemma CreateChanges(env: Env, db: Db, w: Who, name: string, body: Json, id: string, ts: string)
    requires Create(env, db, w, name, body, id, ts).Wrote?
    ensures var next := Create(env, db, w, name, body, id, ts).db;
            && next.cols == db.cols && next.tickets == db.tickets
            && name in db.cols && body.JObj? && Grants(env.o, w, db.cols[name].rules.create, body.fields)
            && Key(name, id) in next.records
            && forall k :: k != Key(name, id) ==> !Differs(db, next, k)
  {
    hide RecordJson, BodyOk, RelationsOk, SignUp, CreateAllowed, Grants;
    CreateRuleExactly(env.o, w, db.cols[name].rules.create, body.fields);
  }

  lemma UpdateChanges(env: Env, db: Db, w: Who, k: Key, body: Json, ts: string)
    requires Update(env, db, w, k, body, ts).Wrote?
    ensures var next := Update(env, db, w, k, body, ts).db;
            && next.cols == db.cols && next.tickets == db.tickets
            && k in db.records && k in next.records && k.col in db.cols
            && MayTouch(env.o, w, db.cols[k.col].rules.update, RowOf(k, db.records[k]))
            && forall j :: j != k ==> !Differs(db, next, j)
  {
    hide RecordJson, BodyOk, RelationsOk, PatchRefused, Merge, Gate, MayTouch;
    DeniedExactly(env.o, db, w, db.cols[k.col].rules.update, k);
  }

  lemma DeleteChanges(env: Env, db: Db, w: Who, k: Key)
    requires Delete(env, db, w, k).Wrote?
    ensures var next := Delete(env, db, w, k).db;
            && next.cols == db.cols && next.tickets == db.tickets
            && k in db.records && k !in next.records && k.col in db.cols
            && MayTouch(env.o, w, db.cols[k.col].rules.delete, RowOf(k, db.records[k]))
            && forall j :: j != k ==> !Differs(db, next, j)
  {
    hide RecordJson, Gate, MayTouch;
    DeniedExactly(env.o, db, w, db.cols[k.col].rules.delete, k);
  }

  /** The database after the first `n` requests of a batch that has not failed so far. */
  function After(env: Env, db: Db, w: Who, reqs: seq<Json>, ticks: seq<Tick>, n: nat): Db
    requires n <= |reqs| && |reqs| == |ticks| && Fold(env, db, w, reqs, ticks, n).Running?
  {
    Fold(env, db, w, reqs, ticks, n).db
  }

  /** Request `i` of the batch changed `k`, and was permitted to. */
  ghost predicate ChangedBy(env: Env, db: Db, w: Who, reqs: seq<Json>, ticks: seq<Tick>, i: nat, k: Key)
    requires |reqs| == |ticks|
  {
    && i < |reqs|
    && Fold(env, db, w, reqs, ticks, i).Running? && Fold(env, db, w, reqs, ticks, i + 1).Running?
    && var (a, b) := (After(env, db, w, reqs, ticks, i), After(env, db, w, reqs, ticks, i + 1));
       Differs(a, b, k) && Permitted(env.o, w, a, b, k, Member(reqs[i], "body"))
  }

  /** A batch can never do what a standalone request would be refused: each record that differs after
      it was changed by one of its requests, permitted by the rules on the database that request met;
      and no batch touches a collection or a ticket. */
  lemma {:induction false} BatchIsPermitted(env: Env, db: Db, w: Who, reqs: seq<Json>, ticks: seq<Tick>, n: nat, k: Key)
    requires n <= |reqs| && |reqs| == |ticks| && Fold(env, db, w, reqs, ticks, n).Running?
    requires forall i, j | 0 <= i < n && i != j && 0 <= j < n :: ticks[i].id != ticks[j].id
    requires forall i, j | 0 <= i < n && j in db.records :: j.id != ticks[i].id
    ensures After(env, db, w, reqs, ticks, n).cols == db.cols && After(env, db, w, reqs, ticks, n).tickets == db.tickets
    ensures forall j :: j in After(env, db, w, reqs, ticks, n).records ==>
              j in db.records || exists i :: 0 <= i < n && ticks[i].id == j.id
    ensures Differs(db, After(env, db, w, reqs, ticks, n), k) ==>
              exists i :: 0 <= i < n && ChangedBy(env, db, w, reqs, ticks, i, k)
  {
    hide One, Permitted, MayTouch, Grants;
    if n > 0 {
      BatchIsPermitted(env, db, w, reqs, ticks, n - 1, k);
      var a, b := After(env, db, w, reqs, ticks, n - 1), After(env, db, w, reqs, ticks, n);
      forall j
        ensures j in b.records && j !in a.records ==> j.id == ticks[n - 1].id
      {
        OneAdds(env, a, w, reqs[n - 1], ticks[n - 1], j);
      }
      OneIsPermitted(env, a, w, reqs[n - 1], ticks[n - 1], k, k);
      assert forall i :: i in a.records ==> i.id != ticks[n - 1].id;
      if Differs(a, b, k) {
        assert ChangedBy(env, db, w, reqs, ticks, n - 1, k);
      }
    }
  }

  lemma OneAdds(env: Env, db: Db, w: Who, req: Json, tick: Tick, j: Key)
    requires One(env, db, w, req, tick).Wrote?
    ensures j in One(env, db, w, req, tick).db.records && j !in db.records ==> j.id == tick.id
  {
    hide Create, Update, Delete, MayTouch, Grants, ParseUrl;
    assert j in One(env, db, w, req, tick).db.records && j !in db.records ==>
             Differs(db, One(env, db, w, req, tick).db, j);
    var (col, id) := ParseUrl(Member(req, "url").s).value;
    if id.None? {
      CreateChanges(env, db, w, col, Member(req, "body"), tick.id, tick.ts);
    } else if Member(req, "method") == JStr("PATCH") {
      UpdateChanges(env, db, w, Key(col, id.value), Member(req, "body"), tick.ts);
    } else {
      DeleteChanges(env, db, w, Key(col, id.value));
    }
  }

  // ------------------------------------------------------------------ the default rules

  /** The default update and delete rule of an auth collection: the caller's own record, and no
      other. */
  lemma OwnRuleMeans(o: Oracles, w: Who, row: Row)
    ensures MayTouch(o, w, Some("id = @request.auth.id"), row) <==>
            w.Admin? || row.id == if w.User? then w.id else ""
  {
    hide Parse;
    DefaultsParse(o);
  }

  /** The default write rules of a base collection: anyone who is signed in. */
  lemma AuthedRuleMeans(o: Oracles, w: Who, row: Row)
    ensures MayTouch(o, w, Some("@request.auth.id != ''"), row) <==> w.Admin? || (w.User? && w.id != "")
  {
    hide Parse;
    DefaultsParse(o);
  }

  /** The default create rule of a base collection: nobody who is not signed in, whatever they send. */
  lemma GuestsCreateNothing(env: Env, db: Db, w: Who, name: string, body: Json, id: string, ts: string)
    requires name in db.cols && db.cols[name].rules.create == Some("@request.auth.id != ''")
    ensures w.Guest? && body.JObj? ==> Create(env, db, w, name, body, id, ts) == Refused(Denied(Unauthorized))
    ensures body.JObj? ==>
              (Create(env, db, w, name, body, id, ts) == Refused(DeniedTo(w)) <==>
               !w.Admin? && !(w.User? && w.id != ""))
  {
    hide Parse, BodyOk, RelationsOk, SignUp, RecordJson, CreateAllowed;
    DefaultsParse(env.o);
    if body.JObj? {
      AuthedMeans(env.o, w, body.fields);
      CreateRuleExactly(env.o, w, Some(AUTHED), body.fields);
      SignUpNotDenied(env, db, name, body.fields);
    }
  }

  lemma AuthedMeans(o: Oracles, w: Who, sent: Object)
    ensures Grants(o, w, Some("@request.auth.id != ''"), sent) <==> w.Admin? || (w.User? && w.id != "")
  {
    hide Parse;
    DefaultsParse(o);
  }

  lemma SignUpNotDenied(env: Env, db: Db, name: string, data: Object)
    ensures SignUp(env, db, name, data).Err? ==> !SignUp(env, db, name, data).error.Denied?
  {
    hide Taken, Encode;
  }

  /** A caller as the server resolves one: a user is the holder of a record that is there. */
  predicate Identified(db: Db, w: Who) {
    w.User? ==> Key(w.col, w.id) in db.records
  }

  /** An accepted token identifies its caller. */
  lemma AcceptedIdentifies(db: Db, t: Claims)
    ensures FromJwt(db, t).Some? ==> Identified(db, FromJwt(db, t).value)
  {
  }

  /** In every good state, the default auth rule passes the admin and the very holder of the record:
      nobody of another collection, and no guest. */
  lemma OwnRecordOnly(o: Oracles, db: Db, w: Who, k: Key)
    requires Inv(o, db) && Identified(db, w) && k in db.records
    ensures MayTouch(o, w, Some("id = @request.auth.id"), RowOf(k, db.records[k])) <==>
            w.Admin? || w == User(k.col, k.id)
  {
    hide MayTouch, CollOk, DataOk, UniqueEmails;
    OwnRuleMeans(o, w, RowOf(k, db.records[k]));
    OneById(o, db, k);
  }

  lemma {:induction false} OwnIdOnly(env: Env, db: Db, w: Who, reqs: seq<Json>, ticks: seq<Tick>, n: nat, k: Key)
    requires n <= |reqs| && |reqs| == |ticks| && Fold(env, db, w, reqs, ticks, n).Running? && !w.Admin?
    requires forall i, j | 0 <= i < n && i != j && 0 <= j < n :: ticks[i].id != ticks[j].id
    requires forall i, j | 0 <= i < n && j in db.records :: j.id != ticks[i].id
    requires k in db.records && k.col in db.cols && db.cols[k.col].rules == Defaults(true)
    requires Differs(db, After(env, db, w, reqs, ticks, n), k)
    ensures k.id == AuthId(w)
  {
    hide One, MayTouch, Grants;
    BatchIsPermitted(env, db, w, reqs, ticks, n - 1, k);
    var a, b := After(env, db, w, reqs, ticks, n - 1), After(env, db, w, reqs, ticks, n);
    if Differs(db, a, k) {
      OwnIdOnly(env, db, w, reqs, ticks, n - 1, k);
    } else {
      OneIsPermitted(env, a, w, reqs[n - 1], ticks[n - 1], k, k);
      assert forall i :: i in a.records ==> i.id != ticks[n - 1].id;
      OwnRuleMeans(env.o, w, RowOf(k, a.records[k]));
    }
  }

  /** Who sends a record request; no record request is sent by the other steps. */
  function SenderOf(step: Step): Option<Who> {
    match step
    case CreateStep(w, _, _, _, _) => Some(w)
    case UpdateStep(w, _, _, _) => Some(w)
    case DeleteStep(w, _) => Some(w)
    case BatchStep(w, _, _) => Some(w)
    case _ => None
  }

  /** In every reachable state, under the default rules of an auth collection, an account that a
      create, an update, a delete or a whole batch changes is the sender's own, unless the sender is
      the admin. In particular a guest changes none. */
  lemma AccountsAreSafe(env: Env, steps: seq<Step>, step: Step, w: Who, k: Key)
    requires LegalRun(env, Init(), steps) && Legal(RunAll(env, Init(), steps), step)
    requires SenderOf(step) == Some(w) && !w.Admin? && Identified(RunAll(env, Init(), steps).db, w)
    requires var db := RunAll(env, Init(), steps).db;
             && k in db.records && k.col in db.cols && db.cols[k.col].rules == Defaults(true)
             && Differs(db, Apply(env, RunAll(env, Init(), steps), step).db, k)
    ensures w == User(k.col, k.id)
  {
    hide RunAll, LegalRun, Legal, Inv, Defaults, Apply, Differs;
    var s := RunAll(env, Init(), steps);
    InitOk(env.o);
    RunKeeps(env, Init(), steps);
    SenderOwns(env, s, step, w, k);
    HolderIs(env.o, s.db, w, k);
  }

  lemma HolderIs(o: Oracles, db: Db, w: Who, k: Key)
    requires Inv(o, db) && k in db.records && Identified(db, w) && !w.Admin? && k.id == AuthId(w)
    ensures w == User(k.col, k.id)
  {
    hide CollOk, DataOk, UniqueEmails;
    OneById(o, db, k);
  }

  lemma SenderOwns(env: Env, s: State, step: Step, w: Who, k: Key)
    requires StateOk(env.o, s) && Legal(s, step) && SenderOf(step) == Some(w) && !w.Admin?
    requires k in s.db.records && k.col in s.db.cols && s.db.cols[k.col].rules == Defaults(true)
    requires Differs(s.db, Apply(env, s, step).db, k)
    ensures k.id == AuthId(w)
  {
    hide Inv, Create, Update, Delete, Fold, MayTouch, Grants;
    match step {
      case CreateStep(_, name, body, id, ts) =>
        if Create(env, s.db, w, name, body, id, ts).Wrote? {
          CreateChanges(env, s.db, w, name, body, id, ts);
        }
      case UpdateStep(_, j, body, ts) =>
        if Update(env, s.db, w, j, body, ts).Wrote? {
          UpdateChanges(env, s.db, w, j, body, ts);
          OwnRuleMeans(env.o, w, RowOf(k, s.db.records[k]));
        }
      case DeleteStep(_, j) =>
        if Delete(env, s.db, w, j).Wrote? {
          DeleteChanges(env, s.db, w, j);
          OwnRuleMeans(env.o, w, RowOf(k, s.db.records[k]));
        }
      case BatchStep(_, reqs, ticks) =>
        if Fold(env, s.db, w, reqs, ticks, |reqs|).Running? {
          BatchOwns(env, s, w, reqs, ticks, k);
        }
    }
  }

  lemma BatchOwns(env: Env, s: State, w: Who, reqs: seq<Json>, ticks: seq<Tick>, k: Key)
    requires StateOk(env.o, s) && |reqs| == |ticks| && FreshTicks(ticks, s.used) && !w.Admin?
    requires Fold(env, s.db, w, reqs, ticks, |reqs|).Running?
    requires k in s.db.records && k.col in s.db.cols && s.db.cols[k.col].rules == Defaults(true)
    requires Differs(s.db, After(env, s.db, w, reqs, ticks, |reqs|), k)
    ensures k.id == AuthId(w)
  {
    hide Inv, Fold, Defaults;
    assert forall i | 0 <= i < |ticks| :: ticks[i] in ticks;
    OwnIdOnly(env, s.db, w, reqs, ticks, |reqs|, k);
  }
}
