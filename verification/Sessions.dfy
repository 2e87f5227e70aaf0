/**
 * Bearer tokens and revocation (src/auth.rs). A token carries the epoch its record had when it was
 * minted; it is accepted exactly as long as the record exists and no revocation has hit it since.
 */
module Sessions {
  import opened Wrappers
  import opened Json
  import opened Rules
  import opened Records
  import opened Collections
  import opened Batch
  import opened RecordInvariants
  import opened Runs

  /** The claims of a token whose signature and expiry the library has already checked. */
  datatype Claims = Claims(col: string, sub: string, epoch: int)

  function Holder(t: Claims): Key {
    Key(t.col, t.sub)
  }

  /** `from_jwt`: no row, an unreadable epoch and a stale epoch all resolve to no identity. */
  function FromJwt(db: Db, t: Claims): Option<Who> {
    if Holder(t) in db.records && TokenEpoch(db.records[Holder(t)].data) == Some(t.epoch)
    then Some(User(t.col, t.sub)) else None
  }

  predicate Accepted(db: Db, t: Claims) {
    FromJwt(db, t).Some?
  }

  /** `make_token` on the current epoch, as login and refresh call it. */
  function Mint(db: Db, k: Key): Option<Claims> {
    if k !in db.records then None
    else match TokenEpoch(db.records[k].data)
      case None => None
      case Some(epoch) => Some(Claims(k.col, k.id, epoch))
  }

  /** `auth_refresh`: only a token of this very collection, and never for an admin. */
  function Refresh(db: Db, name: string, t: Claims): Option<Claims> {
    match FromJwt(db, t)
    case Some(User(col, id)) => if col == name then Mint(db, Key(col, id)) else None
    case _ => None
  }

  // ------------------------------------------------------------------ what revokes

  /** The record a batch request patches, if it does. */
  predicate Patches(req: Json, k: Key) {
    && Member(req, "method") == JStr("PATCH")
    && Member(req, "url").JStr?
    && ParseUrl(Member(req, "url").s) == Some((k.col, Some(k.id)))
  }

  function BodyHits(body: Json): nat {
    if body.JObj? && Revokes(body.fields) then 1 else 0
  }

  function BatchHits(reqs: seq<Json>, n: nat, k: Key): nat
    requires n <= |reqs|
  {
    if n == 0 then 0
    else BatchHits(reqs, n - 1, k) + if Patches(reqs[n - 1], k) then BodyHits(Member(reqs[n - 1], "body")) else 0
  }

  /** How many times a step revokes the tokens of `k`: a successful update with `revokeTokens` or a
      new password, alone or in a committed batch, or a successful reset. */
  function StepHits(env: Env, s: State, step: Step, k: Key): nat {
    match step
    case UpdateStep(w, j, body, ts) =>
      if j == k && Update(env, s.db, w, j, body, ts).Wrote? then BodyHits(body) else 0
    case ResetStep(name, token, password, now, ts) =>
      if ConfirmReset(env, s.db, name, token, password, now, ts).Wrote? && Key(name, s.db.tickets[token].record) == k
      then 1 else 0
    case BatchStep(w, reqs, ticks) =>
      if |reqs| == |ticks| && Fold(env, s.db, w, reqs, ticks, |reqs|).Running? then BatchHits(reqs, |reqs|, k) else 0
    case _ => 0
  }

  function RunHits(env: Env, s: State, steps: seq<Step>, k: Key): nat
    requires LegalRun(env, s, steps)
    decreases |steps|
  {
    if steps == [] then 0
    else StepHits(env, s, steps[0], k) + RunHits(env, Apply(env, s, steps[0]), steps[1..], k)
  }

  // ------------------------------------------------------------------ the epoch counts them

  /** The request leaves `k` in place and counts it. */
  lemma OneCounts(env: Env, db: Db, used: set<string>, w: Who, req: Json, tick: Tick, k: Key)
    requires Inv(env.o, db) && Known(db, used) && tick.id !in used && tick.id != ""
    requires k in db.records && One(env, db, w, req, tick).Wrote? && k in One(env, db, w, req, tick).db.records
    ensures EpochAt(One(env, db, w, req, tick).db, k) ==
            EpochAt(db, k) + if Patches(req, k) then BodyHits(Member(req, "body")) else 0
  {
    hide Inv, Evolves, ParseUrl, EpochAt, Create, Update, Delete;
    var (col, id) := ParseUrl(Member(req, "url").s).value;
    if id.None? {
      CreateElsewhere(env, db, w, col, Member(req, "body"), tick.id, tick.ts, k);
    } else if Member(req, "method") == JStr("PATCH") {
      UpdateKeeps(env, db, used, w, Key(col, id.value), Member(req, "body"), tick.ts);
      UpdateElsewhere(env, db, w, Key(col, id.value), Member(req, "body"), tick.ts, k);
    } else {
      DeleteElsewhere(env, db, w, Key(col, id.value), k);
    }
  }

  lemma CreateElsewhere(env: Env, db: Db, w: Who, name: string, body: Json, id: string, ts: string, k: Key)
    requires k in db.records && Create(env, db, w, name, body, id, ts).Wrote? && k != Key(name, id)
    ensures k in Create(env, db, w, name, body, id, ts).db.records
    ensures EpochAt(Create(env, db, w, name, body, id, ts).db, k) == EpochAt(db, k)
  {
    hide CreateAllowed, RelationsOk, BodyOk, SignUp, RecordJson;
  }

  lemma UpdateElsewhere(env: Env, db: Db, w: Who, j: Key, body: Json, ts: string, k: Key)
    requires k in db.records && Update(env, db, w, j, body, ts).Wrote?
    ensures k in Update(env, db, w, j, body, ts).db.records
    ensures k != j ==> EpochAt(Update(env, db, w, j, body, ts).db, k) == EpochAt(db, k)
  {
    hide Gate, RelationsOk, BodyOk, PatchRefused, Merge, RecordJson;
  }

  lemma DeleteElsewhere(env: Env, db: Db, w: Who, j: Key, k: Key)
    requires k in db.records && Delete(env, db, w, j).Wrote? && k in Delete(env, db, w, j).db.records
    ensures EpochAt(Delete(env, db, w, j).db, k) == EpochAt(db, k)
  {
    hide Gate, RecordJson;
  }

  lemma {:induction false} FoldCounts(
      env: Env, db: Db, used: set<string>, w: Who, reqs: seq<Json>, ticks: seq<Tick>, n: nat, k: Key)
    requires Inv(env.o, db) && Known(db, used) && n <= |reqs| && |reqs| == |ticks| && FreshTicks(ticks, used)
    requires Fold(env, db, w, reqs, ticks, n).Running? && k in db.records
    requires k in Fold(env, db, w, reqs, ticks, n).db.records
    ensures EpochAt(Fold(env, db, w, reqs, ticks, n).db, k) == EpochAt(db, k) + BatchHits(reqs, n, k)
    decreases n
  {
    hide Inv, EpochAt, One, Patches, BodyHits;
    if n > 0 {
      var p := Fold(env, db, w, reqs, ticks, n - 1);
      var u, tick := used + Ids(ticks[..n - 1]), ticks[n - 1];
      FoldKeeps(env, db, used, w, reqs, ticks, n - 1);
      FreshTick(ticks, used, n);
      OneKeeps(env, p.db, u, w, reqs[n - 1], tick);
      assert k in p.db.records;
      FoldCounts(env, db, used, w, reqs, ticks, n - 1, k);
      OneCounts(env, p.db, u, w, reqs[n - 1], tick, k);
    }
  }

  /** A step moves the epoch of a record that survives it by exactly the number of revocations. */
  lemma StepCounts(env: Env, s: State, step: Step, k: Key)
    requires StateOk(env.o, s) && Legal(s, step)
    requires k in s.db.records && k in Apply(env, s, step).db.records
    ensures EpochAt(Apply(env, s, step).db, k) == EpochAt(s.db, k) + StepHits(env, s, step, k)
  {
    hide Inv, EpochAt, Create, Update, Delete, ConfirmReset, ConfirmVerification, AddCollection, EditCollection,
      DropCollection, FreshTicks;
    match step {
      case CreateStep(w, name, body, id, ts) =>
        if Create(env, s.db, w, name, body, id, ts).Wrote? {
          CreateElsewhere(env, s.db, w, name, body, id, ts, k);
        }
      case UpdateStep(w, j, body, ts) =>
        if Update(env, s.db, w, j, body, ts).Wrote? {
          UpdateKeeps(env, s.db, s.used, w, j, body, ts);
          UpdateElsewhere(env, s.db, w, j, body, ts, k);
        }
      case DeleteStep(w, j) =>
        if Delete(env, s.db, w, j).Wrote? {
          DeleteElsewhere(env, s.db, w, j, k);
        }
      case BatchStep(w, reqs, ticks) =>
        if Fold(env, s.db, w, reqs, ticks, |reqs|).Running? {
          FoldCounts(env, s.db, s.used, w, reqs, ticks, |reqs|, k);
        }
      case ResetStep(name, token, password, now, ts) =>
        if ConfirmReset(env, s.db, name, token, password, now, ts).Wrote? {
          ResetCounts(env, s.db, s.used, name, token, password, now, ts, k);
        }
      case VerifyStep(name, token, now, ts) =>
        if ConfirmVerification(s.db, name, token, now, ts).Ok? {
          VerifyCounts(s.db, name, token, now, ts, k);
        }
      case _ =>
        QuietCounts(env, s, step, k);
    }
  }

  lemma ResetCounts(
      env: Env, db: Db, used: set<string>, name: string, token: string, password: Json, now: int, ts: string, k: Key)
    requires Inv(env.o, db) && Known(db, used) && k in db.records
    requires ConfirmReset(env, db, name, token, password, now, ts).Wrote?
    ensures k in ConfirmReset(env, db, name, token, password, now, ts).db.records
    ensures EpochAt(ConfirmReset(env, db, name, token, password, now, ts).db, k) ==
            EpochAt(db, k) + if Key(name, db.tickets[token].record) == k then 1 else 0
  {
    hide Inv, Update;
    var j, body := Key(name, db.tickets[token].record), JObj(map["password" := password]);
    UpdateKeeps(env, db, used, Admin, j, body, ts);
    UpdateElsewhere(env, db, Admin, j, body, ts, k);
  }

  lemma VerifyCounts(db: Db, name: string, token: string, now: int, ts: string, k: Key)
    requires k in db.records && ConfirmVerification(db, name, token, now, ts).Ok?
    ensures k in ConfirmVerification(db, name, token, now, ts).value.0.records
    ensures EpochAt(ConfirmVerification(db, name, token, now, ts).value.0, k) == EpochAt(db, k)
  {
    hide RecordJson;
  }

  lemma QuietCounts(env: Env, s: State, step: Step, k: Key)
    requires step.AddStep? || step.EditStep? || step.DropStep? || step.IssueStep?
    requires k in s.db.records && k in Apply(env, s, step).db.records
    ensures EpochAt(Apply(env, s, step).db, k) == EpochAt(s.db, k)
  {
    hide ReadRules, SchemaIn;
  }

  /** Over a whole run, the epoch of a record that is still there counts its revocations. */
  lemma {:induction false} RunCounts(env: Env, s: State, steps: seq<Step>, k: Key)
    requires StateOk(env.o, s) && LegalRun(env, s, steps)
    requires k in s.db.records && k in RunAll(env, s, steps).db.records
    ensures EpochAt(RunAll(env, s, steps).db, k) == EpochAt(s.db, k) + RunHits(env, s, steps, k)
    decreases |steps|
  {
    hide Inv, EpochAt, Apply, StepHits;
    if steps != [] {
      var m := Apply(env, s, steps[0]);
      StepKeeps(env, s, steps[0]);
      RunKeeps(env, m, steps[1..]);
      assert k in m.db.records;
      StepCounts(env, s, steps[0], k);
      RunCounts(env, m, steps[1..], k);
    }
  }

  // ------------------------------------------------------------------ tokens

  /** A token minted in a good state is accepted after any run exactly when its record is still
      there and nothing in the run revoked it. */
  lemma AcceptedExactly(env: Env, s: State, steps: seq<Step>, t: Claims)
    requires StateOk(env.o, s) && LegalRun(env, s, steps) && Mint(s.db, Holder(t)) == Some(t)
    ensures Accepted(RunAll(env, s, steps).db, t) <==>
            Holder(t) in RunAll(env, s, steps).db.records && RunHits(env, s, steps, Holder(t)) == 0
  {
    hide RunAll, RunHits, UniqueEmails, CollOk;
    var k, end := Holder(t), RunAll(env, s, steps);
    RunKeeps(env, s, steps);
    if k in end.db.records {
      RunCounts(env, s, steps, k);
      GoodEpoch(env.o, s.db, k);
      GoodEpoch(env.o, end.db, k);
    }
  }

  lemma GoodEpoch(o: Oracles, db: Db, k: Key)
    requires Inv(o, db) && k in db.records
    ensures TokenEpoch(db.records[k].data) == Some(EpochAt(db, k))
  {
    hide UniqueEmails, CollOk;
  }

  /** Revocation is final: a token minted before a step that revoked its record is never accepted
      again, whatever happens afterwards. */
  lemma RevocationIsFinal(env: Env, s: State, before: seq<Step>, change: Step, after: seq<Step>, t: Claims)
    requires StateOk(env.o, s) && LegalRun(env, s, before) && Mint(s.db, Holder(t)) == Some(t)
    requires Legal(RunAll(env, s, before), change)
    requires StepHits(env, RunAll(env, s, before), change, Holder(t)) > 0
    requires LegalRun(env, Apply(env, RunAll(env, s, before), change), after)
    ensures !Accepted(RunAll(env, Apply(env, RunAll(env, s, before), change), after).db, t)
  {
    hide RunAll, Apply, StepHits, Inv, EpochAt;
    var k, m := Holder(t), RunAll(env, s, before);
    var n := Apply(env, m, change);
    var end := RunAll(env, n, after);
    RunKeeps(env, s, before);
    StepKeeps(env, m, change);
    RunKeeps(env, n, after);
    if k in end.db.records {
      assert k in n.db.records && k in m.db.records;
      RunCounts(env, s, before, k);
      StepCounts(env, m, change, k);
      RunCounts(env, n, after, k);
      GoodEpoch(env.o, s.db, k);
      GoodEpoch(env.o, end.db, k);
    }
  }

  /** A refreshed token is good for as long as a new login would be, and no longer. */
  lemma RefreshIsCurrent(db: Db, name: string, t: Claims)
    ensures Refresh(db, name, t) == if Accepted(db, t) && t.col == name then Some(t) else None
  {
  }
}
