/**
 * Serialised runs of the server. Each step is one request handled alone; fresh ids and clocks are
 * arguments of the step. Every step keeps the record invariants, moves epochs only forward, and
 * publishes exactly the events that lead a replaying subscriber to the new state.
 */
module Runs {
  import opened Wrappers
  import opened Json
  import opened Rules
  import opened Records
  import opened Collections
  import opened Batch
  import opened Events
  import opened RecordInvariants

  /** The database, everything published, and every record id ever handed out. */
  datatype State = State(db: Db, log: seq<Event>, used: set<string>)

  datatype Step =
    | CreateStep(w: Who, name: string, body: Json, id: string, ts: string)
    | UpdateStep(w: Who, k: Key, body: Json, ts: string)
    | DeleteStep(w: Who, k: Key)
    | BatchStep(w: Who, reqs: seq<Json>, ticks: seq<Tick>)
    | AddStep(named: Json)
    | EditStep(name: string, named: Json)
    | DropStep(name: string)
    | IssueStep(name: string, record: string, ty: TicketType, token: string, now: int)
    | ResetStep(name: string, token: string, password: Json, now: int, ts: string)
    | VerifyStep(name: string, token: string, now: int, ts: string)

  function Ids(ticks: seq<Tick>): set<string> {
    set t | t in ticks :: t.id
  }

  predicate FreshTicks(ticks: seq<Tick>, used: set<string>) {
    && (forall t :: t in ticks ==> t.id != "" && t.id !in used)
    && (forall i, j :: 0 <= i < j < |ticks| ==> ticks[i].id != ticks[j].id)
  }

  /** The id oracle never repeats itself. */
  predicate Legal(s: State, step: Step) {
    match step
    case CreateStep(_, _, _, id, _) => id != "" && id !in s.used
    case BatchStep(_, reqs, ticks) => |reqs| == |ticks| && FreshTicks(ticks, s.used)
    case _ => true
  }

  function Commit(s: State, e: Effect): State {
    match e
    case Refused(_) => s
    case Wrote(next, _, event) => s.(db := next, log := s.log + [event])
  }

  function Admit(s: State, next: Result<Db, EditError>): State {
    if next.Err? then s else s.(db := next.value)
  }

  /** One request, handled to the end. */
  function Apply(env: Env, s: State, step: Step): State
    requires Legal(s, step)
  {
    match step
    case CreateStep(w, name, body, id, ts) =>
      Commit(s, Create(env, s.db, w, name, body, id, ts)).(used := s.used + {id})
    case UpdateStep(w, k, body, ts) => Commit(s, Update(env, s.db, w, k, body, ts))
    case DeleteStep(w, k) => Commit(s, Delete(env, s.db, w, k))
    case BatchStep(w, reqs, ticks) =>
      var world := BatchWorld(env, World(s.db, s.log), w, reqs, ticks);
      State(world.db, world.log, s.used + Ids(ticks))
    case AddStep(body) => Admit(s, AddCollection(env.o, s.db, body))
    case EditStep(name, body) => Admit(s, EditCollection(env.o, s.db, name, body))
    case DropStep(name) => Admit(s, DropCollection(s.db, name))
    case IssueStep(name, record, ty, token, now) => s.(db := Issue(s.db, name, record, ty, token, now))
    case ResetStep(name, token, password, now, ts) =>
      Commit(s, ConfirmReset(env, s.db, name, token, password, now, ts))
    case VerifyStep(name, token, now, ts) =>
      match ConfirmVerification(s.db, name, token, now, ts)
      case Err(_) => s
      case Ok((next, None)) => s.(db := next)
      case Ok((next, Some(event))) => s.(db := next, log := s.log + [event])
  }

  predicate StateOk(o: Oracles, s: State) {
    Inv(o, s.db) && forall k :: k in s.db.records ==> k.id in s.used
  }

  // ------------------------------------------------------------------ single cores

  /** What a core promises when it writes: the invariant, forward epochs, and an event that replays
      to the new records. */
  predicate Keeps(o: Oracles, a: Db, used: set<string>, e: Effect, used': set<string>) {
    e.Wrote? ==>
      && Inv(o, e.db)
      && Evolves(a, used, e.db, used')
      && Replay(PublicView(a), e.event) == PublicView(e.db)
  }

  predicate Known(db: Db, used: set<string>) {
    forall k :: k in db.records ==> k.id in used
  }

  lemma CreateKeeps(env: Env, db: Db, used: set<string>, w: Who, name: string, body: Json, id: string, ts: string)
    requires Inv(env.o, db) && Known(db, used) && id != "" && id !in used
    ensures Keeps(env.o, db, used, Create(env, db, w, name, body, id, ts), used + {id})
  {
    hide CollOk, RecordJson, CreateAllowed, RelationsOk, BodyOk, SchemaOk, Inv, UniqueEmails, PublicView;
    var e := Create(env, db, w, name, body, id, ts);
    if e.Wrote? {
      var k := Key(name, id);
      var r := e.db.records[k];
      CreatedOk(env, db, w, name, body, id, ts);
      PutKeeps(env.o, db, k, r);
      PutReplays(db, k, r, CreateAction);
    }
  }

  lemma CreatedOk(env: Env, db: Db, w: Who, name: string, body: Json, id: string, ts: string)
    requires Inv(env.o, db) && id != "" && Create(env, db, w, name, body, id, ts).Wrote?
    ensures name in db.cols && Key(name, id) in Create(env, db, w, name, body, id, ts).db.records
    ensures DataOk(db.cols[name].isAuth, Create(env, db, w, name, body, id, ts).db.records[Key(name, id)].data)
    ensures forall j :: db.cols[name].isAuth && j in db.records && j != Key(name, id) && j.col == name ==>
              Email(db, j) != Get(Create(env, db, w, name, body, id, ts).db.records[Key(name, id)].data, "email")
  {
    hide RecordJson, CreateAllowed, RelationsOk, BodyOk, UniqueEmails, Taken;
    var col, data := db.cols[name], body.fields;
    forall f | f in data
      ensures f !in RESERVED
    {
      assert CollOk(env.o, col);
      CleanBody(col.schema, data, col.isAuth, false, f);
    }
    if col.isAuth {
      var email := StrOr(Get(data, "email"), "");
      assert Get(data, "email") == JStr(email);
      forall j | j in db.records && j != Key(name, id) && j.col == name
        ensures Email(db, j) != JStr(email)
      {
        FreeAddress(env.o, db, name, email, "", j);
      }
    }
  }

  /** An update that goes through moves its own record's epoch exactly when it revokes, and touches
      no other record. */
  lemma UpdateKeeps(env: Env, db: Db, used: set<string>, w: Who, k: Key, body: Json, ts: string)
    requires Inv(env.o, db) && Known(db, used)
    ensures Keeps(env.o, db, used, Update(env, db, w, k, body, ts), used)
    ensures Update(env, db, w, k, body, ts).Wrote? ==>
              && body.JObj? && k in db.records
              && EpochAt(Update(env, db, w, k, body, ts).db, k) ==
                 EpochAt(db, k) + (if Revokes(body.fields) then 1 else 0)
  {
    hide CollOk, RecordJson, RelationsOk, BodyOk, SchemaOk, Inv, UniqueEmails, PublicView, Gate, Merge, Taken;
    var e := Update(env, db, w, k, body, ts);
    if e.Wrote? {
      var r := e.db.records[k];
      UpdatedOk(env, db, w, k, body, ts);
      OneById(env.o, db, k);
      PutKeeps(env.o, db, k, r);
      PutReplays(db, k, r, UpdateAction);
    }
  }

  lemma UpdatedOk(env: Env, db: Db, w: Who, k: Key, body: Json, ts: string)
    requires Inv(env.o, db) && Update(env, db, w, k, body, ts).Wrote?
    ensures k in db.records && k.id != "" && k.col in db.cols && body.JObj?
    ensures k in Update(env, db, w, k, body, ts).db.records
    ensures DataOk(db.cols[k.col].isAuth, Update(env, db, w, k, body, ts).db.records[k].data)
    ensures EpochOr0(Update(env, db, w, k, body, ts).db.records[k].data) ==
            EpochAt(db, k) + (if Revokes(body.fields) then 1 else 0)
    ensures db.cols[k.col].isAuth && Get(Update(env, db, w, k, body, ts).db.records[k].data, "email").JStr? ==>
              forall j :: j in db.records && j != k && j.col == k.col ==>
                Email(db, j) != Get(Update(env, db, w, k, body, ts).db.records[k].data, "email")
  {
    hide RecordJson, RelationsOk, BodyOk, Gate, Merge, Taken, OldPasswordOk, DataOk, EpochOr0, Revokes;
    var col, prior, patch := db.cols[k.col], db.records[k], body.fields;
    forall f | f in patch
      ensures f !in RESERVED
    {
      assert CollOk(env.o, col);
      CleanBody(col.schema, patch, col.isAuth, true, f);
    }
    MergeKeeps(env, col.isAuth, prior.data, patch);
    if col.isAuth {
      PatchedAddress(env, db, w, k, prior.data, patch);
    }
  }

  /** An address that a patch may bring in is one no other record of the collection holds. */
  lemma PatchedAddress(env: Env, db: Db, w: Who, k: Key, stored: Object, patch: Object)
    requires PatchRefused(env, db, w, k, stored, patch).None?
    ensures Get(patch, "email").JStr? ==>
              forall j :: j in db.records && j != k && j.col == k.col ==> Email(db, j) != Get(patch, "email")
  {
    hide Taken, OldPasswordOk;
    var email := Get(patch, "email");
    if email.JStr? {
      forall j | j in db.records && j != k && j.col == k.col
        ensures Email(db, j) != email
      {
        FreeAddress(env.o, db, k.col, email.s, k.id, j);
      }
    }
  }

  lemma DeleteKeeps(env: Env, db: Db, used: set<string>, w: Who, k: Key)
    requires Inv(env.o, db) && Known(db, used)
    ensures Keeps(env.o, db, used, Delete(env, db, w, k), used)
  {
    hide CollOk, RecordJson, Gate, PublicView, DataOk;
    if Delete(env, db, w, k).Wrote? {
      RemoveReplays(db, k);
    }
  }

  lemma ResetKeeps(
      env: Env, db: Db, used: set<string>, name: string, token: string, password: Json, now: int, ts: string)
    requires Inv(env.o, db) && Known(db, used)
    ensures Keeps(env.o, db, used, ConfirmReset(env, db, name, token, password, now, ts), used)
  {
    hide RecordJson, Update, Inv, Evolves, Replay, PublicView;
    if Spendable(db, name, ResetTicket, token, now) {
      var k := Key(name, db.tickets[token].record);
      UpdateKeeps(env, db, used, Admin, k, JObj(map["password" := password]), ts);
      var u := Update(env, db, Admin, k, JObj(map["password" := password]), ts);
      if u.Wrote? {
        BurnIsInvisible(env.o, db, u.db, used, token);
      }
    }
  }

  /** Turning `verified` on is an update no invariant notices. */
  lemma VerifiedOk(o: Oracles, db: Db, used: set<string>, k: Key, ts: string)
    requires Inv(o, db) && Known(db, used) && k in db.records
    ensures var r := Rec(db.records[k].data[VERIFIED := JBool(true)], db.records[k].created, ts);
            Inv(o, Put(db, k, r)) && Evolves(db, used, Put(db, k, r), used)
  {
    hide CollOk;
    PutKeeps(o, db, k, Rec(db.records[k].data[VERIFIED := JBool(true)], db.records[k].created, ts));
  }

  lemma VerifyKeeps(env: Env, db: Db, used: set<string>, name: string, token: string, now: int, ts: string)
    requires Inv(env.o, db) && Known(db, used) && ConfirmVerification(db, name, token, now, ts).Ok?
    ensures Inv(env.o, ConfirmVerification(db, name, token, now, ts).value.0)
    ensures Evolves(db, used, ConfirmVerification(db, name, token, now, ts).value.0, used)
    ensures PublicView(ConfirmVerification(db, name, token, now, ts).value.0) ==
            match ConfirmVerification(db, name, token, now, ts).value.1
            case None => PublicView(db)
            case Some(event) => Replay(PublicView(db), event)
  {
    hide RecordJson, Replay, PublicView, Inv, EpochAt;
    var k := Key(name, db.tickets[token].record);
    BurnIsInvisible(env.o, db, db, used, token);
    if k in db.records {
      var r := Rec(db.records[k].data[VERIFIED := JBool(true)], db.records[k].created, ts);
      VerifiedOk(env.o, db, used, k, ts);
      PutReplays(db, k, r, UpdateAction);
      BurnIsInvisible(env.o, db, Put(db, k, r), used, token);
    } else {
      assert Evolves(db, used, db, used);
    }
  }

  lemma BurnIsInvisible(o: Oracles, a: Db, b: Db, used: set<string>, token: string)
    ensures PublicView(Burn(b, token)) == PublicView(b)
    ensures Inv(o, b) ==> Inv(o, Burn(b, token))
    ensures Evolves(a, used, b, used) ==> Evolves(a, used, Burn(b, token), used)
  {
    hide CollOk, RecordJson, DataOk;
  }

  // ------------------------------------------------------------------ batches

  lemma MoreUsed(o: Oracles, a: Db, used: set<string>, e: Effect, used': set<string>, more: set<string>)
    requires Keeps(o, a, used, e, used') && used' <= more
    ensures Keeps(o, a, used, e, more)
  {
    hide Inv, Replay, PublicView;
  }

  lemma OneKeeps(env: Env, db: Db, used: set<string>, w: Who, req: Json, tick: Tick)
    requires Inv(env.o, db) && Known(db, used) && tick.id != "" && tick.id !in used
    ensures Keeps(env.o, db, used, One(env, db, w, req, tick), used + {tick.id})
  {
    hide Inv, Keeps, Known, Create, Update, Delete, ParseUrl;
    var url := Member(req, "url");
    if url.JStr? && ParseUrl(url.s).Some? {
      var (col, id) := ParseUrl(url.s).value;
      CreateKeeps(env, db, used, w, col, Member(req, "body"), tick.id, tick.ts);
      if id.Some? {
        var k := Key(col, id.value);
        UpdateKeeps(env, db, used, w, k, Member(req, "body"), tick.ts);
        MoreUsed(env.o, db, used, Update(env, db, w, k, Member(req, "body"), tick.ts), used, used + {tick.id});
        DeleteKeeps(env, db, used, w, k);
        MoreUsed(env.o, db, used, Delete(env, db, w, k), used, used + {tick.id});
      }
    }
    assert Keeps(env.o, db, used, Refused(BadCall), used + {tick.id}) by {
      RefusedKeeps(env.o, db, used, BadCall, used + {tick.id});
    }
  }

  lemma RefusedKeeps(o: Oracles, a: Db, used: set<string>, e: Error, used': set<string>)
    ensures Keeps(o, a, used, Refused(e), used')
  {
  }

  /** Every prefix of a running batch is a good state, reached by forward epochs and replayable
      events. */
  lemma {:induction false} FoldKeeps(
      env: Env, db: Db, used: set<string>, w: Who, reqs: seq<Json>, ticks: seq<Tick>, n: nat)
    requires Inv(env.o, db) && Known(db, used) && n <= |reqs| && |reqs| == |ticks| && FreshTicks(ticks, used)
    requires Fold(env, db, w, reqs, ticks, n).Running?
    ensures Inv(env.o, Fold(env, db, w, reqs, ticks, n).db)
    ensures Evolves(db, used, Fold(env, db, w, reqs, ticks, n).db, used + Ids(ticks[..n]))
    ensures ReplayAll(PublicView(db), Fold(env, db, w, reqs, ticks, n).events) ==
            PublicView(Fold(env, db, w, reqs, ticks, n).db)
    decreases n
  {
    hide Inv, One, Replay, PublicView, EpochAt;
    if n == 0 {
      assert Evolves(db, used, db, used + Ids(ticks[..0]));
    } else {
      FoldKeeps(env, db, used, w, reqs, ticks, n - 1);
      var p := Fold(env, db, w, reqs, ticks, n - 1);
      var u, tick := used + Ids(ticks[..n - 1]), ticks[n - 1];
      FreshTick(ticks, used, n);
      OneKeeps(env, p.db, u, w, reqs[n - 1], tick);
      var e := One(env, p.db, w, reqs[n - 1], tick);
      EvolvesTransitive(db, used, p.db, u, e.db, u + {tick.id});
      assert (p.events + [e.event])[..n - 1 + 0] == p.events by {
        EventCount(env, db, w, reqs, ticks, n - 1);
      }
      assert |p.events + [e.event]| == n by {
        EventCount(env, db, w, reqs, ticks, n - 1);
      }
    }
  }

  lemma {:induction false} EventCount(env: Env, db: Db, w: Who, reqs: seq<Json>, ticks: seq<Tick>, n: nat)
    requires n <= |reqs| && |reqs| == |ticks| && Fold(env, db, w, reqs, ticks, n).Running?
    ensures |Fold(env, db, w, reqs, ticks, n).events| == n
    decreases n
  {
    hide One;
    if n > 0 {
      EventCount(env, db, w, reqs, ticks, n - 1);
    }
  }

  lemma FreshTick(ticks: seq<Tick>, used: set<string>, n: nat)
    requires FreshTicks(ticks, used) && 0 < n <= |ticks|
    ensures ticks[n - 1].id != "" && ticks[n - 1].id !in used + Ids(ticks[..n - 1])
    ensures (used + Ids(ticks[..n - 1])) + {ticks[n - 1].id} == used + Ids(ticks[..n])
  {
    assert ticks[n - 1] in ticks;
    assert ticks[..n] == ticks[..n - 1] + [ticks[n - 1]];
    forall t | t in ticks[..n - 1]
      ensures t.id != ticks[n - 1].id
    {
      var i :| 0 <= i < n - 1 && ticks[..n - 1][i] == t;
    }
  }

  // ------------------------------------------------------------------ collections

  lemma SchemaInOk(body: Json, absent: seq<Field>)
    requires SchemaOk(absent) && SchemaIn(body, absent).Some?
    ensures SchemaOk(SchemaIn(body, absent).value)
  {
    hide SchemaOf, SchemaOk;
    if "schema" in FieldsIn(body) {
      SchemaIsOk(FieldsIn(body)["schema"]);
    }
  }

  lemma AddKeeps(o: Oracles, db: Db, used: set<string>, named: Json)
    requires Inv(o, db) && Known(db, used) && AddCollection(o, db, named).Ok?
    ensures Inv(o, AddCollection(o, db, named).value)
    ensures AddCollection(o, db, named).value.records == db.records
  {
    hide ReadRules, RulesOk, DataOk, Defaults, SchemaIn;
    var isAuth := TypeOf(named).value;
    SchemaInOk(named, []);
    DefaultsOk(o, isAuth);
    ReadRulesOk(o, FieldsIn(named), Defaults(isAuth), |RULE_KEYS|);
  }

  lemma EditKeeps(o: Oracles, db: Db, used: set<string>, name: string, named: Json)
    requires Inv(o, db) && Known(db, used) && EditCollection(o, db, name, named).Ok?
    ensures Inv(o, EditCollection(o, db, name, named).value)
    ensures EditCollection(o, db, name, named).value.records == db.records
  {
    hide ReadRules, RulesOk, SchemaOk, DataOk, SchemaIn;
    assert CollOk(o, db.cols[name]);
    SchemaInOk(named, db.cols[name].schema);
    ReadRulesOk(o, FieldsIn(named), db.cols[name].rules, |RULE_KEYS|);
  }

  lemma DropKeeps(o: Oracles, db: Db, used: set<string>, name: string)
    requires Inv(o, db) && Known(db, used) && DropCollection(db, name).Ok?
    ensures Inv(o, DropCollection(db, name).value)
    ensures Evolves(db, used, DropCollection(db, name).value, used)
  {
    hide CollOk, DataOk;
    var next := DropCollection(db, name).value;
    assert forall k :: k in next.records ==> k in db.records && next.records[k] == db.records[k] && k.col != name;
  }

  // ------------------------------------------------------------------ steps and runs

  lemma SameRecords(a: Db, b: Db, used: set<string>)
    requires a.records == b.records && Known(a, used)
    ensures Evolves(a, used, b, used) && PublicView(a) == PublicView(b)
  {
  }

  /** What a step adds to the published log. */
  function Published(a: State, b: State): seq<Event>
    requires a.log <= b.log
  {
    b.log[|a.log|..]
  }

  /** One step keeps the invariant, moves epochs only forward, only appends to the log, and (unless
      it drops a whole collection) publishes exactly the change it made. */
  predicate StepPromise(o: Oracles, a: State, b: State, dropped: bool) {
    && StateOk(o, b)
    && Evolves(a.db, a.used, b.db, b.used)
    && a.log <= b.log
    && (!dropped ==> ReplayAll(PublicView(a.db), Published(a, b)) == PublicView(b.db))
  }

  lemma CommitPromise(o: Oracles, s: State, e: Effect, used': set<string>)
    requires StateOk(o, s) && Keeps(o, s.db, s.used, e, used') && s.used <= used'
    ensures StepPromise(o, s, Commit(s, e).(used := used'), false)
  {
    hide Inv, EpochAt, Replay, PublicView;
    var t := Commit(s, e).(used := used');
    match e {
      case Refused(_) =>
        assert Published(s, t) == [];
      case Wrote(_, _, event) =>
        assert Published(s, t) == [event] && [event][..0] == [];
        assert ReplayAll(PublicView(s.db), []) == PublicView(s.db);
    }
  }

  lemma QuietPromise(o: Oracles, s: State, db: Db)
    requires StateOk(o, s) && Inv(o, db) && db.records == s.db.records
    ensures StepPromise(o, s, s.(db := db), false)
  {
    hide Inv;
    SameRecords(s.db, db, s.used);
    assert Published(s, s.(db := db)) == [];
  }

  lemma BatchPromise(env: Env, s: State, w: Who, reqs: seq<Json>, ticks: seq<Tick>)
    requires StateOk(env.o, s) && |reqs| == |ticks| && FreshTicks(ticks, s.used)
    ensures StepPromise(env.o, s, Apply(env, s, BatchStep(w, reqs, ticks)), false)
  {
    hide Inv, One, Replay, PublicView, EpochAt;
    var t := Apply(env, s, BatchStep(w, reqs, ticks));
    if Fold(env, s.db, w, reqs, ticks, |reqs|).Running? {
      FoldKeeps(env, s.db, s.used, w, reqs, ticks, |reqs|);
      assert ticks[..|reqs|] == ticks;
      assert Published(s, t) == Fold(env, s.db, w, reqs, ticks, |reqs|).events;
    } else {
      assert Published(s, t) == [];
    }
  }

  lemma StepKeeps(env: Env, s: State, step: Step)
    requires StateOk(env.o, s) && Legal(s, step)
    ensures StepPromise(env.o, s, Apply(env, s, step), step.DropStep?)
  {
    hide Inv, StepPromise, Keeps, Create, Update, Delete, ConfirmReset, ConfirmVerification,
      AddCollection, EditCollection, DropCollection, BatchWorld, PublicView, FreshTicks;
    match step {
      case CreateStep(w, name, body, id, ts) =>
        CreateKeeps(env, s.db, s.used, w, name, body, id, ts);
        CommitPromise(env.o, s, Create(env, s.db, w, name, body, id, ts), s.used + {id});
      case UpdateStep(w, k, body, ts) =>
        UpdateKeeps(env, s.db, s.used, w, k, body, ts);
        CommitPromise(env.o, s, Update(env, s.db, w, k, body, ts), s.used);
      case DeleteStep(w, k) =>
        DeleteKeeps(env, s.db, s.used, w, k);
        CommitPromise(env.o, s, Delete(env, s.db, w, k), s.used);
      case BatchStep(w, reqs, ticks) =>
        BatchPromise(env, s, w, reqs, ticks);
      case AddStep(named) =>
        if AddCollection(env.o, s.db, named).Ok? {
          AddKeeps(env.o, s.db, s.used, named);
        }
        QuietPromise(env.o, s, Apply(env, s, step).db);
      case EditStep(name, named) =>
        if EditCollection(env.o, s.db, name, named).Ok? {
          EditKeeps(env.o, s.db, s.used, name, named);
        }
        QuietPromise(env.o, s, Apply(env, s, step).db);
      case DropStep(name) => DropPromise(env, s, name);
      case IssueStep(name, record, ty, token, now) =>
        IssueInvisible(env.o, s.db, name, record, ty, token, now);
        QuietPromise(env.o, s, Apply(env, s, step).db);
      case ResetStep(name, token, password, now, ts) =>
        ResetKeeps(env, s.db, s.used, name, token, password, now, ts);
        CommitPromise(env.o, s, ConfirmReset(env, s.db, name, token, password, now, ts), s.used);
      case VerifyStep(name, token, now, ts) => VerifyPromise(env, s, name, token, now, ts);
    }
  }

  lemma IssueInvisible(o: Oracles, db: Db, name: string, record: string, ty: TicketType, token: string, now: int)
    ensures Inv(o, db) ==> Inv(o, Issue(db, name, record, ty, token, now))
    ensures Issue(db, name, record, ty, token, now).records == db.records
  {
    hide CollOk, DataOk;
  }

  lemma DropPromise(env: Env, s: State, name: string)
    requires StateOk(env.o, s)
    ensures StepPromise(env.o, s, Apply(env, s, DropStep(name)), true)
  {
    hide Inv, EpochAt, DropCollection;
    if DropCollection(s.db, name).Ok? {
      DropKeeps(env.o, s.db, s.used, name);
    }
  }

  lemma VerifyPromise(env: Env, s: State, name: string, token: string, now: int, ts: string)
    requires StateOk(env.o, s)
    ensures StepPromise(env.o, s, Apply(env, s, VerifyStep(name, token, now, ts)), false)
  {
    hide Inv, EpochAt, ConfirmVerification, Replay, PublicView;
    var t := Apply(env, s, VerifyStep(name, token, now, ts));
    match ConfirmVerification(s.db, name, token, now, ts) {
      case Err(_) => assert Published(s, t) == [];
      case Ok((_, None)) =>
        VerifyKeeps(env, s.db, s.used, name, token, now, ts);
        assert Published(s, t) == [];
      case Ok((_, Some(event))) =>
        VerifyKeeps(env, s.db, s.used, name, token, now, ts);
        assert Published(s, t) == [event] && [event][..0] == [];
        assert ReplayAll(PublicView(s.db), []) == PublicView(s.db);
    }
  }

  predicate LegalRun(env: Env, s: State, steps: seq<Step>)
    decreases |steps|
  {
    steps == [] || (Legal(s, steps[0]) && LegalRun(env, Apply(env, s, steps[0]), steps[1..]))
  }

  function RunAll(env: Env, s: State, steps: seq<Step>): State
    requires LegalRun(env, s, steps)
    decreases |steps|
  {
    if steps == [] then s else RunAll(env, Apply(env, s, steps[0]), steps[1..])
  }

  predicate Drops(steps: seq<Step>) {
    exists i :: 0 <= i < |steps| && steps[i].DropStep?
  }

  /** Every run keeps the promise of its steps: the invariant holds at its end, epochs have only moved
      forward, and replaying everything published over the initial public view of the records gives
      the final public view, as long as no collection was dropped. */
  lemma {:induction false} RunKeeps(env: Env, s: State, steps: seq<Step>)
    requires StateOk(env.o, s) && LegalRun(env, s, steps)
    ensures StepPromise(env.o, s, RunAll(env, s, steps), Drops(steps))
    decreases |steps|
  {
    hide Inv, Apply, EpochAt, Replay, PublicView;
    if steps == [] {
      assert Published(s, s) == [];
    } else {
      var m := Apply(env, s, steps[0]);
      StepKeeps(env, s, steps[0]);
      RunKeeps(env, m, steps[1..]);
      var t := RunAll(env, s, steps);
      EvolvesTransitive(s.db, s.used, m.db, m.used, t.db, t.used);
      assert Published(s, t) == Published(s, m) + Published(m, t);
      ReplayConcat(PublicView(s.db), Published(s, m), Published(m, t));
      if !Drops(steps) {
        assert !steps[0].DropStep?;
        assert forall i :: 0 <= i < |steps[1..]| ==> steps[1..][i] == steps[i + 1];
      }
    }
  }

  /** A new database: the seeded `users` collection and nothing else. */
  function Init(): State {
    State(Db(map["users" := Coll(true, [], Defaults(true))], map[], map[]), [], {})
  }

  lemma InitOk(o: Oracles)
    ensures StateOk(o, Init())
  {
    hide Defaults, RulesOk;
    DefaultsOk(o, true);
  }

  /** Whatever has happened since the database was created, no two accounts of one auth collection
      share an address, every account has a password hash and no password, and every stored rule
      compiles for every caller: the "no longer compiles" branches never run. */
  lemma ReachableIsGood(env: Env, steps: seq<Step>)
    requires LegalRun(env, Init(), steps)
    ensures Inv(env.o, RunAll(env, Init(), steps).db)
  {
    hide Inv, RunAll;
    InitOk(env.o);
    RunKeeps(env, Init(), steps);
  }

  lemma StoredRulesCompile(o: Oracles, db: Db, name: string, w: Who, rule: RuleText, auth: string)
    requires Inv(o, db) && name in db.cols
    requires var r := db.cols[name].rules; rule in {r.list, r.view, r.create, r.update, r.delete}
    ensures CheckRule(w, rule).Ok? && CheckRule(w, rule).value.Some? ==>
              CompileRule(o, CheckRule(w, rule).value.value, auth).Some?
  {
    hide ParseRule;
    assert CollOk(o, db.cols[name]);
  }
}
