/**
 * What every serialised step of the server keeps: clean schemas and parsing rules, no stored
 * password, unique addresses, and revocation epochs that never go back.
 */
module RecordInvariants {
  import opened Wrappers
  import opened FilterTree
  import opened Json
  import opened Sql
  import opened Rules
  import opened Records
  import opened Collections
  import opened Batch

  // ------------------------------------------------------------------ the invariant

  predicate CollOk(o: Oracles, c: Coll) {
    SchemaOk(c.schema) && RulesOk(o, c.rules)
  }

  /** A hash and no password on an auth record; an integer epoch on any record. */
  predicate DataOk(isAuth: bool, data: Object) {
    && (EPOCH in data ==> data[EPOCH].JInt? && data[EPOCH].n >= 0)
    && (isAuth ==> "password" !in data && HASH in data && data[HASH].JStr?)
  }

  predicate RecordsOk(db: Db) {
    forall k :: k in db.records ==>
      k.id != "" && k.col in db.cols && DataOk(db.cols[k.col].isAuth, db.records[k].data)
  }

  function Email(db: Db, k: Key): Json
    requires k in db.records
  {
    Get(db.records[k].data, "email")
  }

  /** No two records of one auth collection share a string email. */
  predicate UniqueEmails(db: Db) {
    forall j, k | j in db.records && k in db.records && j != k && j.col == k.col &&
                  k.col in db.cols && db.cols[k.col].isAuth && Email(db, j).JStr? :: Email(db, j) != Email(db, k)
  }

  /** Ids are unique across collections, not only within one. */
  predicate UniqueIds(db: Db) {
    forall j, k | j in db.records && k in db.records && j.id == k.id :: j == k
  }

  predicate Inv(o: Oracles, db: Db) {
    && (forall c :: c in db.cols ==> CollOk(o, db.cols[c]))
    && RecordsOk(db)
    && UniqueEmails(db)
    && UniqueIds(db)
  }

  // ------------------------------------------------------------------ epochs

  /** `token_epoch`: absent reads as 0, anything but an integer denies. */
  function TokenEpoch(data: Object): Option<int> {
    if EPOCH !in data then Some(0)
    else if data[EPOCH].JInt? then Some(data[EPOCH].n) else None
  }

  function EpochAt(db: Db, k: Key): int
    requires k in db.records
  {
    EpochOr0(db.records[k].data)
  }

  /** Between two states: a surviving record's epoch has not gone back, and a record that was not
      there before carries an id never handed out before. */
  predicate Evolves(a: Db, used: set<string>, b: Db, used': set<string>) {
    && used <= used'
    && (forall k :: k in b.records ==> k.id in used')
    && (forall k :: k in b.records && k in a.records ==> EpochAt(a, k) <= EpochAt(b, k))
    && (forall k :: k in b.records && k !in a.records ==> k.id !in used)
  }

  lemma EvolvesTransitive(a: Db, ua: set<string>, b: Db, ub: set<string>, c: Db, uc: set<string>)
    requires Evolves(a, ua, b, ub) && Evolves(b, ub, c, uc)
    requires forall k :: k in a.records ==> k.id in ua
    ensures Evolves(a, ua, c, uc)
  {
  }

  // ------------------------------------------------------------------ documents

  lemma CleanBody(schema: seq<Field>, data: Object, isAuth: bool, partial: bool, name: string)
    requires SchemaOk(schema) && BodyOk(schema, data, isAuth, partial) && name in data
    ensures name !in RESERVED
  {
    assert KeyFits(schema, isAuth, name, data[name]);
    FoundIsIn(schema, name);
  }

  lemma {:induction false} FoundIsIn(schema: seq<Field>, name: string)
    ensures FindField(schema, name).Some? ==> exists i :: 0 <= i < |schema| && schema[i].name == name
  {
    if schema != [] && schema[0].name != name {
      FoundIsIn(schema[1..], name);
      if FindField(schema, name).Some? {
        var i :| 0 <= i < |schema[1..]| && schema[1..][i].name == name;
        assert schema[i + 1].name == name;
      }
    }
  }

  lemma OneById(o: Oracles, db: Db, k: Key)
    requires Inv(o, db) && k in db.records
    ensures forall j :: j in db.records && j.id == k.id ==> j == k
  {
    hide CollOk, RecordsOk, UniqueEmails;
  }

  /** Replacing or adding one good record whose address is free keeps the invariant. */
  lemma PutKeeps(o: Oracles, db: Db, k: Key, r: Rec)
    requires Inv(o, db) && k.id != "" && k.col in db.cols && DataOk(db.cols[k.col].isAuth, r.data)
    requires forall j :: j in db.records && j.id == k.id ==> j == k
    requires var e := Get(r.data, "email");
             db.cols[k.col].isAuth && e.JStr? ==>
               forall j :: j in db.records && j != k && j.col == k.col ==> Email(db, j) != e
    ensures Inv(o, Put(db, k, r))
  {
    hide CollOk, DataOk;
    var next := Put(db, k, r);
    forall i, j | i in next.records && j in next.records && i != j && i.col == j.col &&
                  j.col in next.cols && next.cols[j.col].isAuth && Email(next, i).JStr?
      ensures Email(next, i) != Email(next, j)
    {
      assert i != k ==> i in db.records && Email(next, i) == Email(db, i);
      assert j != k ==> j in db.records && Email(next, j) == Email(db, j);
    }
  }

  lemma FreeAddress(o: Oracles, db: Db, col: string, email: string, exclude: string, j: Key)
    requires !Taken(o, db, col, email, exclude) && j in db.records && j.col == col && j.id != exclude
    ensures Email(db, j) != JStr(email)
  {
    assert !HasEmail(o, db, j, email);
  }

  /** The document `Merge` stores, field by field: the address is the patched one, the password is
      gone, and the epoch moves exactly when the patch revokes. */
  lemma MergeKeeps(env: Env, isAuth: bool, stored: Object, patch: Object)
    requires DataOk(isAuth, stored) && Merge(env, stored, patch).Ok?
    requires forall name :: name in patch ==> name !in RESERVED
    ensures var m := Merge(env, stored, patch).value;
            && DataOk(isAuth, m)
            && EpochOr0(m) == EpochOr0(stored) + (if Revokes(patch) then 1 else 0)
            && Get(m, "email") == (if "email" in patch then patch["email"] else Get(stored, "email"))
  {
  }
}
