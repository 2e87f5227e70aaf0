/** Published events, and what a subscriber who replays them knows. */
module Events {
  import opened Json
  import opened Records

  /** What anyone can be shown of the records table. */
  type View = map<Key, Object>

  function PublicView(db: Db): View {
    map k | k in db.records :: RecordJson(k, db.records[k])
  }

  function KeyOf(e: Event): Key {
    Key(e.topic, StrOr(Get(e.record, "id"), ""))
  }

  /** A create or an update shows the record as it now is; a delete takes it away. */
  function Replay(v: View, e: Event): View {
    if e.action.DeleteAction? then v - {KeyOf(e)} else v[KeyOf(e) := e.record]
  }

  function ReplayAll(v: View, events: seq<Event>): View {
    if events == [] then v else Replay(ReplayAll(v, events[..|events| - 1]), events[|events| - 1])
  }

  lemma {:induction false} ReplayConcat(v: View, a: seq<Event>, b: seq<Event>)
    ensures ReplayAll(v, a + b) == ReplayAll(ReplayAll(v, a), b)
    decreases |b|
  {
    if b == [] {
      assert a + b == a;
    } else {
      ReplayConcat(v, a, b[..|b| - 1]);
      assert (a + b)[..|a + b| - 1] == a + b[..|b| - 1];
    }
  }

  lemma KeyOfRecord(k: Key, r: Rec, a: Action)
    ensures KeyOf(Event(a, k.col, RecordJson(k, r))) == k
  {
  }

  lemma PutReplays(db: Db, k: Key, r: Rec, a: Action)
    requires !a.DeleteAction?
    ensures Replay(PublicView(db), Event(a, k.col, RecordJson(k, r))) == PublicView(Put(db, k, r))
  {
    hide RecordJson;
    KeyOfRecord(k, r, a);
    assert PublicView(Put(db, k, r)).Keys == PublicView(db).Keys + {k};
  }

  lemma RemoveReplays(db: Db, k: Key)
    requires k in db.records
    ensures Replay(PublicView(db), Event(DeleteAction, k.col, RecordJson(k, db.records[k]))) ==
            PublicView(db.(records := db.records - {k}))
  {
    hide RecordJson;
    KeyOfRecord(k, db.records[k], DeleteAction);
  }
}
