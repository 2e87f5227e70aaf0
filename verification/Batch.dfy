/**
 * The batch endpoint of src/batch.rs: which urls it accepts, what one sub-request does, and the
 * left fold of the record cores over the requests.
 */
module Batch {
  import opened Wrappers
  import opened Json
  import opened Rules
  import opened Records
  import opened Words

  // ------------------------------------------------------------------ urls

  const PREFIX := "/api/collections/"

  /** `parse_url`. */
  function ParseUrl(url: string): Option<(string, Option<string>)> {
    if '?' in url || '#' in url || !(PREFIX <= url) then None
    else
      var parts := Split(url[|PREFIX|..], '/');
      if parts[0] == "" || |parts| < 2 || parts[1] != "records" || |parts| > 3 then None
      else if |parts| == 2 then Some((parts[0], None))
      else if parts[2] == "" then None
      else Some((parts[0], Some(parts[2])))
  }

  /** A non-empty path segment that cannot be mistaken for anything else in a url. */
  predicate Segment(s: string) {
    s != "" && '/' !in s && '?' !in s && '#' !in s
  }

  /** The url of a collection's records, and of one record. */
  function UrlOf(col: string, id: Option<string>): string {
    PREFIX + Join([col, "records"] + if id.None? then [] else [id.value], '/')
  }

  /** `parse_url` accepts exactly the two shapes of record urls and nothing else: no query, no empty
      and no trailing segment. */
  lemma ParseUrlExact(url: string, col: string, id: Option<string>)
    ensures ParseUrl(url) == Some((col, id)) <==>
            url == UrlOf(col, id) && Segment(col) && (id.Some? ==> Segment(id.value))
  {
    hide ParseUrl, UrlOf;
    if ParseUrl(url) == Some((col, id)) {
      ParsedUrl(url, col, id);
    }
    if url == UrlOf(col, id) && Segment(col) && (id.Some? ==> Segment(id.value)) {
      BuiltUrl(col, id);
    }
  }

  lemma ParsedUrl(url: string, col: string, id: Option<string>)
    requires ParseUrl(url) == Some((col, id))
    ensures url == UrlOf(col, id) && Segment(col) && (id.Some? ==> Segment(id.value))
  {
    hide Split, Join;
    var path := url[|PREFIX|..];
    JoinSplit(path, '/');
    assert url == PREFIX + path;
    var parts := Split(path, '/');
    assert parts == [col, "records"] + if id.None? then [] else [id.value];
    assert '/' !in parts[0] && (id.Some? ==> '/' !in parts[2]);
    UrlPieces(url, col, id);
  }

  /** What is in a piece of a url is in the url. */
  lemma UrlPieces(url: string, col: string, id: Option<string>)
    requires url == UrlOf(col, id)
    ensures forall c :: c in col ==> c in url
    ensures id.Some? ==> forall c :: c in id.value ==> c in url
  {
    hide Join;
    JoinThree(col, id);
    assert url == PREFIX + (col + ("/records" + if id.None? then "" else "/" + id.value));
    InsideUrl(url, PREFIX, col, "/records" + if id.None? then "" else "/" + id.value);
    if id.Some? {
      assert url == (PREFIX + (col + "/records/")) + (id.value + "");
      InsideUrl(url, PREFIX + (col + "/records/"), id.value, "");
    }
  }

  lemma InsideUrl(url: string, before: string, piece: string, after: string)
    requires url == before + (piece + after)
    ensures forall c :: c in piece ==> c in url
  {
    forall c | c in piece
      ensures c in url
    {
      var i :| 0 <= i < |piece| && piece[i] == c;
      assert url[|before| + i] == c;
    }
  }

  lemma BuiltUrl(col: string, id: Option<string>)
    requires Segment(col) && (id.Some? ==> Segment(id.value))
    ensures ParseUrl(UrlOf(col, id)) == Some((col, id))
  {
    hide Split, Join;
    JoinThree(col, id);
    var url := UrlOf(col, id);
    var path := col + ("/" + ("records" + if id.None? then "" else "/" + id.value));
    assert url == PREFIX + path && url[|PREFIX|..] == path;
    assert '?' !in PREFIX && '#' !in PREFIX && '?' !in path && '#' !in path;
    if id.None? {
      assert path == col + ("/" + "records");
      SplitJoin(col, ["records"], '/');
      SplitJoin("records", [], '/');
      assert Split(path, '/') == [col, "records"];
    } else {
      SplitJoin(col, ["records", id.value], '/');
      SplitJoin("records", [id.value], '/');
      SplitJoin(id.value, [], '/');
      assert Split(path, '/') == [col, "records", id.value];
    }
  }

  lemma JoinThree(col: string, id: Option<string>)
    ensures Join(["records"], '/') == "records"
    ensures id.Some? ==> Join([id.value], '/') == id.value
    ensures id.Some? ==> Join(["records", id.value], '/') == "records" + ("/" + id.value)
    ensures Join([col, "records"] + if id.None? then [] else [id.value], '/') ==
            col + ("/" + ("records" + if id.None? then "" else "/" + id.value))
  {
    if id.None? {
      assert [col, "records"] + [] == [col, "records"] && [col, "records"][1..] == ["records"];
      assert "records" + "" == "records";
    } else {
      assert [col, "records"] + [id.value] == [col, "records", id.value];
      assert [col, "records", id.value][1..] == ["records", id.value] && ["records", id.value][1..] == [id.value];
    }
  }

  // ------------------------------------------------------------------ sub-requests

  /** The fresh id and timestamp that one sub-request may use. */
  datatype Tick = Tick(id: string, ts: string)

  /** `one`: the same core as the standalone route, or "bad method or url". */
  function One(env: Env, db: Db, w: Who, req: Json, tick: Tick): Effect {
    var method', url := Member(req, "method"), Member(req, "url");
    if !method'.JStr? || !url.JStr? || ParseUrl(url.s).None? then Refused(BadCall)
    else
      var (col, id) := ParseUrl(url.s).value;
      if method'.s == "POST" && id.None? then Create(env, db, w, col, Member(req, "body"), tick.id, tick.ts)
      else if method'.s == "PATCH" && id.Some? then
        Update(env, db, w, Key(col, id.value), Member(req, "body"), tick.ts)
      else if method'.s == "DELETE" && id.Some? then Delete(env, db, w, Key(col, id.value))
      else Refused(BadCall)
  }

  /** The call a sub-request spells out: which method on which url. */
  predicate Spells(req: Json, method': string, col: string, id: Option<string>) {
    && Member(req, "method") == JStr(method') && Member(req, "url") == JStr(UrlOf(col, id))
    && Segment(col) && (id.Some? ==> Segment(id.value))
  }

  /** A sub-request is the create, update or delete it spells out, and anything else is a bad call. */
  lemma OneExactly(env: Env, db: Db, w: Who, req: Json, tick: Tick)
    ensures forall col | Spells(req, "POST", col, None) ::
              One(env, db, w, req, tick) == Create(env, db, w, col, Member(req, "body"), tick.id, tick.ts)
    ensures forall col, id | Spells(req, "PATCH", col, Some(id)) ::
              One(env, db, w, req, tick) == Update(env, db, w, Key(col, id), Member(req, "body"), tick.ts)
    ensures forall col, id | Spells(req, "DELETE", col, Some(id)) ::
              One(env, db, w, req, tick) == Delete(env, db, w, Key(col, id))
    ensures (forall col :: !Spells(req, "POST", col, None)) &&
            (forall col, id :: !Spells(req, "PATCH", col, Some(id)) && !Spells(req, "DELETE", col, Some(id))) ==>
              One(env, db, w, req, tick) == Refused(BadCall)
  {
    hide Create, Update, Delete, ParseUrl, UrlOf, Segment;
    forall col, id, m | Spells(req, m, col, id)
      ensures ParseUrl(Member(req, "url").s) == Some((col, id))
    {
      ParseUrlExact(Member(req, "url").s, col, id);
    }
    if Member(req, "url").JStr? && ParseUrl(Member(req, "url").s).Some? {
      var (col, id) := ParseUrl(Member(req, "url").s).value;
      ParseUrlExact(Member(req, "url").s, col, id);
      var m := Member(req, "method");
      assert m.JStr? ==> Spells(req, m.s, col, id);
    }
  }

  // ------------------------------------------------------------------ the fold

  datatype Progress =
    | Running(db: Db, results: seq<Object>, events: seq<Event>)
    | Failed(index: nat, error: Error)

  /** The first `n` requests run one after the other, stopping at the first refusal. */
  function Fold(env: Env, db: Db, w: Who, reqs: seq<Json>, ticks: seq<Tick>, n: nat): Progress
    requires n <= |reqs| && |reqs| == |ticks|
    decreases n
  {
    if n == 0 then Running(db, [], [])
    else match Fold(env, db, w, reqs, ticks, n - 1)
      case Failed(i, e) => Failed(i, e)
      case Running(d, results, events) =>
        match One(env, d, w, reqs[n - 1], ticks[n - 1])
        case Refused(e) => Failed(n - 1, e)
        case Wrote(next, response, event) => Running(next, results + [response], events + [event])
  }

  /** The fold reports the least failing index: every request before it succeeded, and it is refused
      on the very database that its prefix reached. */
  lemma {:induction false} LeastFailure(env: Env, db: Db, w: Who, reqs: seq<Json>, ticks: seq<Tick>, n: nat)
    requires n <= |reqs| && |reqs| == |ticks| && Fold(env, db, w, reqs, ticks, n).Failed?
    ensures var i := Fold(env, db, w, reqs, ticks, n).index;
            && i < n
            && Fold(env, db, w, reqs, ticks, i).Running?
            && One(env, Fold(env, db, w, reqs, ticks, i).db, w, reqs[i], ticks[i]) ==
               Refused(Fold(env, db, w, reqs, ticks, n).error)
  {
    hide One;
    if Fold(env, db, w, reqs, ticks, n - 1).Failed? {
      LeastFailure(env, db, w, reqs, ticks, n - 1);
    }
  }

  /** What the outside world sees: the database and what has been published so far. */
  datatype World = World(db: Db, log: seq<Event>)

  /** One standalone request: the core, then its event, published at once. */
  function Standalone(env: Env, s: World, w: Who, req: Json, tick: Tick): World {
    match One(env, s.db, w, req, tick)
    case Refused(_) => s
    case Wrote(next, _, event) => World(next, s.log + [event])
  }

  function AllStandalone(env: Env, s: World, w: Who, reqs: seq<Json>, ticks: seq<Tick>, n: nat): World
    requires n <= |reqs| && |reqs| == |ticks|
    decreases n
  {
    if n == 0 then s
    else Standalone(env, AllStandalone(env, s, w, reqs, ticks, n - 1), w, reqs[n - 1], ticks[n - 1])
  }

  /** The whole endpoint: all of the requests, or nothing at all. */
  function BatchWorld(env: Env, s: World, w: Who, reqs: seq<Json>, ticks: seq<Tick>): World
    requires |reqs| == |ticks|
  {
    match Fold(env, s.db, w, reqs, ticks, |reqs|)
    case Failed(_, _) => s
    case Running(db, _, events) => World(db, s.log + events)
  }

  const MAX_BATCH := 50

  datatype BatchReply =
    | AuthRequired
    | NotAnArray
    | TooMany
    | AtIndex(index: nat, error: Error)
    | Results(results: seq<Object>)

  /** What the endpoint answers. */
  function BatchReplyOf(env: Env, db: Db, w: Who, body: Json, ticks: seq<Tick>): BatchReply
    requires Member(body, "requests").JArr? ==> |ticks| == |Member(body, "requests").items|
  {
    var reqs := Member(body, "requests");
    if w.Guest? then AuthRequired
    else if !reqs.JArr? then NotAnArray
    else if |reqs.items| > MAX_BATCH then TooMany
    else match Fold(env, db, w, reqs.items, ticks, |reqs.items|)
      case Failed(i, e) => AtIndex(i, e)
      case Running(_, results, _) => Results(results)
  }

  /** As long as nothing is refused, the fold is where the standalone requests would be, event for
      event and in the same order. */
  lemma {:induction false} FoldIsStandalone(env: Env, s: World, w: Who, reqs: seq<Json>, ticks: seq<Tick>, n: nat)
    requires n <= |reqs| && |reqs| == |ticks| && Fold(env, s.db, w, reqs, ticks, n).Running?
    ensures AllStandalone(env, s, w, reqs, ticks, n) ==
            World(Fold(env, s.db, w, reqs, ticks, n).db, s.log + Fold(env, s.db, w, reqs, ticks, n).events)
    ensures |Fold(env, s.db, w, reqs, ticks, n).results| == n && |Fold(env, s.db, w, reqs, ticks, n).events| == n
  {
    hide One;
    if n > 0 {
      FoldIsStandalone(env, s, w, reqs, ticks, n - 1);
    } else {
      assert s.log + [] == s.log;
    }
  }

  /** A successful batch leaves the world exactly where the standalone requests, run in order by the
      same caller, would leave it; any refusal leaves the world untouched. */
  lemma BatchRefinesStandalone(env: Env, s: World, w: Who, reqs: seq<Json>, ticks: seq<Tick>)
    requires |reqs| == |ticks|
    ensures BatchWorld(env, s, w, reqs, ticks) ==
            if forall i :: 0 <= i < |reqs| ==>
                 One(env, AllStandalone(env, s, w, reqs, ticks, i).db, w, reqs[i], ticks[i]).Wrote?
            then AllStandalone(env, s, w, reqs, ticks, |reqs|) else s
  {
    hide One;
    if Fold(env, s.db, w, reqs, ticks, |reqs|).Running? {
      FoldIsStandalone(env, s, w, reqs, ticks, |reqs|);
      forall i | 0 <= i < |reqs|
        ensures One(env, AllStandalone(env, s, w, reqs, ticks, i).db, w, reqs[i], ticks[i]).Wrote?
      {
        RunningPrefix(env, s.db, w, reqs, ticks, i + 1, |reqs|);
        RunningPrefix(env, s.db, w, reqs, ticks, i, |reqs|);
        FoldIsStandalone(env, s, w, reqs, ticks, i);
      }
    } else {
      LeastFailure(env, s.db, w, reqs, ticks, |reqs|);
      var i := Fold(env, s.db, w, reqs, ticks, |reqs|).index;
      FoldIsStandalone(env, s, w, reqs, ticks, i);
      assert !One(env, AllStandalone(env, s, w, reqs, ticks, i).db, w, reqs[i], ticks[i]).Wrote?;
    }
  }

  lemma {:induction false} RunningPrefix(env: Env, db: Db, w: Who, reqs: seq<Json>, ticks: seq<Tick>, i: nat, n: nat)
    requires i <= n <= |reqs| && |reqs| == |ticks| && Fold(env, db, w, reqs, ticks, n).Running?
    ensures Fold(env, db, w, reqs, ticks, i).Running?
    decreases n
  {
    hide One;
    if i < n {
      RunningPrefix(env, db, w, reqs, ticks, i, n - 1);
    }
  }

  /** What request `j` does on the state that the ones before it, each run alone, have reached. */
  function StandaloneAt(env: Env, db: Db, w: Who, reqs: seq<Json>, ticks: seq<Tick>, j: nat): Effect
    requires j < |reqs| && |reqs| == |ticks|
  {
    One(env, AllStandalone(env, World(db, []), w, reqs, ticks, j).db, w, reqs[j], ticks[j])
  }

  /** What the endpoint answers: nothing for guests, for what is no list, and for more than 50
      requests. */
  lemma BatchTurnedAway(env: Env, db: Db, w: Who, body: Json, ticks: seq<Tick>)
    requires Member(body, "requests").JArr? ==> |ticks| == |Member(body, "requests").items|
    ensures BatchReplyOf(env, db, w, body, ticks).AuthRequired? <==> w.Guest?
    ensures BatchReplyOf(env, db, w, body, ticks).NotAnArray? <==> !w.Guest? && !Member(body, "requests").JArr?
    ensures BatchReplyOf(env, db, w, body, ticks).TooMany? <==>
              !w.Guest? && Member(body, "requests").JArr? && |Member(body, "requests").items| > 50
  {
    hide Fold;
  }

  /** To the others it answers with all the results if every request succeeds on the state the ones
      before it have reached, and else with the first that does not and its error. */
  lemma BatchAnswers(env: Env, db: Db, w: Who, body: Json, ticks: seq<Tick>, j: nat)
    requires Member(body, "requests").JArr? && |ticks| == |Member(body, "requests").items|
    ensures BatchReplyOf(env, db, w, body, ticks).Results? && j < |ticks| ==>
              && |BatchReplyOf(env, db, w, body, ticks).results| == |ticks|
              && StandaloneAt(env, db, w, Member(body, "requests").items, ticks, j).Wrote?
              && StandaloneAt(env, db, w, Member(body, "requests").items, ticks, j).response ==
                 BatchReplyOf(env, db, w, body, ticks).results[j]
    ensures BatchReplyOf(env, db, w, body, ticks).AtIndex? ==>
              && BatchReplyOf(env, db, w, body, ticks).index < |ticks|
              && StandaloneAt(env, db, w, Member(body, "requests").items, ticks,
                              BatchReplyOf(env, db, w, body, ticks).index) ==
                 Refused(BatchReplyOf(env, db, w, body, ticks).error)
              && (j < BatchReplyOf(env, db, w, body, ticks).index ==>
                    StandaloneAt(env, db, w, Member(body, "requests").items, ticks, j).Wrote?)
  {
    hide One, Fold;
    var reqs := Member(body, "requests").items;
    if Fold(env, db, w, reqs, ticks, |reqs|).Running? {
      PrefixResults(env, db, w, reqs, ticks, |reqs|, j);
    } else {
      LeastFailure(env, db, w, reqs, ticks, |reqs|);
      var i := Fold(env, db, w, reqs, ticks, |reqs|).index;
      PrefixResults(env, db, w, reqs, ticks, i, j);
      FoldIsStandalone(env, World(db, []), w, reqs, ticks, i);
    }
  }

  lemma {:induction false} PrefixResults(env: Env, db: Db, w: Who, reqs: seq<Json>, ticks: seq<Tick>, n: nat, j: nat)
    requires n <= |reqs| && |reqs| == |ticks| && Fold(env, db, w, reqs, ticks, n).Running?
    ensures |Fold(env, db, w, reqs, ticks, n).results| == n
    ensures j < n ==>
              && StandaloneAt(env, db, w, reqs, ticks, j).Wrote?
              && StandaloneAt(env, db, w, reqs, ticks, j).response == Fold(env, db, w, reqs, ticks, n).results[j]
  {
    hide One;
    if n > 0 {
      PrefixResults(env, db, w, reqs, ticks, n - 1, j);
      FoldIsStandalone(env, World(db, []), w, reqs, ticks, n - 1);
    }
  }
}
