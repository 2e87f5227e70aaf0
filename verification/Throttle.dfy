/**
 * The login throttle of src/auth.rs: failed logins counted per (collection, identity) in a shared
 * map, five in a row opening a cool-down.
 */
module Throttle {
  import opened Wrappers
  import opened Json
  import opened Sql
  import opened Rules
  import opened Records
  import opened Documents
  import opened RecordInvariants
  import opened Sessions

  const MAX_FAILS := 5
  /** Fifteen minutes. */
  const COOLDOWN := 900

  datatype Login = Login(col: string, identity: string)

  datatype Slot = Slot(n: nat, at: int)

  type Fails = map<Login, Slot>

  datatype Unserved = NoSuchCollection | NotAnAuthCollection

  /** What the credential check would say. */
  datatype Verdict = NotChecked(why: Unserved) | Wrong | Right(token: Claims, record: Object)

  datatype Answer = Throttled | NotServed(why: Unserved) | BadCredentials | Granted(token: Claims, record: Object)

  /** What the look-up by address may return: a record of the collection that has it, if any has. */
  ghost predicate Finds(o: Oracles, db: Db, key: Login, row: Option<Key>) {
    match row
    case None => forall k :: k in db.records && k.col == key.col ==> !HasEmail(o, db, k, key.identity)
    case Some(k) => k in db.records && k.col == key.col && HasEmail(o, db, k, key.identity)
  }

  /** The credential check on what the look-up returned. */
  function Judge(env: Env, db: Db, name: string, row: Option<Key>, password: string): Verdict {
    if name !in db.cols then NotChecked(NoSuchCollection)
    else if !db.cols[name].isAuth then NotChecked(NotAnAuthCollection)
    else if row.None? || row.value !in db.records then Wrong
    else if !env.verify(password, StrOr(Get(db.records[row.value].data, HASH), "")) then Wrong
    else match Mint(db, row.value)
      case None => Wrong
      case Some(token) => Right(token, RecordJson(row.value, db.records[row.value]))
  }

  // ------------------------------------------------------------------ the three critical sections

  predicate Locked(fails: Fails, key: Login, now: int) {
    key in fails && fails[key].n >= MAX_FAILS && now - fails[key].at < COOLDOWN
  }

  /** The map after an attempt that is not locked out has been admitted. */
  function Admitted(fails: Fails, key: Login): Fails {
    if key in fails && fails[key].n >= MAX_FAILS then fails - {key} else fails
  }

  function Rejected(fails: Fails, key: Login, now: int): Fails {
    fails[key := Slot((if key in fails then fails[key].n else 0) + 1, now)]
  }

  // ------------------------------------------------------------------ whole attempts

  datatype Attempt = Attempt(key: Login, arrive: int, decide: int, verdict: Verdict)

  function AnswerTo(fails: Fails, a: Attempt): Answer {
    if Locked(fails, a.key, a.arrive) then Throttled
    else match a.verdict
      case NotChecked(e) => NotServed(e)
      case Wrong => BadCredentials
      case Right(token, record) => Granted(token, record)
  }

  function After(fails: Fails, a: Attempt): Fails {
    if Locked(fails, a.key, a.arrive) then fails
    else
      var admitted := Admitted(fails, a.key);
      match a.verdict
      case NotChecked(_) => admitted
      case Wrong => Rejected(admitted, a.key, a.decide)
      case Right(_, _) => admitted - {a.key}
  }

  /** `auth_with_password`: three short critical sections on the shared map. */
  class LoginServer {
    var fails: Fails

    constructor ()
      ensures fails == map[]
    {
      fails := map[];
    }

    method Enter(key: Login, now: int) returns (ok: bool)
      modifies this
      ensures ok == !Locked(old(fails), key, now)
      ensures fails == if ok then Admitted(old(fails), key) else old(fails)
    {
      if key in fails {
        var slot := fails[key];
        if slot.n >= MAX_FAILS {
          if now - slot.at < COOLDOWN { return false; }
          fails := fails - {key};
        }
      }
      return true;
    }

    method Reject(key: Login, now: int)
      modifies this
      ensures fails == Rejected(old(fails), key, now)
    {
      if key !in fails { fails := fails[key := Slot(0, now)]; }
      fails := fails[key := Slot(fails[key].n + 1, now)];
    }

    method AuthWithPassword(
        env: Env, db: Db, key: Login, row: Option<Key>, password: string, arrive: int, decide: int)
      returns (answer: Answer)
      requires Finds(env.o, db, key, row)
      modifies this
      ensures var a := Attempt(key, arrive, decide, Judge(env, db, key.col, row, password));
              answer == AnswerTo(old(fails), a) && fails == After(old(fails), a)
      ensures answer.Throttled? <==> LockedOut(old(fails), key, arrive)
      ensures answer.Granted? <==> !LockedOut(old(fails), key, arrive) && Knows(env, db, key, row, password)
      ensures answer.Granted? ==> FromJwt(db, answer.token) == Some(User(key.col, row.value.id))
      ensures Counted(old(fails), fails, key, arrive, decide, answer)
    {
      hide RecordJson, HasEmail;
      LoginExactly(env, db, fails, key, row, password, arrive, decide);
      var ok := Enter(key, arrive);
      if !ok { return Throttled; }
      if key.col !in db.cols { return NotServed(NoSuchCollection); }
      if !db.cols[key.col].isAuth { return NotServed(NotAnAuthCollection); }
      if row.None? {
        Reject(key, decide);
        return BadCredentials;
      }
      var rec := db.records[row.value];
      if !env.verify(password, StrOr(Get(rec.data, HASH), "")) {
        Reject(key, decide);
        return BadCredentials;
      }
      var epoch := TokenEpoch(rec.data);
      if epoch.None? {
        Reject(key, decide);
        return BadCredentials;
      }
      fails := fails - {key};
      return Granted(Claims(key.col, row.value.id, epoch.value), RecordJson(row.value, rec));
    }
  }

  // ------------------------------------------------------------------ when a login is granted

  /** Five failures or more, the last of them less than fifteen minutes ago. */
  predicate LockedOut(fails: Fails, key: Login, now: int) {
    key in fails && fails[key].n >= 5 && now < fails[key].at + 15 * 60
  }

  /** The epoch a document can be read as having. */
  predicate HasEpoch(data: Object, epoch: int) {
    At(data, "token_epoch") == Some(JInt(epoch)) || (At(data, "token_epoch") == None && epoch == 0)
  }

  /** The address is that of a record of an auth collection, the password matches the hash stored there,
      and its epoch can be read. */
  predicate Knows(env: Env, db: Db, key: Login, row: Option<Key>, password: string) {
    && key.col in db.cols && db.cols[key.col].isAuth && row.Some? && row.value in db.records
    && var data := db.records[row.value].data;
       && env.verify(password, if Get(data, "password_hash").JStr? then Get(data, "password_hash").s else "")
       && (At(data, "token_epoch") == None || Get(data, "token_epoch").JInt?)
  }

  /** What the attempt leaves in the map: nothing changes for a locked key, a success clears its key, a
      rejected check counts one more, from one again after a served cool-down, and a cool-down that
      was served is forgotten even if nothing is checked. Other keys are never touched. */
  ghost predicate Counted(fails: Fails, after: Fails, key: Login, arrive: int, decide: int, answer: Answer) {
    && (forall k | k != key :: (k in fails <==> k in after) && (k in fails ==> fails[k] == after[k]))
    && match answer
       case Throttled => after == fails
       case Granted(_, _) => key !in after
       case BadCredentials =>
         key in after && after[key] == Slot(if key in fails && fails[key].n < 5 then fails[key].n + 1 else 1, decide)
       case NotServed(_) =>
         if key in fails && fails[key].n < 5 then key in after && after[key] == fails[key] else key !in after
  }

  /** Exactly when a login is granted, and everything it answers: locked keys are turned away, until the
      very moment their cool-down is over; otherwise it is granted if and only if the caller knows the
      password, with a token that is accepted and the record without its secrets. */
  lemma LoginExactly(
      env: Env, db: Db, fails: Fails, key: Login, row: Option<Key>, password: string, arrive: int, decide: int)
    requires Finds(env.o, db, key, row)
    ensures var a := AnswerTo(fails, Attempt(key, arrive, decide, Judge(env, db, key.col, row, password)));
            && (a.Throttled? <==> LockedOut(fails, key, arrive))
            && (a.Granted? <==> !LockedOut(fails, key, arrive) && Knows(env, db, key, row, password))
            && (a.Granted? ==>
                  && a.token.col == key.col && a.token.sub == row.value.id
                  && HasEpoch(db.records[row.value].data, a.token.epoch)
                  && FromJwt(db, a.token) == Some(User(key.col, row.value.id))
                  && Shows(a.record, row.value, db.records[row.value]))
            && (a == NotServed(NoSuchCollection) <==> !LockedOut(fails, key, arrive) && key.col !in db.cols)
            && (a == NotServed(NotAnAuthCollection) <==>
                  !LockedOut(fails, key, arrive) && key.col in db.cols && !db.cols[key.col].isAuth)
    ensures Counted(fails, After(fails, Attempt(key, arrive, decide, Judge(env, db, key.col, row, password))), key,
                    arrive, decide,
                    AnswerTo(fails, Attempt(key, arrive, decide, Judge(env, db, key.col, row, password))))
  {
    hide RecordJson, HasEmail, Shows;
    if row.Some? {
      ShownExactly(row.value, db.records[row.value]);
    }
  }

  // ------------------------------------------------------------------ runs of attempts

  function Final(fails: Fails, run: seq<Attempt>): Fails {
    if run == [] then fails else After(Final(fails, run[..|run| - 1]), run[|run| - 1])
  }

  function AnswerAt(fails: Fails, run: seq<Attempt>, i: nat): Answer
    requires i < |run|
  {
    AnswerTo(Final(fails, run[..i]), run[i])
  }

  /** When the password checks on `key` were rejected. */
  function Rejections(fails: Fails, run: seq<Attempt>, key: Login): seq<int> {
    if run == [] then []
    else
      var last := |run| - 1;
      var rest := Rejections(fails, run[..last], key);
      if run[last].key == key && AnswerAt(fails, run, last).BadCredentials? then rest + [run[last].decide] else rest
  }

  /** Attempts on `key` come one after the other, the last of them decided by `clock`. Attempts on
      other keys may come at any time. */
  predicate Serialised(run: seq<Attempt>, key: Login, clock: int) {
    && (forall i :: 0 <= i < |run| && run[i].key == key ==> run[i].arrive <= run[i].decide <= clock)
    && (forall i, j :: 0 <= i < j < |run| && run[i].key == key && run[j].key == key ==>
                         run[i].decide <= run[j].arrive)
  }

  predicate NoSuccess(fails: Fails, run: seq<Attempt>, key: Login) {
    forall i :: 0 <= i < |run| && run[i].key == key ==> !AnswerAt(fails, run, i).Granted?
  }

  /** The rejections so far come in groups of five, each group starting a cool-down after the end of
      the one before; the slot counts the open group and remembers its latest rejection. */
  ghost predicate Grouped(fails: Fails, key: Login, rs: seq<int>, clock: int) {
    && (forall i, j :: 0 <= i < j < |rs| ==> rs[i] <= rs[j])
    && (forall i :: 0 <= i < |rs| ==> rs[i] <= clock)
    && (forall q :: 0 < q && 5 * q < |rs| ==> rs[5 * q] - rs[5 * q - 1] >= COOLDOWN)
    && (if key in fails then
          && 1 <= fails[key].n <= MAX_FAILS && |rs| >= fails[key].n && (|rs| - fails[key].n) % 5 == 0
          && fails[key].at == rs[|rs| - 1]
        else
          |rs| % 5 == 0 && (rs != [] ==> clock - rs[|rs| - 1] >= COOLDOWN))
  }

  lemma {:induction false} RunGrouped(fails: Fails, run: seq<Attempt>, key: Login, clock: int)
    requires key !in fails && Serialised(run, key, clock) && NoSuccess(fails, run, key)
    ensures Grouped(Final(fails, run), key, Rejections(fails, run, key), clock)
  {
    hide After, AnswerTo, Grouped;
    if run == [] {
      NoneGrouped(fails, key, clock);
    } else {
      var last := |run| - 1;
      var prior := run[..last];
      assert forall i :: 0 <= i < |prior| ==> prior[i] == run[i] && prior[..i] == run[..i];
      assert forall i :: 0 <= i < |prior| ==> AnswerAt(fails, prior, i) == AnswerAt(fails, run, i);
      if run[last].key == key {
        RunGrouped(fails, prior, key, run[last].arrive);
        assert !AnswerAt(fails, run, last).Granted?;
        AttemptGrouped(Final(fails, prior), run[last], Rejections(fails, prior, key), clock);
      } else {
        RunGrouped(fails, prior, key, clock);
        OtherGrouped(Final(fails, prior), run[last], key, Rejections(fails, prior, key), clock);
      }
    }
  }

  lemma NoneGrouped(fails: Fails, key: Login, clock: int)
    requires key !in fails
    ensures Grouped(fails, key, [], clock)
  {
  }

  lemma AttemptGrouped(fails: Fails, a: Attempt, rs: seq<int>, clock: int)
    requires Grouped(fails, a.key, rs, a.arrive) && a.arrive <= a.decide <= clock && !AnswerTo(fails, a).Granted?
    ensures Grouped(After(fails, a), a.key, if AnswerTo(fails, a).BadCredentials? then rs + [a.decide] else rs, clock)
  {
  }

  lemma OtherGrouped(fails: Fails, a: Attempt, key: Login, rs: seq<int>, clock: int)
    requires Grouped(fails, key, rs, clock) && a.key != key
    ensures Grouped(After(fails, a), key, rs, clock)
  {
  }

  lemma FiveApart(fails: Fails, key: Login, rs: seq<int>, clock: int, j: nat)
    requires Grouped(fails, key, rs, clock) && j + 5 < |rs|
    ensures rs[j + 5] - rs[j] >= COOLDOWN
  {
    var q := j / 5 + 1;
    assert j < 5 * q <= j + 5;
    assert rs[j] <= rs[5 * q - 1] && rs[5 * q] <= rs[j + 5];
  }

  lemma {:induction false} GroupsApart(fails: Fails, key: Login, rs: seq<int>, clock: int, j: nat, m: nat)
    requires Grouped(fails, key, rs, clock) && j + 5 * m < |rs|
    ensures rs[j + 5 * m] - rs[j] >= m * COOLDOWN
  {
    hide Grouped;
    if m > 0 {
      GroupsApart(fails, key, rs, clock, j, m - 1);
      FiveApart(fails, key, rs, clock, j + 5 * (m - 1));
    }
  }

  // ------------------------------------------------------------------ the bound

  /** How many of the times fall in the window. */
  function CountIn(rs: seq<int>, lo: int, hi: int): nat {
    if rs == [] then 0
    else CountIn(rs[..|rs| - 1], lo, hi) + (if lo <= rs[|rs| - 1] <= hi then 1 else 0)
  }

  lemma {:induction false} CountFrom(rs: seq<int>, lo: int, hi: int, k: nat)
    requires k <= |rs| && forall i :: 0 <= i < k ==> rs[i] < lo
    ensures CountIn(rs, lo, hi) <= |rs| - k
    decreases |rs|
  {
    if rs != [] {
      CountFrom(rs[..|rs| - 1], lo, hi, if k == |rs| then k - 1 else k);
    }
  }

  /** Times of which no two that are `n` apart fit in the window: at most `n` of them are in it. */
  lemma {:induction false} SparseCount(rs: seq<int>, lo: int, hi: int, n: nat)
    requires forall i, j :: 0 <= i < j < |rs| ==> rs[i] <= rs[j]
    requires forall j :: 0 <= j && j + n < |rs| ==> rs[j + n] - rs[j] > hi - lo
    ensures CountIn(rs, lo, hi) <= n
    decreases |rs|
  {
    if rs != [] {
      var last := |rs| - 1;
      if lo <= rs[last] <= hi {
        if n <= last {
          var k := last - n;
          assert rs[k + n] - rs[k] > hi - lo;
          assert forall i :: 0 <= i <= k ==> rs[i] <= rs[k];
          CountFrom(rs, lo, hi, k + 1);
        } else {
          CountFrom(rs, lo, hi, 0);
        }
      } else {
        SparseCount(rs[..last], lo, hi, n);
      }
    }
  }

  /** The throttle's promise. From a fresh start or a success on, and until the next success, any
      window of `length` seconds holds at most 5 * (1 + floor(length / 900)) rejected password checks
      for one collection and identity, whatever happens on the others. */
  lemma GuessesBounded(fails: Fails, run: seq<Attempt>, key: Login, clock: int, lo: int, length: nat)
    requires key !in fails && Serialised(run, key, clock) && NoSuccess(fails, run, key)
    ensures CountIn(Rejections(fails, run, key), lo, lo + length) <= 5 * (1 + length / COOLDOWN)
  {
    hide Grouped, Serialised, NoSuccess, Rejections, Final, CountIn;
    RunGrouped(fails, run, key, clock);
    var end, rs, m := Final(fails, run), Rejections(fails, run, key), 1 + length / COOLDOWN;
    forall j | 0 <= j && j + 5 * m < |rs|
      ensures rs[j + 5 * m] - rs[j] > length
    {
      GroupsApart(end, key, rs, clock, j, m);
      assert m * COOLDOWN > length;
    }
    GroupedSorted(end, key, rs, clock);
    SparseCount(rs, lo, lo + length, 5 * m);
  }

  lemma GroupedSorted(fails: Fails, key: Login, rs: seq<int>, clock: int)
    requires Grouped(fails, key, rs, clock)
    ensures forall i, j :: 0 <= i < j < |rs| ==> rs[i] <= rs[j]
  {
  }

  /** The bound is met: five wrong guesses at one moment are all checked. */
  lemma FiveAreChecked(key: Login, t: int)
    ensures var guess := Attempt(key, t, t, Wrong);
            Rejections(map[], [guess, guess, guess, guess, guess], key) == [t, t, t, t, t]
  {
    var guess := Attempt(key, t, t, Wrong);
    var run := [guess, guess, guess, guess, guess];
    assert run[..4][..3] == run[..3] && run[..3][..2] == run[..2] && run[..2][..1] == run[..1] && run[..1][..0] == [];
    assert Final(map[], run[..1]) == map[key := Slot(1, t)];
    assert Final(map[], run[..2]) == map[key := Slot(2, t)];
    assert Final(map[], run[..3]) == map[key := Slot(3, t)];
    assert Final(map[], run[..4]) == map[key := Slot(4, t)];
    assert Rejections(map[], run[..1], key) == [t];
    assert Rejections(map[], run[..2], key) == [t, t];
    assert Rejections(map[], run[..3], key) == [t, t, t];
    assert Rejections(map[], run[..4], key) == [t, t, t, t];
  }

  // ------------------------------------------------------------------ isolation

  /** The attempts on one key. */
  function Only(run: seq<Attempt>, key: Login): seq<Attempt> {
    if run == [] then []
    else
      var rest := Only(run[..|run| - 1], key);
      if run[|run| - 1].key == key then rest + [run[|run| - 1]] else rest
  }

  /** The answers given to attempts on one key. */
  function Answers(fails: Fails, run: seq<Attempt>, key: Login): seq<Answer> {
    if run == [] then []
    else
      var last := |run| - 1;
      var rest := Answers(fails, run[..last], key);
      if run[last].key == key then rest + [AnswerAt(fails, run, last)] else rest
  }

  predicate SameSlot(a: Fails, b: Fails, key: Login) {
    (key in a <==> key in b) && (key in a ==> a[key] == b[key])
  }

  /** Attempts on other keys never change an answer: every caller is answered as if alone. */
  lemma {:induction false} KeysIsolated(fails: Fails, run: seq<Attempt>, key: Login)
    ensures Answers(fails, run, key) == Answers(fails, Only(run, key), key)
    ensures SameSlot(Final(fails, run), Final(fails, Only(run, key)), key)
  {
    if run != [] {
      var last := |run| - 1;
      KeysIsolated(fails, run[..last], key);
      if run[last].key == key {
        var only := Only(run[..last], key);
        assert (only + [run[last]])[..|only|] == only;
      }
    }
  }

  // ------------------------------------------------------------------ concurrent attempts

  /** The map, and the keys of the attempts admitted but not yet decided. */
  datatype Flight = Flight(fails: Fails, pending: multiset<Login>)

  datatype FlightStep =
    | Arrive(key: Login, now: int)
    | RejectOne(key: Login, now: int)
    | Succeed(key: Login)
    | Leave(key: Login)

  predicate CanFly(s: Flight, step: FlightStep, w: nat) {
    match step
    case Arrive(key, now) => Locked(s.fails, key, now) || s.pending[key] < w
    case RejectOne(key, _) => key in s.pending
    case Succeed(key) => key in s.pending
    case Leave(key) => key in s.pending
  }

  function Fly(s: Flight, step: FlightStep): Flight {
    match step
    case Arrive(key, now) =>
      if Locked(s.fails, key, now) then s else Flight(Admitted(s.fails, key), s.pending + multiset{key})
    case RejectOne(key, now) => Flight(Rejected(s.fails, key, now), s.pending - multiset{key})
    case Succeed(key) => Flight(s.fails - {key}, s.pending - multiset{key})
    case Leave(key) => s.(pending := s.pending - multiset{key})
  }

  predicate LegalFlight(s: Flight, steps: seq<FlightStep>, w: nat)
    decreases |steps|
  {
    steps == [] || (CanFly(s, steps[0], w) && LegalFlight(Fly(s, steps[0]), steps[1..], w))
  }

  function FlyAll(s: Flight, steps: seq<FlightStep>): Flight
    decreases |steps|
  {
    if steps == [] then s else FlyAll(Fly(s, steps[0]), steps[1..])
  }

  function CounterOf(fails: Fails, key: Login): nat {
    if key in fails then fails[key].n else 0
  }

  /** What is counted and what may still be counted. */
  predicate Bounded(s: Flight, key: Login, w: nat) {
    s.pending[key] <= w && CounterOf(s.fails, key) + s.pending[key] <= MAX_FAILS - 1 + w
  }

  /** With at most `w` attempts on a key in flight at once, its counter never passes 4 + w, in any
      interleaving of their critical sections: a lock-out can be overrun by those already admitted,
      and by no others. */
  lemma {:induction false} CounterBounded(s: Flight, steps: seq<FlightStep>, key: Login, w: nat)
    requires w >= 1 && Bounded(s, key, w) && LegalFlight(s, steps, w)
    ensures Bounded(FlyAll(s, steps), key, w) && CounterOf(FlyAll(s, steps).fails, key) <= 4 + w
    decreases |steps|
  {
    if steps != [] {
      CounterBounded(Fly(s, steps[0]), steps[1..], key, w);
    }
  }

  /** When the password checks on `key` were rejected, in an interleaved run. */
  function RejectTimes(steps: seq<FlightStep>, key: Login): seq<int> {
    if steps == [] then []
    else (if steps[0].RejectOne? && steps[0].key == key then [steps[0].now] else []) + RejectTimes(steps[1..], key)
  }

  /** The clock does not go back between steps on `key`, from `clock` on, and none of them succeeds. */
  predicate OnClock(steps: seq<FlightStep>, key: Login, clock: int) {
    steps == [] ||
    if steps[0].key != key then OnClock(steps[1..], key, clock)
    else if steps[0].Succeed? then false
    else if steps[0].Leave? then OnClock(steps[1..], key, clock)
    else clock <= steps[0].now && OnClock(steps[1..], key, steps[0].now)
  }

  /** The rejections so far: the slot counts the latest of them, which came after the cool-down of all
      the others, and no `5 + w` of them lie within one cool-down. */
  ghost predicate Spaced(fails: Fails, key: Login, rs: seq<int>, clock: int, w: nat) {
    var c := CounterOf(fails, key);
    && c <= |rs| && (key in fails ==> c >= 1 && fails[key].at == rs[|rs| - 1])
    && (forall i, j :: 0 <= i < j < |rs| ==> rs[i] <= rs[j])
    && (forall i :: 0 <= i < |rs| ==> rs[i] <= clock)
    && (forall i :: 0 <= i < |rs| - c ==> (if c == 0 then clock else rs[|rs| - c]) - rs[i] >= COOLDOWN)
    && (forall j :: 0 <= j && j + (4 + w) < |rs| ==> rs[j + (4 + w)] - rs[j] >= COOLDOWN)
  }

  /** The clock after a step on `key`. */
  function Ticked(step: FlightStep, key: Login, clock: int): int {
    if step.key == key && (step.Arrive? || step.RejectOne?) then step.now else clock
  }

  lemma FlySpaced(s: Flight, step: FlightStep, key: Login, rs: seq<int>, clock: int, w: nat)
    requires w >= 1 && Bounded(s, key, w) && CanFly(s, step, w) && Spaced(s.fails, key, rs, clock, w)
    requires step.key == key ==> !step.Succeed? && clock <= Ticked(step, key, clock)
    ensures Spaced(Fly(s, step).fails, key, rs + RejectTimes([step], key), Ticked(step, key, clock), w)
  {
    hide RejectTimes;
    OneReject(step, key);
    assert rs + [] == rs;
    if step.key == key {
      match step {
        case Arrive(_, now) => ArriveSpaced(s.fails, key, now, rs, clock, w);
        case RejectOne(_, now) =>
          assert s.pending[key] >= 1;
          RejectSpaced(s.fails, key, now, rs, clock, w);
        case _ =>
      }
    }
  }

  lemma OneReject(step: FlightStep, key: Login)
    ensures RejectTimes([step], key) == if step.RejectOne? && step.key == key then [step.now] else []
  {
  }

  lemma ArriveSpaced(fails: Fails, key: Login, now: int, rs: seq<int>, clock: int, w: nat)
    requires Spaced(fails, key, rs, clock, w) && clock <= now
    ensures Spaced(fails, key, rs, now, w)
    ensures !Locked(fails, key, now) ==> Spaced(Admitted(fails, key), key, rs, now, w)
  {
  }

  lemma RejectSpaced(fails: Fails, key: Login, now: int, rs: seq<int>, clock: int, w: nat)
    requires Spaced(fails, key, rs, clock, w) && clock <= now && CounterOf(fails, key) + 1 <= 4 + w
    ensures Spaced(Rejected(fails, key, now), key, rs + [now], now, w)
  {
    var c, more := CounterOf(fails, key), rs + [now];
    assert CounterOf(Rejected(fails, key, now), key) == c + 1;
    forall j | 0 <= j && j + (4 + w) < |more|
      ensures more[j + (4 + w)] - more[j] >= COOLDOWN
    {
      assert more[j] == rs[j];
      if j + (4 + w) == |rs| {
        assert j < |rs| - c;
      }
    }
  }

  lemma {:induction false} RunSpaced(
      s: Flight, steps: seq<FlightStep>, key: Login, rs: seq<int>, clock: int, w: nat) returns (end: int)
    requires w >= 1 && Bounded(s, key, w) && LegalFlight(s, steps, w) && OnClock(steps, key, clock)
    requires Spaced(s.fails, key, rs, clock, w)
    ensures Spaced(FlyAll(s, steps).fails, key, rs + RejectTimes(steps, key), end, w)
    decreases |steps|
  {
    hide Spaced, Bounded, CanFly, Fly;
    end := clock;
    if steps == [] {
      assert rs + [] == rs;
    } else {
      FlySpaced(s, steps[0], key, rs, clock, w);
      CounterBounded(s, [steps[0]], key, w);
      FlyOne(s, steps[0]);
      var more := RejectTimes([steps[0]], key);
      end := RunSpaced(Fly(s, steps[0]), steps[1..], key, rs + more, Ticked(steps[0], key, clock), w);
      OneReject(steps[0], key);
      assert rs + RejectTimes(steps, key) == (rs + more) + RejectTimes(steps[1..], key);
    }
  }

  lemma FlyOne(s: Flight, step: FlightStep)
    ensures FlyAll(s, [step]) == Fly(s, step)
    ensures forall w :: LegalFlight(s, [step], w) <==> CanFly(s, step, w)
  {
  }

  /** The promise under concurrency. With at most `w` attempts on a key in flight at once, in any
      interleaving of their critical sections, from a state in which the key has no failures and
      until a success on it, any window of `length` seconds holds at most
      (4 + w) * (1 + floor(length / 900)) rejected password checks on it. */
  lemma GuessesBoundedInFlight(s: Flight, steps: seq<FlightStep>, key: Login, clock: int, w: nat, lo: int, length: nat)
    requires w >= 1 && key !in s.fails && s.pending[key] <= w
    requires LegalFlight(s, steps, w) && OnClock(steps, key, clock)
    ensures CountIn(RejectTimes(steps, key), lo, lo + length) <= (4 + w) * (1 + length / COOLDOWN)
  {
    hide LegalFlight, OnClock, FlyAll, RejectTimes, CountIn, Spaced, Bounded;
    var rs := RejectTimes(steps, key);
    FreshSpaced(s, key, clock, w);
    var end := RunSpaced(s, steps, key, [], clock, w);
    assert [] + rs == rs;
    SpacedSorted(FlyAll(s, steps).fails, key, rs, end, w);
    WindowHolds(rs, 4 + w, 1 + length / COOLDOWN, lo, length);
  }

  lemma FreshSpaced(s: Flight, key: Login, clock: int, w: nat)
    requires key !in s.fails && s.pending[key] <= w
    ensures Spaced(s.fails, key, [], clock, w) && Bounded(s, key, w)
  {
  }

  lemma SpacedSorted(fails: Fails, key: Login, rs: seq<int>, clock: int, w: nat)
    requires Spaced(fails, key, rs, clock, w)
    ensures forall i, j :: 0 <= i < j < |rs| ==> rs[i] <= rs[j]
    ensures forall j :: 0 <= j && j + (4 + w) < |rs| ==> rs[j + (4 + w)] - rs[j] >= COOLDOWN
  {
  }

  lemma {:induction false} GroupsOf(rs: seq<int>, g: nat, j: nat, m: nat)
    requires forall i :: 0 <= i && i + g < |rs| ==> rs[i + g] - rs[i] >= COOLDOWN
    requires j + g * m < |rs|
    ensures rs[j + g * m] - rs[j] >= m * COOLDOWN
  {
    if m > 0 {
      assert g * m == g * (m - 1) + g;
      GroupsOf(rs, g, j, m - 1);
      var i := j + g * (m - 1);
      assert rs[i + g] - rs[i] >= COOLDOWN;
    }
  }

  /** Times of which no `g + 1` fit in one cool-down. */
  lemma WindowHolds(rs: seq<int>, g: nat, m: nat, lo: int, length: nat)
    requires forall i, j :: 0 <= i < j < |rs| ==> rs[i] <= rs[j]
    requires forall i :: 0 <= i && i + g < |rs| ==> rs[i + g] - rs[i] >= COOLDOWN
    requires m == 1 + length / COOLDOWN
    ensures CountIn(rs, lo, lo + length) <= g * m
  {
    hide CountIn;
    forall j | 0 <= j && j + g * m < |rs|
      ensures rs[j + g * m] - rs[j] > length
    {
      GroupsOf(rs, g, j, m);
    }
    SparseCount(rs, lo, lo + length, g * m);
  }
}
