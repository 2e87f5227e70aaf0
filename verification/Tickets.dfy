/**
 * Single-use tickets (src/auth.rs) under interleaved deferred transactions. A confirm reads on a
 * snapshot, and may upgrade to writing only when nothing has been committed since and nobody else is
 * writing; every other write is a committed statement of its own.
 */
module Tickets {
  import opened Wrappers
  import opened Json
  import opened Rules
  import opened Records

  datatype Kind = Reset(password: Json) | Verify

  /** What a confirm handler was called with. */
  datatype Call = Call(kind: Kind, name: string, token: string)

  /** Where its transaction stands. `at` is the clock when the ticket was looked up. */
  datatype Tx =
    | Idle
    | Taken(call: Call, at: int, snap: Db, seen: nat)
    | Changed(call: Call, at: int, ts: string, local: Db)
    | Burnt(call: Call, at: int, ts: string, local: Db)

  datatype Spend = Spend(call: Call, at: int)

  /** `version` counts commits; `lock` is the transaction that may write. `issued` and `spent`
      record what has happened and influence nothing. */
  datatype State = State(
    db: Db, version: nat, lock: Option<nat>, txs: seq<Tx>, issued: map<string, Ticket>, spent: seq<Spend>)

  datatype Step =
    | Take(i: nat, call: Call, now: int)
    | Change(i: nat, ts: string)
    | BurnTicket(i: nat)
    | Commit(i: nat)
    | Fail(i: nat)
    | IssueTicket(name: string, record: string, ty: TicketType, token: string, now: int)
    | OtherWrite(next: Db)

  function TypeOf(kind: Kind): TicketType {
    if kind.Reset? then ResetTicket else VerifyTicket
  }

  predicate CanSpend(db: Db, call: Call, now: int) {
    Spendable(db, call.name, TypeOf(call.kind), call.token, now)
  }

  /** The change a ticket authorises, made on `db`; None when the record core refuses it. */
  function ChangeOf(env: Env, db: Db, call: Call, ts: string): Option<Db>
    requires call.token in db.tickets
  {
    var k := Key(call.name, db.tickets[call.token].record);
    match call.kind
    case Reset(password) =>
      (match Update(env, db, Admin, k, JObj(map["password" := password]), ts)
       case Refused(_) => None
       case Wrote(next, _, _) => Some(next))
    case Verify =>
      if k !in db.records then Some(db)
      else Some(Put(db, k, Rec(db.records[k].data[VERIFIED := JBool(true)], db.records[k].created, ts)))
  }

  // ------------------------------------------------------------------ steps

  predicate CanUpgrade(s: State, i: nat) {
    i < |s.txs| && s.txs[i].Taken? && s.lock.None? && s.txs[i].seen == s.version
  }

  predicate Enabled(env: Env, s: State, step: Step) {
    match step
    case Take(i, _, _) => i < |s.txs| && s.txs[i].Idle?
    case Change(i, ts) =>
      CanUpgrade(s, i) && s.txs[i].call.token in s.txs[i].snap.tickets &&
      ChangeOf(env, s.txs[i].snap, s.txs[i].call, ts).Some?
    case BurnTicket(i) => i < |s.txs| && s.txs[i].Changed?
    case Commit(i) => i < |s.txs| && s.txs[i].Burnt?
    case Fail(i) => i < |s.txs| && !s.txs[i].Idle?
    case IssueTicket(_, _, _, token, _) => s.lock.None? && token !in s.issued
    case OtherWrite(next) => s.lock.None? && next.tickets == s.db.tickets
  }

  /** A refused look-up ends the request at once; a failure anywhere later drops the transaction. */
  function Next(env: Env, s: State, step: Step): (n: State)
    requires Enabled(env, s, step)
    ensures |n.txs| == |s.txs|
  {
    match step
    case Take(i, call, now) =>
      if CanSpend(s.db, call, now) then s.(txs := s.txs[i := Taken(call, now, s.db, s.version)]) else s
    case Change(i, ts) =>
      var tx := s.txs[i];
      s.(lock := Some(i), txs := s.txs[i := Changed(tx.call, tx.at, ts, ChangeOf(env, tx.snap, tx.call, ts).value)])
    case BurnTicket(i) =>
      var tx := s.txs[i];
      s.(txs := s.txs[i := Burnt(tx.call, tx.at, tx.ts, Burn(tx.local, tx.call.token))])
    case Commit(i) =>
      var tx := s.txs[i];
      s.(db := tx.local, version := s.version + 1, lock := None, txs := s.txs[i := Idle],
         spent := s.spent + [Spend(tx.call, tx.at)])
    case Fail(i) => s.(lock := if s.lock == Some(i) then None else s.lock, txs := s.txs[i := Idle])
    case IssueTicket(name, record, ty, token, now) =>
      var db := Issue(s.db, name, record, ty, token, now);
      s.(db := db, version := s.version + 1, issued := s.issued[token := db.tickets[token]])
    case OtherWrite(next) => s.(db := next, version := s.version + 1)
  }

  // ------------------------------------------------------------------ the invariant

  predicate IsSpent(spent: seq<Spend>, token: string) {
    exists j :: 0 <= j < |spent| && spent[j].call.token == token
  }

  /** The outstanding tickets are the issued ones that no committed confirm has spent. */
  predicate Outstanding(s: State) {
    && (forall t :: t in s.db.tickets ==> t in s.issued && s.issued[t] == s.db.tickets[t])
    && (forall t :: t in s.issued ==> (t in s.db.tickets <==> !IsSpent(s.spent, t)))
  }

  predicate SpentProperly(issued: map<string, Ticket>, spent: seq<Spend>) {
    && (forall j :: 0 <= j < |spent| ==> SpendOk(issued, spent[j]))
    && (forall i, j :: 0 <= i < j < |spent| ==> spent[i].call.token != spent[j].call.token)
  }

  /** Spent for the collection and purpose it was issued for, and before it expired. */
  predicate SpendOk(issued: map<string, Ticket>, x: Spend) {
    && x.call.token in issued
    && issued[x.call.token].col == x.call.name
    && issued[x.call.token].ty == TypeOf(x.call.kind)
    && issued[x.call.token].expires > x.at
  }

  predicate TxOk(env: Env, s: State, i: nat)
    requires i < |s.txs|
  {
    match s.txs[i]
    case Idle => true
    case Taken(call, at, snap, seen) =>
      seen <= s.version && CanSpend(snap, call, at) && (seen == s.version ==> snap == s.db)
    case Changed(call, at, ts, local) =>
      s.lock == Some(i) && CanSpend(s.db, call, at) && ChangeOf(env, s.db, call, ts) == Some(local)
    case Burnt(call, at, ts, local) =>
      && s.lock == Some(i) && CanSpend(s.db, call, at) && ChangeOf(env, s.db, call, ts).Some?
      && local == Burn(ChangeOf(env, s.db, call, ts).value, call.token)
  }

  predicate Inv(env: Env, s: State) {
    && Outstanding(s)
    && SpentProperly(s.issued, s.spent)
    && forall i :: 0 <= i < |s.txs| ==> TxOk(env, s, i)
  }

  /** A server with outstanding tickets and no confirm under way. */
  predicate Start(s: State) {
    && s.issued == s.db.tickets && s.spent == [] && s.lock.None?
    && forall i :: 0 <= i < |s.txs| ==> s.txs[i].Idle?
  }

  lemma ChangeKeepsTickets(env: Env, db: Db, call: Call, ts: string)
    requires call.token in db.tickets && ChangeOf(env, db, call, ts).Some?
    ensures ChangeOf(env, db, call, ts).value.tickets == db.tickets
  {
    hide Gate, Merge, PatchRefused, BodyOk, RelationsOk, RecordJson;
  }

  lemma StepKeeps(env: Env, s: State, step: Step)
    requires Inv(env, s) && Enabled(env, s, step)
    ensures Inv(env, Next(env, s, step))
  {
    hide Inv, ChangeOf, Outstanding, SpentProperly, TxOk;
    TicketsKept(env, s, step);
    forall i | 0 <= i < |s.txs|
      ensures TxOk(env, Next(env, s, step), i)
    {
      TxKept(env, s, step, i);
    }
    FoldInv(env, Next(env, s, step));
  }

  lemma FoldInv(env: Env, s: State)
    requires Outstanding(s) && SpentProperly(s.issued, s.spent) && forall i :: 0 <= i < |s.txs| ==> TxOk(env, s, i)
    ensures Inv(env, s)
  {
  }

  lemma TxKept(env: Env, s: State, step: Step, i: nat)
    requires Inv(env, s) && Enabled(env, s, step) && i < |s.txs|
    ensures TxOk(env, Next(env, s, step), i)
  {
    hide ChangeOf, Outstanding, SpentProperly, Burn, Issue;
    assert TxOk(env, s, i);
    if step.Commit? || step.Change? || step.BurnTicket? || step.Fail? {
      assert TxOk(env, s, step.i);
    }
  }

  lemma TicketsKept(env: Env, s: State, step: Step)
    requires Inv(env, s) && Enabled(env, s, step)
    ensures Outstanding(Next(env, s, step))
    ensures SpentProperly(Next(env, s, step).issued, Next(env, s, step).spent)
  {
    hide ChangeOf, IsSpent;
    var n := Next(env, s, step);
    if step.Commit? {
      var tx := s.txs[step.i];
      assert TxOk(env, s, step.i);
      ChangeKeepsTickets(env, s.db, tx.call, tx.ts);
      SpentMore(s.spent, Spend(tx.call, tx.at));
      NotSpentIndex(s.spent, tx.call.token);
    } else if step.IssueTicket? {
      IssuedSpends(s.issued, s.spent, step.token);
    }
  }

  lemma SpentMore(spent: seq<Spend>, x: Spend)
    ensures forall t :: IsSpent(spent + [x], t) <==> IsSpent(spent, t) || t == x.call.token
  {
    forall t
      ensures IsSpent(spent + [x], t) <==> IsSpent(spent, t) || t == x.call.token
    {
      if IsSpent(spent, t) {
        var j :| 0 <= j < |spent| && spent[j].call.token == t;
        assert (spent + [x])[j].call.token == t;
      }
      assert (spent + [x])[|spent|] == x;
    }
  }

  lemma NotSpentIndex(spent: seq<Spend>, token: string)
    ensures !IsSpent(spent, token) ==> forall j :: 0 <= j < |spent| ==> spent[j].call.token != token
  {
  }

  lemma IssuedSpends(issued: map<string, Ticket>, spent: seq<Spend>, token: string)
    requires SpentProperly(issued, spent) && token !in issued
    ensures !IsSpent(spent, token)
  {
    forall j | 0 <= j < |spent|
      ensures spent[j].call.token != token
    {
      assert SpendOk(issued, spent[j]);
    }
  }

  // ------------------------------------------------------------------ runs

  predicate LegalRun(env: Env, s: State, steps: seq<Step>)
    decreases |steps|
  {
    steps == [] || (Enabled(env, s, steps[0]) && LegalRun(env, Next(env, s, steps[0]), steps[1..]))
  }

  function Run(env: Env, s: State, steps: seq<Step>): (r: State)
    requires LegalRun(env, s, steps)
    ensures |r.txs| == |s.txs|
    decreases |steps|
  {
    if steps == [] then s else Run(env, Next(env, s, steps[0]), steps[1..])
  }

  lemma {:induction false} RunKeeps(env: Env, s: State, steps: seq<Step>)
    requires Inv(env, s) && LegalRun(env, s, steps)
    ensures Inv(env, Run(env, s, steps))
    decreases |steps|
  {
    hide Inv, Enabled, Next;
    if steps != [] {
      StepKeeps(env, s, steps[0]);
      RunKeeps(env, Next(env, s, steps[0]), steps[1..]);
    }
  }

  lemma StartOk(env: Env, s: State)
    requires Start(s)
    ensures Inv(env, s)
  {
  }

  /** In every interleaving each ticket is spent by at most one committed confirm, and only for the
      collection and purpose it was issued for, before it expired. */
  lemma SpentAtMostOnce(env: Env, start: State, steps: seq<Step>)
    requires Start(start) && LegalRun(env, start, steps)
    ensures var end := Run(env, start, steps);
            && (forall j :: 0 <= j < |end.spent| ==> SpendOk(end.issued, end.spent[j]))
            && (forall i, j :: 0 <= i < j < |end.spent| ==> end.spent[i].call.token != end.spent[j].call.token)
  {
    hide Enabled, Next, Run, LegalRun;
    StartOk(env, start);
    RunKeeps(env, start, steps);
  }

  /** In every reachable state a ticket can be spent exactly when it was issued for that collection
      and purpose, has not expired, and no committed confirm has spent it: a confirm that failed, at
      whatever point, has used nothing up. */
  lemma SpendableExactly(env: Env, start: State, steps: seq<Step>, call: Call, now: int)
    requires Start(start) && LegalRun(env, start, steps)
    ensures var end := Run(env, start, steps);
            CanSpend(end.db, call, now) <==> !IsSpent(end.spent, call.token) && SpendOk(end.issued, Spend(call, now))
  {
    hide Enabled, Next, Run, LegalRun, IsSpent;
    StartOk(env, start);
    RunKeeps(env, start, steps);
  }

  // ------------------------------------------------------------------ serialisability

  datatype Op =
    | IssueOp(name: string, record: string, ty: TicketType, token: string, now: int)
    | OtherOp(next: Db)
    | ConfirmOp(call: Call, at: int, ts: string)

  /** A confirm run alone, from start to finish, on `db`. */
  function Confirm(env: Env, db: Db, call: Call, at: int, ts: string): Option<Db> {
    match call.kind
    case Reset(password) =>
      (match ConfirmReset(env, db, call.name, call.token, password, at, ts)
       case Refused(_) => None
       case Wrote(next, _, _) => Some(next))
    case Verify =>
      (match ConfirmVerification(db, call.name, call.token, at, ts)
       case Err(_) => None
       case Ok(pair) => Some(pair.0))
  }

  /** The operations of a run in the order they were committed. */
  function Committed(env: Env, s: State, steps: seq<Step>): seq<Op>
    requires LegalRun(env, s, steps)
    decreases |steps|
  {
    if steps == [] then []
    else
      var rest := Committed(env, Next(env, s, steps[0]), steps[1..]);
      match steps[0]
      case Commit(i) => [ConfirmOp(s.txs[i].call, s.txs[i].at, s.txs[i].ts)] + rest
      case IssueTicket(name, record, ty, token, now) => [IssueOp(name, record, ty, token, now)] + rest
      case OtherWrite(next) => [OtherOp(next)] + rest
      case _ => rest
  }

  /** One operation after another, each on its own; None as soon as one is refused. */
  function Serial(env: Env, db: Db, ops: seq<Op>): Option<Db>
    decreases |ops|
  {
    if ops == [] then Some(db)
    else
      match ops[0]
      case IssueOp(name, record, ty, token, now) => Serial(env, Issue(db, name, record, ty, token, now), ops[1..])
      case OtherOp(next) => Serial(env, next, ops[1..])
      case ConfirmOp(call, at, ts) =>
        match Confirm(env, db, call, at, ts)
        case None => None
        case Some(next) => Serial(env, next, ops[1..])
  }

  lemma ConfirmUnfolds(env: Env, db: Db, call: Call, at: int, ts: string)
    requires CanSpend(db, call, at) && ChangeOf(env, db, call, ts).Some?
    ensures Confirm(env, db, call, at, ts) == Some(Burn(ChangeOf(env, db, call, ts).value, call.token))
  {
    hide Update, RecordJson;
  }

  /** Every interleaving is serialisable: the committed database is the one the committed operations
      give when each confirm runs alone, in the order of the commits, and there every one of them
      succeeds. A confirm that failed, wherever it got to, has left no trace. */
  lemma {:induction false} RunIsSerial(env: Env, s: State, steps: seq<Step>)
    requires Inv(env, s) && LegalRun(env, s, steps)
    ensures Serial(env, s.db, Committed(env, s, steps)) == Some(Run(env, s, steps).db)
    decreases |steps|
  {
    hide Inv, Confirm, ChangeOf, Issue, Outstanding, SpentProperly;
    if steps != [] {
      var n := Next(env, s, steps[0]);
      StepKeeps(env, s, steps[0]);
      RunIsSerial(env, n, steps[1..]);
      var rest := Committed(env, n, steps[1..]);
      if steps[0].Commit? {
        var tx := s.txs[steps[0].i];
        BurntIsConfirm(env, s, steps[0].i);
        SerialConfirm(env, s.db, ConfirmOp(tx.call, tx.at, tx.ts), rest);
      } else if steps[0].IssueTicket? || steps[0].OtherWrite? {
        var op := Committed(env, s, steps)[0];
        assert ([op] + rest)[1..] == rest;
      }
    }
  }

  lemma BurntIsConfirm(env: Env, s: State, i: nat)
    requires Inv(env, s) && i < |s.txs| && s.txs[i].Burnt?
    ensures Confirm(env, s.db, s.txs[i].call, s.txs[i].at, s.txs[i].ts) == Some(s.txs[i].local)
  {
    hide ChangeOf, Outstanding, SpentProperly, Confirm, Burn;
    assert TxOk(env, s, i);
    ConfirmUnfolds(env, s.db, s.txs[i].call, s.txs[i].at, s.txs[i].ts);
  }

  lemma SerialConfirm(env: Env, db: Db, op: Op, rest: seq<Op>)
    requires op.ConfirmOp? && Confirm(env, db, op.call, op.at, op.ts).Some?
    ensures Serial(env, db, [op] + rest) == Serial(env, Confirm(env, db, op.call, op.at, op.ts).value, rest)
  {
    hide Confirm;
    assert ([op] + rest)[1..] == rest;
  }
}
