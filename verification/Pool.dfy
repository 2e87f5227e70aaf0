/**
 * The connection pool of src/db.rs: a mutex-guarded stack, a condition variable, and a guard that
 * pushes its connection back when dropped. Threads interleave freely; a step is one critical
 * section or one call into the condition variable.
 */
module Pool {
  import opened Wrappers

  type Conn = nat
  type Tid = nat

  datatype Pc =
    | Away              // neither holds nor wants a connection
    | WantsLock         // entered `get`, waits for the mutex
    | Inside            // in `get`, holds the mutex
    | Asleep            // blocked in `Condvar::wait`
    | Woken             // signalled, waits to take the mutex again
    | Holds(c: Conn)
    | Returning(c: Conn)    // dropping the guard, waits for the mutex
    | Depositing(c: Conn)   // dropping the guard, holds the mutex
    | Notifying         // pushed and released the mutex, has not notified yet

  /** `idle` is the stack, its top last; `all` are the connections opened at start. */
  datatype State = State(all: set<Conn>, idle: seq<Conn>, lock: Option<Tid>, pc: seq<Pc>)

  datatype Step =
    | Call(t: Tid)
    | Lock(t: Tid)
    | Pop(t: Tid)
    | Wait(t: Tid)
    | Spurious(t: Tid)
    | DropGuard(t: Tid)
    | LockBack(t: Tid)
    | Deposit(t: Tid)
    | Notify(t: Tid, wakes: Option<Tid>)

  predicate IsAt(s: State, t: Tid) {
    t < |s.pc|
  }

  /** `notify_one` wakes one sleeper if there is one. */
  predicate WakesOne(s: State, wakes: Option<Tid>) {
    match wakes
    case Some(w) => IsAt(s, w) && s.pc[w].Asleep?
    case None => forall w :: 0 <= w < |s.pc| ==> !s.pc[w].Asleep?
  }

  predicate Enabled(s: State, step: Step) {
    && IsAt(s, step.t)
    && var pc := s.pc[step.t];
       match step
       case Call(_) => pc.Away?
       case Lock(_) => (pc.WantsLock? || pc.Woken?) && s.lock.None?
       case Pop(_) => pc.Inside? && s.idle != []
       case Wait(_) => pc.Inside? && s.idle == []
       case Spurious(_) => pc.Asleep?
       case DropGuard(_) => pc.Holds?
       case LockBack(_) => pc.Returning? && s.lock.None?
       case Deposit(_) => pc.Depositing?
       case Notify(_, wakes) => pc.Notifying? && WakesOne(s, wakes)
  }

  function Goto(s: State, t: Tid, pc: Pc): State
    requires IsAt(s, t)
  {
    s.(pc := s.pc[t := pc])
  }

  function Next(s: State, step: Step): State
    requires Enabled(s, step)
  {
    var t := step.t;
    match step
    case Call(_) => Goto(s, t, WantsLock)
    case Lock(_) => Goto(s, t, Inside).(lock := Some(t))
    case Pop(_) =>
      var top := |s.idle| - 1;
      Goto(s, t, Holds(s.idle[top])).(idle := s.idle[..top], lock := None)
    case Wait(_) => Goto(s, t, Asleep).(lock := None)
    case Spurious(_) => Goto(s, t, Woken)
    case DropGuard(_) => Goto(s, t, Returning(s.pc[t].c))
    case LockBack(_) => Goto(s, t, Depositing(s.pc[t].c)).(lock := Some(t))
    case Deposit(_) => Goto(s, t, Notifying).(idle := s.idle + [s.pc[t].c], lock := None)
    case Notify(_, None) => Goto(s, t, Away)
    case Notify(_, Some(w)) => Goto(Goto(s, t, Away), w, Woken)
  }

  // ------------------------------------------------------------------ counting threads

  function Sum(f: Pc -> nat, pc: seq<Pc>): nat {
    if pc == [] then 0 else f(pc[0]) + Sum(f, pc[1..])
  }

  lemma {:induction false} SumUpdate(f: Pc -> nat, pc: seq<Pc>, t: Tid, x: Pc)
    requires t < |pc|
    ensures Sum(f, pc[t := x]) + f(pc[t]) == Sum(f, pc) + f(x)
  {
    var q := pc[t := x];
    if t == 0 {
      assert q[1..] == pc[1..];
    } else {
      assert q[1..] == pc[1..][t - 1 := x];
      SumUpdate(f, pc[1..], t - 1, x);
    }
  }

  lemma {:induction false} SumPositive(f: Pc -> nat, pc: seq<Pc>)
    ensures Sum(f, pc) > 0 <==> exists t :: 0 <= t < |pc| && f(pc[t]) > 0
  {
    if pc != [] {
      SumPositive(f, pc[1..]);
      if t :| 0 <= t < |pc[1..]| && f(pc[1..][t]) > 0 {
        assert f(pc[t + 1]) > 0;
      }
      if t :| 0 < t < |pc| && f(pc[t]) > 0 {
        assert f(pc[1..][t - 1]) > 0;
      }
    }
  }

  predicate HasConn(x: Pc) {
    x.Holds? || x.Returning? || x.Depositing?
  }

  function Held(x: Pc): nat {
    if HasConn(x) then 1 else 0
  }

  /** Threads that will look at the stack, or make another thread look, before they sleep. */
  function Active(x: Pc): nat {
    if x.Woken? || x.Inside? || x.Notifying? then 1 else 0
  }

  // ------------------------------------------------------------------ the invariant

  predicate LockOk(s: State) {
    forall t :: 0 <= t < |s.pc| ==> (s.lock == Some(t) <==> s.pc[t].Inside? || s.pc[t].Depositing?)
  }

  predicate HasIt(s: State, t: Tid, c: Conn) {
    t < |s.pc| && HasConn(s.pc[t]) && s.pc[t].c == c
  }

  predicate StackOk(s: State) {
    && (forall i, j :: 0 <= i < j < |s.idle| ==> s.idle[i] != s.idle[j])
    && (forall c :: c in s.idle ==> c in s.all)
  }

  predicate HandsOk(s: State) {
    && (forall t :: 0 <= t < |s.pc| && HasConn(s.pc[t]) ==> s.pc[t].c in s.all && s.pc[t].c !in s.idle)
    && (forall t, u :: 0 <= t < |s.pc| && 0 <= u < |s.pc| && HasConn(s.pc[t]) && HasConn(s.pc[u]) && t != u ==>
          s.pc[t].c != s.pc[u].c)
  }

  predicate Covered(s: State) {
    forall c :: c in s.all && c !in s.idle ==> exists t :: 0 <= t < |s.pc| && HasIt(s, t, c)
  }

  /** Every connection is in exactly one place: once on the stack, or in the hands of one thread. */
  predicate Conserved(s: State) {
    StackOk(s) && HandsOk(s) && Covered(s)
  }

  predicate SomeoneSleeps(s: State) {
    exists t :: 0 <= t < |s.pc| && s.pc[t].Asleep?
  }

  predicate Inv(s: State, size: nat) {
    && (s.lock.Some? ==> IsAt(s, s.lock.value))
    && LockOk(s)
    && Conserved(s)
    && |s.idle| + Sum(Held, s.pc) == size
    && (SomeoneSleeps(s) ==> |s.idle| <= Sum(Active, s.pc))
  }

  // ------------------------------------------------------------------ safety

  /** Idle plus checked-out is constant. */
  lemma HeldMoves(s: State, step: Step)
    requires Enabled(s, step)
    ensures |Next(s, step).idle| + Sum(Held, Next(s, step).pc) == |s.idle| + Sum(Held, s.pc)
  {
    hide Sum;
    var t := step.t;
    match step {
      case Notify(_, Some(w)) =>
        SumUpdate(Held, s.pc, t, Away);
        SumUpdate(Held, Goto(s, t, Away).pc, w, Woken);
      case _ =>
        SumUpdate(Held, s.pc, t, Next(s, step).pc[t]);
    }
  }

  /** A wake-up is spent only on a look at the stack, and a deposit always comes with one. */
  lemma ActiveMoves(s: State, step: Step)
    requires Enabled(s, step) && (SomeoneSleeps(s) ==> |s.idle| <= Sum(Active, s.pc))
    ensures SomeoneSleeps(Next(s, step)) ==> |Next(s, step).idle| <= Sum(Active, Next(s, step).pc)
  {
    hide Sum;
    var t, n := step.t, Next(s, step);
    if SomeoneSleeps(n) && !step.Wait? {
      var u :| 0 <= u < |n.pc| && n.pc[u].Asleep?;
      assert s.pc[u].Asleep?;
      if step.Notify? && step.wakes.Some? {
        SumUpdate(Active, s.pc, t, Away);
        SumUpdate(Active, Goto(s, t, Away).pc, step.wakes.value, Woken);
      } else {
        SumUpdate(Active, s.pc, t, n.pc[t]);
      }
    }
  }

  lemma StackMoves(s: State, step: Step)
    requires Enabled(s, step) && StackOk(s) && HandsOk(s)
    ensures StackOk(Next(s, step))
  {
    if step.Deposit? {
      assert HasConn(s.pc[step.t]);
    } else if step.Pop? {
      assert s.idle == s.idle[..|s.idle| - 1] + [s.idle[|s.idle| - 1]];
    }
  }

  lemma HandsMove(s: State, step: Step)
    requires Enabled(s, step) && StackOk(s) && HandsOk(s)
    ensures HandsOk(Next(s, step))
  {
    var n, t := Next(s, step), step.t;
    if step.Pop? {
      var top := |s.idle| - 1;
      assert s.idle == n.idle + [s.idle[top]] && s.idle[top] in s.idle;
    }
    assert forall u :: 0 <= u < |s.pc| && u != t && HasConn(n.pc[u]) ==> HasConn(s.pc[u]) && n.pc[u].c == s.pc[u].c;
    if HasConn(n.pc[t]) && !step.Pop? {
      assert HasConn(s.pc[t]) && n.pc[t].c == s.pc[t].c;
    }
  }

  lemma CoveredMoves(s: State, step: Step)
    requires Enabled(s, step) && Covered(s)
    ensures Covered(Next(s, step))
  {
    var n := Next(s, step);
    if step.Pop? {
      var top := |s.idle| - 1;
      assert s.idle == n.idle + [s.idle[top]] && HasIt(n, step.t, s.idle[top]);
    }
    forall c | c in n.all && c !in n.idle
      ensures exists t :: 0 <= t < |n.pc| && HasIt(n, t, c)
    {
      if c !in s.idle {
        var t :| 0 <= t < |s.pc| && HasIt(s, t, c);
        assert HasIt(n, t, c) || (step.Deposit? && step.t == t);
      }
    }
  }

  lemma ConservedMoves(s: State, step: Step)
    requires Enabled(s, step) && Conserved(s)
    ensures Conserved(Next(s, step))
  {
    hide StackOk, HandsOk, Covered;
    StackMoves(s, step);
    HandsMove(s, step);
    CoveredMoves(s, step);
  }

  /** Every step keeps the invariant. */
  lemma StepKeeps(s: State, step: Step, size: nat)
    requires Enabled(s, step) && Inv(s, size)
    ensures Inv(Next(s, step), size)
  {
    hide Conserved, Sum;
    HeldMoves(s, step);
    ActiveMoves(s, step);
    ConservedMoves(s, step);
  }

  predicate LegalRun(s: State, steps: seq<Step>)
    decreases |steps|
  {
    steps == [] || (Enabled(s, steps[0]) && LegalRun(Next(s, steps[0]), steps[1..]))
  }

  function Run(s: State, steps: seq<Step>): State
    requires LegalRun(s, steps)
    decreases |steps|
  {
    if steps == [] then s else Run(Next(s, steps[0]), steps[1..])
  }

  /** `Pool::open`: every connection idle, nobody in the pool. */
  predicate IsOpened(s: State, size: nat) {
    && |s.idle| == size && s.lock.None?
    && (forall i, j :: 0 <= i < j < |s.idle| ==> s.idle[i] != s.idle[j])
    && s.all == (set i | 0 <= i < |s.idle| :: s.idle[i])
    && forall t :: 0 <= t < |s.pc| ==> s.pc[t].Away?
  }

  lemma OpenedOk(s: State, size: nat)
    requires IsOpened(s, size)
    ensures Inv(s, size)
  {
    SumPositive(Held, s.pc);
    SumPositive(Active, s.pc);
  }

  /** In every interleaving, from a freshly opened pool (`OpenedOk`) or any later state: idle plus
      checked-out connections equal the pool size, no connection is in two hands, and a sleeping
      thread always has enough wake-ups on their way for the connections that are idle. */
  lemma {:induction false} EveryRunIsSafe(s: State, steps: seq<Step>, size: nat)
    requires Inv(s, size) && LegalRun(s, steps)
    ensures Inv(Run(s, steps), size)
    decreases |steps|
  {
    hide Inv, Enabled, Next;
    if steps != [] {
      StepKeeps(s, steps[0], size);
      EveryRunIsSafe(Next(s, steps[0]), steps[1..], size);
    }
  }

  // ------------------------------------------------------------------ progress

  /** Steps the pool and its users owe: everything but new requests and spurious wake-ups. */
  predicate Owed(step: Step) {
    !step.Call? && !step.Spurious?
  }

  /** What a thread still has in front of it. */
  function Work(x: Pc): nat {
    match x
    case Away => 0
    case Notifying => 3
    case Depositing(_) => 4
    case Returning(_) => 5
    case Holds(_) => 6
    case Asleep => 7
    case Inside => 8
    case WantsLock => 9
    case Woken => 9
  }

  /** Every owed step uses up work, even one that puts a thread back to sleep. */
  lemma OwedWorks(s: State, step: Step)
    requires Enabled(s, step) && Owed(step)
    ensures Sum(Work, Next(s, step).pc) < Sum(Work, s.pc)
  {
    hide Sum;
    var t := step.t;
    if step.Notify? && step.wakes.Some? {
      SumUpdate(Work, s.pc, t, Away);
      SumUpdate(Work, Goto(s, t, Away).pc, step.wakes.value, Woken);
    } else {
      SumUpdate(Work, s.pc, t, Next(s, step).pc[t]);
    }
  }

  /** No deadlock and no lost wake-up: unless every thread is away and every connection home, some
      owed step can be taken, as long as a holder never asks for a second connection. */
  lemma AlwaysAStep(s: State, size: nat)
    requires Inv(s, size) && size > 0
    ensures (exists step :: Owed(step) && Enabled(s, step)) ||
            ((forall t :: 0 <= t < |s.pc| ==> s.pc[t].Away?) && |s.idle| == size)
  {
    hide Sum, Conserved;
    if s.lock.Some? {
      var t := s.lock.value;
      var step := if s.pc[t].Depositing? then Deposit(t) else if s.idle == [] then Wait(t) else Pop(t);
      assert Owed(step) && Enabled(s, step);
    } else if t :| 0 <= t < |s.pc| && !s.pc[t].Away? && !s.pc[t].Asleep? {
      AwakeSteps(s, t);
    } else {
      SumPositive(Held, s.pc);
      SumPositive(Active, s.pc);
      assert Sum(Active, s.pc) == 0 && Sum(Held, s.pc) == 0;
    }
  }

  lemma AwakeSteps(s: State, t: Tid)
    requires IsAt(s, t) && s.lock.None? && LockOk(s) && !s.pc[t].Away? && !s.pc[t].Asleep?
    ensures exists step :: Owed(step) && Enabled(s, step)
  {
    var step := Lock(t);
    if s.pc[t].Holds? {
      step := DropGuard(t);
    } else if s.pc[t].Returning? {
      step := LockBack(t);
    } else if w :| s.pc[t].Notifying? && 0 <= w < |s.pc| && s.pc[w].Asleep? {
      step := Notify(t, Some(w));
    } else if s.pc[t].Notifying? {
      step := Notify(t, None);
    }
    assert Enabled(s, step) && Owed(step);
  }

  predicate AllOwed(steps: seq<Step>) {
    forall i :: 0 <= i < |steps| ==> Owed(steps[i])
  }

  /** Once no new request arrives, every schedule is finite, and one that cannot go on has served
      every request and brought every connection home. */
  lemma {:induction false} EveryRequestIsServed(s: State, steps: seq<Step>, size: nat)
    requires Inv(s, size) && size > 0 && LegalRun(s, steps) && AllOwed(steps)
    ensures |Run(s, steps).pc| == |s.pc| && |steps| + Sum(Work, Run(s, steps).pc) <= Sum(Work, s.pc)
    ensures (forall step :: Owed(step) ==> !Enabled(Run(s, steps), step)) ==>
              (forall t :: 0 <= t < |s.pc| ==> Run(s, steps).pc[t].Away?) && |Run(s, steps).idle| == size
    decreases |steps|
  {
    hide Inv, Enabled, Next, Sum;
    if steps == [] {
      AlwaysAStep(s, size);
    } else {
      assert Owed(steps[0]);
      assert forall i :: 0 <= i < |steps[1..]| ==> steps[1..][i] == steps[i + 1];
      OwedWorks(s, steps[0]);
      SameThreads(s, steps[0]);
      StepKeeps(s, steps[0], size);
      EveryRequestIsServed(Next(s, steps[0]), steps[1..], size);
    }
  }

  lemma SameThreads(s: State, step: Step)
    requires Enabled(s, step)
    ensures |Next(s, step).pc| == |s.pc|
  {
  }

  // ------------------------------------------------------------------ critical sections

  /** An in-memory pool is pinned to one connection; any other has at least one. */
  function PoolSize(inMemory: bool, size: nat): nat {
    if inMemory || size == 0 then 1 else size
  }

  /** The guarded stack itself. Each method is what one thread does while it holds the mutex. */
  class Pool {
    var idle: seq<Conn>

    constructor Open(inMemory: bool, size: nat)
      ensures |idle| == PoolSize(inMemory, size)
      ensures forall threads: seq<Pc> ::
                (forall t :: 0 <= t < |threads| ==> threads[t].Away?) ==>
                IsOpened(State(set i | 0 <= i < |idle| :: idle[i], idle, None, threads), PoolSize(inMemory, size))
    {
      idle := seq(PoolSize(inMemory, size), i => i);
    }

    /** One turn of the loop in `get`: a connection to leave with, or None to go to sleep on. */
    method TryPop(ghost s: State, t: Tid) returns (c: Option<Conn>)
      requires IsAt(s, t) && s.pc[t].Inside? && s.idle == idle
      modifies this
      ensures match c
              case Some(conn) =>
                Enabled(s, Pop(t)) && Next(s, Pop(t)).pc[t] == Holds(conn) && idle == Next(s, Pop(t)).idle
              case None => Enabled(s, Wait(t)) && idle == Next(s, Wait(t)).idle
    {
      if idle == [] { return None; }
      c := Some(idle[|idle| - 1]);
      idle := idle[..|idle| - 1];
    }

    /** The push in `drop`. */
    method PutBack(ghost s: State, t: Tid, c: Conn)
      requires IsAt(s, t) && s.pc[t] == Depositing(c) && s.idle == idle
      modifies this
      ensures Enabled(s, Deposit(t)) && idle == Next(s, Deposit(t)).idle
    {
      idle := idle + [c];
    }
  }
}
