/**
 * The version-invalidated rule cache of src/realtime.rs against concurrent collection edits
 * (src/collections.rs). Any number of writers commit statements and then bump a version; any number
 * of subscribers load the version, maybe clear their cache, and look a rule up or read it.
 */
module RuleCache {
  import opened Wrappers
  import opened Rules

  type Topic = string

  /** The view rule of a topic; None is "no such collection". */
  type ViewRule = Option<RuleText>

  /** One committed statement: the view rule it leaves the topic with. */
  datatype Statement = Statement(topic: Topic, rule: ViewRule)

  /** A bump of the version, and how many statements had been committed when its writer last wrote. */
  datatype BumpEvent = BumpEvent(topic: Topic, at: nat)

  datatype Writer = Resting | Wrote(topic: Topic, at: nat)

  /** A cached rule and how many statements had been committed when it was read. */
  datatype Entry = Entry(rule: ViewRule, asOf: nat)

  datatype Phase =
    | Ready
    | Loaded(topic: Topic)
    | Gated(topic: Topic, entry: Entry)

  datatype Sub = Sub(version: nat, cache: map<Topic, Entry>, phase: Phase)

  /** `cols_version` is `|bumps|`. */
  datatype State = State(hist: seq<Statement>, bumps: seq<BumpEvent>, writers: seq<Writer>, subs: seq<Sub>)

  datatype Step =
    | Write(w: nat, topic: Topic, rule: ViewRule)
    | Abort(w: nat)
    | Bump(w: nat)
    | Load(i: nat, topic: Topic)
    | Hit(i: nat)
    | ReadDb(i: nat)
    | Finish(i: nat)

  /** What the database holds for a topic after the first `n` statements. */
  function RuleAt(hist: seq<Statement>, n: nat, topic: Topic): ViewRule
    requires n <= |hist|
  {
    if n == 0 then None
    else if hist[n - 1].topic == topic then hist[n - 1].rule
    else RuleAt(hist, n - 1, topic)
  }

  predicate Enabled(s: State, step: Step) {
    match step
    case Write(w, topic, _) => w < |s.writers| && (s.writers[w].Wrote? ==> s.writers[w].topic == topic)
    case Abort(w) => w < |s.writers| && s.writers[w].Wrote?
    case Bump(w) => w < |s.writers| && s.writers[w].Wrote?
    case Load(i, _) => i < |s.subs| && s.subs[i].phase.Ready?
    case Hit(i) => i < |s.subs| && s.subs[i].phase.Loaded? && s.subs[i].phase.topic in s.subs[i].cache
    case ReadDb(i) => i < |s.subs| && s.subs[i].phase.Loaded? && s.subs[i].phase.topic !in s.subs[i].cache
    case Finish(i) => i < |s.subs| && s.subs[i].phase.Gated?
  }

  function WithSub(s: State, i: nat, sub: Sub): State
    requires i < |s.subs|
  {
    s.(subs := s.subs[i := sub])
  }

  function Next(s: State, step: Step): (n: State)
    requires Enabled(s, step)
    ensures |n.subs| == |s.subs|
  {
    match step
    case Write(w, topic, rule) =>
      s.(hist := s.hist + [Statement(topic, rule)], writers := s.writers[w := Wrote(topic, |s.hist| + 1)])
    case Abort(w) => s.(writers := s.writers[w := Resting])
    case Bump(w) =>
      s.(bumps := s.bumps + [BumpEvent(s.writers[w].topic, s.writers[w].at)], writers := s.writers[w := Resting])
    case Load(i, topic) =>
      var sub := s.subs[i];
      var cache := if sub.version == |s.bumps| then sub.cache else map[];
      WithSub(s, i, Sub(|s.bumps|, cache, Loaded(topic)))
    case Hit(i) =>
      var sub := s.subs[i];
      WithSub(s, i, sub.(phase := Gated(sub.phase.topic, sub.cache[sub.phase.topic])))
    case ReadDb(i) =>
      var sub := s.subs[i];
      var entry := Entry(RuleAt(s.hist, |s.hist|, sub.phase.topic), |s.hist|);
      WithSub(s, i, sub.(cache := sub.cache[sub.phase.topic := entry], phase := Gated(sub.phase.topic, entry)))
    case Finish(i) => WithSub(s, i, s.subs[i].(phase := Ready))
  }

  // ------------------------------------------------------------------ the invariant

  /** The entry is what the database held at its moment, and that moment is no earlier than any write
      whose bump the cache's version counts. */
  predicate EntryOk(hist: seq<Statement>, bumps: seq<BumpEvent>, version: nat, topic: Topic, e: Entry) {
    && e.asOf <= |hist| && e.rule == RuleAt(hist, e.asOf, topic)
    && forall k :: 0 <= k < version && k < |bumps| ==> bumps[k].at <= e.asOf
  }

  predicate SubOk(hist: seq<Statement>, bumps: seq<BumpEvent>, sub: Sub) {
    && sub.version <= |bumps|
    && (forall topic :: topic in sub.cache ==> EntryOk(hist, bumps, sub.version, topic, sub.cache[topic]))
    && (sub.phase.Gated? ==> EntryOk(hist, bumps, sub.version, sub.phase.topic, sub.phase.entry))
  }

  predicate Inv(s: State) {
    && (forall w :: 0 <= w < |s.writers| && s.writers[w].Wrote? ==> s.writers[w].at <= |s.hist|)
    && (forall k :: 0 <= k < |s.bumps| ==> s.bumps[k].at <= |s.hist|)
    && (forall i :: 0 <= i < |s.subs| ==> SubOk(s.hist, s.bumps, s.subs[i]))
  }

  lemma {:induction false} RuleAtStable(hist: seq<Statement>, more: seq<Statement>, n: nat, topic: Topic)
    requires n <= |hist|
    ensures RuleAt(hist + more, n, topic) == RuleAt(hist, n, topic)
    decreases n
  {
    if n > 0 {
      RuleAtStable(hist, more, n - 1, topic);
    }
  }

  /** Later statements and later bumps do not disturb what a subscriber holds. */
  lemma SubStable(hist: seq<Statement>, more: seq<Statement>, bumps: seq<BumpEvent>, later: seq<BumpEvent>, sub: Sub)
    requires SubOk(hist, bumps, sub)
    ensures SubOk(hist + more, bumps + later, sub)
  {
    forall topic | topic in sub.cache
      ensures EntryOk(hist + more, bumps + later, sub.version, topic, sub.cache[topic])
    {
      assert EntryOk(hist, bumps, sub.version, topic, sub.cache[topic]);
      RuleAtStable(hist, more, sub.cache[topic].asOf, topic);
    }
    if sub.phase.Gated? {
      RuleAtStable(hist, more, sub.phase.entry.asOf, sub.phase.topic);
    }
  }

  lemma StepKeeps(s: State, step: Step)
    requires Inv(s) && Enabled(s, step)
    ensures Inv(Next(s, step))
  {
    hide RuleAt, SubOk;
    var n := Next(s, step);
    assert s.hist + [] == s.hist && s.bumps + [] == s.bumps;
    forall i | 0 <= i < |n.subs|
      ensures SubOk(n.hist, n.bumps, n.subs[i])
    {
      assert SubOk(s.hist, s.bumps, s.subs[i]);
      SubStable(s.hist, n.hist[|s.hist|..], s.bumps, n.bumps[|s.bumps|..], s.subs[i]);
      assert n.hist == s.hist + n.hist[|s.hist|..] && n.bumps == s.bumps + n.bumps[|s.bumps|..];
      SubMoves(s, step, i);
    }
  }

  /** A subscriber's own step keeps what it holds in order. */
  lemma SubMoves(s: State, step: Step, i: nat)
    requires Inv(s) && Enabled(s, step) && i < |s.subs|
    ensures Next(s, step).subs[i] == s.subs[i] || SubOk(Next(s, step).hist, Next(s, step).bumps, Next(s, step).subs[i])
  {
    hide RuleAt;
  }

  // ------------------------------------------------------------------ runs

  predicate LegalRun(s: State, steps: seq<Step>)
    decreases |steps|
  {
    steps == [] || (Enabled(s, steps[0]) && LegalRun(Next(s, steps[0]), steps[1..]))
  }

  function Run(s: State, steps: seq<Step>): (r: State)
    requires LegalRun(s, steps)
    ensures |r.subs| == |s.subs|
    decreases |steps|
  {
    if steps == [] then s else Run(Next(s, steps[0]), steps[1..])
  }

  /** Steps that begin or end the gating of an event by subscriber `i`. */
  predicate Restarts(step: Step, i: nat) {
    (step.Load? || step.Finish?) && step.i == i
  }

  predicate NeverRestarts(steps: seq<Step>, i: nat) {
    forall k :: 0 <= k < |steps| ==> !Restarts(steps[k], i)
  }

  /** Every run keeps the invariant, only appends to the history and to the bumps, and leaves the
      version of a subscriber that starts no new event alone. */
  lemma {:induction false} RunKeeps(s: State, steps: seq<Step>, i: nat)
    requires Inv(s) && LegalRun(s, steps)
    ensures Inv(Run(s, steps)) && s.hist <= Run(s, steps).hist && s.bumps <= Run(s, steps).bumps
    ensures i < |s.subs| && NeverRestarts(steps, i) ==> Run(s, steps).subs[i].version == s.subs[i].version
    ensures i < |s.subs| && NeverRestarts(steps, i) && !s.subs[i].phase.Ready? ==>
              !Run(s, steps).subs[i].phase.Ready? && Run(s, steps).subs[i].phase.topic == s.subs[i].phase.topic
    decreases |steps|
  {
    hide Inv;
    if steps != [] {
      StepKeeps(s, steps[0]);
      RunKeeps(Next(s, steps[0]), steps[1..], i);
      if NeverRestarts(steps, i) {
        assert !Restarts(steps[0], i);
        assert forall k :: 0 <= k < |steps[1..]| ==> steps[1..][k] == steps[k + 1];
      }
    }
  }

  /** The server as it starts: an empty cache at version 0 for every subscription, nobody writing.
      The statements that built the database so far are in `hist`. */
  predicate Start(s: State) {
    && s.bumps == []
    && (forall w :: 0 <= w < |s.writers| ==> s.writers[w].Resting?)
    && (forall i :: 0 <= i < |s.subs| ==> s.subs[i] == Sub(0, map[], Ready))
  }

  /** A gate whose version load follows a successful writer's bump decides with a rule at least as
      new as that write: the rule its topic had at some moment when the write was already committed,
      whatever the other writers and subscribers do before, in between and after. */
  lemma GateAfterBump(
      start: State, before: seq<Step>, s: State, w: nat, mid: seq<Step>, t: State, i: nat, topic: Topic,
      rest: seq<Step>, end: State)
    requires Start(start) && LegalRun(start, before) && s == Run(start, before)
    requires Enabled(s, Bump(w)) && LegalRun(Next(s, Bump(w)), mid) && t == Run(Next(s, Bump(w)), mid)
    requires Enabled(t, Load(i, topic)) && LegalRun(Next(t, Load(i, topic)), rest) && NeverRestarts(rest, i)
    requires end == Run(Next(t, Load(i, topic)), rest) && end.subs[i].phase.Gated?
    ensures end.subs[i].phase.topic == topic
    ensures s.writers[w].at <= end.subs[i].phase.entry.asOf <= |end.hist|
    ensures end.subs[i].phase.entry.rule == RuleAt(end.hist, end.subs[i].phase.entry.asOf, topic)
  {
    hide RuleAt, Run, LegalRun;
    RunKeeps(start, before, i);
    StepKeeps(s, Bump(w));
    RunKeeps(Next(s, Bump(w)), mid, i);
    StepKeeps(t, Load(i, topic));
    RunKeeps(Next(t, Load(i, topic)), rest, i);
    var k := |s.bumps|;
    assert Next(s, Bump(w)).bumps[k].at == s.writers[w].at;
    assert t.bumps[k] == Next(s, Bump(w)).bumps[k] && end.bumps[k] == t.bumps[k];
    assert SubOk(end.hist, end.bumps, end.subs[i]);
  }
}
