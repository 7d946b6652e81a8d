/**
 The circuit breaker for skill execution (circuit-breaker.ts): one circuit per skill, opened by
 consecutive failures and probed again after a timeout. Clock readings are parameters; a
 failure reads the clock once for the failure and once more if it opens the circuit.
 */
module CircuitBreaker {

  datatype CircuitState = Closed | Open | HalfOpen

  datatype Circuit = Circuit(
    state: CircuitState, failures: nat, lastFailureAt: int, openedAt: int, successCount: nat, totalCalls: nat)

  const FRESH := Circuit(Closed, 0, 0, 0, 0, 0)

  datatype Config = Config(failureThreshold: int, resetTimeoutMs: int)

  datatype Op =
    | CanExecute(skill: string, t: int)
    | RecordSuccess(skill: string)
    | RecordFailure(skill: string, t: int, tOpen: int)
    | Reset(skill: string)
    | Clear

  // ---------------------------------------------------------------- one circuit

  function AfterAsk(cfg: Config, c: Circuit, t: int): (Circuit, bool) {
    match c.state
    case Closed => (c, true)
    case Open => if t - c.openedAt >= cfg.resetTimeoutMs then (c.(state := HalfOpen), true) else (c, false)
    case HalfOpen => (c, true)
  }

  function AfterSuccess(c: Circuit): Circuit {
    c.(successCount := c.successCount + 1, totalCalls := c.totalCalls + 1, failures := 0,
       state := if c.state == HalfOpen then Closed else c.state)
  }

  function AfterFailure(cfg: Config, c: Circuit, t: int, tOpen: int): Circuit {
    var d := c.(failures := c.failures + 1, totalCalls := c.totalCalls + 1, lastFailureAt := t);
    if d.state == HalfOpen || d.failures >= cfg.failureThreshold then d.(state := Open, openedAt := tOpen) else d
  }

  /** The circuit of one skill after one operation; operations on other skills do not touch it. */
  function Step(cfg: Config, c: Circuit, skill: string, op: Op): Circuit {
    match op
    case CanExecute(s, t) => if s == skill then AfterAsk(cfg, c, t).0 else c
    case RecordSuccess(s) => if s == skill then AfterSuccess(c) else c
    case RecordFailure(s, t, tOpen) => if s == skill then AfterFailure(cfg, c, t, tOpen) else c
    case Reset(s) => if s == skill then c.(state := Closed, failures := 0) else c
    case Clear => FRESH
  }

  function CircuitAfter(cfg: Config, skill: string, ops: seq<Op>): Circuit {
    if ops == [] then FRESH else Step(cfg, CircuitAfter(cfg, skill, ops[..|ops| - 1]), skill, ops[|ops| - 1])
  }

  /** Whether the question at `k` is answered with yes. */
  predicate Admits(cfg: Config, ops: seq<Op>, k: nat)
    requires k < |ops| && ops[k].CanExecute?
  {
    AfterAsk(cfg, CircuitAfter(cfg, ops[k].skill, ops[..k]), ops[k].t).1
  }

  // ---------------------------------------------------------------- all circuits

  function Get(circuits: map<string, Circuit>, skill: string): Circuit {
    if skill in circuits then circuits[skill] else FRESH
  }

  class CircuitBreaker {
    const cfg: Config
    var circuits: map<string, Circuit>

    constructor (cfg: Config)
      ensures this.cfg == cfg && circuits == map[]
    {
      this.cfg := cfg;
      circuits := map[];
    }

    method CanExecute(skill: string, t: int) returns (ok: bool)
      modifies this
      ensures (Get(circuits, skill), ok) == AfterAsk(cfg, Get(old(circuits), skill), t)
      ensures forall s :: Get(circuits, s) == Step(cfg, Get(old(circuits), s), s, Op.CanExecute(skill, t))
    {
      var c := Get(circuits, skill);
      match c.state {
        case Closed =>
          ok := true;
        case Open =>
          ok := t - c.openedAt >= cfg.resetTimeoutMs;
          if ok {
            c := c.(state := HalfOpen);
          }
        case HalfOpen =>
          ok := true;
      }
      circuits := circuits[skill := c];
    }

    method RecordSuccess(skill: string)
      modifies this
      ensures forall s :: Get(circuits, s) == Step(cfg, Get(old(circuits), s), s, Op.RecordSuccess(skill))
    {
      var c := Get(circuits, skill);
      c := c.(successCount := c.successCount + 1, totalCalls := c.totalCalls + 1);
      if c.state == HalfOpen {
        c := c.(state := Closed, failures := 0);
      } else {
        c := c.(failures := 0);
      }
      circuits := circuits[skill := c];
    }

    method RecordFailure(skill: string, t: int, tOpen: int)
      modifies this
      ensures forall s :: Get(circuits, s) == Step(cfg, Get(old(circuits), s), s, Op.RecordFailure(skill, t, tOpen))
    {
      var c := Get(circuits, skill);
      c := c.(failures := c.failures + 1, totalCalls := c.totalCalls + 1, lastFailureAt := t);
      if c.state == HalfOpen {
        c := c.(state := Open, openedAt := tOpen);
      } else if c.failures >= cfg.failureThreshold {
        c := c.(state := Open, openedAt := tOpen);
      }
      circuits := circuits[skill := c];
    }

    method Reset(skill: string)
      modifies this
      ensures forall s :: Get(circuits, s) == Step(cfg, Get(old(circuits), s), s, Op.Reset(skill))
    {
      circuits := circuits[skill := Get(circuits, skill).(state := Closed, failures := 0)];
    }

    method Clear()
      modifies this
      ensures forall s :: Get(circuits, s) == Step(cfg, Get(old(circuits), s), s, Op.Clear)
    {
      circuits := map[];
    }
  }

  // ---------------------------------------------------------------- every run

  predicate Forgives(op: Op, skill: string) {
    op.Clear? || (op.RecordSuccess? && op.skill == skill) || (op.Reset? && op.skill == skill)
  }

  predicate FailsAt(op: Op, skill: string) { op.RecordFailure? && op.skill == skill }

  /** The failures of a skill since the last success, reset or clear. */
  function FailuresSince(ops: seq<Op>, skill: string): nat {
    if ops == [] then 0
    else
      var last := ops[|ops| - 1];
      if Forgives(last, skill) then 0
      else FailuresSince(ops[..|ops| - 1], skill) + if FailsAt(last, skill) then 1 else 0
  }

  /** In every run the counter is the number of failures since they were last forgiven, and a closed circuit is below
      the threshold. */
  lemma {:induction false} CounterMeaning(cfg: Config, skill: string, ops: seq<Op>)
    requires cfg.failureThreshold >= 1
    ensures CircuitAfter(cfg, skill, ops).failures == FailuresSince(ops, skill)
    ensures CircuitAfter(cfg, skill, ops).state == Closed ==> FailuresSince(ops, skill) < cfg.failureThreshold
  {
    if ops != [] {
      CounterMeaning(cfg, skill, ops[..|ops| - 1]);
    }
  }

  /** A closed circuit opens exactly on the failure that completes `failureThreshold` failures in a row, and has no
      other way out. */
  lemma OpensIff(cfg: Config, skill: string, ops: seq<Op>)
    requires cfg.failureThreshold >= 1 && ops != []
    requires CircuitAfter(cfg, skill, ops[..|ops| - 1]).state == Closed
    ensures CircuitAfter(cfg, skill, ops).state != Closed
            <==> FailsAt(ops[|ops| - 1], skill) && FailuresSince(ops, skill) == cfg.failureThreshold
    ensures CircuitAfter(cfg, skill, ops).state != HalfOpen
  {
    CounterMeaning(cfg, skill, ops[..|ops| - 1]);
    CounterMeaning(cfg, skill, ops);
  }

  /** A circuit that is not closed closes exactly on a reset, on a clear, or on a success while it is half-open. */
  lemma ClosesIff(cfg: Config, skill: string, ops: seq<Op>)
    requires ops != [] && CircuitAfter(cfg, skill, ops[..|ops| - 1]).state != Closed
    ensures CircuitAfter(cfg, skill, ops).state == Closed
            <==> var last := ops[|ops| - 1];
                 || last == Clear || last == Reset(skill)
                 || (last == RecordSuccess(skill) && CircuitAfter(cfg, skill, ops[..|ops| - 1]).state == HalfOpen)
  {
  }

  /** A half-open circuit opens exactly on a failure, an open one becomes half-open exactly on a question in time. */
  lemma ReopensIff(cfg: Config, skill: string, ops: seq<Op>)
    requires ops != []
    ensures var before, last := CircuitAfter(cfg, skill, ops[..|ops| - 1]), ops[|ops| - 1];
            var after := CircuitAfter(cfg, skill, ops);
            && (before.state == HalfOpen ==> (after.state == Open <==> FailsAt(last, skill)))
            && (before.state == Open ==>
                  (after.state == HalfOpen <==>
                     last.CanExecute? && last.skill == skill && last.t - before.openedAt >= cfg.resetTimeoutMs))
            && (before.state == Closed ==> after.state != HalfOpen)
  {
  }

  /** The failure at `k` opens the circuit, or opens it anew: it comes while half-open or completes the threshold. */
  predicate Opens(cfg: Config, skill: string, ops: seq<Op>, k: nat)
    requires k < |ops|
  {
    && FailsAt(ops[k], skill)
    && (CircuitAfter(cfg, skill, ops[..k]).state == HalfOpen
        || FailuresSince(ops[..k + 1], skill) >= cfg.failureThreshold)
  }

  /** An open circuit was opened last by such a failure, and counts its timeout from there. */
  lemma {:induction false} OpenSince(cfg: Config, skill: string, ops: seq<Op>) returns (k: nat)
    requires cfg.failureThreshold >= 1 && CircuitAfter(cfg, skill, ops).state == Open
    ensures k < |ops| && Opens(cfg, skill, ops, k) && CircuitAfter(cfg, skill, ops).openedAt == ops[k].tOpen
    ensures forall j :: k < j < |ops| ==> !Opens(cfg, skill, ops, j)
  {
    var n := |ops| - 1;
    var front := ops[..n];
    assert ops[..n + 1] == ops;
    CounterMeaning(cfg, skill, front);
    CounterMeaning(cfg, skill, ops);
    if Opens(cfg, skill, ops, n) {
      k := n;
    } else {
      k := OpenSince(cfg, skill, front);
      forall j | 0 <= j < n
        ensures Opens(cfg, skill, front, j) <==> Opens(cfg, skill, ops, j)
      {
        assert front[..j] == ops[..j] && front[..j + 1] == ops[..j + 1];
      }
    }
  }

  /** How many operations of the run since the last clear satisfy `p`. */
  function CountSince(ops: seq<Op>, p: Op -> bool): nat {
    if ops == [] || ops[|ops| - 1].Clear? then 0
    else CountSince(ops[..|ops| - 1], p) + if p(ops[|ops| - 1]) then 1 else 0
  }

  function SuccessOf(skill: string): Op -> bool { op => op == RecordSuccess(skill) }

  function ResultOf(skill: string): Op -> bool { op => op == RecordSuccess(skill) || FailsAt(op, skill) }

  /** The time of the last failure of the skill since the last clear, 0 if there was none. */
  function LastFailure(ops: seq<Op>, skill: string): int {
    if ops == [] || ops[|ops| - 1].Clear? then 0
    else if FailsAt(ops[|ops| - 1], skill) then ops[|ops| - 1].t
    else LastFailure(ops[..|ops| - 1], skill)
  }

  /** The statistics say what happened: successes, results and the last failure since the last clear. */
  lemma {:induction false} StatisticsMeaning(cfg: Config, skill: string, ops: seq<Op>)
    ensures var c := CircuitAfter(cfg, skill, ops);
            && c.successCount == CountSince(ops, SuccessOf(skill))
            && c.totalCalls == CountSince(ops, ResultOf(skill))
            && c.lastFailureAt == LastFailure(ops, skill)
  {
    if ops != [] {
      StatisticsMeaning(cfg, skill, ops[..|ops| - 1]);
    }
  }

  /** Between the opening at operation `k` and operation `j`, nothing but questions and successes happened to this
      circuit. */
  predicate QuietBetween(ops: seq<Op>, k: nat, j: nat, skill: string)
    requires j <= |ops|
  {
    forall i :: k < i < j ==> !FailsAt(ops[i], skill) && ops[i] != Clear && ops[i] != Reset(skill)
  }

  /** The questions come in the order of their clock readings. */
  predicate Timely(ops: seq<Op>) {
    forall i, j :: 0 <= i < j < |ops| && ops[i].CanExecute? && ops[j].CanExecute? ==> ops[i].t <= ops[j].t
  }

  /** Operation `k` opened the circuit. */
  predicate OpenedAt(cfg: Config, ops: seq<Op>, k: nat, skill: string)
    requires k < |ops|
  {
    FailsAt(ops[k], skill) && CircuitAfter(cfg, skill, ops[..k + 1]).state == Open
    && CircuitAfter(cfg, skill, ops[..k + 1]).openedAt == ops[k].tOpen
  }

  /** After opening, the circuit stays open and remembers when, or somebody asked after the timeout. */
  lemma {:induction false} OpenUntilAskedLate(cfg: Config, ops: seq<Op>, k: nat, skill: string)
    requires k < |ops| && OpenedAt(cfg, ops, k, skill) && QuietBetween(ops, k, |ops|, skill)
    ensures var c := CircuitAfter(cfg, skill, ops);
            || (c.state == Open && c.openedAt == ops[k].tOpen)
            || exists i :: k < i < |ops| && ops[i].CanExecute? && ops[i].skill == skill
                           && ops[i].t - ops[k].tOpen >= cfg.resetTimeoutMs && c.state != Open
  {
    if k == |ops| - 1 {
      assert ops[..k + 1] == ops;
    } else {
      var front := ops[..|ops| - 1];
      assert front[..k + 1] == ops[..k + 1];
      OpenUntilAskedLate(cfg, front, k, skill);
      var last := ops[|ops| - 1];
      assert ops[|ops| - 1] == last;
      if CircuitAfter(cfg, skill, front).state != Open {
        var i :| k < i < |front| && front[i].CanExecute? && front[i].skill == skill
                 && front[i].t - front[k].tOpen >= cfg.resetTimeoutMs;
        assert ops[i] == front[i];
      }
    }
  }

  /**
   Once a circuit opened at time t, and as long as it does not fail and is not reset, a question is
   answered with yes exactly when it comes at t + resetTimeoutMs or later.
   */
  lemma OpenRefusesUntilTimeout(cfg: Config, ops: seq<Op>, k: nat, j: nat)
    requires k < j < |ops| && ops[j].CanExecute? && Timely(ops)
    requires OpenedAt(cfg, ops, k, ops[j].skill) && QuietBetween(ops, k, j, ops[j].skill)
    ensures Admits(cfg, ops, j) <==> ops[j].t >= ops[k].tOpen + cfg.resetTimeoutMs
  {
    var h := ops[..j];
    assert h[..k + 1] == ops[..k + 1];
    OpenUntilAskedLate(cfg, h, k, ops[j].skill);
    var c := CircuitAfter(cfg, ops[j].skill, h);
    if c.state != Open {
      var i :| k < i < |h| && h[i].CanExecute? && h[i].skill == ops[j].skill
          && h[i].t - h[k].tOpen >= cfg.resetTimeoutMs;
      assert h[i] == ops[i];
    }
  }

  // ---------------------------------------------------------------- probes

  /** A result or an intervention: what ends a probe of this skill's circuit. */
  predicate Settles(op: Op, skill: string) { FailsAt(op, skill) || Forgives(op, skill) }

  predicate Unsettled(ops: seq<Op>, i: nat, j: nat, skill: string)
    requires j <= |ops|
  {
    forall m :: i < m < j ==> !Settles(ops[m], skill)
  }

  predicate AsksFor(op: Op, skill: string) { op.CanExecute? && op.skill == skill }

  function StateBefore(cfg: Config, ops: seq<Op>, k: nat, skill: string): CircuitState
    requires k <= |ops|
  {
    CircuitAfter(cfg, skill, ops[..k]).state
  }

  /** Operation `k` is a question that is admitted although the circuit is not closed. */
  predicate Probes(cfg: Config, ops: seq<Op>, k: nat, skill: string)
    requires k < |ops|
  {
    AsksFor(ops[k], skill) && StateBefore(cfg, ops, k, skill) != Closed && Admits(cfg, ops, k)
  }

  lemma StateStep(cfg: Config, ops: seq<Op>, k: nat, skill: string)
    requires k < |ops|
    ensures StateBefore(cfg, ops, k + 1, skill) == Step(cfg, CircuitAfter(cfg, skill, ops[..k]), skill, ops[k]).state
  {
    assert ops[..k + 1][..k] == ops[..k];
  }

  lemma ProbeMakesHalfOpen(cfg: Config, ops: seq<Op>, k: nat, skill: string)
    requires k < |ops| && Probes(cfg, ops, k, skill)
    ensures StateBefore(cfg, ops, k + 1, skill) == HalfOpen
  {
    StateStep(cfg, ops, k, skill);
  }

  /** A half-open circuit stays half-open until its probe is settled. */
  lemma {:induction false} HalfOpenStays(cfg: Config, ops: seq<Op>, i: nat, j: nat, skill: string)
    requires i < j <= |ops| && StateBefore(cfg, ops, i + 1, skill) == HalfOpen && Unsettled(ops, i, j, skill)
    ensures StateBefore(cfg, ops, j, skill) == HalfOpen
  {
    if i + 1 < j {
      HalfOpenStays(cfg, ops, i, j - 1, skill);
      assert !Settles(ops[j - 1], skill);
      StateStep(cfg, ops, j - 1, skill);
    }
  }

  /** Behind every half-open circuit is a probe that is not settled yet. */
  lemma {:induction false} HalfOpenHasProbe(cfg: Config, ops: seq<Op>, j: nat, skill: string) returns (i: nat)
    requires j <= |ops| && StateBefore(cfg, ops, j, skill) == HalfOpen
    ensures i < j && Probes(cfg, ops, i, skill) && Unsettled(ops, i, j, skill)
  {
    StateStep(cfg, ops, j - 1, skill);
    if StateBefore(cfg, ops, j - 1, skill) == HalfOpen {
      i := HalfOpenHasProbe(cfg, ops, j - 1, skill);
    } else {
      i := j - 1;
    }
  }

  /** The file's header promises one probe in the half-open state; the code admits every question asked there. */
  lemma HalfOpenAdmitsEveryQuestion(cfg: Config, ops: seq<Op>, i: nat, j: nat, skill: string)
    requires i < j < |ops| && StateBefore(cfg, ops, i + 1, skill) == HalfOpen && Unsettled(ops, i, j, skill)
    requires AsksFor(ops[j], skill)
    ensures Probes(cfg, ops, j, skill)
  {
    HalfOpenStays(cfg, ops, i, j, skill);
  }

  /** Between two probes there is always a result or an intervention. */
  predicate OneProbeAtATime(cfg: Config, ops: seq<Op>, skill: string) {
    forall i: nat, j: nat :: i < j < |ops| && Probes(cfg, ops, i, skill) && Probes(cfg, ops, j, skill)
                             ==> !Unsettled(ops, i, j, skill)
  }

  predicate NeverAskedHalfOpen(cfg: Config, ops: seq<Op>, skill: string) {
    forall k: nat :: k < |ops| && AsksFor(ops[k], skill) ==> StateBefore(cfg, ops, k, skill) != HalfOpen
  }

  /**
   In every run, the circuit admits one probe at a time, as the header promises, if and only if nobody asks while
   it is half-open.
   */
  lemma OneProbeIff(cfg: Config, ops: seq<Op>, skill: string)
    ensures OneProbeAtATime(cfg, ops, skill) <==> NeverAskedHalfOpen(cfg, ops, skill)
  {
    if k: nat :| k < |ops| && AsksFor(ops[k], skill) && StateBefore(cfg, ops, k, skill) == HalfOpen {
      var i := HalfOpenHasProbe(cfg, ops, k, skill);
      assert Probes(cfg, ops, k, skill);
    }
    if i: nat, j: nat :| && i < j < |ops| && Probes(cfg, ops, i, skill) && Probes(cfg, ops, j, skill)
                         && Unsettled(ops, i, j, skill) {
      ProbeMakesHalfOpen(cfg, ops, i, skill);
      HalfOpenStays(cfg, ops, i, j, skill);
    }
  }

  function Failures(skill: string, t: int, n: nat): seq<Op> {
    if n == 0 then [] else Failures(skill, t, n - 1) + [RecordFailure(skill, t, t)]
  }

  lemma {:induction false} FailuresInARow(cfg: Config, skill: string, t: int, n: nat)
    requires cfg.failureThreshold >= 1 && n <= cfg.failureThreshold
    ensures var c := CircuitAfter(cfg, skill, Failures(skill, t, n));
            && c.failures == n
            && (if n == cfg.failureThreshold then c.state == Open && c.openedAt == t else c.state == Closed)
  {
    if n > 0 {
      FailuresInARow(cfg, skill, t, n - 1);
      var ops := Failures(skill, t, n);
      assert ops[..|ops| - 1] == Failures(skill, t, n - 1);
    }
  }

  /** The half-open state is reached under every configuration: by enough failures and a question after the timeout. */
  lemma HalfOpenIsReached(cfg: Config, skill: string, t: int)
    requires cfg.failureThreshold >= 1
    ensures var ops := Failures(skill, t, cfg.failureThreshold) + [CanExecute(skill, t + cfg.resetTimeoutMs)];
            CircuitAfter(cfg, skill, ops).state == HalfOpen
  {
    var fails := Failures(skill, t, cfg.failureThreshold);
    var ops := fails + [CanExecute(skill, t + cfg.resetTimeoutMs)];
    FailuresInARow(cfg, skill, t, cfg.failureThreshold);
    assert ops[..|ops| - 1] == fails;
  }
}
