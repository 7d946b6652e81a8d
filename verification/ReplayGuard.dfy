/**
 The replay guard (replay.ts): remembers when a message key was last accepted, and forgets entries older
 than two minutes at times of its own choosing. Clock readings are whole milliseconds and never decrease.
 */
module ReplayGuard {

  type Seen = map<string, int>

  const RETENTION_MS := 120_000

  function Check(seen: Seen, now: int, key: string, ttlMs: int): (Seen, bool) {
    if key in seen && now - seen[key] < ttlMs then (seen, true) else (seen[key := now], false)
  }

  function Sweep(seen: Seen, now: int): Seen { map k | k in seen && seen[k] >= now - RETENTION_MS :: seen[k] }

  class ReplayGuard {
    var seen: Seen

    constructor ()
      ensures seen == map[]
    {
      seen := map[];
    }

    method IsReplay(now: int, sender: string, idempotencyKey: string, ttlMs: int) returns (replay: bool)
      modifies this
      ensures (seen, replay) == Check(old(seen), now, sender + ":" + idempotencyKey, ttlMs)
    {
      var key := sender + ":" + idempotencyKey;
      if key in seen && now - seen[key] < ttlMs {
        return true;
      }
      seen := seen[key := now];
      return false;
    }

    method Cleanup(now: int)
      modifies this
      ensures seen == Sweep(old(seen), now)
    {
      var cutoff := now - RETENTION_MS;
      var todo := seen.Keys;
      while todo != {}
        invariant todo <= seen.Keys <= old(seen).Keys
        invariant forall k :: k in seen ==> seen[k] == old(seen)[k]
        invariant forall k :: k in old(seen) && k !in todo ==> (k in seen <==> old(seen)[k] >= cutoff)
        decreases todo
      {
        var k :| k in todo;
        if seen[k] < cutoff {
          seen := seen - {k};
        }
        todo := todo - {k};
      }
    }
  }

  // ---------------------------------------------------------------- runs

  datatype Op = Call(t: int, key: string, ttlMs: int) | Clean(t: int)

  predicate Timely(ops: seq<Op>) { forall i, j :: 0 <= i < j < |ops| ==> ops[i].t <= ops[j].t }

  predicate TtlAtMost(ops: seq<Op>, bound: int) { forall i :: 0 <= i < |ops| && ops[i].Call? ==> ops[i].ttlMs <= bound }

  function Next(seen: Seen, op: Op): Seen {
    match op
    case Call(t, key, ttlMs) => Check(seen, t, key, ttlMs).0
    case Clean(t) => Sweep(seen, t)
  }

  function Run(ops: seq<Op>): Seen {
    if ops == [] then map[] else Next(Run(ops[..|ops| - 1]), ops[|ops| - 1])
  }

  /** The guard's answer to the call at `i`. */
  predicate Replay(ops: seq<Op>, i: nat)
    requires i < |ops| && ops[i].Call?
  {
    Check(Run(ops[..i]), ops[i].t, ops[i].key, ops[i].ttlMs).1
  }

  /** The same guard without any cleanup. */
  function RunUnforgetting(ops: seq<Op>): Seen {
    if ops == [] then map[]
    else if ops[|ops| - 1].Clean? then RunUnforgetting(ops[..|ops| - 1])
    else Next(RunUnforgetting(ops[..|ops| - 1]), ops[|ops| - 1])
  }

  predicate ReplayUnforgetting(ops: seq<Op>, i: nat)
    requires i < |ops| && ops[i].Call?
  {
    Check(RunUnforgetting(ops[..i]), ops[i].t, ops[i].key, ops[i].ttlMs).1
  }

  /** The two memories differ only in entries that are too old to matter. */
  predicate Agree(seen: Seen, full: Seen, now: int) {
    && (forall k :: k in seen ==> k in full && seen[k] == full[k])
    && (forall k :: k in full && k !in seen ==> full[k] < now - RETENTION_MS)
  }

  lemma {:induction false} MemoriesAgree(ops: seq<Op>, now: int)
    requires Timely(ops) && TtlAtMost(ops, RETENTION_MS + 1)
    requires ops != [] ==> ops[|ops| - 1].t <= now
    ensures Agree(Run(ops), RunUnforgetting(ops), now)
  {
    if ops != [] {
      MemoriesAgree(ops[..|ops| - 1], ops[|ops| - 1].t);
    }
  }

  /** Cleanup at any times cannot be observed, as long as no time to live exceeds 120001 ms. */
  lemma CleanupIsUnobservable(ops: seq<Op>, i: nat)
    requires Timely(ops) && TtlAtMost(ops, RETENTION_MS + 1) && i < |ops| && ops[i].Call?
    ensures Replay(ops, i) == ReplayUnforgetting(ops, i)
  {
    MemoriesAgree(ops[..i], ops[i].t);
  }

  /** The run that shows the bound cannot be raised: accept, clean 120001 ms later, ask again. */
  function Forgetful(ttlMs: int): seq<Op> {
    [Call(0, "a:b", ttlMs), Clean(RETENTION_MS + 1), Call(RETENTION_MS + 1, "a:b", ttlMs)]
  }

  lemma ForgetfulForgets(ttlMs: int)
    requires ttlMs > RETENTION_MS + 1
    ensures !Replay(Forgetful(ttlMs), 2) && ReplayUnforgetting(Forgetful(ttlMs), 2)
  {
    var ops := Forgetful(ttlMs);
    assert ops[..2][..1] == ops[..1] && ops[..1][..0] == [];
    assert Run(ops[..1]) == map["a:b" := 0];
    assert Run(ops[..2]) == map[];
    assert RunUnforgetting(ops[..1]) == map["a:b" := 0];
    assert RunUnforgetting(ops[..2]) == map["a:b" := 0];
  }

  ghost predicate AlwaysUnobservable(bound: int) {
    forall ops: seq<Op>, i: nat :: Timely(ops) && TtlAtMost(ops, bound) && i < |ops| && ops[i].Call?
                          ==> Replay(ops, i) == ReplayUnforgetting(ops, i)
  }

  /** The exact bound: all runs with times to live up to `bound` are safe from cleanup iff `bound` is at most 120001. */
  lemma ExactBound(bound: int)
    ensures AlwaysUnobservable(bound) <==> bound <= RETENTION_MS + 1
  {
    if bound <= RETENTION_MS + 1 {
      forall ops: seq<Op>, i: nat | Timely(ops) && TtlAtMost(ops, bound) && i < |ops| && ops[i].Call?
        ensures Replay(ops, i) == ReplayUnforgetting(ops, i)
      {
        CleanupIsUnobservable(ops, i);
      }
    } else {
      ForgetfulForgets(bound);
      assert Timely(Forgetful(bound)) && TtlAtMost(Forgetful(bound), bound);
    }
  }

  // ---------------------------------------------------------------- what the answers mean

  /** The call at `i` was accepted under this key. */
  predicate Accepts(ops: seq<Op>, i: nat, key: string)
    requires i < |ops|
  {
    ops[i].Call? && ops[i].key == key && !ReplayUnforgetting(ops, i)
  }

  /** Whether a call is accepted depends only on the calls before it. */
  lemma AcceptsLooksBack(ops: seq<Op>, i: nat, key: string)
    requires i + 1 < |ops|
    ensures Accepts(ops[..|ops| - 1], i, key) <==> Accepts(ops, i, key)
  {
    assert ops[..|ops| - 1][..i] == ops[..i];
  }

  /** The last operation sets the key's time if it is an accepted call under the key, and else leaves it alone. */
  lemma LastOpRecords(ops: seq<Op>, key: string)
    requires ops != []
    ensures var n := |ops| - 1;
            var before, after := RunUnforgetting(ops[..n]), RunUnforgetting(ops);
            && (Accepts(ops, n, key) ==> key in after && after[key] == ops[n].t)
            && (!Accepts(ops, n, key) ==>
                  (key in after <==> key in before) && (key in after ==> after[key] == before[key]))
  {
  }

  /** The unforgetting memory holds the time of the latest accepted call. */
  lemma {:induction false} MemoryIsLatestAccepted(ops: seq<Op>, key: string) returns (last: nat)
    requires Timely(ops)
    ensures key in RunUnforgetting(ops) ==>
              last < |ops| && Accepts(ops, last, key) && RunUnforgetting(ops)[key] == ops[last].t
    ensures forall i: nat :: i < |ops| && Accepts(ops, i, key) ==>
              key in RunUnforgetting(ops) && ops[i].t <= RunUnforgetting(ops)[key]
  {
    last := 0;
    if ops != [] {
      var n := |ops| - 1;
      last := MemoryIsLatestAccepted(ops[..n], key);
      LastOpRecords(ops, key);
      forall i: nat | i < n
        ensures Accepts(ops[..n], i, key) <==> Accepts(ops, i, key)
      {
        AcceptsLooksBack(ops, i, key);
      }
      if Accepts(ops, n, key) {
        last := n;
      }
    }
  }

  /**
   A call is reported as a replay exactly when an earlier call under the same key was accepted less than
   the call's own time to live ago. So any two accepted calls are at least the later one's time to live apart.
   */
  lemma ReplayMeaning(ops: seq<Op>, k: nat)
    requires Timely(ops) && TtlAtMost(ops, RETENTION_MS + 1) && k < |ops| && ops[k].Call?
    ensures Replay(ops, k) <==> exists i: nat :: i < k && ops[i].Call? && ops[i].key == ops[k].key && !Replay(ops, i)
                                                && ops[k].t - ops[i].t < ops[k].ttlMs
  {
    var h := ops[..k];
    CleanupIsUnobservable(ops, k);
    var last := MemoryIsLatestAccepted(h, ops[k].key);
    forall i: nat | i < k && ops[i].Call?
      ensures ops[i] == h[i] && (ReplayUnforgetting(h, i) <==> Replay(ops, i))
    {
      assert h[..i] == ops[..i];
      CleanupIsUnobservable(ops, i);
    }
    if Replay(ops, k) {
      assert ops[last] == h[last];
    }
  }
}
