/**
 What a call of `loadOrCreateLibp2pPrivateKey` ends with (libp2p-identity.ts), as a statement about runs: which key
 is returned, and what every error means. A call is undisturbed if none of its own file operations fails.
 */
module FirstCreateResults {
  import opened Prelude
  import opened FirstCreate

  predicate Fault(ev: Event, p: nat) { ev.Step? && ev.id == p && (ev.choice.Fails? || ev.choice.Dies?) }

  /** No step of call `p` fails, and it does not crash. */
  predicate Undisturbed(evs: seq<Event>, p: nat) { forall i :: 0 <= i < |evs| ==> !Fault(evs[i], p) }

  /** Some step of call `p` failed or was its crash. */
  predicate Disturbed(evs: seq<Event>, p: nat) { exists i :: 0 <= i < |evs| && Fault(evs[i], p) }

  function OutcomeOf(s: State, p: nat): Outcome
    requires p in s.procs && s.procs[p].phase.Finished?
  {
    s.procs[p].phase.outcome
  }

  predicate Done(s: State, p: nat) { p in s.procs && s.procs[p].phase.Finished? }

  // ---------------------------------------------------------------- starting with a key

  /** A call that finds the key of the file at its first look. */
  predicate Straight(s: State, p: nat, k: Key) {
    p in s.procs ==> s.procs[p].phase in {Begin, Loading(false), Finished(Returned(k, false))}
  }

  lemma NextStaysStraight(c: Codec, s: State, ev: Event, p: nat, k: Key)
    requires Sound(c) && Straight(s, p, k) && s.files.key == Some(c.enc(k)) && !Fault(ev, p)
    ensures Straight(Next(c, s, ev), p, k)
  {
    assert c.dec(c.enc(k)) == Ed25519(k);
  }

  lemma {:induction false} StaysStraight(c: Codec, s0: State, evs: seq<Event>, p: nat, k: Key)
    requires Sound(c) && Init(s0) && Sighted(c, s0, evs) && s0.files.key == Some(c.enc(k)) && Undisturbed(evs, p)
    ensures Straight(Exec(c, s0, evs), p, k) && Exec(c, s0, evs).files.key == Some(c.enc(k))
  {
    if evs != [] {
      var n := |evs| - 1;
      SightedPrefix(c, s0, evs, 0, n);
      StaysStraight(c, s0, evs[..n], p, k);
      ExecKeepsInv(c, s0, evs[..n]);
      NextKeepsKeyFile(c, Exec(c, s0, evs[..n]), evs[n]);
      NextStaysStraight(c, Exec(c, s0, evs[..n]), evs[n], p, k);
    }
  }

  /** Every undisturbed call on a directory that has a key returns that key, and says that it is not new. */
  lemma ExistingKeyIsReturned(c: Codec, s0: State, evs: seq<Event>, p: nat, k: Key)
    requires Sound(c) && Init(s0) && Sighted(c, s0, evs) && s0.files.key == Some(c.enc(k)) && Undisturbed(evs, p)
    requires Done(Exec(c, s0, evs), p)
    ensures OutcomeOf(Exec(c, s0, evs), p) == Returned(k, false)
  {
    StaysStraight(c, s0, evs, p, k);
  }

  // ---------------------------------------------------------------- any start

  /** What an undisturbed call may be told, given the key file. */
  predicate Told(c: Codec, key: Option<Bytes>, o: Outcome) {
    match o
    case Returned(k, generated) =>
      key.Some? && c.dec(key.value) == Ed25519(k) && (generated ==> key.value == c.enc(k))
    case Threw(e) =>
      || e == LockTimeout
      || (e == CorruptKey && key.Some? && c.dec(key.value) == Corrupt)
      || (e == WrongKeyType && key.Some? && c.dec(key.value) == OtherType)
  }

  predicate Candid(c: Codec, f: Files, ph: Phase) {
    !ph.CleanTmp? && !ph.Crashed? && (HasOutcome(ph) ==> Told(c, f.key, ph.outcome))
  }

  lemma StepStaysCandid(c: Codec, f: Files, pr: Proc, ch: Choice)
    requires Sound(c) && Sane(c, f, pr) && Agrees(c, f, pr.phase) && Candid(c, f, pr.phase)
    requires !ch.Fails? && !ch.Dies?
    ensures var (f', ph) := StepProc(c, f, pr, ch); Candid(c, f', ph)
  {
  }

  lemma NextStaysCandid(c: Codec, s: State, ev: Event, p: nat)
    requires Sound(c) && Inv(c, s) && !Fault(ev, p)
    requires p in s.procs ==> Candid(c, s.files, s.procs[p].phase)
    ensures p in Next(c, s, ev).procs ==> Candid(c, Next(c, s, ev).files, Next(c, s, ev).procs[p].phase)
  {
    if ev.Step? && ev.id in s.procs && ev.id == p {
      StepStaysCandid(c, s.files, s.procs[p], ev.choice);
    } else {
      OnlyRenameTouchesKey(c, s, ev);
      if s.files.key.Some? {
        NextKeepsKeyFile(c, s, ev);
      }
    }
  }

  lemma {:induction false} UndisturbedIsCandid(c: Codec, s0: State, evs: seq<Event>, p: nat)
    requires Sound(c) && Init(s0) && Sighted(c, s0, evs) && Undisturbed(evs, p)
    ensures p in Exec(c, s0, evs).procs ==> Candid(c, Exec(c, s0, evs).files, Exec(c, s0, evs).procs[p].phase)
  {
    if evs != [] {
      var n := |evs| - 1;
      SightedPrefix(c, s0, evs, 0, n);
      UndisturbedIsCandid(c, s0, evs[..n], p);
      ExecKeepsInv(c, s0, evs[..n]);
      NextStaysCandid(c, Exec(c, s0, evs[..n]), evs[n], p);
    }
  }

  /**
   An undisturbed call that ends has told the truth about the key file: it returns the key that is there, reports
   the file as corrupt or of another type when it is, or has waited in vain for the lock.
   */
  lemma UndisturbedOutcome(c: Codec, s0: State, evs: seq<Event>, p: nat)
    requires Sound(c) && Init(s0) && Sighted(c, s0, evs) && Undisturbed(evs, p) && Done(Exec(c, s0, evs), p)
    ensures Told(c, Exec(c, s0, evs).files.key, OutcomeOf(Exec(c, s0, evs), p))
  {
    UndisturbedIsCandid(c, s0, evs, p);
  }

  // ---------------------------------------------------------------- failures

  /** The call is ending, or going to end, with a failed operation. */
  predicate Failing(ph: Phase) { ph.CleanTmp? || ph.Crashed? || (HasOutcome(ph) && ph.outcome == Threw(IoFailure)) }

  lemma StepFails(c: Codec, f: Files, pr: Proc, ch: Choice)
    requires Sane(c, f, pr) && Failing(StepProc(c, f, pr, ch).1)
    ensures Failing(pr.phase) || ch.Fails? || ch.Dies?
  {
  }

  /** A call ends with an operation failure, or stops for good, only if one of its own steps failed or was a crash. */
  lemma {:induction false} FailureHasACause(c: Codec, s0: State, evs: seq<Event>, p: nat)
    requires Init(s0) && p in Exec(c, s0, evs).procs && Failing(Exec(c, s0, evs).procs[p].phase)
    ensures Disturbed(evs, p)
  {
    var n := |evs| - 1;
    var s, ev := Exec(c, s0, evs[..n]), evs[n];
    if Fault(ev, p) {
      assert Fault(evs[n], p);
    } else {
      EveryRunIsOrderly(c, s0, evs[..n]);
      NextFails(c, s, ev, p);
      FailureHasACause(c, s0, evs[..n], p);
      var i :| 0 <= i < n && Fault(evs[..n][i], p);
      assert Fault(evs[i], p);
    }
  }

  lemma NextFails(c: Codec, s: State, ev: Event, p: nat)
    requires Orderly(c, s) && !Fault(ev, p)
    requires p in Next(c, s, ev).procs && Failing(Next(c, s, ev).procs[p].phase)
    ensures p in s.procs && Failing(s.procs[p].phase)
  {
    if ev.Step? && ev.id == p && p in s.procs && Active(s.procs[p].phase) {
      StepFails(c, s.files, s.procs[p], ev.choice);
    }
  }

  /** The operations whose failure the call has to report: all but the looks for the key and the removals. */
  predicate Critical(ph: Phase) {
    ph.Locking? || ph.Loading? || ph.Generating? || ph.OpenTmp? || ph.Writing? || ph.Renaming?
  }

  /** A step that fails, or a crash, changes nothing in the directory. */
  lemma FaultChangesNoFile(c: Codec, f: Files, pr: Proc, ch: Choice)
    requires ch.Fails? || ch.Dies?
    ensures StepProc(c, f, pr, ch).0 == f
    ensures ch.Dies? ==> StepProc(c, f, pr, ch).1.Crashed?
    ensures ch.Fails? && Critical(pr.phase) ==> Failing(StepProc(c, f, pr, ch).1)
  {
  }

  lemma FailingStaysFailing(c: Codec, s: State, ev: Event, p: nat)
    requires p in s.procs && Failing(s.procs[p].phase)
    ensures p in Next(c, s, ev).procs && Failing(Next(c, s, ev).procs[p].phase)
  {
  }

  /** Conversely, a call of which a critical operation failed never returns a key: it ends with that failure. */
  lemma {:induction false} FailureIsReported(c: Codec, s0: State, evs: seq<Event>, i: nat, p: nat)
    requires i < |evs| && evs[i] == Step(p, Fails)
    requires p in Exec(c, s0, evs[..i]).procs && Critical(Exec(c, s0, evs[..i]).procs[p].phase)
    ensures p in Exec(c, s0, evs).procs && Failing(Exec(c, s0, evs).procs[p].phase)
    ensures Done(Exec(c, s0, evs), p) ==> OutcomeOf(Exec(c, s0, evs), p) == Threw(IoFailure)
  {
    var n := |evs| - 1;
    var s := Exec(c, s0, evs[..n]);
    if i == n {
      FaultChangesNoFile(c, s.files, s.procs[p], Fails);
    } else {
      assert evs[..n][..i] == evs[..i];
      FailureIsReported(c, s0, evs[..n], i, p);
      FailingStaysFailing(c, s, evs[n], p);
    }
  }

  /** A write may take any part of what is left, and puts just that part behind what was written. */
  lemma PartialWrite(c: Codec, f: Files, pr: Proc, n: nat)
    requires pr.phase.Writing? && Sane(c, f, pr) && 1 <= n <= |c.enc(pr.phase.key)| - pr.phase.off
    ensures var (f', ph) := StepProc(c, f, pr, Writes(n));
            && ph == Writing(pr.phase.key, pr.phase.off + n)
            && f'.tmp == f.tmp[pr.pid := c.enc(pr.phase.key)[..pr.phase.off + n]]
            && f'.key == f.key && f'.lock == f.lock
  {
    var data := c.enc(pr.phase.key);
    assert data[..pr.phase.off] + data[pr.phase.off..pr.phase.off + n] == data[..pr.phase.off + n];
  }

  // ---------------------------------------------------------------- the timeout

  /** Event `i` is an attempt of call `p` at the lock file that finds it taken. */
  predicate MeetsLock(s: State, ev: Event, p: nat) {
    && ev.Step? && ev.id == p && !ev.choice.Fails? && !ev.choice.Dies?
    && p in s.procs && s.procs[p].phase.Locking? && s.files.lock
  }

  /** How often call `p` found the lock taken. */
  function Met(c: Codec, s0: State, evs: seq<Event>, p: nat): nat {
    if evs == [] then 0
    else
      var n := |evs| - 1;
      Met(c, s0, evs[..n], p) + if MeetsLock(Exec(c, s0, evs[..n]), evs[n], p) then 1 else 0
  }

  /** The time a call has waited is 100 ms for each time it found the lock taken. */
  predicate Waited(ph: Phase, met: nat) {
    match ph
    case Begin => met == 0
    case Locking(w) => w == STEP_MS * met && w <= MAX_WAIT_MS
    case Busy(w) => w + STEP_MS == STEP_MS * met && w <= MAX_WAIT_MS
    case Finished(o) => o == Threw(LockTimeout) ==> met == 301
    case Releasing(o) => o != Threw(LockTimeout)
    case _ => true
  }

  lemma StepWaited(c: Codec, f: Files, pr: Proc, ch: Choice, met: nat)
    requires Sane(c, f, pr) && Active(pr.phase) && Waited(pr.phase, met)
    ensures Waited(StepProc(c, f, pr, ch).1,
                   met + if pr.phase.Locking? && f.lock && !ch.Fails? && !ch.Dies? then 1 else 0)
  {
  }

  lemma {:induction false} EveryRunWaited(c: Codec, s0: State, evs: seq<Event>, p: nat)
    requires Init(s0)
    ensures var s, met := Exec(c, s0, evs), Met(c, s0, evs, p);
            if p in s.procs then Waited(s.procs[p].phase, met) else met == 0
  {
    if evs != [] {
      var n := |evs| - 1;
      var s, ev := Exec(c, s0, evs[..n]), evs[n];
      EveryRunWaited(c, s0, evs[..n], p);
      EveryRunIsOrderly(c, s0, evs[..n]);
      if ev.Step? && ev.id == p && p in s.procs && Active(s.procs[p].phase) {
        StepWaited(c, s.files, s.procs[p], ev.choice, Met(c, s0, evs[..n], p));
      }
    }
  }

  /** A call that gives up has found the lock taken 301 times. */
  lemma TimeoutMetTheLock(c: Codec, s0: State, evs: seq<Event>, p: nat)
    requires Init(s0) && Done(Exec(c, s0, evs), p) && OutcomeOf(Exec(c, s0, evs), p) == Threw(LockTimeout)
    ensures Met(c, s0, evs, p) == 301
  {
    EveryRunWaited(c, s0, evs, p);
  }

  // ---------------------------------------------------------------- a call of its own

  /** Only call `p` is running. */
  predicate Alone(evs: seq<Event>, p: nat) { forall i :: 0 <= i < |evs| ==> evs[i].id == p }

  /** The lock is there exactly while the call holds it, and nobody else has it. */
  predicate Free(s: State, p: nat) {
    && (forall q :: q in s.procs ==> q == p)
    && (s.files.lock ==> p in s.procs && Holds(s.procs[p].phase))
    && (s.files.key.Some? ==> p in s.procs && GeneratedKey(s.procs[p].phase))
    && (p in s.procs ==> !s.procs[p].phase.Busy? && !s.procs[p].phase.Loading?)
  }

  lemma NextStaysFree(c: Codec, s: State, ev: Event, p: nat)
    requires Orderly(c, s) && Free(s, p) && ev.id == p && !Fault(ev, p)
    requires p in s.procs ==> Candid(c, s.files, s.procs[p].phase)
    ensures Free(Next(c, s, ev), p)
  {
  }

  lemma {:induction false} StaysFree(c: Codec, s0: State, evs: seq<Event>, p: nat)
    requires Sound(c) && Init(s0) && Sighted(c, s0, evs) && s0.files.key.None? && !s0.files.lock
    requires Undisturbed(evs, p) && Alone(evs, p)
    ensures Free(Exec(c, s0, evs), p)
  {
    if evs != [] {
      var n := |evs| - 1;
      SightedPrefix(c, s0, evs, 0, n);
      StaysFree(c, s0, evs[..n], p);
      EveryRunIsOrderly(c, s0, evs[..n]);
      UndisturbedIsCandid(c, s0, evs[..n], p);
      NextStaysFree(c, Exec(c, s0, evs[..n]), evs[n], p);
    }
  }

  lemma {:induction false} NeverMet(c: Codec, s0: State, evs: seq<Event>, p: nat)
    requires Sound(c) && Init(s0) && Sighted(c, s0, evs) && s0.files.key.None? && !s0.files.lock
    requires Undisturbed(evs, p) && Alone(evs, p)
    ensures Met(c, s0, evs, p) == 0
  {
    if evs != [] {
      var n := |evs| - 1;
      SightedPrefix(c, s0, evs, 0, n);
      StaysFree(c, s0, evs[..n], p);
      NeverMet(c, s0, evs[..n], p);
    }
  }

  /** The first start: alone on a directory without key and lock, an undisturbed call generates the key and stores
      it. */
  lemma FirstStartGenerates(c: Codec, s0: State, evs: seq<Event>, p: nat)
    requires Sound(c) && Init(s0) && Sighted(c, s0, evs) && s0.files.key.None? && !s0.files.lock
    requires Undisturbed(evs, p) && Alone(evs, p) && Done(Exec(c, s0, evs), p)
    ensures var s := Exec(c, s0, evs);
            && OutcomeOf(s, p).Returned? && OutcomeOf(s, p).generated
            && s.files.key == Some(c.enc(OutcomeOf(s, p).key)) && !s.files.lock
  {
    UndisturbedOutcome(c, s0, evs, p);
    StaysFree(c, s0, evs, p);
    NeverMet(c, s0, evs, p);
    EveryRunWaited(c, s0, evs, p);
  }
}
