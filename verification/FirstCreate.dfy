/**
 The first-create protocol for the persistent node key (libp2p-identity.ts).

 Any number of calls of `loadOrCreateLibp2pPrivateKey` run at once over one shared directory. Each
 file-system call is one atomic step; steps of different calls interleave in any order, any call may
 crash between two steps, and every file-system call may fail. A failing `existsSync` answers "no".
 Nobody but these calls touches the key file or the lock file.
 */
module FirstCreate {
  import opened Prelude

  /** An Ed25519 private key: 32 bytes. */
  type Key = k: Bytes | |k| == 32
    witness [0, 0, 0, 0, 0, 0, 0, 0, 0, 0, 0, 0, 0, 0, 0, 0, 0, 0, 0, 0, 0, 0, 0, 0, 0, 0, 0, 0, 0, 0, 0, 0]

  /** What `privateKeyFromProtobuf` makes of a file's contents. */
  datatype Parsed = Ed25519(key: Key) | OtherType | Corrupt

  /** The key serialisation, and a bound on how long a serialised key is. */
  datatype Codec = Codec(enc: Key -> Bytes, dec: Bytes -> Parsed, maxLen: nat)

  ghost predicate Sound(c: Codec) {
    && (forall k: Key :: c.dec(c.enc(k)) == Ed25519(k))
    && (forall k: Key :: |c.enc(k)| <= c.maxLen)
  }

  const MAX_WAIT_MS := 30_000
  const STEP_MS := 100

  datatype Error = LockTimeout | IoFailure | CorruptKey | WrongKeyType | KeyVanished

  datatype Outcome = Returned(key: Key, generated: bool) | Threw(error: Error)

  /** Where a call is: each phase names the file-system call that comes next. */
  datatype Phase =
    | Begin                             // existsSync(key)
    | Locking(waited: nat)              // openSync(lock, 'wx')
    | Busy(waited: nat)                 // EEXIST seen: existsSync(key), then sleep or give up
    | Loading(locked: bool)             // readFileSync(key)
    | Recheck                           // existsSync(key), under the lock
    | Generating                        // generateKeyPair
    | OpenTmp(key: Key)                 // openSync(tmp, 'w')
    | Writing(key: Key, off: nat)       // writeSync, or fsync once everything is written
    | Renaming(key: Key)                // renameSync(tmp, key)
    | CleanTmp                          // unlinkSync(tmp) after a failed rename
    | Releasing(outcome: Outcome)       // unlinkSync(lock)
    | Finished(outcome: Outcome)
    | Crashed

  /** The shared directory. Temp files are named after the process id. */
  datatype Files = Files(key: Option<Bytes>, lock: bool, tmp: map<nat, Bytes>)

  /** One call; several calls may have the same process id. */
  datatype Proc = Proc(pid: nat, phase: Phase)

  datatype State = State(files: Files, procs: map<nat, Proc>)

  /** How the environment resolves a step: success, failure, a partial write, a fresh key, a crash. */
  datatype Choice = Goes | Fails | Writes(n: nat) | Draws(key: Key) | Dies

  datatype Event = Start(id: nat, pid: nat) | Step(id: nat, choice: Choice)

  predicate Active(ph: Phase) { !ph.Finished? && !ph.Crashed? }

  /** The phases between creating the lock file and removing it. */
  predicate Holds(ph: Phase) {
    || ph.Recheck? || ph.Generating? || ph.OpenTmp? || ph.Writing? || ph.Renaming? || ph.CleanTmp?
    || ph.Releasing? || (ph.Loading? && ph.locked)
  }

  /** The holder's phases in which the key has been seen to be absent and not yet been put in place. */
  predicate Creating(ph: Phase) {
    ph.Generating? || ph.OpenTmp? || ph.Writing? || ph.Renaming? || ph.CleanTmp?
  }

  predicate HasOutcome(ph: Phase) { ph.Releasing? || ph.Finished? }

  predicate GeneratedKey(ph: Phase) {
    HasOutcome(ph) && ph.outcome.Returned? && ph.outcome.generated
  }

  /** Ends a call; a holder of the lock must release it first (the `finally` block). */
  function End(locked: bool, o: Outcome): Phase {
    if locked then Releasing(o) else Finished(o)
  }

  /** The result of reading the key file (`loadExistingKey`). */
  function Load(c: Codec, f: Files): Outcome {
    match f.key
    case None => Threw(KeyVanished)
    case Some(b) =>
      match c.dec(b)
      case Ed25519(k) => Returned(k, false)
      case OtherType => Threw(WrongKeyType)
      case Corrupt => Threw(CorruptKey)
  }

  /** `existsSync(key)`: an error counts as absence. */
  predicate SeesKey(f: Files, ch: Choice) { f.key.Some? && !ch.Fails? }

  /** The key that is drawn; a choice that names none stands for the key of zeros. */
  function Drawn(ch: Choice): Key { if ch.Draws? then ch.key else ZEROS }

  /** One step of one call: what it does to the directory and where it goes next. */
  function StepProc(c: Codec, f: Files, pr: Proc, ch: Choice): (Files, Phase) {
    if ch.Dies? then (f, Crashed) else
    match pr.phase
    case Begin => (f, if SeesKey(f, ch) then Loading(false) else Locking(0))
    case Locking(w) =>
      if ch.Fails? then (f, Finished(Threw(IoFailure)))
      else if f.lock then (f, Busy(w))
      else (f.(lock := true), Recheck)
    case Busy(w) =>
      (f, if SeesKey(f, ch) then Loading(false)
          else if w >= MAX_WAIT_MS then Finished(Threw(LockTimeout))
          else Locking(w + STEP_MS))
    case Loading(locked) =>
      (f, End(locked, if ch.Fails? then Threw(IoFailure) else Load(c, f)))
    case Recheck => (f, if SeesKey(f, ch) then Loading(true) else Generating)
    case Generating =>
      (f, if ch.Fails? then Releasing(Threw(IoFailure)) else OpenTmp(Drawn(ch)))
    case OpenTmp(k) =>
      if ch.Fails? then (f, Releasing(Threw(IoFailure)))
      else (f.(tmp := f.tmp[pr.pid := []]), Writing(k, 0))
    case Writing(k, off) =>
      var data := c.enc(k);
      if ch.Fails? then (f, Releasing(Threw(IoFailure)))
      else if off < |data| then
        var left := |data| - off;
        var n := if ch.Writes? && 1 <= ch.n <= left then ch.n else left;
        var had := if pr.pid in f.tmp then f.tmp[pr.pid] else [];
        (f.(tmp := f.tmp[pr.pid := had + data[off..off + n]]), Writing(k, off + n))
      else (f, Renaming(k))
    case Renaming(k) =>
      if ch.Fails? || pr.pid !in f.tmp then (f, CleanTmp)
      else (f.(key := Some(f.tmp[pr.pid]), tmp := f.tmp - {pr.pid}), Releasing(Returned(k, true)))
    case CleanTmp =>
      (if ch.Fails? then f else f.(tmp := f.tmp - {pr.pid}), Releasing(Threw(IoFailure)))
    case Releasing(o) =>
      (if ch.Fails? then f else f.(lock := false), Finished(o))
    case Finished(_) => (f, pr.phase)
    case Crashed => (f, pr.phase)
  }

  /** One event of the whole system; an event that is not possible changes nothing. */
  function Next(c: Codec, s: State, ev: Event): State {
    match ev
    case Start(id, pid) =>
      if id in s.procs then s else s.(procs := s.procs[id := Proc(pid, Begin)])
    case Step(id, ch) =>
      if id !in s.procs || !Active(s.procs[id].phase) then s else
      var (f, ph) := StepProc(c, s.files, s.procs[id], ch);
      State(f, s.procs[id := s.procs[id].(phase := ph)])
  }

  function Exec(c: Codec, s0: State, evs: seq<Event>): State {
    if evs == [] then s0 else Next(c, Exec(c, s0, evs[..|evs| - 1]), evs[|evs| - 1])
  }

  /** No call is running. The key file, a stale lock and stale temp files may be there already. */
  predicate Init(s: State) { s.procs == map[] }

  // ---------------------------------------------------------------- what holds whatever fails

  predicate MutualExclusion(s: State) {
    forall p, q :: p in s.procs && q in s.procs && Holds(s.procs[p].phase) && Holds(s.procs[q].phase)
                   ==> p == q
  }

  /** What one call's phase says about the lock and the temp file, and that a key seen once stays there. */
  predicate Sane(c: Codec, f: Files, pr: Proc) {
    var ph := pr.phase;
    && (Holds(ph) ==> f.lock)
    && (ph.Loading? ==> f.key.Some?)
    && (ph.Writing? ==> pr.pid in f.tmp && ph.off <= |c.enc(ph.key)| && f.tmp[pr.pid] == c.enc(ph.key)[..ph.off])
    && (ph.Renaming? ==> pr.pid in f.tmp && f.tmp[pr.pid] == c.enc(ph.key))
    && (HasOutcome(ph) ==> ph.outcome != Threw(KeyVanished))
    && (ph.Releasing? ==> ph.outcome != Threw(LockTimeout))
  }

  predicate Orderly(c: Codec, s: State) {
    MutualExclusion(s) && forall p :: p in s.procs ==> Sane(c, s.files, s.procs[p])
  }

  lemma WriteStaysSane(c: Codec, f: Files, pr: Proc, ch: Choice)
    requires Sane(c, f, pr) && pr.phase.Writing?
    ensures var (f', ph) := StepProc(c, f, pr, ch); Sane(c, f', pr.(phase := ph))
  {
    var data, off := c.enc(pr.phase.key), pr.phase.off;
    if off < |data| {
      var left := |data| - off;
      var n := if ch.Writes? && 1 <= ch.n <= left then ch.n else left;
      assert data[..off] + data[off..off + n] == data[..off + n];
    } else {
      assert data[..off] == data;
    }
  }

  /** A step keeps its own call consistent with the directory. */
  lemma StepStaysSane(c: Codec, f: Files, pr: Proc, ch: Choice)
    requires Sane(c, f, pr)
    ensures var (f', ph) := StepProc(c, f, pr, ch); Sane(c, f', pr.(phase := ph))
  {
    if pr.phase.Writing? {
      WriteStaysSane(c, f, pr, ch);
    }
  }

  /** Only a lock holder changes the directory, so no step disturbs another call. */
  lemma StepLeavesOthersSane(c: Codec, f: Files, pr: Proc, other: Proc, ch: Choice)
    requires Sane(c, f, pr) && Sane(c, f, other)
    requires Holds(pr.phase) ==> !Holds(other.phase)
    ensures Sane(c, StepProc(c, f, pr, ch).0, other)
    ensures Holds(StepProc(c, f, pr, ch).1) ==> !Holds(other.phase)
  {
  }

  lemma StepKeepsOrder(c: Codec, s: State, id: nat, ch: Choice)
    requires Orderly(c, s) && id in s.procs && Active(s.procs[id].phase)
    ensures Orderly(c, Next(c, s, Step(id, ch)))
  {
    var s' := Next(c, s, Step(id, ch));
    StepStaysSane(c, s.files, s.procs[id], ch);
    forall q | q in s'.procs && q != id
      ensures Sane(c, s'.files, s'.procs[q]) && (Holds(s'.procs[id].phase) ==> !Holds(s'.procs[q].phase))
    {
      StepLeavesOthersSane(c, s.files, s.procs[id], s.procs[q], ch);
    }
  }

  lemma NextKeepsOrder(c: Codec, s: State, ev: Event)
    requires Orderly(c, s)
    ensures Orderly(c, Next(c, s, ev))
  {
    if ev.Step? && ev.id in s.procs && Active(s.procs[ev.id].phase) {
      StepKeepsOrder(c, s, ev.id, ev.choice);
    }
  }

  /** In every run, whatever fails: one lock holder, complete temp files before the rename, no vanishing key. */
  lemma {:induction false} EveryRunIsOrderly(c: Codec, s0: State, evs: seq<Event>)
    requires Init(s0)
    ensures Orderly(c, Exec(c, s0, evs))
  {
    if evs != [] {
      EveryRunIsOrderly(c, s0, evs[..|evs| - 1]);
      NextKeepsOrder(c, Exec(c, s0, evs[..|evs| - 1]), evs[|evs| - 1]);
    }
  }

  /** At most one call is between creating and removing the lock file. */
  lemma AtMostOneLockHolder(c: Codec, s0: State, evs: seq<Event>, p: nat, q: nat)
    requires Init(s0)
    requires var s := Exec(c, s0, evs);
             p in s.procs && q in s.procs && Holds(s.procs[p].phase) && Holds(s.procs[q].phase)
    ensures p == q
  {
    EveryRunIsOrderly(c, s0, evs);
  }

  /** The event puts a key file in place. */
  predicate Renames(s: State, ev: Event) {
    && ev.Step? && ev.id in s.procs && s.procs[ev.id].phase.Renaming?
    && !ev.choice.Fails? && !ev.choice.Dies? && s.procs[ev.id].pid in s.files.tmp
  }

  lemma OnlyRenameTouchesKey(c: Codec, s: State, ev: Event)
    requires Orderly(c, s)
    ensures Next(c, s, ev).files.key
            == if Renames(s, ev) then Some(c.enc(s.procs[ev.id].phase.key)) else s.files.key
  {
  }

  /** A key file that these calls created is complete at every moment of the run. */
  lemma {:induction false} KeyFileIsNeverHalfWritten(c: Codec, s0: State, evs: seq<Event>) returns (k: Key)
    requires Init(s0) && s0.files.key.None?
    requires Exec(c, s0, evs).files.key.Some?
    ensures Exec(c, s0, evs).files.key == Some(c.enc(k))
  {
    var front := evs[..|evs| - 1];
    var s, ev := Exec(c, s0, front), evs[|evs| - 1];
    EveryRunIsOrderly(c, s0, front);
    OnlyRenameTouchesKey(c, s, ev);
    if Renames(s, ev) {
      k := s.procs[ev.id].phase.key;
    } else {
      k := KeyFileIsNeverHalfWritten(c, s0, front);
    }
  }

  // ---------------------------------------------------------------- the invariant of runs with a sighted re-check

  /** The re-check under the lock answers "no" although the key file is there. */
  predicate Blind(s: State, ev: Event) {
    && ev.Step? && ev.choice.Fails? && ev.id in s.procs && s.procs[ev.id].phase.Recheck? && s.files.key.Some?
  }

  predicate SeesAt(c: Codec, s0: State, evs: seq<Event>, i: nat)
    requires i < |evs|
  {
    !Blind(Exec(c, s0, evs[..i]), evs[i])
  }

  /** From event `from` on, no re-check is blind. */
  ghost predicate SightedFrom(c: Codec, s0: State, evs: seq<Event>, from: nat) {
    forall i: nat :: from <= i < |evs| ==> SeesAt(c, s0, evs, i)
  }

  ghost predicate Sighted(c: Codec, s0: State, evs: seq<Event>) { SightedFrom(c, s0, evs, 0) }

  /** What one call's phase says about the key file. */
  predicate Agrees(c: Codec, f: Files, ph: Phase) {
    && (Creating(ph) ==> f.key.None?)
    && (HasOutcome(ph) && ph.outcome.Returned? ==>
          f.key.Some? && c.dec(f.key.value) == Ed25519(ph.outcome.key))
    && (GeneratedKey(ph) ==> f.key == Some(c.enc(ph.outcome.key)))
  }

  predicate OneGenerator(s: State) {
    forall p, q :: p in s.procs && q in s.procs && GeneratedKey(s.procs[p].phase) && GeneratedKey(s.procs[q].phase)
                   ==> p == q
  }

  predicate Inv(c: Codec, s: State) {
    Orderly(c, s) && OneGenerator(s) && forall p :: p in s.procs ==> Agrees(c, s.files, s.procs[p].phase)
  }

  lemma StepAgrees(c: Codec, f: Files, pr: Proc, ch: Choice)
    requires Sound(c) && Sane(c, f, pr) && Agrees(c, f, pr.phase)
    requires ch.Fails? && pr.phase.Recheck? ==> f.key.None?
    ensures var (f', ph) := StepProc(c, f, pr, ch);
            Agrees(c, f', ph) && (GeneratedKey(ph) ==> GeneratedKey(pr.phase) || f.key.None?)
  {
  }

  lemma StepLeavesAgreement(c: Codec, f: Files, pr: Proc, other: Phase, ch: Choice)
    requires Sane(c, f, pr) && Agrees(c, f, pr.phase) && Agrees(c, f, other)
    requires Holds(pr.phase) ==> !Holds(other)
    ensures Agrees(c, StepProc(c, f, pr, ch).0, other)
  {
  }

  lemma StepKeepsInv(c: Codec, s: State, id: nat, ch: Choice)
    requires Sound(c) && Inv(c, s) && id in s.procs && Active(s.procs[id].phase) && !Blind(s, Step(id, ch))
    ensures Inv(c, Next(c, s, Step(id, ch)))
  {
    var s' := Next(c, s, Step(id, ch));
    StepKeepsOrder(c, s, id, ch);
    StepAgrees(c, s.files, s.procs[id], ch);
    forall q | q in s'.procs && q != id
      ensures Agrees(c, s'.files, s'.procs[q].phase)
      ensures GeneratedKey(s'.procs[id].phase) ==> !GeneratedKey(s'.procs[q].phase)
    {
      assert Agrees(c, s.files, s.procs[q].phase);
      StepLeavesAgreement(c, s.files, s.procs[id], s.procs[q].phase, ch);
    }
  }

  lemma NextKeepsInv(c: Codec, s: State, ev: Event)
    requires Sound(c) && Inv(c, s) && !Blind(s, ev)
    ensures Inv(c, Next(c, s, ev))
  {
    if ev.Step? && ev.id in s.procs && Active(s.procs[ev.id].phase) {
      StepKeepsInv(c, s, ev.id, ev.choice);
    } else {
      NextKeepsOrder(c, s, ev);
    }
  }

  /** Whether the event at `i` is blind depends on the run up to it. */
  lemma SeesAtLooksBack(c: Codec, s0: State, a: seq<Event>, b: seq<Event>, i: nat)
    requires i < |a| && i < |b| && a[..i] == b[..i] && a[i] == b[i]
    ensures SeesAt(c, s0, a, i) <==> SeesAt(c, s0, b, i)
  {
  }

  lemma SightedPrefix(c: Codec, s0: State, evs: seq<Event>, from: nat, n: nat)
    requires SightedFrom(c, s0, evs, from) && n <= |evs|
    ensures SightedFrom(c, s0, evs[..n], from)
  {
    forall i: nat | from <= i < n
      ensures SeesAt(c, s0, evs[..n], i)
    {
      SeesAtLooksBack(c, s0, evs[..n], evs, i);
    }
  }

  lemma {:induction false} ExecKeepsInv(c: Codec, s0: State, evs: seq<Event>)
    requires Sound(c) && Init(s0) && Sighted(c, s0, evs)
    ensures Inv(c, Exec(c, s0, evs))
  {
    if evs != [] {
      var n := |evs| - 1;
      SightedPrefix(c, s0, evs, 0, n);
      ExecKeepsInv(c, s0, evs[..n]);
      assert SeesAt(c, s0, evs, n);
      NextKeepsInv(c, Exec(c, s0, evs[..n]), evs[n]);
    }
  }

  // ---------------------------------------------------------------- what such runs guarantee

  lemma NextKeepsKeyFile(c: Codec, s: State, ev: Event)
    requires Inv(c, s) && s.files.key.Some?
    ensures Next(c, s, ev).files.key == s.files.key
  {
    OnlyRenameTouchesKey(c, s, ev);
  }

  lemma {:induction false} InvMeansKeyStays(c: Codec, s0: State, evs: seq<Event>, i: nat)
    requires i <= |evs| && Exec(c, s0, evs[..i]).files.key.Some?
    requires forall n :: i <= n < |evs| ==> Inv(c, Exec(c, s0, evs[..n]))
    ensures Exec(c, s0, evs).files.key == Exec(c, s0, evs[..i]).files.key
  {
    if i == |evs| {
      assert evs[..i] == evs;
    } else {
      var front := evs[..|evs| - 1];
      assert forall n :: i <= n <= |front| ==> front[..n] == evs[..n];
      InvMeansKeyStays(c, s0, front, i);
      NextKeepsKeyFile(c, Exec(c, s0, front), evs[|evs| - 1]);
    }
  }

  /** Once there is a key file it is never removed or overwritten. */
  lemma KeyFileIsWrittenOnce(c: Codec, s0: State, evs: seq<Event>, i: nat)
    requires Sound(c) && Init(s0) && Sighted(c, s0, evs) && i <= |evs|
    requires Exec(c, s0, evs[..i]).files.key.Some?
    ensures Exec(c, s0, evs).files.key == Exec(c, s0, evs[..i]).files.key
  {
    forall n | i <= n < |evs|
      ensures Inv(c, Exec(c, s0, evs[..n]))
    {
      SightedPrefix(c, s0, evs, 0, n);
      ExecKeepsInv(c, s0, evs[..n]);
    }
    InvMeansKeyStays(c, s0, evs, i);
  }

  predicate HasReturned(s: State, p: nat) {
    p in s.procs && s.procs[p].phase.Finished? && s.procs[p].phase.outcome.Returned?
  }

  function ReturnedKey(s: State, p: nat): Key
    requires HasReturned(s, p)
  {
    s.procs[p].phase.outcome.key
  }

  /** Any two calls that return, at any two moments of such a run, return the same key. */
  lemma AgreementInEveryRun(c: Codec, s0: State, evs: seq<Event>, i: nat, j: nat, p: nat, q: nat)
    requires Sound(c) && Init(s0) && Sighted(c, s0, evs) && i <= |evs| && j <= |evs|
    requires HasReturned(Exec(c, s0, evs[..i]), p) && HasReturned(Exec(c, s0, evs[..j]), q)
    ensures ReturnedKey(Exec(c, s0, evs[..i]), p) == ReturnedKey(Exec(c, s0, evs[..j]), q)
  {
    SightedPrefix(c, s0, evs, 0, i);
    SightedPrefix(c, s0, evs, 0, j);
    ExecKeepsInv(c, s0, evs[..i]);
    ExecKeepsInv(c, s0, evs[..j]);
    KeyFileIsWrittenOnce(c, s0, evs, i);
    KeyFileIsWrittenOnce(c, s0, evs, j);
  }

  /** A call that has ended stays as it is. */
  lemma {:induction false} FinishedStays(c: Codec, s0: State, evs: seq<Event>, i: nat, p: nat)
    requires i <= |evs|
    requires p in Exec(c, s0, evs[..i]).procs && !Active(Exec(c, s0, evs[..i]).procs[p].phase)
    ensures p in Exec(c, s0, evs).procs && Exec(c, s0, evs).procs[p] == Exec(c, s0, evs[..i]).procs[p]
  {
    if i == |evs| {
      assert evs[..i] == evs;
    } else {
      assert evs[..|evs| - 1][..i] == evs[..i];
      FinishedStays(c, s0, evs[..|evs| - 1], i, p);
    }
  }

  /** At most one call in such a run reports `generated: true`, and none does if there was a key before. */
  lemma AtMostOneGeneratedKey(c: Codec, s0: State, evs: seq<Event>, i: nat, j: nat, p: nat, q: nat)
    requires Sound(c) && Init(s0) && Sighted(c, s0, evs) && i <= |evs| && j <= |evs|
    requires var s := Exec(c, s0, evs[..i]);
             HasReturned(s, p) && s.procs[p].phase.outcome.generated
    requires var s := Exec(c, s0, evs[..j]);
             HasReturned(s, q) && s.procs[q].phase.outcome.generated
    ensures p == q && s0.files.key.None?
  {
    FinishedStays(c, s0, evs, i, p);
    FinishedStays(c, s0, evs, j, q);
    ExecKeepsInv(c, s0, evs);
    if s0.files.key.Some? {
      NoGeneratorIfKeyExists(c, s0, evs);
    }
  }

  predicate NobodyGenerated(s: State) { forall p :: p in s.procs ==> !GeneratedKey(s.procs[p].phase) }

  lemma NextGeneratesNothing(c: Codec, s: State, ev: Event)
    requires Sound(c) && Inv(c, s) && !Blind(s, ev) && s.files.key.Some? && NobodyGenerated(s)
    ensures NobodyGenerated(Next(c, s, ev))
  {
    if ev.Step? && ev.id in s.procs {
      StepAgrees(c, s.files, s.procs[ev.id], ev.choice);
    }
  }

  lemma {:induction false} NoGeneratorIfKeyExists(c: Codec, s0: State, evs: seq<Event>)
    requires Sound(c) && Init(s0) && Sighted(c, s0, evs) && s0.files.key.Some?
    ensures Exec(c, s0, evs).files.key.Some? && NobodyGenerated(Exec(c, s0, evs))
  {
    if evs != [] {
      var n := |evs| - 1;
      SightedPrefix(c, s0, evs, 0, n);
      NoGeneratorIfKeyExists(c, s0, evs[..n]);
      ExecKeepsInv(c, s0, evs[..n]);
      NextKeepsKeyFile(c, Exec(c, s0, evs[..n]), evs[n]);
      assert SeesAt(c, s0, evs, n);
      NextGeneratesNothing(c, Exec(c, s0, evs[..n]), evs[n]);
    }
  }

  /**
   If there was no key file at first, no call ever fails because the key file is missing when read,
   unreadable, or of another type: the only ways to fail are a failing file-system call and a lock
   that stays taken.
   */
  lemma NoCallSeesABrokenKey(c: Codec, s0: State, evs: seq<Event>, p: nat)
    requires Sound(c) && Init(s0) && s0.files.key.None?
    requires p in Exec(c, s0, evs).procs && HasOutcome(Exec(c, s0, evs).procs[p].phase)
    requires Exec(c, s0, evs).procs[p].phase.outcome.Threw?
    ensures Exec(c, s0, evs).procs[p].phase.outcome.error in {LockTimeout, IoFailure}
    decreases |evs|
  {
    if evs != [] {
      var front := evs[..|evs| - 1];
      var s := Exec(c, s0, front);
      if p in s.procs && HasOutcome(s.procs[p].phase) {
        NoCallSeesABrokenKey(c, s0, front, p);
      } else {
        EveryRunIsOrderly(c, s0, front);
        if s.procs[p].phase.Loading? {
          var k := KeyFileIsNeverHalfWritten(c, s0, front);
        }
      }
    }
  }

  // ---------------------------------------------------------------- why the re-check must see the key

  lemma {:induction false} ExecAppend(c: Codec, s0: State, a: seq<Event>, b: seq<Event>)
    ensures Exec(c, s0, a + b) == Exec(c, Exec(c, s0, a), b)
  {
    if b == [] {
      assert a + b == a;
    } else {
      ExecAppend(c, s0, a, b[..|b| - 1]);
      assert (a + b)[..|a + b| - 1] == a + b[..|b| - 1];
    }
  }

  lemma ExecFirst(c: Codec, s: State, ev: Event, rest: seq<Event>)
    ensures Exec(c, s, [ev] + rest) == Exec(c, Next(c, s, ev), rest)
  {
    ExecAppend(c, s, [ev], rest);
    assert [ev][..0] == [];
    assert Exec(c, s, [ev]) == Next(c, s, ev);
  }

  /** Call `p` has drawn the key `k` and is on its way to put it in place. */
  predicate Delivers(c: Codec, s: State, p: nat, k: Key) {
    && p in s.procs && Sane(c, s.files, s.procs[p])
    && match s.procs[p].phase
       case OpenTmp(k') => k' == k
       case Writing(k', _) => k' == k
       case Renaming(k') => k' == k
       case Releasing(o) => o == Returned(k, true) && s.files.key == Some(c.enc(k))
       case _ => false
  }

  /** The events contain no failure. */
  predicate Smooth(evs: seq<Event>) { forall i :: 0 <= i < |evs| ==> evs[i].Step? && !evs[i].choice.Fails? }

  /** The state in which call `p` has returned its own key and nothing else has moved but the files. */
  predicate Delivered(c: Codec, s: State, t: State, p: nat, k: Key) {
    && p in s.procs && t.procs == s.procs[p := Proc(s.procs[p].pid, Finished(Returned(k, true)))]
    && t.files.key == Some(c.enc(k)) && !t.files.lock
  }

  lemma DeliveryStep(c: Codec, s: State, p: nat, k: Key)
    requires Delivers(c, s, p, k) && !s.procs[p].phase.Releasing?
    ensures var t := Next(c, s, Step(p, Goes));
            Delivers(c, t, p, k) && t.procs == s.procs[p := t.procs[p]] && t.procs[p].pid == s.procs[p].pid
  {
    StepStaysSane(c, s.files, s.procs[p], Goes);
  }

  /** Left alone, such a call puts its key in place and returns it. */
  lemma {:induction false} Deliver(c: Codec, s: State, p: nat, k: Key) returns (ext: seq<Event>)
    requires Sound(c) && Delivers(c, s, p, k)
    ensures Smooth(ext) && Delivered(c, s, Exec(c, s, ext), p, k)
    decreases Rank(c, s.procs[p].phase)
  {
    var t := Next(c, s, Step(p, Goes));
    if s.procs[p].phase.Releasing? {
      ext := [Step(p, Goes)];
      ExecFirst(c, s, Step(p, Goes), []);
      assert ext == [Step(p, Goes)] + [];
    } else {
      DeliveryStep(c, s, p, k);
      StepLowersRank(c, s.files, s.procs[p], Goes);
      var rest := Deliver(c, t, p, k);
      ext := [Step(p, Goes)] + rest;
      ExecFirst(c, s, Step(p, Goes), rest);
    }
  }

  /** A call that is about to draw a key may draw any, and then puts it in place whatever is there already. */
  lemma DrawAndDeliver(c: Codec, s: State, p: nat, k: Key) returns (ext: seq<Event>)
    requires Sound(c) && p in s.procs && s.procs[p].phase.Generating? && Sane(c, s.files, s.procs[p])
    ensures Smooth(ext) && Delivered(c, s, Exec(c, s, ext), p, k)
  {
    var t := Next(c, s, Step(p, Draws(k)));
    StepStaysSane(c, s.files, s.procs[p], Draws(k));
    var rest := Deliver(c, t, p, k);
    ext := [Step(p, Draws(k))] + rest;
    ExecFirst(c, s, Step(p, Draws(k)), rest);
  }

  const ZEROS: Key :=
    [0, 0, 0, 0, 0, 0, 0, 0, 0, 0, 0, 0, 0, 0, 0, 0, 0, 0, 0, 0, 0, 0, 0, 0, 0, 0, 0, 0, 0, 0, 0, 0]
  const ONES: Key :=
    [1, 1, 1, 1, 1, 1, 1, 1, 1, 1, 1, 1, 1, 1, 1, 1, 1, 1, 1, 1, 1, 1, 1, 1, 1, 1, 1, 1, 1, 1, 1, 1]

  lemma AnotherKey(c: Codec, k: Key) returns (k': Key)
    requires Sound(c)
    ensures k' != k && c.enc(k') != c.enc(k)
  {
    assert ZEROS[0] != ONES[0];
    k' := if k == ZEROS then ONES else ZEROS;
    assert c.dec(c.enc(k')) == Ed25519(k') && c.dec(c.enc(k)) == Ed25519(k);
  }

  lemma AnotherContent(c: Codec, b: Bytes) returns (k: Key)
    requires Sound(c)
    ensures c.enc(k) != b
  {
    var k' := AnotherKey(c, ZEROS);
    k := if c.enc(ZEROS) == b then k' else ZEROS;
  }

  /** A blind re-check, once it has happened, can always go on to overwrite the key file with any key. */
  lemma BlindThenDeliver(c: Codec, s: State, p: nat, k: Key) returns (ext: seq<Event>)
    requires Sound(c) && Orderly(c, s) && Blind(s, Step(p, Fails))
    ensures Smooth(ext) && Delivered(c, s, Exec(c, s, [Step(p, Fails)] + ext), p, k)
  {
    var t := Next(c, s, Step(p, Fails));
    StepStaysSane(c, s.files, s.procs[p], Fails);
    ext := DrawAndDeliver(c, t, p, k);
    ExecFirst(c, s, Step(p, Fails), ext);
  }

  lemma SmoothIsSighted(c: Codec, s0: State, evs: seq<Event>, ext: seq<Event>)
    requires Smooth(ext)
    ensures SightedFrom(c, s0, evs + ext, |evs|)
  {
  }

  lemma SightedJoin(c: Codec, s0: State, evs: seq<Event>, all: seq<Event>)
    requires Sighted(c, s0, evs) && |evs| < |all| && all[..|evs|] == evs && SightedFrom(c, s0, all, |evs| + 1)
    requires !Blind(Exec(c, s0, evs), all[|evs|])
    ensures Sighted(c, s0, all)
  {
    forall i: nat | i < |evs|
      ensures SeesAt(c, s0, all, i)
    {
      assert all[i] == evs[i] && all[..i] == evs[..i];
      SeesAtLooksBack(c, s0, all, evs, i);
    }
    assert SeesAt(c, s0, all, |evs|);
  }

  /** After `evs`, the event `ev` and whatever sighted events follow, a key file that was there is unchanged. */
  ghost predicate KeyIsSafe(c: Codec, s0: State, evs: seq<Event>, ev: Event) {
    forall ext :: SightedFrom(c, s0, evs + [ev] + ext, |evs| + 1) && Exec(c, s0, evs).files.key.Some?
                  ==> Exec(c, s0, evs + [ev] + ext).files.key == Exec(c, s0, evs).files.key
  }

  lemma SightedEventKeepsKey(c: Codec, s0: State, evs: seq<Event>, all: seq<Event>)
    requires Sound(c) && Init(s0) && Sighted(c, s0, evs) && Exec(c, s0, evs).files.key.Some?
    requires |evs| < |all| && all[..|evs|] == evs && SightedFrom(c, s0, all, |evs| + 1)
    requires !Blind(Exec(c, s0, evs), all[|evs|])
    ensures Exec(c, s0, all).files.key == Exec(c, s0, evs).files.key
  {
    SightedJoin(c, s0, evs, all);
    KeyFileIsWrittenOnce(c, s0, all, |evs|);
  }

  lemma BlindEventEndangersKey(c: Codec, s0: State, evs: seq<Event>, ev: Event) returns (ext: seq<Event>)
    requires Sound(c) && Init(s0) && Blind(Exec(c, s0, evs), ev)
    ensures SightedFrom(c, s0, evs + [ev] + ext, |evs| + 1)
    ensures Exec(c, s0, evs + [ev] + ext).files.key != Exec(c, s0, evs).files.key
  {
    var s := Exec(c, s0, evs);
    EveryRunIsOrderly(c, s0, evs);
    var k := AnotherContent(c, s.files.key.value);
    ext := BlindThenDeliver(c, s, ev.id, k);
    assert evs + [ev] + ext == evs + ([ev] + ext);
    ExecAppend(c, s0, evs, [ev] + ext);
    SmoothIsSighted(c, s0, evs + [ev], ext);
  }

  /**
   The key file is safe exactly as long as the re-check under the lock sees it: after any run without a blind
   re-check, the next event endangers the key file if and only if it is a blind re-check.
   */
  lemma KeyIsSafeIff(c: Codec, s0: State, evs: seq<Event>, ev: Event)
    requires Sound(c) && Init(s0) && Sighted(c, s0, evs)
    ensures KeyIsSafe(c, s0, evs, ev) <==> !Blind(Exec(c, s0, evs), ev)
  {
    if Blind(Exec(c, s0, evs), ev) {
      var ext := BlindEventEndangersKey(c, s0, evs, ev);
    } else {
      forall ext | SightedFrom(c, s0, evs + [ev] + ext, |evs| + 1) && Exec(c, s0, evs).files.key.Some?
        ensures Exec(c, s0, evs + [ev] + ext).files.key == Exec(c, s0, evs).files.key
      {
        assert (evs + [ev] + ext)[..|evs|] == evs;
        SightedEventKeepsKey(c, s0, evs, evs + [ev] + ext);
      }
    }
  }

  /** If a call has returned and another one's re-check is blind, the two can end up with different keys. */
  lemma BlindRecheckBreaksAgreement(c: Codec, s0: State, evs: seq<Event>, p: nat, q: nat) returns (ext: seq<Event>)
    requires Sound(c) && Init(s0)
    requires HasReturned(Exec(c, s0, evs), q) && Blind(Exec(c, s0, evs), Step(p, Fails))
    ensures var t := Exec(c, s0, evs + ext);
            && HasReturned(t, p) && HasReturned(t, q) && ReturnedKey(t, p) != ReturnedKey(t, q)
            && t.procs[p].phase.outcome.generated && t.procs[q] == Exec(c, s0, evs).procs[q]
  {
    var s := Exec(c, s0, evs);
    EveryRunIsOrderly(c, s0, evs);
    var k := AnotherKey(c, ReturnedKey(s, q));
    var rest := BlindThenDeliver(c, s, p, k);
    ext := [Step(p, Fails)] + rest;
    ExecAppend(c, s0, evs, ext);
  }

  const EMPTY := State(Files(None, false, map[]), map[])

  /** Two calls in a directory without key and temp files. */
  function Two(a: Phase, b: Phase, lock: bool): State {
    State(Files(None, lock, map[]), map[0 := Proc(1, a), 1 := Proc(2, b)])
  }

  lemma FirstMoves(c: Codec, a: Phase, b: Phase, lock: bool, a': Phase, lock': bool)
    requires Active(a) && StepProc(c, Files(None, lock, map[]), Proc(1, a), Goes) == (Files(None, lock', map[]), a')
    ensures Next(c, Two(a, b, lock), Step(0, Goes)) == Two(a', b, lock')
  {
  }

  lemma SecondMoves(c: Codec, a: Phase, b: Phase, lock: bool, b': Phase, lock': bool)
    requires Active(b) && StepProc(c, Files(None, lock, map[]), Proc(2, b), Goes) == (Files(None, lock', map[]), b')
    ensures Next(c, Two(a, b, lock), Step(1, Goes)) == Two(a, b', lock')
  {
  }

  lemma BothStart(c: Codec)
    ensures Next(c, Next(c, EMPTY, Start(0, 1)), Start(1, 2)) == Two(Begin, Begin, false)
  {
  }

  /** Both calls find no key; the first one takes the lock and is about to draw a key, the second one waits. */
  lemma Race(c: Codec) returns (evs: seq<Event>)
    ensures Exec(c, EMPTY, evs) == Two(Generating, Locking(0), true)
  {
    var moves := [Step(0, Goes), Step(0, Goes), Step(0, Goes)];
    var rest := [Step(1, Goes)] + moves;
    evs := [Start(0, 1)] + ([Start(1, 2)] + rest);
    ExecFirst(c, EMPTY, Start(0, 1), [Start(1, 2)] + rest);
    ExecFirst(c, Next(c, EMPTY, Start(0, 1)), Start(1, 2), rest);
    BothStart(c);
    ExecFirst(c, Two(Begin, Begin, false), Step(1, Goes), moves);
    SecondMoves(c, Begin, Begin, false, Locking(0), false);
    FirstIsAhead(c);
  }

  lemma FirstIsAhead(c: Codec)
    ensures Exec(c, Two(Begin, Locking(0), false), [Step(0, Goes), Step(0, Goes), Step(0, Goes)])
            == Two(Generating, Locking(0), true)
  {
    var one, two := [Step(0, Goes)], [Step(0, Goes), Step(0, Goes)];
    assert [Step(0, Goes), Step(0, Goes), Step(0, Goes)] == one + two && two == one + one && one == one + [];
    ExecFirst(c, Two(Begin, Locking(0), false), Step(0, Goes), two);
    FirstMoves(c, Begin, Locking(0), false, Locking(0), false);
    ExecFirst(c, Two(Locking(0), Locking(0), false), Step(0, Goes), one);
    FirstMoves(c, Locking(0), Locking(0), false, Recheck, true);
    ExecFirst(c, Two(Recheck, Locking(0), true), Step(0, Goes), []);
    FirstMoves(c, Recheck, Locking(0), true, Generating, true);
  }

  /** Such a run exists: two calls on an empty directory that both generate a key and return different ones. */
  lemma TwoKeysWithABlindRecheck(c: Codec) returns (evs: seq<Event>)
    requires Sound(c)
    ensures var t := Exec(c, EMPTY, evs);
            && HasReturned(t, 0) && HasReturned(t, 1) && ReturnedKey(t, 0) != ReturnedKey(t, 1)
            && t.procs[0].phase.outcome.generated && t.procs[1].phase.outcome.generated
  {
    var race := Race(c);
    var first := DrawAndDeliver(c, Exec(c, EMPTY, race), 0, ZEROS);
    ExecAppend(c, EMPTY, race, first);
    var done := race + first;
    var locked := done + [Step(1, Goes)];
    assert locked[..|locked| - 1] == done;
    var ext := BlindRecheckBreaksAgreement(c, EMPTY, locked, 1, 0);
    evs := locked + ext;
  }

  // ---------------------------------------------------------------- what is left behind

  /** A choice that leaves something behind: a crash, a failed removal, a failed write of the temp file. */
  predicate Litters(ph: Phase, ch: Choice) {
    ch.Dies? || (ch.Fails? && (ph.Releasing? || ph.CleanTmp? || ph.Writing?))
  }

  ghost predicate Tidy(c: Codec, s0: State, evs: seq<Event>) {
    forall i :: 0 <= i < |evs| && evs[i].Step? && evs[i].id in Exec(c, s0, evs[..i]).procs ==>
      !Litters(Exec(c, s0, evs[..i]).procs[evs[i].id].phase, evs[i].choice)
  }

  predicate UsesTmp(ph: Phase) { ph.Writing? || ph.Renaming? || ph.CleanTmp? }

  ghost predicate TmpOwned(procs: map<nat, Proc>, pid: nat) {
    exists p :: p in procs && procs[p].pid == pid && UsesTmp(procs[p].phase)
  }

  /** The lock file has a holder, and every temp file a call that is still busy with it. */
  ghost predicate AllOwned(s: State) {
    && (s.files.lock ==> exists p :: p in s.procs && Holds(s.procs[p].phase))
    && forall pid :: pid in s.files.tmp ==> TmpOwned(s.procs, pid)
  }

  /** A tidy step lets go only of what it removes. */
  lemma TidyStep(c: Codec, f: Files, pr: Proc, ch: Choice)
    requires Active(pr.phase) && !Litters(pr.phase, ch) && Sane(c, f, pr)
    ensures var (f', ph) := StepProc(c, f, pr, ch);
            && (f'.lock ==> Holds(ph) || (f.lock && !Holds(pr.phase)))
            && (forall pid :: pid in f'.tmp ==> (pid == pr.pid && UsesTmp(ph))
                                                || (pid in f.tmp && (pid != pr.pid || !UsesTmp(pr.phase))))
  {
  }

  /** Another call's claim to a temp file survives a step. */
  lemma TmpStaysOwned(procs: map<nat, Proc>, id: nat, pr: Proc, pid: nat)
    requires id in procs && pr.pid == procs[id].pid
    requires || (pid == pr.pid && UsesTmp(pr.phase))
             || (TmpOwned(procs, pid) && (pid != pr.pid || !UsesTmp(procs[id].phase)))
    ensures TmpOwned(procs[id := pr], pid)
  {
    var procs' := procs[id := pr];
    if pid == pr.pid && UsesTmp(pr.phase) {
      assert procs'[id] == pr;
    } else {
      var p :| p in procs && procs[p].pid == pid && UsesTmp(procs[p].phase);
      assert p != id && procs'[p] == procs[p];
    }
  }

  lemma StepKeepsOwned(c: Codec, s: State, id: nat, ch: Choice)
    requires Orderly(c, s) && AllOwned(s) && id in s.procs && Active(s.procs[id].phase)
        && !Litters(s.procs[id].phase, ch)
    ensures AllOwned(Next(c, s, Step(id, ch)))
  {
    var s' := Next(c, s, Step(id, ch));
    TidyStep(c, s.files, s.procs[id], ch);
    if s'.files.lock && !Holds(s'.procs[id].phase) {
      var p :| p in s.procs && Holds(s.procs[p].phase);
      assert p in s'.procs && Holds(s'.procs[p].phase);
    }
    forall pid | pid in s'.files.tmp
      ensures TmpOwned(s'.procs, pid)
    {
      TmpStaysOwned(s.procs, id, s'.procs[id], pid);
    }
  }

  lemma NextKeepsOwned(c: Codec, s: State, ev: Event)
    requires Orderly(c, s) && AllOwned(s)
    requires ev.Step? && ev.id in s.procs ==> !Litters(s.procs[ev.id].phase, ev.choice)
    ensures AllOwned(Next(c, s, ev))
  {
    if ev.Step? && ev.id in s.procs && Active(s.procs[ev.id].phase) {
      StepKeepsOwned(c, s, ev.id, ev.choice);
    } else if ev.Start? && ev.id !in s.procs {
      StartKeepsOwned(s, ev.id, Proc(ev.pid, Begin));
    }
  }

  lemma StartKeepsOwned(s: State, id: nat, pr: Proc)
    requires AllOwned(s) && id !in s.procs
    ensures AllOwned(s.(procs := s.procs[id := pr]))
  {
    var procs' := s.procs[id := pr];
    assert forall p :: p in s.procs ==> p in procs' && procs'[p] == s.procs[p];
  }

  /**
   Without crashes, failed removals and failed writes, the lock file exists exactly while a call holds it,
   and a temp file only while a call with that process id is working on it: nothing is left behind.
   */
  lemma {:induction false} NothingIsLeftBehind(c: Codec, s0: State, evs: seq<Event>)
    requires Init(s0) && !s0.files.lock && s0.files.tmp == map[] && Tidy(c, s0, evs)
    ensures AllOwned(Exec(c, s0, evs))
    ensures var s := Exec(c, s0, evs); s.files.lock <==> exists p :: p in s.procs && Holds(s.procs[p].phase)
  {
    EveryRunIsOrderly(c, s0, evs);
    if evs != [] {
      var n := |evs| - 1;
      var front := evs[..n];
      forall i | 0 <= i < n
        ensures front[i] == evs[i] && front[..i] == evs[..i]
      {
      }
      NothingIsLeftBehind(c, s0, front);
      EveryRunIsOrderly(c, s0, front);
      NextKeepsOwned(c, Exec(c, s0, front), evs[n]);
    }
  }

  lemma StepGivesUp(c: Codec, f: Files, pr: Proc, ch: Choice)
    requires Active(pr.phase) && Sane(c, f, pr) && StepProc(c, f, pr, ch).1 == Finished(Threw(LockTimeout))
    ensures pr.phase.Busy? && pr.phase.waited >= MAX_WAIT_MS && !SeesKey(f, ch)
  {
  }

  /** A call gives up only after the whole wait, and only if it sees no key file at that moment. */
  lemma GivesUpOnlyWithoutKey(c: Codec, s0: State, evs: seq<Event>, p: nat)
    requires Init(s0) && evs != []
    requires var s := Exec(c, s0, evs[..|evs| - 1]); p in s.procs && Active(s.procs[p].phase)
    requires Exec(c, s0, evs).procs[p].phase == Finished(Threw(LockTimeout))
    ensures var s, ev := Exec(c, s0, evs[..|evs| - 1]), evs[|evs| - 1];
            && s.procs[p].phase.Busy? && s.procs[p].phase.waited >= MAX_WAIT_MS
            && ev.Step? && ev.id == p && !SeesKey(s.files, ev.choice)
  {
    var s, ev := Exec(c, s0, evs[..|evs| - 1]), evs[|evs| - 1];
    EveryRunIsOrderly(c, s0, evs[..|evs| - 1]);
    NextGivesUp(c, s, ev, p);
  }

  lemma NextGivesUp(c: Codec, s: State, ev: Event, p: nat)
    requires Orderly(c, s) && p in s.procs && Active(s.procs[p].phase)
    requires Next(c, s, ev).procs[p].phase == Finished(Threw(LockTimeout))
    ensures && s.procs[p].phase.Busy? && s.procs[p].phase.waited >= MAX_WAIT_MS
            && ev.Step? && ev.id == p && !SeesKey(s.files, ev.choice)
  {
    if ev.Step? && ev.id == p {
      StepGivesUp(c, s.files, s.procs[p], ev.choice);
    }
  }

  // ---------------------------------------------------------------- termination

  /** How many more lock attempts the wait budget allows. */
  function Slots(waited: nat): nat {
    if waited >= MAX_WAIT_MS then 0 else (MAX_WAIT_MS - waited + STEP_MS - 1) / STEP_MS
  }

  /** A bound on the steps a call still takes, whatever the other calls do. */
  function Rank(c: Codec, ph: Phase): nat {
    match ph
    case Begin => c.maxLen + 2 * Slots(0) + 11
    case Locking(w) => c.maxLen + 2 * Slots(w) + 10
    case Busy(w) => c.maxLen + 2 * Slots(w) + 9
    case Recheck => c.maxLen + 8
    case Generating => c.maxLen + 7
    case OpenTmp(k) => |c.enc(k)| + 5
    case Writing(k, off) => (if off <= |c.enc(k)| then |c.enc(k)| - off else 0) + 4
    case Renaming(_) => 3
    case CleanTmp => 2
    case Loading(_) => 2
    case Releasing(_) => 1
    case Finished(_) => 0
    case Crashed => 0
  }

  lemma WaitLowersRank(c: Codec, f: Files, pr: Proc, ch: Choice)
    requires pr.phase.Busy?
    ensures Rank(c, StepProc(c, f, pr, ch).1) < Rank(c, pr.phase)
  {
    var w := pr.phase.waited;
    if w < MAX_WAIT_MS {
      assert Slots(w + STEP_MS) == Slots(w) - 1;
    }
  }

  lemma StepLowersRank(c: Codec, f: Files, pr: Proc, ch: Choice)
    requires Sound(c) && Active(pr.phase)
    ensures Rank(c, StepProc(c, f, pr, ch).1) < Rank(c, pr.phase)
  {
    if pr.phase.Busy? {
      WaitLowersRank(c, f, pr, ch);
    }
  }

  /** The steps that call `p` itself took in a run. */
  function OwnSteps(c: Codec, s0: State, evs: seq<Event>, p: nat): nat {
    if evs == [] then 0 else
    var front := evs[..|evs| - 1];
    var s := Exec(c, s0, front);
    OwnSteps(c, s0, front, p)
    + if evs[|evs| - 1].Step? && evs[|evs| - 1].id == p && p in s.procs && Active(s.procs[p].phase) then 1 else 0
  }

  /** Every call ends after at most `maxLen + 611` steps of its own: no run lets it spin or wait forever. */
  lemma {:induction false} EveryCallEnds(c: Codec, s0: State, evs: seq<Event>, p: nat)
    requires Sound(c) && Init(s0)
    ensures p !in Exec(c, s0, evs).procs ==> OwnSteps(c, s0, evs, p) == 0
    ensures p in Exec(c, s0, evs).procs ==>
              OwnSteps(c, s0, evs, p) + Rank(c, Exec(c, s0, evs).procs[p].phase) <= c.maxLen + 611
  {
    if evs != [] {
      var front := evs[..|evs| - 1];
      var ev := evs[|evs| - 1];
      var s := Exec(c, s0, front);
      EveryCallEnds(c, s0, front, p);
      if ev.Step? && ev.id == p && p in s.procs && Active(s.procs[p].phase) {
        StepLowersRank(c, s.files, s.procs[p], ev.choice);
      }
    }
  }

  // ---------------------------------------------------------------- the two loops

  /** What an attempt to create the lock file meets: success, EEXIST, or another error. */
  datatype LockAnswer = Free | Taken | OtherError

  datatype Acquired = Locked(attempt: nat) | KeyAppeared(attempt: nat) | Rethrown(attempt: nat) | GaveUp

  /** On attempt `i` the lock is taken and no key is seen. */
  predicate Blocked(open: nat -> LockAnswer, keyThere: nat -> bool, i: nat) {
    open(i).Taken? && !keyThere(i)
  }

  /** The lock wait: it stops at the first attempt that is not blocked, or after 301 blocked ones. */
  method AcquireKeyCreateLock(open: nat -> LockAnswer, keyThere: nat -> bool) returns (r: Acquired, waited: nat)
    ensures r.GaveUp? <==> forall i: nat :: i <= 300 ==> Blocked(open, keyThere, i)
    ensures !r.GaveUp? ==> forall i: nat :: i < r.attempt ==> Blocked(open, keyThere, i)
    ensures r.Locked? ==> open(r.attempt).Free?
    ensures r.Rethrown? ==> open(r.attempt).OtherError?
    ensures r.KeyAppeared? ==> open(r.attempt).Taken? && keyThere(r.attempt)
    ensures waited == STEP_MS * (if r.GaveUp? then 300 else r.attempt) <= MAX_WAIT_MS
  {
    waited := 0;
    var attempt := 0;
    while true
      invariant waited == STEP_MS * attempt && attempt <= 300
      invariant forall i: nat :: i < attempt ==> Blocked(open, keyThere, i)
      decreases MAX_WAIT_MS - waited
    {
      assert !open(attempt).Taken? || keyThere(attempt) ==> !Blocked(open, keyThere, attempt);
      match open(attempt) {
        case Free => return Locked(attempt), waited;
        case OtherError => return Rethrown(attempt), waited;
        case Taken =>
      }
      if keyThere(attempt) {
        return KeyAppeared(attempt), waited;
      }
      if waited >= MAX_WAIT_MS {
        return GaveUp, waited;
      }
      waited := waited + STEP_MS;
      attempt := attempt + 1;
    }
  }

  /** The write loop of `atomicWriteBinary`: however the writes are split up, the file gets exactly `data`. */
  method WriteAll(data: Bytes, chunk: nat -> nat) returns (file: Bytes)
    ensures file == data
  {
    file := [];
    var off := 0;
    while off < |data|
      invariant off <= |data| && file == data[..off]
    {
      var n := chunk(off);
      if n == 0 || n > |data| - off {
        n := |data| - off;
      }
      file := file + data[off..off + n];
      off := off + n;
    }
  }
}
