/**
 The inbox poller (inbox-poller.ts): one poll cycle delivers unread messages and marks them read, and an
 adaptive loop schedules cycles with a growing idle delay. Start, stop, timer firings and cycle
 completions may come in any order.
 */
module InboxPoller {
  import opened Prelude
  import opened Text

  // ---------------------------------------------------------------- one cycle

  type Id = nat

  datatype Effect = Deliver(id: Id, ok: bool) | Mark(id: Id, ok: bool)

  datatype PollResult = PollResult(total: nat, delivered: nat, failed: nat, markFailed: nat)

  /** How the outside reacts to the message at each position. */
  datatype Reaction = Reaction(delivers: nat -> bool, marks: nat -> bool)

  function MessageTrace(r: Reaction, k: nat, id: Id): seq<Effect> {
    if r.delivers(k) then [Deliver(id, true), Mark(id, r.marks(k))] else [Deliver(id, false)]
  }

  function CycleTrace(r: Reaction, messages: seq<Id>): seq<Effect> {
    if messages == [] then []
    else
      var n := |messages| - 1;
      CycleTrace(r, messages[..n]) + MessageTrace(r, n, messages[n])
  }

  /** How many of the first `n` positions satisfy `p`. */
  function HowMany(p: nat -> bool, n: nat): nat {
    if n == 0 then 0 else HowMany(p, n - 1) + if p(n - 1) then 1 else 0
  }

  function CompletesAt(r: Reaction): nat -> bool { (k: nat) => r.delivers(k) && r.marks(k) }

  function Fails(r: Reaction): nat -> bool { (k: nat) => !r.delivers(k) }

  method PollInboxOnce(messages: seq<Id>, r: Reaction) returns (res: PollResult, trace: seq<Effect>)
    ensures res.total == |messages| == res.delivered + res.failed + res.markFailed
    ensures trace == CycleTrace(r, messages)
    ensures res.delivered == HowMany(CompletesAt(r), |messages|)
    ensures res.failed == HowMany(Fails(r), |messages|)
  {
    var delivered, failed, markFailed := 0, 0, 0;
    trace := [];
    for k := 0 to |messages|
      invariant delivered + failed + markFailed == k
      invariant trace == CycleTrace(r, messages[..k])
      invariant delivered == HowMany(CompletesAt(r), k)
      invariant failed == HowMany(Fails(r), k)
    {
      assert messages[..k + 1][..k] == messages[..k];
      var id := messages[k];
      if r.delivers(k) {
        trace := trace + [Deliver(id, true), Mark(id, r.marks(k))];
        if r.marks(k) {
          delivered := delivered + 1;
        } else {
          markFailed := markFailed + 1;
        }
      } else {
        trace := trace + [Deliver(id, false)];
        failed := failed + 1;
      }
    }
    assert messages[..|messages|] == messages;
    res := PollResult(|messages|, delivered, failed, markFailed);
  }

  /** What the cycle does about the message at `k` comes after what it did about those before: one delivery attempt
      each, and a mark for each that was delivered. */
  function PlaceOf(r: Reaction, k: nat): nat { k + HowMany(r.delivers, k) }

  /**
   Every message is tried exactly once, in order, and marked right after its delivery exactly if that succeeded;
   nothing else happens.
   */
  lemma {:induction false} EachMessageInTurn(r: Reaction, messages: seq<Id>, k: nat)
    requires k < |messages|
    ensures |CycleTrace(r, messages)| == PlaceOf(r, |messages|)
    ensures PlaceOf(r, k) + (if r.delivers(k) then 2 else 1) == PlaceOf(r, k + 1) <= PlaceOf(r, |messages|)
    ensures CycleTrace(r, messages)[PlaceOf(r, k)] == Deliver(messages[k], r.delivers(k))
    ensures r.delivers(k) ==> CycleTrace(r, messages)[PlaceOf(r, k) + 1] == Mark(messages[k], r.marks(k))
  {
    var n := |messages| - 1;
    TraceLength(r, messages[..n]);
    TraceLength(r, messages);
    PlacesGrow(r, k + 1, |messages|);
    if k < n {
      EachMessageInTurn(r, messages[..n], k);
    }
  }

  lemma {:induction false} TraceLength(r: Reaction, messages: seq<Id>)
    ensures |CycleTrace(r, messages)| == PlaceOf(r, |messages|)
  {
    if messages != [] {
      TraceLength(r, messages[..|messages| - 1]);
    }
  }

  lemma {:induction false} PlacesGrow(r: Reaction, j: nat, k: nat)
    requires j <= k
    ensures PlaceOf(r, j) <= PlaceOf(r, k)
  {
    if j < k {
      PlacesGrow(r, j, k - 1);
    }
  }

  /** A message is marked read only right after it was delivered. */
  lemma {:induction false} MarkFollowsDelivery(r: Reaction, messages: seq<Id>, k: nat)
    requires k < |CycleTrace(r, messages)| && CycleTrace(r, messages)[k].Mark?
    ensures k > 0 && CycleTrace(r, messages)[k - 1] == Deliver(CycleTrace(r, messages)[k].id, true)
  {
    var n := |messages| - 1;
    var front := CycleTrace(r, messages[..n]);
    if k < |front| {
      MarkFollowsDelivery(r, messages[..n], k);
    }
  }

  // ---------------------------------------------------------------- no message is lost

  /** Between cycles messages arrive. A failed `mark-read` may have reached the server all the same. */
  datatype Item = Arrival(id: Id) | Cycle(messages: seq<Id>, reaction: Reaction, reached: nat -> bool)

  datatype Mail = Mail(unread: set<Id>, delivered: set<Id>, arrived: set<Id>)

  function Apply(m: Mail, e: Effect, reached: bool): Mail {
    match e
    case Deliver(id, ok) => if ok then m.(delivered := m.delivered + {id}) else m
    case Mark(id, ok) => if ok || reached then m.(unread := m.unread - {id}) else m
  }

  function ApplyAll(m: Mail, trace: seq<Effect>, reached: nat -> bool): Mail {
    if trace == [] then m
    else Apply(ApplyAll(m, trace[..|trace| - 1], reached), trace[|trace| - 1], reached(|trace| - 1))
  }

  function RunMail(items: seq<Item>): Mail {
    if items == [] then Mail({}, {}, {})
    else
      var m := RunMail(items[..|items| - 1]);
      match items[|items| - 1]
      case Arrival(id) => m.(unread := m.unread + {id}, arrived := m.arrived + {id})
      case Cycle(messages, r, reached) => ApplyAll(m, CycleTrace(r, messages), reached)
  }

  predicate Reads(t: seq<Effect>, i: nat, id: Id, reached: nat -> bool) {
    i < |t| && t[i].Mark? && t[i].id == id && (t[i].ok || reached(i))
  }

  predicate Hands(t: seq<Effect>, i: nat, id: Id) { i < |t| && t[i] == Deliver(id, true) }

  /** A message stays unread exactly if no mark reached the server, and counts as delivered exactly if it was. */
  lemma {:induction false} AfterCycle(m: Mail, t: seq<Effect>, reached: nat -> bool, id: Id)
    ensures var m' := ApplyAll(m, t, reached);
            && (id in m'.unread <==> id in m.unread && forall i: nat :: i < |t| ==> !Reads(t, i, id, reached))
            && (id in m'.delivered <==> id in m.delivered || exists i: nat :: Hands(t, i, id))
            && m'.arrived == m.arrived
  {
    if t != [] {
      var n := |t| - 1;
      AfterCycle(m, t[..n], reached, id);
      assert forall i: nat :: i < n ==> (Reads(t[..n], i, id, reached) <==> Reads(t, i, id, reached));
      assert forall i: nat :: i < n ==> (Hands(t[..n], i, id) <==> Hands(t, i, id));
      assert Reads(t, n, id, reached) <==> t[n].Mark? && t[n].id == id && (t[n].ok || reached(n));
      assert Hands(t, n, id) <==> t[n] == Deliver(id, true);
    }
  }

  /** Everything that arrived is still unread or has been delivered. */
  predicate NothingLost(m: Mail) { m.arrived <= m.unread + m.delivered }

  lemma {:induction false} CycleLosesNothing(m: Mail, r: Reaction, messages: seq<Id>, reached: nat -> bool, k: nat)
    requires NothingLost(m) && k <= |CycleTrace(r, messages)|
    ensures var m' := ApplyAll(m, CycleTrace(r, messages)[..k], reached);
            && NothingLost(m') && m'.arrived == m.arrived && m.delivered <= m'.delivered
            && forall i :: 0 <= i < k && CycleTrace(r, messages)[i].Deliver? && CycleTrace(r, messages)[i].ok
                           ==> CycleTrace(r, messages)[i].id in m'.delivered
  {
    var t := CycleTrace(r, messages);
    if k > 0 {
      CycleLosesNothing(m, r, messages, reached, k - 1);
      assert t[..k][..k - 1] == t[..k - 1];
      if t[k - 1].Mark? {
        MarkFollowsDelivery(r, messages, k - 1);
      }
    }
  }

  /** In every run of arrivals and poll cycles, no message leaves the inbox without having been delivered. */
  lemma {:induction false} AtLeastOnce(items: seq<Item>)
    ensures NothingLost(RunMail(items))
  {
    if items != [] {
      AtLeastOnce(items[..|items| - 1]);
      match items[|items| - 1]
      case Arrival(_) =>
      case Cycle(messages, r, reached) =>
        var t := CycleTrace(r, messages);
        CycleLosesNothing(RunMail(items[..|items| - 1]), r, messages, reached, |t|);
        assert t[..|t|] == t;
    }
  }

  /** What has arrived is what the run says, and a message that arrives is unread. */
  lemma {:induction false} ArrivedIff(items: seq<Item>, id: Id)
    ensures id in RunMail(items).arrived <==> exists i :: 0 <= i < |items| && items[i] == Arrival(id)
    ensures items != [] && items[|items| - 1] == Arrival(id) ==> id in RunMail(items).unread
    ensures items != [] && items[|items| - 1].Arrival? ==>
              RunMail(items[..|items| - 1]).unread <= RunMail(items).unread
  {
    if items != [] {
      var front := items[..|items| - 1];
      ArrivedIff(front, id);
      match items[|items| - 1]
      case Arrival(_) =>
      case Cycle(messages, r, reached) => AfterCycle(RunMail(front), CycleTrace(r, messages), reached, id);
      assert forall i :: 0 <= i < |items| && items[i] == Arrival(id) ==>
        (i < |front| && front[i] == Arrival(id)) || i == |items| - 1;
    }
  }

  // ---------------------------------------------------------------- the adaptive loop

  function Min(a: int, b: int): int { if a <= b then a else b }

  function Max(a: int, b: int): int { if a >= b then a else b }

  /** How a poll cycle ends: with messages, without, or with an error. */
  datatype End = Traffic | Empty | Failure

  datatype Event = Start | Stop | Fire(id: nat) | Complete(end: End)

  /** `timer` is the handle the loop remembers, `pending` the timers the runtime still holds, `running` the poll
      cycles in progress. */
  datatype Poller = Poller(
    initialMs: int, maxMs: int, timer: Option<nat>, pending: map<nat, int>, issued: nat,
    active: bool, inFlight: bool, delay: int, running: nat)

  function Created(initialMs: int, maxMs: int): Poller {
    Poller(initialMs, Max(maxMs, initialMs), None, map[], 0, false, false, initialMs, 0)
  }

  function Schedule(p: Poller, ms: int): Poller {
    p.(timer := Some(p.issued), pending := p.pending[p.issued := ms], issued := p.issued + 1)
  }

  function Next(p: Poller, ev: Event): Poller {
    match ev
    case Start =>
      if p.active then p else Schedule(p.(active := true, delay := p.initialMs), p.initialMs)
    case Stop =>
      p.(active := false, timer := None, pending := if p.timer.Some? then p.pending - {p.timer.value} else p.pending)
    case Fire(id) =>
      if id !in p.pending then p
      else
        var q := p.(pending := p.pending - {id});
        if !q.active || q.inFlight then q else q.(inFlight := true, running := q.running + 1)
    case Complete(end) =>
      if p.running == 0 then p
      else
        var q := p.(running := p.running - 1, inFlight := false,
                    delay := if end == Traffic then p.initialMs else Min(p.delay * 2, p.maxMs));
        if q.active then Schedule(q, q.delay) else q
  }

  function Run(initialMs: int, maxMs: int, evs: seq<Event>): Poller {
    if evs == [] then Created(initialMs, maxMs)
    else Next(Run(initialMs, maxMs, evs[..|evs| - 1]), evs[|evs| - 1])
  }

  /** The loop object: its fields, and the timers and cycles that its runtime keeps for it. */
  class AdaptiveInboxPoller {
    const initialMs: int
    const maxMs: int
    var timer: Option<nat>
    var active: bool
    var inFlight: bool
    var delay: int
    var pending: map<nat, int>
    var issued: nat
    var running: nat

    ghost function State(): Poller
      reads this
    {
      Poller(initialMs, maxMs, timer, pending, issued, active, inFlight, delay, running)
    }

    constructor (initialMs: int, maxMs: int)
      ensures State() == Created(initialMs, maxMs)
    {
      this.initialMs, this.maxMs := initialMs, Max(maxMs, initialMs);
      timer, active, inFlight, delay := None, false, false, initialMs;
      pending, issued, running := map[], 0, 0;
    }

    method SetTimer(ms: int)
      modifies this
      ensures State() == Schedule(old(State()), ms)
    {
      timer := Some(issued);
      pending := pending[issued := ms];
      issued := issued + 1;
    }

    method Start()
      modifies this
      ensures State() == Next(old(State()), Event.Start)
    {
      if active {
        return;
      }
      active := true;
      delay := initialMs;
      SetTimer(initialMs);
    }

    method Stop()
      modifies this
      ensures State() == Next(old(State()), Event.Stop)
    {
      active := false;
      if timer.Some? {
        pending := pending - {timer.value};
        timer := None;
      }
    }

    /** A timer fires and calls `tick`, which runs up to the first `await`. */
    method Fire(id: nat)
      requires id in pending
      modifies this
      ensures State() == Next(old(State()), Event.Fire(id))
    {
      pending := pending - {id};
      if !active || inFlight {
        return;
      }
      inFlight := true;
      running := running + 1;
    }

    /** The awaited poll cycle ends and `tick` goes on. */
    method Complete(end: End)
      requires running > 0
      modifies this
      ensures State() == Next(old(State()), Event.Complete(end))
    {
      running := running - 1;
      if end == Traffic {
        delay := initialMs;
      } else {
        delay := Min(delay * 2, maxMs);
      }
      inFlight := false;
      if active {
        SetTimer(delay);
      }
    }
  }

  // ---------------------------------------------------------------- every run

  predicate Starts(p: Poller, ev: Event) { ev.Start? && !p.active }

  predicate Completes(p: Poller, ev: Event) { ev.Complete? && p.running > 0 }

  /** The idle count after one more event: a start or traffic resets it, any other completed cycle adds one. */
  function IdleNext(p: Poller, ev: Event, k: nat): nat {
    if Starts(p, ev) || (Completes(p, ev) && ev.end == Traffic) then 0 else if Completes(p, ev) then k + 1 else k
  }

  /** The idle or failed cycles of a run since the last start or traffic. */
  function IdleSince(initialMs: int, maxMs: int, evs: seq<Event>): nat {
    if evs == [] then 0
    else
      var n := |evs| - 1;
      IdleNext(Run(initialMs, maxMs, evs[..n]), evs[n], IdleSince(initialMs, maxMs, evs[..n]))
  }

  /** A timer that fires is spent, and starts a cycle exactly if the loop is active with none in flight. */
  lemma FireStartsIff(p: Poller, id: nat)
    requires id in p.pending
    ensures var q := Next(p, Fire(id));
            && q.pending == p.pending - {id} && q.active == p.active && q.delay == p.delay
            && q.running == p.running + (if p.active && !p.inFlight then 1 else 0)
  {
  }

  /** After a stop the loop is inactive, and its remembered timer will not fire. */
  lemma StopCancels(p: Poller)
    ensures var q := Next(p, Stop);
            && !q.active && q.timer.None? && (p.timer.Some? ==> p.timer.value !in q.pending) && q.running == p.running
  {
  }

  /** What every run keeps. */
  predicate Inv(p: Poller) {
    && p.running == (if p.inFlight then 1 else 0)
    && (p.active ==> p.inFlight || p.pending != map[])
    && (forall id :: id in p.pending ==> id < p.issued)
  }

  lemma DoublingIsCapped(initialMs: int, maxMs: int, k: nat)
    requires maxMs >= initialMs
    ensures Min(Min(initialMs * Pow2(k), maxMs) * 2, maxMs) == Min(initialMs * Pow2(k + 1), maxMs)
  {
    var x := initialMs * Pow2(k);
    assert initialMs * Pow2(k + 1) == 2 * x;
    if initialMs < 0 {
      assert x <= initialMs;
    }
  }

  lemma NextKeepsInv(p: Poller, ev: Event)
    requires Inv(p)
    ensures Inv(Next(p, ev))
  {
    match ev
    case Start =>
      assert p.issued in Schedule(p, p.initialMs).pending;
    case Stop =>
    case Fire(id) =>
    case Complete(end) =>
      assert p.issued in Schedule(p, Next(p, ev).delay).pending;
  }

  /** In every run: never two poll cycles at once, and while the loop is active a cycle is in progress or a timer is
      pending. */
  lemma {:induction false} EveryRunIsSafe(initialMs: int, maxMs: int, evs: seq<Event>)
    ensures var p := Run(initialMs, maxMs, evs);
            && p.running <= 1
            && (p.active ==> p.running == 1 || p.pending != map[])
    ensures Inv(Run(initialMs, maxMs, evs))
  {
    if evs != [] {
      EveryRunIsSafe(initialMs, maxMs, evs[..|evs| - 1]);
      NextKeepsInv(Run(initialMs, maxMs, evs[..|evs| - 1]), evs[|evs| - 1]);
    }
  }

  lemma BackoffStep(p: Poller, ev: Event, k: nat)
    requires p.maxMs >= p.initialMs && p.delay == Min(p.initialMs * Pow2(k), p.maxMs)
    ensures var q := Next(p, ev);
            && q.initialMs == p.initialMs && q.maxMs == p.maxMs
            && q.delay == Min(p.initialMs * Pow2(IdleNext(p, ev, k)), p.maxMs)
  {
    DoublingIsCapped(p.initialMs, p.maxMs, k);
  }

  /** After k idle or failed cycles since the last start or traffic, the delay is min(initialMs * 2^k, maxMs). */
  lemma {:induction false} DelayIsCappedBackoff(initialMs: int, maxMs: int, evs: seq<Event>)
    ensures var p := Run(initialMs, maxMs, evs);
            && p.initialMs == initialMs && p.maxMs == Max(maxMs, initialMs)
            && p.delay == Min(initialMs * Pow2(IdleSince(initialMs, maxMs, evs)), Max(maxMs, initialMs))
  {
    if evs != [] {
      var front, ev := evs[..|evs| - 1], evs[|evs| - 1];
      DelayIsCappedBackoff(initialMs, maxMs, front);
      BackoffStep(Run(initialMs, maxMs, front), ev, IdleSince(initialMs, maxMs, front));
    }
  }

  /** The remembered timer is armed with the current delay, and only an active loop remembers one. */
  predicate ArmedWithDelay(p: Poller) {
    && (p.timer.Some? && p.timer.value in p.pending ==> p.pending[p.timer.value] == p.delay)
    && (!p.active ==> p.timer.None?)
  }

  lemma NextStaysArmed(p: Poller, ev: Event)
    requires ArmedWithDelay(p)
    ensures ArmedWithDelay(Next(p, ev))
  {
  }

  lemma {:induction false} EveryRunIsArmed(initialMs: int, maxMs: int, evs: seq<Event>)
    ensures ArmedWithDelay(Run(initialMs, maxMs, evs))
  {
    if evs != [] {
      EveryRunIsArmed(initialMs, maxMs, evs[..|evs| - 1]);
      NextStaysArmed(Run(initialMs, maxMs, evs[..|evs| - 1]), evs[|evs| - 1]);
    }
  }

  /**
   The backoff reaches the timer: after k idle or failed cycles since the last start or traffic, the timer that the
   loop waits for was armed with min(initialMs * 2^k, maxMs).
   */
  lemma TimerIsArmedWithBackoff(initialMs: int, maxMs: int, evs: seq<Event>)
    ensures var p := Run(initialMs, maxMs, evs);
            p.timer.Some? && p.timer.value in p.pending ==>
              p.pending[p.timer.value] == Min(initialMs * Pow2(IdleSince(initialMs, maxMs, evs)), Max(maxMs, initialMs))
  {
    EveryRunIsArmed(initialMs, maxMs, evs);
    DelayIsCappedBackoff(initialMs, maxMs, evs);
  }

  /** An active loop without a cycle in flight waits for its remembered timer, if at most one timer was ever pending. */
  lemma IdleLoopWaits(initialMs: int, maxMs: int, evs: seq<Event>)
    requires forall k: nat :: k < |evs| ==> !CompletesOverTimer(Before(initialMs, maxMs, evs, k), evs[k])
    ensures var p := Run(initialMs, maxMs, evs);
            p.active && p.running == 0 ==> p.timer.Some? && p.timer.value in p.pending
  {
    StaysRemembered(initialMs, maxMs, evs, |evs|);
    EveryRunIsSafe(initialMs, maxMs, evs);
    assert evs[..|evs|] == evs;
  }

  // ---------------------------------------------------------------- when there is only one timer

  /** Every pending timer is the remembered one, and a stopped loop has none. */
  predicate Remembered(p: Poller) {
    (forall id :: id in p.pending ==> p.timer == Some(id)) && (!p.active ==> p.pending == map[])
  }

  lemma RememberedIsOne(p: Poller)
    requires Remembered(p)
    ensures |p.pending| <= 1
  {
    if p.pending != map[] {
      var id :| id in p.pending;
      assert p.pending.Keys == {id};
      assert |p.pending| == |p.pending.Keys|;
    }
  }

  lemma ScheduleAddsOne(p: Poller, ms: int)
    requires Inv(p)
    ensures |Schedule(p, ms).pending| == |p.pending| + 1
  {
    assert p.issued !in p.pending;
    assert Schedule(p, ms).pending.Keys == p.pending.Keys + {p.issued};
    assert |Schedule(p, ms).pending| == |Schedule(p, ms).pending.Keys|;
    assert |p.pending| == |p.pending.Keys|;
  }

  /** A start finds a cycle of an earlier start still in flight. */
  predicate RestartsInFlight(p: Poller, ev: Event) { Starts(p, ev) && p.inFlight }

  /** A cycle completes and finds the loop active with a timer pending already. */
  predicate CompletesOverTimer(p: Poller, ev: Event) { Completes(p, ev) && p.active && p.pending != map[] }

  /** There is at most one timer or cycle at work: the loop is a single thread. */
  predicate SingleThread(p: Poller) { |p.pending| + p.running <= 1 }

  lemma NextKeepsRemembered(p: Poller, ev: Event)
    requires Inv(p) && Remembered(p) && !CompletesOverTimer(p, ev)
    ensures Remembered(Next(p, ev))
  {
  }

  lemma NextKeepsSingleThread(p: Poller, ev: Event)
    requires Inv(p) && Remembered(p) && SingleThread(p) && !RestartsInFlight(p, ev)
    ensures Remembered(Next(p, ev)) && SingleThread(Next(p, ev))
  {
    assert p.running > 0 ==> p.pending == map[];
    NextKeepsRemembered(p, ev);
    RememberedIsOne(Next(p, ev));
    if ev.Fire? && ev.id in p.pending {
      assert p.pending.Keys == {ev.id};
      assert Next(p, ev).pending.Keys == {};
    }
  }

  lemma RestartMakesTwo(p: Poller, ev: Event)
    requires Inv(p) && RestartsInFlight(p, ev)
    ensures !SingleThread(Next(p, ev))
  {
    ScheduleAddsOne(p.(active := true, delay := p.initialMs), p.initialMs);
  }

  lemma CompletionMakesTwo(p: Poller, ev: Event)
    requires Inv(p) && CompletesOverTimer(p, ev)
    ensures |Next(p, ev).pending| >= 2
  {
    var q := p.(running := p.running - 1, inFlight := false, delay := Next(p, ev).delay);
    assert Next(p, ev) == Schedule(q, q.delay);
    ScheduleAddsOne(q, q.delay);
  }

  /** The state before event `k`. */
  function Before(initialMs: int, maxMs: int, evs: seq<Event>, k: nat): Poller
    requires k <= |evs|
  {
    Run(initialMs, maxMs, evs[..k])
  }

  lemma BeforeNext(initialMs: int, maxMs: int, evs: seq<Event>, k: nat)
    requires k < |evs|
    ensures Before(initialMs, maxMs, evs, k + 1) == Next(Before(initialMs, maxMs, evs, k), evs[k])
    ensures Inv(Before(initialMs, maxMs, evs, k))
  {
    assert evs[..k + 1][..k] == evs[..k];
    EveryRunIsSafe(initialMs, maxMs, evs[..k]);
  }

  lemma {:induction false} StaysSingle(initialMs: int, maxMs: int, evs: seq<Event>, k: nat)
    requires k <= |evs|
    requires forall i: nat :: i < k ==> !RestartsInFlight(Before(initialMs, maxMs, evs, i), evs[i])
    ensures Remembered(Before(initialMs, maxMs, evs, k)) && SingleThread(Before(initialMs, maxMs, evs, k))
  {
    if k > 0 {
      StaysSingle(initialMs, maxMs, evs, k - 1);
      BeforeNext(initialMs, maxMs, evs, k - 1);
      NextKeepsSingleThread(Before(initialMs, maxMs, evs, k - 1), evs[k - 1]);
    }
  }

  lemma {:induction false} StaysRemembered(initialMs: int, maxMs: int, evs: seq<Event>, k: nat)
    requires k <= |evs|
    requires forall i: nat :: i < k ==> !CompletesOverTimer(Before(initialMs, maxMs, evs, i), evs[i])
    ensures Remembered(Before(initialMs, maxMs, evs, k))
  {
    if k > 0 {
      StaysRemembered(initialMs, maxMs, evs, k - 1);
      BeforeNext(initialMs, maxMs, evs, k - 1);
      NextKeepsRemembered(Before(initialMs, maxMs, evs, k - 1), evs[k - 1]);
    }
  }

  /**
   At every moment of a run there is at most one timer or cycle at work if and only if no start finds a cycle of
   an earlier start in flight.
   */
  lemma SingleThreadIff(initialMs: int, maxMs: int, evs: seq<Event>)
    ensures (forall k: nat :: k <= |evs| ==> SingleThread(Before(initialMs, maxMs, evs, k)))
            <==> (forall k: nat :: k < |evs| ==> !RestartsInFlight(Before(initialMs, maxMs, evs, k), evs[k]))
  {
    if k: nat :| k < |evs| && RestartsInFlight(Before(initialMs, maxMs, evs, k), evs[k]) {
      BeforeNext(initialMs, maxMs, evs, k);
      RestartMakesTwo(Before(initialMs, maxMs, evs, k), evs[k]);
      assert !SingleThread(Before(initialMs, maxMs, evs, k + 1));
    } else {
      forall k: nat | k <= |evs|
        ensures SingleThread(Before(initialMs, maxMs, evs, k))
      {
        StaysSingle(initialMs, maxMs, evs, k);
      }
    }
  }

  /**
   At every moment of a run at most one timer is pending if and only if no cycle completes while the loop is
   active with a timer pending; that takes an earlier start that found the cycle in flight.
   */
  lemma OneTimerIff(initialMs: int, maxMs: int, evs: seq<Event>)
    ensures (forall k: nat :: k <= |evs| ==> |Before(initialMs, maxMs, evs, k).pending| <= 1)
            <==> (forall k: nat :: k < |evs| ==> !CompletesOverTimer(Before(initialMs, maxMs, evs, k), evs[k]))
    ensures forall k: nat :: k < |evs| && CompletesOverTimer(Before(initialMs, maxMs, evs, k), evs[k]) ==>
              exists i: nat :: i < k && RestartsInFlight(Before(initialMs, maxMs, evs, i), evs[i])
  {
    if k: nat :| k < |evs| && CompletesOverTimer(Before(initialMs, maxMs, evs, k), evs[k]) {
      BeforeNext(initialMs, maxMs, evs, k);
      CompletionMakesTwo(Before(initialMs, maxMs, evs, k), evs[k]);
      assert |Before(initialMs, maxMs, evs, k + 1).pending| >= 2;
    } else {
      forall k: nat | k <= |evs|
        ensures |Before(initialMs, maxMs, evs, k).pending| <= 1
      {
        StaysRemembered(initialMs, maxMs, evs, k);
        RememberedIsOne(Before(initialMs, maxMs, evs, k));
      }
    }
    forall k: nat | k < |evs| && CompletesOverTimer(Before(initialMs, maxMs, evs, k), evs[k])
      ensures exists i: nat :: i < k && RestartsInFlight(Before(initialMs, maxMs, evs, i), evs[i])
    {
      OverTimerNeedsRestart(initialMs, maxMs, evs, k);
    }
  }

  lemma OverTimerNeedsRestart(initialMs: int, maxMs: int, evs: seq<Event>, k: nat)
    requires k < |evs| && CompletesOverTimer(Before(initialMs, maxMs, evs, k), evs[k])
    ensures exists i: nat :: i < k && RestartsInFlight(Before(initialMs, maxMs, evs, i), evs[i])
  {
    var p := Before(initialMs, maxMs, evs, k);
    assert !SingleThread(p) by {
      assert |p.pending| == |p.pending.Keys| && p.pending.Keys != {};
    }
    if forall i: nat :: i < k ==> !RestartsInFlight(Before(initialMs, maxMs, evs, i), evs[i]) {
      StaysSingle(initialMs, maxMs, evs, k);
    }
  }

  /** Such runs exist: a stop and a start during a running cycle leave two timers pending when it completes. */
  lemma TwoTimersCanBePending(initialMs: int, maxMs: int)
    ensures exists evs :: |Run(initialMs, maxMs, evs).pending| == 2
  {
    var p0 := Created(initialMs, maxMs);
    var p1 := Next(p0, Start);
    var p2 := Next(p1, Fire(0));
    var p3 := Next(p2, Stop);
    var p4 := Next(p3, Start);
    var p5 := Next(p4, Complete(Empty));
    assert p1.pending.Keys == {0} && p2.pending.Keys == {} && p4.pending.Keys == {1};
    assert p5.pending.Keys == {1, 2};
    var e1 := [Start];
    var e2 := e1 + [Fire(0)];
    var e3 := e2 + [Stop];
    var e4 := e3 + [Start];
    var e5 := e4 + [Complete(Empty)];
    assert e1[..0] == [] && e2[..1] == e1 && e3[..2] == e2 && e4[..3] == e3 && e5[..4] == e4;
    assert Run(initialMs, maxMs, e1) == p1;
    assert Run(initialMs, maxMs, e2) == p2;
    assert Run(initialMs, maxMs, e3) == p3;
    assert Run(initialMs, maxMs, e4) == p4;
    assert Run(initialMs, maxMs, e5) == p5;
  }
}
