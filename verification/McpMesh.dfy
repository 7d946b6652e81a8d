/**
 A mesh of nodes that forward MCP calls to each other. Every call in flight may be handled by any node
 with any registry view, and views may differ between nodes and change from one step to the next. The
 hop number travels as a header: the sender prints it (mcp-forward-executor.ts), the receiver parses it
 (mcp-ingress-api.ts).
 */
module McpMesh {
  import opened Prelude
  import opened Text
  import opened McpPipeline
  import opened McpIngress

  // ---------------------------------------------------------------- the hop header

  /** `parseInt` of a header; unreadable, negative or not below `limit` counts as 0. */
  function ParsedHop(v: string, limit: nat): nat {
    var s := TrimStart(v);
    if s != "" && s[0] == '-' then 0
    else
      var digits := DigitPrefix(if s != "" && s[0] == '+' then s[1..] else s);
      if digits != "" && DigitsValue(digits) < limit then DigitsValue(digits) else 0
  }

  /** `readIncomingHop`: a missing header counts as 0, and so does a number too large to be finite. */
  function ReadIncomingHop(header: Option<string>): nat {
    match header
    case None => 0
    case Some(v) => ParsedHop(v, FirstInfinite())
  }

  lemma ReadDigits(s: string, limit: nat)
    requires s != "" && AllDigits(s)
    ensures ParsedHop(s, limit) == if DigitsValue(s) < limit then DigitsValue(s) else 0
  {
    assert IsDigit(s[0]);
    assert TrimStart(s) == s;
    DigitPrefixOfDigits(s);
  }

  /** A hop number that is sent is the hop number that is read. */
  lemma HopRoundTrip(n: nat)
    requires n < FirstInfinite()
    ensures ReadIncomingHop(Some(Decimal(n))) == n
  {
    ReadDigits(Decimal(n), FirstInfinite());
    DecimalRoundTrip(n);
  }

  lemma {:induction false} SpacesAreSkipped(pre: string, rest: string)
    requires AllSpace(pre) && (rest == "" || !IsSpace(rest[0]))
    ensures TrimStart(pre + rest) == rest
  {
    if pre == "" {
      assert pre + rest == rest;
    } else {
      SpacesAreSkipped(pre[1..], rest);
      assert (pre + rest)[1..] == pre[1..] + rest;
    }
  }

  lemma {:induction false} DigitPrefixStops(digits: string, rest: string)
    requires AllDigits(digits) && (rest == "" || !IsDigit(rest[0]))
    ensures DigitPrefix(digits + rest) == digits
  {
    if digits == "" {
      assert digits + rest == rest;
    } else {
      DigitPrefixStops(digits[1..], rest);
      assert (digits + rest)[1..] == digits[1..] + rest;
    }
  }

  lemma BodyIsRead(sign: string, digits: string, rest: string)
    requires sign in {"", "+"} && digits != "" && AllDigits(digits) && (rest == "" || !IsDigit(rest[0]))
    ensures var body := sign + (digits + rest);
            && !IsSpace(body[0]) && body[0] != '-'
            && DigitPrefix(if body[0] == '+' then body[1..] else body) == digits
  {
    var body := sign + (digits + rest);
    assert IsDigit(digits[0]);
    assert body[0] == if sign == "" then digits[0] else '+';
    if sign == "" {
      assert body == digits + rest;
    } else {
      assert body[1..] == digits + rest;
    }
    DigitPrefixStops(digits, rest);
  }

  lemma HeaderIsRead(pre: string, body: string, digits: string, limit: nat)
    requires AllSpace(pre) && body != "" && !IsSpace(body[0]) && body[0] != '-' && digits != "" && AllDigits(digits)
    requires DigitPrefix(if body[0] == '+' then body[1..] else body) == digits
    ensures ParsedHop(pre + body, limit) == if DigitsValue(digits) < limit then DigitsValue(digits) else 0
  {
    SpacesAreSkipped(pre, body);
  }

  /** How a header is read: white space and a plus sign are skipped, the digits count, what follows does not. */
  lemma HopIsRead(pre: string, sign: string, digits: string, rest: string)
    requires AllSpace(pre) && sign in {"", "+"} && digits != "" && AllDigits(digits)
    requires rest == "" || !IsDigit(rest[0])
    ensures var n := DigitsValue(digits);
            ReadIncomingHop(Some(pre + (sign + (digits + rest)))) == if n < FirstInfinite() then n else 0
  {
    BodyIsRead(sign, digits, rest);
    HeaderIsRead(pre, sign + (digits + rest), digits, FirstInfinite());
  }

  /** A call without a header, with a negative number or with none at all counts as a direct one. */
  lemma NoHopIsRead(pre: string, body: string)
    requires AllSpace(pre) && (body == "" || !IsSpace(body[0]))
    requires body == "" || body[0] == '-' || !IsDigit(body[0])
    requires body != "" && body[0] == '+' ==> |body| == 1 || !IsDigit(body[1])
    ensures ReadIncomingHop(None) == 0 && ReadIncomingHop(Some(pre + body)) == 0
  {
    SpacesAreSkipped(pre, body);
    if body != "" {
      var t := if body[0] == '+' then body[1..] else body;
      assert t == "" || !IsDigit(t[0]);
      assert DigitPrefix(t) == "";
    }
  }

  // ---------------------------------------------------------------- the mesh

  /** A call in flight; `origin` identifies the client call it stems from. */
  datatype Call = Call(origin: nat, server: string, hopHeader: Option<string>, payload: Json)

  /** What happened on behalf of a client call: a node took it up, a node forwarded it, a node ran it. */
  datatype Entry = Took(origin: nat) | Sent(origin: nat) | Ran(origin: nat)

  datatype Mesh = Mesh(pending: seq<Call>, log: multiset<Entry>, arrived: map<nat, nat>)

  datatype Event = Arrive(call: Call) | Handled(at: nat, host: Host, sender: Option<string>) | Lost(at: nat)

  function Forwarded(c: Call, effects: seq<Effect>): seq<Call> {
    if effects == [] then []
    else
      (if effects[0].Send?
       then [Call(c.origin, c.server, Some(Decimal(effects[0].forward.hop)), effects[0].forward.payload)]
       else [])
      + Forwarded(c, effects[1..])
  }

  function Entries(origin: nat, effects: seq<Effect>): multiset<Entry> {
    if effects == [] then multiset{}
    else
      (match effects[0]
       case Audit(_, _) => multiset{}
       case Send(_) => multiset{Sent(origin)}
       case RunLocal(_) => multiset{Ran(origin)})
      + Entries(origin, effects[1..])
  }

  /** Removing the call at `at`, adding the calls it was forwarded as, and booking it. */
  function Exchanged(m: Mesh, at: nat, more: seq<Call>, entries: multiset<Entry>): Mesh
    requires at < |m.pending|
  {
    m.(pending := m.pending[..at] + m.pending[at + 1..] + more,
       log := m.log + multiset{Took(m.pending[at].origin)} + entries)
  }

  function Booked(m: Mesh, at: nat, effects: seq<Effect>): Mesh
    requires at < |m.pending|
  {
    var c := m.pending[at];
    Exchanged(m, at, Forwarded(c, effects), Entries(c.origin, effects))
  }

  function Next(m: Mesh, ev: Event): Mesh {
    match ev
    case Arrive(c) =>
      if c.origin in m.arrived then m
      else m.(pending := m.pending + [c], arrived := m.arrived[c.origin := ReadIncomingHop(c.hopHeader)])
    case Lost(at) =>
      if at >= |m.pending| then m else m.(pending := m.pending[..at] + m.pending[at + 1..])
    case Handled(at, host, sender) =>
      if at >= |m.pending| then m
      else
        var c := m.pending[at];
        var effects := Handle(host, c.server, sender, ReadIncomingHop(c.hopHeader), c.payload).effects;
        Booked(m, at, effects)
  }

  function Exec(evs: seq<Event>): Mesh {
    if evs == [] then Mesh([], multiset{}, map[]) else Next(Exec(evs[..|evs| - 1]), evs[|evs| - 1])
  }

  // ---------------------------------------------------------------- one node, one action

  lemma {:induction false} AuditsLeaveNoTrace(c: Call, audits: seq<Effect>, rest: seq<Effect>)
    requires forall e :: e in audits ==> e.Audit?
    ensures Forwarded(c, audits + rest) == Forwarded(c, rest)
    ensures Entries(c.origin, audits + rest) == Entries(c.origin, rest)
  {
    if audits == [] {
      assert audits + rest == rest;
    } else {
      AuditsLeaveNoTrace(c, audits[1..], rest);
      var all := audits + rest;
      assert all[1..] == audits[1..] + rest;
      assert all[0] in audits;
      assert [] + Forwarded(c, all[1..]) == Forwarded(c, all[1..]);
    }
  }

  /** What one execution leaves in the mesh: nothing, one local run, or one call with hop number 1. */
  predicate StepLeaves(origin: nat, hop: nat, more: seq<Call>, entries: multiset<Entry>) {
    || (more == [] && entries == multiset{})
    || (more == [] && entries == multiset{Ran(origin)})
    || (hop == 0 && entries == multiset{Sent(origin)}
        && |more| == 1 && more[0].origin == origin && more[0].hopHeader == Some(Decimal(1)))
  }

  predicate OneStep(c: Call, hop: nat, effects: seq<Effect>) {
    StepLeaves(c.origin, hop, Forwarded(c, effects), Entries(c.origin, effects))
  }

  lemma OneStepBetweenAudits(c: Call, hop: nat, a: seq<Effect>, x: Effect, b: seq<Effect>)
    requires forall e :: e in a || e in b ==> e.Audit?
    requires x.Send? ==> hop == 0 && x.forward.hop == 1
    ensures OneStep(c, hop, a + [x] + b)
  {
    AuditsLeaveNoTrace(c, a, [x] + b);
    assert a + [x] + b == a + ([x] + b);
    AuditsLeaveNoTrace(c, b, []);
    assert b + [] == b;
    assert ([x] + b)[1..] == b;
  }

  /** An execution is one audit record, or an audit record, one action and possibly one more record. */
  predicate Shape(hop: nat, effects: seq<Effect>) {
    && (forall i :: 0 <= i < |effects| && i != 1 ==> effects[i].Audit?)
    && (|effects| > 1 && effects[1].Send? ==> hop == 0 && effects[1].forward.hop == 1)
  }

  lemma ExecuteShape(ex: Executor, d: Dispatch, ctx: Context)
    requires !d.NoPath? && !d.RoutingThrows?
    ensures Shape(ctx.hop, Execute(ex, d, ctx).effects)
  {
  }

  lemma ProcessShape(h: Host, server: string, sender: Option<string>, hop: nat, payload: Json, d: Dispatch)
    ensures Shape(hop, Process(h, server, sender, hop, payload, d).effects)
  {
    if Decide(h, server, sender, payload, d).Proceed? && h.executor.Some? {
      DecidesToProceedIff(h, server, sender, payload, d, d);
      ExecuteShape(h.executor.value, d, Context(hop, payload, server));
    }
  }

  lemma ShapeIsOneStep(c: Call, hop: nat, before: seq<Effect>, mid: seq<Effect>, after: seq<Effect>)
    requires Shape(hop, mid) && forall e :: e in before || e in after ==> e.Audit?
    ensures OneStep(c, hop, before + mid + after)
  {
    if |mid| <= 1 {
      AuditsLeaveNoTrace(c, before + mid + after, []);
      assert before + mid + after + [] == before + mid + after;
    } else {
      assert before + mid + after == (before + [mid[0]]) + [mid[1]] + (mid[2..] + after);
      OneStepBetweenAudits(c, hop, before + [mid[0]], mid[1], mid[2..] + after);
    }
  }

  lemma HandleIsOneStep(h: Host, c: Call, sender: Option<string>, hop: nat)
    ensures OneStep(c, hop, Handle(h, c.server, sender, hop, c.payload).effects)
  {
    PlannedIsOneStep(h, c, sender, hop, Route(h.node, c.server, h.caps));
  }

  lemma PlannedIsOneStep(h: Host, c: Call, sender: Option<string>, hop: nat, d: Dispatch)
    ensures OneStep(c, hop, HandlePlanned(h, c.server, sender, hop, c.payload, d).effects)
  {
    var run := Process(h, c.server, sender, hop, c.payload, d);
    ProcessShape(h, c.server, sender, hop, c.payload, d);
    ShapeIsOneStep(c, hop, GateRecord(h, c.server, sender, c.payload, d), run.effects,
        ClosingRecord(sender, run.status));
  }

  // ---------------------------------------------------------------- every run

  /** A pending call's origin, and whether it still counts as a direct client call. */
  function Tag(c: Call): (nat, bool) { (c.origin, ReadIncomingHop(c.hopHeader) == 0) }

  function Tags(cs: seq<Call>): seq<(nat, bool)> { seq(|cs|, i requires 0 <= i < |cs| => Tag(cs[i])) }

  function Direct(m: Mesh, o: nat): nat { multiset(Tags(m.pending))[(o, true)] }

  function Relayed(m: Mesh, o: nat): nat { multiset(Tags(m.pending))[(o, false)] }

  /** The budget of one client call: forwards, local runs and node visits, spent and still possible. */
  predicate WithinBudget(m: Mesh, o: nat) {
    var budget := if o !in m.arrived then 0 else if m.arrived[o] == 0 then 2 else 1;
    && Direct(m, o) + m.log[Sent(o)] <= (if budget == 2 then 1 else 0)
    && Direct(m, o) + Relayed(m, o) + m.log[Ran(o)] <= (if budget == 0 then 0 else 1)
    && 2 * Direct(m, o) + Relayed(m, o) + m.log[Took(o)] <= budget
  }

  lemma TagsConcat(a: seq<Call>, b: seq<Call>)
    ensures Tags(a + b) == Tags(a) + Tags(b)
  {
  }

  /** Taking a call out of the pending ones and adding others. */
  lemma TagsExchange(cs: seq<Call>, at: nat, more: seq<Call>)
    requires at < |cs|
    ensures multiset(Tags(cs[..at] + cs[at + 1..] + more))
            == multiset(Tags(cs)) - multiset{Tag(cs[at])} + multiset(Tags(more))
  {
    var before, after := cs[..at], cs[at + 1..];
    assert cs == before + [cs[at]] + after;
    TagsConcat(before + [cs[at]], after);
    TagsConcat(before, [cs[at]]);
    TagsConcat(before + after, more);
    TagsConcat(before, after);
    assert Tags([cs[at]]) == [Tag(cs[at])];
  }

  /** How the pending counts of origin `o` change when the call at `at` is replaced by `more`. */
  lemma CountsExchange(m: Mesh, at: nat, more: seq<Call>, o: nat)
    requires at < |m.pending|
    requires more == [] || (|more| == 1 && more[0].origin == m.pending[at].origin
        && more[0].hopHeader == Some(Decimal(1)))
    ensures var m' := m.(pending := m.pending[..at] + m.pending[at + 1..] + more);
            var c := m.pending[at];
            && Direct(m', o) == Direct(m, o) - (if Tag(c) == (o, true) then 1 else 0)
            && Relayed(m', o) == Relayed(m, o) - (if Tag(c) == (o, false) then 1 else 0)
                                 + (if more != [] && c.origin == o then 1 else 0)
  {
    var c := m.pending[at];
    TagsExchange(m.pending, at, more);
    assert Tags(m.pending)[at] == Tag(c);
    assert Tag(c) in multiset(Tags(m.pending));
    if more != [] {
      OneIsFinite();
      HopRoundTrip(1);
      assert Tags(more) == [(c.origin, false)];
    } else {
      assert Tags(more) == [];
    }
  }

  lemma BookedKeepsBudget(m: Mesh, at: nat, effects: seq<Effect>, o: nat)
    requires at < |m.pending| && WithinBudget(m, o)
    requires OneStep(m.pending[at], ReadIncomingHop(m.pending[at].hopHeader), effects)
    ensures WithinBudget(Booked(m, at, effects), o)
  {
    var c := m.pending[at];
    ExchangeKeepsBudget(m, at, Forwarded(c, effects), Entries(c.origin, effects), o);
  }

  lemma ExchangeKeepsBudget(m: Mesh, at: nat, more: seq<Call>, entries: multiset<Entry>, o: nat)
    requires at < |m.pending| && WithinBudget(m, o)
    requires var c := m.pending[at]; StepLeaves(c.origin, ReadIncomingHop(c.hopHeader), more, entries)
    ensures WithinBudget(Exchanged(m, at, more, entries), o)
  {
    CountsExchange(m, at, more, o);
    LogCounts(m.log, entries, m.pending[at].origin, o);
  }

  /** Booking adds one visit to the origin, and what the step did. */
  lemma LogCounts(log: multiset<Entry>, entries: multiset<Entry>, origin: nat, o: nat)
    ensures var log' := log + multiset{Took(origin)} + entries;
            && log'[Took(o)] == log[Took(o)] + (if origin == o then 1 else 0) + entries[Took(o)]
            && log'[Sent(o)] == log[Sent(o)] + entries[Sent(o)]
            && log'[Ran(o)] == log[Ran(o)] + entries[Ran(o)]
  {
  }

  lemma ArriveKeepsBudget(m: Mesh, c: Call, o: nat)
    requires WithinBudget(m, o) && c.origin !in m.arrived
    ensures WithinBudget(
              m.(pending := m.pending + [c], arrived := m.arrived[c.origin := ReadIncomingHop(c.hopHeader)]), o)
  {
    assert Tags(m.pending + [c]) == Tags(m.pending) + [Tag(c)];
  }

  lemma LostKeepsBudget(m: Mesh, at: nat, o: nat)
    requires at < |m.pending| && WithinBudget(m, o)
    ensures WithinBudget(m.(pending := m.pending[..at] + m.pending[at + 1..]), o)
  {
    CountsExchange(m, at, [], o);
    assert m.pending[..at] + m.pending[at + 1..] + [] == m.pending[..at] + m.pending[at + 1..];
  }

  lemma NextKeepsBudget(m: Mesh, ev: Event, o: nat)
    requires WithinBudget(m, o)
    ensures WithinBudget(Next(m, ev), o)
  {
    match ev
    case Arrive(c) =>
      if c.origin !in m.arrived {
        ArriveKeepsBudget(m, c, o);
      }
    case Lost(at) =>
      if at < |m.pending| {
        LostKeepsBudget(m, at, o);
      }
    case Handled(at, host, sender) =>
      if at < |m.pending| {
        var c := m.pending[at];
        var hop := ReadIncomingHop(c.hopHeader);
        HandleIsOneStep(host, c, sender, hop);
        BookedKeepsBudget(m, at, Handle(host, c.server, sender, hop, c.payload).effects, o);
      }
  }

  lemma {:induction false} EveryRunKeepsBudget(evs: seq<Event>, o: nat)
    ensures WithinBudget(Exec(evs), o)
  {
    if evs != [] {
      EveryRunKeepsBudget(evs[..|evs| - 1], o);
      NextKeepsBudget(Exec(evs[..|evs| - 1]), evs[|evs| - 1], o);
    }
  }

  /**
   In every run of the mesh, however inconsistent the registries, one client call causes at most one
   forward, at most one local run and at most two node visits; a call that already arrives with a hop
   number causes no forward and one visit. So every call ends.
   */
  lemma OneClientCallIsBounded(evs: seq<Event>, o: nat)
    requires o in Exec(evs).arrived
    ensures var m := Exec(evs);
            && m.log[Ran(o)] <= 1
            && (m.arrived[o] == 0 ==> m.log[Sent(o)] <= 1 && m.log[Took(o)] <= 2)
            && (m.arrived[o] >= 1 ==> m.log[Sent(o)] == 0 && m.log[Took(o)] <= 1)
  {
    EveryRunKeepsBudget(evs, o);
  }

  // ---------------------------------------------------------------- what a step does, exactly

  lemma {:induction false} ForwardedIffSends(c: Call, effects: seq<Effect>)
    ensures Forwarded(c, effects) != [] <==> Sends(effects)
    ensures Ran(c.origin) in Entries(c.origin, effects) <==> RunsHereAtAll(effects)
    ensures Sent(c.origin) in Entries(c.origin, effects) <==> Sends(effects)
    ensures forall f :: f in Forwarded(c, effects) ==>
              exists e :: e in effects && e.Send? && f == Call(c.origin, c.server, Some(Decimal(e.forward.hop)),
                  e.forward.payload)
  {
    if effects != [] {
      var rest := effects[1..];
      ForwardedIffSends(c, rest);
      assert forall i :: 0 < i < |effects| ==> effects[i] == rest[i - 1];
      assert Sends(effects) <==> effects[0].Send? || Sends(rest);
      assert RunsHereAtAll(effects) <==> effects[0].RunLocal? || RunsHereAtAll(rest);
      forall f | f in Forwarded(c, effects)
        ensures exists e :: e in effects && e.Send?
                            && f == Call(c.origin, c.server, Some(Decimal(e.forward.hop)), e.forward.payload)
      {
        if f in Forwarded(c, rest) {
          var e :| e in rest && e.Send? && f == Call(c.origin, c.server, Some(Decimal(e.forward.hop)),
              e.forward.payload);
          assert e in effects;
        } else {
          assert effects[0] in effects;
        }
      }
    }
  }

  /** The payload of a forward is that of the call. */
  lemma SentPayload(h: Host, c: Call, sender: Option<string>, hop: nat, e: Effect)
    requires e in Handle(h, c.server, sender, hop, c.payload).effects && e.Send?
    ensures e.forward.hop == 1 && e.forward.payload == c.payload
  {
    HandlingIsSafe(h, c.server, sender, hop, c.payload);
    var effects := Handle(h, c.server, sender, hop, c.payload).effects;
    var i :| 0 <= i < |effects| && effects[i] == e;
    assert IsAction(effects[i]);
  }

  /** The call as it travels on: same client call, server and payload, with hop number 1. */
  function Onward(c: Call): Call { Call(c.origin, c.server, Some(Decimal(1)), c.payload) }

  /**
   Handling a call takes just that call out, puts it back with hop number 1 exactly if the node forwards it, and books
   one visit, a forward exactly if there was one, and a run exactly if there was one.
   */
  lemma HandledMeaning(m: Mesh, at: nat, host: Host, sender: Option<string>)
    requires at < |m.pending|
    ensures var c := m.pending[at];
            var effects := Handle(host, c.server, sender, ReadIncomingHop(c.hopHeader), c.payload).effects;
            var m' := Next(m, Handled(at, host, sender));
            && m'.pending == m.pending[..at] + m.pending[at + 1..] + (if Sends(effects) then [Onward(c)] else [])
            && m'.log == m.log + multiset{Took(c.origin)}
                         + ((if Sends(effects) then multiset{Sent(c.origin)} else multiset{})
                            + (if RunsHereAtAll(effects) then multiset{Ran(c.origin)} else multiset{}))
            && m'.arrived == m.arrived
  {
    var c := m.pending[at];
    var hop := ReadIncomingHop(c.hopHeader);
    var effects := Handle(host, c.server, sender, hop, c.payload).effects;
    HandleIsOneStep(host, c, sender, hop);
    forall e | e in effects && e.Send?
      ensures e.forward.hop == 1 && e.forward.payload == c.payload
    {
      SentPayload(host, c, sender, hop, e);
    }
    StepContents(c, hop, effects);
    BookedIs(m, at, effects, Forwarded(c, effects), Entries(c.origin, effects));
    assert Next(m, Handled(at, host, sender)) == Booked(m, at, effects);
  }

  lemma StepContents(c: Call, hop: nat, effects: seq<Effect>)
    requires OneStep(c, hop, effects)
    requires forall e :: e in effects && e.Send? ==> e.forward.hop == 1 && e.forward.payload == c.payload
    ensures Forwarded(c, effects) == if Sends(effects) then [Onward(c)] else []
    ensures Entries(c.origin, effects)
            == (if Sends(effects) then multiset{Sent(c.origin)} else multiset{})
               + (if RunsHereAtAll(effects) then multiset{Ran(c.origin)} else multiset{})
  {
    ForwardedIffSends(c, effects);
    var more := Forwarded(c, effects);
    if more != [] {
      assert more[0] in more;
      assert more == [more[0]];
    }
  }

  lemma BookedIs(m: Mesh, at: nat, effects: seq<Effect>, more: seq<Call>, entries: multiset<Entry>)
    requires at < |m.pending| && more == Forwarded(m.pending[at], effects)
    requires entries == Entries(m.pending[at].origin, effects)
    ensures Booked(m, at, effects).pending == m.pending[..at] + m.pending[at + 1..] + more
    ensures Booked(m, at, effects).log == m.log + multiset{Took(m.pending[at].origin)} + entries
    ensures Booked(m, at, effects).arrived == m.arrived
  {
  }

  /** A new client call is pending and remembered with the hop number it came with; a lost one is just gone. */
  lemma ArriveAndLost(m: Mesh, c: Call, at: nat)
    ensures c.origin !in m.arrived ==>
              Next(m, Arrive(c)) == Mesh(m.pending + [c], m.log, m.arrived[c.origin := ReadIncomingHop(c.hopHeader)])
    ensures c.origin in m.arrived ==> Next(m, Arrive(c)) == m
    ensures at < |m.pending| ==> Next(m, Lost(at)) == Mesh(m.pending[..at] + m.pending[at + 1..], m.log, m.arrived)
  {
  }
}
