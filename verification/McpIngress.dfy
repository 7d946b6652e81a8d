/**
 The MCP proxy on one node: the ingress decision (mcp-ingress.ts), the executor with its loop guards
 (mcp-forward-executor.ts) and the handler that connects them (mcp-ingress-api.ts). Effects on the
 outside world are collected in the order in which they happen.
 */
module McpIngress {
  import opened Prelude
  import opened Text
  import opened McpRegistry
  import opened McpPipeline
  import opened Meldekanal

  datatype AuditEvent = ProxyRx | ForwardGate | ForwardTx | ExecLocal | ForwardReject

  datatype LocalRequest = LocalRequest(server: string, argv: seq<string>, payload: Json, timeoutMs: int, tier: Tier)

  datatype ForwardRequest = ForwardRequest(
    url: string, hop: nat, sender: string, payload: Json, target: string, requireServerIdentity: bool,
    expectedSpiffeId: Option<string>, timeoutMs: int)

  datatype Effect = Audit(event: AuditEvent, peer: string) | RunLocal(local: LocalRequest)
      | Send(forward: ForwardRequest)

  predicate IsAction(e: Effect) { !e.Audit? }

  // ---------------------------------------------------------------- the executor

  const MAX_MCP_FORWARD_HOPS := 1

  datatype Primitive = Throws | Answers(status: int)

  /** The executor's injected primitives; a missing `localExec` defers local execution. */
  datatype Executor = Executor(
    selfId: string, timeoutMs: int, localExec: Option<LocalRequest -> Primitive>, httpForward: ForwardRequest -> int)

  datatype Context = Context(hop: nat, payload: Json, server: string)

  datatype Run = Run(effects: seq<Effect>, status: int)

  function RejectAfter(effects: seq<Effect>, peer: string, status: int): Run {
    Run(if status >= 500 then effects + [Audit(ForwardReject, peer)] else effects, status)
  }

  function Execute(ex: Executor, d: Dispatch, ctx: Context): Run
    requires !d.NoPath? && !d.RoutingThrows?
  {
    var auditPeer := if d.Remote? then d.request.target else ex.selfId;
    match BuildMcpExecSpec(d, true, ex.timeoutMs)
    case Reject(status) => Run([Audit(ForwardReject, auditPeer)], status)
    case McporterLocal(server, tier, argv, timeoutMs) =>
      (match ex.localExec
       case None => Run([Audit(ForwardReject, auditPeer)], 501)
       case Some(exec) =>
         var req := LocalRequest(server, argv, ctx.payload, timeoutMs, tier);
         var effects := [Audit(ExecLocal, auditPeer), RunLocal(req)];
         match exec(req)
         case Throws => RejectAfter(effects, auditPeer, 502)
         case Answers(status) => RejectAfter(effects, auditPeer, status))
    case MtlsForward(url, target, sender, tier, require, expected, timeoutMs) =>
      if target == ex.selfId then Run([Audit(ForwardReject, target)], 508)
      else if ctx.hop >= MAX_MCP_FORWARD_HOPS then Run([Audit(ForwardReject, target)], 502)
      else
        var req := ForwardRequest(url, ctx.hop + 1, sender, ctx.payload, target, require, expected, timeoutMs);
        RejectAfter([Audit(ForwardTx, target), Send(req)], target, ex.httpForward(req))
  }

  /** The effect at `i` is an action announced by the audit record just before it. */
  predicate Announced(effects: seq<Effect>, i: nat)
    requires i < |effects|
  {
    && i > 0
    && (effects[i].RunLocal? ==> effects[i - 1].Audit? && effects[i - 1].event == ExecLocal)
    && (effects[i].Send? ==> effects[i - 1] == Audit(ForwardTx, effects[i].forward.target))
  }

  /** The forward carries the plan and the payload unchanged, with hop number 1. */
  predicate Relays(f: ForwardRequest, req: RequestPlan, payload: Json) {
    && f.hop == 1 && f.payload == payload
    && f.url == req.url && f.target == req.target && f.sender == req.sender
    && f.requireServerIdentity == req.spiffeServerIdentity
    && (f.requireServerIdentity ==>
          f.expectedSpiffeId == req.expectedSpiffeId && f.expectedSpiffeId.Some? && f.expectedSpiffeId.value != "")
    && (!f.requireServerIdentity ==> f.expectedSpiffeId.None?)
  }

  /** The local run is for the planned server and tier, with the payload unchanged. */
  predicate RunsHere(l: LocalRequest, d: Dispatch, payload: Json) {
    d.Local? && l.server == d.server && l.tier == d.tier && l.payload == payload
        && l.argv == ["mcporter", "run", d.server]
  }

  /**
   One execution acts at most once, and only after its audit record; a forward carries the next hop
   number and the plan unchanged, only leaves for a call that has not been forwarded before, and never
   targets the node itself; and the record ends with a rejection exactly when the status is a server error.
   */
  lemma ExecutionIsGuardedAndAudited(ex: Executor, d: Dispatch, ctx: Context)
    requires !d.NoPath? && !d.RoutingThrows?
    ensures var run := Execute(ex, d, ctx);
            && run.effects != []
            && (forall i: nat, j: nat ::
                  i < |run.effects| && j < |run.effects| && IsAction(run.effects[i]) && IsAction(run.effects[j])
                  ==> i == j)
            && (forall i: nat :: i < |run.effects| && IsAction(run.effects[i]) ==> Announced(run.effects, i))
            && (forall i: nat :: i < |run.effects| && run.effects[i].Send? ==>
                  && ctx.hop == 0 && d.Remote?
                  && d.request.target != ex.selfId
                  && Relays(run.effects[i].forward, d.request, ctx.payload))
            && (forall i: nat :: i < |run.effects| && run.effects[i].RunLocal? ==>
                  RunsHere(run.effects[i].local, d, ctx.payload))
            && (run.status >= 500 <==>
                  run.effects[|run.effects| - 1].Audit? && run.effects[|run.effects| - 1].event == ForwardReject)
  {
    var run := Execute(ex, d, ctx);
    assert |run.effects| <= 3;
  }

  // ---------------------------------------------------------------- the ingress decision

  datatype ApprovalContext = ApprovalContext(server: string, tool: string, tier: Tier, sender: string)

  datatype Answer = ResolverThrows | Decided(decision: Decision)

  /** Everything a node brings to a call. Its registry view may differ from every other node's. */
  datatype Host = Host(
    node: Node,
    caps: seq<Capability>,
    table: ClassTable,
    isAuthorizedSender: string -> bool,
    resolveApproval: Option<ApprovalContext -> Answer>,
    executor: Option<Executor>)

  datatype Verdict = Reply(status: int) | Proceed(dispatch: Dispatch)

  function DispatchTier(d: Dispatch): Tier
    requires d.Local? || d.Remote?
  {
    if d.Local? then d.tier else d.request.tier
  }

  /** The stricter of the provider's and the tool's tier. */
  function EffectiveTier(h: Host, server: string, payload: Json, d: Dispatch): Tier
    requires d.Local? || d.Remote?
  {
    MaxTier(DispatchTier(d), DeriveToolTierForServer(h.table, server, payload))
  }

  function EnforceExecutionTier(tier: Tier): Option<int> {
    match tier
    case Self => None
    case Gate => Some(403)
    case Consensus => Some(403)
  }

  /** What the approval resolver says about a gated call. */
  function AskApproval(h: Host, server: string, payload: Json, sender: string): Answer
    requires h.resolveApproval.Some?
  {
    h.resolveApproval.value(ApprovalContext(server, DeriveToolName(payload), Gate, sender))
  }

  predicate GrantsApproval(a: Answer) { a.Decided? && IsApproved(a.decision) }

  /** The checks of `handleMcpIngress` around the dispatch plan `d`. */
  function Decide(h: Host, server: string, sender: Option<string>, payload: Json, d: Dispatch): Verdict {
    if sender.None? || !NonBlank(sender.value) || !h.isAuthorizedSender(sender.value) then Reply(403)
    else if !NonBlank(server) then Reply(400)
    else if d.RoutingThrows? then Reply(500)
    else if d.NoPath? then Reply(503)
    else
      var tier := EffectiveTier(h, server, payload, d);
      if tier == Gate && h.resolveApproval.Some? then
        if GrantsApproval(AskApproval(h, server, payload, sender.value)) then Proceed(d) else Reply(403)
      else
        match EnforceExecutionTier(tier)
        case Some(status) => Reply(status)
        case None => Proceed(d)
  }

  function HandleMcpIngress(h: Host, server: string, sender: Option<string>, payload: Json): Verdict {
    Decide(h, server, sender, payload, Route(h.node, server, h.caps))
  }

  /** The sender may use the proxy at all. */
  predicate Admitted(h: Host, sender: Option<string>) {
    sender.Some? && NonBlank(sender.value) && h.isAuthorizedSender(sender.value)
  }

  /** A call at this tier may run: freely, or because it was approved. */
  predicate Permitted(h: Host, server: string, payload: Json, sender: string, tier: Tier) {
    || tier == Self
    || (tier == Gate && h.resolveApproval.Some? && GrantsApproval(AskApproval(h, server, payload, sender)))
  }

  lemma DecidesToProceedIff(h: Host, server: string, sender: Option<string>, payload: Json, d: Dispatch, x: Dispatch)
    ensures Decide(h, server, sender, payload, d) == Proceed(x)
            <==> && Admitted(h, sender) && NonBlank(server)
                 && x == d && (d.Local? || d.Remote?)
                 && Permitted(h, server, payload, sender.value, EffectiveTier(h, server, payload, d))
  {
  }

  /**
   The executor is reached exactly when the sender is authorised, the server is named, there is a usable
   path, and the stricter of provider tier and tool tier is `self`, or `gate` with an approval.
   `consensus` never reaches it.
   */
  lemma ProceedsIff(h: Host, server: string, sender: Option<string>, payload: Json, x: Dispatch)
    ensures var d := Route(h.node, server, h.caps);
            HandleMcpIngress(h, server, sender, payload) == Proceed(x)
            <==> && Admitted(h, sender) && NonBlank(server)
                 && x == d && (d.Local? || d.Remote?)
                 && Permitted(h, server, payload, sender.value, EffectiveTier(h, server, payload, d))
  {
    DecidesToProceedIff(h, server, sender, payload, Route(h.node, server, h.caps), x);
  }

  /** What reaches the executor satisfies both tier rules: neither the provider's nor the tool's tier is `consensus`,
      and without an approval both are `self`. */
  lemma ProceedRespectsBothTiers(h: Host, server: string, sender: Option<string>, payload: Json)
    requires HandleMcpIngress(h, server, sender, payload).Proceed?
    ensures var d := HandleMcpIngress(h, server, sender, payload).dispatch;
            var toolTier := DeriveToolTierForServer(h.table, server, payload);
            && (d.Local? || d.Remote?)
            && AtMost(DispatchTier(d), EffectiveTier(h, server, payload, d))
            && AtMost(toolTier, EffectiveTier(h, server, payload, d))
            && DispatchTier(d) != Consensus && toolTier != Consensus
            && (h.resolveApproval.None? ==> DispatchTier(d) == Self && toolTier == Self)
  {
    ProceedsIff(h, server, sender, payload, HandleMcpIngress(h, server, sender, payload).dispatch);
  }

  // ---------------------------------------------------------------- the handler

  /** The call gets as far as the approval resolver. */
  predicate AsksApproval(h: Host, server: string, sender: Option<string>, payload: Json, d: Dispatch) {
    && Admitted(h, sender) && NonBlank(server) && (d.Local? || d.Remote?)
    && EffectiveTier(h, server, payload, d) == Gate && h.resolveApproval.Some?
  }

  /** The decision and, if it is to proceed, the execution. */
  function Process(h: Host, server: string, sender: Option<string>, hop: nat, payload: Json, d: Dispatch): Run {
    match Decide(h, server, sender, payload, d)
    case Reply(status) => Run([], status)
    case Proceed(_) =>
      match h.executor
      case None => Run([], 501)
      case Some(ex) => Execute(ex, d, Context(hop, payload, server))
  }

  /** The approval record, written when the resolver has decided. */
  function GateRecord(h: Host, server: string, sender: Option<string>, payload: Json, d: Dispatch): seq<Effect> {
    if AsksApproval(h, server, sender, payload, d) && AskApproval(h, server, payload, sender.value).Decided?
    then [Audit(ForwardGate, sender.value)] else []
  }

  function ClosingRecord(sender: Option<string>, status: int): seq<Effect> {
    [Audit(if status == 403 || status >= 500 then ForwardReject else ProxyRx,
           if sender.Some? then sender.value else "unknown")]
  }

  function HandlePlanned(h: Host, server: string, sender: Option<string>, hop: nat, payload: Json, d: Dispatch): Run {
    var run := Process(h, server, sender, hop, payload, d);
    Run(GateRecord(h, server, sender, payload, d) + run.effects + ClosingRecord(sender, run.status), run.status)
  }

  /** Handles one call that arrived with hop number `hop`. */
  function Handle(h: Host, server: string, sender: Option<string>, hop: nat, payload: Json): Run {
    HandlePlanned(h, server, sender, hop, payload, Route(h.node, server, h.caps))
  }

  predicate Executors(h: Host) { h.executor.Some? ==> h.executor.value.selfId == h.node.selfId }

  /** `e` is an action that this call may cause, given the dispatch plan `d`. */
  predicate Follows(h: Host, server: string, sender: Option<string>, hop: nat, payload: Json, d: Dispatch, e: Effect) {
    && Admitted(h, sender)
    && (d.Local? || d.Remote?)
    && Permitted(h, server, payload, sender.value, EffectiveTier(h, server, payload, d))
    && (e.Send? ==> d.Remote? && hop == 0 && Relays(e.forward, d.request, payload))
    && (e.RunLocal? ==> RunsHere(e.local, d, payload))
  }

  /** `e` is an action that this call may cause on this node. */
  ghost predicate Legitimate(h: Host, server: string, sender: Option<string>, hop: nat, payload: Json, e: Effect) {
    && Follows(h, server, sender, hop, payload, Route(h.node, server, h.caps), e)
    && (e.Send? ==>
          && e.forward.target != h.node.selfId
          && exists cap :: cap in h.caps && Provides(cap, server) && cap.agentId == e.forward.target)
    && (e.RunLocal? ==> exists cap :: cap in h.caps && Serves(cap, server, h.node.selfId, e.local.tier))
  }

  /** One action at most, announced, at position `i`. */
  ghost predicate OnlyAction(effects: seq<Effect>, i: nat) {
    && i < |effects| && IsAction(effects[i]) && Announced(effects, i)
    && forall j: nat :: j < |effects| && IsAction(effects[j]) ==> j == i
  }

  lemma ProcessIsSafe(h: Host, server: string, sender: Option<string>, hop: nat, payload: Json, d: Dispatch, i: nat)
    requires var run := Process(h, server, sender, hop, payload, d); i < |run.effects| && IsAction(run.effects[i])
    ensures var effects := Process(h, server, sender, hop, payload, d).effects;
            OnlyAction(effects, i) && Follows(h, server, sender, hop, payload, d, effects[i])
  {
    DecidesToProceedIff(h, server, sender, payload, d, d);
    ExecutionIsGuardedAndAudited(h.executor.value, d, Context(hop, payload, server));
  }

  /** Audit records before and after do not add or move actions. */
  lemma ActionsAreInTheMiddle(before: seq<Effect>, mid: seq<Effect>, after: seq<Effect>, i: nat)
    requires forall e :: e in before || e in after ==> e.Audit?
    requires i < |before + mid + after| && IsAction((before + mid + after)[i])
    ensures |before| <= i < |before| + |mid| && (before + mid + after)[i] == mid[i - |before|]
  {
  }

  lemma OnlyActionStays(before: seq<Effect>, mid: seq<Effect>, after: seq<Effect>, k: nat)
    requires forall e :: e in before || e in after ==> e.Audit?
    requires OnlyAction(mid, k)
    ensures OnlyAction(before + mid + after, |before| + k)
  {
    var all := before + mid + after;
    assert all[|before| + k] == mid[k] && all[|before| + k - 1] == mid[k - 1];
    forall j: nat | j < |all| && IsAction(all[j])
      ensures j == |before| + k
    {
      ActionsAreInTheMiddle(before, mid, after, j);
    }
  }

  /**
   Whatever the registry says, one call makes at most one forward or local run, announced in the audit
   log, only for an authorised sender and a permitted tier; it forwards only if it was not forwarded before, only to
   another node that provides the server, and runs locally only if this node provides the server itself.
   */
  lemma HandlingIsSafe(h: Host, server: string, sender: Option<string>, hop: nat, payload: Json)
    ensures var effects := Handle(h, server, sender, hop, payload).effects;
            forall i: nat :: i < |effects| && IsAction(effects[i]) ==>
              OnlyAction(effects, i) && Legitimate(h, server, sender, hop, payload, effects[i])
  {
    var d := Route(h.node, server, h.caps);
    var effects := HandlePlanned(h, server, sender, hop, payload, d).effects;
    forall i: nat | i < |effects| && IsAction(effects[i])
      ensures OnlyAction(effects, i) && Legitimate(h, server, sender, hop, payload, effects[i])
    {
      PlannedHandlingIsSafe(h, server, sender, hop, payload, d, i);
      var cap := RoutedCallHasProvider(h.node, server, h.caps);
    }
  }

  lemma PlannedHandlingIsSafe(h: Host, server: string, sender: Option<string>, hop: nat, payload: Json, d: Dispatch,
      i: nat)
    requires var run := HandlePlanned(h, server, sender, hop, payload, d); i < |run.effects| && IsAction(run.effects[i])
    ensures var effects := HandlePlanned(h, server, sender, hop, payload, d).effects;
            OnlyAction(effects, i) && Follows(h, server, sender, hop, payload, d, effects[i])
  {
    var run := Process(h, server, sender, hop, payload, d);
    var before := GateRecord(h, server, sender, payload, d);
    var after := ClosingRecord(sender, run.status);
    ActionsAreInTheMiddle(before, run.effects, after, i);
    ProcessIsSafe(h, server, sender, hop, payload, d, i - |before|);
    OnlyActionStays(before, run.effects, after, i - |before|);
  }

  /** With the executor's identity being the node's, the self-loop guard never fires on a routed call. */
  lemma SelfLoopGuardIsUnreachable(h: Host, server: string, ctx: Context)
    requires Executors(h) && h.executor.Some? && Route(h.node, server, h.caps).Remote?
    ensures var d := Route(h.node, server, h.caps);
            d.request.target != h.executor.value.selfId
            && (Forwards(h.executor.value, d, ctx)
                <==> ctx.hop == 0 && !(h.node.requireServerIdentity && d.request.target == ""))
  {
    var d := Route(h.node, server, h.caps);
    var cap := RoutedCallHasProvider(h.node, server, h.caps);
    DispatchMeaning(PlanMcpRoute(server, Resolutions(server, h.caps), h.node.selfId), h.node);
    ForwardsIff(h.executor.value, d, ctx);
  }

  /** The execution sends the call on. */
  predicate Forwards(ex: Executor, d: Dispatch, ctx: Context)
    requires !d.NoPath? && !d.RoutingThrows?
  {
    exists i :: 0 <= i < |Execute(ex, d, ctx).effects| && Execute(ex, d, ctx).effects[i].Send?
  }

  /** Exactly which remote plans are sent on: those for another node, on the first hop, with a consistent pin. */
  lemma ForwardsIff(ex: Executor, d: Dispatch, ctx: Context)
    requires d.Remote?
    ensures Forwards(ex, d, ctx)
            <==> && d.request.target != ex.selfId && ctx.hop == 0
                 && d.request.spiffeServerIdentity
                    == (d.request.expectedSpiffeId.Some? && d.request.expectedSpiffeId.value != "")
  {
    var run := Execute(ex, d, ctx);
    if BuildMcpExecSpec(d, true, ex.timeoutMs).MtlsForward? && d.request.target != ex.selfId && ctx.hop == 0 {
      assert run.effects[1].Send?;
    }
  }

  // ---------------------------------------------------------------- what a call gets

  /** The execution runs the call on this node. */
  predicate RunsLocally(ex: Executor, d: Dispatch, ctx: Context)
    requires !d.NoPath? && !d.RoutingThrows?
  {
    exists i :: 0 <= i < |Execute(ex, d, ctx).effects| && Execute(ex, d, ctx).effects[i].RunLocal?
  }

  /** Exactly which plans are run here: the local ones, if there is a primitive for it. */
  lemma RunsLocallyIff(ex: Executor, d: Dispatch, ctx: Context)
    requires !d.NoPath? && !d.RoutingThrows?
    ensures RunsLocally(ex, d, ctx) <==> d.Local? && ex.localExec.Some?
  {
    if d.Local? && ex.localExec.Some? {
      assert Execute(ex, d, ctx).effects[1].RunLocal?;
    }
  }

  /** The local request that a plan stands for. */
  function LocalOf(ex: Executor, server: string, tier: Tier, payload: Json): LocalRequest {
    LocalRequest(server, ["mcporter", "run", server], payload, ex.timeoutMs, tier)
  }

  /** The status of a local plan is that of the primitive; 501 without one, 502 if it throws. */
  lemma LocalStatus(ex: Executor, server: string, tier: Tier, ctx: Context)
    ensures var status := Execute(ex, Local(server, tier), ctx).status;
            match ex.localExec
            case None => status == 501
            case Some(exec) =>
              match exec(LocalOf(ex, server, tier, ctx.payload))
              case Throws => status == 502
              case Answers(s) => status == s
  {
  }

  /** The forward request that a plan stands for, on its first hop. */
  function ForwardOf(ex: Executor, req: RequestPlan, payload: Json): ForwardRequest {
    ForwardRequest(req.url, 1, req.sender, payload, req.target, req.spiffeServerIdentity,
                   if req.spiffeServerIdentity then req.expectedSpiffeId else None, ex.timeoutMs)
  }

  predicate PinConsistent(req: RequestPlan) {
    req.spiffeServerIdentity <==> req.expectedSpiffeId.Some? && req.expectedSpiffeId.value != ""
  }

  /** The status of a remote plan: that of the peer, or the guard that stopped it. */
  lemma RemoteStatus(ex: Executor, req: RequestPlan, ctx: Context)
    ensures var status := Execute(ex, Remote(req), ctx).status;
            && (!PinConsistent(req) ==> status == 500)
            && (PinConsistent(req) && req.target == ex.selfId ==> status == 508)
            && (PinConsistent(req) && req.target != ex.selfId && ctx.hop >= 1 ==> status == 502)
            && (PinConsistent(req) && req.target != ex.selfId && ctx.hop == 0 ==>
                  status == ex.httpForward(ForwardOf(ex, req, ctx.payload)))
  {
  }

  /** A call may run, in terms of the two tiers and the resolver's answer alone. */
  predicate TiersAllow(h: Host, server: string, payload: Json, sender: string, d: Dispatch)
    requires d.Local? || d.Remote?
  {
    var own := if d.Local? then d.tier else d.request.tier;
    var tool := DeriveToolTierForServer(h.table, server, payload);
    || (own == Self && tool == Self)
    || (own != Consensus && tool != Consensus && h.resolveApproval.Some?
        && var answer := h.resolveApproval.value(ApprovalContext(server, DeriveToolName(payload), Gate, sender));
           answer.Decided? && answer.decision.outcome == Approved)
  }

  /** The executor is reached exactly for an authorised sender, a named server, a usable path and tiers that allow
      it. */
  lemma ProceedsIffTiersAllow(h: Host, server: string, sender: Option<string>, payload: Json)
    ensures var d := Route(h.node, server, h.caps);
            HandleMcpIngress(h, server, sender, payload) == Proceed(d)
            <==> && sender.Some? && NonBlank(sender.value) && h.isAuthorizedSender(sender.value) && NonBlank(server)
                 && (d.Local? || d.Remote?) && TiersAllow(h, server, payload, sender.value, d)
  {
    ProceedsIff(h, server, sender, payload, Route(h.node, server, h.caps));
  }

  /** Why a call is answered without being executed: each status with its exact cause. */
  lemma RefusalIff(h: Host, server: string, sender: Option<string>, payload: Json)
    ensures var v := HandleMcpIngress(h, server, sender, payload);
            var d := Route(h.node, server, h.caps);
            var known := sender.Some? && NonBlank(sender.value) && h.isAuthorizedSender(sender.value);
            && (v == Reply(400) <==> known && !NonBlank(server))
            && (v == Reply(500) <==> known && NonBlank(server) && d.RoutingThrows?)
            && (v == Reply(503) <==> known && NonBlank(server) && d.NoPath?)
            && (v == Reply(403) <==>
                  || !known
                  || (NonBlank(server) && (d.Local? || d.Remote?) && !TiersAllow(h, server, payload, sender.value, d)))
            && (v.Proceed? ==> v.dispatch == d)
  {
    ProceedsIffTiersAllow(h, server, sender, payload);
  }

  predicate Sends(effects: seq<Effect>) { exists i :: 0 <= i < |effects| && effects[i].Send? }

  predicate RunsHereAtAll(effects: seq<Effect>) { exists i :: 0 <= i < |effects| && effects[i].RunLocal? }

  lemma MiddleActs(before: seq<Effect>, mid: seq<Effect>, after: seq<Effect>)
    requires forall e :: e in before || e in after ==> e.Audit?
    ensures Sends(before + mid + after) <==> Sends(mid)
    ensures RunsHereAtAll(before + mid + after) <==> RunsHereAtAll(mid)
  {
    var all := before + mid + after;
    assert forall i :: 0 <= i < |mid| ==> all[|before| + i] == mid[i];
    forall i: nat | i < |all| && IsAction(all[i])
      ensures |before| <= i < |before| + |mid| && all[i] == mid[i - |before|]
    {
      ActionsAreInTheMiddle(before, mid, after, i);
    }
  }

  /** The whole handler acts exactly if the call proceeds and the executor acts. */
  lemma HandlerActsIff(h: Host, server: string, sender: Option<string>, hop: nat, payload: Json)
    ensures var effects := Handle(h, server, sender, hop, payload).effects;
            var d := Route(h.node, server, h.caps);
            var goes := HandleMcpIngress(h, server, sender, payload).Proceed? && h.executor.Some?;
            && (RunsHereAtAll(effects) <==> goes && d.Local? && h.executor.value.localExec.Some?)
            && (Sends(effects) <==> goes && d.Remote? && PinConsistent(d.request)
                                    && d.request.target != h.executor.value.selfId && hop == 0)
  {
    var d := Route(h.node, server, h.caps);
    PlannedHandlerActsIff(h, server, sender, hop, payload, d);
  }

  lemma PlannedHandlerActsIff(h: Host, server: string, sender: Option<string>, hop: nat, payload: Json, d: Dispatch)
    ensures var effects := HandlePlanned(h, server, sender, hop, payload, d).effects;
            var goes := Decide(h, server, sender, payload, d).Proceed? && h.executor.Some?;
            && (RunsHereAtAll(effects) <==> goes && d.Local? && h.executor.value.localExec.Some?)
            && (Sends(effects) <==> goes && d.Remote? && PinConsistent(d.request)
                                    && d.request.target != h.executor.value.selfId && hop == 0)
  {
    var run := Process(h, server, sender, hop, payload, d);
    MiddleActs(GateRecord(h, server, sender, payload, d), run.effects, ClosingRecord(sender, run.status));
    DecidesToProceedIff(h, server, sender, payload, d, d);
    if Decide(h, server, sender, payload, d).Proceed? && h.executor.Some? {
      ExecutorActs(h.executor.value, d, Context(hop, payload, server));
    }
  }

  lemma ExecutorActs(ex: Executor, d: Dispatch, ctx: Context)
    requires d.Local? || d.Remote?
    ensures var effects := Execute(ex, d, ctx).effects;
            && (RunsHereAtAll(effects) <==> d.Local? && ex.localExec.Some?)
            && (Sends(effects)
                <==> d.Remote? && PinConsistent(d.request) && d.request.target != ex.selfId && ctx.hop == 0)
  {
    RunsLocallyIff(ex, d, ctx);
    if d.Remote? {
      ForwardsIff(ex, d, ctx);
    }
  }

  /** The status of the reply is that of the executor, 501 without one, or the refusal's. */
  lemma HandlerStatus(h: Host, server: string, sender: Option<string>, hop: nat, payload: Json)
    ensures var v := HandleMcpIngress(h, server, sender, payload);
            Handle(h, server, sender, hop, payload).status
            == match v
               case Reply(s) => s
               case Proceed(d) =>
                 if h.executor.None? then 501 else Execute(h.executor.value, d, Context(hop, payload, server)).status
  {
    DecidesToProceedIff(h, server, sender, payload, Route(h.node, server, h.caps), Route(h.node, server, h.caps));
  }

  /** The records of an execution name the peer of a remote plan, and this node otherwise. */
  lemma ExecutionRecordsPeer(ex: Executor, d: Dispatch, ctx: Context, i: nat)
    requires !d.NoPath? && !d.RoutingThrows?
    requires i < |Execute(ex, d, ctx).effects| && Execute(ex, d, ctx).effects[i].Audit?
    ensures var e := Execute(ex, d, ctx).effects[i];
            && e.peer == (if d.Remote? then d.request.target else ex.selfId)
            && e.event in {ForwardTx, ExecLocal, ForwardReject}
  {
  }

  /** The call is gated and gets an answer: one tier is `gate`, none `consensus`, and the resolver does not throw. */
  predicate ApprovalDecided(h: Host, server: string, sender: Option<string>, payload: Json) {
    var d := Route(h.node, server, h.caps);
    var tool := DeriveToolTierForServer(h.table, server, payload);
    && sender.Some? && NonBlank(sender.value) && h.isAuthorizedSender(sender.value) && NonBlank(server)
    && (d.Local? || d.Remote?)
    && var own := if d.Local? then d.tier else d.request.tier;
       && own != Consensus && tool != Consensus && (own == Gate || tool == Gate)
       && h.resolveApproval.Some?
       && h.resolveApproval.value(ApprovalContext(server, DeriveToolName(payload), Gate, sender.value)).Decided?
  }

  lemma GateRecordIff(h: Host, server: string, sender: Option<string>, payload: Json)
    ensures GateRecord(h, server, sender, payload, Route(h.node, server, h.caps))
            == if ApprovalDecided(h, server, sender, payload) then [Audit(ForwardGate, sender.value)] else []
  {
  }

  /**
   The audit of a call: it begins with the record of an approval exactly if one was decided, and closes with exactly
   one record for the sender, a rejection exactly for status 403 or a server error. Nothing in between is either.
   */
  lemma HandlerAudit(h: Host, server: string, sender: Option<string>, hop: nat, payload: Json)
    ensures var run := Handle(h, server, sender, hop, payload);
            var n := |run.effects|;
            var rejected := run.status == 403 || run.status >= 500;
            && n >= 1
            && run.effects[n - 1] == Audit(if rejected then ForwardReject else ProxyRx,
                                           if sender.Some? then sender.value else "unknown")
            && (run.effects[0].Audit? && run.effects[0].event == ForwardGate
                <==> ApprovalDecided(h, server, sender, payload))
            && (ApprovalDecided(h, server, sender, payload) ==> run.effects[0].peer == sender.value)
            && forall i :: 0 < i < n - 1 && run.effects[i].Audit? ==> run.effects[i].event !in {ForwardGate, ProxyRx}
  {
    var d := Route(h.node, server, h.caps);
    GateRecordIff(h, server, sender, payload);
    PlannedRecords(h, server, sender, hop, payload, d);
  }

  /** The records of the execution stand between the approval's and the closing one. */
  lemma PlannedRecords(h: Host, server: string, sender: Option<string>, hop: nat, payload: Json, d: Dispatch)
    ensures var run := Process(h, server, sender, hop, payload, d);
            forall i :: 0 <= i < |run.effects| && run.effects[i].Audit? ==>
              run.effects[i].event in {ForwardTx, ExecLocal, ForwardReject}
  {
    DecidesToProceedIff(h, server, sender, payload, d, d);
    var run := Process(h, server, sender, hop, payload, d);
    if Decide(h, server, sender, payload, d).Proceed? && h.executor.Some? {
      forall i | 0 <= i < |run.effects| && run.effects[i].Audit?
        ensures run.effects[i].event in {ForwardTx, ExecLocal, ForwardReject}
      {
        ExecutionRecordsPeer(h.executor.value, d, Context(hop, payload, server), i);
      }
    }
  }
}
