/**
 From a server name to an executable plan: route planning (mcp-routing.ts), forward spec
 (mcp-forward.ts), mTLS dispatch plan (mcp-forward-dispatch.ts) and exec spec (mcp-forward-exec.ts).
 Each stage is a function; the lemmas are about the stages composed.
 */
module McpPipeline {
  import opened Prelude
  import opened Text
  import opened McpRegistry

  datatype Reason = AllOffline | NoProvider | NoSenderIdentity | NoEndpoint | InvalidEndpoint | NotHttps

  datatype Url = Url(protocol: string, origin: string)

  /** What `resolvePeer` answers for an agent id. */
  datatype Lookup = LookupThrows | UnknownPeer | Peer(endpoint: string)

  /** A node's own identity and its view of its peers; URL parsing and escaping come from the platform. */
  datatype Node = Node(
    selfId: string,
    resolvePeer: string -> Lookup,
    requireServerIdentity: bool,
    parseUrl: string -> Option<Url>,
    encodeComponent: string -> string)

  /** The origin of an https URL starts with its scheme (section 6.2 of RFC 6454). */
  ghost predicate PlatformUrls(n: Node) {
    forall s :: n.parseUrl(s).Some? && n.parseUrl(s).value.protocol == "https:"
                ==> StartsWith(n.parseUrl(s).value.origin, "https://")
  }

  // ---------------------------------------------------------------- the stages

  datatype Plan = PlanLocal(server: string, tier: Tier) | PlanRemote(server: string, target: Resolution)
      | PlanNone(server: string, reason: Reason)

  predicate Usable(r: Resolution, server: string) { r.skillId == SkillId(server) && r.health != Offline }

  function PlanMcpRoute(server: string, resolutions: seq<Resolution>, selfId: string): Plan {
    var usable := Filter(resolutions, (r: Resolution) => Usable(r, server));
    match Find(usable, (r: Resolution) => r.agentId == selfId)
    case Some(own) => PlanLocal(server, own.tier)
    case None =>
      if usable == [] then
        PlanNone(server, if Find(resolutions, (r: Resolution) => r.skillId == SkillId(server)).Some?
                         then AllOffline else NoProvider)
      else
        match Find(usable, (r: Resolution) => r.health == Healthy)
        case Some(best) => PlanRemote(server, best)
        case None => PlanRemote(server, usable[0])
  }

  datatype Spec =
    | LocalExec(server: string, tier: Tier)
    | RemoteForward(server: string, target: string, url: string, sender: string, tier: Tier,
      requireServerIdentity: bool, expectedSpiffeId: string)
    | Unavailable(server: string, reason: Reason)
    | SpecThrows

  function BuildMcpForwardSpec(plan: Plan, n: Node): Spec {
    match plan
    case PlanNone(server, reason) => Unavailable(server, reason)
    case PlanLocal(server, tier) => LocalExec(server, tier)
    case PlanRemote(server, target) =>
      if !NonBlank(n.selfId) then Unavailable(server, NoSenderIdentity)
      else
        match n.resolvePeer(target.agentId)
        case LookupThrows => SpecThrows
        case UnknownPeer => Unavailable(server, NoEndpoint)
        case Peer(endpoint) =>
          if !NonBlank(endpoint) then Unavailable(server, NoEndpoint)
          else
            match n.parseUrl(endpoint)
            case None => Unavailable(server, InvalidEndpoint)
            case Some(u) =>
              if u.protocol != "https:" then Unavailable(server, NotHttps)
              else RemoteForward(server, target.agentId, u.origin + "/api/mcp/" + n.encodeComponent(server), n.selfId,
                                 target.tier, n.requireServerIdentity, target.agentId)
  }

  datatype RequestPlan = RequestPlan(
    url: string, target: string, sender: string, tier: Tier, spiffeServerIdentity: bool,
        expectedSpiffeId: Option<string>)

  datatype Dispatch = Remote(request: RequestPlan) | Local(server: string, tier: Tier)
      | NoPath(server: string, reason: Reason) | RoutingThrows

  function BuildMcpForwardDispatch(spec: Spec): Dispatch {
    match spec
    case SpecThrows => RoutingThrows
    case Unavailable(server, reason) => NoPath(server, reason)
    case LocalExec(server, tier) => Local(server, tier)
    case RemoteForward(_, target, url, sender, tier, require, expected) =>
      Remote(RequestPlan(url, target, sender, tier, require, if require then Some(expected) else None))
  }

  datatype ExecSpec =
    | McporterLocal(server: string, tier: Tier, argv: seq<string>, timeoutMs: int)
    | MtlsForward(url: string, target: string, sender: string, tier: Tier, requireServerIdentity: bool,
                  expectedSpiffeId: Option<string>, timeoutMs: int)
    | Reject(status: int)

  function BuildMcpExecSpec(d: Dispatch, authorized: bool, timeoutMs: int): ExecSpec
    requires !d.RoutingThrows?
  {
    if !authorized then Reject(403)
    else
      match d
      case NoPath(_, _) => Reject(503)
      case Local(server, tier) => McporterLocal(server, tier, ["mcporter", "run", server], timeoutMs)
      case Remote(req) =>
        var expectedPresent := req.expectedSpiffeId.Some? && req.expectedSpiffeId.value != "";
        if req.spiffeServerIdentity != expectedPresent then Reject(500)
        else MtlsForward(req.url, req.target, req.sender, req.tier, req.spiffeServerIdentity,
                         if req.spiffeServerIdentity then req.expectedSpiffeId else None, timeoutMs)
  }

  /** The stages composed, as `handleMcpIngress` composes them. */
  function Route(n: Node, server: string, caps: seq<Capability>): Dispatch {
    BuildMcpForwardDispatch(BuildMcpForwardSpec(PlanMcpRoute(server, Resolutions(server, caps), n.selfId), n))
  }

  // ---------------------------------------------------------------- the composition

  /** `cap` is a usable provider of exactly this server, under this agent id and tier. */
  predicate Serves(cap: Capability, server: string, agentId: string, tier: Tier) {
    Provides(cap, server) && cap.agentId == agentId && ProviderTier(cap.permissions, cap.trust) == tier
  }

  /** What the planner decides, in terms of the resolutions it is given. */
  lemma PlanMeaning(server: string, rs: seq<Resolution>, selfId: string)
    ensures var plan := PlanMcpRoute(server, rs, selfId);
            && plan.server == server
            && (plan.PlanLocal? <==> exists r :: r in rs && Usable(r, server) && r.agentId == selfId)
            && (plan.PlanLocal? ==>
                  exists r :: r in rs && Usable(r, server) && r.agentId == selfId && r.tier == plan.tier)
            && (plan.PlanRemote? ==> plan.target in rs && Usable(plan.target, server) && plan.target.agentId != selfId)
            && (plan.PlanRemote? && plan.target.health != Healthy ==>
                  forall r :: r in rs && Usable(r, server) ==> r.health != Healthy)
            && (plan.PlanNone? <==> forall r :: r in rs ==> !Usable(r, server))
            && (plan == PlanNone(server, AllOffline) ==> exists r :: r in rs && r.skillId == SkillId(server))
  {
    var usable := Filter(rs, (r: Resolution) => Usable(r, server));
    if usable != [] {
      assert usable[0] in usable;
    }
  }

  /** Whatever list the planner is given, it plans only with entries for exactly this server that are not offline. */
  lemma PlanUsesOwnServerOnly(server: string, rs: seq<Resolution>, selfId: string)
    ensures var plan := PlanMcpRoute(server, rs, selfId);
            && (plan.PlanRemote? ==>
                  plan.target.skillId == "mcp:" + CanonicalizeServerName(server) && plan.target.health != Offline)
            && (plan.PlanNone? <==>
                  forall r :: r in rs ==> r.skillId != "mcp:" + CanonicalizeServerName(server) || r.health == Offline)
            && (plan == PlanNone(server, AllOffline) <==>
                  && (exists r :: r in rs && r.skillId == "mcp:" + CanonicalizeServerName(server))
                  && forall r :: r in rs && r.skillId == "mcp:" + CanonicalizeServerName(server)
                      ==> r.health == Offline)
  {
    PlanMeaning(server, rs, selfId);
  }

  /** The first element that passes, whether or not the list is filtered first. */
  lemma {:induction false} FirstMatch<T(!new)>(s: seq<T>, p: T -> bool, q: T -> bool) returns (k: nat)
    requires Find(Filter(s, p), q).Some?
    ensures k < |s| && p(s[k]) && q(s[k]) && Find(Filter(s, p), q) == Some(s[k])
    ensures forall j :: 0 <= j < k ==> !(p(s[j]) && q(s[j]))
  {
    if p(s[0]) && q(s[0]) {
      k := 0;
    } else {
      if p(s[0]) {
        assert Filter(s, p) == [s[0]] + Filter(s[1..], p);
        assert Filter(s, p)[1..] == Filter(s[1..], p);
      } else {
        assert Filter(s, p) == Filter(s[1..], p);
      }
      var i := FirstMatch(s[1..], p, q);
      k := i + 1;
      assert forall j :: 0 < j < k ==> s[j] == s[1..][j - 1];
    }
  }

  lemma HeadIsFirstMatch<T>(s: seq<T>)
    requires s != []
    ensures Find(s, (x: T) => true) == Some(s[0])
  {
  }

  /** Among several candidates the choice is the first in registry order: own, else healthy, else any. */
  lemma PlanPicksTheFirst(server: string, rs: seq<Resolution>, selfId: string) returns (k: nat)
    requires !PlanMcpRoute(server, rs, selfId).PlanNone?
    ensures k < |rs| && Usable(rs[k], server)
    ensures var plan := PlanMcpRoute(server, rs, selfId);
            && (plan.PlanLocal? ==>
                  && rs[k].agentId == selfId && plan.tier == rs[k].tier
                  && forall j :: 0 <= j < k && Usable(rs[j], server) ==> rs[j].agentId != selfId)
            && (plan.PlanRemote? ==>
                  && plan.target == rs[k]
                  && forall j :: 0 <= j < k && Usable(rs[j], server)
                      ==> rs[k].health == Healthy && rs[j].health != Healthy)
  {
    var usable := (r: Resolution) => Usable(r, server);
    var own := (r: Resolution) => r.agentId == selfId;
    var healthy := (r: Resolution) => r.health == Healthy;
    if Find(Filter(rs, usable), own).Some? {
      k := FirstMatch(rs, usable, own);
    } else if Find(Filter(rs, usable), healthy).Some? {
      k := FirstMatch(rs, usable, healthy);
    } else {
      HeadIsFirstMatch(Filter(rs, usable));
      k := FirstMatch(rs, usable, (r: Resolution) => true);
    }
  }

  /** What becomes of a plan: a local plan stays local, a remote one is forwarded over https or dropped. */
  lemma DispatchMeaning(plan: Plan, n: Node)
    ensures var d := BuildMcpForwardDispatch(BuildMcpForwardSpec(plan, n));
            && (d.Local? <==> plan.PlanLocal?)
            && (plan.PlanLocal? ==> d == Local(plan.server, plan.tier))
            && (plan.PlanNone? ==> d == NoPath(plan.server, plan.reason))
            && (plan.PlanRemote? && d.NoPath? ==> d.reason != NoProvider && d.reason != AllOffline)
            && (d.Remote? ==>
                  && plan.PlanRemote? && d.request.target == plan.target.agentId && d.request.tier == plan.target.tier
                  && d.request.sender == n.selfId && NonBlank(n.selfId)
                  && d.request.spiffeServerIdentity == n.requireServerIdentity
                  && d.request.expectedSpiffeId == (if n.requireServerIdentity then Some(plan.target.agentId) else None)
                  && n.resolvePeer(plan.target.agentId).Peer?
                  && var u := n.parseUrl(n.resolvePeer(plan.target.agentId).endpoint);
                     u.Some? && u.value.protocol == "https:"
                     && d.request.url == u.value.origin + "/api/mcp/" + n.encodeComponent(plan.server))
  {
  }

  /** Through the whole pipeline, a resolution is a usable one exactly when some provider stands behind it. */
  lemma ResolvedProvider(server: string, caps: seq<Capability>, r: Resolution) returns (cap: Capability)
    requires r in Resolutions(server, caps)
    ensures cap in caps && Provides(cap, server) && r == Resolve(cap)
    ensures Usable(r, server) && Serves(cap, server, r.agentId, r.tier)
  {
    ResolutionsAreProviders(server, caps, r);
    cap :| cap in caps && Provides(cap, server) && r == Resolve(cap);
  }

  lemma ProviderIsUsable(server: string, caps: seq<Capability>, cap: Capability)
    requires cap in caps && Provides(cap, server)
    ensures Resolve(cap) in Resolutions(server, caps) && Usable(Resolve(cap), server)
  {
    ResolutionsAreProviders(server, caps, Resolve(cap));
  }

  /** The call is served locally exactly when this node itself is a provider, and then at such a provider's tier. */
  lemma LocalIffSelfProvides(n: Node, server: string, caps: seq<Capability>)
    ensures Route(n, server, caps).Local?
            <==> exists cap :: cap in caps && Provides(cap, server) && cap.agentId == n.selfId
    ensures Route(n, server, caps).Local? ==>
              && Route(n, server, caps).server == server
              && exists cap :: cap in caps && Serves(cap, server, n.selfId, Route(n, server, caps).tier)
  {
    var rs := Resolutions(server, caps);
    var plan := PlanMcpRoute(server, rs, n.selfId);
    PlanMeaning(server, rs, n.selfId);
    DispatchMeaning(plan, n);
    if plan.PlanLocal? {
      var r :| r in rs && Usable(r, server) && r.agentId == n.selfId && r.tier == plan.tier;
      var cap := ResolvedProvider(server, caps, r);
    }
    if cap :| cap in caps && Provides(cap, server) && cap.agentId == n.selfId {
      ProviderIsUsable(server, caps, cap);
    }
  }

  lemma OriginIsPrefix(origin: string, path: string)
    requires StartsWith(origin, "https://")
    ensures StartsWith(origin + path, "https://")
  {
    assert (origin + path)[..8] == origin[..8];
  }

  /**
   A forward goes to a usable provider of exactly this server that is not this node, over https, with
   the provider's own tier and identity; a degraded provider is chosen only when none is healthy.
   */
  lemma RemoteTargetIsAnotherProvider(n: Node, server: string, caps: seq<Capability>) returns (cap: Capability)
    requires PlatformUrls(n) && Route(n, server, caps).Remote?
    ensures var req := Route(n, server, caps).request;
            && cap in caps && Serves(cap, server, req.target, req.tier)
            && req.target != n.selfId
            && StartsWith(req.url, "https://")
            && req.sender == n.selfId && NonBlank(req.sender)
            && req.expectedSpiffeId == (if n.requireServerIdentity then Some(req.target) else None)
    ensures cap.health != Healthy ==> forall c :: c in caps && Provides(c, server) ==> c.health != Healthy
  {
    var rs := Resolutions(server, caps);
    var plan := PlanMcpRoute(server, rs, n.selfId);
    PlanMeaning(server, rs, n.selfId);
    DispatchMeaning(plan, n);
    cap := ResolvedProvider(server, caps, plan.target);
    var origin := n.parseUrl(n.resolvePeer(plan.target.agentId).endpoint).value.origin;
    ConcatAssociates(origin, "/api/mcp/", n.encodeComponent(server));
    OriginIsPrefix(origin, "/api/mcp/" + n.encodeComponent(server));
    if cap.health != Healthy {
      forall c | c in caps && Provides(c, server)
        ensures c.health != Healthy
      {
        ProviderIsUsable(server, caps, c);
      }
    }
  }

  /** Whoever will run the call, here or there, is registered as a provider of this server at the tier of the plan. */
  lemma RoutedCallHasProvider(n: Node, server: string, caps: seq<Capability>) returns (cap: Capability)
    requires Route(n, server, caps).Local? || Route(n, server, caps).Remote?
    ensures cap in caps
    ensures Route(n, server, caps).Local? ==> Serves(cap, server, n.selfId, Route(n, server, caps).tier)
    ensures Route(n, server, caps).Remote? ==>
              && Serves(cap, server, Route(n, server, caps).request.target, Route(n, server, caps).request.tier)
              && Route(n, server, caps).request.target != n.selfId
  {
    var rs := Resolutions(server, caps);
    var plan := PlanMcpRoute(server, rs, n.selfId);
    PlanMeaning(server, rs, n.selfId);
    DispatchMeaning(plan, n);
    if plan.PlanLocal? {
      var r :| r in rs && Usable(r, server) && r.agentId == n.selfId && r.tier == plan.tier;
      cap := ResolvedProvider(server, caps, r);
    } else {
      cap := ResolvedProvider(server, caps, plan.target);
    }
  }

  /** There is no path for lack of a provider exactly when no one provides; an offline provider is never told apart. */
  lemma NoProviderIff(n: Node, server: string, caps: seq<Capability>)
    ensures Route(n, server, caps) == NoPath(server, NoProvider)
            <==> forall cap :: cap in caps ==> !Provides(cap, server)
    ensures Route(n, server, caps) != NoPath(server, AllOffline)
  {
    var rs := Resolutions(server, caps);
    var plan := PlanMcpRoute(server, rs, n.selfId);
    PlanMeaning(server, rs, n.selfId);
    DispatchMeaning(plan, n);
    if rs == [] {
      forall cap | cap in caps
        ensures !Provides(cap, server)
      {
        if Provides(cap, server) {
          ProviderIsUsable(server, caps, cap);
        }
      }
    } else {
      var cap := ResolvedProvider(server, caps, rs[0]);
    }
  }

  /**
   The executor's pin check never fails on a plan from this pipeline, except for a provider that
   registered the empty agent id while pinning is on; and tier, target, URL and sender reach the
   exec spec unchanged.
   */
  lemma PinViolationIff(n: Node, server: string, caps: seq<Capability>, timeoutMs: int)
    requires Route(n, server, caps).Remote?
    ensures var req := Route(n, server, caps).request;
            var spec := BuildMcpExecSpec(Route(n, server, caps), true, timeoutMs);
            && (spec == Reject(500) <==> n.requireServerIdentity && req.target == "")
            && (spec.Reject? ==> spec == Reject(500))
            && (!spec.Reject? ==>
                  spec == MtlsForward(req.url, req.target, req.sender, req.tier, n.requireServerIdentity,
                                      if n.requireServerIdentity then Some(req.target) else None, timeoutMs))
  {
  }

  // ---------------------------------------------------------------- where a call goes, from the registry alone

  /** The capability at `k` is the one the planner takes for another node: the first healthy provider, else the
      first. */
  predicate Chosen(server: string, caps: seq<Capability>, k: nat) {
    && k < |caps| && Provides(caps[k], server)
    && (if caps[k].health == Healthy
        then forall j :: 0 <= j < k && Provides(caps[j], server) ==> caps[j].health != Healthy
        else (forall j :: 0 <= j < k ==> !Provides(caps[j], server))
             && forall j :: 0 <= j < |caps| && Provides(caps[j], server) ==> caps[j].health != Healthy)
  }

  predicate SelfProvides(n: Node, server: string, caps: seq<Capability>) {
    exists cap :: cap in caps && Provides(cap, server) && cap.agentId == n.selfId
  }

  predicate SomebodyProvides(server: string, caps: seq<Capability>) {
    exists cap :: cap in caps && Provides(cap, server)
  }

  /** The call needs another node, which is the provider at `k`. */
  predicate NeedsPeer(n: Node, server: string, caps: seq<Capability>, k: nat) {
    !SelfProvides(n, server, caps) && Chosen(server, caps, k)
  }

  /** The providers in registry order. */
  function Providers(server: string, caps: seq<Capability>): seq<Capability> {
    if caps == [] then []
    else
      var last := caps[|caps| - 1];
      Providers(server, caps[..|caps| - 1]) + if Provides(last, server) then [last] else []
  }

  lemma {:induction false} ResolutionsMapProviders(server: string, caps: seq<Capability>)
    ensures |Resolutions(server, caps)| == |Providers(server, caps)|
    ensures forall i :: 0 <= i < |Providers(server, caps)| ==>
              Resolutions(server, caps)[i] == Resolve(Providers(server, caps)[i])
  {
    if caps != [] {
      ResolutionsMapProviders(server, caps[..|caps| - 1]);
    }
  }

  /** Each provider of the list has its place in the registry, in the same order. */
  lemma {:induction false} PlaceOf(server: string, caps: seq<Capability>, i: nat) returns (k: nat)
    requires i < |Providers(server, caps)|
    ensures k < |caps| && caps[k] == Providers(server, caps)[i] && Provides(caps[k], server)
    ensures forall j :: 0 <= j < k && Provides(caps[j], server) ==>
              exists m :: 0 <= m < i && Providers(server, caps)[m] == caps[j]
  {
    var front := caps[..|caps| - 1];
    var ps := Providers(server, front);
    if i < |ps| {
      k := PlaceOf(server, front, i);
      forall j | 0 <= j < k && Provides(caps[j], server)
        ensures exists m :: 0 <= m < i && Providers(server, caps)[m] == caps[j]
      {
        assert front[j] == caps[j];
        var m :| 0 <= m < i && ps[m] == front[j];
        assert Providers(server, caps)[m] == caps[j];
      }
    } else {
      k := |caps| - 1;
      forall j | 0 <= j < k && Provides(caps[j], server)
        ensures exists m :: 0 <= m < i && Providers(server, caps)[m] == caps[j]
      {
        ProviderHasIndex(server, front, j);
        assert front[j] == caps[j];
        var m :| 0 <= m < |ps| && ps[m] == front[j];
        assert Providers(server, caps)[m] == caps[j];
      }
    }
  }

  lemma {:induction false} ProviderHasIndex(server: string, caps: seq<Capability>, j: nat)
    requires j < |caps| && Provides(caps[j], server)
    ensures exists m :: 0 <= m < |Providers(server, caps)| && Providers(server, caps)[m] == caps[j]
  {
    var front := caps[..|caps| - 1];
    if j < |caps| - 1 {
      ProviderHasIndex(server, front, j);
      var m :| 0 <= m < |Providers(server, front)| && Providers(server, front)[m] == front[j];
      assert Providers(server, caps)[m] == caps[j];
    } else {
      assert Providers(server, caps)[|Providers(server, front)|] == caps[j];
    }
  }

  lemma ProviderIsResolved(server: string, caps: seq<Capability>, i: nat)
    requires i < |Resolutions(server, caps)|
    ensures i < |Providers(server, caps)| && Resolutions(server, caps)[i] == Resolve(Providers(server, caps)[i])
    ensures Provides(Providers(server, caps)[i], server) && Usable(Resolutions(server, caps)[i], server)
  {
    ResolutionsMapProviders(server, caps);
    var k := PlaceOf(server, caps, i);
  }

  /** The planner's target is the resolution of the chosen provider. */
  lemma TargetIsChosen(n: Node, server: string, caps: seq<Capability>) returns (k: nat)
    requires PlanMcpRoute(server, Resolutions(server, caps), n.selfId).PlanRemote?
    ensures NeedsPeer(n, server, caps, k)
    ensures PlanMcpRoute(server, Resolutions(server, caps), n.selfId).target == Resolve(caps[k])
  {
    var rs := Resolutions(server, caps);
    var plan := PlanMcpRoute(server, rs, n.selfId);
    var i := PlanPicksTheFirst(server, rs, n.selfId);
    PlanMeaning(server, rs, n.selfId);
    ProviderIsResolved(server, caps, i);
    k := PlaceOf(server, caps, i);
    forall cap | cap in caps && Provides(cap, server)
      ensures cap.agentId != n.selfId && (plan.target.health != Healthy ==> cap.health != Healthy)
    {
      ProviderIsUsable(server, caps, cap);
    }
    forall j | 0 <= j < k && Provides(caps[j], server)
      ensures caps[k].health == Healthy && caps[j].health != Healthy
    {
      var m :| 0 <= m < i && Providers(server, caps)[m] == caps[j];
      ProviderIsResolved(server, caps, m);
    }
  }

  lemma ChosenIsUnique(server: string, caps: seq<Capability>, k: nat, k': nat)
    requires Chosen(server, caps, k) && Chosen(server, caps, k')
    ensures k == k'
  {
  }

  lemma PlanFromRegistry(n: Node, server: string, caps: seq<Capability>)
    ensures var plan := PlanMcpRoute(server, Resolutions(server, caps), n.selfId);
            && (plan.PlanLocal? <==> SelfProvides(n, server, caps))
            && (plan.PlanNone? <==> !SomebodyProvides(server, caps))
  {
    var rs := Resolutions(server, caps);
    var plan := PlanMcpRoute(server, rs, n.selfId);
    PlanMeaning(server, rs, n.selfId);
    if cap :| cap in caps && Provides(cap, server) {
      ProviderIsUsable(server, caps, cap);
    }
    if cap :| cap in caps && Provides(cap, server) && cap.agentId == n.selfId {
      ProviderIsUsable(server, caps, cap);
    }
    if r :| r in rs && Usable(r, server) && r.agentId == n.selfId {
      var cap := ResolvedProvider(server, caps, r);
    }
    if r :| r in rs && Usable(r, server) {
      var cap := ResolvedProvider(server, caps, r);
    }
  }

  lemma ChosenIsTarget(n: Node, server: string, caps: seq<Capability>, k: nat)
    requires NeedsPeer(n, server, caps, k)
    ensures var plan := PlanMcpRoute(server, Resolutions(server, caps), n.selfId);
            plan == PlanRemote(server, Resolve(caps[k]))
  {
    PlanFromRegistry(n, server, caps);
    assert caps[k] in caps;
    var rs := Resolutions(server, caps);
    PlanMeaning(server, rs, n.selfId);
    var k' := TargetIsChosen(n, server, caps);
    ChosenIsUnique(server, caps, k, k');
  }

  /** The peer's entry leads to an https endpoint. */
  predicate ReachesByHttps(n: Node, agentId: string) {
    && n.resolvePeer(agentId).Peer? && NonBlank(n.resolvePeer(agentId).endpoint)
    && n.parseUrl(n.resolvePeer(agentId).endpoint).Some?
    && n.parseUrl(n.resolvePeer(agentId).endpoint).value.protocol == "https:"
  }

  /** What a call becomes if it needs the provider at `k`: each answer with its exact cause. */
  lemma PeerRouteIff(n: Node, server: string, caps: seq<Capability>, k: nat)
    requires NeedsPeer(n, server, caps, k)
    ensures var d, peer := Route(n, server, caps), n.resolvePeer(caps[k].agentId);
            && (d.Remote? <==> NonBlank(n.selfId) && ReachesByHttps(n, caps[k].agentId))
            && (d.RoutingThrows? <==> NonBlank(n.selfId) && peer.LookupThrows?)
            && (d == NoPath(server, NoSenderIdentity) <==> !NonBlank(n.selfId))
            && (d == NoPath(server, NoEndpoint) <==>
                  NonBlank(n.selfId) && (peer.UnknownPeer? || (peer.Peer? && !NonBlank(peer.endpoint))))
            && (d == NoPath(server, InvalidEndpoint) <==>
                  NonBlank(n.selfId) && peer.Peer? && NonBlank(peer.endpoint) && n.parseUrl(peer.endpoint).None?)
            && (d == NoPath(server, NotHttps) <==>
                  && NonBlank(n.selfId) && peer.Peer? && NonBlank(peer.endpoint) && n.parseUrl(peer.endpoint).Some?
                  && n.parseUrl(peer.endpoint).value.protocol != "https:")
            && !d.Local?
  {
    ChosenIsTarget(n, server, caps, k);
  }

  /**
   A call is forwarded exactly if this node does not provide the server, somebody does, this node has an identity,
   and the chosen provider's peer entry has an https endpoint.
   */
  lemma RemoteIff(n: Node, server: string, caps: seq<Capability>)
    ensures Route(n, server, caps).Remote?
            <==> && NonBlank(n.selfId)
                 && exists k: nat :: NeedsPeer(n, server, caps, k) && ReachesByHttps(n, caps[k].agentId)
  {
    if Route(n, server, caps).Remote? {
      DispatchMeaning(PlanMcpRoute(server, Resolutions(server, caps), n.selfId), n);
      var k := TargetIsChosen(n, server, caps);
      PeerRouteIff(n, server, caps, k);
    }
    if k: nat :| NeedsPeer(n, server, caps, k) && ReachesByHttps(n, caps[k].agentId) {
      PeerRouteIff(n, server, caps, k);
    }
  }

  /** Whenever somebody else has to serve the call, one provider is chosen. */
  lemma SomebodyIsChosen(n: Node, server: string, caps: seq<Capability>) returns (k: nat)
    requires SomebodyProvides(server, caps) && !SelfProvides(n, server, caps)
    ensures NeedsPeer(n, server, caps, k)
  {
    PlanFromRegistry(n, server, caps);
    k := TargetIsChosen(n, server, caps);
  }

  /** What each dispatch becomes for the executor, and each refusal with its exact cause. */
  lemma ExecSpecMeaning(d: Dispatch, authorized: bool, timeoutMs: int)
    requires !d.RoutingThrows?
    ensures var spec := BuildMcpExecSpec(d, authorized, timeoutMs);
            var pinned := d.Remote? && d.request.expectedSpiffeId.Some? && d.request.expectedSpiffeId.value != "";
            && (spec == Reject(403) <==> !authorized)
            && (spec == Reject(503) <==> authorized && d.NoPath?)
            && (spec == Reject(500) <==> authorized && d.Remote? && d.request.spiffeServerIdentity != pinned)
            && (spec.McporterLocal? <==> authorized && d.Local?)
            && (spec.McporterLocal? ==>
                  spec == McporterLocal(d.server, d.tier, ["mcporter", "run", d.server], timeoutMs))
            && (spec.MtlsForward? ==>
                  && spec.url == d.request.url && spec.target == d.request.target && spec.sender == d.request.sender
                  && spec.tier == d.request.tier && spec.timeoutMs == timeoutMs
                  && spec.requireServerIdentity == d.request.spiffeServerIdentity
                  && spec.expectedSpiffeId == if pinned then d.request.expectedSpiffeId else None)
            && (spec.Reject? ==> spec.status in {403, 500, 503})
  {
  }
}
