/**
 Shared MCP servers as registry capabilities (mcp-service-registry.ts): the lattice of execution
 tiers, the tier of a provider, the tier of a tool call, the reason a call is gated, the drift report
 over tool classes, and the resolution of a server name to its providers.
 */
module McpRegistry {
  import opened Prelude
  import opened Text

  // ---------------------------------------------------------------- tiers

  datatype Tier = Self | Gate | Consensus

  function Rank(t: Tier): nat {
    match t
    case Self => 0
    case Gate => 1
    case Consensus => 2
  }

  predicate AtMost(a: Tier, b: Tier) { Rank(a) <= Rank(b) }

  function MaxTier(a: Tier, b: Tier): Tier { if Rank(a) >= Rank(b) then a else b }

  const CONSENSUS_TOKENS: seq<string> := ["admin", "delete", "destroy", "remove", "reboot", "shutdown", "wipe",
      "factory"]
  const GATE_TOKENS: seq<string> := ["write", "credential", "secret", "control", "set", "configure", "update",
      "create", "send", "actuate", "switch"]
  const SELF_TOKENS: seq<string> := ["read", "query", "list", "get", "view", "convert", "render", "search", "status"]

  /** The tier a permission token forces; an unknown token counts as `gate`. */
  function PermissionTier(token: string): Tier {
    var t := ToLower(token);
    if ContainsAny(t, CONSENSUS_TOKENS) then Consensus
    else if ContainsAny(t, GATE_TOKENS) then Gate
    else if ContainsAny(t, SELF_TOKENS) then Self
    else Gate
  }

  /** A trust level is a number, possibly not a finite one. */
  type Trust = Number

  const LOW_TRUST_GATE_THRESHOLD := 2.0

  function NormalizedTrust(t: Trust): real {
    if t.Finite? then t.value else LOW_TRUST_GATE_THRESHOLD - 1.0
  }

  /** The highest tier that one of the permissions forces. */
  function HighestTier(permissions: seq<string>): Tier {
    if permissions == [] then Self
    else MaxTier(HighestTier(permissions[..|permissions| - 1]), PermissionTier(permissions[|permissions| - 1]))
  }

  function ProviderTier(permissions: seq<string>, trust: Trust): Tier {
    var t := HighestTier(permissions);
    if t == Self && NormalizedTrust(trust) < LOW_TRUST_GATE_THRESHOLD then Gate else t
  }

  method DeriveExecutionTier(permissions: seq<string>, trust: Trust) returns (tier: Tier)
    ensures tier == ProviderTier(permissions, trust)
  {
    tier := Self;
    for i := 0 to |permissions|
      invariant tier == HighestTier(permissions[..i])
    {
      assert permissions[..i + 1][..i] == permissions[..i];
      tier := MaxTier(tier, PermissionTier(permissions[i]));
    }
    assert permissions[..|permissions|] == permissions;
    if tier == Self && NormalizedTrust(trust) < LOW_TRUST_GATE_THRESHOLD {
      tier := Gate;
    }
  }

  /** The highest tier is an upper bound of the permissions' tiers, and one of them reaches it. */
  lemma {:induction false} HighestTierIsMaximum(permissions: seq<string>)
    ensures forall p :: p in permissions ==> AtMost(PermissionTier(p), HighestTier(permissions))
    ensures HighestTier(permissions) == Self
            || exists p :: p in permissions && PermissionTier(p) == HighestTier(permissions)
  {
    if permissions != [] {
      var front := permissions[..|permissions| - 1];
      var last := permissions[|permissions| - 1];
      HighestTierIsMaximum(front);
      assert forall p :: p in permissions <==> p in front || p == last;
    }
  }

  /** How much a provider is trusted; anything that is not a finite number is the lowest trust there is. */
  predicate NoMoreTrusted(a: Trust, b: Trust) { NormalizedTrust(a) <= NormalizedTrust(b) }

  /**
   The provider tier grows with the set of permissions and falls with trust. In particular it does not
   depend on the order or the repetition of permissions: apply this in both directions.
   */
  lemma ProviderTierMonotone(few: seq<string>, high: Trust, many: seq<string>, low: Trust)
    requires forall p :: p in few ==> p in many
    requires NoMoreTrusted(low, high)
    ensures AtMost(ProviderTier(few, high), ProviderTier(many, low))
  {
    HighestTierIsMaximum(few);
    HighestTierIsMaximum(many);
  }

  lemma ProviderTierIgnoresOrder(a: seq<string>, b: seq<string>, trust: Trust)
    requires multiset(a) == multiset(b)
    ensures ProviderTier(a, trust) == ProviderTier(b, trust)
  {
    forall p
      ensures p in a <==> p in b
    {
      assert p in multiset(a) <==> p in multiset(b);
    }
    ProviderTierMonotone(a, trust, b, trust);
    ProviderTierMonotone(b, trust, a, trust);
  }

  // ---------------------------------------------------------------- what a permission text forces

  /** One of the words stands somewhere in the text, in whatever case. */
  ghost predicate Mentions(text: string, words: seq<string>) {
    exists i, k :: 0 <= i < |words| && StandsAt(ToLower(text), words[i], k)
  }

  lemma MentionsIff(text: string, words: seq<string>)
    ensures ContainsAny(ToLower(text), words) <==> Mentions(text, words)
  {
    forall i | 0 <= i < |words|
      ensures Contains(ToLower(text), words[i]) <==> exists k :: StandsAt(ToLower(text), words[i], k)
    {
      ContainsIff(ToLower(text), words[i]);
    }
    if Mentions(text, words) {
      var i, k :| 0 <= i < |words| && StandsAt(ToLower(text), words[i], k);
      assert Contains(ToLower(text), words[i]);
    }
  }

  /**
   A permission text forces `consensus` exactly if it mentions a consensus word, whatever else it mentions, and is
   free exactly if it mentions a reading word and neither a consensus nor a gate word; everything else is gated.
   */
  lemma PermissionTierIff(text: string)
    ensures PermissionTier(text) == Consensus <==> Mentions(text, CONSENSUS_TOKENS)
    ensures PermissionTier(text) == Self
            <==> !Mentions(text, CONSENSUS_TOKENS) && !Mentions(text, GATE_TOKENS) && Mentions(text, SELF_TOKENS)
  {
    MentionsIff(text, CONSENSUS_TOKENS);
    MentionsIff(text, GATE_TOKENS);
    MentionsIff(text, SELF_TOKENS);
  }

  /** A word anywhere in a text, in any case, is mentioned. */
  lemma WordIsMentioned(pre: string, word: string, post: string, words: seq<string>, i: nat)
    requires i < |words| && ToLower(word) == words[i]
    ensures Mentions(pre + word + post, words)
  {
    var t := ToLower(pre + word + post);
    assert t[|pre|..|pre| + |word|] == ToLower(word);
    assert StandsAt(t, words[i], |pre|);
  }

  /** A provider is free exactly if all its permissions are and its trust is a number of at least 2; it needs consensus
      exactly if one of its permissions does. */
  lemma ProviderTierIff(permissions: seq<string>, trust: Trust)
    ensures ProviderTier(permissions, trust) == Self
            <==> (forall p :: p in permissions ==> PermissionTier(p) == Self) && trust.Finite? && trust.value >= 2.0
    ensures ProviderTier(permissions, trust) == Consensus
            <==> exists p :: p in permissions && PermissionTier(p) == Consensus
  {
    HighestTierIsMaximum(permissions);
  }

  // ---------------------------------------------------------------- tools

  const DESTRUCTIVE_VERBS: set<string> := {
    "delete", "destroy", "remove", "wipe", "factory", "reset", "revoke", "purge", "forget",
    "reboot", "shutdown", "drop", "clear", "flush", "erase"}
  const WRITE_VERBS: set<string> := {
    "create", "update", "set", "add", "enable", "disable", "block", "unblock", "authorize",
    "deauthorize", "reauthorize", "restart", "adopt", "provision", "assign", "move", "rename",
    "configure", "send", "actuate", "switch", "apply", "start", "stop", "kick", "ban", "write",
    "edit", "modify", "grant", "deny", "put", "post", "patch", "upsert", "toggle", "trigger",
    "run", "exec", "execute", "invoke"}
  const READ_VERBS: set<string> := {
    "list", "get", "describe", "read", "show", "search", "query", "find", "stat", "stats",
    "count", "fetch", "view", "status", "info", "inspect", "export", "ls"}

  function Verb(name: string): string { LetterPrefix(ToLower(name)) }

  /** The tier of a tool by the leading verb of its name. */
  function VerbTier(name: string): Tier {
    if !NonBlank(name) then Gate
    else if Verb(name) in DESTRUCTIVE_VERBS then Consensus
    else if Verb(name) in WRITE_VERBS then Gate
    else if Verb(name) in READ_VERBS then Self
    else Gate
  }

  predicate IsToolCall(payload: Json) { Property(payload, "method") == Some(JStr("tools/call")) }

  /** `params?.name`, if it is a string. */
  function RawToolName(payload: Json): Option<string> {
    match Property(payload, "params")
    case None => None
    case Some(params) =>
      match Property(params, "name")
      case Some(JStr(s)) => Some(s)
      case _ => None
  }

  function DeriveToolTier(payload: Json): Tier {
    if !IsToolCall(payload) then Self
    else
      match RawToolName(payload)
      case None => Gate
      case Some(name) => VerbTier(name)
  }

  function DeriveToolName(payload: Json): string {
    if !IsToolCall(payload) || RawToolName(payload).None? then "" else Trim(RawToolName(payload).value)
  }

  /** The maintained classes of a governed server's tools; an absent set is the empty set. */
  datatype ToolClasses = ToolClasses(readOnly: set<string>, consensus: set<string>, sensitive: set<string>)

  type ClassTable = map<string, ToolClasses>

  function CanonicalizeServerName(raw: string): string { ToLower(Trim(raw)) }

  predicate Governed(table: ClassTable, server: string) { CanonicalizeServerName(server) in table }

  function DeriveToolTierForServer(table: ClassTable, server: string, payload: Json): Tier {
    if !Governed(table, server) || !IsToolCall(payload) then DeriveToolTier(payload)
    else
      var classes := table[CanonicalizeServerName(server)];
      var name := DeriveToolName(payload);
      if name != "" && name in classes.readOnly then Self
      else if name != "" && name in classes.consensus then Consensus
      else MaxTier(Gate, VerbTier(name))
  }

  datatype GateReason = InvalidCall | DestructiveVerb | WriteVerb | SensitiveGoverned | UnlistedGoverned

  function ClassifyGateReason(table: ClassTable, server: string, payload: Json): Option<GateReason> {
    if DeriveToolTierForServer(table, server, payload) == Self then None
    else
      var name := DeriveToolName(payload);
      if IsToolCall(payload) && name == "" then Some(InvalidCall)
      else if Governed(table, server) && name != "" && name in table[CanonicalizeServerName(server)].sensitive
        then Some(SensitiveGoverned)
      else
        var verbTier := if name == "" then Gate else VerbTier(name);
        match verbTier
        case Consensus => Some(DestructiveVerb)
        case Gate => Some(WriteVerb)
        case Self => Some(UnlistedGoverned)
  }

  /** A call of one named tool. */
  function CallOf(tool: string): Json {
    JObj(map["method" := JStr("tools/call"), "params" := JObj(map["name" := JStr(tool)])])
  }

  lemma CallOfName(tool: string)
    ensures IsToolCall(CallOf(tool)) && RawToolName(CallOf(tool)) == Some(tool)
  {
    assert Property(CallOf(tool), "params") == Some(JObj(map["name" := JStr(tool)]));
  }

  /** On a governed server a call is free of approval exactly when its trimmed name is on the read-only list. */
  lemma GovernedCallIsSelfIff(table: ClassTable, server: string, payload: Json)
    requires Governed(table, server) && IsToolCall(payload)
    ensures DeriveToolTierForServer(table, server, payload) == Self
            <==> && DeriveToolName(payload) != ""
                 && DeriveToolName(payload) in table[CanonicalizeServerName(server)].readOnly
  {
  }

  /** A gate reason is given exactly when the call is gated, whatever the class table. */
  lemma ReasonIffGated(table: ClassTable, server: string, payload: Json)
    ensures ClassifyGateReason(table, server, payload).None?
            <==> DeriveToolTierForServer(table, server, payload) == Self
  {
  }

  /** A name that starts with white space has no leading verb, so by itself it counts as `gate`. */
  lemma PaddedVerb(name: string)
    requires name != "" && IsSpace(name[0])
    ensures VerbTier(name) == Gate
  {
    assert ToLower(name)[0] == name[0];
    assert Verb(name) == "";
  }

  /** White space at the end of a name does not change its verb. */
  lemma TrimmedVerb(name: string)
    requires NonBlank(name) && !IsSpace(name[0])
    ensures VerbTier(Trim(name)) == VerbTier(name)
  {
    var t := Trim(name);
    TrimEndShape(name);
    TrimEndCutsSpace(name);
    assert t == name[..|t|];
    assert ToLower(t) == ToLower(name)[..|t|];
    LetterPrefixCut(ToLower(name), |t|);
    TrimIdempotent(name);
  }

  /**
   On a server without maintained classes, the tier looks at the raw name and the reason at the trimmed
   one. The two tell different stories exactly for a read or a destructive verb behind leading white space: the
   read is reported as unlisted on a governed server, and the destructive verb does not raise the tier.
   */
  lemma PaddedNamesAreMisreported(table: ClassTable, server: string, name: string)
    requires !Governed(table, server) && NonBlank(name)
    ensures var tier := DeriveToolTierForServer(table, server, CallOf(name));
            var reason := ClassifyGateReason(table, server, CallOf(name));
            && (reason == Some(UnlistedGoverned) <==> IsSpace(name[0]) && VerbTier(Trim(name)) == Self)
            && (reason == Some(DestructiveVerb) && tier != Consensus
                <==> IsSpace(name[0]) && VerbTier(Trim(name)) == Consensus)
            && (tier == Consensus ==> reason == Some(DestructiveVerb))
            && reason != Some(InvalidCall) && reason != Some(SensitiveGoverned)
  {
    CallOfName(name);
    if IsSpace(name[0]) {
      PaddedVerb(name);
    } else {
      TrimmedVerb(name);
    }
  }

  /** The leading letters of a name, in lower case: a word that ends with the name or before another character. */
  predicate LeadingWord(name: string, word: string) {
    && (forall i :: 0 <= i < |word| ==> 'a' <= word[i] <= 'z')
    && |word| <= |name| && ToLower(name[..|word|]) == word
    && (|word| < |name| ==> !('a' <= LowerChar(name[|word|]) <= 'z'))
  }

  /** The first `n` characters are letters, and no more. */
  predicate LetterRun(t: string, n: nat) {
    n <= |t| && (forall i :: 0 <= i < n ==> 'a' <= t[i] <= 'z') && (n < |t| ==> !('a' <= t[n] <= 'z'))
  }

  lemma RunIsUnique(t: string, n: nat, m: nat)
    requires LetterRun(t, n) && LetterRun(t, m)
    ensures n == m
  {
  }

  lemma VerbIsLeadingWord(name: string, word: string)
    ensures LeadingWord(name, word) <==> word == Verb(name)
  {
    var t, verb := ToLower(name), Verb(name);
    LetterPrefixMeaning(t);
    assert t[..|verb|] == verb == ToLower(name[..|verb|]);
    assert forall i :: 0 <= i < |verb| ==> t[i] == verb[i];
    if LeadingWord(name, word) {
      assert t[..|word|] == ToLower(name[..|word|]);
      assert forall i :: 0 <= i < |word| ==> t[i] == word[i];
      RunIsUnique(t, |word|, |verb|);
    }
  }

  /** The tier of a tool by its leading word: a destructive one needs consensus, a reading one is free, else gated. */
  lemma VerbTierIff(name: string, word: string)
    requires LeadingWord(name, word)
    ensures VerbTier(name) == Consensus <==> NonBlank(name) && word in DESTRUCTIVE_VERBS
    ensures VerbTier(name) == Self
            <==> NonBlank(name) && word !in DESTRUCTIVE_VERBS && word !in WRITE_VERBS && word in READ_VERBS
  {
    VerbIsLeadingWord(name, word);
  }

  /** Server names are compared without regard to case and white space around them. */
  lemma CanonicalNameMeaning(raw: string)
    ensures CanonicalizeServerName(ToLower(raw)) == CanonicalizeServerName(raw)
    ensures CanonicalizeServerName(Trim(raw)) == CanonicalizeServerName(raw)
    ensures Trim(raw) == raw && ToLower(raw) == raw ==> CanonicalizeServerName(raw) == raw
    ensures CanonicalizeServerName(CanonicalizeServerName(raw)) == CanonicalizeServerName(raw)
  {
    TrimIdempotent(raw);
    LowerCommutesWithTrim(raw);
    LowerCommutesWithTrim(Trim(raw));
    assert ToLower(ToLower(Trim(raw))) == ToLower(Trim(raw));
  }

  lemma {:induction false} LowerCommutesWithTrimStart(s: string)
    ensures TrimStart(ToLower(s)) == ToLower(TrimStart(s))
  {
    if s != "" {
      LowerCommutesWithTrimStart(s[1..]);
      assert ToLower(s)[1..] == ToLower(s[1..]);
    }
  }

  lemma {:induction false} LowerCommutesWithTrimEnd(s: string)
    ensures TrimEnd(ToLower(s)) == ToLower(TrimEnd(s))
  {
    if s != "" {
      LowerCommutesWithTrimEnd(s[..|s| - 1]);
      assert ToLower(s)[..|s| - 1] == ToLower(s[..|s| - 1]);
    }
  }

  lemma LowerCommutesWithTrim(s: string)
    ensures Trim(ToLower(s)) == ToLower(Trim(s))
  {
    LowerCommutesWithTrimStart(s);
    LowerCommutesWithTrimEnd(TrimStart(s));
    assert ToLower(ToLower(s)) == ToLower(s);
  }

  /** The name of a called tool is what the call says, trimmed; anything but a call has none. */
  lemma ToolNameMeaning(payload: Json)
    ensures DeriveToolName(CallOf("x")) == "x"
    ensures forall t :: payload == CallOf(t) ==> DeriveToolName(payload) == Trim(t)
    ensures Property(payload, "method") != Some(JStr("tools/call")) ==> DeriveToolName(payload) == ""
  {
    CallOfName("x");
    assert TrimStart("x") == "x" && TrimEnd("x") == "x";
    forall t | payload == CallOf(t)
      ensures DeriveToolName(payload) == Trim(t)
    {
      CallOfName(t);
    }
  }

  /** The tier of a call on a server with maintained classes, by its trimmed name. */
  lemma GovernedTierIff(table: ClassTable, server: string, t: string)
    requires Governed(table, server)
    ensures var classes, name := table[CanonicalizeServerName(server)], Trim(t);
            var tier := DeriveToolTierForServer(table, server, CallOf(t));
            && (tier == Self <==> name != "" && name in classes.readOnly)
            && (tier == Consensus <==>
                  && name != "" && name !in classes.readOnly
                  && (name in classes.consensus || VerbTier(name) == Consensus))
  {
    CallOfName(t);
    TrimIdempotent(t);
  }

  /** What is no tool call is free, on every server; on a server without classes, a call has the tier of its raw
      name. */
  lemma UngovernedTier(table: ClassTable, server: string, payload: Json, t: string)
    ensures !IsToolCall(payload) ==> DeriveToolTierForServer(table, server, payload) == Self
    ensures !Governed(table, server) ==> DeriveToolTierForServer(table, server, CallOf(t)) == VerbTier(t)
    ensures IsToolCall(payload) && RawToolName(payload).None?
        ==> DeriveToolTierForServer(table, server, payload) == Gate
  {
    CallOfName(t);
  }

  /** Every gate reason of a call on a server with maintained classes, with its exact cause. */
  lemma GateReasonIff(table: ClassTable, server: string, t: string)
    requires Governed(table, server)
    ensures var classes, name := table[CanonicalizeServerName(server)], Trim(t);
            var reason := ClassifyGateReason(table, server, CallOf(t));
            var free := name != "" && name in classes.readOnly;
            var open := name != "" && !free && name !in classes.sensitive;
            && (reason.None? <==> free)
            && (reason == Some(InvalidCall) <==> name == "")
            && (reason == Some(SensitiveGoverned) <==> name != "" && !free && name in classes.sensitive)
            && (reason == Some(DestructiveVerb) <==> open && VerbTier(name) == Consensus)
            && (reason == Some(WriteVerb) <==> open && VerbTier(name) == Gate)
            && (reason == Some(UnlistedGoverned) <==> open && VerbTier(name) == Self)
  {
    CallOfName(t);
    TrimIdempotent(t);
  }

  /** The report lists as stale exactly the read-only and the sensitive tools that are not live. */
  lemma StaleIff(classes: ToolClasses, live: seq<string>, t: string)
    ensures t in ComputeToolClassDrift(classes, live).staleReadOnly <==> t in classes.readOnly && t !in live
    ensures t in ComputeToolClassDrift(classes, live).staleSensitive <==> t in classes.sensitive && t !in live
  {
  }

  predicate Unclassified(classes: ToolClasses, t: string) {
    VerbTier(t) == Self && t !in classes.readOnly && t !in classes.sensitive && t !in classes.consensus
  }

  datatype Drift = Drift(staleReadOnly: set<string>, staleSensitive: set<string>, unclassified: seq<string>)

  function ComputeToolClassDrift(classes: ToolClasses, live: seq<string>): Drift {
    Drift((set t | t in classes.readOnly && t !in live),
          (set t | t in classes.sensitive && t !in live),
          Filter(live, t => Unclassified(classes, t)))
  }

  predicate Unlisted(classes: ToolClasses, t: string) {
    t !in classes.readOnly && t !in classes.sensitive && t !in classes.consensus
  }

  /** By its raw name a tool counts as a read exactly if the trimmed name does and no white space is in front. */
  lemma RawReadIff(t: string)
    ensures VerbTier(t) == Self <==> NonBlank(t) && !IsSpace(t[0]) && VerbTier(Trim(t)) == Self
  {
    if NonBlank(t) {
      if IsSpace(t[0]) {
        PaddedVerb(t);
      } else {
        TrimmedVerb(t);
      }
    }
  }

  /** When a live tool is reported as unclassified: the report looks at the raw name. */
  lemma ReportedIff(classes: ToolClasses, live: seq<string>, t: string)
    requires t in live
    ensures t in ComputeToolClassDrift(classes, live).unclassified
            <==> NonBlank(t) && !IsSpace(t[0]) && VerbTier(Trim(t)) == Self && Unlisted(classes, t)
  {
    RawReadIff(t);
  }

  /** When its call is gated as unlisted: the gate looks at the trimmed name, and not at the consensus list. */
  lemma GatedAsUnlistedIff(table: ClassTable, server: string, t: string)
    requires Governed(table, server)
    ensures var classes := table[CanonicalizeServerName(server)];
            ClassifyGateReason(table, server, CallOf(t)) == Some(UnlistedGoverned)
            <==> && NonBlank(t) && VerbTier(Trim(t)) == Self
                 && Trim(t) !in classes.readOnly && Trim(t) !in classes.sensitive
  {
    CallOfName(t);
    TrimIdempotent(t);
  }

  /**
   The drift report and the gate agree on a live tool (it is reported as unclassified exactly when calling it is
   gated as `unlisted-governed`) if and only if, should it be a read, the report finds no white space in front and
   the raw name on no list exactly when the gate finds the trimmed name neither read-only nor sensitive.
   */
  lemma DriftAgreesWithGateIff(table: ClassTable, server: string, live: seq<string>, t: string)
    requires Governed(table, server) && t in live
    ensures var classes := table[CanonicalizeServerName(server)];
            var name := Trim(t);
            (t in ComputeToolClassDrift(classes, live).unclassified
             <==> ClassifyGateReason(table, server, CallOf(t)) == Some(UnlistedGoverned))
            <==> (NonBlank(t) && VerbTier(name) == Self ==>
                    (!IsSpace(t[0]) && Unlisted(classes, t)
                     <==> name !in classes.readOnly && name !in classes.sensitive))
  {
    ReportedIff(table[CanonicalizeServerName(server)], live, t);
    GatedAsUnlistedIff(table, server, t);
  }

  /** For trimmed names this leaves one case of disagreement: a read that is on the consensus list and on no other. */
  lemma TrimmedNamesAgreeIff(table: ClassTable, server: string, live: seq<string>, t: string)
    requires Governed(table, server) && t in live && t != "" && Trim(t) == t
    ensures var classes := table[CanonicalizeServerName(server)];
            (t in ComputeToolClassDrift(classes, live).unclassified
             <==> ClassifyGateReason(table, server, CallOf(t)) == Some(UnlistedGoverned))
            <==> !(VerbTier(t) == Self && t in classes.consensus && t !in classes.readOnly && t !in classes.sensitive)
  {
    DriftAgreesWithGateIff(table, server, live, t);
    TrimmedStart(t);
  }

  lemma TrimmedStart(t: string)
    requires t != "" && Trim(t) == t
    ensures !IsSpace(t[0])
  {
    TrimStartShape(t);
    TrimEndShape(TrimStart(t));
  }

  lemma VerbGet()
    ensures "get" !in DESTRUCTIVE_VERBS && "get" !in WRITE_VERBS && "get" in READ_VERBS
  {
  }

  lemma GetKeysIsARead()
    ensures Trim("get_keys") == "get_keys" && VerbTier("get_keys") == Self
  {
    var name := "get_keys";
    assert TrimStart(name) == name && TrimEnd(name) == name;
    assert ToLower(name) == name;
    assert name[1..] == "et_keys" && "et_keys"[1..] == "t_keys" && "t_keys"[1..] == "_keys";
    assert LetterPrefix("_keys") == "";
    assert LetterPrefix("t_keys") == "t" + LetterPrefix("_keys") == "t";
    assert LetterPrefix("et_keys") == "e" + LetterPrefix("t_keys") == "et";
    assert LetterPrefix(name) == "g" + LetterPrefix("et_keys") == "get";
    assert Verb(name) == "get";
    VerbGet();
  }

  /** An escalated read tool is gated as if it were unlisted, and not reported. */
  lemma DriftMissesEscalatedReads(table: ClassTable, server: string)
    requires Governed(table, server)
    requires table[CanonicalizeServerName(server)] == ToolClasses({}, {"get_keys"}, {})
    ensures ClassifyGateReason(table, server, CallOf("get_keys")) == Some(UnlistedGoverned)
    ensures "get_keys" !in ComputeToolClassDrift(table[CanonicalizeServerName(server)], ["get_keys"]).unclassified
  {
    GetKeysIsARead();
    CallOfName("get_keys");
  }

  /** The name with a space in front or behind trims to the name. */
  lemma PaddingTrims(name: string)
    requires name != "" && Trim(name) == name
    ensures Trim(" " + name) == name && Trim(name + " ") == name
  {
    TrimmedStart(name);
    var front, back := " " + name, name + " ";
    assert front[1..] == name && IsSpace(front[0]);
    assert TrimStart(name) == name;
    assert TrimStart(back) == back && back[..|back| - 1] == name && IsSpace(back[|back| - 1]);
  }

  /** A live read tool with a space in front that is on no list is gated as unlisted, and not reported. */
  lemma DriftMissesPaddedReads(table: ClassTable, server: string, live: seq<string>, name: string)
    requires Governed(table, server) && name != "" && Trim(name) == name && VerbTier(name) == Self
    requires " " + name in live
    requires name !in table[CanonicalizeServerName(server)].readOnly
    requires name !in table[CanonicalizeServerName(server)].sensitive
    ensures ClassifyGateReason(table, server, CallOf(" " + name)) == Some(UnlistedGoverned)
    ensures " " + name !in ComputeToolClassDrift(table[CanonicalizeServerName(server)], live).unclassified
  {
    PaddingTrims(name);
    ReportedIff(table[CanonicalizeServerName(server)], live, " " + name);
    GatedAsUnlistedIff(table, server, " " + name);
  }

  /** A live read tool with a space behind is reported although its call is free, if its trimmed name is read-only. */
  lemma DriftReportsPaddedReadOnly(table: ClassTable, server: string, live: seq<string>, name: string)
    requires Governed(table, server) && name != "" && Trim(name) == name && VerbTier(name) == Self
    requires name + " " in live && Unlisted(table[CanonicalizeServerName(server)], name + " ")
    requires name in table[CanonicalizeServerName(server)].readOnly
    ensures ClassifyGateReason(table, server, CallOf(name + " ")).None?
    ensures name + " " in ComputeToolClassDrift(table[CanonicalizeServerName(server)], live).unclassified
  {
    PaddingTrims(name);
    TrimmedStart(name);
    ReportedIff(table[CanonicalizeServerName(server)], live, name + " ");
    CallOfName(name + " ");
  }

  // ---------------------------------------------------------------- resolution

  datatype Health = Healthy | Degraded | Offline

  datatype Capability = Capability(
    skillId: string, category: string, agentId: string, health: Health, trust: Trust, permissions: seq<string>)

  datatype Resolution = Resolution(agentId: string, skillId: string, trust: Trust, health: Health, tier: Tier)

  function SkillId(server: string): string { "mcp:" + CanonicalizeServerName(server) }

  /** The capability says that its agent serves this MCP server and is not offline. */
  predicate Provides(cap: Capability, server: string) {
    cap.category == "mcp" && cap.skillId == SkillId(server) && cap.health != Offline
  }

  function Resolve(cap: Capability): Resolution {
    Resolution(cap.agentId, cap.skillId, cap.trust, cap.health, ProviderTier(cap.permissions, cap.trust))
  }

  function Resolutions(server: string, caps: seq<Capability>): seq<Resolution> {
    if caps == [] then []
    else
      var last := caps[|caps| - 1];
      Resolutions(server, caps[..|caps| - 1]) + if Provides(last, server) then [Resolve(last)] else []
  }

  method ResolveMcp(server: string, caps: seq<Capability>) returns (out: seq<Resolution>)
    ensures out == Resolutions(server, caps)
  {
    var target := "mcp:" + CanonicalizeServerName(server);
    out := [];
    for i := 0 to |caps|
      invariant out == Resolutions(server, caps[..i])
    {
      assert caps[..i + 1][..i] == caps[..i];
      var cap := caps[i];
      if cap.category != "mcp" { continue; }
      if cap.skillId != target { continue; }
      if cap.health == Offline { continue; }
      var tier := DeriveExecutionTier(cap.permissions, cap.trust);
      out := out + [Resolution(cap.agentId, cap.skillId, cap.trust, cap.health, tier)];
    }
    assert caps[..|caps|] == caps;
  }

  /** Resolution finds exactly the providers, each with its own derived tier. */
  lemma {:induction false} ResolutionsAreProviders(server: string, caps: seq<Capability>, r: Resolution)
    ensures r in Resolutions(server, caps) <==> exists cap :: cap in caps && Provides(cap, server) && r == Resolve(cap)
  {
    if caps != [] {
      var front := caps[..|caps| - 1];
      var last := caps[|caps| - 1];
      ResolutionsAreProviders(server, front, r);
      assert forall cap :: cap in caps <==> cap in front || cap == last;
    }
  }

  /** The capability serves this MCP server, and is not offline. */
  predicate ServesMcp(cap: Capability, server: string) {
    && cap.category == "mcp" && cap.skillId == "mcp:" + CanonicalizeServerName(server)
    && (cap.health == Healthy || cap.health == Degraded)
  }

  /** Every resolution is that of such a capability, with its data and its own tier, and every such capability has
      one. */
  lemma ResolutionsIff(server: string, caps: seq<Capability>, r: Resolution)
    ensures r in Resolutions(server, caps)
            <==> exists cap :: && cap in caps && ServesMcp(cap, server)
                               && r.agentId == cap.agentId && r.skillId == cap.skillId && r.trust == cap.trust
                               && r.health == cap.health && r.tier == ProviderTier(cap.permissions, cap.trust)
  {
    ResolutionsAreProviders(server, caps, r);
  }
}
