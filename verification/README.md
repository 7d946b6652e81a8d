# Proofs about the thinklocal-mcp daemon

A Dafny 4.11 model of the parts of the mesh daemon that hold protocols, state machines and encoders, with
proofs of what they guarantee in every run and for every input. `dafny verify dfyconfig.toml` checks all of it.

| module | source (under packages/daemon/src) | main result |
|---|---|---|
| FirstCreate, FirstCreateResults | libp2p-identity.ts | any number of racing, crashing starts agree on one node key, and exactly what endangers it |
| CertPop, CertIssuer | cert-pop.ts, cert-request.ts, cert-issuer.ts | the signed scope is uniquely decodable; every certificate uses up its own nonce and was approved by the key holder |
| McpRegistry, McpPipeline, McpIngress, McpMesh | mcp-*.ts | what reaches the executor, and that a client call causes at most one forward and one execution in a mesh with inconsistent registries |
| Meldekanal, ApprovalMatrix | meldekanal.ts, freigabe-matrix.ts, approval-router.ts | lookups do not depend on the order of entries, and only the resolved channel is asked |
| AuditLog | audit.ts | one hash chain in every run; the last hash commits to the whole log |
| CapabilitySkeleton | capability-skeleton.ts | exactly when the overview does not depend on the input order |
| InboxPoller | inbox-poller.ts | no overlapping cycles, progress, capped backoff, no lost message |
| ReplayGuard | replay.ts | exactly when cleanup cannot be observed |
| LaunchdPlist | launchd-plist.ts | five replace passes are one substitution; no value changes the markup |
| CidrPolicy | discovery-policy.ts, config.ts, boot-relearn.ts | the mask test is prefix equality for all prefix lengths; exactly which hosts may be contacted |
| AgentRegistry | agent-registry.ts | events reproduce the live set; who is evicted and who never is |
| CircuitBreaker | circuit-breaker.ts | when a circuit opens and when it admits again |

Prelude and Text hold shared types and string functions.

## How the model is built

Objects with fields that their methods update are classes (`NonceStore`, `AuditLog`, `AdaptiveInboxPoller`,
`ReplayGuard`, `AgentRegistry`, `CircuitBreaker`); each method is proved to do what a function on the old state
says, and the lemmas about runs are about that function. Loops are methods with invariants. Branching
expressions are functions. Concurrent code is a step machine: one step per file-system call, per timer firing,
per message handled.

Clock readings, random values, the answers of the network, of the file system and of injected callbacks are
parameters, and every statement holds for all of them. Clocks are assumed not to run backwards where a
predicate `Timely` says so. Hashing, signing and key derivation are uninterpreted; what is assumed of them
(no collision among the texts at hand, signatures verify only what was signed) stands in the `requires` of the
lemma that needs it.

## Where code and documentation differ

- `circuit-breaker.ts` announces one probe in the half-open state (lines 11 and 16); the code admits every
  question asked there (`CircuitBreaker.HalfOpenAdmitsEveryQuestion`). A run has one probe at a time exactly if
  nobody asks while the circuit is half-open (`CircuitBreaker.OneProbeIff`).
- `replay.ts` says nothing about the time to live its two-minute cleanup can serve. Cleanup is unobservable
  exactly up to 120001 ms (`ReplayGuard.ExactBound`); longer times to live are cut short.
- `mcp-routing.ts` has a reason of its own for providers that are all offline; through the pipeline that reason is
  never given, because resolution has dropped those providers before (`McpPipeline.NoProviderIff`).
- The duplicate test of `freigabe-matrix.ts` compares joined strings. It refuses only duplicates exactly if no known
  server's name is another one's name followed by `|` and more (`ApprovalMatrix.RefusesOnlyDuplicatesIff`); for
  two such servers `ApprovalMatrix.RefusedThoughDifferent` gives the refused input.
- `capability-skeleton.ts` promises the same overview on every host. That holds exactly when, for each skill, all
  providers of the best health and the smallest agent id show the same text
  (`CapabilitySkeleton.OrderIndependentIff`); unique (skill, agent) pairs are enough.
- `mcp-service-registry.ts` trims a tool name before it looks at its verb only on servers with maintained classes
  and in the gate reason. Elsewhere a name that starts with white space is gated whatever its verb, so that
  a destructive verb does not raise the tier to `consensus` and a read is reported as unlisted on a governed
  server; no other name is misreported (`McpRegistry.PaddedNamesAreMisreported`).
- The drift report of `mcp-service-registry.ts` looks at raw tool names and at the consensus list, the gate reason
  at trimmed names and not at that list. `McpRegistry.DriftAgreesWithGateIff` says for every live tool exactly when
  "reported as unclassified" and "gated as unlisted" agree. With the table that ships (lines 193-195, no consensus
  list) they disagree on padded names only: a read with a space in front is gated and not reported
  (`McpRegistry.DriftMissesPaddedReads`), a read-only tool with a space behind is reported and free
  (`McpRegistry.DriftReportsPaddedReadOnly`). On trimmed names the one exception is a read on a consensus list
  (`McpRegistry.TrimmedNamesAgreeIff`, `McpRegistry.DriftMissesEscalatedReads`).
- The private-range test of `boot-relearn.ts` reads text. On four groups of digits it disagrees with RFC 1918 in
  exactly two cases (`CidrPolicy.AgreesWithRfc1918Iff`): a private address with a superfluous zero in the first
  group, or in the second one where the test reads it, is refused; a text that begins like a private address is
  allowed although a later group exceeds 255. On IPv6 addresses it is exact (`CidrPolicy.Ipv6AllowedIff`). The
  comment there promises to refuse host names; without a policy a text that is no IP address is let through exactly
  if it consists of four groups of digits or contains a colon, and begins like a private IPv4 address or with a group
  from fc00 to fdff and a colon (`CidrPolicy.NonLiteralAllowedIff`, `CidrPolicy.HostNameIsAllowed`,
  `CidrPolicy.UlaNameIsAllowed`). With a policy only IPv4 addresses in its blocks are
  (`CidrPolicy.PolicyAllowsIff`); the unspecified address, which the comment there forbids always, is allowed in an
  unusual spelling such as `00.0.0.0` exactly if a block contains it (`CidrPolicy.UnspecifiedAllowedIff`).
- A poll loop has at most one timer or cycle at work exactly in the runs in which no start finds a cycle of an
  earlier start in flight (`InboxPoller.SingleThreadIff`), and at most one pending timer exactly in those in which no
  cycle completes over a pending timer (`InboxPoller.OneTimerIff`). Non-overlap and progress hold in all runs.
- `libp2p-identity.ts` promises one key for all calls. Its `existsSync` answers "no" on an error as well; if that
  happens in the re-check under the lock, the key file can be overwritten, and only then
  (`FirstCreate.KeyIsSafeIff`, `FirstCreate.TwoKeysWithABlindRecheck`).
- `launchd-plist.ts` validates a context and then refuses it if a value that the template uses contains `{{...}}` or
  `__NAME__` itself (`LaunchdPlist.UncleanValueIsRefused`, `LaunchdPlist.UnderscoresAreUnclean`).
- `agent-registry.ts` calls `maxEntries` a hard cap and accepts fractions for it. The cap holds exactly for whole
  numbers (`AgentRegistry.CapacityHoldsIff`).

## Model

| member | source | states |
|---|---|---|
| FirstCreate.EveryRunIsOrderly | packages/daemon/src/libp2p-identity.ts:154-216 | in every interleaving of any number of calls, with crashes and failures of every file operation: one lock holder, temp files as far as written, a key seen once never vanishes |
| FirstCreate.ExecKeepsInv | packages/daemon/src/libp2p-identity.ts:154-216 | in every such run without a blind re-check (one that answers "no" with the key present): one generator, and every call's phase agrees with the key on disk |
| FirstCreate.AtMostOneLockHolder | packages/daemon/src/libp2p-identity.ts:154-177 | no two calls are between creating and removing the lock file |
| FirstCreate.KeyFileIsWrittenOnce | packages/daemon/src/libp2p-identity.ts:202-211 | without a blind re-check: once there is a key file, no later step of the run removes or changes it |
| FirstCreate.KeyIsSafeIff | packages/daemon/src/libp2p-identity.ts:202-211 | after any run without a blind re-check, the next event endangers the key file exactly if it is one |
| FirstCreate.BlindRecheckBreaksAgreement | packages/daemon/src/libp2p-identity.ts:202-211 | if a call has returned and another's re-check is blind, the two can end up with different keys |
| FirstCreate.TwoKeysWithABlindRecheck | packages/daemon/src/libp2p-identity.ts:186-216 | a run on an empty directory in which two calls both generate a key and return different ones |
| FirstCreate.KeyFileIsNeverHalfWritten | packages/daemon/src/libp2p-identity.ts:54-73 | at every moment the key file, if these calls created it, is the complete serialisation of one key |
| FirstCreate.AgreementInEveryRun | packages/daemon/src/libp2p-identity.ts:186-216 | without a blind re-check: any two calls that return, at any two moments of a run, return the same key |
| FirstCreate.AtMostOneGeneratedKey | packages/daemon/src/libp2p-identity.ts:202-211 | without a blind re-check: at most one call of a run reports a newly generated key, and none if a key was there before |
| FirstCreate.NoCallSeesABrokenKey | packages/daemon/src/libp2p-identity.ts:114-145 | starting without a key, no call ever finds it missing when reading, corrupt or of a wrong type |
| FirstCreate.NothingIsLeftBehind | packages/daemon/src/libp2p-identity.ts:202-216 | in runs without crashes, failed removals and failed writes, the lock file exists exactly while a call holds it, and temp files only while a call works on them |
| FirstCreate.GivesUpOnlyWithoutKey | packages/daemon/src/libp2p-identity.ts:165-172 | a call times out only after the whole wait and only if it sees no key file at that moment |
| FirstCreate.EveryCallEnds | packages/daemon/src/libp2p-identity.ts:154-177 | every call takes a bounded number of own steps, whatever the others do |
| FirstCreate.AcquireKeyCreateLock | packages/daemon/src/libp2p-identity.ts:154-177 | the lock wait stops at the first attempt that is not blocked (lock created, key seen, or another error, which is rethrown), gives up exactly after 301 blocked attempts, and waits at most 30 s |
| FirstCreate.WriteAll | packages/daemon/src/libp2p-identity.ts:59-63 | however the writes are split, the file ends up with exactly the data |
| FirstCreateResults.ExistingKeyIsReturned | packages/daemon/src/libp2p-identity.ts:186-196 | on a directory with a key and without a blind re-check, every finished call none of whose own operations failed has returned that key, as not new |
| FirstCreateResults.FirstStartGenerates | packages/daemon/src/libp2p-identity.ts:197-211 | alone on a directory without key and lock, such a call generates the key, stores it and frees the lock |
| FirstCreateResults.UndisturbedOutcome | packages/daemon/src/libp2p-identity.ts:114-145 | from any start such a call returns the key on disk, reports the file as corrupt or of another type when it is, or has waited in vain |
| FirstCreateResults.FailureHasACause | packages/daemon/src/libp2p-identity.ts:54-86 | a call ends with an operation failure only if one of its own steps failed or crashed |
| FirstCreateResults.FailureIsReported | packages/daemon/src/libp2p-identity.ts:54-86 | a call of which a critical operation failed never returns a key: it ends with that failure |
| FirstCreateResults.FaultChangesNoFile | packages/daemon/src/libp2p-identity.ts:54-86 | a failing step and a crash leave the directory as it is |
| FirstCreateResults.PartialWrite | packages/daemon/src/libp2p-identity.ts:59-63 | a write may take any part of what is left, and puts just that part behind what was written |
| FirstCreateResults.TimeoutMetTheLock | packages/daemon/src/libp2p-identity.ts:154-177 | a call that gives up has found the lock taken 301 times |
| CertPop.PushField | packages/daemon/src/cert-pop.ts:59-64 | adding a field extends the message by its length prefix and its bytes |
| CertPop.Concatenate | packages/daemon/src/cert-pop.ts:73-80 | the copy loop fills the buffer exactly with the parts in order |
| CertPop.BuildCertPopMessage | packages/daemon/src/cert-pop.ts:56-81 | the buffer is the encoding of the domain separator and the five fields in their order |
| CertPop.MessageLayout | packages/daemon/src/cert-pop.ts:56-81 | the order of the fields, each behind its length |
| CertPop.LengthBytes | packages/daemon/src/cert-pop.ts:59-64 | a length is four bytes, the most significant one first |
| CertPop.DecodeEncode | packages/daemon/src/cert-pop.ts:51-81 | a decoder recovers every field list whose fields are shorter than 2^32 bytes |
| CertPop.EncodeDecode | packages/daemon/src/cert-pop.ts:51-81 | everything the decoder accepts is the encoding of its result |
| CertPop.MessageInjective | packages/daemon/src/cert-pop.ts:51-81 | equal messages have equal fields |
| CertPop.AcceptedMeansApproved | packages/daemon/src/cert-pop.ts:114-150 | with unforgeable signatures, an accepted proof is for a scope the key holder approved, for its own PeerID and exactly its node URI |
| CertPop.AcceptedIff | packages/daemon/src/cert-pop.ts:114-150 | a proof is accepted exactly for an Ed25519 key, its PeerID and node URI, a fingerprint equal up to case and colons, and a good signature over the message |
| CertPop.RefusedIff | packages/daemon/src/cert-pop.ts:114-150 | every refusal with its exact cause |
| CertPop.FingerprintsCompareByDigits | packages/daemon/src/cert-pop.ts:83-86 | fingerprints compare equal exactly if they differ in the case of letters and in colons only |
| CertIssuer.NonceStore.Gc | packages/daemon/src/cert-issuer.ts:75-80 | drops exactly the expired nonces |
| CertIssuer.NonceStore.Issue | packages/daemon/src/cert-issuer.ts:52-60 | collects, then refuses at capacity or stores the nonce with its expiry |
| CertIssuer.NonceStore.Consume | packages/daemon/src/cert-issuer.ts:67-72 | removes the nonce in any case and says whether it was in time |
| CertIssuer.SignRequest | packages/daemon/src/cert-issuer.ts:260-310 | every attempt uses up its nonce; the result is that of the chain of checks |
| CertIssuer.ConsumeMatchesHistory | packages/daemon/src/cert-issuer.ts:62-80 | a nonce is accepted exactly when it was handed out, never tried since and is within its time to live, so collection is unobservable |
| CertIssuer.IssuesIffRoom | packages/daemon/src/cert-issuer.ts:52-60 | a nonce is handed out exactly when fewer nonces than the capacity are waiting: handed out earlier, not tried since, not expired; from the history alone |
| CertIssuer.ConsumesIff | packages/daemon/src/cert-issuer.ts:62-80 | acceptance likewise from the history alone, without the store |
| CertIssuer.ConsumedAtMostOnce | packages/daemon/src/cert-issuer.ts:62-72 | no nonce is consumed successfully twice in a run |
| CertIssuer.CapacityHolds | packages/daemon/src/cert-issuer.ts:52-60 | the store never exceeds its capacity |
| CertIssuer.CertificatesInjectIntoNonces | packages/daemon/src/cert-issuer.ts:260-310 | each certificate has its own nonce, handed out before and used in time, and names node/<PeerID> of the presented key and the key of the CSR |
| CertIssuer.CertificateNeedsApproval | packages/daemon/src/cert-issuer.ts:278-310 | a certificate is issued only for a CA, nonce, PeerID and key hash that the holder of that PeerID's key signed |
| CertIssuer.HonestRequestVerifiesIff | packages/daemon/src/cert-request.ts:49-73 | an honest client's proof is accepted exactly when it used the issuer's own fingerprint, byte for byte, and the hash of the CSR key |
| CertIssuer.HonestExchangeSucceeds | packages/daemon/src/cert-issuer.ts:260-310 | nonce, request and certificate fit together: an honest exchange in time ends with the certificate |
| CertIssuer.IssuedIff | packages/daemon/src/cert-issuer.ts:265-310 | after a good nonce the certificate is issued exactly under the listed conditions on request, key, signature and signing |
| CertIssuer.HonestRunSucceeds | packages/daemon/src/cert-issuer.ts:260-310 | in every run an honest client that uses its nonce once and in time gets its certificate |
| CertIssuer.NonceRefusedIff | packages/daemon/src/cert-issuer.ts:260-264 | the nonce is named as the reason exactly if it was not accepted |
| McpRegistry.DeriveExecutionTier | packages/daemon/src/mcp-service-registry.ts:74-87 | the loop computes the provider tier |
| McpRegistry.HighestTierIsMaximum | packages/daemon/src/mcp-service-registry.ts:43-56 | the permission tier is the least upper bound of the tokens' tiers |
| McpRegistry.ProviderTierMonotone | packages/daemon/src/mcp-service-registry.ts:65-87 | the provider tier grows with the set of permissions and falls with trust |
| McpRegistry.ProviderTierIgnoresOrder | packages/daemon/src/mcp-service-registry.ts:65-87 | the order of permissions does not matter |
| McpRegistry.PermissionTierIff | packages/daemon/src/mcp-service-registry.ts:39-49 | a permission text forces consensus exactly if it mentions a consensus word anywhere, and is free exactly if it mentions a reading word and no other |
| McpRegistry.WordIsMentioned | packages/daemon/src/mcp-service-registry.ts:43-49 | a word anywhere in a text, in any case, is mentioned |
| McpRegistry.ProviderTierIff | packages/daemon/src/mcp-service-registry.ts:74-87 | a provider is free exactly if all its permissions are and its trust is at least 2; consensus exactly if one permission forces it |
| McpRegistry.VerbTierIff | packages/daemon/src/mcp-service-registry.ts:126-137 | the tier of a tool by its leading word in any case |
| McpRegistry.CanonicalNameMeaning | packages/daemon/src/mcp-service-registry.ts:60-63 | server names are compared without regard to case and surrounding white space |
| Text.LowerCharMeaning | packages/daemon/src/mcp-service-registry.ts:60-63 | lower-casing maps the 26 capital letters and nothing else |
| Text.WhiteSpaceIff | packages/daemon/src/mcp-service-registry.ts:60-63 | the characters that trimming takes for white space |
| McpRegistry.GovernedTierIff | packages/daemon/src/mcp-service-registry.ts:207-219 | both extreme tiers of a call on a governed server, by its trimmed name |
| McpRegistry.UngovernedTier | packages/daemon/src/mcp-service-registry.ts:126-137 | what is no call is free, and a call on an ungoverned server has the tier of its raw name |
| McpRegistry.ToolNameMeaning | packages/daemon/src/mcp-service-registry.ts:143-148 | the tool name is what the call says, trimmed |
| McpRegistry.GateReasonIff | packages/daemon/src/mcp-service-registry.ts:237-250 | every gate reason of a call on a governed server with its exact cause |
| McpRegistry.StaleIff | packages/daemon/src/mcp-service-registry.ts:267-284 | stale entries are exactly the listed tools that are not live |
| McpRegistry.GovernedCallIsSelfIff | packages/daemon/src/mcp-service-registry.ts:207-219 | on a governed server a call is `self` exactly when its trimmed name is on the read-only list |
| McpRegistry.ReasonIffGated | packages/daemon/src/mcp-service-registry.ts:232-250 | there is a gate reason exactly when the call is gated |
| McpRegistry.ReportedIff | packages/daemon/src/mcp-service-registry.ts:267-284 | a live tool is reported as unclassified exactly if no white space is in front, its verb is a read and its raw name is on no list |
| McpRegistry.GatedAsUnlistedIff | packages/daemon/src/mcp-service-registry.ts:237-250 | a call on a governed server is gated as unlisted exactly if its trimmed name is a read and neither read-only nor sensitive |
| McpRegistry.DriftAgreesWithGateIff | packages/daemon/src/mcp-service-registry.ts:237-284 | for every live tool, white space included, exactly when report and gate agree |
| McpRegistry.TrimmedNamesAgreeIff | packages/daemon/src/mcp-service-registry.ts:237-284 | on trimmed names they agree unless the tool is a read on the consensus list and on no other |
| McpRegistry.DriftMissesEscalatedReads | packages/daemon/src/mcp-service-registry.ts:237-250 | with a table that puts a read tool on the consensus list, the tool is gated as unlisted but not reported |
| McpRegistry.DriftMissesPaddedReads | packages/daemon/src/mcp-service-registry.ts:237-284 | with every table, an unlisted read with a space in front is gated as unlisted but not reported |
| McpRegistry.DriftReportsPaddedReadOnly | packages/daemon/src/mcp-service-registry.ts:237-284 | a read-only tool with a space behind is reported although its call is not gated |
| McpRegistry.PaddedNamesAreMisreported | packages/daemon/src/mcp-service-registry.ts:126-137 | on a server without maintained classes, a read is reported as unlisted, and a destructive verb does not raise the tier, exactly for such verbs behind leading white space |
| McpRegistry.ResolveMcp | packages/daemon/src/mcp-service-registry.ts:366-384 | the loop computes the resolutions in order |
| McpRegistry.ResolutionsAreProviders | packages/daemon/src/mcp-service-registry.ts:358-384 | the resolutions are exactly the providers of the canonical server that are not offline, each with its own tier |
| McpRegistry.ResolutionsIff | packages/daemon/src/mcp-service-registry.ts:358-384 | the same in terms of category, skill id, health and tier of the capability |
| McpPipeline.PlanMeaning | packages/daemon/src/mcp-routing.ts:32-65 | when the plan is local, remote or none; a remote target is never the node itself, and degraded only if nobody is healthy |
| McpPipeline.PlanPicksTheFirst | packages/daemon/src/mcp-routing.ts:43-64 | the choice is the first in registry order: own, else healthy, else any usable provider |
| McpPipeline.PlanUsesOwnServerOnly | packages/daemon/src/mcp-routing.ts:36-56 | whatever list it is given, the planner uses only entries of this server that are not offline, and each reason for no plan has its exact cause |
| McpPipeline.DispatchMeaning | packages/daemon/src/mcp-forward.ts:66-126 | a dispatch is remote only over https with a sender identity, and keeps target, tier and URL of the plan |
| McpPipeline.LocalIffSelfProvides | packages/daemon/src/mcp-routing.ts:43-47 | through resolve, plan, spec and dispatch: local exactly when this node provides the server |
| McpPipeline.RemoteTargetIsAnotherProvider | packages/daemon/src/mcp-forward-dispatch.ts:56-98 | through all stages: a forward goes over https to another node that provides exactly this server, at its own tier, pinned to its own identity if pinning is on |
| McpPipeline.RoutedCallHasProvider | packages/daemon/src/mcp-routing.ts:32-65 | whoever runs the call is a registered provider at the tier of the plan |
| McpPipeline.NoProviderIff | packages/daemon/src/mcp-routing.ts:49-56 | "no provider" is reported exactly when nobody provides, and "all offline" never |
| McpPipeline.RemoteIff | packages/daemon/src/mcp-forward.ts:66-126 | a call is forwarded exactly if this node does not provide, somebody does, this node has an identity, and the chosen provider has an https endpoint |
| McpPipeline.PeerRouteIff | packages/daemon/src/mcp-forward.ts:66-126 | every reason why a call that needs a peer is not forwarded, with its exact cause |
| McpPipeline.SomebodyIsChosen | packages/daemon/src/mcp-routing.ts:58-64 | whenever somebody else has to serve the call, one provider is chosen: the first healthy one, else the first |
| McpPipeline.PinViolationIff | packages/daemon/src/mcp-forward-exec.ts:100-122 | the 500 branch is reached exactly for an empty provider id under pinning; otherwise everything passes through unchanged |
| McpPipeline.ExecSpecMeaning | packages/daemon/src/mcp-forward-exec.ts:70-122 | each dispatch with its exec spec, each rejection with its exact cause |
| Meldekanal.ApprovedOnlyIfSaid | packages/daemon/src/meldekanal.ts:169-200 | normalisation yields an approval exactly for an own outcome "approved" |
| Meldekanal.OutcomeIsWhatWasSaid | packages/daemon/src/meldekanal.ts:169-200 | every outcome is the one that was said, with its note |
| Meldekanal.UnknownOutcomeIsAnError | packages/daemon/src/meldekanal.ts:169-200 | anything else is an error about the channel that was asked |
| McpIngress.ExecutionIsGuardedAndAudited | packages/daemon/src/mcp-forward-executor.ts:115-202 | at most one action, announced by its audit record; forwards only on hop 0, with hop 1 and the plan unchanged, never to itself; runs locally only what was planned locally; a final rejection record exactly for server errors |
| McpIngress.ExecutionRecordsPeer | packages/daemon/src/mcp-forward-executor.ts:115-202 | the records of an execution name the peer of a remote plan, and this node otherwise |
| McpIngress.ForwardsIff | packages/daemon/src/mcp-forward-executor.ts:168-194 | a remote plan is sent exactly for another node, on the first hop, with a consistent pin |
| McpIngress.ProceedsIff | packages/daemon/src/mcp-ingress.ts:123-205 | the executor is reached exactly for an authorised sender, a named server, a usable path and a tier that is `self` or an approved `gate` |
| McpIngress.ProceedRespectsBothTiers | packages/daemon/src/mcp-ingress.ts:160-201 | neither provider tier nor tool tier is `consensus`, and without a resolver both are `self` |
| McpIngress.HandlingIsSafe | packages/daemon/src/mcp-ingress-api.ts:160-204 | the whole handler: one announced action at most, permitted and authorised, on the right node |
| McpIngress.SelfLoopGuardIsUnreachable | packages/daemon/src/mcp-forward-executor.ts:168-173 | a routed call never targets the node itself, so the 508 branch is dead |
| McpIngress.RunsLocallyIff | packages/daemon/src/mcp-forward-executor.ts:128-166 | exactly the local plans are run here, if there is a primitive for it |
| McpIngress.LocalStatus | packages/daemon/src/mcp-forward-executor.ts:128-166 | the status of a local plan is the primitive's; 501 without one, 502 if it throws |
| McpIngress.RemoteStatus | packages/daemon/src/mcp-forward-executor.ts:168-201 | the status of a remote plan is the peer's, or that of the guard that stopped it |
| McpIngress.ProceedsIffTiersAllow | packages/daemon/src/mcp-ingress.ts:123-205 | the executor is reached exactly if both tiers are free, or neither is consensus and the resolver's answer is an approval |
| McpIngress.RefusalIff | packages/daemon/src/mcp-ingress.ts:123-205 | every refusal with its exact cause |
| McpIngress.HandlerActsIff | packages/daemon/src/mcp-ingress-api.ts:160-204 | the whole handler runs or forwards exactly if the call proceeds and the executor's conditions hold |
| McpIngress.HandlerStatus | packages/daemon/src/mcp-ingress-api.ts:160-204 | the reply has the status of the executor, or of the refusal |
| McpIngress.HandlerAudit | packages/daemon/src/mcp-ingress-api.ts:149-204 | a decided approval is recorded first, and one closing record says exactly whether the call was rejected |
| McpMesh.HopRoundTrip | packages/daemon/src/mcp-ingress-api.ts:115-120 | the hop number read from the header is the one that was printed |
| McpMesh.HopIsRead | packages/daemon/src/mcp-ingress-api.ts:115-120 | white space and a plus sign are skipped, the digits count, what follows does not |
| McpMesh.NoHopIsRead | packages/daemon/src/mcp-ingress-api.ts:115-120 | no header, a negative number or no number counts as 0 |
| McpMesh.EveryRunKeepsBudget | packages/daemon/src/mcp-forward-executor.ts:174-194 | in every run of the mesh, with registries that differ and change, each client call stays within its budget of forwards, runs and visits |
| McpMesh.OneClientCallIsBounded | packages/daemon/src/mcp-ingress-api.ts:160-181 | one client call causes at most one forward, one local run and two visits; with a hop number on arrival no forward |
| McpMesh.HandledMeaning | packages/daemon/src/mcp-forward-executor.ts:174-194 | handling a call takes it out, puts it back with hop number 1 exactly if the node forwards it, and books what was done |
| McpMesh.ArriveAndLost | packages/daemon/src/mcp-ingress-api.ts:160-181 | a new client call is pending with the hop number it came with; a lost one is gone |
| LaunchdPlist.EscapeIsSubstitution | packages/daemon/src/launchd-plist.ts:46-53 | the five passes equal one simultaneous substitution |
| LaunchdPlist.UnescapeEscape | packages/daemon/src/launchd-plist.ts:40-53 | reading the predefined entities back gives the value |
| LaunchdPlist.ScanTemplate | packages/daemon/src/launchd-plist.ts:108-118 | the scan yields the rendered text and the set of unknown names |
| LaunchdPlist.RenderLaunchDaemonPlist | packages/daemon/src/launchd-plist.ts:93-128 | a plist is returned exactly for a valid context, known placeholders and a clean result |
| LaunchdPlist.RenderingKeepsMarkup | packages/daemon/src/launchd-plist.ts:93-128 | for all values, the angle brackets and quotes are the template's, in its order |
| LaunchdPlist.PlaceholdersShowFields | packages/daemon/src/launchd-plist.ts:98-118 | a placeholder, rendered and read back, shows the value of its name |
| LaunchdPlist.ValuesMeanFields | packages/daemon/src/launchd-plist.ts:98-106 | which field of the context each name stands for |
| LaunchdPlist.PlainTextIsKept | packages/daemon/src/launchd-plist.ts:108-118 | a template without placeholders renders to itself |
| LaunchdPlist.UnknownIsReached | packages/daemon/src/launchd-plist.ts:108-125 | the unknown names are exactly those that the scan meets and the context lacks |
| LaunchdPlist.ValidIff | packages/daemon/src/launchd-plist.ts:60-90 | a context is valid exactly if the four paths begin with a slash and user and group are names without white space |
| LaunchdPlist.PlaceholderIff | packages/daemon/src/launchd-plist.ts:29-30 | the placeholder pattern |
| LaunchdPlist.NameCharIff | packages/daemon/src/launchd-plist.ts:29-30 | the characters of a placeholder name |
| LaunchdPlist.StrayIff | packages/daemon/src/launchd-plist.ts:31-36 | the stray pattern |
| LaunchdPlist.LegacyIff | packages/daemon/src/launchd-plist.ts:37-38 | the legacy pattern |
| LaunchdPlist.UncleanValueIsRefused | packages/daemon/src/launchd-plist.ts:108-146 | a value that contains a leftover placeholder by itself makes every template that uses it fail the final check; escaping neither hides nor makes one |
| LaunchdPlist.UnderscoresAreUnclean | packages/daemon/src/launchd-plist.ts:61-90 | "/opt/__X__" is a valid path and such a value |
| LaunchdPlist.CleanHasNoPlaceholder | packages/daemon/src/launchd-plist.ts:135-146 | a text that passes the check contains no placeholder at any position |
| ApprovalMatrix.ParseEntries | packages/daemon/src/freigabe-matrix.ts:120-161 | the loop accepts exactly if all entries parse and their keys differ, and then returns all of them |
| ApprovalMatrix.ParseFreigabeMatrix | packages/daemon/src/freigabe-matrix.ts:111-162 | all or nothing: accepted exactly for a well-formed root whose entries are acceptable |
| ApprovalMatrix.MatrixRoundTrip | packages/daemon/src/freigabe-matrix.ts:111-162 | a matrix of well-formed entries with different keys that is written down is read back entry by entry |
| ApprovalMatrix.EntryRoundTrip | packages/daemon/src/freigabe-matrix.ts:120-161 | a well-formed entry that is written down is read back |
| ApprovalMatrix.EntrySays | packages/daemon/src/freigabe-matrix.ts:78-161 | an entry that is read is well-formed and says what is written |
| ApprovalMatrix.MissingToolIsWildcard | packages/daemon/src/freigabe-matrix.ts:140-144 | a missing tool stands for all tools |
| ApprovalMatrix.RootMeaning | packages/daemon/src/freigabe-matrix.ts:111-118 | which roots are empty matrices and which are refused |
| ApprovalMatrix.KeyDeterminesTriple | packages/daemon/src/freigabe-matrix.ts:154-156 | for servers that do not overlap, equal keys mean equal (tier, server, tool) |
| ApprovalMatrix.KeysCollide | packages/daemon/src/freigabe-matrix.ts:154-156 | for overlapping servers, different entries have the same key, whatever tier and tool |
| ApprovalMatrix.DistinctKeysMeanDistinctTriples | packages/daemon/src/freigabe-matrix.ts:154-156 | accepted entries differ pairwise in (tier, server, tool) |
| ApprovalMatrix.RefusedThoughDifferent | packages/daemon/src/freigabe-matrix.ts:120-161 | for every two overlapping known servers a raw matrix that parses, has no duplicate and is refused |
| ApprovalMatrix.RefusesOnlyDuplicatesIff | packages/daemon/src/freigabe-matrix.ts:111-162 | over all raw matrices: parsable entries are refused only for a duplicate, if and only if no two known servers overlap |
| ApprovalMatrix.ResolveEntry | packages/daemon/src/freigabe-matrix.ts:170-182 | the loop computes the lookup |
| ApprovalMatrix.LookupMeaning | packages/daemon/src/freigabe-matrix.ts:164-182 | the exact tool, else the wildcard, else nothing |
| ApprovalMatrix.LookupIff | packages/daemon/src/freigabe-matrix.ts:164-182 | the answer is the target of a covering entry, never of a wildcard if some entry names the tool |
| ApprovalMatrix.LookupIgnoresOrder | packages/daemon/src/freigabe-matrix.ts:164-182 | permuting an accepted matrix changes no lookup |
| ApprovalMatrix.ResolvedIsRoutable | packages/daemon/src/freigabe-matrix.ts:190-198 | whatever an accepted matrix resolves to is routable |
| ApprovalMatrix.RouterAsksOnlyTheResolvedChannel | packages/daemon/src/approval-router.ts:99-167 | at most one channel is asked, the resolved one; a target exactly if one was asked; approved exactly if that channel said so |
| ApprovalMatrix.RouterAnswer | packages/daemon/src/approval-router.ts:99-167 | the outcome and note of every answer, a foreign channel claim kept in the note |
| ApprovalMatrix.RoutingIgnoresOrder | packages/daemon/src/approval-router.ts:116-156 | permuting an accepted matrix changes no routed answer |
| AuditLog.AuditLog.constructor | packages/daemon/src/audit.ts:176-182 | opening reloads the hash of the last row, or the genesis |
| AuditLog.AuditLog.Append | packages/daemon/src/audit.ts:225-266 | appends one row that points back to the last one; memory and table agree afterwards |
| AuditLog.AuditLog.ImportPeerEvent | packages/daemon/src/audit.ts:385-435 | adds the event exactly if its signature holds (when checkable) and its hash is new |
| AuditLog.AuditLog.PrunePeerEventsOlderThan | packages/daemon/src/audit.ts:358-372 | without a positive finite age nothing; otherwise removes exactly the peer rows with a timestamp before the cutoff and counts them |
| AuditLog.EveryRunIsChained | packages/daemon/src/audit.ts:225-266 | in every run of appends, restarts, imports and prunes: one chain from the genesis, memory in step, peer hashes unique |
| AuditLog.LocalHoldsTheAppends | packages/daemon/src/audit.ts:348-372 | the local table is exactly the sequence of appended events |
| AuditLog.LastHashCommits | packages/daemon/src/audit.ts:244-249 | without collisions, equal length and equal last hash mean equal hashed texts throughout |
| AuditLog.LastHashFixesLength | packages/daemon/src/audit.ts:244-249 | if nothing hashes to the genesis, an equal last hash means equal length |
| AuditLog.SignatureCoversEveryField | packages/daemon/src/audit.ts:235-249 | a change of any one of the seven fields changes the signed text |
| AuditLog.SignatureCoversOptionalFields | packages/daemon/src/audit.ts:231-249 | two texts in an optional field are told apart; absent counts as empty |
| AuditLog.BarFreeEventsDiffer | packages/daemon/src/audit.ts:235-249 | events without bars in their fields have the same signed text only if all fields agree |
| AuditLog.HashCoversSignatureAndPrev | packages/daemon/src/audit.ts:244-249 | the hashed text covers the signature and the previous hash as well |
| AuditLog.FirstImportWins | packages/daemon/src/audit.ts:420-434 | a second import under the same hash changes nothing |
| AuditLog.ImportIff | packages/daemon/src/audit.ts:399-434 | with a key an event is imported exactly if its signature verifies and its hash is new; else the table is unchanged |
| AuditLog.UncheckedImportIff | packages/daemon/src/audit.ts:412-434 | without a key, exactly if its hash is new |
| AuditLog.EveryRowIsVouchedFor | packages/daemon/src/audit.ts:399-434 | in every run each stored peer row was imported without a key or with a signature that verified |
| AuditLog.RowSurvivesIff | packages/daemon/src/audit.ts:358-372 | a stored peer row survives an operation exactly if that is not a prune with a later cutoff |
| AuditLog.ImportedRowStays | packages/daemon/src/audit.ts:420-434 | over whole runs: a stored peer row stays unchanged and alone under its hash until a prune removes it |
| AuditLog.ExportedEventIsAccepted | packages/daemon/src/audit.ts:399-411 | the importer checks the very text the author signed |
| CapabilitySkeleton.SummaryIsShort | packages/daemon/src/capability-skeleton.ts:49-56 | a summary has at most 161 characters |
| CapabilitySkeleton.BestIsLeast | packages/daemon/src/capability-skeleton.ts:89-95 | the chosen provider is least by (health rank, agent id) |
| CapabilitySkeleton.GroupBySkill | packages/daemon/src/capability-skeleton.ts:77-85 | the loop collects each usable skill's providers in order |
| CapabilitySkeleton.BuildCapabilitySkeleton | packages/daemon/src/capability-skeleton.ts:76-112 | one entry per usable skill id, strictly sorted |
| CapabilitySkeleton.LineMeaning | packages/daemon/src/capability-skeleton.ts:86-109 | a line shows summary and category of a leading provider and the best health of any provider |
| CapabilitySkeleton.SummaryMeaning | packages/daemon/src/capability-skeleton.ts:49-56 | the summary is the text up to its first sentence end, cut after 160 characters |
| CapabilitySkeleton.RanksMeaning | packages/daemon/src/capability-skeleton.ts:58-61 | the order of the health values, coerced lists included |
| CapabilitySkeleton.AsStrIff | packages/daemon/src/capability-skeleton.ts:38-38 | a string stands for itself, anything else for the empty text |
| CapabilitySkeleton.SortedByIdIsUnique | packages/daemon/src/capability-skeleton.ts:111-111 | a strictly sorted list is determined by its entries |
| CapabilitySkeleton.OrderIndependentIff | packages/daemon/src/capability-skeleton.ts:65-112 | the resulting list is the same for all permutations of the input exactly when the most preferred providers of each skill show the same |
| CapabilitySkeleton.SkeletonIgnoresOrder | packages/daemon/src/capability-skeleton.ts:65-112 | with unique (skill, agent) pairs, permuting the input changes nothing |
| CapabilitySkeleton.ProvidersAddUp | packages/daemon/src/capability-skeleton.ts:101-108 | the provider counts add up to the inputs with a usable skill id |
| InboxPoller.PollInboxOnce | packages/daemon/src/inbox-poller.ts:65-91 | total = delivered + failed + markFailed, with what each counts, and the trace of effects |
| InboxPoller.MarkFollowsDelivery | packages/daemon/src/inbox-poller.ts:71-76 | a message is marked only right after its successful delivery |
| InboxPoller.EachMessageInTurn | packages/daemon/src/inbox-poller.ts:65-91 | every message is tried exactly once, in order, and marked right after exactly if that succeeded; nothing else happens |
| InboxPoller.AfterCycle | packages/daemon/src/inbox-poller.ts:65-91 | a message stays unread exactly if no mark reached the server, and counts as delivered exactly if it was |
| InboxPoller.AtLeastOnce | packages/daemon/src/inbox-poller.ts:60-91 | in every run of arrivals and cycles, whatever arrived is unread or was delivered |
| InboxPoller.AdaptiveInboxPoller.Start | packages/daemon/src/inbox-poller.ts:215-220 | a start while active does nothing; otherwise delay and timer are fresh |
| InboxPoller.AdaptiveInboxPoller.Stop | packages/daemon/src/inbox-poller.ts:221-227 | deactivates and cancels the remembered timer only |
| InboxPoller.AdaptiveInboxPoller.Fire | packages/daemon/src/inbox-poller.ts:195-199 | a firing starts a cycle only if active and none is in flight |
| InboxPoller.AdaptiveInboxPoller.Complete | packages/daemon/src/inbox-poller.ts:199-212 | a completion updates the delay and reschedules if active |
| InboxPoller.EveryRunIsSafe | packages/daemon/src/inbox-poller.ts:177-232 | in every order of starts, stops, firings and completions: never two cycles, never stuck while active |
| InboxPoller.DelayIsCappedBackoff | packages/daemon/src/inbox-poller.ts:195-220 | in every run the delay is min(initial * 2^k, max) for the k idle or failed completions in its history since the last start or traffic |
| InboxPoller.TimerIsArmedWithBackoff | packages/daemon/src/inbox-poller.ts:195-220 | the timer the loop waits for was armed with that delay |
| InboxPoller.IdleLoopWaits | packages/daemon/src/inbox-poller.ts:195-220 | unless a cycle completed over a pending timer, an active loop without a cycle waits for its remembered timer |
| InboxPoller.FireStartsIff | packages/daemon/src/inbox-poller.ts:195-199 | a fired timer is spent and starts a cycle exactly if the loop is active with none in flight |
| InboxPoller.StopCancels | packages/daemon/src/inbox-poller.ts:221-227 | after a stop the remembered timer will not fire |
| InboxPoller.SingleThreadIff | packages/daemon/src/inbox-poller.ts:195-227 | at most one timer or cycle at every moment of a run, if and only if no start finds a cycle in flight |
| InboxPoller.OneTimerIff | packages/daemon/src/inbox-poller.ts:195-227 | at most one pending timer at every moment of a run, if and only if no cycle completes while active with a timer pending, which takes such a start |
| InboxPoller.TwoTimersCanBePending | packages/daemon/src/inbox-poller.ts:195-231 | a run with two pending timers |
| ReplayGuard.ReplayGuard.IsReplay | packages/daemon/src/replay.ts:24-35 | reports a replay within the time to live, else remembers the call |
| ReplayGuard.ReplayGuard.Cleanup | packages/daemon/src/replay.ts:40-47 | drops exactly the entries older than two minutes |
| ReplayGuard.CleanupIsUnobservable | packages/daemon/src/replay.ts:37-47 | for times to live up to 120001 ms the guard answers like one that never forgets |
| ReplayGuard.ForgetfulForgets | packages/daemon/src/replay.ts:37-47 | for every longer time to live a run in which a replay is accepted |
| ReplayGuard.ExactBound | packages/daemon/src/replay.ts:24-47 | all runs under a bound are safe from cleanup exactly if the bound is at most 120001 ms |
| ReplayGuard.ReplayMeaning | packages/daemon/src/replay.ts:20-35 | a call is a replay exactly if an accepted call with its key lies less than its time to live back |
| CidrPolicy.MaskTestIsBlockTest | packages/daemon/src/discovery-policy.ts:101-103 | the 32-bit shift-and-mask test is equality of the first bits, for prefix lengths 0 to 32 |
| CidrPolicy.BlocksNestOrAreDisjoint | packages/daemon/src/discovery-policy.ts:88-104 | two blocks are nested or disjoint |
| CidrPolicy.ParseIpv4 | packages/daemon/src/discovery-policy.ts:106-120 | the accumulating loop computes the number, which fits in 32 bits |
| CidrPolicy.IpInCidrMeaning | packages/daemon/src/discovery-policy.ts:88-104 | on text: membership is being a dotted quad whose first bits agree with the base |
| CidrPolicy.ValidIffContainsItsBase | packages/daemon/src/config.ts:11-25 | the validator accepts exactly the CIDRs that contain their own base |
| CidrPolicy.ValidCidrIff | packages/daemon/src/config.ts:11-25 | a block as text is valid exactly for a dotted quad and one or two digits of at most 32 |
| CidrPolicy.UsualCidrIsValidIff | packages/daemon/src/config.ts:11-25 | a block in its usual spelling is valid exactly for prefix lengths up to 32 |
| CidrPolicy.UsualMembership | packages/daemon/src/discovery-policy.ts:88-104 | an address is in a block, both in their usual spelling, exactly if their first bits agree |
| CidrPolicy.QuadParses | packages/daemon/src/discovery-policy.ts:106-120 | the usual spelling of an address parses to its number |
| CidrPolicy.AllowedByGroups | packages/daemon/src/boot-relearn.ts:80-99 | without a policy, every text of four groups of digits is allowed exactly if its first group is 10, its first two are 192 and 168, or they are 172 and 16 to 31, as spelled |
| CidrPolicy.StripForms | packages/daemon/src/boot-relearn.ts:81-81 | plain, mapped and bracketed forms of a host are the same host |
| CidrPolicy.AgreesWithRfc1918Iff | packages/daemon/src/boot-relearn.ts:80-99 | exactly when that agrees with being an address in a range of RFC 1918 |
| CidrPolicy.AllowedIffPrivate | packages/daemon/src/boot-relearn.ts:80-99 | on the usual spelling of an address it always agrees |
| CidrPolicy.OtherTextAllowedIff | packages/daemon/src/boot-relearn.ts:80-99 | every other text: refused without a colon; by the value of the first group, fc00 to fdff, if that could begin an IPv6 address; otherwise exactly if it begins like a private IPv4 address |
| CidrPolicy.HexDigitIff | packages/daemon/src/boot-relearn.ts:97-97 | the hexadecimal digits, in both cases |
| CidrPolicy.Ipv6AllowedIff | packages/daemon/src/boot-relearn.ts:92-98 | an IPv6 address is allowed exactly if it is in fc00::/7 |
| CidrPolicy.NonLiteralAllowedIff | packages/daemon/src/boot-relearn.ts:74-99 | exactly which texts that are no IP address are let through although the source promises to refuse them |
| CidrPolicy.LeadingZeroIsRefused | packages/daemon/src/boot-relearn.ts:92-98 | a private address with a leading zero is refused |
| CidrPolicy.OutOfRangeIsAllowed | packages/daemon/src/boot-relearn.ts:82-98 | a text with a group above 255 is allowed behind "10." |
| CidrPolicy.GroupOf999IsAllowed | packages/daemon/src/boot-relearn.ts:82-98 | "10.999.1.1" is no address and is allowed |
| CidrPolicy.HostNameIsAllowed | packages/daemon/src/boot-relearn.ts:82-98 | any text with a colon, such as a host name with a port, is no address and is allowed behind "10." |
| CidrPolicy.UlaNameIsAllowed | packages/daemon/src/boot-relearn.ts:82-98 | any text is allowed behind "fd00:", and is no address if it has a character that addresses do not have |
| CidrPolicy.NeverAllowedIff | packages/daemon/src/boot-relearn.ts:85-88 | on addresses, the forbidden texts are 127.0.0.0/8 and 169.254.0.0/16 by value, and "0.0.0.0" by its spelling |
| CidrPolicy.PolicyAllowsIff | packages/daemon/src/boot-relearn.ts:80-91 | with a policy exactly the IPv4 addresses in its blocks are allowed, without the forbidden ones |
| CidrPolicy.UnspecifiedAllowedIff | packages/daemon/src/boot-relearn.ts:85-91 | a spelling of the unspecified address is allowed under a policy exactly if it is not the usual one and a block contains it |
| CidrPolicy.PaddedUnspecifiedIsAllowed | packages/daemon/src/boot-relearn.ts:85-91 | "00.0.0.0" is allowed under "0.0.0.0/0" |
| AgentRegistry.AgentRegistry.Create | packages/daemon/src/agent-registry.ts:98-110 | a registry is created exactly for a finite positive interval, a factor that does not compare as less than 1 (NaN and infinity pass) and a finite capacity of at least 1, and is empty |
| AgentRegistry.AgentRegistry.Register | packages/daemon/src/agent-registry.ts:143-174 | refreshes a known instance, adds and reports a new one, refuses at capacity |
| AgentRegistry.AgentRegistry.Heartbeat | packages/daemon/src/agent-registry.ts:188-193 | moves the heartbeat of a known instance and nothing else |
| AgentRegistry.AgentRegistry.Unregister | packages/daemon/src/agent-registry.ts:204-214 | removes and reports a known instance |
| AgentRegistry.AgentRegistry.Sweep | packages/daemon/src/agent-registry.ts:254-270 | the loop evicts and reports exactly the stale instances, in order |
| AgentRegistry.EveryRunIsConsistent | packages/daemon/src/agent-registry.ts:143-283 | in every run: below the next whole number above the capacity, events alternate per instance, and replaying them gives the live instances |
| AgentRegistry.CapacityHoldsIff | packages/daemon/src/agent-registry.ts:150-156 | no run exceeds the capacity, if and only if it is a whole number |
| AgentRegistry.LiveAfter | packages/daemon/src/agent-registry.ts:143-270 | exactly who is live after each operation |
| AgentRegistry.DataComeFromRegistration | packages/daemon/src/agent-registry.ts:143-174 | a live instance has the data of the registration that made it live |
| AgentRegistry.ValidConfigIff | packages/daemon/src/agent-registry.ts:98-110 | the accepted configurations, by the comparisons the source makes |
| AgentRegistry.SweepByNumbers | packages/daemon/src/agent-registry.ts:254-262 | survival in numbers: up to interval times factor, always if the factor is not finite |
| AgentRegistry.SweepIsExact | packages/daemon/src/agent-registry.ts:254-270 | a live instance survives a sweep exactly if its last heartbeat in the history is within the threshold |
| AgentRegistry.SteadyInstanceIsNeverEvicted | packages/daemon/src/agent-registry.ts:188-193 | heartbeats no further apart than the threshold keep an instance live |
| CircuitBreaker.CircuitBreaker.CanExecute | packages/daemon/src/circuit-breaker.ts:61-81 | the answer, the new state of this circuit, and that no other circuit changes |
| CircuitBreaker.CircuitBreaker.RecordSuccess | packages/daemon/src/circuit-breaker.ts:86-99 | forgives failures and closes a half-open circuit |
| CircuitBreaker.CircuitBreaker.RecordFailure | packages/daemon/src/circuit-breaker.ts:104-119 | counts, and opens at the threshold or from half-open |
| CircuitBreaker.CircuitBreaker.Reset | packages/daemon/src/circuit-breaker.ts:142-146 | closes one circuit |
| CircuitBreaker.CircuitBreaker.Clear | packages/daemon/src/circuit-breaker.ts:151-153 | all circuits are as new |
| CircuitBreaker.CounterMeaning | packages/daemon/src/circuit-breaker.ts:83-119 | the counter is the number of failures since the last success, reset or clear; a closed circuit is below the threshold |
| CircuitBreaker.OpensIff | packages/daemon/src/circuit-breaker.ts:104-119 | a closed circuit leaves that state exactly on the failure that completes the threshold |
| CircuitBreaker.ClosesIff | packages/daemon/src/circuit-breaker.ts:86-99 | a circuit closes exactly on a reset, a clear, or a success while half-open |
| CircuitBreaker.ReopensIff | packages/daemon/src/circuit-breaker.ts:68-119 | when a half-open circuit opens and an open one becomes half-open |
| CircuitBreaker.OpenSince | packages/daemon/src/circuit-breaker.ts:104-119 | an open circuit counts its timeout from the last failure that came half-open or completed the threshold |
| CircuitBreaker.StatisticsMeaning | packages/daemon/src/circuit-breaker.ts:86-119 | successes, results and last failure since the last clear |
| CircuitBreaker.OpenRefusesUntilTimeout | packages/daemon/src/circuit-breaker.ts:68-76 | after opening at t, without failure or reset in between, a question is admitted exactly from t + timeout on |
| CircuitBreaker.HalfOpenAdmitsEveryQuestion | packages/daemon/src/circuit-breaker.ts:78-79 | from every half-open state on, every question about the skill is admitted until a result, reset or clear, whatever happens to other skills |
| CircuitBreaker.OneProbeIff | packages/daemon/src/circuit-breaker.ts:61-81 | in every run: between two questions admitted to a circuit that is not closed there is a result or an intervention, if and only if no question is asked while it is half-open |
| CircuitBreaker.HalfOpenIsReached | packages/daemon/src/circuit-breaker.ts:68-76 | under every configuration enough failures and a late question lead to the half-open state |

## Left out

- Power loss in the first-create protocol: crashes are crashes of processes; the `fsync` calls have no effect in the model, and a write makes progress or fails.
- The order of the timestamps' text in the audit log: `toISOString` is a parameter, and rows are pruned by comparing text.
- LaunchdPlist.UncleanValueIsRefused: one direction; clean values can still make a leftover placeholder together with their neighbours in a template.
- Directory and file permissions, and logging, everywhere.
- Characters outside ASCII in case conversion, UTF-16 code units above the basic plane in string order and lengths, and UTF-8 encoding: strings are sequences of characters, and the certificate modules work on bytes.
- Rounding of JavaScript numbers above 2^53; only the step to infinity is modelled.
- X.509 and CSR parsing, SAN construction, base64 and Ed25519 are uninterpreted; `resolveAttestingCaFingerprints` and the certificate's host names and IP addresses are not part of this model.
- URL parsing and `encodeURIComponent` are parameters of the forward stage; only "an https origin starts with https://" is used.
- The contents of the unifi tool classes: the statements about tool classes hold for every class table.
- `buildMcpCapability`, the undici agent cache, the TLS pin check and the extraction of the sender from the client certificate.
- Response bodies and message texts: the note of a malformed approval answer is one of two texts, replies are modelled by their status, routing reasons by their kind.
- `MeldekanalRegistry` with its health checks and timeouts: the router and the ingress take the answering channel as a parameter.
- Limits and times that are not whole numbers in the nonce store, the replay guard, the circuit breaker and the poller.
- Lookups of inherited keys, such as "constructor", on object literals that serve as tables.
- SQL: tables are sequences; schema migration, checkpoints, queries, exports and `getAllEvents` are not part of this model.
- CapabilitySkeleton.BestIsLeast: the source sorts the group stably and takes the first element; the model takes the earliest least one.
- AgentRegistry.AgentRegistry.Register: listeners only record events; a listener that throws or changes the registry is not modelled.
- InboxPoller.AtLeastOnce: messages arrive between cycles, not in the middle of one.
- `createInboxPoller`, the daemon client of the poller, `selectMeshInterfaces`, `orderMeshInterfaces`, `getMeshIp`, `restrictServiceToIp`, `readCappedText`, `relearnPeer`, `loadConfig`, the LaunchDaemon install plan.
- Nested parts of the daemon that are wiring: index.ts, the REST, GraphQL and dashboard handlers, the command-line tools.
