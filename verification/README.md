# Authority core, modelled in Dafny

This project models how AuthPort decides and records authority, and proves what its operations keep over every run,
every schedule and every input.

- **Mesh.** Principals and the external identities bound to them, delegations and re-delegations, agent runs with
  parent runs, policy rules, two evaluators written separately, the audit log and the window of recent decisions.
  `MeshModel` says what each operation does to the stores and `MeshRuns` what a run is; `Mesh` holds the object that
  updates its stores in place, each method proved against the function of `MeshModel`. What an operation answers is then
  said without these functions: `MeshAnswers` (runs, capabilities, requests), `DelegationAnswers`, `Sessions`,
  `MeshEffects` (every change, event and refusal), `ConditionRules` (rules of each kind of condition) and
  `DecisionContents` and `EnvelopeContents` (grants, evidence and reasons). `MeshSafety` and `MeshAudit` say what holds in every run,
  `RevokedAuthority` what a revocation leaves standing, `EvaluatorComparison` where the two evaluators part ways, and
  `AuditInterleaving` lets any number of callers record events at once.
- **Live authority.** Propose, approve, reject, apply, batch apply and revert on a revisioned state. `Authority` says
  what each operation does, `AuthorityRuntime` holds the store and the runtime as objects, `AuthorityAnswers` says for
  every reachable system what each call answers and stores, `ChangeEffects` what a change does setting by setting and
  where a live value comes from, `AuthorityLog` reads the change records as history, `Interleaving` cuts each call where
  it lets go of a lock and lets any number of callers run at once, `AuthoritySafety` states what every schedule
  guarantees, `StatusHistory` what decides a proposal's status under it, `StalePreviews` what a preview on an older state
  is told, and `ScheduleExamples` holds schedules that show what is left open.
- **Declarations.** The parser of auth blocks with an independent definition of the texts an entry tree can be written
  as, and in `ParsingFaults` of the texts that are refused, `BlockExtraction` finding the block in a source,
  `PolicyParsing` reading policies from the tree, their compilation into rules, and `PolicySources` joining all of it
  from text to decision. The canonical form, and its bytes: `CanonicalText` writes them, `CanonicalBytes` says when they
  decide the declaration.
- **Reconciliation.** Route keys, the split of current and previous routes, and the greedy pairing; `ReportContents`
  says what each list of a report holds.
- **Codecs.** What the proxy writes and the server reads: bodies, paths and queries, down to UTF-8 bytes.
  `FlatObjects` and `PercentTexts` say what is read from any text at all, written by the proxy or not.
- **Challenges.** The single-use token store over whole traces.

A file holds the module of its own name. The specification functions have no contract of their own: the methods named
below are proved to compute them, and lemmas say what they answer in terms of the stores, texts and histories alone.

## Where the code does less than its description

- **The recorded chain.** A delegation made by an agent records the chain of the delegation picked for its *first*
  capability, so the chain need not carry the capability delegated. `ChainCarriesExactly` says exactly when it does,
  `SingleCapabilitiesCarry` gives a guard on the stored line alone, and `RecordedChainCanMissTheCapability` a run of
  four delegations in which it does not. A true line of delegations always exists (`Provenance`).
- **Stopping an agent.** Two writes overwrite whatever principal holds an id, even a revoked agent: creating an agent
  through the control route (`CreatingRevives`, crates/server/src/control_routes.rs:1334-1364), and signing up with an
  external identity that is not bound yet and leads to that id (`SigningUpRevives`,
  `RevokedAgentSignsUp`). `StoppedExactly` and `AgentExactly` are if-and-only-ifs, and `StoppedForGood` holds as long as
  neither write names the agent.
- **Runs after a revocation.** A run is not asked for its delegation again. `AllowedAfterRevocationExactly` says exactly
  which requests under it are still allowed, and `RunOutlivesItsDelegation` is a run in which one is.
- **Audit ids.** A decision is returned under the number drawn last, which under concurrent calls may be another
  caller's (`AnsweredUnderAnother`) or belong to no event at all; `OwnIdExactly` and `NamesAnEventExactly` are
  if-and-only-ifs.
- **Repeated ids.** A batch that lists a proposal twice records it twice (`RepeatedIdIsRecordedTwice` is a whole
  schedule that does). `BatchAppliesOnceExactly` and, over every schedule, `AppliedOnceExactly` are if-and-only-ifs.
- **Status at commit time.** The status is read before the lock is taken and not again under it. A proposal rejected in
  between is still committed (`RejectedMeanwhileIsCommitted`), though never at another revision.
  `ApprovedAtCommitExactly` and `BatchApprovedAtCommitExactly` say exactly when the proposal is still approved.
- **Status afterwards.** An approval or rejection that was under way finishes after a commit and overwrites its status;
  `RecordedIsAppliedExactly` is an if-and-only-if. The revision an apply returns may be a later one
  (`RevisionToldExactly`).
- **Stale reverts.** A revert previewed on a state read before its record was committed is refused as older
  (`StaleRevertIsRefused`); `RevertPreviewedExactly` is an if-and-only-if over every schedule.
- **Two evaluators.** They disagree for a non-agent that holds a capability only through a live delegation
  (`ServiceHoldsWhatItIsDenied`); `EvaluatorsAgree` is an if-and-only-if. Both ignore a rule's effect, action and
  resource, so a rule that denies grants (`DenyingRuleGrants`). `AllowAlikeExactly` says for one request when the
  capability evaluator and the request evaluator allow alike, and `AlwaysAlikeExactly` for which rules they do so for
  every request.
- **Claim basis.** The basis of a grant names what its condition looks at, except for claims compared with an attribute
  of the resource (`BasisDecides`, `BasisOmitsComparedClaim`).
- **Canonical bytes.** Names are written without escaping, so two valid declarations can share their bytes
  (`CommaConfusesProviders`, `EmptyConfusesResource`). They decide the declaration when no name holds a delimiter and no
  resource or action is an empty text (`BytesDecideExactly`).
- **Braces in quotes.** The block is found by counting braces, in quotes and comments too, so a brace in quotes cuts it
  short (`BraceInQuotesCutsOff`); `ReadExactly` says which sources are read to which tree.
- **Content types.** The proxy writes JSON but forwards the client's content type; `ForwardedBodyReadsBackExactly` says
  for which the body is read back.
- **Normalising twice.** `normalize_path` is not idempotent when the last segment is no parameter and ends in white
  space, as in `/a /`; `NormalizeTwiceExactly` is an if-and-only-if.
- **Question marks.** A path that holds `?` is not read back (`TargetReadsBackExactly`).

## Assumptions

- Ids and tokens made by hashing are structured values or the hashed value itself, so hashing is injective.
- Clocks are parameters: `now`, the clock a time-bound condition reads, and the milliseconds in change ids, which may
  be anything at any time. Whether the audit log accepts an event is a parameter of each step.
- The store lists a delegate's delegations in an arbitrary order, the same throughout one operation.
- Revisions and sequence numbers are unbounded.

## Model

| member | source | states |
|---|---|---|
| `Contract.ScopeOrder` | crates/contract/src/delegation.rs:38-57 | Inclusion of resource scopes is a partial order with the unconstrained scope on top, so narrowing composes along a tree. |
| `Evaluator.EvaluateCondition` | crates/authz/src/evaluator.rs:480-644 | The recursive evaluator with its accumulated flag and evidence returns whether the condition holds and its evidence in order. |
| `Evaluator.EvidenceDecides` | crates/authz/src/evaluator.rs:480-644 | However deeply conditions nest, a condition holds exactly when every entry of its evidence is a pass. |
| `Evaluator.EvaluateLeaf` | crates/authz/src/evaluator.rs:480-644 | One branch for each kind of leaf, computed as in the code, gives whether the leaf holds. |
| `ConditionRules.AppliesExactly` | crates/authz/src/evaluator.rs:280-337 | Which rules of a policy let a request through comes down to policies of one rule, so the lemmas below are about all policies. |
| `ConditionRules.AlwaysAndAll` | crates/authz/src/evaluator.rs:486-497 | An unconditional rule lets everything through, and one with several conditions exactly what each of them lets through. |
| `ConditionRules.TimeBoundExactly` | crates/authz/src/evaluator.rs:529-552 | A time-bound rule lets requests and capabilities through exactly while the clock is in its closed window, and never without a clock. |
| `ConditionRules.ClaimExactly` | crates/authz/src/evaluator.rs:498-528 | A claim rule lets through exactly the principals that have the claim with one of the values. |
| `ConditionRules.TenantExactly` | crates/authz/src/evaluator.rs:553-570 | A rule on the current tenant lets through exactly the requests whose attributes name the tenant of the principal. |
| `ConditionRules.ResourceExactly` | crates/authz/src/evaluator.rs:571-604 | A rule on a resource attribute lets through exactly the requests whose resource has it with one of the values, and grants no capability. |
| `ConditionRules.RelationshipExactly` | crates/authz/src/evaluator.rs:605-644 | A relationship rule lets through exactly the requests whose resource attribute is the id, the tenant or the claim of the principal. |
| `DecisionContents.EvidenceIsOfLeaves` | crates/authz/src/evaluator.rs:480-660 | The evidence of a condition, however nested, has one entry for each leaf in order and says whether that leaf holds. |
| `DecisionContents.BasisDecides` | crates/authz/src/evaluator.rs:695-710 | Two principals and resources that agree on the claim basis of a condition satisfy it alike, unless it compares a claim with the resource. |
| `DecisionContents.BasisOmitsComparedClaim` | crates/authz/src/evaluator.rs:695-710 | With such a comparison the basis stays the same while the claim decides. |
| `Evaluator.ScopeMatchingIsMonotone` | crates/authz/src/evaluator.rs:440-474 | A request that a narrower scope lets through, every wider scope lets through too. |
| `Evaluator.EvaluateWithDelegations` | crates/authz/src/evaluator.rs:38-105 | The loops over rules and delegations build the envelope: rule grants in order, then delegated grants not yet present. |
| `Evaluator.PickDelegation` | crates/runtime/src/mesh.rs:1654-1671 | The delegation shown to the evaluator is the first listed live one that carries the capability, else the first listed that names it, and is missing only when none does. |
| `Evaluator.HeldGrantIs` | crates/authz/src/policy.rs:285-293 | Looking a capability up in the envelope gives the first granting rule's grant, else the grant of the first live delegation carrying it, else nothing. |
| `EnvelopeContents.EnvelopeExactly` | crates/authz/src/evaluator.rs:38-133 | The whole envelope, grant by grant: empty for an agent that may not act, else one grant for each rule met, in order and with repetitions, then one for each capability that live delegations offer and nothing before grants. |
| `Evaluator.EvaluatorsAgree` | crates/authz/src/evaluator.rs:134-224 | The capability evaluator on the picked delegation grants exactly what the envelope holds, for all policies, listings and clocks, if and only if the principal is an agent, or a rule grants, or no live delegation carries the capability, or the tenant does not match. |
| `EvaluatorComparison.ServiceHoldsWhatItIsDenied` | crates/authz/src/evaluator.rs:134-224 | A service with a live delegation finds its capability in the envelope and is denied it by the capability evaluator. |
| `EvaluatorComparison.CapabilityAllowedExactly` | crates/authz/src/evaluator.rs:134-224 | A capability is allowed if and only if tenant, policy and agent state fit and a rule naming it holds, or an agent has it by a live delegation of its own. |
| `DecisionContents.CapabilityGrantIs` | crates/authz/src/evaluator.rs:134-224 | An allowed capability is granted to the caller by the first rule met, or else by the delegation shown, with chain, delegator, basis and labels. |
| `DecisionContents.CapabilityReasonIs` | crates/authz/src/evaluator.rs:134-224 | A refused capability is refused for the first reason that applies, and the denial carries nothing else. |
| `Evaluator.EvaluateAuthorizationRequest` | crates/authz/src/evaluator.rs:226-382 | The rule loop with its remembered failed evidence decides by the first applicable rule, else by delegation, else by the last rule concerned. |
| `Evaluator.AllowedExactly` | crates/authz/src/evaluator.rs:226-382 | A request is allowed if and only if it passes the early checks and either the first applicable rule allows it, or none applies and an agent is backed by a live, covering delegation of its own. |
| `Evaluator.FirstApplicableRuleDecides` | crates/authz/src/evaluator.rs:280-337 | A rule-based Allow or a policy denial is the work of the first applicable rule, has its effect, and carries only passing evidence. |
| `Evaluator.DenialsAreExplained` | crates/authz/src/evaluator.rs:337-382 | A failed-condition denial carries at least one failure and means that no rule applied; a plain denial means that no rule was about the request. |
| `DecisionContents.RequestGrantIs` | crates/authz/src/evaluator.rs:226-382 | An allowed request is granted to the caller for its resource and action by the first rule that applies, with its evidence, or else by the delegation shown. |
| `DecisionContents.RequestReasonIs` | crates/authz/src/evaluator.rs:226-382 | A refused request is refused for the first reason that applies, with the evidence that goes with it. |
| `EvaluatorComparison.AllowAlikeExactly` | crates/authz/src/evaluator.rs:134-382 | The capability evaluator and the request evaluator allow alike if and only if the capability is not held in vain and the request not allowed by its resource alone. |
| `EvaluatorComparison.HeldInVainExactly` | crates/authz/src/evaluator.rs:134-382 | A capability is allowed and the request refused if and only if the request is misdirected, or the first rule that applies denies, or the selectors of all rules miss and the delegation does not cover the request. |
| `EvaluatorComparison.AllowedByResourceExactly` | crates/authz/src/evaluator.rs:134-382 | A capability is refused and the request allowed if and only if no rule for it holds without the resource, no delegation carries it, and the first rule that applies allows. |
| `EvaluatorComparison.AlwaysAlikeExactly` | crates/authz/src/evaluator.rs:134-382 | For a principal that is no agent all requests for a capability are allowed alike if and only if its rules pass a test on the rules alone: an unselective one is met and every denying one is overruled by an earlier covering one, or, if none grants by itself, every allowing one is. |
| `EvaluatorComparison.OnlySelectorsHoldBack` | crates/authz/src/evaluator.rs:280-337 | A rule that grants a capability fails to apply to a request for it exactly when it names another action or resource; its condition is never the reason. |
| `EvaluatorComparison.PlainRulesAllowAlike` | crates/authz/src/evaluator.rs:134-382 | For a principal that is no agent both evaluators allow alike when the rules for the capability allow, name neither action nor resource, and do not depend on the resource. |
| `EvaluatorComparison.DenyingRuleGrants` | crates/authz/src/evaluator.rs:134-224 | A policy whose only rule denies a capability grants it, in the envelope too, and denies every request for it. |
| `PolicyCompiler.PolicyFromConfig` | crates/runtime/src/mesh.rs:1357-1406 | The loop over declared policies builds one rule for each, with tenant and claim conditions nested as in the code, and no policy for an empty list. |
| `PolicyCompiler.CompileConditionMeans` | crates/runtime/src/mesh.rs:1363-1397 | The compiled condition holds exactly when the tenant requirement and every claim constraint of the declaration do. |
| `PolicyCompiler.EvidenceShows` | crates/runtime/src/mesh.rs:1363-1397 | The evidence of a compiled policy has one entry for the tenant mark and one for each claim constraint, passing when it is met and asking for the listed value or values. |
| `PolicyCompiler.CompilationPreservesMeaning` | crates/authz/src/evaluator.rs:280-337 | A rule grants a request exactly when it passes the early checks and the one declared policy for its capability is satisfied. |
| `PolicyCompiler.OrderOfPoliciesIsImmaterial` | crates/dsl/src/model.rs:125-137 | Any rearrangement of distinct declared policies decides every request alike, but for the rule label. |
| `PolicyCompiler.CanonicalDecidesAlike` | crates/dsl/src/model.rs:42-69 | A valid declaration and its canonical form decide every request alike, but for the rule label. |
| `Declaration.CanonicalIsIdempotent` | crates/dsl/src/model.rs:42-69 | Canonicalising a canonical declaration changes nothing, for every declaration, valid or not. |
| `Declaration.CanonicalDecides` | crates/dsl/src/model.rs:42-76 | Two valid declarations have the same canonical form exactly when they differ only by the order of providers, claims, enum values, policies and screens. |
| `CanonicalText.WriteCanonical` | crates/dsl/src/model.rs:151-208 | The loops over providers, claims, values, policies, screens, labels and mail write the bytes of the token text the lemmas below are about. |
| `CanonicalBytes.RearrangedHaveSameBytes` | crates/dsl/src/model.rs:42-76 | Valid declarations that differ only by reordering are written as the same bytes, whatever their names. |
| `CanonicalBytes.BytesDecideExactly` | crates/dsl/src/model.rs:151-208 | For valid declarations whose names hold no delimiter and whose resources and actions are no empty texts the bytes are equal if and only if the declarations differ only by reordering. |
| `CanonicalBytes.CommaConfusesProviders` | crates/dsl/src/model.rs:151-157 | Two declarations that pass the whole validation, with different canonical forms and the same bytes. |
| `CanonicalBytes.EmptyConfusesResource` | crates/dsl/src/model.rs:184-201 | An empty resource and a condition without values on a claim named `resource` are written alike, in two declarations that pass the whole validation. |
| `MeshRuns.StepGrows` | crates/storage/src/memory.rs:524-688 | No mesh operation forgets a delegation, run or principal, rewrites a delegation or run, undoes a revocation or cancellation, or binds an external identity to another principal. |
| `MeshRuns.StatesGrow` | crates/storage/src/memory.rs:524-688 | The same between any two states of a run. |
| `MeshSafety.ScanMeans` | crates/runtime/src/mesh.rs:587-625 | The scan over requested capabilities succeeds only if each is held and, for an agent, drawn from a delegation covering the requested scope; the chain it returns is that of the first capability. |
| `MeshSafety.DelegateCheckMeans` | crates/runtime/src/mesh.rs:566-641 | An accepted delegation has a usable delegate, a delegator that holds every capability, and fields as requested. |
| `DelegationAnswers.DelegationAnswered` | crates/runtime/src/mesh.rs:540-641 | For every request and listing: the first reason that applies refuses it, capability by capability in order, and else the delegation is as requested with the chain of its source; said by rules met, stored delegations and the listing alone. |
| `DelegationAnswers.DelegatedInRunExactly` | crates/runtime/src/mesh.rs:540-660 | In every run a delegation is granted if and only if its event is logged, nothing is wrong with the request, each capability may be passed on, the id is free and the delegate another. |
| `MeshSafety.ReachableIsWellFormed` | crates/runtime/src/mesh.rs:566-872 | In every state of every run each delegation's chain and each agent run's place below its delegation and parent run are in order. |
| `MeshSafety.ChainIsALine` | crates/runtime/src/mesh.rs:620-641 | A stored chain is a line of distinct stored delegations, each recording exactly the line before it, held by the next one's delegator and covering its scope and first capability. |
| `MeshSafety.Provenance` | crates/runtime/src/mesh.rs:566-641 | In every run every capability of every delegation traces along a finite line of delegations, made at strictly increasing steps, all but the first by one who was an agent then, each live when the next was drawn from it, all carrying it and narrowing at each link, to a delegator that was no agent and held it then. |
| `MeshSafety.AllowedUnderRunIsCovered` | crates/runtime/src/mesh.rs:1568-1621 | In every run an Allow under an agent run lies within that run, every ancestor run and each one's delegation, before all their expiries, and the run is active and the caller's own. |
| `RevokedAuthority.AllowedUnderRunExactly` | crates/runtime/src/mesh.rs:1098-1151 | In every run a request under an agent run is allowed if and only if the run serves it, its event is logged, and the first rule that applies, or else the first live delegation of the agent that carries the capability, allows it. |
| `RevokedAuthority.AllowedAfterRevocationExactly` | crates/runtime/src/mesh.rs:1568-1621 | The same with the run's own delegation struck from the listing, once that is revoked. |
| `RevokedAuthority.RunOutlivesItsDelegation` | crates/runtime/src/mesh.rs:1098-1151 | A run in which a request under an agent run is allowed after the delegation of the agent run was revoked. |
| `MeshSafety.AncestryIsFinite` | crates/runtime/src/mesh.rs:765-825 | Every agent run has a finite path of distinct ancestors ending in one without a parent. |
| `MeshAnswers.RunCreatedExactly` | crates/runtime/src/mesh.rs:703-872 | An agent run is created if and only if the caller-checkable conditions hold: known tenant, active agent, its own unrevoked live delegation, request within delegation and live parent; and then is as requested. |
| `MeshAnswers.GeneratedIdsDiffer` | crates/runtime/src/mesh.rs:1546-1552 | Different numbers generate different run ids for the same tenant. |
| `MeshAnswers.MadeUnderLiveAuthority` | crates/runtime/src/mesh.rs:738-825 | Over every run of the mesh each stored agent run was made at a step at which its agent was active and its delegation, and its parent run if any, live. |
| `MeshEffects.RunRefused` | crates/runtime/src/mesh.rs:703-825 | A run that is not created is refused for the first reason that applies. |
| `MeshAnswers.PolicyIs` | crates/runtime/src/mesh.rs:1336-1357 | The policy of a tenant is the stored one under its policy id, else the compiled declaration under that id, else none. |
| `MeshAnswers.CapabilityAllowedInRunExactly` | crates/runtime/src/mesh.rs:1002-1042 | In every run of the mesh a capability is allowed if and only if its event is logged, tenant, policy and agent state fit, and a rule naming it is met or, for an agent, some stored delegation is live and carries it. |
| `MeshAnswers.RequestAllowedInRunExactly` | crates/runtime/src/mesh.rs:1060-1096 | The same for requests: the first rule that applies, or else the first live delegation carrying the capability, allows it. |
| `MeshSafety.StoppedForGood` | crates/runtime/src/mesh.rs:965-990 | Once suspended, revoked or retired an agent stays stopped unless the control route or a sign-up writes it anew; until then no step resolves a session for it, stores a delegation from or to it, or creates a run for it. |
| `MeshSafety.StoppedExactly` | crates/runtime/src/mesh.rs:965-990 | A stopped agent is still stopped in a later state if and only if each time the control route or a sign-up wrote it anew it was stopped again since. |
| `MeshSafety.CreatingRevives` | crates/server/src/control_routes.rs:1334-1364 | Right after the control route creates an agent it is active, even if it had been revoked. |
| `MeshSafety.SigningUpRevives` | crates/runtime/src/resolution.rs:101-151 | A sign-up that is not refused overwrites whatever principal is stored under the id of its external identity, with one that may act. |
| `MeshSafety.SignsUpOnce` | crates/storage/src/memory.rs:433-470 | An external identity signs up at most once in a run; a later attempt is refused. |
| `MeshSafety.AgentExactly` | crates/runtime/src/resolution.rs:101-151 | An agent is still one in a later state if and only if every sign-up that put another principal in its place was followed by a write of an agent. |
| `RevokedAuthority.RevokedAgentSignsUp` | crates/runtime/src/resolution.rs:118-144 | A run in which a revoked agent signs up and is active again, or a human, as the caller chooses. |
| `MeshSafety.StoppedCannotAct` | crates/runtime/src/mesh.rs:1265-1279 | While an agent is stopped no session resolves to it and no step stores a delegation from or to it or a run for it. |
| `MeshSafety.RevokedForGood` | crates/contract/src/delegation.rs:83-101 | A revoked delegation is not valid at any time in any later state. |
| `MeshSafety.CancelledForGood` | crates/runtime/src/mesh.rs:1568-1596 | Once cancelled, a run is denied at every later step. |
| `MeshSafety.RevokingTakesEffect` | crates/runtime/src/mesh.rs:662-684 | An acknowledged revocation makes its delegation invalid in every later state at every time, and touches no other delegation and no run. |
| `MeshSafety.CancellingTakesEffect` | crates/runtime/src/mesh.rs:907-934 | After an acknowledged cancellation every request under the run is denied. |
| `MeshSafety.StoppingTakesEffect` | crates/runtime/src/mesh.rs:936-990 | After an acknowledged suspension, revocation or retirement the agent stays stopped and no session resolves to it, unless the control route or a sign-up writes it anew. |
| `Sessions.SessionResolvesExactly` | crates/runtime/src/mesh.rs:485-531 | A session resolves if and only if it is stored for the tenant, neither logged out nor expired, its identity bound to a usable principal of the tenant, and a policy fits; the context is for that principal, acting under the first live delegation that adds a capability. |
| `Sessions.SessionHistory` | crates/storage/src/memory.rs:192-232 | In every run a stored session is as it was last opened, marked when it has been logged out since. |
| `Sessions.ResolvedInRunExactly` | crates/runtime/src/mesh.rs:485-531 | The same over every run, by the steps that opened and logged out the session. |
| `Sessions.LoggedOutForGood` | crates/runtime/src/mesh.rs:454-468 | After an acknowledged logout the session never resolves again unless a sign-in or sign-up opens its id anew. |
| `Sessions.NoneAfterExpiry` | crates/runtime/src/mesh.rs:485-531 | No session resolves at or after its expiry. |
| `MeshEffects.ResolveRefused` | crates/runtime/src/mesh.rs:485-531 | A session that does not resolve is refused for the first reason that applies, and resolving changes nothing. |
| `MeshEffects.DelegateEffect` | crates/runtime/src/mesh.rs:628-660 | An accepted delegation is stored, logged for its delegate and returned; nothing else changes. |
| `MeshEffects.RevokeEffect` | crates/runtime/src/mesh.rs:662-684 | Revoking marks a delegation of the tenant with the time, logs it and changes nothing else; a foreign or unknown one is refused. |
| `MeshEffects.CreateRunEffect` | crates/runtime/src/mesh.rs:826-872 | A created run is stored, logged and returned, and its number used up even if its id is taken. |
| `MeshEffects.CancelEffect` | crates/runtime/src/mesh.rs:907-934 | Cancelling marks a run of the tenant with status and time, logs it and changes nothing else. |
| `MeshEffects.SetStateEffect` | crates/runtime/src/mesh.rs:965-990 | Suspending, revoking and retiring store exactly the state asked for and log the kind that goes with it. |
| `MeshEffects.CreateAgentEffect` | crates/server/src/control_routes.rs:1334-1364 | The control route stores an active agent without claims, and logs nothing. |
| `MeshEffects.SignUpEffect` | crates/runtime/src/resolution.rs:101-151 | A sign-up writes, binds and opens exactly what it is for, or is refused for the first reason that applies. |
| `MeshEffects.LinkEffect` | crates/runtime/src/mesh.rs:422-449 | Linking binds an identity to a stored principal of the tenant unless it is bound to another. |
| `MeshEffects.SignInEffect` | crates/runtime/src/mesh.rs:287-345 | Signing in opens a session for a bound, usable identity. |
| `MeshEffects.LogoutEffect` | crates/runtime/src/mesh.rs:451-468 | Logging out marks the session, logs it and changes nothing else. |
| `MeshEffects.DecideEffect` | crates/runtime/src/mesh.rs:1408-1467 | A decision touches the journal alone: its event says who asked for what under which delegation and run and why it was denied, and it is remembered with its revision among the last hundred; unlogged, it is a denial. |
| `MeshEffects.DecideUnderRunEffect` | crates/runtime/src/mesh.rs:1098-1151 | A request under a run that may not be used is denied for the first reason that applies, with policy and run on record; any other is decided like the request alone. |
| `ChainExample.AcceptedExactly` | crates/runtime/src/mesh.rs:540-641 | A delegation request is accepted if and only if it meets a list of conditions a caller can check beforehand. |
| `ChainExample.ChainCarriesExactly` | crates/runtime/src/mesh.rs:587-641 | The chain recorded for an agent carries the first capability if and only if the chain of the delegation it is drawn from does. |
| `ChainExample.SingleCapabilitiesCarry` | crates/runtime/src/mesh.rs:587-641 | The recorded chain carries the delegated capability whenever each delegation on the line drawn from lists a single capability. |
| `ChainExample.RecordedChainCanMissTheCapability` | crates/runtime/src/mesh.rs:620-641 | A concrete run after which a stored chain names a delegation without the delegated capability. |
| `MeshAudit.AllowsMatchGrantedEvents` | crates/runtime/src/mesh.rs:1408-1467 | Over every run the Allows returned and the granted events of the log correspond one to one and in order, each Allow carrying its own event's id, principal, tenant and capability; a decision whose event the log refuses is a denial. |
| `MeshAudit.WindowIsRecent` | crates/runtime/src/mesh.rs:1623-1646 | The window of decisions holds exactly the last hundred recorded ones, or all of them if fewer. |
| `MeshAudit.EventIdsAreUnique` | crates/runtime/src/mesh.rs:1536-1552 | No two audit events share an id in any reachable state. |
| `AuditInterleaving.AnswersAreLogged` | crates/runtime/src/mesh.rs:1408-1534 | Under every schedule of concurrent callers no two events share an id, and every recorded answer has an event of its own in the log that reports it. |
| `AuditInterleaving.OwnIdExactly` | crates/runtime/src/mesh.rs:1536-1544 | Under every schedule a decision is returned under the id of its own event if and only if no other caller drew a number between its drawing one and its reading the last one back. |
| `AuditInterleaving.NamesAnEventExactly` | crates/runtime/src/mesh.rs:1541-1544 | The id it is returned under is that of some event, now or ever after, if and only if the last number was drawn for the same tenant. |
| `AuditInterleaving.RecordIsASchedule` | crates/runtime/src/mesh.rs:1031-1041 | Recording on one's own is the schedule of its steps back to back. |
| `AuditInterleaving.AnsweredUnderAnother` | crates/runtime/src/mesh.rs:1536-1544 | A schedule in which a caller is answered under another caller's event. |
| `Mesh.AuthMesh.Delegate` | crates/runtime/src/mesh.rs:540-660 | The state after delegating, stores, log and window, and the result are those `MeshModel` gives, over which the theorems above range. |
| `Mesh.AuthMesh.ScanRequest` | crates/runtime/src/mesh.rs:587-625 | The loop over requested capabilities finds the first failure, or the chain, as the specification does. |
| `Mesh.AuthMesh.RevokeDelegation` | crates/runtime/src/mesh.rs:662-684 | The whole state after a revocation, and its result. |
| `Mesh.AuthMesh.CreateAgentRun` | crates/runtime/src/mesh.rs:703-872 | The whole state after creating a run, whose number is used up even when it is refused late, and its result. |
| `Mesh.AuthMesh.CancelAgentRun` | crates/runtime/src/mesh.rs:907-934 | The whole state after a cancellation, and its result. |
| `Mesh.AuthMesh.SetAgentState` | crates/runtime/src/mesh.rs:965-990 | The whole state after stopping an agent, and its result. |
| `Mesh.AuthMesh.Authorize` | crates/runtime/src/mesh.rs:1002-1042 | The decision on a capability, and the log and window it leaves. |
| `Mesh.AuthMesh.AuthorizeRequest` | crates/runtime/src/mesh.rs:1060-1096 | The decision on a request, and the log and window it leaves. |
| `Mesh.AuthMesh.AuthorizeRunRequest` | crates/runtime/src/mesh.rs:1098-1151 | The decision on a request under a run, and the log and window it leaves. |
| `Mesh.AuthMesh.RecordDecision` | crates/runtime/src/mesh.rs:1408-1467 | Records a decision or turns it into a denial, with the log and window that result. |
| `Authority.ChangeIdTellsRevision` | crates/boundary/src/runtime.rs:963-971 | Whatever the clock shows, change ids of different resulting revisions differ as text, so no record overwrites another. |
| `Authority.ProposalIdIsInjective` | crates/boundary/src/proposal_store.rs:145-150 | Different counters give different proposal ids. |
| `AuthorityRuntime.ProposalStore.StoreNew` | crates/boundary/src/proposal_store.rs:152-159 | A new id is stored, a taken one refused, and nothing else changes. |
| `AuthorityRuntime.ProposalStore.Find` | crates/boundary/src/proposal_store.rs:196-213 | Finds a proposal of the same change, contract and discovery exactly when there is one, and then the first in the order of ids. |
| `AuthorityRuntime.Runtime.ProposeChange` | crates/boundary/src/runtime.rs:846-883 | The whole system after proposing, and the proposal with its preview. |
| `AuthorityRuntime.Runtime.EnsureProposal` | crates/boundary/src/runtime.rs:885-900 | Returns a matching stored proposal without changing anything if there is one, else proposes and returns what was stored. |
| `AuthorityRuntime.Runtime.ApproveStored` | crates/boundary/src/runtime.rs:902-926 | The whole system after an approval, and why it is refused. |
| `AuthorityRuntime.Runtime.RejectStored` | crates/boundary/src/runtime.rs:928-943 | The whole system after a rejection, and why it is refused. |
| `AuthorityRuntime.Runtime.ApplyProposal` | crates/boundary/src/runtime.rs:946-994 | A mismatched approval changes nothing; otherwise the section under the lock is one commit. |
| `AuthorityRuntime.Runtime.ApplyStoredProposal` | crates/boundary/src/runtime.rs:1008-1027 | The whole system after applying a stored proposal, and its result. |
| `AuthorityRuntime.Runtime.PlanBatch` | crates/boundary/src/runtime.rs:1056-1097 | The loop that works out a batch before anything is changed yields the specified state and records, or the first error. |
| `AuthorityRuntime.Runtime.ApplyApprovedStoredProposals` | crates/boundary/src/runtime.rs:1043-1117 | The whole system after a batch, and its result. |
| `AuthorityLog.PreviewMeans` | crates/boundary/src/runtime.rs:1123-1135 | A successful preview at a recorded state raises the revision by one and yields what the change means there, even when later records are visible. |
| `ChangeEffects.ValuesDecide` | crates/boundary/src/control.rs:117-134 | The routes, policies, providers and the password policy are all there is to a live state. |
| `ChangeEffects.ChangeMeans` | crates/boundary/src/control.rs:221-265 | A change gives the setting it names the value it asks for, or none, leaves every other key of every map alone, raises the revision by one, and is refused only as an unusable password policy or a revert without its record. |
| `ChangeEffects.RevertMeans` | crates/boundary/src/control.rs:267-282 | A revert is applied exactly when its record is the one named and no newer than the live state, and then gives every setting its value before the record. |
| `ChangeEffects.InForceSince` | crates/boundary/src/control.rs:267-282 | The records in force are those before the one last reverted to, and all later ones. |
| `ChangeEffects.LiveValueExactly` | crates/boundary/src/runtime.rs:963-991 | Under every schedule the live value of a route, policy, provider or the password policy is what the last committed change in force that names it says, and there is none if no such change does. |
| `AuthorityLog.GuardNeverRejects` | crates/boundary/src/control.rs:267-282 | At the live state a revert is refused only when its record does not exist, never as older. |
| `StalePreviews.RevertPreviewedExactly` | crates/boundary/src/runtime.rs:846-883 | Under every schedule the preview of a revert succeeds if and only if its record was committed before the state was read, is refused as older if and only if it was committed since, and as unknown if and only if it was not. |
| `ScheduleExamples.StaleRevertIsRefused` | crates/boundary/src/control.rs:267-282 | A whole schedule, from the initial state, in which a stored record is refused as older. |
| `AuthorityLog.SnapshotsAreReplays` | crates/boundary/src/control.rs:221-282 | Every recorded state equals replaying the changes before it from the initial state. |
| `AuthorityLog.RevertRestores` | crates/boundary/src/control.rs:267-282 | Reverting any record from any later state restores exactly the content reached by replaying the changes before it, one revision up. |
| `AuthorityLog.RevertingARevertRestores` | crates/boundary/src/control.rs:267-282 | Reverting a revert restores the content just before it. |
| `AuthorityLog.PasswordPolicyStaysValid` | crates/dsl/src/model.rs:652-672 | Every recorded state, reached by whatever changes and reverts, has a password policy with 1 <= minimum <= maximum if it has one. |
| `Interleaving.EveryScheduleKeepsInv` | crates/boundary/src/runtime.rs:846-1117 | In every state of every schedule the records are an unbroken, fully stored history, every proposal shows what its change means at its revision, and every commit has a base revision of its own. |
| `AuthoritySafety.HistoryIsLinear` | crates/boundary/src/runtime.rs:963-991 | Under every schedule the change records form one chain from the initial to the live state, one revision each, and the store holds exactly these. |
| `AuthoritySafety.EqualRevisionsMeanEqualStates` | crates/boundary/src/control.rs:58-61 | No revision is ever used for two different states, under any schedule. |
| `AuthoritySafety.AppliedAsPreviewed` | crates/boundary/src/runtime.rs:946-994 | Under every schedule a checked apply commits exactly when its revision is still the live one, and then leads from the shown `before` to the shown `after`. |
| `AuthoritySafety.ApplyStoredShowsPreview` | crates/boundary/src/runtime.rs:1008-1027 | An undisturbed apply succeeds exactly when the proposal is approved, current and matched by the approval, and then produces the shown state; otherwise nothing changes. |
| `AuthorityAnswers.ProposedExactly` | crates/boundary/src/runtime.rs:846-883 | In every reachable system proposing succeeds exactly when the change can be previewed, and files it as pending under the next free id with the state it would lead to, setting by setting. |
| `AuthorityAnswers.ApprovedExactly` | crates/boundary/src/runtime.rs:902-926 | A proposal is approved exactly when pending and current, or approved before; each of the six refusals has its one reason, and nothing but the status changes. |
| `AuthorityAnswers.RejectedExactly` | crates/boundary/src/runtime.rs:928-943 | A proposal is rejected exactly when stored and not applied; one rejected before keeps its reason. |
| `AuthorityAnswers.CommittedExactly` | crates/boundary/src/runtime.rs:946-994 | A proposal handed in is committed exactly when of the live revision, possible and on file; the record, the status and the new state are said in full, and so is every refusal. |
| `AuthorityAnswers.AppliedExactly` | crates/boundary/src/runtime.rs:1008-1027 | A stored proposal is applied exactly when approved, current and approved for this change; each of the five refusals has its one reason and changes nothing. |
| `AuthorityAnswers.BatchAnswered` | crates/boundary/src/runtime.rs:1043-1117 | A list of proposals is applied exactly when all are stored, approved and current, leaves one record each, in turn, each leading on from the one before, and each refusal has its first reason and changes nothing. |
| `AuthoritySafety.OneCommitPerRevision` | crates/boundary/src/runtime.rs:956-994 | Under every schedule commits start from strictly increasing revisions, and every record's proposal was made at the base of some commit. |
| `AuthoritySafety.NoProposalAppliedTwice` | crates/boundary/src/runtime.rs:1043-1117 | Under every schedule whose batches list distinct ids no proposal gets two records. |
| `AuthoritySafety.RepeatedIdIsAppliedTwice` | crates/boundary/src/runtime.rs:1050-1116 | From any reachable state with an approved current proposal a batch naming it twice succeeds with two records of it. |
| `AuthoritySafety.AppliedOnceExactly` | crates/boundary/src/runtime.rs:1043-1117 | Under every schedule no proposal has two records if and only if no batch that went through listed one twice. |
| `AuthoritySafety.BatchAppliesOnceExactly` | crates/boundary/src/runtime.rs:1050-1116 | A batch that goes through gives no proposal two records if and only if its ids are distinct. |
| `ScheduleExamples.RepeatedIdIsRecordedTwice` | crates/boundary/src/runtime.rs:1050-1116 | A whole schedule, from the initial state, that ends with two records of one proposal. |
| `StatusHistory.StatusIsLastEvent` | crates/boundary/src/proposal_store.rs:215-247 | Under every schedule a status is what the last finished approval, rejection or commit made it, else pending. |
| `StatusHistory.ApprovedAtCommitExactly` | crates/boundary/src/runtime.rs:1008-1027 | Under every schedule the proposal an apply commits is still approved then if and only if the last approval or rejection of it to finish since the apply loaded it, if any, was an approval. |
| `StatusHistory.BatchApprovedAtCommitExactly` | crates/boundary/src/runtime.rs:1050-1116 | The same for each proposal of a batch, since the step at which the batch read it. |
| `ScheduleExamples.RejectedMeanwhileIsCommitted` | crates/boundary/src/runtime.rs:1008-1027 | A whole schedule, from the initial state, whose last step commits a proposal marked rejected. |
| `StatusHistory.RecordedIsAppliedExactly` | crates/boundary/src/runtime.rs:902-994 | Under every schedule a proposal is marked applied if and only if it was committed and no approval or rejection of it has finished since its last commit. |
| `StatusHistory.RevisionToldExactly` | crates/boundary/src/runtime.rs:1024-1026 | The revision read after a commit is the one it made if and only if nothing was committed in between, and newer otherwise. |
| `AuthoritySafety.BatchIsOneByOne` | crates/boundary/src/runtime.rs:1068-1116 | A batch that succeeds ends, records and statuses included, where carrying out its changes one after another ends. |
| `AuthoritySafety.BatchSucceedsExactly` | crates/boundary/src/runtime.rs:1068-1077 | A batch goes through exactly when every listed proposal is of this contract and the live revision; no change in it hinders a later one. |
| `AuthoritySafety.FailedBatchChangesNothing` | crates/boundary/src/runtime.rs:1043-1097 | A batch that fails, at whatever point, leaves authority, statuses and records as they were. |
| `AuthoritySafety.ProposeIsASchedule` | crates/boundary/src/runtime.rs:846-883 | Proposing on one's own is the schedule of its steps back to back, so what holds of every schedule holds of every sequence of calls. |
| `AuthoritySafety.ApproveIsASchedule` | crates/boundary/src/runtime.rs:902-926 | The same for approving. |
| `AuthoritySafety.RejectIsASchedule` | crates/boundary/src/runtime.rs:928-943 | The same for rejecting. |
| `AuthoritySafety.ApplyIsASchedule` | crates/boundary/src/runtime.rs:1008-1027 | The same for applying. |
| `AuthoritySafety.BatchIsASchedule` | crates/boundary/src/runtime.rs:1043-1117 | The same for a batch, which reads its proposals one at a time. |
| `Routes.SameFormExactly` | crates/discovery/src/lib.rs:1304-1325 | Two paths share a normal form exactly when their segments agree one by one, up to letter case and the spelling and name of parameters. |
| `Routes.NormalFormIs` | crates/discovery/src/lib.rs:1304-1325 | The normal form is the segments behind slashes, parameters in any of the three spellings alike, other letters in lower case; its family is the first segment that is no parameter. |
| `Routes.NormalizeTwiceExactly` | crates/discovery/src/lib.rs:1304-1325 | Normalising twice equals normalising once if and only if the last segment is a parameter or does not end in white space. |
| `Routes.PlainPathsAreStable` | crates/discovery/src/lib.rs:1304-1325 | On paths without white space normalising is idempotent. |
| `Routes.BlankBeforeFinalSlash` | crates/discovery/src/lib.rs:1304-1325 | A concrete path whose normal form changes when normalised again. |
| `Reconciler.Reconcile` | crates/discovery/src/lib.rs:846-915 | The loops over ordered keys and the pairing give the report that the lemmas below are about, for every two lists of routes. |
| `Reconciler.PairRoutes` | crates/discovery/src/lib.rs:886-905 | The greedy loop pairs each removed route, in order, with the first free added one of its family. |
| `Reconciler.EveryKeyOnce` | crates/discovery/src/lib.rs:865-915 | Current keys are split exactly into unchanged, added and changed, previous keys into unchanged, removed and changed, and no key is used twice. |
| `Reconciler.ChangesAreWithinFamilies` | crates/discovery/src/lib.rs:885-915 | Changed pairs share a family and carry the right reason, and no left-over removed and added routes share one. |
| `Reconciler.ChangedIsMaximum` | crates/discovery/src/lib.rs:885-915 | In every family the changed pairs number the smaller of the keys gone and the keys new. |
| `ReportContents.SameExactly` | crates/discovery/src/lib.rs:846-882 | Unchanged are, in the order of their keys, exactly the current routes whose place was there before; of several routes for one place the last spelled counts, and of those spelled alike the last listed. |
| `ReportContents.EquivalentExactly` | crates/discovery/src/lib.rs:865-877 | Equivalent are exactly those of them named as respelled, from what they were before. |
| `ReportContents.ChangesExactly` | crates/discovery/src/lib.rs:878-915 | Changes lead, in the order of what went, from a route that is gone to the first new one of its family that no earlier change has taken, under the right reason; removed and added are exactly the rest. |
| `Parsing.Parser.ReadEntries` | crates/dsl/src/parser.rs:224-262 | The loop over entries, mutually recursive with values, ends on every input and returns what the specification says, error cases included. |
| `Parsing.Parser.ReadValue` | crates/dsl/src/parser.rs:264-283 | The same for a value. |
| `Parsing.Parser.ReadList` | crates/dsl/src/parser.rs:285-310 | The same for a list. |
| `Parsing.Parser.ReadIdent` | crates/dsl/src/parser.rs:312-329 | The same for an identifier: the longest one there is. |
| `Parsing.Parser.ReadQuoted` | crates/dsl/src/parser.rs:331-343 | The same for a quoted text, up to the next quote. |
| `Parsing.Parser.SkipOverTrivia` | crates/dsl/src/parser.rs:346-364 | The same for white space, commas and comments. |
| `ParsingExact.RenderingsParse` | crates/dsl/src/parser.rs:224-377 | Parsing any rendering of an entry tree, however spaced, separated and commented, gives back that tree. |
| `ParsingComplete.AcceptedExactly` | crates/dsl/src/parser.rs:224-377 | The parser accepts a text with a given tree if and only if the text is a rendering of that tree. |
| `ParsingComplete.WritableExactly` | crates/dsl/src/parser.rs:312-343 | The trees the parser can return are exactly those with identifier keys and quote-free texts. |
| `ParsingFaults.RefusedExactly` | crates/dsl/src/parser.rs:224-377 | The parser refuses a text with a given error if and only if the text is well made up to a place where something else should stand, and the error is the one for that place. |
| `Renderings.EveryTreeHasARendering` | crates/dsl/src/parser.rs:331-343 | Every such tree can be written. |
| `BlockExtraction.ExtractAuthBlock` | crates/dsl/src/parser.rs:181-211 | The loop that counts braces returns the body of the block, or which part of it is missing. |
| `BlockExtraction.ExtractedExactly` | crates/dsl/src/parser.rs:181-211 | A body is extracted if and only if it stands in the first block after the mark and its braces balance, counted blindly. |
| `BlockExtraction.ReadExactly` | crates/dsl/src/parser.rs:53-64 | A source is read to an entry tree if and only if it is the mark alone and the tree empty, or holds the mark once, followed by a block whose braces balance and whose body is a proper rendering of the tree. |
| `BlockExtraction.RefusedExactly` | crates/dsl/src/parser.rs:53-64 | A source is refused for the one thing that is wrong: no mark, two marks, no opening brace, none that is closed, or what the parser finds in the body. |
| `BlockExtraction.WrittenBlocksAreRead` | crates/dsl/src/parser.rs:181-211 | Every proper rendering without braces in quotes, words or comments is read back from a block. |
| `BlockExtraction.EveryPlainTreeHasASource` | crates/dsl/src/parser.rs:53-64 | Every tree with identifier keys and texts without quotes, braces and the mark is what some source is read to. |
| `BlockExtraction.BraceInQuotesCutsOff` | crates/dsl/src/parser.rs:181-211 | A proper rendering whose block is cut short inside its quotes and then refused. |
| `PolicyParsing.ParsePolicies` | crates/dsl/src/parser.rs:482-538 | The loop over policy blocks returns the policies, or the first error. |
| `PolicyParsing.ReadPolicy` | crates/dsl/src/parser.rs:495-534 | The loop over the fields of a block, with its default action and its sorted claims, returns the policy or the first error. |
| `PolicyParsing.PolicyFromExactly` | crates/dsl/src/parser.rs:495-534 | A block is read if and only if each field is of its kind, and then takes the last resource, the last or the default action, the tenant mark if any, and all claim conditions in order. |
| `PolicyParsing.RefusedForTheFirst` | crates/dsl/src/parser.rs:482-534 | A policies block that is not read is refused for being none, or for the first thing wrong with the first policy that has something wrong. |
| `PolicyParsing.FieldOrderIsImmaterial` | crates/dsl/src/parser.rs:504-534 | Rearranging the fields of a block with at most one resource and one action changes nothing. |
| `PolicyParsing.DeclarableExactly` | crates/dsl/src/parser.rs:495-534 | A policy can be declared if and only if its claim conditions are sorted, none is named like a field, and it has an action unless its capability has no dot. |
| `PolicySources.LinesMean` | crates/dsl/src/parser.rs:504-534 | A declared policy asks of a request exactly what the lines of its block ask. |
| `PolicySources.GrantedFromText` | crates/runtime/src/mesh.rs:1357-1406 | From text to decision: a rule grants a request if and only if the early checks pass and the lines of some policy block of the source are satisfied. |
| `PolicySources.EveryPolicyListHasASource` | crates/dsl/src/parser.rs:53-95 | Every list of declarable policies whose names and texts can be written is declared by some source. |
| `Utf8.TextDecodes` | crates/server/src/http.rs:159-165 | Text written as UTF-8 bytes is read back by the lossy reader, whatever follows it. |
| `Utf8.CharDecodesExactly` | crates/server/src/http.rs:159-165 | Bytes begin with a character exactly when they begin with its shortest encoding, section 3 of RFC 3629. |
| `Utf8.DamagedExactly` | crates/server/src/http.rs:159-165 | Where no character begins, one replacement stands for the longest part that begins some character, or else for a single byte. |
| `QueryString.PercentDecode` | crates/server/src/http.rs:473-496 | The index loop decodes as the specification does. |
| `QueryString.PercentRoundTrip` | crates/server/src/proxy.rs:278-288 | Percent-decoding undoes percent-encoding on every text, section 2.1 of RFC 3986. |
| `PercentTexts.DecodedExactly` | crates/server/src/http.rs:473-496 | Any text is decoded to the text of the bytes its pieces say: plus signs, escapes with digits in either case, and everything else. |
| `PercentTexts.ByteIsWritten` | crates/server/src/proxy.rs:278-288 | Letters, figures and six marks are written as they are, every other byte as two capital digits. |
| `PercentTexts.FormExactly` | crates/server/src/http.rs:346-368 | From any form text each name gets what the last part with that name says; parts without an equals sign are passed over. |
| `QueryString.TargetReadsBackExactly` | crates/server/src/proxy.rs:204-217 | The server reads back the path and query the proxy wrote if and only if the path holds no question mark. |
| `QueryString.TargetCarriesMap` | crates/server/src/http.rs:346-368 | Every query map can be listed, and the same holds for each of its listings, in whatever order. |
| `JsonBody.ParseFlatJson` | crates/server/src/http.rs:374-445 | The index loop with its depth counter reads the fields the specification names, for every input. |
| `JsonBody.ReadJsonString` | crates/server/src/http.rs:447-471 | The index loop over an escaped string returns the text and where it ends. |
| `FlatObjects.ReadExactly` | crates/server/src/http.rs:374-471 | For every text, written by the proxy or not: the fields read are exactly what its members say, quoted values unescaped, bare ones without the blanks around them, nested ones passed over, the last of a name counting. |
| `JsonBody.StringReadsBack` | crates/server/src/http.rs:498-503 | An escaped and quoted text is read back, whatever it holds and whatever follows it. |
| `JsonBody.BodyReadsBack` | crates/server/src/proxy.rs:290-306 | Reading the bytes of a written body gives back its fields, later ones winning, for every list of fields. |
| `JsonBody.BodyCarriesMap` | crates/server/src/proxy.rs:290-306 | Every map of texts, the empty one included, can be listed, and the same holds for each of its listings. |
| `JsonBody.ForwardedBodyReadsBackExactly` | crates/server/src/proxy.rs:222-247 | Every forwarded body is read back by the reader the server picks if and only if the content type of the client is missing, mentions JSON, or mentions no form. |
| `Challenges.ChallengeStore.IssueToken` | crates/boundary/src/ceremony.rs:67-95 | The store after issuing a challenge. |
| `Challenges.ChallengeStore.ConsumeWith` | crates/boundary/src/ceremony.rs:97-123 | The store and outcome of a consumption; the operation runs only when nothing refuses it. |
| `Challenges.ChallengeStore.RevokeToken` | crates/boundary/src/ceremony.rs:125-135 | The store after a revocation. |
| `Challenges.TriedExactly` | crates/boundary/src/ceremony.rs:109-116 | Over every trace an operation is carried out if and only if its token was issued for its kind, has not expired, and since then was neither used nor revoked. |
| `Challenges.AnsweredExactly` | crates/boundary/src/ceremony.rs:97-123 | Over every trace a consumption is told that its token is unknown, no longer good, or what its operation says, each exactly when. |
| `Challenges.RevokeFindsExactly` | crates/boundary/src/ceremony.rs:125-135 | Revoking finds exactly the tokens that were issued. |
| `Challenges.AtMostOnce` | crates/boundary/src/ceremony.rs:97-135 | A token drawn only once works at most once and never after it was revoked. |
| `Challenges.RunsForItsAccount` | crates/boundary/src/ceremony.rs:117-122 | The operation runs for the tenant and account the token was issued to, and its outcome alone decides. |
| `Challenges.FailureChangesNothing` | crates/boundary/src/ceremony.rs:112-122 | A consumption that does not succeed leaves the store as it was, and after a failed operation the token can be used again until it expires. |

## Left out

- Locks and atomicity: a section under the authority write lock is one step, and so is taking a proposal id with storing the proposal; store reads and rejections that fall between the writes of one commit are not told apart. The runs of the mesh take one operation at a time; only the recording of events is interleaved.
- The `source` and time stamps of proposals and records, and the listings ordered by time.
- `AuthorityRuntime.Runtime.ApplyApprovedStoredProposals`: returns the records themselves where the code returns three fields of each.
- The mesh object holds no sign-up, sign-in, account linking, logout or session resolution; in `MeshRuns` they are steps of a run. An identity record is the external identity it is for; what a connector proves, the claim schema a registration is checked against, and the context a sign-up or sign-in returns are left out.
- Request contexts that are stale: an authorization uses the principal its context holds, as in the code, whatever that context is.
- `Evaluator.EvaluateCondition`: evidence is the leaf condition and whether it passed; the rendered facts and texts are left out.
- `Mesh.AuthMesh.CreateAgentRun`: the task's purpose, constraints, credential and contract fingerprint are left out of the stored run, since no decision looks at them.
- `Mesh.AuthMesh.RecordDecision`: an event keeps its id, kind, tenant, principal, delegation, run, capability, reason and time; session, resource, action and other metadata are left out.
- `Reconciler.Reconcile`: the drift items, warnings, orphaned authority and stale proposals, which are filters over what is modelled.
- The fingerprint hash; the bytes it is taken of are modelled.
- The fields of an auth block other than its policies (the mark alone, which declares the defaults, declares no policy), and the mail block.
- Wrap-around of 64-bit revisions and counters, and poisoned locks.
- Sockets, the server loop, upstream connections, mail, connectors, the command line, the Studio page and the JavaScript clients.
