# EdgeNest control plane: a model and its proofs

This project models the state machines behind EdgeNest's panel and proves what they
promise. The modules follow the program's own parts:

- **Inbounds** (`Model`, `InboundGates`, `InboundTable`, `InboundStore`, `InboundRuns`,
  `InboundEffects`, `InboundResults`, `InboundMoves`, `InboundUnique`, `InboundRows`): the
  table of inbounds and clients that creation, update, deletion, the Argo origin switch,
  the CDN set-up and the address heal all edit, and the invariant their scattered gates
  keep together.
- **Settings** (`Settings`, `SettingsLaws`, `SettingsValues`): autofill and the structured
  form, as a lens over the stored settings.
- **Address change** (`Addresses`, `AddressChange`): planning and following a new host
  address.
- **Quotas** (`Quota`, `QuotaLaws`, `QuotaScheduler`): per-user limits, the sweep, and the
  one-slot trigger channel with its producers and its consumer as interleaved steps.
- **CDN probing** (`ProbeRound`, `Limiter`, `LimiterRuns`, `LimiterForgetting`,
  `LimiterCooldown`, `LimiterVerdicts`, `Spacing`, `StableSort`, `CdnNetworks`, `CdnLaws`,
  `CdnHeader`): from a client's round through the forgetting rate limiter to the ranking a
  client is sent.
- **Firewall** (`Antiblock`, `Firewall`, `FirewallLaws`, `FirewallClients`, `FirewallSync`,
  `GatewayOrigin`): what is rendered and for whom, what is opened, and the synchronisation
  of the managed rows.
- **Lifecycles** (`Certificates`, `CertificateWaits`, `Supervisor`): ACME issuance with back-off and the
  cloudflared supervisor, each lock-protected section one atomic step.
- **Bookkeeping** (`Alerts`, `AlertRuns`, `Mirrors`, `MirrorRuns`, `LoginLimiter`,
  `LogCap`): state that stands for a history.

Where the program changes things step by step the model is a class or a method with
loops, proved against a specification function; the theorems about whole runs are lemmas
about those functions.

## Assumptions

- Clocks never go back, and times are integers in nanoseconds, `Never` standing for the
  zero time. Integers are unbounded.
- Success rates and JSON numbers are exact reals.
- Writes to the database succeed, and each handler is one atomic step. The unique indexes
  on tag and on listen address with port refuse a clashing row.
- Random keys, passwords, ports and UUIDs come from outside: `Mint` and `EdgeDraw` record
  what was drawn, `None` for a generator that failed.
- Text functions of Go's standard library (TrimSpace, ParseIP, EqualFold) and the network
  key check are parameters, so every statement holds for whatever they return. An address
  in text is an `IP` with the number of its spelling, 0 for the canonical one.
- Emails are stored without surrounding spaces.

## Where the code differs from its comments

- Hysteria2 obfuscation (`internal/control/api/inbound_secrets.go:147-149`): the comment
  says both keys are stripped when the switch is off; while a password is stored they are
  not, and obfuscation stays on.
  `SettingsLaws.ObfsReadsBack` gives the exact condition.
- The supervisor is described as never running two processes. Overlapping starts leave
  two (`Supervisor.OverlappingStartsLeak`); serialised ones do not. A quick tunnel may
  show Running although its process has ended (`Supervisor.LateCaptureShowsRunning`).
- The Reality check repeats its last verdict between checks so that an alarm does not
  clear and fire again; a failed listing of the inbounds does clear it, and the alarm is
  pushed a second time (`AlertRuns.FailedListingDropsAlarm`, `AlertRuns.GapPushesTwice`).
- The mirror list's number is bumped whenever the list clients receive changes, with three
  exceptions: two changes within a second, a base with an encoded newline in its path, and
  a base URL that Load trims. `MirrorRuns.VersionsAreFunctional` gives the exact condition.
- The orchestrator says a loopback-bound inbound needs no opening
  (`internal/control/orchestrator/orchestrator.go:406-409`), but knows three spellings only:
  the port of one on 127.0.0.2 is opened (`FirewallLaws.LoopbackIsOpened`).
- Forgetting an idle key can announce a cooldown one round late
  (`LimiterForgetting.CutIsVisible`), and a shorter policy can end one early
  (`LimiterCooldown.PolicyChangeShortens`).
- A log that was renamed but could not be reopened is never rotated again
  (`LogCap.FailedOpenNeverRotates`), and its size is no longer bounded
  (`LogCap.LostReopenExceeds`). `LogCap.CeilingKeptExactly` gives the exact condition.

## Model

| member | source | states |
|---|---|---|
| InboundGates.GatesAreExact | internal/control/api/inbound_handlers.go:47-111 | the three shape gates together refuse exactly the inbounds that break the safety conditions (certificate-less loopback origin of a frontable type behind tunnel or edge, no CDN mode at the edge, CDN mode on Cloudflare ports only) |
| InboundGates.ArgoSingletonGate | internal/control/api/inbound_handlers.go:119-140 | refuses exactly when another inbound of the node already holds the tunnel |
| InboundStore.Store.CreateInbound | internal/control/api/inbound_handlers.go:171-250 | creation on the stored rows: every refusal in its order, else one row appended |
| InboundStore.Store.UpdateInbound | internal/control/api/inbound_handlers.go:347-460 | update on the stored rows: re-gated when settings, port or listen address change |
| InboundStore.Store.SetArgoOrigin | internal/control/api/argo_origin_handlers.go:85-192 | moving the tunnel: refusals, user copying, parking or releasing the old origin |
| InboundStore.EmailsMissingFrom | internal/control/api/argo_origin_handlers.go:272-289 | the named users of one inbound that another lacks, each once, in order |
| InboundStore.ArgoOriginProblem | internal/control/api/argo_origin_handlers.go:199-207 | the tunnel gate run as if the inbound already held the tunnel |
| InboundStore.Store.EnsureEdgeInbound | internal/control/api/antiblock_setup.go:139-237 | the one-click CDN node: nothing if one runs, else a loopback row with one credential a user |
| InboundStore.Store.HealAddressChange | internal/control/bootstrap/addrchange.go:44-77 | plans on the node's rows and applies each planned change in turn |
| InboundStore.ApplyCertDomain | internal/control/api/inbound_cert.go:46-72 | the certificate choice of an update, kept, self-signed or an issued domain's files |
| InboundRows.CertRefusedExactly | internal/control/api/inbound_cert.go:46-72 | a choice is refused exactly when it names a domain with no issued certificate that has both files |
| InboundRows.CertIsChosen | internal/control/api/inbound_cert.go:46-72 | kept as it is, the wizard's self-signed pair, or the first issued certificate that fits; one of the two marks is left |
| InboundRows.UpdateUsesTheCert | internal/control/api/inbound_handlers.go:347-460 | an accepted update with a choice leaves the row with the certificate chosen |
| InboundRows.UpdateReadsBack | internal/control/api/inbound_handlers.go:347-460 | a meaningful form edit shows in the updated row as written, unless a chosen certificate decides that field |
| InboundRuns.RunsAreSound | internal/control/api/inbound_handlers.go:47-504 | over every run of create, update, delete, origin switch, edge set-up and healing from an empty table: at most one inbound a node holds the tunnel and every row satisfies the safety conditions |
| InboundRuns.CreateRefusesExactly | internal/control/api/inbound_handlers.go:171-250 | a well-formed request that fits the unique indexes is refused exactly when storing it would break that invariant |
| InboundUnique.CreateAcceptedExactly | internal/control/api/inbound_handlers.go:171-250 | a well-formed request is accepted exactly when the table with the new row keeps the invariant and the unique indexes |
| InboundUnique.UpdateAcceptedExactly | internal/control/api/inbound_handlers.go:347-460 | an update that passes its gates is refused by the store exactly when the row would share a tag or a socket |
| InboundUnique.RunsStayUnique | internal/control/api/inbound_handlers.go:47-504 | over every run no two inbounds share a tag or a listen address and port |
| InboundRows.CreatedAsRequested | internal/control/api/inbound_handlers.go:171-250 | an accepted creation adds one row with the requested fields, no users and an unused id |
| InboundRows.RefusalsChangeNothing | internal/control/api/inbound_handlers.go:171-460 | a refused operation leaves the table as it was |
| InboundRuns.CandidateIsSound | internal/control/api/inbound_handlers.go:347-460 | an accepted update is sound even when only the port or the listen address changes, or nothing is re-checked |
| InboundRuns.DeleteKeeps | internal/control/api/inbound_handlers.go:463-504 | deletion removes that row only and keeps the invariant |
| InboundRuns.SwitchMovesTunnel | internal/control/api/argo_origin_handlers.go:139-192 | an accepted switch leaves the target the node's one holder, enabled, with its own users and every named user of the old holder |
| InboundMoves.SwitchGivesWhatIsOwed | internal/control/usersvc/service.go:412-447 | each credential the switch adds is for a named user of the old holder the target lacked, under an id nobody has: enabled exactly when some credential of that user on any row is, capped and expiring at the largest the user has, without traffic, with the drawn UUID exactly when the target is empty or its first client has one |
| InboundMoves.SwitchServesEachOnce | internal/control/api/argo_origin_handlers.go:272-289 | every such user gets exactly one credential on the target |
| InboundMoves.NewClientIsOwed | internal/control/usersvc/service.go:559-585 | a new credential is what its user is owed, told from the rows' credentials without the aggregation |
| InboundMoves.RunsOwnIds | internal/control/usersvc/service.go:437-447 | over every run no two credentials share an id, so the sweep's writes by id hit the one meant |
| InboundUnique.SwitchAcceptedExactly | internal/control/api/argo_origin_handlers.go:85-138 | a switch is accepted exactly for an inbound of the node that fits the tunnel, and holds it running already or has its ingress follow |
| InboundRuns.SwitchBackSucceeds | internal/control/api/argo_origin_handlers.go:85-192 | the switch back to the previous origin is accepted |
| InboundRuns.SwitchBackRestores | internal/control/api/argo_origin_handlers.go:85-192 | switching there and back restores both rows, users aside, exactly when the first was a tidy holder and the second a tidy candidate |
| InboundEffects.UpdateTouchesOneRow | internal/control/api/inbound_handlers.go:347-460 | an accepted update writes the requested fields, keeps identity and users, and touches no other row |
| InboundEffects.UpdateKeepsSecrets | internal/control/api/inbound_handlers.go:347-460 | no accepted form edit alters a secret the row holds, certificate choice included |
| InboundEffects.SwitchTouchesTwoRows | internal/control/api/argo_origin_handlers.go:139-192 | a switch changes no row but the new origin and the old one |
| InboundStore.UserLimits | internal/control/usersvc/service.go:412-432 | what is read of a user: the largest cap and expiry of its credentials anywhere, and whether any is on |
| InboundStore.CopyUsers | internal/control/usersvc/service.go:304-345 | one new credential for each listed user, in order, with the limits read |
| InboundEffects.SwitchKeepsEveryLimit | internal/control/usersvc/service.go:412-447 | moving the tunnel changes no user's traffic, cap or expiry and switches nobody on or off |
| InboundEffects.EdgeKeepsEveryLimit | internal/control/api/antiblock_setup.go:139-237 | nor does setting up the CDN node |
| InboundEffects.ChangeMovesAllOrNone | internal/control/bootstrap/addrchange.go:147-188 | an address change is followed by every row of the node, leaving the old address nowhere, or by none exactly when two moved rows would share a socket; nothing else changes |
| InboundEffects.DeleteUndoesCreate | internal/control/api/inbound_handlers.go:171-504 | deleting a fresh inbound leaves the rows as before its creation |
| InboundResults.EdgeServesEveryUser | internal/control/api/antiblock_setup.go:139-237 | the new CDN node has exactly one credential for every named user of the node, with the first UUID the user has, a new one where there is none, the limits of the first credential, no traffic and a new id |
| InboundRows.EdgeIsBound | internal/control/api/antiblock_setup.go:139-237 | the inbound it makes is enabled, marked as edge-bound, rendered on 127.0.0.1, and no port is opened for it |
| InboundRows.EdgeSucceedsExactly | internal/control/api/antiblock_setup.go:139-237 | the set-up succeeds exactly when an edge inbound runs already, or a port was found and neither tag nor socket is taken |
| InboundRows.EdgeOnce | internal/control/api/antiblock_setup.go:139-237 | after a successful set-up a second one changes nothing |
| InboundResults.ChangeHealsExactly | internal/control/bootstrap/addrchange.go:82-188 | one planned change leaves nothing of its family lost exactly when the moved rows do not clash and every row spelled the old address canonically |
| InboundResults.HealSettles | internal/control/bootstrap/addrchange.go:44-77 | with canonical listen addresses and no clash of sockets, one heal leaves nothing to plan in either family |
| Settings.AutofillInboundSettings | internal/control/api/inbound_secrets.go:27-211 | the per-protocol filling of secrets and defaults, with a failing generator reported |
| Settings.FillTlsDefaults | internal/control/api/inbound_secrets.go:224-237 | certificate paths and the self-signed mark |
| Settings.BuildInboundSettings | internal/control/api/inbound_structured.go:94-112 | creation keeps the protocol's fields of the form and fills the rest |
| Settings.ApplyAdvancedUpdate | internal/control/api/inbound_structured.go:120-141 | an update writes the allowed, non-nil fields over the stored settings and fills the rest |
| Settings.ParseInboundAdvanced | internal/control/api/inbound_structured.go:149-186 | the form's view of stored settings, an error exactly for malformed text |
| SettingsLaws.AutofillFills | internal/control/api/inbound_secrets.go:27-237 | filling yields settled settings and never overwrites a meaningful value (hysteria2 obfs and the public half of a fresh Reality pair excepted) |
| SettingsLaws.SettledIsFixed | internal/control/api/inbound_secrets.go:27-237 | settled settings come back unchanged although every generator fails |
| SettingsLaws.SettledExactly | internal/control/api/inbound_secrets.go:27-237 | filling again changes nothing exactly for settled settings |
| SettingsValues.AutofillTouchesOnly | internal/control/api/inbound_secrets.go:27-237 | no key outside the protocol's own is changed, added or dropped |
| SettingsValues.DefaultsAreWritten | internal/control/api/inbound_secrets.go:27-237 | each default of a table is written exactly where nothing meaningful stands |
| SettingsValues.SelfSignedExactly | internal/control/api/inbound_secrets.go:224-237 | the self-signed mark is set exactly when a path had to be filled and neither mark stood |
| SettingsValues.RealityIsWhole | internal/control/api/inbound_secrets.go:28-103 | a Reality listener has the private key given or stored with its public key, or both halves of one new pair |
| SettingsValues.KeyFitsCipher | internal/control/api/inbound_secrets.go:131-143 | a new shadowsocks key has the length the final cipher asks for; a given or stored one stays |
| SettingsValues.ObfsPasswordIs | internal/control/api/inbound_secrets.go:144-190 | the password of an obfuscated listener is the one given, else the stored one, else a new one |
| SettingsValues.HostFollowsSni | internal/control/api/inbound_secrets.go:70-130 | the host header is the one given, else the disguise name |
| SettingsValues.AutofillFailsExactly | internal/control/api/inbound_secrets.go:27-211 | filling fails exactly when something must be drawn anew and its generator fails |
| SettingsValues.FormFitsGates | internal/control/api/inbound_structured.go:34-75 | the form offers a binding exactly to the protocols whose gate admits it |
| SettingsValues.FormReachesNoMaterial | internal/control/api/inbound_structured.go:34-75 | it reaches no secret, generated key, certificate path or parking mark |
| SettingsLaws.ViewWritesBack | internal/control/api/inbound_structured.go:120-186 | submitting the unchanged view is the same as filling alone |
| SettingsLaws.UnchangedFormChangesNothing | internal/control/api/inbound_structured.go:120-186 | submitting the unchanged view leaves the stored settings alone exactly when they are settled |
| SettingsLaws.EditReadsBack | internal/control/api/inbound_structured.go:120-186 | a meaningful edit of an allowed field is shown back as written |
| SettingsLaws.ObfsReadsBack | internal/control/api/inbound_secrets.go:144-190 | the obfuscation switch reads back as set exactly unless it is switched off while a password is stored |
| SettingsLaws.SecretsSurviveEdits | internal/control/api/inbound_structured.go:120-141 | no form edit of a known protocol alters a stored secret |
| SettingsLaws.SecretsAreCarried | internal/control/api/inbound_secrets.go:27-211 | a request without the scrubbed secret gets the stored one back |
| SettingsLaws.ViewHidesSecrets | internal/control/api/inbound_structured.go:149-186 | the view holds no secret and, for known protocols, only form fields |
| SettingsLaws.BuildIgnoresTheRest | internal/control/api/inbound_structured.go:94-112 | what is built depends on the protocol's form fields alone; planted secrets have no effect |
| AddressChange.PlanAddressChange | internal/control/bootstrap/addrchange.go:82-145 | one change a family at most: exactly one lost listen address and one candidate to move to |
| AddressChange.Swap | internal/control/bootstrap/addrchange.go:206-225 | the rewrite of an address list |
| AddressChange.PlannedChangeIsSound | internal/control/bootstrap/addrchange.go:82-145 | a planned change takes the one lost address to a public, same-family address of the host |
| AddressChange.PlannedExactly | internal/control/bootstrap/addrchange.go:82-145 | a change is planned exactly when the family has lost one address and the host offers one new public address of the family, or one public address at all |
| AddressChange.FamilyHealed | internal/control/bootstrap/addrchange.go:82-188 | after applying it the family has nothing lost exactly when the rows spelled the old address canonically; then replanning yields nothing |
| AddressChange.OtherFamilyUnaffected | internal/control/bootstrap/addrchange.go:82-225 | the other family's plan stays as it was |
| AddressChange.SwapReplaces | internal/control/bootstrap/addrchange.go:206-225 | the old address is gone, the new one is there iff either was, and every other entry occurs as often as before |
| AddressChange.SwapKeepsOrder | internal/control/bootstrap/addrchange.go:206-225 | the other entries keep their order |
| Quota.EvaluateByUser | internal/control/quota/quota.go:78-135 | the aggregation loop and the decisions, user by user in order of first mention |
| Quota.Evaluate | internal/control/quota/quota.go:40-64 | the row-by-row evaluation |
| Quota.ClientStore.EnforceAll | internal/control/quota/enforcer.go:49-93 | disables every decided row and reports them in order |
| QuotaLaws.ByUserIsExact | internal/control/quota/quota.go:78-135 | lists, with multiplicity, exactly the enabled clients whose user's summed traffic reached the largest non-zero quota or whose largest non-zero expiry passed |
| QuotaLaws.OverExactly | internal/control/quota/quota.go:78-135 | a user is past its limits exactly when its traffic on all inbounds has reached every cap it has, or all its expiries have come; the cap is the reason if both |
| QuotaLaws.OrderDoesNotMatter | internal/control/quota/quota.go:78-135 | reordering the rows reorders the decisions only |
| QuotaLaws.AgreesRowByRow | internal/control/quota/quota.go:40-135 | with distinct emails both evaluations are equal |
| QuotaLaws.SweepDisablesExactly | internal/control/quota/enforcer.go:63-85 | exactly the caught rows are switched off, nothing else changes |
| QuotaLaws.SweepLeavesNobody | internal/control/quota/enforcer.go:63-85 | no user past a limit keeps an enabled client |
| QuotaLaws.SweepIsFixpoint | internal/control/quota/enforcer.go:49-93 | a second sweep at the same instant decides nothing |
| QuotaLaws.WarningsAreEarly | internal/control/alerts/alerts.go:134-172 | after the sweep warnings show only percentages below 100 and expiries to come |
| QuotaLaws.WarnsExactly | internal/control/alerts/alerts.go:134-172 | who is warned of its cap and of its expiry, and who is not |
| QuotaScheduler.NoTriggerIsLost | internal/control/api/quota_scheduler.go:43-95 | in every interleaving an enabled client of a user past quota implies an unsignalled credit, a waiting token, or a sweep that has yet to read or already lists it |
| QuotaScheduler.QuietMeansEnforced | internal/control/api/quota_scheduler.go:43-95 | with nothing outstanding no such client is enabled |
| QuotaScheduler.InternalRunsEnd | internal/control/api/quota_scheduler.go:43-95 | left alone the goroutines take a bounded number of steps, and they can go no further exactly when they are quiet |
| QuotaScheduler.RestMeansEnforced | internal/control/api/quota_scheduler.go:43-95 | so after any behaviour, once nothing comes in any more, they come to rest within the bound, and then no user past quota has an enabled client |
| QuotaScheduler.NeverStuck | internal/control/api/quota_scheduler.go:43-95 | a step is possible exactly until rest is reached |
| QuotaScheduler.UndisturbedSweep | internal/control/quota/enforcer.go:49-93 | a sweep taken step by step ends in the rows EnforceAll leaves |
| ProbeRound.Clean | internal/control/cdnstats/cdnstats.go:93-132 | the cleaning loop with its four refusals |
| ProbeRound.KeptIsClean | internal/control/cdnstats/cdnstats.go:100-124 | kept samples are distinct handed-out IPv4 addresses with plausible latencies |
| ProbeRound.KeptFirstMention | internal/control/cdnstats/cdnstats.go:107-124 | the first measurement of every handed-out address read is kept |
| ProbeRound.CleanDecidesExactly | internal/control/cdnstats/cdnstats.go:93-132 | which rounds are accepted and which reason the others get, counted over first mentions of handed-out addresses in the raw results |
| ProbeRound.CleanRoundHasWinner | internal/control/cdnstats/cdnstats.go:93-132 | an accepted round has a non-empty winner among the candidates and at most half failures |
| ProbeRound.Fastest | internal/control/cdnstats/limiter.go:99-107 | the winner of a round |
| ProbeRound.WinnerIsFirstFastest | internal/control/cdnstats/limiter.go:99-107 | no winner exactly when nothing answered, else the earliest of the quickest |
| ProbeRound.CurrentNotBest | internal/control/cdnstats/limiter.go:112-135 | whether the address in use is shown to be beaten |
| Limiter.Limiter.Check | internal/control/cdnstats/limiter.go:49-88 | one check on the shared map, sweep included |
| Limiter.Limiter.Sweep | internal/control/cdnstats/limiter.go:91-97 | what is forgotten |
| Limiter.KeySeparates | internal/control/cdnstats/limiter.go:49-52 | two rounds share a limit only when subscription and network agree |
| LimiterRuns.GapKept | internal/control/cdnstats/limiter.go:49-97 | two accepted rounds of one kind on a key are at least the later one's gap apart, for any interleaving, policies and forgetting |
| LimiterRuns.FloodBound | internal/control/cdnstats/limiter.go:49-97 | any window of length T holds at most T/gap + 1 accepted rounds |
| LimiterRuns.LongerIntervalIsForgotten | internal/control/cdnstats/cdnstats.go:293-298 | an interval above a day is broken by some run, unless every manual round starts a cooldown at least as long |
| LimiterRuns.IntervalIsKeptExactly | internal/control/cdnstats/cdnstats.go:293-298 | one policy keeps its interval over all runs if and only if it is at most a day, or each manual round starts a cooldown no shorter |
| LimiterForgetting.AutoVerdictsAgree | internal/control/cdnstats/limiter.go:49-97 | forgetting never changes a verdict on an automatic round |
| LimiterForgetting.ManualVerdictsAgree | internal/control/cdnstats/limiter.go:49-97 | manual rounds fare alike up to and including the first that continues a forgotten run of winners |
| LimiterForgetting.SweepIsInvisible | internal/control/cdnstats/limiter.go:49-97 | sweeping right before a check changes neither its acceptance nor its reason |
| LimiterForgetting.ManualRoundTies | internal/control/cdnstats/limiter.go:59-88 | the memories stay interchangeable exactly when no forgotten run is continued |
| LimiterForgetting.CutIsObservable | internal/control/cdnstats/limiter.go:59-97 | after any cut the cutting round or the next one gets another verdict than without forgetting |
| LimiterForgetting.CutIsVisible | internal/control/cdnstats/limiter.go:59-97 | a run where forgetting announces the cooldown one round late |
| LimiterCooldown.AnnouncedExactly | internal/control/cdnstats/limiter.go:71-87 | a cooldown is announced exactly when the last SameRounds accepted manual rounds since the previous announcement or forgetting share a winner |
| LimiterCooldown.CoolingHoldsBack | internal/control/cdnstats/limiter.go:64-87 | until an announced cooldown ends only rounds that beat the current address are accepted, unless a later announcement shortened it |
| LimiterCooldown.ManualAcceptedExactly | internal/control/cdnstats/limiter.go:59-88 | under any policies a manual round is accepted exactly when its interval has passed since the last accepted one and it beats the current address or the last announced cooldown is over |
| LimiterVerdicts.AutoAcceptedExactly | internal/control/cdnstats/limiter.go:59-68 | over every run an automatic round is accepted exactly when no earlier accepted automatic round of its key lies less than ten minutes before it |
| LimiterVerdicts.VerdictExactly | internal/control/cdnstats/limiter.go:49-88 | over every run, for both kinds: too_soon exactly when an accepted round of the kind lies within the gap, cooling exactly when a manual round that is not too soon shows nothing new before the last announced end, accepted otherwise |
| LimiterCooldown.OnePolicyUnshortened | internal/control/cdnstats/limiter.go:71-87 | under one policy nothing is shortened |
| LimiterCooldown.PolicyChangeShortens | internal/control/cdnstats/limiter.go:71-87 | a run where a policy change shortens a cooldown |
| StableSort.StableOrderIsUnique | internal/control/cdnstats/cdnstats.go:212-236 | a stable sort has one possible outcome |
| StableSort.SortedIsStable | internal/control/cdnstats/cdnstats.go:212-236 | elements that tie keep their order |
| CdnNetworks.Summarise | internal/control/cdnstats/cdnstats.go:182-238 | grouping by network, ranking and sorting, map updates included |
| CdnNetworks.Recommended | internal/control/cdnstats/cdnstats.go:241-250 | the loop takes the leading ranked addresses up to the limit |
| CdnLaws.AheadIsStrictWeak | internal/control/cdnstats/cdnstats.go:212-225 | the comparison is a strict weak order, so the sort is meaningful |
| CdnLaws.SummaryConserves | internal/control/cdnstats/cdnstats.go:182-238 | the networks shown hold every sample once |
| CdnLaws.ShownExactly | internal/control/cdnstats/cdnstats.go:182-238 | exactly the networks with a row are shown |
| CdnLaws.ShownHolds | internal/control/cdnstats/cdnstats.go:195-225 | a network's total is its rows' total, its addresses are their statistics rearranged in order |
| CdnLaws.StatMeasures | internal/control/cdnstats/cdnstats.go:199-206 | the rate times the samples is the answers, and the average is the whole milliseconds an answer took, 0 without one |
| CdnLaws.ShownIsLabelled | internal/control/cdnstats/cdnstats.go:182-198 | a network shows the last label given and the latest time among its rows |
| CdnLaws.EachNetworkOnce | internal/control/cdnstats/cdnstats.go:182-238 | no network twice, busiest first |
| CdnLaws.RankedMeans | internal/control/cdnstats/cdnstats.go:199-206 | ranked means three tries and four answers in five |
| CdnLaws.EarlyBreakSkipsNone | internal/control/cdnstats/cdnstats.go:240-250 | stopping at the first unranked address skips no ranked one |
| CdnLaws.RecommendedAreFastest | internal/control/cdnstats/cdnstats.go:240-250 | the addresses returned are limit many, or those of all ranked statistics, fastest first, and no ranked one left out is faster than one returned |
| CdnLaws.DownExactly | internal/control/cdnstats/cdnstats.go:226-233 | CDN down means nine samples and no answer |
| CdnHeader.ClientCandidates | internal/control/share/cdn_pool.go:195-212 | the two lists trimmed, filtered, deduplicated and capped |
| CdnHeader.CandidatesAreSound | internal/control/share/cdn_pool.go:195-212 | at most thirty distinct IPv4 addresses of the two lists, the pool's first, nothing dropped while there is room |
| CdnHeader.Order | internal/control/cdnstats/cdnstats.go:254-274 | the recommended candidates, then the rest |
| CdnHeader.OrderRearranges | internal/control/cdnstats/cdnstats.go:254-274 | a permutation of distinct candidates: the recommended among them once each and in order, the others in their order |
| CdnHeader.HeaderHoldsTheCandidates | internal/control/api/cdn_stats_handlers.go:102-120 | whatever a network recommends the client is handed the same candidates |
| Firewall.BuildDesired | internal/control/orchestrator/orchestrator.go:64-171 | the rendered listeners and the pushed openings from one read of the table |
| Firewall.DeriveAllowPorts | internal/control/orchestrator/orchestrator.go:420-459 | openings of enabled, reachable inbounds, each socket once |
| Firewall.BuildInboundSpec | internal/control/orchestrator/orchestrator.go:315-358 | one row rendered; tunnel and edge origins are forced onto loopback |
| FirewallClients.ListenersAreServedRows | internal/control/orchestrator/orchestrator.go:64-93 | the rendered listeners stand one for one, in order, for the enabled rows that run; each lets in that row's enabled clients, every one as often as the row has it and in its order |
| FirewallClients.RenderedUnlessMalformed | internal/control/orchestrator/orchestrator.go:64-93 | there is no configuration exactly when such a row's settings cannot be read |
| FirewallClients.RenderedStands | internal/control/orchestrator/orchestrator.go:315-358 | one rendered row: its socket, its settings, and its enabled clients by multiset and position |
| FirewallClients.SweptUsersAreShutOut | internal/control/quota/enforcer.go:49-93 | after a sweep no listener carries a client of a user past a limit |
| FirewallClients.SweepReachesTheEngine | internal/control/quota/enforcer.go:49-93 | a sweep takes from each listener the clients of users past a limit and no other |
| GatewayOrigin.ProtoIsProper | internal/control/orchestrator/orchestrator.go:533-548 | an opening is for tcp, udp or both: the row's own, else udp exactly for the two QUIC protocols |
| GatewayOrigin.GatewayOpensItsOrigin | internal/control/orchestrator/orchestrator.go:364-372 | the built-in gateway opens exactly port 80 and the port its origin names; otherwise nothing is opened for it |
| Firewall.ComputeAllowPorts | internal/control/orchestrator/orchestrator.go:260-268 | what the panel manages and what is pushed |
| FirewallLaws.OpeningsFollowTheTest | internal/control/orchestrator/orchestrator.go:420-459 | the derived openings are the sockets of enabled, unshielded rows that the orchestrator's own text test does not call local |
| FirewallLaws.OpeningsMatchListeners | internal/control/orchestrator/orchestrator.go:64-93 | openings and listeners on addresses that are not loopback are the same sockets exactly when every running, enabled, unshielded row on which the two loopback tests disagree has another such row with its socket: one the text test does not call local if it calls this one so, else one not on a loopback address |
| FirewallLaws.TestsDisagreeExactly | internal/control/orchestrator/orchestrator.go:406-416 | which listen texts the orchestrator's test and the handlers' test judge differently |
| FirewallLaws.LoopbackIsOpened | internal/control/orchestrator/orchestrator.go:410-459 | the port of an inbound on 127.0.0.2 is opened |
| FirewallLaws.LowProfileIsDark | internal/control/antiblock/antiblock.go:239-247 | in low-profile mode everything rendered is on 127.0.0.1 and nothing is opened for inbounds |
| FirewallLaws.PushedExactly | internal/control/orchestrator/orchestrator.go:260-268 | the pushed sockets are exactly those of inbounds, gateway, SSH, panel and the operator's rules; so SSH and panel always stay open |
| FirewallLaws.ManagedExactly | internal/control/orchestrator/orchestrator.go:476-503 | safe mode claims no port the operator has a rule for |
| FirewallLaws.NotesNameTheSource | internal/control/orchestrator/orchestrator.go:260-268 | each pushed rule names its source: an exposed inbound by its tag, the gateway, safe mode, or the operator's rule by its note |
| FirewallSync.FwKeyIsInjective | internal/control/orchestrator/orchestrator.go:310-312 | the text key stands for one port and protocol |
| FirewallSync.RuleStore.Sync | internal/control/orchestrator/orchestrator.go:272-308 | managed keys become the wanted ones in any map order and with duplicate wants; user rows and kept rows are untouched; a new row has the note last wanted; one write a difference |
| FirewallSync.SyncTwice | internal/control/orchestrator/orchestrator.go:272-308 | a second sync issues no write |
| Certificates.Gateway.IssueAsync | internal/control/gateway/gateway.go:390-408 | an attempt begins only when none is under way and the wait is over |
| Certificates.RetryIsHeard | internal/control/gateway/gateway.go:390-459 | after a retry, until something fails again, a request begins an attempt exactly when none is under way |
| CertificateWaits.BeginsExactly | internal/control/gateway/gateway.go:390-441 | over every run a request begins an attempt exactly when none is under way and the last outcome or retry before it is not a failure of an attempt for that same domain whose hour, or minute, is not over |
| CertificateWaits.ShownFailureExactly | internal/control/gateway/gateway.go:390-441 | a failure is shown exactly while it is the last outcome and no other domain was tried since, and for the domain that failed |
| Certificates.FailuresAreChargedRight | internal/control/gateway/gateway.go:390-441 | at most one attempt is under way and its domain is the one failures are charged to |
| Certificates.OrdersFollowLookups | internal/control/gateway/gateway.go:412-441 | an order is placed only in an attempt whose own lookup succeeded |
| Certificates.BackoffIsKept | internal/control/gateway/gateway.go:390-441 | after a failed order the next attempt for the domain begins an hour later at the earliest (a minute after a failed lookup) unless a retry or another domain intervenes |
| Certificates.FailedOrdersAreSpaced | internal/control/gateway/gateway.go:390-441 | so any window holds at most length/hour + 1 failed orders |
| Supervisor.Supervisor.BeginStop | internal/control/argo/supervisor.go:155-166 | the first section of Stop: the current process is told, its end is waited for |
| Supervisor.Supervisor.EndStop | internal/control/argo/supervisor.go:155-181 | the second section: the fields are cleared |
| Supervisor.Supervisor.InstallProcess | internal/control/argo/supervisor.go:195-285 | a started process takes the fields |
| Supervisor.AlwaysConsistent | internal/control/argo/supervisor.go:137-285 | at every moment the status is Idle exactly without a process, and a failed one has been reaped |
| Supervisor.InstallKeepsExactly | internal/control/argo/supervisor.go:195-285 | of all steps only a start while an untold process holds the fields can leave one behind, and no later step makes up for it |
| Supervisor.NewestRunsExactly | internal/control/argo/supervisor.go:137-285 | over any run all processes but the newest have been told to end exactly when a stop has at least begun between any two starts |
| Supervisor.OnlyTheNewestRuns | internal/control/argo/supervisor.go:137-285 | so with serialised starts all processes but the newest have been told |
| Supervisor.OverlappingStartsLeak | internal/control/argo/supervisor.go:195-285 | a run where two overlapping starts leave two processes |
| Supervisor.StatusIsOwn | internal/control/argo/supervisor.go:195-285 | from its start to the next start or stop a process's own events alone decide the status; reapers, captures and grace periods of all others change nothing |
| Supervisor.RunningIsEarned | internal/control/argo/supervisor.go:240-285 | Running means the current process printed the host name shown, or is a named one past its grace period, and was neither replaced nor stopped since |
| Supervisor.FailedStaysFailed | internal/control/argo/supervisor.go:240-285 | a failed status stays, until the next start or stop, exactly as long as that process's host name is not captured late |
| Supervisor.NamedStaysFailed | internal/control/argo/supervisor.go:240-285 | a reaped named tunnel shows Failed until the next start or stop |
| Supervisor.LateCaptureShowsRunning | internal/control/argo/supervisor.go:240-285 | a quick tunnel can show Running after its reap |
| Supervisor.StopStaysIdle | internal/control/argo/supervisor.go:155-181 | after a completed stop the status is Idle, and the process it found told, until the next start |
| Alerts.MarkIsInjective | internal/control/alerts/alerts.go:259 | a fingerprint stands for one kind and target |
| Alerts.DiffAlerts | internal/control/alertrunner/runner.go:129-147 | the new alarms in order and the engines that recovered |
| Alerts.Runner.Scan | internal/control/alertrunner/runner.go:108-122 | state is saved when nothing is to be said or the push went through |
| Alerts.Runner.RealityAlerts | internal/control/alertrunner/runner.go:172-219 | a due call probes and counts, any other repeats the verdict |
| Alerts.Runner.CountRound | internal/control/alertrunner/runner.go:183-210 | one round of probes: counters of the sites probed, first mention only |
| AlertRuns.DeliversRisingEdges | internal/control/alertrunner/runner.go:80-147 | over any run an alert is delivered exactly when found at a scan whose push goes through and not in alarm at the last scan that saved, as often as found |
| AlertRuns.PushesExactly | internal/control/alertrunner/runner.go:108-122 | a message is delivered exactly at a scan whose push goes through and at which, since the last scan that saved, a condition came into alarm or an engine left it; a scan saves exactly unless such a message fails |
| AlertRuns.FreshKeepsOrder | internal/control/alertrunner/runner.go:129-147 | new alerts keep the order in which they were found |
| AlertRuns.DeliversFallingEdges | internal/control/alertrunner/runner.go:80-147 | a recovery is delivered exactly at a scan whose push goes through, for an engine in alarm at the last scan that saved and not now, with or without new alerts |
| AlertRuns.PushedOnce | internal/control/alertrunner/runner.go:80-147 | a standing condition is pushed by the first message that gets through and by no later one |
| AlertRuns.AlarmsAfterTwoFailures | internal/control/alertrunner/runner.go:172-219 | a disguise site is reported exactly when its last two rounds failed, unless this call was due and could not list the inbounds |
| AlertRuns.DueExactly | internal/control/alertrunner/runner.go:172-182 | a call is due exactly when no due call lies less than half an hour before it |
| AlertRuns.FailedListingDropsAlarm | internal/control/alertrunner/runner.go:176-182 | a failed listing drops a standing alarm |
| AlertRuns.GapPushesTwice | internal/control/alertrunner/runner.go:80-147 | an alarm missing from one scan is pushed twice |
| Mirrors.MirrorBases | internal/control/antiblock/antiblock.go:265-276 | the loop over origin and mirrors |
| Mirrors.BasesAre | internal/control/antiblock/antiblock.go:265-276 | nothing but the https origin and the mirrors, none missing, origin first, the first not repeated |
| GatewayOrigin.LinksFollowTheEdge | internal/control/antiblock/antiblock.go:353-376 | links use the operator's base, else the edge domain once it is settled who serves it, else none |
| GatewayOrigin.FirstBaseIsOpen | internal/control/antiblock/antiblock.go:265-376 | with the built-in gateway the first base clients are handed names a port that is opened |
| Mirrors.Settings.Save | internal/control/antiblock/antiblock.go:196-228 | the stored posture, and a new number when the joined list changes |
| Mirrors.Settings.MirrorsHeader | internal/control/antiblock/antiblock.go:282-309 | version and bases of the header, absent without bases |
| MirrorRuns.JoinIdentifies | internal/control/antiblock/antiblock.go:224 | two lists of https bases have the same joined text exactly when they are the same once every base is cut at its seams, a seam being a newline before an https base |
| MirrorRuns.NumberStaysExactly | internal/control/antiblock/antiblock.go:224-226 | a save leaves the number exactly when the cuts are equal or the number is of that very second |
| MirrorRuns.VersionsAreFunctional | internal/control/antiblock/antiblock.go:196-228 | over any run equal numbers mean equal bases if and only if no save goes unnoticed: same second or same cuts, but other bases |
| MirrorRuns.VersionsRise | internal/control/antiblock/antiblock.go:196-228 | the numbers never fall |
| MirrorRuns.PlainSavesAreNoticed | internal/control/antiblock/antiblock.go:196-228 | saves in different seconds of settings that read back as saved, with seamless bases, are always noticed |
| MirrorRuns.SeamHidesAChange | internal/control/antiblock/antiblock.go:224 | a mirror with such a newline in its path is replaced unnoticed |
| MirrorRuns.TrailingSpaceHidesAChange | internal/control/antiblock/antiblock.go:80-100 | a base URL ending in a space is compared before Load trims it |
| MirrorRuns.SameSecondCollides | internal/control/antiblock/antiblock.go:225 | two changes in one second share a number |
| LoginLimiter.RateLimiter.Allow | internal/control/api/middleware.go:45-62 | one call on the shared map of slices; other keys' lists are untouched |
| LoginLimiter.Compact | internal/control/api/middleware.go:49-55 | compaction into the array being read keeps exactly the times after the cutoff |
| LoginLimiter.ListRefinesHistory | internal/control/api/middleware.go:45-62 | the short list and the full history of accepted calls agree inside the window |
| LoginLimiter.RefusedExactly | internal/control/api/middleware.go:45-62 | a call is refused exactly when limit accepted calls of its key lie in the window |
| LoginLimiter.LockoutIsNotExtended | internal/control/api/middleware.go:56-59 | the next call fares as if refused ones had not been made |
| LoginLimiter.WindowHoldsLimit | internal/control/api/middleware.go:45-62 | no window's length of time holds more than limit accepted calls |
| LogCap.File.Write | internal/logcap/logcap.go:42-58 | append, count, re-read the size past the ceiling, rotate |
| LogCap.File.Rotate | internal/logcap/logcap.go:62-72 | rename and reopen, each of which may fail |
| LogCap.OpenCounts | internal/logcap/logcap.go:27-40 | a log is opened with a count no smaller than the file exactly if its size could be read or it was empty |
| LogCap.WriteBounds | internal/logcap/logcap.go:42-72 | a write leaves the open file within the ceiling exactly when the text fits or a handle on path can be moved to a new file |
| LogCap.CeilingKeptExactly | internal/logcap/logcap.go:42-72 | over any run, whatever fails and whatever is truncated, the ceiling is kept after every write exactly when each write finds room or can rotate |
| LogCap.AttachedExactly | internal/logcap/logcap.go:60-72 | the handle is on path exactly as long as no write has detached it |
| LogCap.NeverAboveMax | internal/logcap/logcap.go:42-72 | after a write whose rename works the file is within the ceiling, whatever was truncated and however many renames failed before, if no rename was followed by a failed reopen |
| LogCap.LostReopenExceeds | internal/logcap/logcap.go:62-72 | a rename followed by a failed reopen leaves a handle on a file above the ceiling, which later writes make longer |
| LogCap.OlderIsBounded | internal/logcap/logcap.go:42-72 | the older file exceeds it by one write at most, unless it was longer from the start |
| LogCap.FilesHoldTheEnd | internal/logcap/logcap.go:42-72 | from any moment without later truncation both files are the end of what they held and what was written since; at least its last max bytes if the count was exact then or sizes can be read |
| LogCap.FailedRenameKeepsAll | internal/logcap/logcap.go:62-66 | a failed rename loses nothing |
| LogCap.FailedOpenNeverRotates | internal/logcap/logcap.go:62-72 | after a rename without a new file the log is never rotated again; path.1 ends with all that was written since its last truncation, and holds everything if there was none |

## Left out

- InboundResults.HealSettles: assumes canonical spellings and no clash of sockets; `ChangeHealsExactly` shows that a change heals in no other case.
- SettingsLaws.AutofillFills: says that the values are there; which ones, `SettingsValues` says, up to the random draws, which are a parameter.
- Supervisor.OnlyTheNewestRuns: says a process was told to end, not that it has ended; the wait for it can time out.
- Alerts.Runner.Scan: recovered engines are a set; the sorting of their names is not modelled.
- Passwords and flow of copied credentials, and the bundle subscription the users service rescopes.
- Certificates: the texts certStatus shows, and how Reconcile finds a valid certificate.
- Inbounds created by the wizard, port hopping and the ports it opens: assumed to satisfy the same gates, not modelled.
- Applying a configuration to the engines after a change, and its failure.
- The Cloudflare side of an origin switch is a flag; the restart of a temporary tunnel and the stored tunnel record are not modelled.
- The address heal's rewriting of the public address setting and of the capability file beyond its address lists.
- Failures of single database writes in the middle of an operation, and concurrent admin edits.
- The panel's statistics, whose count of expired users (`internal/control/api/observability_handlers.go:124`) leaves out the very second of expiry at which the sweep already disables.
- Rounding of floating-point rates and overflow of 64-bit counters.
- Sharing of entries in the limiter's map: they are values here.
- The growth policy of Go's append: any larger array will do.
- SampleCandidateIPs and randomHostInRange: random sampling without a further property.
- HTTP, JSON binding, audit log, message texts and the front end.
- The probes, network clients, cryptography and the subscription encoders.
