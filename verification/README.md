# Verified model of the Technitium DNS Companion back end

The back end keeps several stores in step with Technitium DNS: it writes scheduled and grouped rules into Advanced
Blocking configurations, rewrites regex rules as zone entries, caches block lists fetched over HTTP, mirrors DHCP leases
into DNS zones and shows domain lists as a tree. Whether it does so correctly depends on state, on tracking tables and on
the order of events. This project models those parts in Dafny and proves what they promise, for every input and every
run; where the code falls short, the exact condition under which it keeps the promise is proved instead.

Check the whole project with `dafny verify dfyconfig.toml` (Dafny 4.11).

## What is modelled

**DNS schedules** (`BlockingConfig`, `Schedule*`, `Window`). Schedules and temporary overrides share one live set of
(group, action, domain) entries. A tick first cleans up rows of sources that are no longer in rotation, then visits
every source in order: an open one is applied (what it tracked and no longer wants goes, what it wants and is not live
is added, tracking is set), a closed one is removed (tracked entries go unless another active source wants them).
Loads and writes fail without effect, for any subset of the sources. `ScheduleModel` is the transition system,
`ScheduleEvaluator` the service's loops and tables proved against it. Results: the exact effect of a tick, independent
of all orders outside the protected entries; two fault-free ticks converge and a third does nothing; over all runs
with faults tracking is the last successful apply since the last successful removal, what is still live of it stays
tracked until it is removed, and everything nobody tracks stays as it was. Findings: one tick is enough exactly if
every wanted entry that an apply drops is wanted again by a later source; a window that opens and closes restores the
configuration exactly if nothing that its removal takes was live before and everything it spares, because another
active source wants it, was; a tick leaves an owned entry without a tracking row exactly if it is protected by an
active source that cannot be applied.

**Domain Groups** (`DomainGroup*`). Bindings and entries are joined into a preview with allow/block conflicts; three
passes bring it into a configuration (materialised groups, owned pairs without entries, unbound pairs), and tracking
rows are committed after the write. Results: the preview's buckets and conflicts are exactly those of the join; the
passes compute (old minus tracked) plus materialised for every list; an apply is refused, fails or is done under exact
conditions on rows and faults; user entries survive all runs in order; two applies reach a fixed point. Findings: the
commit breaks exactly if an owned pair materialises one value both as an exact entry and as a regex, because rows do
not hold the match type; bind, apply, unbind, apply restores both lists exactly if nothing materialised was already in
either; one apply is enough exactly if every list of an owned pair held, of the values the pair materialises, only a
beginning of its own, at its end: otherwise the second apply moves an entry, or deletes a manual exact entry that is
equal to a materialised regex.

**Rule optimizer** (`Regex`, `Rule*`). Four extractors recognise regex texts and propose zone or host entries. Regular
expressions are a small syntax tree with a printed text and a match relation; the extractors work on texts. Results:
the accepted texts are exactly the documented forms; each accepted text is the text of an expression whose matches are
covered by the proposal, for the boundary, dot-star and label prefixes exactly the zone, for label alternations
whatever their body is and means; applying what an extractor proposes leaves a group that covers exactly what it
covered before plus the proposed zones.

**Domain list cache** (`DomainSuffix`, `WorkerPool`, `ListCache*`). The suffix lookup is proved against `endsWith`.
The bounded worker loop is proved for every schedule of its workers. For one URL used as one list kind, requests of
many nodes, the shared fetch with retries, back-off deadlines, replies, per-node cache maps and clears form a
transition system whose steps are the stretches between two awaits. Results: a request leads to a fetch exactly if the
node has nothing fresh to serve; at most one fetch and one write per node are under way and no waiter is lost; no
request goes out before a deadline set by an earlier 429 or 503 (section 10.2.3 of RFC 9110), and no fetch starts in
the pause after a transient failure; cached content is the parse of a body upstream served; failures never replace
content. Findings: a failure whose message is empty is stored as an empty list that counts as fresh content for a day;
a 304 answer to one node's validators also revalidates the list of every node that joined, which is right exactly if
that node holds the list whose validators were sent: a comparison of validators would tell, and one node alone is
always right.

**DHCP to DNS synchronisation** (`ManagedComment`, `DhcpSync*`). Live leases give desired records, which are compared
with the zones; ownership comments guard updates; rows of leases seen earlier give stale deletes. Results: the comment
survives printing and parsing exactly if its values are trimmed and free of `;`; a plan holds exactly the records of
the live leases, and deletes of stale ones; no run changes a record whose comment does not name a selected lease, and
no desired key is deleted; after a successful apply a new preview plans a create or update exactly if two live records
contradict each other, and a delete exactly if the apply left a suppressed one behind together with its row. Findings:
a stale record outlives the apply exactly if another stale lease's record with the same owner and IP was planned
first; the rows removed are those of the deleted records, for every pattern of failures, exactly if no delete shares
its owner and type with an earlier one of another lease.

**Domain tree** (`DomainTree*`). The tree is built by walking and counting, then sorted node by node. Results, in
terms of the domains alone: below the root there is one node for every name that some domain is equal to or ends in
after a dot, with the number of those domains; counts add up; sorting only reorders children. A node is marked as a
leaf exactly if the first of its domains is its name, so a domain listed after one of its subdomains is not marked.

`Options`, `Strings`, `Sequences` and `Sorting` hold shared notions.

## Assumptions

- A remote load or write succeeds, or fails without effect. The clock does not run backwards.
- The DNS server keeps no two records with the same owner, type and data (section 5 of RFC 2181), returns names in the
  case in which it received them, and finds a record that the service wrote under the owner and type it was written to.
  Owner names, reverse names and IP versions are computed by functions that are parameters of the model.
- Table rows come back in any order, each once. `localeCompare` orders any two texts, and transitively.

## Model

| member | source | states |
|---|---|---|
| BlockingConfig.LiveIff | apps/backend/src/technitium/dns-schedules-evaluator.service.ts:70-81 | an entry is live exactly if the first group of its name holds its domain in the list of its action |
| BlockingConfig.StripLive | apps/backend/src/technitium/dns-schedules-evaluator.service.ts:1024-1067 | the removal pass takes exactly the given entries out of the live set |
| BlockingConfig.StripChangesIffLive | apps/backend/src/technitium/dns-schedules-evaluator.service.ts:1024-1067 | it rewrites the configuration exactly if one of them was live |
| BlockingConfig.ExtendLive | apps/backend/src/technitium/dns-schedules-evaluator.service.ts:1071-1090 | the additions pass adds exactly the given entries to the live set |
| ScheduleModel.ProtectedIff | apps/backend/src/technitium/dns-schedules-evaluator.service.ts:524-554 | the protected entries are those some active source wants |
| ScheduleConvergence.DesiredIff | apps/backend/src/technitium/dns-schedules-evaluator.service.ts:540-554 | a source wants each of its own and its groups' domains, in each of its target groups, with its action, and nothing else |
| ScheduleEffects.ReconcileLive | apps/backend/src/technitium/dns-schedules-evaluator.service.ts:967-1090 | one apply: live becomes (live minus (tracked minus wanted)) plus wanted |
| ScheduleEffects.EvaluateVisits | apps/backend/src/technitium/dns-schedules-evaluator.service.ts:603-756 | whatever fails: a visit fails exactly if a load or write that it needs fails or a group is missing, and then changes nothing; otherwise its full effect on live entries, tracking, the applied row and the number of writes, other sources' rows untouched; and the outcome it reports |
| ScheduleEffects.CleanupVisits | apps/backend/src/technitium/dns-schedules-evaluator.service.ts:344-384 | the same for the cleanup of a stale row |
| ScheduleApply.ListAfterApply | apps/backend/src/technitium/dns-schedules-evaluator.service.ts:1022-1090 | one list after one apply: survivors in their old order, then each missing wanted domain once |
| ScheduleApply.ShadowedGroupStays | apps/backend/src/technitium/dns-schedules-evaluator.service.ts:1032-1033 | a later group of the same name is untouched |
| ScheduleEffects.ApplyChangesIff | apps/backend/src/technitium/dns-schedules-evaluator.service.ts:1092-1098 | the configuration differs exactly if a dropped entry was live or a wanted one was not |
| ScheduleTick.TickLive | apps/backend/src/technitium/dns-schedules-evaluator.service.ts:301-466 | closed form of a fault-free tick: what is live afterwards follows from the effects of the sources in list order, judged by the tables before the tick |
| ScheduleConvergence.TickOutsideProtected | apps/backend/src/technitium/dns-schedules-evaluator.service.ts:301-466 | outside the protected entries exactly the claimed ones (tracked, or resolved for an inactive applied source without tracking) go and nothing comes |
| ScheduleConvergence.OrderIrrelevantOutsideProtected | apps/backend/src/technitium/dns-schedules-evaluator.service.ts:301-466 | neither the order of sources nor that of table rows matters there |
| ScheduleConvergence.OneTickSettlesTables | apps/backend/src/technitium/dns-schedules-evaluator.service.ts:603-756 | after one fault-free tick every source that can be applied tracks what it wants and no inactive one has rows |
| ScheduleConvergence.OneTickHeals | apps/backend/src/technitium/dns-schedules-evaluator.service.ts:1002-1020 | if tracking already equals what is wanted, one tick makes all of it live, whatever was deleted from outside |
| ScheduleConvergence.SettledIsFixed | apps/backend/src/technitium/dns-schedules-evaluator.service.ts:1092-1115 | a settled state with everything live is a fixed point: no write, no tracking change |
| ScheduleConvergence.TwoTicksConverge | apps/backend/src/technitium/dns-schedules-evaluator.service.ts:247-498 | two fault-free ticks make everything wanted live; the third changes nothing |
| ScheduleConvergence.OneTickIsEnoughIff | apps/backend/src/technitium/dns-schedules-evaluator.service.ts:994-1000 | one tick is enough exactly if every wanted entry dropped by an apply is restored later in the same pass |
| ScheduleConvergence.OneTickIsNotAlwaysEnough | apps/backend/src/technitium/dns-schedules-evaluator.service.ts:994-1000 | the smallest case in which it is not: a domain moved from a later to an earlier source |
| ScheduleRuns.TickFaithful | apps/backend/src/technitium/dns-schedules-evaluator.service.ts:360-400 | a tick with any faults keeps tracking equal to the last successful apply since the last removal |
| ScheduleRuns.RunConsistent | apps/backend/src/technitium/dns-schedules-evaluator.service.ts:662-748 | the same over every run with edits, window changes, deletions and faults; non-empty tracking always has an applied row |
| ScheduleFaults.NothingLiveIsForgotten | apps/backend/src/technitium/dns-schedules-evaluator.service.ts:1179-1187 | whatever fails in a tick, a tracked entry that no active source wants and that is still live afterwards is still tracked |
| ScheduleFaults.NewlyTrackedIsLiveOrTaken | apps/backend/src/technitium/dns-schedules-evaluator.service.ts:1098-1127 | whatever fails, tracking that changes to anything but empty is what an active source with all its groups wants, and each entry of it is live unless a later source, applied too, dropped it |
| ScheduleRuns.FreshInstallIsConsistent | apps/backend/src/technitium/dns-schedules.service.ts:492-570 | empty tables are consistent |
| ScheduleRuns.RemovalIsRetried | apps/backend/src/technitium/dns-schedules-evaluator.service.ts:335-410 | at any point of any run one fault-free tick takes away what an inactive source still tracks |
| ScheduleRuns.RunLeavesOthersAlone | apps/backend/src/technitium/dns-schedules-evaluator.service.ts:1022-1250 | over every run, everything outside what sources want or track keeps members, order, multiplicity and all other fields |
| ScheduleOwnership.OpenCloseRestoresIff | apps/backend/src/technitium/dns-schedules-evaluator.service.ts:1133-1249 | apply then remove restores the configuration exactly if nothing that the removal takes was live before and everything it spares, because another active source wants it, was |
| ScheduleOwnership.AbandonedIsOrphaned | apps/backend/src/technitium/dns-schedules-evaluator.service.ts:524-538 | an abandoned entry stays live and loses its last tracking row |
| ScheduleOwnership.NoOrphansIff | apps/backend/src/technitium/dns-schedules-evaluator.service.ts:524-538 | a tick leaves no owned entry untracked exactly if none is abandoned |
| ScheduleEvaluator.StripPass | apps/backend/src/technitium/dns-schedules-evaluator.service.ts:1024-1067 | the loop over removals by group computes the strip; its flag says whether the configuration differs |
| ScheduleEvaluator.ExtendPass | apps/backend/src/technitium/dns-schedules-evaluator.service.ts:1071-1090 | the loop over additions by group computes the extension |
| ScheduleEvaluator.DesiredEntries | apps/backend/src/technitium/dns-schedules-evaluator.service.ts:969-980 | the keyed map of wanted tuples is the duplicate-free product of groups and domains |
| ScheduleEvaluator.MissingEntries | apps/backend/src/technitium/dns-schedules-evaluator.service.ts:1016-1020 | the wanted tuples that are not live, in order |
| ScheduleEvaluator.ProtectedEntries | apps/backend/src/technitium/dns-schedules-evaluator.service.ts:524-538 | the loop collects the protected entries |
| ScheduleEvaluator.ReconcilePasses | apps/backend/src/technitium/dns-schedules-evaluator.service.ts:1022-1098 | both passes compute the reconciliation, and their flag is "the configuration differs" |
| ScheduleEvaluator.Evaluator.ListAppliedEntries | apps/backend/src/technitium/dns-schedules.service.ts:345-372 | the tracked entries of a source |
| ScheduleEvaluator.Evaluator.SetAppliedEntries | apps/backend/src/technitium/dns-schedules.service.ts:374-419 | replaces a source's tracking rows |
| ScheduleEvaluator.Evaluator.ClearAppliedEntries | apps/backend/src/technitium/dns-schedules.service.ts:421-430 | deletes a source's tracking rows |
| ScheduleEvaluator.Evaluator.SetConfig | apps/backend/src/technitium/dns-schedules-evaluator.service.ts:1092-1098 | a write replaces the groups, keeps the rest of the configuration and counts once |
| ScheduleEvaluator.Evaluator.ApplyToNode | apps/backend/src/technitium/dns-schedules-evaluator.service.ts:940-1116 | the apply is the transition, including the skipped tracking write, which rests on subset plus equal size |
| ScheduleEvaluator.Evaluator.RemoveFromNode | apps/backend/src/technitium/dns-schedules-evaluator.service.ts:1118-1250 | the removal is the transition |
| ScheduleEvaluator.Evaluator.MarkApplied | apps/backend/src/technitium/dns-schedules.service.ts:315-325 | adds the applied row |
| ScheduleEvaluator.Evaluator.MarkRemoved | apps/backend/src/technitium/dns-schedules.service.ts:327-334 | deletes the applied row and nothing else |
| ScheduleEvaluator.Evaluator.EvaluateSource | apps/backend/src/technitium/dns-schedules-evaluator.service.ts:603-756 | one source's evaluation is the transition |
| ScheduleEvaluator.Evaluator.CleanupRow | apps/backend/src/technitium/dns-schedules-evaluator.service.ts:344-410 | one stale row's cleanup is the transition |
| ScheduleEvaluator.Evaluator.ListAppliedState | apps/backend/src/technitium/dns-schedules.service.ts:287-301 | the applied rows, each once |
| ScheduleEvaluator.Evaluator.RunEvaluation | apps/backend/src/technitium/dns-schedules-evaluator.service.ts:247-498 | a run of the service is one tick |
| Window.ActiveIffInInterval | apps/backend/src/technitium/dns-schedules-evaluator.service.ts:1436-1481 | the test accepts a local time exactly if it is within a selected day's window on the circular week |
| Window.ActiveMinutesPerWeek | apps/backend/src/technitium/dns-schedules-evaluator.service.ts:1436-1481 | a week has selected days (or 7) times window length active minutes |
| DomainGroupPreview.JoinIff | apps/backend/src/technitium/domain-groups.service.ts:753-788 | the preview rows are bindings joined with entries |
| DomainGroupPreview.ConflictsAre | apps/backend/src/technitium/domain-groups.service.ts:814-840 | conflicts are the keys that rows both allow and block |
| DomainGroupPreview.ConflictsListed | apps/backend/src/technitium/domain-groups.service.ts:814-840 | the preview lists each of them once |
| DomainGroupPreview.MaterializedIff | apps/backend/src/technitium/domain-groups.service.ts:815-865 | a value is materialised exactly if some binding asks for it and none of the opposite action does, once |
| DomainGroupPreview.PreviewFits | apps/backend/src/technitium/domain-groups.service.ts:753-995 | every preview meets what the passes rely on |
| DomainGroupEffects.PassesComputeNextList | apps/backend/src/technitium/domain-groups.service.ts:1095-1325 | the three passes compute every list of every group and create exactly the groups with something materialised |
| DomainGroupEffects.NewListIsOldMinusTrackedPlusMaterialized | apps/backend/src/technitium/domain-groups.service.ts:1138-1200 | as sets: new is (old minus tracked) plus materialised |
| DomainGroupCommit.PassesExtend | apps/backend/src/technitium/domain-groups.service.ts:1095-1325 | no group is lost, renamed or moved, no other field changes, shadowed groups keep their lists |
| DomainGroupCommit.CommitWritesIff | apps/backend/src/technitium/domain-groups.service.ts:1328-1346 | the writes commit exactly if no written value repeats within a pair, with the resulting rows |
| DomainGroupCommit.CommitRecordsMaterialized | apps/backend/src/technitium/domain-groups.service.ts:1328-1346 | the commit goes through exactly if no owned pair has a value both exact and regex; then rows are the materialised values, and none for unbound pairs |
| DomainGroupOutcome.OutcomeIff | apps/backend/src/technitium/domain-groups.service.ts:1360-1516 | an apply is refused exactly if two rows conflict; it is done exactly if none do, no load and no needed write fails, and no pair gets a value twice |
| DomainGroupOutcome.FailureChangesNothing | apps/backend/src/technitium/domain-groups.service.ts:1365-1371 | a refused apply, a failed load and a failed needed write leave configuration and rows as they were |
| DomainGroupOutcome.OtherwiseListsAreRight | apps/backend/src/technitium/domain-groups.service.ts:1452-1516 | in every other case all lists are written as they should be |
| DomainGroupOutcome.OnlyBoundGroupsAreCreated | apps/backend/src/technitium/domain-groups.service.ts:1104-1115 | new groups come last, spelled as in a binding, with nothing but lists; the others keep place, name and other fields |
| DomainGroupOutcome.PendingIff | apps/backend/src/technitium/domain-groups.service.ts:948-974 | the pending test finds a pair exactly if it does not track what is materialised for it |
| DomainGroupRuns.ApplyDone | apps/backend/src/technitium/domain-groups.service.ts:1360-1516 | an apply that went through: lists and tracking |
| DomainGroupRuns.NothingPendingAfterApply | apps/backend/src/technitium/domain-groups.service.ts:948-974 | a recomputed preview has no pending pair |
| DomainGroupRuns.ApplyKeepsOthers | apps/backend/src/technitium/domain-groups.service.ts:1360-1516 | one apply, whatever its outcome, keeps the other entries in their order |
| DomainGroupRuns.RunKeepsUserEntries | apps/backend/src/technitium/domain-groups.service.ts:1139-1346 | through any run with edits and failures, entries never materialised and not tracked at the start stay in order |
| DomainGroupRuns.BindUnbindRestoresIff | apps/backend/src/technitium/domain-groups.service.ts:1266-1325 | bind, apply, unbind, apply restores duplicate-free lists exactly if the materialised values were in neither list |
| DomainGroupConvergence.TwoAppliesConverge | apps/backend/src/technitium/domain-groups.service.ts:1360-1516 | two successful applies reach a fixed point of lists and tracking |
| DomainGroupOneApply.OneApplyIsEnoughIff | apps/backend/src/technitium/domain-groups.service.ts:1139-1207 | the second of two successful applies changes no group exactly if every list of an owned pair had, of what the pair materialises, only a beginning of its own materialised values, at its end |
| DomainGroupOneApply.ListsOfTwoApplies | apps/backend/src/technitium/domain-groups.service.ts:1139-1207 | the lists of an owned pair after the first and after the second apply |
| DomainGroupOneApply.SecondApplyMoves | apps/backend/src/technitium/domain-groups.service.ts:1139-1170 | a manual entry that is also materialised moves behind the others at the second apply |
| DomainGroupOneApply.SecondApplyDeletes | apps/backend/src/technitium/domain-groups.service.ts:1153-1157 | a manual exact entry equal to a materialised regex survives the first apply and is deleted by the second |
| DomainGroupService.UnchangedOverall | apps/backend/src/technitium/domain-groups.service.ts:1459-1477 | nothing was pushed to the updated groups exactly if the configuration is the same |
| DomainGroupService.MergeMaterialized | apps/backend/src/technitium/domain-groups.service.ts:1095-1215 | the first pass, with its updated groups and tracking writes |
| DomainGroupService.MergeBucket | apps/backend/src/technitium/domain-groups.service.ts:1098-1213 | one materialised group is created or merged; it is reported exactly if something changed |
| DomainGroupService.DropTracked | apps/backend/src/technitium/domain-groups.service.ts:1219-1325 | the loop of the second and third pass |
| DomainGroupService.ApplyMaterializedGroups | apps/backend/src/technitium/domain-groups.service.ts:1035-1358 | the three passes with pending writes and deletes |
| DomainGroupService.MergeRows | apps/backend/src/technitium/domain-groups.service.ts:786-813 | the keyed merge of rows keeps first names and collects actions |
| DomainGroupService.BuildPreview | apps/backend/src/technitium/domain-groups.service.ts:814-865 | buckets and conflicts of the preview |
| DomainGroupService.Service.CommitTracking | apps/backend/src/technitium/domain-groups.service.ts:1328-1346 | deletes and inserts rows write by write; a repeated row stops it half-way |
| DomainGroupService.Service.ListTrackedPairs | apps/backend/src/technitium/domain-groups.service.ts:1270-1279 | the pairs with rows, each once |
| DomainGroupService.Service.ApplyMaterialization | apps/backend/src/technitium/domain-groups.service.ts:1360-1516 | the single-node apply is the transition |
| RuleZones.ZoneExtractionSound | apps/backend/src/technitium/advanced-blocking.service.ts:892-937 | an accepted text is the text of an expression all of whose matches are in the returned zone |
| RuleExact.ZoneExtractionExact | apps/backend/src/technitium/advanced-blocking.service.ts:917-934 | it matches exactly the zone (without its apex for the `+` forms), on the names its prefix can spell |
| RuleAcceptance.ZoneAcceptedIff | apps/backend/src/technitium/advanced-blocking.service.ts:892-937 | the zone extractor accepts exactly the twelve prefixes before an escaped domain and `$` |
| RuleAcceptance.ApexAcceptedIff | apps/backend/src/technitium/advanced-blocking.service.ts:943-951 | the apex extractor accepts exactly an escaped domain between `^` and `$` |
| RuleAcceptance.HostsAcceptedIff | apps/backend/src/technitium/advanced-blocking.service.ts:961-984 | the host extractor accepts, in parentheses, exactly two or more host labels before an escaped domain |
| RuleAcceptance.LabelsAcceptedIff | apps/backend/src/technitium/advanced-blocking.service.ts:994-1016 | the label extractor accepts exactly a non-capturing group without inner parentheses and with two branches that are not blank, before an escaped domain |
| RuleHosts.ApexExtractionExact | apps/backend/src/technitium/advanced-blocking.service.ts:943-951 | an apex pattern matches the apex only |
| RuleHosts.HostExtractionExact | apps/backend/src/technitium/advanced-blocking.service.ts:961-984 | a parenthesised host alternation matches exactly the listed names, all in the apex zone |
| RuleHosts.LabelExtractionExact | apps/backend/src/technitium/advanced-blocking.service.ts:994-1016 | a label alternation, of any body with any meaning, matches exactly the names that end in a dot and the apex and in which the body matches what stands before |
| RuleHosts.ExtractedBindAsWritten | apps/backend/src/technitium/advanced-blocking.service.ts:892-1016 | in the texts of all these expressions the parts bind as in the expression |
| RuleApply.ApplyOptimization | apps/backend/src/technitium/advanced-blocking.service.ts:524-656 | which error or which group update an apply gives: one pattern occurrence less, entries added to the sorted domain list without duplicates, everything else the same |
| RuleOutcome.OutcomeIff | apps/backend/src/technitium/advanced-blocking.service.ts:524-635 | an apply is rejected, for the first of four reasons, or updates the groups, exactly under these conditions on request and groups |
| RuleOutcome.UpdateIs | apps/backend/src/technitium/advanced-blocking.service.ts:605-656 | an update takes out the pattern's first occurrence, makes the target domains the normalised old and the proposed ones, in order and each once, and changes nothing else |
| RuleApply.NormalizeIff | apps/backend/src/technitium/advanced-blocking.service.ts:871-878 | an entry is normalised to what it is but for blanks at its ends, case, and one dot at its end |
| RuleApply.CoverageIsKept | apps/backend/src/technitium/advanced-blocking.service.ts:605-656 | afterwards the side covers exactly what it covered before plus the new zones; the other side is unchanged |
| RuleApply.ZoneReplaces | apps/backend/src/technitium/advanced-blocking.service.ts:684-711 | a zone proposal covers its pattern |
| RuleApply.ApexReplaces | apps/backend/src/technitium/advanced-blocking.service.ts:713-740 | an apex proposal covers its pattern |
| RuleApply.HostsReplace | apps/backend/src/technitium/advanced-blocking.service.ts:743-781 | both host proposals cover their pattern |
| RuleApply.LabelsReplace | apps/backend/src/technitium/advanced-blocking.service.ts:782-823 | a label alternation's apex proposal covers its pattern, for any body with any meaning |
| RuleApply.SortedList | apps/backend/src/technitium/advanced-blocking.service.ts:645-651 | the members of a set, each once, in order |
| RuleEndToEnd.ZoneApplied | apps/backend/src/technitium/advanced-blocking.service.ts:524-656 | applying the zone proposed for a pattern that means its expression: the updated group covers exactly what it covered before plus that zone |
| RuleEndToEnd.ApexApplied | apps/backend/src/technitium/advanced-blocking.service.ts:524-656 | the same for the apex proposed for an apex pattern |
| RuleEndToEnd.HostsApplied | apps/backend/src/technitium/advanced-blocking.service.ts:524-656 | the same for either proposal for a host alternation |
| RuleEndToEnd.LabelsApplied | apps/backend/src/technitium/advanced-blocking.service.ts:524-656 | the same for the apex proposed for a label alternation |
| DomainSuffix.UnderIffTail | apps/backend/src/technitium/domain-list-cache.service.ts:2468-2474 | the entries a domain falls under by `endsWith` are itself and the joined proper tails of its labels |
| DomainSuffix.MatchInSet | apps/backend/src/technitium/domain-list-cache.service.ts:2457-2477 | the walk finds an entry exactly if the domain falls under one, and then the longest |
| WorkerPool.StepInv | apps/backend/src/technitium/domain-list-cache.service.ts:227-238 | a step of any worker keeps: indices below the cursor are claimed exactly once |
| WorkerPool.EveryInterleaving | apps/backend/src/technitium/domain-list-cache.service.ts:218-248 | for every schedule: the limit on calls, no index called twice, results of the right items |
| WorkerPool.EveryScheduleEnds | apps/backend/src/technitium/domain-list-cache.service.ts:218-248 | every schedule ends, after exactly 2n + w turns, or 3n + w with jitter, with every index called once and its result stored |
| WorkerPool.RunWithConcurrencyLimit | apps/backend/src/technitium/domain-list-cache.service.ts:218-248 | under any scheduler the result is the worker's results in input order |
| ListCacheSafety.StepFetches | apps/backend/src/technitium/domain-list-cache.service.ts:1768-1781 | every step keeps one shared fetch at most, named by its slot, with at most two retries |
| ListCacheSafety.StepWriters | apps/backend/src/technitium/domain-list-cache.service.ts:2003-2022 | every step keeps one cache write per node, which knows its map's entry |
| ListCacheSafety.StepAwaited | apps/backend/src/technitium/domain-list-cache.service.ts:1773-1780 | every step keeps waiting writers attached to a fetch |
| ListCacheRuns.StepDeadlines | apps/backend/src/technitium/domain-list-cache.service.ts:1867-1883 | a deadline still ahead stays recorded and no fetch is under way |
| ListCacheRuns.StepPauses | apps/backend/src/technitium/domain-list-cache.service.ts:1885-1906 | a pause still on stays recorded until a fetch succeeds |
| ListCacheRuns.StepGenuine | apps/backend/src/technitium/domain-list-cache.service.ts:2034-2108 | every step keeps entries without an error message equal to the parse of some served body |
| ListCacheRequests.RequestWritesIff | apps/backend/src/technitium/domain-list-cache.service.ts:1908-1917 | in every run a request makes a node write exactly if it writes nothing yet and has no entry, a failure whose pause is over, or a day-old list; otherwise it only opens the node's map |
| ListCacheRequests.WriterAwaitsFetch | apps/backend/src/technitium/domain-list-cache.service.ts:1992-2037 | that writer awaits a fetch under way when no back-off is on, has failed at once in a pause, and awaits a refusal under a rate limit |
| ListCacheRequests.BackOffIff | apps/backend/src/technitium/domain-list-cache.service.ts:1867-1906 | in every run a rate limit refuses requests exactly while a deadline heard from upstream is ahead, and a pause exactly while that of a transient failure is on with no success since |
| ListCacheRequests.ClearForgets | apps/backend/src/technitium/domain-list-cache.service.ts:1554-1564 | a cleared node has nothing to serve, and no other node notices |
| ListCacheRequests.LossIsRetried | apps/backend/src/technitium/domain-list-cache.service.ts:1920-1961 | a transient loss is retried after one and three seconds, the third ends the fetch |
| ListCacheTheorems.RunSafe | apps/backend/src/technitium/domain-list-cache.service.ts:1768-2157 | all of these hold in every run |
| ListCacheTheorems.SingleFlight | apps/backend/src/technitium/domain-list-cache.service.ts:1756-1781 | of all fetches ever started at most one is unfinished, with at most three requests sent |
| ListCacheTheorems.SingleWrite | apps/backend/src/technitium/domain-list-cache.service.ts:2008-2022 | per node at most one cache write is under way |
| ListCacheTheorems.NoWaiterIsLost | apps/backend/src/technitium/domain-list-cache.service.ts:2036-2037 | every waiter waits for a reply, a timer or an enabled step |
| ListCacheTheorems.RetryAfterIsKept | apps/backend/src/technitium/domain-list-cache.service.ts:1867-1883 | no request of any run goes out before a deadline set by an earlier 429 or 503 |
| ListCacheTheorems.TransientPauseIsKept | apps/backend/src/technitium/domain-list-cache.service.ts:1885-1906 | for five minutes after a transient failure no request of any node starts a fetch, unless one succeeds |
| ListCacheTheorems.PageReachesWaiter | apps/backend/src/technitium/domain-list-cache.service.ts:2080-2108 | the page that answers the shared fetch is what every waiting node stores and answers, fresh and with its validators |
| ListCacheTheorems.FailuresLoseNothing | apps/backend/src/technitium/domain-list-cache.service.ts:2109-2157 | clears apart, content stays content and only a confirming or replacing reply changes it |
| ListCacheTheorems.ContentComesFromUpstream | apps/backend/src/technitium/domain-list-cache.service.ts:2080-2091 | if failures carry a message, what counts as content is the parse of a served page with its validators, and every error entry is empty |
| ListCacheTheorems.ContentOrNamelessFailure | apps/backend/src/technitium/domain-list-cache.service.ts:2120-2135 | without that condition it may also be the empty remains of a failure without a message |
| ListCacheTheorems.FailureTakenForContentIff | apps/backend/src/technitium/domain-list-cache.service.ts:1908-1916 | a stored failure counts as content exactly if its message is empty |
| ListCacheTheorems.NamelessFailureIsServed | apps/backend/src/technitium/domain-list-cache.service.ts:1908-1916 | then the empty list is served for a day without asking upstream, after transient failures too |
| ListCacheScenarios.NamelessRunServesNothing | apps/backend/src/technitium/domain-list-cache.service.ts:1920-2001 | from the empty cache: after replies lost without a message, transient or not, the node serves an empty list for a day that no page contains |
| ListCacheSharing.RevalidationIsRightIff | apps/backend/src/technitium/domain-list-cache.service.ts:2039-2061 | in every run a writer resumed on a 304 stores the list upstream confirmed exactly if the entry it captured has that list |
| ListCacheSharing.SameValidatorsAreEnough | apps/backend/src/technitium/domain-list-cache.service.ts:2039-2061 | it does if the captured entry has the validators that were sent, and upstream gives different content different validators |
| ListCacheSharing.ValidatorsDecideIff | apps/backend/src/technitium/domain-list-cache.service.ts:2039-2061 | and only then, if upstream gives the same list the same validators |
| ListCacheSharing.OneNodeStoresConfirmed | apps/backend/src/technitium/domain-list-cache.service.ts:2003-2061 | in every run in which one node asks, a 304 that confirms a list stores that list |
| ListCacheScenarios.SharedRunStoresOldList | apps/backend/src/technitium/domain-list-cache.service.ts:2039-2061 | from the empty cache: one node's old list counts as fresh after a 304 for another node's newer list |
| ListCacheService.ListCache.EnforceRateLimitBackoff | apps/backend/src/technitium/domain-list-cache.service.ts:1867-1883 | refuses while the deadline is ahead, forgets it when it has passed |
| ListCacheService.ListCache.EnforceTransientFailureBackoff | apps/backend/src/technitium/domain-list-cache.service.ts:1885-1897 | the same for transient failures |
| ListCacheService.ListCache.RecordTransientFailure | apps/backend/src/technitium/domain-list-cache.service.ts:1899-1906 | only transient failures that are no back-off errors are recorded |
| ListCacheService.ListCache.IsCachedEntryFresh | apps/backend/src/technitium/domain-list-cache.service.ts:1908-1917 | the freshness test |
| ListCacheService.ListCache.FetchDomainListOnce | apps/backend/src/technitium/domain-list-cache.service.ts:1768-1781 | refuse, join or start: the transition and the promise awaited |
| ListCacheService.ListCache.StoreFailure | apps/backend/src/technitium/domain-list-cache.service.ts:2109-2157 | the catch branch is the transition |
| ListCacheService.ListCache.GetOrFetchList | apps/backend/src/technitium/domain-list-cache.service.ts:1992-2023 | a request is the transition |
| ListCacheService.ListCache.ExecuteDomainFetch | apps/backend/src/technitium/domain-list-cache.service.ts:1783-1813 | a reply is the transition, with its retry, back-off and success branches |
| ListCacheService.ListCache.FetchAndStoreList | apps/backend/src/technitium/domain-list-cache.service.ts:2037-2157 | storing after the fetch is the transition |
| ListCacheService.ListCache.AddInFlightWrite | apps/backend/src/technitium/domain-list-cache.service.ts:2012-2021 | the write under way is entered under its node |
| ManagedComment.RoundTripIff | apps/backend/src/technitium/dhcp-dns-sync.service.ts:794-835 | parsing a built comment gives all fields back exactly if every value is trimmed and has no `;` |
| ManagedComment.BuiltPartCount | apps/backend/src/technitium/dhcp-dns-sync.service.ts:794-804 | a built comment has one part for the prefix, two for node and scope, and one for each further value there is |
| ManagedComment.ParsesIff | apps/backend/src/technitium/dhcp-dns-sync.service.ts:806-816 | a comment is taken for the service's own exactly if its first part is the prefix, without case |
| ManagedComment.ParseMore | apps/backend/src/technitium/dhcp-dns-sync.service.ts:806-835 | a further part adds what it says |
| ManagedComment.PartMeans | apps/backend/src/technitium/dhcp-dns-sync.service.ts:816-835 | a part sets the field its key names, without case; no value or another key sets nothing |
| ManagedComment.BuildManagedComment | apps/backend/src/technitium/dhcp-dns-sync.service.ts:794-804 | the parts pushed and joined |
| ManagedComment.ParseManagedComment | apps/backend/src/technitium/dhcp-dns-sync.service.ts:806-835 | the loop that sets fields part by part |
| DhcpSyncPlan.EntryIsLive | apps/backend/src/technitium/dhcp-dns-sync.service.ts:384-401 | every plan entry but a delete is for an address or PTR record of a live lease and has the right status for the records found |
| DhcpSyncPlan.LiveHasEntry | apps/backend/src/technitium/dhcp-dns-sync.service.ts:384-401 | and every such record has an entry |
| DhcpSyncPlan.ReversePlannedIff | apps/backend/src/technitium/dhcp-dns-sync.service.ts:338-349 | a live lease has a PTR entry exactly if they are asked for and its reverse zone exists |
| DhcpSyncPlan.DeleteIsRight | apps/backend/src/technitium/dhcp-dns-sync.service.ts:505-616 | every delete removes the one record managed for a row unseen for the grace period that no live lease wants |
| DhcpSyncPlan.DeletableIsPlanned | apps/backend/src/technitium/dhcp-dns-sync.service.ts:505-616 | and of such records with one owner and address, one is deleted |
| DhcpSyncOwnership.OwnIsOnlyFor | apps/backend/src/technitium/dhcp-dns-sync.service.ts:794-835 | a record written for plain values is managed for its lease and no other |
| DhcpSyncOwnership.PlannedIsOwned | apps/backend/src/technitium/dhcp-dns-sync.service.ts:505-616 | a planned update or delete names a record that is managed for its lease; a delete is for a stale row and a key nobody desires |
| DhcpSyncOwnership.OnlyOwnRecordsChange | apps/backend/src/technitium/dhcp-dns-sync.service.ts:230-298 | a record changed by an apply, whatever fails, was planned so with that justification |
| DhcpSyncOwnership.RunsKeepOthersRecords | apps/backend/src/technitium/dhcp-dns-sync.service.ts:230-298 | no sequence of applies changes a record whose comment names none of the selected leases |
| DhcpSyncConvergence.UnsettledIff | apps/backend/src/technitium/dhcp-dns-sync.service.ts:622-683 | after all writes an item needs a create or update exactly if two items contradict each other |
| DhcpSyncConvergence.AgreedItemSettled | apps/backend/src/technitium/dhcp-dns-sync.service.ts:622-683 | items that agree per key never do, whatever their names |
| DhcpSyncTheorems.ConvergesIff | apps/backend/src/technitium/dhcp-dns-sync.service.ts:313-428 | the preview after a successful apply plans a create or update exactly if two live records contradict each other |
| DhcpSyncTheorems.ConvergesForDistinctKeys | apps/backend/src/technitium/dhcp-dns-sync.service.ts:313-428 | with distinct owner and type keys it plans neither |
| DhcpSyncTheorems.NoDeleteAfter | apps/backend/src/technitium/dhcp-dns-sync.service.ts:493-616 | it plans no delete unless one was suppressed, whatever rows are listed then |
| DhcpSyncTheorems.DeletesAgainIff | apps/backend/src/technitium/dhcp-dns-sync.service.ts:493-616 | it plans a delete exactly if a stale row's record had its delete suppressed and the row was neither removed nor marked |
| DhcpSyncExample.SuppressedDeleteComesBack | apps/backend/src/technitium/dhcp-dns-sync.service.ts:493-616 | two successful runs from an empty table reach a state whose next preview does |
| DhcpSyncDeletes.SuppressedIff | apps/backend/src/technitium/dhcp-dns-sync.service.ts:539-541 | a candidate's delete key is taken exactly if an earlier matching candidate has the same key and ip |
| DhcpSyncTheorems.StaleRecordRemainsAfterApplyIff | apps/backend/src/technitium/dhcp-dns-sync.service.ts:596-599 | a stale lease's record outlives a successful apply exactly if its delete was suppressed |
| DhcpSyncTheorems.RowsFollowRecordsIff | apps/backend/src/technitium/dhcp-dns-sync.service.ts:281-297 | for every pattern of failures the removed rows are those of the deleted records, exactly if no delete shares its key with an earlier entry of another lease |
| DhcpSyncService.DesiredKeys | apps/backend/src/technitium/dhcp-dns-sync.service.ts:326-350 | the loop that collects the desired keys |
| DhcpSyncService.PlanDiffs | apps/backend/src/technitium/dhcp-dns-sync.service.ts:384-401 | the loop over the leases: address and PTR records against the records found |
| DhcpSyncService.PlanRecords | apps/backend/src/technitium/dhcp-dns-sync.service.ts:313-428 | the plan, sorted: a permutation of the diffs and the stale deletes |
| DhcpSyncService.PlanRowDeletes | apps/backend/src/technitium/dhcp-dns-sync.service.ts:511-616 | one row's address and PTR records |
| DhcpSyncService.PlanStaleDeletes | apps/backend/src/technitium/dhcp-dns-sync.service.ts:493-616 | the loop over rows with its set of delete keys |
| DhcpSyncService.SeenLeases.ListSeenLeases | apps/backend/src/technitium/dhcp-dns-sync-state.service.ts:30-61 | exactly the rows of the scope, each once |
| DhcpSyncService.SeenLeases.MarkSeen | apps/backend/src/technitium/dhcp-dns-sync-state.service.ts:63-117 | upserts the rows one after the other |
| DhcpSyncService.SeenLeases.RemoveSeen | apps/backend/src/technitium/dhcp-dns-sync-state.service.ts:119-132 | deletes one row |
| DhcpSyncService.DhcpDnsSync.ApplyRecords | apps/backend/src/technitium/dhcp-dns-sync.service.ts:230-257 | the writes in plan order, with their outcomes |
| DhcpSyncService.DhcpDnsSync.ForgetDeleted | apps/backend/src/technitium/dhcp-dns-sync.service.ts:281-297 | the rows removed after successful deletes |
| DhcpSyncService.DhcpDnsSync.ListRows | apps/backend/src/technitium/dhcp-dns-sync.service.ts:505-509 | exactly the rows of the scopes, each once for scopes that differ |
| DhcpSyncService.DhcpDnsSync.Apply | apps/backend/src/technitium/dhcp-dns-sync.service.ts:191-310 | nothing with scope errors or as a dry run; otherwise the preview is computed and sorted, and zones and rows take the step of that run |
| DomainTreeModel.ChildrenAddUp | apps/backend/src/technitium/built-in-blocking.service.ts:267-270 | a path's count is the number of inputs equal to it plus the counts of its children |
| DomainTreeModel.LedByIff | apps/backend/src/technitium/built-in-blocking.service.ts:257-264 | the leaf mark's condition in plain words |
| DomainTreeMeaning.BelowIffUnder | apps/backend/src/technitium/built-in-blocking.service.ts:236-250 | a domain is at or below a path exactly if it falls under the path's name |
| DomainTreeMeaning.RepresentedShows | apps/backend/src/technitium/built-in-blocking.service.ts:225-280 | there is one node for every name that some domain falls under, with the number of those domains, a leaf exactly if the first of them is the name; a child's name goes before its parent's, and every node is some node's child |
| DomainTreeBuilder.NodeCountIsSum | apps/backend/src/technitium/built-in-blocking.service.ts:225-276 | the same for every node of the tree |
| DomainTreeBuilder.Tree.FindChild | apps/backend/src/technitium/built-in-blocking.service.ts:255 | finds the child of a label exactly if there is one |
| DomainTreeBuilder.Tree.Descend | apps/backend/src/technitium/built-in-blocking.service.ts:243-272 | one label: find or create the child, count it, go there; the tree stays right down to there |
| DomainTreeBuilder.Tree.PushChild | apps/backend/src/technitium/built-in-blocking.service.ts:257-266 | a new child with its name, leaf mark and a count of 0 |
| DomainTreeBuilder.Tree.AddDomain | apps/backend/src/technitium/built-in-blocking.service.ts:236-273 | the tree represents one more domain |
| DomainTreeSort.SortChildren | apps/backend/src/technitium/built-in-blocking.service.ts:284 | a sorted permutation of the children |
| DomainTreeSort.SortTreeNodes | apps/backend/src/technitium/built-in-blocking.service.ts:283-288 | sorts every node at or below, permutes children and changes nothing else |
| DomainTreeSort.NodeExistsIff | apps/backend/src/technitium/built-in-blocking.service.ts:225-276 | a node exists, once, exactly if an input's reversed labels start with its path |
| DomainTreeSort.NodeTellsTheTruth | apps/backend/src/technitium/built-in-blocking.service.ts:225-276 | its count is the number of those inputs, its name is the path's, and it is a leaf exactly if the first of them is the path itself |
| DomainTreeSort.RootCountIsSum | apps/backend/src/technitium/built-in-blocking.service.ts:226-232 | the root count is the number of inputs and the sum of its children's counts |
| DomainTreeSort.BuildDomainTree | apps/backend/src/technitium/built-in-blocking.service.ts:225-280 | the returned tree shows the whole list in that sense, under the root node, and every node's children are in order |

## Left out

- Evaluator: several write targets, cluster routing and legacy node rows; built-in-target schedules; cache flushes, drift
  mail, alert rules; `deactivateScheduleIfApplied`. Deleting a source deletes its rows with it. Whether a source is open
  is an input of a tick; `Window` treats the window test on its own, with local day and minute as inputs.
- Domain Groups: several nodes (their tracking is shared), import and export, snapshots, dry runs, the sorting of preview
  and result lists. Stored entry values are taken as normalised; JSON signatures are equality of the lists they print.
- Group objects are values in a slot of a sequence; that two slots could hold the same object is not modelled.
- Lower case is that of ASCII letters.
- A regex engine's parser: that a pattern's text means what its expression matches is a premise of the coverage theorems.
- The host alternation without parentheses, which the extractor also accepts although its regex means something else;
  performance scores, suggestion texts and ids.
- List cache: several URLs (independent except for the worker loop), a URL used as domain list and as regex list at once
  (both kinds share the back-off tables, and a success of one would clear the other's deadline), persistence, refresh
  timers, parsing of lists and of Retry-After values (parameters; deadlines are taken to be valid dates), whether a
  network error is transient (an input), rejected calls in the worker loop.
- DHCP sync: reading scopes and leases, missing reverse zones and skipped records (they plan nothing), records whose data
  cannot be read, snapshots, summaries, the actions' texts. The live leases and which writes fail are inputs of an apply.
  Record data are taken in the form in which the service compares them.
- DomainTree: node objects are slots of one sequence, so references are positions; the tree shape, which JavaScript objects
  need not have, is an invariant.
- HTTP, SQLite, logging, timers, authentication sessions, snapshots, environment parsing, the front end.
