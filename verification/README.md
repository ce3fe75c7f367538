# AccessCore authorization engine: verified model

A Dafny model of AccessCore's relationship-based authorization engine, of the revision protocol
around it, and of four smaller state machines of the same service, with machine-checked proofs of
what they promise. `dafny verify dfyconfig.toml` checks the whole project.

## What is modelled

**Evaluation.** An organization's tuples and namespace rewrites form a graph of
`object#relation` nodes. A check walks it depth first with one visited set per walk, fresh sets
under intersection and exclusion, a depth bound of 10 and a `truncated` flag. `Walks.dfy` states
the two traversals as functions that thread the visited set and the flags; `Evaluator.dfy` holds
them in the form the program has, mutating a shared visited set and flags, each method proved
equal to its function. `Semantics.dfy` gives the meaning independently of any walk: partial
stable models of the rewrite rules (least fixed points of their reducts), which exist for every
graph and are the plain least fixed point when nothing is excluded. On that rest exactness
(`Exactness.dfy`, `Decisions.dfy`), when a walk may be marked truncated (`Truncation.dfy`), what
the reasons of a decision say (`Explanations.dfy`), depth-bounded derivations (`Derivations.dfy`,
to the hop in `ExactDepths.dfy`), agreement of
check and expand (`Agreement.dfy`), paths as certificates (`Certificates.dfy`) and transparency of
the flattened index (`Transparency.dfy`, and for unions its exact effect in `IndexShortcut.dfy`).

**Loading.** A check does not evaluate the stored facts but the closure the loader fetched, pruned
by the same index entries. The loader is a function in `Loading.dfy` and an object in
`ClosureLoader.dfy`. `FaithfulLoading.dfy` and `LoadedRelations.dfy` say when deciding on what it
loaded is deciding on everything, `LoadedExpansion.dfy` the same for expand, and `LoadedChecks.dfy`
what a loaded decision is worth in each case, unconditional ones included; `PartialExpansion.dfy`
says what expand may list after a cut load. `Limits.dfy`, `LoadingLimits.dfy` and
`PruningLimits.dfy` (over the chain of `GroupChain.dfy`) hold concrete organizations in which a cut
load, or an uncut load that a fresh entry pruned, permits too much or too little, or expand lists
too many or too few. `NamespaceConfigs.dfy` is the validator whose cycle check makes both walks
terminate; `RefKeys.dfy` says when the string keys stand for what they abbreviate.

**Revisions.** `Store.dfy` is the database under the revision lock: a writer allocates, and
commits or aborts before the next one starts; `StoreHistory.dfy` ties its tables to the history of
committed operations. `MembershipIndex.dfy` (with `Reindexing.dfy`, the rebuild of one
organization's sets, and `IndexCoverage.dfy`, what a run leaves behind), `DecisionCache.dfy` and
`TupleChangeStream.dfy` are interleaving machines of writers with indexers, checks and watchers; a
check of `DecisionCache` loads, prunes and evaluates as above. Each database read or transaction,
and each cache access, is a step of its own; a run is any finite interleaving, and results hold in
every state of every run.

**Smaller machines.** Refresh-token families (`RefreshFamilies.dfy`, section 4.14.2 of RFC 9700;
every answer of an undisturbed refresh in `UndisturbedRefreshes.dfy`),
signing keys beside token issuance (`SigningKeys.dfy`), the audit chain with its canonical JSON
(`CanonicalJson.dfy`, `JsonLiterals.dfy`, `AuditChain.dfy`), the buffered decision log
(`DecisionLog.dfy`), policy conditions with deny-override (`Conditions.dfy`) and CIDR tests
(`Bits.dfy`, `IpAddresses.dfy`, `IpTexts.dfy`).

## Where promises are narrower than they sound

- Section 6 of ADR-026 says the index can only replace a live walk that would have found the same
  membership. The code does more: a node first reached too deep is cut and stays visited, so the
  live walk can deny a member, truncated, whom a fresh entry then permits
  (`Limits.IndexTurnsTruncatedDenial`). The code is kept as it is. For `evaluate` on one snapshot
  of all stored facts, `Transparency.IndexIsTransparent` holds for all inputs: outcomes differ only
  where the plain walk denied with `walk_truncated`, and the added permit is a real membership.
- The same section's "never deny" does not carry over to the service, which loads by the index it
  evaluates with. An entry that answers at one depth prunes rows that the evaluation needs at a
  greater one, in a load that is not cut. Below an intersection, with no exclusion anywhere, that
  turns a permit into an unmarked denial (`PruningLimits.PrunedLoadHidesMember`); below an
  exclusion it opens access to a blocked user (`PruningLimits.PrunedLoadGainsPermit`). With
  unions only, an uncut load decides alike with pruning on (`LoadedRelations.LoadedDecisionUnions`);
  that result fails at the first intersection.
- The loader shares one walked set over all required relations, operands and depths, the evaluator
  does not. When the depth bound cuts the load, with the index off, a permit can be lost
  (`Limits.CutLoadLosesPermit`), a member denied without a mark (`LoadingLimits.CutLoadHidesMember`),
  and, below an exclusion, access opened (`LoadingLimits.CutLoadGainsPermit`): that a truncated
  subtract operand never opens access holds of the evaluator, not of the service.
- What holds of the service for all inputs: the loaded decision is the decision on all stored facts
  with the same entries if the load was neither cut nor pruned (`FaithfulLoading.LoadedDecision`),
  and with only unions if there is one required relation (`FaithfulLoading.LoadedDecisionUnionOnly`)
  or the load was not cut (`LoadedRelations.LoadedDecisionUnions`), pruned or not. Without
  exclusions a permit is always a real membership within the depth bound, cut, pruned or neither
  (`LoadedChecks.CheckedPermitIsMembership`). With the index off and no cut the decision is exact,
  exclusions included (`LoadedChecks.LoadedDecisionIsExact`).
- A truncated check and expand can differ when a rewrite is not union-only
  (`Limits.CheckAndExpandCanDiffer`).
- The indexer reads its cursor before it holds the lock, so the cursor can move backwards. No result
  here needs it monotone; index safety holds for any stale cursor.
- `a:b:c` is the text of two references once kinds may hold a colon; `RefKeys.TextIsUniqueWithoutColon`
  gives the exact condition. Types that a write accepts are identifiers and never hold one.
- A verifying audit log that was cut at its end still verifies (`AuditChain.CutLogVerifies`); only a
  remembered last hash shows the cut, and then `AuditChain.SameTailSameLog` pins down every record.

## Model

| member | source | states |
|---|---|---|
| `Exactness.WalkIsExact` | apps/api/src/authz/domain/evaluate.ts:86-222 | in every partial stable model of the rules, a granted walk (with any sound index) is a certain membership and an untruncated denial not even a possible one; exclusions, intersections, cycles and the shared visited set included |
| `Exactness.DeriveExact` | apps/api/src/authz/domain/evaluate.ts:202-222 | the induction behind it, from any depth and any visited set: a grant is certain; an untruncated denial leaves a visited set in which no new node can be a first derived one |
| `Exactness.DeriveRewriteExact` | apps/api/src/authz/domain/evaluate.ts:86-200 | the same for one rewrite, operand by operand |
| `Exactness.FreshExact` | apps/api/src/authz/domain/evaluate.ts:141-198 | an operand walked with a fresh visited set is exact by itself, so a truncated subtract operand can only deny |
| `Exactness.DeriveUsersetsExact` | apps/api/src/authz/domain/evaluate.ts:63-83 | the userset loop keeps exactness while its walks share one visited set |
| `Exactness.DeriveParentsExact` | apps/api/src/authz/domain/evaluate.ts:103-124 | the tuple-to-userset loop keeps exactness |
| `Exactness.DeriveUnionExact` | apps/api/src/authz/domain/evaluate.ts:125-140 | the union loop keeps exactness |
| `Exactness.DeriveIntersectionExact` | apps/api/src/authz/domain/evaluate.ts:141-163 | an intersection grants only if all operands are certain and denies untruncated only if one is not even possible |
| `Semantics.WellFoundedModel` | apps/api/src/authz/domain/evaluate.ts:164-198 | partial stable models exist for every snapshot, with the lower half inside the upper, so the exactness results are never vacuous |
| `Semantics.StableIsPartialStable` | apps/api/src/authz/domain/evaluate.ts:164-198 | an interpretation that is the least fixed point of its own reduct is such a model, so exactness holds in it |
| `Semantics.ExclusionFreeModel` | apps/api/src/authz/domain/evaluate.ts:86-163 | without exclusions the one model is the least fixed point of the rules |
| `Decisions.EvaluateIsExact` | apps/api/src/authz/domain/evaluate.ts:224-274 | a permit rests on a certain membership in a required relation of the same organization; a denial without `walk_truncated` means no required membership is possible |
| `Decisions.ExclusionFreeExactness` | apps/api/src/authz/domain/evaluate.ts:224-274 | exclusion-free, no index: every permit has a derivation of depth at most 10, and without truncation permit and least-fixed-point membership coincide |
| `Decisions.TriedRelations` | apps/api/src/authz/domain/evaluate.ts:249-273 | trying the required relations in order finds a grant exactly when one of the walks grants, and stays untruncated exactly when all deny untruncated |
| `Derivations.GrantWithin` | apps/api/src/authz/domain/evaluate.ts:48-222 | a grant at depth d has a derivation within the hops left, index entries counted with their own depth |
| `Derivations.WithinIsCertain` | apps/api/src/authz/domain/evaluate.ts:48-222 | a depth-bounded derivation is a membership in every partial stable model |
| `Derivations.WithinInAnyOrder` | apps/api/src/authz/domain/tuple-index.ts:18-35 | derivability does not depend on the order rows are read in |
| `Derivations.FlattenedDepthsAreDerivations` | apps/api/src/authz/domain/evaluate.ts:406-423 | a member of a monotonic flattened set has a derivation no deeper than its recorded depth |
| `Derivations.CollectWithin` | apps/api/src/authz/domain/evaluate.ts:285-399 | every member the second walk collects is derivable within its recorded depth, unless an exclusion was crossed |
| `ExactDepths.FlattenedDepthIsExact` | apps/api/src/authz/domain/evaluate.ts:406-423 | the depth flattenSet records is, to the hop, the depth of a derivation: the longest branch of one crosses exactly that many tuples |
| `ExactDepths.CollectExactly` | apps/api/src/authz/domain/evaluate.ts:285-399 | the same for every collected member, the meet of intersections recording the deeper branch |
| `PartialExpansion.FlattenedIsMonotonic` | apps/api/src/authz/domain/evaluate.ts:406-423 | a set of a graph without exclusions is always flattened as monotonic, so it may be indexed |
| `Walks.LeastDepthsAreLeast` | apps/api/src/authz/domain/evaluate.ts:406-423 | flattenSet keeps, for each member found, the least depth it was found at |
| `Evaluator.DeriveThis` | apps/api/src/authz/domain/evaluate.ts:48-84 | the in-place loop over subjects, mutating the visited set and the truncated flag, computes the specified walk |
| `Evaluator.DeriveRewrite` | apps/api/src/authz/domain/evaluate.ts:86-200 | the in-place rewrite walk computes the specified one, fresh sets under intersection and exclusion included |
| `Evaluator.DeriveParents` | apps/api/src/authz/domain/evaluate.ts:103-124 | the in-place tuple-to-userset loop computes the specified walk |
| `Evaluator.Derive` | apps/api/src/authz/domain/evaluate.ts:202-222 | the in-place node walk: grant, final visited set and flag are those of the specified walk; it terminates by (hops left, relation rank, rewrite size) |
| `Evaluator.Evaluate` | apps/api/src/authz/domain/evaluate.ts:224-274 | the decision is the specified one, one truncation flag across relations and a fresh visited set for each |
| `Evaluator.CollectRewrite` | apps/api/src/authz/domain/evaluate.ts:285-379 | the in-place collection computes the specified members in order, with visited set and excluded flag |
| `Evaluator.CollectIntersection` | apps/api/src/authz/domain/evaluate.ts:332-355 | the running meet of the operands computes the specified members |
| `Evaluator.CollectMembers` | apps/api/src/authz/domain/evaluate.ts:381-399 | the in-place node collection computes the specified one |
| `Evaluator.FlattenSet` | apps/api/src/authz/domain/evaluate.ts:406-423 | the map filled in place is the least-depth map of the collected members, monotonic exactly when no exclusion was crossed |
| `Evaluator.Expand` | apps/api/src/authz/domain/evaluate.ts:433-443 | expand returns exactly the flattened members, and none across organizations |
| `Truncation.TruncatedIsDeep` | apps/api/src/authz/domain/evaluate.ts:211-222 | the mark is never spurious: a walk is truncated only if a chain of userset rows and tupleset parents, following the rewrites, leads from its node past the bound, whatever the rewrites, visited set and index |
| `Truncation.CutIsDeep` | apps/api/src/authz/application/pdp-service.ts:497-512 | a load is cut only if such a chain leads past the bound |
| `Truncation.MeasuredWalkIsWhole` | apps/api/src/authz/domain/evaluate.ts:202-222 | with any measure that falls along userset rows and parents and does not rise along computed usersets: a walk or load at depth d from a node of measure at most 10 - d is never truncated or cut |
| `Truncation.ShallowDecisionIsExact` | apps/api/src/authz/domain/evaluate.ts:224-274 | where no chain from a required relation passes the bound, the decision is never marked, and permits if and only if a required relation holds, exclusions and sound index entries included |
| `Truncation.ShallowCheckIsExact` | apps/api/src/authz/application/pdp-service.ts:312-345 | the same for the check with the index off: the load is not cut, the loaded decision is that on everything stored, and exact |
| `Truncation.ShallowExpandIsExact` | apps/api/src/authz/domain/evaluate.ts:433-443 | under the same condition expand lists exactly the members, and so it does on the loaded closure, exclusions and intersections included |
| `Explanations.PermitIsExplained` | apps/api/src/authz/domain/evaluate.ts:224-274 | the reason of a permit is a proof: it names a required relation, and its code and path retrace a derivation rule by rule, each entry the row that rule reads |
| `Explanations.GrantExplains` | apps/api/src/authz/domain/evaluate.ts:48-222 | the same for every walk, from any depth and visited set, index shortcuts included |
| `Explanations.DenialIsExplained` | apps/api/src/authz/domain/evaluate.ts:224-274 | a snapshot of another organization is `org_mismatch`, an action that requires nothing `unknown_action`, and otherwise a denial is marked exactly if some required walk was truncated |
| `Explanations.RequiredByConfiguration` | apps/api/src/authz/domain/namespace-definition.ts:45-50 | the required relations are those the resource type's namespace binds to the verb; an unknown type, another namespace's action or an unknown verb requires none |
| `Agreement.CheckAgreesWithExpand` | apps/api/src/authz/domain/evaluate.ts:285-443 | no index: granted implies expanded, untruncated denied implies not expanded, and with union-only rewrites granted if and only if expanded, truncated or not; nothing is expanded across organizations |
| `Agreement.DeriveAgrees` | apps/api/src/authz/domain/evaluate.ts:202-222 | both walks from the same depth and visited set: on a denial they end with the same visited set |
| `Certificates.PathIsCertificate` | apps/api/src/authz/domain/evaluate.ts:40-84 | every entry of a grant path is a stored tuple, and without exclusions those tuples alone put the subject in the least fixed point |
| `Transparency.IndexIsTransparent` | apps/api/src/authz/domain/evaluate.ts:63-82 | with fresh entries every permit and every untruncated denial stays, and every permit has a derivation within the bound |
| `Transparency.DeriveFollows` | apps/api/src/authz/domain/evaluate.ts:202-222 | a walk with fresh entries follows the plain walk step by step or grants earlier, and is never cut where the plain walk is not |
| `Transparency.FreshIndexIsSound` | apps/api/src/authz/domain/evaluate.ts:406-423 | entries flattened from the same facts, in any row order, are sound in every partial stable model |
| `Decisions.IndexedDecision` | apps/api/src/authz/domain/evaluate.ts:224-274 | the decision with a fresh index is the plain decision unless that one was truncated, and never turns a permit into a denial |
| `IndexShortcut.IndexGrantsExactly` | apps/api/src/authz/domain/evaluate.ts:63-82 | union-only rewrites, any index, fresh or not: the indexed walk grants if and only if the plain one does or reads the rows of a node at a depth where the index answers for one of its userset rows; otherwise both end alike |
| `IndexShortcut.IndexPermitsExactly` | apps/api/src/authz/domain/evaluate.ts:224-274 | the same if and only if for the decision over the required relations, and a denial keeps its reasons |
| `IndexShortcut.DeriveShortcuts` | apps/api/src/authz/domain/evaluate.ts:202-222 | the induction behind it, from any depth and any visited set |
| `Limits.IndexTurnsTruncatedDenial` | docs/adr/026-leopard-flattened-membership-index.md:133-144 | a concrete organization where the plain walk denies a real member, truncated, and one fresh entry permits it: the record's claim that an entry only replaces a walk that would have succeeded is false of the code |
| `Limits.CutLoadLosesPermit` | apps/api/src/authz/application/pdp-service.ts:415-512 | index off: a load cut on the first of two required relations drops a row the second one needs, and the loaded snapshot denies what the full one permits; the other ways a cut load fails are the next three rows |
| `LoadingLimits.CutLoadGainsPermit` | apps/api/src/authz/application/pdp-service.ts:490-507 | index off, one required relation: a load cut below the base of an exclusion leaves the subtract operand without its rows, so the stored facts deny, unmarked, and the loaded ones permit |
| `LoadingLimits.CutLoadHidesMember` | apps/api/src/authz/application/pdp-service.ts:484-507 | index off, one required relation, no exclusion: a load cut below one operand of an intersection makes the loaded snapshot deny a member without a truncation mark |
| `LoadingLimits.CutLoadExpandsWrongly` | apps/api/src/authz/application/pdp-service.ts:227-240 | index off: after a cut load expand lists a banned user below an exclusion and leaves out a member below an intersection |
| `PruningLimits.PrunedLoadGainsPermit` | apps/api/src/authz/application/pdp-service.ts:468-471 | a fresh entry and an uncut load: the loader prunes a set at a depth where the entry answers, the subtract operand reaches it one hop deeper where it does not, and a blocked user is permitted |
| `PruningLimits.PrunedLoadHidesMember` | apps/api/src/authz/application/pdp-service.ts:468-471 | a fresh entry, an uncut load, one required relation and no exclusion: with an intersection in place of the exclusion the same pruning denies, unmarked, a member whom the stored facts permit; so LoadedDecisionUnions fails at the first intersection |
| `Limits.CheckAndExpandCanDiffer` | apps/api/src/authz/domain/evaluate.ts:141-163 | a concrete intersection whose check denies, truncated, while expand lists the subject: union-only is needed for exact agreement |
| `GroupChain.ChainIsCut` | apps/api/src/authz/domain/evaluate.ts:211-219 | one chain of twelve nested groups, the index off: the walk entered at the i-th group at depth i ends denied and truncated at the bound, the tenth group visited and none beyond it, whatever was visited elsewhere before |
| `FaithfulLoading.LoadedDecision` | apps/api/src/authz/application/pdp-service.ts:407-518 | if the loading walk is neither cut nor pruned, evaluating what it loaded equals evaluating everything stored with the same index entries, for all rewrites and required relations |
| `FaithfulLoading.IndexOffPrunesNothing` | apps/api/src/authz/application/pdp-service.ts:419-430 | with the index off no load is pruned |
| `LoadedRelations.LoadedDecisionUnions` | apps/api/src/authz/application/pdp-service.ts:407-518 | union-only rewrites and an uncut load: the loaded snapshot decides exactly like the full one with the same entries, for any number of required relations and with index pruning on |
| `LoadedRelations.LoadCoversBeyond` | apps/api/src/authz/application/pdp-service.ts:497-512 | union-only rewrites and a load not cut: beyond the nodes that earlier relations left walked, all of them loaded and none pruned, the loader walks every node the evaluation visits, and if that denies, exactly those and nothing is pruned |
| `LoadedRelations.DeriveStays` | apps/api/src/authz/application/pdp-service.ts:497-512 | union-only rewrites: a walk that starts inside a region loaded without cut or pruning never leaves it |
| `LoadedChecks.CheckedPermitIsMembership` | apps/api/src/authz/application/pdp-service.ts:312-345 | the actual check, load and pruning included: without exclusions and with any fresh index a permit rests on a required relation that holds among all stored facts within the depth bound, however much the load left out |
| `LoadedChecks.LoadedPermitIsMembership` | apps/api/src/authz/application/pdp-service.ts:343-344 | the same for any index whose entries stand for derivations, none included |
| `LoadedChecks.LoadedDecisionIsExact` | apps/api/src/authz/application/pdp-service.ts:343-344 | index off and no cut: the loaded decision is exact for the stored facts in every partial stable model, exclusions included |
| `LoadedChecks.CompleteLoadDecision` | apps/api/src/authz/application/pdp-service.ts:382-518 | a fresh index that pruned nothing of an uncut load keeps every permit and every untruncated denial of the plain decision on all stored facts |
| `LoadedChecks.UnionOnlyLoadDecision` | apps/api/src/authz/application/pdp-service.ts:382-518 | with only unions and one required relation or an uncut load, the same holds however much was pruned |
| `LoadedChecks.PartGrantWithin` | apps/api/src/authz/domain/evaluate.ts:202-222 | a grant on a part of the facts, index shortcuts included, is a derivation over all of them within the hops left |
| `LoadedChecks.LoadedIsPart` | apps/api/src/authz/application/pdp-service.ts:432-454 | what the loader fetched is a part of the stored facts: every row is stored, and a rewrite it lacks belongs to a node it has no rows of |
| `LoadedExpansion.LoadedExpand` | apps/api/src/authz/application/pdp-service.ts:227-240 | expanding the loaded closure lists exactly the members of all stored facts, if the load was not cut or there are only unions |
| `PartialExpansion.LoadedExpandListsMembers` | apps/api/src/authz/application/pdp-service.ts:227-240 | without exclusions and index, cut or not: whatever expanding the loaded closure lists is a member among all stored facts by a derivation within the depth bound |
| `PartialExpansion.CollectIsPlain` | apps/api/src/authz/domain/evaluate.ts:381-399 | without exclusions a collection never reports one, and no member is recorded beyond the depth bound |
| `LoadedExpansion.LoadVisitsSame` | apps/api/src/authz/application/pdp-service.ts:497-507 | with only unions the loader for expand walks exactly the nodes the collection visits |
| `FaithfulLoading.LoadedDecisionUnionOnly` | apps/api/src/authz/application/pdp-service.ts:407-518 | one required relation and union-only rewrites: the loaded snapshot decides exactly like the full one with the same index entries, truncated or not, with index pruning on |
| `FaithfulLoading.LoadCovers` | apps/api/src/authz/application/pdp-service.ts:456-507 | union-only rewrites, one walk, cut or not: the loader, which prunes where the index grants, walks every node the evaluation of that node visits, and exactly those if it denies |
| `FaithfulLoading.DeriveSame` | apps/api/src/authz/application/pdp-service.ts:456-507 | a walk that stays inside the loaded nodes reads the same on the loaded and the full snapshot |
| `Loading.LoadAdds` | apps/api/src/authz/application/pdp-service.ts:440-507 | loading only adds stored rows, and an uncut load leaves every walked node with all that evaluating it reads |
| `ClosureLoader.Loader.Walk` | apps/api/src/authz/application/pdp-service.ts:497-507 | the in-place walk over walked, local, reached and the shared caches computes the specified loading |
| `ClosureLoader.Loader.WalkRewrite` | apps/api/src/authz/application/pdp-service.ts:456-495 | the same for one rewrite |
| `ClosureLoader.Loader.RowsOf` | apps/api/src/authz/application/pdp-service.ts:440-454 | rows come from the local map, the shared cache or storage, and are always the stored rows |
| `ClosureLoader.Loader.NamespaceOf` | apps/api/src/authz/application/pdp-service.ts:432-438 | a namespace found is the stored one, cached for the batch and added to the reached ones |
| `ClosureLoader.Loader.IndexedGrant` | apps/api/src/authz/application/pdp-service.ts:419-430 | the loader prunes exactly where the evaluator's index shortcut would grant |
| `ClosureLoader.Loader.LoadClosure` | apps/api/src/authz/application/pdp-service.ts:407-518 | the snapshot built is the loaded rows and namespaces, with the index view only if it was consulted |
| `SnapshotBuilders.IndexTuples` | apps/api/src/authz/domain/tuple-index.ts:18-35 | each node's bucket holds the subjects of the organization's tuples for it, in row order; other organizations' rows are dropped and no bucket is empty |
| `SnapshotBuilders.IndexMemberships` | apps/api/src/authz/domain/indexed-memberships.ts:17-27 | each set keeps the least depth recorded for it, and no other sets appear |
| `SnapshotBuilders.RegisterNamespaces` | apps/api/src/authz/domain/namespace-registry.ts:7-13 | the registry holds the last definition of each namespace |
| `SnapshotBuilders.ReindexingKeepsRows` | apps/api/src/authz/application/pdp-service.ts:513-517 | flattening the loaded buckets and indexing them again gives every node its rows back, in order |
| `RefKeys.NodeKeyIsInjective` | apps/api/src/authz/domain/evaluate.ts:40-42 | node keys tell nodes apart whatever the ids are, provided kinds hold no colon and relations no hash |
| `RefKeys.TextIsUniqueWithoutColon` | apps/api/src/authz/domain/entity-ref.ts:19-21 | a reference shares its text with no other if and only if neither part holds a colon |
| `RefKeys.MemberKeyIsInjective` | apps/api/src/authz/application/pdp-service.ts:387-387 | the per-transaction memo key tells organization and member apart |
| `RefKeys.DecisionTextIsInjective` | apps/api/src/authz/infrastructure/cache/redis-decision-cache.ts:52-57 | the text the decision cache hashes tells subject, action and resource apart for every subject and resource type a write accepts, unit separators in ids and any resource id included; or for subjects without a unit separator, colons in ids included |
| `RefKeys.TupleTextIsInjective` | apps/api/src/authz/domain/evaluate.ts:44-46 | path entries tell writable tuples apart |
| `RefKeys.RefRoundTrip` | apps/api/src/authz/domain/entity-ref.ts:19-30 | parsing the text of a reference returns it if and only if its kind is non-empty without a colon and its id non-empty |
| `RefKeys.SubjectRoundTrip` | apps/api/src/authz/domain/subject-ref.ts:22-37 | parsing an encoded subject returns it exactly under the stated conditions on its parts |
| `RefKeys.WritableSubjectRoundTrip` | apps/api/src/authz/domain/subject-ref.ts:15-37 | every subject a write accepts survives encoding and parsing |
| `RefKeys.ParsedSubjectEncodes` | apps/api/src/authz/domain/subject-ref.ts:27-37 | whatever parses, encodes back to the text it was parsed from |
| `NamespaceConfigs.HasComputedUsersetCycle` | apps/api/src/authz/domain/namespace-config.ts:62-82 | the in-place search reports a cycle if and only if there is one, and otherwise the relations can be ranked |
| `NamespaceConfigs.CycleSearch.Walk` | apps/api/src/authz/domain/namespace-config.ts:66-76 | the recursive visit keeps `visiting` as the recursion path and `done` in topological order; true means a cycle |
| `NamespaceConfigs.RankedIsAcyclic` | apps/api/src/authz/domain/namespace-config.ts:62-82 | a ranked edge relation has no cycle |
| `NamespaceConfigs.OrderGivesRank` | apps/api/src/authz/domain/namespace-config.ts:62-82 | a finished search order is a ranking |
| `NamespaceConfigs.ValidatedIsWellFormed` | apps/api/src/authz/domain/namespace-config.ts:25-60 | a rewrite validates if and only if its identifiers, targets, non-empty operand lists and depth are all good |
| `NamespaceConfigs.Create` | apps/api/src/authz/domain/namespace-config.ts:91-123 | a configuration is created if and only if the data is valid, it holds exactly the data, and its rewrites can be ranked; otherwise the error is one the data exhibits |
| `NamespaceConfigs.CreateActions` | apps/api/src/authz/domain/namespace-config.ts:101-109 | the action map collects each verb's relations, or the first offending verb is reported |
| `NamespaceConfigs.CreateRewrites` | apps/api/src/authz/domain/namespace-config.ts:110-121 | the rewrite map is built entry by entry, or the first offending rewrite is reported |
| `NamespaceConfigs.RankedEdgesRankConfig` | apps/api/src/authz/domain/evaluate.ts:141-222 | acyclic computed-userset edges rank every rewrite of the configuration, which is what makes both walks terminate |
| `Store.WriterStepKeepsInv` | apps/api/src/db/drizzle-revisions.repository.ts:13-25 | with the lock held to commit, commits keep the changelog strictly increasing, every revision at most the database's, and every stored namespace rankable |
| `Store.ApplyKeepsGood` | apps/api/src/authz/application/relation-tuple-writer.ts:30-90 | each write or revocation changes revision, tuple and changelog together and keeps them consistent: the stored tuples stay what replaying the changelog gives |
| `StoreHistory.StoredTuplesAreWritten` | apps/api/src/authz/application/relation-tuple-writer.ts:30-90 | in every run a tuple is stored if and only if a committed operation wrote it and none revoked it since |
| `StoreHistory.ReplayingLogGivesTuples` | apps/api/src/authz/application/relation-tuple-writer.ts:30-90 | in every run a tuple is stored if and only if the changelog holds an upsert of it with no later deletion, and the changelog lists exactly the writes and the revocations that removed something, in commit order |
| `StoreHistory.CommitTakesEffect` | apps/api/src/authz/application/relation-tuple-writer.ts:30-90 | a committed write leaves the key stored, a committed revocation absent, and every other key of every organization as it was |
| `StoreHistory.StoredDefinitionsAreLast` | apps/api/src/authz/application/namespace-config-writer.ts:34-58 | in every run a namespace has exactly the configuration of its last committed definition |
| `StoreHistory.StoredPoliciesAreLast` | apps/api/src/authz/application/policy-writer.ts:44-70 | in every run the policies in force are exactly those committed and neither replaced nor deleted since |
| `Store.VersionIsNewestChange` | apps/api/src/authz/infrastructure/persistence/drizzle-membership-index.ts:72-84 | the organization version is the newest tuple or namespace revision of that organization: a stamp is at or past it exactly when nothing changed after the stamp |
| `Store.CommitMovesVersion` | apps/api/src/authz/application/namespace-config-writer.ts:34-58 | a commit that changes an organization's facts moves its version past every earlier stamp |
| `MembershipIndex.AcceptedSetsAreFresh` | apps/api/src/authz/application/membership-indexer.ts:72-160 | in every interleaving of writers and indexers, stale cursors included, an accepted set holds exactly what flattenSet computes on the reader's own data |
| `MembershipIndex.IndexedChecksAreSafe` | apps/api/src/authz/application/pdp-service.ts:382-518 | end to end in every run, load, pruning by the accepted entries and evaluation: without exclusions every permit is a membership among all stored facts within the depth bound; after a complete load, or with only unions and one required relation or no cut, every permit and untruncated denial of the plain evaluation is kept |
| `MembershipIndex.IndexedEvaluationIsSafe` | apps/api/src/authz/domain/evaluate.ts:224-274 | in every run, `evaluate` on all stored facts with the accepted entries keeps every permit and every untruncated denial it has without them |
| `MembershipIndex.InvGivesFreshView` | apps/api/src/authz/application/pdp-service.ts:382-405 | the entries a reader accepts are a fresh index for any listing of its own rows |
| `MembershipIndex.ViewIsExact` | apps/api/src/authz/application/pdp-service.ts:382-405 | a reader sees a member at a depth exactly if its set is accepted and records that depth: nothing accepted is withheld |
| `MembershipIndex.UndisturbedRunIsAccepted` | apps/api/src/authz/application/membership-indexer.ts:72-115 | from a quiet state one undisturbed run, full page or not, advances the cursor to its window end and leaves every organization whose facts last changed in the window, within the bound, with every userset its tuples refer to accepted unless it crosses an exclusion, whatever order rows are read in; organizations behind the cursor keep their sets |
| `MembershipIndex.UndisturbedRunsCatchUp` | apps/api/src/authz/application/membership-indexer.ts:72-115 | however far the cursor lies behind, undisturbed runs reach, page by page, a state where it has passed every revision and every organization it had not reached is accepted so |
| `IndexCoverage.CommittedRunCovers` | apps/api/src/authz/application/membership-indexer.ts:72-162 | in every run, whatever writers and other indexers do beside it, an indexer that commits leaves the cursor at the end of its window, and every organization whose facts last changed in the window, have not moved on since and stayed within the bound has exactly its wanted sets, all of them accepted |
| `IndexCoverage.StepStaysThorough` | apps/api/src/authz/application/membership-indexer.ts:80-161 | every step keeps the window complete (no tuple change of it is missed) and what is written whole unless the organization has moved on |
| `MembershipIndex.WindowIsCovered` | apps/api/src/authz/application/membership-indexer.ts:80-100 | a window leaves out no change at or below its end, whether its page was full or not |
| `Reindexing.ReindexOrg` | apps/api/src/authz/application/membership-indexer.ts:117-160 | an organization over the bound is skipped untouched; otherwise its sets become exactly the flattened monotonic referenced sets of the rows read, stamped with the window end, whatever was there before, with exact counts |
| `Reindexing.RemoveUnwanted` | apps/api/src/authz/application/membership-indexer.ts:146-152 | exactly the sets no longer wanted are removed, the others untouched |
| `Reindexing.ReplaceWanted` | apps/api/src/authz/application/membership-indexer.ts:154-159 | every wanted set ends up with its flattened members and the new stamp |
| `MembershipIndex.StepKeepsInv` | apps/api/src/authz/application/membership-indexer.ts:72-115 | every step keeps all written and half-written sets right unless their organization has moved on; one indexer holds the lock |
| `MembershipIndex.CommitKeepsIndex` | apps/api/src/authz/infrastructure/persistence/drizzle-membership-index.ts:100-140 | a commit either leaves an organization's facts alone or makes its stamped sets unacceptable |
| `MembershipIndex.WindowEndIsCommitted` | apps/api/src/authz/application/membership-indexer.ts:78-90 | the window end computed from the high-water mark and a later page of changes is a committed revision, so rows are never stamped ahead of the store |
| `MembershipIndex.FlattenedRowsAreGood` | apps/api/src/authz/application/membership-indexer.ts:117-160 | rows flattened from separately read tuples and namespaces are right unless the organization changed in between, and then they are stamped too old to be accepted |
| `DecisionCache.NoStaleCheck` | apps/api/src/authz/application/pdp-service.ts:88-147 | beside writers and indexers every finished check, cached or fresh, is the answer of load, pruning, evaluation and policies on one past state of database and index, of a revision no older than any write committed before it began; cached answers hold for every context; an at-least token is honoured or denied |
| `DecisionCache.EveryCheckIsCurrent` | apps/api/src/authz/application/pdp-service.ts:100-147 | in terms of the run alone: a check that began in one state and has ended in a later one answered its own request as some state of the run up to then does, of a revision no older than the one it began at |
| `DecisionCache.AnsweredPermitIsMembership` | apps/api/src/authz/application/pdp-service.ts:293-365 | of an organization without exclusions, an answer that permits by relationship rests on a required relation that held among the stored facts within the depth bound |
| `DecisionCache.AnswerDecidesAlike` | apps/api/src/authz/application/pdp-service.ts:293-365 | where the load decides alike, an answer without applicable policies keeps every permit and untruncated denial of evaluating all stored facts |
| `DecisionCache.AnswerFollowsPolicies` | apps/api/src/authz/application/pdp-service.ts:312-365 | an answer is refused without an organization or before the requested revision; otherwise it is permitted if and only if no stored policy for the resource type and this verb or every verb forbids, and relationships or such a policy permit; it is cacheable if and only if there is no such policy |
| `DecisionCache.RememberedAnswerIsReused` | apps/api/src/authz/application/pdp-service.ts:100-147 | while its revision is current a remembered answer answers the next check of the same question from the cache, whatever its context |
| `DecisionCache.CacheableIgnoresContext` | apps/api/src/authz/application/pdp-service.ts:312-365 | an answer marked cacheable is the same for every assurance level, address and time |
| `DecisionCache.StoredEntryIsGood` | apps/api/src/authz/infrastructure/cache/redis-decision-cache.ts:22-58 | what a check stores under its revision key is the answer in one past state of that revision for every request with that key |
| `DecisionCache.StepKeepsInv` | apps/api/src/authz/application/pdp-service.ts:108-147 | every step of writers, indexers, checks and vanishing cache entries keeps cache and checks genuine |
| `TupleChangeStream.OpenStartsAtRequest` | apps/api/src/authz/application/tuple-change-stream.ts:45-49 | a stream opened at a revision starts there, one opened without at the current revision |
| `TupleChangeStream.StreamContinues` | apps/api/src/authz/application/tuple-change-stream.ts:45-75 | a stream keeps its organization and its start for ever, and its events only grow |
| `TupleChangeStream.UndisturbedStreamDelivers` | apps/api/src/authz/application/tuple-change-stream.ts:45-75 | an undisturbed stream reaches, by its own polls and page by page, a heartbeat at or past the current revision, with exactly the organization's changes after its start yielded by then |
| `TupleChangeStream.WatchLosesNothing` | apps/api/src/authz/application/tuple-change-stream.ts:45-75 | at every event the changes yielded so far are exactly the organization's changes after the start up to that event's revision, each once, strictly increasing |
| `TupleChangeStream.ResumingNeitherSkipsNorRepeats` | apps/api/src/authz/application/tuple-change-stream.ts:45-75 | a stream resumed at any event, heartbeats included, continues the first as one stream |
| `TupleChangeStream.BeatIsGood` | apps/api/src/authz/application/tuple-change-stream.ts:65-72 | advancing the cursor to the high-water mark on a heartbeat skips nothing, because the mark was read before the page |
| `TupleChangeStream.PageIsGood` | apps/api/src/authz/infrastructure/persistence/drizzle-relation-tuple-changelog.ts:33-53 | a page is the next changes in order, and a page that is not full leaves nothing behind it up to the mark |
| `TupleChangeStream.YieldedNext` | apps/api/src/authz/application/tuple-change-stream.ts:58-61 | yielding the first change of the page extends what was yielded by exactly it |
| `TupleChangeStream.CommitAppends` | apps/api/src/authz/infrastructure/persistence/drizzle-relation-tuple-changelog.ts:19-31 | a commit appends at most one change, above all committed revisions |
| `RefreshFamilies.FamiliesStayLinear` | apps/api/src/authn/infrastructure/persistence/drizzle-refresh-tokens.repository.ts:36-49 | in every interleaving a family's generations are exactly 1..n, one token each, only the newest possibly active, and no token rotates twice |
| `RefreshFamilies.LateTokenIsReuse` | apps/api/src/authn/application/refresh.ts:52-90 | a token superseded at least twice when presented is never honoured; it ends in reuse with family and session revoked, unless token, family or session had ended |
| `RefreshFamilies.SupersededTokenIsNotHonoured` | apps/api/src/authn/application/refresh.ts:52-90 | in terms of the run alone: a refresh begun with a token whose family is two or more generations ahead ends in reuse, or invalid if token, family or session had ended |
| `RefreshFamilies.SpentTokenStaysSpent` | apps/api/src/authn/application/refresh.ts:92-122 | a token that was spent in one state of a run is active in no later one, so it is never honoured as the active token again |
| `RefreshFamilies.RevokedFamilyIsInvalid` | apps/api/src/authn/application/refresh.ts:60-63 | in every run, a refresh whose family is revoked at any moment before the refresh reads it can only end as invalid, whatever happens in between |
| `RefreshFamilies.EndedSessionIsInvalid` | apps/api/src/authn/application/refresh.ts:65-68 | the same for a session that ends at any moment before the refresh reads it |
| `RefreshFamilies.RevokedBeforehandIsInvalid` | apps/api/src/authn/application/refresh.ts:60-63 | seen from the finished refresh: one that began with its family revoked ended as invalid |
| `RefreshFamilies.GrantedTokenIsSuccessor` | apps/api/src/authn/application/refresh.ts:92-166 | a granted refresh, first or replayed from the grace entry, presented a token that had not expired, of a session that had not, and returns the one direct successor of that token, which lasts as long as the session |
| `RefreshFamilies.StepKeepsInv` | apps/api/src/authn/application/refresh.ts:52-166 | every step of refreshes, logins, logouts, revocations and expiring grace entries keeps the family invariant |
| `RefreshFamilies.RotationKeepsTokens` | apps/api/src/authn/infrastructure/persistence/drizzle-refresh-tokens.repository.ts:36-49 | the conditional update and insert turn generation n into rotated and add generation n + 1 |
| `RefreshFamilies.RevocationKeepsTokens` | apps/api/src/authn/infrastructure/persistence/drizzle-token-families.repository.ts:61-82 | revoking a family, even missing rows inserted meanwhile, keeps the generations linear |
| `SigningKeys.RetirementIsSafe` | apps/api/src/authn/infrastructure/tokens/jwt-access-token-issuer.ts:26-54 | no run raises the least accepted version above the version that signed a token whose expiry is ahead, nor above the active version, even with a promote between resolving and signing |
| `SigningKeys.UndisturbedIssueUsesActive` | apps/api/src/authn/infrastructure/tokens/jwt-access-token-issuer.ts:26-54 | an issuance no other step interrupts signs with the pinned version, or the latest if none is pinned, and changes nothing else |
| `SigningKeys.IssuedTokenIsAccepted` | apps/api/src/authn/infrastructure/tokens/jwt-access-token-issuer.ts:26-54 | in terms of the run alone: a token whose issuance began in one state of a run is accepted in every later one before that moment (in whole seconds) plus its lifetime |
| `SigningKeys.SigningKeyService.Rotate` | apps/api/src/authn/application/signing-keys.ts:30-35 | the version that signed before goes on signing, the latest version is one higher, and neither drains nor the least accepted version change |
| `SigningKeys.SigningKeyService.Promote` | apps/api/src/authn/application/signing-keys.ts:37-53 | the latest version signs; an older one that signed until now has exactly one draining entry, ending one token lifetime from now, all other entries and the least accepted version being unchanged |
| `SigningKeys.PromotionDrains` | apps/api/src/authn/application/signing-keys.ts:37-53 | promoting twice or over an old entry never leaves two entries of one version, nor touches another version's |
| `SigningKeys.RotationCompletes` | apps/api/src/authn/application/signing-keys.ts:30-69 | a rotation followed by a promotion hands signing to the new version and keeps the old one accepted until every token it can have signed has expired |
| `SigningKeys.SigningKeyService.Retire` | apps/api/src/authn/application/signing-keys.ts:55-69 | the entries whose drain is over leave the document and are returned; the least accepted version becomes the successor of the newest of them, so that all are refused; without any, nothing changes |
| `SigningKeys.RetirementRetires` | apps/api/src/authn/application/signing-keys.ts:55-69 | the same stated of any key state, in terms of its entries alone |
| `SigningKeys.RetiredVersionIsRefused` | apps/api/src/authn/application/signing-keys.ts:55-69 | in every run a version retired at or past the end of its drain is refused from then on |
| `SigningKeys.StepKeepsInv` | apps/api/src/authn/application/signing-keys.ts:20-69 | every step of issuers, rotations, promotions and retirements keeps each signing version covered by a drain long enough |
| `CanonicalJson.SameTextIsSameValue` | apps/api/src/security/domain/audit-chain.ts:14-27 | canonical text is equal if and only if the values are equal up to key order, at every level |
| `CanonicalJson.TextDelimits` | apps/api/src/security/domain/audit-chain.ts:14-27 | canonical text delimits itself: followed by a delimiter, it determines both the value and where it ends |
| `CanonicalJson.QuoteDelimits` | apps/api/src/security/domain/audit-chain.ts:16-16 | an escaped string literal determines the string and where it ends |
| `JsonLiterals.LiteralRoundTrip` | apps/api/src/security/domain/audit-chain.ts:16-16 | reading an escaped string literal as RFC 8259 section 7 has it gives the string back, whatever follows |
| `CanonicalJson.EquivalentHaveSameText` | apps/api/src/security/domain/audit-chain.ts:21-26 | sorting keys removes all that key order can change |
| `UndisturbedRefreshes.ActiveTokenIsRotated` | apps/api/src/authn/application/refresh.ts:70-74 | a refresh that runs undisturbed with an unexpired active token of a live family and session is granted the successor: one generation up, active, lasting as long as the session, the old token rotated, the pair in the grace cache, nothing else changed |
| `UndisturbedRefreshes.UnusableTokenIsInvalid` | apps/api/src/authn/application/refresh.ts:52-68 | a missing or expired token, a revoked family, or an ended or expired session is answered invalid and changes nothing |
| `UndisturbedRefreshes.SpentTokenIsReplayed` | apps/api/src/authn/application/refresh.ts:75-80 | a spent token whose pair is cached and names the family's active token is granted that token, and nothing changes |
| `UndisturbedRefreshes.SpentTokenIsReuse` | apps/api/src/authn/application/refresh.ts:82-90 | a spent token without a cached pair is reuse: family, its tokens and session end, everything else stays |
| `UndisturbedRefreshes.OutdatedPairIsReuse` | apps/api/src/authn/application/refresh.ts:142-158 | so is one whose pair is not the newest any more or whose family has no active token |
| `UndisturbedRefreshes.LostRaceWaits` | apps/api/src/authn/application/refresh.ts:142-166 | a refresh that loses the race for an active token looks six times for the winner's pair before it decides on reuse |
| `UndisturbedRefreshes.LoginIsUsable` | apps/api/src/authn/application/login.ts:105-145 | the token of a new login is usable until it expires, and the only one of its family |
| `UndisturbedRefreshes.LogoutEndsSession` | apps/api/src/authn/infrastructure/persistence/drizzle-token-families.repository.ts:48-53 | a logout leaves no token of the session usable and every other token as usable as before |
| `AuditChain.VerifyChain` | apps/api/src/security/domain/audit-chain.ts:39-48 | verification succeeds if and only if every link holds, and otherwise brokenAt is the first bad link |
| `AuditChain.TextDeterminesRecord` | apps/api/src/security/domain/audit-chain.ts:29-37 | the hashed text is equal if and only if previous hash and record are, the payload up to key order |
| `AuditChain.SameTailSameLog` | apps/api/src/security/domain/audit-chain.ts:29-48 | two verifying logs that end in the same hash agree record by record, if no hashed texts of the two collide and none hashes to the genesis value |
| `AuditChain.CutLogVerifies` | apps/api/src/security/domain/audit-chain.ts:39-48 | a log cut at its end still verifies, so only the last hash shows the cut |
| `AuditChain.AuditLog.Append` | apps/api/src/security/infrastructure/drizzle-audit-log.ts:21-52 | an append adds one row, which tells its event, stores the hash of the row before and chains to it, and the log keeps verifying |
| `AuditChain.AuditLog.Verify` | apps/api/src/security/infrastructure/drizzle-audit-log.ts:54-66 | verify on the stored rows succeeds and reports their number |
| `AuditChain.ConcurrentAppendsKeepChain` | apps/api/src/security/infrastructure/drizzle-audit-log.ts:21-52 | in every interleaving of appends and aborts the rows listed by position verify and store their previous hashes, and they are exactly the rows of the finished appends, each with its event and each once |
| `AuditChain.StepKeepsInv` | apps/api/src/security/infrastructure/drizzle-audit-log.ts:21-52 | every step keeps the chain, one session holding the lock with the true tail |
| `DecisionLog.Conservation` | apps/api/src/authz/infrastructure/persistence/buffered-decision-log.ts:39-82 | in every state each accepted entry is in exactly one of written, dropped, in flight or buffered, in arrival order; the buffer stays within its bound |
| `DecisionLog.DeliveredIsWrittenOrDropped` | apps/api/src/authz/infrastructure/persistence/buffered-decision-log.ts:66-82 | each entry of a settled batch is either written or dropped |
| `DecisionLog.BufferedDecisionLog.Record` | apps/api/src/authz/infrastructure/persistence/buffered-decision-log.ts:39-50 | an entry is buffered behind those accepted before, or, with the buffer full, handed back to be written directly; when the buffer reaches the batch size a drain is under way afterwards, with a full batch if none was before |
| `DecisionLog.BufferedDecisionLog.Flush` | apps/api/src/authz/infrastructure/persistence/buffered-decision-log.ts:52-57 | a flush starts a drain only when none is under way |
| `DecisionLog.BufferedDecisionLog.TakeBatch` | apps/api/src/authz/infrastructure/persistence/buffered-decision-log.ts:66-68 | the batch is the oldest entries, up to the batch size |
| `DecisionLog.BufferedDecisionLog.SinkAnswered` | apps/api/src/authz/infrastructure/persistence/buffered-decision-log.ts:71-82 | a batch the sink took is written, a batch it refused is dropped, and the drain goes on |
| `DecisionLog.BufferedDecisionLog.Close` | apps/api/src/authz/infrastructure/persistence/buffered-decision-log.ts:59-62 | closing stops the timer, and a drain is under way |
| `DecisionLog.BufferedDecisionLog.CloseResumes` | apps/api/src/authz/infrastructure/persistence/buffered-decision-log.ts:59-64 | close ends only with an empty buffer, and then, unless another drain started, everything accepted was delivered |
| `Conditions.EvalCondition` | apps/api/src/authz/domain/policy/evaluate-condition.ts:162-197 | the short-circuiting evaluator answers true exactly when the condition holds and false exactly when it fails, by a definition of holding and failing that does not name the evaluator; this is the strong Kleene value |
| `Conditions.CompareMeans` | apps/api/src/authz/domain/policy/evaluate-condition.ts:33-75 | numbers, and a time against a time or a text readable as one, compare by their order; texts and booleans by equality alone; anything else is indeterminate |
| `Conditions.PoliciesDecide` | apps/api/src/authz/domain/policy/decide.ts:6-36 | a decision permits if and only if every forbidding policy's condition fails and relationships permit or some permitting policy's condition holds |
| `Conditions.ReasonsNamePolicies` | apps/api/src/authz/domain/policy/decide.ts:6-36 | a denial by policy names a policy that forbids, a permit by policy one that permits, and otherwise the relationship decision stands unchanged |
| `Conditions.EvalAll` | apps/api/src/authz/domain/policy/evaluate-condition.ts:164-172 | the `and` loop computes the Kleene conjunction |
| `Conditions.EvalAny` | apps/api/src/authz/domain/policy/evaluate-condition.ts:173-181 | the `or` loop computes the Kleene disjunction |
| `Conditions.ChildOrderIrrelevant` | apps/api/src/authz/domain/policy/evaluate-condition.ts:162-197 | the verdict does not depend on the order of an operand list |
| `Conditions.LessKnownVerdict` | apps/api/src/authz/domain/policy/evaluate-condition.ts:162-197 | turning leaves into indeterminate only ever turns a verdict into indeterminate, under any nesting of not |
| `Conditions.Decide` | apps/api/src/authz/domain/policy/decide.ts:6-36 | forbid wins over permit and indeterminate forbids deny: the effect by the specified rulings |
| `Conditions.PolicyOrderIrrelevant` | apps/api/src/authz/domain/policy/decide.ts:6-36 | the effect does not depend on the order of the policies |
| `Conditions.ForgettingNeverPermits` | apps/api/src/authz/domain/policy/decide.ts:6-36 | making leaf verdicts indeterminate never changes a deny into a permit |
| `Conditions.NoPolicyNoContext` | apps/api/src/authz/application/pdp-service.ts:312-365 | without applicable policies the decision ignores the request context |
| `IpAddresses.ParseIpv4` | apps/api/src/authz/domain/policy/evaluate-condition.ts:77-88 | the in-place parser returns the value of four octets in 0..255, or nothing |
| `IpAddresses.ParseIpv6` | apps/api/src/authz/domain/policy/evaluate-condition.ts:90-123 | the in-place parser returns the value of the eight groups, `::` filled with zeros, or nothing |
| `IpAddresses.ParsedIpFits` | apps/api/src/authz/domain/policy/evaluate-condition.ts:77-132 | parsed values stay below 2 to the 32 and 2 to the 128 |
| `IpTexts.Ipv4TextParses` | apps/api/src/authz/domain/policy/evaluate-condition.ts:77-88 | every number below 2 to the 32 is parsed from its dotted decimal text |
| `IpTexts.Ipv6TextParses` | apps/api/src/authz/domain/policy/evaluate-condition.ts:90-123 | every number below 2 to the 128 is parsed from its eight hexadecimal groups (section 2.2 of RFC 4291) |
| `IpAddresses.CompressedIsExpanded` | apps/api/src/authz/domain/policy/evaluate-condition.ts:90-123 | a `::` address parses to the number of its eight-group form (section 2.2 of RFC 4291) |
| `IpAddresses.MaskTestIsPrefixTest` | apps/api/src/authz/domain/policy/evaluate-condition.ts:134-144 | the masks agree if and only if the leading prefix bits agree (section 3.1 of RFC 4632) |
| `IpAddresses.ContainedInIsPrefixMatch` | apps/api/src/authz/domain/policy/evaluate-condition.ts:134-144 | an address is in a block if and only if block and prefix parse, the widths are equal and the leading prefix bits agree |

## Left out

- Console, SDK, HTTP controllers, guards and modules; metrics, logging, reason messages and latency fields.
- Login, MFA, password reset, e-mail verification, lockout counters, TOTP, tenancy and outbox delivery.
- Cryptography: hashes are parameters, token identities stand for their hashes, signing is an event; SHA-256 is assumed collision-free only on the texts of the two logs compared.
- SQL and Redis mechanics: kept are lock until commit, per-statement or snapshot visibility, atomic transactions, and cache entries that vanish at any time.
- `Date.parse`, number conversion and string comparison details of conditions: parameters of `Conditions` and `IpAddresses`.
- JSON numbers are their texts and payloads are JSON values (`undefined` and non-finite numbers do not occur); keys are ordered by code point instead of UTF-16 unit, which the results do not depend on.
- The order rows and policies are listed in: any order, fixed by what is stored; decisions are stated for one state at a time.
- `Store`, `MembershipIndex`, `DecisionCache`, `TupleChangeStream` and `RefreshFamilies` are state machines over values, because their subject is interleaving; updates in place between two steps are not modelled there (the indexer's rebuild of one organization is, in `Reindexing`).
- `batchCheck`: its slots are checks of their own in `DecisionCache`; the read caches its misses share are in `ClosureLoader`. That one batch may mix two revisions is allowed, not stated.
- `applyBounds`, `simulate`, `parseCondition`, `toData`/`fromData` and consistency-token decoding: single-body facts.
- Retry delays, heartbeat intervals and stream deadlines: the corresponding steps may happen at any time, so results hold for all timings.
- The access-token revocation list written beside a reuse: revoking family and session is modelled, the cache entry is not.
- Indexer progress under interference: undisturbed runs catch up (`MembershipIndex.UndisturbedRunsCatchUp`) and a run that commits has covered its window (`IndexCoverage.CommittedRunCovers`), but indexers that hold stale cursors can move the cursor back and restamp sets with older revisions, so that every organization is eventually indexed under any schedule is not claimed; readers ignore stale sets.
- RefreshFamilies.LateTokenIsReuse: a late token whose token, family or session had already ended is answered invalid, as in the source.
- FaithfulLoading.LoadedDecision: one direction only, because a cut or pruned load can still decide alike (for a subject without any tuple, say); where it need not, the organizations of `Limits`, `LoadingLimits` and `PruningLimits` show the way it fails.
- LoadedChecks.CheckedPermitIsMembership: says nothing of denials; without exclusions a load can make the check deny a member unmarked, whether the load was cut (`LoadingLimits.CutLoadHidesMember`) or only pruned by a fresh entry (`PruningLimits.PrunedLoadHidesMember`).
- Transparency.IndexIsTransparent: with intersections or exclusions one direction only, because a truncated denial of a non-member stays a denial under every fresh index; for unions `IndexShortcut.IndexPermitsExactly` gives the exact condition. Both are about `evaluate` alone, the service being the subject of `LoadedChecks`.
- MembershipIndex.IndexedChecksAreSafe: after a load that was cut or pruned it promises nothing of denials once a rewrite intersects or excludes, nor of permits once one excludes, nor of denials after a cut load for several required relations: `LoadingLimits` and `PruningLimits` show wrong denials below an intersection and wrong permits below an exclusion, `Limits.CutLoadLosesPermit` the third.
- LoadedExpansion.LoadedExpand: covers uncut loads and union-only rewrites; after a cut load expand still lists only members if nothing is excluded (`PartialExpansion.LoadedExpandListsMembers`), but it can leave members out, and below an exclusion list others (`LoadingLimits.CutLoadExpandsWrongly`).
