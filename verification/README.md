# Transaction-state overlay of the graph kernel

This project models `StateHandlingStatementContext`, the statement context
through which a running transaction reads and writes the graph. A write
never touches the committed store. It is recorded in the transaction state
as a diff: added and removed nodes, per-node label changes, index and
constraint rules, and nodes whose property changed to a value. A read asks
the committed store and then applies the transaction's diff to the answer,
so that the transaction sees its own writes and nothing else.

The model is split into modules that follow the program's parts:

- `Kernel` holds the ids, the index and constraint descriptors, property
  values, and the kernel's exceptions as an error datatype. `Result` stands
  in for a method that throws.
- `Seqs` has `Filter` and `NoDuplicates`, over the sequences that replace the
  source's lazy iterators.
- `Diffs` has `DiffSets`, the added/removed pair that all transaction state
  is built from, with `Add`, `Remove`, `UnRemove`, `FilterAdded`, `AddAll`,
  `RemoveAll` and `Apply`.
- `CommittedStore` is the store as of transaction start: an immutable value
  with the point-in-time queries the overlay delegates to.
- `TxStates` holds `TxView`, one instant of the transaction state as a
  value, with one transition function per write. It also holds `TxState`,
  the mutable object whose methods move it from one view to the next.
  `TxView.WellFormed` is the invariant every transition keeps: the
  label→nodes diffs mirror the node→labels diffs, and the by-label and
  by-(label, key) schema diffs partition the overall ones.
- `ConstraintIndexCreators` is the collaborator that builds a constraint's
  backing index. It is an oracle whose answers are fixed in advance, and it
  logs the requests it receives.
- `Overlay` holds the read operations as functions of the current view and
  the committed store.
- `StatementContexts` holds the class `StateHandlingStatementContext`: the
  writes, constraint creation with its scan of committed constraints, and
  the four-step index lookup.
- `OverlayProperties`, `IndexLookupProperties` and `Scenarios` relate the
  reads to the writes.

Three behaviours of the code are worth stating up front:

- `nodeGetLabels` has no fast path for a transaction without changes; it
  always applies the node's label diff.
- The property filter of the index lookup reads the committed property
  value, not an overlaid one.
- `nodeAddLabel` on a node deleted in this transaction records the label
  and answers true each time, while `nodeHasLabel` keeps answering false.
  `NodeAddLabel`'s last `ensures` states this: afterwards `NodeHasLabel` is
  true exactly for a live node.

## Model

| member | source | states |
|---|---|---|
| `Diffs.DiffSets.Apply` | community/kernel/src/main/java/org/neo4j/kernel/impl/api/StateHandlingStatementContext.java:116 | the merged view holds exactly the base elements not removed plus the added ones |
| `Diffs.DiffSets.IsAdded` | community/kernel/src/main/java/org/neo4j/kernel/impl/api/StateHandlingStatementContext.java:318 | in a valid diff an element pending addition is not also pending removal |
| `Diffs.DiffSets.IsRemoved` | community/kernel/src/main/java/org/neo4j/kernel/impl/api/StateHandlingStatementContext.java:322 | in a valid diff an element pending removal is not also pending addition |
| `Diffs.DiffSets.Add` | community/kernel/src/main/java/org/neo4j/kernel/impl/api/StateHandlingStatementContext.java:370 | the element becomes added and not removed, every other element keeps its state, and the diff stays valid |
| `Diffs.DiffSets.Remove` | community/kernel/src/main/java/org/neo4j/kernel/impl/api/StateHandlingStatementContext.java:374 | the element becomes removed and not added, every other element keeps its state, and the added side is untouched when it did not hold the element |
| `Diffs.DiffSets.UnRemove` | community/kernel/src/main/java/org/neo4j/kernel/impl/api/StateHandlingStatementContext.java:192 | the element is no longer removed, the added side is unchanged, and every other removal stays |
| `Diffs.DiffSets.FilterAdded` | community/kernel/src/main/java/org/neo4j/kernel/impl/api/StateHandlingStatementContext.java:365 | an element stays added iff it was added and passes the filter; removals are untouched; validity is kept |
| `Diffs.DiffSets.AddAll` | community/kernel/src/main/java/org/neo4j/kernel/impl/api/StateHandlingStatementContext.java:370 | afterwards an element is added iff it was added or listed, and removed iff it was removed and not listed |
| `Diffs.DiffSets.RemoveAll` | community/kernel/src/main/java/org/neo4j/kernel/impl/api/StateHandlingStatementContext.java:374 | afterwards an element is removed iff it was removed or listed, and added iff it was added and not listed |
| `Diffs.ApplyNoDuplicates` | community/kernel/src/main/java/org/neo4j/kernel/impl/api/StateHandlingStatementContext.java:156 | a valid diff applied to a duplicate-free base gives a duplicate-free result |
| `Diffs.ApplyEmpty` | community/kernel/src/main/java/org/neo4j/kernel/impl/api/StateHandlingStatementContext.java:151-154 | a diff with no changes passes the base through unchanged |
| `Diffs.AddIdempotent` | community/kernel/src/main/java/org/neo4j/kernel/impl/api/StateHandlingStatementContext.java:128 | adding twice is adding once |
| `Diffs.RemoveThenUnRemove` | community/kernel/src/main/java/org/neo4j/kernel/impl/api/StateHandlingStatementContext.java:192 | cancelling the removal of an element the diff had no opinion on restores the diff |
| `Diffs.RemoveAfterAdd` | community/kernel/src/main/java/org/neo4j/kernel/impl/api/StateHandlingStatementContext.java:141 | a removal after an add leaves the element removed and not added, whatever came before |
| `Seqs.FilterNoDuplicates` | community/kernel/src/main/java/org/neo4j/kernel/impl/api/StateHandlingStatementContext.java:370 | filtering a duplicate-free sequence keeps it duplicate-free |
| `TxStates.TxView.LabelState` | community/kernel/src/main/java/org/neo4j/kernel/impl/api/StateHandlingStatementContext.java:88-95 | true iff the label was added to the node in this transaction, none iff the transaction has no opinion, false otherwise |
| `TxStates.TxView.NodeLabelDiff` | community/kernel/src/main/java/org/neo4j/kernel/impl/api/StateHandlingStatementContext.java:112-116 | the node's recorded label diff, or the empty diff when none was recorded; valid in a well-formed state |
| `TxStates.TxView.LabelNodeDiff` | community/kernel/src/main/java/org/neo4j/kernel/impl/api/StateHandlingStatementContext.java:156 | the label's recorded node diff, or the empty diff when none was recorded; valid in a well-formed state |
| `TxStates.TxView.DeletedNodes` | community/kernel/src/main/java/org/neo4j/kernel/impl/api/StateHandlingStatementContext.java:156 | a valid removals-only diff whose removed side is exactly the nodes deleted in this transaction |
| `TxStates.TxView.NodesWithChangedProperty` | community/kernel/src/main/java/org/neo4j/kernel/impl/api/StateHandlingStatementContext.java:362 | the recorded diff of nodes whose property changed to or from the value, or the empty diff when none was recorded; valid in a well-formed state |
| `TxStates.TxView.IndexDiffSetsByLabel` | community/kernel/src/main/java/org/neo4j/kernel/impl/api/StateHandlingStatementContext.java:288 | in a well-formed state, the index diff for a label holds exactly the overall index changes on that label, and is valid |
| `TxStates.TxView.ConstraintIndexDiffSetsByLabel` | community/kernel/src/main/java/org/neo4j/kernel/impl/api/StateHandlingStatementContext.java:307 | in a well-formed state, the constraint-index diff for a label holds exactly the overall constraint-index changes on that label |
| `TxStates.TxView.ConstraintsChangesForLabel` | community/kernel/src/main/java/org/neo4j/kernel/impl/api/StateHandlingStatementContext.java:252 | present exactly when a diff was recorded for the label, and then it is that diff; in a well-formed state it holds exactly the constraint changes on that label |
| `TxStates.TxView.ConstraintsChangesForLabelAndProperty` | community/kernel/src/main/java/org/neo4j/kernel/impl/api/StateHandlingStatementContext.java:241 | present exactly when a diff was recorded for the (label, key), and then it is that diff; in a well-formed state it holds exactly the constraint changes on that pair |
| `TxStates.TxView.DeleteNode` | community/kernel/src/main/java/org/neo4j/kernel/impl/api/StateHandlingStatementContext.java:73 | the node joins the deleted nodes |
| `TxStates.TxView.AddLabelToNode` | community/kernel/src/main/java/org/neo4j/kernel/impl/api/StateHandlingStatementContext.java:128 | the label is added in the node's diff and the node in the label's diff; every other node and label is unchanged |
| `TxStates.TxView.RemoveLabelFromNode` | community/kernel/src/main/java/org/neo4j/kernel/impl/api/StateHandlingStatementContext.java:141 | the mirror of the add: removed on both sides, every other node and label unchanged |
| `TxStates.TxView.AddIndexRule` | community/kernel/src/main/java/org/neo4j/kernel/impl/api/StateHandlingStatementContext.java:163 | the rule is added to the index diff, overall and under its label |
| `TxStates.TxView.DropIndex` | community/kernel/src/main/java/org/neo4j/kernel/impl/api/StateHandlingStatementContext.java:178 | the rule is removed from the index diff, overall and under its label |
| `TxStates.TxView.AddConstraintIndexRule` | community/kernel/src/main/java/org/neo4j/kernel/impl/api/StateHandlingStatementContext.java:171 | the rule is added to the constraint-index diff, overall and under its label |
| `TxStates.TxView.DropConstraintIndex` | community/kernel/src/main/java/org/neo4j/kernel/impl/api/StateHandlingStatementContext.java:184 | the rule is removed from the constraint-index diff, overall and under its label |
| `TxStates.TxView.AddConstraint` | community/kernel/src/main/java/org/neo4j/kernel/impl/api/StateHandlingStatementContext.java:215 | the constraint is added overall, and its backing index id is recorded |
| `TxStates.TxView.DropConstraint` | community/kernel/src/main/java/org/neo4j/kernel/impl/api/StateHandlingStatementContext.java:273 | the constraint is removed overall and its backing index id is kept |
| `TxStates.TxView.UnRemoveConstraint` | community/kernel/src/main/java/org/neo4j/kernel/impl/api/StateHandlingStatementContext.java:192 | a pending drop is cancelled and no longer reported as pending |
| `TxStates.TxState.constructor` | community/kernel/src/main/java/org/neo4j/kernel/impl/api/StateHandlingStatementContext.java:59 | a transaction starts with no changes |
| `TxStates.TxState.DeleteNode` | community/kernel/src/main/java/org/neo4j/kernel/impl/api/StateHandlingStatementContext.java:73 | the new state is the old view with the node deleted |
| `TxStates.TxState.AddLabelToNode` | community/kernel/src/main/java/org/neo4j/kernel/impl/api/StateHandlingStatementContext.java:128 | the new state is the old view with the label added |
| `TxStates.TxState.RemoveLabelFromNode` | community/kernel/src/main/java/org/neo4j/kernel/impl/api/StateHandlingStatementContext.java:141 | the new state is the old view with the label removed |
| `TxStates.TxState.AddIndexRule` | community/kernel/src/main/java/org/neo4j/kernel/impl/api/StateHandlingStatementContext.java:163 | the new state is the old view with the index rule added |
| `TxStates.TxState.DropIndex` | community/kernel/src/main/java/org/neo4j/kernel/impl/api/StateHandlingStatementContext.java:178 | the new state is the old view with the index rule dropped |
| `TxStates.TxState.AddConstraintIndexRule` | community/kernel/src/main/java/org/neo4j/kernel/impl/api/StateHandlingStatementContext.java:171 | the new state is the old view with the constraint-index rule added |
| `TxStates.TxState.DropConstraintIndex` | community/kernel/src/main/java/org/neo4j/kernel/impl/api/StateHandlingStatementContext.java:184 | the new state is the old view with the constraint-index rule dropped |
| `TxStates.TxState.AddConstraint` | community/kernel/src/main/java/org/neo4j/kernel/impl/api/StateHandlingStatementContext.java:215 | the new state is the old view with the constraint and its index id recorded |
| `TxStates.TxState.DropConstraint` | community/kernel/src/main/java/org/neo4j/kernel/impl/api/StateHandlingStatementContext.java:273 | the new state is the old view with the constraint dropped |
| `TxStates.TxState.UnRemoveConstraint` | community/kernel/src/main/java/org/neo4j/kernel/impl/api/StateHandlingStatementContext.java:192 | answers whether a drop was pending, and cancels it if so; otherwise nothing changes |
| `TxStates.EmptyView` | community/kernel/src/main/java/org/neo4j/kernel/impl/api/StateHandlingStatementContext.java:151 | the starting state is well formed and has no changes |
| `TxStates.NoChangesIsEmptyView` | community/kernel/src/main/java/org/neo4j/kernel/impl/api/StateHandlingStatementContext.java:79 | a transaction reports no changes exactly when it is the empty view, so every read's no-changes branch sees empty diffs |
| `TxStates.DeleteNodeKeepsWellFormed` | community/kernel/src/main/java/org/neo4j/kernel/impl/api/StateHandlingStatementContext.java:73 | deleting a node keeps the state well formed |
| `TxStates.AddLabelToNodeKeepsWellFormed` | community/kernel/src/main/java/org/neo4j/kernel/impl/api/StateHandlingStatementContext.java:128 | a label add keeps the state well formed, in particular the two label diffs mirrored |
| `TxStates.RemoveLabelFromNodeKeepsWellFormed` | community/kernel/src/main/java/org/neo4j/kernel/impl/api/StateHandlingStatementContext.java:141 | a label removal keeps the state well formed |
| `TxStates.AddIndexRuleKeepsWellFormed` | community/kernel/src/main/java/org/neo4j/kernel/impl/api/StateHandlingStatementContext.java:163 | an index add keeps the by-label index diffs a partition of the overall one |
| `TxStates.DropIndexKeepsWellFormed` | community/kernel/src/main/java/org/neo4j/kernel/impl/api/StateHandlingStatementContext.java:178 | an index drop keeps the by-label index diffs a partition of the overall one |
| `TxStates.AddConstraintIndexRuleKeepsWellFormed` | community/kernel/src/main/java/org/neo4j/kernel/impl/api/StateHandlingStatementContext.java:171 | a constraint-index add keeps its by-label partition |
| `TxStates.DropConstraintIndexKeepsWellFormed` | community/kernel/src/main/java/org/neo4j/kernel/impl/api/StateHandlingStatementContext.java:184 | a constraint-index drop keeps its by-label partition |
| `TxStates.AddConstraintKeepsWellFormed` | community/kernel/src/main/java/org/neo4j/kernel/impl/api/StateHandlingStatementContext.java:215 | a constraint add keeps both constraint partitions, by label and by (label, key) |
| `TxStates.DropConstraintKeepsWellFormed` | community/kernel/src/main/java/org/neo4j/kernel/impl/api/StateHandlingStatementContext.java:273 | a constraint drop keeps both constraint partitions |
| `TxStates.UnRemoveConstraintKeepsWellFormed` | community/kernel/src/main/java/org/neo4j/kernel/impl/api/StateHandlingStatementContext.java:192 | cancelling a pending drop keeps both constraint partitions |
| `TxStates.MirrorsAdd` | community/kernel/src/main/java/org/neo4j/kernel/impl/api/StateHandlingStatementContext.java:128 | recording a pair as added on both sides keeps one side the mirror of the other |
| `TxStates.MirrorsRemove` | community/kernel/src/main/java/org/neo4j/kernel/impl/api/StateHandlingStatementContext.java:141 | recording a pair as removed on both sides keeps one side the mirror of the other |
| `TxStates.PartitionPart` | community/kernel/src/main/java/org/neo4j/kernel/impl/api/StateHandlingStatementContext.java:241-262 | each part of a partitioned diff holds exactly the elements of the whole with its key |
| `TxStates.PartitionAdd` | community/kernel/src/main/java/org/neo4j/kernel/impl/api/StateHandlingStatementContext.java:163 | an add, overall and under the element's key, keeps the parts a partition of the whole |
| `TxStates.PartitionRemove` | community/kernel/src/main/java/org/neo4j/kernel/impl/api/StateHandlingStatementContext.java:178 | a removal, overall and under the element's key, keeps the parts a partition of the whole |
| `TxStates.PartitionUnRemove` | community/kernel/src/main/java/org/neo4j/kernel/impl/api/StateHandlingStatementContext.java:192 | cancelling a removal, overall and under the element's key, keeps the partition |
| `ConstraintIndexCreators.ConstraintIndexCreator.CreateUniquenessConstraintIndex` | community/kernel/src/main/java/org/neo4j/kernel/impl/api/StateHandlingStatementContext.java:205 | the answer is the oracle's answer to this request, and the request is logged |
| `CommittedStore.Store.NodeGetPropertyValue` | community/kernel/src/main/java/org/neo4j/kernel/impl/api/StateHandlingStatementContext.java:396-409 | fails with property-key-not-found, entity-not-found or property-not-found, checked in that order; otherwise the stored value |
| `CommittedStore.Store.NodesGetFromIndexLookup` | community/kernel/src/main/java/org/neo4j/kernel/impl/api/StateHandlingStatementContext.java:377 | an unknown index is not found; otherwise exactly the committed nodes with the label and the value |
| `CommittedStore.Store.NodeHasLabel` | community/kernel/src/main/java/org/neo4j/kernel/impl/api/StateHandlingStatementContext.java:99 | entity-not-found exactly for a node not in the store; otherwise whether the node carries the label |
| `CommittedStore.Store.NodeGetLabels` | community/kernel/src/main/java/org/neo4j/kernel/impl/api/StateHandlingStatementContext.java:115 | entity-not-found exactly for a node not in the store; otherwise the node's labels |
| `CommittedStore.Store.NodesGetForLabel` | community/kernel/src/main/java/org/neo4j/kernel/impl/api/StateHandlingStatementContext.java:150 | exactly the stored nodes that carry the label |
| `CommittedStore.Store.IndexesGetForLabelAndPropertyKey` | community/kernel/src/main/java/org/neo4j/kernel/impl/api/StateHandlingStatementContext.java:282 | the rule (label, key) when it is stored, otherwise schema-rule-not-found |
| `CommittedStore.Store.IndexGetState` | community/kernel/src/main/java/org/neo4j/kernel/impl/api/StateHandlingStatementContext.java:312 | the stored state of the index, or index-not-found when it has none |
| `CommittedStore.Store.IndexesGetForLabel` | community/kernel/src/main/java/org/neo4j/kernel/impl/api/StateHandlingStatementContext.java:335 | exactly the stored index rules on the label |
| `CommittedStore.Store.UniqueIndexesGetForLabel` | community/kernel/src/main/java/org/neo4j/kernel/impl/api/StateHandlingStatementContext.java:347 | exactly the stored constraint-index rules on the label |
| `CommittedStore.Store.ConstraintsGetForLabelAndPropertyKey` | community/kernel/src/main/java/org/neo4j/kernel/impl/api/StateHandlingStatementContext.java:194-195 | exactly the stored constraints on (label, key) |
| `CommittedStore.Store.ConstraintsGetForLabel` | community/kernel/src/main/java/org/neo4j/kernel/impl/api/StateHandlingStatementContext.java:229 | exactly the stored constraints on the label |
| `Overlay.NodeHasLabel` | community/kernel/src/main/java/org/neo4j/kernel/impl/api/StateHandlingStatementContext.java:76-100 | a deleted node has no label; a created node has exactly its added labels; no changes gives the committed answer; true iff added here, or committed and neither removed nor shadowed by creation; not found iff unknown everywhere |
| `Overlay.NodeGetLabels` | community/kernel/src/main/java/org/neo4j/kernel/impl/api/StateHandlingStatementContext.java:102-117 | empty for a deleted node; exactly the added labels for a created node; otherwise a label is listed iff added, or committed and not removed; not found iff unknown everywhere |
| `Overlay.NodesGetForLabel` | community/kernel/src/main/java/org/neo4j/kernel/impl/api/StateHandlingStatementContext.java:146-157 | the committed scan unchanged when nothing changed; never a deleted node; otherwise a node is listed iff live and added under the label, or committed with it and not removed |
| `Overlay.IndexesGetForLabel` | community/kernel/src/main/java/org/neo4j/kernel/impl/api/StateHandlingStatementContext.java:332-336 | a rule is listed iff it is on the label and is committed and not dropped, or added |
| `Overlay.IndexesGetAll` | community/kernel/src/main/java/org/neo4j/kernel/impl/api/StateHandlingStatementContext.java:338-342 | a rule is listed iff committed and not dropped, or added |
| `Overlay.UniqueIndexesGetForLabel` | community/kernel/src/main/java/org/neo4j/kernel/impl/api/StateHandlingStatementContext.java:344-349 | as for indexes, over the constraint-index diff |
| `Overlay.UniqueIndexesGetAll` | community/kernel/src/main/java/org/neo4j/kernel/impl/api/StateHandlingStatementContext.java:351-355 | as for indexes, over the constraint-index diff |
| `Overlay.ApplyConstraintsDiffForLabelAndProperty` | community/kernel/src/main/java/org/neo4j/kernel/impl/api/StateHandlingStatementContext.java:238-247 | no recorded diff passes the constraints through; otherwise only changes on that (label, key) are applied |
| `Overlay.ApplyConstraintsDiffForLabel` | community/kernel/src/main/java/org/neo4j/kernel/impl/api/StateHandlingStatementContext.java:249-258 | no recorded diff passes the constraints through; otherwise only changes on that label are applied |
| `Overlay.ApplyConstraintsDiffAll` | community/kernel/src/main/java/org/neo4j/kernel/impl/api/StateHandlingStatementContext.java:260-268 | every constraint change is applied |
| `Overlay.ConstraintsGetForLabelAndPropertyKey` | community/kernel/src/main/java/org/neo4j/kernel/impl/api/StateHandlingStatementContext.java:220-224 | a constraint is listed iff it is on (label, key) and is committed and not dropped, or added |
| `Overlay.ConstraintsGetForLabel` | community/kernel/src/main/java/org/neo4j/kernel/impl/api/StateHandlingStatementContext.java:226-230 | a constraint is listed iff it is on the label and is committed and not dropped, or added |
| `Overlay.ConstraintsGetAll` | community/kernel/src/main/java/org/neo4j/kernel/impl/api/StateHandlingStatementContext.java:232-236 | a constraint is listed iff committed and not dropped, or added |
| `Overlay.IndexesGetForLabelAndPropertyKey` | community/kernel/src/main/java/org/neo4j/kernel/impl/api/StateHandlingStatementContext.java:276-297 | schema-rule-not-found iff the label's diff adds nothing and the committed rule is missing or dropped; a found rule is the committed one or one added under the label, on any property key |
| `Overlay.IndexesGetForLabelAndPropertyKeyNarrowed` | community/kernel/src/main/java/org/neo4j/kernel/impl/api/StateHandlingStatementContext.java:288-290 | found iff (label, key) is committed and not dropped, or added; a found rule is (label, key) |
| `Overlay.CheckIndexState` | community/kernel/src/main/java/org/neo4j/kernel/impl/api/StateHandlingStatementContext.java:315-330 | true iff pending addition; index-not-found iff pending removal only; false otherwise |
| `Overlay.IndexGetState` | community/kernel/src/main/java/org/neo4j/kernel/impl/api/StateHandlingStatementContext.java:299-313 | populating if added to the index diff, not found if dropped from it; then the same against the constraint-index diff; only otherwise the committed state |
| `Overlay.HasPropertyFilter` | community/kernel/src/main/java/org/neo4j/kernel/impl/api/StateHandlingStatementContext.java:380-411 | true iff the committed property equals the value; a missing node or property is no match |
| `Overlay.HasLabelFilter` | community/kernel/src/main/java/org/neo4j/kernel/impl/api/StateHandlingStatementContext.java:413-434 | true iff the merged view says the node has the label; a missing node is no match |
| `OverlayProperties.LockstepAt` | community/kernel/src/main/java/org/neo4j/kernel/impl/api/StateHandlingStatementContext.java:156 | a label is added to (removed from) a node iff the node is added to (removed from) the label |
| `OverlayProperties.NodeGetLabelsAgreesWithNodeHasLabel` | community/kernel/src/main/java/org/neo4j/kernel/impl/api/StateHandlingStatementContext.java:76-117 | the label list and the label test fail together, and a label is listed iff the test says true |
| `OverlayProperties.NodesGetForLabelAgreesWithNodeHasLabel` | community/kernel/src/main/java/org/neo4j/kernel/impl/api/StateHandlingStatementContext.java:76-100 | a node is listed under a label iff the label test says true |
| `OverlayProperties.NodesGetForLabelNoDuplicates` | community/kernel/src/main/java/org/neo4j/kernel/impl/api/StateHandlingStatementContext.java:146-157 | the listing under a label never repeats a node |
| `OverlayProperties.NoChangesReadsCommitted` | community/kernel/src/main/java/org/neo4j/kernel/impl/api/StateHandlingStatementContext.java:102-355 | with no changes the label list, the index listings, the single index rule, the index state and the constraint listings are the committed store's own answers |
| `OverlayProperties.NoChangesIndexLookupIsCommitted` | community/kernel/src/main/java/org/neo4j/kernel/impl/api/StateHandlingStatementContext.java:357-378 | with no changes a node is in the index lookup's answer exactly when the committed lookup returned it |
| `OverlayProperties.AddLabelEffect` | community/kernel/src/main/java/org/neo4j/kernel/impl/api/StateHandlingStatementContext.java:119-130 | after recording an add the label test is true for a live node |
| `OverlayProperties.RemoveLabelEffect` | community/kernel/src/main/java/org/neo4j/kernel/impl/api/StateHandlingStatementContext.java:132-144 | after recording a removal the label test is false |
| `OverlayProperties.NodeHasLabelDependsOnLabelState` | community/kernel/src/main/java/org/neo4j/kernel/impl/api/StateHandlingStatementContext.java:86-96 | the label answer for a pair depends only on the deleted and created nodes and on what the transaction recorded for that pair |
| `OverlayProperties.AddLabelFrame` | community/kernel/src/main/java/org/neo4j/kernel/impl/api/StateHandlingStatementContext.java:128 | an add on (node, label) changes no other pair's answer |
| `OverlayProperties.RemoveLabelFrame` | community/kernel/src/main/java/org/neo4j/kernel/impl/api/StateHandlingStatementContext.java:141 | a removal on (node, label) changes no other pair's answer |
| `OverlayProperties.AddLabelToNodeAbsorbed` | community/kernel/src/main/java/org/neo4j/kernel/impl/api/StateHandlingStatementContext.java:128 | recording an add the state already holds on both sides leaves the state unchanged |
| `OverlayProperties.AddLabelToNodeIdempotent` | community/kernel/src/main/java/org/neo4j/kernel/impl/api/StateHandlingStatementContext.java:119-130 | recording the same add twice is recording it once |
| `OverlayProperties.AnsweredNodeIsKnown` | community/kernel/src/main/java/org/neo4j/kernel/impl/api/StateHandlingStatementContext.java:122 | a node the label test answers for is committed, created or deleted |
| `OverlayProperties.AddLabelKeepsConsistency` | community/kernel/src/main/java/org/neo4j/kernel/impl/api/StateHandlingStatementContext.java:128 | an add on a known node keeps the state consistent with the committed store |
| `OverlayProperties.RemoveLabelKeepsConsistency` | community/kernel/src/main/java/org/neo4j/kernel/impl/api/StateHandlingStatementContext.java:141 | a removal on a known node keeps the state consistent with the committed store |
| `OverlayProperties.IndexCreateIsVisible` | community/kernel/src/main/java/org/neo4j/kernel/impl/api/StateHandlingStatementContext.java:159-165 | a created index is populating and listed by label and overall |
| `OverlayProperties.IndexDropIsVisible` | community/kernel/src/main/java/org/neo4j/kernel/impl/api/StateHandlingStatementContext.java:175-179 | a dropped index is not found and not listed |
| `OverlayProperties.UniqueIndexCreateIsVisible` | community/kernel/src/main/java/org/neo4j/kernel/impl/api/StateHandlingStatementContext.java:167-173 | a created unique index is listed, and populating unless the plain index diff drops it |
| `OverlayProperties.UniqueIndexDropIsVisible` | community/kernel/src/main/java/org/neo4j/kernel/impl/api/StateHandlingStatementContext.java:181-185 | a dropped unique index is not listed, and not found unless the plain index diff has an opinion |
| `OverlayProperties.AddConstraintIsVisible` | community/kernel/src/main/java/org/neo4j/kernel/impl/api/StateHandlingStatementContext.java:215 | a recorded constraint is listed by all three constraint queries |
| `OverlayProperties.DropConstraintIsVisible` | community/kernel/src/main/java/org/neo4j/kernel/impl/api/StateHandlingStatementContext.java:270-274 | a dropped constraint is listed by none of them |
| `OverlayProperties.DropThenUnRemoveRestores` | community/kernel/src/main/java/org/neo4j/kernel/impl/api/StateHandlingStatementContext.java:192 | a drop then a re-create by cancellation restores the constraint listing |
| `OverlayProperties.ConstraintsForLabelNarrowsAll` | community/kernel/src/main/java/org/neo4j/kernel/impl/api/StateHandlingStatementContext.java:220-236 | the by-label and by-(label, key) listings are the overall listing narrowed |
| `StatementContexts.StateHandlingStatementContext.constructor` | community/kernel/src/main/java/org/neo4j/kernel/impl/api/StateHandlingStatementContext.java:57-68 | the context holds the given state, store and creator |
| `StatementContexts.StateHandlingStatementContext.NodeDelete` | community/kernel/src/main/java/org/neo4j/kernel/impl/api/StateHandlingStatementContext.java:70-74 | the node is recorded as deleted |
| `StatementContexts.StateHandlingStatementContext.NodeAddLabel` | community/kernel/src/main/java/org/neo4j/kernel/impl/api/StateHandlingStatementContext.java:119-130 | not found leaves the state alone; a label already there answers false and changes nothing; otherwise the add is recorded, the answer is true, and afterwards the label test is true for a live node |
| `StatementContexts.StateHandlingStatementContext.NodeRemoveLabel` | community/kernel/src/main/java/org/neo4j/kernel/impl/api/StateHandlingStatementContext.java:132-144 | the exact mirror: afterwards the label test is false |
| `StatementContexts.StateHandlingStatementContext.IndexCreate` | community/kernel/src/main/java/org/neo4j/kernel/impl/api/StateHandlingStatementContext.java:159-165 | returns (label, key) and records it as an added index rule |
| `StatementContexts.StateHandlingStatementContext.UniqueIndexCreate` | community/kernel/src/main/java/org/neo4j/kernel/impl/api/StateHandlingStatementContext.java:167-173 | returns (label, key) and records it as an added constraint-index rule |
| `StatementContexts.StateHandlingStatementContext.IndexDrop` | community/kernel/src/main/java/org/neo4j/kernel/impl/api/StateHandlingStatementContext.java:175-179 | records the index rule as dropped |
| `StatementContexts.StateHandlingStatementContext.UniqueIndexDrop` | community/kernel/src/main/java/org/neo4j/kernel/impl/api/StateHandlingStatementContext.java:181-185 | records the constraint-index rule as dropped |
| `StatementContexts.StateHandlingStatementContext.ConstraintDrop` | community/kernel/src/main/java/org/neo4j/kernel/impl/api/StateHandlingStatementContext.java:270-274 | records the constraint as dropped |
| `StatementContexts.StateHandlingStatementContext.UniquenessConstraintCreate` | community/kernel/src/main/java/org/neo4j/kernel/impl/api/StateHandlingStatementContext.java:187-218 | a pending drop is cancelled, and a committed equal constraint is returned as it is, both without asking the creator; otherwise the creator is asked exactly once; on failure the error carries the constraint and cause, and the state is unchanged; on success the constraint and its index id are recorded |
| `StatementContexts.StateHandlingStatementContext.NodesGetFromIndexLookup` | community/kernel/src/main/java/org/neo4j/kernel/impl/api/StateHandlingStatementContext.java:357-378 | fails iff the committed lookup fails (index not found); otherwise a node is returned iff `InIndexLookup` holds of it, with no repeats |
| `IndexLookupProperties.AssembledLookupMembership` | community/kernel/src/main/java/org/neo4j/kernel/impl/api/StateHandlingStatementContext.java:362-377 | a node is in the assembled result iff it is not deleted, did not lose the label with the value, and is a changed node with the label, a newly labelled node with the value, or a committed hit not changed away |
| `IndexLookupProperties.IndexLookupWithoutPropertyChanges` | community/kernel/src/main/java/org/neo4j/kernel/impl/api/StateHandlingStatementContext.java:357-378 | with no property diff, the lookup finds exactly the live nodes that have the label in the merged view and the value in the store |
| `IndexLookupProperties.ChangedPropertyFoundWithLabel` | community/kernel/src/main/java/org/neo4j/kernel/impl/api/StateHandlingStatementContext.java:362-365 | a node whose property changed to the value is found iff live, not de-labelled with the old value, and labelled or committed |
| `IndexLookupProperties.LabelLossHides` | community/kernel/src/main/java/org/neo4j/kernel/impl/api/StateHandlingStatementContext.java:372-374 | a node that lost the label and had the value is never found |
| `IndexLookupProperties.LabelGainShows` | community/kernel/src/main/java/org/neo4j/kernel/impl/api/StateHandlingStatementContext.java:367-370 | a live node that gained the label and had the value is always found |
| `IndexLookupProperties.DeletedNeverFound` | community/kernel/src/main/java/org/neo4j/kernel/impl/api/StateHandlingStatementContext.java:377 | a deleted node is never found |
| `Scenarios.RemoveThenAddCommittedLabel` | community/kernel/src/main/java/org/neo4j/kernel/impl/api/StateHandlingStatementContext.java:119-144 | removing committed label 7 from node 1 hides it from both label reads; adding it back shows it again |
| `Scenarios.CreatedNodeListedUnderLabel` | community/kernel/src/main/java/org/neo4j/kernel/impl/api/StateHandlingStatementContext.java:146-157 | a created node given a label is listed under it |
| `Scenarios.DeleteDominates` | community/kernel/src/main/java/org/neo4j/kernel/impl/api/StateHandlingStatementContext.java:79-84 | a deleted node has no labels, however its label writes are ordered around the delete |
| `Scenarios.IndexRuleQueryIgnoresPropertyKey` | community/kernel/src/main/java/org/neo4j/kernel/impl/api/StateHandlingStatementContext.java:288-290 | as written, an index added on (1, 2) answers a query for (1, 3) |
| `Scenarios.NarrowedIndexRuleQueryRespectsPropertyKey` | community/kernel/src/main/java/org/neo4j/kernel/impl/api/StateHandlingStatementContext.java:288-290 | narrowed, the same query is schema-rule-not-found |

## Left out

- `CompositeStatementContext` pass-through delegation and `SchemaStateOperations`. They are non-transactional wiring; the constructor keeps only the state, the store and the creator.
- The internals of `ConstraintIndexCreator`. It builds and verifies an index; here it is an oracle of answers fixed per request.
- `UniquenessConstraintCreate`: the source hands the creator the statement context itself, so the creator can write into the transaction state (for instance through `uniqueIndexCreate`). The model's creator never touches the transaction state.
- Lazy iterators. Every iterator is a `seq`, and a diff's added side is kept in insertion order. The source keeps it in a hash set whose order is unspecified, so the model's order is one of the possible ones.
- Exception messages. Each exception is an error value, with no text.
- The internal error for a property key that vanishes during an index lookup. "The property key exists" is a precondition of `HasPropertyFilter` and `NodesGetFromIndexLookup` instead.
- `Overlay.IndexesGetForLabelAndPropertyKey`: the helper that picks the single merged rule is not part of this model. The model returns the first merged rule and models only the empty case as not found; it does not report a merge of two or more rules as an error.
- The internals of `DiffSets` and `TxState`. Their source is not shown; both are modelled from how the overlay uses them.
- `StatementContexts.StateHandlingStatementContext.NodesGetFromIndexLookup`: `filterAdded` (StateHandlingStatementContext.java:365) is taken to return a new diff (the result is reassigned to `diff`), so the later `addAll` and `removeAll` work on that copy and the lookup leaves the transaction's property→nodes diff untouched. If `filterAdded` changed the stored diff in place, every lookup would also rewrite that diff; the model does not capture that.
- Transaction-state getters that create an empty diff entry on first access. Here they are reads that return the empty diff without storing it.
- How created nodes and the property→nodes diff get filled. Node creation and property writes are not operations of this class, so `TxView` takes both as given state.
- `TxStates.TxView.DropConstraint` keeps the recorded backing index id of a dropped constraint, since the source shows nothing that clears it.
- Java `Object.equals` on property values. Values are a datatype with structural equality.
- Transaction commit and abort, serialisation, and the command log. They are outside the overlay.

## Findings

| source | as written | input that shows it | evidently intended | confidence | as-written member | corrected member |
|---|---|---|---|---|---|---|
| community/kernel/src/main/java/org/neo4j/kernel/impl/api/StateHandlingStatementContext.java:288-290 | the transaction's index diff for the whole label is applied to the committed rule for (label, key), so a rule added on another key of that label is returned | empty committed schema; the transaction creates an index on label 1, key 2; a query for (1, 3) returns the (1, 2) rule instead of schema-rule-not-found | only rules on (label, key) are merged: the answer is found iff that rule is committed and not dropped, or added, and it is that rule | high; not executed | `Scenarios.IndexRuleQueryIgnoresPropertyKey` | `Overlay.IndexesGetForLabelAndPropertyKeyNarrowed` |
