/** The uncommitted changes of one transaction. `TxView` is the value of that
    state at one instant, with the queries the overlay asks of it and one
    transition function per write; `TxState` is the mutable object the
    overlay owns, whose methods move it from one view to the next. */
module TxStates {
  import opened Kernel
  import opened Diffs
  import CommittedStore

  /** The diff stored under `k`, or the empty diff when there is none. */
  function At<K, T(==,!new)>(m: map<K, DiffSets<T>>, k: K): DiffSets<T>
  {
    if k in m then m[k] else Empty()
  }

  /** Every diff stored in the map is valid. */
  ghost predicate AllValid<K, T(!new)>(m: map<K, DiffSets<T>>)
  {
    forall k :: k in m ==> m[k].Valid()
  }

  /** Every pair `ab` records as added (removed) is recorded as added
      (removed) in `ba` too, from the other side. */
  ghost predicate Mirrors<A(!new), B(!new)>(ab: map<A, DiffSets<B>>, ba: map<B, DiffSets<A>>)
  {
    && (forall a, b :: a in ab && b in ab[a].added ==> b in ba && a in ba[b].added)
    && (forall a, b :: a in ab && b in ab[a].removed ==> b in ba && a in ba[b].removed)
  }

  /** The label-keyed node diffs mirror the node-keyed label diffs, on both sides. */
  ghost predicate Lockstep(nodeLabels: map<NodeId, DiffSets<LabelId>>, labelNodes: map<LabelId, DiffSets<NodeId>>)
  {
    Mirrors(nodeLabels, labelNodes) && Mirrors(labelNodes, nodeLabels)
  }

  /** `parts` holds, under each key, exactly the elements of `all` with that key:
      the same diff, split by label or by (label, property key). */
  ghost predicate Partition<K, T(!new)>(all: DiffSets<T>, parts: map<K, DiffSets<T>>, key: T -> K)
  {
    && all.Valid()
    && (forall k :: k in parts ==> parts[k].Valid())
    && (forall k, x :: k in parts && x in parts[k].added ==> key(x) == k && x in all.added)
    && (forall k, x :: k in parts && x in parts[k].removed ==> key(x) == k && x in all.removed)
    && (forall x :: x in all.added ==> key(x) in parts && x in parts[key(x)].added)
    && (forall x :: x in all.removed ==> key(x) in parts && x in parts[key(x)].removed)
  }

  function IndexLabel(d: IndexDescriptor): LabelId
  {
    d.labelId
  }

  function ConstraintLabel(c: UniquenessConstraint): LabelId
  {
    c.labelId
  }

  function KeyOf(c: UniquenessConstraint): (LabelId, PropertyKeyId)
  {
    (c.labelId, c.propertyKeyId)
  }

  datatype TxView = TxView(
    deletedNodes: set<NodeId>,
    addedNodes: set<NodeId>,
    nodeLabels: map<NodeId, DiffSets<LabelId>>,
    labelNodes: map<LabelId, DiffSets<NodeId>>,
    indexes: DiffSets<IndexDescriptor>,
    indexesByLabel: map<LabelId, DiffSets<IndexDescriptor>>,
    constraintIndexes: DiffSets<IndexDescriptor>,
    constraintIndexesByLabel: map<LabelId, DiffSets<IndexDescriptor>>,
    constraints: DiffSets<UniquenessConstraint>,
    constraintsByLabel: map<LabelId, DiffSets<UniquenessConstraint>>,
    constraintsByKey: map<(LabelId, PropertyKeyId), DiffSets<UniquenessConstraint>>,
    constraintIndexIds: map<UniquenessConstraint, IndexId>,
    propertyNodes: map<(PropertyKeyId, Value), DiffSets<NodeId>>)
  {
    /** Every diff is valid; the label-keyed node diffs mirror the node-keyed
        label diffs; the per-label and per-key schema diffs partition the
        overall ones. */
    ghost predicate WellFormed()
    {
      && AllValid(nodeLabels)
      && AllValid(labelNodes)
      && AllValid(propertyNodes)
      && Lockstep(nodeLabels, labelNodes)
      && Partition(indexes, indexesByLabel, IndexLabel)
      && Partition(constraintIndexes, constraintIndexesByLabel, IndexLabel)
      && Partition(constraints, constraintsByLabel, ConstraintLabel)
      && Partition(constraints, constraintsByKey, KeyOf)
    }

    /** Created nodes are not in the committed store, and only nodes that
        exist (committed or created) or were deleted carry label changes. */
    ghost predicate ConsistentWith(store: CommittedStore.Store)
    {
      && (forall n :: n in addedNodes ==> n !in store.nodes)
      && (forall n :: n in nodeLabels ==> n in store.nodes || n in addedNodes || n in deletedNodes)
    }

    predicate HasChanges()
    {
      || deletedNodes != {}
      || addedNodes != {}
      || nodeLabels != map[]
      || labelNodes != map[]
      || !indexes.IsEmpty()
      || indexesByLabel != map[]
      || !constraintIndexes.IsEmpty()
      || constraintIndexesByLabel != map[]
      || !constraints.IsEmpty()
      || constraintsByLabel != map[]
      || constraintsByKey != map[]
      || constraintIndexIds != map[]
      || propertyNodes != map[]
    }

    predicate NodeIsDeletedInThisTx(n: NodeId)
    {
      n in deletedNodes
    }

    predicate NodeIsAddedInThisTx(n: NodeId)
    {
      n in addedNodes
    }

    /** The node's label diff; the empty diff when none was ever recorded. */
    function NodeLabelDiff(n: NodeId): (r: DiffSets<LabelId>)
      ensures n !in nodeLabels ==> r.IsEmpty()
      ensures n in nodeLabels ==> r == nodeLabels[n]
      ensures WellFormed() ==> r.Valid()
    {
      At(nodeLabels, n)
    }

    /** The label's node diff; the empty diff when none was ever recorded. */
    function LabelNodeDiff(l: LabelId): (r: DiffSets<NodeId>)
      ensures l !in labelNodes ==> r.IsEmpty()
      ensures l in labelNodes ==> r == labelNodes[l]
      ensures WellFormed() ==> r.Valid()
    {
      At(labelNodes, l)
    }

    /** Some(true) if the label was added to the node in this transaction,
        Some(false) if it was removed, None if the transaction has no opinion. */
    function LabelState(n: NodeId, l: LabelId): (r: Option<bool>)
      ensures r == Some(true) <==> NodeLabelDiff(n).IsAdded(l)
      ensures r.None? <==> !NodeLabelDiff(n).IsAdded(l) && !NodeLabelDiff(n).IsRemoved(l)
    {
      var d := NodeLabelDiff(n);
      if d.IsAdded(l) then Some(true) else if d.IsRemoved(l) then Some(false) else None
    }

    /** The deleted nodes as a removals-only diff. */
    function DeletedNodes(): (r: DiffSets<NodeId>)
      ensures r.Valid()
      ensures forall n :: !r.IsAdded(n) && (r.IsRemoved(n) <==> NodeIsDeletedInThisTx(n))
    {
      RemovalsOnly(deletedNodes)
    }

    /** The nodes whose property `key` changed to (added) or from (removed)
        `value`; the empty diff when none was ever recorded. */
    function NodesWithChangedProperty(key: PropertyKeyId, value: Value): (r: DiffSets<NodeId>)
      ensures (key, value) !in propertyNodes ==> r.IsEmpty()
      ensures (key, value) in propertyNodes ==> r == propertyNodes[(key, value)]
      ensures WellFormed() ==> r.Valid()
    {
      At(propertyNodes, (key, value))
    }

    /** The index diff for a label: in a well-formed state, exactly the
        overall index changes on that label. */
    function IndexDiffSetsByLabel(l: LabelId): (r: DiffSets<IndexDescriptor>)
      ensures WellFormed() ==> r.Valid()
      ensures WellFormed() ==> forall d :: (d in r.added <==> d in indexes.added && d.labelId == l)
                                         && (d in r.removed <==> d in indexes.removed && d.labelId == l)
    {
      var r := At(indexesByLabel, l);
      assert WellFormed() ==> r.Valid() && forall d :: (d in r.added <==> d in indexes.added && IndexLabel(d) == l)
                                                    && (d in r.removed <==> d in indexes.removed && IndexLabel(d) == l) by {
        if WellFormed() { PartitionPart(indexes, indexesByLabel, IndexLabel, l); }
      }
      r
    }

    /** The constraint index diff for a label, in the same way. */
    function ConstraintIndexDiffSetsByLabel(l: LabelId): (r: DiffSets<IndexDescriptor>)
      ensures WellFormed() ==> r.Valid()
      ensures WellFormed() ==> forall d :: (d in r.added <==> d in constraintIndexes.added && d.labelId == l)
                                         && (d in r.removed <==> d in constraintIndexes.removed && d.labelId == l)
    {
      var r := At(constraintIndexesByLabel, l);
      assert WellFormed() ==> r.Valid() && forall d :: (d in r.added <==> d in constraintIndexes.added && IndexLabel(d) == l)
                                                    && (d in r.removed <==> d in constraintIndexes.removed && IndexLabel(d) == l) by {
        if WellFormed() { PartitionPart(constraintIndexes, constraintIndexesByLabel, IndexLabel, l); }
      }
      r
    }

    /** The constraint diff for a label, or None when none was ever recorded;
        in a well-formed state, exactly the constraint changes on that label. */
    function ConstraintsChangesForLabel(l: LabelId): (r: Option<DiffSets<UniquenessConstraint>>)
      ensures r.Some? <==> l in constraintsByLabel
      ensures r.Some? ==> r.value == At(constraintsByLabel, l)
      ensures WellFormed() && r.Some? ==> r.value.Valid()
      ensures WellFormed() ==> forall c :: (c in At(constraintsByLabel, l).added <==> c in constraints.added && c.labelId == l)
                                         && (c in At(constraintsByLabel, l).removed <==> c in constraints.removed && c.labelId == l)
    {
      assert WellFormed() ==> At(constraintsByLabel, l).Valid()
                              && forall c :: (c in At(constraintsByLabel, l).added <==> c in constraints.added && ConstraintLabel(c) == l)
                                          && (c in At(constraintsByLabel, l).removed <==> c in constraints.removed && ConstraintLabel(c) == l) by {
        if WellFormed() { PartitionPart(constraints, constraintsByLabel, ConstraintLabel, l); }
      }
      if l in constraintsByLabel then Some(constraintsByLabel[l]) else None
    }

    /** The constraint diff for a (label, property key), in the same way. */
    function ConstraintsChangesForLabelAndProperty(l: LabelId, key: PropertyKeyId): (r: Option<DiffSets<UniquenessConstraint>>)
      ensures r.Some? <==> (l, key) in constraintsByKey
      ensures r.Some? ==> r.value == At(constraintsByKey, (l, key))
      ensures WellFormed() && r.Some? ==> r.value.Valid()
      ensures WellFormed() ==> forall c :: (c in At(constraintsByKey, (l, key)).added <==> c in constraints.added && KeyOf(c) == (l, key))
                                         && (c in At(constraintsByKey, (l, key)).removed <==> c in constraints.removed && KeyOf(c) == (l, key))
    {
      assert WellFormed() ==> At(constraintsByKey, (l, key)).Valid()
                              && forall c :: (c in At(constraintsByKey, (l, key)).added <==> c in constraints.added && KeyOf(c) == (l, key))
                                          && (c in At(constraintsByKey, (l, key)).removed <==> c in constraints.removed && KeyOf(c) == (l, key)) by {
        if WellFormed() { PartitionPart(constraints, constraintsByKey, KeyOf, (l, key)); }
      }
      if (l, key) in constraintsByKey then Some(constraintsByKey[(l, key)]) else None
    }

    // ---- transitions: each records one write; the lemmas named
    // `...KeepsWellFormed` below show that each keeps `WellFormed` ----

    function DeleteNode(n: NodeId): (r: TxView)
      ensures r.deletedNodes == deletedNodes + {n}
    {
      this.(deletedNodes := deletedNodes + {n})
    }

    /** Records the label on the node and the node under the label. */
    function AddLabelToNode(l: LabelId, n: NodeId): (r: TxView)
      requires NodeLabelDiff(n).Valid() && LabelNodeDiff(l).Valid()
      ensures r.NodeLabelDiff(n) == NodeLabelDiff(n).Add(l) && r.LabelNodeDiff(l) == LabelNodeDiff(l).Add(n)
      ensures forall n' :: n' != n ==> r.NodeLabelDiff(n') == NodeLabelDiff(n')
      ensures forall l' :: l' != l ==> r.LabelNodeDiff(l') == LabelNodeDiff(l')
      ensures r.nodeLabels.Keys == nodeLabels.Keys + {n}
      ensures r.HasChanges()
    {
      this.(nodeLabels := nodeLabels[n := NodeLabelDiff(n).Add(l)],
            labelNodes := labelNodes[l := LabelNodeDiff(l).Add(n)])
    }

    /** Records the removal on the node and under the label. */
    function RemoveLabelFromNode(l: LabelId, n: NodeId): (r: TxView)
      requires NodeLabelDiff(n).Valid() && LabelNodeDiff(l).Valid()
      ensures r.NodeLabelDiff(n) == NodeLabelDiff(n).Remove(l) && r.LabelNodeDiff(l) == LabelNodeDiff(l).Remove(n)
      ensures forall n' :: n' != n ==> r.NodeLabelDiff(n') == NodeLabelDiff(n')
      ensures forall l' :: l' != l ==> r.LabelNodeDiff(l') == LabelNodeDiff(l')
      ensures r.nodeLabels.Keys == nodeLabels.Keys + {n}
      ensures r.HasChanges()
    {
      this.(nodeLabels := nodeLabels[n := NodeLabelDiff(n).Remove(l)],
            labelNodes := labelNodes[l := LabelNodeDiff(l).Remove(n)])
    }

    function AddIndexRule(d: IndexDescriptor): (r: TxView)
      requires indexes.Valid() && IndexDiffSetsByLabel(d.labelId).Valid()
      ensures r.indexes == indexes.Add(d)
      ensures r.IndexDiffSetsByLabel(d.labelId) == IndexDiffSetsByLabel(d.labelId).Add(d)
    {
      this.(indexes := indexes.Add(d),
            indexesByLabel := indexesByLabel[d.labelId := IndexDiffSetsByLabel(d.labelId).Add(d)])
    }

    function DropIndex(d: IndexDescriptor): (r: TxView)
      requires indexes.Valid() && IndexDiffSetsByLabel(d.labelId).Valid()
      ensures r.indexes == indexes.Remove(d)
      ensures r.IndexDiffSetsByLabel(d.labelId) == IndexDiffSetsByLabel(d.labelId).Remove(d)
    {
      this.(indexes := indexes.Remove(d),
            indexesByLabel := indexesByLabel[d.labelId := IndexDiffSetsByLabel(d.labelId).Remove(d)])
    }

    function AddConstraintIndexRule(d: IndexDescriptor): (r: TxView)
      requires constraintIndexes.Valid() && ConstraintIndexDiffSetsByLabel(d.labelId).Valid()
      ensures r.constraintIndexes == constraintIndexes.Add(d)
      ensures r.ConstraintIndexDiffSetsByLabel(d.labelId) == ConstraintIndexDiffSetsByLabel(d.labelId).Add(d)
    {
      this.(constraintIndexes := constraintIndexes.Add(d),
            constraintIndexesByLabel := constraintIndexesByLabel[d.labelId := ConstraintIndexDiffSetsByLabel(d.labelId).Add(d)])
    }

    function DropConstraintIndex(d: IndexDescriptor): (r: TxView)
      requires constraintIndexes.Valid() && ConstraintIndexDiffSetsByLabel(d.labelId).Valid()
      ensures r.constraintIndexes == constraintIndexes.Remove(d)
      ensures r.ConstraintIndexDiffSetsByLabel(d.labelId) == ConstraintIndexDiffSetsByLabel(d.labelId).Remove(d)
    {
      this.(constraintIndexes := constraintIndexes.Remove(d),
            constraintIndexesByLabel := constraintIndexesByLabel[d.labelId := ConstraintIndexDiffSetsByLabel(d.labelId).Remove(d)])
    }

    /** The constraint diffs a write of `c` touches are valid. */
    ghost predicate ConstraintDiffsValid(c: UniquenessConstraint)
    {
      constraints.Valid() && At(constraintsByLabel, c.labelId).Valid() && At(constraintsByKey, KeyOf(c)).Valid()
    }

    /** Records a new constraint, overall, by label and by (label, key), with its backing index. */
    function AddConstraint(c: UniquenessConstraint, indexId: IndexId): (r: TxView)
      requires ConstraintDiffsValid(c)
      ensures r.constraints == constraints.Add(c)
      ensures r.constraintIndexIds == constraintIndexIds[c := indexId]
    {
      this.(constraints := constraints.Add(c),
            constraintsByLabel := constraintsByLabel[c.labelId := At(constraintsByLabel, c.labelId).Add(c)],
            constraintsByKey := constraintsByKey[KeyOf(c) := At(constraintsByKey, KeyOf(c)).Add(c)],
            constraintIndexIds := constraintIndexIds[c := indexId])
    }

    function DropConstraint(c: UniquenessConstraint): (r: TxView)
      requires ConstraintDiffsValid(c)
      ensures r.constraints == constraints.Remove(c)
      ensures r.constraintIndexIds == constraintIndexIds
    {
      this.(constraints := constraints.Remove(c),
            constraintsByLabel := constraintsByLabel[c.labelId := At(constraintsByLabel, c.labelId).Remove(c)],
            constraintsByKey := constraintsByKey[KeyOf(c) := At(constraintsByKey, KeyOf(c)).Remove(c)])
    }

    predicate IsConstraintRemoved(c: UniquenessConstraint)
    {
      constraints.IsRemoved(c)
    }

    /** Cancels a pending drop of `c` everywhere it was recorded. */
    function UnRemoveConstraint(c: UniquenessConstraint): (r: TxView)
      requires ConstraintDiffsValid(c)
      ensures r.constraints == constraints.UnRemove(c)
      ensures !r.IsConstraintRemoved(c)
    {
      this.(constraints := constraints.UnRemove(c),
            constraintsByLabel := constraintsByLabel[c.labelId := At(constraintsByLabel, c.labelId).UnRemove(c)],
            constraintsByKey := constraintsByKey[KeyOf(c) := At(constraintsByKey, KeyOf(c)).UnRemove(c)])
    }
  }

  /** The transaction state object the overlay writes into. Each field is
      one dimension of change; `View()` reads them all as one value. */
  class TxState {
    var deletedNodes: set<NodeId>
    var addedNodes: set<NodeId>
    var nodeLabels: map<NodeId, DiffSets<LabelId>>
    var labelNodes: map<LabelId, DiffSets<NodeId>>
    var indexes: DiffSets<IndexDescriptor>
    var indexesByLabel: map<LabelId, DiffSets<IndexDescriptor>>
    var constraintIndexes: DiffSets<IndexDescriptor>
    var constraintIndexesByLabel: map<LabelId, DiffSets<IndexDescriptor>>
    var constraints: DiffSets<UniquenessConstraint>
    var constraintsByLabel: map<LabelId, DiffSets<UniquenessConstraint>>
    var constraintsByKey: map<(LabelId, PropertyKeyId), DiffSets<UniquenessConstraint>>
    var constraintIndexIds: map<UniquenessConstraint, IndexId>
    var propertyNodes: map<(PropertyKeyId, Value), DiffSets<NodeId>>

    function View(): TxView
      reads this
    {
      TxView(deletedNodes, addedNodes, nodeLabels, labelNodes, indexes, indexesByLabel,
             constraintIndexes, constraintIndexesByLabel, constraints, constraintsByLabel,
             constraintsByKey, constraintIndexIds, propertyNodes)
    }

    ghost predicate Valid()
      reads this
    {
      View().WellFormed()
    }

    /** A transaction starts with no changes. */
    constructor ()
      ensures Valid() && View() == EmptyView()
    {
      deletedNodes, addedNodes := {}, {};
      nodeLabels, labelNodes := map[], map[];
      indexes, indexesByLabel := Empty(), map[];
      constraintIndexes, constraintIndexesByLabel := Empty(), map[];
      constraints, constraintsByLabel, constraintsByKey := Empty(), map[], map[];
      constraintIndexIds, propertyNodes := map[], map[];
    }

    method DeleteNode(n: NodeId)
      requires Valid()
      modifies this
      ensures Valid() && View() == old(View()).DeleteNode(n)
    {
      var before := View();
      DeleteNodeKeepsWellFormed(before, n);
      var next := before.DeleteNode(n);
      deletedNodes := next.deletedNodes;
      assert View() == next;
    }

    method AddLabelToNode(l: LabelId, n: NodeId)
      requires Valid()
      modifies this
      ensures Valid() && View() == old(View()).AddLabelToNode(l, n)
    {
      var before := View();
      AddLabelToNodeKeepsWellFormed(before, l, n);
      var next := before.AddLabelToNode(l, n);
      nodeLabels, labelNodes := next.nodeLabels, next.labelNodes;
      assert View() == next;
    }

    method RemoveLabelFromNode(l: LabelId, n: NodeId)
      requires Valid()
      modifies this
      ensures Valid() && View() == old(View()).RemoveLabelFromNode(l, n)
    {
      var before := View();
      RemoveLabelFromNodeKeepsWellFormed(before, l, n);
      var next := before.RemoveLabelFromNode(l, n);
      nodeLabels, labelNodes := next.nodeLabels, next.labelNodes;
      assert View() == next;
    }

    method AddIndexRule(d: IndexDescriptor)
      requires Valid()
      modifies this
      ensures Valid() && View() == old(View()).AddIndexRule(d)
    {
      var before := View();
      AddIndexRuleKeepsWellFormed(before, d);
      var next := before.AddIndexRule(d);
      indexes, indexesByLabel := next.indexes, next.indexesByLabel;
      assert View() == next;
    }

    method DropIndex(d: IndexDescriptor)
      requires Valid()
      modifies this
      ensures Valid() && View() == old(View()).DropIndex(d)
    {
      var before := View();
      DropIndexKeepsWellFormed(before, d);
      var next := before.DropIndex(d);
      indexes, indexesByLabel := next.indexes, next.indexesByLabel;
      assert View() == next;
    }

    method AddConstraintIndexRule(d: IndexDescriptor)
      requires Valid()
      modifies this
      ensures Valid() && View() == old(View()).AddConstraintIndexRule(d)
    {
      var before := View();
      AddConstraintIndexRuleKeepsWellFormed(before, d);
      var next := before.AddConstraintIndexRule(d);
      constraintIndexes, constraintIndexesByLabel := next.constraintIndexes, next.constraintIndexesByLabel;
      assert View() == next;
    }

    method DropConstraintIndex(d: IndexDescriptor)
      requires Valid()
      modifies this
      ensures Valid() && View() == old(View()).DropConstraintIndex(d)
    {
      var before := View();
      DropConstraintIndexKeepsWellFormed(before, d);
      var next := before.DropConstraintIndex(d);
      constraintIndexes, constraintIndexesByLabel := next.constraintIndexes, next.constraintIndexesByLabel;
      assert View() == next;
    }

    method AddConstraint(c: UniquenessConstraint, indexId: IndexId)
      requires Valid()
      modifies this
      ensures Valid() && View() == old(View()).AddConstraint(c, indexId)
    {
      var before := View();
      var next := before.AddConstraint(c, indexId);
      constraintIndexIds := next.constraintIndexIds;
      constraints, constraintsByLabel, constraintsByKey := next.constraints, next.constraintsByLabel, next.constraintsByKey;
      assert View() == before.(constraints := next.constraints, constraintsByLabel := next.constraintsByLabel,
                               constraintsByKey := next.constraintsByKey, constraintIndexIds := next.constraintIndexIds);
      AddConstraintKeepsWellFormed(before, c, indexId);
    }

    method DropConstraint(c: UniquenessConstraint)
      requires Valid()
      modifies this
      ensures Valid() && View() == old(View()).DropConstraint(c)
    {
      var before := View();
      DropConstraintKeepsWellFormed(before, c);
      var next := before.DropConstraint(c);
      constraints, constraintsByLabel, constraintsByKey := next.constraints, next.constraintsByLabel, next.constraintsByKey;
      assert View() == next;
    }

    /** Reverses a pending drop of `c`; reports whether there was one. */
    method UnRemoveConstraint(c: UniquenessConstraint) returns (wasRemoved: bool)
      requires Valid()
      modifies this
      ensures Valid()
      ensures wasRemoved == old(View()).IsConstraintRemoved(c)
      ensures View() == if wasRemoved then old(View()).UnRemoveConstraint(c) else old(View())
    {
      wasRemoved := constraints.IsRemoved(c);
      if wasRemoved {
        var before := View();
        UnRemoveConstraintKeepsWellFormed(before, c);
        var next := before.UnRemoveConstraint(c);
        constraints, constraintsByLabel, constraintsByKey := next.constraints, next.constraintsByLabel, next.constraintsByKey;
        assert View() == next;
      }
    }
  }

  function EmptyView(): (r: TxView)
    ensures r.WellFormed() && !r.HasChanges()
  {
    TxView({}, {}, map[], map[], Empty(), map[], Empty(), map[], Empty(), map[], map[], map[], map[])
  }

  /** A transaction has no changes exactly when it is the empty view. */
  lemma NoChangesIsEmptyView(tx: TxView)
    ensures !tx.HasChanges() <==> tx == EmptyView()
  {
  }

  /** Each write keeps the transaction state well formed. */
  lemma DeleteNodeKeepsWellFormed(tx: TxView, n: NodeId)
    requires tx.WellFormed()
    ensures tx.DeleteNode(n).WellFormed()
  {
  }

  lemma AddLabelToNodeKeepsWellFormed(tx: TxView, l: LabelId, n: NodeId)
    requires tx.WellFormed()
    ensures tx.NodeLabelDiff(n).Valid() && tx.LabelNodeDiff(l).Valid()
    ensures tx.AddLabelToNode(l, n).WellFormed()
  {
    MirrorsAdd(tx.nodeLabels, tx.labelNodes, n, l);
    MirrorsAdd(tx.labelNodes, tx.nodeLabels, l, n);
  }

  lemma RemoveLabelFromNodeKeepsWellFormed(tx: TxView, l: LabelId, n: NodeId)
    requires tx.WellFormed()
    ensures tx.NodeLabelDiff(n).Valid() && tx.LabelNodeDiff(l).Valid()
    ensures tx.RemoveLabelFromNode(l, n).WellFormed()
  {
    MirrorsRemove(tx.nodeLabels, tx.labelNodes, n, l);
    MirrorsRemove(tx.labelNodes, tx.nodeLabels, l, n);
  }

  lemma AddIndexRuleKeepsWellFormed(tx: TxView, d: IndexDescriptor)
    requires tx.WellFormed()
    ensures tx.indexes.Valid() && tx.IndexDiffSetsByLabel(d.labelId).Valid()
    ensures tx.AddIndexRule(d).WellFormed()
  {
    PartitionAdd(tx.indexes, tx.indexesByLabel, IndexLabel, d);
  }

  lemma DropIndexKeepsWellFormed(tx: TxView, d: IndexDescriptor)
    requires tx.WellFormed()
    ensures tx.indexes.Valid() && tx.IndexDiffSetsByLabel(d.labelId).Valid()
    ensures tx.DropIndex(d).WellFormed()
  {
    PartitionRemove(tx.indexes, tx.indexesByLabel, IndexLabel, d);
  }

  lemma AddConstraintIndexRuleKeepsWellFormed(tx: TxView, d: IndexDescriptor)
    requires tx.WellFormed()
    ensures tx.constraintIndexes.Valid() && tx.ConstraintIndexDiffSetsByLabel(d.labelId).Valid()
    ensures tx.AddConstraintIndexRule(d).WellFormed()
  {
    PartitionAdd(tx.constraintIndexes, tx.constraintIndexesByLabel, IndexLabel, d);
  }

  lemma DropConstraintIndexKeepsWellFormed(tx: TxView, d: IndexDescriptor)
    requires tx.WellFormed()
    ensures tx.constraintIndexes.Valid() && tx.ConstraintIndexDiffSetsByLabel(d.labelId).Valid()
    ensures tx.DropConstraintIndex(d).WellFormed()
  {
    PartitionRemove(tx.constraintIndexes, tx.constraintIndexesByLabel, IndexLabel, d);
  }

  lemma AddConstraintKeepsWellFormed(tx: TxView, c: UniquenessConstraint, indexId: IndexId)
    requires tx.WellFormed()
    ensures tx.ConstraintDiffsValid(c)
    ensures tx.AddConstraint(c, indexId).WellFormed()
  {
    PartitionAdd(tx.constraints, tx.constraintsByLabel, ConstraintLabel, c);
    PartitionAdd(tx.constraints, tx.constraintsByKey, KeyOf, c);
  }

  lemma DropConstraintKeepsWellFormed(tx: TxView, c: UniquenessConstraint)
    requires tx.WellFormed()
    ensures tx.ConstraintDiffsValid(c)
    ensures tx.DropConstraint(c).WellFormed()
  {
    PartitionRemove(tx.constraints, tx.constraintsByLabel, ConstraintLabel, c);
    PartitionRemove(tx.constraints, tx.constraintsByKey, KeyOf, c);
  }

  lemma UnRemoveConstraintKeepsWellFormed(tx: TxView, c: UniquenessConstraint)
    requires tx.WellFormed() && tx.IsConstraintRemoved(c)
    ensures tx.ConstraintDiffsValid(c)
    ensures tx.UnRemoveConstraint(c).WellFormed()
  {
    PartitionUnRemove(tx.constraints, tx.constraintsByLabel, ConstraintLabel, c);
    PartitionUnRemove(tx.constraints, tx.constraintsByKey, KeyOf, c);
  }

  /** Each part holds exactly the elements of the whole with its key. */
  lemma PartitionPart<K, T(!new)>(all: DiffSets<T>, parts: map<K, DiffSets<T>>, key: T -> K, k: K)
    requires Partition(all, parts, key)
    ensures At(parts, k).Valid()
    ensures forall x :: (x in At(parts, k).added <==> x in all.added && key(x) == k)
                     && (x in At(parts, k).removed <==> x in all.removed && key(x) == k)
  {
  }

  lemma PartitionAdd<K, T(!new)>(all: DiffSets<T>, parts: map<K, DiffSets<T>>, key: T -> K, x: T)
    requires Partition(all, parts, key)
    ensures Partition(all.Add(x), parts[key(x) := At(parts, key(x)).Add(x)], key)
  {
    var prev := At(parts, key(x));
    var all', parts' := all.Add(x), parts[key(x) := prev.Add(x)];
    forall k, y | k in parts' && y in parts'[k].added ensures key(y) == k && y in all'.added {
      if k == key(x) && y != x {
        assert y in prev.added;
      }
    }
    forall k, y | k in parts' && y in parts'[k].removed ensures key(y) == k && y in all'.removed {
      if k == key(x) {
        assert y != x && y in prev.removed;
      }
    }
    forall y | y in all'.added ensures key(y) in parts' && y in parts'[key(y)].added {
      if y != x {
        assert y in all.added;
      }
    }
    forall y | y in all'.removed ensures key(y) in parts' && y in parts'[key(y)].removed {
      assert y != x && y in all.removed;
    }
  }

  lemma PartitionRemove<K, T(!new)>(all: DiffSets<T>, parts: map<K, DiffSets<T>>, key: T -> K, x: T)
    requires Partition(all, parts, key)
    ensures Partition(all.Remove(x), parts[key(x) := At(parts, key(x)).Remove(x)], key)
  {
    var prev := At(parts, key(x));
    var all', parts' := all.Remove(x), parts[key(x) := prev.Remove(x)];
    forall k, y | k in parts' && y in parts'[k].added ensures key(y) == k && y in all'.added {
      if k == key(x) {
        assert y != x && y in prev.added;
      }
    }
    forall k, y | k in parts' && y in parts'[k].removed ensures key(y) == k && y in all'.removed {
      if k == key(x) && y != x {
        assert y in prev.removed;
      }
    }
    forall y | y in all'.added ensures key(y) in parts' && y in parts'[key(y)].added {
      assert y != x && y in all.added;
    }
    forall y | y in all'.removed ensures key(y) in parts' && y in parts'[key(y)].removed {
      if y != x {
        assert y in all.removed;
      }
    }
  }

  /** Recording the pair (a, b) as added on both sides keeps the mirror. */
  lemma MirrorsAdd<A(!new), B(!new)>(ab: map<A, DiffSets<B>>, ba: map<B, DiffSets<A>>, a: A, b: B)
    requires AllValid(ab) && AllValid(ba) && Mirrors(ab, ba)
    ensures Mirrors(ab[a := At(ab, a).Add(b)], ba[b := At(ba, b).Add(a)])
  {
    var prevA, prevB := At(ab, a), At(ba, b);
    var ab', ba' := ab[a := prevA.Add(b)], ba[b := prevB.Add(a)];
    forall a0, b0 | a0 in ab' && b0 in ab'[a0].added ensures b0 in ba' && a0 in ba'[b0].added {
      if a0 == a && b0 != b {
        assert b0 in prevA.added;
      }
    }
    forall a0, b0 | a0 in ab' && b0 in ab'[a0].removed ensures b0 in ba' && a0 in ba'[b0].removed {
      if a0 == a {
        assert b0 != b && b0 in prevA.removed;
      }
    }
  }

  /** Recording the pair (a, b) as removed on both sides keeps the mirror. */
  lemma MirrorsRemove<A(!new), B(!new)>(ab: map<A, DiffSets<B>>, ba: map<B, DiffSets<A>>, a: A, b: B)
    requires AllValid(ab) && AllValid(ba) && Mirrors(ab, ba)
    ensures Mirrors(ab[a := At(ab, a).Remove(b)], ba[b := At(ba, b).Remove(a)])
  {
    var prevA, prevB := At(ab, a), At(ba, b);
    var ab', ba' := ab[a := prevA.Remove(b)], ba[b := prevB.Remove(a)];
    forall a0, b0 | a0 in ab' && b0 in ab'[a0].removed ensures b0 in ba' && a0 in ba'[b0].removed {
      if a0 == a && b0 != b {
        assert b0 in prevA.removed;
      }
    }
    forall a0, b0 | a0 in ab' && b0 in ab'[a0].added ensures b0 in ba' && a0 in ba'[b0].added {
      if a0 == a {
        assert b0 != b && b0 in prevA.added;
      }
    }
  }

  lemma PartitionUnRemove<K, T(!new)>(all: DiffSets<T>, parts: map<K, DiffSets<T>>, key: T -> K, x: T)
    requires Partition(all, parts, key) && all.IsRemoved(x)
    ensures key(x) in parts
    ensures Partition(all.UnRemove(x), parts[key(x) := parts[key(x)].UnRemove(x)], key)
  {
    var prev := parts[key(x)];
    var all', parts' := all.UnRemove(x), parts[key(x) := prev.UnRemove(x)];
    forall k, y | k in parts' && y in parts'[k].removed ensures key(y) == k && y in all'.removed {
      if k == key(x) {
        assert y != x && y in prev.removed;
      }
    }
    forall y | y in all'.removed ensures key(y) in parts' && y in parts'[key(y)].removed {
      assert y != x && y in all.removed;
    }
  }
}
