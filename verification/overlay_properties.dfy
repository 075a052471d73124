/** What the overlay's reads promise taken together: the different queries
    agree with each other, writes have the effect the reads expect, and the
    fast path for a transaction without changes loses nothing. */
module OverlayProperties {
  import opened Kernel
  import opened Seqs
  import opened Diffs
  import opened TxStates
  import opened CommittedStore
  import opened Overlay

  /** The lockstep invariant read through the defaulting accessors. */
  lemma LockstepAt(tx: TxView, n: NodeId, l: LabelId)
    requires tx.WellFormed()
    ensures l in tx.NodeLabelDiff(n).added <==> n in tx.LabelNodeDiff(l).added
    ensures l in tx.NodeLabelDiff(n).removed <==> n in tx.LabelNodeDiff(l).removed
  {
    if n in tx.nodeLabels && l in tx.nodeLabels[n].added {
      assert l in tx.labelNodes && n in tx.labelNodes[l].added;
    }
    if l in tx.labelNodes && n in tx.labelNodes[l].added {
      assert n in tx.nodeLabels && l in tx.nodeLabels[n].added;
    }
    if n in tx.nodeLabels && l in tx.nodeLabels[n].removed {
      assert l in tx.labelNodes && n in tx.labelNodes[l].removed;
    }
    if l in tx.labelNodes && n in tx.labelNodes[l].removed {
      assert n in tx.nodeLabels && l in tx.nodeLabels[n].removed;
    }
  }

  /** Listing a node's labels and asking about one label give the same answer. */
  lemma NodeGetLabelsAgreesWithNodeHasLabel(tx: TxView, store: Store, n: NodeId, l: LabelId)
    requires tx.WellFormed() && tx.ConsistentWith(store)
    ensures NodeGetLabels(tx, store, n).Err? <==> NodeHasLabel(tx, store, n, l).Err?
    ensures NodeGetLabels(tx, store, n).Ok? ==>
              (l in NodeGetLabels(tx, store, n).value <==> NodeHasLabel(tx, store, n, l) == Ok(true))
  {
    if n !in tx.deletedNodes && n !in tx.addedNodes && n !in store.nodes {
      assert n !in tx.nodeLabels;
    }
  }

  /** A node is listed under a label exactly when it has that label. */
  lemma NodesGetForLabelAgreesWithNodeHasLabel(tx: TxView, store: Store, n: NodeId, l: LabelId)
    requires tx.WellFormed() && tx.ConsistentWith(store) && store.Valid()
    ensures n in NodesGetForLabel(tx, store, l) <==> NodeHasLabel(tx, store, n, l) == Ok(true)
  {
    LockstepAt(tx, n, l);
    if store.HasLabel(l, n) {
      assert n in store.nodeOrder && n !in tx.addedNodes;
    }
  }

  /** No node is listed twice under a label. */
  lemma NodesGetForLabelNoDuplicates(tx: TxView, store: Store, l: LabelId)
    requires tx.WellFormed() && store.Valid()
    ensures NoDuplicates(NodesGetForLabel(tx, store, l))
  {
    FilterNoDuplicates(store.nodeOrder, n => store.HasLabel(l, n));
    var committed := store.NodesGetForLabel(l);
    if tx.HasChanges() {
      ApplyNoDuplicates(tx.LabelNodeDiff(l), committed);
      ApplyNoDuplicates(tx.DeletedNodes(), tx.LabelNodeDiff(l).Apply(committed));
    }
  }

  /** Without changes every read is the committed store's own answer. */
  lemma NoChangesReadsCommitted(tx: TxView, store: Store, n: NodeId, l: LabelId, key: PropertyKeyId, index: IndexDescriptor)
    requires !tx.HasChanges()
    ensures NodeGetLabels(tx, store, n) == store.NodeGetLabels(n)
    ensures IndexesGetForLabelAndPropertyKey(tx, store, l, key) == store.IndexesGetForLabelAndPropertyKey(l, key)
    ensures IndexGetState(tx, store, index) == store.IndexGetState(index)
    ensures ConstraintsGetForLabelAndPropertyKey(tx, store, l, key) == store.ConstraintsGetForLabelAndPropertyKey(l, key)
    ensures IndexesGetForLabel(tx, store, l) == store.IndexesGetForLabel(l)
    ensures IndexesGetAll(tx, store) == store.indexes
    ensures UniqueIndexesGetForLabel(tx, store, l) == store.UniqueIndexesGetForLabel(l)
    ensures UniqueIndexesGetAll(tx, store) == store.uniqueIndexes
    ensures ConstraintsGetForLabel(tx, store, l) == store.ConstraintsGetForLabel(l)
    ensures ConstraintsGetAll(tx, store) == store.constraints
  {
    if store.NodeGetLabels(n).Ok? {
      ApplyEmpty(tx.NodeLabelDiff(n), store.NodeGetLabels(n).value);
    }
    ApplyEmpty(tx.IndexDiffSetsByLabel(l), store.IndexesGetForLabel(l));
    ApplyEmpty(tx.indexes, store.indexes);
    ApplyEmpty(tx.ConstraintIndexDiffSetsByLabel(l), store.UniqueIndexesGetForLabel(l));
    ApplyEmpty(tx.constraintIndexes, store.uniqueIndexes);
    ApplyEmpty(tx.constraints, store.constraints);
    var committed := store.IndexesGetForLabelAndPropertyKey(l, key);
    ApplyEmpty(tx.IndexDiffSetsByLabel(l), if committed.Ok? then [committed.value] else []);
  }

  /** Without changes the index lookup answers exactly the committed lookup's nodes. */
  lemma NoChangesIndexLookupIsCommitted(tx: TxView, store: Store, index: IndexDescriptor, value: Value, committed: seq<NodeId>, n: NodeId)
    requires !tx.HasChanges() && index.propertyKeyId in store.propertyKeys
    ensures InIndexLookup(tx, store, index, value, committed, n) <==> n in committed
  {
  }

  // ---- label writes ----

  /** Recording a label add on a node that lacked it gives the node the
      label, unless the node was deleted in this transaction. */
  lemma AddLabelEffect(tx: TxView, store: Store, n: NodeId, l: LabelId)
    requires tx.WellFormed() && NodeHasLabel(tx, store, n, l) == Ok(false)
    ensures NodeHasLabel(tx.AddLabelToNode(l, n), store, n, l) == Ok(n !in tx.deletedNodes)
  {
  }

  /** Recording a label removal on a node that had it takes the label away. */
  lemma RemoveLabelEffect(tx: TxView, store: Store, n: NodeId, l: LabelId)
    requires tx.WellFormed() && NodeHasLabel(tx, store, n, l) == Ok(true)
    ensures NodeHasLabel(tx.RemoveLabelFromNode(l, n), store, n, l) == Ok(false)
  {
  }

  /** The overlay's answer for (n, l) depends only on the deleted and created
      nodes and on what the transaction recorded for that pair. */
  lemma NodeHasLabelDependsOnLabelState(tx: TxView, tx': TxView, store: Store, n: NodeId, l: LabelId)
    requires tx'.deletedNodes == tx.deletedNodes && tx'.addedNodes == tx.addedNodes
    requires tx'.LabelState(n, l) == tx.LabelState(n, l)
    ensures NodeHasLabel(tx', store, n, l) == NodeHasLabel(tx, store, n, l)
  {
    if !tx.HasChanges() {
      assert tx.nodeLabels == map[];
    }
    if !tx'.HasChanges() {
      assert tx'.nodeLabels == map[];
    }
  }

  /** A label add on (n, l) changes no other node's or label's answer. */
  lemma AddLabelFrame(tx: TxView, store: Store, n: NodeId, l: LabelId, n': NodeId, l': LabelId)
    requires tx.WellFormed() && (n' != n || l' != l)
    ensures NodeHasLabel(tx.AddLabelToNode(l, n), store, n', l') == NodeHasLabel(tx, store, n', l')
  {
    var after := tx.AddLabelToNode(l, n);
    assert after.LabelState(n', l') == tx.LabelState(n', l');
    NodeHasLabelDependsOnLabelState(tx, after, store, n', l');
  }

  /** A label removal on (n, l) changes no other node's or label's answer. */
  lemma RemoveLabelFrame(tx: TxView, store: Store, n: NodeId, l: LabelId, n': NodeId, l': LabelId)
    requires tx.WellFormed() && (n' != n || l' != l)
    ensures NodeHasLabel(tx.RemoveLabelFromNode(l, n), store, n', l') == NodeHasLabel(tx, store, n', l')
  {
    var after := tx.RemoveLabelFromNode(l, n);
    assert after.LabelState(n', l') == tx.LabelState(n', l');
    NodeHasLabelDependsOnLabelState(tx, after, store, n', l');
  }

  /** Recording a label add the state already holds changes nothing. */
  lemma AddLabelToNodeAbsorbed(tx: TxView, n: NodeId, l: LabelId)
    requires n in tx.nodeLabels && tx.nodeLabels[n].Valid() && l in tx.nodeLabels[n].added
    requires l in tx.labelNodes && tx.labelNodes[l].Valid() && n in tx.labelNodes[l].added
    ensures tx.AddLabelToNode(l, n) == tx
  {
    assert tx.NodeLabelDiff(n).Add(l) == tx.nodeLabels[n];
    assert tx.LabelNodeDiff(l).Add(n) == tx.labelNodes[l];
    assert tx.nodeLabels[n := tx.nodeLabels[n]] == tx.nodeLabels;
    assert tx.labelNodes[l := tx.labelNodes[l]] == tx.labelNodes;
  }

  /** Recording the same label add twice leaves the state of recording it once. */
  lemma AddLabelToNodeIdempotent(tx: TxView, n: NodeId, l: LabelId)
    requires tx.WellFormed()
    ensures tx.AddLabelToNode(l, n).AddLabelToNode(l, n) == tx.AddLabelToNode(l, n)
  {
    var once := tx.AddLabelToNode(l, n);
    assert once.nodeLabels[n] == tx.NodeLabelDiff(n).Add(l) && once.labelNodes[l] == tx.LabelNodeDiff(l).Add(n);
    AddLabelToNodeAbsorbed(once, n, l);
  }

  /** A node the overlay answers a label question for is committed,
      created or deleted. */
  lemma AnsweredNodeIsKnown(tx: TxView, store: Store, n: NodeId, l: LabelId)
    requires tx.ConsistentWith(store) && NodeHasLabel(tx, store, n, l).Ok?
    ensures n in store.nodes || n in tx.addedNodes || n in tx.deletedNodes
  {
  }

  /** A label add on a known node keeps the state consistent with the committed store. */
  lemma AddLabelKeepsConsistency(tx: TxView, store: Store, n: NodeId, l: LabelId)
    requires tx.WellFormed() && tx.ConsistentWith(store)
    requires n in store.nodes || n in tx.addedNodes || n in tx.deletedNodes
    ensures tx.AddLabelToNode(l, n).ConsistentWith(store)
  {
    var after := tx.AddLabelToNode(l, n);
    assert after.addedNodes == tx.addedNodes && after.deletedNodes == tx.deletedNodes;
    assert after.nodeLabels.Keys == tx.nodeLabels.Keys + {n};
  }

  /** A label removal on a known node keeps the state consistent with the committed store. */
  lemma RemoveLabelKeepsConsistency(tx: TxView, store: Store, n: NodeId, l: LabelId)
    requires tx.WellFormed() && tx.ConsistentWith(store)
    requires n in store.nodes || n in tx.addedNodes || n in tx.deletedNodes
    ensures tx.RemoveLabelFromNode(l, n).ConsistentWith(store)
  {
    var after := tx.RemoveLabelFromNode(l, n);
    assert after.addedNodes == tx.addedNodes && after.deletedNodes == tx.deletedNodes;
    assert after.nodeLabels.Keys == tx.nodeLabels.Keys + {n};
  }

  // ---- index and constraint lifecycles ----

  /** A freshly created index is listed and reported as populating. */
  lemma IndexCreateIsVisible(tx: TxView, store: Store, d: IndexDescriptor)
    requires tx.WellFormed()
    ensures IndexGetState(tx.AddIndexRule(d), store, d) == Ok(Populating)
    ensures d in IndexesGetForLabel(tx.AddIndexRule(d), store, d.labelId)
    ensures d in IndexesGetAll(tx.AddIndexRule(d), store)
  {
    AddIndexRuleKeepsWellFormed(tx, d);
  }

  /** A dropped index is no longer listed and has no state. */
  lemma IndexDropIsVisible(tx: TxView, store: Store, d: IndexDescriptor)
    requires tx.WellFormed()
    ensures IndexGetState(tx.DropIndex(d), store, d) == Err(IndexNotFound)
    ensures d !in IndexesGetForLabel(tx.DropIndex(d), store, d.labelId)
    ensures d !in IndexesGetAll(tx.DropIndex(d), store)
  {
    DropIndexKeepsWellFormed(tx, d);
  }

  /** A freshly created constraint index is listed, and populating unless a
      plain index on the same descriptor was dropped in this transaction. */
  lemma UniqueIndexCreateIsVisible(tx: TxView, store: Store, d: IndexDescriptor)
    requires tx.WellFormed()
    ensures d !in tx.indexes.removed ==> IndexGetState(tx.AddConstraintIndexRule(d), store, d) == Ok(Populating)
    ensures d in tx.indexes.removed ==> IndexGetState(tx.AddConstraintIndexRule(d), store, d) == Err(IndexNotFound)
    ensures d in UniqueIndexesGetForLabel(tx.AddConstraintIndexRule(d), store, d.labelId)
    ensures d in UniqueIndexesGetAll(tx.AddConstraintIndexRule(d), store)
  {
    AddConstraintIndexRuleKeepsWellFormed(tx, d);
  }

  /** A dropped constraint index is no longer listed; unless the plain-index
      diff has an opinion on the descriptor, it has no state. */
  lemma UniqueIndexDropIsVisible(tx: TxView, store: Store, d: IndexDescriptor)
    requires tx.WellFormed()
    ensures d !in tx.indexes.added && d !in tx.indexes.removed ==>
              IndexGetState(tx.DropConstraintIndex(d), store, d) == Err(IndexNotFound)
    ensures d !in UniqueIndexesGetForLabel(tx.DropConstraintIndex(d), store, d.labelId)
    ensures d !in UniqueIndexesGetAll(tx.DropConstraintIndex(d), store)
  {
    DropConstraintIndexKeepsWellFormed(tx, d);
  }

  /** A recorded constraint is listed by all three constraint queries. */
  lemma AddConstraintIsVisible(tx: TxView, store: Store, c: UniquenessConstraint, indexId: IndexId)
    requires tx.WellFormed()
    ensures c in ConstraintsGetAll(tx.AddConstraint(c, indexId), store)
    ensures c in ConstraintsGetForLabel(tx.AddConstraint(c, indexId), store, c.labelId)
    ensures c in ConstraintsGetForLabelAndPropertyKey(tx.AddConstraint(c, indexId), store, c.labelId, c.propertyKeyId)
  {
    AddConstraintKeepsWellFormed(tx, c, indexId);
  }

  /** A dropped constraint is listed by none of the three constraint queries. */
  lemma DropConstraintIsVisible(tx: TxView, store: Store, c: UniquenessConstraint)
    requires tx.WellFormed()
    ensures c !in ConstraintsGetAll(tx.DropConstraint(c), store)
    ensures c !in ConstraintsGetForLabel(tx.DropConstraint(c), store, c.labelId)
    ensures c !in ConstraintsGetForLabelAndPropertyKey(tx.DropConstraint(c), store, c.labelId, c.propertyKeyId)
  {
    DropConstraintKeepsWellFormed(tx, c);
  }

  /** Dropping a constraint the transaction had no opinion on and then
      cancelling the drop gives back exactly the listing of before. */
  lemma DropThenUnRemoveRestores(tx: TxView, store: Store, c: UniquenessConstraint)
    requires tx.WellFormed()
    requires c !in tx.constraints.added && c !in tx.constraints.removed
    ensures tx.DropConstraint(c).IsConstraintRemoved(c)
    ensures ConstraintsGetAll(tx.DropConstraint(c).UnRemoveConstraint(c), store) == ConstraintsGetAll(tx, store)
  {
    RemoveThenUnRemove(tx.constraints, c);
  }

  /** The per-label listing is the overall listing narrowed to the label. */
  lemma ConstraintsForLabelNarrowsAll(tx: TxView, store: Store, l: LabelId, c: UniquenessConstraint)
    requires tx.WellFormed()
    ensures c in ConstraintsGetForLabel(tx, store, l) <==> c in ConstraintsGetAll(tx, store) && c.labelId == l
    ensures c in ConstraintsGetForLabelAndPropertyKey(tx, store, l, c.propertyKeyId) <==> c in ConstraintsGetForLabel(tx, store, l)
  {
  }
}
