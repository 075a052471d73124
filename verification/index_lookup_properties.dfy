/** What the four-step index lookup of the statement context means in the
    merged view, stated over the membership predicate its method ensures. */
module IndexLookupProperties {
  import opened Kernel
  import opened Diffs
  import opened TxStates
  import opened CommittedStore
  import opened Overlay
  import OverlayProperties

  /** Membership in the diff the index lookup assembles, applied to the
      committed lookup and then to the deleted nodes: the four steps in
      terms of the diff of changed nodes, the label filter, the nodes given
      the label with the value and the nodes that lost it with the value. */
  lemma AssembledLookupMembership(changed: DiffSets<NodeId>, hasLabel: NodeId -> bool, labelled: seq<NodeId>,
                                  unlabelled: set<NodeId>, committed: seq<NodeId>, deleted: set<NodeId>, n: NodeId)
    requires changed.Valid()
    ensures n in RemovalsOnly(deleted).Apply(changed.FilterAdded(hasLabel).AddAll(labelled).RemoveAll(unlabelled).Apply(committed)) <==>
              && n !in deleted
              && n !in unlabelled
              && (|| (n in changed.added && hasLabel(n))
                  || n in labelled
                  || (n in committed && n !in changed.removed))
  {
    var filtered := changed.FilterAdded(hasLabel);
    var grown := filtered.AddAll(labelled);
    var diff := grown.RemoveAll(unlabelled);
    assert n in filtered.added <==> n in changed.added && hasLabel(n) by {
      assert filtered.IsAdded(n) <==> changed.IsAdded(n) && hasLabel(n);
    }
    assert n in grown.added <==> n in filtered.added || n in labelled by {
      assert grown.IsAdded(n) <==> filtered.IsAdded(n) || n in labelled;
    }
    assert n in grown.removed <==> n in changed.removed && n !in labelled by {
      assert grown.IsRemoved(n) <==> filtered.IsRemoved(n) && n !in labelled;
    }
    assert n in diff.added <==> n in grown.added && n !in unlabelled by {
      assert diff.IsAdded(n) <==> grown.IsAdded(n) && n !in unlabelled;
    }
    assert n in diff.removed <==> n in grown.removed || n in unlabelled by {
      assert diff.IsRemoved(n) <==> grown.IsRemoved(n) || n in unlabelled;
    }
  }

  /** With no property changed to or from the value, the lookup finds
      exactly the live nodes that carry the index's label in the merged view
      and whose committed property equals the value. */
  lemma IndexLookupWithoutPropertyChanges(tx: TxView, store: Store, index: IndexDescriptor, value: Value, n: NodeId)
    requires tx.WellFormed() && tx.ConsistentWith(store) && store.Valid()
    requires index.propertyKeyId in store.propertyKeys
    requires store.NodesGetFromIndexLookup(index, value).Ok?
    requires tx.NodesWithChangedProperty(index.propertyKeyId, value).IsEmpty()
    ensures InIndexLookup(tx, store, index, value, store.NodesGetFromIndexLookup(index, value).value, n) <==>
              && n !in tx.deletedNodes
              && HasLabelFilter(tx, store, index.labelId, n)
              && HasPropertyFilter(store, index.propertyKeyId, value, n)
  {
    OverlayProperties.LockstepAt(tx, n, index.labelId);
    if store.HasLabel(index.labelId, n) {
      assert n in store.nodeOrder && n !in tx.addedNodes;
    }
  }

  /** A node whose property changed to the value is found exactly when it
      is live and has the label in the merged view, unless it lost the label
      while having had the value. */
  lemma ChangedPropertyFoundWithLabel(tx: TxView, store: Store, index: IndexDescriptor, value: Value, committed: seq<NodeId>, n: NodeId)
    requires tx.WellFormed()
    requires index.propertyKeyId in store.propertyKeys
    requires n in tx.NodesWithChangedProperty(index.propertyKeyId, value).added
    ensures InIndexLookup(tx, store, index, value, committed, n) <==>
              && n !in tx.deletedNodes
              && !(n in tx.LabelNodeDiff(index.labelId).removed && HasPropertyFilter(store, index.propertyKeyId, value, n))
              && (HasLabelFilter(tx, store, index.labelId, n) || n in committed)
  {
    assert n !in tx.NodesWithChangedProperty(index.propertyKeyId, value).removed;
    OverlayProperties.LockstepAt(tx, n, index.labelId);
  }

  /** A node that lost the label in this transaction and had the value is
      never found, whatever the property diff and the committed lookup say. */
  lemma LabelLossHides(tx: TxView, store: Store, index: IndexDescriptor, value: Value, committed: seq<NodeId>, n: NodeId)
    requires index.propertyKeyId in store.propertyKeys
    requires n in tx.LabelNodeDiff(index.labelId).removed
    requires store.NodeGetPropertyValue(n, index.propertyKeyId) == Ok(value)
    ensures !InIndexLookup(tx, store, index, value, committed, n)
  {
  }

  /** A node given the label in this transaction, not deleted, whose
      committed property equals the value is found, whatever the committed
      lookup says. */
  lemma LabelGainShows(tx: TxView, store: Store, index: IndexDescriptor, value: Value, committed: seq<NodeId>, n: NodeId)
    requires tx.WellFormed()
    requires index.propertyKeyId in store.propertyKeys
    requires n in tx.LabelNodeDiff(index.labelId).added && n !in tx.deletedNodes
    requires store.NodeGetPropertyValue(n, index.propertyKeyId) == Ok(value)
    ensures InIndexLookup(tx, store, index, value, committed, n)
  {
  }

  /** No deleted node is ever found. */
  lemma DeletedNeverFound(tx: TxView, store: Store, index: IndexDescriptor, value: Value, committed: seq<NodeId>, n: NodeId)
    requires index.propertyKeyId in store.propertyKeys
    requires n in tx.deletedNodes
    ensures !InIndexLookup(tx, store, index, value, committed, n)
  {
  }
}
