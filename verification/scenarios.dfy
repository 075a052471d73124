/** End-to-end behaviour of the overlay over short sequences of writes, and
    the concrete input that separates the index-rule query as written from
    its narrowed form. */
module Scenarios {
  import opened Kernel
  import opened Diffs
  import opened TxStates
  import opened CommittedStore
  import opened Overlay
  import OverlayProperties

  /** A committed store holding node 1 with label 7 and nothing else. */
  function NodeOneWithLabelSeven(): (store: Store)
    ensures store.Valid() && store.HasLabel(7, 1)
  {
    Store([1], map[1 := Node([7], map[])], {}, [], [], map[], [])
  }

  /** Removing a committed label hides it from both label reads; adding it
      back shows it again. */
  lemma RemoveThenAddCommittedLabel()
    ensures var store := NodeOneWithLabelSeven();
            var removed := EmptyView().RemoveLabelFromNode(7, 1);
            && NodeHasLabel(EmptyView(), store, 1, 7) == Ok(true)
            && NodeHasLabel(removed, store, 1, 7) == Ok(false)
            && NodeGetLabels(removed, store, 1).Ok? && 7 !in NodeGetLabels(removed, store, 1).value
            && NodeHasLabel(removed.AddLabelToNode(7, 1), store, 1, 7) == Ok(true)
  {
    var store := NodeOneWithLabelSeven();
    var removed := EmptyView().RemoveLabelFromNode(7, 1);
    OverlayProperties.RemoveLabelEffect(EmptyView(), store, 1, 7);
    RemoveLabelFromNodeKeepsWellFormed(EmptyView(), 7, 1);
    OverlayProperties.AddLabelEffect(removed, store, 1, 7);
  }

  /** A node created in this transaction and given a label is listed under
      that label, though the committed store has never heard of it. */
  lemma CreatedNodeListedUnderLabel(tx: TxView, store: Store, n: NodeId, l: LabelId)
    requires tx.WellFormed() && n in tx.addedNodes && n !in tx.deletedNodes
    ensures n in NodesGetForLabel(tx.AddLabelToNode(l, n), store, l)
  {
  }

  /** Deletion wins over every label write on the node, before or after it. */
  lemma DeleteDominates(tx: TxView, store: Store, n: NodeId, l: LabelId, l': LabelId)
    requires tx.WellFormed()
    ensures var deleted := tx.DeleteNode(n);
            && NodeHasLabel(deleted, store, n, l) == Ok(false)
            && NodeGetLabels(deleted, store, n) == Ok([])
            && n !in NodesGetForLabel(deleted, store, l)
            && NodeHasLabel(deleted.AddLabelToNode(l', n), store, n, l) == Ok(false)
            && NodeHasLabel(tx.AddLabelToNode(l', n).DeleteNode(n), store, n, l) == Ok(false)
  {
  }

  /** The index-rule query as written: an index added on (1, 2) answers a
      query for (1, 3), for which no rule exists anywhere. */
  lemma IndexRuleQueryIgnoresPropertyKey()
    ensures var tx := EmptyView().AddIndexRule(IndexDescriptor(1, 2));
            var store := NodeOneWithLabelSeven();
            IndexesGetForLabelAndPropertyKey(tx, store, 1, 3) == Ok(IndexDescriptor(1, 2))
  {
    var tx := EmptyView().AddIndexRule(IndexDescriptor(1, 2));
    assert tx.IndexDiffSetsByLabel(1).added == [IndexDescriptor(1, 2)];
  }

  /** The narrowed query on the same input reports the rule as not found. */
  lemma NarrowedIndexRuleQueryRespectsPropertyKey()
    ensures var tx := EmptyView().AddIndexRule(IndexDescriptor(1, 2));
            var store := NodeOneWithLabelSeven();
            IndexesGetForLabelAndPropertyKeyNarrowed(tx, store, 1, 3) == Err(SchemaRuleNotFound)
  {
  }
}
