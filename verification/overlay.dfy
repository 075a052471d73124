/** The read side of the statement context: every query merges the
    committed store's answer with the transaction's diff. These are the
    read-only members of StateHandlingStatementContext, written as functions
    of the transaction state's current view and the committed store. */
module Overlay {
  import opened Kernel
  import opened Seqs
  import opened Diffs
  import opened TxStates
  import opened CommittedStore

  // ---- node labels ----

  function NodeHasLabel(tx: TxView, store: Store, n: NodeId, l: LabelId): (r: Result<bool>)
    // a node deleted in this transaction has no labels; the store is not asked
    ensures tx.HasChanges() && tx.NodeIsDeletedInThisTx(n) ==> r == Ok(false)
    // a node created in this transaction has exactly the labels added to it
    ensures (tx.HasChanges() && !tx.NodeIsDeletedInThisTx(n) && tx.NodeIsAddedInThisTx(n)) ==>
              r == Ok(tx.NodeLabelDiff(n).IsAdded(l))
    // with no changes at all the committed answer is returned unchanged
    ensures !tx.HasChanges() ==> r == store.NodeHasLabel(n, l)
    // the merged view: added in the transaction, or committed and neither removed nor shadowed
    ensures r == Ok(true) <==>
              && n !in tx.deletedNodes
              && (|| l in tx.NodeLabelDiff(n).added
                  || (n !in tx.addedNodes && l !in tx.NodeLabelDiff(n).removed && store.HasLabel(l, n)))
    // only a node the transaction knows nothing about can be missing
    ensures r.Err? <==>
              && n !in tx.deletedNodes && n !in tx.addedNodes
              && tx.LabelState(n, l).None? && n !in store.nodes
    ensures r.Err? ==> r.error == EntityNotFound
  {
    if tx.HasChanges() && tx.NodeIsDeletedInThisTx(n) then Ok(false)
    else if tx.HasChanges() && tx.NodeIsAddedInThisTx(n) then
      var labelState := tx.LabelState(n, l);
      Ok(labelState.Some? && labelState.value)
    else if tx.HasChanges() && tx.LabelState(n, l).Some? then Ok(tx.LabelState(n, l).value)
    else store.NodeHasLabel(n, l)
  }

  function NodeGetLabels(tx: TxView, store: Store, n: NodeId): (r: Result<seq<LabelId>>)
    ensures tx.NodeIsDeletedInThisTx(n) ==> r == Ok([])
    ensures !tx.NodeIsDeletedInThisTx(n) && tx.NodeIsAddedInThisTx(n) ==> r == Ok(tx.NodeLabelDiff(n).added)
    ensures r.Err? <==> n !in tx.deletedNodes && n !in tx.addedNodes && n !in store.nodes
    ensures r.Ok? && n !in tx.deletedNodes && n !in tx.addedNodes ==>
              forall l :: l in r.value <==>
                            (l in tx.NodeLabelDiff(n).added || (l in store.nodes[n].labels && l !in tx.NodeLabelDiff(n).removed))
  {
    if tx.NodeIsDeletedInThisTx(n) then Ok([])
    else if tx.NodeIsAddedInThisTx(n) then Ok(tx.NodeLabelDiff(n).added)
    else
      match store.NodeGetLabels(n)
      case Err(e) => Err(e)
      case Ok(committed) => Ok(tx.NodeLabelDiff(n).Apply(committed))
  }

  /** The nodes carrying the label: the label's node diff applied to the
      committed scan, then every deleted node taken out. */
  function NodesGetForLabel(tx: TxView, store: Store, l: LabelId): (r: seq<NodeId>)
    ensures !tx.HasChanges() ==> r == store.NodesGetForLabel(l)
    ensures forall n :: n in r ==> n !in tx.deletedNodes
    ensures forall n :: n in r <==>
              && n !in tx.deletedNodes
              && (|| n in tx.LabelNodeDiff(l).added
                  || (n in store.nodeOrder && store.HasLabel(l, n) && n !in tx.LabelNodeDiff(l).removed))
  {
    var committed := store.NodesGetForLabel(l);
    if !tx.HasChanges() then committed
    else tx.DeletedNodes().Apply(tx.LabelNodeDiff(l).Apply(committed))
  }

  // ---- schema listings ----

  function IndexesGetForLabel(tx: TxView, store: Store, l: LabelId): (r: seq<IndexDescriptor>)
    ensures tx.WellFormed() ==>
              forall d :: d in r <==> d.labelId == l && ((d in store.indexes && d !in tx.indexes.removed) || d in tx.indexes.added)
  {
    tx.IndexDiffSetsByLabel(l).Apply(store.IndexesGetForLabel(l))
  }

  function IndexesGetAll(tx: TxView, store: Store): (r: seq<IndexDescriptor>)
    ensures forall d :: d in r <==> (d in store.indexes && d !in tx.indexes.removed) || d in tx.indexes.added
  {
    tx.indexes.Apply(store.indexes)
  }

  function UniqueIndexesGetForLabel(tx: TxView, store: Store, l: LabelId): (r: seq<IndexDescriptor>)
    ensures tx.WellFormed() ==>
              forall d :: d in r <==> d.labelId == l && ((d in store.uniqueIndexes && d !in tx.constraintIndexes.removed) || d in tx.constraintIndexes.added)
  {
    tx.ConstraintIndexDiffSetsByLabel(l).Apply(store.UniqueIndexesGetForLabel(l))
  }

  function UniqueIndexesGetAll(tx: TxView, store: Store): (r: seq<IndexDescriptor>)
    ensures forall d :: d in r <==> (d in store.uniqueIndexes && d !in tx.constraintIndexes.removed) || d in tx.constraintIndexes.added
  {
    tx.constraintIndexes.Apply(store.uniqueIndexes)
  }

  // ---- constraints: the three applyConstraintsDiff overloads ----

  /** A missing diff passes the committed constraints through. */
  function ApplyConstraintsDiffForLabelAndProperty(tx: TxView, constraints: seq<UniquenessConstraint>, l: LabelId, key: PropertyKeyId)
    : (r: seq<UniquenessConstraint>)
    ensures tx.ConstraintsChangesForLabelAndProperty(l, key).None? ==> r == constraints
    ensures tx.WellFormed() ==> forall c :: c in r <==>
              || (c in constraints && !(c in tx.constraints.removed && KeyOf(c) == (l, key)))
              || (c in tx.constraints.added && KeyOf(c) == (l, key))
  {
    match tx.ConstraintsChangesForLabelAndProperty(l, key)
    case Some(diff) => diff.Apply(constraints)
    case None => constraints
  }

  function ApplyConstraintsDiffForLabel(tx: TxView, constraints: seq<UniquenessConstraint>, l: LabelId)
    : (r: seq<UniquenessConstraint>)
    ensures tx.ConstraintsChangesForLabel(l).None? ==> r == constraints
    ensures tx.WellFormed() ==> forall c :: c in r <==>
              || (c in constraints && !(c in tx.constraints.removed && c.labelId == l))
              || (c in tx.constraints.added && c.labelId == l)
  {
    match tx.ConstraintsChangesForLabel(l)
    case Some(diff) => diff.Apply(constraints)
    case None => constraints
  }

  function ApplyConstraintsDiffAll(tx: TxView, constraints: seq<UniquenessConstraint>): (r: seq<UniquenessConstraint>)
    ensures forall c :: c in r <==> (c in constraints && c !in tx.constraints.removed) || c in tx.constraints.added
  {
    tx.constraints.Apply(constraints)
  }

  function ConstraintsGetForLabelAndPropertyKey(tx: TxView, store: Store, l: LabelId, key: PropertyKeyId): (r: seq<UniquenessConstraint>)
    ensures tx.WellFormed() ==> forall c :: c in r <==>
              && KeyOf(c) == (l, key)
              && ((c in store.constraints && c !in tx.constraints.removed) || c in tx.constraints.added)
  {
    ApplyConstraintsDiffForLabelAndProperty(tx, store.ConstraintsGetForLabelAndPropertyKey(l, key), l, key)
  }

  function ConstraintsGetForLabel(tx: TxView, store: Store, l: LabelId): (r: seq<UniquenessConstraint>)
    ensures tx.WellFormed() ==> forall c :: c in r <==>
              && c.labelId == l
              && ((c in store.constraints && c !in tx.constraints.removed) || c in tx.constraints.added)
  {
    ApplyConstraintsDiffForLabel(tx, store.ConstraintsGetForLabel(l), l)
  }

  function ConstraintsGetAll(tx: TxView, store: Store): (r: seq<UniquenessConstraint>)
    ensures forall c :: c in r <==> (c in store.constraints && c !in tx.constraints.removed) || c in tx.constraints.added
  {
    ApplyConstraintsDiffAll(tx, store.constraints)
  }

  // ---- single index rule and index state ----

  /** The index rule for (label, key): the committed rule (none if the store
      reports it missing) merged with the transaction's index diff FOR THE
      LABEL, which is not narrowed to the property key; the first merged
      rule is returned, and an empty merge is a schema-rule-not-found. */
  function IndexesGetForLabelAndPropertyKey(tx: TxView, store: Store, l: LabelId, key: PropertyKeyId): (r: Result<IndexDescriptor>)
    ensures r.Err? <==>
              && tx.IndexDiffSetsByLabel(l).added == []
              && (IndexDescriptor(l, key) !in store.indexes || tx.IndexDiffSetsByLabel(l).IsRemoved(IndexDescriptor(l, key)))
    ensures r.Err? ==> r.error == SchemaRuleNotFound
    ensures r.Ok? ==> r.value == IndexDescriptor(l, key) || tx.IndexDiffSetsByLabel(l).IsAdded(r.value)
    ensures tx.WellFormed() && r.Ok? ==> r.value.labelId == l
  {
    var committed := store.IndexesGetForLabelAndPropertyKey(l, key);
    var committedRules := if committed.Ok? then [committed.value] else [];
    var rules := tx.IndexDiffSetsByLabel(l).Apply(committedRules);
    if rules == [] then Err(SchemaRuleNotFound) else Ok(rules[0])
  }

  /** The index rule for (label, key) with the label's index diff narrowed
      to the property key before it is merged: the rule is found exactly
      when the merged view holds the descriptor (label, key), and it is that
      descriptor. */
  function IndexesGetForLabelAndPropertyKeyNarrowed(tx: TxView, store: Store, l: LabelId, key: PropertyKeyId): (r: Result<IndexDescriptor>)
    ensures tx.WellFormed() ==>
              (r.Ok? <==> (IndexDescriptor(l, key) in store.indexes && IndexDescriptor(l, key) !in tx.indexes.removed)
                          || IndexDescriptor(l, key) in tx.indexes.added)
    ensures r.Err? ==> r.error == SchemaRuleNotFound
    ensures tx.WellFormed() && r.Ok? ==> r.value == IndexDescriptor(l, key)
  {
    var committed := store.IndexesGetForLabelAndPropertyKey(l, key);
    var committedRules := if committed.Ok? then [committed.value] else [];
    var rules := Filter(tx.IndexDiffSetsByLabel(l).Apply(committedRules), (d: IndexDescriptor) => d.propertyKeyId == key);
    if rules == [] then Err(SchemaRuleNotFound) else Ok(rules[0])
  }

  /** Whether the diff has the rule pending addition (true), pending removal
      (index not found), or has no opinion (false). */
  function CheckIndexState(index: IndexDescriptor, diff: DiffSets<IndexDescriptor>): (r: Result<bool>)
    ensures r == Ok(true) <==> diff.IsAdded(index)
    ensures r.Err? <==> !diff.IsAdded(index) && diff.IsRemoved(index)
    ensures r.Err? ==> r.error == IndexNotFound
  {
    if diff.IsAdded(index) then Ok(true)
    else if diff.IsRemoved(index) then Err(IndexNotFound)
    else Ok(false)
  }

  function IndexGetState(tx: TxView, store: Store, index: IndexDescriptor): (r: Result<InternalIndexState>)
    ensures tx.WellFormed() ==>
              && (index in tx.indexes.added ==> r == Ok(Populating))
              && (index in tx.indexes.removed ==> r == Err(IndexNotFound))
              && (index !in tx.indexes.added && index !in tx.indexes.removed ==>
                    && (index in tx.constraintIndexes.added ==> r == Ok(Populating))
                    && (index in tx.constraintIndexes.removed ==> r == Err(IndexNotFound))
                    && (index !in tx.constraintIndexes.added && index !in tx.constraintIndexes.removed ==>
                          r == store.IndexGetState(index)))
  {
    match CheckIndexState(index, tx.IndexDiffSetsByLabel(index.labelId))
    case Err(e) => Err(e)
    case Ok(true) => Ok(Populating)
    case Ok(false) =>
      match CheckIndexState(index, tx.ConstraintIndexDiffSetsByLabel(index.labelId))
      case Err(e) => Err(e)
      case Ok(true) => Ok(Populating)
      case Ok(false) => store.IndexGetState(index)
  }

  // ---- the filters of the index lookup ----

  /** The node's COMMITTED property equals the value; a missing node or a
      missing property is no match, not an error. The property key is known
      to exist. */
  function HasPropertyFilter(store: Store, key: PropertyKeyId, value: Value, n: NodeId): (r: bool)
    requires key in store.propertyKeys
    ensures r <==> store.NodeGetPropertyValue(n, key) == Ok(value)
    ensures r <==> n in store.nodes && key in store.nodes[n].properties && store.nodes[n].properties[key] == value
  {
    match store.NodeGetPropertyValue(n, key)
    case Ok(v) => v == value
    case Err(_) => false
  }

  /** The node has the label in the merged view; a missing node is no match. */
  function HasLabelFilter(tx: TxView, store: Store, l: LabelId, n: NodeId): (r: bool)
    ensures r <==> NodeHasLabel(tx, store, n, l) == Ok(true)
    ensures !r ==> NodeHasLabel(tx, store, n, l) == Ok(false) || NodeHasLabel(tx, store, n, l) == Err(EntityNotFound)
  {
    match NodeHasLabel(tx, store, n, l)
    case Ok(b) => b
    case Err(_) => false
  }

  /** Membership in the result of an index lookup, given the committed
      lookup's answer: never a deleted node; never a node that lost the
      index's label and had the value before; otherwise a node whose
      property changed to the value and has the label, a node that gained
      the label and had the value, or a committed match whose property did
      not change away from the value. */
  ghost predicate InIndexLookup(tx: TxView, store: Store, index: IndexDescriptor, value: Value, committed: seq<NodeId>, n: NodeId)
    requires index.propertyKeyId in store.propertyKeys
  {
    var propertyDiff := tx.NodesWithChangedProperty(index.propertyKeyId, value);
    var labelDiff := tx.LabelNodeDiff(index.labelId);
    var hadValue := HasPropertyFilter(store, index.propertyKeyId, value, n);
    && n !in tx.deletedNodes
    && !(n in labelDiff.removed && hadValue)
    && (|| (n in propertyDiff.added && HasLabelFilter(tx, store, index.labelId, n))
        || (n in labelDiff.added && hadValue)
        || (n in committed && n !in propertyDiff.removed))
  }
}
