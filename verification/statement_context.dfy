/** The overlay statement context itself: the object that owns the
    transaction state, reads the committed store and routes every write into
    the transaction state. Reads are the functions of `Overlay` applied to
    the current view of the state; the operations here are the ones that
    change the state or compute with local mutable variables. */
module StatementContexts {
  import opened Kernel
  import opened Seqs
  import opened Diffs
  import opened TxStates
  import opened CommittedStore
  import opened ConstraintIndexCreators
  import opened Overlay
  import OverlayProperties
  import opened IndexLookupProperties

  class StateHandlingStatementContext {
    const state: TxState
    const delegate: Store
    const constraintIndexCreator: ConstraintIndexCreator

    /** The transaction state is well formed and consistent with the
        committed store it overlays. */
    ghost predicate Valid()
      reads state
    {
      && state.Valid()
      && state.View().ConsistentWith(delegate)
      && delegate.Valid()
    }

    constructor (actual: Store, state: TxState, constraintIndexCreator: ConstraintIndexCreator)
      requires state.Valid() && state.View().ConsistentWith(actual) && actual.Valid()
      ensures this.state == state && delegate == actual && this.constraintIndexCreator == constraintIndexCreator
      ensures Valid()
    {
      this.state := state;
      delegate := actual;
      this.constraintIndexCreator := constraintIndexCreator;
    }

    method NodeDelete(n: NodeId)
      requires Valid()
      modifies state
      ensures Valid()
      ensures state.View() == old(state.View()).DeleteNode(n)
    {
      state.DeleteNode(n);
    }

    /** Records the label unless the merged view already shows it; answers
        whether anything was recorded. A node unknown to the transaction and
        to the store is not found. */
    method NodeAddLabel(n: NodeId, l: LabelId) returns (r: Result<bool>)
      requires Valid()
      modifies state
      ensures Valid()
      ensures NodeHasLabel(old(state.View()), delegate, n, l).Err? ==>
                r == Err(EntityNotFound) && state.View() == old(state.View())
      ensures NodeHasLabel(old(state.View()), delegate, n, l) == Ok(true) ==>
                r == Ok(false) && state.View() == old(state.View())
      ensures NodeHasLabel(old(state.View()), delegate, n, l) == Ok(false) ==>
                r == Ok(true) && state.View() == old(state.View()).AddLabelToNode(l, n)
      ensures r.Ok? ==> NodeHasLabel(state.View(), delegate, n, l) == Ok(n !in state.deletedNodes)
    {
      var tx := state.View();
      match NodeHasLabel(tx, delegate, n, l)
      case Err(e) =>
        r := Err(e);
      case Ok(true) =>
        r := Ok(false);
      case Ok(false) =>
        OverlayProperties.AnsweredNodeIsKnown(tx, delegate, n, l);
        OverlayProperties.AddLabelKeepsConsistency(tx, delegate, n, l);
        OverlayProperties.AddLabelEffect(tx, delegate, n, l);
        state.AddLabelToNode(l, n);
        r := Ok(true);
    }

    /** Records the removal unless the merged view already lacks the label;
        the mirror of `NodeAddLabel`. */
    method NodeRemoveLabel(n: NodeId, l: LabelId) returns (r: Result<bool>)
      requires Valid()
      modifies state
      ensures Valid()
      ensures NodeHasLabel(old(state.View()), delegate, n, l).Err? ==>
                r == Err(EntityNotFound) && state.View() == old(state.View())
      ensures NodeHasLabel(old(state.View()), delegate, n, l) == Ok(false) ==>
                r == Ok(false) && state.View() == old(state.View())
      ensures NodeHasLabel(old(state.View()), delegate, n, l) == Ok(true) ==>
                r == Ok(true) && state.View() == old(state.View()).RemoveLabelFromNode(l, n)
      ensures r.Ok? ==> NodeHasLabel(state.View(), delegate, n, l) == Ok(false)
    {
      var tx := state.View();
      match NodeHasLabel(tx, delegate, n, l)
      case Err(e) =>
        r := Err(e);
      case Ok(false) =>
        r := Ok(false);
      case Ok(true) =>
        OverlayProperties.AnsweredNodeIsKnown(tx, delegate, n, l);
        OverlayProperties.RemoveLabelKeepsConsistency(tx, delegate, n, l);
        OverlayProperties.RemoveLabelEffect(tx, delegate, n, l);
        state.RemoveLabelFromNode(l, n);
        r := Ok(true);
    }

    method IndexCreate(l: LabelId, key: PropertyKeyId) returns (rule: IndexDescriptor)
      requires Valid()
      modifies state
      ensures Valid()
      ensures rule == IndexDescriptor(l, key)
      ensures state.View() == old(state.View()).AddIndexRule(rule)
    {
      rule := IndexDescriptor(l, key);
      state.AddIndexRule(rule);
    }

    method UniqueIndexCreate(l: LabelId, key: PropertyKeyId) returns (rule: IndexDescriptor)
      requires Valid()
      modifies state
      ensures Valid()
      ensures rule == IndexDescriptor(l, key)
      ensures state.View() == old(state.View()).AddConstraintIndexRule(rule)
    {
      rule := IndexDescriptor(l, key);
      state.AddConstraintIndexRule(rule);
    }

    method IndexDrop(descriptor: IndexDescriptor)
      requires Valid()
      modifies state
      ensures Valid()
      ensures state.View() == old(state.View()).DropIndex(descriptor)
    {
      state.DropIndex(descriptor);
    }

    method UniqueIndexDrop(descriptor: IndexDescriptor)
      requires Valid()
      modifies state
      ensures Valid()
      ensures state.View() == old(state.View()).DropConstraintIndex(descriptor)
    {
      state.DropConstraintIndex(descriptor);
    }

    method ConstraintDrop(constraint: UniquenessConstraint)
      requires Valid()
      modifies state
      ensures Valid()
      ensures state.View() == old(state.View()).DropConstraint(constraint)
    {
      state.DropConstraint(constraint);
    }

    /** Creates the uniqueness constraint on (label, key). A drop of it
        pending in this transaction is cancelled; a committed equal
        constraint is returned as it is; only otherwise is the index creator
        asked, exactly once, for a backing index, and its failure is
        reported with its cause and changes nothing. */
    method UniquenessConstraintCreate(l: LabelId, key: PropertyKeyId) returns (r: Result<UniquenessConstraint>)
      requires Valid()
      modifies state, constraintIndexCreator
      ensures Valid()
      // a pending drop is cancelled without asking the creator
      ensures old(state.View()).IsConstraintRemoved(UniquenessConstraint(l, key)) ==>
                && r == Ok(UniquenessConstraint(l, key))
                && state.View() == old(state.View()).UnRemoveConstraint(UniquenessConstraint(l, key))
                && constraintIndexCreator.requests == old(constraintIndexCreator.requests)
      // a committed equal constraint is returned without asking the creator
      ensures (!old(state.View()).IsConstraintRemoved(UniquenessConstraint(l, key)) &&
               UniquenessConstraint(l, key) in delegate.constraints) ==>
                && r == Ok(UniquenessConstraint(l, key))
                && state.View() == old(state.View())
                && constraintIndexCreator.requests == old(constraintIndexCreator.requests)
      // otherwise the creator is asked once, and its answer decides
      ensures (!old(state.View()).IsConstraintRemoved(UniquenessConstraint(l, key)) &&
               UniquenessConstraint(l, key) !in delegate.constraints) ==>
                && constraintIndexCreator.requests == old(constraintIndexCreator.requests) + [(l, key)]
                && match constraintIndexCreator.outcome(l, key, |old(constraintIndexCreator.requests)|)
                   case Created(indexId) =>
                     && r == Ok(UniquenessConstraint(l, key))
                     && state.View() == old(state.View()).AddConstraint(UniquenessConstraint(l, key), indexId)
                   case CreationFailed(cause) =>
                     && r == Err(ConstraintCreationFailed(UniquenessConstraint(l, key), cause))
                     && state.View() == old(state.View())
    {
      var constraint := UniquenessConstraint(l, key);
      var wasRemoved := state.UnRemoveConstraint(constraint);
      if wasRemoved {
        return Ok(constraint);
      }
      var committed := delegate.ConstraintsGetForLabelAndPropertyKey(l, key);
      // the committed constraints on (label, key), compared one by one
      var found := false;
      var i := 0;
      while i < |committed| && !found
        invariant 0 <= i <= |committed|
        invariant found <==> constraint in committed[..i]
      {
        found := committed[i] == constraint;
        i := i + 1;
      }
      if found {
        return Ok(constraint);
      }
      var created := constraintIndexCreator.CreateUniquenessConstraintIndex(l, key);
      match created
      case CreationFailed(cause) =>
        r := Err(ConstraintCreationFailed(constraint, cause));
      case Created(indexId) =>
        state.AddConstraint(constraint, indexId);
        r := Ok(constraint);
    }

    /** The nodes an index lookup finds in the merged view: the diff of nodes
        whose property changed to `value` is narrowed to nodes with the
        index's label, nodes given the label that had the value are added,
        nodes that lost the label and had the value are removed, and the
        result is applied to the committed lookup and then to the deleted
        nodes. */
    method NodesGetFromIndexLookup(index: IndexDescriptor, value: Value) returns (r: Result<seq<NodeId>>)
      requires Valid()
      requires index.propertyKeyId in delegate.propertyKeys
      ensures r.Err? <==> delegate.NodesGetFromIndexLookup(index, value).Err?
      ensures r.Err? ==> r.error == IndexNotFound
      ensures r.Ok? ==> forall n :: n in r.value <==>
                InIndexLookup(state.View(), delegate, index, value, delegate.NodesGetFromIndexLookup(index, value).value, n)
      ensures r.Ok? ==> NoDuplicates(r.value)
    {
      var tx, store := state.View(), delegate;
      var labelId, key := index.labelId, index.propertyKeyId;
      var hasLabel := (n: NodeId) => HasLabelFilter(tx, store, labelId, n);
      var hasValue := (n: NodeId) => key in store.propertyKeys && HasPropertyFilter(store, key, value, n);
      // the nodes whose property changed to or from the value
      var changed := tx.NodesWithChangedProperty(key, value);
      var diff := changed;
      // only those that have the label stay added
      diff := diff.FilterAdded(hasLabel);
      // nodes given the label that had the value
      var labelled := Filter(tx.LabelNodeDiff(labelId).added, hasValue);
      diff := diff.AddAll(labelled);
      // nodes that lost the label and had the value
      var unlabelled := set n | n in tx.LabelNodeDiff(labelId).removed && HasPropertyFilter(store, key, value, n);
      diff := diff.RemoveAll(unlabelled);
      match store.NodesGetFromIndexLookup(index, value)
      case Err(e) =>
        r := Err(e);
      case Ok(committed) =>
        var merged := diff.Apply(committed);
        r := Ok(tx.DeletedNodes().Apply(merged));
        forall n
          ensures n in r.value <==> InIndexLookup(tx, store, index, value, committed, n)
        {
          AssembledLookupMembership(changed, hasLabel, labelled, unlabelled, committed, tx.deletedNodes, n);
        }
        FilterNoDuplicates(store.nodeOrder, n => store.Matches(index, value, n));
        ApplyNoDuplicates(diff, committed);
        ApplyNoDuplicates(tx.DeletedNodes(), merged);
    }
  }
}
