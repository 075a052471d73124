/** The committed store as of transaction start: an immutable value with the
    point-in-time queries the overlay consults. Queries that the kernel API
    declares as throwing return `Err` instead. */
module CommittedStore {
  import opened Kernel
  import opened Seqs

  datatype Node = Node(labels: seq<LabelId>, properties: map<PropertyKeyId, Value>)

  datatype Store = Store(
    nodeOrder: seq<NodeId>,                       // the order a labelId or index scan visits nodes
    nodes: map<NodeId, Node>,
    propertyKeys: set<PropertyKeyId>,             // the property keys that exist
    indexes: seq<IndexDescriptor>,
    uniqueIndexes: seq<IndexDescriptor>,
    indexStates: map<IndexDescriptor, InternalIndexState>,
    constraints: seq<UniquenessConstraint>)
  {
    /** Scans visit every node once, and no listing repeats an entry. */
    ghost predicate Valid()
    {
      && NoDuplicates(nodeOrder)
      && (forall n :: n in nodeOrder ==> n in nodes)
      && (forall n :: n in nodes ==> n in nodeOrder)
      && (forall n :: n in nodes ==> NoDuplicates(nodes[n].labels))
      && NoDuplicates(indexes)
      && NoDuplicates(uniqueIndexes)
      && NoDuplicates(constraints)
    }

    function NodeHasLabel(node: NodeId, labelId: LabelId): (r: Result<bool>)
      ensures r.Err? <==> node !in nodes
      ensures r.Ok? ==> (r.value <==> labelId in nodes[node].labels)
    {
      if node !in nodes then Err(EntityNotFound) else Ok(labelId in nodes[node].labels)
    }

    function NodeGetLabels(node: NodeId): (r: Result<seq<LabelId>>)
      ensures r.Err? <==> node !in nodes
      ensures r.Ok? ==> r.value == nodes[node].labels
    {
      if node !in nodes then Err(EntityNotFound) else Ok(nodes[node].labels)
    }

    predicate HasLabel(labelId: LabelId, node: NodeId)
    {
      node in nodes && labelId in nodes[node].labels
    }

    function NodesGetForLabel(labelId: LabelId): (r: seq<NodeId>)
      ensures forall n :: n in r <==> HasLabel(labelId, n) && n in nodeOrder
    {
      Filter(nodeOrder, n => HasLabel(labelId, n))
    }

    function NodeGetPropertyValue(node: NodeId, key: PropertyKeyId): (r: Result<Value>)
      ensures r.Ok? <==> key in propertyKeys && node in nodes && key in nodes[node].properties
      ensures r.Ok? ==> r.value == nodes[node].properties[key]
      ensures r == Err(PropertyKeyIdNotFound) <==> key !in propertyKeys
      ensures key in propertyKeys && node !in nodes ==> r == Err(EntityNotFound)
      ensures key in propertyKeys && node in nodes && key !in nodes[node].properties ==> r == Err(PropertyNotFound)
    {
      if key !in propertyKeys then Err(PropertyKeyIdNotFound)
      else if node !in nodes then Err(EntityNotFound)
      else if key !in nodes[node].properties then Err(PropertyNotFound)
      else Ok(nodes[node].properties[key])
    }

    /** The node carries the index's labelId and its property equals `value`. */
    predicate Matches(index: IndexDescriptor, value: Value, node: NodeId)
    {
      && HasLabel(index.labelId, node)
      && index.propertyKeyId in nodes[node].properties
      && nodes[node].properties[index.propertyKeyId] == value
    }

    /** The committed index answers for every node that matches; an unknown
        index is reported as not found. */
    function NodesGetFromIndexLookup(index: IndexDescriptor, value: Value): (r: Result<seq<NodeId>>)
      ensures r.Err? <==> index !in indexes && index !in uniqueIndexes
      ensures r.Ok? ==> forall n :: n in r.value <==> Matches(index, value, n) && n in nodeOrder
    {
      if index !in indexes && index !in uniqueIndexes then Err(IndexNotFound)
      else Ok(Filter(nodeOrder, n => Matches(index, value, n)))
    }

    function IndexesGetForLabelAndPropertyKey(labelId: LabelId, key: PropertyKeyId): (r: Result<IndexDescriptor>)
      ensures r.Ok? <==> IndexDescriptor(labelId, key) in indexes
      ensures r.Ok? ==> r.value == IndexDescriptor(labelId, key)
      ensures r.Err? ==> r.error == SchemaRuleNotFound
    {
      var d := IndexDescriptor(labelId, key);
      if d in indexes then Ok(d) else Err(SchemaRuleNotFound)
    }

    function IndexGetState(index: IndexDescriptor): (r: Result<InternalIndexState>)
      ensures r.Err? <==> index !in indexStates
      ensures r.Ok? ==> r.value == indexStates[index]
    {
      if index in indexStates then Ok(indexStates[index]) else Err(IndexNotFound)
    }

    function IndexesGetForLabel(labelId: LabelId): (r: seq<IndexDescriptor>)
      ensures forall d :: d in r <==> d in indexes && d.labelId == labelId
    {
      Filter(indexes, (d: IndexDescriptor) => d.labelId == labelId)
    }

    function UniqueIndexesGetForLabel(labelId: LabelId): (r: seq<IndexDescriptor>)
      ensures forall d :: d in r <==> d in uniqueIndexes && d.labelId == labelId
    {
      Filter(uniqueIndexes, (d: IndexDescriptor) => d.labelId == labelId)
    }

    function ConstraintsGetForLabelAndPropertyKey(labelId: LabelId, key: PropertyKeyId): (r: seq<UniquenessConstraint>)
      ensures forall c :: c in r <==> c in constraints && c.labelId == labelId && c.propertyKeyId == key
    {
      Filter(constraints, (c: UniquenessConstraint) => c.labelId == labelId && c.propertyKeyId == key)
    }

    function ConstraintsGetForLabel(labelId: LabelId): (r: seq<UniquenessConstraint>)
      ensures forall c :: c in r <==> c in constraints && c.labelId == labelId
    {
      Filter(constraints, (c: UniquenessConstraint) => c.labelId == labelId)
    }
  }
}
