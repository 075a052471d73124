/** The collaborator that builds and verifies the index backing a new
    uniqueness constraint. Its work is outside this model: it is an oracle
    whose answer to each request is fixed in advance, and which keeps a log
    of the requests it received so that callers can be held to how often
    they ask. */
module ConstraintIndexCreators {
  import opened Kernel

  datatype IndexCreation = Created(indexId: IndexId) | CreationFailed(cause: CreationFailure)

  class ConstraintIndexCreator {
    /** The answer to the k-th request, for each (label, property key). */
    const outcome: (LabelId, PropertyKeyId, nat) -> IndexCreation
    var requests: seq<(LabelId, PropertyKeyId)>

    constructor (outcome: (LabelId, PropertyKeyId, nat) -> IndexCreation)
      ensures this.outcome == outcome && requests == []
    {
      this.outcome := outcome;
      requests := [];
    }

    method CreateUniquenessConstraintIndex(labelId: LabelId, key: PropertyKeyId) returns (r: IndexCreation)
      modifies this
      ensures requests == old(requests) + [(labelId, key)]
      ensures r == outcome(labelId, key, |old(requests)|)
    {
      r := outcome(labelId, key, |requests|);
      requests := requests + [(labelId, key)];
    }
  }
}
