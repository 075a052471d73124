/** Identifiers, schema descriptors and the error taxonomy shared by the
    committed store, the transaction state and the overlay. */
module Kernel {

  /** Node, label, property-key and index ids are Java longs used only as
      opaque handles: they are compared, never computed with. */
  type NodeId = int
  type LabelId = int
  type PropertyKeyId = int
  type IndexId = int

  /** A property value. Only equality matters to the overlay. */
  datatype Value = IntValue(i: int) | StringValue(s: string) | BoolValue(b: bool)

  /** An index rule on (label, property key). */
  datatype IndexDescriptor = IndexDescriptor(labelId: LabelId, propertyKeyId: PropertyKeyId)

  /** A uniqueness constraint, equal by its label and property key. */
  datatype UniquenessConstraint = UniquenessConstraint(labelId: LabelId, propertyKeyId: PropertyKeyId)

  datatype InternalIndexState = Populating | Online | Failed

  /** Why the constraint index creator gave up. */
  datatype CreationFailure = TransactionalFailure | VerificationFailed

  /** The exceptions of the kernel API, as values. */
  datatype KernelError =
    | EntityNotFound
    | PropertyNotFound
    | PropertyKeyIdNotFound
    | SchemaRuleNotFound
    | IndexNotFound
    | ConstraintCreationFailed(constraint: UniquenessConstraint, cause: CreationFailure)

  datatype Result<+T> = Ok(value: T) | Err(error: KernelError)

  datatype Option<+T> = None | Some(value: T)
}
