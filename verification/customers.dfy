/** The customer record held in the table and sent to the record store. */
module Customers {
  import opened Wrappers

  /** Identifiers are assigned by the record store; absent before creation. */
  type Id = string

  /**
   * A customer record as the application reads it. Each property may be
   * absent (`undefined`/`null`), so every field is optional.
   */
  datatype Customer = Customer(
    id: Option<Id>,
    name: Option<string>,
    country: Option<string>,
    gender: Option<string>,
    createdAt: Option<string>)

  /** The empty object `{}`, which is also what spreading `null` contributes. */
  const Blank := Customer(None, None, None, None, None)
}
