/** The business error codes shared by the validators and the service. */
module ErrorCodes {

  /** A record that must not exist was found. */
  const DataExists: int := -20110002

  /** A record that must exist was not found. */
  const NoRecordsExist: int := -20110003

  /** A value that must be unique is already taken by another record. */
  const CodeAlreadyExists: int := -20110004

  /** A filter, order or page descriptor failed validation. */
  const IllegalQuery: int := -20110005
}
