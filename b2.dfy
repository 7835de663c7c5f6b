/** Values exchanged with the B2 authorization service (src/helpers/b2.rs). */
module B2 {

  /** The pair used to authenticate against B2. */
  datatype Credential = Credential(keyId: string, applicationKey: string)

  /** An authorization handle returned by the service; nothing in the core looks inside it. */
  type Authorization(==)

  /**
   * A cached authorization. The creation time the source records beside the
   * handle is never read, so it is not part of the model.
   */
  datatype TimestampedAuthorization = TimestampedAuthorization(authorization: Authorization)
}
