/** The Account custom resource, as far as the reconciler reads it (src/crds.rs). */
module Crds {

  /** Where an Account's B2 credential lives: a secret and the two field names inside it. */
  datatype AccountSecretReference = AccountSecretReference(
    name: string,
    namespace: string,
    keyIdField: string,
    applicationKeyField: string)

  datatype AccountSpec = AccountSpec(credentialReference: AccountSecretReference)

  /** An Account snapshot as the scheduler delivers it; only `spec` is reconciled on. */
  datatype Account = Account(name: string, spec: AccountSpec)
}
