# b2-operator reconciler, modelled in Dafny

This project models the core of b2-operator, a Kubernetes operator for Backblaze B2. It covers the per-invocation
reconciliation of an `Account` resource:

- resolve the B2 credential from the Kubernetes secret the Account refers to;
- look its key id up in the process-wide authorization cache;
- on a miss, call B2's authorize endpoint, cache a successful authorization, and classify a failed one;
- return the scheduler a requeue delay.

Separately, it models the secret decoder that turns a secret's byte values into text, all or nothing.

Modules, one per source file or component:

- `Wrappers`: `Option` and `Result`.
- `Utf8`: the well-formed byte-sequence grammar of section 4 of RFC 3629, decoding (`FromUtf8`, standing for Rust's
  `std::str::from_utf8`) and encoding, with the round trip proved both ways.
- `Crds`: `AccountSecretReference`, `AccountSpec` and `Account` (src/crds.rs).
- `B2`: `Credential`, an opaque `Authorization` handle, `TimestampedAuthorization` (src/helpers/b2.rs).
- `Secrets`: `Decode`, a loop over the secret's entries that inserts each decoded value, proved equal to the
  whole-map function `Decoded` (src/helpers/secret.rs).
- `AccountController`: the outcome classifier, the backoff table, `error_policy`, credential resolution, and the
  class `Context`, which owns the cache as a `map` field. `Context.ReconcileAccount` is proved equal to the
  function `Reconciled`, and the properties of a reconciliation are lemmas about that function
  (src/controllers/account.rs).

External collaborators are inputs:

- the secret store is a map from (namespace, name) to secret; a name that is absent fails to fetch;
- each reconciliation receives the `AuthOutcome` that B2 would answer;
- a ghost trace `Context.events` records every cache lookup, authorize call and cache insert, so the model can say
  when the service is not asked.

Every `unwrap` and `panic!` on the resolution and decode path (src/controllers/account.rs:139, 146, 150;
src/helpers/secret.rs:11) becomes an explicit failure result. The lock failures (src/controllers/account.rs:77, 93)
and the logging-only `unwrap` (src/controllers/account.rs:65) are left out, see below.

The entries of a Kubernetes secret come in key order (a `BTreeMap`). `Decode` visits them in an arbitrary order, so
its contract holds for that order and for any other.

Choices that follow the code:

- The code never checks that the key id or application key is non-empty, so the model does not either.
- A resolution failure is a panic that aborts the process; the model makes it a `Failure` result of the
  reconciliation.
- `reconcile_account` never returns its `Err` case, so `error_policy` is never reached in the source. The model
  keeps it as the constant function it is.

## Model

| member | source | states |
|---|---|---|
| `Utf8.CodePoint` | src/helpers/secret.rs:8 | the code point a well-formed UTF-8 char decodes to is a Unicode scalar value (no surrogate, at most U+10FFFF) whose shortest encoding has exactly that many bytes, so no overlong form is accepted |
| `Utf8.FromUtf8DefinedIffValid` | src/helpers/secret.rs:8 | `from_utf8` succeeds exactly on the byte sequences that the grammar in section 4 of RFC 3629 accepts |
| `Utf8.EncodeThenDecode` | src/helpers/secret.rs:8-9 | decoding the UTF-8 encoding of any text gives that text back |
| `Utf8.DecodeThenEncode` | src/helpers/secret.rs:8-9 | whatever `from_utf8` accepts re-encodes to exactly the original bytes |
| `Utf8.EncodingIsValid` | src/helpers/secret.rs:8 | the encoding of every text is well-formed UTF-8 |
| `Secrets.Decode` | src/helpers/secret.rs:3-16 | the looping decoder, whatever order it visits the keys in, returns exactly `Decoded(secret)`: all values decoded, or the binary-data failure with no map |
| `Secrets.NoDataDecodesEmpty` | src/helpers/secret.rs:4-15 | a secret without `data` decodes to the empty map |
| `Secrets.DecodedRoundTrip` | src/helpers/secret.rs:7-9 | when every value is text, the decoded map has exactly the input's keys and each value re-encodes to the stored bytes |
| `Secrets.DecodeSucceedsIffAllValid` | src/helpers/secret.rs:8-11 | decoding succeeds if and only if every value is well-formed UTF-8 |
| `Secrets.OneBinaryValueFails` | src/helpers/secret.rs:8-11 | one non-UTF-8 value at any key fails the whole decode with the error naming the secret |
| `Secrets.DecodedKeysComeFromData` | src/helpers/secret.rs:7-9 | a decoded map never holds a key that is not in the input's data |
| `AccountController.OutcomeDelays` | src/controllers/account.rs:95-119 | the exact delay table: authorized 1 s, client error 30 s, B2 `Unauthorized` 300 s, any other B2 code 60 s, any other error 60 s |
| `AccountController.AcquiredRequeuesSoonest` | src/controllers/account.rs:88-119 | every delay is at least 1 s; it is 1 s exactly when authorization succeeded; every failure waits at least 30 s |
| `AccountController.UnauthorizedBacksOffLongest` | src/controllers/account.rs:97-119 | no outcome waits more than 300 s, and only B2 `Unauthorized` waits that long |
| `AccountController.ErrorPolicy` | src/controllers/account.rs:128-130 | the error policy requeues after 1 s whatever the Account, error and context |
| `AccountController.CredentialFromContent` | src/controllers/account.rs:143-152 | a credential exists exactly when both configured fields are in the decoded map, and then holds their values unchanged; otherwise the failure names the key id field if it is missing, or else the application key field |
| `AccountController.GetB2CredentialsFromSecret` | src/controllers/account.rs:132-155 | fetching, decoding and looking up the fields give exactly `Resolved(ref, store)`: a missing secret, a binary value or a missing field each fail |
| `AccountController.ResolvedCopiesSecretFields` | src/controllers/account.rs:139-152 | a resolved credential comes from a fetched secret whose two configured fields hold exactly the UTF-8 encodings of the key id and application key |
| `AccountController.ResolvesFromTextFields` | src/controllers/account.rs:141-152 | for a secret whose values are all UTF-8 and that has both fields, resolution succeeds with the decoded field values |
| `AccountController.MissingKeyIdFieldFails` | src/controllers/account.rs:144-147 | a text secret without the key id field fails with a field-missing error for that field and no credential |
| `AccountController.BinaryValueFailsResolution` | src/controllers/account.rs:139-141 | a non-UTF-8 value at any key of the secret fails resolution with a decode error |
| `AccountController.Context.constructor` | src/controllers/account.rs:45-49 | a new context starts with an empty cache and no recorded events |
| `AccountController.Context.ContainsAuthorization` | src/controllers/account.rs:75-78 | the lookup answers key membership and leaves the cache unchanged |
| `AccountController.Context.AuthorizeAccount` | src/controllers/account.rs:81-86 | the authorize call returns the service's answer, records one call and does not touch the cache |
| `AccountController.Context.InsertAuthorization` | src/controllers/account.rs:91-94 | the insert sets the entry for the key id, replacing any earlier one, and changes nothing else |
| `AccountController.Context.ReconcileAccount` | src/controllers/account.rs:62-126 | one reconciliation returns the result of `Reconciled`, leaves the cache `Reconciled` gives, and appends its events in order: lookup, then call, then insert |
| `AccountController.CacheHitShortCircuits` | src/controllers/account.rs:75-123 | on a cache hit the result is requeue after 300 s, the cache is unchanged and the service is not asked |
| `AccountController.MissThenAuthorized` | src/controllers/account.rs:88-95 | on a miss the service authorizes: the cache gains exactly the key id with the new authorization, every other entry is kept, and the requeue is after 1 s |
| `AccountController.MissThenRefused` | src/controllers/account.rs:97-119 | on a miss the service refuses: the cache is exactly as before and the delay is the table's for that outcome |
| `AccountController.ResolutionFailureDoesNothing` | src/controllers/account.rs:70-73 | a credential that does not resolve fails the reconciliation before any cache lookup or authorize call, with the cache unchanged |
| `AccountController.AuthorizeCalledIffMiss` | src/controllers/account.rs:75-86 | the service is asked if and only if the credential resolves and its key id is not cached |
| `AccountController.CachedEntriesAreKept` | src/controllers/account.rs:80-120 | no reconciliation removes or changes a cached entry, and at most one key is added |
| `AccountController.InsertReplaces` | src/controllers/account.rs:91-94 | inserting twice for one key id keeps only the second entry and leaves the same key set as inserting once |
| `AccountController.MissCache` | src/controllers/account.rs:80-120 | after a miss, the cache is the old one plus the new authorization if there is one, and otherwise the old one |
| `AccountController.SecondReconcileHits` | src/controllers/account.rs:75-124 | after a reconciliation that cached a fresh authorization, the next one for that Account requeues after 300 s, does not ask the service and changes nothing |
| `AccountController.DistinctKeysCommute` | src/controllers/account.rs:91-94 | two uncached reconciliations with different key ids leave the same cache in either order |
| `AccountController.ExampleResolves` | src/main.rs:33-39 | the reference secret `default/test-credentials` with `key_id` "abc" and `application_key` "xyz" resolves to the credential ("abc", "xyz") |
| `AccountController.ExampleTwoReconciliations` | src/controllers/account.rs:62-126 | run through one context, the first reconciliation of Account "test" requeues after 1 s, the second after 300 s, and the cache holds exactly "abc" |

## Left out

- Kubernetes and B2 I/O (`secret.get`, `b2::authorize_account`) is not modelled: the store and the service's answer are inputs.
- The watch and scheduling machinery of `start_account_controller` (src/controllers/account.rs:35-60) is not modelled: it is asynchronous library plumbing.
- Concurrency is not modelled. The `Mutex` around the cache, a lock that is poisoned (a panic in the source) and interleavings of reconciliations are all absent. The cache has a single owner; `DistinctKeysCommute` covers two reconciliations in either order.
- In the source, a concurrent reconciliation could insert the same key id between the lookup and the insert, and the insert would then overwrite it. In this sequential model the insert only runs after a miss. `InsertReplaces` states the overwrite on the map itself.
- Logging (`info!`, `error!`) is not modelled. This includes the credential dump at src/controllers/account.rs:153. It also includes the `unwrap` of the Account's name at src/controllers/account.rs:65, which only runs when info logging is enabled.
- The creation time of a `TimestampedAuthorization` (src/helpers/b2.rs:17-24) and the unused 6-hour validity constant (src/helpers/b2.rs:6) are not modelled, because no code reads them.
- The CLI, the CRD and example printers in src/main.rs, and the `Bucket` and `Key` resources are not modelled: none of them reconciles anything.
- B2 error codes other than `Unauthorized` are folded into one `OtherCode` constructor, because the source treats them all alike.
- `AccountController.Context.ReconcileAccount`: the Rust `Err` value of `reconcile_account` is never produced; in the model a panic becomes `Failure(CredentialUnavailable(...))` instead.
