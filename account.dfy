/**
 * The Account reconciler (src/controllers/account.rs): credential resolution,
 * the authorization cache, the classification of authorize outcomes and the
 * requeue delay each one leads to.
 *
 * The secret store and the B2 service are inputs: `SecretStore` is what a
 * fetch by namespace and name would return, and the `AuthOutcome` handed to a
 * reconciliation is what the service answers if it is asked. Whether it is
 * asked is recorded in the ghost `events` trace of `Context`.
 */
module AccountController {
  import opened Wrappers
  import opened Crds
  import opened B2
  import opened Secrets
  import Utf8

  // ---------------------------------------------------------------------------
  // Authorize outcomes, their classification and the backoff table

  /** B2 error codes, as far as the reconciler tells them apart. */
  datatype ErrorCode = Unauthorized | OtherCode(code: string)

  /** What one call to the B2 authorize endpoint can return. */
  datatype AuthOutcome =
    | Authorized(authorization: Authorization)
    | ClientErr
    | B2Err(code: ErrorCode)
    | OtherErr

  /** The category an authorize outcome falls into. */
  datatype Category = Acquired | TransportError | UnauthorizedError | OtherServiceError | UnknownError

  function Classify(o: AuthOutcome): (c: Category) {
    match o
    case Authorized(_) => Acquired
    case ClientErr => TransportError
    case B2Err(Unauthorized) => UnauthorizedError
    case B2Err(OtherCode(_)) => OtherServiceError
    case OtherErr => UnknownError
  }

  /** Requeue delay, in seconds, for each category. */
  function RequeueDelay(c: Category): (seconds: nat) {
    match c
    case Acquired => 1
    case TransportError => 30
    case UnauthorizedError => 300
    case OtherServiceError => 60
    case UnknownError => 60
  }

  /** Delay, in seconds, after a reconciliation that found the key already authorized. */
  const AlreadyAuthorizedDelay: nat := 300

  /** The scheduler instruction a reconciliation returns. */
  datatype Action = Requeue(seconds: nat)

  /** The delay table, outcome by outcome. */
  lemma OutcomeDelays(o: AuthOutcome)
    ensures o.Authorized? ==> RequeueDelay(Classify(o)) == 1
    ensures o == ClientErr ==> RequeueDelay(Classify(o)) == 30
    ensures o == B2Err(Unauthorized) ==> RequeueDelay(Classify(o)) == 300
    ensures o.B2Err? && o.code.OtherCode? ==> RequeueDelay(Classify(o)) == 60
    ensures o == OtherErr ==> RequeueDelay(Classify(o)) == 60
  {
  }

  /** A fresh authorization gets the shortest delay, and only it does. */
  lemma AcquiredRequeuesSoonest(o: AuthOutcome)
    ensures RequeueDelay(Classify(o)) >= 1
    ensures RequeueDelay(Classify(o)) == 1 <==> o.Authorized?
    ensures !o.Authorized? ==> RequeueDelay(Classify(o)) >= 30
  {
  }

  /** Wrong credentials get the longest delay, and only they do. */
  lemma UnauthorizedBacksOffLongest(o: AuthOutcome)
    ensures RequeueDelay(Classify(o)) <= 300
    ensures RequeueDelay(Classify(o)) == 300 <==> o == B2Err(Unauthorized)
  {
  }

  /** The error policy: retry after one second, whatever failed. */
  function ErrorPolicy(account: Account, error: ReconcileError, ctx: Context): (a: Action)
    ensures a == Requeue(1)
  {
    Requeue(1)
  }

  // ---------------------------------------------------------------------------
  // Credential resolution

  /** A secret's identity in the store. */
  datatype SecretName = SecretName(namespace: string, name: string)

  /** The secrets a fetch can find. A name absent from the map fails to fetch. */
  type SecretStore = map<SecretName, Secret>

  /** Why a credential could not be resolved. Each is a panic in the source. */
  datatype ResolveError =
    | SecretUnavailable(secret: SecretName)
    | Undecodable(cause: DecodeError)
    | FieldMissing(field: string)

  function SecretNameOf(ref: AccountSecretReference): SecretName {
    SecretName(ref.namespace, ref.name)
  }

  /**
   * The two configured fields of the decoded secret, looked up key id first.
   * Both present: a credential with both values copied unchanged. Otherwise
   * the first missing field is reported.
   */
  function CredentialFromContent(ref: AccountSecretReference, content: map<string, string>)
    : (r: Result<Credential, ResolveError>)
    ensures r.Success? <==> ref.keyIdField in content && ref.applicationKeyField in content
    ensures r.Success? ==>
      r.value.keyId == content[ref.keyIdField] && r.value.applicationKey == content[ref.applicationKeyField]
    ensures ref.keyIdField !in content ==> r == Failure(FieldMissing(ref.keyIdField))
    ensures ref.keyIdField in content && ref.applicationKeyField !in content ==>
      r == Failure(FieldMissing(ref.applicationKeyField))
  {
    if ref.keyIdField !in content then Failure(FieldMissing(ref.keyIdField))
    else if ref.applicationKeyField !in content then Failure(FieldMissing(ref.applicationKeyField))
    else Success(Credential(content[ref.keyIdField], content[ref.applicationKeyField]))
  }

  /** Fetch, decode, look up: what resolving a reference against a store yields. */
  function Resolved(ref: AccountSecretReference, store: SecretStore): (r: Result<Credential, ResolveError>) {
    var n := SecretNameOf(ref);
    if n !in store then Failure(SecretUnavailable(n))
    else
      match Decoded(store[n])
      case Failure(e) => Failure(Undecodable(e))
      case Success(content) => CredentialFromContent(ref, content)
  }

  /** Resolves the credential an Account refers to. */
  method GetB2CredentialsFromSecret(ref: AccountSecretReference, store: SecretStore)
    returns (r: Result<Credential, ResolveError>)
    ensures r == Resolved(ref, store)
  {
    var n := SecretNameOf(ref);
    if n !in store {
      return Failure(SecretUnavailable(n));
    }
    var decoded := Decode(store[n]);
    match decoded
    case Failure(e) =>
      return Failure(Undecodable(e));
    case Success(content) =>
      r := CredentialFromContent(ref, content);
  }

  /**
   * A resolved credential comes from a fetched secret whose two configured
   * fields hold exactly the UTF-8 encodings of the credential's two strings.
   */
  lemma ResolvedCopiesSecretFields(ref: AccountSecretReference, store: SecretStore)
    requires Resolved(ref, store).Success?
    ensures SecretNameOf(ref) in store
    ensures var data := store[SecretNameOf(ref)].data;
      && data.Some?
      && ref.keyIdField in data.value && ref.applicationKeyField in data.value
      && Utf8.Encode(Resolved(ref, store).value.keyId) == data.value[ref.keyIdField]
      && Utf8.Encode(Resolved(ref, store).value.applicationKey) == data.value[ref.applicationKeyField]
  {
    var secret := store[SecretNameOf(ref)];
    var data := secret.data.value;
    DecodedRoundTrip(secret, data, ref.keyIdField);
    DecodedRoundTrip(secret, data, ref.applicationKeyField);
  }

  /** With every value text and both fields present, the credential is their decoded values. */
  lemma ResolvesFromTextFields(ref: AccountSecretReference, store: SecretStore, data: map<string, seq<Utf8.byte>>)
    requires SecretNameOf(ref) in store && store[SecretNameOf(ref)].data == Some(data)
    requires forall k :: k in data ==> Utf8.ValidUtf8(data[k])
    requires ref.keyIdField in data && ref.applicationKeyField in data
    ensures Resolved(ref, store).Success?
    ensures Utf8.FromUtf8(data[ref.keyIdField]) == Some(Resolved(ref, store).value.keyId)
    ensures Utf8.FromUtf8(data[ref.applicationKeyField]) == Some(Resolved(ref, store).value.applicationKey)
  {
    DecodeSucceedsIffAllValid(store[SecretNameOf(ref)], data);
  }

  /** With every value text but the key id field absent, resolution reports that field. */
  lemma MissingKeyIdFieldFails(ref: AccountSecretReference, store: SecretStore, data: map<string, seq<Utf8.byte>>)
    requires SecretNameOf(ref) in store && store[SecretNameOf(ref)].data == Some(data)
    requires forall k :: k in data ==> Utf8.ValidUtf8(data[k])
    requires ref.keyIdField !in data
    ensures Resolved(ref, store) == Failure(FieldMissing(ref.keyIdField))
  {
    DecodeSucceedsIffAllValid(store[SecretNameOf(ref)], data);
  }

  /** Any binary value in the secret, configured field or not, fails resolution. */
  lemma BinaryValueFailsResolution(ref: AccountSecretReference, store: SecretStore, k: string)
    requires SecretNameOf(ref) in store
    requires var data := store[SecretNameOf(ref)].data;
      data.Some? && k in data.value && !Utf8.ValidUtf8(data.value[k])
    ensures Resolved(ref, store).Failure? && Resolved(ref, store).error.Undecodable?
  {
    var secret := store[SecretNameOf(ref)];
    OneBinaryValueFails(secret, secret.data.value, k);
  }

  // ---------------------------------------------------------------------------
  // The reconciliation step

  /** The authorization cache: at most one authorization per key id. */
  type Cache = map<string, TimestampedAuthorization>

  /** What a reconciliation does, in the order it does it. */
  datatype Event = CacheLookup(keyId: string) | AuthorizeCall(credential: Credential) | CacheInsert(keyId: string)

  /** A resolution failure, which the source turns into a panic. */
  datatype ReconcileError = CredentialUnavailable(cause: ResolveError)

  /** The effect of one reconciliation: its result, the cache after it and what it did. */
  datatype Step = Step(result: Result<Action, ReconcileError>, cache: Cache, events: seq<Event>)

  /** One reconciliation of `account`, starting from `cache`. */
  function Reconciled(cache: Cache, account: Account, store: SecretStore, outcome: AuthOutcome): (s: Step) {
    match Resolved(account.spec.credentialReference, store)
    case Failure(e) => Step(Failure(CredentialUnavailable(e)), cache, [])
    case Success(c) =>
      if c.keyId in cache then
        Step(Success(Requeue(AlreadyAuthorizedDelay)), cache, [CacheLookup(c.keyId)])
      else
        var delay := Requeue(RequeueDelay(Classify(outcome)));
        var asked := [CacheLookup(c.keyId), AuthorizeCall(c)];
        match outcome
        case Authorized(a) =>
          Step(Success(delay), cache[c.keyId := TimestampedAuthorization(a)], asked + [CacheInsert(c.keyId)])
        case _ =>
          Step(Success(delay), cache, asked)
  }

  /** The shared reconciler context: it owns the authorization cache. */
  class Context {
    var b2Authorizations: Cache
    /** Every cache access and authorize call made through this context, oldest first. */
    ghost var events: seq<Event>

    constructor ()
      ensures b2Authorizations == map[] && events == []
    {
      b2Authorizations := map[];
      events := [];
    }

    /** Whether the cache holds an authorization for `keyId`. */
    method ContainsAuthorization(keyId: string) returns (present: bool)
      modifies this
      ensures present <==> keyId in b2Authorizations
      ensures b2Authorizations == old(b2Authorizations)
      ensures events == old(events) + [CacheLookup(keyId)]
    {
      present := keyId in b2Authorizations;
      events := events + [CacheLookup(keyId)];
    }

    /** Stores `auth` for `keyId`, discarding any entry the cache held for it. */
    method InsertAuthorization(keyId: string, auth: TimestampedAuthorization)
      modifies this
      ensures b2Authorizations == old(b2Authorizations)[keyId := auth]
      ensures events == old(events) + [CacheInsert(keyId)]
    {
      b2Authorizations := b2Authorizations[keyId := auth];
      events := events + [CacheInsert(keyId)];
    }

    /** Asks the service to authorize `credential`; `answer` is what it replies. */
    method AuthorizeAccount(credential: Credential, answer: AuthOutcome) returns (o: AuthOutcome)
      modifies this
      ensures o == answer
      ensures b2Authorizations == old(b2Authorizations)
      ensures events == old(events) + [AuthorizeCall(credential)]
    {
      o := answer;
      events := events + [AuthorizeCall(credential)];
    }

    /**
     * One reconciliation: resolve the credential, look its key id up, and on a
     * miss authorize and cache a fresh authorization. The lookup and the insert
     * are separate accesses; the authorize call happens between them.
     */
    method ReconcileAccount(account: Account, store: SecretStore, answer: AuthOutcome)
      returns (r: Result<Action, ReconcileError>)
      modifies this
      ensures var s := Reconciled(old(b2Authorizations), account, store, answer);
        && r == s.result
        && b2Authorizations == s.cache
        && events == old(events) + s.events
    {
      var resolved := GetB2CredentialsFromSecret(account.spec.credentialReference, store);
      if resolved.Failure? {
        return Failure(CredentialUnavailable(resolved.error));
      }
      var credential := resolved.value;
      var present := ContainsAuthorization(credential.keyId);
      if present {
        return Success(Requeue(AlreadyAuthorizedDelay));
      }
      var outcome := AuthorizeAccount(credential, answer);
      if outcome.Authorized? {
        InsertAuthorization(credential.keyId, TimestampedAuthorization(outcome.authorization));
      }
      r := Success(Requeue(RequeueDelay(Classify(outcome))));
    }
  }

  // ---------------------------------------------------------------------------
  // Properties of a reconciliation

  /** A key id already cached: requeue after 300 s, no authorize call, cache untouched. */
  lemma CacheHitShortCircuits(cache: Cache, account: Account, store: SecretStore, outcome: AuthOutcome)
    requires Resolved(account.spec.credentialReference, store).Success?
    requires Resolved(account.spec.credentialReference, store).value.keyId in cache
    ensures var s := Reconciled(cache, account, store, outcome);
      && s.result == Success(Requeue(300))
      && s.cache == cache
      && forall e :: e in s.events ==> !e.AuthorizeCall?
  {
  }

  /**
   * A miss that the service authorizes: the key id is cached with the new
   * authorization, every other entry is kept, and the requeue is after 1 s.
   */
  lemma MissThenAuthorized(cache: Cache, account: Account, store: SecretStore, a: Authorization)
    requires Resolved(account.spec.credentialReference, store).Success?
    requires Resolved(account.spec.credentialReference, store).value.keyId !in cache
    ensures var c := Resolved(account.spec.credentialReference, store).value;
      var s := Reconciled(cache, account, store, Authorized(a));
      && s.result == Success(Requeue(1))
      && s.cache.Keys == cache.Keys + {c.keyId}
      && s.cache[c.keyId] == TimestampedAuthorization(a)
      && (forall k :: k in cache ==> s.cache[k] == cache[k])
      && s.events == [CacheLookup(c.keyId), AuthorizeCall(c), CacheInsert(c.keyId)]
  {
  }

  /** A miss that the service refuses: the cache is exactly as before and the delay follows the table. */
  lemma MissThenRefused(cache: Cache, account: Account, store: SecretStore, outcome: AuthOutcome)
    requires Resolved(account.spec.credentialReference, store).Success?
    requires Resolved(account.spec.credentialReference, store).value.keyId !in cache
    requires !outcome.Authorized?
    ensures var c := Resolved(account.spec.credentialReference, store).value;
      var s := Reconciled(cache, account, store, outcome);
      && s.cache == cache
      && s.result == Success(Requeue(RequeueDelay(Classify(outcome))))
      && s.events == [CacheLookup(c.keyId), AuthorizeCall(c)]
  {
  }

  /** A credential that does not resolve stops the reconciliation before the cache or the service. */
  lemma ResolutionFailureDoesNothing(cache: Cache, account: Account, store: SecretStore, outcome: AuthOutcome)
    requires Resolved(account.spec.credentialReference, store).Failure?
    ensures var s := Reconciled(cache, account, store, outcome);
      && s.result == Failure(CredentialUnavailable(Resolved(account.spec.credentialReference, store).error))
      && s.cache == cache
      && s.events == []
  {
  }

  /** The service is asked exactly when the credential resolves and its key id is not cached. */
  lemma AuthorizeCalledIffMiss(cache: Cache, account: Account, store: SecretStore, outcome: AuthOutcome)
    ensures var r := Resolved(account.spec.credentialReference, store);
      var s := Reconciled(cache, account, store, outcome);
      (exists e :: e in s.events && e.AuthorizeCall?) <==> r.Success? && r.value.keyId !in cache
  {
    var r := Resolved(account.spec.credentialReference, store);
    var s := Reconciled(cache, account, store, outcome);
    if r.Success? && r.value.keyId !in cache {
      assert s.events[1].AuthorizeCall?;
    }
  }

  /** A reconciliation never drops or changes an entry that was cached before it. */
  lemma CachedEntriesAreKept(cache: Cache, account: Account, store: SecretStore, outcome: AuthOutcome)
    ensures var s := Reconciled(cache, account, store, outcome);
      && cache.Keys <= s.cache.Keys
      && (forall k :: k in cache ==> s.cache[k] == cache[k])
      && |s.cache.Keys - cache.Keys| <= 1
  {
    var s := Reconciled(cache, account, store, outcome);
    var r := Resolved(account.spec.credentialReference, store);
    if r.Success? && r.value.keyId !in cache && outcome.Authorized? {
      assert s.cache.Keys - cache.Keys == {r.value.keyId};
    } else {
      assert s.cache.Keys - cache.Keys == {};
    }
  }

  /**
   * Inserting for a key id replaces its entry: the cache keeps one entry per key
   * id, and inserting twice leaves the same keys as inserting once.
   */
  lemma InsertReplaces(cache: Cache, keyId: string, first: TimestampedAuthorization, second: TimestampedAuthorization)
    ensures cache[keyId := first][keyId := second] == cache[keyId := second]
    ensures cache[keyId := first][keyId := second].Keys == cache[keyId := first].Keys
  {
  }

  /**
   * After a reconciliation that cached a fresh authorization, the next one for
   * the same Account hits the cache: 300 s, no authorize call, nothing changes.
   */
  lemma SecondReconcileHits(cache: Cache, account: Account, store: SecretStore, a: Authorization, later: AuthOutcome)
    requires Resolved(account.spec.credentialReference, store).Success?
    requires Resolved(account.spec.credentialReference, store).value.keyId !in cache
    ensures var first := Reconciled(cache, account, store, Authorized(a));
      var second := Reconciled(first.cache, account, store, later);
      && first.result == Success(Requeue(1))
      && second.result == Success(Requeue(300))
      && second.cache == first.cache
      && forall e :: e in second.events ==> !e.AuthorizeCall?
  {
    var first := Reconciled(cache, account, store, Authorized(a));
    MissThenAuthorized(cache, account, store, a);
    CacheHitShortCircuits(first.cache, account, store, later);
  }

  /** The cache after a miss for `keyId` that the service answered with `o`. */
  function AfterMiss(cache: Cache, keyId: string, o: AuthOutcome): (after: Cache) {
    if o.Authorized? then cache[keyId := TimestampedAuthorization(o.authorization)] else cache
  }

  lemma MissCache(cache: Cache, account: Account, store: SecretStore, o: AuthOutcome)
    requires Resolved(account.spec.credentialReference, store).Success?
    requires Resolved(account.spec.credentialReference, store).value.keyId !in cache
    ensures Reconciled(cache, account, store, o).cache
         == AfterMiss(cache, Resolved(account.spec.credentialReference, store).value.keyId, o)
  {
  }

  /**
   * Reconciliations of two Accounts with different key ids, both uncached, end
   * in the same cache whichever runs first.
   */
  lemma DistinctKeysCommute(
    cache: Cache, store: SecretStore, x: Account, ox: AuthOutcome, y: Account, oy: AuthOutcome)
    requires Resolved(x.spec.credentialReference, store).Success?
    requires Resolved(y.spec.credentialReference, store).Success?
    requires Resolved(x.spec.credentialReference, store).value.keyId !in cache
    requires Resolved(y.spec.credentialReference, store).value.keyId !in cache
    requires Resolved(x.spec.credentialReference, store).value.keyId
          != Resolved(y.spec.credentialReference, store).value.keyId
    ensures Reconciled(Reconciled(cache, x, store, ox).cache, y, store, oy).cache
         == Reconciled(Reconciled(cache, y, store, oy).cache, x, store, ox).cache
  {
    var kx := Resolved(x.spec.credentialReference, store).value.keyId;
    var ky := Resolved(y.spec.credentialReference, store).value.keyId;
    MissCache(cache, x, store, ox);
    MissCache(cache, y, store, oy);
    var cx := AfterMiss(cache, kx, ox);
    var cy := AfterMiss(cache, ky, oy);
    MissCache(cx, y, store, oy);
    MissCache(cy, x, store, ox);
    assert AfterMiss(cx, ky, oy) == AfterMiss(cy, kx, ox);
  }

  // ---------------------------------------------------------------------------
  // The reference setup: Account "test" and secret "test-credentials"

  function ExampleReference(): AccountSecretReference {
    AccountSecretReference("test-credentials", "default", "key_id", "application_key")
  }

  function ExampleStore(): SecretStore {
    map[SecretName("default", "test-credentials") :=
      Secret(Some("test-credentials"),
             Some(map["key_id" := Utf8.Encode("abc"), "application_key" := Utf8.Encode("xyz")]))]
  }

  /** The reference secret resolves to the credential ("abc", "xyz"). */
  lemma ExampleResolves()
    ensures Resolved(ExampleReference(), ExampleStore()) == Success(Credential("abc", "xyz"))
  {
    var secret := ExampleStore()[SecretName("default", "test-credentials")];
    var data := secret.data.value;
    Utf8.EncodeThenDecode("abc");
    Utf8.EncodeThenDecode("xyz");
    assert data.Keys == {"key_id", "application_key"};
    assert AllText(data);
    var content := map k | k in data :: Utf8.FromUtf8(data[k]).value;
    assert content["key_id"] == "abc" && content["application_key"] == "xyz";
    assert Decoded(secret) == Success(content);
  }

  /**
   * Two reconciliations of Account "test" through one context: the first
   * authorizes and requeues after 1 s, the second hits the cache and requeues
   * after 300 s without asking the service again.
   */
  method ExampleTwoReconciliations(a: Authorization, later: AuthOutcome)
    returns (first: Result<Action, ReconcileError>, second: Result<Action, ReconcileError>, cached: Cache)
    ensures first == Success(Requeue(1))
    ensures second == Success(Requeue(300))
    ensures cached == map["abc" := TimestampedAuthorization(a)]
  {
    var account := Account("test", AccountSpec(ExampleReference()));
    var ctx := new Context();
    ExampleResolves();
    first := ctx.ReconcileAccount(account, ExampleStore(), Authorized(a));
    second := ctx.ReconcileAccount(account, ExampleStore(), later);
    cached := ctx.b2Authorizations;
  }
}
