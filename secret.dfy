/**
 * Turning a Kubernetes secret's byte values into text (src/helpers/secret.rs).
 * The conversion is all or nothing: one value that is not UTF-8 fails the
 * whole secret.
 */
module Secrets {
  import opened Wrappers
  import opened Utf8

  /** The parts of a Kubernetes secret the decoder reads: its name and its optional `data`. */
  datatype Secret = Secret(name: Option<string>, data: Option<map<string, seq<byte>>>)

  /**
   * Why decoding failed. The source panics with a message naming the secret;
   * when the secret has no name, reading that name panics first.
   */
  datatype DecodeError = BinaryData(secretName: string) | UnnamedSecret

  /** Every value of `data` is well-formed UTF-8. */
  predicate AllText(data: map<string, seq<byte>>) {
    forall k :: k in data ==> FromUtf8(data[k]).Some?
  }

  function BinaryDataError(secret: Secret): DecodeError {
    match secret.name
    case Some(n) => BinaryData(n)
    case None => UnnamedSecret
  }

  /** What decoding a secret yields, stated on the whole map at once. */
  function Decoded(secret: Secret): (r: Result<map<string, string>, DecodeError>) {
    match secret.data
    case None => Success(map[])
    case Some(data) =>
      if AllText(data) then Success(map k | k in data :: FromUtf8(data[k]).value)
      else Failure(BinaryDataError(secret))
  }

  /**
   * The decoder: visits the entries one at a time, in an order it does not
   * depend on, inserting each decoded value and failing at the first binary one.
   */
  method Decode(secret: Secret) returns (r: Result<map<string, string>, DecodeError>)
    ensures r == Decoded(secret)
  {
    var res: map<string, string> := map[];
    if secret.data.Some? {
      var data := secret.data.value;
      var todo := data.Keys;
      while todo != {}
        invariant todo <= data.Keys
        invariant res.Keys == data.Keys - todo
        invariant forall k :: k in res ==> FromUtf8(data[k]) == Some(res[k])
        decreases todo
      {
        var k :| k in todo;
        match FromUtf8(data[k])
        case Some(text) =>
          res := res[k := text];
          todo := todo - {k};
        case None =>
          return Failure(BinaryDataError(secret));
      }
      assert AllText(data);
      assert res == map k | k in data :: FromUtf8(data[k]).value;
    }
    return Success(res);
  }

  /** A secret without data decodes to the empty map. */
  lemma NoDataDecodesEmpty(secret: Secret)
    requires secret.data.None?
    ensures Decoded(secret) == Success(map[])
  {
  }

  /**
   * A successful decode has exactly the input's keys, and each value is the
   * text whose UTF-8 encoding is the stored bytes.
   */
  lemma DecodedRoundTrip(secret: Secret, data: map<string, seq<byte>>, k: string)
    requires secret.data == Some(data) && AllText(data)
    ensures Decoded(secret).Success? && Decoded(secret).value.Keys == data.Keys
    ensures k in data ==> Encode(Decoded(secret).value[k]) == data[k]
  {
    if k in data {
      DecodeThenEncode(data[k]);
    }
  }

  /** Decoding succeeds exactly when every value is well-formed UTF-8 (RFC 3629). */
  lemma DecodeSucceedsIffAllValid(secret: Secret, data: map<string, seq<byte>>)
    requires secret.data == Some(data)
    ensures Decoded(secret).Success? <==> forall k :: k in data ==> ValidUtf8(data[k])
  {
    forall k | k in data {
      FromUtf8DefinedIffValid(data[k]);
    }
  }

  /** One binary value anywhere fails the whole decode, with no partial map. */
  lemma OneBinaryValueFails(secret: Secret, data: map<string, seq<byte>>, k: string)
    requires secret.data == Some(data) && k in data && !ValidUtf8(data[k])
    ensures Decoded(secret) == Failure(BinaryDataError(secret))
  {
    FromUtf8DefinedIffValid(data[k]);
  }

  /** Nothing outside the input's keys ever appears in a decoded secret. */
  lemma DecodedKeysComeFromData(secret: Secret)
    requires Decoded(secret).Success?
    ensures secret.data.Some? ==> Decoded(secret).value.Keys == secret.data.value.Keys
    ensures secret.data.None? ==> Decoded(secret).value == map[]
  {
  }
}
