/** The webhook launch check of `box_util`: a request is accepted when its
    body and delivery timestamp, signed with the primary key (or, during key
    rotation, the secondary key), reproduce the signature header.

    HMAC-SHA256 followed by base64 is not reimplemented: it is the oracle
    `Crypto.sign`, whose results are ASCII as base64 text always is. UTF-8
    encoding of the timestamp header is the oracle `Crypto.utf8`. */
module Webhook {
  import opened Wrappers

  newtype byte = x: int | 0 <= x < 256
  type Bytes = seq<byte>

  predicate IsAscii(s: string) {
    forall i | 0 <= i < |s| :: s[i] < 128 as char
  }

  /** Text that only holds ASCII characters, such as base64 output. */
  type AsciiString = s: string | IsAscii(s) witness ""

  /** The primitives the source borrows from `hmac`, `hashlib` and `base64`. */
  datatype Crypto = Crypto(sign: (string, Bytes) -> AsciiString, utf8: string -> Bytes)

  /** The two signing keys, read once from `BOX_KEY_1` and `BOX_KEY_2`;
      an unset variable is `None`. */
  datatype SigningKeys = SigningKeys(primary: Option<string>, secondary: Option<string>)

  /** Request headers, as a lookup from header name to value. */
  type Headers = map<string, string>

  const VersionHeader: string := "box-signature-version"
  const AlgorithmHeader: string := "box-signature-algorithm"
  const TimestampHeader: string := "box-delivery-timestamp"
  const PrimaryHeader: string := "box-signature-primary"
  const SecondaryHeader: string := "box-signature-secondary"

  /** `headers.get(name)`. */
  function Get(headers: Headers, name: string): (r: Option<string>)
    ensures r.Some? <==> name in headers
    ensures r.Some? ==> r.value == headers[name]
  {
    if name in headers then Some(headers[name]) else None
  }

  /** Python truthiness of a signing key (`if self.secondary_key:`):
      neither `None` nor empty. */
  predicate TruthyKey(key: Option<string>) {
    key.Some? && key.value != ""
  }

  // ---------------------------------------------------------------------
  // Reference definitions: what a matching or a faulty signature is
  // ---------------------------------------------------------------------

  /** The headers announce version "1" of the HMAC-SHA256 scheme. */
  predicate AnnouncesHmacSha256(headers: Headers) {
    Get(headers, VersionHeader) == Some("1") && Get(headers, AlgorithmHeader) == Some("HmacSHA256")
  }

  /** The signature `key` gives to `body` delivered at `timestamp`. */
  function ExpectedSignature(crypto: Crypto, key: string, body: Bytes, timestamp: string): AsciiString {
    crypto.sign(key, body + crypto.utf8(timestamp))
  }

  /** `key` is set, the scheme is the supported one, and the header named
      `signatureHeader` holds exactly the signature of body and timestamp. */
  predicate Matches(crypto: Crypto, key: Option<string>, body: Bytes, headers: Headers, signatureHeader: string) {
    key.Some? && AnnouncesHmacSha256(headers) &&
    TimestampHeader in headers && signatureHeader in headers &&
    headers[signatureHeader] == ExpectedSignature(crypto, key.value, body, headers[TimestampHeader])
  }

  /** Checking `key` against `signatureHeader` raises: the key is set and the
      scheme supported, but the timestamp is missing, or the signature header
      is missing or holds non-ASCII text. */
  predicate Faults(key: Option<string>, headers: Headers, signatureHeader: string) {
    key.Some? && AnnouncesHmacSha256(headers) &&
    (TimestampHeader !in headers || signatureHeader !in headers || !IsAscii(headers[signatureHeader]))
  }

  // ---------------------------------------------------------------------
  // The source's operations
  // ---------------------------------------------------------------------

  /** `_compute_signature`: `None` when there is no key or the headers name
      another scheme; raises when the timestamp header is missing; otherwise
      the signature of the body followed by the UTF-8 timestamp. */
  function ComputeSignature(crypto: Crypto, body: Bytes, headers: Headers, key: Option<string>): (r: Outcome<Option<AsciiString>>)
    ensures r == Returned(None) <==> key.None? || !AnnouncesHmacSha256(headers)
    ensures r.Raised? <==> key.Some? && AnnouncesHmacSha256(headers) && TimestampHeader !in headers
    ensures r.Raised? ==> r.exception == AttributeError
    ensures r.Returned? && r.value.Some? ==>
              key.Some? && TimestampHeader in headers &&
              r.value.value == ExpectedSignature(crypto, key.value, body, headers[TimestampHeader])
  {
    if key.None? then Returned(None)
    else if Get(headers, VersionHeader) != Some("1") then Returned(None)
    else if Get(headers, AlgorithmHeader) != Some("HmacSHA256") then Returned(None)
    else match Get(headers, TimestampHeader)
      case None => Raised(AttributeError)
      case Some(timestamp) => Returned(Some(crypto.sign(key.value, body + crypto.utf8(timestamp))))
  }

  /** `hmac.compare_digest` on two strings: a `None` second argument or a
      non-ASCII string raises `TypeError`; otherwise plain equality (the
      constant-time behaviour is not expressible here). */
  function CompareDigest(a: string, b: Option<string>): (r: Outcome<bool>)
    ensures r.Raised? <==> b.None? || !IsAscii(a) || !IsAscii(b.value)
    ensures r.Raised? ==> r.exception == TypeError
    ensures r.Returned? ==> (r.value <==> b == Some(a))
  {
    if b.None? || !IsAscii(a) || !IsAscii(b.value) then Raised(TypeError)
    else Returned(a == b.value)
  }

  /** One attempt of `is_launch_safe`: compute the signature with `key` and,
      when there is one, compare it with the header `signatureHeader`. */
  function TryKey(crypto: Crypto, key: Option<string>, body: Bytes, headers: Headers, signatureHeader: string): (r: Outcome<bool>)
    ensures r.Raised? <==> Faults(key, headers, signatureHeader)
    ensures r.Raised? ==> r.exception == (if TimestampHeader in headers then TypeError else AttributeError)
    ensures r == Returned(true) <==> Matches(crypto, key, body, headers, signatureHeader)
  {
    match ComputeSignature(crypto, body, headers, key)
    case Raised(e) => Raised(e)
    case Returned(None) => Returned(false)
    case Returned(Some(signature)) => CompareDigest(signature, Get(headers, signatureHeader))
  }

  /** `is_launch_safe`: try the primary key against the primary signature
      header; if that does not accept and the secondary key is truthy, try
      it against the secondary header. */
  function IsLaunchSafe(crypto: Crypto, keys: SigningKeys, body: Bytes, headers: Headers): (r: Outcome<bool>)
    ensures r == Returned(true) <==>
              Matches(crypto, keys.primary, body, headers, PrimaryHeader) ||
              (!Faults(keys.primary, headers, PrimaryHeader) && TruthyKey(keys.secondary) &&
               Matches(crypto, keys.secondary, body, headers, SecondaryHeader))
    ensures r.Raised? <==>
              Faults(keys.primary, headers, PrimaryHeader) ||
              (!Matches(crypto, keys.primary, body, headers, PrimaryHeader) && TruthyKey(keys.secondary) &&
               Faults(keys.secondary, headers, SecondaryHeader))
    ensures r.Raised? ==> r.exception == (if TimestampHeader in headers then TypeError else AttributeError)
  {
    match TryKey(crypto, keys.primary, body, headers, PrimaryHeader)
    case Raised(e) => Raised(e)
    case Returned(true) => Returned(true)
    case Returned(false) =>
      if TruthyKey(keys.secondary) then TryKey(crypto, keys.secondary, body, headers, SecondaryHeader)
      else Returned(false)
  }

  // ---------------------------------------------------------------------
  // Properties
  // ---------------------------------------------------------------------

  /** Without a truthy secondary key (unset or empty), only the primary key
      can accept: a primary mismatch is never accepted. */
  lemma NoSecondaryKeyOnlyPrimaryAccepts(crypto: Crypto, keys: SigningKeys, body: Bytes, headers: Headers)
    requires !TruthyKey(keys.secondary)
    ensures IsLaunchSafe(crypto, keys, body, headers) == Returned(true) <==> Matches(crypto, keys.primary, body, headers, PrimaryHeader)
    ensures !Matches(crypto, keys.primary, body, headers, PrimaryHeader) ==> IsLaunchSafe(crypto, keys, body, headers) != Returned(true)
  {
  }

  /** With no key at all, or headers naming another scheme, the check
      returns false and never raises. */
  lemma UnsupportedSchemeRejects(crypto: Crypto, keys: SigningKeys, body: Bytes, headers: Headers)
    requires keys.primary.None? || !AnnouncesHmacSha256(headers)
    requires !TruthyKey(keys.secondary) || !AnnouncesHmacSha256(headers)
    ensures IsLaunchSafe(crypto, keys, body, headers) == Returned(false)
  {
  }

  /** The signature depends on body and timestamp only through their
      concatenation `body + utf8(timestamp)`. */
  lemma SignatureSeesOnlyConcatenation(crypto: Crypto, key: Option<string>, body1: Bytes, headers1: Headers, body2: Bytes, headers2: Headers)
    requires AnnouncesHmacSha256(headers1) == AnnouncesHmacSha256(headers2)
    requires TimestampHeader in headers1 && TimestampHeader in headers2
    requires body1 + crypto.utf8(headers1[TimestampHeader]) == body2 + crypto.utf8(headers2[TimestampHeader])
    ensures ComputeSignature(crypto, body1, headers1, key) == ComputeSignature(crypto, body2, headers2, key)
  {
  }

  /** A request signed only for the secondary key is accepted exactly when
      that key is configured (truthy) and the primary check does not raise. */
  lemma RotationAcceptsSecondary(crypto: Crypto, keys: SigningKeys, body: Bytes, headers: Headers)
    requires !Matches(crypto, keys.primary, body, headers, PrimaryHeader)
    requires Matches(crypto, keys.secondary, body, headers, SecondaryHeader)
    ensures IsLaunchSafe(crypto, keys, body, headers) == Returned(true) <==>
              keys.secondary.value != "" && !Faults(keys.primary, headers, PrimaryHeader)
  {
  }
}
