/** The cryptographic primitives, as parameters of the model: nothing is known of
    them except what a theorem states among its assumptions. */
module Crypto {
  import opened ByteStrings

  datatype Env = Env(
    digest: Bytes -> Hash,                            // BLAKE3-256
    keyValid: Bytes -> bool,                          // VerifyingKey::from_bytes succeeds
    verifies: (Bytes, Bytes, Bytes) -> bool,          // key, payload, signature
    verifiesStrict: (Bytes, Bytes, Bytes) -> bool,    // key, payload, signature
    identityText: Bytes -> Str)                       // IdentityId::from_public_key, printed

  const PUBLIC_KEY_LEN := 32
  const SIGNATURE_LEN := 64
}
