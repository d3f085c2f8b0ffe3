/**
  Non-repudiation of a decision: digest, sign, verify (src/attest.rs).

  SHA-256 and Ed25519 enter as arbitrary functions, so every statement holds for whatever they
  compute. Nothing is assumed of the hash: where a result could fail only through two different
  preimages with one digest, the result says so and names the two. Signature correctness and
  unforgeability are hypotheses of the lemmas that need them.
 */
module Attest {
  import opened Bytes
  import opened Wrappers
  import opened Text
  import opened Binding
  import opened Codec

  datatype Crypto = Crypto(
    sha256: Bytes -> Bytes32,
    /** The public key of a signing key (section 5.1.5 of RFC 8032). */
    publicKey: Bytes32 -> Bytes32,
    /** Do these bytes decode as a public key? */
    isKey: Bytes32 -> bool,
    /** Deterministic signing (section 5.1.6 of RFC 8032). */
    sign: (Bytes32, Bytes) -> Bytes64,
    verifyStrict: (Bytes32, Bytes, Bytes64) -> bool)

  datatype VerifyError = SignerMismatch | Malformed | BadSignature

  const DECISION_DOMAIN := "liquet/decision/v2\0"

  /** The bytes that the digest of a binding hashes: the domain tag and then the printed binding. */
  function Preimage(b: DecisionBinding): Bytes {
    Utf8(DECISION_DOMAIN + BindingText(b))
  }

  /** `DecisionBinding::digest`. */
  function Digest(c: Crypto, b: DecisionBinding): Bytes32 {
    c.sha256(Preimage(b))
  }

  /** Two different byte strings with one hash. */
  predicate Collision(c: Crypto, x: Bytes, y: Bytes) {
    x != y && c.sha256(x) == c.sha256(y)
  }

  predicate BindingsCollide(c: Crypto, a: DecisionBinding, b: DecisionBinding) {
    Collision(c, Preimage(a), Preimage(b))
  }

  function SignerHex(c: Crypto, key: Bytes32): string {
    HexEncode(c.publicKey(key))
  }

  /** `sign_decision`. */
  function SignDecision(c: Crypto, b: DecisionBinding, key: Bytes32): SignedDecision {
    SignedDecision(b, SignerHex(c, key), HexEncode(c.sign(key, Digest(c, b))))
  }

  /** `verify_self_consistent`. */
  function VerifySelfConsistent(c: Crypto, signed: SignedDecision): Result<(), VerifyError> {
    match HexDecode(signed.signer)
    case None => Err(Malformed)
    case Some(pk) =>
      if |pk| != 32 || !c.isKey(pk) then Err(Malformed)
      else
        match HexDecode(signed.signature)
        case None => Err(Malformed)
        case Some(sig) =>
          if |sig| != 64 then Err(Malformed)
          else if c.verifyStrict(pk, Digest(c, signed.binding), sig) then Ok(())
          else Err(BadSignature)
  }

  /** `verify_decision`. */
  function VerifyDecision(c: Crypto, signed: SignedDecision, trustedSigner: string): Result<(), VerifyError> {
    if !EqIgnoreAsciiCase(trustedSigner, signed.signer) then Err(SignerMismatch)
    else VerifySelfConsistent(c, signed)
  }

  // ---------- Commitment ----------

  /** The preimage is the two updates of the hash: the tag, byte for byte, and then the printed binding. */
  lemma PreimageParts(b: DecisionBinding)
    ensures |Preimage(b)| >= |DECISION_DOMAIN|
    ensures forall i :: 0 <= i < |DECISION_DOMAIN| ==> Preimage(b)[i] == DECISION_DOMAIN[i] as int
    ensures Preimage(b)[|DECISION_DOMAIN|..] == Utf8(BindingText(b))
  {
    Utf8AfterAscii(DECISION_DOMAIN, BindingText(b));
  }

  lemma PreimageInjective(a: DecisionBinding, b: DecisionBinding)
    requires Preimage(a) == Preimage(b)
    ensures a == b
  {
    var x, y := DECISION_DOMAIN + BindingText(a), DECISION_DOMAIN + BindingText(b);
    Utf8Injective(x, y);
    assert x[|DECISION_DOMAIN|..] == BindingText(a) && y[|DECISION_DOMAIN|..] == BindingText(b);
    BindingTextInjective(a, b);
  }

  /** A digest commits to every field: two bindings share one exactly if equal or an explicit collision. */
  lemma DigestCommits(c: Crypto, a: DecisionBinding, b: DecisionBinding)
    ensures Digest(c, a) == Digest(c, b) <==> a == b || BindingsCollide(c, a, b)
  {
    if Preimage(a) == Preimage(b) {
      PreimageInjective(a, b);
    }
  }

  // ---------- Honest receipts ----------

  /** The signature scheme accepts what `key` signs. */
  ghost predicate SoundKey(c: Crypto, key: Bytes32) {
    && c.isKey(c.publicKey(key))
    && forall m: Bytes :: c.verifyStrict(c.publicKey(key), m, c.sign(key, m))
  }

  /** A receipt of a sound key verifies against exactly the spellings of that key, and against nothing else. */
  lemma HonestReceipt(c: Crypto, b: DecisionBinding, key: Bytes32, trusted: string)
    requires SoundKey(c, key)
    ensures VerifyDecision(c, SignDecision(c, b, key), trusted)
         == if HexDecode(trusted) == Some(c.publicKey(key)) then Ok(()) else Err(SignerMismatch)
  {
    var s := SignDecision(c, b, key);
    HexSpellings(c.publicKey(key), s.signer);
    HexSpellings(c.sign(key, Digest(c, b)), s.signature);
    HexSpellings(c.publicKey(key), trusted);
    assert EqIgnoreAsciiCase(trusted, s.signer) <==> EqIgnoreAsciiCase(s.signer, trusted);
  }

  /** What acceptance under a trusted key means: that very key, in bytes, verifies the binding's digest. */
  lemma AcceptedMeansVerified(c: Crypto, signed: SignedDecision, trusted: string, pk: Bytes32)
    requires VerifyDecision(c, signed, trusted).Ok?
    requires HexDecode(trusted) == Some(pk)
    ensures HexDecode(signed.signer) == Some(pk)
    ensures HexDecode(signed.signature).Some? && |HexDecode(signed.signature).value| == 64
    ensures c.verifyStrict(pk, Digest(c, signed.binding), HexDecode(signed.signature).value)
  {
    HexSpellings(pk, trusted);
    HexSpellings(pk, signed.signer);
    CaseTransitive(HexEncode(pk), trusted, signed.signer);
  }

  /** A receipt that names a key and carries 64 bytes of signature, both in hex. */
  ghost predicate WellFormed(c: Crypto, signed: SignedDecision) {
    && (exists pk: Bytes32 :: HexDecode(signed.signer) == Some(pk) && c.isKey(pk))
    && (exists sig: Bytes64 :: HexDecode(signed.signature) == Some(sig))
  }

  /** Which error a rejected receipt gets: the signer is compared first, then the form, then the signature. */
  lemma RejectionReason(c: Crypto, signed: SignedDecision, trusted: string)
    ensures VerifyDecision(c, signed, trusted) == Err(SignerMismatch) <==> !EqIgnoreAsciiCase(trusted, signed.signer)
    ensures EqIgnoreAsciiCase(trusted, signed.signer) ==>
      (VerifyDecision(c, signed, trusted) == Err(Malformed) <==> !WellFormed(c, signed))
    ensures EqIgnoreAsciiCase(trusted, signed.signer) && WellFormed(c, signed) ==>
      (VerifyDecision(c, signed, trusted) == Err(BadSignature) <==>
       forall pk: Bytes32, sig: Bytes64 ::
         HexDecode(signed.signer) == Some(pk) && HexDecode(signed.signature) == Some(sig) ==>
           !c.verifyStrict(pk, Digest(c, signed.binding), sig))
  {
  }
}
