/** Signed decisions as Validation Registry responses, and the relying party's check (src/erc8004/mod.rs). */
module Erc8004 {
  import opened Bytes
  import opened Wrappers
  import opened Text
  import opened Seam
  import opened Gate
  import opened Binding
  import opened Codec
  import opened Attest
  import opened Grammar
  import opened Reading

  const PASS := 100
  const FAIL := 0

  const TAG_MATCHED := "matched"
  const TAG_HALF_OPEN := "half-open"
  const TAG_MISMATCH := "mismatch"
  const TAG_UNSAFE := "unsafe"
  const TAG_UNVERIFIABLE := "unverifiable"

  /** `response` is absent when the validator abstains. */
  datatype ValidationResponse = ValidationResponse(response: Option<byte>, tag: string, responseHash: string)

  datatype BundleError = MalformedBundle | HashMismatch | Verify(error: VerifyError)

  function ResponseHash(c: Crypto, b: DecisionBinding): string {
    HexEncode(Digest(c, b))
  }

  /** Score and tag of a binding. */
  function ScoreOf(b: DecisionBinding): (Option<byte>, string) {
    match b.reconcile
    case Unverifiable => (None, TAG_UNVERIFIABLE)
    case HalfOpen => (Some(FAIL), TAG_HALF_OPEN)
    case Mismatch => (Some(FAIL), TAG_MISMATCH)
    case Matched => if b.decision.Settle? then (Some(PASS), TAG_MATCHED) else (Some(FAIL), TAG_UNSAFE)
  }

  /** `validation_response`. */
  function ResponseOf(c: Crypto, signed: SignedDecision): ValidationResponse {
    var (response, tag) := ScoreOf(signed.binding);
    ValidationResponse(response, tag, ResponseHash(c, signed.binding))
  }

  /** The relying party's checks on a decision already parsed, whatever text it was parsed from. */
  function CheckEvidence(c: Crypto, signed: SignedDecision, onchainHash: string, trustedSigner: string)
    : Result<ValidationResponse, BundleError>
  {
    if !EqIgnoreAsciiCase(ResponseHash(c, signed.binding), onchainHash) then Err(HashMismatch)
    else
      match VerifyDecision(c, signed, trustedSigner)
      case Err(e) => Err(Verify(e))
      case Ok(_) => Ok(ResponseOf(c, signed))
  }

  /** `verify_bundle`. */
  function VerifyBundle(c: Crypto, bundle: string, onchainHash: string, trustedSigner: string)
    : Result<ValidationResponse, BundleError>
  {
    match ParseBundle(bundle)
    case None => Err(MalformedBundle)
    case Some(signed) => CheckEvidence(c, signed, onchainHash, trustedSigner)
  }

  // ---------- The check, case by case ----------

  /**
    Every text, hash text and signer text: malformed exactly if the text is no document that says a signed
    decision, otherwise a mismatch exactly if the hash text does not spell the digest, otherwise what the
    signature check says, and the response of that decision if all pass.
   */
  lemma VerifyBundleCases(c: Crypto, text: string, onchainHash: string, trusted: string)
    ensures var r := VerifyBundle(c, text, onchainHash, trusted);
      && (r == Err(MalformedBundle) <==> !IsBundle(text))
      && (r == Err(MalformedBundle) <==> ParseBundle(text) == None)
      && forall signed :: ParseBundle(text) == Some(signed) ==>
           var hashed := HexDecode(onchainHash) == Some(Digest(c, signed.binding));
           && (r == Err(HashMismatch) <==> !hashed)
           && (forall e :: r == Err(Verify(e)) <==> hashed && VerifyDecision(c, signed, trusted) == Err(e))
           && (r.Ok? <==> hashed && VerifyDecision(c, signed, trusted) == Ok(()))
           && (r.Ok? ==> r.value == ResponseOf(c, signed))
  {
    hide VerifyDecision; hide ResponseOf; hide Digest; hide IsBundle; hide ParseBundle;
    RefusedExactly(text);
    if ParseBundle(text).Some? {
      var signed := ParseBundle(text).value;
      HexSpellings(Digest(c, signed.binding), onchainHash);
      OkIsUnit(VerifyDecision(c, signed, trusted));
    }
  }

  lemma OkIsUnit(r: Result<(), VerifyError>)
    ensures r.Ok? <==> r == Ok(())
  {
    if r.Ok? {
      var unit := r.value;
      assert unit == ();
    }
  }

  /** The response in its own words: what each reconcile and decision scores, under which tag, with which hash. */
  lemma ResponseTable(c: Crypto, signed: SignedDecision)
    ensures var r := ResponseOf(c, signed);
      && HexDecode(r.responseHash) == Some(Digest(c, signed.binding))
      && match signed.binding.reconcile
         case Unverifiable => r.response == None && r.tag == "unverifiable"
         case HalfOpen => r.response == Some(0) && r.tag == "half-open"
         case Mismatch => r.response == Some(0) && r.tag == "mismatch"
         case Matched =>
           if signed.binding.decision.Settle? then r.response == Some(100) && r.tag == "matched"
           else r.response == Some(0) && r.tag == "unsafe"
  {
    HexSpellings(Digest(c, signed.binding), ResponseHash(c, signed.binding));
  }

  // ---------- Honest bundles ----------

  /**
    The bundle of an honest receipt is accepted under exactly the spellings of its digest and of
    its key, and then yields the response that the receipt itself maps to.
   */
  lemma HonestBundle(c: Crypto, b: DecisionBinding, key: Bytes32, onchainHash: string, trusted: string)
    requires SoundKey(c, key)
    ensures var signed := SignDecision(c, b, key);
      VerifyBundle(c, EvidenceBundle(signed), onchainHash, trusted) ==
        if HexDecode(onchainHash) != Some(Digest(c, b)) then Err(HashMismatch)
        else if HexDecode(trusted) != Some(c.publicKey(key)) then Err(Verify(SignerMismatch))
        else Ok(ResponseOf(c, signed))
  {
    BundleRoundTrip(SignDecision(c, b, key));
    HexSpellings(Digest(c, b), onchainHash);
    HonestReceipt(c, b, key, trusted);
  }

  /**
    Evidence altered in its binding is rejected under the hash published for the original, whoever
    signed the alteration, unless the two bindings collide.
   */
  lemma AlteredEvidence(c: Crypto, original: DecisionBinding, altered: SignedDecision, trusted: string)
    requires altered.binding != original
    ensures CheckEvidence(c, altered, ResponseHash(c, original), trusted) == Err(HashMismatch)
         || BindingsCollide(c, altered.binding, original)
  {
    DigestCommits(c, altered.binding, original);
    if EqIgnoreAsciiCase(ResponseHash(c, altered.binding), ResponseHash(c, original)) {
      HexInjective(Digest(c, altered.binding), Digest(c, original));
    }
  }

  // ---------- Any bundle ----------

  /** Accepted evidence carries the digest that the chain published, read as bytes. */
  lemma AcceptedHash(c: Crypto, signed: SignedDecision, onchainHash: string, trusted: string)
    requires CheckEvidence(c, signed, onchainHash, trusted).Ok?
    ensures HexDecode(onchainHash) == Some(Digest(c, signed.binding))
  {
    HexSpellings(Digest(c, signed.binding), onchainHash);
  }

  /**
    Two decisions accepted under case variants of one on-chain hash, by whatever signers, carry the
    same binding and yield the same response, or their preimages collide.
   */
  lemma OneHashOneBinding(
    c: Crypto, s1: SignedDecision, s2: SignedDecision,
    hash1: string, hash2: string, trusted1: string, trusted2: string)
    requires CheckEvidence(c, s1, hash1, trusted1).Ok? && CheckEvidence(c, s2, hash2, trusted2).Ok?
    requires EqIgnoreAsciiCase(hash1, hash2)
    ensures BindingsCollide(c, s1.binding, s2.binding) ||
            (s1.binding == s2.binding &&
             CheckEvidence(c, s1, hash1, trusted1) == CheckEvidence(c, s2, hash2, trusted2))
  {
    AcceptedHash(c, s2, hash2, trusted2);
    CaseTransitive(ResponseHash(c, s1.binding), hash1, hash2);
    HexSpellings(Digest(c, s1.binding), hash2);
    DigestCommits(c, s1.binding, s2.binding);
  }

  /**
    A forgery: the evidence carries a signature that verifies under the key on a digest that none of
    the bindings signed with that key has.
   */
  ghost predicate Forged(c: Crypto, pk: Bytes32, signedBindings: iset<DecisionBinding>, evidence: SignedDecision) {
    && (exists sig: Bytes64 ::
          HexDecode(evidence.signature) == Some(sig) && c.verifyStrict(pk, Digest(c, evidence.binding), sig))
    && forall b :: b in signedBindings ==> Digest(c, b) != Digest(c, evidence.binding)
  }

  /**
    Authenticity against anyone who may compose the evidence, the hash and the signer text: what is
    accepted under a key is a binding signed with that key, or collides with one, or is a forgery.
   */
  lemma Authentic(
    c: Crypto, pk: Bytes32, signedBindings: iset<DecisionBinding>,
    evidence: SignedDecision, onchainHash: string, trusted: string)
    requires HexDecode(trusted) == Some(pk)
    requires CheckEvidence(c, evidence, onchainHash, trusted).Ok?
    ensures || evidence.binding in signedBindings
            || (exists b :: b in signedBindings && BindingsCollide(c, evidence.binding, b))
            || Forged(c, pk, signedBindings, evidence)
  {
    AcceptedMeansVerified(c, evidence, trusted, pk);
    var sig: Bytes64 := HexDecode(evidence.signature).value;
    assert HexDecode(evidence.signature) == Some(sig);
    if b :| b in signedBindings && Digest(c, b) == Digest(c, evidence.binding) {
      DigestCommits(c, evidence.binding, b);
    }
  }

  // ---------- Any text ----------

  /** What is accepted was parsed from the text and passed the checks on it. */
  lemma AcceptedText(c: Crypto, text: string, onchainHash: string, trusted: string) returns (evidence: SignedDecision)
    requires VerifyBundle(c, text, onchainHash, trusted).Ok?
    ensures ParseBundle(text) == Some(evidence)
    ensures CheckEvidence(c, evidence, onchainHash, trusted) == VerifyBundle(c, text, onchainHash, trusted)
  {
    evidence := ParseBundle(text).value;
  }

  /** Two texts accepted under case variants of one hash say one binding and give one response, or collide. */
  lemma OneHashOneBindingText(
    c: Crypto, text1: string, text2: string, hash1: string, hash2: string, trusted1: string, trusted2: string)
    returns (s1: SignedDecision, s2: SignedDecision)
    requires VerifyBundle(c, text1, hash1, trusted1).Ok? && VerifyBundle(c, text2, hash2, trusted2).Ok?
    requires EqIgnoreAsciiCase(hash1, hash2)
    ensures ParseBundle(text1) == Some(s1) && ParseBundle(text2) == Some(s2)
    ensures BindingsCollide(c, s1.binding, s2.binding) ||
            (s1.binding == s2.binding &&
             VerifyBundle(c, text1, hash1, trusted1) == VerifyBundle(c, text2, hash2, trusted2))
  {
    hide VerifyBundle; hide CheckEvidence; hide ParseBundle; hide BindingsCollide;
    s1 := AcceptedText(c, text1, hash1, trusted1);
    s2 := AcceptedText(c, text2, hash2, trusted2);
    OneHashOneBinding(c, s1, s2, hash1, hash2, trusted1, trusted2);
  }

  /** Authenticity of whatever text is accepted under a key, in any spelling of it. */
  lemma AuthenticText(
    c: Crypto, pk: Bytes32, signedBindings: iset<DecisionBinding>, text: string, onchainHash: string, trusted: string)
    returns (evidence: SignedDecision)
    requires HexDecode(trusted) == Some(pk)
    requires VerifyBundle(c, text, onchainHash, trusted).Ok?
    ensures ParseBundle(text) == Some(evidence)
    ensures VerifyBundle(c, text, onchainHash, trusted) == Ok(ResponseOf(c, evidence))
    ensures || evidence.binding in signedBindings
            || (exists b :: b in signedBindings && BindingsCollide(c, evidence.binding, b))
            || Forged(c, pk, signedBindings, evidence)
  {
    hide ParseBundle; hide BindingsCollide; hide Forged;
    evidence := AcceptedText(c, text, onchainHash, trusted);
    Authentic(c, pk, signedBindings, evidence, onchainHash, trusted);
  }
}
