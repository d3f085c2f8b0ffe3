/** One validation request after another: validate, map, pin, respond or abstain (src/erc8004/validator.rs). */
module Validator {
  import opened Bytes
  import opened Wrappers
  import opened Text
  import opened Seam
  import opened Gate
  import opened Binding
  import opened Codec
  import opened Attest
  import opened Erc8004
  import opened Store

  datatype ResolvedRequest = ResolvedRequest(requestHash: string, agentId: u64, claimJson: string)

  datatype ValidateError = Unresolvable(why: string) | StoreFailed(message: string)

  datatype OnChainAction =
    | Respond(requestHash: string, response: byte, responseUri: string, responseHash: string, tag: string)
    | Abstain(requestHash: string, tag: string)

  type Outcome = Result<OnChainAction, ValidateError>

  /** The settlement validator is any function of the request. */
  type SettlementValidator = ResolvedRequest -> Result<SignedDecision, ValidateError>

  /** One call of the handler: the request and what the validator answered to it. */
  datatype Call = Call(request: ResolvedRequest, validated: Result<SignedDecision, ValidateError>)

  /** Does this call publish a score? */
  predicate Publishes(call: Call) {
    call.validated.Ok? && !call.validated.value.binding.reconcile.Unverifiable?
  }

  /** What the handler answers to a call. */
  function OutcomeOf(c: Crypto, call: Call): Outcome {
    match call.validated
    case Err(e) => Err(e)
    case Ok(signed) =>
      var r := ResponseOf(c, signed);
      match r.response
      case None => Ok(Abstain(call.request.requestHash, r.tag))
      case Some(score) =>
        Ok(Respond(call.request.requestHash, score, MemUri(c, signed.binding), r.responseHash, r.tag))
  }

  /** The store after a call. */
  function StoreAfter(c: Crypto, store: map<string, string>, call: Call): map<string, string> {
    if Publishes(call) then
      store[MemUri(c, call.validated.value.binding) := EvidenceBundle(call.validated.value)]
    else store
  }

  /** `handle_request`. */
  method HandleRequest(c: Crypto, request: ResolvedRequest, validator: SettlementValidator, store: MemStore)
    returns (r: Outcome)
    modifies store
    ensures r == OutcomeOf(c, Call(request, validator(request)))
    ensures store.byUri == StoreAfter(c, old(store.byUri), Call(request, validator(request)))
  {
    var validated := validator(request);
    PublishesExactlyScored(c, Call(request, validated));
    match validated {
      case Err(e) =>
        r := Err(e);
      case Ok(signed) =>
        var vr := ResponseOf(c, signed);
        match vr.response {
          case None =>
            r := Ok(Abstain(request.requestHash, vr.tag));
          case Some(score) =>
            var uri := store.Put(c, signed);
            r := Ok(Respond(request.requestHash, score, uri, vr.responseHash, vr.tag));
        }
    }
  }

  lemma PublishesExactlyScored(c: Crypto, call: Call)
    ensures Publishes(call) <==> OutcomeOf(c, call).Ok? && OutcomeOf(c, call).value.Respond?
    ensures call.validated.Ok? ==>
      (Publishes(call) <==> ResponseOf(c, call.validated.value).response.Some?)
  {
  }
}
