/**
  Whole runs of the handler: any requests in any order, any answers of the validator.

  The results hold for every run from the empty store. Where a run is said to have one signer,
  every decision the validator answered was signed with that key.
 */
module Runs {
  import opened Bytes
  import opened Wrappers
  import opened Text
  import opened Seam
  import opened Gate
  import opened Binding
  import opened Codec
  import opened Attest
  import opened Erc8004
  import opened Store
  import opened Validator

  /** The store after a run of calls from the empty store. */
  function StoreOf(c: Crypto, calls: seq<Call>): map<string, string> {
    if |calls| == 0 then map[]
    else StoreAfter(c, StoreOf(c, calls[..|calls| - 1]), calls[|calls| - 1])
  }

  function OutcomesOf(c: Crypto, calls: seq<Call>): seq<Outcome> {
    seq(|calls|, i requires 0 <= i < |calls| => OutcomeOf(c, calls[i]))
  }

  /** Every answered decision was signed by `key`. */
  predicate SignedBy(c: Crypto, key: Bytes32, calls: seq<Call>) {
    forall i :: 0 <= i < |calls| && calls[i].validated.Ok? ==>
      calls[i].validated.value == SignDecision(c, calls[i].validated.value.binding, key)
  }

  function BindingAt(calls: seq<Call>, i: nat): DecisionBinding
    requires i < |calls| && calls[i].validated.Ok?
  {
    calls[i].validated.value.binding
  }

  /** Each stored bundle was put there by some publishing call, at that call's address. */
  ghost predicate PinnedBy(c: Crypto, calls: seq<Call>, uri: string, bundle: string) {
    exists j :: 0 <= j < |calls| && Publishes(calls[j]) &&
      uri == MemUri(c, BindingAt(calls, j)) && bundle == EvidenceBundle(calls[j].validated.value)
  }

  /** Store invariant: nothing is in the store but published bundles at their own addresses. */
  lemma {:induction false} StoreHoldsPublished(c: Crypto, calls: seq<Call>, uri: string)
    requires uri in StoreOf(c, calls)
    ensures PinnedBy(c, calls, uri, StoreOf(c, calls)[uri])
  {
    hide MemUri; hide EvidenceBundle;
    var n := |calls| - 1;
    var earlier := calls[..n];
    if Publishes(calls[n]) && uri == MemUri(c, BindingAt(calls, n)) {
    } else {
      StoreHoldsPublished(c, earlier, uri);
      var bundle := StoreOf(c, earlier)[uri];
      var j :| 0 <= j < |earlier| && Publishes(earlier[j]) &&
        uri == MemUri(c, BindingAt(earlier, j)) && bundle == EvidenceBundle(earlier[j].validated.value);
      assert calls[j] == earlier[j];
    }
  }

  /** Every published binding's address is in the store, now and after every later call. */
  lemma {:induction false} PublishedStays(c: Crypto, calls: seq<Call>, i: nat)
    requires i < |calls| && Publishes(calls[i])
    ensures MemUri(c, BindingAt(calls, i)) in StoreOf(c, calls)
  {
    hide MemUri; hide EvidenceBundle;
    var n := |calls| - 1;
    if i < n {
      assert calls[..n][i] == calls[i];
      PublishedStays(c, calls[..n], i);
    }
  }

  /** Addresses are never removed. */
  lemma {:induction false} AddressesStay(c: Crypto, calls: seq<Call>, k: nat)
    requires k <= |calls|
    ensures StoreOf(c, calls[..k]).Keys <= StoreOf(c, calls).Keys
  {
    var n := |calls| - 1;
    if k == |calls| {
      assert calls[..k] == calls;
    } else {
      assert calls[..n][..k] == calls[..k];
      AddressesStay(c, calls[..n], k);
    }
  }

  lemma MemUriInjective(c: Crypto, a: DecisionBinding, b: DecisionBinding)
    requires MemUri(c, a) == MemUri(c, b)
    ensures Digest(c, a) == Digest(c, b)
  {
    assert MemUri(c, a)[|MEM_SCHEME|..] == ResponseHash(c, a);
    assert MemUri(c, b)[|MEM_SCHEME|..] == ResponseHash(c, b);
    HexInjective(Digest(c, a), Digest(c, b));
  }

  /** What is fetched at an emitted address was put there for a binding with the same digest. */
  lemma FetchedBundle(c: Crypto, calls: seq<Call>, i: nat) returns (j: nat)
    requires i < |calls| && Publishes(calls[i])
    ensures MemUri(c, BindingAt(calls, i)) in StoreOf(c, calls)
    ensures j < |calls| && Publishes(calls[j])
    ensures StoreOf(c, calls)[MemUri(c, BindingAt(calls, i))] == EvidenceBundle(calls[j].validated.value)
    ensures Digest(c, BindingAt(calls, i)) == Digest(c, BindingAt(calls, j))
  {
    var uri := MemUri(c, BindingAt(calls, i));
    PublishedStays(c, calls, i);
    StoreHoldsPublished(c, calls, uri);
    var k :| 0 <= k < |calls| && Publishes(calls[k]) &&
      uri == MemUri(c, BindingAt(calls, k)) && StoreOf(c, calls)[uri] == EvidenceBundle(calls[k].validated.value);
    j := k;
    MemUriInjective(c, BindingAt(calls, i), BindingAt(calls, j));
  }

  /**
    In every run of calls signed by one key, a response once emitted stays fetchable at its address,
    and what is fetched there passes the relying party's check under the emitted hash and any spelling
    of the key. It re-derives exactly what was emitted, unless some call `j` published a binding whose
    preimage collides with this one's.
   */
  lemma EmittedResponsesStayVerifiable(c: Crypto, key: Bytes32, calls: seq<Call>, i: nat, trusted: string)
    returns (j: nat)
    requires SoundKey(c, key) && SignedBy(c, key, calls)
    requires i < |calls| && Publishes(calls[i])
    requires HexDecode(trusted) == Some(c.publicKey(key))
    ensures OutcomeOf(c, calls[i]).Ok? && OutcomeOf(c, calls[i]).value.Respond?
    ensures OutcomeOf(c, calls[i]).value.responseUri in StoreOf(c, calls)
    ensures j < |calls| && Publishes(calls[j])
    ensures var emitted := OutcomeOf(c, calls[i]).value;
      var checked := VerifyBundle(c, StoreOf(c, calls)[emitted.responseUri], emitted.responseHash, trusted);
      checked == Ok(ValidationResponse(Some(emitted.response), emitted.tag, emitted.responseHash)) ||
      (checked.Ok? && checked.value.responseHash == emitted.responseHash &&
       BindingsCollide(c, BindingAt(calls, i), BindingAt(calls, j)))
  {
    var b := BindingAt(calls, i);
    PublishesExactlyScored(c, calls[i]);
    j := FetchedBundle(c, calls, i);
    DigestCommits(c, b, BindingAt(calls, j));
    HexSpellings(Digest(c, b), ResponseHash(c, b));
    HonestBundle(c, BindingAt(calls, j), key, ResponseHash(c, b), trusted);
  }

  /**
    No substitution: whatever evidence is accepted under a spelling of an emitted hash, by whichever
    signer, yields the emitted score and tag, or its binding collides with the one answered.
   */
  lemma NoSubstitution(
    c: Crypto, call: Call, evidence: SignedDecision, onchainHash: string, trusted: string)
    requires Publishes(call)
    requires HexDecode(onchainHash) == Some(Digest(c, call.validated.value.binding))
    requires CheckEvidence(c, evidence, onchainHash, trusted).Ok?
    ensures || CheckEvidence(c, evidence, onchainHash, trusted).value == ResponseOf(c, call.validated.value)
            || BindingsCollide(c, evidence.binding, call.validated.value.binding)
  {
    AcceptedHash(c, evidence, onchainHash, trusted);
    DigestCommits(c, evidence.binding, call.validated.value.binding);
  }

  /** The same for whatever text is accepted under a spelling of an emitted hash. */
  lemma NoSubstitutionText(c: Crypto, call: Call, text: string, onchainHash: string, trusted: string)
    returns (evidence: SignedDecision)
    requires Publishes(call)
    requires HexDecode(onchainHash) == Some(Digest(c, call.validated.value.binding))
    requires VerifyBundle(c, text, onchainHash, trusted).Ok?
    ensures ParseBundle(text) == Some(evidence)
    ensures || VerifyBundle(c, text, onchainHash, trusted).value == ResponseOf(c, call.validated.value)
            || BindingsCollide(c, evidence.binding, call.validated.value.binding)
  {
    hide VerifyBundle; hide CheckEvidence; hide ParseBundle; hide BindingsCollide;
    evidence := AcceptedText(c, text, onchainHash, trusted);
    NoSubstitution(c, call, evidence, onchainHash, trusted);
  }

  // ---------- Several signers ----------

  /** Every answered decision was signed with the key of its own call. */
  predicate SignedWith(c: Crypto, keys: seq<Bytes32>, calls: seq<Call>) {
    && |keys| == |calls|
    && forall i :: 0 <= i < |calls| && calls[i].validated.Ok? ==>
         calls[i].validated.value == SignDecision(c, calls[i].validated.value.binding, keys[i])
  }

  predicate PublishesAt(c: Crypto, call: Call, uri: string) {
    Publishes(call) && MemUri(c, call.validated.value.binding) == uri
  }

  /** The last call to publish at the address. */
  predicate IsLastAt(c: Crypto, calls: seq<Call>, uri: string, j: nat) {
    && j < |calls|
    && PublishesAt(c, calls[j], uri)
    && forall k :: j < k < |calls| ==> !PublishesAt(c, calls[k], uri)
  }

  /** What is stored at an address is the bundle of the last call to publish there. */
  lemma {:induction false} LastPublisherIsStored(c: Crypto, calls: seq<Call>, uri: string, j: nat)
    requires IsLastAt(c, calls, uri, j)
    ensures uri in StoreOf(c, calls) && StoreOf(c, calls)[uri] == EvidenceBundle(calls[j].validated.value)
  {
    hide MemUri; hide EvidenceBundle;
    var n := |calls| - 1;
    if j < n {
      assert !PublishesAt(c, calls[n], uri);
      LastPublisherIsStored(c, calls[..n], uri, j);
    }
  }

  lemma {:induction false} LastPublisherExists(c: Crypto, calls: seq<Call>, uri: string, i: nat) returns (j: nat)
    requires i < |calls| && PublishesAt(c, calls[i], uri)
    ensures IsLastAt(c, calls, uri, j)
  {
    hide MemUri;
    var n := |calls| - 1;
    if PublishesAt(c, calls[n], uri) {
      j := n;
    } else {
      j := LastPublisherExists(c, calls[..n], uri, i);
      assert calls[..n][j] == calls[j];
      forall k | j < k < |calls| ensures !PublishesAt(c, calls[k], uri) {
        if k < n {
          assert calls[..n][k] == calls[k];
        }
      }
    }
  }

  /**
    One store serves one signer. In a run in which each call may sign with a key of its own, let `j` be the
    last call to publish at the address of call `i`. Under a spelling of the key of call `i` the evidence
    fetched there verifies exactly when the two keys have one public key; otherwise the relying party is
    told that the signer is another.
   */
  lemma OneStorePerSigner(c: Crypto, keys: seq<Bytes32>, calls: seq<Call>, i: nat, trusted: string)
    returns (j: nat)
    requires SignedWith(c, keys, calls) && forall k <- keys :: SoundKey(c, k)
    requires i < |calls| && Publishes(calls[i])
    requires HexDecode(trusted) == Some(c.publicKey(keys[i]))
    ensures IsLastAt(c, calls, MemUri(c, BindingAt(calls, i)), j)
    ensures MemUri(c, BindingAt(calls, i)) in StoreOf(c, calls)
    ensures VerifyBundle(
              c, StoreOf(c, calls)[MemUri(c, BindingAt(calls, i))], ResponseHash(c, BindingAt(calls, i)), trusted) ==
      if c.publicKey(keys[i]) == c.publicKey(keys[j]) then Ok(ResponseOf(c, calls[j].validated.value))
      else Err(Verify(SignerMismatch))
  {
    var b := BindingAt(calls, i);
    j := LastPublisherExists(c, calls, MemUri(c, b), i);
    LastPublisherIsStored(c, calls, MemUri(c, b), j);
    MemUriInjective(c, b, BindingAt(calls, j));
    HexSpellings(Digest(c, b), ResponseHash(c, b));
    assert keys[j] in keys;
    HonestBundle(c, BindingAt(calls, j), keys[j], ResponseHash(c, b), trusted);
  }

  // ---------- The run as it is driven ----------

  /** The calls that a list of requests comes to, each with its own validator. */
  function CallsMade(requests: seq<ResolvedRequest>, validators: seq<SettlementValidator>): seq<Call>
    requires |requests| == |validators|
  {
    seq(|requests|, i requires 0 <= i < |requests| => Call(requests[i], validators[i](requests[i])))
  }

  /** A client that handles requests one after another on one store. */
  method Serve(
    c: Crypto, requests: seq<ResolvedRequest>, validators: seq<SettlementValidator>, store: MemStore)
    returns (outcomes: seq<Outcome>)
    requires |requests| == |validators| && store.byUri == map[]
    modifies store
    ensures outcomes == OutcomesOf(c, CallsMade(requests, validators))
    ensures store.byUri == StoreOf(c, CallsMade(requests, validators))
  {
    hide OutcomeOf; hide StoreAfter; hide OutcomesOf; hide StoreOf;
    ghost var calls := CallsMade(requests, validators);
    outcomes := [];
    EmptyRun(c, calls[..0]);
    for i := 0 to |requests|
      invariant outcomes == OutcomesOf(c, calls[..i])
      invariant store.byUri == StoreOf(c, calls[..i])
    {
      var outcome := HandleRequest(c, requests[i], validators[i], store);
      outcomes := outcomes + [outcome];
      assert calls[..i + 1] == calls[..i] + [calls[i]];
      RunGrows(c, calls[..i], calls[i]);
    }
    assert calls[..|requests|] == calls;
  }

  lemma EmptyRun(c: Crypto, calls: seq<Call>)
    requires |calls| == 0
    ensures OutcomesOf(c, calls) == [] && StoreOf(c, calls) == map[]
  {
  }

  lemma RunGrows(c: Crypto, calls: seq<Call>, call: Call)
    ensures OutcomesOf(c, calls + [call]) == OutcomesOf(c, calls) + [OutcomeOf(c, call)]
    ensures StoreOf(c, calls + [call]) == StoreAfter(c, StoreOf(c, calls), call)
  {
    assert (calls + [call])[..|calls|] == calls;
    OutcomesGrow(c, calls + [call]);
  }

  /**
    Serves all requests, then fetches the evidence of response `i` and checks it as a relying party does.
    The check gives back what was emitted, whatever came after it, or a published collision is at hand; and
    the store has grown by one bundle for each distinct response hash.
   */
  method ServeThenCheck(
    c: Crypto, ghost key: Bytes32, requests: seq<ResolvedRequest>, validators: seq<SettlementValidator>,
    i: nat, trusted: string)
    returns (checked: Result<ValidationResponse, BundleError>, size: nat)
    requires |requests| == |validators|
    requires SoundKey(c, key) && SignedBy(c, key, CallsMade(requests, validators))
    requires i < |requests| && Publishes(CallsMade(requests, validators)[i])
    requires HexDecode(trusted) == Some(c.publicKey(key))
    ensures var calls := CallsMade(requests, validators);
      && checked.Ok?
      && (|| checked.value == ResponseOf(c, calls[i].validated.value)
          || exists j :: 0 <= j < |calls| && Publishes(calls[j]) &&
               BindingsCollide(c, BindingAt(calls, i), BindingAt(calls, j)))
    ensures size == |EmittedHashes(OutcomesOf(c, CallsMade(requests, validators)))|
  {
    ghost var calls := CallsMade(requests, validators);
    var store := new MemStore();
    var outcomes := Serve(c, requests, validators, store);
    PublishesExactlyScored(c, calls[i]);
    var emitted := outcomes[i].value;
    ghost var j := EmittedResponsesStayVerifiable(c, key, calls, i, trusted);
    var fetched := store.Get(emitted.responseUri);
    checked := VerifyBundle(c, fetched.value, emitted.responseHash, trusted);
    size := store.Len();
    StoreSize(c, calls);
  }

  // ---------- Size ----------

  /** The response hashes among the actions emitted. */
  function EmittedHashes(outcomes: seq<Outcome>): set<string> {
    set o | o in outcomes && o.Ok? && o.value.Respond? :: o.value.responseHash
  }

  function Addresses(hashes: set<string>): set<string> {
    set h | h in hashes :: MEM_SCHEME + h
  }

  lemma OutcomesGrow(c: Crypto, calls: seq<Call>)
    requires |calls| > 0
    ensures OutcomesOf(c, calls)
         == OutcomesOf(c, calls[..|calls| - 1]) + [OutcomeOf(c, calls[|calls| - 1])]
  {
  }

  lemma HashesGrow(outcomes: seq<Outcome>, o: Outcome)
    ensures EmittedHashes(outcomes + [o]) == EmittedHashes(outcomes) +
      if o.Ok? && o.value.Respond? then {o.value.responseHash} else {}
  {
    var before, after := EmittedHashes(outcomes), EmittedHashes(outcomes + [o]);
    forall h | h in before ensures h in after {
      var p :| p in outcomes && p.Ok? && p.value.Respond? && p.value.responseHash == h;
      assert p in outcomes + [o];
    }
    assert o in outcomes + [o];
  }

  /** The addresses in the store are those of the hashes emitted. */
  lemma {:induction false} StoreAddresses(c: Crypto, calls: seq<Call>)
    ensures StoreOf(c, calls).Keys == Addresses(EmittedHashes(OutcomesOf(c, calls)))
  {
    if |calls| > 0 {
      var n := |calls| - 1;
      StoreAddresses(c, calls[..n]);
      OutcomesGrow(c, calls);
      HashesGrow(OutcomesOf(c, calls[..n]), OutcomeOf(c, calls[n]));
      PublishesExactlyScored(c, calls[n]);
      AddressesGrow(EmittedHashes(OutcomesOf(c, calls[..n])), EmittedHashes(OutcomesOf(c, calls)));
    }
  }

  lemma AddressesGrow(before: set<string>, after: set<string>)
    ensures forall h :: after == before + {h} ==> Addresses(after) == Addresses(before) + {MEM_SCHEME + h}
  {
  }

  lemma {:induction false} AddressesCount(hashes: set<string>)
    ensures |Addresses(hashes)| == |hashes|
  {
    if hashes != {} {
      var h :| h in hashes;
      var rest := hashes - {h};
      AddressesCount(rest);
      AddressesGrow(rest, hashes);
      assert hashes == rest + {h};
      forall g | g in rest ensures MEM_SCHEME + g != MEM_SCHEME + h {
        assert (MEM_SCHEME + g)[|MEM_SCHEME|..] == g && (MEM_SCHEME + h)[|MEM_SCHEME|..] == h;
      }
    }
  }

  /** The store holds exactly one bundle for each distinct response hash emitted. */
  lemma StoreSize(c: Crypto, calls: seq<Call>)
    ensures |StoreOf(c, calls).Keys| == |EmittedHashes(OutcomesOf(c, calls))|
  {
    StoreAddresses(c, calls);
    AddressesCount(EmittedHashes(OutcomesOf(c, calls)));
  }

  // ---------- Conservation ----------

  datatype Tally = Tally(responses: nat, abstentions: nat, errors: nat, scores: nat)

  function Add(t: Tally, o: Outcome): Tally {
    match o
    case Err(_) => t.(errors := t.errors + 1)
    case Ok(Abstain(_, _)) => t.(abstentions := t.abstentions + 1)
    case Ok(Respond(_, score, _, _, _)) => t.(responses := t.responses + 1, scores := t.scores + score)
  }

  function TallyOf(outcomes: seq<Outcome>): Tally {
    if |outcomes| == 0 then Tally(0, 0, 0, 0)
    else Add(TallyOf(outcomes[..|outcomes| - 1]), outcomes[|outcomes| - 1])
  }

  /** A verdict that settles: reconciled and released. */
  predicate Settled(call: Call) {
    && call.validated.Ok?
    && call.validated.value.binding.reconcile.Matched?
    && call.validated.value.binding.decision.Settle?
  }

  function SettledCount(calls: seq<Call>): nat {
    if |calls| == 0 then 0
    else SettledCount(calls[..|calls| - 1]) + if Settled(calls[|calls| - 1]) then 1 else 0
  }

  /** Each kind of outcome is counted as that kind: published, abstained, failed. */
  function Count(calls: seq<Call>, kind: Call -> bool): nat {
    if |calls| == 0 then 0
    else Count(calls[..|calls| - 1], kind) + if kind(calls[|calls| - 1]) then 1 else 0
  }

  /** Responses, abstentions and errors partition the calls, and the scores add up to 100 for each settled verdict. */
  lemma {:induction false} Conservation(c: Crypto, calls: seq<Call>)
    ensures var t := TallyOf(OutcomesOf(c, calls));
      && t.responses + t.abstentions + t.errors == |calls|
      && t.responses == Count(calls, Publishes)
      && t.errors == Count(calls, (call: Call) => call.validated.Err?)
      && t.scores == 100 * SettledCount(calls)
  {
    hide MemUri; hide ResponseHash;
    if |calls| > 0 {
      var n := |calls| - 1;
      Conservation(c, calls[..n]);
      OutcomesGrow(c, calls);
      assert OutcomesOf(c, calls)[..n] == OutcomesOf(c, calls[..n]);
    }
  }

  /** Each action answers the request it was made for. */
  lemma OutcomesEcho(c: Crypto, calls: seq<Call>, i: nat)
    requires i < |calls| && OutcomesOf(c, calls)[i].Ok?
    ensures OutcomesOf(c, calls)[i].value.requestHash == calls[i].request.requestHash
  {
  }

  /** The calls that publish a score. */
  function Published(calls: seq<Call>): seq<Call> {
    if |calls| == 0 then []
    else
      var last := calls[|calls| - 1];
      Published(calls[..|calls| - 1]) + if Publishes(last) then [last] else []
  }

  lemma TallyAdds(c: Crypto, calls: seq<Call>, call: Call)
    ensures TallyOf(OutcomesOf(c, calls + [call])) == Add(TallyOf(OutcomesOf(c, calls)), OutcomeOf(c, call))
  {
    RunGrows(c, calls, call);
    var o := OutcomesOf(c, calls + [call]);
    assert o[..|o| - 1] == OutcomesOf(c, calls);
  }

  function ScoresOnly(t: Tally): Tally {
    t.(abstentions := 0, errors := 0)
  }

  lemma AddScoresOnly(c: Crypto, t: Tally, call: Call)
    ensures ScoresOnly(Add(t, OutcomeOf(c, call)))
         == if Publishes(call) then Add(ScoresOnly(t), OutcomeOf(c, call)) else ScoresOnly(t)
  {
    PublishesExactlyScored(c, call);
  }

  /**
    Requests that end in an abstention or an error leave no trace: the store, the number of
    responses and the sum of the scores are those of the run in which they were never made.
   */
  lemma {:induction false} AbstentionsLeaveNoTrace(c: Crypto, calls: seq<Call>)
    ensures StoreOf(c, Published(calls)) == StoreOf(c, calls)
    ensures TallyOf(OutcomesOf(c, Published(calls))) == ScoresOnly(TallyOf(OutcomesOf(c, calls)))
  {
    hide OutcomesOf; hide TallyOf; hide ScoresOnly; hide StoreOf; hide Published;
    if |calls| == 0 {
      NoTraceEmpty(c, calls);
    } else {
      var n := |calls| - 1;
      AbstentionsLeaveNoTrace(c, calls[..n]);
      NoTraceStep(c, calls[..n], calls[n]);
      assert calls == calls[..n] + [calls[n]];
    }
  }

  lemma NoTraceEmpty(c: Crypto, calls: seq<Call>)
    requires |calls| == 0
    ensures StoreOf(c, Published(calls)) == StoreOf(c, calls)
    ensures TallyOf(OutcomesOf(c, Published(calls))) == ScoresOnly(TallyOf(OutcomesOf(c, calls)))
  {
    assert Published(calls) == calls;
  }

  /** One more call, of either kind. */
  lemma NoTraceStep(c: Crypto, calls: seq<Call>, last: Call)
    requires StoreOf(c, Published(calls)) == StoreOf(c, calls)
    requires TallyOf(OutcomesOf(c, Published(calls))) == ScoresOnly(TallyOf(OutcomesOf(c, calls)))
    ensures StoreOf(c, Published(calls + [last])) == StoreOf(c, calls + [last])
    ensures TallyOf(OutcomesOf(c, Published(calls + [last]))) == ScoresOnly(TallyOf(OutcomesOf(c, calls + [last])))
  {
    hide OutcomeOf; hide OutcomesOf; hide TallyOf; hide Add; hide ScoresOnly; hide StoreOf;
    hide MemUri; hide EvidenceBundle;
    RunGrows(c, calls, last);
    TallyAdds(c, calls, last);
    AddScoresOnly(c, TallyOf(OutcomesOf(c, calls)), last);
    PublishedGrows(calls, last);
    if Publishes(last) {
      RunGrows(c, Published(calls), last);
      TallyAdds(c, Published(calls), last);
    }
  }

  lemma PublishedGrows(calls: seq<Call>, last: Call)
    ensures Published(calls + [last]) == if Publishes(last) then Published(calls) + [last] else Published(calls)
  {
    assert (calls + [last])[..|calls|] == calls;
  }
}
