/**
  The wired pipeline: reports of the producers, gate, binding, signature
  (the tail of `LiquetValidator::validate` in src/erc8004/liquet_validator.rs).

  The producers (re-execution, reconciliation, malice screen) may report anything or fail.
 */
module LiquetValidator {
  import opened Bytes
  import opened Wrappers
  import opened Text
  import opened Seam
  import opened Gate
  import opened Binding
  import opened Codec
  import opened Attest
  import opened Erc8004
  import opened Store
  import opened Validator
  import opened Runs
  import opened Json
  import opened Layout

  datatype Report = Failed(why: string) | Screened(proof: CrossVmProof, verdict: InvariantVerdict)

  /** One request to the pipeline: the policy in force and what the producers report. */
  datatype Job = Job(request: ResolvedRequest, policy: GatePolicy, report: Report)

  function BindingOf(proof: CrossVmProof, verdict: InvariantVerdict, policy: GatePolicy): DecisionBinding {
    NewBinding(proof, verdict, policy, CrossVmDecision(proof, verdict, policy))
  }

  /** `validate`, from the reports on. */
  function Validate(c: Crypto, key: Bytes32, policy: GatePolicy, report: Report)
    : Result<SignedDecision, ValidateError>
  {
    match report
    case Failed(why) => Err(Unresolvable(why))
    case Screened(proof, verdict) => Ok(SignDecision(c, BindingOf(proof, verdict, policy), key))
  }

  function CallOf(c: Crypto, key: Bytes32, job: Job): Call {
    Call(job.request, Validate(c, key, job.policy, job.report))
  }

  function CallsOf(c: Crypto, key: Bytes32, jobs: seq<Job>): seq<Call> {
    seq(|jobs|, i requires 0 <= i < |jobs| => CallOf(c, key, jobs[i]))
  }

  // ---------- The hashed text, from the reports ----------

  /** The words for the variants, in quotes. */
  lemma WordsInText()
    ensures Quoted(VmWord(Svm)) == "\"svm\"" && Quoted(VmWord(Evm)) == "\"evm\""
    ensures Quoted(SeverityWord(Green)) == "\"green\"" && Quoted(SeverityWord(Info)) == "\"info\""
    ensures Quoted(SeverityWord(Yellow)) == "\"yellow\"" && Quoted(SeverityWord(Red)) == "\"red\""
    ensures Quoted(ReconcileWord(Matched)) == "\"matched\"" && Quoted(ReconcileWord(HalfOpen)) == "\"half_open\""
    ensures Quoted(ReconcileWord(Mismatch)) == "\"mismatch\""
    ensures Quoted(ReconcileWord(Unverifiable)) == "\"unverifiable\""
  {
  }

  /** Leg by leg as the producer reported them: machine, whether it executed, digest. */
  function ReportedLegs(legs: seq<ReexecProof>): seq<string> {
    seq(|legs|, i requires 0 <= i < |legs| =>
      Record([
        Field("vm", Quoted(VmWord(legs[i].vm))),
        Field("executed", Flag(legs[i].executed)),
        Field("poststate_digest", PrintString(legs[i].poststateDigest))]))
  }

  /** The verdict as reported: its level, and every finding in order. */
  function ReportedVerdict(verdict: InvariantVerdict): string {
    Record([
      Field("level", Quoted(SeverityWord(verdict.level))),
      Field("findings", List(FindingTexts(verdict.findings)))])
  }

  /** The policy in force. */
  function ReportedPolicy(policy: GatePolicy): string {
    Record([
      Field("max_settle_severity", Quoted(SeverityWord(policy.maxSettleSeverity))),
      Field("require_executed", Flag(policy.requireExecuted)),
      Field("require_recovered_facts", Flag(policy.requireRecoveredFacts))])
  }

  /** What is hashed for a settlement: each field prints the report's own value of that name. */
  lemma HashedText(c: Crypto, proof: CrossVmProof, verdict: InvariantVerdict, policy: GatePolicy)
    ensures BindingText(BindingOf(proof, verdict, policy)) == Record([
      Field("settlement_id", PrintString(proof.settlementId)),
      Field("claim_hash", PrintString(proof.claimHash)),
      Field("legs", List(ReportedLegs(proof.legs))),
      Field("reconcile", Quoted(ReconcileWord(proof.reconcile))),
      Field("invariant", ReportedVerdict(verdict)),
      Field("policy", ReportedPolicy(policy)),
      Field("decision", Record(DecisionFields(CrossVmDecision(proof, verdict, policy))))])
    ensures Digest(c, BindingOf(proof, verdict, policy))
         == c.sha256(Utf8("liquet/decision/v2\0" + BindingText(BindingOf(proof, verdict, policy))))
  {
    hide Record; hide Field; hide List; hide Quoted; hide FindingTexts; hide DecisionFields; hide Utf8;
    hide CrossVmDecision; hide BindingText; hide PrintString;
    BindingLayout(BindingOf(proof, verdict, policy));
    assert LegTexts(LegDigests(proof.legs)) == ReportedLegs(proof.legs);
  }

  // ---------- The decision follows from the binding ----------

  /** The decision a reader of the binding computes for a matched settlement. */
  function Rederived(b: DecisionBinding): LiquetDecision {
    var reasons := InvariantReasons(b.invariantVerdict, b.policy.maxSettleSeverity);
    if reasons == [] then Settle([]) else Hold(reasons)
  }

  /** What a binding shows about a settlement that may be released. */
  predicate ShowsSafe(b: DecisionBinding) {
    b.reconcile.Matched? && !b.invariantVerdict.level.Exceeds(b.policy.maxSettleSeverity)
  }

  /**
    The pipeline's decision can be audited from what was signed. It settles exactly when the committed
    verdict and policy show it safe; for a matched settlement the committed fields give the decision
    whole; for any other they give it all but the wording of the first reason.
   */
  lemma DecisionFollowsFromBinding(proof: CrossVmProof, verdict: InvariantVerdict, policy: GatePolicy)
    ensures var b := BindingOf(proof, verdict, policy);
      && (b.decision.Settle? <==> ShowsSafe(b))
      && (b.reconcile.Matched? ==> b.decision == Rederived(b))
      && (!b.reconcile.Matched? ==>
            b.decision.Hold? && |b.decision.reasons| > 0 &&
            b.decision.reasons[1..] == InvariantReasons(b.invariantVerdict, b.policy.maxSettleSeverity))
  {
  }

  /**
    What the binding does not commit to: reports that differ in the reconcile's own reasons only are
    bound alike except for the decision, so a hold that is not `Matched` cannot be audited whole.
   */
  lemma ReasonsAreNotCommitted(
    proof: CrossVmProof, verdict: InvariantVerdict, policy: GatePolicy, reasons: seq<string>)
    ensures var b, b' := BindingOf(proof, verdict, policy), BindingOf(proof.(reasons := reasons), verdict, policy);
      && b'.(decision := b.decision) == b
      && (b' == b <==> proof.reconcile.Matched? || Join(reasons, "; ") == Join(proof.reasons, "; "))
  {
    HeadlineCommitsToWording(proof, verdict, policy, reasons);
  }

  lemma HeadlineCommitsToWording(
    proof: CrossVmProof, verdict: InvariantVerdict, policy: GatePolicy, reasons: seq<string>)
    ensures CrossVmDecision(proof.(reasons := reasons), verdict, policy) == CrossVmDecision(proof, verdict, policy)
       <==> proof.reconcile.Matched? || Join(reasons, "; ") == Join(proof.reasons, "; ")
  {
    hide Headline; hide Join; hide InvariantReasons;
    var headline, why, why' := Headline(proof.reconcile), Join(proof.reasons, "; "), Join(reasons, "; ");
    var rest := InvariantReasons(verdict, policy.maxSettleSeverity);
    if !proof.reconcile.Matched? {
      assert ([headline + why] + rest)[0] == headline + why && ([headline + why'] + rest)[0] == headline + why';
      assert (headline + why)[|headline|..] == why && (headline + why')[|headline|..] == why';
    }
  }

  /** Two legs that a binding does not tell apart. */
  predicate SameLeg(l: ReexecProof, m: ReexecProof) {
    l.vm == m.vm && l.executed == m.executed && l.poststateDigest == m.poststateDigest
  }

  predicate SameLegs(ls: seq<ReexecProof>, ms: seq<ReexecProof>) {
    |ls| == |ms| && forall i :: 0 <= i < |ls| ==> SameLeg(ls[i], ms[i])
  }

  /** Reports that agree in everything a binding is made of. */
  predicate SameReports(
    p: CrossVmProof, v: InvariantVerdict, g: GatePolicy, p': CrossVmProof, v': InvariantVerdict, g': GatePolicy)
  {
    && p.settlementId == p'.settlementId && p.claimHash == p'.claimHash && p.reconcile == p'.reconcile
    && v == v'
    && g == g'
    && SameLegs(p.legs, p'.legs)
    && (p.reconcile.Matched? || Join(p.reasons, "; ") == Join(p'.reasons, "; "))
  }

  lemma LegsBoundAlike(ls: seq<ReexecProof>, ms: seq<ReexecProof>)
    ensures SameLegs(ls, ms) <==> LegDigests(ls) == LegDigests(ms)
  {
    var a, b := LegDigests(ls), LegDigests(ms);
    if a == b {
      forall i | 0 <= i < |ls| ensures SameLeg(ls[i], ms[i]) {
        assert a[i] == LegDigestOf(ls[i]) && b[i] == LegDigestOf(ms[i]);
      }
    }
    if SameLegs(ls, ms) {
      assert forall i :: 0 <= i < |ls| ==> SameLeg(ls[i], ms[i]);
    }
  }

  lemma SameReportsSameBinding(
    p: CrossVmProof, v: InvariantVerdict, g: GatePolicy, p': CrossVmProof, v': InvariantVerdict, g': GatePolicy)
    ensures BindingOf(p, v, g) == BindingOf(p', v', g') <==> SameReports(p, v, g, p', v', g')
  {
    hide LegDigests; hide SameLegs; hide CrossVmDecision; hide Join;
    LegsBoundAlike(p.legs, p'.legs);
    if p.reconcile == p'.reconcile && v == v' && g == g' {
      SameDecision(p, p', v, g);
    }
  }

  lemma SameDecision(p: CrossVmProof, p': CrossVmProof, v: InvariantVerdict, g: GatePolicy)
    requires p.reconcile == p'.reconcile
    ensures CrossVmDecision(p, v, g) == CrossVmDecision(p', v, g)
       <==> p.reconcile.Matched? || Join(p.reasons, "; ") == Join(p'.reasons, "; ")
  {
    HeadlineCommitsToWording(p, v, g, p'.reasons);
    hide InvariantReasons; hide Headline; hide Join;
    CrossVmReads(p', p.(reasons := p'.reasons), v, g, g);
  }

  /**
    What a digest commits to: two settlements, however reported, have one digest exactly when their ids,
    claim hash, reconcile, verdict, policy and every leg's digest in order agree, and the reconcile is
    `Matched` or its joined reasons agree - or their bindings collide.
   */
  lemma BindingCommitsToReports(
    c: Crypto,
    p: CrossVmProof, v: InvariantVerdict, g: GatePolicy, p': CrossVmProof, v': InvariantVerdict, g': GatePolicy)
    ensures Digest(c, BindingOf(p, v, g)) == Digest(c, BindingOf(p', v', g')) <==>
      SameReports(p, v, g, p', v', g') || BindingsCollide(c, BindingOf(p, v, g), BindingOf(p', v', g'))
  {
    hide Digest; hide BindingsCollide; hide BindingOf; hide SameReports;
    DigestCommits(c, BindingOf(p, v, g), BindingOf(p', v', g'));
    SameReportsSameBinding(p, v, g, p', v', g');
  }

  // ---------- Runs of the pipeline ----------

  /** Every run of the pipeline is a run with one signer. */
  lemma PipelineHasOneSigner(c: Crypto, key: Bytes32, jobs: seq<Job>)
    ensures SignedBy(c, key, CallsOf(c, key, jobs))
  {
  }

  /** Does this job end in a published score? */
  predicate PublishesScore(job: Job) {
    job.report.Screened? && !job.report.proof.reconcile.Unverifiable?
  }

  function JobBinding(job: Job): DecisionBinding
    requires job.report.Screened?
  {
    BindingOf(job.report.proof, job.report.verdict, job.policy)
  }

  /**
    In every run of the pipeline, whatever the producers report, the evidence of each published job stays
    at its address and passes the relying party's check with the score and tag of that job, unless some
    job `j` published a binding that collides with its own.
   */
  lemma PipelineResponsesStayVerifiable(c: Crypto, key: Bytes32, jobs: seq<Job>, i: nat, trusted: string)
    returns (j: nat)
    requires SoundKey(c, key)
    requires i < |jobs| && PublishesScore(jobs[i])
    requires HexDecode(trusted) == Some(c.publicKey(key))
    ensures MemUri(c, JobBinding(jobs[i])) in StoreOf(c, CallsOf(c, key, jobs))
    ensures j < |jobs| && PublishesScore(jobs[j])
    ensures var b := JobBinding(jobs[i]);
      var bundle := StoreOf(c, CallsOf(c, key, jobs))[MemUri(c, b)];
      var checked := VerifyBundle(c, bundle, ResponseHash(c, b), trusted);
      || checked == Ok(ValidationResponse(ScoreOf(b).0, ScoreOf(b).1, ResponseHash(c, b)))
      || (checked.Ok? && BindingsCollide(c, b, JobBinding(jobs[j])))
  {
    hide VerifyBundle; hide Digest; hide EvidenceBundle; hide SoundKey; hide CrossVmDecision;
    var calls := CallsOf(c, key, jobs);
    PipelineHasOneSigner(c, key, jobs);
    j := EmittedResponsesStayVerifiable(c, key, calls, i, trusted);
    assert BindingAt(calls, i) == JobBinding(jobs[i]) && BindingAt(calls, j) == JobBinding(jobs[j]);
  }

  predicate Releases(job: Job) {
    && job.report.Screened?
    && job.report.proof.reconcile.Matched?
    && !job.report.verdict.level.Exceeds(job.policy.maxSettleSeverity)
  }

  function ReleaseCount(jobs: seq<Job>): nat {
    if |jobs| == 0 then 0
    else ReleaseCount(jobs[..|jobs| - 1]) + if Releases(jobs[|jobs| - 1]) then 1 else 0
  }

  /** What the pipeline publishes for each report: score and tag, an abstention, or an error. */
  lemma PipelineAction(c: Crypto, key: Bytes32, job: Job)
    ensures var r := OutcomeOf(c, CallOf(c, key, job));
      match job.report
      case Failed(why) => r == Err(Unresolvable(why))
      case Screened(proof, verdict) =>
        r.Ok? && r.value.requestHash == job.request.requestHash &&
        match proof.reconcile
        case Unverifiable => r.value == Abstain(job.request.requestHash, "unverifiable")
        case HalfOpen => r.value.Respond? && r.value.response == 0 && r.value.tag == "half-open"
        case Mismatch => r.value.Respond? && r.value.response == 0 && r.value.tag == "mismatch"
        case Matched =>
          r.value.Respond? &&
          if verdict.level.Exceeds(job.policy.maxSettleSeverity)
          then r.value.response == 0 && r.value.tag == "unsafe"
          else r.value.response == 100 && r.value.tag == "matched"
  {
    if job.report.Screened? {
      CrossVmSettlesExactly(job.report.proof, job.report.verdict, job.policy);
    }
  }

  /** A job's binding scores 100 exactly when the job releases funds. */
  lemma JobScore(proof: CrossVmProof, verdict: InvariantVerdict, policy: GatePolicy)
    ensures var b := BindingOf(proof, verdict, policy);
      && (ScoreOf(b).0 == Some(PASS) <==> ShowsSafe(b))
      && (ShowsSafe(b) <==> b.reconcile.Matched? && b.decision.Settle?)
      && (ShowsSafe(b) ==> b.decision == Settle([]))
  {
    CrossVmSettlesExactly(proof, verdict, policy);
  }

  lemma {:induction false} SettledAreReleased(c: Crypto, key: Bytes32, jobs: seq<Job>)
    ensures SettledCount(CallsOf(c, key, jobs)) == ReleaseCount(jobs)
  {
    if |jobs| > 0 {
      var n := |jobs| - 1;
      SettledAreReleased(c, key, jobs[..n]);
      assert CallsOf(c, key, jobs)[..n] == CallsOf(c, key, jobs[..n]);
      if jobs[n].report.Screened? {
        JobScore(jobs[n].report.proof, jobs[n].report.verdict, jobs[n].policy);
      }
    }
  }

  /** In a run of the pipeline the published scores add up to 100 for each matched and safe settlement. */
  lemma PipelineScores(c: Crypto, key: Bytes32, jobs: seq<Job>)
    ensures TallyOf(OutcomesOf(c, CallsOf(c, key, jobs))).scores == PASS * ReleaseCount(jobs)
  {
    Conservation(c, CallsOf(c, key, jobs));
    SettledAreReleased(c, key, jobs);
  }

  // ---------- End to end ----------

  /** The bindings that a run of the pipeline signed, abstentions included. */
  ghost function SignedBindings(jobs: seq<Job>): iset<DecisionBinding> {
    iset i, b | IsJobBinding(jobs, i, b) :: b
  }

  predicate IsJobBinding(jobs: seq<Job>, i: int, b: DecisionBinding) {
    && 0 <= i < |jobs|
    && jobs[i].report.Screened?
    && b == BindingOf(jobs[i].report.proof, jobs[i].report.verdict, jobs[i].policy)
  }

  /**
    End to end: if the operator's key signs only through the pipeline, then whatever evidence a relying
    party accepts under that key with score 100 is the binding of some job `i` whose reconcile was `Matched` and
    whose level was within the committed policy; or it collides with that job's binding, or carries a
    forged signature.
   */
  lemma PassIsEarned(
    c: Crypto, key: Bytes32, jobs: seq<Job>, evidence: SignedDecision, onchainHash: string, trusted: string)
    returns (i: int)
    requires HexDecode(trusted) == Some(c.publicKey(key))
    requires CheckEvidence(c, evidence, onchainHash, trusted).Ok?
    requires CheckEvidence(c, evidence, onchainHash, trusted).value.response == Some(PASS)
    ensures || Forged(c, c.publicKey(key), SignedBindings(jobs), evidence)
            || (&& 0 <= i < |jobs| && jobs[i].report.Screened?
                && var b := BindingOf(jobs[i].report.proof, jobs[i].report.verdict, jobs[i].policy);
                   || BindingsCollide(c, evidence.binding, b)
                   || (evidence.binding == b && Releases(jobs[i]) && ShowsSafe(b) && b.decision == Settle([])))
  {
    var accepted := evidence.binding;
    Authentic(c, c.publicKey(key), SignedBindings(jobs), evidence, onchainHash, trusted);
    i := 0;
    if accepted in SignedBindings(jobs) {
      i :| IsJobBinding(jobs, i, accepted);
      JobScore(jobs[i].report.proof, jobs[i].report.verdict, jobs[i].policy);
    } else if b :| b in SignedBindings(jobs) && BindingsCollide(c, accepted, b) {
      i :| IsJobBinding(jobs, i, b);
    }
  }

  /** The same for any text whatever that is accepted under the operator's key with score 100. */
  lemma PassIsEarnedText(
    c: Crypto, key: Bytes32, jobs: seq<Job>, text: string, onchainHash: string, trusted: string)
    returns (evidence: SignedDecision, i: int)
    requires HexDecode(trusted) == Some(c.publicKey(key))
    requires VerifyBundle(c, text, onchainHash, trusted).Ok?
    requires VerifyBundle(c, text, onchainHash, trusted).value.response == Some(100)
    ensures ParseBundle(text) == Some(evidence)
    ensures || Forged(c, c.publicKey(key), SignedBindings(jobs), evidence)
            || (&& 0 <= i < |jobs| && jobs[i].report.Screened?
                && var b := BindingOf(jobs[i].report.proof, jobs[i].report.verdict, jobs[i].policy);
                   || BindingsCollide(c, evidence.binding, b)
                   || (evidence.binding == b && b.decision == Settle([])
                       && jobs[i].report.proof.reconcile == Matched
                       && SettlesAt(jobs[i].report.verdict.level, jobs[i].policy.maxSettleSeverity)))
  {
    hide VerifyBundle; hide CheckEvidence; hide ParseBundle; hide BindingsCollide; hide Forged; hide BindingOf;
    hide SettlesAt; hide CrossVmDecision;
    forall job: Job | Releases(job)
      ensures SettlesAt(job.report.verdict.level, job.policy.maxSettleSeverity)
    {
      CrossVmLevels(job.report.proof, job.report.verdict, job.policy);
      CrossVmSettlesExactly(job.report.proof, job.report.verdict, job.policy);
    }
    evidence := AcceptedText(c, text, onchainHash, trusted);
    i := PassIsEarned(c, key, jobs, evidence, onchainHash, trusted);
  }
}
