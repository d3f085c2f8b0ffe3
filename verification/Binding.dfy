/** What a signed decision commits to (the records of src/attest.rs). */
module Binding {
  import opened Seam
  import opened Gate

  /** One re-executed leg's identity. */
  datatype LegDigest = LegDigest(vm: Vm, executed: bool, poststateDigest: string)

  datatype PolicySnapshot = PolicySnapshot(
    maxSettleSeverity: Severity,
    requireExecuted: bool,
    requireRecoveredFacts: bool)

  datatype DecisionBinding = DecisionBinding(
    settlementId: string,
    claimHash: string,
    legs: seq<LegDigest>,
    reconcile: ReconcileVerdict,
    invariantVerdict: InvariantVerdict,
    policy: PolicySnapshot,
    decision: LiquetDecision)

  datatype SignedDecision = SignedDecision(binding: DecisionBinding, signer: string, signature: string)

  function SnapshotOf(p: GatePolicy): PolicySnapshot {
    PolicySnapshot(p.maxSettleSeverity, p.requireExecuted, p.requireRecoveredFacts)
  }

  function LegDigestOf(leg: ReexecProof): LegDigest {
    LegDigest(leg.vm, leg.executed, leg.poststateDigest)
  }

  function LegDigests(legs: seq<ReexecProof>): seq<LegDigest> {
    seq(|legs|, i requires 0 <= i < |legs| => LegDigestOf(legs[i]))
  }

  /** `DecisionBinding::new`. */
  function NewBinding(
    proof: CrossVmProof, verdict: InvariantVerdict, policy: GatePolicy, decision: LiquetDecision)
    : DecisionBinding
  {
    DecisionBinding(
      proof.settlementId,
      proof.claimHash,
      LegDigests(proof.legs),
      proof.reconcile,
      verdict,
      SnapshotOf(policy),
      decision)
  }
}
