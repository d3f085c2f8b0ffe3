/** The records every producer fills and the gate reads (src/seam.rs). */
module Seam {
  import opened Bytes
  import opened Wrappers

  datatype Vm = Svm | Evm

  datatype FactsSource = ProducerRecovered | CallerAsserted

  /** A witness that one settlement leg was re-executed. */
  datatype ReexecProof = ReexecProof(
    vm: Vm,
    executed: bool,
    poststateDigest: string,
    coveredAccounts: seq<string>,
    factsSource: FactsSource,
    asset: Option<string>,
    amount: Option<u64>,
    recipient: Option<string>,
    unverifiableReason: Option<string>)

  datatype SettlementIntent = SettlementIntent(
    vm: Vm,
    asset: string,
    amount: u64,
    recipient: string,
    requiredAccounts: seq<string>)

  datatype ReconcileVerdict = Matched | HalfOpen | Mismatch | Unverifiable

  datatype CrossVmProof = CrossVmProof(
    reconcile: ReconcileVerdict,
    reasons: seq<string>,
    legs: seq<ReexecProof>,
    claimHash: string,
    settlementId: string)

  datatype Severity = Green | Info | Yellow | Red {
    /** Position in the derived order: Green < Info < Yellow < Red. */
    function Rank(): nat {
      match this
      case Green => 0
      case Info => 1
      case Yellow => 2
      case Red => 3
    }

    predicate Exceeds(limit: Severity) {
      Rank() > limit.Rank()
    }
  }

  /** The order level by level: which of two severities is above the other. */
  lemma SeverityOrder(a: Severity, b: Severity)
    ensures a.Exceeds(b) <==>
      (a, b) in {(Red, Green), (Red, Info), (Red, Yellow), (Yellow, Green), (Yellow, Info), (Info, Green)}
  {
  }

  datatype Finding = Finding(severity: Severity, code: string, account: Option<string>, message: string)

  datatype InvariantVerdict = InvariantVerdict(level: Severity, findings: seq<Finding>)
}
