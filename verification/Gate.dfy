/** The gate: producer reports and a policy in, one settle/hold decision out (src/decide.rs). */
module Gate {
  import opened Bytes
  import opened Wrappers
  import opened Text
  import opened Seam

  datatype GatePolicy = GatePolicy(
    maxSettleSeverity: Severity,
    requireExecuted: bool,
    requireRecoveredFacts: bool)

  datatype LiquetDecision = Settle(caveats: seq<string>) | Hold(reasons: seq<string>)

  // ---------- The text of each reason ----------

  const UNBOUND_NOTE :=
    "intent-binding unverified: producer could not recover transfer facts (Phase 1, Custos-only)"

  function VmName(vm: Vm): string {
    match vm case Svm => "Svm" case Evm => "Evm"
  }

  function SeverityName(s: Severity): string {
    match s case Green => "Green" case Info => "Info" case Yellow => "Yellow" case Red => "Red"
  }

  function UnverifiableLine(why: string): string {
    "re-exec unverifiable: " + why
  }

  function FindingLine(f: Finding): string {
    "[" + f.code + "] " + f.message
  }

  function LevelLine(level: Severity, limit: Severity): string {
    "invariant level " + SeverityName(level) + " exceeds settle threshold " + SeverityName(limit)
  }

  function CoverageLine(account: string): string {
    "required account " + account + " was not in the producer's scope (coverage gap)"
  }

  function VmLine(executed: Vm, intended: Vm): string {
    "executed vm " + VmName(executed) + " does not match intent vm " + VmName(intended)
  }

  function DifferenceLine(field: string, observed: string, intended: string): string {
    "executed " + field + " " + observed + " does not match intent " + intended
  }

  function AbsenceLine(field: string): string {
    "producer-recovered proof is missing " + field + " required for binding"
  }

  // ---------- What the gate must report, as one list ----------

  /** One line for each element kept, in order. */
  function LinesOf<T>(keep: T -> bool, line: T -> string, xs: seq<T>): seq<string> {
    if |xs| == 0 then []
    else (if keep(xs[0]) then [line(xs[0])] else []) + LinesOf(keep, line, xs[1..])
  }

  /** The lines of all findings above the limit. */
  function OffendingLines(findings: seq<Finding>, limit: Severity): seq<string> {
    LinesOf((f: Finding) => f.severity.Exceeds(limit), FindingLine, findings)
  }

  function InvariantReasons(verdict: InvariantVerdict, limit: Severity): seq<string> {
    if !verdict.level.Exceeds(limit) then []
    else if OffendingLines(verdict.findings, limit) == [] then [LevelLine(verdict.level, limit)]
    else OffendingLines(verdict.findings, limit)
  }

  function CoverageReasons(required: seq<string>, covered: seq<string>): seq<string> {
    LinesOf((a: string) => a !in covered, CoverageLine, required)
  }

  function FactReasons(field: string, observed: Option<string>, intended: string): seq<string> {
    match observed
    case None => [AbsenceLine(field)]
    case Some(v) => if v == intended then [] else [DifferenceLine(field, v, intended)]
  }

  function DecimalOf(amount: Option<u64>): Option<string> {
    match amount case None => None case Some(n) => Some(Decimal(n))
  }

  function BindingReasons(intent: SettlementIntent, proof: ReexecProof, policy: GatePolicy): seq<string> {
    match proof.factsSource
    case ProducerRecovered =>
      (if proof.vm == intent.vm then [] else [VmLine(proof.vm, intent.vm)])
      + FactReasons("asset", proof.asset, intent.asset)
      + FactReasons("amount", DecimalOf(proof.amount), Decimal(intent.amount))
      + FactReasons("recipient", proof.recipient, intent.recipient)
    case CallerAsserted =>
      if policy.requireRecoveredFacts then [UNBOUND_NOTE] else []
  }

  function ExecutionReasons(proof: ReexecProof, policy: GatePolicy): seq<string> {
    (match proof.unverifiableReason case None => [] case Some(why) => [UnverifiableLine(why)])
    + (if policy.requireExecuted && !proof.executed
       then ["re-exec proof shows the leg did not execute"]
       else [])
  }

  /** Every failed check, in the order the gate reports them. */
  function HoldReasons(
    intent: SettlementIntent, proof: ReexecProof, verdict: InvariantVerdict, policy: GatePolicy): seq<string>
  {
    ExecutionReasons(proof, policy)
    + InvariantReasons(verdict, policy.maxSettleSeverity)
    + CoverageReasons(intent.requiredAccounts, proof.coveredAccounts)
    + BindingReasons(intent, proof, policy)
  }

  function Decision(
    intent: SettlementIntent, proof: ReexecProof, verdict: InvariantVerdict, policy: GatePolicy): LiquetDecision
  {
    var reasons := HoldReasons(intent, proof, verdict, policy);
    if reasons == [] then Settle(if proof.factsSource.CallerAsserted? then [UNBOUND_NOTE] else [])
    else Hold(reasons)
  }

  // ---------- The gate itself ----------

  /** Binds one recovered fact against the intent. */
  method Bind(reasons: seq<string>, field: string, observed: Option<string>, intended: string)
    returns (extended: seq<string>)
    ensures extended == reasons + FactReasons(field, observed, intended)
  {
    extended := reasons;
    match observed {
      case Some(v) =>
        if v != intended {
          extended := extended + [DifferenceLine(field, v, intended)];
        }
      case None =>
        extended := extended + [AbsenceLine(field)];
    }
  }

  /** Pushes what the invariant screen holds against a settlement. */
  method Screen(reasons: seq<string>, verdict: InvariantVerdict, limit: Severity)
    returns (extended: seq<string>)
    ensures extended == reasons + InvariantReasons(verdict, limit)
  {
    extended := reasons;
    if verdict.level.Exceeds(limit) {
      var offending: seq<string> := [];
      for i := 0 to |verdict.findings|
        invariant offending == OffendingLines(verdict.findings[..i], limit)
      {
        var f := verdict.findings[i];
        LinesSplit((g: Finding) => g.severity.Exceeds(limit), FindingLine, verdict.findings[..i], [f]);
        assert verdict.findings[..i + 1] == verdict.findings[..i] + [f];
        if f.severity.Exceeds(limit) {
          offending := offending + [FindingLine(f)];
        }
      }
      assert verdict.findings[..|verdict.findings|] == verdict.findings;
      if offending == [] {
        extended := extended + [LevelLine(verdict.level, limit)];
      } else {
        extended := extended + offending;
      }
    }
  }

  /** Pushes one reason for each required account the producer did not have in scope. */
  method Cover(reasons: seq<string>, required: seq<string>, covered: seq<string>)
    returns (extended: seq<string>)
    ensures extended == reasons + CoverageReasons(required, covered)
  {
    extended := reasons;
    for i := 0 to |required|
      invariant extended == reasons + CoverageReasons(required[..i], covered)
    {
      var account := required[i];
      LinesSplit((a: string) => a !in covered, CoverageLine, required[..i], [account]);
      assert required[..i + 1] == required[..i] + [account];
      if account !in covered {
        extended := extended + [CoverageLine(account)];
      }
    }
    assert required[..|required|] == required;
  }

  /** Binds recovered facts to the intent; asserted facts become a caveat, or a reason if the policy says so. */
  method BindIntent(
    reasons: seq<string>, caveats: seq<string>, intent: SettlementIntent, proof: ReexecProof, policy: GatePolicy)
    returns (reasons': seq<string>, caveats': seq<string>)
    ensures reasons' == reasons + BindingReasons(intent, proof, policy)
    ensures caveats' == caveats +
      if proof.factsSource.CallerAsserted? && !policy.requireRecoveredFacts then [UNBOUND_NOTE] else []
  {
    reasons', caveats' := reasons, caveats;
    match proof.factsSource {
      case ProducerRecovered =>
        if proof.vm != intent.vm {
          reasons' := reasons' + [VmLine(proof.vm, intent.vm)];
        }
        reasons' := Bind(reasons', "asset", proof.asset, intent.asset);
        reasons' := Bind(reasons', "amount", DecimalOf(proof.amount), Decimal(intent.amount));
        reasons' := Bind(reasons', "recipient", proof.recipient, intent.recipient);
      case CallerAsserted =>
        if policy.requireRecoveredFacts {
          reasons' := reasons' + [UNBOUND_NOTE];
        } else {
          caveats' := caveats' + [UNBOUND_NOTE];
        }
    }
  }

  /** `decide`: settles exactly when no check failed, and otherwise reports all that failed. */
  method Decide(intent: SettlementIntent, proof: ReexecProof, verdict: InvariantVerdict, policy: GatePolicy)
    returns (d: LiquetDecision)
    ensures d == Decision(intent, proof, verdict, policy)
    ensures forall r :: d.Hold? && r in d.reasons <==> Failure(intent, proof, verdict, policy, r)
    ensures d.Settle? ==> SafeToSettle(intent, proof, verdict, policy) && RightCaveats(proof, d.caveats)
    ensures d.Hold? ==> !SafeToSettle(intent, proof, verdict, policy)
  {
    hide Failure; hide SafeToSettle; hide RightCaveats;
    var reasons: seq<string> := [];
    var caveats: seq<string> := [];

    if proof.unverifiableReason.Some? {
      reasons := reasons + [UnverifiableLine(proof.unverifiableReason.value)];
    }
    if policy.requireExecuted && !proof.executed {
      reasons := reasons + ["re-exec proof shows the leg did not execute"];
    }
    assert reasons == ExecutionReasons(proof, policy);

    reasons := Screen(reasons, verdict, policy.maxSettleSeverity);

    reasons := Cover(reasons, intent.requiredAccounts, proof.coveredAccounts);
    reasons, caveats := BindIntent(reasons, caveats, intent, proof, policy);
    assert reasons == HoldReasons(intent, proof, verdict, policy);

    if reasons == [] {
      d := Settle(caveats);
    } else {
      d := Hold(reasons);
    }
    SettlesExactlyWhenSafe(intent, proof, verdict, policy);
    DecisionTells(intent, proof, verdict, policy, "");
    forall r ensures d.Hold? && r in d.reasons <==> Failure(intent, proof, verdict, policy, r) {
      DecisionTells(intent, proof, verdict, policy, r);
    }
  }

  // ---------- The cross-VM gate ----------

  function Headline(reconcile: ReconcileVerdict): string {
    match reconcile
    case Matched => ""
    case HalfOpen => "cross-VM settlement half-open \U{2014} exactly one leg settled (funds in-flight): "
    case Mismatch => "cross-VM mismatch vs intent: "
    case Unverifiable => "cross-VM leg unverifiable: "
  }

  function ReconcileReasons(proof: CrossVmProof): seq<string> {
    if proof.reconcile.Matched? then [] else [Headline(proof.reconcile) + Join(proof.reasons, "; ")]
  }

  function CrossVmDecision(proof: CrossVmProof, verdict: InvariantVerdict, policy: GatePolicy): LiquetDecision {
    var reasons := ReconcileReasons(proof) + InvariantReasons(verdict, policy.maxSettleSeverity);
    if reasons == [] then Settle([]) else Hold(reasons)
  }

  /** `decide_crossvm`. */
  method DecideCrossVm(proof: CrossVmProof, verdict: InvariantVerdict, policy: GatePolicy)
    returns (d: LiquetDecision)
    ensures d == CrossVmDecision(proof, verdict, policy)
    ensures forall r :: d.Hold? && r in d.reasons <==> CrossVmFailure(proof, verdict, policy, r)
    ensures d == Settle([]) <==> proof.reconcile == Matched && SettlesAt(verdict.level, policy.maxSettleSeverity)
  {
    hide CrossVmFailure; hide SettlesAt;
    var reasons: seq<string> := [];
    match proof.reconcile {
      case Matched =>
      case HalfOpen =>
        reasons := reasons + [Headline(HalfOpen) + Join(proof.reasons, "; ")];
      case Mismatch =>
        reasons := reasons + [Headline(Mismatch) + Join(proof.reasons, "; ")];
      case Unverifiable =>
        reasons := reasons + [Headline(Unverifiable) + Join(proof.reasons, "; ")];
    }
    reasons := Screen(reasons, verdict, policy.maxSettleSeverity);
    if reasons == [] {
      d := Settle([]);
    } else {
      d := Hold(reasons);
    }
    CrossVmLevels(proof, verdict, policy);
    forall r ensures d.Hold? && r in d.reasons <==> CrossVmFailure(proof, verdict, policy, r) {
      CrossVmTells(proof, verdict, policy, r);
    }
  }

  // ---------- Order and multiplicity ----------

  lemma LinesCons<T>(keep: T -> bool, line: T -> string, x: T, xs: seq<T>)
    ensures LinesOf(keep, line, [x] + xs) == (if keep(x) then [line(x)] else []) + LinesOf(keep, line, xs)
  {
    assert ([x] + xs)[1..] == xs;
  }

  lemma NoLines<T>(keep: T -> bool, line: T -> string, xs: seq<T>)
    requires |xs| == 0
    ensures LinesOf(keep, line, xs) == []
  {
  }

  lemma {:induction false} LinesSplit<T>(keep: T -> bool, line: T -> string, a: seq<T>, b: seq<T>)
    ensures LinesOf(keep, line, a + b) == LinesOf(keep, line, a) + LinesOf(keep, line, b)
  {
    hide LinesOf;
    if |a| == 0 {
      NoLines(keep, line, a);
      assert a + b == b;
    } else {
      LinesSplit(keep, line, a[1..], b);
      LinesCons(keep, line, a[0], a[1..] + b);
      LinesCons(keep, line, a[0], a[1..]);
      assert a + b == [a[0]] + (a[1..] + b) && a == [a[0]] + a[1..];
    }
  }

  /** The positions of the kept elements, ascending. */
  ghost predicate ArePositions<T>(at: seq<nat>, keep: T -> bool, xs: seq<T>) {
    && (forall k :: 0 <= k < |at| ==> at[k] < |xs|)
    && (forall k, l :: 0 <= k < l < |at| ==> at[k] < at[l])
    && (forall i: nat :: i < |xs| ==> (i in at <==> keep(xs[i])))
  }

  /** The lines are those of the kept elements, one each, in the order of their positions. */
  lemma {:induction false} LinesInOrder<T>(keep: T -> bool, line: T -> string, xs: seq<T>) returns (at: seq<nat>)
    ensures ArePositions(at, keep, xs)
    ensures |LinesOf(keep, line, xs)| == |at|
    ensures forall k :: 0 <= k < |at| ==> LinesOf(keep, line, xs)[k] == line(xs[at[k]])
  {
    if |xs| == 0 {
      at := [];
    } else {
      var n := |xs| - 1;
      var earlier := LinesInOrder(keep, line, xs[..n]);
      at := earlier + if keep(xs[n]) then [n] else [];
      PositionsGrow(earlier, keep, xs);
      assert xs == xs[..n] + [xs[n]];
      LinesSplit(keep, line, xs[..n], [xs[n]]);
    }
  }

  lemma PositionsGrow<T>(at: seq<nat>, keep: T -> bool, xs: seq<T>)
    requires |xs| > 0 && ArePositions(at, keep, xs[..|xs| - 1])
    ensures ArePositions(at + if keep(xs[|xs| - 1]) then [|xs| - 1] else [], keep, xs)
  {
    var n := |xs| - 1;
    var at' := at + if keep(xs[n]) then [n] else [];
    forall i: nat | i < |xs| ensures i in at' <==> keep(xs[i]) {
      if i < n {
        assert xs[..n][i] == xs[i];
        assert i in at' <==> i in at;
      }
    }
  }

  lemma CountCons<T>(x: T, xs: seq<T>, y: T)
    ensures multiset([x] + xs)[y] == multiset(xs)[y] + if x == y then 1 else 0
  {
  }

  /** How often a line is reported: once for each kept element that prints as it. */
  lemma {:induction false} LinesMultiplicity<T>(keep: T -> bool, line: T -> string, xs: seq<T>, x: T)
    requires forall i :: 0 <= i < |xs| && line(xs[i]) == line(x) ==> xs[i] == x
    ensures multiset(LinesOf(keep, line, xs))[line(x)] == if keep(x) then multiset(xs)[x] else 0
  {
    if |xs| > 0 {
      LinesMultiplicity(keep, line, xs[1..], x);
      assert xs == [xs[0]] + xs[1..];
      CountCons(xs[0], xs[1..], x);
      if keep(xs[0]) {
        CountCons(line(xs[0]), LinesOf(keep, line, xs[1..]), line(x));
      }
    }
  }

  lemma {:induction false} LinesMembers<T>(keep: T -> bool, line: T -> string, xs: seq<T>, r: string)
    ensures r in LinesOf(keep, line, xs) <==> exists x :: x in xs && keep(x) && r == line(x)
  {
    if |xs| > 0 {
      LinesMembers(keep, line, xs[1..], r);
      assert xs == [xs[0]] + xs[1..];
    }
  }

  lemma MiddleDetermined(head: string, a: string, b: string, tail: string)
    requires head + a + tail == head + b + tail
    ensures a == b
  {
    var x, y := head + a + tail, head + b + tail;
    assert |a| == |b|;
    assert x[|head|..|head| + |a|] == a && y[|head|..|head| + |b|] == b;
  }

  lemma CoverageLineInjective(a: string, b: string)
    requires CoverageLine(a) == CoverageLine(b)
    ensures a == b
  {
    MiddleDetermined("required account ", a, b, " was not in the producer's scope (coverage gap)");
  }

  /** An uncovered account is reported as often as it is required, a covered one never. */
  lemma CoverageMultiplicity(required: seq<string>, covered: seq<string>, account: string)
    ensures multiset(CoverageReasons(required, covered))[CoverageLine(account)]
         == if account in covered then 0 else multiset(required)[account]
  {
    forall i | 0 <= i < |required| && CoverageLine(required[i]) == CoverageLine(account)
      ensures required[i] == account
    {
      CoverageLineInjective(required[i], account);
    }
    LinesMultiplicity((a: string) => a !in covered, CoverageLine, required, account);
  }

  lemma CoverageMembers(required: seq<string>, covered: seq<string>, r: string)
    ensures r in CoverageReasons(required, covered) <==>
            exists a :: a in required && a !in covered && r == CoverageLine(a)
  {
    LinesMembers((a: string) => a !in covered, CoverageLine, required, r);
  }

  lemma CoverageHolds(required: seq<string>, covered: seq<string>)
    ensures CoverageReasons(required, covered) == [] <==> forall a <- required :: a in covered
  {
    var reasons := CoverageReasons(required, covered);
    if reasons != [] {
      CoverageMembers(required, covered, reasons[0]);
    }
    forall a <- required | a !in covered ensures CoverageLine(a) in reasons {
      CoverageMembers(required, covered, CoverageLine(a));
    }
  }

  /**
    Above the limit, the invariant reasons are one line for each finding above it, in the order the
    findings stand in; the level alone is reported when there is none.
   */
  lemma InvariantReasonsInOrder(verdict: InvariantVerdict, limit: Severity) returns (at: seq<nat>)
    requires verdict.level.Exceeds(limit)
    ensures forall k :: 0 <= k < |at| ==> at[k] < |verdict.findings|
    ensures forall k, l :: 0 <= k < l < |at| ==> at[k] < at[l]
    ensures forall i: nat :: i < |verdict.findings| ==> (i in at <==> verdict.findings[i].severity.Exceeds(limit))
    ensures InvariantReasons(verdict, limit) ==
      if at == [] then [LevelLine(verdict.level, limit)]
      else seq(|at|, k requires 0 <= k < |at| => FindingLine(verdict.findings[at[k]]))
  {
    at := LinesInOrder((f: Finding) => f.severity.Exceeds(limit), FindingLine, verdict.findings);
    var lines := OffendingLines(verdict.findings, limit);
    assert lines == seq(|at|, k requires 0 <= k < |at| => FindingLine(verdict.findings[at[k]]));
  }

  /** With the level above the limit each finding above it has its line, and the level has one if no finding has. */
  lemma InvariantMembers(verdict: InvariantVerdict, limit: Severity, r: string)
    requires verdict.level.Exceeds(limit)
    ensures r in InvariantReasons(verdict, limit) <==>
      || (exists f :: f in verdict.findings && f.severity.Exceeds(limit) && r == FindingLine(f))
      || (r == LevelLine(verdict.level, limit) && forall f <- verdict.findings :: !f.severity.Exceeds(limit))
  {
    var keep := (f: Finding) => f.severity.Exceeds(limit);
    LinesMembers(keep, FindingLine, verdict.findings, r);
    var lines := OffendingLines(verdict.findings, limit);
    if lines != [] {
      LinesMembers(keep, FindingLine, verdict.findings, lines[0]);
    }
    forall f <- verdict.findings | f.severity.Exceeds(limit) ensures FindingLine(f) in lines {
      LinesMembers(keep, FindingLine, verdict.findings, FindingLine(f));
    }
  }

  // ---------- When money moves ----------

  /** Every recovered fact is present and is the intended value. */
  predicate FactsMatch(intent: SettlementIntent, proof: ReexecProof) {
    && proof.vm == intent.vm
    && proof.asset == Some(intent.asset)
    && proof.amount == Some(intent.amount)
    && proof.recipient == Some(intent.recipient)
  }

  /** The conditions of a settlement, said without any reason text. */
  predicate SafeToSettle(
    intent: SettlementIntent, proof: ReexecProof, verdict: InvariantVerdict, policy: GatePolicy)
  {
    && proof.unverifiableReason.None?
    && (policy.requireExecuted ==> proof.executed)
    && !verdict.level.Exceeds(policy.maxSettleSeverity)
    && (forall a <- intent.requiredAccounts :: a in proof.coveredAccounts)
    && match proof.factsSource
       case ProducerRecovered => FactsMatch(intent, proof)
       case CallerAsserted => !policy.requireRecoveredFacts
  }

  /** Comparing the printed amounts decides equality of the amounts. */
  lemma AmountBinding(observed: Option<u64>, intended: u64)
    ensures FactReasons("amount", DecimalOf(observed), Decimal(intended)) == [] <==> observed == Some(intended)
  {
    if observed.Some? && Decimal(observed.value) == Decimal(intended) {
      DecimalInjective(observed.value, intended);
    }
  }

  /** `decide` settles exactly when every condition holds. */
  lemma SettlesExactlyWhenSafe(
    intent: SettlementIntent, proof: ReexecProof, verdict: InvariantVerdict, policy: GatePolicy)
    ensures Decision(intent, proof, verdict, policy).Settle? <==> SafeToSettle(intent, proof, verdict, policy)
  {
    CoverageHolds(intent.requiredAccounts, proof.coveredAccounts);
    AmountBinding(proof.amount, intent.amount);
  }

  // ---------- What a decision tells, in its own words ----------

  /** `r` reports a failed invariant screen. */
  ghost predicate ScreenFailure(verdict: InvariantVerdict, limit: Severity, r: string) {
    verdict.level.Exceeds(limit) &&
    (|| (exists f :: f in verdict.findings && f.severity.Exceeds(limit) && r == "[" + f.code + "] " + f.message)
     || (&& (forall f <- verdict.findings :: !f.severity.Exceeds(limit))
         && r == "invariant level " + SeverityName(verdict.level)
                 + " exceeds settle threshold " + SeverityName(limit)))
  }

  /** `r` reports an account that was required and not covered. */
  ghost predicate CoverageFailure(required: seq<string>, covered: seq<string>, r: string) {
    exists a :: a in required && a !in covered &&
      r == "required account " + a + " was not in the producer's scope (coverage gap)"
  }

  /** `r` reports that a recovered text is absent or differs from the intended one. */
  predicate FactFailure(field: string, observed: Option<string>, intended: string, r: string) {
    || (observed.None? && r == "producer-recovered proof is missing " + field + " required for binding")
    || (observed.Some? && observed.value != intended &&
        r == "executed " + field + " " + observed.value + " does not match intent " + intended)
  }

  /** `r` reports that the recovered amount, as a number, is absent or differs from the intended one. */
  predicate AmountFailure(observed: Option<u64>, intended: u64, r: string) {
    || (observed.None? && r == "producer-recovered proof is missing amount required for binding")
    || (observed.Some? && observed.value != intended &&
        r == "executed amount " + Decimal(observed.value) + " does not match intent " + Decimal(intended))
  }

  /** `r` reports that the leg executed on another machine. */
  predicate VmFailure(executed: Vm, intended: Vm, r: string) {
    || (executed.Svm? && intended.Evm? && r == "executed vm Svm does not match intent vm Evm")
    || (executed.Evm? && intended.Svm? && r == "executed vm Evm does not match intent vm Svm")
  }

  /** `r` reports that facts had to be recovered and were not. */
  predicate NoteFailure(policy: GatePolicy, r: string) {
    && policy.requireRecoveredFacts
    && r == "intent-binding unverified: producer could not recover transfer facts (Phase 1, Custos-only)"
  }

  /** `r` reports that the transfer was not bound to the intent. */
  predicate BindingFailure(intent: SettlementIntent, proof: ReexecProof, policy: GatePolicy, r: string) {
    match proof.factsSource
    case ProducerRecovered =>
      || VmFailure(proof.vm, intent.vm, r)
      || FactFailure("asset", proof.asset, intent.asset, r)
      || AmountFailure(proof.amount, intent.amount, r)
      || FactFailure("recipient", proof.recipient, intent.recipient, r)
    case CallerAsserted => NoteFailure(policy, r)
  }

  /** `r` reports that the leg could not be verified. */
  predicate UnverifiableFailure(proof: ReexecProof, r: string) {
    proof.unverifiableReason.Some? && r == "re-exec unverifiable: " + proof.unverifiableReason.value
  }

  /** `r` reports that the leg had to execute and did not. */
  predicate UnexecutedFailure(proof: ReexecProof, policy: GatePolicy, r: string) {
    policy.requireExecuted && !proof.executed && r == "re-exec proof shows the leg did not execute"
  }

  /** `r` reports one of the failures that `decide` looks for. */
  ghost predicate Failure(
    intent: SettlementIntent, proof: ReexecProof, verdict: InvariantVerdict, policy: GatePolicy, r: string)
  {
    || UnverifiableFailure(proof, r)
    || UnexecutedFailure(proof, policy, r)
    || ScreenFailure(verdict, policy.maxSettleSeverity, r)
    || CoverageFailure(intent.requiredAccounts, proof.coveredAccounts, r)
    || BindingFailure(intent, proof, policy, r)
  }

  /** The caveats of a settlement: none on recovered facts, the note on asserted ones. */
  predicate RightCaveats(proof: ReexecProof, caveats: seq<string>) {
    match proof.factsSource
    case ProducerRecovered => caveats == []
    case CallerAsserted =>
      caveats == ["intent-binding unverified: producer could not recover transfer facts (Phase 1, Custos-only)"]
  }

  /** How levels and machines are named in a reason. */
  lemma ReasonNames()
    ensures SeverityName(Green) == "Green" && SeverityName(Info) == "Info"
    ensures SeverityName(Yellow) == "Yellow" && SeverityName(Red) == "Red"
    ensures VmName(Svm) == "Svm" && VmName(Evm) == "Evm"
  {
  }

  lemma ScreenTells(verdict: InvariantVerdict, limit: Severity, r: string)
    ensures r in InvariantReasons(verdict, limit) <==> ScreenFailure(verdict, limit, r)
  {
    if verdict.level.Exceeds(limit) {
      InvariantMembers(verdict, limit, r);
    }
  }

  lemma FactTells(field: string, observed: Option<string>, intended: string, r: string)
    ensures r in FactReasons(field, observed, intended) <==> FactFailure(field, observed, intended, r)
  {
  }

  lemma AmountTells(observed: Option<u64>, intended: u64, r: string)
    ensures r in FactReasons("amount", DecimalOf(observed), Decimal(intended)) <==> AmountFailure(observed, intended, r)
  {
    hide DifferenceLine; hide AbsenceLine; hide Decimal;
    AmountTexts(observed, intended);
    AmountBinding(observed, intended);
  }

  lemma AmountTexts(observed: Option<u64>, intended: u64)
    ensures AbsenceLine("amount") == "producer-recovered proof is missing amount required for binding"
    ensures observed.Some? ==>
      DifferenceLine("amount", Decimal(observed.value), Decimal(intended)) ==
        "executed amount " + Decimal(observed.value) + " does not match intent " + Decimal(intended)
  {
    hide Decimal;
  }

  lemma VmTells(executed: Vm, intended: Vm, r: string)
    ensures executed != intended && r == VmLine(executed, intended) <==> VmFailure(executed, intended, r)
  {
    hide VmLine;
    SvmForEvm();
    EvmForSvm();
  }

  lemma SvmForEvm()
    ensures VmLine(Svm, Evm) == "executed vm Svm does not match intent vm Evm"
  {
  }

  lemma EvmForSvm()
    ensures VmLine(Evm, Svm) == "executed vm Evm does not match intent vm Svm"
  {
  }

  lemma BindingTells(intent: SettlementIntent, proof: ReexecProof, policy: GatePolicy, r: string)
    ensures r in BindingReasons(intent, proof, policy) <==> BindingFailure(intent, proof, policy, r)
  {
    hide VmLine; hide VmFailure; hide FactReasons; hide FactFailure; hide AmountFailure;
    VmTells(proof.vm, intent.vm, r);
    FactTells("asset", proof.asset, intent.asset, r);
    AmountTells(proof.amount, intent.amount, r);
    FactTells("recipient", proof.recipient, intent.recipient, r);
  }

  /**
    A hold gives every reason and no other: `r` is among the reasons exactly if it reports a failure. A
    settlement is the absence of all of them, and carries the right caveats.
   */
  lemma DecisionTells(
    intent: SettlementIntent, proof: ReexecProof, verdict: InvariantVerdict, policy: GatePolicy, r: string)
    ensures var d := Decision(intent, proof, verdict, policy);
      && (d.Hold? && r in d.reasons <==> Failure(intent, proof, verdict, policy, r))
      && (d.Hold? ==> |d.reasons| > 0)
      && (d.Settle? ==> RightCaveats(proof, d.caveats))
  {
    hide InvariantReasons; hide ScreenFailure; hide BindingReasons; hide BindingFailure;
    hide CoverageReasons; hide CoverageLine; hide CoverageFailure;
    ScreenTells(verdict, policy.maxSettleSeverity, r);
    CoverageTells(intent.requiredAccounts, proof.coveredAccounts, r);
    BindingTells(intent, proof, policy, r);
  }

  lemma CoverageTells(required: seq<string>, covered: seq<string>, r: string)
    ensures r in CoverageReasons(required, covered) <==> CoverageFailure(required, covered, r)
  {
    CoverageMembers(required, covered, r);
  }

  /** The reasons of a hold; a settlement has none. */
  function Reasons(d: LiquetDecision): seq<string> {
    if d.Hold? then d.reasons else []
  }

  /** Ascending positions of all findings above the limit. */
  ghost predicate ArePositionsAbove(at: seq<nat>, findings: seq<Finding>, limit: Severity) {
    && (forall k :: 0 <= k < |at| ==> at[k] < |findings|)
    && (forall k, l :: 0 <= k < l < |at| ==> at[k] < at[l])
    && (forall i: nat :: i < |findings| ==> (i in at <==> findings[i].severity.Exceeds(limit)))
  }

  /** Ascending positions of all required accounts that are not covered. */
  ghost predicate AreGaps(at: seq<nat>, required: seq<string>, covered: seq<string>) {
    && (forall k :: 0 <= k < |at| ==> at[k] < |required|)
    && (forall k, l :: 0 <= k < l < |at| ==> at[k] < at[l])
    && (forall i: nat :: i < |required| ==> (i in at <==> required[i] !in covered))
  }

  /** The words of the invariant screen, given the positions of the findings above the limit. */
  ghost function ScreenText(verdict: InvariantVerdict, limit: Severity, at: seq<nat>): seq<string>
    requires ArePositionsAbove(at, verdict.findings, limit)
  {
    if !verdict.level.Exceeds(limit) then []
    else if at == [] then
      ["invariant level " + SeverityName(verdict.level) + " exceeds settle threshold " + SeverityName(limit)]
    else
      seq(|at|, k requires 0 <= k < |at| =>
        "[" + verdict.findings[at[k]].code + "] " + verdict.findings[at[k]].message)
  }

  /** The words of the coverage check, given the positions of the uncovered accounts. */
  ghost function GapText(required: seq<string>, covered: seq<string>, at: seq<nat>): seq<string>
    requires AreGaps(at, required, covered)
  {
    seq(|at|, k requires 0 <= k < |at| =>
      "required account " + required[at[k]] + " was not in the producer's scope (coverage gap)")
  }

  lemma ScreenInOrder(verdict: InvariantVerdict, limit: Severity) returns (at: seq<nat>)
    ensures ArePositionsAbove(at, verdict.findings, limit)
    ensures InvariantReasons(verdict, limit) == ScreenText(verdict, limit, at)
  {
    at := LinesInOrder((f: Finding) => f.severity.Exceeds(limit), FindingLine, verdict.findings);
    var lines := OffendingLines(verdict.findings, limit);
    if verdict.level.Exceeds(limit) && at != [] {
      assert lines == ScreenText(verdict, limit, at);
    }
  }

  lemma GapsInOrder(required: seq<string>, covered: seq<string>) returns (at: seq<nat>)
    ensures AreGaps(at, required, covered)
    ensures CoverageReasons(required, covered) == GapText(required, covered, at)
  {
    at := LinesInOrder((a: string) => a !in covered, CoverageLine, required);
  }

  /** At most one reason, and exactly those that tell of the failure. */
  ghost predicate Tells(reasons: seq<string>, failure: string -> bool) {
    |reasons| <= 1 && forall r :: r in reasons <==> failure(r)
  }

  /** The four facts of a recovered transfer, or the note on an asserted one. */
  datatype FactsTold = FactsTold(
    vm: seq<string>, asset: seq<string>, amount: seq<string>, recipient: seq<string>, note: seq<string>)

  lemma FactsInOrder(intent: SettlementIntent, proof: ReexecProof, policy: GatePolicy) returns (t: FactsTold)
    ensures BindingReasons(intent, proof, policy) == t.vm + t.asset + t.amount + t.recipient + t.note
    ensures var recovered := proof.factsSource.ProducerRecovered?;
      && Tells(t.vm, r => recovered && VmFailure(proof.vm, intent.vm, r))
      && Tells(t.asset, r => recovered && FactFailure("asset", proof.asset, intent.asset, r))
      && Tells(t.amount, r => recovered && AmountFailure(proof.amount, intent.amount, r))
      && Tells(t.recipient, r => recovered && FactFailure("recipient", proof.recipient, intent.recipient, r))
      && Tells(t.note, r => !recovered && NoteFailure(policy, r))
  {
    hide VmLine; hide VmFailure; hide FactFailure; hide AmountFailure; hide AbsenceLine; hide DifferenceLine;
    if proof.factsSource.CallerAsserted? {
      t := FactsTold([], [], [], [], BindingReasons(intent, proof, policy));
    } else {
      t := FactsTold(
        if proof.vm == intent.vm then [] else [VmLine(proof.vm, intent.vm)],
        FactReasons("asset", proof.asset, intent.asset),
        FactReasons("amount", DecimalOf(proof.amount), Decimal(intent.amount)),
        FactReasons("recipient", proof.recipient, intent.recipient),
        []);
      forall r
        ensures r in t.vm <==> VmFailure(proof.vm, intent.vm, r)
        ensures r in t.asset <==> FactFailure("asset", proof.asset, intent.asset, r)
        ensures r in t.amount <==> AmountFailure(proof.amount, intent.amount, r)
        ensures r in t.recipient <==> FactFailure("recipient", proof.recipient, intent.recipient, r)
      {
        VmTells(proof.vm, intent.vm, r);
        FactTells("asset", proof.asset, intent.asset, r);
        AmountTells(proof.amount, intent.amount, r);
        FactTells("recipient", proof.recipient, intent.recipient, r);
      }
    }
  }

  /**
    The order of the reasons: unverifiable, unexecuted, the screen by ascending findings, coverage by
    ascending accounts, then vm, asset, amount, recipient, or the note that nothing was recovered.
   */
  lemma ReasonsInOrder(
    intent: SettlementIntent, proof: ReexecProof, verdict: InvariantVerdict, policy: GatePolicy)
    returns (unverifiable: seq<string>, unexecuted: seq<string>, above: seq<nat>, gaps: seq<nat>, t: FactsTold)
    ensures ArePositionsAbove(above, verdict.findings, policy.maxSettleSeverity)
    ensures AreGaps(gaps, intent.requiredAccounts, proof.coveredAccounts)
    ensures Reasons(Decision(intent, proof, verdict, policy)) ==
      unverifiable + unexecuted + ScreenText(verdict, policy.maxSettleSeverity, above)
      + GapText(intent.requiredAccounts, proof.coveredAccounts, gaps)
      + (t.vm + t.asset + t.amount + t.recipient + t.note)
    ensures var recovered := proof.factsSource.ProducerRecovered?;
      && Tells(unverifiable, r => UnverifiableFailure(proof, r))
      && Tells(unexecuted, r => UnexecutedFailure(proof, policy, r))
      && Tells(t.vm, r => recovered && VmFailure(proof.vm, intent.vm, r))
      && Tells(t.asset, r => recovered && FactFailure("asset", proof.asset, intent.asset, r))
      && Tells(t.amount, r => recovered && AmountFailure(proof.amount, intent.amount, r))
      && Tells(t.recipient, r => recovered && FactFailure("recipient", proof.recipient, intent.recipient, r))
      && Tells(t.note, r => !recovered && NoteFailure(policy, r))
  {
    hide BindingReasons; hide VmFailure; hide FactFailure; hide AmountFailure; hide NoteFailure;
    hide InvariantReasons; hide CoverageReasons; hide ScreenText; hide GapText; hide ArePositionsAbove; hide AreGaps;
    unverifiable := match proof.unverifiableReason case None => [] case Some(why) => [UnverifiableLine(why)];
    unexecuted := ExecutionReasons(proof, policy)[|unverifiable|..];
    above := ScreenInOrder(verdict, policy.maxSettleSeverity);
    gaps := GapsInOrder(intent.requiredAccounts, proof.coveredAccounts);
    t := FactsInOrder(intent, proof, policy);
    assert ExecutionReasons(proof, policy) == unverifiable + unexecuted;
  }

  predicate NoStricter(p: GatePolicy, q: GatePolicy) {
    && !p.maxSettleSeverity.Exceeds(q.maxSettleSeverity)
    && (q.requireExecuted ==> p.requireExecuted)
    && (q.requireRecoveredFacts ==> p.requireRecoveredFacts)
  }

  /**
    Loosening the policy, covering more accounts, requiring fewer or lowering the invariant level
    never turns a settle into a hold, and leaves the caveats as they were.
   */
  lemma GateMonotone(
    intent: SettlementIntent, proof: ReexecProof, verdict: InvariantVerdict, policy: GatePolicy,
    required: seq<string>, covered: seq<string>, milder: InvariantVerdict, looser: GatePolicy)
    requires Decision(intent, proof, verdict, policy).Settle?
    requires NoStricter(policy, looser)
    requires forall a <- required :: a in intent.requiredAccounts
    requires forall a <- proof.coveredAccounts :: a in covered
    requires !milder.level.Exceeds(verdict.level)
    ensures Decision(intent.(requiredAccounts := required), proof.(coveredAccounts := covered), milder, looser)
         == Decision(intent, proof, verdict, policy)
  {
    SettlesExactlyWhenSafe(intent, proof, verdict, policy);
    SettlesExactlyWhenSafe(
      intent.(requiredAccounts := required), proof.(coveredAccounts := covered), milder, looser);
  }

  /** Reordering or repeating required accounts changes neither the outcome nor the set of reasons. */
  lemma RequiredAccountsAreASet(
    intent: SettlementIntent, proof: ReexecProof, verdict: InvariantVerdict, policy: GatePolicy,
    required: seq<string>)
    requires forall a :: a in required <==> a in intent.requiredAccounts
    ensures var d, e := Decision(intent, proof, verdict, policy),
                        Decision(intent.(requiredAccounts := required), proof, verdict, policy);
      (d.Settle? ==> d == e) &&
      (d.Hold? ==> e.Hold? && forall r :: r in d.reasons <==> r in e.reasons)
  {
    var intent' := intent.(requiredAccounts := required);
    SettlesExactlyWhenSafe(intent, proof, verdict, policy);
    SettlesExactlyWhenSafe(intent', proof, verdict, policy);
    forall r
      ensures r in HoldReasons(intent, proof, verdict, policy) <==> r in HoldReasons(intent', proof, verdict, policy)
    {
      CoverageMembers(intent.requiredAccounts, proof.coveredAccounts, r);
      CoverageMembers(required, proof.coveredAccounts, r);
    }
  }

  /** The cross-VM gate releases funds exactly on `Matched` with the level inside the threshold. */
  lemma CrossVmSettlesExactly(proof: CrossVmProof, verdict: InvariantVerdict, policy: GatePolicy)
    ensures CrossVmDecision(proof, verdict, policy).Settle? <==>
            proof.reconcile.Matched? && !verdict.level.Exceeds(policy.maxSettleSeverity)
    ensures CrossVmDecision(proof, verdict, policy).Settle? ==> CrossVmDecision(proof, verdict, policy) == Settle([])
  {
  }

  /**
    The cross-VM gate reads one field of its policy and no field of any leg: reports with one reconcile,
    one wording of its reasons, and one verdict are decided alike.
   */
  lemma CrossVmReads(p: CrossVmProof, p': CrossVmProof, verdict: InvariantVerdict, g: GatePolicy, g': GatePolicy)
    requires p.reconcile == p'.reconcile && g.maxSettleSeverity == g'.maxSettleSeverity
    requires p.reconcile.Matched? || Join(p.reasons, "; ") == Join(p'.reasons, "; ")
    ensures CrossVmDecision(p, verdict, g) == CrossVmDecision(p', verdict, g')
  {
  }

  /** `r` reports that the legs were not reconciled, and why. */
  predicate ReconcileFailure(proof: CrossVmProof, r: string) {
    match proof.reconcile
    case Matched => false
    case HalfOpen =>
      r == "cross-VM settlement half-open \U{2014} exactly one leg settled (funds in-flight): "
           + Join(proof.reasons, "; ")
    case Mismatch => r == "cross-VM mismatch vs intent: " + Join(proof.reasons, "; ")
    case Unverifiable => r == "cross-VM leg unverifiable: " + Join(proof.reasons, "; ")
  }

  /** `r` reports one of the failures that `decide_crossvm` looks for. */
  ghost predicate CrossVmFailure(proof: CrossVmProof, verdict: InvariantVerdict, policy: GatePolicy, r: string) {
    ReconcileFailure(proof, r) || ScreenFailure(verdict, policy.maxSettleSeverity, r)
  }

  /** A cross-VM hold gives every reason and no other, and a settlement has no caveat. */
  lemma CrossVmTells(proof: CrossVmProof, verdict: InvariantVerdict, policy: GatePolicy, r: string)
    ensures var d := CrossVmDecision(proof, verdict, policy);
      && (d.Hold? && r in d.reasons <==> CrossVmFailure(proof, verdict, policy, r))
      && (d.Hold? ==> |d.reasons| > 0)
      && (d.Settle? ==> d.caveats == [])
  {
    hide InvariantReasons; hide ScreenFailure; hide Join;
    ScreenTells(verdict, policy.maxSettleSeverity, r);
  }

  /** The reconcile's reason comes first, and those of the screen follow by ascending findings. */
  lemma CrossVmReasonsInOrder(proof: CrossVmProof, verdict: InvariantVerdict, policy: GatePolicy)
    returns (headline: seq<string>, above: seq<nat>)
    ensures ArePositionsAbove(above, verdict.findings, policy.maxSettleSeverity)
    ensures Reasons(CrossVmDecision(proof, verdict, policy))
         == headline + ScreenText(verdict, policy.maxSettleSeverity, above)
    ensures Tells(headline, r => ReconcileFailure(proof, r))
  {
    hide InvariantReasons; hide ScreenText; hide ArePositionsAbove; hide Join;
    headline := ReconcileReasons(proof);
    above := ScreenInOrder(verdict, policy.maxSettleSeverity);
  }

  // ---------- Which levels move money ----------

  /** The levels that each limit lets through. */
  predicate SettlesAt(level: Severity, limit: Severity) {
    match limit
    case Green => level == Green
    case Info => level == Green || level == Info
    case Yellow => level == Green || level == Info || level == Yellow
    case Red => true
  }

  /** The cross-VM gate settles exactly on `Matched` at the levels that the limit names. */
  lemma CrossVmLevels(proof: CrossVmProof, verdict: InvariantVerdict, policy: GatePolicy)
    ensures CrossVmDecision(proof, verdict, policy) == Settle([]) <==>
            proof.reconcile == Matched && SettlesAt(verdict.level, policy.maxSettleSeverity)
  {
    SeverityOrder(verdict.level, policy.maxSettleSeverity);
    CrossVmSettlesExactly(proof, verdict, policy);
  }

  /** `decide` settles exactly at those levels, on a verified leg, run if it must, covered, and bound or let off. */
  lemma DecideLevels(intent: SettlementIntent, proof: ReexecProof, verdict: InvariantVerdict, policy: GatePolicy)
    ensures Decision(intent, proof, verdict, policy).Settle? <==>
      && SettlesAt(verdict.level, policy.maxSettleSeverity)
      && proof.unverifiableReason == None
      && (proof.executed || !policy.requireExecuted)
      && (forall a <- intent.requiredAccounts :: a in proof.coveredAccounts)
      && if proof.factsSource == CallerAsserted then !policy.requireRecoveredFacts
         else proof.vm == intent.vm && proof.asset == Some(intent.asset)
              && proof.amount == Some(intent.amount) && proof.recipient == Some(intent.recipient)
  {
    SeverityOrder(verdict.level, policy.maxSettleSeverity);
    SettlesExactlyWhenSafe(intent, proof, verdict, policy);
  }

  predicate AllExecuted(legs: seq<ReexecProof>) {
    forall l <- legs :: l.executed
  }

  predicate AllRecovered(legs: seq<ReexecProof>) {
    forall l <- legs :: l.factsSource.ProducerRecovered?
  }

  /**
    Nothing in the cross-VM gate enforces `requireExecuted`. For a given proof, settling under it implies
    executed legs exactly when the producer calls nothing `Matched` that has an unexecuted leg.
   */
  lemma ExecutionRestsOnReconcile(proof: CrossVmProof)
    ensures (forall verdict, policy: GatePolicy ::
               policy.requireExecuted && CrossVmDecision(proof, verdict, policy).Settle? ==> AllExecuted(proof.legs))
       <==> (proof.reconcile.Matched? ==> AllExecuted(proof.legs))
  {
    var verdict, policy := InvariantVerdict(Green, []), GatePolicy(Info, true, false);
    assert policy.requireExecuted;
    assert CrossVmDecision(proof, verdict, policy).Settle? <==> proof.reconcile.Matched?;
  }

  /** Nor does it enforce `requireRecoveredFacts`: whether facts were recovered rests on the producer alike. */
  lemma RecoveryRestsOnReconcile(proof: CrossVmProof)
    ensures (forall verdict, policy: GatePolicy ::
               policy.requireRecoveredFacts && CrossVmDecision(proof, verdict, policy).Settle? ==>
                 AllRecovered(proof.legs))
       <==> (proof.reconcile.Matched? ==> AllRecovered(proof.legs))
  {
    var verdict, policy := InvariantVerdict(Green, []), GatePolicy(Info, false, true);
    assert policy.requireRecoveredFacts;
    assert CrossVmDecision(proof, verdict, policy).Settle? <==> proof.reconcile.Matched?;
  }

  /** An input on which the committed policy is honoured in neither respect. */
  lemma UnexecutedLegSettles() returns (proof: CrossVmProof, policy: GatePolicy)
    ensures policy.requireExecuted && policy.requireRecoveredFacts && |proof.legs| == 1
    ensures !proof.legs[0].executed && proof.legs[0].factsSource.CallerAsserted?
    ensures CrossVmDecision(proof, InvariantVerdict(Green, []), policy) == Settle([])
  {
    policy := GatePolicy(Info, true, true);
    var leg := ReexecProof(Svm, false, "digest", [], CallerAsserted, None, None, None, None);
    proof := CrossVmProof(Matched, [], [leg], "claim", "settlement");
  }

  // ---------- Findings and the level ----------

  /** No finding is above the limit. */
  predicate NoneAbove(findings: seq<Finding>, limit: Severity) {
    forall f <- findings :: !f.severity.Exceeds(limit)
  }

  /**
    Both gates screen by the verdict's level and trust it to be the worst of its findings. Over all proofs
    and policies, a settlement hides no finding above its limit exactly when the level is at least the
    severity of each finding.
   */
  lemma LevelMustCoverFindings(verdict: InvariantVerdict)
    ensures (forall proof, policy ::
               CrossVmDecision(proof, verdict, policy).Settle? ==>
                 NoneAbove(verdict.findings, policy.maxSettleSeverity))
       <==> NoneAbove(verdict.findings, verdict.level)
    ensures (forall intent, proof, policy ::
               Decision(intent, proof, verdict, policy).Settle? ==>
                 NoneAbove(verdict.findings, policy.maxSettleSeverity))
       <==> NoneAbove(verdict.findings, verdict.level)
  {
    var policy := GatePolicy(verdict.level, false, false);
    var matched := CrossVmProof(Matched, [], [], "", "");
    assert CrossVmDecision(matched, verdict, policy).Settle?;
    var intent := SettlementIntent(Svm, "", 0, "", []);
    var proof := ReexecProof(Svm, true, "", [], CallerAsserted, None, None, None, None);
    SettlesExactlyWhenSafe(intent, proof, verdict, policy);
    assert Decision(intent, proof, verdict, policy).Settle?;
    forall i, p, q | Decision(i, p, verdict, q).Settle? ensures !verdict.level.Exceeds(q.maxSettleSeverity) {
      SettlesExactlyWhenSafe(i, p, verdict, q);
    }
  }
}
