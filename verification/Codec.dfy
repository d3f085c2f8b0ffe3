/**
  The JSON form that the serde attributes give the records of a signed decision, and the way
  the derived readers take it back: fields in any order, unknown fields skipped, a field given
  twice refused, a missing field refused unless it has a default.
 */
module Codec {
  import opened Wrappers
  import opened Json
  import Grammar
  import opened Seam
  import opened Gate
  import opened Binding

  // ---------- Writing ----------

  function VmWord(vm: Vm): string {
    match vm case Svm => "svm" case Evm => "evm"
  }

  function SeverityWord(s: Severity): string {
    match s case Green => "green" case Info => "info" case Yellow => "yellow" case Red => "red"
  }

  function ReconcileWord(r: ReconcileVerdict): string {
    match r
    case Matched => "matched"
    case HalfOpen => "half_open"
    case Mismatch => "mismatch"
    case Unverifiable => "unverifiable"
  }

  function WriteVm(vm: Vm): Json {
    String(VmWord(vm))
  }

  function WriteSeverity(s: Severity): Json {
    String(SeverityWord(s))
  }

  function WriteReconcile(r: ReconcileVerdict): Json {
    String(ReconcileWord(r))
  }

  function WriteAll<T>(write: T -> Json, xs: seq<T>): (es: seq<Json>)
    ensures |es| == |xs|
  {
    if |xs| == 0 then [] else [write(xs[0])] + WriteAll(write, xs[1..])
  }

  function WriteList<T>(write: T -> Json, xs: seq<T>): Json {
    Array(WriteAll(write, xs))
  }

  function WriteString(s: string): Json {
    String(s)
  }

  function WriteLeg(l: LegDigest): Json {
    Object([
      Member("vm", WriteVm(l.vm)),
      Member("executed", Bool(l.executed)),
      Member("poststate_digest", String(l.poststateDigest))])
  }

  /** `account` is skipped when there is none. */
  function WriteFinding(f: Finding): Json {
    var account := match f.account case None => [] case Some(a) => [Member("account", String(a))];
    Object(
      [Member("severity", WriteSeverity(f.severity)), Member("code", String(f.code))] + account
      + [Member("message", String(f.message))])
  }

  function WriteInvariant(v: InvariantVerdict): Json {
    Object([
      Member("level", WriteSeverity(v.level)),
      Member("findings", WriteList(WriteFinding, v.findings))])
  }

  function WritePolicy(p: PolicySnapshot): Json {
    Object([
      Member("max_settle_severity", WriteSeverity(p.maxSettleSeverity)),
      Member("require_executed", Bool(p.requireExecuted)),
      Member("require_recovered_facts", Bool(p.requireRecoveredFacts))])
  }

  /** Internally tagged by `decision`; empty `caveats` are skipped. */
  function WriteDecision(d: LiquetDecision): Json {
    match d
    case Settle(caveats) =>
      var rest := if |caveats| == 0 then [] else [Member("caveats", WriteList(WriteString, caveats))];
      Object([Member("decision", String("settle"))] + rest)
    case Hold(reasons) =>
      Object([Member("decision", String("hold")), Member("reasons", WriteList(WriteString, reasons))])
  }

  function WriteBinding(b: DecisionBinding): Json {
    Object([
      Member("settlement_id", String(b.settlementId)),
      Member("claim_hash", String(b.claimHash)),
      Member("legs", WriteList(WriteLeg, b.legs)),
      Member("reconcile", WriteReconcile(b.reconcile)),
      Member("invariant", WriteInvariant(b.invariantVerdict)),
      Member("policy", WritePolicy(b.policy)),
      Member("decision", WriteDecision(b.decision))])
  }

  function WriteSigned(s: SignedDecision): Json {
    Object([
      Member("binding", WriteBinding(s.binding)),
      Member("signer", String(s.signer)),
      Member("signature", String(s.signature))])
  }

  // ---------- Reading ----------

  datatype Lookup = Missing | Found(value: Json) | Duplicate

  function Find(ms: seq<Member>, key: string): Lookup {
    if |ms| == 0 then Missing
    else
      var rest := Find(ms[1..], key);
      if ms[0].key != key then rest
      else if rest.Missing? then Found(ms[0].value)
      else Duplicate
  }

  function ReadField<T>(ms: seq<Member>, key: string, read: Json -> Option<T>): Option<T> {
    match Find(ms, key)
    case Found(j) => read(j)
    case _ => None
  }

  function ReadString(j: Json): Option<string> {
    if j.String? then Some(j.s) else None
  }

  function ReadBool(j: Json): Option<bool> {
    if j.Bool? then Some(j.b) else None
  }

  function ReadAll<T>(read: Json -> Option<T>, es: seq<Json>): Option<seq<T>> {
    if |es| == 0 then Some([])
    else
      var x :- read(es[0]);
      var xs :- ReadAll(read, es[1..]);
      Some([x] + xs)
  }

  function ReadList<T>(read: Json -> Option<T>, j: Json): Option<seq<T>> {
    if j.Array? then ReadAll(read, j.elements) else None
  }

  function ReadStrings(j: Json): Option<seq<string>> {
    ReadList(ReadString, j)
  }

  function ReadVm(j: Json): Option<Vm> {
    if j == String("svm") then Some(Svm)
    else if j == String("evm") then Some(Evm)
    else None
  }

  function ReadSeverity(j: Json): Option<Severity> {
    if j == String("green") then Some(Green)
    else if j == String("info") then Some(Info)
    else if j == String("yellow") then Some(Yellow)
    else if j == String("red") then Some(Red)
    else None
  }

  function ReadReconcile(j: Json): Option<ReconcileVerdict> {
    if j == String("matched") then Some(Matched)
    else if j == String("half_open") then Some(HalfOpen)
    else if j == String("mismatch") then Some(Mismatch)
    else if j == String("unverifiable") then Some(Unverifiable)
    else None
  }

  function ReadLeg(j: Json): Option<LegDigest> {
    if !j.Object? then None
    else
      var vm :- ReadField(j.members, "vm", ReadVm);
      var executed :- ReadField(j.members, "executed", ReadBool);
      var digest :- ReadField(j.members, "poststate_digest", ReadString);
      Some(LegDigest(vm, executed, digest))
  }

  /** An optional string: absent and `null` both read as none. */
  function ReadOptional(ms: seq<Member>, key: string): Option<Option<string>> {
    match Find(ms, key)
    case Missing => Some(None)
    case Found(Null) => Some(None)
    case Found(String(s)) => Some(Some(s))
    case _ => None
  }

  function ReadFinding(j: Json): Option<Finding> {
    if !j.Object? then None
    else
      var severity :- ReadField(j.members, "severity", ReadSeverity);
      var code :- ReadField(j.members, "code", ReadString);
      var account :- ReadOptional(j.members, "account");
      var message :- ReadField(j.members, "message", ReadString);
      Some(Finding(severity, code, account, message))
  }

  function ReadFindings(j: Json): Option<seq<Finding>> {
    ReadList(ReadFinding, j)
  }

  function ReadInvariant(j: Json): Option<InvariantVerdict> {
    if !j.Object? then None
    else
      var level :- ReadField(j.members, "level", ReadSeverity);
      var findings :- ReadField(j.members, "findings", ReadFindings);
      Some(InvariantVerdict(level, findings))
  }

  function ReadPolicy(j: Json): Option<PolicySnapshot> {
    if !j.Object? then None
    else
      var severity :- ReadField(j.members, "max_settle_severity", ReadSeverity);
      var executed :- ReadField(j.members, "require_executed", ReadBool);
      var recovered :- ReadField(j.members, "require_recovered_facts", ReadBool);
      Some(PolicySnapshot(severity, executed, recovered))
  }

  function ReadDecision(j: Json): Option<LiquetDecision> {
    if !j.Object? then None
    else
      var tag :- ReadField(j.members, "decision", ReadString);
      if tag == "settle" then
        if Find(j.members, "caveats").Missing? then Some(Settle([]))
        else
          var caveats :- ReadField(j.members, "caveats", ReadStrings);
          Some(Settle(caveats))
      else if tag == "hold" then
        var reasons :- ReadField(j.members, "reasons", ReadStrings);
        Some(Hold(reasons))
      else None
  }

  function ReadLegs(j: Json): Option<seq<LegDigest>> {
    ReadList(ReadLeg, j)
  }

  function ReadBinding(j: Json): Option<DecisionBinding> {
    if !j.Object? then None
    else
      var settlementId :- ReadField(j.members, "settlement_id", ReadString);
      var claimHash :- ReadField(j.members, "claim_hash", ReadString);
      var legs :- ReadField(j.members, "legs", ReadLegs);
      var reconcile :- ReadField(j.members, "reconcile", ReadReconcile);
      var verdict :- ReadField(j.members, "invariant", ReadInvariant);
      var policy :- ReadField(j.members, "policy", ReadPolicy);
      var decision :- ReadField(j.members, "decision", ReadDecision);
      Some(DecisionBinding(settlementId, claimHash, legs, reconcile, verdict, policy, decision))
  }

  function ReadSigned(j: Json): Option<SignedDecision> {
    if !j.Object? then None
    else
      var binding :- ReadField(j.members, "binding", ReadBinding);
      var signer :- ReadField(j.members, "signer", ReadString);
      var signature :- ReadField(j.members, "signature", ReadString);
      Some(SignedDecision(binding, signer, signature))
  }

  // ---------- Text ----------

  /** `serde_json::to_vec` of a binding, before UTF-8. */
  function BindingText(b: DecisionBinding): string {
    Print(WriteBinding(b))
  }

  /** `evidence_bundle_json`. */
  function EvidenceBundle(s: SignedDecision): string {
    Print(WriteSigned(s))
  }

  /** `serde_json::from_str::<SignedDecision>`. */
  function ParseBundle(text: string): Option<SignedDecision> {
    var j :- ParseDocument(text);
    ReadSigned(j)
  }

  // ---------- Reading undoes writing ----------

  predicate DistinctKeys(ms: seq<Member>) {
    forall i, j :: 0 <= i < j < |ms| ==> ms[i].key != ms[j].key
  }

  lemma {:induction false} FindAbsent(ms: seq<Member>, key: string)
    requires forall i :: 0 <= i < |ms| ==> ms[i].key != key
    ensures Find(ms, key) == Missing
  {
    if |ms| > 0 {
      FindAbsent(ms[1..], key);
    }
  }

  /** With distinct keys every member is found wherever it stands. */
  lemma {:induction false} FindAt(ms: seq<Member>, k: nat)
    requires k < |ms| && DistinctKeys(ms)
    ensures Find(ms, ms[k].key) == Found(ms[k].value)
  {
    if k == 0 {
      FindAbsent(ms[1..], ms[0].key);
    } else {
      FindAt(ms[1..], k - 1);
    }
  }

  lemma {:induction false} ListRoundTrip<T>(write: T -> Json, read: Json -> Option<T>, xs: seq<T>)
    requires forall x <- xs :: read(write(x)) == Some(x)
    ensures ReadList(read, WriteList(write, xs)) == Some(xs)
  {
    if |xs| > 0 {
      ListRoundTrip(write, read, xs[1..]);
      assert [xs[0]] + xs[1..] == xs;
    }
  }

  lemma StringsRoundTrip(xs: seq<string>)
    ensures ReadStrings(WriteList(WriteString, xs)) == Some(xs)
  {
    ListRoundTrip(WriteString, ReadString, xs);
  }

  lemma SeverityRoundTrip(s: Severity)
    ensures ReadSeverity(WriteSeverity(s)) == Some(s)
  {
    assert "green" != "red" && "info" != "red";
  }

  lemma LegRoundTrip(l: LegDigest)
    ensures ReadLeg(WriteLeg(l)) == Some(l)
  {
    var ms := WriteLeg(l).members;
    assert |"vm"| == 2 && |"executed"| == 8 && |"poststate_digest"| == 16;
    FindAt(ms, 0);
    FindAt(ms, 1);
    FindAt(ms, 2);
    assert 'e' == "evm"[0] && 's' == "svm"[0];
  }

  lemma FindingKeysDistinct(f: Finding)
    ensures DistinctKeys(WriteFinding(f).members)
    ensures f.account.None? ==> forall m <- WriteFinding(f).members :: m.key != "account"
  {
    assert |"severity"| == 8 && |"code"| == 4 && |"account"| == 7 && |"message"| == 7;
    assert "account"[0] == 'a' && "message"[0] == 'm';
  }

  lemma FindingRoundTrip(f: Finding)
    ensures ReadFinding(WriteFinding(f)) == Some(f)
  {
    hide Find;
    var ms := WriteFinding(f).members;
    FindingKeysDistinct(f);
    SeverityRoundTrip(f.severity);
    FindAt(ms, 0);
    FindAt(ms, 1);
    FindAt(ms, 2);
    if f.account.None? {
      FindAbsent(ms, "account");
    } else {
      FindAt(ms, 3);
    }
  }

  lemma InvariantRoundTrip(v: InvariantVerdict)
    ensures ReadInvariant(WriteInvariant(v)) == Some(v)
  {
    var ms := WriteInvariant(v).members;
    assert |"level"| == 5 && |"findings"| == 8;
    SeverityRoundTrip(v.level);
    forall f <- v.findings ensures ReadFinding(WriteFinding(f)) == Some(f) {
      FindingRoundTrip(f);
    }
    ListRoundTrip(WriteFinding, ReadFinding, v.findings);
    FindAt(ms, 0);
    FindAt(ms, 1);
  }

  lemma PolicyRoundTrip(p: PolicySnapshot)
    ensures ReadPolicy(WritePolicy(p)) == Some(p)
  {
    var ms := WritePolicy(p).members;
    assert |"max_settle_severity"| == 19 && |"require_executed"| == 16 && |"require_recovered_facts"| == 23;
    SeverityRoundTrip(p.maxSettleSeverity);
    FindAt(ms, 0);
    FindAt(ms, 1);
    FindAt(ms, 2);
  }

  lemma DecisionRoundTrip(d: LiquetDecision)
    ensures ReadDecision(WriteDecision(d)) == Some(d)
  {
    var ms := WriteDecision(d).members;
    assert |"decision"| == 8 && |"caveats"| == 7 && |"reasons"| == 7 && |"settle"| == 6 && |"hold"| == 4;
    FindAt(ms, 0);
    match d {
      case Settle(caveats) =>
        StringsRoundTrip(caveats);
        if |caveats| == 0 {
          FindAbsent(ms, "caveats");
        } else {
          FindAt(ms, 1);
        }
      case Hold(reasons) =>
        StringsRoundTrip(reasons);
        FindAt(ms, 1);
    }
  }

  lemma ReconcileRoundTrip(r: ReconcileVerdict)
    ensures ReadReconcile(WriteReconcile(r)) == Some(r)
  {
    assert |"matched"| == 7 && |"half_open"| == 9 && |"mismatch"| == 8 && |"unverifiable"| == 12;
  }

  lemma BindingKeysDistinct(b: DecisionBinding)
    ensures DistinctKeys(WriteBinding(b).members)
  {
    assert |"settlement_id"| == 13 && |"claim_hash"| == 10 && |"legs"| == 4 && |"reconcile"| == 9;
    assert |"invariant"| == 9 && |"policy"| == 6 && |"decision"| == 8;
    assert "reconcile"[0] == 'r' && "invariant"[0] == 'i';
  }

  lemma FieldRoundTrip<T>(ms: seq<Member>, k: nat, read: Json -> Option<T>, x: T)
    requires k < |ms| && DistinctKeys(ms)
    requires read(ms[k].value) == Some(x)
    ensures ReadField(ms, ms[k].key, read) == Some(x)
  {
    FindAt(ms, k);
  }

  lemma LegsRoundTrip(legs: seq<LegDigest>)
    ensures ReadLegs(WriteList(WriteLeg, legs)) == Some(legs)
  {
    forall l <- legs ensures ReadLeg(WriteLeg(l)) == Some(l) {
      LegRoundTrip(l);
    }
    ListRoundTrip(WriteLeg, ReadLeg, legs);
  }

  lemma BindingRoundTrip(b: DecisionBinding)
    ensures ReadBinding(WriteBinding(b)) == Some(b)
  {
    var ms := WriteBinding(b).members;
    BindingKeysDistinct(b);
    LegsRoundTrip(b.legs);
    ReconcileRoundTrip(b.reconcile);
    InvariantRoundTrip(b.invariantVerdict);
    PolicyRoundTrip(b.policy);
    DecisionRoundTrip(b.decision);
    FieldRoundTrip(ms, 0, ReadString, b.settlementId);
    FieldRoundTrip(ms, 1, ReadString, b.claimHash);
    FieldRoundTrip(ms, 2, ReadLegs, b.legs);
    FieldRoundTrip(ms, 3, ReadReconcile, b.reconcile);
    FieldRoundTrip(ms, 4, ReadInvariant, b.invariantVerdict);
    FieldRoundTrip(ms, 5, ReadPolicy, b.policy);
    FieldRoundTrip(ms, 6, ReadDecision, b.decision);
  }

  lemma SignedRoundTrip(s: SignedDecision)
    ensures ReadSigned(WriteSigned(s)) == Some(s)
  {
    var ms := WriteSigned(s).members;
    assert |"binding"| == 7 && |"signer"| == 6 && |"signature"| == 9;
    BindingRoundTrip(s.binding);
    FindAt(ms, 0);
    FindAt(ms, 1);
    FindAt(ms, 2);
  }

  /** Parsing an evidence bundle gives back the signed decision it was printed from. */
  lemma BundleRoundTrip(s: SignedDecision)
    ensures ParseBundle(EvidenceBundle(s)) == Some(s)
  {
    Grammar.DocumentRoundTrip(WriteSigned(s));
    SignedRoundTrip(s);
  }

  /** Different bindings print to different text. */
  lemma BindingTextInjective(a: DecisionBinding, b: DecisionBinding)
    requires BindingText(a) == BindingText(b)
    ensures a == b
  {
    Grammar.DocumentRoundTrip(WriteBinding(a));
    Grammar.DocumentRoundTrip(WriteBinding(b));
    BindingRoundTrip(a);
    BindingRoundTrip(b);
  }
}
