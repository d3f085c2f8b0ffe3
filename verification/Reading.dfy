/**
  What a document says, told without a reader: which text is taken for which signed decision. A field
  counts if its name occurs exactly once, wherever it stands and whatever else stands there.
 */
module Reading {
  import opened Wrappers
  import opened Json
  import opened Seam
  import opened Gate
  import opened Binding
  import opened Codec
  import opened Leniency
  import opened Grammar

  /** The one member with this name has this value. */
  predicate Single(ms: seq<Member>, key: string, value: Json) {
    Occurrences(ms, key) == 1 && Member(key, value) in ms
  }

  lemma FoundIsSingle(ms: seq<Member>, key: string, value: Json)
    ensures Find(ms, key) == Found(value) <==> Single(ms, key, value)
  {
    FindCounts(ms, key);
    if Single(ms, key, value) {
      SingleOccurrence(ms, Member(key, value), Member(key, Find(ms, key).value));
    }
  }

  /** `read` takes exactly `value` for `x`. */
  ghost predicate Takes<T>(read: Json -> Option<T>, x: T, value: Json) {
    forall j :: read(j) == Some(x) <==> j == value
  }

  lemma FieldSays<T>(ms: seq<Member>, key: string, read: Json -> Option<T>, x: T, value: Json)
    requires Takes(read, x, value)
    ensures ReadField(ms, key, read) == Some(x) <==> Single(ms, key, value)
  {
    FoundIsSingle(ms, key, value);
    if ReadField(ms, key, read) == Some(x) {
      assert Find(ms, key).Found? && read(Find(ms, key).value) == Some(x);
    }
  }

  function Strings(xs: seq<string>): Json {
    Array(seq(|xs|, i requires 0 <= i < |xs| => String(xs[i])))
  }

  // ---------- What each record says ----------

  predicate SaysLeg(j: Json, l: LegDigest) {
    && j.Object?
    && Single(j.members, "vm", WriteVm(l.vm))
    && Single(j.members, "executed", Bool(l.executed))
    && Single(j.members, "poststate_digest", String(l.poststateDigest))
  }

  /** No account is said by leaving the field out or by `null`. */
  predicate SaysFinding(j: Json, f: Finding) {
    && j.Object?
    && Single(j.members, "severity", WriteSeverity(f.severity))
    && Single(j.members, "code", String(f.code))
    && (match f.account
        case Some(a) => Single(j.members, "account", String(a))
        case None => Occurrences(j.members, "account") == 0 || Single(j.members, "account", Null))
    && Single(j.members, "message", String(f.message))
  }

  /** Element by element. */
  ghost predicate SaysEach<T(!new)>(says: (Json, T) -> bool, j: Json, xs: seq<T>) {
    j.Array? && |j.elements| == |xs| && forall i :: 0 <= i < |xs| ==> says(j.elements[i], xs[i])
  }

  ghost predicate SaysInvariant(j: Json, v: InvariantVerdict) {
    && j.Object?
    && Single(j.members, "level", WriteSeverity(v.level))
    && exists fs :: Single(j.members, "findings", fs) && SaysEach(SaysFinding, fs, v.findings)
  }

  predicate SaysPolicy(j: Json, p: PolicySnapshot) {
    && j.Object?
    && Single(j.members, "max_settle_severity", WriteSeverity(p.maxSettleSeverity))
    && Single(j.members, "require_executed", Bool(p.requireExecuted))
    && Single(j.members, "require_recovered_facts", Bool(p.requireRecoveredFacts))
  }

  /** No caveats is said by leaving the field out as well. */
  predicate SaysDecision(j: Json, d: LiquetDecision) {
    j.Object? &&
    match d
    case Settle(caveats) =>
      && Single(j.members, "decision", String("settle"))
      && (Single(j.members, "caveats", Strings(caveats)) || (caveats == [] && Occurrences(j.members, "caveats") == 0))
    case Hold(reasons) =>
      && Single(j.members, "decision", String("hold"))
      && Single(j.members, "reasons", Strings(reasons))
  }

  ghost predicate SaysBinding(j: Json, b: DecisionBinding) {
    && j.Object?
    && Single(j.members, "settlement_id", String(b.settlementId))
    && Single(j.members, "claim_hash", String(b.claimHash))
    && (exists ls :: Single(j.members, "legs", ls) && SaysEach(SaysLeg, ls, b.legs))
    && Single(j.members, "reconcile", WriteReconcile(b.reconcile))
    && (exists v :: Single(j.members, "invariant", v) && SaysInvariant(v, b.invariantVerdict))
    && (exists p :: Single(j.members, "policy", p) && SaysPolicy(p, b.policy))
    && (exists d :: Single(j.members, "decision", d) && SaysDecision(d, b.decision))
  }

  ghost predicate SaysSigned(j: Json, s: SignedDecision) {
    && j.Object?
    && (exists b :: Single(j.members, "binding", b) && SaysBinding(b, s.binding))
    && Single(j.members, "signer", String(s.signer))
    && Single(j.members, "signature", String(s.signature))
  }

  // ---------- The readers read exactly that ----------

  lemma WordsTaken()
    ensures forall s :: Takes(ReadString, s, String(s))
    ensures forall b :: Takes(ReadBool, b, Bool(b))
  {
  }

  lemma VmTaken(vm: Vm)
    ensures Takes(ReadVm, vm, WriteVm(vm))
  {
    assert 'e' == "evm"[0] && 's' == "svm"[0];
  }

  lemma SeverityTaken(s: Severity)
    ensures Takes(ReadSeverity, s, WriteSeverity(s))
  {
    forall j ensures ReadSeverity(j) == Some(s) <==> j == WriteSeverity(s) {
      SeverityRoundTrip(s);
    }
  }

  lemma ReconcileTaken(r: ReconcileVerdict)
    ensures Takes(ReadReconcile, r, WriteReconcile(r))
  {
    forall j ensures ReadReconcile(j) == Some(r) <==> j == WriteReconcile(r) {
      ReconcileRoundTrip(r);
    }
  }

  lemma {:induction false} StringsRead(es: seq<Json>, xs: seq<string>)
    ensures ReadAll(ReadString, es) == Some(xs) <==> Array(es) == Strings(xs)
  {
    if |es| > 0 && |xs| > 0 {
      StringsRead(es[1..], xs[1..]);
      var tail := seq(|xs[1..]|, i requires 0 <= i < |xs[1..]| => String(xs[1..][i]));
      assert Strings(xs).elements == [String(xs[0])] + tail;
      assert xs == [xs[0]] + xs[1..] && es == [es[0]] + es[1..];
      assert es == Strings(xs).elements ==> es[0] == String(xs[0]) && es[1..] == tail;
    }
  }

  lemma StringsTaken(xs: seq<string>)
    ensures Takes(ReadStrings, xs, Strings(xs))
  {
    forall j ensures ReadStrings(j) == Some(xs) <==> j == Strings(xs) {
      if j.Array? {
        StringsRead(j.elements, xs);
      }
    }
  }

  lemma {:induction false} EachRead<T(!new)>(
    read: Json -> Option<T>, says: (Json, T) -> bool, es: seq<Json>, xs: seq<T>)
    requires forall j, x :: read(j) == Some(x) <==> says(j, x)
    ensures ReadAll(read, es) == Some(xs) <==> SaysEach(says, Array(es), xs)
  {
    if |es| > 0 && |xs| > 0 {
      EachRead(read, says, es[1..], xs[1..]);
      assert xs == [xs[0]] + xs[1..];
      assert SaysEach(says, Array(es), xs) <==> says(es[0], xs[0]) && SaysEach(says, Array(es[1..]), xs[1..]) by {
        if says(es[0], xs[0]) && SaysEach(says, Array(es[1..]), xs[1..]) {
          forall i | 0 <= i < |xs| && |es| == |xs| ensures says(es[i], xs[i]) {
            assert i > 0 ==> es[i] == es[1..][i - 1] && xs[i] == xs[1..][i - 1];
          }
        }
      }
    }
  }

  lemma LegRead(j: Json, l: LegDigest)
    ensures ReadLeg(j) == Some(l) <==> SaysLeg(j, l)
  {
    hide Find; hide Single; hide WriteVm; hide ReadVm; hide ReadField;
    if j.Object? {
      WordsTaken();
      VmTaken(l.vm);
      FieldSays(j.members, "vm", ReadVm, l.vm, WriteVm(l.vm));
      FieldSays(j.members, "executed", ReadBool, l.executed, Bool(l.executed));
      FieldSays(j.members, "poststate_digest", ReadString, l.poststateDigest, String(l.poststateDigest));
    }
  }

  lemma AccountRead(ms: seq<Member>, account: Option<string>)
    ensures ReadOptional(ms, "account") == Some(account) <==>
      match account
      case Some(a) => Single(ms, "account", String(a))
      case None => Occurrences(ms, "account") == 0 || Single(ms, "account", Null)
  {
    FindCounts(ms, "account");
    FoundIsSingle(ms, "account", Null);
    if account.Some? {
      FoundIsSingle(ms, "account", String(account.value));
    }
  }

  lemma FindingRead(j: Json, f: Finding)
    ensures ReadFinding(j) == Some(f) <==> SaysFinding(j, f)
  {
    hide Find; hide Single; hide WriteSeverity; hide ReadSeverity; hide ReadField; hide ReadOptional; hide Occurrences;
    if j.Object? {
      WordsTaken();
      SeverityTaken(f.severity);
      FieldSays(j.members, "severity", ReadSeverity, f.severity, WriteSeverity(f.severity));
      FieldSays(j.members, "code", ReadString, f.code, String(f.code));
      AccountRead(j.members, f.account);
      FieldSays(j.members, "message", ReadString, f.message, String(f.message));
    }
  }

  /** A field with a record or a list in it. */
  lemma PartSays<T(!new)>(ms: seq<Member>, key: string, read: Json -> Option<T>, says: (Json, T) -> bool, x: T)
    requires forall j :: read(j) == Some(x) <==> says(j, x)
    ensures ReadField(ms, key, read) == Some(x) <==> exists j :: Single(ms, key, j) && says(j, x)
  {
    if ReadField(ms, key, read) == Some(x) {
      var j := Find(ms, key).value;
      FoundIsSingle(ms, key, j);
      assert says(j, x);
    }
    if j :| Single(ms, key, j) && says(j, x) {
      FoundIsSingle(ms, key, j);
    }
  }

  lemma InvariantRead(j: Json, v: InvariantVerdict)
    ensures ReadInvariant(j) == Some(v) <==> SaysInvariant(j, v)
  {
    hide Find; hide Single; hide WriteSeverity; hide ReadSeverity; hide ReadField;
    if j.Object? {
      SeverityTaken(v.level);
      FieldSays(j.members, "level", ReadSeverity, v.level, WriteSeverity(v.level));
      forall fs ensures ReadFindings(fs) == Some(v.findings) <==> SaysEach(SaysFinding, fs, v.findings) {
        FindingsRead(fs, v.findings);
      }
      PartSays(j.members, "findings", ReadFindings, (k, fs) => SaysEach(SaysFinding, k, fs), v.findings);
    }
  }

  lemma FindingsRead(j: Json, fs: seq<Finding>)
    ensures ReadFindings(j) == Some(fs) <==> SaysEach(SaysFinding, j, fs)
  {
    hide ReadFinding; hide SaysFinding;
    if j.Array? {
      forall k, f ensures ReadFinding(k) == Some(f) <==> SaysFinding(k, f) {
        FindingRead(k, f);
      }
      EachRead(ReadFinding, SaysFinding, j.elements, fs);
    }
  }

  lemma LegsRead(j: Json, ls: seq<LegDigest>)
    ensures ReadLegs(j) == Some(ls) <==> SaysEach(SaysLeg, j, ls)
  {
    hide ReadLeg; hide SaysLeg;
    if j.Array? {
      forall k, l ensures ReadLeg(k) == Some(l) <==> SaysLeg(k, l) {
        LegRead(k, l);
      }
      EachRead(ReadLeg, SaysLeg, j.elements, ls);
    }
  }

  lemma PolicyRead(j: Json, p: PolicySnapshot)
    ensures ReadPolicy(j) == Some(p) <==> SaysPolicy(j, p)
  {
    hide Find; hide Single; hide WriteSeverity; hide ReadSeverity; hide ReadField;
    if j.Object? {
      WordsTaken();
      SeverityTaken(p.maxSettleSeverity);
      FieldSays(
        j.members, "max_settle_severity", ReadSeverity, p.maxSettleSeverity, WriteSeverity(p.maxSettleSeverity));
      FieldSays(j.members, "require_executed", ReadBool, p.requireExecuted, Bool(p.requireExecuted));
      FieldSays(
        j.members, "require_recovered_facts", ReadBool, p.requireRecoveredFacts, Bool(p.requireRecoveredFacts));
    }
  }

  lemma DecisionRead(j: Json, d: LiquetDecision)
    ensures ReadDecision(j) == Some(d) <==> SaysDecision(j, d)
  {
    hide Find; hide Single; hide ReadField; hide ReadStrings; hide Strings; hide Occurrences;
    if j.Object? {
      var tag, texts := if d.Settle? then "settle" else "hold", if d.Settle? then d.caveats else d.reasons;
      WordsTaken();
      FieldSays(j.members, "decision", ReadString, tag, String(tag));
      StringsTaken(texts);
      FieldSays(j.members, "caveats", ReadStrings, texts, Strings(texts));
      FieldSays(j.members, "reasons", ReadStrings, texts, Strings(texts));
      FindCounts(j.members, "caveats");
      OnceOrNot(j.members, "caveats", Strings(texts));
    }
  }

  lemma OnceOrNot(ms: seq<Member>, key: string, value: Json)
    ensures Occurrences(ms, key) == 0 ==> !Single(ms, key, value)
  {
  }

  lemma BindingRead(j: Json, b: DecisionBinding)
    ensures ReadBinding(j) == Some(b) <==> SaysBinding(j, b)
  {
    hide Find; hide Single; hide ReadField; hide WriteReconcile; hide ReadReconcile;
    hide ReadLegs; hide ReadInvariant; hide ReadPolicy; hide ReadDecision;
    hide SaysEach; hide SaysInvariant; hide SaysPolicy; hide SaysDecision;
    if j.Object? {
      WordsTaken();
      ReconcileTaken(b.reconcile);
      FieldSays(j.members, "settlement_id", ReadString, b.settlementId, String(b.settlementId));
      FieldSays(j.members, "claim_hash", ReadString, b.claimHash, String(b.claimHash));
      FieldSays(j.members, "reconcile", ReadReconcile, b.reconcile, WriteReconcile(b.reconcile));
      forall k ensures ReadLegs(k) == Some(b.legs) <==> SaysEach(SaysLeg, k, b.legs) {
        LegsRead(k, b.legs);
      }
      forall k ensures ReadInvariant(k) == Some(b.invariantVerdict) <==> SaysInvariant(k, b.invariantVerdict) {
        InvariantRead(k, b.invariantVerdict);
      }
      forall k ensures ReadPolicy(k) == Some(b.policy) <==> SaysPolicy(k, b.policy) {
        PolicyRead(k, b.policy);
      }
      forall k ensures ReadDecision(k) == Some(b.decision) <==> SaysDecision(k, b.decision) {
        DecisionRead(k, b.decision);
      }
      PartSays(j.members, "legs", ReadLegs, (k, ls) => SaysEach(SaysLeg, k, ls), b.legs);
      PartSays(j.members, "invariant", ReadInvariant, SaysInvariant, b.invariantVerdict);
      PartSays(j.members, "policy", ReadPolicy, SaysPolicy, b.policy);
      PartSays(j.members, "decision", ReadDecision, SaysDecision, b.decision);
    }
  }

  lemma SignedRead(j: Json, s: SignedDecision)
    ensures ReadSigned(j) == Some(s) <==> SaysSigned(j, s)
  {
    hide Find; hide Single; hide ReadField; hide ReadBinding; hide SaysBinding;
    if j.Object? {
      WordsTaken();
      forall k ensures ReadBinding(k) == Some(s.binding) <==> SaysBinding(k, s.binding) {
        BindingRead(k, s.binding);
      }
      PartSays(j.members, "binding", ReadBinding, SaysBinding, s.binding);
      FieldSays(j.members, "signer", ReadString, s.signer, String(s.signer));
      FieldSays(j.members, "signature", ReadString, s.signature, String(s.signature));
    }
  }

  /**
    The whole reader, for every text: it is taken for a signed decision exactly if it spells a document
    that says it. So a text that spells none, or one that says no signed decision, is refused.
   */
  lemma BundleExact(text: string, s: SignedDecision)
    ensures ParseBundle(text) == Some(s) <==> exists j :: Spaced(text, j) && SaysSigned(j, s)
  {
    hide SaysSigned; hide Spaced; hide ParseDocument; hide ReadSigned;
    if ParseBundle(text) == Some(s) {
      var j := ParseDocument(text).value;
      DocumentExact(text, j);
      SignedRead(j, s);
    }
    if j :| Spaced(text, j) && SaysSigned(j, s) {
      DocumentExact(text, j);
      SignedRead(j, s);
    }
  }

  /** `text` is a document that says a signed decision. */
  ghost predicate IsBundle(text: string) {
    exists j, s :: Spaced(text, j) && SaysSigned(j, s)
  }

  lemma RefusedExactly(text: string)
    ensures ParseBundle(text) == None <==> !IsBundle(text)
  {
    hide SaysSigned; hide Spaced; hide ParseBundle;
    if ParseBundle(text).Some? {
      BundleExact(text, ParseBundle(text).value);
    }
    if j, s :| Spaced(text, j) && SaysSigned(j, s) {
      BundleExact(text, s);
    }
  }
}
