/**
  The wire form of a binding, as text. Reading is indifferent to the order of the fields, so that
  parsing undoes printing does not fix the bytes that are hashed; the statements here do.
 */
module Layout {
  import opened Wrappers
  import opened Text
  import opened Json
  import opened Seam
  import opened Gate
  import opened Binding
  import opened Codec

  // ---------- The form of a record ----------

  /** A field: its name in quotes, a colon, its value. */
  function Field(name: string, value: string): string {
    "\"" + name + "\":" + value
  }

  function Quoted(word: string): string {
    "\"" + word + "\""
  }

  /** Fields between braces, with commas and nothing else between them. */
  function Record(fields: seq<string>): string {
    "{" + (Join(fields, ",") + "}")
  }

  function List(elements: seq<string>): string {
    "[" + (Join(elements, ",") + "]")
  }

  function Flag(b: bool): string {
    if b then "true" else "false"
  }

  // ---------- Printing has that form ----------

  predicate Plain(s: string) {
    forall i :: 0 <= i < |s| ==> s[i] >= ' ' && s[i] != '\"' && s[i] != '\\'
  }

  /** Text without quotes, backslashes and control characters is printed as it stands. */
  lemma {:induction false} PlainUnescaped(s: string)
    requires Plain(s)
    ensures Escape(s) == s
  {
    if |s| > 0 {
      PlainUnescaped(s[1..]);
      assert [s[0]] + s[1..] == s;
    }
  }

  lemma WordText(s: string)
    requires Plain(s)
    ensures Print(String(s)) == Quoted(s)
  {
    PlainUnescaped(s);
  }

  function Fields(ms: seq<Member>): seq<string> {
    seq(|ms|, i requires 0 <= i < |ms| => Field(ms[i].key, Print(ms[i].value)))
  }

  predicate PlainKeys(ms: seq<Member>) {
    forall i :: 0 <= i < |ms| ==> Plain(ms[i].key)
  }

  lemma JoinCons(x: string, xs: seq<string>)
    requires |xs| > 0
    ensures Join([x] + xs, ",") == x + ("," + Join(xs, ","))
  {
    assert ([x] + xs)[1..] == xs;
    assert x + "," + Join(xs, ",") == x + ("," + Join(xs, ","));
  }

  lemma {:induction false} MembersText(ms: seq<Member>)
    requires PlainKeys(ms)
    ensures PrintMembers(ms) == Join(Fields(ms), ",")
  {
    if |ms| > 0 {
      PlainUnescaped(ms[0].key);
      assert PrintMember(ms[0]) == Field(ms[0].key, Print(ms[0].value));
      MembersText(ms[1..]);
      if |ms| > 1 {
        assert Fields(ms) == [Field(ms[0].key, Print(ms[0].value))] + Fields(ms[1..]);
        JoinCons(Field(ms[0].key, Print(ms[0].value)), Fields(ms[1..]));
      }
    }
  }

  lemma ObjectText(j: Json)
    requires j.Object? && PlainKeys(j.members)
    ensures Print(j) == Record(Fields(j.members))
  {
    MembersText(j.members);
  }

  function Texts<T>(write: T -> Json, xs: seq<T>): (ts: seq<string>)
    ensures |ts| == |xs|
    ensures forall i :: 0 <= i < |xs| ==> ts[i] == Print(write(xs[i]))
  {
    seq(|xs|, i requires 0 <= i < |xs| => Print(write(xs[i])))
  }

  lemma {:induction false} ElementsText<T>(write: T -> Json, xs: seq<T>)
    ensures PrintElements(WriteAll(write, xs)) == Join(Texts(write, xs), ",")
  {
    if |xs| > 0 {
      ElementsText(write, xs[1..]);
      assert WriteAll(write, xs)[1..] == WriteAll(write, xs[1..]);
      assert Texts(write, xs) == [Print(write(xs[0]))] + Texts(write, xs[1..]);
      if |xs| > 1 {
        JoinCons(Print(write(xs[0])), Texts(write, xs[1..]));
      }
    }
  }

  lemma ListText<T>(write: T -> Json, xs: seq<T>)
    ensures Print(WriteList(write, xs)) == List(Texts(write, xs))
  {
    ElementsText(write, xs);
  }

  // ---------- The records of a binding ----------

  function LegFields(l: LegDigest): seq<string> {
    [Field("vm", Quoted(VmWord(l.vm))),
     Field("executed", Flag(l.executed)),
     Field("poststate_digest", PrintString(l.poststateDigest))]
  }

  function LegTexts(legs: seq<LegDigest>): seq<string> {
    seq(|legs|, i requires 0 <= i < |legs| => Record(LegFields(legs[i])))
  }

  /** A finding without an account has no `account` field. */
  function FindingFields(f: Finding): seq<string> {
    [Field("severity", Quoted(SeverityWord(f.severity))), Field("code", PrintString(f.code))]
    + (if f.account.None? then [] else [Field("account", PrintString(f.account.value))])
    + [Field("message", PrintString(f.message))]
  }

  function FindingTexts(fs: seq<Finding>): seq<string> {
    seq(|fs|, i requires 0 <= i < |fs| => Record(FindingFields(fs[i])))
  }

  function InvariantFields(v: InvariantVerdict): seq<string> {
    [Field("level", Quoted(SeverityWord(v.level))),
     Field("findings", List(FindingTexts(v.findings)))]
  }

  function PolicyFields(p: PolicySnapshot): seq<string> {
    [Field("max_settle_severity", Quoted(SeverityWord(p.maxSettleSeverity))),
     Field("require_executed", Flag(p.requireExecuted)),
     Field("require_recovered_facts", Flag(p.requireRecoveredFacts))]
  }

  function StringList(xs: seq<string>): string {
    List(seq(|xs|, i requires 0 <= i < |xs| => PrintString(xs[i])))
  }

  /** The tag comes first, and a settlement without caveats prints the tag alone. */
  function DecisionFields(d: LiquetDecision): seq<string> {
    match d
    case Settle(caveats) =>
      [Field("decision", Quoted("settle"))] + (if caveats == [] then [] else [Field("caveats", StringList(caveats))])
    case Hold(reasons) =>
      [Field("decision", Quoted("hold")), Field("reasons", StringList(reasons))]
  }

  function BindingFields(b: DecisionBinding): seq<string> {
    [Field("settlement_id", PrintString(b.settlementId)),
     Field("claim_hash", PrintString(b.claimHash)),
     Field("legs", List(LegTexts(b.legs))),
     Field("reconcile", Quoted(ReconcileWord(b.reconcile))),
     Field("invariant", Record(InvariantFields(b.invariantVerdict))),
     Field("policy", Record(PolicyFields(b.policy))),
     Field("decision", Record(DecisionFields(b.decision)))]
  }

  lemma SeverityLayout(s: Severity)
    ensures Print(WriteSeverity(s)) == Quoted(SeverityWord(s))
  {
    hide Escape;
    WordText(SeverityWord(s));
  }

  lemma ReconcileLayout(r: ReconcileVerdict)
    ensures Print(WriteReconcile(r)) == Quoted(ReconcileWord(r))
  {
    hide Escape;
    WordText(ReconcileWord(r));
  }

  lemma LegKeysPlain(l: LegDigest)
    ensures PlainKeys(WriteLeg(l).members)
    ensures Plain(WriteVm(l.vm).s)
  {
    assert Plain("vm") && Plain("executed") && Plain("poststate_digest");
  }

  lemma LegLayout(l: LegDigest)
    ensures Print(WriteLeg(l)) == Record(LegFields(l))
  {
    hide Escape; hide PrintMembers; hide Record; hide Field; hide Plain;
    LegKeysPlain(l);
    ObjectText(WriteLeg(l));
    WordText(WriteVm(l.vm).s);
    assert Fields(WriteLeg(l).members) == LegFields(l);
  }

  lemma FindingKeysPlain(f: Finding)
    ensures PlainKeys(WriteFinding(f).members)
  {
    assert Plain("severity") && Plain("code") && Plain("account") && Plain("message");
  }

  lemma FindingLayout(f: Finding)
    ensures Print(WriteFinding(f)) == Record(FindingFields(f))
  {
    hide Escape; hide PrintMembers; hide Record; hide Field; hide Plain;
    FindingKeysPlain(f);
    ObjectText(WriteFinding(f));
    SeverityLayout(f.severity);
    assert Fields(WriteFinding(f).members) == FindingFields(f);
  }

  lemma InvariantLayout(v: InvariantVerdict)
    ensures Print(WriteInvariant(v)) == Record(InvariantFields(v))
  {
    hide Escape; hide PrintMembers; hide PrintElements; hide Record; hide List; hide Field; hide WriteFinding;
    ObjectText(WriteInvariant(v));
    SeverityLayout(v.level);
    ListText(WriteFinding, v.findings);
    var texts := Texts(WriteFinding, v.findings);
    forall i | 0 <= i < |v.findings| ensures texts[i] == Record(FindingFields(v.findings[i])) {
      FindingLayout(v.findings[i]);
    }
    assert texts == FindingTexts(v.findings);
    assert Fields(WriteInvariant(v).members) == InvariantFields(v);
  }

  lemma PolicyKeysPlain(p: PolicySnapshot)
    ensures PlainKeys(WritePolicy(p).members)
  {
    assert Plain("max_settle_severity") && Plain("require_executed") && Plain("require_recovered_facts");
  }

  lemma PolicyLayout(p: PolicySnapshot)
    ensures Print(WritePolicy(p)) == Record(PolicyFields(p))
  {
    hide Escape; hide PrintMembers; hide Record; hide Field; hide Plain;
    PolicyKeysPlain(p);
    ObjectText(WritePolicy(p));
    SeverityLayout(p.maxSettleSeverity);
    assert Fields(WritePolicy(p).members) == PolicyFields(p);
  }

  lemma StringListText(xs: seq<string>)
    ensures Print(WriteList(WriteString, xs)) == StringList(xs)
  {
    hide Escape; hide PrintElements; hide List;
    ListText(WriteString, xs);
    assert Texts(WriteString, xs) == seq(|xs|, i requires 0 <= i < |xs| => PrintString(xs[i]));
  }

  lemma DecisionKeysPlain(d: LiquetDecision)
    ensures PlainKeys(WriteDecision(d).members)
    ensures Plain("settle") && Plain("hold")
  {
    assert Plain("decision") && Plain("caveats") && Plain("reasons");
  }

  lemma DecisionLayout(d: LiquetDecision)
    ensures Print(WriteDecision(d)) == Record(DecisionFields(d))
  {
    hide Escape; hide PrintMembers; hide PrintElements; hide Record; hide StringList; hide Field; hide WriteList;
    hide Plain;
    DecisionKeysPlain(d);
    ObjectText(WriteDecision(d));
    WordText("settle");
    WordText("hold");
    StringListText(if d.Settle? then d.caveats else d.reasons);
    assert Fields(WriteDecision(d).members) == DecisionFields(d);
  }

  lemma BindingNamesPlain()
    ensures Plain("settlement_id") && Plain("claim_hash") && Plain("legs") && Plain("reconcile")
    ensures Plain("invariant") && Plain("policy") && Plain("decision")
  {
  }

  lemma BindingKeysPlain(b: DecisionBinding)
    ensures PlainKeys(WriteBinding(b).members)
  {
    hide Plain;
    BindingNamesPlain();
  }

  lemma LegsLayout(legs: seq<LegDigest>)
    ensures Print(WriteList(WriteLeg, legs)) == List(LegTexts(legs))
  {
    hide Escape; hide PrintElements; hide List; hide Record; hide WriteLeg;
    ListText(WriteLeg, legs);
    var texts := Texts(WriteLeg, legs);
    forall i | 0 <= i < |legs| ensures texts[i] == Record(LegFields(legs[i])) {
      LegLayout(legs[i]);
    }
    assert texts == LegTexts(legs);
  }

  lemma StringText(s: string)
    ensures Print(String(s)) == PrintString(s)
  {
  }

  /** The text that a digest hashes, for every binding: these fields, so named, in this order. */
  lemma BindingLayout(b: DecisionBinding)
    ensures BindingText(b) == Record(BindingFields(b))
  {
    hide Escape; hide PrintMembers; hide PrintElements; hide Record; hide List; hide Field; hide Plain;
    hide WriteList; hide WriteInvariant; hide WritePolicy; hide WriteDecision; hide WriteReconcile;
    hide Print; hide PrintString; hide Quoted; hide ReconcileWord; hide PlainKeys;
    hide LegTexts; hide InvariantFields; hide PolicyFields; hide DecisionFields;
    BindingKeysPlain(b);
    StringText(b.settlementId);
    StringText(b.claimHash);
    ObjectText(WriteBinding(b));
    ReconcileLayout(b.reconcile);
    LegsLayout(b.legs);
    InvariantLayout(b.invariantVerdict);
    PolicyLayout(b.policy);
    DecisionLayout(b.decision);
    assert Fields(WriteBinding(b).members) == BindingFields(b);
  }

  /** The text of an evidence bundle. */
  lemma BundleLayout(s: SignedDecision)
    ensures EvidenceBundle(s) == Record([
      Field("binding", Record(BindingFields(s.binding))),
      Field("signer", PrintString(s.signer)),
      Field("signature", PrintString(s.signature))])
  {
    hide Escape; hide PrintMembers; hide PrintElements; hide Record; hide Field; hide WriteBinding;
    ObjectText(WriteSigned(s));
    BindingLayout(s.binding);
    assert Fields(WriteSigned(s).members) == [
      Field("binding", Record(BindingFields(s.binding))),
      Field("signer", PrintString(s.signer)),
      Field("signature", PrintString(s.signature))];
  }
}
