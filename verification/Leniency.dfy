/**
  What a document may vary without changing what is read from it: the order of the fields of every
  record, at every depth, and fields that the record does not have.
 */
module Leniency {
  import opened Wrappers
  import opened Json
  import Grammar
  import opened Seam
  import opened Gate
  import opened Binding
  import opened Codec

  // ---------- Lookups ----------

  /** How many members carry the key. */
  function Occurrences(ms: seq<Member>, key: string): nat {
    if |ms| == 0 then 0
    else Occurrences(ms[1..], key) + if ms[0].key == key then 1 else 0
  }

  /** A field is found exactly if its key occurs once, and refused if it occurs more often. */
  lemma {:induction false} FindCounts(ms: seq<Member>, key: string)
    ensures Find(ms, key).Missing? <==> Occurrences(ms, key) == 0
    ensures Find(ms, key).Found? <==> Occurrences(ms, key) == 1
    ensures Find(ms, key).Found? ==> Member(key, Find(ms, key).value) in ms
  {
    if |ms| > 0 {
      FindCounts(ms[1..], key);
      assert ms == [ms[0]] + ms[1..];
    }
  }

  lemma {:induction false} OccurrencesOfParts(a: seq<Member>, b: seq<Member>, key: string)
    ensures Occurrences(a + b, key) == Occurrences(a, key) + Occurrences(b, key)
  {
    if |a| == 0 {
      assert a + b == b;
    } else {
      OccurrencesOfParts(a[1..], b, key);
      assert (a + b)[0] == a[0] && (a + b)[1..] == a[1..] + b;
    }
  }

  function Without(ms: seq<Member>, i: nat): seq<Member>
    requires i < |ms|
  {
    ms[..i] + ms[i + 1..]
  }

  lemma WithoutKeepsRest(ms: seq<Member>, i: nat, key: string)
    requires i < |ms|
    ensures multiset(Without(ms, i)) == multiset(ms) - multiset{ms[i]}
    ensures Occurrences(ms, key) == Occurrences(Without(ms, i), key) + if ms[i].key == key then 1 else 0
  {
    var a, b := ms[..i], ms[i + 1..];
    assert ms == a + ([ms[i]] + b);
    OccurrencesOfParts(a, b, key);
    OccurrencesOfParts(a, [ms[i]] + b, key);
    OccurrencesOfParts([ms[i]], b, key);
    assert Occurrences([ms[i]], key) == if ms[i].key == key then 1 else 0;
  }

  lemma {:induction false} OccurrencesPermute(ms: seq<Member>, ns: seq<Member>, key: string)
    requires multiset(ms) == multiset(ns)
    ensures Occurrences(ms, key) == Occurrences(ns, key)
  {
    if |ms| == 0 {
      assert |multiset(ns)| == 0;
    } else {
      assert ms[0] in multiset(ns);
      var i :| 0 <= i < |ns| && ns[i] == ms[0];
      WithoutKeepsRest(ns, i, key);
      WithoutKeepsRest(ms, 0, key);
      assert Without(ms, 0) == ms[1..];
      OccurrencesPermute(ms[1..], Without(ns, i), key);
    }
  }

  lemma {:induction false} SingleOccurrence(ms: seq<Member>, m: Member, n: Member)
    requires m in ms && n in ms && m.key == n.key
    requires Occurrences(ms, m.key) == 1
    ensures m == n
  {
    assert ms == [ms[0]] + ms[1..];
    if m in ms[1..] && n in ms[1..] {
      OccursOnce(ms[1..], m);
      SingleOccurrence(ms[1..], m, n);
    } else if m in ms[1..] {
      OccursOnce(ms[1..], m);
    } else if n in ms[1..] {
      OccursOnce(ms[1..], n);
    }
  }

  lemma {:induction false} OccursOnce(ms: seq<Member>, m: Member)
    requires m in ms
    ensures Occurrences(ms, m.key) >= 1
  {
    assert ms == [ms[0]] + ms[1..];
    if m != ms[0] {
      OccursOnce(ms[1..], m);
    }
  }

  /** Where the members of an object stand does not matter to any lookup. */
  lemma FindPermutes(ms: seq<Member>, ns: seq<Member>, key: string)
    requires multiset(ms) == multiset(ns)
    ensures Find(ms, key) == Find(ns, key)
  {
    FindCounts(ms, key);
    FindCounts(ns, key);
    OccurrencesPermute(ms, ns, key);
    if Find(ms, key).Found? {
      var m, n := Member(key, Find(ms, key).value), Member(key, Find(ns, key).value);
      assert n in multiset(ns);
      SingleOccurrence(ms, m, n);
    }
  }

  // ---------- Fields of no record ----------

  predicate KeysOutside(extra: seq<Member>, names: seq<string>) {
    forall m <- extra :: m.key !in names
  }

  const SIGNED_FIELDS := ["binding", "signer", "signature"]

  const BINDING_FIELDS :=
    ["settlement_id", "claim_hash", "legs", "reconcile", "invariant", "policy", "decision"]

  /** A lookup sees past members with other keys, wherever they were put. */
  lemma FindSkips(ms: seq<Member>, extra: seq<Member>, mixed: seq<Member>, key: string)
    requires multiset(mixed) == multiset(ms) + multiset(extra)
    requires forall m <- extra :: m.key != key
    ensures Find(mixed, key) == Find(ms, key)
  {
    FindPermutes(mixed, extra + ms, key);
    FindSkipsFront(ms, extra, key);
  }

  lemma {:induction false} FindSkipsFront(ms: seq<Member>, extra: seq<Member>, key: string)
    requires forall m <- extra :: m.key != key
    ensures Find(extra + ms, key) == Find(ms, key)
  {
    if |extra| == 0 {
      assert extra + ms == ms;
    } else {
      FindSkipsFront(ms, extra[1..], key);
      assert extra[0] in extra;
      assert (extra + ms)[0] == extra[0] && (extra + ms)[1..] == extra[1..] + ms;
    }
  }

  lemma FieldSkips<T>(
    ms: seq<Member>, extra: seq<Member>, mixed: seq<Member>, names: seq<string>, key: string, read: Json -> Option<T>)
    requires multiset(mixed) == multiset(ms) + multiset(extra)
    requires KeysOutside(extra, names) && key in names
    ensures ReadField(mixed, key, read) == ReadField(ms, key, read)
  {
    FindSkips(ms, extra, mixed, key);
  }

  /** Members with keys outside the record, inserted anywhere, leave a signed decision as it was read. */
  lemma SignedSkipsUnknown(ms: seq<Member>, extra: seq<Member>, mixed: seq<Member>)
    requires multiset(mixed) == multiset(ms) + multiset(extra)
    requires KeysOutside(extra, SIGNED_FIELDS)
    ensures ReadSigned(Object(mixed)) == ReadSigned(Object(ms))
  {
    hide Find; hide ReadField; hide KeysOutside;
    FieldSkips(ms, extra, mixed, SIGNED_FIELDS, SIGNED_FIELDS[0], ReadBinding);
    FieldSkips(ms, extra, mixed, SIGNED_FIELDS, SIGNED_FIELDS[1], ReadString);
    FieldSkips(ms, extra, mixed, SIGNED_FIELDS, SIGNED_FIELDS[2], ReadString);
  }

  /** And they leave a binding as it was read. */
  lemma BindingSkipsUnknown(ms: seq<Member>, extra: seq<Member>, mixed: seq<Member>)
    requires multiset(mixed) == multiset(ms) + multiset(extra)
    requires KeysOutside(extra, BINDING_FIELDS)
    ensures ReadBinding(Object(mixed)) == ReadBinding(Object(ms))
  {
    hide Find; hide ReadField; hide KeysOutside;
    FieldSkips(ms, extra, mixed, BINDING_FIELDS, BINDING_FIELDS[0], ReadString);
    FieldSkips(ms, extra, mixed, BINDING_FIELDS, BINDING_FIELDS[1], ReadString);
    FieldSkips(ms, extra, mixed, BINDING_FIELDS, BINDING_FIELDS[2], ReadLegs);
    FieldSkips(ms, extra, mixed, BINDING_FIELDS, BINDING_FIELDS[3], ReadReconcile);
    FieldSkips(ms, extra, mixed, BINDING_FIELDS, BINDING_FIELDS[4], ReadInvariant);
    FieldSkips(ms, extra, mixed, BINDING_FIELDS, BINDING_FIELDS[5], ReadPolicy);
    FieldSkips(ms, extra, mixed, BINDING_FIELDS, BINDING_FIELDS[6], ReadDecision);
  }

  // ---------- The same data up to the order of members, at every depth ----------

  ghost predicate SameData(a: Json, b: Json)
    decreases a, 1
  {
    match a
    case Array(es) =>
      b.Array? && |b.elements| == |es| && forall i :: 0 <= i < |es| ==> SameData(es[i], b.elements[i])
    case Object(ms) =>
      b.Object? && exists ns :: Aligned(ms, ns) && multiset(ns) == multiset(b.members)
    case _ => a == b
  }

  /** Key by key in the same order, with the same data as values. */
  ghost predicate Aligned(ms: seq<Member>, ns: seq<Member>)
    decreases ms, 0
  {
    |ms| == |ns| && forall i :: 0 <= i < |ms| ==> ms[i].key == ns[i].key && SameData(ms[i].value, ns[i].value)
  }

  lemma {:induction false} SameDataReflexive(a: Json)
    ensures SameData(a, a)
    decreases a
  {
    match a
    case Array(es) =>
      forall i | 0 <= i < |es| ensures SameData(es[i], es[i]) {
        SameDataReflexive(es[i]);
      }
    case Object(ms) =>
      forall i | 0 <= i < |ms| ensures SameData(ms[i].value, ms[i].value) {
        SameDataReflexive(ms[i].value);
      }
      assert Aligned(ms, ms);
    case _ =>
  }

  /** Permuting the members of an object is one instance. */
  lemma PermutedIsSameData(ms: seq<Member>, ns: seq<Member>)
    requires multiset(ms) == multiset(ns)
    ensures SameData(Object(ms), Object(ns))
  {
    forall i | 0 <= i < |ms| ensures SameData(ms[i].value, ms[i].value) {
      SameDataReflexive(ms[i].value);
    }
    assert Aligned(ms, ms);
  }

  lemma {:induction false} FindAligned(ms: seq<Member>, ns: seq<Member>, key: string)
    requires Aligned(ms, ns)
    ensures Find(ms, key).Missing? <==> Find(ns, key).Missing?
    ensures Find(ms, key).Found? <==> Find(ns, key).Found?
    ensures Find(ms, key).Found? ==> SameData(Find(ms, key).value, Find(ns, key).value)
    decreases |ms|
  {
    if |ms| > 0 {
      assert Aligned(ms[1..], ns[1..]);
      FindAligned(ms[1..], ns[1..], key);
    }
  }

  /** A lookup in the same data finds the same data. */
  lemma FindSame(a: Json, b: Json, key: string)
    requires a.Object? && SameData(a, b)
    ensures b.Object?
    ensures Find(a.members, key).Missing? <==> Find(b.members, key).Missing?
    ensures Find(a.members, key).Found? <==> Find(b.members, key).Found?
    ensures Find(a.members, key).Found? ==> SameData(Find(a.members, key).value, Find(b.members, key).value)
  {
    var ns :| Aligned(a.members, ns) && multiset(ns) == multiset(b.members);
    FindAligned(a.members, ns, key);
    FindPermutes(ns, b.members, key);
  }

  /** The reader does not tell the same data apart. */
  ghost predicate Respects<T(!new)>(read: Json -> Option<T>) {
    forall a, b :: SameData(a, b) ==> read(a) == read(b)
  }

  lemma FieldSame<T(!new)>(a: Json, b: Json, key: string, read: Json -> Option<T>)
    requires a.Object? && SameData(a, b) && Respects(read)
    ensures b.Object? && ReadField(a.members, key, read) == ReadField(b.members, key, read)
  {
    FindSame(a, b, key);
  }

  lemma {:induction false} AllSame<T(!new)>(read: Json -> Option<T>, es: seq<Json>, fs: seq<Json>)
    requires Respects(read)
    requires |es| == |fs| && forall i :: 0 <= i < |es| ==> SameData(es[i], fs[i])
    ensures ReadAll(read, es) == ReadAll(read, fs)
  {
    if |es| > 0 {
      AllSame(read, es[1..], fs[1..]);
    }
  }

  lemma ListSame<T(!new)>(read: Json -> Option<T>, a: Json, b: Json)
    requires Respects(read) && SameData(a, b)
    ensures ReadList(read, a) == ReadList(read, b)
  {
    if a.Array? {
      AllSame(read, a.elements, b.elements);
    }
  }

  /** Readers of words, strings and flags look at nothing that can be reordered. */
  lemma ScalarsRespect()
    ensures Respects(ReadString) && Respects(ReadBool)
    ensures Respects(ReadVm) && Respects(ReadSeverity) && Respects(ReadReconcile)
  {
    forall a, b | SameData(a, b) ensures a == b || (!a.String? && !b.String? && !a.Bool? && !b.Bool?) {
    }
  }

  lemma StringsRespect()
    ensures Respects(ReadStrings)
  {
    ScalarsRespect();
    forall a, b | SameData(a, b) ensures ReadStrings(a) == ReadStrings(b) {
      ListSame(ReadString, a, b);
    }
  }

  lemma LegsRespect()
    ensures Respects(ReadLegs)
  {
    ScalarsRespect();
    forall a, b | SameData(a, b) ensures ReadLeg(a) == ReadLeg(b) {
      hide Find; hide ReadField;
      if a.Object? {
        FieldSame(a, b, "vm", ReadVm);
        FieldSame(a, b, "executed", ReadBool);
        FieldSame(a, b, "poststate_digest", ReadString);
      }
    }
    forall a, b | SameData(a, b) ensures ReadLegs(a) == ReadLegs(b) {
      ListSame(ReadLeg, a, b);
    }
  }

  lemma FindingRespects()
    ensures Respects(ReadFinding)
  {
    ScalarsRespect();
    forall a, b | SameData(a, b) ensures ReadFinding(a) == ReadFinding(b) {
      hide Find; hide ReadField;
      if a.Object? {
        FieldSame(a, b, "severity", ReadSeverity);
        FieldSame(a, b, "code", ReadString);
        FieldSame(a, b, "message", ReadString);
        FindSame(a, b, "account");
      }
    }
  }

  lemma InvariantRespects()
    ensures Respects(ReadInvariant)
  {
    ScalarsRespect();
    FindingRespects();
    forall a, b | SameData(a, b) ensures ReadFindings(a) == ReadFindings(b) {
      ListSame(ReadFinding, a, b);
    }
    forall a, b | SameData(a, b) ensures ReadInvariant(a) == ReadInvariant(b) {
      hide Find; hide ReadField;
      if a.Object? {
        FieldSame(a, b, "level", ReadSeverity);
        FieldSame(a, b, "findings", ReadFindings);
      }
    }
  }

  lemma PolicyRespects()
    ensures Respects(ReadPolicy)
  {
    ScalarsRespect();
    forall a, b | SameData(a, b) ensures ReadPolicy(a) == ReadPolicy(b) {
      hide Find; hide ReadField;
      if a.Object? {
        FieldSame(a, b, "max_settle_severity", ReadSeverity);
        FieldSame(a, b, "require_executed", ReadBool);
        FieldSame(a, b, "require_recovered_facts", ReadBool);
      }
    }
  }

  lemma DecisionRespects()
    ensures Respects(ReadDecision)
  {
    ScalarsRespect();
    StringsRespect();
    forall a, b | SameData(a, b) ensures ReadDecision(a) == ReadDecision(b) {
      hide Find; hide ReadField;
      if a.Object? {
        FieldSame(a, b, "decision", ReadString);
        FieldSame(a, b, "caveats", ReadStrings);
        FieldSame(a, b, "reasons", ReadStrings);
        FindSame(a, b, "caveats");
      }
    }
  }

  lemma BindingRespects()
    ensures Respects(ReadBinding)
  {
    ScalarsRespect();
    LegsRespect();
    InvariantRespects();
    PolicyRespects();
    DecisionRespects();
    forall a, b | SameData(a, b) ensures ReadBinding(a) == ReadBinding(b) {
      BindingSame(a, b);
    }
  }

  lemma BindingSame(a: Json, b: Json)
    requires SameData(a, b)
    requires Respects(ReadString) && Respects(ReadReconcile) && Respects(ReadLegs)
    requires Respects(ReadInvariant) && Respects(ReadPolicy) && Respects(ReadDecision)
    ensures ReadBinding(a) == ReadBinding(b)
  {
    hide Find; hide ReadField; hide Respects;
    if a.Object? {
      FieldSame(a, b, "settlement_id", ReadString);
      FieldSame(a, b, "claim_hash", ReadString);
      FieldSame(a, b, "legs", ReadLegs);
      FieldSame(a, b, "reconcile", ReadReconcile);
      FieldSame(a, b, "invariant", ReadInvariant);
      FieldSame(a, b, "policy", ReadPolicy);
      FieldSame(a, b, "decision", ReadDecision);
    }
  }

  /** Documents that differ in the order of members only, at any depth, carry the same signed decision. */
  lemma SignedIgnoresOrder(a: Json, b: Json)
    requires SameData(a, b)
    ensures ReadSigned(a) == ReadSigned(b)
  {
    ScalarsRespect();
    BindingRespects();
    hide Find; hide ReadField; hide Respects;
    if a.Object? {
      FieldSame(a, b, "binding", ReadBinding);
      FieldSame(a, b, "signer", ReadString);
      FieldSame(a, b, "signature", ReadString);
    }
  }

  /** So the bundle of a signed decision, reordered in any of its records and printed again, parses to it. */
  lemma ReorderedBundle(s: SignedDecision, j: Json)
    requires SameData(WriteSigned(s), j)
    ensures ParseBundle(Print(j)) == Some(s)
  {
    SignedIgnoresOrder(WriteSigned(s), j);
    SignedRoundTrip(s);
    Grammar.DocumentRoundTrip(j);
  }
}
