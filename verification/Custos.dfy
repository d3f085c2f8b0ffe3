/**
  The Custos adapter: a simulated outcome becomes a re-execution proof whose digest is taken over
  a canonical encoding of the accounts after execution (src/adapters/custos.rs).

  Printing a key (base58) and hashing are arbitrary functions.
 */
module Custos {
  import opened Bytes
  import opened Wrappers
  import opened Text
  import opened Seam
  import opened Gate
  import opened Binding
  import opened Attest

  /** A byte vector, whose length always fits a u64. */
  type Data = d: Bytes | |d| < TWO_TO_THE_64 witness []

  datatype AccountSnapshot = AccountSnapshot(lamports: u64, owner: Bytes32, data: Data)

  /** The accounts watched: those absent after execution map to none. */
  type Accounts = map<Bytes32, Option<AccountSnapshot>>

  datatype Outcome = Outcome(success: bool, post: Accounts)

  datatype Entry = Entry(key: Bytes32, snapshot: Option<AccountSnapshot>)

  const POSTSTATE_DOMAIN := "liquet/custos/poststate/v1"

  /** The domain tag as bytes: it is ASCII, one byte a character. */
  function DomainTag(): (tag: Bytes) {
    seq(|POSTSTATE_DOMAIN|, i requires 0 <= i < |POSTSTATE_DOMAIN| => POSTSTATE_DOMAIN[i] as int % 0x80)
  }

  lemma DomainTagIsText()
    ensures |DomainTag()| == |POSTSTATE_DOMAIN|
    ensures forall i :: 0 <= i < |POSTSTATE_DOMAIN| ==> DomainTag()[i] == POSTSTATE_DOMAIN[i] as int
  {
    assert forall i :: 0 <= i < |POSTSTATE_DOMAIN| ==> POSTSTATE_DOMAIN[i] < '\U{80}';
  }

  // ---------- The canonical order ----------

  function Rank(e: Entry): nat {
    BigEndian(e.key)
  }

  ghost predicate Sorted(es: seq<Entry>) {
    forall i, j :: 0 <= i < j < |es| ==> Rank(es[i]) <= Rank(es[j])
  }

  ghost predicate StrictlySorted(es: seq<Entry>) {
    forall i, j :: 0 <= i < j < |es| ==> LexLess(es[i].key, es[j].key)
  }

  predicate DistinctKeys(es: seq<Entry>) {
    forall i, j :: 0 <= i < j < |es| ==> es[i].key != es[j].key
  }

  /** The entries are those of the map, none missing and none added. */
  ghost predicate Lists(es: seq<Entry>, m: Accounts) {
    forall e :: e in es <==> e.key in m && m[e.key] == e.snapshot
  }

  lemma SortedDistinctIsStrict(es: seq<Entry>)
    ensures Sorted(es) && DistinctKeys(es) <==> StrictlySorted(es)
  {
    forall i, j | 0 <= i < j < |es|
      ensures LexLess(es[i].key, es[j].key) <==> Rank(es[i]) <= Rank(es[j]) && es[i].key != es[j].key
    {
      LexIsNumeric(es[i].key, es[j].key);
    }
  }

  /** Two strictly sorted listings of the same entries are one listing: no sort has any freedom left. */
  lemma {:induction false} SortedListingUnique(a: seq<Entry>, b: seq<Entry>)
    requires StrictlySorted(a) && StrictlySorted(b)
    requires forall e :: e in a <==> e in b
    ensures a == b
  {
    EmptyTogether(a, b);
    if |a| > 0 {
      assert a[0] in b;
      assert b[0] in a;
      FirstIsLeast(a, b[0]);
      FirstIsLeast(b, a[0]);
      LexIsNumeric(a[0].key, b[0].key);
      LexIsNumeric(b[0].key, a[0].key);
      assert a[0] == b[0];
      forall e ensures e in a[1..] <==> e in b[1..] {
        TailMembers(a, e);
        TailMembers(b, e);
      }
      SortedListingUnique(a[1..], b[1..]);
    }
  }

  lemma EmptyTogether(a: seq<Entry>, b: seq<Entry>)
    requires forall e :: e in a <==> e in b
    ensures |a| == 0 <==> |b| == 0
  {
    if |a| > 0 {
      assert a[0] in b;
    }
    if |b| > 0 {
      assert b[0] in a;
    }
  }

  lemma FirstIsLeast(es: seq<Entry>, e: Entry)
    requires StrictlySorted(es) && e in es
    ensures e == es[0] || LexLess(es[0].key, e.key)
  {
  }

  lemma TailMembers(es: seq<Entry>, e: Entry)
    requires StrictlySorted(es) && |es| > 0
    ensures e in es[1..] <==> e in es && e != es[0]
  {
    assert es == [es[0]] + es[1..];
    if es[0] in es[1..] {
      LexIsNumeric(es[0].key, es[0].key);
    }
  }

  ghost predicate IsLeast(k: Bytes32, keys: set<Bytes32>) {
    k in keys && forall l :: l in keys ==> BigEndian(k) <= BigEndian(l)
  }

  lemma {:induction false} LeastKeyExists(keys: set<Bytes32>)
    requires keys != {}
    ensures exists k :: IsLeast(k, keys)
  {
    var k :| k in keys;
    var rest := keys - {k};
    if rest == {} {
      assert keys == {k};
      assert IsLeast(k, keys);
    } else {
      LeastKeyExists(rest);
      var l :| IsLeast(l, rest);
      assert IsLeast(if BigEndian(k) <= BigEndian(l) then k else l, keys);
    }
  }

  /** The entries of the map in strictly increasing order of their key bytes. */
  ghost function Canonical(m: Accounts): (es: seq<Entry>)
    ensures StrictlySorted(es) && Lists(es, m)
    decreases |m|
  {
    if |m| == 0 then []
    else
      LeastKeyExists(m.Keys);
      var k :| IsLeast(k, m.Keys);
      var rest := Canonical(m - {k});
      LeastFirst(m, k, rest);
      [Entry(k, m[k])] + rest
  }

  lemma LeastFirst(m: Accounts, k: Bytes32, rest: seq<Entry>)
    requires IsLeast(k, m.Keys)
    requires StrictlySorted(rest) && Lists(rest, m - {k})
    ensures StrictlySorted([Entry(k, m[k])] + rest) && Lists([Entry(k, m[k])] + rest, m)
  {
    var es := [Entry(k, m[k])] + rest;
    forall j | 0 < j < |es| ensures LexLess(es[0].key, es[j].key) {
      assert es[j] == rest[j - 1] && es[j] in rest;
      LexIsNumeric(k, es[j].key);
    }
  }

  // ---------- The encoding ----------

  function EncodeSnapshot(s: Option<AccountSnapshot>): Bytes {
    match s
    case None => [0]
    case Some(a) => [1] + (LittleEndian(a.lamports, 8) + (a.owner + (LittleEndian(|a.data|, 8) + a.data)))
  }

  function EncodeEntries(es: seq<Entry>): Bytes {
    if |es| == 0 then [] else es[0].key + EncodeSnapshot(es[0].snapshot) + EncodeEntries(es[1..])
  }

  function PoststatePreimage(es: seq<Entry>): Bytes {
    DomainTag() + EncodeEntries(es)
  }

  // ---------- A decoder for it ----------

  function DecodeU64(bs: Bytes): (n: u64)
    requires |bs| == 8
  {
    FromLittleEndianBound(bs);
    assert Base256(4) == 0x1_0000_0000;
    assert Base256(8) == TWO_TO_THE_64;
    FromLittleEndian(bs)
  }

  /** One presence byte and, if it is set, one account; then the bytes left over. */
  function DecodeSnapshot(bs: Bytes): (r: Option<(Option<AccountSnapshot>, Bytes)>)
    ensures r.Some? ==> |r.value.1| < |bs|
  {
    if |bs| == 0 then None
    else if bs[0] == 0 then Some((None, bs[1..]))
    else if bs[0] != 1 then None
    else
      var (lamports, r1) :- Take(8, bs[1..]);
      var (owner, r2) :- Take(32, r1);
      var (length, r3) :- Take(8, r2);
      var (data, r4) :- Take(DecodeU64(length), r3);
      Some((Some(AccountSnapshot(DecodeU64(lamports), owner, data)), r4))
  }

  function Take(n: nat, bs: Bytes): (r: Option<(Bytes, Bytes)>)
    ensures r.Some? ==> |r.value.0| == n && |r.value.1| == |bs| - n
  {
    if |bs| < n then None else Some((bs[..n], bs[n..]))
  }

  function DecodeEntries(bs: Bytes): Option<seq<Entry>>
    decreases |bs|
  {
    if |bs| == 0 then Some([])
    else
      var (key, r) :- Take(32, bs);
      var (snapshot, rest) :- DecodeSnapshot(r);
      var es :- DecodeEntries(rest);
      Some([Entry(key, snapshot)] + es)
  }

  lemma TakeFirst(a: Bytes, b: Bytes)
    ensures Take(|a|, a + b) == Some((a, b))
  {
  }

  lemma Regroup(a: Bytes, b: Bytes, r: Bytes)
    ensures (a + b) + r == a + (b + r)
  {
  }

  lemma SnapshotRoundTrip(s: Option<AccountSnapshot>, rest: Bytes)
    ensures DecodeSnapshot(EncodeSnapshot(s) + rest) == Some((s, rest))
  {
    match s {
      case None =>
        assert ([0] + rest)[1..] == rest;
      case Some(a) =>
        var l, n := LittleEndian(a.lamports, 8), LittleEndian(|a.data|, 8);
        var r3 := n + (a.data + rest);
        var r2 := a.owner + r3;
        var r1 := l + r2;
        Regroup(n, a.data, rest);
        Regroup(a.owner, n + a.data, rest);
        Regroup(l, a.owner + (n + a.data), rest);
        Regroup([1], l + (a.owner + (n + a.data)), rest);
        assert ([1] + r1)[1..] == r1;
        TakeFirst(l, r2);
        TakeFirst(a.owner, r3);
        TakeFirst(n, a.data + rest);
        TakeFirst(a.data, rest);
        U64RoundTrip(a.lamports);
        U64RoundTrip(|a.data|);
    }
  }

  /** One encoded entry, up to the bytes that follow it. */
  lemma EntryParse(e: Entry, rest: Bytes)
    ensures DecodeEntries(e.key + EncodeSnapshot(e.snapshot) + rest) ==
      var r := DecodeEntries(rest);
      if r.None? then None else Some([e] + r.value)
  {
    hide EncodeSnapshot; hide DecodeSnapshot; hide Take;
    Regroup(e.key, EncodeSnapshot(e.snapshot), rest);
    TakeFirst(e.key, EncodeSnapshot(e.snapshot) + rest);
    SnapshotRoundTrip(e.snapshot, rest);
  }

  /** The encoding needs no count field: the decoder recovers every entry from the bytes alone. */
  lemma {:induction false} EntriesRoundTrip(es: seq<Entry>)
    ensures DecodeEntries(EncodeEntries(es)) == Some(es)
  {
    hide EncodeSnapshot; hide DecodeSnapshot; hide Take;
    if |es| > 0 {
      EntryParse(es[0], EncodeEntries(es[1..]));
      EntriesRoundTrip(es[1..]);
      assert [es[0]] + es[1..] == es;
    }
  }

  /** The canonical bytes determine the whole account map. */
  lemma PreimageDeterminesAccounts(m: Accounts, n: Accounts)
    requires PoststatePreimage(Canonical(m)) == PoststatePreimage(Canonical(n))
    ensures m == n
  {
    var a, b := Canonical(m), Canonical(n);
    SameTail(DomainTag(), EncodeEntries(a), EncodeEntries(b));
    EntriesRoundTrip(a);
    EntriesRoundTrip(b);
    SameListingSameMap(a, m, n);
  }

  lemma SameTail(d: Bytes, x: Bytes, y: Bytes)
    requires d + x == d + y
    ensures x == y
  {
    assert (d + x)[|d|..] == x && (d + y)[|d|..] == y;
  }

  lemma SameListingSameMap(es: seq<Entry>, m: Accounts, n: Accounts)
    requires Lists(es, m) && Lists(es, n)
    ensures m == n
  {
    forall k ensures k in m ==> k in n && m[k] == n[k] {
      if k in m { assert Entry(k, m[k]) in es; }
    }
    forall k ensures k in n ==> k in m {
      if k in n { assert Entry(k, n[k]) in es; }
    }
  }

  // ---------- The adapter ----------

  function PrintedKeys(es: seq<Entry>, printKey: Bytes32 -> string): seq<string> {
    seq(|es|, i requires 0 <= i < |es| => printKey(es[i].key))
  }

  ghost function PoststateDigest(c: Crypto, m: Accounts): string {
    HexEncode(c.sha256(PoststatePreimage(Canonical(m))))
  }

  /** The proof that an outcome stands for. */
  ghost function ProofOf(c: Crypto, outcome: Outcome, printKey: Bytes32 -> string): ReexecProof {
    var es := Canonical(outcome.post);
    ReexecProof(
      Svm, outcome.success, PoststateDigest(c, outcome.post), PrintedKeys(es, printKey),
      CallerAsserted, None, None, None, None)
  }

  /** An incremental hash: what it has been fed so far. */
  class Hasher {
    var fed: Bytes

    constructor ()
      ensures fed == []
    {
      fed := [];
    }

    method Update(bs: Bytes)
      modifies this
      ensures fed == old(fed) + bs
    {
      fed := fed + bs;
    }

    method Finalize(c: Crypto) returns (digest: Bytes32)
      ensures digest == c.sha256(fed)
    {
      digest := c.sha256(fed);
    }
  }

  /** Collects the entries of the map in whatever order it iterates. */
  method Collect(m: Accounts) returns (es: seq<Entry>)
    ensures Lists(es, m) && DistinctKeys(es)
  {
    es := [];
    var left := m.Keys;
    while left != {}
      invariant left <= m.Keys
      invariant forall e :: e in es <==> e.key in m && e.key !in left && m[e.key] == e.snapshot
      invariant DistinctKeys(es)
      decreases left
    {
      var k :| k in left;
      assert forall e <- es :: e.key != k;
      es := es + [Entry(k, m[k])];
      left := left - {k};
    }
  }

  /** The first position from `from` on that holds a least key. */
  method IndexOfLeast(a: array<Entry>, from: nat) returns (least: nat)
    requires from < a.Length
    ensures from <= least < a.Length
    ensures forall j :: from <= j < a.Length ==> Rank(a[least]) <= Rank(a[j])
  {
    least := from;
    for i := from + 1 to a.Length
      invariant from <= least < i
      invariant forall j :: from <= j < i ==> Rank(a[least]) <= Rank(a[j])
    {
      LexIsNumeric(a[i].key, a[least].key);
      if LexLess(a[i].key, a[least].key) {
        least := i;
      }
    }
  }

  /** Sorts in place by key bytes. */
  method SortByKey(a: array<Entry>)
    modifies a
    ensures Sorted(a[..])
    ensures multiset(a[..]) == multiset(old(a[..]))
  {
    for i := 0 to a.Length
      invariant forall j, k :: 0 <= j < k < a.Length && j < i ==> Rank(a[j]) <= Rank(a[k])
      invariant multiset(a[..]) == multiset(old(a[..]))
    {
      var least := IndexOfLeast(a, i);
      Swap(a, i, least);
    }
  }

  method Swap(a: array<Entry>, i: nat, j: nat)
    requires i < a.Length && j < a.Length
    modifies a
    ensures a[i] == old(a[j]) && a[j] == old(a[i])
    ensures forall k :: 0 <= k < a.Length && k != i && k != j ==> a[k] == old(a[k])
    ensures multiset(a[..]) == multiset(old(a[..]))
  {
    a[i], a[j] := a[j], a[i];
  }

  lemma SortKeepsListing(es: seq<Entry>, sorted: seq<Entry>, m: Accounts)
    requires Lists(es, m) && DistinctKeys(es)
    requires Sorted(sorted) && multiset(sorted) == multiset(es)
    ensures sorted == Canonical(m)
  {
    forall e ensures e in sorted <==> e in es {
      assert e in sorted <==> e in multiset(sorted);
      assert e in es <==> e in multiset(es);
    }
    PermutationKeepsDistinct(es, sorted);
    SortedDistinctIsStrict(sorted);
    SortedListingUnique(sorted, Canonical(m));
  }

  lemma PermutationKeepsDistinct(es: seq<Entry>, perm: seq<Entry>)
    requires DistinctKeys(es) && multiset(perm) == multiset(es)
    requires forall e :: e in perm <==> e in es
    ensures DistinctKeys(perm)
  {
    forall i, j | 0 <= i < j < |perm| ensures perm[i].key != perm[j].key {
      if perm[i].key == perm[j].key {
        assert perm[i] in es && perm[j] in es;
        assert perm[i] == perm[j];
        assert perm == perm[..i] + [perm[i]] + perm[i + 1..j] + [perm[j]] + perm[j + 1..];
        assert multiset(perm)[perm[i]] >= 2;
        OnceInDistinct(es, perm[i]);
      }
    }
  }

  lemma {:induction false} OnceInDistinct(es: seq<Entry>, e: Entry)
    requires DistinctKeys(es)
    ensures multiset(es)[e] <= 1
  {
    if |es| > 0 {
      OnceInDistinct(es[1..], e);
      assert es == [es[0]] + es[1..];
      assert forall i :: 0 <= i < |es[1..]| ==> es[1..][i] == es[i + 1];
    }
  }

  /** `proof_from_outcome`: whatever the iteration order and the sort, the proof is the canonical one. */
  method ProofFromOutcome(c: Crypto, outcome: Outcome, printKey: Bytes32 -> string) returns (proof: ReexecProof)
    ensures proof == ProofOf(c, outcome, printKey)
    ensures HexDecode(proof.poststateDigest) == Some(c.sha256(PoststatePreimage(Canonical(outcome.post))))
    ensures proof.vm == Svm && proof.executed == outcome.success
  {
    var collected := Collect(outcome.post);
    var accounts := new Entry[|collected|](i requires 0 <= i < |collected| => collected[i]);
    assert accounts[..] == collected;
    SortByKey(accounts);
    SortKeepsListing(collected, accounts[..], outcome.post);

    var digest := HashEntries(c, DomainTag(), accounts);
    proof := ReexecProof(
      Svm, outcome.success, HexEncode(digest), PrintedKeys(accounts[..], printKey),
      CallerAsserted, None, None, None, None);
    HexSpellings(digest, proof.poststateDigest);
  }

  /** Feeds the domain tag and then every account to the hash. */
  method HashEntries(c: Crypto, tag: Bytes, accounts: array<Entry>) returns (digest: Bytes32)
    ensures digest == c.sha256(tag + EncodeEntries(accounts[..]))
  {
    var hasher := new Hasher();
    hasher.Update(tag);
    assert hasher.fed == tag;
    FeedEntries(hasher, accounts);
    digest := hasher.Finalize(c);
  }

  method FeedEntries(hasher: Hasher, accounts: array<Entry>)
    modifies hasher
    ensures hasher.fed == old(hasher.fed) + EncodeEntries(accounts[..])
  {
    for i := 0 to accounts.Length
      invariant hasher.fed == old(hasher.fed) + EncodeEntries(accounts[..i])
    {
      FeedEntry(hasher, accounts[i]);
      EncodeAppend(accounts[..i], accounts[i]);
      assert accounts[..i + 1] == accounts[..i] + [accounts[i]];
      Regroup(old(hasher.fed), EncodeEntries(accounts[..i]), accounts[i].key + EncodeSnapshot(accounts[i].snapshot));
    }
    assert accounts[..accounts.Length] == accounts[..];
  }

  /** Feeds one account, field by field. */
  method FeedEntry(hasher: Hasher, e: Entry)
    modifies hasher
    ensures hasher.fed == old(hasher.fed) + (e.key + EncodeSnapshot(e.snapshot))
  {
    hasher.Update(e.key);
    match e.snapshot {
      case Some(snapshot) =>
        hasher.Update([1]);
        hasher.Update(LittleEndian(snapshot.lamports, 8));
        hasher.Update(snapshot.owner);
        hasher.Update(LittleEndian(|snapshot.data|, 8));
        hasher.Update(snapshot.data);
      case None =>
        hasher.Update([0]);
    }
  }

  lemma {:induction false} EncodeAppend(es: seq<Entry>, e: Entry)
    ensures EncodeEntries(es + [e]) == EncodeEntries(es) + (e.key + EncodeSnapshot(e.snapshot))
  {
    if |es| == 0 {
      assert es + [e] == [e];
    } else {
      EncodeAppend(es[1..], e);
      assert (es + [e])[0] == es[0] && (es + [e])[1..] == es[1..] + [e];
      Regroup(es[0].key + EncodeSnapshot(es[0].snapshot), EncodeEntries(es[1..]), e.key + EncodeSnapshot(e.snapshot));
    }
  }

  // ---------- What the digest and the gate say about an outcome ----------

  /** The two uses of the hash are kept apart: no decision and no poststate have one preimage. */
  lemma DomainsSeparate(b: DecisionBinding, es: seq<Entry>)
    ensures Preimage(b) != PoststatePreimage(es)
  {
    PreimageParts(b);
    DomainTagIsText();
    assert DECISION_DOMAIN[7] == 'd' && POSTSTATE_DOMAIN[7] == 'c';
    assert PoststatePreimage(es)[7] == DomainTag()[7];
  }

  /** Two account maps have one digest exactly when they are equal, or their encodings collide. */
  lemma PoststateCommits(c: Crypto, m: Accounts, n: Accounts)
    ensures PoststateDigest(c, m) == PoststateDigest(c, n) <==>
            m == n || Collision(c, PoststatePreimage(Canonical(m)), PoststatePreimage(Canonical(n)))
  {
    var x, y := PoststatePreimage(Canonical(m)), PoststatePreimage(Canonical(n));
    if HexEncode(c.sha256(x)) == HexEncode(c.sha256(y)) {
      HexInjective(c.sha256(x), c.sha256(y));
      if x == y {
        PreimageDeterminesAccounts(m, n);
      }
    }
  }

  /** So the digest in the proof of an outcome commits to all its accounts. */
  lemma ProofCommits(c: Crypto, o: Outcome, o': Outcome, printKey: Bytes32 -> string, printKey': Bytes32 -> string)
    ensures ProofOf(c, o, printKey).poststateDigest == ProofOf(c, o', printKey').poststateDigest <==>
      o.post == o'.post || Collision(c, PoststatePreimage(Canonical(o.post)), PoststatePreimage(Canonical(o'.post)))
  {
    PoststateCommits(c, o.post, o'.post);
  }

  /**
    What the digest in a proof is a hash of: bytes that begin with the tag and of which the rest decodes to
    the accounts of the outcome, one entry each, in ascending order of their keys.
   */
  lemma ProofDigestOf(c: Crypto, o: Outcome, printKey: Bytes32 -> string) returns (x: Bytes, es: seq<Entry>)
    ensures HexDecode(ProofOf(c, o, printKey).poststateDigest) == Some(c.sha256(x))
    ensures |x| >= 26 && forall i :: 0 <= i < 26 ==> x[i] == "liquet/custos/poststate/v1"[i] as int
    ensures DecodeEntries(x[26..]) == Some(es)
    ensures StrictlySorted(es) && Lists(es, o.post)
  {
    es := Canonical(o.post);
    x := PoststatePreimage(es);
    DomainTagIsText();
    assert |POSTSTATE_DOMAIN| == 26;
    assert x[26..] == EncodeEntries(es);
    EntriesRoundTrip(es);
    HexSpellings(c.sha256(x), HexEncode(c.sha256(x)));
  }

  /** One entry's bytes by offset, as far as the decoder needs them: key, presence, lamports, owner, length, data. */
  lemma EntryBytes(e: Entry)
    ensures var bs := EncodeEntries([e]);
      && |bs| >= 33 && bs[..32] == e.key
      && match e.snapshot
         case None => bs[32..] == [0]
         case Some(a) =>
           && |bs| == 81 + |a.data|
           && bs[32] == 1
           && bs[33..41] == LittleEndian(a.lamports, 8)
           && bs[41..73] == a.owner
           && bs[73..81] == LittleEndian(|a.data|, 8)
           && bs[81..] == a.data
  {
    hide LittleEndian; hide EncodeEntries;
    var bs := EncodeEntries([e]);
    EncodeAppend([], e);
    NoEntries();
    assert [] + [e] == [e];
    assert bs[0..] == e.key + EncodeSnapshot(e.snapshot);
    SliceAt(bs, 0, e.key, EncodeSnapshot(e.snapshot));
    if e.snapshot.Some? {
      SnapshotBytes(bs, e.snapshot.value);
    }
  }

  lemma SnapshotBytes(bs: Bytes, a: AccountSnapshot)
    requires |bs| >= 32 && bs[32..] == EncodeSnapshot(Some(a))
    ensures |bs| == 81 + |a.data| && bs[32] == 1
    ensures bs[33..41] == LittleEndian(a.lamports, 8) && bs[41..73] == a.owner
    ensures bs[73..81] == LittleEndian(|a.data|, 8) && bs[81..] == a.data
  {
    hide LittleEndian;
    var l, n := LittleEndian(a.lamports, 8), LittleEndian(|a.data|, 8);
    SliceAt(bs, 32, [1], l + (a.owner + (n + a.data)));
    SliceAt(bs, 33, l, a.owner + (n + a.data));
    SliceAt(bs, 41, a.owner, n + a.data);
    SliceAt(bs, 73, n, a.data);
  }

  lemma NoEntries()
    ensures EncodeEntries([]) == []
  {
  }

  lemma SliceAt(bs: Bytes, at: nat, part: Bytes, rest: Bytes)
    requires at <= |bs| && bs[at..] == part + rest
    ensures |bs| == at + |part| + |rest|
    ensures bs[at..at + |part|] == part && bs[at + |part|..] == rest
  {
    assert bs == bs[..at] + part + rest;
  }

  /** The accounts covered stand in ascending order of their keys: at the first byte that differs. */
  lemma CoveredInOrder(c: Crypto, o: Outcome, printKey: Bytes32 -> string) returns (keys: seq<Bytes32>)
    ensures var covered := ProofOf(c, o, printKey).coveredAccounts;
      |covered| == |keys| && forall i :: 0 <= i < |keys| ==> covered[i] == printKey(keys[i])
    ensures forall k :: k in keys <==> k in o.post
    ensures forall i, j :: 0 <= i < j < |keys| ==> FirstDifference(keys[i], keys[j])
  {
    hide FirstDifference; hide Lists; hide StrictlySorted;
    keys := KeysOf(Canonical(o.post));
    KeysListed(Canonical(o.post), o.post);
    KeysAscend(Canonical(o.post));
  }

  function KeysOf(es: seq<Entry>): seq<Bytes32> {
    seq(|es|, i requires 0 <= i < |es| => es[i].key)
  }

  lemma KeysListed(es: seq<Entry>, m: Accounts)
    requires Lists(es, m)
    ensures forall k :: k in KeysOf(es) <==> k in m
  {
    var keys := KeysOf(es);
    forall k | k in m ensures k in keys {
      assert Entry(k, m[k]) in es;
      var i :| 0 <= i < |es| && es[i] == Entry(k, m[k]);
      assert keys[i] == k;
    }
    forall k | k in keys ensures k in m {
      var i :| 0 <= i < |keys| && keys[i] == k;
      assert es[i] in es;
    }
  }

  lemma KeysAscend(es: seq<Entry>)
    requires StrictlySorted(es)
    ensures forall i, j :: 0 <= i < j < |es| ==> FirstDifference(KeysOf(es)[i], KeysOf(es)[j])
  {
    forall i, j | 0 <= i < j < |es| ensures FirstDifference(KeysOf(es)[i], KeysOf(es)[j]) {
      LexFirstDifference(es[i].key, es[j].key);
    }
  }

  /** At the first byte that differs, `k` has the lesser one. */
  predicate FirstDifference(k: Bytes32, l: Bytes32) {
    exists n :: 0 <= n < 32 && k[..n] == l[..n] && k[n] < l[n]
  }

  /** The accounts covered are the printed keys of the outcome, absent accounts included. */
  lemma CoveredAccounts(c: Crypto, o: Outcome, printKey: Bytes32 -> string, account: string)
    ensures account in ProofOf(c, o, printKey).coveredAccounts <==> exists k :: k in o.post && printKey(k) == account
  {
    var es := Canonical(o.post);
    var printed := PrintedKeys(es, printKey);
    if account in printed {
      var i :| 0 <= i < |printed| && printed[i] == account;
      assert es[i] in es;
    }
    if k :| k in o.post && printKey(k) == account {
      assert Entry(k, o.post[k]) in es;
      var i :| 0 <= i < |es| && es[i] == Entry(k, o.post[k]);
      assert printed[i] == account;
    }
  }

  /**
    Settling on a Custos proof: exactly when the policy does not insist on recovered facts, the
    transaction succeeded if it must, the level is within the threshold, and each required account is
    the printed key of an account of the outcome. The settlement then carries exactly one caveat.
   */
  lemma CustosSettlement(
    c: Crypto, o: Outcome, printKey: Bytes32 -> string,
    intent: SettlementIntent, verdict: InvariantVerdict, policy: GatePolicy)
    ensures var d := Decision(intent, ProofOf(c, o, printKey), verdict, policy);
      && (d.Settle? ==> d == Settle([UNBOUND_NOTE]))
      && (d.Settle? <==>
            && !policy.requireRecoveredFacts
            && (policy.requireExecuted ==> o.success)
            && !verdict.level.Exceeds(policy.maxSettleSeverity)
            && forall a <- intent.requiredAccounts :: exists k :: k in o.post && printKey(k) == a)
  {
    var proof := ProofOf(c, o, printKey);
    SettlesExactlyWhenSafe(intent, proof, verdict, policy);
    forall a <- intent.requiredAccounts
      ensures a in proof.coveredAccounts <==> exists k :: k in o.post && printKey(k) == a
    {
      CoveredAccounts(c, o, printKey, a);
    }
  }

  /** With a printer that tells keys apart, each covered account stands for exactly one account of the outcome. */
  lemma CoverageIsOneToOne(c: Crypto, o: Outcome, printKey: Bytes32 -> string, i: nat, j: nat)
    requires forall k: Bytes32, l: Bytes32 :: printKey(k) == printKey(l) ==> k == l
    requires i < j < |ProofOf(c, o, printKey).coveredAccounts|
    ensures ProofOf(c, o, printKey).coveredAccounts[i] != ProofOf(c, o, printKey).coveredAccounts[j]
  {
    var es := Canonical(o.post);
    SortedDistinctIsStrict(es);
  }

  // ---------- The invariant verdict ----------

  datatype Level = Green | Info | Yellow | Red

  datatype CustosFinding = CustosFinding(level: Level, code: string, account: Bytes32, message: string)

  datatype CustosVerdict = CustosVerdict(level: Level, findings: seq<CustosFinding>)

  /** `severity_from_level`. */
  function SeverityFromLevel(level: Level): Severity {
    match level
    case Green => Severity.Green
    case Info => Severity.Info
    case Yellow => Severity.Yellow
    case Red => Severity.Red
  }

  function FindingFrom(f: CustosFinding, printKey: Bytes32 -> string): Finding {
    Finding(SeverityFromLevel(f.level), f.code, Some(printKey(f.account)), f.message)
  }

  /** `verdict_from_custos`. */
  function VerdictFromCustos(v: CustosVerdict, printKey: Bytes32 -> string): InvariantVerdict {
    InvariantVerdict(
      SeverityFromLevel(v.level),
      seq(|v.findings|, i requires 0 <= i < |v.findings| => FindingFrom(v.findings[i], printKey)))
  }

  /** The gate reports a Custos verdict's own findings: those above the limit, in order, by code and message. */
  lemma {:induction false} GateReportsCustosFindings(v: CustosVerdict, printKey: Bytes32 -> string, limit: Severity)
    ensures OffendingLines(VerdictFromCustos(v, printKey).findings, limit) ==
            LinesOf((f: CustosFinding) => SeverityFromLevel(f.level).Exceeds(limit),
                    (f: CustosFinding) => "[" + f.code + "] " + f.message, v.findings)
    decreases |v.findings|
  {
    if |v.findings| > 0 {
      var rest := v.(findings := v.findings[1..]);
      GateReportsCustosFindings(rest, printKey, limit);
      assert VerdictFromCustos(v, printKey).findings[1..] == VerdictFromCustos(rest, printKey).findings;
    }
  }

  /** Each finding keeps its code, its message, its account as printed, and its level under the same name. */
  lemma FindingsKept(v: CustosVerdict, printKey: Bytes32 -> string)
    ensures var fs := VerdictFromCustos(v, printKey).findings;
      && |fs| == |v.findings|
      && forall i :: 0 <= i < |fs| ==>
           && fs[i].code == v.findings[i].code && fs[i].message == v.findings[i].message
           && fs[i].account == Some(printKey(v.findings[i].account))
           && SameName(v.findings[i].level, fs[i].severity)
    ensures SameName(v.level, VerdictFromCustos(v, printKey).level)
  {
  }

  predicate SameName(level: Level, severity: Severity) {
    || (level == Level.Green && severity == Severity.Green)
    || (level == Level.Info && severity == Severity.Info)
    || (level == Level.Yellow && severity == Severity.Yellow)
    || (level == Level.Red && severity == Severity.Red)
  }

  /** The levels of a Custos verdict that each limit lets through. */
  predicate CustosSettlesAt(level: Level, limit: Severity) {
    match limit
    case Green => level == Level.Green
    case Info => level == Level.Green || level == Level.Info
    case Yellow => level != Level.Red
    case Red => true
  }

  /** When either gate settles on a mapped Custos verdict, level by level; in `decide` on a Custos proof as well. */
  lemma CustosVerdictSettles(
    c: Crypto, o: Outcome, printKey: Bytes32 -> string, v: CustosVerdict,
    proof: CrossVmProof, intent: SettlementIntent, policy: GatePolicy)
    ensures CrossVmDecision(proof, VerdictFromCustos(v, printKey), policy).Settle? <==>
            proof.reconcile == Matched && CustosSettlesAt(v.level, policy.maxSettleSeverity)
    ensures Decision(intent, ProofOf(c, o, printKey), VerdictFromCustos(v, printKey), policy).Settle? <==>
      && CustosSettlesAt(v.level, policy.maxSettleSeverity)
      && !policy.requireRecoveredFacts
      && (o.success || !policy.requireExecuted)
      && forall a <- intent.requiredAccounts :: exists k :: k in o.post && printKey(k) == a
  {
    hide CrossVmDecision; hide Decision; hide ProofOf; hide VerdictFromCustos; hide CustosSettlesAt;
    var verdict := VerdictFromCustos(v, printKey);
    CustosLevels(v, printKey, policy.maxSettleSeverity);
    CrossVmSettlesExactly(proof, verdict, policy);
    CustosSettlement(c, o, printKey, intent, verdict, policy);
  }

  lemma CustosLevels(v: CustosVerdict, printKey: Bytes32 -> string, limit: Severity)
    ensures CustosSettlesAt(v.level, limit) <==> !VerdictFromCustos(v, printKey).level.Exceeds(limit)
  {
  }
}
