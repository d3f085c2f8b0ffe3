# Verified model of Liquet's decision pipeline

Liquet turns the reports of two producers into a settle/hold decision, signs it, pins the signed
evidence under its own digest and lets a relying party check it. This project models that chain in
Dafny and proves what each link promises to the next, for all inputs and all runs.

| file | what it models |
|---|---|
| `Bytes.dfy`, `Text.dfy` | fixed-width bytes, little-endian numbers, byte order; UTF-8, hex, decimal |
| `Seam.dfy`, `Binding.dfy` | the records of `src/seam.rs` and `src/attest.rs` |
| `Gate.dfy` | `decide`, `decide_crossvm`, `bind` and what they must report |
| `Json.dfy`, `Grammar.dfy` | the printer and the parser of compact JSON; the grammar of RFC 8259 and that the parser accepts exactly it |
| `Codec.dfy`, `Layout.dfy` | the serde form of a signed decision, written and read; its exact text |
| `Reading.dfy`, `Leniency.dfy` | which documents say a signed decision, in both directions; what a document may vary |
| `Attest.dfy`, `Erc8004.dfy` | digest, signing, verification; score, bundle, relying party's check |
| `Store.dfy`, `Validator.dfy`, `Runs.dfy` | the evidence store, the request handler, runs of it |
| `LiquetValidator.dfy` | the pipeline from reports to signature, end to end |
| `Custos.dfy` | the canonical poststate encoding and the Custos path through the gate |

**Strings.** A Rust `String` is a sequence of Unicode scalar values, which is Dafny's `string`. It is
turned into bytes (UTF-8, RFC 3629) only where it is hashed; both updates of the decision digest are one
UTF-8 text, domain tag first.

**Cryptography.** SHA-256 and Ed25519 are fields of the datatype `Attest.Crypto`, so they are arbitrary
functions. Nothing is assumed of the hash: a result that could fail only through two preimages with one
digest names both (`Collision`, `BindingsCollide`). Signing is deterministic (section 5.1.6 of RFC 8032).
Honest receipts rest on the hypothesis `SoundKey`: the scheme accepts what the key signs. Authenticity
assumes no unforgeability; it ends in an explicit forgery as its last alternative (`Forged`). The
producers and the base58 printer of keys are arbitrary as well.

**Parser.** The reader takes white space, every string escape, fields in any order and unknown fields,
refuses a field given twice and supplies the serde defaults. `Grammar.DocumentExact` and `Reading.BundleExact`
say without a parser which texts are read and as what, in both directions, so a text that is no such document is
refused. The results about arbitrary evidence are stated for the text given to `verify_bundle` (`...Text`), each
on top of one for the decision parsed from it.

**Where code and documentation part.** The code is followed.

- `GatePolicy.require_executed` and `require_recovered_facts` are documented as requirements and are
  committed in every binding, but `decide_crossvm` reads neither. Whether a settlement meets them rests on
  the producer's `Matched` alone (`Gate.ExecutionRestsOnReconcile`, `Gate.RecoveryRestsOnReconcile`, with an
  input in `Gate.UnexecutedLegSettles`).
- `InvariantVerdict.level` is documented as the worst severity of the findings. Both gates trust it; what
  that trust is worth, exactly, is `Gate.LevelMustCoverFindings`.
- `SEAM.md` describes the poststate digest as taken over key, lamports, owner and data; the code adds a
  domain tag, a presence byte and a length.
- The reasons of the reconcile itself are not part of a binding, so the wording of a hold that is not
  `Matched` cannot be audited from it (`LiquetValidator.ReasonsAreNotCommitted`).

## Model

| member | source | states |
|---|---|---|
| Grammar.DocumentExact | src/erc8004/mod.rs:148-149 | for every text and value: the text is read as the value if and only if it spells it in the JSON grammar, with white space allowed only where the grammar does - so trailing text, stray commas, unknown escapes and lone surrogates are refused |
| Grammar.Reads | src/erc8004/mod.rs:148-149 | every spelling of every value is read as that value, whatever text follows it, and reading stops exactly there (a bare number must not run on) |
| Grammar.WasSpelled | src/erc8004/mod.rs:148-149 | whatever was read stood there: white space, a spelling of the value, and the untouched rest |
| Grammar.PrintParse | src/erc8004/mod.rs:148-149 | for every JSON value of any depth and whatever text follows it, the parser reads back that value and stops exactly there (a bare number must not run on) |
| Grammar.EscapeIsTheShortest | src/attest.rs:95-100 | the printed form of a character is a shortest spelling of it, with hex digits in lower case, and is the only such spelling |
| Reading.BundleExact | src/erc8004/mod.rs:148-149 | for every text and signed decision: the text is taken for the decision if and only if it spells a document in which each field of each record occurs once with that value, `account` may be absent or null and empty `caveats` absent |
| Reading.DecisionRead | src/decide.rs:42-53 | which JSON values are taken for a decision, in both directions: tag, lists, the default of `caveats` |
| Reading.FindingRead | src/seam.rs:123-130 | which JSON values are taken for a finding, in both directions |
| Json.EscapeIsShortest | src/attest.rs:95-100 | a character is escaped only where JSON demands it and by the shortest escape: no text that reads as the character is shorter than its printed form |
| Codec.BundleRoundTrip | src/erc8004/mod.rs:119-121 | parsing an evidence bundle gives back the signed decision it was printed from: any strings, lists, absent or present accounts, empty or non-empty caveats |
| Codec.DecisionRoundTrip | src/decide.rs:42-53 | the tagged decision reads back, with `caveats` skipped when empty and defaulted on reading |
| Codec.FindingRoundTrip | src/seam.rs:123-130 | a finding reads back whether its account is printed or skipped |
| Leniency.SignedIgnoresOrder | src/erc8004/mod.rs:148-149 | documents that differ only in the order of members, in any records at any depth at once, carry the same signed decision or are both refused |
| Leniency.ReorderedBundle | src/erc8004/mod.rs:148-149 | an evidence bundle reordered in any of its records and printed again parses to the signed decision it came from |
| Leniency.PermutedIsSameData | src/erc8004/mod.rs:148-149 | permuting the members of an object is one such difference in order |
| Leniency.SignedSkipsUnknown | src/erc8004/mod.rs:148-149 | members with keys outside the record, however many and wherever inserted, leave a signed decision as it was read |
| Leniency.BindingSkipsUnknown | src/erc8004/mod.rs:148-149 | the same for a binding |
| Leniency.FindCounts | src/erc8004/mod.rs:148-149 | a field is accepted exactly if it occurs once; a repeated field is refused |
| Codec.BindingTextInjective | src/attest.rs:95-100 | different bindings print to different text |
| Layout.BindingLayout | src/attest.rs:50-62 | the text that is hashed, for every binding: field names, order, variant names and punctuation |
| Layout.BundleLayout | src/attest.rs:104-111 | the text of an evidence bundle, for every signed decision |
| Text.Utf8Injective | src/attest.rs:95-100 | different texts have different bytes, so nothing is lost between text and hash |
| Text.HexSpellings | src/erc8004/mod.rs:151-154 | the texts that decode to some bytes are exactly the case variants of their printed hex: comparing hex case-insensitively is comparing bytes |
| Text.JoinSplits | src/decide.rs:174-184 | joined reasons have the separator between neighbours and nowhere else |
| Text.DecimalReadsBack | src/decide.rs:115-120 | a printed amount reads back as the amount, without a leading zero |
| Attest.PreimageParts | src/attest.rs:95-100 | the hash is fed the domain tag, byte for byte, and then the UTF-8 of the printed binding |
| Attest.DigestCommits | src/attest.rs:95-100 | two bindings have one digest exactly if they are equal or their preimages are an explicit collision |
| Attest.HonestReceipt | src/attest.rs:114-121 | a receipt of a sound key verifies against every case variant of that key, and any other trusted text is a signer mismatch |
| Attest.RejectionReason | src/attest.rs:140-163 | which error a rejected receipt gets, in both directions: signer first, then form, then signature |
| Attest.AcceptedMeansVerified | src/attest.rs:140-163 | acceptance under a trusted key means those very 32 bytes verify the binding's digest |
| Erc8004.HonestBundle | src/erc8004/mod.rs:143-158 | the exact result of checking an honest bundle for every hash text and signer text: accepted under the spellings of its digest and key, and which error otherwise |
| Erc8004.AlteredEvidence | src/erc8004/mod.rs:150-154 | evidence altered in its binding is a hash mismatch under the original's hash, whoever signed it, or the bindings collide |
| Erc8004.VerifyBundleCases | src/erc8004/mod.rs:143-158 | the exact result for every text, hash text and signer text: malformed if and only if the text is no document that says a signed decision, a mismatch if and only if the hash text does not spell the digest, then the signature check's error, else that decision's response |
| Erc8004.ResponseTable | src/erc8004/mod.rs:93-113 | score and tag of every signed decision in literal values, and that the hash spells its digest |
| Erc8004.OneHashOneBindingText | src/erc8004/mod.rs:151-157 | two texts accepted under case variants of one hash, by whatever signers, say one binding and yield one response, or collide |
| Erc8004.AuthenticText | src/erc8004/mod.rs:143-158 | against anyone composing text, hash and signer: what a text accepted under a key says was signed with it, or collides with something that was, or carries a forged signature, and the value is its response |
| Gate.Decide | src/decide.rs:61-145 | settles exactly when it is safe, without caveat on recovered facts and with exactly the note on asserted ones; otherwise `r` is among the reasons if and only if it reports one of the failures in its literal words |
| Gate.DecisionTells | src/decide.rs:38-39 | a hold carries every reason and no other: membership is equivalent to a list of failures with literal texts; a hold is never empty |
| Gate.ReasonsInOrder | src/decide.rs:61-145 | the whole list of reasons: unverifiable, unexecuted, findings at ascending positions or the level, uncovered accounts at ascending positions, vm, asset, amount, recipient, or the note on asserted facts |
| Gate.DecideLevels | src/decide.rs:79-94 | for each of the four limits, the levels named, at which `decide` settles, with all its other conditions |
| Gate.CrossVmLevels | src/decide.rs:189 | for each of the four limits, the levels named, at which `decide_crossvm` settles: on `Matched` only, without caveats |
| Gate.ReasonNames | src/decide.rs:87-90 | how levels and machines are named in reasons |
| Seam.SeverityOrder | src/seam.rs:112-119 | which of two severities exceeds the other, pair by pair |
| Gate.Bind | src/decide.rs:149-159 | pushes one reason for a missing fact, one for a differing fact, none for an equal one |
| Gate.DecideCrossVm | src/decide.rs:166-213 | settles, without caveats, exactly on `Matched` at the levels its limit names; otherwise `r` is among the reasons if and only if it is the reconcile's literal headline with its joined reasons or reports the failed screen |
| Gate.CrossVmReasonsInOrder | src/decide.rs:174-207 | the literal headline of each reconcile that is not `Matched` comes first and the screen's reasons follow at ascending positions |
| Gate.SettlesExactlyWhenSafe | src/decide.rs:61-145 | settles if and only if the leg is verifiable, executed if required, within the level, fully covered, and bound to vm, asset, amount and recipient of the intent (or asserted, where the policy allows it) |
| Gate.AmountBinding | src/decide.rs:115-120 | comparing printed amounts accepts exactly the equal amounts |
| Gate.CoverageMultiplicity | src/decide.rs:97-103 | an uncovered account is reported exactly as often as it is required, a covered one never |
| Gate.InvariantMembers | src/decide.rs:79-94 | above the threshold the reasons are the lines of the findings above it, or the level alone when there is no such finding |
| Gate.InvariantReasonsInOrder | src/decide.rs:79-94 | above the threshold the reasons are one line for each finding above it, at ascending positions that are exactly those findings', or the level alone when there are none |
| Gate.GateMonotone | src/decide.rs:61-145 | a looser policy, more coverage, fewer required accounts or a lower level never turns a settle into a hold or changes its caveats |
| Gate.RequiredAccountsAreASet | src/decide.rs:97-103 | reordering or repeating required accounts changes neither the outcome nor the set of reasons |
| Gate.ExecutionRestsOnReconcile | src/decide.rs:166-213 | for each proof: settling under `requireExecuted` implies executed legs, for all verdicts and policies, if and only if the proof is not `Matched` with an unexecuted leg |
| Gate.RecoveryRestsOnReconcile | src/decide.rs:166-213 | for each proof: settling under `requireRecoveredFacts` implies recovered facts on every leg if and only if the proof is not `Matched` with an asserted leg |
| Gate.UnexecutedLegSettles | src/decide.rs:166-213 | a concrete matched proof with an unexecuted, caller-asserted leg that settles under both requirements |
| Gate.LevelMustCoverFindings | src/decide.rs:79-94 | for each verdict: no settlement of either gate hides a finding above its limit, over all proofs and policies, if and only if the level is at least the severity of each finding |
| Store.MemStore.Put | src/erc8004/store.rs:68-72 | pins the bundle under its content address and changes nothing else |
| Store.MemStore.Get | src/erc8004/store.rs:73-77 | returns what is pinned, or not-found |
| Store.Addresses | src/erc8004/store.rs:68-102 | the addresses spelled out: scheme and hash; a file below the root, with a slash added only where the root does not end in one |
| Store.EmbeddedHashOf | src/erc8004/store.rs:27-30 | for every address the embedded hash is the last name after the slashes, less a `.json` ending |
| Store.MemUriEmbedsHash | src/erc8004/store.rs:27-30 | the hash embedded in a memory address is the response hash |
| Store.FileUriEmbedsHash | src/erc8004/store.rs:96-102 | under every root the hash embedded in a file address is the response hash, and stripping the scheme gives the path back |
| Validator.HandleRequest | src/erc8004/validator.rs:80-101 | the action and the new store for every request, validator and store: abstentions and errors leave the store as it was |
| Runs.EmittedResponsesStayVerifiable | src/erc8004/validator.rs:80-101 | in every one-signer run each response ever emitted stays fetchable after all later calls, and its bundle passes the check under the emitted hash and any spelling of the key, re-deriving what was emitted unless a collision was published |
| Runs.NoSubstitutionText | src/erc8004/mod.rs:143-158 | whatever text is accepted under a spelling of an emitted hash, by any signer, yields exactly the emitted response, or collides |
| Runs.StoreHoldsPublished | src/erc8004/store.rs:67-78 | after every run the store holds only published bundles, each at the address of its own binding |
| Runs.PublishedStays | src/erc8004/store.rs:67-78 | the address of every published binding is in the store after all later calls |
| Runs.AddressesStay | src/erc8004/store.rs:67-78 | addresses are never removed |
| Runs.StoreSize | src/erc8004/store.rs:59-61 | the store holds exactly one bundle for each distinct response hash emitted |
| Runs.LastPublisherIsStored | src/erc8004/store.rs:68-72 | after every run an address holds the bundle of the last call that published there |
| Runs.OneStorePerSigner | src/erc8004/store.rs:68-72 | in every run with a key for each call: what is stored for a response verifies under the key that signed it if and only if the last publisher at its address has the same public key, and is a signer mismatch otherwise |
| Runs.Serve | src/erc8004/validator.rs:80-101 | handling requests one after another on one store gives exactly the outcomes and the store of the run |
| Runs.ServeThenCheck | src/erc8004/store.rs:67-78 | after serving all requests, fetching any emitted response through the store and checking it gives back what was emitted, or a published collision; the store has grown by one bundle for each distinct hash |
| Runs.Conservation | src/erc8004/validator.rs:85-99 | responses, abstentions and errors partition the calls, responses are as many as the publishing calls and errors as the failed ones, and the scores sum to 100 for each settled verdict |
| Runs.OutcomesEcho | src/erc8004/validator.rs:85-99 | every action carries the hash of the request it answers |
| Runs.AbstentionsLeaveNoTrace | src/erc8004/validator.rs:87-89 | dropping every request that abstains or fails changes neither the store nor the number of responses nor the sum of scores |
| LiquetValidator.HashedText | src/attest.rs:65-100 | the hashed text from the reports, for all of them: `settlement_id`, `claim_hash`, each leg's vm, executed and digest in the producer's order, reconcile, verdict and policy each print the report's own value of that name, after the literal domain tag |
| LiquetValidator.WordsInText | src/seam.rs:84-119 | the words that stand for machines, severities and reconciles in that text |
| LiquetValidator.DecisionFollowsFromBinding | src/erc8004/liquet_validator.rs:77-80 | the decision is re-derivable from what was signed: settle exactly on committed `Matched` within the committed threshold; whole for a matched settlement; all but the first reason otherwise |
| LiquetValidator.ReasonsAreNotCommitted | src/attest.rs:65-87 | reports differing only in the reconcile's reasons are bound alike except for the decision, and wholly alike exactly if matched or joined to the same text |
| LiquetValidator.BindingCommitsToReports | src/attest.rs:65-100 | two settlements have one digest if and only if ids, claim hash, reconcile, verdict, policy and every leg digest in order agree, and the reconcile is `Matched` or the joined reasons agree - or their bindings collide |
| LiquetValidator.PipelineAction | src/erc8004/mod.rs:93-113 | the on-chain action for every report: score and tag, abstention or error |
| LiquetValidator.PipelineResponsesStayVerifiable | src/erc8004/liquet_validator.rs:61-82 | in every run of the pipeline the evidence of each published job stays stored and checks to that job's score, tag and hash, or collides with another published job |
| LiquetValidator.PipelineScores | src/erc8004/mod.rs:93-113 | over every run of the pipeline the scores sum to 100 for each matched settlement within its threshold |
| LiquetValidator.PassIsEarnedText | src/erc8004/liquet_validator.rs:70-80 | any text whatever that is accepted under the operator's key with score 100 says the binding of a job reconciled as `Matched` at a level its committed limit names, or collides with one the pipeline signed, or is a forgery |
| Custos.ProofFromOutcome | src/adapters/custos.rs:59-99 | whatever the map's iteration order and the order of equal elements in the sort, the proof is the canonical one; its digest field spells the hash of the canonical bytes |
| Custos.ProofCommits | src/adapters/custos.rs:87 | two proofs have one digest field if and only if the account maps are equal or their encodings are an explicit collision |
| Custos.ProofDigestOf | src/adapters/custos.rs:65-87 | the digest field spells the hash of bytes that begin with the literal tag and of which the rest decodes to exactly the map's entries in ascending order |
| Custos.EntryBytes | src/adapters/custos.rs:70-81 | the bytes of an entry by offset: key, presence, lamports, owner, length, data |
| Custos.CoveredInOrder | src/adapters/custos.rs:60-63 | the covered accounts are the printed keys of exactly the map's keys, in ascending byte order |
| Bytes.LittleEndianWeights | src/adapters/custos.rs:75-77 | the weight of each of the eight bytes of a u64, least significant first |
| Custos.SortByKey | src/adapters/custos.rs:61 | sorts the array in place into a permutation ordered by key bytes |
| Custos.SortedListingUnique | src/adapters/custos.rs:60-63 | two strictly sorted listings of the same entries are one listing, so an unstable sort has no freedom |
| Bytes.LexIsNumeric | src/adapters/custos.rs:61 | byte order on keys of one length is the order of their big-endian values |
| Custos.EntriesRoundTrip | src/adapters/custos.rs:65-82 | a decoder recovers every account, absent ones included, from the bytes alone, with data of any u64 length and no count field |
| Custos.PoststateCommits | src/adapters/custos.rs:65-87 | two outcomes have one digest exactly when their account maps are equal or their encodings are an explicit collision |
| Custos.DomainsSeparate | src/adapters/custos.rs:66-69 | no decision preimage is ever a poststate preimage |
| Custos.CoveredAccounts | src/adapters/custos.rs:62-63 | the covered accounts are exactly the printed keys of the outcome, absent accounts included |
| Custos.CoverageIsOneToOne | src/adapters/custos.rs:62-63 | with a printer that tells keys apart each covered account stands for exactly one account |
| Custos.CustosSettlement | src/decide.rs:96-137 | when the gate settles on a Custos proof, in both directions, and that it then carries exactly one caveat |
| Custos.FindingsKept | src/adapters/custos.rs:35-49 | a mapped verdict keeps every finding in place with its code, message, printed account and the level of the same name, and its own level |
| Custos.CustosVerdictSettles | src/adapters/custos.rs:35-49 | for each limit, the Custos levels named, at which either gate settles on a mapped verdict |
| Custos.GateReportsCustosFindings | src/adapters/custos.rs:35-49 | the gate's lines for a mapped verdict are those of the Custos findings above the threshold, in order |

## Left out

- SHA-256 compression, Ed25519 arithmetic, base58: library code, arbitrary functions here.
- `Signature::from_slice` is taken to check the length only; a 64-byte string that the scheme rejects is a bad signature.
- Reading.BundleExact: not the spellings that only serde adds - a record as an array, a unit variant as a one-field object, a lone surrogate inside a skipped string: the model refuses these; nor its nesting limit, nor its refusal of a number beyond f64 in an unknown field of a decision. What is accepted is then checked alike: `Erc8004.Authentic`, `Erc8004.OneHashOneBinding`, `Runs.NoSubstitution` and `LiquetValidator.PassIsEarned` hold for every signed decision, however it was spelled.
- Erc8004.VerifyBundleCases: the same, as to which text is malformed.
- revm, LiteSVM, the Custos rules, probatio's reconcile and leg reconstruction, `src/adapters/xvm_custos.rs` and `src/adapters/probatio.rs`: not modelled; their reports are arbitrary inputs.
- Parsing of the claim in `LiquetValidator::validate`: its failures are producer failures here.
- `FileStore` reads and writes and Windows paths: file I/O; only its address functions are modelled, for Unix paths. `MemStore::put` cannot fail, so the handler's store error does not arise.
- The loop over requests: the repository handles one request and leaves the loop to its client; `Runs.Serve` is the plain one.
- Incremental hashing: a hasher is what it has been fed, in order.
- The on-chain client and registries described in `STAGE_ERC8004_VALIDATOR.md`: not implemented in the repository.
- `GatePolicy::default`, `InvariantVerdict::green`, `is_empty`, `is_published`: not modelled.
