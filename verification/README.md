# OPL Cloud local qualification: a verified model

This project models the parts of OPL Cloud's tooling that hold money, evidence or identity, and proves what they
promise over every input, every schedule and every response a server may give.

- **Candidate receipts** (`Json`, `JsonGrammar`, `JsonRoundTrip`, `JsonSpelling`, `Base64`, `Receipt`, `Candidate`,
  `Bundle`, `Release`): canonical JSON with a full JSON parser, proved against the grammar of RFC 8259 (strings as
  UTF-16 units), the strict base64 gate (sections 4 and 3.5 of RFC 4648), the receipt validator, the bundle verifier,
  and the release directory it is meant to accept.
- **Sub2API authority** (`Decimal`, `Authority`, `AuthorityMachine`, `AuthorityHistory`, `AuthorityDeletes`,
  `AuthorityServer`): exact USD decimals, the wallet and key ledger, and the process around it as a machine over
  requests, queue steps, throwing callbacks, write failures, renames, swaps, crashes and restarts. A run is any list
  of events; an event that cannot happen leaves the machine alone, so a statement over lists is a statement over every
  interleaving.
- **Live qualification** (`Recovery`, `LiveRun`, `Readers`): the recovery readback and cleanup plan with JavaScript's
  rounding addition, one live run that may fail at any await, and the paginated, cursor and continuation loops against
  an arbitrary server. `Confirmation` joins the authority to the reader that confirms its adjustments.
- **Smaller cores**: the chunked Go-test reader and failure leaves (`GoTest`), the idempotent write tables of the
  console fixture (`Console`, `ConsoleAccounts`, `ConsoleBoard`, `ConsoleEffects`, `ConsoleFixture`), and the
  bulk-create mutator chain (`BulkCreate`).

Code that changes state in place is modelled as classes and loops (`AuthorityServer`, `ConsoleFixture`,
`GoTest.Reader`, `BulkCreate`, the readers), each proved against functions whose properties are the lemmas listed
below.

Where the code does not keep a law one would expect, the model follows the code, shows an input, and proves exactly
when the law holds:

- `JSON.parse` can yield Infinity (`1e999`), which canonicalises to `null` (`OverflowIsParsed`); two values have one
  canonical text exactly when they agree up to member order with Infinity read as null (`CanonicalEqualIff`).
- DELETE looks its key up outside the mutation queue, so two overlapping DELETEs of one key can both count
  (`OverlappingDeletesCountTwice`). After every schedule, live keys are creates minus deletes if and only if no id is
  repeated among the DELETEs whose write was renamed into place (`LiveKeysIff`).
- If the summed provider counters of an accepted readback leave the safe integers, the cleanup plan throws before the
  preserve flag is set and the outer finally destroys what it reaches; evidence of an unvalidated purchase is lost
  exactly then, provided a removal of the outer finally can be started at all (`RunLive`, `EvidenceCanBeLost`).
- The two decimal parsers differ, among strictly accepted texts, on exactly the texts with a minus sign and only zero
  digits (`LooseAgreesIff`).
- The failure map of the Go-test summary holds every failed test if and only if no two of them share the NUL-joined
  map key (`MapHoldsFailuresIff`); a NUL in a package name can make them share it (`NulPackageLosesATest`).
- An idempotency key that is a name every JavaScript object inherits (such as `constructor`) is never stored and
  always answers conflict (`InheritedNamesConflict`, `ConstructorConflicts`), and a create whose expiry lies outside
  the range of dates throws in its callback, is answered with a failure and stores nothing (`FarExpiryFails`). An
  answered create succeeds if and only if, in the state it started from, its name is bound under the same payload to a
  key that is still live, or is unbound and not inherited and its expiry is absent or a date (`CreateSucceedsIff`).
- The balance history shows amounts as doubles. A redeem answered with success is confirmed by the live reader if and
  only if its amount, so shown, still reads back exactly (`SuccessIsConfirmedIff`); a refund of 9007199254.740994
  shown as the neighbouring 9007199254.740993 is applied and answered, and not confirmed (`RefundIsNotConfirmed`).
- A Go-test failure that names no package is in neither list of failures, so the run can still resolve (`ResolvesIff`,
  `FailWithoutPackageResolves`).

`dafny verify dfyconfig.toml` checks the whole project.

## Model

| member | source | states |
|---|---|---|
| Json.ParseEscaped | tools/cloud-candidate-receipt.ts:47-49 | reading back the JSON text of any string, lone surrogates included, gives the string, whatever follows |
| Json.SortSorted | tools/cloud-candidate-receipt.ts:47 | sorting members orders their keys by UTF-16 units, strictly when keys are distinct |
| Json.SortKeepsMembers | tools/cloud-candidate-receipt.ts:47 | sorting keeps exactly the members there were, each as often |
| Json.ParseWf | tools/cloud-candidate-receipt.ts:97 | every value JSON.parse returns is well formed: distinct member names, numbers that read back |
| JsonGrammar.ParseIff | tools/cloud-candidate-receipt.ts:97 | a text parses to a value if and only if some syntax tree of RFC 8259, with white space where its section 2 allows it, spells the text and means the value |
| JsonGrammar.TokenIff | tools/cloud-candidate-receipt.ts:97 | a number token is exactly what section 6 of RFC 8259 spells: optional minus, digits without a leading zero, optional fraction and exponent |
| JsonSpelling.CanonicalIsTight | tools/cloud-candidate-receipt.ts:44-52 | the canonical text is spelled by a tree with no white space, names in order and strings as short as they can be, which means the value with members sorted |
| JsonSpelling.UnitIsShortest | tools/cloud-candidate-receipt.ts:49 | every unit of a string but a lone surrogate is written by its shortest spelling, hexadecimal digits in lower case |
| JsonSpelling.LexIff | tools/cloud-candidate-receipt.ts:47 | names are ordered by the first unit in which they differ, a beginning before the whole |
| JsonRoundTrip.ParseCanonical | tools/cloud-candidate-receipt.ts:134-137 | parsing the canonical text, with or without the manifest's line feed, gives the value with members sorted at every depth |
| JsonRoundTrip.CanonicalIsIdempotent | tools/cloud-candidate-receipt.ts:44-52 | canonicalising what the canonical text parses to gives the same text |
| JsonRoundTrip.CanonicalEqualIff | tools/cloud-candidate-receipt.ts:44-52 | two values have equal canonical texts if and only if they are equal up to member order at every depth, non-finite numbers read as null |
| JsonRoundTrip.FiniteCanonicalEqualIff | tools/cloud-candidate-receipt.ts:44-52 | for values without Infinity, equal texts if and only if equal up to member order |
| JsonRoundTrip.InfinityCollidesWithNull | tools/cloud-candidate-receipt.ts:49 | Infinity and null are different values with one canonical text |
| Base64.DecodeEncode | tools/cloud-candidate-receipt.ts:94-95 | every byte string comes back from its base64 text, which has the shape of the pattern |
| Base64.EncodeDecodeIff | tools/cloud-candidate-receipt.ts:94-95 | a shaped text survives decoding and re-encoding if and only if its pad bits are zero |
| Base64.GateIff | tools/cloud-candidate-receipt.ts:89-95 | the gate passes exactly the encodings of non-empty byte strings, equivalently the non-empty shaped texts with zero pad bits |
| Base64.GateIsInjective | tools/cloud-candidate-receipt.ts:89-95 | distinct passing texts decode to distinct bytes |
| Receipt.NormalReceipt | tools/cloud-candidate-receipt.ts:54-82 | reordering members at any depth keeps a receipt valid and keeps its assets |
| Receipt.ReceiptIsAscii | tools/cloud-candidate-receipt.ts:54-82 | the canonical text of every valid receipt is ASCII, even where the validator only looks at String(field) |
| Candidate.ObjectIff | tools/cloud-candidate-receipt.ts:36-38 | a value is the object with the given members, up to their order, if and only if it has exactly those names and under each the given value |
| Candidate.ValidReceiptIff | tools/cloud-candidate-receipt.ts:54-82 | the validator accepts a value if and only if it is, up to member order, the receipt a build writes for some commit, tree, three different digests, asset hashes and run numbers, each in whatever type whose String(...) has that shape; the image revision is the product commit |
| Candidate.StringReceiptIff | tools/cloud-candidate-receipt.ts:54-82 | with those fields all strings, a value is accepted if and only if it is the receipt of a build, up to member order |
| Bundle.DecodeOfEncodedReceipt | tools/cloud-candidate-receipt.ts:89-102 | decoding the base64 of the canonical text of a receipt a build can write gives the same receipt up to member order |
| Bundle.DecodedIff | tools/cloud-candidate-receipt.ts:89-102 | a text decodes to a value if and only if it passes the gate, parses to that value, and that is a receipt a build can write |
| Bundle.LineIff | tools/cloud-candidate-receipt.ts:145-149 | the checksum pattern, name and digest tests together say exactly "digest, two spaces, covered name" |
| Bundle.ListingIff | tools/cloud-candidate-receipt.ts:139-149 | SHA256SUMS is the one ordered listing if and only if it ends with a line feed and splits into the listed lines |
| Bundle.ReadableNames | tools/cloud-candidate-receipt.ts:129-131 | the loop succeeds if and only if every expected name is stored as a regular file that can be read |
| Bundle.RightNamesIff | tools/cloud-candidate-receipt.ts:122-127 | the directory check passes if and only if the entries are the expected regular files, each once, in any order |
| Bundle.ReadChecksums | tools/cloud-candidate-receipt.ts:139-149 | returns the digests of a well-formed checksum file; fails only when no list of digests fits |
| Bundle.ChecksumsIff | tools/cloud-candidate-receipt.ts:145-158 | for a well-formed checksum file, being the listing is exactly every digest being its file's hash |
| Bundle.AssetsAgree | tools/cloud-candidate-receipt.ts:151-156 | succeeds exactly when every asset's hash is both the receipt's and the checksum file's |
| Bundle.FilesAgree | tools/cloud-candidate-receipt.ts:139-158 | succeeds exactly when the receipt lists every asset's hash and SHA256SUMS is the listing of the files |
| Bundle.ValidateBundle | tools/cloud-candidate-receipt.ts:120-163 | accepts exactly the directories that are what the release writes for some receipt a build can write, and returns such a receipt |
| Bundle.BundleFilesAreUnique | tools/cloud-candidate-receipt.ts:104-163 | receipt and asset bytes determine the manifest and the checksum file byte for byte |
| Candidate.BuildHasReceipt | tools/cloud-candidate-receipt.ts:54-82 | every build with well-formed hashes, three distinct digests and run numbers has a valid receipt listing its asset hashes |
| Release.ReleaseIsAccepted | tools/cloud-candidate-receipt.ts:104-163 | the directory holding a receipt a build can write, the assets it lists and their checksums is a bundle of that receipt |
| Release.BuildIsReleasable | tools/cloud-candidate-receipt.ts:104-163 | so every well-formed build's own receipt and assets are accepted |
| Release.SampleHostIsGood | tools/cloud-candidate-receipt.ts:40-42 | the facts asked of hashing, UTF-8 and number reading are consistent |
| Release.OverflowIsParsed | tools/cloud-candidate-receipt.ts:49 | under a number reading that meets all that is asked, parsing 1e999 gives Infinity, and its canonical text parses to null |
| Decimal.MatchIff | tools/local-sub2api-authority-fixture.ts:219 | the decimal pattern matches exactly sign, digits, optional point with one to six digits |
| Decimal.StrictMeansIff | tools/local-sub2api-authority-fixture.ts:216-224 | strict parsing succeeds if and only if the text is a decimal without leading zeros, and gives exactly the millionths its digits say, however many stand after the point |
| Decimal.UsdTextRoundTrip | tools/local-sub2api-authority-fixture.ts:216-231 | strict parsing of the decimal text built for any integer number of micros gives that number |
| Decimal.LooseAgreesIff | tools/local-workspace-qualification.ts:1012-1018 | on every strictly accepted text the looser parser prints the same amount, if and only if the text is not a minus sign before nothing but zero digits |
| Decimal.LooseMeansIff | tools/local-workspace-qualification.ts:1012-1018 | the looser parser takes white space around and leading zeros, and prints exactly the millionths the digits say |
| Decimal.TrimIff | tools/verify-local.ts:219 | trimming takes white space off both ends and nothing else; a text is blank if and only if it is all white space |
| Decimal.LooseReadsUsdText | tools/local-workspace-qualification.ts:1012-1018 | the decimal text the authority writes for a non-zero amount is read back by the looser parser as that amount |
| Decimal.IntTextDigits | tools/local-sub2api-authority-fixture.ts:149 | an amount prints as digits only if and only if it is not negative |
| Authority.RedeemKeeps | tools/local-sub2api-authority-fixture.ts:592-620 | a redeem keeps wallet = initial + sum of adjustments >= 0, distinct codes and at most one debit and one refund, loses nothing, and a success names an adjustment on record for the request |
| Authority.RedeemOutcomeIff | tools/local-sub2api-authority-fixture.ts:592-620 | created if and only if the code is new, no adjustment of the same sign is stored and the wallet covers it; replayed if and only if it was sent before; each refusal if and only if its own case; and only a creation stores anything, namely the request |
| Authority.KeyKeeps | tools/local-sub2api-authority-fixture.ts:477-507 | creating or replaying keeps nextKeyId = 700 + creates = 700 + requests and increasing ids, and a success names the key bound to the idempotency key |
| Authority.KeyOutcomeIff | tools/local-sub2api-authority-fixture.ts:477-507 | created, replayed, conflict and failure each if and only if its own condition on the state; a creation stores the key with the input and time of the request, nothing else stores anything |
| Authority.DeleteKeeps | tools/local-sub2api-authority-fixture.ts:526-537 | deleting removes exactly the named key, counts one delete and keeps every invariant |
| Authority.GoodIsValidStored | tools/local-sub2api-authority-fixture.ts:146-152 | every state with the ledger invariants passes the check made at a restart |
| Authority.ValidStoredIff | tools/local-sub2api-authority-fixture.ts:146-152 | a stored file passes the check if and only if it has this owner and initial amount, a wallet that is not negative and at most two adjustments |
| Authority.RedeemIsIdempotent | tools/local-sub2api-authority-fixture.ts:593-596 | in every later state, re-sending an applied code and payload changes nothing and answers the same adjustment |
| Authority.DeletedKeyConflictsForever | tools/local-sub2api-authority-fixture.ts:478-484 | once a created key is gone its idempotency key answers conflict in every later state |
| AuthorityMachine.StepKeepsInv | tools/local-sub2api-authority-fixture.ts:320-331 | every event keeps the machine's invariant and never takes anything back from the disk |
| AuthorityMachine.EveryRunIsSound | tools/local-sub2api-authority-fixture.ts:154-178 | after any schedule the stored file is sound (wallet, codes, ids, counts), passes validation, and no start ever refused it |
| AuthorityMachine.StartRefusesIff | tools/local-sub2api-authority-fixture.ts:154-158 | a start over a stored file is refused, leaving the file alone, if and only if it was written for another owner or initial amount or is unsound; otherwise the process comes up with what is stored |
| AuthorityMachine.DiskIsBeforeOrAfter | tools/local-sub2api-authority-fixture.ts:167-178 | after every schedule, whatever happens next leaves the file alone, writes the first one, or moves it by exactly one mutation; while the process is up, the file is memory, or memory after the current mutation once that is renamed |
| AuthorityMachine.DiskIsSerialHistory | tools/local-sub2api-authority-fixture.ts:154-178 | after every schedule, up or down, the file is the first one with the renamed jobs applied in order, each at its start time; before a first start there is no file |
| AuthorityHistory.AnswersAreSerial | tools/local-sub2api-authority-fixture.ts:320-331 | after every schedule answer i is what its job makes of the first file after the jobs committed before it, and the job is the next commit unless its callback threw; a DELETE answered without a job found no such key there |
| AuthorityHistory.RedeemAnsweredIff | tools/local-sub2api-authority-fixture.ts:592-620 | along every schedule an answered redeem is created, replayed or refused exactly as the state it started from demands, and the next state of the history holds exactly what it stored |
| AuthorityHistory.KeysWereCreated | tools/local-sub2api-authority-fixture.ts:485-502 | every key of every history has the input and creation time of the committed create that is bound to it |
| AuthorityHistory.AnsweredKeyWasCreated | tools/local-sub2api-authority-fixture.ts:477-507 | whatever key a create is answered with was made by a committed create under the same idempotency key, with that input, at that time |
| AuthorityHistory.CommitsFollowArrivals | tools/local-sub2api-authority-fixture.ts:320-331 | jobs are committed in the order in which they were queued, each at most once: from any machine the commits are a subsequence of what was pending and what is queued later, so from a process that is down only of what is queued later |
| AuthorityHistory.QueuedFollowsArrivals | tools/local-sub2api-authority-fixture.ts:477-592 | what is queued is a subsequence of the admitted requests, in order |
| AuthorityMachine.AdjustmentsWereRequested | tools/local-sub2api-authority-fixture.ts:570-620 | after every schedule each stored adjustment has the code, notes and exact decimal amount of a redeem body that arrived |
| AuthorityMachine.AdmitIff | tools/local-sub2api-authority-fixture.ts:440-592 | what each handler lets through to the queue, field by field, and the job it makes of it |
| AuthorityHistory.CommittedWasAsked | tools/local-sub2api-authority-fixture.ts:320-331 | every committed job was asked for by a request that arrived |
| AuthorityHistory.KeysWereRequested | tools/local-sub2api-authority-fixture.ts:439-502 | after every schedule each stored key has the input of a well-formed create request that arrived |
| AuthorityMachine.NothingIsLost | tools/local-sub2api-authority-fixture.ts:320-331 | whatever is stored at some point of a schedule is still there at every later point, crashes and restarts included |
| AuthorityMachine.AppliedExactlyOnce | tools/local-sub2api-authority-fixture.ts:592-620 | all success answers for one code name one adjustment, which is on disk exactly once with the hash of every request so answered |
| AuthorityMachine.AppliedAmount | tools/local-sub2api-authority-fixture.ts:592-620 | with a collision-free request hash the applied amount and notes are those of every request told so |
| AuthorityMachine.KeyIdsNeverReused | tools/local-sub2api-authority-fixture.ts:477-507 | two success answers name the same key id if and only if they were for the same idempotency key |
| AuthorityMachine.DeletedKeyConflicts | tools/local-sub2api-authority-fixture.ts:477-537 | once a bound key is gone from disk, every answer given later to its idempotency key, in every continuation, is a conflict |
| AuthorityHistory.InheritedNamesConflict | tools/local-sub2api-authority-fixture.ts:477-507 | over every schedule no inherited name is ever bound and every answer for one is a conflict |
| AuthorityHistory.CreateSucceedsIff | tools/local-sub2api-authority-fixture.ts:477-507 | along every schedule, a create that is answered was started by an event of the schedule after a number of commits, and succeeds if and only if, in the state those commits make of the first file, its name is bound to a live key under the same hash, or is unbound and not inherited and the expiry is absent or a date then; each answer is given exactly in its case, and the next state holds what it stored |
| AuthorityHistory.FarExpiryFails | tools/local-sub2api-authority-fixture.ts:499 | a well-formed first create that asks to expire in 10^12 days is answered with a failure and the file stays as it was |
| AuthorityMachine.ConstructorConflicts | tools/local-sub2api-authority-fixture.ts:477-507 | a first create named constructor is answered with a conflict |
| AuthorityDeletes.LiveKeysIff | tools/local-sub2api-authority-fixture.ts:526-537 | after every schedule live keys are creates minus the distinct ids among the committed DELETEs, and so creates minus deletes if and only if no committed DELETE repeats an id |
| AuthorityDeletes.LiveKeysExact | tools/local-sub2api-authority-fixture.ts:526-537 | when DELETEs of one key never overlap, the condition is met: live keys are exactly creates minus deletes |
| AuthorityDeletes.LiveKeysExactFromFresh | tools/local-sub2api-authority-fixture.ts:526-537 | the same from the first start |
| AuthorityDeletes.OverlappingDeletesCountTwice | tools/local-sub2api-authority-fixture.ts:526-537 | a schedule exists in which two overlapping DELETEs of the one key leave deletes above creates |
| AuthorityServer.Candidate.CreateKey | tools/local-sub2api-authority-fixture.ts:477-507 | the in-place key mutation is the ledger function of the cloned state; when it throws, only the discarded candidate has changed |
| AuthorityServer.Candidate.DeleteKey | tools/local-sub2api-authority-fixture.ts:529-533 | filtering in place is the ledger's delete |
| AuthorityServer.Candidate.Redeem | tools/local-sub2api-authority-fixture.ts:592-620 | the in-place redeem is the ledger function of the cloned state |
| AuthorityServer.Server.MutateRedeem | tools/local-sub2api-authority-fixture.ts:320-331 | one queued redeem in place is exactly the machine's start, rename and swap, or its start and failed write, with the answer the machine gives |
| AuthorityServer.Server.MutateCreateKey | tools/local-sub2api-authority-fixture.ts:320-331 | the same for key creation, where a callback that throws is answered at once and changes neither copy |
| AuthorityServer.Server.HandleDelete | tools/local-sub2api-authority-fixture.ts:526-537 | a missing key succeeds without a mutation; a present one is removed and counted; either way it is the machine's run of the request, and after success the key is gone |
| Recovery.RoundIff | tools/local-workspace-recovery.ts:113-119 | double addition is exact below 2^53, and a sum that reaches 2^53 never reads as a safe integer |
| Recovery.RoundsToNearest | tools/local-workspace-recovery.ts:113-119 | double addition rounds to a multiple of the power of two that leaves 53 digits, at most half of it away, half way to the even one |
| Recovery.NormalizeIff | tools/local-workspace-recovery.ts:82-107 | a stage is accepted if and only if its own fields are safe counts in bounds, texts and, once attempted, a key; the normal form says the same under the same names, the key only by its digest |
| Recovery.AcceptedIff | tools/local-workspace-recovery.ts:121-154 | a readback is accepted if and only if it identifies a launch and every one of the nine stages is there and accepted |
| Recovery.Summarize | tools/local-workspace-recovery.ts:121-154 | accepts exactly the identified readbacks whose nine stages normalise, and returns each stage's normal form |
| Recovery.PreserveIff | tools/local-workspace-recovery.ts:65-80 | there is a disposition if and only if every category is safe and bounded; then authority is preserved if and only if the run is not ready and the launch went out or some write was attempted, otherwise it cleans up; each under its own reason |
| Recovery.SummaryDispositionIff | tools/local-workspace-recovery.ts:65-154 | an accepted readback has a disposition if and only if the provider attempts it reports add up to a safe integer, and then the sum is exact |
| Recovery.SummaryBounds | tools/local-workspace-recovery.ts:121-154 | in every accepted summary every category confirms and doubts at most what it attempted; the provider category, the only sum, does whenever the attempts it reports are a safe integer |
| Recovery.UnsafeBoundFails | tools/local-workspace-recovery.ts:113-119 | two accepted provider stages whose attempts round down to fewer than are confirmed or in doubt |
| Recovery.CategoriesCountEachStageOnce | tools/local-workspace-recovery.ts:113-154 | in every accepted summary the key, debit and receipt categories are the readback's own counters of that stage; what is reported for the providers is a safe integer if and only if the true sum of their five stages is, and then it is that sum, so that every stage but activation is counted once |
| Recovery.UnsafeTotalsAreRejected | tools/local-workspace-recovery.ts:65-80 | stages at the largest safe count are accepted one by one and rejected in sum |
| LiveRun.CollectAuthority | tools/local-workspace-qualification.ts:918-925 | the plan made from the collected authority throws exactly on an unsafe readback and otherwise preserves |
| LiveRun.PreserveEvidence | tools/local-workspace-qualification.ts:1292-1315 | the artifact is saved exactly when listing, path and write all pass; nothing is removed |
| LiveRun.TearDown | tools/local-workspace-qualification.ts:1317-1326 | removes secrets, workspace resources, compose volumes and the secret root in that order, as far as it gets before the first failing point, and succeeds exactly when every point passes |
| LiveRun.Cleanup | tools/local-workspace-qualification.ts:1285-1327 | preserves, tears down or throws exactly as the plan says |
| LiveRun.AfterSubmission | tools/local-workspace-qualification.ts:852-934 | from the launch request on: what is preserved, saved, destroyed and returned, for every failure point |
| LiveRun.FinalTeardown | tools/local-workspace-qualification.ts:1523-1546 | destroys nothing when authority is preserved; otherwise the secrets exactly when the closure did not take compose down and the wipe can start, the compose volumes exactly when both compose commands can, and the recovery root exactly when none of its own commands fails to start before it |
| LiveRun.RunLive | tools/local-workspace-qualification.ts:802-934 | over every run: something is destroyed after a submitted launch before its receipt is validated if and only if validation is not reached, the readback is unsafe and a removal of the outer finally can start (one whose process cannot be started removes nothing); exact conditions for submission, preservation, the saved artifact, the removal of each of the four assets, and success, which has removed them all |
| LiveRun.EvidenceCanBeLost | tools/local-workspace-qualification.ts:1285-1291 | a concrete environment in which that happens |
| Readers.PageCount | tools/local-workspace-qualification.ts:1043-1044 | the page count is the least number of pages of 100 that hold the items, and at least one |
| Readers.ScanPage | tools/local-workspace-qualification.ts:1055-1064 | the loop over one page of candidates is the scan of its items |
| Readers.ReadHistory | tools/local-workspace-qualification.ts:1029-1067 | the outcome and the number of requests are fixed by the replies: the first bad reply, bad item or last announced page ends the loop |
| Readers.HistoryReadIsComplete | tools/local-workspace-qualification.ts:1029-1067 | any server: it stops within the page count announced on page 1, and a verdict means every page was, field by field, what a list of that many items has there, and is the plain scan of exactly `total` items |
| Readers.HistoryReadRefinesScan | tools/local-sub2api-authority-fixture.ts:286-290 | against the authority's own pages of any fixed list there is no pagination error, and the outcome is the plain scan's, in max(1, ceil(n/100)) requests unless an item stops it |
| Readers.ScanIff | tools/local-workspace-qualification.ts:1055-1067 | a scan succeeds if and only if exactly one item carries the code and nothing is wrong with it |
| Readers.ConfirmedIff | tools/local-workspace-qualification.ts:1055-1064 | so a debit is confirmed if and only if one item has its code and reads, field by field, as the used balance item of that user and amount with both dates |
| Confirmation.SuccessIsConfirmedIff | tools/local-workspace-qualification.ts:1029-1067 | after any schedule, a redeem answered with success, looked up by the reader in the authority's own history pages, takes one request and is confirmed if and only if its amount, shown as a double, still reads back exactly |
| Confirmation.ShownAsIff | tools/local-sub2api-authority-fixture.ts:225-231 | an amount shown as the decimal text of any non-zero amount reads back if and only if it is shown as itself |
| Confirmation.RefundIsNotConfirmed | tools/local-sub2api-authority-fixture.ts:640-655 | a refund of 9007199254.740994 is applied and answered with success, and on a page that shows its neighbour it is not confirmed |
| Readers.ReadAllGatewayKeys | tools/local-workspace-qualification.ts:696-714 | any server: the outcome and the number of requests are fixed by the replies; it gives up only at the first page that disagrees, or after the last announced page when the count differs |
| Readers.KeysReadIff | tools/local-workspace-qualification.ts:696-714 | any server: stops within the announced page count; success if and only if all announced pages say, field by field, what pages of that many keys say, and together hold `total` items, and then all of them in order |
| Readers.KeyReadRefinesList | tools/local-workspace-qualification.ts:696-714 | against the pages of any fixed list of keys the reader returns exactly that list, in max(1, ceil(n/100)) requests |
| Readers.ReadAllBillingReceipts | tools/local-workspace-qualification.ts:716-734 | follows no cursor twice, so stops on any finite cursor set; success exactly on a last page, returning every page in order |
| Readers.ReceiptReadRefinesLedger | tools/local-workspace-qualification.ts:716-734 | against a ledger of several pages, each handing out its own cursor, the reader returns all pages in order, one request each |
| Readers.ContinueWorkspaceDelete | tools/local-workspace-qualification.ts:586-615 | from readback r sends at most max(1, 8 - r) requests, goes on only after pendings that are, field by field, the expected ones r+1, r+2, ..., and returns only a 200 payload |
| GoTest.SplitResumes | tools/verify-local.ts:239-242 | splitting may stop anywhere, even between CR and LF, and resume from the last piece |
| GoTest.SplitIsLossless | tools/verify-local.ts:240 | no line holds a line feed and the lines rejoin to the text with every CRLF written as LF |
| GoTest.Reader.ConsumeLine | tools/verify-local.ts:218-236 | one line changes the tallies as the line function says |
| GoTest.Reader.OnData | tools/verify-local.ts:238-243 | after any chunk every finished line so far is consumed and the unfinished one is pending |
| GoTest.Reader.OnClose | tools/verify-local.ts:245-246 | after close the tallies are those of all lines of the text |
| GoTest.ReadChunks | tools/verify-local.ts:218-246 | for every chunking of the output, what is tallied is the batch split of the whole text |
| GoTest.TallyIff | tools/verify-local.ts:218-236 | the failed events are kept in order, the skips counted, the passed packages are exactly those with a pass event, and the run is marked broken if and only if a line is neither blank nor an event |
| GoTest.PassedTestsIff | tools/verify-local.ts:227-229 | the reported passed tests are exactly those with a pass event, if and only if no two of them share a map key |
| GoTest.Summarize | tools/verify-local.ts:190-206 | the loop and filter give the leaves of the failure map and the failed packages |
| GoTest.MapHoldsFailuresIff | tools/verify-local.ts:193-200 | the map holds exactly the failed tests if and only if no two different failed tests share a map key |
| GoTest.MapHoldsFailures | tools/verify-local.ts:193-200 | in particular it does when no package name holds a NUL |
| GoTest.OrderAndDuplicatesIrrelevant | tools/verify-local.ts:190-206 | the report depends only on which events occurred, whenever no key is shared |
| GoTest.LeavesIff | tools/verify-local.ts:201-204 | the reported tests are the one antichain of failed tests that covers every failed test by itself or a subtest of the same package |
| GoTest.NulPackageLosesATest | tools/verify-local.ts:197 | with a NUL in a package name two failed tests share a key and one goes unreported |
| GoTest.ResolvesIff | tools/verify-local.ts:245-270 | the run resolves exactly when Go exited 0 and every line is blank or an event that is no skip and no fail that names a package |
| GoTest.FailWithoutPackageResolves | tools/verify-local.ts:190-206 | a fail that names no package does not keep the run from resolving |
| Console.NextFree | tools/console-browser-qa.ts:115-120 | the first number from the counter on that no key has |
| Console.IdentityInjective | tools/console-browser-qa.ts:366 | write identities tell accounts and idempotency keys apart when accounts hold no colon |
| Console.LaunchesAreKept | tools/console-browser-qa.ts:362-409 | a run stores results for exactly the identities it launches under, never changes one, and adds one workspace per new result |
| Console.OneWorkspacePerWrite | tools/console-browser-qa.ts:362-409 | from the initial state workspaces grow by exactly one per distinct write identity |
| Console.AnsweredRetriesAgree | tools/console-browser-qa.ts:362-409 | every answer to an identity is the operation its run ends up with; only the first is lost, and only under fault injection |
| ConsoleEffects.LaunchTakesEffect | tools/console-browser-qa.ts:362-409 | a first launch opens one workspace of the account with the name and plan asked for, its operation and its key; a repeated one changes none of them; the answer is the stored operation unless it is lost |
| ConsoleAccounts.OneWorkspacePerAccountAndKey | tools/console-browser-qa.ts:362-409 | in runs whose accounts hold no colon, workspaces are two plus the number of distinct account and idempotency key pairs launched under |
| ConsoleAccounts.AnsweredLaunchIsOwn | tools/console-browser-qa.ts:362-409 | every answered launch names an operation of the requesting account, on a workspace of that account |
| Console.WorkspaceIdsDistinct | tools/console-browser-qa.ts:370-398 | workspace ids are pairwise distinct in every run, and every stored operation names a workspace of its account |
| Console.IssuedIncrease | tools/console-browser-qa.ts:115-120 | numbers issued along a run strictly increase, deletes or not |
| Console.KeyIdsEverDistinct | tools/console-browser-qa.ts:115-120 | all key ids ever issued differ from each other and from the ids present at the start |
| Console.KeyRetry | tools/console-browser-qa.ts:617-636 | a key request leaves the live key of its identity alone and issues a new one exactly when there is none |
| ConsoleEffects.KeyIsAnswered | tools/console-browser-qa.ts:617-636 | the key recorded for the identity is answered, unless the response is lost, once per idempotency key |
| ConsoleEffects.DeleteTakesEffect | tools/console-browser-qa.ts:663-672 | the account's first key of that id is removed and nothing else; an id it has no key of is refused |
| Console.ReplaysNeverUndoWithdraw | tools/console-browser-qa.ts:773-818 | a withdrawn announcement stays as it is through any run whose publishes are all replays |
| Console.PublishReplay | tools/console-browser-qa.ts:773-796 | a publish replay changes no announcement and answers with the snapshot of the first publish, or is lost |
| ConsoleEffects.DraftTakesEffect | tools/console-browser-qa.ts:751-772 | a first announcement puts one draft with the texts asked for at the end of the board |
| ConsoleEffects.PublishTakesEffect | tools/console-browser-qa.ts:773-796 | a first publish publishes exactly the named announcement, with the dates asked for, and keeps the snapshot |
| ConsoleEffects.UnknownAnnouncementIsRejected | tools/console-browser-qa.ts:773-818 | publishing or withdrawing what is not on the board is refused and changes nothing |
| ConsoleEffects.KeylessIsRejected | tools/console-browser-qa.ts:362-365 | no write without an idempotency key is carried out |
| ConsoleBoard.OneDraftPerWrite | tools/console-browser-qa.ts:751-772 | announcement ids are pairwise distinct in every run, the demo one included, and there is exactly one draft per write identity |
| ConsoleBoard.AnsweredDraftsAgree | tools/console-browser-qa.ts:751-772 | every answer to an announcing identity names the one draft its run ends up with; only the first is lost, and only under fault injection |
| ConsoleBoard.WithdrawTakesEffect | tools/console-browser-qa.ts:798-818 | a first withdraw leaves exactly the named announcement withdrawn, and its snapshot is what the identity keeps in every later run |
| ConsoleBoard.WithdrawReplay | tools/console-browser-qa.ts:798-818 | a withdraw replay changes no announcement and answers with the snapshot of the first withdraw, or is lost |
| ConsoleFixture.Fixture.AllocateGatewayKeyId | tools/console-browser-qa.ts:115-120 | the loop ends at the first free id and moves the counter past it |
| ConsoleFixture.Fixture.PostLaunch | tools/console-browser-qa.ts:362-409 | the launch branch is the launch function of the state |
| ConsoleFixture.Fixture.PostKey | tools/console-browser-qa.ts:617-636 | the key branch is the key function of the state |
| ConsoleFixture.Fixture.DeleteKey | tools/console-browser-qa.ts:663-672 | deleting removes the first key with that id and owner and nothing else |
| ConsoleFixture.Fixture.PostAnnouncement | tools/console-browser-qa.ts:751-772 | the in-place draft branch is the draft function, whose runs have distinct ids, one draft per write and agreeing retries |
| ConsoleFixture.Fixture.Publish | tools/console-browser-qa.ts:773-797 | the publish branch is the publish function of the state |
| ConsoleFixture.Fixture.Withdraw | tools/console-browser-qa.ts:798-818 | the in-place withdraw branch is the withdraw function, whose first use takes effect and whose replays return its snapshot |
| ConsoleFixture.ServeAll | tools/console-browser-qa.ts:215-409 | a session's responses are those of the run, and it ends with one workspace per write identity beside the two it began with |
| BulkCreate.DefaultedCheckIff | services/control-plane/ent/account_create.go:145-207 | after defaults only owner, Sub2API user and a given id can fail the check, and defaulting twice changes nothing |
| BulkCreate.DefaultsFill | services/control-plane/ent/account_create.go:145-166 | exactly the five defaulted fields are filled, each with its own default, and only where nothing was set |
| BulkCreate.CheckErrorIff | services/control-plane/ent/account_create.go:169-207 | a mutation passes the check if and only if every field is set and the validated ones are valid |
| BulkCreate.FirstWrong | services/control-plane/ent/account_create.go:169-207 | the error names the first field, in order, that something is wrong with |
| BulkCreate.SpecRoundTrip | services/control-plane/ent/account_create.go:232-270 | the insert carries every field under its own column: the row gives the fields back |
| BulkCreate.AccountMutation.SetDefaults | services/control-plane/ent/account_create.go:145-166 | fills exactly the missing defaulted fields |
| BulkCreate.AccountMutation.CreateSpec | services/control-plane/ent/account_create.go:232-270 | node and spec are those of the mutation's fields |
| BulkCreate.CheckNow | services/control-plane/ent/account_create.go:169-207 | returns the first failing check in order |
| BulkCreate.Mutate | services/control-plane/ent/account_create.go:292-322 | mutator i: the first check error from i on stops everything; otherwise one insert of all specs, and marks only after it succeeded |
| BulkCreate.Save | services/control-plane/ent/account_create.go:280-332 | the whole bulk create, aliased builders included: one insert with spec i from builder i or none, and done only after success |
| BulkCreate.InsertIff | services/control-plane/ent/account_create.go:280-332 | the insert is issued exactly when there is a builder and every builder names a valid owner, Sub2API user and id; its rows are the defaulted fields |
| BulkCreate.AccountsAreRows | services/control-plane/ent/account_create.go:280-332 | every account returned has exactly the values of the row inserted for its builder |

## Left out

- Docker, git, compose, Playwright, Vite and HTTP plumbing: their results are arbitrary values or failures of the environment.
- Hashes, UTF-8 decoding beyond ASCII and the conversion between number texts and doubles: uninterpreted functions with the facts stated in `GoodHost` and `NumberReader`.
- JSON values are finite trees; a JavaScript object shared between two places is two equal subtrees.
- File modes, O_NOFOLLOW, owner checks, secret loading, login, bearer checks, error redaction: access control.
- Times are whole milliseconds, and a callback reads the clock once; the expiry date and the secret a key carries are not modelled, only whether the date exists.
- Which double `Number(...)` makes of a decimal text and how it prints: an arbitrary function of the text.
- Key requests with list elements that are not strings, whose expiry is not a whole number of days, and fields the handlers coerce from other types before admission.
- Fixture-mode qualification and the field-by-field qualification receipt validator: the validator is one point of a live run.
- The recovery artifacts' own fields and path checks: writing one is a point that passes or fails.
- Recovery.SummaryBounds: past the safe integers, of the provider category only that the bound can fail there (`UnsafeBoundFails`), since it then depends on how each addition rounds.
- Readers.ReadAllBillingReceipts: asks that the server's cursors come from a finite set, since the code bounds them by nothing else.
- Readers: items of key and receipt pages are opaque texts, because the loops never look inside.
- The `localeCompare` ordering of reported tests: the report is a set.
- Go-test events whose Action, Package or Test is not a string: such a field counts as missing.
- Console.State: request bodies beyond the fields shown, the launch list for polling, support tickets, account provisioning and key edits repeat the same pattern.
- BulkCreate: hooks, the single-entity save and the other generated entities.
- Console UI, staging tools, start scripts and the whitepaper build.
