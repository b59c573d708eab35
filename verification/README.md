# A verified model of the audit engine's decision and commitment spine

The engine audits a web site against a catalogue of law. This project models the parts that decide and
commit, in Dafny, and proves what they promise for all inputs, all runs and all reachable states:

- **Canonical commitment.** The canonical JSON writers behind every hash (`Canonical`, `KeyOrder`, `StableWriter`,
  on the JSON texts of `JsonText`), the compiled catalogue (`Compile`), the content-addressed mint stores (`Mint`,
  `Sealed`), the findings and their ids (`Finding`, `Fingerprint`, `Identity`) and the capture index (`Boundaries`,
  `Capture`), all of them over the bytes of `Encoding`.
- **Gates over untrusted text.** The response gate of the language-model layer (`Gate`) and where it differs from
  its promises (`GateLimits`), its quote matcher (`QuoteText`, `QuoteMatch`), and the render check's money printer and
  parser (`Money`) with the rule that every figure comes from the payload (`Provenance`).
- **Evidence to law.** Tiered evidence and the attach rule (`Evidence`, `Jurisdiction`, `Resolution`), the sector walk and
  winner (`Sector`), the applicability gates and their counts (`Connect`, `Families`).
- **Jury selection.** Provider order, independent juries, veto-to-reject (`Jury`).
- **Calendar arithmetic.** Dates accepted by a round trip through day numbers (`CalendarDate`).

`Version` holds the engine's version string; `Texts`, `Sorting` and `OrderedMaps` hold what the runtime supplies to all of them: UTF-16 texts, decimal
printing, joins, stable sorting, and maps that remember insertion order. `JsonFields` reads the fields of a parsed value.

Code that changes state in the original is imperative here (classes `Gate.Accumulator`, `Evidence.State`,
`Mint.Stores`, `Capture.ArtifactStore`, `Finding.Registry`, and loops over local variables). Each such method
is tied to a specification function or to the whole history it has seen, and the lemmas are about those.

## What stands for what

- A text is a sequence of UTF-16 code units, except in `QuoteText`, `QuoteMatch` and `Gate`, where it is a sequence of code
  points: the regular expressions of the quote matcher touch only the basic plane, so the two views agree on
  well-formed text. Their trimming and collapsing of whitespace are the same functions in both
  (`Capture.SameTrim`, `Capture.SameCollapse`).
- A digest is an uninterpreted function of bytes, and a text is hashed through its UTF-8 encoding, which writes
  every unpaired surrogate as U+FFFD. Where a proof needs it, the digest is assumed injective on bytes, with outputs
  that hold no separator (a slash, a bar or a colon, as hexadecimal digits do not); that this can be met is shown in
  `Fingerprint.GoodDigestExists` and `Mint.SoundHost`. The digests that are cut to 16 characters are such functions
  as a whole.
- A JSON number is carried by its printed text. Figures of money are exact reals.
- Regular-expression tables, word lists, letter tables and locale order are inputs: what they find in a
  sentence is a field of the data the model starts from.
- A network write is a door that may apply the write and say so, apply it and lose the answer, or fail.

## Where the code and its documentation differ

The model follows the code. These differences are theorems here:

- `catalogue/valid-date.js` calls its test "an actual calendar date". Years 0 to 99 are refused, because
  `Date.UTC` moves them to the 1900s (`CalendarDate.CalendarExact`, `CalendarDate.EarlyYearsRefused`).
- `mint/persist.js` describes its stable text as a genuine deep sort. It drops keys named `__proto__` and
  prints index keys in numeric order, so it agrees with the other canonical writer exactly when an object has
  neither (`StableWriter.WritersAgree`, `StableWriter.ProtoKeyIsLost`, `StableWriter.IndexKeysMove`).
- `llm/gate.js` promises an exact comparison for verbatim quotes. A genuine quote over the length floor, from a
  source that was retrieved and supplied, can be refused as drift when its last or first capital sigma lower-cases
  differently inside the source (`GateLimits.GenuineQuoteDrifts`); it never is exactly when the quote settles its
  sigmas itself (`GateLimits.DriftExactly`).
- `llm/gate.js` reads schema keys with `in`, which also sees the members every object inherits. A required
  `constructor` may be absent, and an undeclared one passes a closed schema (`GateLimits.InheritedKeyAccepted`). The
  checker meets the documented semantics exactly for keys that are not inherited
  (`GateLimits.InheritedKeysExact`). A source id that names an inherited member finds a source that nobody
  supplied, and no other id does (`GateLimits.InheritedSourceExact`).
- `llm/router.js` requires the anchor family on an anchored jury. With `n` equal to 1 two jurors are seated and
  the finding can be accepted on the other juror's vote alone (`Jury.AnchoredOneExactly`,
  `Jury.AcceptedWithoutAnchor`); the anchor's own vote is required exactly when `n` is at least 2 or there is one
  family only (`Jury.AnchorVouchesExactly`).
- `llm/router.js` says that any verdict but 'violation' vetoes. A ballot without a verdict does not, so a jury that
  gives none accepts (`Jury.AcceptedWithoutVerdict`, `Jury.AffirmedExactly`).
- `mint/persist.js` says that writing never throws. A payload without a key throws before anything is written, and a
  table name that is no identifier throws after the object was written (`Mint.ThrowsAfterWriting`,
  `Mint.ThrowLeavesExactly`); no object or row is lost by it (`Mint.StepSafe`).
- `mint/persist.js` says that done is refused when a door fails. The checks after the writes read the row and the live
  page, never a door's answer: a mint is done although a write failed if the row was current before, and the object
  plays no part beyond what the live page shows (`Mint.DoneInRun`, `Mint.DoneWithoutObject`).
- `mint/persist.js` says that a sealed object under one id and digest is byte-identical or absent, never replaced. Its
  record also holds the time of the capture and the raw body, so a later capture of the same page replaces it
  (`Sealed.ReplacedExactly`, `Sealed.RecaptureReplaces`).
- `mint/persist.js` offers the replayed store for a full offline check. The raw length of a page and the origin and
  sources of an evidence log are not written out: no captured page comes back whole (`Sealed.PageReplays`), the log of
  an absence claim comes back without its sources (`Sealed.CoverageLosesSources`), and the derivation check of
  `supervised/mint-gate.js` then passes whatever the index holds (`Sealed.DerivationLost`). What is written out comes
  back unchanged (`Sealed.ReplayExact`).
- `supervised/finding.js` says a changed class or jurisdiction always changes the id. With a bar inside a
  free-text field (`Identity.BarsCollide`), or with an unpaired surrogate in one and U+FFFD in the other
  (`Identity.SurrogatesCollide`), two different claims can share an id. The exact condition is
  `Identity.LookAlikeExactly`, and `Identity.GuardExact` in terms of the fields; a finding that meets it cannot be
  imitated by any other, whatever that one holds, as long as no subject's id holds a comma
  (`Identity.IdentityFaithful`). With a comma (`Fingerprint.CommasCollide`), an unpaired surrogate or U+FFFD
  (`Fingerprint.SubjectTwin`) in a subject's id two coverage proofs can share a fingerprint.
- `supervised/capture-index.js` reports a second page as a duplicate of an address already captured. It compares
  ids, so an address that differs from an earlier one in an unpaired surrogate or U+FFFD only is skipped too
  (`Capture.SurrogateSkipped`); an address shares its id with no other exactly when it holds neither
  (`Capture.OwnIdExactly`).
- `facts/sector.js` sorts candidates by cues and depth only. On the self-identity path the winner of a tie is the
  family listed first (`Sector.TieGoesToTheFirst`); the order is irrelevant exactly when the tied candidates are of
  one family (`Sector.OrderFreeExactly`).

## Model

| member | source | states |
|---|---|---|
| JsonText.StringRoundTrip | catalogue/compile.js:122-126 | a string literal as `JSON.stringify` writes it, with its escapes and lone surrogates, reads back to the string |
| JsonText.PrintRoundTrip | catalogue/compile.js:122-126 | a parser inverts the printer: every printed value reads back as itself with nothing left over |
| JsonText.PrintInjective | mint/persist.js:105-107 | two values with the same `JSON.stringify` text are the same value |
| JsonText.PrintPaired | catalogue/compile.js:122-126 | whatever strings a value holds, its printed text holds no unpaired surrogate |
| Canonical.StringifyIsPrintedCanon | catalogue/compile.js:122-127 | the one-pass writer prints exactly the value whose keys are sorted at every level |
| Canonical.CanonMeaning | catalogue/compile.js:116-127 | sorting keys at every level changes neither the meaning nor well-formedness |
| Canonical.CanonicalUnambiguous | catalogue/compile.js:122-127 | two values have the same canonical text exactly when they are equal with key order ignored |
| Canonical.CanonicalReadsBack | supervised/capture-index.js:58-62 | canonical text reads back to a value of the same meaning |
| Canonical.CanonicalTextsEncode | catalogue/compile.js:349-351 | the bytes that are hashed determine the canonical text |
| Canonical.StableTextsEncode | mint/persist.js:119-121 | the bytes that are hashed determine the stable text |
| StableWriter.SameTree | mint/persist.js:96-104 | the rebuilt tree equals the key-sorted tree exactly when no key is an array index out of text order and none is `__proto__` |
| StableWriter.WritersAgree | mint/persist.js:96-107 | the two writers print the same text exactly when no key is moved or dropped |
| StableWriter.StableUnambiguous | mint/persist.js:89-107 | two values have the same stable text exactly when they are equal with key order and `__proto__` keys ignored |
| StableWriter.ProtoKeyIsLost | mint/persist.js:99-100 | an object with a `__proto__` key and the empty object have the same stable text and different canonical texts |
| StableWriter.IndexKeysMove | mint/persist.js:99-100 | index keys make the two writers differ |
| CalendarDate.FullYearUnique | catalogue/valid-date.js:17-20 | the year read back from a day number is the only year that holds the day |
| CalendarDate.MonthUnique | catalogue/valid-date.js:17-20 | the month read back is the only month of the year that holds the day |
| CalendarDate.ReadBackInverts | catalogue/valid-date.js:17-20 | a Gregorian date read back from its day number is itself |
| CalendarDate.CalendarExact | catalogue/valid-date.js:14-20 | for every four-digit year and two-digit month and day, the round trip accepts exactly the Gregorian dates from year 100 on |
| CalendarDate.EarlyYearsRefused | catalogue/valid-date.js:17-20 | a real date of year 99 is refused |
| CalendarDate.RealDateExact | catalogue/valid-date.js:22-27 | the texts accepted are exactly the printed forms of such dates |
| CalendarDate.RealTimestampExact | catalogue/valid-date.js:29-36 | the texts accepted are exactly such a date, a clock reading from 00:00:00 to 23:59:59, an optional fraction, and `Z` |
| Money.GroupThousands | render-proof/truth-pack.js:104-113 | the loop that places commas prints the digits in groups of three from the right |
| Money.ParseGbpAmounts | render-proof/truth-pack.js:124-132 | the matching loop returns every amount, left to right and without overlap |
| Money.AmountRoundTrip | render-proof/truth-pack.js:104-132 | a printed amount is matched whole, with its value, before any text that does not continue a number |
| Money.PageRoundTrip | render-proof/truth-pack.js:114-132 | on any page that interleaves pound-free text with printed amounts, the parser returns exactly those values at exactly those offsets |
| Money.CheckMoneyProvenance | render-proof/truth-pack.js:281-289 | over a permitted set, one violation for each figure outside it, at its first occurrence, in order |
| Money.PageProvenance | render-proof/truth-pack.js:281-289 | on such a page the violations are pairwise distinct and are exactly the printed figures that are not permitted; a page of permitted figures has none |
| Provenance.CollectAllowedAmounts | render-proof/truth-pack.js:271-280 | the loops collect exactly the figures that lie at one of the payload's places |
| Provenance.AllowedExactly | render-proof/truth-pack.js:230-280 | a figure is collected exactly when some place holds it: the two exposures, the ceiling, a waterfall band, or a penalty or enforcement entry of a finding or framework |
| Provenance.CheckPayloadProvenance | render-proof/truth-pack.js:281-289 | one violation for each figure that the payload does not permit, in order |
| Provenance.PageSourced | render-proof/truth-pack.js:271-289 | on a page of plain text and printed amounts nothing is raised exactly when the payload holds every printed amount at one of its places |
| Money.ContainsNumberToken | render-proof/truth-pack.js:163-176 | found exactly when the token is not empty and stands in the comma-free text with no digit on either side |
| Money.AllIndexOf | render-proof/truth-pack.js:135-141 | exactly the occurrences of the needle, overlapping ones too, in increasing order; none for the empty needle |
| QuoteMatch.SettledQuoteFound | llm/gate.js:43-50 | a quote whose capital sigmas are settled by the quote itself is found, normalised, in every source that contains it |
| QuoteMatch.NeverRefusedExactly | llm/gate.js:325-334 | a quote is found in every source around it exactly when its capital sigmas are settled |
| QuoteMatch.GenuineQuoteFound | llm/gate.js:325-334 | a quote without a capital sigma is never refused as drift |
| QuoteMatch.NormaliseIdempotent | llm/gate.js:43-50 | normalising twice is normalising once |
| Gate.SchemaExact | llm/gate.js:157-256 | the recursive checker reports nothing exactly when the value satisfies every supported keyword, as stated keyword by keyword |
| Gate.Accumulator.PushSourceIds | llm/gate.js:262-267 | appends a string, or the strings of an array, as citations with their paths |
| Gate.Accumulator.GatherNode | llm/gate.js:279-286 | appends one node's citations in key order, then its quote when it names a source |
| Gate.Accumulator.Walk | llm/gate.js:294-303 | appends exactly what the depth-bounded walk of the value holds, and raises the depth flag exactly when it was already raised or the walk hits the cap |
| Gate.WalkExact | llm/gate.js:288-309 | the depth flag is raised exactly when the nesting exceeds the cap; otherwise the gathered citations are clean exactly when every object at every depth is sound |
| Gate.CheckSourceIds | llm/gate.js:312-321 | one violation for each citation outside the retrieval set, in order |
| Gate.CheckQuotes | llm/gate.js:325-340 | the first failing check of each quote, in order |
| Gate.OneQuoteExact | llm/gate.js:325-334 | a quote raises nothing exactly when it meets the length floor, its source was retrieved and supplied, and the source contains it |
| Gate.GenuineQuoteNotDrift | llm/gate.js:323-334 | a settled quote taken from its source is never refused as drift, and is supported exactly when its source is in the set and it meets the floor |
| Gate.GateExact | llm/gate.js:352-370 | no violation exactly when the schema is met, the nesting is within the cap, and every citation and sourced quote anywhere in the tree holds up |
| Gate.ValidateResponse | llm/gate.js:352-370 | accepts exactly the parsed values of that description and returns them unchanged; otherwise abstains with all violations, or with the one parse violation |
| GateLimits.InheritedKeyAccepted | llm/gate.js:199-219 | a closed schema that requires an inherited key accepts the empty object, and an object with that undeclared key |
| GateLimits.InheritedKeysExact | llm/gate.js:199-219 | over any set of keys, the checker agrees on all values and schemas with the semantics that reads own members only exactly when none of the keys is inherited |
| GateLimits.InheritedSourceExact | llm/gate.js:331-332 | for every retrieval and quote a source id is judged by the supplied sources alone exactly when it is no inherited name |
| GateLimits.DriftExactly | llm/gate.js:325-334 | a retrieved quote over the floor raises nothing in any source it was taken from exactly when its capital sigmas are settled |
| GateLimits.GenuineQuoteDrifts | llm/gate.js:325-334 | a genuine quote of eight letters over the default floor, retrieved and supplied, is answered with quote drift |
| Evidence.CappedStep | facts/jurisdiction.js:378-387 | one more signal changes the capped view of the uncapped stream exactly as the accumulator's caps and one-per-kind rule do |
| Evidence.RoomForNewKind | facts/jurisdiction.js:380-387 | a Tier B kind not yet held always finds room under the cap |
| Evidence.State.AddEvidence | facts/jurisdiction.js:373-387 | keeps the buckets equal to the capped view of everything shown so far |
| Evidence.State.RecordZone | facts/jurisdiction.js:599-603 | the same for free-zone evidence, capped at four |
| Evidence.State.Collect | facts/jurisdiction.js:393-496 | a collection pass extends the history by its events and keeps every view exact |
| Jurisdiction.Nearest | facts/jurisdiction.js:564-572 | a bar mention that ends before the number, and none of those starts later |
| Jurisdiction.ServiceOfferEstablishesNothing | facts/jurisdiction.js:670-681 | a sentence that offers a service yields no Tier A signal and no free zone |
| Jurisdiction.MarketingIsTierC | facts/jurisdiction.js:650-668 | the marketing pass of a sentence yields Tier C signals, advisory state mentions and regions only |
| Jurisdiction.BuildBound | facts/jurisdiction.js:696-723 | the loop yields the bound list that the stream determines |
| Jurisdiction.AttachesExactly | facts/jurisdiction.js:687-703 | a capped bucket attaches exactly when the uncapped stream has a Tier A signal or two Tier B signals of different kinds |
| Jurisdiction.BoundEntries | facts/jurisdiction.js:696-723 | the entries of the result are exactly those of the established codes, and the derived union when a member state is established and the union is not |
| Jurisdiction.BoundExactly | facts/jurisdiction.js:696-720 | a code is bound exactly when it is established, and the union also when a member state is |
| Jurisdiction.BoundOnce | facts/jurisdiction.js:721-722 | no code is bound twice, and the list is in order of score, then of code |
| Jurisdiction.GradedExactly | facts/jurisdiction.js:691-694 | with registers shown first, a code is graded 'register' exactly when a register row speaks for it, or for a member state of the derived union |
| Resolution.UsStateSubs | facts/jurisdiction.js:749-762 | one entry for each state in first-seen order: its first observable hit, or else its first hit |
| Resolution.NationEntries | facts/jurisdiction.js:766-775 | the first hit of each nation |
| Resolution.BuildSubJurisdictions | facts/jurisdiction.js:764-787 | nations, states and at most one free zone, each only under its bound country |
| Resolution.BuildServes | facts/jurisdiction.js:725-736 | reach from Tier C evidence and regions, sorted by place |
| Resolution.CloseZones | facts/jurisdiction.js:817-822 | an established free zone adds one Tier A signal for the Emirates |
| Resolution.ResolveJurisdiction | facts/jurisdiction.js:793-832 | the door returns what the whole stream of the bundle determines |
| Resolution.BundleRegistersFirst | facts/jurisdiction.js:806-815 | in the stream of any bundle the register rows precede every other Tier A signal |
| Resolution.ResolvedByEvidence | facts/jurisdiction.js:793-832 | for every bundle, bound and 'register' are decided by the uncapped evidence alone |
| Resolution.BoundStates | facts/jurisdiction.js:742-762 | a state entry is bound exactly when the state has an observable hit, and it is the first such hit |
| Resolution.MarketingChangesNothing | facts/jurisdiction.js:650-668 | deleting every Tier C signal, region and advisory state mention leaves the bound codes, the codes with establishment evidence and the bound sub-jurisdictions as they were |
| Sector.FamilyOf | facts/sector.js:209-215 | the loop ends on any table and returns the family the walk defines |
| Sector.FamilyIsRoot | facts/sector.js:209-215 | whenever going up reaches a root, that root is the family |
| Sector.AcyclicFamily | facts/sector.js:209-215 | in a table without cycles the family is the one root above the sector |
| Sector.FamilyIdempotent | facts/sector.js:209-215 | the family of a family is itself, cycles or not |
| Sector.DepthOf | facts/sector.js:201-207 | the loop ends on any table and counts the parents it meets |
| Sector.DepthIsDistance | facts/sector.js:201-207 | the depth is the number of steps to the root when there is one |
| Sector.WinnerExactly | facts/sector.js:329-338 | away from the self-identity path a family wins exactly when one of its candidates has two cues, strictly beats every candidate of every other family, and dominates them all when two other families reach the floor |
| Sector.WinnerBeats | facts/sector.js:271-338 | every winner has at least two cues; off the self-identity path it beats everything else, on it its family is the domain's own |
| Sector.WinnerOrderFree | facts/sector.js:253-257 | away from the self-identity path the winning family does not depend on the order the candidates were produced in |
| Sector.OrderFreeExactly | facts/sector.js:253-277 | on every path, the winning family is the same for all orders of the candidates exactly when the qualifying candidates of the domain's own families that none outranks are of one family |
| Sector.TieGoesToTheFirst | facts/sector.js:271-277 | two candidates for which the order decides |
| Sector.LongestPrefix | facts/sector.js:486-500 | a row whose prefix the code starts with, and no such row has a longer prefix |
| Sector.SicFamilies | facts/sector.js:486-500 | the nested loops collect the family of the longest prefix of each code |
| Sector.SelectionHonoursRegisters | facts/sector.js:547-615 | a selected sector never contradicts a decisive register, nor the industry codes when it rests on text, and a weak one is unrivalled |
| Families.DedupeFamilies | applicability/conflicts.js:42-54 | the groups of equal keys, in the order the keys are first seen, each in input order |
| Families.GroupsPartition | applicability/conflicts.js:40-54 | together the groups hold exactly the input records |
| Families.GroupsByKey | applicability/conflicts.js:40-54 | no two groups share a key, and each holds exactly the records of its key |
| Families.FamilyCountMonotone | applicability/conflicts.js:56-60 | fewer records never make more families |
| Connect.BuildContext | applicability/connect.js:144-169 | the loop gathers the bound codes and the first entry of each |
| Connect.FirstFailureNamed | applicability/connect.js:341-351 | a record passes exactly when no gate fails, and otherwise the gate named fails and none before it does |
| Connect.EachEntryOnce | applicability/connect.js:375-392 | each input has one place, in input order: applicable, or excluded with its first failing gate |
| Connect.ApplicableWasExamined | applicability/connect.js:399-405 | every applicable record is among the examined ones |
| Connect.DoConnect | applicability/connect.js:367-412 | returns the partition and the counts; binding families never exceed assessed ones, so the internal error is unreachable |
| Connect.ConnectMonotone | applicability/connect.js:273-310 | raising activities from false to unknown to true only adds records, through the open tag gate and the closed required-activity gate together |
| Connect.SameLawAlike | applicability/connect.js:144-201 | jurisdiction facts that attach the same law cannot be told apart by any gate |
| Connect.MarketingNeverAttaches | applicability/connect.js:173-188 | deleting all marketing evidence leaves the applicable records, the exclusions with their gates and all three counts unchanged |
| Compile.CrossPackDuplicateIds | catalogue/compile.js:263-282 | one finding at each repeated meeting of an id, in order; none exactly when all ids differ |
| Compile.StampKeepsId | catalogue/compile.js:318-319 | adding the cell to a record does not change its id, and no `__proto__` key is copied |
| Compile.CollectPack | catalogue/compile.js:306-330 | the inner loop adds one pack to the running totals and makes its summary row |
| Compile.CollectRecords | catalogue/compile.js:299-333 | the two nested loops yield the shipped records, the cells, the totals and the status table of all rows |
| Compile.Conservation | catalogue/compile.js:299-333 | scanned is shipped plus left out, in all, cell by cell and summed over cells, and the printed counts of the status table add up to what was left out |
| Compile.AssembleArtifact | catalogue/compile.js:356-388 | the artifact is the sorted core and the digest of its canonical text |
| Compile.OrderIndependent | catalogue/compile.js:335-388 | when the gates report nothing, permuting the packs and the records inside them gives the same records, cells, counts and content hash |
| Compile.HashFixesContent | catalogue/compile.js:346-351 | equal content hashes mean equal content with key order ignored, and conversely |
| Mint.KebabIsSegment | mint/persist.js:83-87 | a slug is one path segment of letters, digits and single inner hyphens, and slugging it again changes nothing |
| Mint.ObjectKeyInjective | mint/persist.js:349 | the object key determines the slug and the hash |
| Mint.SameKeySameText | mint/persist.js:111-121 | payloads with one object key have one stable text |
| Mint.Stores.Persist | mint/persist.js:336-355 | the object first, then the upserted row; a payload without a key changes nothing, an unsafe table name only loses the row |
| Mint.Stores.ReadBackRow | mint/post-write-assertions.js:58-67 | holds exactly when the query answers, the row is there and it carries the current engine version |
| Mint.Stores.MintOnce | mint/post-write-assertions.js:216-238 | the state after one mint is the first failing leg in write order |
| Mint.DoneInRun | mint/post-write-assertions.js:214-238 | in any run, an attempt is done exactly when its checks pass and some attempt up to it, not necessarily this one, wrote the row of its key, or the row was there before; no write of an object plays a part |
| Mint.DoneObjectExactly | mint/persist.js:336-355 | after a done mint the object lies under its key with the payload's text exactly when its write was applied or the key was there before |
| Mint.DoneWithoutObject | mint/persist.js:321-325 | a mint that is done without its object existing |
| Mint.ThrowLeavesExactly | mint/persist.js:339-352 | a call throws and changes the store exactly when only the table name is at fault, the object's write was applied and its key is new; a row is never touched |
| Mint.ThrowsAfterWriting | mint/persist.js:250-254 | a table name with a space: the object is written, then the call throws |
| Mint.StepSafe | mint/persist.js:336-355 | whatever the doors do, each object stays under a key its payload derives, and no object or row is lost or re-identified |
| Mint.RunSafe | mint/persist.js:232-245 | the same after any run of mints from any table and any honest store |
| Mint.DoneMeansRow | mint/post-write-assertions.js:223-238 | a mint reported done has its row under its slug and hash with the current engine version, then and after everything that follows |
| Sealed.ChainHeadEncoded | mint/persist.js:400-403 | two stores have the same chain head exactly when their sorted links are encoded alike, one by one |
| Sealed.ChainHeadExact | mint/persist.js:400-403 | without unpaired surrogates in either store, or for a store whose links the encoding keeps against any other, that means the same id and digest pairs, in any order |
| Texts.LinkInjective | mint/persist.js:400-402 | a link of an id and a digest determines both |
| Sealed.PersistArtifactStore | mint/persist.js:423-437 | one result for each artifact; the store is what the applied writes make of it one by one; a chain head only when every write succeeded, and then every sealed object is there |
| Sealed.ReplacedExactly | mint/persist.js:366-371 | a stored record is replaced by a different one exactly when a write of an artifact with its id and digest is applied and that artifact's record differs |
| Sealed.RecaptureReplaces | mint/persist.js:379-393 | two captures of one text of one page share a key, and share the record exactly when the time and the kept raw body are the same |
| Sealed.ReplaySealedStore | mint/persist.js:445-458 | ids in first-seen order, each with the artifact of its last record |
| Sealed.ReplayExact | mint/persist.js:379-458 | the fields written out come back exactly when no buffer and no raw digest is empty, and the whole artifact exactly when moreover it has no raw length and no provenance |
| Sealed.StoreReplays | mint/persist.js:439-458 | a store comes back with the same ids in order, each artifact in its written fields exactly when these hold no empty buffer, and whole exactly when it is durable |
| Sealed.PageReplays | mint/persist.js:445-458 | every captured page comes back in all fields but its raw length, and never whole |
| Sealed.LogReplays | mint/persist.js:445-458 | every evidence log comes back in its written fields, and never whole |
| Sealed.CoverageLosesSources | supervised/coverage-proof.js:78-93 | no log of an absence claim comes back whole, and its derivation, which an empty index refutes, then holds in it |
| Sealed.DerivationLost | supervised/mint-gate.js:225-234 | the derivation check passes on every replayed artifact, and answers as on the original for every index exactly when that one is not derived or has no sources |
| Jury.OrderUnique | llm/router.js:86-102 | the provider order is the only arrangement that is free first, ranked by family, and stable |
| Jury.DistinctFamilyProviders | llm/router.js:117-128 | the first provider of each named family, cut at n |
| Jury.AnchoredDistinctFamilies | llm/router.js:149-163 | the anchor, then the first provider of each other family; or no jury without the anchor |
| Jury.PlainSelection | llm/router.js:111-128 | jurors of pairwise distinct named families in free-first order, exactly min(n, families) of them |
| Jury.AnchoredSelection | llm/router.js:144-172 | the anchor leads independent jurors, min(max(n, 2), families) of them; missing exactly when its family is absent |
| Jury.JurorsAreProviders | llm/router.js:168-172 | only providers that were offered sit on a jury |
| Jury.CollectVotes | llm/router.js:328-337 | one vote for each juror, in order, with what came back at its turn |
| Jury.Quorum | llm/router.js:359-383 | the verdict that selection, validity and the first veto determine |
| Jury.AcceptExactly | llm/router.js:359-383 | for n of at least 2, or without an anchor, accepted exactly when n jurors sit, all n answers passed the gate and none vetoes; a curated fact is never judged |
| Jury.AnchoredOneExactly | llm/router.js:359-383 | anchored with n equal to 1, accepted exactly when some juror's answer passed the gate and no passing answer vetoes |
| Jury.AcceptedWithoutAnchor | llm/router.js:144-163 | an anchored jury of one that accepts although the anchor's own answer failed |
| Jury.AnchorVouchesExactly | llm/router.js:144-172 | over any providers, every accepted finding has the anchor's answer behind it exactly when two jurors are asked for or the anchor's family is the only one |
| Jury.AffirmedExactly | llm/router.js:302-313 | on a jury that accepts under the default rule every juror said 'violation' exactly when every juror gave a verdict |
| Jury.AcceptedWithoutVerdict | llm/router.js:306-313 | a full jury that gives no verdict accepts |
| Jury.HoistFamilyFirst | llm/router.js:133-142 | the anchor's family, then the rest, each in its old order |
| Jury.HoistExactly | llm/router.js:130-142 | hoisting keeps the providers and puts the anchor's family before all others |
| Jury.Route | llm/router.js:281-300 | the first provider in order whose attempt passes the gate wins; exhausted exactly when no attempt does; a provider that is asked twice may answer differently |
| Encoding.ByteLengthExact | supervised/capture-index.js:276-280 | the counted byte length is the length of the UTF-8 encoding, lone surrogates included |
| Encoding.Utf8Concat | supervised/capture-index.js:276-280 | away from a cut surrogate pair the encoding of a text is the encodings of its parts |
| Encoding.LongerText | supervised/capture-index.js:276-280 | a longer text has more bytes, wherever the cut falls |
| Encoding.EncodingExact | supervised/capture-index.js:95-97 | two texts are hashed alike exactly when they agree once every unpaired surrogate is replaced by U+FFFD |
| Encoding.RepairedExactly | supervised/capture-index.js:95-97 | that replacement changes nothing exactly when every surrogate has its partner |
| Encoding.LosslessExactly | supervised/finding.js:211-216 | a text is the only one with its encoding exactly when it holds neither an unpaired surrogate nor U+FFFD |
| Boundaries.BuildBoundaryMap | supervised/capture-index.js:267-287 | the cursor loop yields a boundary for each gap between consecutive located runs |
| Boundaries.GapsComplete | supervised/capture-index.js:275-281 | no gap between located runs is missed |
| Boundaries.BoundaryMapSound | supervised/capture-index.js:261-287 | boundaries rise in characters and in bytes, each at the end of one located run and before the next, strictly inside the buffer, at the byte length of the prefix |
| Boundaries.BoundaryCutsBuffer | supervised/capture-index.js:276-280 | a boundary that cuts no surrogate pair splits the buffer into the encodings of the two parts |
| Capture.CaptureAllPages | supervised/capture-index.js:356-367 | a log gives each page its own fate, up to the first stop or the last page; what is kept and the errors are those of the log, within 200 pages and 20 MiB and with no id twice |
| Capture.ProcessFits | supervised/capture-index.js:328-342 | a page is kept, skipped or stops the walk exactly for the stated reason: no address, no readable text, an id already kept, 200 pages, or bytes that do not fit |
| Capture.LogWithinBudgets | supervised/capture-index.js:328-367 | every log keeps both budgets and distinct ids, and each page read is kept or answered with one error |
| Capture.KeptExactly | supervised/capture-index.js:328-353 | a page read within the budgets is kept exactly when it has an address and readable text and no earlier such page has an address of the same encoding |
| Capture.KeptByAddress | supervised/capture-index.js:328-353 | where no address holds an unpaired surrogate, exactly when no earlier such page has its address |
| Capture.SurrogateSkipped | supervised/capture-index.js:334-337 | two readable pages of different addresses, the second of them skipped as a duplicate |
| Capture.LoggedExactly | supervised/capture-index.js:75-80 | a lane is logged exactly when it has rows and their bytes, line breaks included, are within 32 MiB; an empty lane leaves nothing |
| Capture.LogFixesRows | supervised/capture-index.js:75-82 | the digest of a log determines its rows, one by one and in order |
| Capture.SameCollapse | supervised/capture-index.js:41-48 | the whitespace rule is the one the quote matcher collapses with |
| Capture.SameIdSameUrl | supervised/capture-index.js:95-97 | two captured pages share an id exactly when their addresses have one encoding |
| Capture.OwnIdExactly | supervised/capture-index.js:91-97 | a page shares its id with no page of another address exactly when its address holds neither an unpaired surrogate nor U+FFFD |
| Capture.ArtifactStore.Get | supervised/capture-index.js:107-109 | the artifact under the id, whose id it is, or none |
| Capture.ArtifactStore.AddDerived | supervised/capture-index.js:119-125 | only a derived artifact is added, and nothing stored is ever replaced |
| Finding.BuiltIsSound | supervised/finding.js:304-355 | fields without a defect make a finding with the full shape, the coverage invariant and the derived id |
| Finding.Registry.CreateFinding | supervised/finding.js:361-367 | refuses with the first defect and brands nothing, or brands a fresh finding with the built content |
| Finding.Registry.WithMitigation | supervised/finding.js:400-407 | refuses a look-alike; otherwise a fresh branded finding with one more log entry and the same id |
| Finding.RunSound | supervised/finding.js:335-407 | over any run of both operations every finding has the shape and its derived id |
| Finding.RunGrows | supervised/finding.js:392-407 | a run only adds: earlier findings stay as they are |
| Finding.RunLineage | supervised/finding.js:361-407 | over any run every finding descends from a created one: same id, same claim, and a log that extends its log by appending only |
| Fingerprint.CoverageBasisExact | supervised/finding.js:208-212 | two coverage proofs have one basis exactly when they agree up to the order of their subjects |
| Fingerprint.FingerprintExact | supervised/finding.js:208-212 | fingerprints agree exactly when pattern and count agree and the sorted links are encoded alike, a missing proof included; for a proof that the encoding keeps, or two without unpaired surrogates, exactly when the proofs agree up to order |
| Fingerprint.SubjectTwin | supervised/finding.js:208-212 | with an unpaired surrogate or U+FFFD in its subject's id a proof of one subject shares its fingerprint with another proof |
| Fingerprint.CommasCollide | supervised/finding.js:208-212 | with a comma in a subject's id two different coverage proofs share a fingerprint |
| Identity.LookAlikeExactly | supervised/finding.js:176-217 | no finding with another rule, class, jurisdiction, catalogue, engine, span or kind shares the id exactly when no other split of the bars puts a class name where the class belongs and leaves every field filled, and no field of the scope holds an unpaired surrogate or U+FFFD |
| Identity.GuardExact | supervised/finding.js:176-217 | when no piece between bars is blank, that holds exactly when no field after the class holds a bar, no later piece of the rule is a class name, and no field holds an unpaired surrogate or U+FFFD |
| Identity.IdentityFaithful | supervised/finding.js:176-217 | a finding guarded against bars shares its id with any other exactly when both are one claim as the digest sees it; and when the encoding keeps its texts, exactly when rule, class, jurisdiction, catalogue, engine, span and kind agree, and coverage up to order |
| Identity.SurrogatesCollide | supervised/finding.js:214-217 | two well-formed findings whose rules are an unpaired surrogate and U+FFFD share an id |
| Identity.BarsCollide | supervised/finding.js:214-217 | with a bar in a field two well-formed findings with different rules share an id |
| Texts.DecimalInjective | supervised/finding.js:214-217 | decimal printing of non-negative integers is injective |
| Texts.JoinInjective | supervised/finding.js:208-217 | a join of parts that are free of the separator determines the parts |
| Sorting.SortInvariant | catalogue/compile.js:338-344 | sorting by a total preorder that separates the elements does not depend on their order |

## Left out

- Regular-expression detection: the tables of `facts/vocabulary.js`, `facts/capabilities.js` and `facts/identity.js`, the cue patterns of `facts/sector.js` and the run splitter of `supervised/capture-index.js` are inputs, as are the values walked out of structured data.
- The JavaScript number formatter beyond non-negative integers: JSON numbers are carried by their text; amounts are exact reals, so the rounding of figures from 2^53 upwards and of decimal fractions, infinities and `Math.round` of a fraction are not modelled. Which texts `Number` reads as finite is an input of `Provenance`.
- SHA-256 itself, and that a digest cut to 16 characters can collide: digests are injective by assumption.
- The text of a model response: finding the JSON in it and parsing it is one of four outcomes (a value, or one of three parse violations).
- Violation messages and reason texts: a violation is its code and path, an exclusion is its gate, and the derived evidence of the union does not name the member state it comes from.
- The other rules of `render-proof/truth-pack.js` (law names, review voice, freshness, links): single presence tests over the same searches.
- `facts/sector.js` after the sector is chosen: the sub-sector retarget, the hint and the language-model assist.
- `catalogue/schema.js` and the linters: what the proofs need of their verdict (every record is an object with an id) is part of `Compile.Clean`, together with the distinct file names of packs.
- Sign-off headers, command lines, transports, deadlines, abort signals and the live page fetch: doors and checks answer nondeterministically.
- The SQL text and its parameters: an upsert is its effect on the table, keyed by slug and hash.
- The rows of the evidence lanes in `supervised/capture-index.js` and the subjects of `supervised/coverage-proof.js`: a log starts from the canonical text of its rows.
- `supervised/packet.js`, `supervised/export.js`, `probes/` and `bin/`: rendering, export and plumbing.
- Object identity in JavaScript beyond the brand: a finding is an object with constant fields, and `structuredClone` is copying a value.
