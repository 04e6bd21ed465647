# Models of the table, evidence and identity tools

The repository's tools build the tables a tokenizer engine routes by, judge its chunk-cut against an oracle,
walk its dependency graph, bind its sources to digests, and write all of this into one support registry. This
project states what those tools promise and proves it, for every input.

`dafny verify dfyconfig.toml` checks the whole project.

## What is modelled

**NFC quick check.** `Normalizer` writes NFC and NFD out (decomposition, canonical ordering, composition,
sections 3.11 and 3.12 of the Unicode Standard) over abstract character data; `Ucd.Valid` and
`NfcTable.ToolData` list what is assumed of the data, and `NfcSample` meets all of it (`NfcProbeExample` does
too). `StablePairs`, `ComposedTexts` and `NormalForm` characterize the texts NFC leaves alone; `NfcProbes`,
`NfcScan` and `NfcTable` are the table builder step by step, up to the claim that every text the table passes
is unchanged. The hard case is a stable character whose decomposition is taken apart, reordered among safe
marks and put together again.

**Patterns and class tables.** `PatternTools`, `CharacterClass`, `ClassTables`: splitting a pattern at its
top-level bars, parsing a bracketed class against an escaping printer, and the class tables built by
overlapping writes. `PatternLaws` says by positions alone which bars divide a pattern, `ClassSamples` which
texts stand for one character, and `ClassCounts` by counting what the tables refuse.

**Chunk-cut campaign.** `ChunkCounters`, `ChunkStream`, `ChunkUnit`, `ChunkParts`, `ChunkReadings`,
`ChunkCampaign`, `ChunkAdmission`: the streaming judge with its part window and shard rule, counters that may
not have run, grouping and merging of unit files, and the derivation of certification status. `ChunkCampaign`
leads from the documents to the merged rows: a campaign in parts reads as one unit that judged them all.
`ChunkSums` states every tally as a sum over the documents, counter by counter.

**Dependency closures.** `DependencyClosures` proves three worklists exact against one notion of reachability;
`JudgedClosure` classifies on top of one of them, `Sbom` documents another. `EdgeRules` says which edges
each walk follows, by the kinds that an entry lists, and that all the others could be emptied unseen.

**Identities.** `TextLines`, `VersionNormalization`, `ManifestNormalization`, `LockNormalization`: the
line-local rewriting of manifests and lock files; `ManifestExample` is a manifest on which it goes wrong.
`FieldLines`, `LockPrinter` and `ManifestPrinter` print lock files and manifests from their entries and say
what normalization makes of the printed text: which names, which sections, which values.
`PrintedSources` adds which files of a source set that happens to.
`IdentityFraming`, `TokenReadings` and `VersionedIdentity`: the bytes that are hashed, what they cannot see,
and that they see everything else.

**Registry.** `Registry`, `RegistryAcceptance`, `RegistryChecks`, `RegistryWriters`: six writers of one
document, when each accepts it, and what its check says. `RegistrySyncs` adds the two syncs that write the
same document; `RegistryRuns` is about runs of all eight: when they succeed, and why their order does not
matter. `RegistryExample` is a registry on which it decides success. `RegistryFrames` names the fields each
operation owns: no step, and no run, changes any other. `RegistryDemands` says row by row when each of the
eight succeeds, `RegistryPlainRecords` what a check makes of a registry without the newer identities.
`Restatement`: the JIT view under the same runs.

Methods follow the tools' own loops and in-place writes; each is tied to a function or predicate, and the
lemmas are about those.

## Findings

- The added-token preimage is not injective: contents that hold U+0001 can imitate the framing (`PreimageClash`).
  `PreimageUniqueExactly` gives the exact condition, a scan that counts the ways to read the entries: tables
  without U+0001 and tables of one token always read in one way.
- Manifest normalization is blind to version values except when a dependency line's only `path =` stands
  inside the version value itself (`ManifestExample.BlindnessNeedsRecognition`). `NormalizeBlind` gives the exact
  condition, the guard of that branch; values without a comma or a brace always meet it.
- Registry updates do not commute in whether they succeed: a direct-JIT or a Fastokens update may be refused
  before a widening and accepted after it (`OrderDecides`). `AcceptsAfter` and `RunSucceeds` give the exact
  conditions; the orders that succeed give one document.
- `sync_prebuilt_bindings` says it binds the fatbin only after both judged architectures pass
  (`tools/generate_registry.py`, line 562). The code asks for the readings of the devices that the document
  certifies already, and for none when it certifies none (`FirstSyncUnread`). The model follows the code;
  `BackedExactly` gives the exact condition.
- The embedded reference version is added without a range check, but the check afterwards holds it to the
  range (`ReferenceUnexamined`); `UpdateIsChecked` and `WideningCheck` give the exact conditions.
- A prebuilt sync run again is refused exactly when an architecture that it certified itself has no passing
  reading (`SyncTwice`): the first run did not have to ask for one.
- An interleaved probe of the second-element scan changes although no candidate in it composes, when a
  candidate composes with the next copy of the first element (`ProbeOvershoots`, on data that is not Unicode's:
  there no first element is a second element); `UnchangedProbe` gives the exact condition. Halving takes such a
  probe apart. The pair test at a single candidate repeats the question just asked (`LoneProbe`).
- Of the checks `build_kimi` and `build_deepseek` make on a half-written or finished table, five can never
  fail once the earlier ones have passed: the first two of the kimi table (`FinalChecksExact`), those in front of
  the two whitespace writes (`WriteWhitespace`) and the one on the histogram (`BuildDeepseek`).
- A character the scans refuse is refused for cause: `NfcTable.RefusalIsReal` unfolds a 255 entry into a text of
  length one or two that NFC changes.

## Model

| member | source | states |
|---|---|---|
| NormalForm.Characterization | tools/generate_class_tables.py:1140-1142 | a text is unchanged by NFC exactly when every character is stable alone, the combining classes are in order, and every unblocked starter-mark or starter-starter pair is stable |
| ComposedTexts.NfcIsWellFormed | tools/generate_class_tables.py:1140-1142 | whatever NFC returns meets that characterization |
| NormalForm.NfcIdempotent | tools/generate_class_tables.py:1160-1163 | NFC of an NFC text is that text |
| NormalForm.SubstringStable | tools/generate_class_tables.py:1212-1230 | normal forms are closed under substring, which is what lets a batch be bisected |
| NormalForm.NfcEquivalent | tools/generate_class_tables.py:1155-1163 | the composed form has the same canonical decomposition as the text |
| NfcTable.QuickCheckExact | tools/generate_class_tables.py:1140-1142 | among texts without a 255, the check passes if and only if NFC leaves the text unchanged |
| NfcTable.QuickCheckSound | tools/generate_class_tables.py:1140-1142 | every text that passes is unchanged by NFC |
| NfcTable.FirstElementsComplete | tools/generate_class_tables.py:1602-1626 | every stable starter that does not stand still before some stable character is in the first-element set |
| NfcTable.FirstElementsSound | tools/generate_class_tables.py:1602-1626 | every member of the first-element set is a stable starter |
| NfcTable.LeftOutFirst | tools/generate_class_tables.py:1602-1619 | a stable starter outside the set is the first element of no primary composite |
| NfcTable.SecondsFound | tools/generate_class_tables.py:1632-1637 | a stable character is a second element of some stable starter exactly when it is one of a member of the first-element set |
| NfcTable.ScanSingles | tools/generate_class_tables.py:1573-1598 | steps 1 and 2 return exactly the characters each form changes, with their images, and exactly the decomposition-free non-starters |
| NfcTable.Assemble | tools/generate_class_tables.py:1648-1672 | the overlapping writes of step 6 leave a table whose 255 entries are the unsafe characters and surrogates, and whose other entries order as the combining classes |
| NfcTable.EntriesAreBytes | tools/generate_class_tables.py:1640-1654 | there is one entry a codepoint and each fits a byte: 255 exactly for surrogates and what is refused, 0 exactly for the safe starters |
| NfcTable.LvtIs | tools/generate_class_tables.py:1615-1618 | a syllable is passed over as three-part exactly when it is made of a leading consonant, a vowel and a trailing consonant |
| NfcTable.BuildNfcTable | tools/generate_class_tables.py:1561-1672 | steps 1 to 6 end with such a table, whose ranks count the combining classes of the marks up to their own, or refuse, exactly when there are more than 254 such classes |
| NfcTable.RanksCount | tools/generate_class_tables.py:1308-1349 | a rank is the number of combining classes, among the marks that stand for themselves, up to its own |
| NfcTable.BuildSoundTable | tools/generate_class_tables.py:1561-1672 | every text the built table passes is unchanged by NFC |
| NfcProbes.SingletonScan | tools/generate_class_tables.py:1166-1196 | the batched scan returns exactly the characters the form changes, each with its image, whichever branch a batch takes |
| NfcProbes.ScanBatch | tools/generate_class_tables.py:1180-1192 | one batch gives the same answers as one probe a character, split or not |
| NfcProbes.BatchPieces | tools/generate_class_tables.py:1169-1173 | a batch splits back into as many pieces as characters only when each piece is that character's answer |
| NfcProbes.NfcAcrossSpace | tools/generate_class_tables.py:1169-1171 | a space separates: the composed form of `a b` is those of `a` and `b` around the space |
| NfcProbes.DetectNonstarters | tools/generate_class_tables.py:1274-1305 | the two sliced probes together find exactly the candidates of non-zero combining class, and never lose their alignment |
| NfcProbes.DetectPass | tools/generate_class_tables.py:1288-1304 | one probe kind finds exactly its own range of combining classes, batch by batch |
| NfcScan.ScanRecursive | tools/generate_class_tables.py:1212-1230 | bisection ends and appends, in order and once each, exactly the candidates that compose with the first element |
| NfcScan.ScanFirst | tools/generate_class_tables.py:1233-1241 | the 4096-wide batches change nothing: the hits are those of the whole candidate list |
| NfcScan.SecondElementScan | tools/generate_class_tables.py:1244-1271 | the union over all first elements is exactly the candidates some first element composes with |
| NfcScan.UnchangedProbe | tools/generate_class_tables.py:1212-1218 | an interleaved probe behind a starter is unchanged exactly when no candidate in it composes and each but the last stands still before the next copy of the first element |
| NfcScan.ProbeClears | tools/generate_class_tables.py:1212-1218 | an unchanged probe clears every candidate in it, whatever the first element is |
| NfcProbeExample.ProbeOvershoots | tools/generate_class_tables.py:1212-1228 | data that meets every assumption and on which a scanned first element's probe of two candidates changes, although it composes with neither |
| NfcScan.Greater | tools/generate_class_tables.py:1321-1326 | a remembered comparison is always the oracle's answer, which is the order of the combining classes |
| NfcScan.Place | tools/generate_class_tables.py:1328-1343 | one insertion keeps the classes strictly ascending, one for each combining class, and adds only its own character |
| NfcScan.RankNonstarters | tools/generate_class_tables.py:1308-1349 | the ranks are exactly 1 to K on the given marks |
| NfcScan.RanksFollowClasses | tools/generate_class_tables.py:1308-1349 | a rank is smaller exactly when the combining class is |
| NfcSample.SampleSatisfiesAssumptions | tools/generate_class_tables.py:1602-1607 | a small repertoire (a letter with an acute, a composition exclusion, L V T jamo) meets every assumption made of the character data |
| NfcSample.SampleForms | tools/generate_class_tables.py:1124-1142 | on it a letter and an acute compose, the exclusion does not, a Hangul syllable composes in two steps from its jamo or from its first two, and a mark of lower class passes through a stable letter |
| PatternTools.SplitTopAlternatives | tools/generate_class_tables.py:845-869 | the buffer loop computes the recursive split at top-level bars |
| PatternTools.JoinSplit | tools/generate_class_tables.py:845-869 | joining the alternatives with bars returns the pattern, for every pattern |
| PatternTools.EachAlternativeAlone | tools/generate_class_tables.py:845-869 | every alternative splits to itself, and all but the last end outside a class and an escape |
| PatternTools.SplitUndoesJoin | tools/generate_class_tables.py:845-869 | splitting undoes joining exactly on lists whose members split to themselves and, but for the last, are closed |
| PatternLaws.SplitAtTopBars | tools/generate_class_tables.py:845-869 | a pattern is cut exactly at the bars that no odd run of backslashes precedes and that stand behind no unclosed bracket |
| PatternLaws.AlternativesCount | tools/generate_class_tables.py:845-869 | there is one alternative more than there are such bars |
| PatternLaws.EscapeAlone | tools/generate_class_tables.py:853-856 | an escaped character never splits |
| PatternLaws.PrintedAlone | tools/generate_class_tables.py:857-860 | a printed class is one alternative and leaves no class open, whatever bars it holds |
| CharacterClass.ParseCharClass | tools/generate_class_tables.py:796-842 | the two loops accept and return what the recursive grammar of the class says, refusals included |
| CharacterClass.ParseUndoesPrint | tools/generate_class_tables.py:796-842 | parsing undoes the escaping printer for every list of items, wherever the class stands, and ends right behind it |
| CharacterClass.ParsedIsStable | tools/generate_class_tables.py:796-842 | whatever is parsed is printed and parsed to itself |
| ClassSamples.EscapedClass | tools/generate_class_tables.py:796-842 | an escape is taken exactly of ASCII punctuation |
| ClassSamples.OneCharacter | tools/generate_class_tables.py:796-842 | a class of one plain character is that character; a caret, a second bracket or a missing end is refused |
| ClassSamples.CaretRefused | tools/generate_class_tables.py:796-842 | a negated class is refused wherever it stands |
| ClassSamples.Dashes | tools/generate_class_tables.py:796-842 | a bare dash between two characters is a range, refused when it descends; escaped or at an end it is a dash |
| ClassTables.BuildO200k | tools/generate_class_tables.py:602-622 | the overlapping writes leave, for each codepoint, the class of the last mask that holds; where its categories are separate, each class holds exactly its own categories |
| ClassTables.WhiteIs | tools/generate_class_tables.py:122-127 | the whitespace set is the twenty-five codepoints listed |
| ClassTables.BuildKimi | tools/generate_class_tables.py:630-735 | accepted exactly when the subclasses partition Han with the expected sizes and nothing is mixed outside it; then it equals the seven-class table on every codepoint outside Han, and inside holds numbers, other letters and the rest apart |
| ClassTables.FinalChecksExact | tools/generate_class_tables.py:717-735 | given the subclasses, the first two of the four checks on the finished table hold at every codepoint, and all four pass exactly when nothing is mixed outside Han |
| ClassTables.BuildDeepseek | tools/generate_class_tables.py:1009-1096 | accepted exactly when the masks are disjoint, the constants fit and no surrogate was classed; then each class holds exactly its mask, and the check that the histogram covers the codepoint space cannot fail |
| ClassTables.DisjointIsPartition | tools/generate_class_tables.py:1009-1086 | under disjoint masks every class of the finished table is exactly its own mask |
| ClassTables.WhiteUnclassed | tools/generate_class_tables.py:1066-1073 | under disjoint masks whitespace lies in no category class |
| ClassTables.WriteWhitespace | tools/generate_class_tables.py:1066-1073 | the checks in front of the two whitespace writes cannot fail under disjoint masks, and the writes leave line breaks, other whitespace and categories apart |
| ClassTables.HistogramCovers | tools/generate_class_tables.py:1089-1096 | the histogram sums to the table's length exactly when every entry is a known class |
| ClassCounts.DisjointMeans | tools/generate_class_tables.py:1008-1032 | the masks are taken for disjoint at a codepoint exactly when it is in at most one of the five categories and the whitespace, and it is classed exactly when it is in one |
| ClassCounts.ConstantsMean | tools/generate_class_tables.py:1034-1063 | the constants fit exactly when no digit is in an ideograph range, every listed mark is punctuation or a symbol, the alphabet ranges hold letters alone, and the space is whitespace alone |
| ClassCounts.PartitionMeans | tools/generate_class_tables.py:1065-1087 | class 6 is LF and CR, 5 the other whitespace, 4 punctuation, symbols and the surrogates, 3 to 1 numbers, marks and letters, 0 the rest |
| ClassCounts.SubclassedCounts | tools/generate_class_tables.py:672-691 | the subclasses are right at a codepoint exactly when, if Han, it is just one of number, other letter and neither, and not whitespace |
| ClassCounts.UnmixedCounts | tools/generate_class_tables.py:717-735 | the last two final checks ask that outside Han an other letter or a mark is that alone |
| ClassCounts.CountedMeans | tools/generate_class_tables.py:692-703 | the four expected counts are the numbers of Han other letters, Han numbers, Han codepoints that are neither, and Han codepoints |
| ClassCounts.AcceptedSizes | tools/generate_class_tables.py:692-716 | in an accepted table the classes 7, 8 and 9 are of the expected sizes, and together of all of Han |
| ChunkCounters.AddLaws | tools/run_chunked_cut_campaign.py:943-961 | adding counters is associative, commutative and has the empty counters as unit, columns that did not run included |
| ChunkCounters.AddConsistent | tools/run_chunked_cut_campaign.py:482-498 | adding keeps the triangle between the columns and keeps every column below the documents |
| ChunkStream.TallyFacts | tools/run_chunked_cut_campaign.py:427-498 | over any run a family counts one document for each judged, each column that runs counts exactly the unequal documents, the others stay `None`, and the triangle holds |
| ChunkSums.TallyLeads | tools/run_chunked_cut_campaign.py:444-461 | every counter of the leading path is the sum over the documents of what the Python path says, or the native one where it alone ran |
| ChunkSums.TallyNative | tools/run_chunked_cut_campaign.py:462-481 | the native counters are the sums of what the native path says, and count the plans that differ where both ran |
| ChunkSums.TallyCompares | tools/run_chunked_cut_campaign.py:482-498 | each column counts the documents on which its two id lists differ, and is None on the arms that do not run it |
| ChunkStream.Family.Judge | tools/run_chunked_cut_campaign.py:427-518 | one judgement adds exactly that document's reading, and reports a finding naming exactly the unequal columns and the first place at which the leading path and the oracle part |
| ChunkStream.Family.CountLead | tools/run_chunked_cut_campaign.py:450-461 | the leading path's fields are counted and nothing else changes |
| ChunkStream.Family.CountNative | tools/run_chunked_cut_campaign.py:462-481 | the native counters, plan disagreements included, are counted and nothing else changes |
| ChunkStream.Family.CountMismatches | tools/run_chunked_cut_campaign.py:482-498 | each column that runs grows by one exactly when its two sides differ |
| ChunkStream.FirstDifference | tools/run_chunked_cut_campaign.py:501-506 | the reported place is the first at which the two id lists part |
| ChunkUnit.RunUnit | tools/run_chunked_cut_campaign.py:654-713 | with no time budget the judged documents are exactly the window of accepted documents, every family has tallied them, and the window accounting holds whether the unit fills or runs out |
| ChunkUnit.JudgeAll | tools/run_chunked_cut_campaign.py:685-696 | every family of the unit is given the document, each once |
| ChunkUnit.ReadOne | tools/run_chunked_cut_campaign.py:673-692 | one document is skipped by its length, passed over, or judged; the window's accounting and every family's tally hold again |
| ChunkUnit.JudgeText | tools/run_chunked_cut_campaign.py:685-709 | a judged text is tallied by every family and counted and fed once by the stream |
| ChunkUnit.FamilyCountsUnit | tools/run_chunked_cut_campaign.py:685-696 | every family's `docs` is the unit's judged documents |
| ChunkParts.PartsTile | tools/run_chunked_cut_campaign.py:720-727 | parts 0 to n-1 judge the first n times `part_docs` accepted documents, in order and once each |
| ChunkParts.RunParts | tools/run_chunked_cut_campaign.py:628-727 | parts run one after another on fresh families judge the first n times `part_docs` accepted documents in order, and while they are full their `docs_seen` add up to the stream position of the last |
| ChunkParts.SeenAddsUp | tools/run_chunked_cut_campaign.py:628-634 | the readings of consecutive full parts telescope, although the count starts again inside the loop |
| ChunkParts.FullPart | tools/run_chunked_cut_campaign.py:720-727 | a full part judges `part_docs` documents and reads at least as many |
| ChunkUnit.PositionExact | tools/run_chunked_cut_campaign.py:671-684 | the n-th accepted document is the last one read at its position |
| ChunkUnit.AcceptedMeans | tools/run_chunked_cut_campaign.py:673-678 | the gate takes the documents whose length lies in its range, both ends included, as often as they come |
| ChunkUnit.ChunkCount | tools/run_chunked_cut_campaign.py:685-685 | the number of chunks is the least, from two on, whose chunks hold the text |
| ChunkParts.ShardPicks | tools/run_chunked_cut_campaign.py:285-287 | a shard keeps the order of the listing and takes exactly its own positions |
| ChunkParts.ShardsPartition | tools/run_chunked_cut_campaign.py:285-287 | every position belongs to exactly one shard |
| ChunkReadings.MergeConcatenation | tools/run_chunked_cut_campaign.py:1035-1090 | merging concatenated unit lists is adding the merges |
| ChunkReadings.MergeOrder | tools/run_chunked_cut_campaign.py:1035-1090 | the order of the units does not matter |
| ChunkReadings.MergeUnit | tools/run_chunked_cut_campaign.py:1035-1062 | one unit adds its own families and leaves every other row alone, or disagrees on an identity |
| ChunkReadings.MergeFamilies | tools/run_chunked_cut_campaign.py:1035-1090 | succeeds exactly when every two units agree on what they judged; then each row is the sum over the units |
| ChunkReadings.MergeKeeps | tools/run_chunked_cut_campaign.py:955-961 | after any merge the triangle holds, and a column is `None` exactly when no unit ran it |
| ChunkReadings.PathsMean | tools/run_chunked_cut_campaign.py:1036-1075 | a merged row stands for the Python or the native path exactly when some unit's arm ran it on the family, and has native counters exactly then |
| ChunkReadings.GroupUnits | tools/run_chunked_cut_campaign.py:980-1010 | accepted exactly when no two files of a key differ in their stream or share a family; then the groups hold every file once, one group a key |
| ChunkReadings.CheckGroup | tools/run_chunked_cut_campaign.py:990-1009 | a group passes exactly when no two of its files clash, which is that its streams agree and its families are disjoint |
| ChunkReadings.NoConflictOrder | tools/run_chunked_cut_campaign.py:980-1010 | whether two files clash does not depend on the order of the files |
| ChunkReadings.DocsConserved | tools/run_chunked_cut_campaign.py:1177-1180 | a family's merged documents never exceed the corpus, and equal it exactly when the family was judged in every unit with documents |
| ChunkReadings.ReadingsConserve | tools/run_chunked_cut_campaign.py:1175-1180 | the same of the merged rows themselves, from the units as read |
| ChunkCampaign.FamilyRows | tools/run_chunked_cut_campaign.py:590-601 | each family has one row, holding its identity and the tally of what its unit judged |
| ChunkCampaign.RunPart | tools/run_chunked_cut_campaign.py:716-812 | one part of a campaign leaves a unit file of exactly its window: every row is the tally of the window's documents |
| ChunkCampaign.FileCounts | tools/run_chunked_cut_campaign.py:590-601 | the rows of a unit file count its judged documents, with consistent columns |
| ChunkCampaign.RunCampaign | tools/run_chunked_cut_campaign.py:723-727 | the files of parts 0 to n-1 are those of the parts' own documents, under keys of their own |
| ChunkCampaign.TallyAppend | tools/run_chunked_cut_campaign.py:943-961 | judging one list after another gives the sum of the two tallies |
| ChunkCampaign.PartsReadAsOne | tools/run_chunked_cut_campaign.py:943-961 | merging the files of the parts gives each family exactly the reading of one unit that judged all their documents |
| ChunkCampaign.CampaignConserves | tools/run_chunked_cut_campaign.py:1175-1180 | from the documents to the merged rows: paths, every counter and the document count are those of judging the first accepted documents once, and the corpus counts just these |
| ChunkAdmission.Derive | tools/update_chunked_admission.py:198-416 | succeeds exactly on admissible readings; then the table is the one the specification gives family by family, and no mismatch was recorded |
| ChunkAdmission.CertifiedMeans | tools/update_chunked_admission.py:255-345 | a certified row was judged on both levels under one face; it lists the native path exactly when both levels list it and compared it with the oracle and with the Python path, each level's native evidence being that level's own reading |
| ChunkAdmission.RowOkMeans | tools/update_chunked_admission.py:129-200 | the rows a level takes, in their own fields: which paths, which comparisons there must be, and that none ever differed |
| ChunkAdmission.DeriveOrder | tools/update_chunked_admission.py:283-312 | reordering either list changes neither success nor any row |
| ChunkAdmission.TableUnique | tools/update_chunked_admission.py:313-348 | the specification leaves no freedom: two tables of the same readings are equal |
| ChunkAdmission.TakeRow | tools/update_chunked_admission.py:283-312 | one row is taken exactly when it is in order and may join what came before; then what is known is what the rows so far say |
| ChunkAdmission.Enroll | tools/update_chunked_admission.py:228-257 | a family seen again must agree on normalizer and face, and keeps the face it had |
| ChunkAdmission.Judged | tools/update_chunked_admission.py:258-274 | a level is counted exactly when the row is clean and its Python path is complete |
| ChunkAdmission.Totals | tools/update_chunked_admission.py:371-416 | the corpus totals are the sums over the entries, refused when one is missing |
| DependencyClosures.Reachable | tools/generate_judged_closure.py:612-626 | the search ends with exactly the nodes reached under the rule that nothing is followed out of a proc macro, or meets a package the graph does not describe |
| DependencyClosures.ReachableMeans | tools/generate_judged_closure.py:612-626 | that is: the nodes at the end of a path none of whose earlier nodes is a proc macro |
| DependencyClosures.LeastClosed | tools/generate_judged_closure.py:612-626 | the reached set is the least set that holds the roots and is closed under the edge rule |
| DependencyClosures.NormalClosure | tools/generate_native_legal.py:363-392 | the search ends with exactly the packages reached over normal edges, or refuses exactly when one of them has no node |
| DependencyClosures.PublicClosure | tools/generate_rust_distribution_metadata.py:52-83 | the search ends with exactly the packages reached over non-development edges and the targets of each |
| DependencyClosures.NormalInsidePublic | tools/generate_native_legal.py:363-392 | the normal closure lies inside the public one of the same graph |
| EdgeRules.NormalEdgesMean | tools/generate_native_legal.py:381-389 | a normal edge is one that some entry lists with a null or a normal kind |
| EdgeRules.PublicEdgesMean | tools/generate_rust_distribution_metadata.py:74-80 | a public edge is one that some entry lists without kinds, or with a kind other than development |
| EdgeRules.LinkedEdgesMean | tools/generate_judged_closure.py:599-625 | an edge of the judged graph is one whose entry lists an asked kind, or none while null is asked; none leads out of a proc macro |
| EdgeRules.NormalClosureSees | tools/generate_native_legal.py:363-392 | emptying the kinds of every entry that lists neither a null nor a normal kind leaves the closure as it was |
| EdgeRules.PublicClosureSees | tools/generate_rust_distribution_metadata.py:52-83 | of an entry's kinds the closure sees only whether they are development kinds alone |
| EdgeRules.ReachableSees | tools/generate_judged_closure.py:599-625 | an entry without kinds is as good as one that lists a null kind |
| JudgedClosure.ScanGraphs | tools/generate_judged_closure.py:795-819 | the four sets hold exactly the releases some graph says are our own, taken directly, linked from an engine crate, or proc macros |
| JudgedClosure.Classify | tools/generate_judged_closure.py:783-908 | accepted exactly when no package is unclassified, on an exact edge or a core name out of reach; then tier and each of the eight criteria are given in terms of the graphs and the policy, in both directions |
| JudgedClosure.R2IsLinked | tools/generate_judged_closure.py:830-908 | an R2 package ends a path from an engine crate that no proc macro interrupts, in some judged graph |
| Sbom.QuoteInverse | tools/generate_native_legal.py:447-450 | quoting is undone by unquoting and never yields the separator |
| Sbom.PurlInjective | tools/generate_native_legal.py:447-450 | a reference names one name and one version |
| Sbom.QuoteByte | tools/generate_native_legal.py:447-450 | letters, digits and `_.-~` stay, what is named safe stays, any other byte is escaped in upper-case hexadecimal |
| Sbom.PlainPurl | tools/generate_native_legal.py:447-450 | the reference of a package with an ordinary name and version spells both out |
| Sbom.References | tools/generate_native_legal.py:508-527 | the reference table is refused exactly when two packages share a reference; otherwise it names each package |
| Sbom.DependencyRows | tools/generate_native_legal.py:499-546 | one row for each package of the normal closure under a reference of its own; refused exactly when something is missing, a release is shared, or a curated component's reference is taken |
| Sbom.Curated | tools/generate_native_legal.py:519-527 | a curated component clashes exactly when its reference is a package's or an earlier component's |
| Sbom.DependenciesResolve | tools/generate_native_legal.py:528-546 | every `dependsOn` entry names an emitted row, and no normal edge of a package is dropped |
| TextLines.SplitIsLines | tools/compute_identity_v2.py:79-79 | splitting keeps every character and yields lines, each with its own break |
| TextLines.SplitJoin | tools/compute_identity_v2.py:96-96 | lines that keep their breaks are split again as they were |
| VersionNormalization.AssignmentSurvives | tools/compute_identity_v2.py:66-72 | a rewritten assignment is found again with the new value between its quotes, under the same key |
| VersionNormalization.VersionSurvives | tools/compute_identity_v2.py:55-55 | a rewritten version field is again the leftmost match, with the new value |
| VersionNormalization.BreaksAndSpaces | tools/compute_identity_v2.py:81-85 | the line boundaries and the white space the tool's string methods know, by codepoint |
| ManifestNormalization.NormalizeManifest | tools/compute_identity_v2.py:75-96 | the pass that carries the section along computes the line-by-line normal form |
| ManifestNormalization.NormalizeKeepsTheRest | tools/compute_identity_v2.py:75-96 | the number of lines is kept, and each line differs at most inside an enumerated value |
| ManifestNormalization.NormalizeIdempotent | tools/compute_identity_v2.py:75-96 | normalizing a manifest twice is normalizing it once |
| ManifestNormalization.NormalizeBlind | tools/compute_identity_v2.py:75-96 | manifests that differ only in enumerated values normalize to the same text exactly when every changed dependency line still passes the test on its path field or holds the normal value |
| ManifestNormalization.NormalizeBlindToPlainVersions | tools/compute_identity_v2.py:75-96 | and always, when the values of one of them hold neither a comma nor a brace |
| ManifestExample.BlindnessNeedsRecognition | tools/compute_identity_v2.py:55-56 | two manifests of an enumerated path that differ only in the version of one dependency and normalize to different texts, because the first declares its path field inside the version |
| ManifestPrinter.NormalizePrinted | tools/compute_identity_v2.py:37-97 | normalizing a printed manifest is printing it with 0.0.0 for the root's workspace version and for exactly the path dependencies enumerated for its path, under `[dependencies]` alone |
| LockNormalization.NormalizeLines | tools/compute_identity_v2.py:99-118 | the in-place pass rewrites exactly the version line of each block that names a workspace package |
| LockNormalization.Fields | tools/compute_identity_v2.py:105-110 | of each field the last line of the block counts |
| LockNormalization.NormalizeKeepsTheRest | tools/compute_identity_v2.py:99-118 | the number of lines is kept, and each line differs at most inside a workspace package's version |
| LockNormalization.NormalizeIdempotent | tools/compute_identity_v2.py:99-118 | normalizing a lock file twice is normalizing it once |
| LockNormalization.NormalizeBlind | tools/compute_identity_v2.py:99-118 | lock files that differ only in versions of workspace packages normalize to the same text |
| LockPrinter.NormalizePrinted | tools/compute_identity_v2.py:26-36 | normalizing a printed lock file is printing it with 0.0.0 for exactly the seven workspace packages |
| IdentityFraming.SourceDigestInput | tools/source_identity_common.py:65-75 | the running digest is fed the domain tag and the framed files, or a length does not fit |
| IdentityFraming.StreamRoundTrip | tools/source_identity_common.py:65-75 | the framed stream decodes back to the exact list of paths and contents |
| IdentityFraming.StreamInjective | tools/source_identity_common.py:65-75 | under one domain tag equal streams are equal source sets |
| IdentityFraming.AddedFrontendPreimage | tools/artifact_identity.py:56-84 | the parts appended in the nested loops are the preimage of the table |
| IdentityFraming.PreimageUnique | tools/artifact_identity.py:56-84 | a table whose contents hold no U+0001 shares its preimage with no other table |
| TokenReadings.PreimageUniqueExactly | tools/artifact_identity.py:56-84 | a table shares its preimage with no other exactly when a scan of its entries finds one way to read that many tokens |
| TokenReadings.MarkFreeReadsOnce | tools/artifact_identity.py:56-84 | contents without U+0001 read in one way |
| TokenReadings.OneTokenReadsOnce | tools/artifact_identity.py:56-84 | a table of one token reads in one way, whatever its content holds |
| IdentityFraming.PreimageClash | tools/artifact_identity.py:56-84 | two different tables, one of them holding a U+0001, share a preimage |
| VersionedIdentity.Preimage | tools/compute_identity_v2.py:143-153 | what is hashed is the framed list of normalized files, or nothing when a file cannot be decoded or framed |
| VersionedIdentity.IdentityBlind | tools/compute_identity_v2.py:143-153 | source sets that differ only in enumerated versions are hashed from the same bytes |
| VersionedIdentity.IdentityTells | tools/compute_identity_v2.py:143-153 | equal bytes mean the same paths in the same order with the same normal forms, and conversely |
| PrintedSources.LockFile | tools/compute_identity_v2.py:121-124 | a printed Cargo.lock at the root counts with 0.0.0 for exactly the seven workspace packages |
| PrintedSources.ManifestFile | tools/compute_identity_v2.py:125-126 | a printed Cargo.toml in any directory counts with 0.0.0 for the workspace version and the internal path dependencies of that very manifest |
| PrintedSources.OtherFile | tools/compute_identity_v2.py:119-127 | any other file counts byte by byte; of these two kinds exactly what is no text is refused |
| Registry.AcceptsKept | tools/update_fast_cpu_registry.py:155-215 | a document that keeps the identities of its rows and loses no version is accepted by every writer that accepted it |
| Registry.EditsCommute | tools/update_fast_cpu_registry.py:346-375 | writers of different fields edit in either order with the same result |
| Registry.WritersCommute | tools/registry_common.py:82-88 | two writers a document is ready for succeed in either order and give the same document, root digest included |
| RegistryAcceptance.AcceptsGrown | tools/update_direct_jit_registry.py:100-137 | exactly which writers accept a document that keeps the identities of another and certifies more releases |
| RegistryAcceptance.AcceptsAfter | tools/update_fastokens_registry.py:194-232 | every writer accepts the document another has updated exactly when it would accept the first with the releases that other adds: only a widening changes the answer, and only for direct JIT and Fastokens |
| RegistryAcceptance.AcceptsMonotone | tools/update_direct_jit_registry.py:118-132 | certifying more releases never makes a writer refuse |
| RegistrySyncs.SyncToolchain | tools/generate_registry.py:296-323 | the loop writes the constraint on certified rows and their JIT view, and refuses when there is none |
| RegistrySyncs.SyncPrebuilt | tools/generate_registry.py:561-633 | the loop binds every prebuilt delivery, its view and its JIT view, or refuses |
| RegistrySyncs.OpsCommute | tools/generate_registry.py:296-323 | the edits of any two operations on different fields commute, syncs and writers mixed |
| RegistrySyncs.AcceptsReached | tools/generate_registry.py:447-477 | exactly which of the eight operations accept a document that others have reached |
| RegistrySyncs.StepDevices | tools/generate_registry.py:592-625 | only a prebuilt sync changes the devices certified for the fatbin, and then to what it names |
| RegistrySyncs.SyncTwice | tools/generate_registry.py:561-633 | a sync again changes nothing; a prebuilt sync again is refused exactly when an architecture it certified itself has no passing reading |
| RegistrySyncs.CheckKeptBySync | tools/generate_registry.py:814-880 | a writer's passing check still passes after either sync |
| RegistryDemands.FastCpuDemands | tools/update_fast_cpu_registry.py:155-312 | the fast-CPU update succeeds exactly when eleven families are loadable and none of them rejected, both readings are of these and bear the digests of the last row of each, and every other row is of a rejected family |
| RegistryDemands.RustDemands | tools/update_rust_api_registry.py:171-222 | the Rust update succeeds exactly when the document has fifteen families and every matrix is of exactly these |
| RegistryDemands.JitDemands | tools/update_direct_jit_registry.py:98-195 | the direct-JIT update succeeds exactly when its fifteen rows are of the document's families, each with the artifact, oracle and evidence recorded there and a release its oracle certifies, and every artifact has a JIT delivery |
| RegistryDemands.FastokensDemands | tools/update_fastokens_registry.py:194-232 | the Fastokens update succeeds exactly when every family it lists bears the recorded digest and some record of its oracle package certifies its release |
| RegistryDemands.FaceDemands | tools/update_loader_face_registry.py:181-213 | the loader faces are written exactly when every row's artifact is cached under the digest recorded |
| RegistryDemands.WideningDemands | tools/update_oracle_certified_versions.py:356-375 | a widening succeeds exactly when every release but 0.22.2 is in range and has readings without problems, and some record is of the oracle package |
| RegistryDemands.WideningCheckDemands | tools/update_oracle_certified_versions.py:305-344 | its check passes exactly when the root digest is right, 0.22.2 is certified, every certified release is in range and, but for that one, without problems, and no release with a reading is left out |
| RegistryDemands.ToolchainDemands | tools/generate_registry.py:308-321 | a toolchain sync succeeds exactly when some GPU row is certified_source |
| RegistryDemands.PrebuiltDemands | tools/generate_registry.py:447-633 | a prebuilt sync succeeds exactly when some row has a prebuilt delivery, each such row a JIT delivery beside it, and each device one of them certifies already is to be certified again and has a passing reading |
| RegistrySyncs.StepIsRecorded | tools/generate_registry.py:592-625 | right after an operation the document holds what it was given, row by row |
| RegistryFrames.StepKeeps | tools/generate_registry.py:311-318 | an operation leaves every field it does not own as it was; a toolchain sync owns the two toolchain fields, a prebuilt sync the digests of both views and the delivery, each writer its own field |
| RegistryFrames.FieldsCover | tools/generate_registry.py:311-318 | the fields are all there is to a document but its digest |
| RegistryFrames.SyncTouches | tools/generate_registry.py:593-627 | a sync touches certified rows, or rows with a prebuilt delivery, alone; host facts it does not bring stay |
| RegistryRuns.RunSucceeds | tools/update_direct_jit_registry.py:61-158 | a run of writers and syncs succeeds exactly when each would accept the first document with the releases and the fatbin's devices certified before it |
| RegistryRuns.AcceptedRunSucceeds | tools/update_direct_jit_registry.py:61-158 | operations that all accept a document, with at most one prebuilt sync among them, succeed in any arrangement |
| RegistryRuns.RunIsEdits | tools/registry_common.py:82-88 | a successful run leaves its edits under the one digest of the last |
| RegistryExample.OrderDecides | tools/update_direct_jit_registry.py:118-132 | a registry on which a direct-JIT and a Fastokens update fail before a widening and succeed after it |
| RegistryExample.ReferenceUnexamined | tools/update_oracle_certified_versions.py:357-375 | a widening by the embedded reference alone is accepted with the reference out of range, and its own check then fails |
| RegistryRuns.AnyOrder | tools/registry_common.py:82-88 | any two orders of writers and syncs of different fields that both succeed give the same document, whether or not all accept it from the start |
| RegistryChecks.ApplyTwice | tools/registry_common.py:82-88 | running a writer again changes nothing |
| RegistryChecks.UpdateRecordsV2 | tools/update_fast_cpu_registry.py:315-321 | what a check infers from an updated document is that the version-normalized identities are recorded |
| RegistryPlainRecords.PlainUpdateRecords | tools/update_fast_cpu_registry.py:315-332 | written without the identities, a document is found to be without them exactly when the binding, or for the JIT deliveries the document, brought none |
| RegistryPlainRecords.PlainUpdateIsChecked | tools/update_fast_cpu_registry.py:385-412 | then its check passes as it stands |
| RegistryChecks.UpdateIsChecked | tools/update_fast_cpu_registry.py:385-412 | right after an update the writer's own check passes, with the flag inferred back; that of a widening exactly when all that is certified now fits the evidence |
| RegistryChecks.CheckKept | tools/update_rust_api_registry.py:340-378 | a passing check still passes after a writer of other fields has updated the document; of two widenings exactly when the evidence of the first covers what the second adds, and always when they share it |
| RegistryRuns.EveryCheckPasses | tools/generate_registry.py:814-880 | after any successful run of writers and syncs of different fields every writer's check passes, that of a widening exactly when all that is certified by then fits its evidence |
| RegistryChecks.UpdateIsRecorded | tools/update_fast_cpu_registry.py:346-375 | after an update the document holds what the writer was given, row by row, said without its edits |
| RegistryRuns.EveryOpRecorded | tools/generate_registry.py:814-880 | whatever the order of the run, what each writer and each sync was given stands in the document at the end |
| RegistryFrames.RunKeeps | tools/registry_common.py:82-88 | over any successful run, a field that no operation of it owns is at the end what it was |
| RegistryRuns.RunVersions | tools/update_oracle_certified_versions.py:347-353 | after any successful run the certified versions are the old ones and those added, under a correct root digest |
| RegistryRuns.WideningCheck | tools/update_oracle_certified_versions.py:305-344 | after any successful run the check on the certified versions passes exactly when the embedded reference is there, everything is in range and attested, and nothing attested is missing |
| RegistryAcceptance.JitAfterWidening | tools/update_direct_jit_registry.py:118-132 | widening never takes a row from a direct-JIT reading, and lets through exactly the rows whose release it adds |
| RegistryWriters.AugmentRows | tools/update_fast_cpu_registry.py:324-377 | the loop over a copied document assigns the owned field row by row and computes the digest again |
| RegistryWriters.FaceProblems | tools/update_loader_face_registry.py:216-233 | the problems are exactly the cached families whose recorded face is missing or different |
| RegistryWriters.ValidateJit | tools/update_direct_jit_registry.py:61-158 | the loop accepts exactly a full roster of rows that match the registry's artifact, oracle and evidence |
| RegistryWriters.AugmentJit | tools/update_direct_jit_registry.py:173-225 | the loop binds the JIT delivery of every artifact, or refuses |
| RegistryWriters.WidenedDocument | tools/update_oracle_certified_versions.py:347-353 | every record of the oracle package lists the old and the added versions, and nothing else changes |
| RegistryWriters.GatherCertified | tools/update_oracle_certified_versions.py:141-157 | the certified versions are those listed by some record of the oracle package, refused exactly when there is none |
| RegistryWriters.GuardCodepoints | tools/update_fastokens_registry.py:118-130 | ranges are accepted exactly when they ascend without overlap; then the code points are those of the ranges, ascending and once each |
| Restatement.RunRestates | tools/generate_registry.py:381-388 | over every successful run of the six writers and the two syncs the JIT delivery goes on restating the six fields |
| Restatement.SyncedPasses | tools/generate_registry.py:381-443 | right after a prebuilt sync the check passes exactly when the fields it does not write were restated and every certified architecture is embedded |
| Restatement.SyncedDevices | tools/generate_registry.py:592-625 | certified and experimental devices are disjoint, and cover the embedded images exactly when every certified architecture is embedded |
| Restatement.SyncedToolchain | tools/generate_registry.py:264-284 | after a toolchain sync the check on the compiler tuple passes exactly when it passed on the certified JIT deliveries of rows that are not certified |
| Restatement.SyncedKernel | tools/generate_registry.py:261-293 | after a prebuilt sync the check on kernel sources and class tables passes exactly when it passed on the rows without a prebuilt delivery |
| Restatement.PassingRowsAgree | tools/generate_registry.py:251-293 | two rows that pass the checks against one fatbin agree on all it ships, and each delivery with its own view |
| Restatement.BackedExactly | tools/generate_registry.py:567-577 | a sync vouches for a reading of every architecture it certifies exactly when the document certifies them all already |
| Restatement.FirstSyncUnread | tools/generate_registry.py:447-474 | a registry whose one prebuilt delivery is not certified yet: a sync certifies whatever architectures it names with no reading at all |
| Restatement.NoProblemsKept | tools/generate_registry.py:381-443 | neither a toolchain sync nor any writer brings a problem back |

## Left out

- The Rust engine, the CUDA kernels, session repair and the chunk-cut predicate: their sources decide them, and the encoders enter the campaign model as functions.
- Unicode data: combining classes, decompositions, composites, categories and Han are parameters. Assumed of them: decompositions are non-empty, ordered and fully decomposed; a primary composite is a starter built on a starter whose decomposition extends that starter's by its second element; composites are scalar values; the probe letters and the space stand apart; a three-part Hangul syllable starts no composite.
- The cross-checks of the NFC builder against the standard library: only its set of combining characters is kept, which can add refusals; pin checks, planted strings and the random battery are finite tests the soundness theorem covers.
- NfcProbes.Normalize: the reference package's normalizer is taken to be the one written out here, so a normalizer that departs from the Unicode Standard is outside the model.
- NfcScan.SecondElementScan: worker processes deliver results in any order; the model takes them in list order, which a union does not notice.
- NfcTable.WriteEach: the codes of a set are written in ascending order, the tool writes them in the set's own order; each write is of one value.
- The four-class tables: the same overlapping writes as the seven-class one.
- ClassTables.BuildKimi: the pattern's fingerprint and the artifact files are not part of the model.
- extract_constants: beyond the two parsers it compares fixed texts.
- CharacterClass.Parse: a class that runs out of text, an index error in the tool, is refused like any other.
- ChunkCampaign.RunPart: of the unit file the manifest, the reports and the totals are left out; the digest is a function of the judged documents.
- ChunkUnit.RunUnit: no time budget; periodic flushing of reports, saving of findings and the adversarial battery are left out.
- ChunkStream.Family.Judge: of a finding the columns, the chunking, the place of the first difference and the text are kept, not the leading path's plan.
- ChunkReadings: identities of tool, host and manifest that every unit must share are plain equality tests.
- ChunkAdmission.Derive: JSON type checks are left out; counts and labels arrive with their types.
- DependencyClosures.PublicClosure: finding the single root package by its manifest path is left out, and target lists are sets, not sorted lists.
- JudgedClosure.Classify: the text-semantics table, the counts of encode-path files naming a package and the exact-requirement test are parameters; the set of compiled packages is given.
- TokenReadings.ValidTable: which byte strings are UTF-8 is a parameter.
- Sbom: component metadata, licenses and checksums are copied fields.
- VersionNormalization.VersionAt: which characters a word boundary looks at is a parameter.
- VersionedIdentity: UTF-8 is a parameter with a left inverse on both sides; which files a source set covers, and their order, are given.
- SHA-256 and canonical JSON: results are stated about the bytes or the document that is hashed.
- Registry: a document is compared as JSON objects are, without the order of keys. Top-level keys a writer adds for the first time appear in the order of the writers, so the serialized files of two orders may differ in layout before any of them is written again.
- Registry.Accepts: everything a writer checks of its own binding and readings alone is one flag; what it compares with the document is modelled.
- Registry.ValidEnv: the order of versions is a parameter that lists a set; two spellings of one version number have equal keys, and the tool leaves their order to the set.
- RegistryRuns.WideningCheck: the evidence of a release is a set of releases without problems.
- Restatement: which architectures have a passing hardware reading is a parameter; the reading's own fields are plain equality tests.
- File system, subprocesses, cargo, argument parsing, printing, schema validation, license texts and rendering.
