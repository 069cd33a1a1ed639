# git-remote-proton, verified

`git-remote-proton` keeps a git repository on a file store that has no
transactions: refs are small files, packs are uploaded in pairs, a lock file
keeps writers apart, and any call may be refused, may succeed, or may leave
the caller unsure. This project models the parts whose correctness carries
the whole tool and proves what they promise.

* **The push engine** (`Batch` to `History`, `Judgement`, `Grounds`,
  `FastForward`, `ExactNames`, `Replacement`). Phase 2's three nested checks are
  values with in-place methods (`Decider`) proved equal to them. `Judgement`
  says of each check exactly what it refuses, in terms of the batch, the remote
  and the local repository, and `Grounds` that every refusal phase 2 ends with
  tells the truth. Phases 3 to 5 run over a store of files and folders whose calls go wrong in
  any way the transport's contract allows. The theorems hold for every batch,
  every remote and every sequence of outcomes. `PushTheorems` joins one push to
  the scan after it, `History` joins any number of them, and `FastForward` shows
  that no run drops a commit from a branch nobody forces or deletes.
* **Unicode keys** (`UnicodeTables`, `Nfd`, `Normalizer`, `Keys`,
  `Canonical`, `GenUnicode`). Names are sequences of units, each a code point or an invalid
  byte. The tables are arbitrary maps with the facts the generator's checks
  establish; the generator is modelled as well, so its checks are shown to give
  those facts. `Canonical` ties the normal form to canonical equivalence, generated
  by the tables alone. Sections 3.7 and 3.11 to 3.13 of the Unicode Standard are
  followed.
* **Finding pairs** (`Names`, `CaseConflicts`). The two-index search and the
  list of advertised pairs, against a pairwise definition.
* **Selective fetch** (`Walk`, `Cover`, `PackMapping`, `Fetch`). The discovery
  loop over an arbitrary index cache, with its greedy cover and its one heal.
  `Restore` joins it to the pushes: what they leave can be fetched.
* **The lock and the session** (`Lock`). A state machine of any number of
  interleaved sessions whose creates, trashes and writes may take effect late.
* **Symbolic refs** (`Symrefs`).

`dafny verify dfyconfig.toml` checks everything.

## How it is laid out

A loop of the program is a method with a loop; what it computes is a function;
what is promised is a lemma about that function. Objects the program updates in
place are classes (`Decider.Verdicts`, `Normalizer.Buffer`, `Remote.Store`,
`Packs.PackFolder`, `PackMapping.Mapping`, `Fetch.Fetcher`,
`GenUnicode.Expander`). `const faulty` in a store says whether its calls may go
wrong: safety is proved with it unknown, progress with it false. Even then the
calls of pruning may fail, unless `const brittle` is false as well.

Where a promise is about how often or in what order something happens, the call
itself keeps the record, in a ghost field: `Remote.Store.listed` the folders
listed, `Packs.PackFolder.past` the folder after each upload,
`PackMapping.Mapping.refreshes` the rebuilds and `asked` the index files a
download was tried of, `Decider.Verdicts.passes` and
`rounds` the passes and rounds. The callers' contracts bound what was added.

What git answers is a parameter with a contract: the packer packs
reach(wants) minus reach(haves) (`Objects.PacksDifference`), verification
accepts exactly an index that matches its pack (`Objects.Verifies`), and
reachability is computed by `Walk.RevList`.

## Findings

* A write that phase 2 approves can still fail on a transport that works:
  exactly when its object name is not 40 hexadecimal digits, as in a SHA-256
  repository, or it aims at `refs/heads` or `refs/tags` itself
  (`WritePhase.AllWritten` states both directions). Beside a delete of the same
  name the old ref is then lost (`Replacement.LoseMain`, from one concrete batch
  to the next scan). git can send either half alone; both in one batch it never
  sends, but a direct caller of Push can (macpush.go:245-246).
* A delete beside a write of the very same name, both past validation, stands
  exactly when the Mac rule does not refuse the write and no tracking ref of the
  name shares its file with a local ref (`ExactNames.ExactDeleteStands`). Part 2
  pairs by exact name, the case rule does not: its refusals are of names the
  remote does not hold, so the delete is a no-op, and it stays approved unless
  part 3 refuses it (`ExactNames.CaseRefusedDeleteStands`, with one batch for
  each side: `DeleteStandsAlone` and `DeleteFallsOnMac`).
* The generator has no check that '/' is a starter, that nothing else folds to
  or from it, that no Hangul syllable stands inside a mapping, or that no
  conjoining jamo has one. A syllable that carries a mapping of its own is
  rejected by the parser (gen_unicode.go:359-361). Past the four checks, the
  facts the key theorems assume hold exactly when the data bring the rest, which
  is `GenUnicode.DataFacts` (`GenUnicode.ChecksGiveFacts`); one fold onto '/'
  passes every check without them (`GenUnicode.ChecksAreNotEnough`).
* The lock keeps the calls of two pushes apart, and their effects only while
  each write lands before its lock goes. One whose answer was lost may land
  later, between the writes of the next push (`Lock.LateWriteInterleaves`).

## Model

| member | source | states |
|---|---|---|
| `Phase2Sound.DecideIsSound` | internal/repo/push.go:344-519 | for every batch, when phase 2 ends no valid create is above, beneath, case-equal or canonically equal (at any prefix) to another ref of the final set, the deletes A1 put back included |
| `Phase2Sound.KeptIsHarmless` | internal/repo/push.go:395-426 | A1's claim: a kept ref spelled like a refused create is nested with no create that was neither nested with nor paired with the refused one, so the D/F preflight need not run again inside the case loop |
| `Phase2Sound.CasePassKeepsFolderFree` | internal/repo/push.go:427-491 | one pass of the case rule, with its rename pairing, keeps every valid create free of D/F conflicts |
| `Phase2Sound.FolderPassFrees` | internal/repo/push.go:344-366 | one preflight leaves no valid create nested with another ref of the set the batch would then leave |
| `Phase2Sound.StableIsPairFree` | internal/repo/push.go:427-440 | when a pass finds nothing, no valid create pairs with any ref of the final set |
| `Phase2.DecideOk` | internal/repo/push.go:83-519 | phase 2 only turns valid entries into refused ones after validation, keeps every entry in its place, and keeps the facts validation established |
| `MacSound.DecideHasNoCollision` | internal/repo/macpush.go:101-316 | on a Mac, no write or delete still valid collides as the rule defines, in either half |
| `MacSound.MacRefusesWriteIff` | internal/repo/macpush.go:106-230 | each half of part 1 has something to say exactly when a tracking ref of the write meets a local ref, another write's or (for an update) another delete's tracking ref, or when it is an update beside another spelling in the final set |
| `MacSound.DeleteHalfIff` | internal/repo/macpush.go:283-314 | a delete is refused exactly when a tracking ref of it pairs with a local ref |
| `MacSound.DeleteHalfLists` | internal/repo/macpush.go:283-314 | the clauses of a delete list exactly the local refs its tracking refs pair with |
| `MacSound.DecideKeepsPaired` | internal/repo/macpush.go:242-281 | at exit every delete paired with a create the case or Mac rule refused is refused, unless a valid write puts its name back; a delete of the exact name of a Mac-refused write is always refused |
| `ExactNames.ExactDeleteStands` | internal/repo/macpush.go:242-314 | at exit a delete beside a write of the same name is approved exactly when the Mac rule has not refused the write and no tracking ref of the name pairs with a local ref |
| `ExactNames.CaseRefusedDeleteStands` | internal/repo/push.go:427-491 | beside a create the case rule refused, the delete of its very name is approved exactly when no tracking ref of the name pairs with a local ref, which a caller can see before the push |
| `ExactNames.UpdateTakesDelete` | internal/repo/macpush.go:242-253 | an update that phase 2 refuses takes the delete of its name with it, whatever refused it |
| `ExactNames.DeleteStandsAlone` | internal/repo/push.go:427-491 | refs/heads/Main deleted and created beside refs/heads/main, without the Mac rule: the create is refused, the delete stands |
| `ExactNames.DeleteFallsOnMac` | internal/repo/macpush.go:283-314 | the same batch on a Mac with a local refs/remotes/o/main: both fall |
| `OrderIndependence.DecidePermutes` | internal/repo/push.go:83-519 | permuting the batch permutes phase 2's answers, reasons and named conflicts included, and changes nothing else |
| `Batch.ComputeFinalSet` | internal/repo/push.go:843-859 | the two loops compute remote minus valid deletes plus valid writes, whatever the order of the entries |
| `Planner.CountDestinations` | internal/repo/push.go:97-110 | the counter marks a destination exactly when two writes of the batch share it |
| `Planner.IndexSkipped` | internal/repo/push.go:129-138 | the index built in one loop knows exactly the skipped paths, each by an entry of that path |
| `Planner.FindOccupiedAncestor` | internal/repo/push.go:879-886 | none is found exactly when no skipped path is strictly above the destination; one that is found is skipped, strictly above it, and every other skipped path above the destination is at or above it |
| `Planner.FindOccupiedDescendant` | internal/repo/push.go:895-903 | none is found exactly when no skipped path is strictly beneath the destination; one that is found is the first such path in the order of the list |
| `Planner.CheckEntry` | internal/repo/push.go:146-316 | the checks of one entry in their order, over the index and the two walks, give the verdict whose meaning Judgement.ApprovedWriteIff, ApprovedDeleteIff and ValidateTells state |
| `Judgement.ApprovedWriteIff` | internal/repo/push.go:209-316 | a write passes validation exactly when its name is acceptable component by component, no other write of the batch has it, nothing skipped is at, above or beneath it, its source resolves, and, for a branch, the object is a commit and an unforced update's old tip is held locally and an ancestor of the new one; anything else that exists needs force |
| `Judgement.ApprovedDeleteIff` | internal/repo/push.go:155-207 | a delete passes exactly when its name is acceptable and not skipped and, for a branch that is there, HEAD is known not to name it |
| `Judgement.ValidateTells` | internal/repo/push.go:146-316 | every reason validation gives is so: of the name, the batch, HEAD, or what git answered about these very objects |
| `Judgement.FolderPassIff` | internal/repo/push.go:344-366 | the preflight refuses exactly the valid creates of which some ref of the set is a folder or a content, and names the least such ref |
| `Judgement.CasePassCreateIff` | internal/repo/push.go:427-460 | a pass of the case rule refuses exactly the valid creates that pair with a ref of the set, and blames the Mac rule exactly when one of those is a delete that rule kept |
| `Judgement.CasePassNames` | internal/repo/push.go:427-460 | the refs the refusal names are exactly those it pairs with, and the kept deletes among them exactly those the Mac rule kept |
| `Judgement.CasePassDeleteIff` | internal/repo/push.go:461-490 | and exactly the deletes that would lose a held ref whose other spelling fell in the pass, naming the smallest, and the Mac rule exactly when that one fell for it |
| `Judgement.MacPassWriteIff` | internal/repo/macpush.go:176-240 | a pass of the Mac rule refuses exactly the valid writes of which a tracking ref meets something, or which are updates beside another spelling in the set |
| `Judgement.MacPassDeleteIff` | internal/repo/macpush.go:242-314 | and exactly the deletes of a name that fell with it, those that would lose a ref whose other spelling did, and those a tracking ref of which shares its file with a local ref, with the reason of each |
| `Grounds.DecideTells` | internal/repo/push.go:83-519 | every refusal phase 2 ends with tells the truth: each ref it names is on the remote, in the batch or local and stands in the relation named, each write or delete it blames did fall, and for that reason |
| `Grounds.HarmlessIsApproved` | internal/repo/push.go:83-519 | where no names of remote and batch nest or pair, and no tracking ref pairs with a local one or another, phase 2 keeps exactly the verdicts of validation |
| `FastForward.BranchAdvances` | internal/repo/push.go:250-316 | a branch advertised before and after a push that does not force it still reaches its old tip, and any other ref is where it was, whatever failed |
| `FastForward.RefsOnlyAdvance` | internal/repo/push.go:72-822 | between any two moments of any run, a ref that no push in between forced or deleted is still advertised: a branch at a commit that reaches its old one, any other ref unmoved |
| `Planner.SmallestNested` | internal/repo/push.go:344-366 | finds nothing exactly when no ref of the set is a folder or a content of the name, and otherwise the least that is, for any order of the set |
| `Planner.SmallerIsSmallest` | internal/repo/macpush.go:323-342 | the two maps together answer with the smallest refused create that shares either key |
| `Planner.BuildTracking` | internal/repo/macpush.go:134-152 | the two maps hold, for each tracking ref, exactly the valid writes and the valid deletes it belongs to |
| `Planner.LocalClauses` | internal/repo/macpush.go:190-216 | the clause list of a write is the one whose meaning MacSound.LocalHalfLists gives |
| `MacSound.LocalHalfLists` | internal/repo/macpush.go:190-216 | the clauses name the tracking refs in order; a meeting is listed exactly when the tracking ref conflicts with a local ref or with one of another write or, for an update, of another delete, and it carries their shallowest pair and the smallest of those others |
| `MacSound.MeetingNames` | internal/repo/macpush.go:190-216 | the other write and the other delete a meeting names are the smallest whose tracking ref it is, if there is one |
| `Decider.ValidateAll` | internal/repo/push.go:97-316 | the index, the counter and the loop over the entries give each the verdict that Judgement.ApprovedWriteIff, ApprovedDeleteIff and ValidateTells characterise, duplicates across the batch included |
| `Decider.Verdicts.FolderPreflight` | internal/repo/push.go:344-366 | in place, with the verdicts changing under the loop, equals the pass judged on the set at its start, which Judgement.FolderPassIff characterises |
| `Decider.Verdicts.TryCasePass` | internal/repo/push.go:428-490 | one in-place pass: refused creates, then their held rename halves, and the Mac bookkeeping; says whether anything was found |
| `Decider.Verdicts.SettleCases` | internal/repo/push.go:427-491 | the loop ends at the case rule's fixed point after at most valid creates + 1 passes, counted where a pass is made |
| `Decider.Verdicts.MacRefuseWrites` | internal/repo/macpush.go:176-240 | part 1 in place: the writes Judgement.MacPassWriteIff characterises, judged on the state at the pass's start |
| `Decider.Verdicts.MacRefuseExact` | internal/repo/macpush.go:242-253 | part 2, exact names: deletes of the names of refused writes |
| `Decider.Verdicts.MacRefuseDeletes` | internal/repo/macpush.go:283-314 | part 3 in place: exactly the deletes whose tracking refs collide |
| `Decider.Verdicts.TryMacPass` | internal/repo/macpush.go:101-316 | the three parts of one pass, and that it reports a refusal exactly when it made one |
| `Decider.Verdicts.Settle` | internal/repo/push.go:494-519 | the outer loop ends where nothing more is refused, after at most valid entries + 1 rounds, counted where the preflight is made |
| `Decider.DecideBatch` | internal/repo/push.go:83-519 | the imperative phase 2 computes the plan the soundness, pairing and order theorems are about |
| `CaseConflicts.FindConflicts` | internal/repo/casefold.go:128-183 | the two-index search returns, for each candidate, exactly the pairwise answer: each conflicting ref once, shallowest pair first, case before canonical at equal depth, sorted; and no entry when there is none |
| `CaseConflicts.ConflictsInComplete` | internal/repo/casefold.go:103-127 | the pairwise answer lists exactly the refs with a differently spelled prefix of equal key, in increasing order |
| `CaseConflicts.FirstPairIffPairs` | internal/repo/casefold.go:51-71 | comparing prefixes of equal depth finds a pair exactly when any two prefixes conflict |
| `CaseConflicts.FirstBelowIsFirst` | internal/repo/casefold.go:103-127 | the pair reported is the shallowest, letter case before normalisation at one depth |
| `Names.LessIff` | internal/repo/casefold.go:128-183 | the order of names used for every least and sorted answer is that of the first units that differ, a name before those it begins |
| `CaseConflicts.FirstPairSymmetric` | internal/repo/casefold.go:103-127 | two refs name the same pair and relation seen from either side, with the spellings swapped |
| `CaseConflicts.AdvertisedPairs` | internal/repo/readcheck.go:35-55 | lists each unordered conflicting pair of advertised refs exactly once, smaller name first, sorted |
| `Names.ComputeRefPrefixes` | internal/repo/casefold.go:59-71 | the loop returns the ref's prefixes beneath refs/ |
| `Names.RefPrefixesSpec` | internal/repo/casefold.go:51-71 | the prefixes are exactly the paths at or above the ref beneath refs/, each at the index of its depth |
| `Keys.TableKeysSplit` | internal/repo/casefold.go:51-58 | caseKey and canonKey both split at '/': the fact every conflict theorem rests on |
| `Keys.ComputeCaseKey` | internal/repo/casefold.go:35-49 | the loop folds unit by unit, keeping invalid bytes and the length |
| `Keys.CanonKeyIsNormal` | internal/repo/canon.go:155-167 | one decomposition is enough: a canonical key is its own NFD, for every name |
| `Keys.CanonKeyIsCanonicalCaseless` | internal/repo/canon.go:155-167 | canonKey equality is exactly canonical caseless matching (D145, section 3.13 of the Unicode Standard) with simple folding |
| `Canonical.EquivalentShareKey` | internal/repo/canon.go:155-167 | canonically equivalent names share their canonical key |
| `Keys.EquivalentShareCanonKey` | internal/repo/canon.go:155-167 | names whose full decompositions differ by legal swaps share their canonical key |
| `Canonical.KeysFold` | internal/repo/casefold.go:35-49 | both keys fold unit by unit by the table, invalid bytes kept, the canonical one after decomposition |
| `Keys.CheckTwoIsNeeded` | internal/repo/gen_unicode.go:511-526 | any fold that violates check 2 gives a name whose canonical key is not normal |
| `Nfd.NfdDecidesEquivalence` | internal/repo/canon.go:80-153 | nfd(a) == nfd(b) exactly when the full decompositions differ only by swaps of adjacent marks of different class |
| `Canonical.NfdDecides` | internal/repo/canon.go:80-153 | nfd(a) == nfd(b) exactly when a and b are canonically equivalent: one becomes the other by replacing characters by their mappings and syllables by their jamo, either way round, and swapping adjacent marks of different class |
| `Canonical.NfdIsNormal` | internal/repo/canon.go:80-153 | nfd(s) is equivalent to s, holds nothing that has a mapping, and no mark after one of a higher class |
| `Canonical.NfdOfOne` | internal/repo/canon.go:91-153 | a mapped character becomes exactly the characters of its mapping, a syllable its jamo, and anything else stays |
| `Canonical.NfdOfByte` | internal/repo/canon.go:91-153 | an invalid byte stays as it is |
| `Canonical.NfdOfBoth` | internal/repo/canon.go:91-153 | nothing is lost or made up where two texts meet |
| `Nfd.NfdOutput` | internal/repo/canon.go:80-153 | the output is fully decomposed and in canonical order |
| `Nfd.NfdIdempotent` | internal/repo/canon.go:80-153 | nfd(nfd(s)) == nfd(s) |
| `Normalizer.Normalize` | internal/repo/canon.go:91-153 | the streaming loop with its mark buffer computes nfd of the whole string, the normal form that Canonical.NfdDecides and NfdIsNormal characterise |
| `Normalizer.SortMarks` | internal/repo/canon.go:91-153 | the in-place stable sort of the mark buffer is canonical reordering |
| `Normalizer.Buffer.Take` | internal/repo/canon.go:91-153 | each unit read adds its full decomposition, which Canonical.NfdOfOne characterises, to the stream, Hangul arithmetic included |
| `UnicodeTables.Lookup` | internal/repo/canon.go:30-57 | binary search over an ascending table finds the entry of a code point exactly when there is one |
| `UnicodeTables.JamoRoundTrip` | internal/repo/canon.go:91-153 | Hangul decomposition gives two or three jamo in their ranges that compose back to the syllable (section 3.12) |
| `GenUnicode.Expander.Expand` | internal/repo/gen_unicode.go:442-480 | the memoised recursion returns the full expansion, and succeeds whenever mappings do not nest too deeply |
| `GenUnicode.FullDecompositions` | internal/repo/gen_unicode.go:442-480 | every mapped code point gets its full expansion |
| `GenUnicode.ExpansionIff` | internal/repo/gen_unicode.go:442-480 | the full expansion of a code point is what replacing mapped code points by their mappings, in any order, ends in: the one text without mapped ones that it becomes |
| `GenUnicode.ExpansionUnmapped` | internal/repo/gen_unicode.go:442-480 | no mapped code point is left in any full expansion |
| `GenUnicode.BuildFolds` | internal/repo/gen_unicode.go:485-513 | fails exactly when a code point has two lines (check 1); otherwise the table is the lines |
| `GenUnicode.ChecksGiveFacts` | internal/repo/gen_unicode.go:511-589 | past checks 2 to 4 the tables have the facts the nfd and canonKey theorems assume if, and for data the parser accepts only if, the data bring what no check looks at |
| `GenUnicode.FactsPassChecks` | internal/repo/gen_unicode.go:511-589 | the checks are not too strict: tables with those facts pass them all, '/' being in no mapping as written |
| `GenUnicode.ChecksAreNotEnough` | internal/repo/gen_unicode.go:511-589 | data that pass every check and the parser and whose tables lack those facts |
| `GenUnicode.Generate` | internal/repo/gen_unicode.go:135-229 | a run that writes tables writes the only tables the data stand for, in search order, and they have the facts exactly when the data bring the unchecked ones; over readable data it fails only when a check fails |
| `GenUnicode.ReadTables` | internal/repo/canon.go:30-57 | binary search over what was rendered returns exactly the maps' values |
| `Remote.Store.CreateExclusive` | internal/transport/fake.go:318-343 | never replaces a node; committed and refused mean what they say; an ambiguous create may or may not have landed |
| `Remote.Store.UpdateRevision` | internal/transport/fake.go:345-364 | changes at most the one file; committed means new bytes were stored, and refused that a folder or the very same bytes stand there |
| `Remote.Store.Trash` | internal/transport/fake.go:375-390 | removes the node with everything beneath it, or nothing |
| `Remote.Store.EnsureDir` | internal/transport/fake.go:93-107 | adds at most the one folder, and only where its parent is |
| `Refs.ScanRefs` | internal/repo/refs.go:67-122 | the walk advertises exactly the well-named files that hold a ref, records the rest, and adds no folder with an invalid name to what the store has been asked to list |
| `Refs.ScanTells` | internal/repo/refs.go:67-179 | a file under refs/ is advertised exactly when its whole name and each component pass their checks and it holds 40 lowercase hex digits and a newline, which is its object |
| `Refs.SkippedTells` | internal/repo/refs.go:67-179 | each path passed over is so for the reason recorded |
| `Refs.ScanPartition` | internal/repo/refs.go:67-179 | every file under refs/ is exactly one of: advertised with its stored object, recorded as skipped, beneath a skipped folder |
| `Refs.RefContentRoundTrip` | internal/repo/refs.go:212-233 | what WriteRef stores reads back as the same object |
| `Refs.ParseRefInverse` | internal/repo/refs.go:212-233 | only that content reads back as that object |
| `Refs.WriteRef` | internal/repo/refs.go:360-394 | writes the one file with the object's content or nothing; refuses a malformed object; a create never replaces |
| `Refs.EnsureRefParents` | internal/repo/refs.go:417-431 | creates only folders above the ref, and all of them unless a call fails or a file is in the way |
| `Refs.SubtreeFiles` | internal/repo/push.go:972-1001 | an answer is every file beneath the folder and nothing else, and comes only when every folder beneath has a name that can be verified; a folder with an invalid name is not listed |
| `Healing.PruneEmptyParents` | internal/repo/push.go:923-947 | removes only unprotected empty folders above the deleted ref, lists no others, and when its calls work leaves none of them empty |
| `Healing.CreateHealing` | internal/repo/push.go:1076-1206 | trashes only a folder of the ref's own name, not protected and with no file anywhere beneath; reports success only with the ref stored; succeeds when nothing stands in the way |
| `Execution.DeletePhase` | internal/repo/push.go:595-635 | removes only files named by valid deletes of advertised refs; a delete reported done has gone; the branch HEAD points at stays; only folders above those refs are listed; all succeed on a working transport when HEAD allows; and when pruning's calls work too, no folder above a deleted ref is left empty |
| `WritePhase.WriteEntry` | internal/repo/push.go:689-811 | an entry goes past the re-checks exactly when, as a create, it pairs with no live ref, or, as an update under the Mac rule, with none whose delete this batch asked for and did not get; then it writes only its own ref |
| `WritePhase.RecheckTells` | internal/repo/push.go:696-760 | a refused re-check names exactly the standing refs that pair with the entry, and of them those whose delete was asked for and not done |
| `WritePhase.WriteRefs` | internal/repo/push.go:658-813 | over the whole loop and any outcomes: only own refs change; every create tried pairs with nothing that stands or was written, and on a Mac every update tried with no ref whose delete was asked for and not done; every entry none of these is in the way of is tried; and on a working transport every write succeeds that can |
| `Push.OccupancyAvoids` | internal/repo/push.go:237-248 | a destination passes the occupancy check exactly when it is at, above and beneath no skipped path |
| `Push.ClearedIsSmooth` | internal/repo/push.go:237-248 | preflight, occupancy, prune and self-heal cover each other: after phase 4 nothing a later write of the batch creates can be in another write's way |
| `Push.Execute` | internal/repo/push.go:587-813 | phases 4 and 5 for every outcome sequence: nothing foreign, pair freedom, only folders with clean names listed; and on a working transport every valid delete and write ends OK and the files are the planned ones |
| `Push.PushWithLocal` | internal/repo/push.go:72-822 | phases 2 to 5 in one call, to any remote, incomplete refs included, with phase 3's pack failures failing the writes and still running the deletes |
| `Packs.PackFolder.PublishPack` | internal/repo/push.go:1384-1426 | success only when the very same bytes stand under the name; nothing is replaced; at every moment each pack and index stay what their names say |
| `Packs.PackFolder.PublishIdx` | internal/repo/push.go:1475-1510 | success only when an index that verifies against the pack stands under the name, and never an index without its pack |
| `Packs.SendPack` | internal/repo/push.go:521-585 | if every advertised ref was complete, any write still valid afterwards has its whole closure in sound pairs, whatever the uploads did; and after each single upload every index still has its pack, and every pack its name and index, so the pack goes first |
| `Packs.NewTipClosed` | internal/repo/push.go:537-560 | reach(wants) minus reach(haves) plus what the remote held is the closure of each new tip |
| `Packs.SentIsTheDifference` | internal/repo/push.go:537-560 | what is sent of a valid write's closure is exactly what no advertised ref the repository has reaches |
| `PushTheorems.NoNewPairs` | internal/repo/push.go:696-733 | after any run, two advertised refs that conflict were both advertised before it |
| `PushTheorems.ForeignUntouched` | internal/repo/push.go:595-813 | a file the scan did not advertise is there afterwards, unchanged |
| `PushTheorems.OnlyOwnChanges` | internal/repo/push.go:595-813 | a file that is gone was advertised and named by the push's own valid delete; one that changed holds the object of an entry the push tried to write |
| `PushTheorems.OnlyEmptyFoldersGo` | internal/repo/push.go:907-1206 | a folder that is gone was permanent in no case and held no file |
| `PushTheorems.ClosureKept` | internal/repo/push.go:521-585 | if every advertised ref's closure was in sound pack pairs before a push, it is afterwards, under any outcomes |
| `PushTheorems.WrittenRefsScanBack` | internal/repo/refs.go:360-394 | a ref a push reports written is advertised by the next scan with that object |
| `PushTheorems.FinalSetScansBack` | internal/repo/push.go:824-859 | on a working transport the next scan finds exactly the final set, each written ref at its new object and every other at its old one |
| `PushTheorems.MalformedObjectLosesReplacedRef` | internal/repo/push.go:784-811 | where progress fails: in a batch with a delete and a write of one name that both stay valid, an object name that is not 40 hex digits loses the ref |
| `Replacement.MainApproved` | internal/repo/macpush.go:242-253 | phase 2 approves such a batch: a delete of refs/heads/main and a forced write of it at a name of 64 hex digits |
| `Replacement.LoseMain` | internal/repo/refs.go:360-366 | that push, from start to the next scan, on a working transport: the delete is reported done, the write is not, and the ref is gone |
| `History.RunPushes` | internal/repo/push.go:72-822 | any history of pushes by any machines, with any failures, is a run: it passes states each of which the next push found, no push being idle on a transport that works, and keeps what RunKeeps says |
| `History.WorkingPushLands` | internal/repo/push.go:824-859 | over a working transport a push of a run whose writes are ordinary does every valid entry and leaves exactly its final set advertised |
| `History.RunKeeps` | internal/repo/push.go:696-733 | between any two moments of a run no two conflicting spellings are brought together, so a pair once broken never comes back; closures stay in sound pairs and packs stay what they say |
| `History.BegunEmptyStaysSound` | internal/repo/push.go:72-822 | a repository begun empty holds no conflicting pair and no incomplete ref at any moment of any run |
| `History.NewRemoteIsEmpty` | internal/repo/push.go:72-822 | a remote just created advertises nothing, which is where such a run starts from |
| `PushTheorems.PushThenScan` | internal/repo/push.go:72-822 | a push to any remote and the next scan end to end: the verdicts are phase 2's, with every write failed only when the pack did not go; all of the above holds of the run, and if every ref was complete before, every ref is after |
| `Walk.RevList` | internal/gitcmd/gitcmd.go:566-589 | lists what a walk from the wants meets in the store, and what it meets and finds absent, past everything the local refs reach |
| `Walk.NothingMissingIffClosed` | internal/gitcmd/gitcmd.go:498-517 | with what is excluded complete, the frontier is empty exactly when the whole closure of the wants is present |
| `Cover.GreedyCover` | internal/repo/packmap.go:162-256 | succeeds exactly when every missing object has a candidate not downloaded; then covers them all with sorted packs each of use, the only-choice packs of pass 1 being exactly those that are some object's one candidate left; never reaches its internal error; an error names every object at fault |
| `Cover.CoverGreedily` | internal/repo/packmap.go:223-250 | each pick covers at least one k-th of what is left, for any cover of it by k packs not downloaded, when no index lists an object twice |
| `Cover.ForcedSingles` | internal/repo/packmap.go:210-222 | pass 1 picks a pack exactly when some missing object has no other choice |
| `Cover.ForcedInEveryCover` | internal/repo/packmap.go:210-222 | the packs of pass 1 are in every cover |
| `Cover.CoverBound` | internal/repo/packmap.go:223-250 | k packs that cover n objects leave one of them at least n/k |
| `Cover.CountCandidates` | internal/repo/packmap.go:225-232 | counts each eligible pack by the uncovered objects it holds |
| `Cover.PickBest` | internal/repo/packmap.go:233-238 | the most covering pack, ties to the smallest name, in any map order |
| `PackMapping.Mapping.Rebuild` | internal/repo/packmap.go:138-154 | the map says exactly what its index files say, and is refused when one cannot be read |
| `PackMapping.Mapping.Build` | internal/repo/packmap.go:87-111 | from any cache: a cached file that is no index is downloaded again, a lying one passes, and downloads are tried of exactly the index files the cache has no readable copy of |
| `PackMapping.Mapping.Refresh` | internal/repo/packmap.go:116-133 | from a truthful remote the rebuilt map says exactly what the packs hold |
| `PackMapping.Mapping.EnsureSidecar` | internal/repo/idxcache.go:69-82 | fails only when a download does; touches only its own index |
| `PackMapping.Mapping.RefreshSidecar` | internal/repo/idxcache.go:97-118 | the copy it leaves is from this run, whatever the cache does and though a download onto a file already there may leave it as it is |
| `Fetch.TrueMapCoverable` | internal/repo/fetch.go:100-176 | under a true map every missing object has a pack not downloaded yet |
| `Fetch.Fetcher.VerifyPair` | internal/repo/fetch.go:238-268 | a pair passes with the cached index or with one fresh download of it; a truthful pair always passes, and a true map stays true |
| `Fetch.Fetcher.Receive` | internal/repo/fetch.go:212-235 | the quarantined copy is the one just downloaded, an earlier one cleared, and its content has the checksum in its name |
| `Fetch.Fetcher.DownloadAndVerify` | internal/repo/fetch.go:212-276 | only a pack that matches its name and its index reaches the folder git reads, whatever was downloaded |
| `Fetch.Fetcher.PublishPair` | internal/repo/fetch.go:278-306 | pack before index, so that nothing unverified is ever visible, cut short or not |
| `Fetch.Fetcher.RunPlan` | internal/repo/fetch.go:149-175 | a round that is not cut short by trouble downloads at least one new pack, none outside its plan, and the whole plan unless the map was rebuilt under it |
| `Fetch.Fetcher.OneRound` | internal/repo/fetch.go:137-175 | a round downloads only packs the map names for an object still missing, and under a true map at least one |
| `Fetch.Fetcher.Discover` | internal/repo/fetch.go:100-176 | ends (a heal is spent or a pack is new each round), refreshes the map at most once by the map's own count, succeeds only when a walk past the local refs meets nothing absent, which is the whole closure when theirs is there, and from a truthful remote that holds the closure always succeeds |
| `Fetch.Fetcher.Fetch` | internal/repo/fetch.go:27-192 | a bad cache never fails a fetch; one with nothing missing downloads nothing; a failed fetch leaves the local store as it was; when the local refs are complete, a successful one installs exactly the new objects and completes the closure |
| `Fetch.PushedIsObtainable` | internal/repo/push.go:521-585 | a ref whose closure is in sound pairs, which pushes keep, can be put together from the packs |
| `Restore.TruePacksServe` | internal/repo/push.go:1384-1510 | packs that are what their names say, which pushes keep too, serve a fetch truthfully |
| `Restore.PushesThenFetch` | internal/repo/fetch.go:27-192 | end to end: after any history of pushes with any failures, a fetch on a working transport of every tip the next scan shows succeeds, whatever the cache holds, and leaves the whole of it local |
| `Lock.StepKeeps` | internal/repo/lock.go:41-145 | every step of every session keeps the protocol invariant, for any answers and any late effects |
| `Lock.MutualExclusion` | internal/repo/lock.go:41-103 | in every reachable state at most one live session holds the lock, and the file is its own |
| `Lock.RemovesOnlyOwn` | internal/repo/lock.go:109-145 | the lock file is only removed by the release of the session whose nonce it holds, even when that trash lands late |
| `Lock.WritesAreGuarded` | cmd/git-remote-proton/main.go:815-853 | a pack or a ref is written only by the one holder, after a whole batch that parses, and with no option heard that the helper cannot honour |
| `Lock.WritesFollowABatch` | cmd/git-remote-proton/main.go:815-875 | said of the lines: since the first push line only push lines that parse and options that can be honoured, then a blank line |
| `Lock.BatchIsWritten` | cmd/git-remote-proton/main.go:815-875 | any such batch is carried out, and one after an option that cannot be honoured is not |
| `Lock.GoesOnlyReleasing` | cmd/git-remote-proton/main.go:595-616 | in any run a session that holds the lock goes only by dying, or after trying to release it |
| `Lock.EndingLeaves` | cmd/git-remote-proton/main.go:595-616 | every line and failure that ends a session, in the command loop, in a batch or after a push, sends a holder to release its lock |
| `Lock.LeavingReleases` | internal/repo/lock.go:109-145 | there it only looks at the file, which is its own, and calls for its removal |
| `Lock.PushesAreSerial` | cmd/git-remote-proton/main.go:595-616 | the calls that write, made under two locks, never interleave, in any run |
| `Lock.PromptRunsLandSerially` | cmd/git-remote-proton/main.go:595-616 | nor do their effects, in any run where each write lands while its lock still stands |
| `Lock.LateWriteInterleaves` | internal/repo/lock.go:109-145 | a run in which a write whose answer was lost lands after its session gave the lock back, between two writes of the next push |
| `Lock.SecondListEnds` | cmd/git-remote-proton/main.go:756-761 | a session that lists for a push again is refused by its own lock and leaves, releasing it |
| `Lock.Acquire` | internal/repo/lock.go:41-103 | with no lock standing an undisturbed session acquires it |
| `Lock.LockGoesRound` | internal/repo/lock.go:41-145 | one session takes the lock, pushes and, told to stop, gives it back, and another then takes it |
| `Symrefs.ExpandSymrefs` | internal/repo/readcheck.go:280-306 | the result has exactly the refs reachable through symbolic refs, cycles included; destinations keep their source; each added target has the smallest source of those that reach it in the first round that does |
| `Symrefs.ExpandedIsUnique` | internal/repo/readcheck.go:270-306 | those three facts leave one possible answer |

## Left out

- CLI transport, certification, versions, command line: process spawning and parsing of a tool that is not part of this model. `Remote.Store` keeps the outcome contract.
- git itself: subprocess failures other than those named, output parsing, and timeouts.
- ensureHEAD, DeriveHEAD, EnsureParents and Bootstrap: HEAD is a field of the store that phase 4 reads.
- Message texts: a refusal carries what its message names (refs, spellings, relation, reason), not the wording. Notes on stderr are gone.
- UTF-8: decoding is not modelled; a name is already units. Invalid bytes sort after every code point here, which can differ from byte order for names that have them.
- unicode_tables.go: the tables are abstract, and the parsers of the three Unicode files are not modelled.
- CheckRefName, checkComponent and git's name check are parameters (`Batch.Rules`); only how they combine along a path is modelled.
- classifyRefContent's diagnosis: a ref file parses or does not.
- The five parallel slices of phase 2 are one array of entries, and `seen` with its list in caseConflicts is one map.
- Planner.CountMeetings and Planner.LocalClauses: build their lists from the back, where the source appends; the lists are the same.
- Remote.Store.CreateExclusive: creating under a folder that is missing is an error here, which is stricter than the in-memory store.
- Remote.Store.UpdateRevision: so is writing a new file there.
- PackMapping.Mapping.Build: no other process changes the cache during a fetch. If one evicted a cached index between planning and rebuilding, the rebuild would fail for good.
- PackMapping.Mapping.Rebuild: candidate lists get their order from the sorted listing, not from a sort at the end.
- PackMapping.Mapping.ListPacks: pack names are all well formed; the name grammar is not modelled.
- Fetch.Fetcher.Fetch: in a shallow or damaged local repository, where a local ref lacks objects, nothing is said of what a success completes. The remote does not change during the fetch, temporary folders are values, and consolidation is the set of objects installed, without its .keep file.
- Lock: `AcquireLock` and `Release` are steps, not methods, because what is proved is about their interleavings. Removal of the lock by a human is outside, as the code says it is.
- Lock.WritesAreGuarded: which packs and refs are written is the push model's matter; here a write is an event.
- FetchDestinations, DestinationConflicts, MergeConflicts, LocalConflicts, refspec parsing and mapping: they reuse the pair search and would add easier members.
- History.RunPushes: pushes follow one another, and a call takes effect before the next one or never. A write that lands in the middle of a later push is in `Lock` only.
- Concurrent writers other than sessions that take the lock.
