# sync-rpg-tokens, modelled in Dafny

The synchroniser reads the token archives of the Forgotten Adventures packs
and mirrors the tokens into an S3 bucket. This project models the parts of it
that decide things. The I/O around those decisions is not modelled.

- **File names.** `determineOutputFilename` maps a path inside an archive to
  its path in the bucket. It skips links, documents and map-making assets. It
  applies a fixed chain of string rewrites, then accepts the result only if a
  whitelist of known folders admits it, and throws otherwise. The older
  `index.js` has a verbatim copy, `fixFilename`.
- **Keys.** A key is `forgottenadventures/` plus the name, with a trailing
  `.png` renamed `.avif`. A later copy of a key already taken becomes `_Alt`.
  A doubled `_Alt_Alt` aborts the run.
- **Storage class.** The class is chosen from the size. The action on the
  object already under the key is one of: upload, delete and re-upload, copy
  to a new class, or nothing.
- **Clean-up and uploads.** Known objects that no token claimed are deleted.
  An upload's content type comes from the key's extension.
- **Queues.**
  - `lease-queue.ts` is the counting gate.
  - `task-queue.ts` uses it to bound the number of running workers.
  - The older `Queue`/`Lease` pair in `index.js` admits waiters
    synchronously.

Modules:

- `Optional` and `Text`: options, prefixes, suffixes, occurrences, global
  replacement.
- `Patterns`: the regular expressions of the rename chain, and JavaScript's
  first-match `String.prototype.replace`.
- `FilenameHandling` and `FilenameFacts`: the name pipeline and what it
  guarantees.
- `SyncRules` (`index.ts`) and `LegacySync` (`index.js`): keys, tiering, the
  decision, orphans and content types.
- `LeaseQueue`, `TaskQueue` and `SlotQueue`: the three queues.
- `Sequences`: the subsequence relation used by the queue scans.

The lease queue is modelled in two phases, because its callers `await`:

1. A scan only resolves the promises of the waiters whose condition holds.
2. Each resolved call later resumes and only then raises the count.

Even a call whose condition already holds resumes later. The model keeps these
resolved-but-not-resumed calls, and any of them may run next. This is more
orderings than the JavaScript microtask queue allows. Under this model the
queue can hand out more leases than its maximum, and `TwoImmediateLeasesOvershoot`
and `ReleaseOvershoots` exhibit that. The older synchronous queue keeps its
bound, which `LeaseDonePreservesValid` shows.

## Model

| member | source | states |
|---|---|---|
| FilenameHandling.DetermineOutputFilename | filename-handling.ts:1-74 | skips exactly links, documents and `Mapmaking/` assets; otherwise the result is the rewritten name, accepted exactly when the whitelist admits it and reported as the error otherwise |
| FilenameHandling.Skipped | filename-handling.ts:2-7 | a `.png` path outside `Mapmaking/` is never skipped |
| FilenameHandling.DropFaPrefix | filename-handling.ts:9 | a name opening with `FA_Tokens/` loses exactly its leading `FA_`; any other name is kept |
| FilenameHandling.NormaliseFractions | filename-handling.ts:28-30 | the three fraction rewrites keep the length of the name, and change nothing in a name without the fraction slash |
| FilenameHandling.RootCreatures | filename-handling.ts:41-44 | a name opening with `Creatures` is moved under `Tokens/`, from where it can be read back unchanged; any other name is kept |
| FilenameHandling.Rewrite | filename-handling.ts:9-47 | a name with none of the characters any rewrite starts from, and not opening with `Creatures`, comes through the whole chain unchanged |
| FilenameHandling.Whitelisted | filename-handling.ts:49-69 | every name under one of the plain-prefix entries (`Tokens/Adversaries/`, `Tokens/Creatures/CR_unknown/`, `Tokens/Spirits/Catch-All_Heroes_Spirits/`) is admitted, whatever follows |
| FilenameFacts.WhitelistRooted | filename-handling.ts:49-59 | every one of the nine whitelist entries is rooted under `Tokens/` |
| FilenameFacts.EntryUnderTokens | filename-handling.ts:49-68 | a rooted entry, plain prefix or anchored pattern, admits only names under `Tokens/` |
| FilenameFacts.WhitelistUnderTokens | filename-handling.ts:61-70 | any name the whitelist admits lies under `Tokens/` |
| FilenameFacts.AcceptedNamesUnderTokens | filename-handling.ts:49-73 | every accepted name is placed under `Tokens/`; a name not skipped whose rewrite is not admitted is an error |
| FilenameFacts.FaPrefixOnlyAtStart | filename-handling.ts:9 | the anchored `FA_Tokens/` rewrite acts like a first-occurrence replacement when the name starts with it, and does nothing otherwise |
| FilenameFacts.FaPrefixIgnoredLater | filename-handling.ts:9 | a `FA_Tokens/` after the start is kept, where an unanchored replacement would have rewritten it |
| FilenameFacts.FractionsNormalised | filename-handling.ts:28-30 | after the three global rewrites no `1⁄8`, `1⁄4` or `1⁄2` written with the fraction slash remains |
| FilenameHandling.RenameFolders | filename-handling.ts:9-26 | the six folder rewrites, in source order; a name with none of the characters they need (`S`, space, `-`, `F`, the fraction slash) comes through them unchanged |
| FilenameHandling.FixNames | filename-handling.ts:28-36 | the fraction, rating and heroes rewrites; such a name also comes through them unchanged |
| FilenameHandling.Tidy | filename-handling.ts:9-36 | and so through every rewrite before the Townsfolk one |
| FilenameFacts.AcceptedWhen | filename-handling.ts:61-70 | a name not skipped whose rewrite is whitelisted is returned as that rewrite |
| FilenameFacts.PngNotSkipped | filename-handling.ts:2-7 | a `.png` path not starting with `M` is never skipped |
| FilenameFacts.TownsfolkNumberDropped | filename-handling.ts:39 | `Townsfolk_<n>` becomes `Townsfolk` for any run of digits `n`, and the rest of the path is kept |
| FilenameFacts.TownsfolkFirstMatch | filename-handling.ts:39 | the leftmost match of `/Townsfolk_(\d+)/` in `Tokens/NPCs/Townsfolk_<n>/…` is at offset 12 and covers the whole number `n` |
| FilenameFacts.TownsfolkTidyIdle | filename-handling.ts:9-36 | the rewrites before the Townsfolk one leave `Tokens/NPCs/Townsfolk_<n>/<tail>` alone |
| FilenameFacts.TownsfolkLaterRulesIdle | filename-handling.ts:41-47 | the root-creatures and unknown-rating rewrites leave the merged Townsfolk path alone |
| FilenameFacts.TownsfolkRewrite | filename-handling.ts:9-47 | the whole chain maps `Tokens/NPCs/Townsfolk_<n>/<tail>` to `Tokens/NPCs/Townsfolk/<tail>` for every folder number `n` |
| FilenameFacts.TownsfolkWhitelisted | filename-handling.ts:57 | the merged Townsfolk folder is admitted by the NPC entry |
| FilenameFacts.TownsfolkFolderMerged | filename-handling.ts:38-39 | for every folder number `n` and every `.png` tail lacking the characters the other rewrites start from, `Tokens/NPCs/Townsfolk_<n>/<tail>` is accepted as `Tokens/NPCs/Townsfolk/<tail>` |
| FilenameFacts.TownsfolkExample | filename-handling.ts:38 | the commented example `Tokens/NPCs/Townsfolk_02/Townsfolk_AA1_01.png` is accepted as `Tokens/NPCs/Townsfolk/Townsfolk_AA1_01.png` |
| FilenameFacts.RootCreaturesTidyIdle | filename-handling.ts:9-39 | the rewrites before the root-creatures one leave `Creatures/CR_<r>/<tail>` alone, for a one- or two-digit rating `r` |
| FilenameFacts.RootCreaturesUnknownIdle | filename-handling.ts:47 | the unknown-rating rewrite does not fire on the moved creature path |
| FilenameFacts.RootCreaturesRewrite | filename-handling.ts:41-47 | the whole chain puts `Tokens/` in front of a root `Creatures/CR_<r>/` path |
| FilenameFacts.RatingFolder | filename-handling.ts:51 | a one- or two-digit folder such as `1/` or `10/` is a challenge-rating folder for the pattern `CR_\d∕?\d?\/` |
| FilenameFacts.RatingAdmitted | filename-handling.ts:51 | the creature rating pattern admits `Tokens/Creatures/CR_<r>/<tail>` |
| FilenameFacts.RatingWhitelisted | filename-handling.ts:49-59 | the whitelist admits every path in a one- or two-digit creature rating folder |
| FilenameFacts.RootCreaturesMoved | filename-handling.ts:41-44 | for every one- or two-digit rating `r` and every `.png` tail lacking the characters the other rewrites start from, `Creatures/CR_<r>/<tail>` is accepted as `Tokens/Creatures/CR_<r>/<tail>` |
| FilenameFacts.VultureNameClean | filename-handling.ts:41 | the name in the commented example triggers none of the other rewrites |
| FilenameFacts.RootCreaturesExample | filename-handling.ts:41-44 | the commented example `Creatures/CR_1/Giant_Bearded_Vulture_Large_Beast_01.png` is accepted under `Tokens/` |
| Patterns.Search | filename-handling.ts:10-39 | finds the leftmost position where a rename pattern matches, with no match before it, or reports that none matches |
| Patterns.MatchAt | filename-handling.ts:10-39 | a match of a rename pattern starts with the pattern's fixed opening text and ends within the name |
| Patterns.ReplaceFirst | filename-handling.ts:9-47 | `replace` with a pattern that matches nowhere leaves the name unchanged |
| Patterns.InsertBeforeFirst | index.ts:126 | replacing a fixed string `p` by `ins` followed by `p` inserts `ins` right before the first occurrence of `p`, and changes nothing when `p` does not occur |
| Patterns.FirstAlternative | filename-handling.ts:18-21 | picks the first spirit group, in the order written, that is followed by `/` at the position, or none |
| Patterns.ReplaceFirstAtLeftmost | filename-handling.ts:9-47 | a non-global `replace` rewrites only the leftmost match and keeps the text before and after it |
| Patterns.LiteralFirstOccurrence | filename-handling.ts:14-17 | replacing a string pattern rewrites its first occurrence only |
| Patterns.LiteralAbsent | filename-handling.ts:32-36 | replacing a string pattern that does not occur leaves the name unchanged |
| Patterns.UnchangedWithout | filename-handling.ts:10-47 | a rule whose anchor needs a character the name lacks leaves the name unchanged |
| Text.ReplaceAllLeavesNoOccurrence | filename-handling.ts:28-30 | a global replacement by text that does not recreate the pattern leaves no occurrence of it |
| Text.ReplaceAll | filename-handling.ts:28-30 | a global replacement by text as long as the pattern keeps the length of the name |
| SyncRules.KnownObjects | index.ts:69-75 | the known objects are exactly the listed keys with a positive size, each mapped to a listed object of that key |
| SyncRules.StorageClassFor | index.ts:168-174 | standard below 90 KiB, one-zone infrequent access from 90 KiB up to 128 KiB, intelligent tiering from 128 KiB |
| SyncRules.StorageClassMonotone | index.ts:168-174 | a larger object never gets a lower tier |
| SyncRules.AvifName | index.ts:116 | only a trailing `.png` is renamed, to `.avif`, and the stem is kept |
| SyncRules.AvifNameInjective | index.ts:116 | two different `.png` names never get the same encoded name |
| SyncRules.AvifNameCollision | index.ts:116-123 | `x.avif` and `x.png` get the same encoded name, so they collide on one key |
| SyncRules.ProposedKey | index.ts:116-118 | every key lies under `forgottenadventures/`; a `.png` name gets a key one character longer ending in `.avif`, and any other name follows the folder unchanged |
| SyncRules.AltKey | index.ts:126 | a key without `.avif` is kept; otherwise the `_Alt` form is exactly four characters longer |
| SyncRules.AltKeyInsertsAlt | index.ts:126 | the `_Alt` form inserts `_Alt` right before the first `.avif` of the key and changes nothing else |
| SyncRules.KeyFor | index.ts:118-132 | a free proposed key is used as is; a taken one becomes its `_Alt` form, which aborts exactly when it contains `_Alt_Alt` |
| SyncRules.ProposedKeyOfPng | index.ts:116-118 | the proposed key of `stem.png` is `forgottenadventures/stem.avif` |
| SyncRules.AltKeyBeforeExtension | index.ts:126 | with no dot before the extension, `_Alt` goes right before `.avif` |
| SyncRules.AltKeyOfPlainName | index.ts:118-126 | the `_Alt` key of a dot-free stem is `forgottenadventures/stem_Alt.avif` |
| SyncRules.AltNamedCopyAborts | index.ts:123-131 | a second copy of a token whose own name ends in `_Alt` aborts the run |
| SyncRules.AltOfAltName | index.ts:126 | the `_Alt` key of a name already ending in `_Alt` contains `_Alt_Alt` |
| SyncRules.ThirdCopyReusesAltKey | index.ts:123-136 | a third copy of a token gets the second copy's `_Alt` key again, without aborting |
| SyncRules.Step | index.ts:111-136 | one archive entry is skipped, refused with its name, aborted on a doubled `_Alt`, or given a key recorded with its pack; an aborted run stays aborted |
| SyncRules.PlanAll | index.ts:111-136 | the keys recorded are exactly the keys handed out |
| SyncRules.Orphans | index.ts:266-276 | the deleted keys are exactly the known keys that were not handed out |
| SyncRules.DeletedExactlyUnclaimed | index.ts:69-75 | a key is deleted iff it was listed with a positive size and no token was given it |
| SyncRules.Decide | index.ts:176-211 | upload when absent; delete and re-upload on a size mismatch; otherwise change class exactly when the class differs; the class always comes from the cached size |
| SyncRules.Effect | index.ts:184-242 | an upload stores the actual size in the chosen class, a copy changes only the class, and doing nothing keeps the object |
| SyncRules.SecondRunIdle | index.ts:176-211 | with a correct cached size, a second run does nothing to the object |
| SyncRules.StaleClassFixedNextRun | index.ts:177-191 | after a mismatch the upload keeps the class of the stale size, the next run fixes the class, and the run after does nothing |
| SyncRules.StaleClassExample | index.ts:168-191 | a 100 KiB object whose cached size is a stale 50 KiB is re-uploaded as standard; the next run, with the size recomputed, copies it to one-zone infrequent access, and the run after does nothing |
| SyncRules.TrimSlashes | index.ts:218 | the key with its trailing slashes removed is a prefix of it and does not end in a slash |
| SyncRules.Basename | index.ts:218 | the last segment has no slash, ends the path, and is preceded by a slash when shorter than the path |
| SyncRules.LastIndexOf | index.ts:218 | the last position of a character, or none exactly when it is absent |
| SyncRules.Extname | index.ts:218 | the extension is empty or a single dot followed by no dot and no slash |
| SyncRules.LastDotOpensSuffix | index.ts:218 | the last dot of `a` followed by a dot-led suffix with no other dot is the one opening the suffix |
| SyncRules.ExtnameOfSegment | index.ts:218 | a final segment `stem.ext` with a non-empty stem has extension `.ext` |
| SyncRules.ExtnameAtDot | index.ts:218 | the extension is read at the last dot of the last segment when that dot does not open it |
| SyncRules.ContentType | index.ts:218-229 | `image/png` exactly for `.png`, `image/avif` exactly for `.avif`, and the thrown error for any other extension |
| SyncRules.ProposedKeysAreAvif | index.ts:116-229 | every proposed key of a `.png` token with a non-empty stem is uploaded as `image/avif` |
| SyncRules.BarePngHasNoContentType | index.ts:116-229 | a token called just `.png` gets a key with no extension, and its upload has no content type |
| SyncRules.BareSegmentHasNoExtension | index.ts:218 | a segment that is only a dot and a name has no extension |
| LegacySync.FixFilename | index.js:319-392 | the older copy skips, accepts and refuses exactly as `determineOutputFilename` does |
| LegacySync.LegacyStorageClassFor | index.js:124-131 | one-zone infrequent access exactly from 96 KiB up to 128 KiB, intelligent tiering everywhere else |
| LegacySync.LegacyKey | index.js:97 | the older key lies under `forgottenadventures/` and the output name can be read back from it unchanged |
| LegacySync.LegacyAltKey | index.js:105 | a key without `.png` is kept; otherwise the older `_Alt` form is exactly four characters longer |
| LegacySync.LegacyAltKeyInsertsAlt | index.js:105 | the older `_Alt` form inserts `_Alt` right before the first `.png` of the key and changes nothing else |
| LegacySync.LegacyAgreesFrom96KiB | index.js:124-131 | the older tiering agrees with the current one exactly from 96 KiB up |
| LegacySync.LegacyNotMonotone | index.js:124-131 | the older tiering gives a 95 KiB object a higher tier than a 96 KiB one |
| LegacySync.LegacyKeyFor | index.js:97-111 | a free key is used as is; a taken one becomes its `_Alt.png` form, which aborts exactly when it contains `_Alt_Alt` |
| LegacySync.LegacyAltKeyBeforeExtension | index.js:105 | with no dot before the extension, `_Alt` goes right before `.png` |
| LegacySync.LegacyAltKeyOfPlainName | index.js:97-105 | the older `_Alt` key of a dot-free stem is `forgottenadventures/stem_Alt.png` |
| LegacySync.LegacyAltNamedCopyAborts | index.js:102-110 | a second copy of a token whose name ends in `_Alt` aborts the older run too |
| LegacySync.LegacyAltOfAltName | index.js:105 | the older `_Alt` key of a name ending in `_Alt` contains `_Alt_Alt` |
| LegacySync.AvifNameNotPng | index.ts:116 | an encoded name never ends in `.png` |
| LegacySync.LegacyKeyNeverProposed | index.js:97 | no key the current synchroniser proposes equals a key the older one gave a `.png` token |
| LegacySync.LegacyDecide | index.js:133-167 | the older decision has the same shape as the current one, using the real size and the older classes |
| LegacySync.LegacySecondRunIdle | index.js:133-167 | a second older run does nothing |
| LegacySync.LegacyContentType | index.js:172-179 | `image/png` exactly for a `.png` extension, and the thrown error otherwise |
| LegacySync.PngSegmentType | index.js:172-177 | a final segment `stem.png` with a non-empty stem is uploaded as `image/png` |
| LegacySync.LegacyKeyIsPng | index.js:97-177 | every plain older key of a `.png` token with a non-empty stem is uploaded as `image/png` |
| LegacySync.LegacyAltKeyIsPng | index.js:102-177 | so is every older `_Alt` key of a dot-free stem |
| LeaseQueue.Init | lease-queue.ts:6-8 | a fresh queue has no lease out, the given maximum, and nobody waiting |
| LeaseQueue.InitDefault | lease-queue.ts:6-8 | a queue built without a limit allows ten leases and starts empty and settled |
| LeaseQueue.Partition | lease-queue.ts:35-44 | the scan splits the waiters, in order and without loss, into those whose condition fails and those it resolves |
| LeaseQueue.Inform | lease-queue.ts:31-45 | afterwards no registered waiter's condition holds; every waiter whose condition held is resolved; nobody is lost; the count is unchanged |
| LeaseQueue.WaitFor | lease-queue.ts:47-55 | a caller whose condition holds is not registered and resumes on its own; otherwise it is registered; the count is unchanged |
| LeaseQueue.TakeLease | lease-queue.ts:10-11 | a lease caller is registered exactly when the queue is full, and otherwise resumes without registering |
| LeaseQueue.WaitForEmpty | lease-queue.ts:22-24 | an empty caller is registered exactly when a lease is out |
| LeaseQueue.Release | lease-queue.ts:26-29 | one lease fewer; the resolved calls keep their order and are followed only by waiters whose condition holds with one lease fewer, among them every registered waiter whose condition holds; those that stay registered keep their order, and nobody is lost |
| LeaseQueue.Without | lease-queue.ts:42-44 | removing one resolved waiter removes exactly that waiter |
| LeaseQueue.Resume | lease-queue.ts:11-14 | a resumed lease call adds one lease and scans: it leaves the queue of resolved calls less the resumed one in its order, followed only by waiters whose condition holds with one more lease; those that stay registered keep their order; a resumed empty call only leaves that queue |
| LeaseQueue.SettledPreserved | lease-queue.ts:10-55 | every operation leaves no registered waiter whose condition holds |
| LeaseQueue.ResumeTwoLeases | lease-queue.ts:11-14 | two resolved lease calls that resume add two leases, whatever the count was when they were resolved |
| LeaseQueue.TwoImmediateLeasesOvershoot | lease-queue.ts:10-14 | two callers of a one-lease queue are both admitted and end with two leases out |
| LeaseQueue.ReleaseResolvesBoth | lease-queue.ts:26-45 | on a full queue one release resolves two registered lease callers at once |
| LeaseQueue.ReleaseOvershoots | lease-queue.ts:10-45 | after those two resume, the queue holds one lease more than its maximum |
| LeaseQueue.ReleaseResolvesAllLeaseWaiters | lease-queue.ts:26-45 | one release lets through every registered lease caller at once, since none has yet taken its lease |
| LeaseQueue.ReleaseTwice | lease-queue.ts:26-29 | nothing stops a lease being released twice; each release takes one lease back |
| TaskQueue.LeaseCountSplit | task-queue.ts:22-28 | removing one waiter from the middle lowers the count of waiting lease callers by that waiter's share |
| TaskQueue.RemoveShared | task-queue.ts:22-28 | two arrangements of the same waiters stay arrangements of each other after one shared waiter is removed |
| TaskQueue.UnadmittedAdd | task-queue.ts:22-24 | suspending one more caller adds one unadmitted caller exactly when it is a lease caller |
| TaskQueue.UnadmittedSame | task-queue.ts:22-28 | rearranging the suspended callers keeps the number of lease callers not yet admitted |
| TaskQueue.Init | task-queue.ts:11-13 | a fresh task queue counts nothing waiting and is accounted |
| TaskQueue.Queue | task-queue.ts:22-24 | `waiting` goes up by one and one more lease caller is suspended, keeping `waiting` equal to the calls not yet past their lease |
| TaskQueue.Admit | task-queue.ts:24 | a lease caller takes its lease and still counts as waiting |
| TaskQueue.Start | task-queue.ts:25-27 | the caller stops counting as waiting and its worker starts, keeping the accounting |
| TaskQueue.Finish | task-queue.ts:27 | a settled worker gives back its lease, keeping the accounting |
| TaskQueue.WaitForEmpty | task-queue.ts:30-32 | a drain caller is suspended on the lease queue, keeping the accounting |
| TaskQueue.Observe | task-queue.ts:32 | a resumed drain caller moves on to test `waiting`, keeping the accounting |
| TaskQueue.Check | task-queue.ts:33 | a drain caller returns exactly when `waiting` is zero, and otherwise waits again |
| SlotQueue.Init | index.js:255-260 | a fresh older queue is idle and valid |
| SlotQueue.Scan | index.js:268-274 | each waiter's condition is evaluated on the count left by the ones admitted before it; waiters are kept or admitted, in order and without loss; the bound is kept and nobody kept could go |
| SlotQueue.ScanSlotCount | index.js:268-274 | the scan admits as many slot waiters as there are free slots, or all of them if fewer wait |
| SlotQueue.ScanTakesFirstSlots | index.js:268-274 | the slot waiters admitted are the earliest ones in registration order, and those kept are the later ones, in order |
| SlotQueue.FirstSlotWaiterServed | index.js:268-274 | with one slot free and two slot waiters, the one registered first is admitted and the other kept |
| SlotQueue.ScanAdmitsZeroDrains | index.js:268-274 | an empty-queue waiter is admitted exactly when no lease was out when the scan started and no slot waiter comes before it in the scan |
| SlotQueue.LeaseDone | index.js:262-279 | one slot fewer, then a scan; the admitted leave the set and nobody who stays could go |
| SlotQueue.WaitForLease | index.js:302-311 | a lease whose condition holds has its action run at once; otherwise it is registered and nothing else changes |
| SlotQueue.ReserveSlot | index.js:281-288 | a slot is taken at once exactly when one is free, and otherwise the caller is registered |
| SlotQueue.WaitForEmpty | index.js:290-297 | returns at once on an idle queue, otherwise registers |
| SlotQueue.ReserveSlotPreservesValid | index.js:281-288 | `reserveSlot` keeps the capacity bound and leaves nobody waiting who could go |
| SlotQueue.WaitForEmptyPreservesValid | index.js:290-297 | so does `waitForEmpty` |
| SlotQueue.LeaseDonePreservesValid | index.js:262-279 | returning an outstanding lease keeps the capacity bound and leaves nobody waiting who could go |
| SlotQueue.SlotCounted | index.js:268-274 | an admitted slot waiter is counted among the slots taken |
| SlotQueue.FreedSlotRefilled | index.js:262-279 | a full queue with slot waiters stays full after a lease is returned, because the freed slot is taken again within the same call |
| TaskQueue.ReturnMeansAllAdmitted | task-queue.ts:30-34 | when `waitForEmpty` returns, no queued call is still waiting for or holding a lease without having started its worker |
| TaskQueue.BusyReturn | task-queue.ts:22-34 | a reachable run on a one-lease queue in which `waitForEmpty` returns while a lease is out and a worker runs |
| TaskQueue.CheckIdle | task-queue.ts:30-34 | the corrected loop test returns exactly when nothing waits and no lease is out, and otherwise waits again, keeping the accounting |
| TaskQueue.IdleReturnMeansAllDone | task-queue.ts:30-34 | when the corrected `waitForEmpty` returns, no lease is out, no worker runs and nobody waits for a lease |
| TaskQueue.IdleCheckWaitsOnBusyReturn | task-queue.ts:30-34 | the corrected test does not return in that run |
| TaskQueue.LeaseCountPermutation | task-queue.ts:22-28 | the number of waiting lease callers does not depend on their order |

## Left out

- TownsfolkFolderMerged: proved for tails with none of the characters the other rewrites start from (`S`, space, `-`, `F`, the fraction slash, `U`), ending in `.png`. A tail with those characters may be rewritten by other rules, and one not ending in `.png` may be skipped; such tails are not covered.
- RootCreaturesMoved: proved for one- and two-digit rating folders and the same kind of tail, also without `w`. Fractional rating folders such as `1∕2` are not covered.
- ReturnMeansAllAdmitted: a return from `waitForEmpty` as written does not mean every worker has finished; only that no queued call still waits for its lease or its start (see Findings).
- I/O: the S3 listing requests and their paging, and the delete, copy and put calls. The listing is a parameter, taken as all pages concatenated in order.
- Zip archive reading and its filters: archive files whose names start with `.` or that are not regular files, and archive entries that are not files. `avif.ts`'s encoding is left out too. The encoded size is a parameter.
- `config.ts` and the `PersistentMap` behind `persistentmap.d.ts` are not part of this model. The cached size is a parameter. `if (!size)` treats a cached 0 as a miss, and that is not modelled. `regenerateCacheFile` is left out too.
- The extra name and weight arguments that `index.ts` passes to `taskQueue.queue` and `uploadQueue.queue`. The queue ignores them, so they are not modelled.
- The exact JavaScript microtask order. The lease queue lets any resolved call resume next. This allows more interleavings than JavaScript does, so properties proved for every order hold for the real one. The overshoot lemmas exhibit one order, and whether the runtime takes it is not modelled.
- The worker bodies, `console.log` output and timing.
- `Lease.dispose` on a lease returned by `waitForEmpty`. It would release a slot that was never taken. `LeaseDone` itself models such a release; `LeaseDonePreservesValid` requires an outstanding lease.
- An object listed without a size (`obj.Size!` undefined).
- Strings are sequences of characters. UTF-16 surrogate pairs and Unicode normalisation are not modelled.
- Extname: the function's own contract only states the shape of an extension. Its exact value is proved for the key shapes the synchroniser produces, by `ExtnameOfSegment`, `ExtnameAtDot` and `BareSegmentHasNoExtension`.

## Findings

| source | as written | input that shows it | evidently intended | confidence | as-written member | corrected member |
|---|---|---|---|---|---|---|
| task-queue.ts:30-34 | `waitForEmpty` loops only while `waiting` is non-zero, after the lease queue reports an empty moment | a one-lease queue: task 0 runs, task 1 waits for the lease, then `waitForEmpty` is called. When task 0 finishes, one release resolves both task 1's lease call and the empty-queue call. Both continuations take the same number of steps and task 1's was resolved first, so task 1 takes the lease and starts first; `waiting` is then 0 and `waitForEmpty` returns while task 1 runs | return only once no lease is out, that is when every queued worker has finished | medium, not executed | TaskQueue.BusyReturn | TaskQueue.CheckIdle, with TaskQueue.IdleReturnMeansAllDone |
