# QGIS GeoJSON-to-tiles batch worker: a verified model of its core

The system is a QGIS script that turns a folder of GeoJSON boundary files into XYZ tile
pyramids. Several worker processes can share one folder. They coordinate through a job ledger
file (`geojson_jobs.txt`, one `<file name>,<PENDING|IN_PROGRESS|DONE>` line per job), which is
guarded by a create-exclusive lock file.

For each claimed job the script:
- labels every outline with a `group_key` computed from its attributes;
- cleans the outline layer: it reduces every polygon to its exterior ring and removes outlines
  contained in a larger outline of the same group;
- estimates the number of tiles to render;
- renders the tiles with an external tool;
- deletes the PNG tiles that came out fully transparent.

The script exists in two versions, `new-qgis-workflow-8-8-25.py` (newer) and
`qgis-workflow-30-7-25.py` (older). Both are modelled, and where they differ, the two are
related by lemmas.

Modules:

- `Wrappers`: `Option` and `Result`.
- `Text`: the Python built-ins the ledger and the key rely on:
  - `str.strip` (with Python's white-space set), `split(",", 1)`, `readlines`/`writelines`
    (with their round trip);
  - `str(int)`, `isdigit` and `int`, `lower`;
  - `posixpath.join`/`basename`.
- `Ledger`: the ledger operations as pure functions on lines, the loops that compute them, the
  lock's retry loop, and a `JobFolder` class whose `ledger` (the file's text, or absent) and
  `lockHeld` (the lock file exists) fields the operations update. One pass of `run()` is a
  method of the class.
- `GroupKey`: `get_group_key` of both scripts, on attribute maps.
- `OutlineGeometry`: geometries (null, polygon, multipolygon, as sequences of rings) and ring
  reduction in both versions. The geometry library (validity, `makeValid`, area, bounding box,
  containment) is a parameter of type `GeometryOps`.
- `Containment`: which features are removed as contained, by the newer sorted scan and by the
  older all-pairs scan, with loops that compute them.
- `OutlineLayer`: a `Layer` class holding the feature list, with `changeGeometry`,
  `deleteFeature` and the two complete cleaners.
- `Tiles`: the blank-tile test of both versions, the selection of `.png` files, the 5000-tile
  batches, the worker counts and both cleanup loops.
- `TileCount`: `compute_total_tiles`. The row of a latitude is a parameter.

The ledger functions, `atomic_lock` and the tile-count estimate are the same code in both
versions, apart from a `print` and the spelling of the final return of `claim_next_job`.
The new file's lines are cited for the ledger and the old file's for the tile count. The same
code is at qgis-workflow-30-7-25.py:38-115 and new-qgis-workflow-8-8-25.py:140-152.

In four places the code does something other than what its names and comments suggest. The
model follows the code:
- `run()` calls `mark_job_done` after every claimed job (new-qgis-workflow-8-8-25.py:474-476,
  qgis-workflow-30-7-25.py:425-427), and `process_geojson` catches every exception. So a job
  whose processing failed is still marked `DONE`; it is not left `IN_PROGRESS` for a retry.
- `mark_job_done` sets every line with the given name to `DONE`, whatever its status, so the
  ledger does not restrict the order of the status transitions.
- The newer containment scan (new-qgis-workflow-8-8-25.py:203-216) still uses an outline it has
  already marked for removal as a container for smaller outlines (`Containment.RemovedUpToMeaning`).
- The "quick size gate" of the newer blank-tile test (new-qgis-workflow-8-8-25.py:44, 227-228)
  is not only a shortcut: a fully transparent tile larger than 1800 bytes is kept
  (`Tiles.LargeBlankTileExample`).

new-qgis-workflow-8-8-25.py does not parse as written: line 367 is indented one level deeper
than line 364, and the `except` at line 446 does not line up with the `try` at line 326. The
model takes the evident intent: the whole body of `process_geojson` sits in the `try` at line
326, and the handler at line 446 catches every exception. So "`process_geojson` catches every
exception" is a fact of qgis-workflow-30-7-25.py (`try` at 283, handler at 397, marking at 427),
and of the newer file only as the author evidently meant it.

## Model

| member | source | states |
|---|---|---|
| Text.StripMeaning | new-qgis-workflow-8-8-25.py:101 | The result of `strip` is a slice of the input, starting where the leading white space ends, that neither starts nor ends with white space. |
| Text.LinesJoin | new-qgis-workflow-8-8-25.py:97-108 | Writing a list of lines with `writelines` and reading it back with `readlines` gives the same list, when every line but the last ends in a newline. |
| Text.IntToString | new-qgis-workflow-8-8-25.py:301 | `str(n)` is non-empty, and it is all digits exactly when `n` is not negative. |
| Text.DigitsValueOfNatToString | new-qgis-workflow-8-8-25.py:286-287 | `int(str(n)) == n` for every natural number. |
| Text.BasenameOfJoin | new-qgis-workflow-8-8-25.py:110-120 | `basename(join(folder, name)) == name` for a name without a separator. |
| Ledger.ParseLineMeaning | new-qgis-workflow-8-8-25.py:101 | Parsing fails iff the stripped line has no comma; otherwise the name is the text before the first comma and the status the rest. |
| Ledger.ParseJobLine | new-qgis-workflow-8-8-25.py:103 | A rewritten line `fn,STATUS\n` parses back to that name and status. |
| Ledger.ParsedNameIsPlain | new-qgis-workflow-8-8-25.py:101 | A name parsed from a line `readlines` produced has no comma and no newline and does not start with a space, so it can be written back. |
| Ledger.FirstMalformed | new-qgis-workflow-8-8-25.py:100-101 | The line at which the unpacking raises: every earlier line parses and this one does not. |
| Ledger.FirstWith | new-qgis-workflow-8-8-25.py:102 | The first line with a given status: no earlier line has it. |
| Ledger.FirstNotDone | new-qgis-workflow-8-8-25.py:133-136 | The first line that is not `DONE`: every earlier line is. |
| Ledger.ClaimScan | new-qgis-workflow-8-8-25.py:100-106 | The loop of `claim_next_job` computes `ClaimLines`, including the raise at the first malformed line. |
| Ledger.MarkScan | new-qgis-workflow-8-8-25.py:118-123 | The loop of `mark_job_done` computes `MarkLines`. |
| Ledger.AllDoneScan | new-qgis-workflow-8-8-25.py:133-137 | The early-exit loop of `check_all_done` computes `AllDone`. |
| Ledger.MaxFailedAttempts | new-qgis-workflow-8-8-25.py:82-85 | The lock gives up after the first failed attempt `n` with `n * 0.25 >= timeout`, and never before the first. |
| Ledger.DefaultTimeoutAttempts | new-qgis-workflow-8-8-25.py:73-85 | With the default 30 s timeout the lock gives up after exactly 120 failed attempts. |
| Ledger.AtomicLock | new-qgis-workflow-8-8-25.py:73-85 | It succeeds at the first attempt that finds no lock file, within the attempt limit; it raises `LockTimeout` only if every allowed attempt found the lock held. |
| Ledger.ClaimRewritesFirstPending | new-qgis-workflow-8-8-25.py:100-106 | A claim raises iff some line does not parse, at the first such line. Otherwise it keeps the line count and rewrites exactly the first `PENDING` line, to its name with `IN_PROGRESS`, copying every other line. With no `PENDING` line nothing changes. |
| Ledger.ClaimedLineInProgress | new-qgis-workflow-8-8-25.py:103 | The claimed line parses back as the claimed name `IN_PROGRESS`, and the rewritten list is again a `readlines` result. |
| Ledger.ClaimRoundTrip | new-qgis-workflow-8-8-25.py:97-108 | After the rewrite is written, reading the file gives the rewritten lines. |
| Ledger.ClaimedLinesParse | new-qgis-workflow-8-8-25.py:100-104 | After a claim every line still parses, and no line up to the claimed one is `PENDING`. |
| Ledger.SuccessiveClaimsDiffer | new-qgis-workflow-8-8-25.py:100-104 | A second claim on the rewritten ledger cannot raise, and any line it claims comes after the first claimed line. |
| Ledger.MarkRewritesMatching | new-qgis-workflow-8-8-25.py:118-123 | Marking raises iff some line does not parse. Otherwise every line named `basename(filename)` becomes that name `DONE`, whatever its status, and every other line is copied. |
| Ledger.MarkAfterClaimHitsClaimedLine | new-qgis-workflow-8-8-25.py:110-120 | Marking the path a claim returned (a name without `/`) turns the claimed line into `DONE`. |
| Ledger.ClaimLowersPending | new-qgis-workflow-8-8-25.py:102-104 | A claim that takes a line lowers the number of `PENDING` lines by exactly one. |
| Ledger.MarkKeepsPendingDown | new-qgis-workflow-8-8-25.py:120-123 | Marking never creates a `PENDING` line. |
| Ledger.AllDoneMeaning | new-qgis-workflow-8-8-25.py:128-137 | The answer is True iff every line is a parsed `DONE` line, so an empty ledger is done. It is False iff the first line that is not `DONE` parses. On a ledger where every line parses it never raises. |
| Ledger.BuiltLedgerReadsBack | new-qgis-workflow-8-8-25.py:64-71 | The written ledger reads back as one `name,PENDING` job per globbed file, in order; it is done only when there are no files. |
| Ledger.CommaNameNeverPending | new-qgis-workflow-8-8-25.py:101 | The line of a file whose name holds a comma never parses as `PENDING` or `DONE`, so that job is never claimed and never completes. |
| Ledger.MarkRoundTrip | new-qgis-workflow-8-8-25.py:115-125 | After the marked lines are written, reading the file gives them back. |
| Ledger.JobFolder.BuildJobList | new-qgis-workflow-8-8-25.py:64-71 | An existing ledger is left alone; otherwise the ledger becomes one `name,PENDING\n` line per file. |
| Ledger.JobFolder.Lock | new-qgis-workflow-8-8-25.py:73-85 | With no other worker, taking the lock succeeds iff the lock file is absent, and it is held afterwards either way. |
| Ledger.JobFolder.ClaimNextJob | new-qgis-workflow-8-8-25.py:93-110 | Lock timeout, missing ledger, or a malformed line: the ledger is unchanged (the last two leave the lock file behind). Otherwise the ledger becomes the claimed lines, the lock is released, and the result is the joined path, or None when nothing was claimed or the name is empty. |
| Ledger.JobFolder.MarkJobDone | new-qgis-workflow-8-8-25.py:112-126 | The same error cases; otherwise the ledger becomes the marked lines and the lock is released. |
| Ledger.JobFolder.CheckAllDone | new-qgis-workflow-8-8-25.py:128-137 | An absent ledger is done; otherwise the answer is `AllDone` of its lines, or the malformed line. |
| Ledger.JobFolder.RunIteration | new-qgis-workflow-8-8-25.py:468-476 | One pass of the loop of `run()`. It finishes iff the ledger is done, and then nothing changes; a lock file left behind does not stop that test, but otherwise makes the claim time out with nothing changed. A pass that waits leaves the claim rewrite of the ledger (the ledger itself when no line is `PENDING`). A pass that processes a job leaves the `mark_job_done` rewrite of the claim rewrite, for the claimed path. The lock is free after every pass that did not raise or finish, the `PENDING` count never rises, and it falls when a job is processed. |
| GroupKey.Norm | new-qgis-workflow-8-8-25.py:282-290 | `norm`: None, "" and "None" become None and nothing else does. An integer stays that integer, a non-empty string of digits becomes its value, and a string that survives as a string is not all digits. |
| GroupKey.Show | new-qgis-workflow-8-8-25.py:301 | `str(v)` is empty only for the empty string. |
| GroupKey.GroupKeyNew | new-qgis-workflow-8-8-25.py:272-322 | The key is never empty. |
| GroupKey.GroupKeyOld | qgis-workflow-30-7-25.py:223-279 | The key is never empty. |
| GroupKey.OldAgreesWithNew | qgis-workflow-30-7-25.py:249-279 | The two versions give the same key for every attribute map. |
| GroupKey.OldMtTailUnreachable | qgis-workflow-30-7-25.py:251-269 | In the `MT` branch, a feature that passes the first three tests has both `M` and `MN` present and non-zero, so the test at line 262 always succeeds and lines 267-269 are never reached. |
| GroupKey.ShowNonBlank | new-qgis-workflow-8-8-25.py:282-287 | A normalised value that is neither None nor 0 never prints as "0". |
| GroupKey.MtKeyMeaning | new-qgis-workflow-8-8-25.py:297-313 | For `MT`: "0" iff both `M` and `MN` are None or 0; with exactly one present, that one; with both present, `M` if they are equal, else `MN`, prefixed by `B/` when `B` is present. |
| GroupKey.MuBranchRedundant | new-qgis-workflow-8-8-25.py:314-322 | The `MU` family is keyed exactly as a feature without a `Type`: `M` when it is present and non-zero, else "0". |
| GroupKey.FallbackKey | new-qgis-workflow-8-8-25.py:314-322 | Every type other than `MT` and `K` is keyed by `M` when it is present and non-zero, and otherwise as "0". |
| GroupKey.KKeyMeaning | new-qgis-workflow-8-8-25.py:314-322 | For `K`: `K` when it is present and non-zero, else `M` when that is present and non-zero, else "0"; in the second and third case the same key as without a `Type`. |
| GroupKey.KeyReadsFiveFields | new-qgis-workflow-8-8-25.py:273-280 | Only `Type`, `M`, `MN`, `B` and `K` decide the key. |
| GroupKey.NormOfDecimalText | new-qgis-workflow-8-8-25.py:286-287 | A field holding the decimal text of a number normalises to that number and prints back as the same text. |
| GroupKey.LeadingZerosExample | new-qgis-workflow-8-8-25.py:286-287 | `M = "007"` keys as "7", like `M = 7`. |
| GroupKey.MtExample | new-qgis-workflow-8-8-25.py:306-310 | `MT` with `M = 5`, `MN = 8` and `B = 3` keys as "3/8". |
| OutlineGeometry.ExteriorsMeaning | new-qgis-workflow-8-8-25.py:178-182 | Every kept part is a single ring: the exterior of a non-empty input part. Every non-empty part keeps its exterior. The result is empty iff every part is. |
| OutlineGeometry.ExteriorsOfOneRingEach | new-qgis-workflow-8-8-25.py:178-182 | Parts that are already single rings are left as they are. |
| OutlineGeometry.BatchChangeMeaning | new-qgis-workflow-8-8-25.py:170-188 | Null and empty geometries get no change. A change keeps exactly the exterior ring of each non-empty part of the geometry as repaired. Every valid geometry with a vertex gets a change. |
| OutlineGeometry.BatchApplyIdempotent | new-qgis-workflow-8-8-25.py:170-191 | Reducing twice is reducing once, when the reduced geometry is valid. |
| OutlineGeometry.OldChangeMeaning | qgis-workflow-30-7-25.py:138-157 | A polygon with rings keeps `[poly[0]]`. A non-empty multipolygon becomes the exteriors of its non-empty parts, possibly none. Null and empty multipolygons are unchanged. |
| OutlineGeometry.OldApplyIdempotent | qgis-workflow-30-7-25.py:138-157 | Reducing twice is reducing once. |
| OutlineGeometry.ReductionsAgreeOnValid | new-qgis-workflow-8-8-25.py:171-188 | On a valid geometry with a vertex the two versions make the same change. |
| OutlineGeometry.EmptyPartsExample | qgis-workflow-30-7-25.py:148-154 | A multipolygon of empty polygons: the newer version leaves it alone, the older one writes an empty multipolygon. |
| Containment.GroupOfMeaning | new-qgis-workflow-8-8-25.py:195-197 | A group holds exactly the features with its key, and its ids are distinct when the layer's are. |
| Containment.KeysMeaning | new-qgis-workflow-8-8-25.py:195-197 | The groups are exactly the keys some feature carries. |
| Containment.SortKeeps | new-qgis-workflow-8-8-25.py:202 | The sort is a permutation of the group. |
| Containment.SortStable | new-qgis-workflow-8-8-25.py:202 | The sort is stable: the features of any one area come out in their input order. |
| Containment.SortSorted | new-qgis-workflow-8-8-25.py:202 | The sort orders by ascending area. |
| Containment.SortDistinct | new-qgis-workflow-8-8-25.py:202 | The sort keeps ids distinct. |
| Containment.SortedGroupMeaning | new-qgis-workflow-8-8-25.py:200-202 | A sorted group holds exactly the features of its key, ordered by area, with distinct ids. |
| Containment.RemovedUpToMeaning | new-qgis-workflow-8-8-25.py:203-216 | The scan of a sorted group marks exactly the features that a later feature covers (bounding box and geometry). Already marked features still count as covers. |
| Containment.RemovedOverKeysMeaning | new-qgis-workflow-8-8-25.py:200-216 | The removal set is the union of what each group's scan marks. |
| Containment.RemovedFromGroup | new-qgis-workflow-8-8-25.py:200-216 | What one sorted group marks, the layer removes. |
| Containment.RemovedNewHasCover | new-qgis-workflow-8-8-25.py:203-216 | A removed feature is covered by a different feature of its own group whose area is not smaller. Nothing is removed across groups. |
| Containment.RemovedNewByLargerCover | new-qgis-workflow-8-8-25.py:202-216 | A feature covered by a strictly larger feature of its group is removed. |
| Containment.LastOfGroupSurvives | new-qgis-workflow-8-8-25.py:208 | The last feature of each sorted group is never removed. |
| Containment.EveryGroupKeepsOne | new-qgis-workflow-8-8-25.py:200-216 | Every group keeps at least one feature. |
| Containment.RemovedOldUpToMeaning | qgis-workflow-30-7-25.py:160-172 | The outer loop over the first `n` features marks exactly those with a bigger container among all features. |
| Containment.RemovedOldMeaning | qgis-workflow-30-7-25.py:160-172 | The older rule removes a feature iff another feature of its group contains it and has a strictly larger area. |
| Containment.OldMaxAreaSurvives | qgis-workflow-30-7-25.py:170 | A feature of largest area in its group is never removed by the older rule. |
| Containment.OldRemovalsAreNewRemovals | qgis-workflow-30-7-25.py:160-172 | When containment implies bounding-box containment, whatever the older rule removes, the newer one removes too. |
| Containment.NewRemovalsAreOldWhenAreasDiffer | new-qgis-workflow-8-8-25.py:202-216 | When no two features of a group have equal areas, the newer rule removes nothing the older one keeps. |
| Containment.TwinsOld | qgis-workflow-30-7-25.py:170 | Two identical features of one group both survive the older rule. |
| Containment.TwinsNew | new-qgis-workflow-8-8-25.py:202-216 | The newer rule removes the first of two identical features of one group. |
| Containment.GroupFeatures | new-qgis-workflow-8-8-25.py:195-197 | The `setdefault`/`append` loop yields the keys in insertion order and, for each, its group in layer order. |
| Containment.ScanSorted | new-qgis-workflow-8-8-25.py:203-216 | The nested loop with its `break` adds exactly the features of the sorted group that a later feature covers. |
| Containment.ContainedIdsNew | new-qgis-workflow-8-8-25.py:194-216 | The grouping, sorting and scanning loops compute `remove_ids` of the newer rule. |
| Containment.ContainedIdsOld | qgis-workflow-30-7-25.py:158-172 | The i/j double loop computes `remove_ids` of the older rule. |
| OutlineLayer.ExteriorsOf | new-qgis-workflow-8-8-25.py:179-182 | The loop over parts collects exactly `Exteriors`. |
| OutlineLayer.CollectChanges | new-qgis-workflow-8-8-25.py:170-188 | The first loop fills `changes` with the reduced geometry of every feature that gets one, under its id. |
| OutlineLayer.BatchChangesLookup | new-qgis-workflow-8-8-25.py:170-188 | With unique ids, `changes` has an entry for a feature iff its reduction records one, holding that change, and no other entries. |
| OutlineLayer.BatchChangesApply | new-qgis-workflow-8-8-25.py:184-191 | With unique ids, writing `changes` gives every feature its reduced geometry. |
| OutlineLayer.OldChangesLookup | qgis-workflow-30-7-25.py:138-157 | With unique ids, the older cleaner writes a geometry for a feature iff its reduction changes it. |
| OutlineLayer.OldChangesApply | qgis-workflow-30-7-25.py:138-157 | With unique ids, the older cleaner gives every feature its reduced geometry. |
| OutlineLayer.ApplyKeepsIds | new-qgis-workflow-8-8-25.py:191 | Writing geometries keeps every id, so ids stay unique. |
| OutlineLayer.ApplyTwice | qgis-workflow-30-7-25.py:146 | One more `changeGeometry` is the same as adding its entry to the changes already written. |
| OutlineLayer.DeleteIdsMeaning | new-qgis-workflow-8-8-25.py:219-221 | Deleting keeps exactly the features whose id is not deleted. |
| OutlineLayer.DeleteIdsTwice | new-qgis-workflow-8-8-25.py:220-221 | Deleting one set of ids and then another is deleting their union, so the order of `deleteFeature` calls does not matter. |
| OutlineLayer.DeleteIdsCount | new-qgis-workflow-8-8-25.py:218-222 | With unique ids, the layer shrinks by the number of deleted ids that belong to it. |
| OutlineLayer.RemovedAreIds | new-qgis-workflow-8-8-25.py:199-216 | Every removed id, under either rule, is the id of a feature of the layer. |
| OutlineLayer.BatchCleanedMeaning | new-qgis-workflow-8-8-25.py:166-223 | With unique ids, the newer cleaner leaves `len(remove_ids)` fewer features, the number its message reports. A feature is kept, with its reduced geometry, iff its id was not removed. |
| OutlineLayer.OldCleanedMeaning | qgis-workflow-30-7-25.py:136-179 | The same for the older cleaner, whose message gives no count. |
| OutlineLayer.Layer.ChangeGeometry | qgis-workflow-30-7-25.py:146 | The feature with that id gets the new geometry; nothing else changes. |
| OutlineLayer.Layer.DeleteFeature | new-qgis-workflow-8-8-25.py:221 | The feature with that id is removed; nothing else changes. |
| OutlineLayer.Layer.DeleteAll | new-qgis-workflow-8-8-25.py:219-221 | The loop over the removal set leaves the layer without exactly those ids, whatever order the set yields them in. |
| OutlineLayer.Layer.CleanBatch | new-qgis-workflow-8-8-25.py:166-223 | The layer becomes `BatchCleaned` of the old layer, and the message counts the removed ids of the reduced layer. |
| OutlineLayer.Layer.Clean | qgis-workflow-30-7-25.py:136-179 | The per-feature `changeGeometry` loop and the double loop leave `OldCleaned` of the old layer; the message says whether anything was removed. |
| Tiles.IsBlankNew | new-qgis-workflow-8-8-25.py:225-238 | A tile is blank iff its size is known and at most 1800 bytes, it decodes, and all its pixels are transparent. A size or decode error means not blank. |
| Tiles.ProcessTileNew | new-qgis-workflow-8-8-25.py:254-261 | The result is 1 iff the tile is blank and its removal succeeds; otherwise it is 0. |
| Tiles.ProcessTileOld | qgis-workflow-30-7-25.py:181-198 | True iff the tile decodes, is transparent, and its removal succeeds. There is no size gate. |
| Tiles.GateOnlySpares | new-qgis-workflow-8-8-25.py:227-228 | Every tile the newer version deletes, the older one deletes too, and they agree on tiles of at most 1800 bytes. Looking only at alpha deletes at least as much as looking at all bands. |
| Tiles.LargeBlankTileExample | new-qgis-workflow-8-8-25.py:227-228 | A transparent 2000-byte tile is kept by the newer version and deleted by the older one. |
| Tiles.PngEntries | new-qgis-workflow-8-8-25.py:242-245 | At most as many PNG entries as files. |
| Tiles.PngEntriesMeaning | new-qgis-workflow-8-8-25.py:242-245 | Exactly the files whose lower-cased name ends in ".png" are selected. |
| Tiles.IsPngExamples | new-qgis-workflow-8-8-25.py:244 | ".PnG" counts and "png" does not. |
| Tiles.CollectPngs | new-qgis-workflow-8-8-25.py:241-245 | The walk loop collects exactly the PNG entries, in walk order. |
| Tiles.CountRemovedMeaning | new-qgis-workflow-8-8-25.py:252-267 | The count equals the number of deleted paths and is at most the number of tiles. A path is deleted iff a tile found there is blank and removable. |
| Tiles.CountRemovedAppend | new-qgis-workflow-8-8-25.py:263-267 | Counts and deletions over consecutive batches add up. |
| Tiles.BatchesCover | new-qgis-workflow-8-8-25.py:263-264 | The slices `pngs[i:i+5000]` cover every path once, in order, and none is empty or over the batch size. |
| Tiles.BatchesExample | new-qgis-workflow-8-8-25.py:263-264 | 12001 tiles make three batches, the last one of 2001 tiles. |
| Tiles.MaxWorkersNew | new-qgis-workflow-8-8-25.py:251 | The worker count lies in [4, 64], and is four per CPU up to 16 CPUs. |
| Tiles.MaxWorkersOld | qgis-workflow-30-7-25.py:212 | At most 64, at least 4 for a known positive CPU count. It raises iff the CPU count is unknown. |
| Tiles.ProcessBatch | new-qgis-workflow-8-8-25.py:265-267 | Summing `process_tile` over a batch gives the batch's count and deletions. |
| Tiles.CleanTilesNew | new-qgis-workflow-8-8-25.py:240-269 | It reports the number of PNG files, and deletes and counts exactly the blank, removable ones; the count is at most the number found. |
| Tiles.CountIndependentOfOrder | qgis-workflow-30-7-25.py:213-220 | Counting the True results in any completion order gives the same number. |
| Tiles.CountRemovedOldBound | qgis-workflow-30-7-25.py:211-220 | At most as many tiles are counted as there are. |
| Tiles.CleanTilesOld | qgis-workflow-30-7-25.py:200-221 | With no PNG file it reports none found. Otherwise it raises before any tile is submitted iff the CPU count gives no worker pool (unknown, or 0). Else it reports the number of PNG files, and counting as the futures complete, in any order, gives the number of blank, removable tiles, at most that number. |
| TileCount.ComputeTotalTiles | qgis-workflow-30-7-25.py:117-129 | The accumulator loop computes the sum over `range(zoom_min, zoom_max + 1)` of columns times rows. |
| TileCount.TotalTilesBounds | new-qgis-workflow-8-8-25.py:144-152 | For an ordered box and rows numbered from the north, the total is 0 when `zoom_min > zoom_max` and otherwise at least the number of levels. |
| TileCount.TileXMonotone | qgis-workflow-30-7-25.py:123-124 | The column index never decreases as the longitude grows. |
| TileCount.AntimeridianColumn | qgis-workflow-30-7-25.py:123-124 | Longitude -180 is column 0, and longitude 180 is column `2^z`, one past the last column. |
| TileCount.LevelTilesPositive | qgis-workflow-30-7-25.py:122-127 | An ordered box covers at least one tile at every level. |
| TileCount.TotalMonotoneInZoomMax | qgis-workflow-30-7-25.py:122-128 | Raising `zoom_max` never lowers the total, and raises it strictly once the range is non-empty. |
| TileCount.LevelTilesMonotone | qgis-workflow-30-7-25.py:123-127 | A wider box covers at least as many tiles at a level. |
| TileCount.TotalMonotoneInExtent | qgis-workflow-30-7-25.py:122-128 | Widening the bounding box never lowers the total. |

## Left out

- The folder dialog, `process_geojson` (memory layers, dissolve, multipart-to-single,
  rendering, styles, labels, project registry, garbage collection and sleeps) and
  `layer_extent_wgs84`: these are QGIS library calls. `RunIteration` treats `process_geojson`
  as leaving the ledger alone, as it does (it catches every exception).
- How `group_key` is written into the layer: features carry their key as given.
- The whole `run()` loop is not modelled, only one pass of it. With other workers, a pass can
  wait forever on jobs left `IN_PROGRESS`; that concurrency is not modelled.
- File I/O:
  - the ledger is the file's decoded text, or absent;
  - the lock is a flag, and releasing it always succeeds;
  - write errors are not modelled.
- The glob and walk orders are inputs.
- Concurrency:
  - the lock is modelled for a single worker (`AtomicLock` takes the lock's state at each
    attempt as a parameter);
  - the thread pools are run one tile at a time;
  - `as_completed` is a given completion order.
- `time.sleep` is the attempt counter. Adding 0.25 is exact in binary, so the float sum of
  `waited` equals the real one over the attempts that matter.
- `print` output is not modelled; the outline cleaners' return messages are.
- Floating point: areas, coordinates and the tile formula use exact reals. `_lat_to_tile_y`
  (`tan`, `log`, `cos`) is a parameter, assumed non-increasing in latitude where a lemma needs it.
- The geometry library (`isGeosValid`, `makeValid`, `area`, `boundingBox`, `contains`) is a
  parameter. Geometries are null, polygons or multipolygons; a `makeValid` result of another
  kind (a collection, a line) is not modelled.
- The `gs is None` and `gb is None` tests of the newer scan cannot fire (a feature's geometry
  is never None), so they are not modelled.
- Attribute values are NULL, integers or strings. Float values are not modelled: Python's
  `5.0 == 5` would make them equal to integers.
- Python's `isdigit`, `lower` and `int` accept more than ASCII digits and letters; the model
  uses ASCII only.
- Pillow's decoding is a given result (the pixels, or an error); `alphaOnly` chooses between
  the Pillow versions whose `getbbox` looks at all four bands and those that look only at alpha.
- Paths follow `posixpath`. The Windows forms of `os.path.join` and `basename` (`ntpath`, with
  backslash separators and drive letters) are not modelled.
- Deleting a tile is recorded as the list of deleted paths; the directory listing itself is not
  changed.
- TileCount.AntimeridianColumn: states the column of longitude 180 as `floor(2^z)`, without
  proving that this is `2^z` as an integer.
