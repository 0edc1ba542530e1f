# Deepfake-detection bookkeeping cores, modelled in Dafny

This project models the parts of the deepfake-detection system that are plain
bookkeeping once the signal processing, the AI calls and the network are taken
away:

- the **fingerprint cache** (`video_hash_cache.py`): key-frame sampling, the
  64-bit DCT perceptual hash of a frame, its 16-digit hex segments, the
  MSB-first bit vector, LSH banding, total Hamming distance, the two-tier
  lookup and the table operations (upsert, touch, cleanup, statistics);
- the **lineage engine** (`deepfake_origin_finder.py`): hex-slice LSH bands,
  whole-hash Hamming distance, mutation tags, family search, parent choice on
  registration, the parent/child forest, family trees and spread timelines;
- the **legacy hash helpers** (`hash_utils.py`): bit packing of pHash and
  dHash, decimal fingerprints, average distance and similarity score;
- `DetectionResult` clamping, verdicts, confidence and risk levels;
- the blockchain **transaction queue** with its status machine, chunked batch
  sends and nonce counter, and the module helpers of the web3 client
  (`_bytes32`, `_to_hex`, confidence and geo scaling, guard clauses);
- the Pi's in-memory **fallback cache** with oldest-first eviction and its
  video analyzer's hex packing and guard clauses;
- the laptop **load balancer**, the **alert listener** block-window cursor and
  the **notification service** severity filter and bounded history;
- the **geo-IP** private-address test, TTL cache and country flags, and the
  web front end's upload-extension gate and hash routing.

Each source file is one Dafny module; shared pieces live in `wrappers.dfy`
(Option/Result), `bits.dfy` (XOR, popcount, bit lists on unbounded naturals),
`numerals.dfy` (hex and decimal numerals), `text.dfy` (Python string
operations) and `sorting.dfy` (a stable insertion sort and first minimum).
SQLite tables become `map`s keyed by their primary key, clocks become
parameters, and hash functions (SHA-256, MD5, SHA-1), the DCT and JSON become
function parameters. Classes whose fields the source updates in place
(`FingerprintCache`, `OriginFinder`, `TransactionManager`, `LocalCache`,
`LoadBalancer`, `AlertListener`, `NotificationService`, `GeoIPService`) are
Dafny classes whose methods are proved against specification functions.

## Model

| member | source | states |
|---|---|---|
| VideoHashing.KeyFrameIndicesSpread | src/core/video_hash_cache.py:188-202 | sampled positions lie in 0..N-1 and never decrease, there are at most F of them, a video with 0 < N < F frames is sampled at exactly the positions 0..N-1, and a video with N ≥ F ≥ 2 frames is sampled at exactly F positions from frame 0 to frame N-1 |
| VideoHashing.KeyFramesSampled | src/core/video_hash_cache.py:183-216 | a successful extraction returns between 1 and F frames, each the frame read at a real position of the video; a short video whose frames all read gives every frame in order |
| VideoHashing.ExtractKeyFrames | src/core/video_hash_cache.py:183-216 | the read loop returns the frames read at the sampled positions, in order, or the error for an unopenable video, zero frames, F = 1 (division by zero) or no readable frame |
| VideoHashing.FramePHash | src/core/video_hash_cache.py:264-274 | the shift loop returns the number whose bits, first coefficient most significant, are set exactly where a coefficient exceeds `sorted[len//2]` |
| VideoHashing.FrameHashBits | src/core/video_hash_cache.py:264-274 | a frame hash fits in 64 bits and has at most 31 bits set, since only coefficients above the upper median count |
| VideoHashing.SortedAboveMedian | src/core/video_hash_cache.py:264-274 | in sorted order at most 31 of the 64 coefficients lie above `sorted[32]` |
| VideoHashing.FrameHexRoundTrip | src/core/video_hash_cache.py:276-282 | `_int_to_hex` gives 16 upper-case hex digits without '-', and `_hex_to_int` recovers every value below 2^64 |
| VideoHashing.HexWidthRoundTrip | src/core/video_hash_cache.py:276-282 | the same round trip at any fixed digit width |
| VideoHashing.AppendHashBits | src/core/video_hash_cache.py:322-323 | the inner loop appends the 64 bits of a hash, most significant first |
| VideoHashing.HashFrames | src/core/video_hash_cache.py:314-323 | the frame loop yields each frame's hex segment and the concatenation of the frames' 64-bit vectors in frame order |
| VideoHashing.ConcatPixels | src/core/video_hash_cache.py:308-311 | the bytes hashed by SHA-256 are the frames' pixel bytes in frame order |
| VideoHashing.ComputeVideoHash | src/core/video_hash_cache.py:284-331 | returns the SHA-256 of the pixels, the segments joined by '-' and the band signatures of the bit vector, or the extraction error |
| VideoHashing.ComputeImageHash | src/core/video_hash_cache.py:333-377 | an unreadable image is an error; otherwise the single frame's segment and bits are repeated `num_frames` times before joining and banding |
| VideoHashing.ImageHashMatchesVideoFormat | src/core/video_hash_cache.py:337-339 | an image's perceptual hash and bands equal those of a video whose sampled frames are all that image |
| VideoHashing.BandBits | src/core/video_hash_cache.py:403-407 | band b holds `((b+1)·T)//B - (b·T)//B` bits of a T-bit vector |
| VideoHashing.BandsPrefixAll | src/core/video_hash_cache.py:398-407 | the bands concatenate back to the whole bit vector, so they tile it without gap or overlap |
| VideoHashing.LshBands | src/core/video_hash_cache.py:398-417 | there are exactly `lsh_bands` signatures (none for a non-positive band count) |
| VideoHashing.ComputeLshBands | src/core/video_hash_cache.py:398-417 | the band loop and the shift loop inside it produce exactly `LshBands` |
| VideoHashing.BandSignatureSeparates | src/core/video_hash_cache.py:410-415 | for bit vectors of equal length, equal signatures of band b mean equal bits in band b |
| VideoHashing.DifferingBandsCount | src/core/video_hash_cache.py:398-417 | if the first k signatures all differ, the bits of those bands differ in at least k positions |
| VideoHashing.LshSharedBand | src/core/video_hash_cache.py:387-390 | bit vectors that differ in fewer positions than there are bands share at least one band signature |
| VideoHashing.TotalHammingDistance | src/core/video_hash_cache.py:439-469 | the loop returns the sum over aligned segments of popcount(xor), 64 for an unparseable segment, plus 64 per segment only one hash has |
| VideoHashing.AreVideosSimilar | src/core/video_hash_cache.py:471-487 | similar exactly when the total distance is at most the threshold (inclusive) |
| VideoHashing.TotalDistanceSymmetric | src/core/video_hash_cache.py:439-469 | the total distance does not depend on the order of the arguments |
| VideoHashing.EncodedDistanceIsBitDiff | src/core/video_hash_cache.py:449-467 | for two hashes built from equally many 64-bit frame hashes, the total distance is the Hamming distance of their bit vectors |
| VideoHashing.EncodedDistanceToSelf | src/core/video_hash_cache.py:439-469 | a hash built from at least one frame is at distance 0 from itself |
| VideoHashing.NearDuplicatesShareBand | src/core/video_hash_cache.py:383-417 | two videos with equally many frames whose hashes are fewer bits apart than there are bands share a band signature |
| VideoCache.TouchChangesOnlyStats | src/core/video_hash_cache.py:658-666 | touching a row adds 1 to its count and sets its last-seen time; nothing else changes, and an absent key changes nothing |
| VideoCache.StoredBands | src/core/video_hash_cache.py:693-694 | the bands are padded with "" up to the five band columns |
| VideoCache.UpsertSemantics | src/core/video_hash_cache.py:696-726 | a new key gets count 1 and first = last = now; an existing key keeps its first-seen time, counts one more and has every other column overwritten; other rows are untouched |
| VideoCache.RecentPartition | src/core/video_hash_cache.py:788-795 | cleanup deletes exactly the rows last seen before the cutoff, keeps the rest unchanged, and the deleted count is the size difference |
| VideoCache.Stats | src/core/video_hash_cache.py:742-779 | authentic = total − deepfakes; for a table whose rows count at least once, cache hits = lookups − entries ≥ 0 and the hit rate lies in [0, 1) |
| VideoCache.FingerprintCache.constructor | src/core/video_hash_cache.py:96-131 | an empty table with the given frame count, threshold and band count |
| VideoCache.FingerprintCache.LookupExact | src/core/video_hash_cache.py:531-553 | the row under the content hash exactly when there is one |
| VideoCache.FingerprintCache.LookupPerceptual | src/core/video_hash_cache.py:604-656 | a row with the same perceptual hash wins at distance 0; otherwise a match exists iff some LSH candidate is within the threshold, and it is a candidate of least distance; equivalently, a match exists exactly when HasPerceptualMatch holds and the match satisfies IsPerceptualMatch |
| VideoCache.FingerprintCache.CollectCandidates | src/core/video_hash_cache.py:618-626 | the candidates are exactly the rows whose band column i holds the query's band i for some i |
| VideoCache.FingerprintCache.BestCandidate | src/core/video_hash_cache.py:629-654 | the strict-improvement loop finds a candidate iff one is within the threshold, and then one of least distance, whatever the visiting order |
| VideoCache.FingerprintCache.UpdateAccessStats | src/core/video_hash_cache.py:658-666 | the table becomes `Touch` of the old table |
| VideoCache.FingerprintCache.CheckCache | src/core/video_hash_cache.py:493-529 | a hashing failure is a miss; an exact hit wins over a perceptual one; a hit touches exactly the matched row and returns its rebuilt result; a miss changes nothing; when the content hash is not stored, the result is a miss exactly when the perceptual lookup has nothing to return, and otherwise a Perceptual(d) hit on a row the lookup may return (a same-hash row at distance 0, else a least-distance candidate within the threshold), or the rebuild error of such a row whose lipsync score is NULL |
| VideoCache.FingerprintCache.StoreResult | src/core/video_hash_cache.py:672-726 | a hashing failure stores nothing; otherwise the result gets both hashes and is upserted with the padded bands |
| VideoCache.FingerprintCache.StoreAnalysisResult | src/core/video_hash_cache.py:837-878 | upserts under the plain key, which is also the perceptual hash, with empty bands and confidence 0.5 by default |
| VideoCache.FingerprintCache.CheckDuplicate | src/core/video_hash_cache.py:806-835 | the decoded metadata of the row under the key, or None when there is no row, no metadata or it does not decode |
| VideoCache.FingerprintCache.GetStats | src/core/video_hash_cache.py:732-779 | the statistics of the current table |
| VideoCache.FingerprintCache.Cleanup | src/core/video_hash_cache.py:781-798 | the table keeps exactly the rows seen since the cutoff, and the method returns how many were deleted |
| VideoCache.FingerprintCache.Clear | src/core/video_hash_cache.py:800-804 | the table becomes empty |
| VideoCache.NearDuplicateIsCandidate | src/core/video_hash_cache.py:618-626 | a stored row whose video is fewer bits from the query than there are bands is always an LSH candidate |
| LineageHashing.CleanHash | src/tracking/deepfake_origin_finder.py:249 | the de-dashed hash holds no '-' and is no longer than the hash |
| LineageHashing.HexBands | src/tracking/deepfake_origin_finder.py:249-259 | there are exactly `num_lsh_bands` slices (none for a negative count) |
| LineageHashing.HexBandWidth | src/tracking/deepfake_origin_finder.py:252-256 | every slice but the last has `len // bands` characters |
| LineageHashing.HexBandsConcat | src/tracking/deepfake_origin_finder.py:249-259 | the slices concatenate back to the de-dashed hash, the last one taking the remainder |
| LineageHashing.BandStep | src/tracking/deepfake_origin_finder.py:255-257 | one pass of the loop cuts exactly slice i, within bounds |
| LineageHashing.ComputeHexBands | src/tracking/deepfake_origin_finder.py:249-259 | the loop returns exactly `HexBands` |
| LineageHashing.MismatchesSymmetric | src/tracking/deepfake_origin_finder.py:284 | the character-mismatch fallback over the zipped prefix is symmetric |
| LineageHashing.MismatchesSelf | src/tracking/deepfake_origin_finder.py:284 | the fallback is 0 on identical input |
| LineageHashing.HexDistanceSymmetric | src/tracking/deepfake_origin_finder.py:273-284 | `_hamming_distance` is symmetric, in both the hex and the fallback branch |
| LineageHashing.HexDistanceSelf | src/tracking/deepfake_origin_finder.py:273-284 | `_hamming_distance` is 0 from a hash to itself |
| LineageHashing.HexDistanceZero | src/tracking/deepfake_origin_finder.py:277-281 | two valid hex hashes are at distance 0 exactly when they denote the same number |
| LineageHashing.HashMutationTagsBuckets | src/tracking/deepfake_origin_finder.py:308-319 | distance 0 gives no tag; 1–5, 6–15, 16–30 and above 30 give exactly minor_compression, moderate_edit, significant_modification and major_transformation |
| LineageHashing.DetectMutations | src/tracking/deepfake_origin_finder.py:305-366 | the result is never empty, ends with the file-based tags, and adds at most the one hash tag |
| LineageHashing.DetectMutationsIdentical | src/tracking/deepfake_origin_finder.py:308-366 | identical non-empty hashes with no file evidence give `["unknown_modification"]` |
| LineageModel.Ancestor | src/tracking/deepfake_origin_finder.py:537-556 | following parent links n steps from a row stays in the table and lands n generations higher |
| LineageModel.ForestAcyclic | src/tracking/deepfake_origin_finder.py:537-591 | parent links never loop: from any row they reach a root after exactly `generation` steps and never return to the row |
| LineageModel.AddChildEffect | src/tracking/deepfake_origin_finder.py:632-648 | adding a child touches only the parent row, lists the child afterwards, appends it only when it was missing, and keeps a duplicate-free list duplicate-free |
| LineageModel.AttachShape | src/tracking/deepfake_origin_finder.py:564-589 | after registration the table holds the new node, its parent with the child appended, and every other row unchanged |
| LineageModel.AttachPreservesForest | src/tracking/deepfake_origin_finder.py:537-591 | registering a fresh childless node under an existing parent one generation down (or as a generation-0 root) keeps the table a forest |
| LineageModel.AttachParentLinked | src/tracking/deepfake_origin_finder.py:556-564 | after registration every parent exists, is one generation older and lists the child |
| LineageModel.AttachChildrenLinked | src/tracking/deepfake_origin_finder.py:564-576 | after registration every listed child exists, names its parent and is listed once |
| LineageModel.StoreBandsEffect | src/tracking/deepfake_origin_finder.py:624-630 | storing a node writes band i of its hash under (hash, i) and leaves every other band row as it was |
| LineageModel.CandidatesShareBand | src/tracking/deepfake_origin_finder.py:382-391 | a candidate is exactly a hash whose stored band i equals the query's band i for some i |
| LineageModel.FamilyMembership | src/tracking/deepfake_origin_finder.py:397-431 | the family members are exactly the registered candidates within the threshold, each with its distance to the query |
| LineageModel.ScoredStep | src/tracking/deepfake_origin_finder.py:399-431 | scoring one more candidate adds exactly its own member when it qualifies and nothing otherwise |
| LineageModel.ParentChoice | src/tracking/deepfake_origin_finder.py:541-556 | the parent is a family member seen before now of least distance, ties going to the earlier member in family order; none exactly when no member is that old |
| LineageModel.BornBeforeSorted | src/tracking/deepfake_origin_finder.py:543-546 | filtering the members seen before now keeps the family order |
| LineageModel.NodesOfRows | src/tracking/deepfake_origin_finder.py:878 | the `nodes` dictionary holds exactly the family's rows under their hashes |
| LineageModel.RootsOf | src/tracking/deepfake_origin_finder.py:881-884 | a hash is a root exactly when some family member has it and that member's parent is absent or outside the family |
| LineageModel.InFamily | src/tracking/deepfake_origin_finder.py:889-891 | the kept children are exactly the listed children that are in the family |
| LineageModel.SubForestTreeShaped | src/tracking/deepfake_origin_finder.py:878-891 | a family cut from a forest has every in-family child one generation below its parent |
| LineageModel.BuildSubtree | src/tracking/deepfake_origin_finder.py:886-908 | the subtree of a node holds that node and one subtree per in-family child, in list order |
| LineageModel.BuildSubtreeEdges | src/tracking/deepfake_origin_finder.py:886-908 | every edge of a built subtree is a real parent link one generation down, between family members |
| LineageModel.TreeOfRoots | src/tracking/deepfake_origin_finder.py:911-918 | one root gives its subtree; otherwise a 'Multiple Origins' container at generation -1 with one subtree per root |
| LineageModel.FirstMemberIsRoot | src/tracking/deepfake_origin_finder.py:881-884 | a non-empty family sorted by (generation, first_seen) has its first member as its first root |
| LineageModel.TreeOfRootsEdges | src/tracking/deepfake_origin_finder.py:911-918 | every tree built for a family has only real parent-link edges |
| LineageModel.TimelineRowsMembers | src/tracking/deepfake_origin_finder.py:733-757 | a timeline row is exactly a recorded event of one of the hashes that is also registered, with that row's generation and flag |
| LineageModel.CountPlatform | src/tracking/deepfake_origin_finder.py:949-957 | a platform count is positive exactly when some event names the platform |
| LineageModel.StatisticsPartition | src/tracking/deepfake_origin_finder.py:928-969 | deepfake and authentic counts add up to the number of videos |
| LineageModel.RootsAreGenerationZero | src/tracking/deepfake_origin_finder.py:960-964 | in a forest the generation-0 rows are exactly the rows without a parent |
| LineageModel.StatisticsFamilies | src/tracking/deepfake_origin_finder.py:960-976 | the family count is the number of roots, positive for a non-empty table, and the average mutations per family is non-negative and zero exactly when every row is a root |
| LineageModel.MutationsPerFamily | src/tracking/deepfake_origin_finder.py:973-975 | the average of non-root rows per family is never negative and is zero exactly when every row is a root |
| OriginTracking.OriginFinder.constructor | src/tracking/deepfake_origin_finder.py:176-201 | empty lineage, band and event tables with the given threshold and band count |
| OriginTracking.OriginFinder.CollectCandidates | src/tracking/deepfake_origin_finder.py:382-391 | the band queries collect exactly the hashes sharing a band with the query |
| OriginTracking.OriginFinder.ScoreCandidates | src/tracking/deepfake_origin_finder.py:397-431 | the distance filter yields one member per registered candidate within the threshold, in whatever order the set is visited |
| OriginTracking.OriginFinder.FindFamily | src/tracking/deepfake_origin_finder.py:368-436 | None exactly when no registered row shares a band and lies within the threshold; otherwise all those members, each once, sorted by (generation, first_seen) |
| OriginTracking.OriginFinder.FindOrigin | src/tracking/deepfake_origin_finder.py:438-455 | None exactly when the family is empty; otherwise a family member no later than any other by (generation, first_seen) |
| OriginTracking.OriginFinder.AddChildToParent | src/tracking/deepfake_origin_finder.py:632-648 | the lineage becomes `AddChild` of the old one; bands and events are unchanged |
| OriginTracking.OriginFinder.StoreNode | src/tracking/deepfake_origin_finder.py:593-630 | the node is inserted or replaced under its hash and its lineage bands written |
| OriginTracking.OriginFinder.FindParent | src/tracking/deepfake_origin_finder.py:541-556 | the parent is the closest family member seen before now, ties to the earliest in family order; none exactly when no member is that old |
| OriginTracking.OriginFinder.RegisterVideo | src/tracking/deepfake_origin_finder.py:503-591 | a known hash returns its row and writes nothing; a new node gets no parent, generation 0 and no mutations when no family member is older, else the chosen parent, its generation + 1 and the detected mutations; the table stays a forest |
| OriginTracking.OriginFinder.RecordSpreadEvent | src/tracking/deepfake_origin_finder.py:681-700 | one event is appended, stamped now, without checking the hash |
| OriginTracking.OriginFinder.GetSpreadTimeline | src/tracking/deepfake_origin_finder.py:713-759 | [] for an unknown hash; otherwise exactly the registered events of the family and the hash itself, sorted by discovery time |
| OriginTracking.OriginFinder.GetFamilyTree | src/tracking/deepfake_origin_finder.py:862-918 | no tree for an unknown hash or an empty family; otherwise a tree whose edges are real parent links, holding exactly the family's members, whose top hashes are exactly the members with no parent in the family, in (generation, first_seen) order; a container at generation -1 having at least two roots |
| LineageModel.RootsSorted | src/tracking/deepfake_origin_finder.py:881-884 | the roots of a family sorted by (generation, first_seen) keep that order |
| LineageModel.InTreeSound | src/tracking/deepfake_origin_finder.py:886-908 | every hash in a tree with real edges is a family member |
| LineageModel.ChildInSubtree | src/tracking/deepfake_origin_finder.py:889-892 | a subtree holding a member also holds each of its in-family children |
| LineageModel.MemberUnderRoot | src/tracking/deepfake_origin_finder.py:881-908 | every member lies in the subtree of some root |
| LineageModel.TreeOfRootsCovers | src/tracking/deepfake_origin_finder.py:881-918 | the tree over the roots holds every member |
| LineageModel.TopKeysOfRoots | src/tracking/deepfake_origin_finder.py:910-918 | the hashes at the top of the tree are the roots, in order |
| LineageModel.FamilyRoots | src/tracking/deepfake_origin_finder.py:877-884 | the roots are exactly the family keys whose parent is absent or outside the family |
| LineageModel.FamilyTreeMembers | src/tracking/deepfake_origin_finder.py:877-918 | the tree for a family holds every family key and no other hash |
| LineageModel.FamilyTreeTops | src/tracking/deepfake_origin_finder.py:877-918 | the top of the tree for a sorted family lists exactly its roots, in (generation, first_seen) order |
| LineageModel.FamilyRootsOrdered | src/tracking/deepfake_origin_finder.py:881-884 | the roots of a sorted family are family keys in (generation, first_seen) order |
| LineageModel.FamilyTreeShape | src/tracking/deepfake_origin_finder.py:862-918 | the tree over a sorted, non-empty family exists, its edges are the lineage's parent links within the family, and a forest of several roots is marked generation -1 |
| OriginTracking.OriginFinder.GetStatistics | src/tracking/deepfake_origin_finder.py:920-976 | the statistics of the tables: deepfakes + authentic = total, and at least one family once a video is registered |
| Bits.HammingMetric | src/utils/hash_utils.py:145-156 | `hamming_distance` is symmetric and 0 exactly on equal hashes |
| Bits.HammingBound | src/core/video_hash_cache.py:424-437 | two hashes below 2^w are at most w bits apart |
| Bits.HammingIsBitDiff | src/core/video_hash_cache.py:424-437 | for hashes below 2^w, popcount(xor) counts the positions where their w-bit renderings differ |
| Bits.PackBits | src/utils/hash_utils.py:60-62 | the shift loop `h = (h << 1) \| bit` packs a bit list most significant first, below 2^length |
| Bits.BitsRoundTrip | src/utils/hash_utils.py:60-62 | unpacking a packed bit list gives the list back |
| Bits.NatRoundTrip | src/core/video_hash_cache.py:322-323 | packing the w low bits of a number below 2^w gives the number back |
| Bits.BitsToNatAppend | src/core/video_hash_cache.py:270-272 | packing a concatenation shifts the first part left by the length of the second |
| Bits.PopCountOfBits | src/core/video_hash_cache.py:436-437 | the popcount of a packed bit list is its number of set bits |
| HashUtils.PHashBits | src/utils/hash_utils.py:54-57 | one bit per coefficient |
| HashUtils.ComputePerceptualHash | src/utils/hash_utils.py:54-64 | the shift loop packs the above-median bits, first coefficient most significant |
| HashUtils.PHashDecode | src/utils/hash_utils.py:54-64 | the hash has one bit per coefficient, and read back most significant first bit k says whether coefficient k lies above `np.median` |
| HashUtils.NpMedianAboveLowerMiddle | src/utils/hash_utils.py:54 | `np.median` (the mean of the two middle values for an even count) is never below the lower middle value |
| HashUtils.Middle | src/utils/hash_utils.py:54 | when the two middle values are in order, the median lies between them |
| HashUtils.PHashBitsCount | src/utils/hash_utils.py:57 | the set bits are the coefficients above the median |
| HashUtils.AtMostHalfAbove | src/utils/hash_utils.py:54-57 | at most half of the coefficients lie strictly above the median |
| HashUtils.PHashAtMostHalfSet | src/utils/hash_utils.py:54-64 | at most half of the pHash bits are set |
| HashUtils.DiffRow | src/utils/hash_utils.py:98 | a row of n pixels gives n − 1 comparison bits |
| HashUtils.ComputeDHash | src/utils/hash_utils.py:98-105 | the shift loop packs the flattened comparison bits, first row first |
| HashUtils.DiffBitsLength | src/utils/hash_utils.py:98-102 | a grid of rows w + 1 pixels wide gives w bits per row |
| HashUtils.DiffBitsAt | src/utils/hash_utils.py:98-102 | the bit of row r and column j sits at position r·w + j and says whether pixel j + 1 is brighter than pixel j |
| HashUtils.DHashDecode | src/utils/hash_utils.py:98-105 | a dHash of a (w+1)-wide grid fits in rows·w bits, and read back most significant first bit r·w + j compares pixels j + 1 and j of row r |
| HashUtils.AlgorithmNamed | src/utils/hash_utils.py:122-129 | exactly "sha256", "md5" and "sha1" name an algorithm |
| HashUtils.FlattenAppend | src/utils/hash_utils.py:135-140 | hashing a list of frames in two parts feeds the same bytes as hashing it at once |
| HashUtils.ContentHash | src/utils/hash_utils.py:108-142 | an unknown algorithm is the error "Unknown algorithm: " + name; otherwise the digest of every byte of the data, in order |
| HashUtils.FrameBytes | src/utils/hash_utils.py:211 | the bytes of each frame, in order |
| HashUtils.FramePHashes | src/utils/hash_utils.py:214-217 | the pHash of each frame, in order |
| HashUtils.ComputeVideoFingerprint | src/utils/hash_utils.py:196-221 | the SHA-256 of all frame bytes, and the decimal pHashes joined by '-' |
| HashUtils.FingerprintSegments | src/utils/hash_utils.py:174-219 | splitting a fingerprint of at least one frame on '-' gives back each frame's decimal pHash, which parses to that pHash |
| HashUtils.Similarity | src/utils/hash_utils.py:174-193 | infinite distance is never similar; a finite average is non-negative and similar exactly when at most the threshold |
| HashUtils.AreVideosSimilar | src/utils/hash_utils.py:174-193 | the loop with its early exits computes `Similarity` |
| HashUtils.SimilarityCases | src/utils/hash_utils.py:177-193 | the distance is infinite exactly when the segment counts differ or a segment is not a decimal number; otherwise it is total/len and similar iff total ≤ threshold × len |
| HashUtils.SimilaritySymmetric | src/utils/hash_utils.py:174-193 | the comparison does not depend on the order of the fingerprints |
| HashUtils.FingerprintDistance | src/utils/hash_utils.py:181-219 | fingerprints of equally many frames are compared by the mean Hamming distance of their frame pHashes |
| HashUtils.FingerprintSelfSimilar | src/utils/hash_utils.py:181-219 | a fingerprint of at least one frame compared with itself gives (threshold ≥ 0, 0) |
| HashUtils.EmptyFingerprintNotSimilar | src/utils/hash_utils.py:177-219 | the fingerprint of no frames is "", whose one segment does not parse, so it is not similar even to itself |
| HashUtils.SimilarityScore | src/utils/hash_utils.py:239-246 | the score, when defined, lies in [0, 1] |
| HashUtils.SimilarityScoreCases | src/utils/hash_utils.py:239-246 | the score is undefined only for a zero maximum with a finite average, is 0 for an infinite distance, and with a positive maximum is 1 exactly at average 0 and 0 once the average reaches the maximum |
| HashUtils.FingerprintSelfScore | src/utils/hash_utils.py:239-246 | identical fingerprints of at least one frame score 1 |
| DetectionResults.Clamp | src/core/detection_result.py:78 | `max(0.0, min(1.0, x))` lies in [0, 1], is x exactly when x already does, and is the nearer end otherwise |
| DetectionResults.ClampOpt | src/core/detection_result.py:84-85 | an absent score stays absent; a present one is clamped |
| DetectionResults.Make | src/core/detection_result.py:75-85 | after construction all three scores lie in [0, 1], each is its clamped input, and every other field is kept |
| DetectionResults.MakeIdempotent | src/core/detection_result.py:75-85 | normalising an already normalised result changes nothing |
| DetectionResults.VerdictTier | src/core/detection_result.py:91-96 | the tier counts which of the cut points 0.5, 0.7 and 0.9 the confidence reaches |
| DetectionResults.VerdictTable | src/core/detection_result.py:87-107 | the verdict is one of the eight strings, picked by the deepfake flag and the confidence tier |
| DetectionResults.VerdictDistinguishes | src/core/detection_result.py:87-107 | two results share a verdict exactly when they agree on the flag and on the tier |
| DetectionResults.ConfidenceLevelMonotone | src/core/detection_result.py:109-121 | more confidence never gives a lower level |
| DetectionResults.ConfidenceLevelBands | src/core/detection_result.py:109-121 | each level is exactly the band between its cut points 0.9, 0.7, 0.5 and 0.3 |
| DetectionResults.RiskLevelCases | src/core/detection_result.py:123-135 | CRITICAL exactly for a celebrity deepfake, LOW exactly for an authentic non-celebrity, HIGH exactly for a celebrity or a deepfake at confidence ≥ 0.7 otherwise; the risk never drops when a celebrity is detected or the video is a deepfake |
| DetectionResults.FromCacheFields | src/core/detection_result.py:156-177 | a rebuilt result is always 'cached', normalised, stamped with the row's last access, and keeps the row's key, perceptual hash, verdict flag and clamped scores (fact-check score included); decodable metadata is decoded and absent, empty or undecodable metadata gives the empty object; a row without a lipsync score is an error |
| TransactionQueue.EffectiveBatchSize | shared/blockchain/transaction_manager.py:81 | the batch size never exceeds the contract's 50 and is the requested size whenever that is below 50 |
| TransactionQueue.QueuedRowsSpec | shared/blockchain/transaction_manager.py:146-153 | `get_queued` returns table rows only, each once, all QUEUED or RETRYING, ordered by `created_at`, and at most `limit` of them |
| TransactionQueue.QueuedRowsComplete | shared/blockchain/transaction_manager.py:146-153 | a waiting row left out of the result means the limit was reached and every returned row is no newer than it |
| TransactionQueue.FailRows | shared/blockchain/transaction_manager.py:243-262 | `_handle_failure` keeps the table's keys |
| TransactionQueue.FailRowsEffect | shared/blockchain/transaction_manager.py:243-262 | rows not in the failed list are unchanged; each failed row gets retries + 1, the error and the time, and becomes FAILED exactly when the new count reaches `max_retries`, RETRYING otherwise |
| TransactionQueue.OutcomeSettled | shared/blockchain/transaction_manager.py:192-219 | after a send a row is CONFIRMED exactly when the call succeeded; otherwise it is RETRYING or FAILED with one more retry; its identity, type, payload and creation time are kept |
| TransactionQueue.SendEffect | shared/blockchain/transaction_manager.py:192-219 | sending a list of distinct rows settles exactly those rows and leaves every other row alone |
| TransactionQueue.Dispatch | shared/blockchain/transaction_manager.py:221-237 | a known transaction type goes to the client call of that name with the payload; any other type fails with "Unknown tx_type: …" |
| TransactionQueue.ChunksSpec | shared/blockchain/transaction_manager.py:180-186 | the chunks of the batchable rows concatenate back to them in order; every chunk is non-empty and at most `batch_size` long, and all but the last are exactly `batch_size` |
| TransactionQueue.ChunkStep | shared/blockchain/transaction_manager.py:183-185 | each chunk is the next `batch_size` slice (or the rest) of what remains |
| TransactionQueue.PartitionMembers | shared/blockchain/transaction_manager.py:178-179 | the batchable rows are exactly the pending `register_video` rows and the individual ones exactly the others, each without duplicates |
| TransactionQueue.SendChunksEffect | shared/blockchain/transaction_manager.py:183-186 | sending the chunks settles each batched row and leaves rows not in any chunk alone |
| TransactionQueue.SendSinglesEffect | shared/blockchain/transaction_manager.py:188-190 | sending the individual rows one by one gives each the outcome of its own dispatch and leaves other rows alone |
| TransactionQueue.ProcessedTableEffect | shared/blockchain/transaction_manager.py:173-190 | one pass of `process_queue` keeps the keys, leaves non-pending rows unchanged, gives each individual row its dispatch outcome and settles each batchable row (leaving it as it was when the batch size is negative) |
| TransactionQueue.BatchPhaseEffect | shared/blockchain/transaction_manager.py:183-186 | with a positive batch size each batchable row is settled by its chunk's call and no other row changes; otherwise nothing changes |
| TransactionQueue.ProcessedUntouched | shared/blockchain/transaction_manager.py:173-190 | a pass keeps the table's keys and leaves every row it does not send unchanged |
| TransactionQueue.ProcessedSent | shared/blockchain/transaction_manager.py:173-190 | after a pass each individual row holds the outcome of its own dispatch and each batchable row is settled (or untouched under a negative batch size) |
| TransactionQueue.PurgedSpec | shared/blockchain/transaction_manager.py:364-374 | a row is deleted exactly when it is CONFIRMED or FAILED and was last updated before the cutoff; every other row is kept unchanged |
| TransactionQueue.RequeuedSpec | shared/blockchain/transaction_manager.py:376-386 | every FAILED row becomes QUEUED with retries 0 and an empty error; other rows are unchanged; no FAILED row remains |
| TransactionQueue.Nonces | shared/blockchain/transaction_manager.py:345-352 | one nonce per call |
| TransactionQueue.NoncesAfterReset | shared/blockchain/transaction_manager.py:345-358 | after a reset the first call reads the chain count and each later call hands out the next integer |
| TransactionQueue.NoncesCountUp | shared/blockchain/transaction_manager.py:349-351 | with a cached nonce, successive calls hand out consecutive integers |
| TransactionQueue.TransactionManager.constructor | shared/blockchain/transaction_manager.py:69-96 | an empty queue, no cached nonce, the batch size capped at 50 |
| TransactionQueue.TransactionManager.Enqueue | shared/blockchain/transaction_manager.py:131-144 | adds exactly one QUEUED row with retries 0 under a fresh id and returns that id |
| TransactionQueue.TransactionManager.GetQueued | shared/blockchain/transaction_manager.py:146-153 | the scan loop returns the waiting rows in `created_at` order, cut to the limit |
| TransactionQueue.TransactionManager.GetStatus | shared/blockchain/transaction_manager.py:155-159 | a row is returned exactly when its id is in the table, and it is that row |
| TransactionQueue.TransactionManager.UpdateStatus | shared/blockchain/transaction_manager.py:268-277 | the listed rows get the new status and time; nothing else changes |
| TransactionQueue.TransactionManager.UpdateConfirmed | shared/blockchain/transaction_manager.py:279-293 | the listed rows become CONFIRMED with the receipt's hash, gas and block; nothing else changes |
| TransactionQueue.TransactionManager.HandleFailure | shared/blockchain/transaction_manager.py:243-262 | the table becomes the failure update of the listed rows |
| TransactionQueue.TransactionManager.SendRows | shared/blockchain/transaction_manager.py:192-219 | PENDING, then CONFIRMED or failed by the call's result |
| TransactionQueue.TransactionManager.ProcessQueue | shared/blockchain/transaction_manager.py:173-190 | nothing happens when nothing is pending; a zero batch size raises before any row changes; otherwise the table becomes the processed table |
| TransactionQueue.TransactionManager.SendBatches | shared/blockchain/transaction_manager.py:183-186 | the chunk loop sends every chunk in order |
| TransactionQueue.TransactionManager.SendEach | shared/blockchain/transaction_manager.py:188-190 | the single-row loop sends every row in order |
| TransactionQueue.TransactionManager.GetNonce | shared/blockchain/transaction_manager.py:345-352 | the chain count when nothing is cached, the cached nonce + 1 otherwise; the result is cached |
| TransactionQueue.TransactionManager.ResetNonce | shared/blockchain/transaction_manager.py:354-358 | the cached nonce is dropped and nothing else changes |
| TransactionQueue.TransactionManager.PurgeCompleted | shared/blockchain/transaction_manager.py:364-374 | the table becomes the purged table with cutoff now − hours × 3600 |
| TransactionQueue.TransactionManager.RetryFailed | shared/blockchain/transaction_manager.py:376-386 | the table becomes the re-queued table |
| PiLocalCache.KeyFamiliesDisjoint | blockchain-pi/src/local_cache.py:20-22 | video keys, upload-counter keys and the node-stats key never collide |
| PiLocalCache.Excess | blockchain-pi/src/local_cache.py:132-135 | eviction drops nothing at or under the limit, and exactly enough of the oldest keys to come down to the limit above it (everything for a negative limit) |
| PiLocalCache.RestrictDropFirst | blockchain-pi/src/local_cache.py:136-138 | deleting the oldest listed key from the dictionary is the same as no longer listing it |
| PiLocalCache.SetVideoBound | blockchain-pi/src/local_cache.py:63-69 | after a video write the dictionary holds at most `max_entries` keys, and a dictionary within the limit is left alone |
| PiLocalCache.NewVideoSurvives | blockchain-pi/src/local_cache.py:132-138 | under a positive limit a newly added video is never evicted by its own write |
| PiLocalCache.RewrittenVideoEvicted | blockchain-pi/src/local_cache.py:132-138 | a rewritten video keeps its old position, so when the cache is over its limit and that position is among the oldest, the write evicts the very record it stored |
| PiLocalCache.LocalCache.Size | blockchain-pi/src/local_cache.py:121-124 | the number of entries is the number of keys in order |
| PiLocalCache.LocalCache.constructor | blockchain-pi/src/local_cache.py:24-44 | an empty dictionary with the given limit |
| PiLocalCache.LocalCache.GetVideo | blockchain-pi/src/local_cache.py:50-61 | a record is returned exactly when the video key is present, and it is the stored record |
| PiLocalCache.LocalCache.EnforceMemoryLimit | blockchain-pi/src/local_cache.py:132-138 | the oldest keys are dropped, in insertion order, until the limit holds; the surviving entries are unchanged |
| PiLocalCache.LocalCache.SetVideo | blockchain-pi/src/local_cache.py:63-69 | the record is stored (a new key goes last, a known key keeps its place) and the limit is then enforced |
| PiLocalCache.LocalCache.DeleteVideo | blockchain-pi/src/local_cache.py:71-76 | the video key is gone afterwards and nothing else changes; a missing key is no error |
| PiLocalCache.LocalCache.GetIpUploadCount | blockchain-pi/src/local_cache.py:93-98 | 0 for a pair never seen, the stored count otherwise |
| PiLocalCache.LocalCache.RecordIpUpload | blockchain-pi/src/local_cache.py:82-91 | the count for the pair goes up by one and is returned; no eviction happens |
| PiLocalCache.LocalCache.GetStats | blockchain-pi/src/local_cache.py:111-115 | the node counters, or the empty map before the first increment |
| PiLocalCache.LocalCache.IncrementStat | blockchain-pi/src/local_cache.py:104-109 | one counter goes up by `amount` (an absent one starts from 0) and the others are unchanged |
| PiLocalCache.LocalCache.Clear | blockchain-pi/src/local_cache.py:126-130 | the dictionary is empty afterwards |
| LoadBalancing.Available | blockchain-laptop/network/load_balancer.py:58-59 | the available list holds exactly the healthy hosts below their job limit, in dictionary order |
| LoadBalancing.LatencyKey | blockchain-laptop/network/load_balancer.py:83 | the measured latency when positive, otherwise the positive stand-in 9999 |
| LoadBalancing.Choose | blockchain-laptop/network/load_balancer.py:64-83 | round robin takes the slot after the stored index; `least_loaded` and `lowest_latency` take the first host of least key, as `min` does; `random` takes the slot the random source names; an unknown strategy takes the first host |
| LoadBalancing.JobStarted | blockchain-laptop/network/load_balancer.py:85-89 | one more active job, the rest of the record unchanged |
| LoadBalancing.JobCompleted | blockchain-laptop/network/load_balancer.py:91-95 | one job fewer, never below 0, the rest of the record unchanged |
| LoadBalancing.CompletedUndoesStarted | blockchain-laptop/network/load_balancer.py:85-95 | a completed job undoes a started one on any record with a non-negative count |
| LoadBalancing.RoundRobinIndex | blockchain-laptop/network/load_balancer.py:75-77 | after at least one selection the stored index is a valid slot |
| LoadBalancing.RoundRobinWalk | blockchain-laptop/network/load_balancer.py:75-77 | from a valid slot successive selections walk up by one and wrap once |
| LoadBalancing.RoundRobinShift | blockchain-laptop/network/load_balancer.py:75-77 | t selections are one selection followed by t − 1 more |
| LoadBalancing.RoundRobinVisitsAll | blockchain-laptop/network/load_balancer.py:75-77 | over an unchanged set of n available hosts, every host is chosen within n selections |
| LoadBalancing.LoadBalancer.constructor | blockchain-laptop/network/load_balancer.py:32-36 | no hosts and a stored index of 0 |
| LoadBalancing.LoadBalancer.UpdateHost | blockchain-laptop/network/load_balancer.py:38-48 | a fresh healthy record replaces or adds the host; a new host goes last in the order |
| LoadBalancing.LoadBalancer.RemoveHost | blockchain-laptop/network/load_balancer.py:50-53 | the host is gone afterwards; removing an unknown host changes nothing |
| LoadBalancing.LoadBalancer.SelectHost | blockchain-laptop/network/load_balancer.py:55-77 | None exactly when no host is usable; otherwise a usable host, the one `Choose` picks, with the stored index advanced only by round robin |
| LoadBalancing.LoadBalancer.MarkJobStarted | blockchain-laptop/network/load_balancer.py:85-89 | a known host gets one more job; an unknown id is ignored |
| LoadBalancing.LoadBalancer.MarkJobCompleted | blockchain-laptop/network/load_balancer.py:91-95 | a known host gets one job fewer, floored at 0; an unknown id is ignored |
| AlertListening.DefaultSubscriptions | shared/alerts/alert_listener.py:67-91 | six built-in subscriptions in registration order, each starting at the current block, or at block 0 when the lookup fails |
| AlertListening.Window | shared/alerts/alert_listener.py:180-184 | nothing to fetch once the cursor has reached the head; otherwise the window starts right after the cursor, ends at the head or after `max_blocks_per_poll` blocks, whichever comes first |
| AlertListening.PollOne | shared/alerts/alert_listener.py:179-211 | a poll changes only the cursor; a subscription at the head, or on a contract the lookup does not know, is left as it was with no logs; the cursor only moves forward, and never past the head |
| AlertListening.Deliveries | shared/alerts/alert_listener.py:191-196 | every handler call names one of the polled subscriptions |
| AlertListening.EveryLogDelivered | shared/alerts/alert_listener.py:191-198 | a failing handler stops nothing: every fetched log of every subscription reaches its handler |
| AlertListening.CursorCatchesUp | shared/alerts/alert_listener.py:180-198 | with a positive window size, each successful poll moves a lagging cursor at least one block and never past the head, so t polls bring it within reach of the head |
| AlertListening.HandlerAlert | shared/alerts/alert_listener.py:97-169 | nothing without a notifier; with one, a new deepfake alerts DEEPFAKE_DETECTED at HIGH, a same-IP re-upload SAME_IP_REUPLOAD at HIGH and a viral spread VIRAL_SPREAD at CRITICAL; a re-detection alerts VIDEO_REDETECTED at MEDIUM only from the third detection; a geographic spread alerts CRITICAL exactly from five countries and HIGH below; the audit handler and external callbacks send nothing |
| AlertListening.AlertListener.constructor | shared/alerts/alert_listener.py:36-50 | the listener starts with the built-in subscriptions |
| AlertListening.AlertListener.Subscribe | shared/alerts/alert_listener.py:56-65 | appends one subscription starting at the current block |
| AlertListening.AlertListener.PollOnce | shared/alerts/alert_listener.py:175-203 | every subscription is polled in order, each cursor becomes its `PollOne` result, and the handler calls are all fetched logs in subscription order |
| AlertListening.AlertListener.HandOver | shared/alerts/alert_listener.py:191-196 | the handler is called once per fetched log, in log order, after the calls made before |
| AlertListening.AlertListener.Notifications | shared/alerts/alert_listener.py:97-169 | at most one notification per handler call, none without a notifier |
| Notifications.Priority | shared/alerts/notification_service.py:42-80 | ranks lie in 0..3, an unknown severity ranks 0 like LOW, and only CRITICAL ranks 3 |
| Notifications.SeverityFilter | shared/alerts/notification_service.py:80-82 | whatever passes the filter, every alert at least as severe passes too; CRITICAL always passes; a minimum ranked 0 lets everything through; a suppressed alert is never CRITICAL and needs a minimum of MEDIUM or above |
| Notifications.Setting | shared/alerts/notification_service.py:58-66 | a non-empty argument wins; otherwise the environment variable, or "" when it is unset |
| Notifications.MakeRecord | shared/alerts/notification_service.py:213-226 | the record keeps the first 200 characters of the message (all of a shorter one) and every other field as given |
| Notifications.Appended | shared/alerts/notification_service.py:217-218 | a deque append keeps the newest `maxlen` items with the new one last, and simply appends while there is room |
| Notifications.AppendedAll | shared/alerts/notification_service.py:69 | appending records one by one keeps exactly the newest `maxlen` of the history followed by the new records |
| Notifications.KeepLast | shared/alerts/notification_service.py:69 | the newest `maxlen` items, in order |
| Notifications.DeliveryRecords | shared/alerts/notification_service.py:118-128 | one record per channel sent to, in order, marked successful exactly when that channel's delivery did not fail |
| Notifications.DeliveryRecordAt | shared/alerts/notification_service.py:148-207 | the record for channel i is the one `_record` makes from that channel's outcome and error text |
| Notifications.NotificationService.constructor | shared/alerts/notification_service.py:44-69 | each empty argument falls back to its environment variable; the history starts empty |
| Notifications.NotificationService.ChannelStatus | shared/alerts/notification_service.py:105-112 | telegram needs a token and a chat id, discord a webhook, email a host and a recipient; console is always on |
| Notifications.NotificationService.DispatchChannels | shared/alerts/notification_service.py:118-128 | the channels sent to are exactly the configured external ones, each once |
| Notifications.NotificationService.GetHistory | shared/alerts/notification_service.py:101-103 | the newest `limit` records for a positive limit, all of them for 0, all but the first `-limit` for a negative one; always a suffix of the history |
| Notifications.NotificationService.Record | shared/alerts/notification_service.py:213-226 | the history becomes the deque append of the new record |
| Notifications.NotificationService.DispatchAll | shared/alerts/notification_service.py:118-128 | one delivery and one record per configured channel, in order |
| Notifications.NotificationService.SendAlert | shared/alerts/notification_service.py:76-128 | a suppressed alert sends nothing and leaves the history alone; otherwise it goes to exactly the configured external channels, and the history keeps the newest records |
| Web3Helpers.FromHex | shared/blockchain/web3_client.py:105 | `bytes.fromhex`: in the strict variant every two hex digits give one byte |
| Web3Helpers.Padded64 | shared/blockchain/web3_client.py:104-105 | the text handed to `bytes.fromhex` is always 64 characters long |
| Web3Helpers.Bytes32 | shared/blockchain/web3_client.py:102-105 | as written, the conversion yields at most 32 bytes or an error; fewer when the text holds whitespace |
| Web3Helpers.Bytes32Strict | shared/blockchain/web3_client.py:102-105 | the corrected conversion yields exactly 32 bytes or an error |
| Web3Helpers.HexOfBytes | shared/blockchain/web3_client.py:110 | `b.hex()`: two hex digits per byte, never 'x' and never whitespace |
| Web3Helpers.ToHex | shared/blockchain/web3_client.py:108-110 | "0x" followed by two digits per byte |
| Web3Helpers.FromHexOfBytes | shared/blockchain/web3_client.py:105-110 | parsing the hex of any byte string gives it back |
| Web3Helpers.Bytes32RoundTrip | shared/blockchain/web3_client.py:102-110 | `_bytes32(_to_hex(b)) == b` for every 32-byte value, as written and corrected |
| Web3Helpers.Bytes32ShortOnWhitespace | shared/blockchain/web3_client.py:102-105 | as written, two spaces convert to 31 bytes, not 32; the corrected conversion rejects them |
| Web3Helpers.Trunc | shared/blockchain/web3_client.py:120-130 | Python's `int()` on a float truncates toward zero, within one of the value |
| Web3Helpers.ScaleConfidence | shared/blockchain/web3_client.py:118-120 | basis points always lie in 0..10000; a percentage in range gives its hundredths rounded down, and anything outside clamps to an end |
| Web3Helpers.ConfidenceRoundTrip | shared/blockchain/web3_client.py:118-125 | basis points survive a round trip, and a percentage in range comes back within 0.01 below itself |
| Web3Helpers.GeoRoundTrip | shared/blockchain/web3_client.py:128-135 | micro-degrees survive a round trip exactly, and a coordinate comes back within a micro-degree, moved toward zero |
| Web3Helpers.LoadContractCheck | shared/blockchain/web3_client.py:240-241 | an empty address is exactly the "No address for …" error |
| Web3Helpers.BatchRegisterArgs | shared/blockchain/web3_client.py:348-370 | more than 50 videos is "Batch size exceeds 50"; an invalid content hash is an error; otherwise seven columns as long as the input, each column the converted field (basis points, hashed IP with "0.0.0.0" as default, "" for missing country or city) |
| Web3Helpers.ClientFromEnv | shared/blockchain/web3_client.py:746-781 | no client without web3, without an RPC URL, without a key, with a placeholder key or with an unparsable chain id; when every guard passes, the configuration read from the environment (PRIVATE_KEY preferred to WALLET_PRIVATE_KEY, chain id 137 by default, each contract address as set or None), returned exactly when the client constructor accepts it |
| PiVideoAnalyzer.SegmentIsTopHalf | blockchain-pi/src/video_analyzer.py:421-422 | keeping the first 8 of the 16 zero-filled hex digits keeps exactly the upper 32 bits of the frame hash: 8 upper-case digits, no '-', parsing back to `h / 16^8` |
| PiVideoAnalyzer.FrameHash | blockchain-pi/src/video_analyzer.py:415-421 | the frame hash of 64 median-threshold bits is below 16^16 |
| PiVideoAnalyzer.Segments | blockchain-pi/src/video_analyzer.py:413-422 | one segment per frame |
| PiVideoAnalyzer.ComputePerceptualHash | blockchain-pi/src/video_analyzer.py:410-423 | the loop produces the segments of all frames joined by '-' |
| PiVideoAnalyzer.PerceptualHashSegments | blockchain-pi/src/video_analyzer.py:410-423 | the perceptual hash of at least one frame splits back at '-' into one segment per frame, each 8 digits parsing to the top half of that frame's hash |
| PiVideoAnalyzer.Linspace | blockchain-pi/src/video_analyzer.py:167 | `np.linspace(0, N - 1, F, dtype=int)` gives F positions from 0 to N − 1, non-decreasing and inside the video |
| PiVideoAnalyzer.SampleIndices | blockchain-pi/src/video_analyzer.py:162-167 | no positions for a video reporting no frames; `max_frames` positions inside the video otherwise, the first and last frames included from two positions up; a negative `max_frames` is an error |
| PiVideoAnalyzer.ReadAt | blockchain-pi/src/video_analyzer.py:170-178 | a failed read is skipped, so never more frames than positions |
| PiVideoAnalyzer.ConfidenceBounds | blockchain-pi/src/video_analyzer.py:128-135 | the weights sum to one: scores on the 0–100 scale give a confidence on that scale, and raising any score never lowers the confidence |
| PiVideoAnalyzer.LipsyncScore | blockchain-pi/src/video_analyzer.py:139 | `max(0, 100 - optical_flow)`: never negative, and on the 0–100 scale for an optical-flow score on it |
| PiVideoAnalyzer.Analyze | blockchain-pi/src/video_analyzer.py:65-156 | a missing file, an oversized file and a file the decoder cannot open give their error results (the last with the file's SHA-256 and 0 frames); for an opened file the frame count is the number of frames read at the sampled positions, fewer than two read give "Not enough frames extracted" with the file's SHA-256, the analysis succeeds exactly when at least two were read, and then the perceptual hash is the '-'-joined top-half segments of those frames and the scores are the extractors' scores of those frames; a successful analysis has at least two frames, the file's SHA-256, the weighted confidence, the deepfake flag exactly at or above the threshold and the lipsync score from optical flow; every error result has an empty perceptual hash, no deepfake flag and confidence 0; "Not enough frames extracted" means fewer than two frames |
| GeoUtils.ListedInRange | src/utils/geo_utils.py:138-146 | each listed prefix lies in a loopback, private or unspecified range |
| GeoUtils.RangeIsListed | src/utils/geo_utils.py:140-143 | every 172.16.–172.31. address starts with one of the listed prefixes |
| GeoUtils.PrivateIpIsRange | src/utils/geo_utils.py:138-146 | an address counts as private exactly when it is written in the 127/8, 10/8, 172.16/12, 192.168/16 or 0.0 ranges, or is "localhost…" or "::1…" |
| GeoUtils.Private172Boundary | src/utils/geo_utils.py:140-143 | 172.31.x is private and 172.32.x is not |
| GeoUtils.IpHash | src/utils/geo_utils.py:75-77 | the address hash is the first 16 digits of its SHA-256 hex digest |
| GeoUtils.DemoLocation | src/utils/geo_utils.py:148-166 | every demo location is Vellore, India (IN), filed under the caller's hash |
| GeoUtils.DemoLocationFixed | src/utils/geo_utils.py:148-166 | demo locations differ only in the hash, and two are equal exactly when the hashes are |
| GeoUtils.FromReply | src/utils/geo_utils.py:116-127 | the location carries the address hash, and a missing country code or country name becomes "XX" or "Unknown" |
| GeoUtils.GeoIPService.constructor | src/utils/geo_utils.py:64-73 | an empty cache with the given TTL |
| GeoUtils.GeoIPService.Lookup | src/utils/geo_utils.py:86-136 | a private address gets the demo location without a request; a cached entry younger than the TTL is returned unchanged; otherwise a successful reply is built, cached with its arrival time and returned, and any failure gives the demo location and leaves the cache alone |
| GeoUtils.RegionalIndicator | src/utils/geo_utils.py:229-262 | each upper-case letter maps into the regional indicator block U+1F1E6–U+1F1FF |
| GeoUtils.CountryFlag | src/utils/geo_utils.py:265-267 | a code not in the table gives the white flag |
| GeoUtils.CountryFlagSpec | src/utils/geo_utils.py:265-267 | the lookup ignores case; a listed code's flag reads back as that code; the white flag is returned exactly for codes not in the table; two codes share a country flag only when they are the same code ignoring case |
| GeoUtils.FlagReadsBack | src/utils/geo_utils.py:229-262 | the two regional indicators of a listed code read back as the code |
| WebApp.FileExtension | web/app.py:369 | the routing extension is the lower-cased text after the last '.', so it never contains a '.' |
| WebApp.LowerAfterLast | web/app.py:199 | lower-casing commutes with taking the text after the last '.', so the gate and the routing read the same extension |
| WebApp.AllowedFileSpec | web/app.py:196-199 | an accepted name ends in '.' followed by one of the twelve extensions in any case; a name without '.' or ending in '.' is refused |
| WebApp.AllowedFileAccepts | web/app.py:196-199 | any name followed by '.' and an extension without '.' is accepted exactly when the lower-cased extension is one of the twelve |
| WebApp.SavedPath | web/app.py:337-338 | the saved path ends in '_' followed by the sanitised name |
| WebApp.RoutingOfSavedUploads | web/app.py:337-373 | the saved upload is routed on its sanitised name: with a '.', it is hashed as an image exactly when the lower-cased text after the name's last '.' is an image extension; without a '.', it is always hashed as a video |
| WebApp.RoutingOfAcceptedUploads | web/app.py:334-373 | an accepted upload whose sanitised name equals the client's name is hashed as an image exactly when the extension the gate accepted is an image extension, and otherwise carries one of the seven video extensions |
| WebApp.DotNameRoutedAsVideo | web/app.py:334-373 | the name ".png" passes the gate, but once sanitised to "png" it is hashed as a video |
| Numerals.HexFixedRoundTrip | src/core/video_hash_cache.py:276-282 | the fixed-width hex digits of a number that fits read back as that number |
| Numerals.ParseHexMinimal | blockchain-pi/src/video_analyzer.py:421 | `hex(n)[2:]` parses back to n |
| Numerals.HexFixedIsZFilled | blockchain-pi/src/video_analyzer.py:421 | for a number that fits, `hex(n)[2:].zfill(w)` is its fixed-width rendering |
| Numerals.DecimalRoundTrip | src/utils/hash_utils.py:183-217 | `int(str(n)) == n` for every natural number |
| Text.SplitJoin | src/utils/hash_utils.py:174-219 | splitting a join of parts free of the separator gives the parts back |
| Text.LastPartOfSplit | web/app.py:369 | the last part of a split is the text after the last separator |
| Sorting.SortBySorted | src/tracking/deepfake_origin_finder.py:434 | the sort returns its input ordered by the key, for any total preorder |
| Sorting.SortByPermutation | src/tracking/deepfake_origin_finder.py:434 | the sort returns a permutation of its input |
| Sorting.FirstMinIndexIsFirstMinimum | src/tracking/deepfake_origin_finder.py:454 | `min(..., key=...)` returns the first element whose key is not above any other |

## Left out

- The DCT, the frame decoding and the feature extractors (OpenCV, numpy, scipy) are not modelled: DCT coefficients, frames and feature scores are inputs.
- SHA-256, MD5 and SHA-1 digests, and JSON encoding and decoding, are function parameters; their own properties are not modelled.
- Floating-point values (confidence, scores, distances, geo coordinates) are `real`; IEEE rounding is not modelled.
- Clocks (`datetime.now()`, `time.time()`) are parameters; the rate limiter's sleep and every other delay are not modelled.
- SQLite connections, thread-local handles and commit/rollback are not modelled; each table is a `map` and each cursor block one atomic update.
- The background worker loops (transaction worker, alert polling thread) and the fire-and-forget notification dispatch are not modelled: concurrency is outside the model.
- The Redis branch of the Pi cache and the Redis size query are not modelled; only the in-memory fallback is.
- Network calls (web3 contract calls, the geo-IP HTTP request, telegram and e-mail sending, host health checks) are oracle parameters; their failure modes are a `None` or an error result.
- The transaction manager's `get_stats` and the cache's size-on-disk figure are not modelled, nor are the Pi cache's info and export helpers.
- Python `int()` also accepts a sign, surrounding whitespace, a `0x` prefix and underscores; the decimal and hex parsers here accept plain digit strings only.
- The figures inside the "File too large" message are not modelled; the error result and its empty hashes are.
- The Pi analyzer's frame sampling truncates `numpy.linspace` fractions; the model states the truncated indices as integer division and does not model floating-point spacing.
- The unreachable code after the `return` in `_get_demo_location` is not modelled, nor is the timestamp field of a geo location.
- Upper- and lower-casing act on ASCII letters only; Unicode case mapping is not modelled.
- The band count of the fingerprint cache is limited to the five band columns of its table.
- `record_spread_event` stores an event for any fingerprint, known or not, as the code does; the model does not add an existence check.
- The file-based mutation tags of `_detect_mutations` (`heavy_compression` and `light_compression` from the Laplacian variance of the first frame, `possible_watermark` from the border edge density) are an input list, because they need OpenCV; only the hash-distance tags are computed.
- Python set iteration order (LSH candidate sets) is a nondeterministic choice; the contracts hold for every order.
- `trace_deepfake_origin` is not modelled.
- Web3Helpers.BatchRegisterArgs: converts content hashes with the corrected 32-byte conversion (Bytes32Strict) rather than the `_bytes32` the code calls, so a content hash holding whitespace is an error here where the code would pass a value shorter than 32 bytes.
- Rows of the transaction queue created at the same instant are returned in id order; SQLite's `ORDER BY created_at` leaves their order open, so this is a chosen tie-break, not the program's.
- Notifications.NotificationService.constructor: takes the history size as a natural number; a negative `history_size`, for which `deque(maxlen=...)` raises ValueError, is not modelled.
- OriginTracking.OriginFinder.constructor: requires a non-zero band count, because every band computation divides by it; the code accepts zero and fails later with a division by zero in `_compute_lsh_bands`.
- WebApp.SavedPath: werkzeug's `secure_filename` and the upload timestamp are parameters (the sanitised name and a natural number); the sanitiser's own rules are not modelled.
- Sorting.SortBySorted: stability of the sort is used through the first-minimum lemma but not stated as its own contract.
- Web3Helpers.FromHex: with whitespace skipping, the length of the result is not related to the number of non-space characters.

## Findings

| source | as written | input that shows it | evidently intended | confidence | as-written member | corrected member |
|---|---|---|---|---|---|---|
| shared/blockchain/web3_client.py:102-105 | `bytes.fromhex` skips whitespace, so `_bytes32` of a text holding spaces yields fewer than 32 bytes | two spaces, which pad to two spaces and 62 zeros and give 31 bytes | exactly 32 bytes or an error | medium, not executed | Web3Helpers.Bytes32ShortOnWhitespace | Web3Helpers.Bytes32Strict |
