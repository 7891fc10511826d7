# A verified model of SFCaS

SFCaS merges many small files into one big file, keeps an index file beside it, and serves the
merged files again through a user-space file system. Look-ups go through a learned index (SIndex).
A name server spreads the requests over groups of data servers and watches their health.

This project models those three parts in Dafny and proves that they do what they are for.

- **The learned index** (`StrKey`, `FeatureSlice`, `Grouping`, `SIndexGroup`, `SIndexRoot`,
  `SIndexModel`, `Training`, `HangingQuery`, `ModelFile`). Sorted names are cut greedily into groups; a group keeps a byte slice,
  a trained model and its worst errors; a look-up predicts a group and a position and corrects both
  by searching. The trained predictors are arbitrary functions (`Numerics`), so the results hold
  whatever the floating-point code computes. Main results: `LookupCorrect` (the index agrees with a
  search of the whole list), `SearchExitsIff` and `GetHangsIff` (exactly when the binary search is
  left), `GreedyCuts` and `GreedyUnique` (the one list of groups), `SliceDiscriminates` and
  `SliceTight`, `SaveAndReload`. The regression itself is modelled over exact reals: its closed form
  is the least-squares line, the weights placed after solving for the varying features are the best
  of all (`PlacedIsBest`), and training never divides by zero or aborts on distinct keys.
- **Combine, index file and read path** (`CFile`, `Needles`, `Combine`, `Sfcas`). Main results:
  the index file round-trips, the recorded slices tile the big file, and `CombineAndServe`:
  after combining a directory and loading it, the reply to every call is determined, and that to
  a read of a merged file has the file's own bytes, whatever the one-entry cache holds.
- **The name server** (`AccessHeap`, `HealthCheck`, `Cluster`, `Availability`, `Fairness`,
  `Counters`, `DataClusters`, `Metadata`, `NameServers`). `Cluster` and `Metadata` give each handler and each
  health round as one atomic step; the classes `DataCluster` and `NameServer` are proved to take
  those steps. Main results: `RunKeeps`, `SafeGapIff` (the largest gap between health rounds that is
  safe, exactly), `DeletedFromTail`, `RunAvailableIff` (exactly when every living server can be
  reached), `FairShare`, `CountersAre` and `ServerRunMetaIff`.

A class is used where the source updates an object in place (`Group`, `Root`, `Mount`, `File`,
`HealthCheckClient`, `DataCluster`, `NameServer`); each of its methods is tied to a function or a
step relation over values, and the properties are proved about those.

## Where the code falls short of its description

The code is modelled as it is. These are the places where it does less than it seems to promise.

- The binary search of a group may never end. It cannot for a stored name; for an absent one it
  happens exactly under the condition of `GetHangsIff`. `HangingQueryExists` gives an instance: with
  the files a, b, c, d and n stored, looking up "o" hangs on the line that the regression fits.
  Such a look-up is the outcome `Hangs` (`Stuck` for a call on the file system).
- The record's size field has 4 bytes, but the copy loop counts in a 32-bit `int`: it ends exactly
  for files below 2 GiB (`CopyEndsIff`, with wrap-around on overflow). The results about a combined
  directory therefore hold below 2 GiB, not 4 GiB.
- Reads are not cut off at a file's end and run on into the next file. `MergedFileContents` gives
  exactly the reads that return the file's own bytes and nothing else.
- The repository's own README.md allows names of up to 255 bytes; the key buffer holds 50
  (`SetKeyFitsIff`).
- A living server may be out of reach: in the unavailable tail, never chosen, and refused as a
  duplicate when it connects again (`StrandedStays`). This happens in exactly two ways
  (`StepAvailableIff`, `RunAvailableIff`): a failed server recovers inside a health round, or
  `set_ready` is called while the tail is not empty. `RecoveryRun` and `UploadRun` reach both.
- A deleted server is looked for in the tail only. With rounds too far apart an available server
  is deleted and its address stays in the heap (`LongGapBreaks`). The exact bound is
  TIMEOUT - CHECK_BASE seconds from the start of one round to the end of the next: 52 in the
  configuration, where the pause between rounds is 10.
- An upload to a group without a server makes the assertion in `get_least_access` fail on the next
  request (`UploadKeepsMetaIff`, `LateUploadBreaks`, `ServerRunMetaIff`); no handler checks for it.
- The constructors of the index accept equal neighbours, but then the slice may leave the key
  buffer (`SliceInBufferIff`).

## Model

| member | source | states |
|---|---|---|
| StrKey.KeyNameInverse | include/strkey.h:28-53 | a key buffer and the name stored in it determine each other |
| StrKey.SetKeyFitsIff | include/strkey.h:44-49 | the writes of `set_key` stay in the buffer exactly for names of up to 50 bytes |
| StrKey.SetKey | include/strkey.h:44-49 | clearing, copying and ending leave the padded key of the name |
| StrKey.FirstDiffIs | include/sindex/sindex_util.h:42-49 | the first difference has equal bytes before it and unequal bytes at it |
| StrKey.CommonPrefixLength | include/sindex/sindex_util.h:42-49 | the loop returns the distance to the first difference within both lengths |
| StrKey.StrNCmpIsFirstDiff | include/strkey.h:74-76 | on padded buffers the comparison that stops at NUL is decided by the first differing byte, wherever the slice starts |
| StrKey.SliceLessChain | include/strkey.h:74-76 | slice order is transitive; the outer pair first differs where the nearer inner pair does |
| StrKey.KeyOrderTotal | include/strkey.h:78-95 | the full comparison is a strict total order whose equality is equality of buffers |
| StrKey.SliceDecides | include/strkey.h:74-80 | if two keys first differ inside a slice, comparing the slices is comparing the keys |
| FeatureSlice.PairLcp | src/sindex/sindex_group.cpp:72-92 | in a sorted run any two keys, not only neighbours, are ordered, and their common prefix lies between the least and the greatest of the adjacent ones |
| FeatureSlice.SliceDiscriminates | src/sindex/sindex_group.cpp:65-95 | the recorded slice stays inside the buffer and is strictly increasing over all pairs of a group |
| FeatureSlice.SliceTight | src/sindex/sindex_group.cpp:65-95 | no shorter slice would do: the prefix is common to all keys and as long as possible, and any shorter feature leaves two neighbours alike |
| FeatureSlice.AdjacentExtremes | src/sindex/sindex_group.cpp:72-89 | the two recorded lengths are the least neighbour prefix and the greatest one that counts, for arbitrary keys |
| FeatureSlice.SliceInBufferIff | src/sindex/sindex_group.cpp:65-95 | for arbitrary keys, duplicates included, the slice stays in the buffer exactly when the first two keys differ |
| FeatureSlice.PartialKeyLen | src/sindex/sindex_root.cpp:293-323 | the scan with a running minimum computes the least adjacent prefix and the longest one, duplicates skipped |
| Grouping.GreedyIsPartition | src/sindex/sindex_root.cpp:149-240 | the pivots partition the keys; every group but the last has at least `min_size - bstep` keys, and its true feature length is within the bound or it has exactly `min_size` keys |
| Grouping.GroupEndCuts | src/sindex/sindex_root.cpp:178-230 | a group grows to the first forward step whose feature reaches the bound and shrinks to the first backward step whose estimate is within it, or to the minimum size if that is undercut first; or it passes the last key before any feature reaches the bound |
| Grouping.GreedyCuts | src/sindex/sindex_root.cpp:169-239 | every group but the last ends at its cut; the last one has its cut at the end of the keys or passes them |
| Grouping.GreedyUnique | src/sindex/sindex_root.cpp:169-239 | no other list of pivots does that |
| Grouping.FewKeys | include/sindex/sindex_util.h:28-31 | fewer than 550 keys stay in one group |
| Grouping.PartialKeyLenByStep | src/sindex/sindex_root.cpp:244-289 | prefix lengths over the requested range; a memo hit answers for one key more |
| Grouping.GrowGroup | src/sindex/sindex_root.cpp:178-201 | forward steps end where the specification says, with the exact feature length, and never read past the end |
| Grouping.ShrinkGroup | src/sindex/sindex_root.cpp:205-230 | backward steps, answered from the memo, and the forced jump to the minimum size end at the specified cut |
| Grouping.GroupingByPartialKey | src/sindex/sindex_root.cpp:149-240 | the memoised nested loops end and yield the one greedy list of pivots |
| SIndexGroup.BinarySearchKey | src/sindex/sindex_group.cpp:161-178 | under the exact halting condition the hinted search returns the lower bound of the window |
| SIndexGroup.SearchExitsIff | src/sindex/sindex_group.cpp:161-178 | the search ends if and only if the window is a single element, or the hint is not its end, or the element there is not below the key |
| SIndexGroup.WindowContains | src/sindex/sindex_group.cpp:119-148 | the clamped error window of a stored key contains its position |
| SIndexGroup.GetStored | src/sindex/sindex_group.cpp:137-157 | a group finds each of its keys at its own position, for any model |
| SIndexGroup.GetSound | src/sindex/sindex_group.cpp:152-156 | a found position lies in the group and holds the query |
| SIndexGroup.GetHangsIff | src/sindex/sindex_group.cpp:137-178 | exactly which queries never return, in terms of prediction, recorded errors and the key at the prediction |
| HangingQuery.HangingQueryExists | src/sindex/sindex_group.cpp:137-178 | five stored names, the least-squares line through their positions, and an absent name whose look-up never returns |
| SIndexGroup.SearchGroup | src/sindex/sindex_group.cpp:137-157 | predict, clamp, search and compare give the specified answer |
| SIndexGroup.Group.Init | src/sindex/sindex_group.cpp:19-44 | leaves the group trained over its run of keys |
| SIndexGroup.Group.InitFeatureLength | src/sindex/sindex_group.cpp:65-95 | sets the slice of the run; a single key gets an empty feature after the whole key |
| SIndexGroup.Group.TrainModel | src/sindex/sindex_group.cpp:98-134 | the recorded signed errors bound actual minus predicted over all keys of the group |
| SIndexGroup.Group.Get | src/sindex/sindex_group.cpp:137-157 | the method answers as specified |
| SIndexRoot.MergeBalanced | src/sindex/sindex_root.cpp:69-86 | merged models take all source groups, each within one of an even share |
| SIndexRoot.MergeKeepsPartition | src/sindex/sindex_root.cpp:69-86 | merging keeps a partition and invents no start |
| SIndexRoot.PartitionCovers | src/sindex/sindex_root.cpp:97-99 | every group belongs to exactly one model |
| SIndexRoot.MergeIndexes | src/sindex/sindex_root.cpp:69-86 | up to four starts stay; of k > 4 the result has the four at which consecutive runs of k/4 source groups begin, the first k % 4 runs one longer |
| SIndexRoot.LocateGroup | src/sindex/sindex_root.cpp:334-396 | for every prediction, negative or too large, the search ends, reads only valid pivots and returns the last group whose pivot is not above the key |
| SIndexRoot.LookupCorrect | src/sindex/sindex_root.cpp:326-330 | a stored key is found at its own position and a key is found if and only if it is stored, for every pair of predictors |
| SIndexRoot.PredictingModel | src/sindex/sindex_root.cpp:400-409 | the root model that predicts is the one whose run of groups contains the group that is located |
| SIndexRoot.GroupFeatureBound | src/sindex/sindex_root.cpp:10-45 | in a built index every group but the last has at least 350 keys, and a feature of at most 4 bytes or exactly 400 keys |
| SIndexRoot.BuildGroups | src/sindex/sindex_root.cpp:24-45 | one trained group per pivot, over exactly its keys |
| SIndexRoot.TrainPiecewiseModel | src/sindex/sindex_root.cpp:57-144 | the pivots are grouped, merged to at most four runs, and each run is trained |
| SIndexRoot.Root.Init | src/sindex/sindex_root.cpp:10-53 | builds a valid index whose group starts are the greedy pivots |
| SIndexRoot.Root.Predict | src/sindex/sindex_root.cpp:400-409 | the model of the last model pivot not above the key predicts the group |
| SIndexRoot.Root.Get | src/sindex/sindex_root.cpp:326-330 | locate, then search the group |
| SIndexModel.DenominatorZeroIff | include/sindex/sindex_model.h:45-48 | the denominator vanishes exactly when all samples share one x |
| SIndexModel.ClosedForm | include/sindex/sindex_model.h:45-48 | the closed form over the means satisfies both normal equations |
| SIndexModel.NormalEquationsMinimise | include/sindex/sindex_model.h:28-48 | a line that satisfies the normal equations has the least squared error of all lines |
| SIndexModel.LineUnique | include/sindex/sindex_model.h:45-48 | no other line satisfies them, unless all samples share one x |
| SIndexModel.FitLine | include/sindex/sindex_model.h:30-48 | the branch for one feature returns the least-squares line, and divides by zero exactly if all keys share the feature |
| SIndexModel.UsefulFeatures | include/sindex/sindex_model.h:56-67 | exactly the features in which some sampled key differs from the first, in order |
| SIndexModel.SampleBound | include/sindex/sindex_model.h:50-54 | all keys are samples up to ten million; of more keys, between ten and twenty million |
| SIndexModel.PlacedIsBest | include/sindex/sindex_model.h:73-104 | solving for the varying features alone loses nothing: constant ones are absorbed by the bias |
| SIndexModel.CharValueIs | include/strkey.h:65-70 | a feature is the byte as a signed char |
| SIndexModel.FitFeatures | include/sindex/sindex_model.h:49-105 | aborts exactly if no feature varies; otherwise the solved system has the varying features and 1 of each sample as its rows, coefficient r goes to the r-th varying feature and the last one to the bias, all others are zero; and if the solver finds a least-squares solution, no weights at all fit the samples better |
| SIndexModel.ModelPrepare | include/sindex/sindex_model.h:16-106 | every branch; on distinct keys it never divides by zero and never aborts |
| SIndexModel.GroupFeaturesDistinct | src/sindex/sindex_group.cpp:98-115 | the recorded slice gives the keys of a group distinct feature vectors, read as signed bytes |
| Training.GroupSlice | src/sindex/sindex_group.cpp:65-95 | a trained group has the one tight slice of its own keys |
| Training.RootModelSlice | src/sindex/sindex_root.cpp:293-323 | so has a root model, of the pivots of its groups |
| Training.GroupIsBest | src/sindex/sindex_group.cpp:98-122 | with a least-squares solver, a group's weights fit the positions of its own keys, counted from 0, best of all |
| Training.RootModelIsBest | src/sindex/sindex_root.cpp:107-123 | and a root model's weights the indices of its own groups, from their pivots |
| CFile.DecodeEncode | src/aux/needle.cpp:22-28 | reading back a stored integer of n bytes returns it |
| CFile.EncodeDecode | src/aux/needle.cpp:11-20 | storing a decoded integer returns the same bytes |
| CFile.DecodeBytes | src/aux/needle.cpp:11-20 | the least significant byte comes first |
| CFile.File.Fwrite | src/combine/combineFile.cpp:93-95 | overwrites from the position on, keeping what lies before and behind |
| CFile.File.Fread | src/sfcas.cpp:98-104 | the bytes at the position, cut off at the end of the file |
| Needles.RecordRoundTrip | src/aux/needle.cpp:11-28 | a record reads back as its needle, padded name included, whatever surrounds it |
| Needles.RecordLayout | src/aux/needle.cpp:22-28 | length, flags, offset, size and name stand at bytes 0, 4, 5, 13 and 17 of a record |
| Needles.IndexHeader | src/combine/combineFile.cpp:93-95 | the index file begins with the number of records in 8 bytes |
| Needles.InsertNeedleIndex | src/aux/needle.cpp:22-28 | appends exactly the record |
| Needles.ReadNeedleIndex | src/aux/needle.cpp:11-20 | returns the needle at the position and moves past its variable length |
| Needles.RecordInImage | src/aux/index.cpp:14-21 | every record lies where the lengths of the earlier ones put it |
| Needles.ReadIndexFile | src/aux/index.cpp:14-22 | reading the count and that many records returns exactly the needles written |
| Needles.SortNeedlesSorts | src/aux/index.cpp:25 | the sorted index is strictly sorted and has the same needles |
| Needles.SortUnique | src/aux/index.cpp:25 | any strictly sorted arrangement is the same list, so the sort algorithm does not matter |
| Combine.Tiling | src/combine/combineFile.cpp:61-80 | the recorded slices are the files' contents and follow each other without gap or overlap |
| Combine.FilesAre | src/combine/combineFile.cpp:56-59 | merged are exactly the entries that are no directory and neither result file, in directory order |
| Combine.NeedleIs | src/aux/needle.cpp:3-9 | the needle of a file has its padded name, its size modulo 2^32, its place, its record length and the flag |
| Combine.CopyEndsIff | src/combine/combineFile.cpp:66-80 | the copy loop ends exactly for sizes below 2 GiB |
| Combine.CopyFile | src/combine/combineFile.cpp:66-80 | the do-while loop appends the whole file to the big file |
| Combine.CombineDirectory | src/combine/combineFile.cpp:28-103 | index file and big file are the images of the files merged; directories and the two result files are skipped |
| Sfcas.CacheHit | src/sfcas.cpp:74-78 | a cache hit is the needle that the look-up would have found |
| Sfcas.Mount.constructor | src/aux/index.cpp:3-53 | parses, sorts and, if there is a record, builds the index over the sorted names |
| Sfcas.Mount.FindCached | src/sfcas.cpp:74-78 | cached or not, the answer is that of the look-up |
| Sfcas.Mount.GetAttr | src/sfcas.cpp:23-52 | the reply is the cache-free one, and the cache stays a valid needle |
| Sfcas.Mount.OpenFile | src/sfcas.cpp:71-84 | the reply is the cache-free one |
| Sfcas.Mount.ReadFile | src/sfcas.cpp:86-108 | the reply is the cache-free one |
| Sfcas.Mount.Serve | src/sfcas.cpp:23-108 | in any sequence of calls every reply is independent of the calls before it; the replies stop only at a call that never returns, or reads an empty index |
| Sfcas.MergedFileContents | src/sfcas.cpp:86-108 | every byte read below the file's size is the original; the reply is exactly the file's bytes if and only if the read stays inside it or nothing follows |
| Sfcas.UnknownName | src/sfcas.cpp:23-108 | any call about a name that was not merged gets no entry, and no answer exactly if its look-up hangs |
| Sfcas.CombineAndServe | src/sfcas.cpp:23-142 | combine, load and serve any calls: the reply to every call is determined, for the root directory, the two result files, each merged file and every other name |
| ModelFile.SaveGroupModel | src/sindex/sindex_group.cpp:208-215 | appends exactly the group's fields |
| ModelFile.ReadGroupModel | src/sindex/sindex_group.cpp:218-229 | restores every field of the group |
| ModelFile.GroupLayout | src/sindex/sindex_group.cpp:208-215 | where each field of a group stands in the model file |
| ModelFile.ModelLayout | src/sindex/sindex_root.cpp:455-459 | and each field of a root model |
| ModelFile.SaveModel | src/sindex/sindex_root.cpp:441-470 | the file is the image of the index |
| ModelFile.ReadModel | src/sindex/sindex_root.cpp:473-513 | reading the file over the same names restores the whole index |
| ModelFile.FitsIff | src/sindex/sindex_root.cpp:441-470 | a built index fits the fields of the file if and only if its counts fit 32 bits and its training errors 64 bits |
| ModelFile.BuiltFits | src/sindex/sindex_group.cpp:124-134 | so it does for fewer than 2^32 names and predictions that leave room for a position |
| ModelFile.SaveAndReload | src/sindex/sindex_root.cpp:441-513 | save any built index whose fields fit, read it back: the same answer to every look-up |
| AccessHeap.HeapFrontLeast | include/dfs/nameserver.h:24-32 | the front of the heap has the least access count |
| AccessHeap.PushHeap | include/dfs/nameserver.h:128 | the new last element joins the heap; nothing is lost |
| AccessHeap.PopHeap | include/dfs/nameserver.h:162 | the front moves to the end and the rest is a heap |
| AccessHeap.MakeHeap | include/dfs/nameserver.h:253 | any array becomes a heap of the same elements |
| HealthCheck.DeleteOnlyAfterTimeout | include/dfs/nameserver.h:52-90 | a deletion needs a failed check and more than TIMEOUT seconds since the last refresh |
| HealthCheck.VerdictIff | include/dfs/nameserver.h:52-99 | exactly when a heartbeat leads to keeping a server, and exactly when to deleting it, in clock ticks |
| HealthCheck.RefreshedIff | include/dfs/nameserver.h:52-84 | exactly which checks refresh a server |
| HealthCheck.FreshIsNotDeleted | include/dfs/nameserver.h:59-90 | a living server refreshed recently enough cannot be deleted by the next round |
| HealthCheck.HealthCheckClient.Check | include/dfs/nameserver.h:52-84 | takes exactly the specified transition |
| HealthCheck.HealthCheckClient.Refresh | include/dfs/nameserver.h:93-104 | living from now on, the group unchanged |
| Cluster.ConnectKeepsInv | src/dfs/nameserver.cc:38-65 | every connection keeps the invariant and leaves the address registered |
| Cluster.ReturningIsFound | include/dfs/nameserver.h:136-150 | a returning server is always in the tail, and available afterwards |
| Cluster.LeastAccessKeepsInv | include/dfs/nameserver.h:154-168 | the server chosen has least `times`, and the invariant is kept |
| Cluster.ResetClears | include/dfs/nameserver.h:191-195 | a reset sets every counter to 0, of available and of unavailable servers, and changes nothing else |
| Cluster.RoundKeepsInvIff | include/dfs/nameserver.h:199-223 | a health round keeps it if and only if it deletes no server that was available |
| Cluster.FreshAvoidsDelete | include/dfs/nameserver.h:199-223 | rounds close enough together never do |
| Cluster.StepKeeps | include/dfs/nameserver.h:121-269 | every atomic step keeps invariant and freshness |
| Cluster.RunKeeps | include/dfs/nameserver.h:121-269 | every state of every run with rounds close enough has heap order, unique addresses equal to those of the health map, and only living servers available |
| Cluster.DeletedFromTail | include/dfs/nameserver.h:199-269 | in every run a deleted server was in the tail before its last round and is nowhere afterwards |
| Cluster.LongGapBreaks | include/dfs/nameserver.h:199-269 | for any longer gap, a run with rounds exactly that far apart that leaves a deleted address in the heap |
| Cluster.SafeGapIff | include/dfs/nameserver.h:52-90 | for every configuration and every pause between rounds, all runs keep the invariant if and only if the gap is at most TIMEOUT - CHECK_BASE seconds (no time at all if that is negative) |
| Availability.StepAvailableIff | include/dfs/nameserver.h:121-240 | from a state in which every living server is available, a step keeps that if and only if it is neither a `set_ready` with a failed server nor a round in which one recovers |
| Availability.RunAvailableIff | include/dfs/nameserver.h:121-240 | every living server is available throughout a run with rounds close enough if and only if no step of it is one of those two |
| Availability.RoundAvailableIff | include/dfs/nameserver.h:199-223 | the condition for a round |
| Availability.ReadyAvailableIff | include/dfs/nameserver.h:233-240 | the condition for `set_ready`, from any state |
| Availability.RecoveryStrands | include/dfs/nameserver.h:80-84 | a server that recovers inside a round is living, in the tail, and not in the heap |
| Availability.RecoveryRun | include/dfs/nameserver.h:199-223 | a run of the shipped configuration that strands a server by its recovery |
| Availability.UploadRun | src/dfs/nameserver.cc:67-87 | another one that strands a server by its own upload |
| Availability.StrandedStays | include/dfs/nameserver.h:121-223 | no step takes a stranded server back into the heap while it is registered and living |
| Fairness.FairShare | include/dfs/nameserver.h:154-195 | after k calls each of n available servers was chosen floor(k/n) or ceil(k/n) times, and the counters sum to k |
| Counters.CountersAre | include/dfs/nameserver.h:121-195 | in every run with rounds close enough, every counter is how often its server was chosen since the last reset, or since it registered |
| Counters.ReturnsWithCount | include/dfs/nameserver.h:136-150 | a server that returns joins the heap with exactly that number |
| Counters.LeastChosen | include/dfs/nameserver.h:154-168 | every request goes to an available server that was chosen least often |
| Counters.LeadIsBounded | include/dfs/nameserver.h:154-168 | while two servers are both available, neither gets ahead of the other by more than its earlier lead, or one, whatever happens to the rest |
| DataClusters.Unavailable | include/dfs/nameserver.h:247-256 | exactly the entries with the address move to the tail, though the scan goes on over the rebuilt heap |
| DataClusters.Remove | include/dfs/nameserver.h:259-269 | the available part is untouched and the tail loses exactly the address |
| DataClusters.DataCluster.constructor | include/dfs/nameserver.h:116-117 | the empty cluster satisfies the invariant |
| DataClusters.DataCluster.AddServer | include/dfs/nameserver.h:121-133 | takes the step of an addition |
| DataClusters.DataCluster.ReconnectServer | include/dfs/nameserver.h:136-150 | takes the step of a reconnect |
| DataClusters.DataCluster.GetLeastAccess | include/dfs/nameserver.h:154-168 | takes the step of an access |
| DataClusters.DataCluster.ResetTimes | include/dfs/nameserver.h:191-195 | the loop leaves every counter at 0 and every address in its place |
| DataClusters.DataCluster.MakeReady | include/dfs/nameserver.h:233-240 | takes the step of `set_ready` |
| DataClusters.DataCluster.CheckServer | include/dfs/nameserver.h:201-221 | one server's heartbeat and its consequences |
| DataClusters.DataCluster.Check | include/dfs/nameserver.h:199-223 | takes the step of a round; valid afterwards exactly if no available server was deleted |
| Metadata.UploadKeepsMetaIff | src/dfs/nameserver.cc:67-87 | an upload keeps the file map sound if and only if the last record of each file it names belongs to a populated group |
| Metadata.UploadReadies | src/dfs/nameserver.cc:75-85 | an upload makes all servers of the first record's group living and the group ready, and changes no other group |
| Metadata.UploadThenGet | src/dfs/nameserver.cc:10-35 | a request for an uploaded file gets the size of its last record and an available server of its group with the fewest requests, if there is one |
| Metadata.RoundKeepsFiles | src/dfs/nameserver.cc:114-120 | a round drops exactly the files of groups without a server left |
| Metadata.ResetStepClears | src/dfs/nameserver.cc:132-136 | the periodic reset clears the counters of all groups |
| Metadata.SoundIffNoAbort | include/dfs/nameserver.h:157 | the map is sound if and only if no request can meet the failing assertion of `get_least_access` |
| Metadata.ActKeeps | src/dfs/nameserver.cc:10-138 | every action keeps all cluster invariants, whatever is uploaded |
| Metadata.ActKeepsMetaIff | src/dfs/nameserver.cc:10-138 | an action keeps a sound map sound if and only if it is no upload to a group without a server |
| Metadata.ServerRunKeeps | src/dfs/nameserver.cc:10-138 | in every run with rounds close enough all cluster invariants hold throughout |
| Metadata.ServerRunMetaIff | src/dfs/nameserver.cc:10-138 | in every such run the map is sound throughout if and only if every upload lands in groups that have a server |
| Metadata.AbortHasCause | src/dfs/nameserver.cc:10-138 | a request that meets the failing assertion comes after an upload that landed in a group without a server |
| Metadata.LateUploadBreaks | src/dfs/nameserver.cc:67-87 | after an upload to an empty group the next request for the file aborts |
| NameServers.NameServer.constructor | src/dfs/nameserver.cc:6-8 | starts with the given number of empty clusters and no file |
| NameServers.NameServer.ConnectToMaster | src/dfs/nameserver.cc:38-65 | takes the step of a connection and answers new, duplicate or reconnected exactly when it is; undefined outside the array |
| NameServers.NameServer.GetFileMetadata | src/dfs/nameserver.cc:10-35 | takes the step of a look-up, the abort included; over a sound map it never aborts and keeps it sound |
| NameServers.NameServer.UploadMetadata | src/dfs/nameserver.cc:67-87 | takes the step of an upload and keeps the map sound under the exact condition; without a valid first group it only registers the files |
| NameServers.NameServer.HealthRound | src/dfs/nameserver.cc:101-121 | takes the step of a round for any heartbeats and keeps the map sound; the clusters stay valid exactly if no available server was deleted |
| NameServers.RoundValidIff | src/dfs/nameserver.cc:101-110 | over all groups, a round keeps every invariant if and only if no cluster deletes an available server |
| NameServers.NameServer.ResetTime | src/dfs/nameserver.cc:132-136 | takes the step of a reset in every cluster |

## Left out

- SaveAndReload: needs an index whose counts and errors fit the fields of the file, as the source's types make sure; `FitsIff` says which built indexes do.
- Mount.constructor: what the source does with an empty index is the reply `Undefined`, because it reads beyond its arrays; nothing is said about calls after it, or after one that never returns.
- UploadMetadata: after an upload without a record, or for a group outside the array, the source indexes outside the array; the model says only what is registered before that. Likewise for ConnectToMaster; a run of the server contains no such step.
- Names are at most 50 non-NUL bytes. Longer ones overrun the key buffer in the source and are not part of this model.
- Locks: each handler and each health round is one atomic step. The source releases its locks between the checks of a connection and the change that follows, and between the clusters of a round; interleavings inside a step are not modelled.
- Heartbeats and clock readings are inputs of a step; channels, stubs and streams are left out.
- `times` and array indices are unbounded integers, as are positions and group numbers in the index; only the copy loop's counter wraps.
- Floating point: predictors are arbitrary functions from the slice to an integer, the conversion from `double` included; the regression is over exact reals, and LAPACK is an arbitrary function. `dot_product` and its vector instructions are left out.
- The sort and the heap algorithms of the C++ library are modelled by what the language standard requires of them; the heap ones carry an implementation so that their contracts are seen to be satisfiable.
- The positions of an index are its values (`vals` is 0, 1, 2, and so on), so the value array and the temporary key array of a group are left out, as is the unused fallback for missing groups.
- `train_and_get_err` is never called and `group_error` is always zero; neither is modelled. Error statistics that are only printed are left out.
- Error returns of file operations, removal of the small files, symbolic links, directory listing and the remaining callbacks of the file system.
- Callbacks that run at the same time on the one-entry cache, which the source leaves unsynchronised.
- The client, and the streaming of file chunks by the data servers.
