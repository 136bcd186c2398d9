# Verified models of ICARUS

ICARUS turns a filesystem into an intelligence database: it walks a source, extracts
entities, resolves duplicates across sources, compares databases and serves them. This
project models the parts of it that have to survive failures or that carry an argument,
and proves what they promise.

Most of the hard code runs on a store with a durable image, a working image and
savepoints. Where a process can die, each durable step is a method of the store with a
budget of steps left: a method's postcondition then covers every point at which its
process could have died.

- `SourceTree`, `ByteOrder`, `IngestProgress`: the resumable directory walk. Any history
  of deaths and resumes ends with the rows, provenance stamps and statistics of one
  uninterrupted walk; and so do the rows when the whole phase runs again because its
  process died between finishing it and recording that.
- `RunProtocol`: one build's identity and phases over two databases that commit
  separately, the private checkpoint and the output, including the upgrade of older
  checkpoints and the final sanitization gate.
- `IdSets`, `Clustering`, `Matching`, `BagStore`, `Resolver`, `ResolverEval`: candidate
  generation, scoring, union-find, the bag operations over an append-only event log, the
  threshold sweep and the choice of a threshold. `Similarity` and `ResolverLaws` say what
  the comparators, scores, blocks and exact keys mean, up to which atoms a run must join.
- `Trust`: the coupling of content changes to the revocation of the sanitizer's marker,
  for guarded SQL, nested resolver mutations and atomization on one connection.
- `KeyOrder`, `ObservationDiff`, `RowIds`, `DiffRows`: the observation diff as a correct
  patch, what each comparison reports, and its independence from local row ids.
- `Detection`: parser auto-detection on a shared, bounded sample.
- `MachO`, `MachOImages`: the slice parser, and the format from the writing side, against
  which reading is proved to be the inverse.
- `JsonText`, `Pagination`, `Markdown`: the keyset listing, its size counted in the bytes
  of its JSON, and the escaper.

Assumptions made throughout: a source tree does not change while it is read; an HMAC, a
JSON text of a diff key and the other serializations determine what they were made from;
scores are real numbers; full-text hits are some fixed relation; one writer per output.

## Where the code falls short of the statement

For each of these there is a lemma or method at a concrete failing state, and the exact
condition under which the code keeps its promise.

- A build whose process dies inside the creation of its checkpoint (after one, two or
  three durable steps of its first start) can never be resumed: the file exists without
  the metadata every resume demands. The same holds one step later when the output
  already had content. `RunProtocol.Pipeline.Start` gives the exact window,
  `RunProtocol.StrandedStates` two builds in it, and `RunProtocol.StrandedForever` runs
  any such build on: every later process refuses it.
- A failed call leaves the caller's earlier pending writes alone, unless a step of it
  makes the engine roll the whole transaction back (`OR ROLLBACK`). The condition is
  exact for guarded statements (`Trust.PendingKeptIff`), nested mutations
  (`Trust.MutationKeptIff`), atomization (`Trust.AtomizeDb`) and commits
  (`Trust.IcarusQuery.Commit`), and kept over whole histories (`Trust.History`).
  `Trust.PendingLost` is a statement that loses a pending write.
- The detection verdict can depend on registration order when a file cannot be opened, or
  gives fewer bytes than its listed size: the size is checked against the budget, the
  bytes are charged. `Detection.OrderNeverMattersIff` gives the exact condition, for every
  source; `Detection.GapExamples` a source of each kind.
- Reaching the entry budget counts as exhausting it: a source with exactly that many
  entries is refused although its sample is every file of it. `Detection.Collect` states
  both, and that the sample is refused exactly from there on; `Detection.RefusedWhole` is
  one file against a budget of one entry.
- A changed observation whose confidence is only respelled (1 and 1.0) would break the
  `changed_fields` contract (`ObservationDiff.RespelledBreaksContract`). A REAL column
  cannot produce it: `ObservationDiff.ContractUnlessRespelled`,
  `ObservationDiff.RealColumnKeepsContract`.
- An observation of a binary whose own file row is missing is neither compared nor
  reported, although unresolved observations are documented to be surfaced:
  `RowIds.ReportedOnce` exactly those, `RowIds.DroppedObservation` one.
- A Mach-O slice that is itself a fat archive is passed over inside a fat file but parses
  when extracted, exactly when a slice of its own parses: `MachO.SliceParsesAsFile`, and
  `MachO.NestedArchive` an 84-byte file.

## Model

| member | source | states |
|---|---|---|
| `SourceTree.VisitOrderIsSortedReachable` | icarus/parsers/progress.py:103-107 | The walk takes directories in strictly increasing byte order, and takes exactly those at or below the frontier. |
| `SourceTree.AdvanceUnfinished` | icarus/parsers/progress.py:117-144 | Finishing the least directory removes that one from the unfinished directories and no other; every unfinished one stays in the frontier or below it. |
| `SourceTree.NeverReinserted` | icarus/parsers/progress.py:119-124 | No scan after a directory is finished, on this attempt or a later one, puts it back into the frontier. |
| `SourceTree.RescanWork` | icarus/parsers/progress.py:111-139 | Scanning the least directory a second time, after a crash, leaves the same work to do. |
| `SourceTree.PendingAfter` | icarus/parsers/progress.py:126-128 | Moving the cursor to the first pending file leaves exactly the other pending files. |
| `SourceTree.AdvanceShrinks` | icarus/parsers/progress.py:103-147 | The measure that makes the walk end: finishing a directory strictly lowers it although subdirectories join. |
| `SourceTree.WorkIsAllFiles` | icarus/parsers/progress.py:96-147 | With no cursor set, the work below a frontier is every file of every reachable directory, in byte order. |
| `SourceTree.FullWalk` | icarus/parsers/progress.py:96-160 | An uninterrupted walk visits every file of every reachable directory exactly once, in an order fixed by the names alone. |
| `SourceTree.WalkedFiles` | icarus/parsers/progress.py:96-147 | Said of names alone: a file is visited exactly when real directory entries lead from the root to its directory, no link on the way, and it is an entry there; and by that path. |
| `ByteOrder.Sorted` | icarus/parsers/progress.py:139 | Sorting a listing gives the one ascending listing of its names, whatever order the system returned them in. |
| `ByteOrder.AscendingUnique` | icarus/parsers/progress.py:96-102 | A set of names has only one ascending listing. |
| `ByteOrder.LessAtFirstDifference` | icarus/parsers/progress.py:103-139 | Paths and names are ordered by the number of the first byte that differs, or by which ends first. |
| `IngestProgress.CommitStep` | icarus/parsers/progress.py:77-94 | Publishing rows, statistics and frontier together, at any point of the walk, leaves a durable image that finishes as the uninterrupted walk does. |
| `IngestProgress.Provenance` | icarus/parsers/progress.py:77-94 | In every image a process can leave or finish with, each row the ingest added carries the active version's id and its start as the observed time, or neither without one; each earlier row is as it was. |
| `IngestProgress.StampedAgain` | icarus/parsers/progress.py:77-94 | A second stamp replaces the version and leaves an observed time that is there. |
| `IngestProgress.EnterResumed` | icarus/parsers/progress.py:59-67 | Adopting a saved state continues it: nothing is lost and nothing counted twice. |
| `IngestProgress.CreateTables` | icarus/parsers/progress.py:47-55 | The two table creations are durable steps after either of which a death loses nothing. |
| `IngestProgress.DropStep` | icarus/parsers/progress.py:168-171 | So are the two drops at the end, and the image between them. |
| `IngestProgress.IngestProgress.Enter` | icarus/parsers/progress.py:46-75 | Accepts exactly when no other ingest's progress is present, and then stands, all of it durable, at the start of the work that is left; a refusal changes no data. |
| `IngestProgress.IngestProgress.Commit` | icarus/parsers/progress.py:77-94 | Stamps the new rows only, publishes, and moves the watermarks up; dying inside it leaves a recoverable image. |
| `IngestProgress.IngestProgress.Filenames` | icarus/parsers/progress.py:149-160 | Ingests exactly the pending files of the directory in order; one durable commit for each multiple of the interval that the count passes, with the cursor at the last finished file. |
| `IngestProgress.IngestProgress.OpenDirectory` | icarus/parsers/progress.py:111-139 | From any enumeration of the directory: subdirectories join the frontier, the files past the cursor come out in byte order. |
| `IngestProgress.IngestProgress.SelectFirst` | icarus/parsers/progress.py:104-111 | The least pending directory. |
| `IngestProgress.IngestProgress.FinishDirectory` | icarus/parsers/progress.py:104-147 | One turn of the loop does the least directory's share of the work, counts its files and itself, commits at multiples of the interval, or dies recoverably. |
| `IngestProgress.IngestProgress.Walk` | icarus/parsers/progress.py:96-147 | Ends, with all the work done, every file and directory counted and one commit for each multiple of the interval, or dies recoverably. |
| `IngestProgress.BatchEnd` | icarus/parsers/progress.py:129-160 | Testing the count against the interval after each input finds every multiple, once. |
| `IngestProgress.IngestProgress.Exit` | icarus/parsers/progress.py:162-172 | After a full walk the database is complete; after a death at any of its durable steps it is recoverable. |
| `IngestProgress.CountsEachFileOnce` | icarus/parsers/progress.py:149-160 | A parser that counts files counts each reachable file once. |
| `IngestProgress.Attempt` | icarus/parsers/progress.py:22-75 | One process: refuses an ambiguous run or foreign progress and preserves it; otherwise completes, from the start in six durable steps and one for each full batch, or dies leaving a recoverable image. |
| `IngestProgress.IngestThroughCrashes` | icarus/parsers/progress.py:46-172 | Any history of attempts with any batch intervals and points of death ends with the rows, stamps and statistics of one uninterrupted walk, the stamps being those of `IngestProgress.Provenance`. |
| `IngestProgress.Repeated` | icarus/parsers/progress.py:46-172 | A finished ingest is a state its own repetition can start from, and repeating it with a parser that looks before it inserts changes nothing. |
| `IngestProgress.RunPhase` | icarus/core/pipeline.py:947-977 | The ingest phase in one process: complete, or dead in a state it can be taken up in, a finished ingest without its record included. |
| `IngestProgress.PhaseThroughCrashes` | icarus/core/pipeline.py:947-977 | Whatever the deaths, between the last drop and the record of the phase too, the rows and stamps are those of one uninterrupted walk. |
| `RunProtocol.PublishedKeyHeld` | icarus/core/pipeline.py:417-446 | In every durable state, a version row that this run published carries the HMAC computable from the key in the checkpoint. |
| `RunProtocol.DurableGuarantees` | icarus/core/pipeline.py:192-225 | In every durable state the completed phases are a prefix, at most one row belongs to the run and the others are as found, and a verified marker names clean, unchanged content. |
| `RunProtocol.RestorableUnlessStuck` | icarus/core/pipeline.py:550-743 | A durable state is accepted for resumption exactly when it is not one of the two stranded kinds. |
| `RunProtocol.StrandedStates` | icarus/core/pipeline.py:417-460 | Two builds over an earlier output, one for each kind of stranded state: their window, their checkpoint, and that every resume refuses it. |
| `RunProtocol.StrandedForever` | icarus/core/pipeline.py:894-928 | A first process that dies in the window leaves exactly that checkpoint and an untouched output, and every later process refuses them and changes nothing. |
| `RunProtocol.PreparedRow` | icarus/core/pipeline.py:550-605 | A prepared intent finds a version row exactly when the run inserted it, and it is the run's own. |
| `RunProtocol.CountedEntities` | icarus/core/pipeline.py:850-875 | The entity count of a completed version is the number of rows that carry exactly that version. |
| `RunProtocol.Pipeline.PersistIdentityIntent` | icarus/core/pipeline.py:417-467 | Four durable steps from nothing, one from a saved checkpoint; the state after dying at each of them. |
| `RunProtocol.Pipeline.RestorePreparedIdentity` | icarus/core/pipeline.py:550-605 | Accepts a prepared intent exactly with its own row or an empty output, and restores its run id and key. |
| `RunProtocol.Pipeline.RestoreVersionIdentity` | icarus/core/pipeline.py:607-743 | Accepts exactly the restorable checkpoints and restores run id, version, key and pending upgrade. |
| `RunProtocol.Pipeline.UpgradeLegacyIdentity` | icarus/core/pipeline.py:745-777 | The key is durable before the HMAC is; the HMAC and the revocation are one step; death in between resumes with the same key. |
| `RunProtocol.Pipeline.InitializeDatabase` | icarus/core/schema.py:1051-1060 | Finishes a partly initialized empty output, statement by statement, dying only in states that still count as empty. |
| `RunProtocol.Pipeline.CreateVersionRecord` | icarus/core/pipeline.py:813-848 | Inserts the run's one row and revokes evidence in one step; strands the build only over an output with content, only by dying before that step. |
| `RunProtocol.Pipeline.LastCheckpoint` | icarus/core/pipeline.py:208-225 | The last completed phase of a prefix, and -1 for a list that no longer lines up. |
| `RunProtocol.Pipeline.Bind` | icarus/core/pipeline.py:915-928 | Revokes earlier evidence, then binds; afterwards no verified marker stands while phases run. |
| `RunProtocol.Pipeline.Start` | icarus/core/pipeline.py:894-928 | A first start strands its build exactly when its process dies in the stated window, and then in exactly the stated state. |
| `RunProtocol.Pipeline.Resume` | icarus/core/pipeline.py:894-928 | A resume is refused exactly in the stranded states, changing nothing; otherwise it continues under the original run id and never strands the build. |
| `RunProtocol.Pipeline.Handle` | icarus/core/pipeline.py:953-955 | A handler runs only when every earlier phase is complete; the output ends with exactly what it wrote, and whatever that is, no verified marker appears. |
| `RunProtocol.Pipeline.RunPhase` | icarus/core/pipeline.py:947-977 | A phase ends complete, or recorded as failed because its handler raised, the output marked FAILED exactly if it was the sanitizer, or in a resumable state. |
| `RunProtocol.Pipeline.RunPhases` | icarus/core/pipeline.py:947-977 | The phases run in order from the start phase, none skipped; the content is what their handlers leave, one after the other. |
| `RunProtocol.Pipeline.FinalizeSanitization` | icarus/integrations/hygeia.py:738-763 | Publishes a marker for exactly the content just found clean, or leaves FAILED; it fails only for a reason. |
| `RunProtocol.Pipeline.Finish` | icarus/core/pipeline.py:979-1008 | Completes the version with the number of entity rows that carry it, passes the gate and only then removes the checkpoint; a failed gate leaves sanitize to be run again. |
| `RunProtocol.Pipeline.Run` | icarus/core/pipeline.py:894-1012 | One process: how each ending leaves the two databases; a finished one has run every phase that was not complete before, sanitize again after an identity upgrade, and changed the content by those handlers alone. |
| `RunProtocol.BuildThroughCrashes` | icarus/core/pipeline.py:877-1012 | Any series of attempts keeps one run id; it ends with exactly one completed row carrying it, the entity rows of that version counted, and an honest marker, unless a death fell in the stranding window. |
| `Clustering.CompressKeepsRoots` | icarus/core/matching.py:343-350 | Pointing a node at its root moves no root. |
| `Clustering.LinkRoots` | icarus/core/matching.py:352-359 | Linking a root under a smaller one merges exactly those two classes. |
| `Clustering.SameRootIffLinked` | icarus/core/matching.py:341-362 | Two nodes share a root exactly when a chain of edges links them. |
| `Clustering.DisjointSets.Find` | icarus/core/matching.py:343-350 | Returns the root, terminates, and compression leaves every root as it was. |
| `Clustering.DisjointSets.Union` | icarus/core/matching.py:352-359 | Recording an edge keeps the forest representing exactly the linked classes, smallest id as root. |
| `Clustering.Cluster` | icarus/core/matching.py:327-370 | Exactly the classes of at least two ids of the equivalence closure, disjoint, sorted by smallest id. |
| `Clustering.ClustersUnique` | icarus/core/matching.py:337-339 | Only one list has those properties, so the output is deterministic. |
| `Matching.Comparator.Compare` | icarus/core/matching.py:56-129 | Every comparator gives a similarity between 0 and 1; which one is said in `Similarity`. |
| `Matching.ScoreBounds` | icarus/core/matching.py:178-212 | So does the weighted mean over the shared fields. |
| `Matching.ScoreSymmetric` | icarus/core/matching.py:178-212 | The order of the two atoms does not change their score. |
| `Matching.ScorePair` | icarus/core/matching.py:197-212 | The loop computes that weighted mean, and as features each shared field's similarity. |
| `Matching.FillBuckets` | icarus/core/matching.py:270-278 | Each blockable atom is in the bucket of its key, once, and in no other. |
| `Matching.BucketPairs` | icarus/core/matching.py:280-295 | A bucket of at most 200 atoms yields all its pairs, a larger one none. |
| `Matching.HitPairs` | icarus/core/matching.py:297-319 | Each atom pairs with the first 200 other full-text hits of its type. |
| `Matching.CandidatePairs` | icarus/core/matching.py:226-321 | The candidates are exactly the pairs, smaller id first, that share a small bucket or a kept hit. |
| `Similarity.EqualOrNot` | icarus/core/matching.py:56-67 | Exact is 1 for equal texts and 0 otherwise; so is its normalized form, by the normal forms. |
| `Similarity.TokenShare` | icarus/core/matching.py:77-85 | Token overlap is the common share of all tokens: 1 for equal non-empty token sets only, 0 exactly without a common token. |
| `Similarity.SameBasename` | icarus/core/matching.py:88-112 | Paths compare 1 for equal last components whatever their case and 0 otherwise: the trailing count is only reached when it is 0. |
| `Similarity.LongestTail` | icarus/core/matching.py:105-110 | That count is the length of the longest common tail of components. |
| `Similarity.ComponentsApart` | icarus/core/matching.py:100-101 | Components are what stands between separators of either kind. |
| `Similarity.CloseNumbers` | icarus/core/matching.py:115-129 | Equal numbers compare 1, numbers of different sign 0, others by the smaller over the larger. |
| `Similarity.FartherIsLess` | icarus/core/matching.py:115-129 | Of three numbers in order, the outer two are less alike than the inner. |
| `Similarity.NumbersOnly` | icarus/core/matching.py:119-122 | Texts compare as the numbers they denote; one that denotes none matches nothing. |
| `Similarity.ScoreExtremes` | icarus/core/matching.py:197-212 | A score is 1 exactly when some field is shared and all shared ones agree fully, 0 exactly when none agrees at all. |
| `Similarity.FeatureOfField` | icarus/core/matching.py:197-212 | The features are the shared fields, each with its similarity. |
| `Similarity.AlikeScoresHigher` | icarus/core/matching.py:197-212 | Of two pairs sharing the same fields, one at least as alike in each scores at least as high. |
| `Similarity.OneMoreField` | icarus/core/matching.py:197-212 | Agreeing fully on one more field never lowers a score. |
| `Similarity.BinaryScore` | icarus/core/matching.py:145-175 | The score of two binaries that carry all scored fields, field by field with its weight. |
| `Similarity.DaemonScore` | icarus/core/matching.py:145-175 | Likewise of two daemons. |
| `Similarity.FrameworkScore` | icarus/core/matching.py:145-175 | Likewise of two frameworks. |
| `Similarity.KextScore` | icarus/core/matching.py:145-175 | Likewise of two kernel extensions. |
| `Similarity.FileScore` | icarus/core/matching.py:145-175 | Likewise of two files. |
| `Similarity.Buckets` | icarus/core/matching.py:262-278 | An atom has no bucket exactly when all its blocking values are blank; the value of a single key is the bucket; equal values make equal buckets. |
| `Similarity.KeptHits` | icarus/core/matching.py:297-319 | A full-text hit is kept exactly when it is another atom of the type and fewer than the limit of those came before it. |
| `BagStore.AtMostOneBag` | icarus/core/resolver.py:140-147 | In a valid state no atom is in two bags. |
| `BagStore.CreatedValid` | icarus/core/resolver.py:149-163 | Creation keeps replay, homogeneity, counts and retirement. |
| `BagStore.MergeContinues` | icarus/core/resolver.py:206-233 | Absorbing one more bag keeps the log ahead of the rows: it already tells the whole merge. |
| `BagStore.MergeReplays` | icarus/core/resolver.py:203-241 | After a merge, replaying the log gives the membership. |
| `BagStore.MergeEnds` | icarus/core/resolver.py:203-242 | A merge ends in a valid state with the survivor's count right. |
| `BagStore.SplitReplays` | icarus/core/resolver.py:270-289 | After a split, replaying the log gives the membership. |
| `BagStore.SplitValid` | icarus/core/resolver.py:270-296 | A split keeps every invariant of the store. |
| `BagStore.ScoredValid` | icarus/core/resolver.py:444-453 | Scoring a bag and logging it changes no membership. |
| `Resolver.EntityResolver.CreateBag` | icarus/core/resolver.py:118-164 | Succeeds exactly for one or more known, unbagged atoms of the type; then one new unscored bag holds exactly those and one event says so, else nothing changes and the error names the atoms at fault. |
| `Resolver.EntityResolver.CheckCreate` | icarus/core/resolver.py:118-147 | Which refusal a creation meets, and that it names exactly the unknown, mismatched or assigned atoms. |
| `Resolver.EntityResolver.CheckMerge` | icarus/core/resolver.py:169-192 | A merge is allowed exactly for two or more known bags with members, all of one entity type; the problem reported is the first that exists, with the bags that have it. |
| `Resolver.EntityResolver.MergeBags` | icarus/core/resolver.py:166-242 | The first bag ends with all the atoms, the others empty, every other bag untouched, and the log gains the merge and one transfer for each bag that went, in order; a refusal changes nothing. |
| `Resolver.EntityResolver.SplitBag` | icarus/core/resolver.py:244-296 | Succeeds exactly for some but not all members; they leave for a new bag, both bags unscored and the two events logged, else nothing changes and the error names the atoms at fault. |
| `Resolver.EntityResolver.ResolveExact` | icarus/core/resolver.py:298-348 | Bags one group per exact key; the counts returned are right. |
| `Resolver.EntityResolver.ScoreAll` | icarus/core/resolver.py:415-427 | Every candidate is recorded with its score, earlier records kept; the edges are exactly those scoring at least the threshold. |
| `Resolver.EntityResolver.ResolveScored` | icarus/core/resolver.py:350-463 | Refuses thresholds outside [0, 1]; otherwise records every candidate, bags the clusters of matches and singles out the rest, logs each bag and each cluster's confidence, with the returned counts right. |
| `Resolver.Unmoved` | icarus/core/resolver.py:390-457 | Atoms that had a bag stay in it, and no earlier bag changes. |
| `Resolver.ExactPartition` | icarus/core/resolver.py:316-348 | Unresolved atoms share a bag exactly when they have the same key, and stay unresolved exactly when they have none. |
| `Resolver.ScoredResolvesAll` | icarus/core/resolver.py:430-457 | After the scored run no atom of the type is unresolved. |
| `Resolver.ScoredPartition` | icarus/core/resolver.py:390-457 | Two previously unresolved atoms share a bag exactly when a chain of candidate pairs at or above the threshold links them. |
| `Resolver.ClusterScores` | icarus/core/resolver.py:434-446 | Each bag of two or more atoms carries the mean of its match scores, between the threshold and 1. |
| `Resolver.StaysRetired` | icarus/core/resolver.py:185-192 | A bag emptied by a merge is empty in every later state. |
| `Resolver.Run` | icarus/core/resolver.py:118-486 | For every run of calls, failures included: the log only grows, replaying it from empty rebuilds the membership, retired bags stay empty. |
| `ResolverLaws.ExactKeyOf` | icarus/core/resolver.py:326-335 | An atom has no exact key exactly when it has none of the values; with one key it is the normalized value. |
| `ResolverLaws.ExactPartsOf` | icarus/core/resolver.py:326-335 | The key is made of the normalized non-empty values, key by key. |
| `ResolverLaws.ScoresWithin` | icarus/core/resolver.py:434-439 | The scores averaged for a cluster are those of the edges with both ends inside. |
| `ResolverLaws.SumOf` | icarus/core/resolver.py:437-439 | Their mean is the number whose multiple is their sum. |
| `ResolverLaws.DedupeKeepsFirst` | icarus/core/resolver.py:125-130 | Repeated ids count once, in the order of their first occurrence. |
| `ResolverLaws.AgreeingAtomsJoin` | icarus/core/resolver.py:350-463 | Two unbagged atoms of a kind with the same blocking value, at most 200 sharing it, that agree fully on every scored field they share, are in one bag after any successful scored run. |
| `ResolverEval.BagsOf` | icarus/core/resolver_eval.py:442-452 | The map from atom to bag of one type. |
| `ResolverEval.Evaluate` | icarus/core/resolver_eval.py:427-477 | The pair loop counts exactly the true, false and missed pairs, and the metrics are theirs, as `ResolverEval.MetricsMeaning` says them. |
| `ResolverEval.EvaluateMutations` | icarus/core/resolver_eval.py:479-504 | Recall of each mutation that occurs, over the pairs it created, and the number of hard negatives sharing a bag with anything. |
| `ResolverEval.Shares` | icarus/core/resolver_eval.py:466-477 | Precision is the share of the predicted pairs that are right, and recall of the true pairs: 1 exactly when none is wrong or missed. |
| `ResolverEval.Harmonic` | icarus/core/resolver_eval.py:466-477 | F1 lies between precision and recall, is twice the true positives over both totals, 0 exactly when something was counted and no true pair found, 1 exactly when nothing went wrong. |
| `ResolverEval.MetricsMeaning` | icarus/core/resolver_eval.py:455-477 | Of an evaluation: precision 1 exactly when every predicted pair is true, recall 1 exactly when every true pair is predicted. |
| `ResolverEval.FinerScoresLess` | icarus/core/resolver_eval.py:460-477 | A finer prediction has no more true or false positives and no greater recall. |
| `ResolverEval.HigherRefines` | icarus/core/resolver.py:415-430 | What is linked at a higher threshold is linked at a lower one. |
| `ResolverEval.RunPredictsLinked` | icarus/core/resolver_eval.py:531-543 | After a reset and a scored run, the predicted pairs are the linked pairs. |
| `ResolverEval.ResetCandidates` | icarus/core/resolver_eval.py:534-539 | Resetting resolution state does not change which pairs would match. |
| `ResolverEval.RecallFallsWithThreshold` | icarus/core/resolver_eval.py:518-544 | Raising the threshold never raises tp, fp or recall. |
| `ResolverEval.MutationsFallWithThreshold` | icarus/core/resolver_eval.py:479-544 | Of two runs over the same reset atoms, the one at the higher threshold recovers no other perturbation and merges no other hard negative. |
| `ResolverEval.Sweep` | icarus/core/resolver_eval.py:518-544 | Each threshold's result is what that threshold alone would give, whatever ran before; which error ends it, and exactly when. |
| `ResolverEval.RecommendThreshold` | icarus/core/resolver_eval.py:547-555 | A threshold of greatest F1, ties to the higher threshold. |
| `ResolverEval.CalibrateThreshold` | icarus/core/resolver_eval.py:558-585 | The lowest threshold that holds the precision floor, or else the most precise one, ties to the higher. |
| `ResolverEval.LowestPassingHasBestRecall` | icarus/core/resolver_eval.py:558-578 | On a sweep, that lowest threshold has the greatest recall among all that hold the floor. |
| `ResolverEval.SweepAndCalibrate` | icarus/core/resolver_eval.py:786-793 | End to end: if some threshold swept holds the floor, the chosen one does, with the greatest recall of those that do; it fails exactly as the sweep does. |
| `Trust.GuardedHonest` | icarus/core/query.py:192-230 | However a guarded statement ends, no image that can become durable holds stale evidence; a write that applied leaves none readable. |
| `Trust.PendingKeptIff` | icarus/core/query.py:220-230 | A guarded statement inside a transaction fails exactly when its step or the revocation it brings does, and loses the earlier pending writes exactly when that step makes the engine roll back; otherwise nothing changes. |
| `Trust.PendingLost` | icarus/core/query.py:220-230 | A statement whose failure costs the caller an earlier pending write. |
| `Trust.IcarusQuery.Execute` | icarus/core/query.py:183-230 | Refines all-or-nothing: the statement and its revocation apply together or the connection is as before; a read keeps no transaction, and exactly an applied change is remembered as pending. |
| `Trust.IcarusQuery.Commit` | icarus/core/query.py:138-147 | Publishes exactly the pending content, evidence revoked when a guarded write was pending; failing, the transaction stays with its savepoints unless the repeated revocation made the engine roll back. |
| `Trust.IcarusQuery.Rollback` | icarus/core/query.py:149-156 | Back to the durable image, with its evidence. |
| `Trust.UnchangedBody` | icarus/core/resolver.py:42-47 | A mutation that changed no row changed nothing. |
| `Trust.MutationHonest` | icarus/core/resolver.py:37-48 | A mutation that changed rows leaves no readable evidence; one that did not leaves the image alone. |
| `Trust.EntityResolver.Mutate` | icarus/core/resolver.py:72-101 | Nested to any depth: kept on top of the caller's transaction or not at all; outermost: committed or not at all. |
| `Trust.BodyFlat` | icarus/core/resolver.py:72-101 | Content and failure of a tree of nested calls are those of its statements in one line. |
| `Trust.NestingInvisible` | icarus/core/resolver.py:37-101 | Nested savepoints and revocations do not show: the same content as the flat statements, evidence revoked exactly when a row changed. |
| `Trust.MutationEndsAs` | icarus/core/resolver.py:37-101 | A tree of nested calls keeps its rows or ends as the first line to fail in its flat program of locks, statements and revocations does. |
| `Trust.MutationKeptIff` | icarus/core/resolver.py:72-101 | A mutating call in the caller's transaction succeeds exactly when no step at any depth fails, and loses the pending writes exactly when the first to fail made the engine roll back. |
| `Trust.InsertAtom` | icarus/core/atomize.py:65-89 | The first atom and the revocation stand or fall together; the caller's writes and savepoints stay, unless the insert or the revocation made the engine roll back. |
| `Trust.AtomizeDb` | icarus/core/atomize.py:92-179 | Commits all rows with evidence revoked exactly when an atom was added. A failure leaves everything before the first row to fail pending on top of what the caller had, or nothing pending exactly when that row made the engine roll back; a failed commit leaves all rows pending. |
| `Trust.Perform` | icarus/integrations/hygeia.py:649-665 | Each call succeeds exactly when none of its steps fails, and then has done what it is for: the stated next content, durable after a commit, back at the durable image after a rollback, evidence revoked by changes and equal to the content after publication. Every image stays honest; failing inside the caller's transaction, a call loses it exactly when a step made the engine roll back, and else keeps the pending writes and savepoints. |
| `Trust.GuardedSteps` | icarus/core/query.py:183-230 | Step by step: a guarded statement succeeds exactly when neither it nor its revocation fails, and then stands on top of what was pending. |
| `Trust.KeptFlat` | icarus/core/resolver.py:37-101 | A nested mutation that is kept leaves the content of its statements in one line. |
| `Trust.History` | icarus/core/query.py:138-230 | So does every history of guarded statements, commits, rollbacks, closes, mutations, atomizations, outer savepoints and publications, with failures anywhere: each call succeeds when it should and does what it is for, every image honest, no pending write lost but by the engine. |
| `KeyOrder.OrderedUnique` | icarus/core/differ.py:602-607 | A bag of records has only one canonical order. |
| `KeyOrder.SortBy` | icarus/core/differ.py:650-657 | Sorting gives that order, whatever the input order. |
| `ObservationDiff.PatchLaw` | icarus/core/differ.py:609-681 | Old minus removed minus changed-old plus added plus changed-new is new, as bags, and only what was there is removed. |
| `ObservationDiff.SwapSymmetry` | icarus/core/differ.py:609-681 | Swapping the inputs swaps the sides. |
| `ObservationDiff.PermutationInvariance` | icarus/core/differ.py:609-681 | The order of the rows does not matter. |
| `ObservationDiff.NeverBothSides` | icarus/core/differ.py:659-679 | No identity has both added and removed rows; each pair is one identity with different content. |
| `ObservationDiff.ContractUnlessRespelled` | icarus/core/differ.py:660-676 | A changed row meets the contract exactly when its contents differ in more than the spelling of one number. |
| `ObservationDiff.RealColumnKeepsContract` | icarus/core/schema.py:343-353 | Confidences read from a REAL column always meet it. |
| `ObservationDiff.RespelledBreaksContract` | icarus/core/differ.py:666-674 | A pair of records whose changed row does not meet it. |
| `ObservationDiff.ChangedFieldValues` | icarus/core/differ.py:55-86 | Accepts exactly the rows that keep the contract and returns each field with its old and new value. |
| `ObservationDiff.ChangedRowSays` | icarus/core/differ.py:659-681 | A changed row names the observation, exactly the fields that differ in their order, and each one's value before and after. |
| `ObservationDiff.GroupByIdentity` | icarus/core/differ.py:612-617 | Each identity's group is its records in order. |
| `ObservationDiff.Cancel` | icarus/core/differ.py:637-648 | Cancelling leaves on each side exactly what the other does not match, counted. |
| `ObservationDiff.DiffIdentity` | icarus/core/differ.py:629-679 | One identity's rows are its cancelled, sorted and paired records. |
| `ObservationDiff.DiffResolvedObservations` | icarus/core/differ.py:609-681 | The loops compute the bag diff of which the laws above speak. |
| `RowIds.SameRowsBy` | icarus/core/differ.py:683-712 | A renaming of result ids that keeps rows keeps the bag of rows. |
| `RowIds.OnlyCarried` | icarus/core/differ.py:683-712 | A one-sided natural-key difference does not see ids. |
| `RowIds.NaturalDiffIgnoresIds` | icarus/core/differ.py:757-818 | Renaming all ids in both databases leaves the binaries, entitlements, rules and services diffs unchanged as bags. |
| `RowIds.OneMovePerName` | icarus/core/differ.py:306-331 | An unambiguous name yields at most one moved row. |
| `RowIds.StructuralDiffIgnoresIds` | icarus/core/differ.py:294-428 | The three structural queries are unchanged as bags by such renamings. |
| `DiffRows.OneSided` | icarus/core/differ.py:683-712 | A row is reported on one side exactly when no row of the other has its key; a database differs from itself in nothing. |
| `DiffRows.BinariesByPath` | icarus/core/differ.py:757-770 | A binary is added exactly when no binary on the other side has its file's path. |
| `DiffRows.EntitlementsByHolder` | icarus/core/differ.py:772-785 | An entitlement is added exactly when none on the other side has its owner's bundle, key and value. |
| `DiffRows.RulesByProfile` | icarus/core/differ.py:787-804 | A sandbox rule by its profile's name and everything else it says. |
| `DiffRows.ServicesByDaemon` | icarus/core/differ.py:806-818 | A Mach service by its daemon's label and its name. |
| `DiffRows.ExecutableMoved` | icarus/core/differ.py:306-341 | A binary is moved exactly when its name is the only one of its kind on each side and its file's path differs. |
| `DiffRows.RuleReassigned` | icarus/core/differ.py:343-374 | A rule is reassigned exactly when its operation and action name one rule on each side, of profiles with different names. |
| `DiffRows.GrantReassigned` | icarus/core/differ.py:376-418 | An entitlement is reassigned exactly when its key and value name one on each side, held by binaries of different identity. |
| `DiffRows.OwnerIdentity` | icarus/core/differ.py:376-401 | A binary's identity is its bundle, else its name, else its path. |
| `DiffRows.MoveKeepsGrants` | icarus/core/differ.py:376-390 | A move alone leaves the identity of a binary that has a bundle or a name; that of one without either changes with its path. |
| `RowIds.ReportedOnce` | icarus/core/differ.py:487-560 | No observation is both compared and reported; one of the two, exactly unless its binary's file row is missing. |
| `RowIds.DroppedObservation` | icarus/core/differ.py:487-560 | A database with one observation that neither query returns. |
| `RowIds.KeyedCarried` | icarus/core/differ.py:502-540 | The resolved records are the same bag after any renaming. |
| `RowIds.ObservationDiffIgnoresIds` | icarus/core/differ.py:430-485 | So the observation diff of the resolved records does not change, whatever order rows come in. |
| `Detection.DetectionEvidence.ReadFile` | icarus/core/detection.py:128-147 | A parser gets what the file gives unless its listed size is more than is left, which alone exhausts the budget; cached bytes and bytes left stay the same together. |
| `Detection.DetectionEvidence.Identify` | icarus/core/registry.py:77-95 | A parser's adaptive reading, one read at a time. |
| `Detection.ReadBalanced` | icarus/core/detection.py:128-147 | For every file: cached bytes plus bytes left stay the budget; the read exhausts it exactly when it is refused for want of budget, and otherwise gives what the file gives. |
| `Detection.ContestBalanced` | icarus/core/detection.py:128-147 | After any contest, over any files, cached bytes plus bytes left are the budget. |
| `Detection.ContestFaithful` | icarus/core/registry.py:75-97 | A contest that runs out would read files that do not fit the budget; one that does not has read all that its parsers read without limit, in an order that loads, and each answers as without limit. |
| `Detection.OrderIndependent` | icarus/core/registry.py:72-102 | Without a gap, the verdict is the same for every registration order and every adaptive reading strategy, and the budget runs out exactly when what is read without limit does not fit it. |
| `Detection.OrderNeverMattersIff` | icarus/core/registry.py:72-102 | For every source: registration order is irrelevant to all parsers exactly when every list of files that loads fits, each of them read last too. |
| `Detection.ListedSizesNoGap` | icarus/core/detection.py:139-143 | So it is when every regular file gives as many bytes as listed; then files fit exactly when their sizes together do. |
| `Detection.GapExamples` | icarus/core/detection.py:134-143 | A source with an unreadable file, and one with a file shorter than listed, where the order does matter. |
| `Detection.ParserRegistry.Register` | icarus/core/registry.py:38-70 | A taken name or a mismatched manifest is refused, and nothing replaced. |
| `Detection.ParserRegistry.Detect` | icarus/core/registry.py:72-102 | The verdict is the contest's: exhausted, nobody, or one that no identifying parser leads, by lower specificity, then higher confidence, then smaller name, as their manifests or the defaults have them. |
| `Detection.ForemostLeads` | icarus/core/registry.py:31-33 | The winner's manifest values against every other's, with 50 and 0.5 for a parser without one. |
| `Detection.Collect` | icarus/core/detection.py:49-120 | Exhausted exactly when the tree has at least the budget's entries; up to and at the budget the sample is every file, in walk order, and beyond it a beginning of that. |
| `Detection.RefusedWhole` | icarus/core/detection.py:49-120 | A source of one file, sampled whole and refused. |
| `MachO.ParseCodesig` | icarus/parsers/macho.py:65-91 | The last entitlements blob that loads and the last code directory's flags. |
| `MachO.ScanCommands` | icarus/parsers/macho.py:116-140 | The signature of the last accepted signature command. |
| `MachO.ParseThin` | icarus/parsers/macho.py:94-141 | A thin image's architecture and that signature, or None for a short header. |
| `MachO.CommandsAccepted` | icarus/parsers/macho.py:128-136 | Every signature read lies inside the declared slice. |
| `MachO.ThinConfined` | icarus/parsers/macho.py:94-141 | A thin image parses the same inside its file and cut out of it: no read leaves the slice. |
| `MachO.ParseFat` | icarus/parsers/macho.py:144-171 | The last arm64 slice that parses, or else the first slice that parses. |
| `MachO.MachoInfo` | icarus/parsers/macho.py:174-194 | Which of the parsers a file goes to. |
| `MachO.SliceParsesAsFile` | icarus/parsers/macho.py:144-194 | A slice gives what it gives as a file of its own, exactly unless it is a fat archive with a slice that parses. |
| `MachO.NestedArchive` | icarus/parsers/macho.py:144-194 | An archive in an archive: nothing in place, the inner slice when extracted. |
| `MachOImages.Reads32` | icarus/parsers/macho.py:49-50 | A 32-bit field reads back in either byte order. |
| `MachOImages.Reads64` | icarus/parsers/macho.py:156-159 | A 64-bit field of a wide archive reads back. |
| `MachOImages.ArchCodes` | icarus/parsers/macho.py:53-62 | Which architecture each processor code is. |
| `MachOImages.SignatureReads` | icarus/parsers/macho.py:65-91 | Of any list of blobs laid out as a signature, the reader gets the last entitlements that load and the last flags. |
| `MachOImages.ImageReads` | icarus/parsers/macho.py:94-141 | Of any image written out, 32 or 64 bits, in either byte order, with any other load commands around its signature command: its architecture and what its blobs say, unless past 8 MiB of commands or 16 MiB of signature. |
| `MachOImages.FileReads` | icarus/parsers/macho.py:174-194 | So does the reader of a thin file. |
| `MachOImages.ArchiveReads` | icarus/parsers/macho.py:144-171 | Of any archive of such images, wide or narrow, the reader prefers among what they mean, in order; of more than 64, nothing. |
| `Pagination.SelectedShown` | icarus/gui/server.py:77-101 | Cutting text in the query does not change what is shown or flagged. |
| `Pagination.WhatIsShown` | icarus/gui/server.py:86-101 | Text up to 1024 characters as it is, longer text cut there with an ellipsis, bytes as a label, a number that is not finite as its text; only the cut ones flagged. |
| `Pagination.RowSize` | icarus/gui/server.py:86-101 | The counted size of a row is the number of bytes of its JSON text, names and flags included. |
| `JsonText.Utf8Reads` | icarus/gui/server.py:252-254 | Each character can be read back from its bytes, whatever follows. |
| `JsonText.QuotedReads` | icarus/gui/server.py:252-254 | A quoted text reads back as itself and ends at its own quote, whatever it contains. |
| `JsonText.DecimalValue` | icarus/gui/server.py:252-254 | A number's digits are worth that number. |
| `Pagination.CellBound` | icarus/gui/server.py:86-101 | The largest JSON one shown cell can have. |
| `Pagination.RowFits` | icarus/gui/server.py:43-101 | One row's JSON stays below the trimming limit. |
| `Pagination.Entities` | icarus/gui/server.py:238-262 | A page is the next matching ids, none skipped, as many as 25 rows and 800,000 bytes of JSON allow, empty only at the end, with a continuation exactly when ids are left. |
| `Pagination.FollowPages` | icarus/gui/server.py:238-262 | Following the continuation from 0 ends and lists every matching row with a positive id once, in id order. |
| `Markdown.PassesAreEncode` | icarus/core/markdown.py:18-22 | The four passes are one character-wise code. |
| `Markdown.EachCharacter` | icarus/core/markdown.py:11-22 | What becomes of each character: backslash and pipe escaped, backtick and control characters as two hexadecimal digits, others kept. |
| `Markdown.EachText` | icarus/core/markdown.py:11-22 | Two texts together are rendered as each is. |
| `Markdown.DecodeEncode` | icarus/core/markdown.py:11-22 | Decoding undoes it. |
| `Markdown.EncodeDecode` | icarus/core/markdown.py:11-22 | Whatever decodes is an encoding. |
| `Markdown.ExactInverse` | icarus/core/markdown.py:11-22 | A text is the rendering of a value exactly when decoding gives that value. |
| `Markdown.EncodeInert` | icarus/core/markdown.py:11-22 | A rendering has no backtick and no control character, and every pipe follows an odd run of backslashes. |
| `Markdown.SanitizedInert` | icarus/core/markdown.py:11-22 | Likewise for every value, null included. |

## Left out

- IngestProgress.IngestThroughCrashes: what a parser does with one file is a function of the rows and statistics so far that only appends; a consumer that abandons the iterator, unreadable entries and symlinks are not modelled.
- IngestProgress.PhaseThroughCrashes: for parsers that look before they insert, as the filesystem parsers do; the statistics recorded for a repeated phase are its own, not those of the first ingest; the pipeline's own stamping pass after the handler, which repeats for the walk's rows the stamps they have, is not one of its steps.
- RunProtocol.Pipeline.Run: covers `resume=True` without `start_phase`, an unchanged phase list with `sanitize` last, a checkpoint under its current name, and a new pipeline object for each attempt; `resume=False`, adoption of checkpoints under the old name and output path mismatches are not modelled.
- RunProtocol.Pipeline.Handle: a handler may write any content in any steps, but neither the version table nor the sanitizer's metadata, so the skip marker of an unsanitized build is not represented.
- RunProtocol.Pipeline.InitializeDatabase: the statements are counted, not told apart; what each creates matters only for the two tables the identity protocol uses.
- Resolver.EntityResolver.ResolveScored: each call is atomic here, with failures before any change; the savepoints that make it so are the subject of `Trust`.
- Resolver.Run: `ingest_atom` is not one of the operations.
- ResolverEval.Evaluate: its second half is `ResolverEval.EvaluateMutations`, with every labelled atom in the truth, as the dataset is built.
- Matching.CandidatePairs: the warning about an oversized bucket and the order in which full-text search ranks hits are not modelled.
- Trust.IcarusQuery.Execute: the authorizer's answer is assumed to cover every statement that changes anything; reentrant calls from SQL functions are excluded.
- RowIds.ObservationDiffIgnoresIds: unresolved observations are reported with their raw id, so those rows do show a renaming.
- Detection.OrderNeverMattersIff: speaks of reads that can be repeated; a file whose readability or content changes from one parser's read to the next is outside it.
- MachO.MachoInfo: a file that cannot be opened gives None before any of this.
- Pagination.Entities: the id column is a true row id, unique, and no column is named `_truncated_fields`; the other endpoints and related entities are not modelled.
- `cmp_ratio`, the difflib comparator, which no scoring table uses.
- Regular expressions, redaction, the HYGEIA engine and its catalog: the final scan is a predicate on content.
- UUIDs, keys, timestamps and JSON texts are opaque values; floats are reals.
- File locks, file modes, hard links and reparse points.
- Schema DDL beyond initialization, migrations, full-text triggers and pragmas.
- The filesystem, archive and log parsers' formats.
- The perturbation plan and the data generator of the resolver evaluation.
- `files_changed_diff` and the path-keyed additions and removals, which use no row id.
- The command line, HTTP handling and the browser interface.
- STIX export, manifests and catalogs.
