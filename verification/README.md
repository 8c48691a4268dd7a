# A verified model of the operator's shared-resource machinery

The Open Liberty operator lets many application instances of a namespace share resources: LTPA keys, their
configuration, encryption keys, a Semeru compiler, a pool of data collectors. This project models the logic behind
that sharing and proves what it is relied on for.

* **Versioned decision trees** (`DecisionTree`, `LeafPaths`, `TreeTraversal`, `SubPaths`, `MapValidation`,
  `TreeCache`). A leaf path becomes a small index in a resource label and is turned back into a path. Both
  explicit-stack loops are proved equal to one recursive enumeration of the leaves, the two directions are inverses
  exactly when no two leaves share a path, and path validation agrees with the enumeration, with and without
  sub-paths. `TreeCache` keeps the parsed maps on the heap, because clearing the cache empties maps that were handed
  out earlier; parses that interleave between their lookup and their store get exactly what a view of the cache
  without any maps says, which is what a fresh parse would give.
* **Operator versions and migration** (`OperandVersion`, `Migration`, `MigrationLaws`). The comparison of versions is
  lexicographic on clamped numerals; replacing a path terminates, follows a chain of replace entries, stays between
  source and target, changes nothing a second time unless it is refused, and an upgrade followed by a downgrade is the
  identity, in every iteration order of the maps. A version that cannot be compared is a panic of the model, as it is
  of the code, and the panics are characterised.
* **Leader trackers and election** (`LeaderTrackers`, `MetadataNames`, `LeaderElection`, `ElectionLaws`,
  `StoredElections`, `NamedMetadata`, `TrackerRebuild`, `RebuiltTracker`). A tracker list is stored as comma-joined
  columns. Since the read and the save of an instance are two steps, safety is proved over every interleaving of
  reads, saves and rebuilds for other operator versions, including saves computed from lists stored long ago; a
  rebuilt list is one the elections can start from. What an instance is told about leadership is what the Secret then
  says, and it stays true until the leader gives the resource up.
* **LTPA rotation** (`EncryptionKeys`, `LtpaProtocol`, `LtpaLaws`, `LtpaFreshness`, `LtpaContents`, `LtpaLag`,
  `LtpaCrash`). The Secrets of a namespace are a map; reconciles mirror, create, delete and recreate them. A leader
  reaches success in at most three reconciles, and three are needed; in every history of the namespace a leader's
  success is not older than the rotations it has seen exactly when the keys, or the encryption key it uses, are not
  older than the reported rotation; with one internal key it is never older. `LtpaContents` says what the Liberty
  servers receive: when keys and configuration are made anew, the encoding of the very password the keys were made with.
* **Semeru generations** (`SemeruGenerations`). A counter and a comma-separated list are kept as strings and edited
  with substring operations, which is right because the list ascends and never exceeds the counter; that is proved for
  every run.
* **Pod injector and its controller** (`Wire`, `Injector`, `Requests`, `InjectorLaws`, `WorkerLaws`, `Moments`,
  `PerformanceData`, `PerformanceDataRuns`). A line protocol, a bounded pool whose callbacks run outside the mutex,
  and the controller that drives them, over every interleaving of their steps: when a worker is active, failed or done
  is told by the events of the run.

`Text` holds the parts of Go's `strings` and `strconv` the code relies on, with the facts about splitting, joining,
substrings and numerals used everywhere else.

Code that updates an object in place is a class whose methods are proved equal to a function on its state; the laws are
lemmas about those functions. Loops that compute something are loops here; checks that only test every element, such as
the validity of a version string, are quantifiers. Calls into code outside the repository are
parameters: the clock, random suffixes, key creation and encoding, the answers of the cluster, the order in which Go
visits a map.

## What does not hold

Some of these contradict comments in the code. Each cites the lemma with the exact condition, where the matter has one,
and lemmas with inputs that show it.

* `reconcileLTPAMetadata` says that a validated sub-path is a substring of the label and no longer than it.
  It is a prefix exactly when no scalar met on the way deviates from the label, and no longer than the label exactly when
  no such scalar is longer than the rest of the label (`TreeTraversal.SubPathIsPrefixExactly`,
  `TreeTraversal.SubPathLengthExactly`). Where the version does not occur again in the label, being a substring is being
  a prefix (`TreeTraversal.SubPathIsPartExactly`). `TreeTraversal.SubPathLeavesLabel` and
  `TreeTraversal.SubPathCanBeLonger` each give a label, one whose sub-path is no part of it and one whose is longer.
* `InsertIntoSortedLeaderTrackers` keeps the last greater position, so the list stays sorted exactly when the new name is
  not below the last but one (`LeaderTrackers.InsertionSortedExactly`).
* `getLTPAMetadataName` says it must not override another instance's untracked resource. For a key this holds exactly when
  the first usable predetermined suffix, which is never looked up in the cluster, has no key Secret, or, when there is no
  usable one, tracker and cluster are in step, since the flag of the search is never raised again
  (`MetadataNames.KeyNameIsFreeExactly`, `MetadataNames.PredeterminedKeyIsReused`, `MetadataNames.StaleFlag`). For a
  configuration the search looks at the key Secrets too, so it holds only as far as configurations have a key of the same
  suffix (`MetadataNames.ConfigNameIsFreeExactly`).
* The search for the latest tree version misses a key within the bound that equals v0_0_0 but is spelled differently
  (`OperandVersion.FailsExactly`). Some iteration order makes a downgrade panic exactly when entries lead back from the
  path to one with an empty start, or when there is no latest version and an older entry leads to the path
  (`MigrationLaws.DowngradePanicsExactly`, `MapValidation.AcceptedPanicsExactly`).
  Migrating the result again is refused exactly when its version, which may be any key of the tree, is not a valid operand
  version (`MigrationLaws.DowngradeIdempotent`).
* Rebuilding a tracker panics on a tracked resource whose name is shorter than the root name, after its label was changed
  (`TrackerRebuild.RebuildOne`).
* `ValidateMaps` accepts empty and two-segment paths in replace entries (`MapValidation.AcceptedIsShapedExactly`,
  `MapValidation.TwoSegmentsAlwaysPass`). An entry with an empty start can be added to any accepted map, and then a
  downgrade of its path panics whatever the target is (`MapValidation.EmptyStartIsAccepted`).
* With two internal encryption keys a successful reconcile may publish a label behind a rotation it has seen: exactly when
  both the rotation of the keys and that of the valid internal key are behind the reported one
  (`LtpaFreshness.SuccessIsCurrentExactly`), which a history of edits and reconciles leads to (`LtpaLag.LagIsReached`).
* A user's encryption key Secret without its key field panics a reconcile that is to make the LTPA keys or their
  configuration: exactly when an internal key Secret is there and none is valid (`LtpaCrash.CrashesExactly`,
  `LtpaCrash.LeaderCrashesExactly`, `LtpaCrash.EmptyUserKeyCrashes`).
* Compiler resources of a generation that never deployed successfully are not cleaned up, in any run
  (`SemeruGenerations.UnrecordedGenerationRemains`, `SemeruGenerations.UnrecordedGenerationHappens`).
* A completion callback that runs before its worker is appended hides the completion for good
  (`InjectorLaws.EarlyCallbackHidesCompletion`), and a lowered limit can stay out of reach
  (`InjectorLaws.FreePlaceIsRefilled`).
* The check for a lost connection protects against one restart only (`PerformanceDataRuns.AnyNumberOfStarts`): with every
  update stored, an answer "idle" sends a start exactly when no collection shows in progress or a failure was stored, and
  that is never cleared (`PerformanceDataRuns.StartIsSentExactly`).
* Completed can be stored although a start sent earlier has just been accepted. At the moment it is stored a successful
  callback is later than every accepted start and complete exactly when each of those accepted since the poll was followed
  by another such callback (`PerformanceDataRuns.StoredCompletionExactly`); `PerformanceDataRuns.LateStartIsOverlooked` and
  `PerformanceDataRuns.LateStartIsReached` give a run in which one was not.
* Clearing the tree cache empties maps that readers still hold (`TreeCache.HeldMapsAreEmptied`).

## Model

| member | source | states |
|---|---|---|
| DecisionTree.ListingUnique | utils/tree/tree.go:366-382 | A map has one listing in ascending key order, so the traversals do not depend on Go's map order. |
| DecisionTree.DescendFacts | utils/tree/tree.go:310-361 | Popping a frame and pushing it back advanced with its next child loses and repeats no leaf, and the remaining work shrinks. |
| DecisionTree.GetPathFromLeafIndex | utils/tree/tree.go:295-363 | The stack loop terminates and returns the leaf at the given position of the recursive enumeration, an error outside of it. |
| DecisionTree.GetLeafIndex | utils/tree/tree.go:384-466 | The stack loop terminates and returns the first position of a dotted path in the same enumeration, or -1. |
| LeafPaths.IndexThenPath | utils/tree/tree.go:295-466 | An index found for a dotted path leads back to the path. |
| LeafPaths.PathThenFirstIndex | utils/tree/tree.go:295-466 | A path found for an index leads back to the first index that has that path. |
| LeafPaths.PathThenIndex | utils/tree/tree.go:295-466 | With dot-free keys and lists of scalars that render differently every index survives the round trip. |
| LeafPaths.LeavesDistinct | utils/tree/tree.go:384-466 | Such trees have no two leaves with one path. |
| LeafPaths.RoundTripExactly | utils/tree/tree.go:295-466 | For any tree all indices survive exactly when no two leaves share a path. |
| LeafPaths.DottedKeyCollides | utils/tree/tree.go:295-466 | A dotted key can break it. |
| LeafPaths.HasIndexExactly | utils/tree/tree.go:384-466 | A path with a dot has an index exactly when it is a leaf path of its version, another exactly when it is a version; then it is 0. |
| LeafPaths.SmallerKeyFirst | utils/tree/tree.go:310-382 | Where leaf paths do not collide, all leaves under a smaller key have smaller indices. |
| TreeTraversal.GetCastedListElement | utils/tree/tree.go:220-270 | Booleans match "true" and "false", strings everything else, and the empty element nothing. |
| TreeTraversal.ListHoldsExactly | utils/tree/tree.go:220-270 | A list has an element exactly when an item of the right type renders as it. |
| TreeTraversal.CanTraverseTree | utils/tree/tree.go:131-219 | The loop computes the walk down the maps, with the early ends that sub-paths allow. |
| TreeTraversal.ValidatedPathHasIndex | utils/tree/tree.go:131-219 | Every non-empty path that validation returns, strictly or not, has a leaf index. |
| TreeTraversal.StrictAcceptsExactlyLeaves | utils/tree/tree.go:126-219 | On clean trees a path of three or more segments validates to itself exactly when it is a leaf path. |
| SubPaths.SubPathsExactly | utils/tree/tree.go:131-219 | With sub-paths allowed, on clean trees a label of three or more segments validates to exactly: itself, when it is a leaf path; its beginning up to an element of a list; or its beginning up to a scalar, and that scalar. |
| SubPaths.LeafLabelIsValid | internal/controller/ltpa_keys_sharing.go:60-61 | So a label that is a leaf path validates to itself. |
| SubPaths.ShortPathsExactly | utils/tree/tree.go:131-149 | Of the shorter paths exactly the empty one and a version with a value pass, and nothing is validated of them. |
| TreeTraversal.SubPathIsPrefixExactly | internal/controller/ltpa_keys_sharing.go:60-61 | A sub-path that CanTraverseTree returns is a prefix of the label exactly when no scalar on the way deviates from the label. |
| TreeTraversal.SubPathLengthExactly | internal/controller/ltpa_keys_sharing.go:60-61 | It is no longer than the label exactly when no scalar on the way is longer than the rest of the label. |
| TreeTraversal.SubPathIsPartExactly | internal/controller/ltpa_keys_sharing.go:60-61 | In a label whose version occurs only at its start it is a substring exactly when no scalar deviates. |
| TreeTraversal.SubPathCanBeLonger | internal/controller/ltpa_keys_sharing.go:60-61 | A label for which the sub-path is longer. |
| TreeTraversal.SubPathLeavesLabel | utils/tree/tree.go:166-172 | A scalar reached early is returned without being compared to the label. |
| MapValidation.ValidateLabels | utils/tree/tree.go:113-122 | Accepts labels whose both ends traverse the tree strictly, in any visiting order. |
| MapValidation.ValidateMaps | utils/tree/tree.go:97-124 | Accepts exactly trees whose versions have a leaf, with replace versions in the tree and traversable entries. |
| MapValidation.AcceptedExactly | utils/tree/tree.go:97-124 | Every version has a leaf, every replace version is in the tree, and both ends of every entry traverse it. |
| MapValidation.TraversableMeans | utils/tree/tree.go:126-219 | A traversable path starts at a tree version; with three segments it is returned whole and has a leaf index. |
| MapValidation.AcceptedIsShapedExactly | utils/tree/tree.go:97-124 | Accepted maps keep the migration's version comparisons in range exactly when no entry has an empty end. |
| MapValidation.AcceptedEntriesAreLeaves | utils/tree/tree.go:113-122 | The ends of accepted entries are all leaf paths exactly when each has three segments or more or is a value of its version's root. |
| MapValidation.AcceptedPanicsExactly | utils/tree/tree.go:585-614 | On accepted maps some order makes a downgrade panic exactly when entries lead back to an empty start, or no latest version exists and an older entry leads to the path. |
| MapValidation.EmptyStartIsAccepted | utils/tree/tree.go:113-122 | An entry with an empty start can be added to any accepted map, and then every downgrade of its path panics. |
| MapValidation.TwoSegmentsAlwaysPass | utils/tree/tree.go:142-145 | A two-segment path passes whatever its value is; it is a leaf exactly when the version holds that value. |
| OperandVersion.GetFirstNumberFromString | utils/utils.go:1207-1216 | The loop returns the longest prefix of digits. |
| OperandVersion.LeadingDigitsUnique | utils/utils.go:1207-1216 | There is only one such prefix. |
| OperandVersion.PartIsParseInt | utils/utils.go:1341-1342 | A component is its leading numeral, clamped to an int64 as the dropped parse error leaves it. |
| OperandVersion.ValidExactly | utils/utils.go:1314-1335 | A valid operand version is a "v" and three pieces joined by underscores, each beginning with a digit. |
| OperandVersion.TreeKeyExactly | utils/utils.go:1195-1205 | What the search takes for a version is any "v" with three pieces, numbered or not. |
| OperandVersion.WrittenVersion | utils/utils.go:1337-1348 | A version written from three numbers is valid, and its components are these numbers. |
| OperandVersion.CompareOperandVersion | utils/utils.go:1337-1348 | The loop returns the first difference of the components, and the subtraction never overflows. |
| OperandVersion.DiffIsLex | utils/utils.go:1337-1348 | The sign of that difference is the lexicographic order of the components. |
| OperandVersion.DiffTransitive | utils/utils.go:1337-1348 | The order is transitive. |
| OperandVersion.VersionOrder | utils/utils.go:1337-1348 | On three-component versions it is a total preorder whose ties are equal components. |
| OperandVersion.GetLatestTreeMapOperandVersion | utils/tree/tree.go:550-564 | In any map order the search returns the greatest tree key not above the bound, or fails. |
| OperandVersion.LatestUnique | utils/tree/tree.go:550-564 | When keys compare distinct the result does not depend on the map order. |
| OperandVersion.LatestOfMember | utils/tree/tree.go:550-564 | A bound that is a tree version is found, up to spelling. |
| OperandVersion.FailsExactly | utils/tree/tree.go:551-563 | On version keys the search fails exactly when every key within the bound is an unusual spelling of v0_0_0. |
| Migration.Inspect | utils/tree/tree.go:602-611 | An entry is followed back exactly when it leads to the path from an older version not below the latest; it panics exactly when one of the comparisons made has a version without three parts. |
| Migration.FindHit | utils/tree/tree.go:602-611 | One pass over the entries of the current version, in any map order, stops at the first that is followed or panics, and finds none only if there is none. |
| Migration.Downgrade | utils/tree/tree.go:596-614 | On any version-keyed map the downgrade loop terminates by version descent and follows entries back until none is left or one panics. |
| Migration.Upgrade | utils/tree/tree.go:616-637 | The upgrade loop takes the entries of the ascending replace versions in turn. |
| Migration.ReplacePath | utils/tree/tree.go:585-639 | On any version-keyed map, whatever its entries are, it terminates with an outcome the specification allows for the iteration order taken. |
| MigrationLaws.ChainRises | utils/tree/tree.go:616-637 | Versions rise along a chain of well-filed entries. |
| MigrationLaws.UpgradeThenDowngrade | utils/tree/tree.go:585-639 | Migrating up to any newer version and back to the version of the path returns the path. |
| MigrationLaws.UpgradeBounds | utils/tree/tree.go:616-637 | An upgrade follows a rising chain and, when no entry jumps over the target, ends at or below it. |
| MigrationLaws.DowngradeBounds | utils/tree/tree.go:596-614 | A downgrade follows a chain of reversed entries to a path that has none left, between target and source. |
| MigrationLaws.UpgradeIdempotent | utils/tree/tree.go:585-639 | Upgrading again to the same target changes nothing. |
| MigrationLaws.DowngradeIdempotent | utils/tree/tree.go:585-639 | Downgrading again to the same target changes nothing exactly when the version of the result is a valid operand version; otherwise it is refused. |
| MigrationLaws.OneEntryMoves | utils/tree/tree.go:616-637 | A replace map with one entry between any two versions meets all these conditions, and an upgrade takes the entry. |
| MigrationLaws.DowngradePanicsExactly | utils/tree/tree.go:594-614 | Some iteration order makes a downgrade panic exactly when entries lead back from the path to an empty start, or no latest version exists and an older entry leads to the path. |
| MigrationLaws.EmptyStartPanics | utils/tree/tree.go:602-611 | When an empty start is all that leads to the path every downgrade of it panics, whatever the target and the order. |
| MigrationLaws.DowngradeIsDeterministic | utils/tree/tree.go:594-614 | With unique destinations and tree keys that compare distinct a downgrade has one outcome in all orders. |
| MigrationLaws.ShapedPanicsExactly | utils/tree/tree.go:594-611 | Without empty ends every order panics exactly when there is no latest version and an older entry leads to the path. |
| LeaderTrackers.CommaSeparatedStringContains | utils/utils.go:1301-1312 | The loop returns the first position of a value in the list, or -1. |
| LeaderTrackers.GetCommaSeparatedString | utils/utils.go:1281-1299 | The loop returns the element at a position, the empty string when there is none. |
| LeaderTrackers.CustomizeLeaderTracker | utils/leader_tracker.go:165-198 | The loop writes the four columns as comma-joined strings. |
| LeaderTrackers.DecodeLeaderTracker | utils/leader_tracker.go:200-261 | The columns are read back as trackers, rejected when they are out of step. |
| LeaderTrackers.DecodesExactly | utils/leader_tracker.go:200-261 | A Secret reads as a list exactly when it has all columns or none, and either all are empty and so is the list, or the list is not and its columns are those of the Secret, split at the commas. |
| LeaderTrackers.StoreThenRead | utils/leader_tracker.go:165-261 | Storing and reading a list gives the same list exactly when no field holds a comma and it is not one blank tracker. |
| LeaderTrackers.ReadThenStore | utils/leader_tracker.go:165-261 | What was read is stored again as it was. |
| LeaderTrackers.DecodedIsCommaFree | utils/leader_tracker.go:200-261 | Whatever is read has comma-free fields. |
| LeaderTrackers.InsertIntoSortedLeaderTrackers | utils/leader_tracker.go:149-163 | Inserts before the last tracker with a greater name, at the end when there is none. |
| LeaderTrackers.InsertionKeepsOrder | utils/leader_tracker.go:149-163 | Insertion adds one tracker and keeps the others in their order. |
| LeaderTrackers.InsertionSortedExactly | utils/leader_tracker.go:151-155 | A sorted list stays sorted exactly when the new name is not below the last but one. |
| MetadataNames.GetLTPAMetadataName | internal/controller/ltpa_keys_sharing.go:120-176 | A tracked path gets its tracked name, otherwise the first usable predetermined suffix, otherwise a random one not in the names column. |
| MetadataNames.FirstUsableExactly | internal/controller/ltpa_keys_sharing.go:129-157 | The predetermined suffix taken is the one at the first position with a usable one. |
| MetadataNames.SearchRandomSuffix | internal/controller/ltpa_keys_sharing.go:161-175 | The loop returns the first draw that ends it; that suffix does not occur in the names column. |
| MetadataNames.NewNameIsNew | internal/controller/ltpa_keys_sharing.go:161-175 | Such a name differs from every tracked name. |
| MetadataNames.LookupByPath | internal/controller/ltpa_keys_sharing.go:122-126 | The column lookup finds the name of the first tracker with the path, and nothing for an untracked path; an empty list takes the empty path for tracked. |
| MetadataNames.DrawnNameIsFreeExactly | internal/controller/ltpa_keys_sharing.go:161-175 | No draw of the random loop hands out a suffix with a key Secret exactly when tracker and cluster are in step. |
| MetadataNames.DrawableExactly | internal/controller/ltpa_keys_sharing.go:161-175 | The search can end with exactly the untracked suffixes that have no key Secret, and with every untracked one when a tracked suffix has none. |
| MetadataNames.KeyNameIsFreeExactly | internal/controller/ltpa_keys_sharing.go:120-176 | For an untracked path the name of a key is never in use exactly when the first usable predetermined suffix has no key Secret or, without a usable one, tracker and cluster are in step. |
| MetadataNames.ConfigNameIsFreeExactly | internal/controller/ltpa_keys_sharing.go:120-176 | The same for a configuration, whose suffix is looked up among the key Secrets: each untracked configuration needs a key of its suffix, and no tracked suffix may lack one. |
| MetadataNames.PredeterminedKeyIsReused | internal/controller/ltpa_keys_sharing.go:129-157 | A usable predetermined suffix of an existing untracked key is handed out again. |
| MetadataNames.StaleFlag | internal/controller/ltpa_keys_sharing.go:163-172 | After a missing but tracked suffix, one that exists in the cluster is accepted. |
| LeaderElection.TrackerList.ClearOwnerIfMatchingAndSharesLastPathParent | utils/leader_tracker.go:108-120 | Clears the owner exactly when it is the instance and the paths share their parent. |
| LeaderElection.SiblingsExactly | utils/leader_tracker.go:108-120 | Paths share their parent exactly when they differ in their last segment at most. |
| LeaderElection.TrackerList.ClearOwnerIfMatching | utils/leader_tracker.go:97-106 | Clears the owner exactly when it is the instance. |
| LeaderElection.TrackerList.ClearGroup | internal/controller/resource_sharing.go:76-78 | The loop clears the instance from the whole sibling group and nothing else. |
| LeaderElection.FindByName | internal/controller/resource_sharing.go:64-69 | The loop finds the last tracker with the name. |
| LeaderElection.TrackerSecret.ReconcileLeaderWithState | internal/controller/resource_sharing.go:63-144 | The list in memory, the answer and the stored Secret after an election. |
| LeaderElection.TrackerSecret.RemoveLeader | internal/controller/resource_sharing.go:237-259 | The instance loses every tracker; the Secret is deleted exactly when nobody owns anything, saved when something changed. |
| ElectionLaws.ElectKeepsGood | internal/controller/resource_sharing.go:63-144 | An election keeps names unique and one tracker per instance and sibling group, provided the metadata fits the tracker it names. |
| ElectionLaws.TakeOverExactly | internal/controller/resource_sharing.go:129-143 | Without that provision a take-over keeps it exactly when the instance owns nothing else in the tracker's own group. |
| ElectionLaws.InterleavingsAreSafe | internal/controller/resource_sharing.go:55-61 | In every interleaving of reads, saves and rebuilds, across operator upgrades, everything stored keeps both, provided each saved metadata fits the list that was read and each rebuilt list is good. |
| ElectionLaws.GroupsFit | internal/controller/resource_sharing.go:55-61 | That provision holds in every interleaving in which each name keeps its sibling group, however old the lists read are. |
| NamedMetadata.NamedMetadataFits | internal/controller/ltpa_keys_sharing.go:65-82 | Metadata fits the list its name was looked up in, whether the name was tracked, predetermined or drawn. |
| NamedMetadata.FitsAfterElectionExactly | internal/controller/resource_sharing.go:63-144 | Another election in between leaves it fitting exactly unless it adds a tracker of the same name in another sibling group. |
| NamedMetadata.FitsAfterRemoval | internal/controller/resource_sharing.go:237-259 | A removal in between always leaves it fitting. |
| ElectionLaws.AnswerMatchesOwner | internal/controller/resource_sharing.go:63-144 | The answer of an election agrees with the owner it leaves. |
| ElectionLaws.ElectionIsLocal | internal/controller/resource_sharing.go:63-144 | An election changes no ownership of any other instance. |
| ElectionLaws.RemovalIsLocal | internal/controller/resource_sharing.go:237-259 | Removal leaves the instance owning nothing and everyone else what they owned. |
| ElectionLaws.HandOverNeedsRelease | internal/controller/resource_sharing.go:63-144 | In every serial run a resource changes hands only after a step by its owner released it. |
| StoredElections.ElectionIsStored | internal/controller/resource_sharing.go:63-144 | After an election that names a leader, the Secret reads back as a list with this leader as the owner under the name, with the path index answered, in the record that was listed or in one made from the metadata; an election names none, and stores nothing, exactly when it may not elect and nobody owns the name. |
| StoredElections.RestIsGivenUp | internal/controller/resource_sharing.go:71-143 | After an election that names a leader, the instance owns no other tracker of the sibling group; only one that already leads a tracker without a parent path keeps what it has. |
| StoredElections.RemovalIsStored | internal/controller/resource_sharing.go:237-259 | After a removal the Secret reads back as the list without the instance; without an owner left there is no Secret. |
| StoredElections.RemovalFreesOwner | internal/controller/resource_sharing.go:237-259 | So the Secret lists the instance nowhere and everybody else as before. |
| StoredElections.LeadershipIsKept | internal/controller/resource_sharing.go:63-144 | In every serial run on the stored Secret whose metadata fit the lists read, once an instance was told that it leads, nobody else is told so before a turn of that instance gave the resource up. |
| StoredElections.UnreadableIsDropped | utils/leader_tracker.go:200-261 | Reading a Secret whose columns are out of step deletes it. |
| TrackerRebuild.DecodeLabel | internal/controller/resource_sharing.go:268-282 | A label decodes when it has one dot and its version has a leaf at that index. |
| TrackerRebuild.DecodedExactly | internal/controller/resource_sharing.go:268-282 | A label stands for a path exactly when it is a version and an index with a dot between them, and the path is the leaf there. |
| TrackerRebuild.MoveOne | internal/controller/resource_sharing.go:284-306 | A label of another version gets the migrated path and its new index; a path that cannot be migrated is stored empty. |
| TrackerRebuild.UnmigratableIsEmpty | internal/controller/resource_sharing.go:284-306 | A label of a version that is not a valid operand version keeps its value and is listed without a path. |
| TrackerRebuild.RebuildOne | internal/controller/resource_sharing.go:262-319 | A resource is skipped exactly when its label does not decode; otherwise its entry has its name suffix and no owner, or the migration panics, or the name is shorter than the root name and slicing it panics after the label was changed. |
| TrackerRebuild.UpdateLeaderTrackers | internal/controller/resource_sharing.go:261-323 | The list grows by exactly one entry per tracked resource, inserted in order, and labels follow the entries; after a panic so it is for the resources before the one that panics, and that one is left as the panic leaves it. |
| TrackerRebuild.LeafPathDecodes | internal/controller/resource_sharing.go:281-289 | The index written for a leaf path decodes to that path. |
| TrackerRebuild.MigratedIsLeaf | internal/controller/resource_sharing.go:284-291 | With leaf-valued replace entries migration never panics and ends at a leaf path. |
| TrackerRebuild.EntryDecodes | internal/controller/resource_sharing.go:287-318 | After the rebuild the path index of an entry decodes to its path. |
| TrackerRebuild.AllEntriesDecode | internal/controller/resource_sharing.go:261-323 | So it is for all entries of a rebuilt list. |
| TrackerRebuild.NonNumericLabelIsIndexZero | internal/controller/resource_sharing.go:281 | Because the parse error is dropped, an index that is no number counts as 0. |
| RebuiltTracker.InsertedAllNames | internal/controller/resource_sharing.go:184-187 | Inserting entries keeps names unique exactly when the names of the list and of the entries all differ. |
| RebuiltTracker.RebuiltIsGoodExactly | internal/controller/resource_sharing.go:146-188 | Rebuilding on a list without owners and commas gives one the elections can start from exactly when all names differ. |
| RebuiltTracker.RebuiltIsGood | internal/controller/resource_sharing.go:261-323 | So a list rebuilt from resources with distinct suffixes is such a list, and nobody owns anything in it. |
| EncryptionKeys.Namespace.MirrorEncryptionKeySecretState | internal/controller/password_encryption_key_sharing.go:374-419 | The Secrets after mirroring a user's key. |
| EncryptionKeys.Namespace.ReconcileEncryptionKey | internal/controller/password_encryption_key_sharing.go:30-128 | The Secrets and the reported rotation after reconciling the encryption key, leader or not. |
| EncryptionKeys.MirrorFacts | internal/controller/password_encryption_key_sharing.go:355-419 | The internal key equals the user's, its rotation moves exactly when the key changes, nothing else changes, and mirroring is idempotent. |
| EncryptionKeys.ReportedRotation | internal/controller/password_encryption_key_sharing.go:30-128 | With one internal key a reported rotation is that of the valid internal key. |
| EncryptionKeys.LeaderReports | internal/controller/password_encryption_key_sharing.go:30-128 | A leader succeeds exactly when a user provides a key, and reports the rotation of the AES key where there is one, otherwise that of the password key, of an empty key none; afterwards there is an internal key exactly for each key of a user. |
| EncryptionKeys.FollowerReports | internal/controller/password_encryption_key_sharing.go:30-128 | Who does not lead changes nothing, and reports a rotation only of an internal key that is the same as the key of the user. |
| EncryptionKeys.KeyInUse | internal/controller/password_encryption_key_sharing.go:247-283 | The internal key in force is the AES key when it is there and valid, and the password key when that is valid and there is no AES key. |
| LtpaProtocol.Reconciler.GenerateLTPAKeys | internal/controller/ltpa_keys_sharing.go:225-314 | The Secrets and the rotation after generating the keys, including the errors. |
| LtpaContents.KeysExactly | internal/controller/ltpa_keys_sharing.go:225-314 | Keys that exist are never touched; missing ones are made by the leader alone, from the given password and the encryption key in force, exactly when that key can be read and the tool gives a file, and the Secret then holds this password, this file and both times. |
| LtpaProtocol.Reconciler.PrepareConfig | internal/controller/ltpa_keys_sharing.go:392-480 | The branch for a missing configuration: create it, copy it from old keys, or delete old keys. |
| LtpaContents.ConfigExactly | internal/controller/ltpa_keys_sharing.go:392-480 | A configuration that was missing holds the encoding of the raw password of the keys for the encryption key in force, or from keys of an old operator their own password, with the time of the keys. |
| LtpaProtocol.Reconciler.CheckConfig | internal/controller/ltpa_keys_sharing.go:482-562 | A stale configuration is deleted; a current one is published with the later of its two rotations. |
| LtpaContents.CheckedExactly | internal/controller/ltpa_keys_sharing.go:482-562 | Where the encryption key can be read, the check succeeds exactly for a configuration in step with keys and encryption key whose times are numbers; one out of step is deleted, and nothing else. |
| LtpaContents.CheckedPublishes | internal/controller/ltpa_keys_sharing.go:520-562 | After a success the mounted XML holds the password of the configuration, with the later of its rotations as the label. |
| LtpaProtocol.Reconciler.GenerateLTPAConfig | internal/controller/ltpa_keys_sharing.go:317-562 | The whole step, including what an instance that does not lead waits for. |
| LtpaContents.FollowerWaits | internal/controller/ltpa_keys_sharing.go:351-378 | Who does not lead changes nothing and succeeds exactly when the published label is at least as late as the rotations it has seen. |
| LtpaContents.KeyedExactly | internal/controller/ltpa_keys_sharing.go:380-391 | The configuration is the keyed one exactly when sharing is enabled and a user provides an encryption key. |
| LtpaProtocol.Reconciler.ReconcileLTPA | internal/controller/openlibertyapplication_controller.go:609-628 | Keys, the maximum of the rotations, configuration, in the order of the reconcile loop. |
| LtpaContents.SuccessServes | internal/controller/ltpa_keys_sharing.go:225-562 | After a leader's success the servers receive the password of the configuration that was there; without one, what the encoder gives for the raw password of the keys and the encryption key in force, or the password of keys of an old operator. |
| LtpaContents.FirstSuccess | internal/controller/ltpa_keys_sharing.go:225-562 | Starting without keys, that is the encoding of the very password the keys file was made with, both for the same encryption key. |
| LtpaContents.FullPublishes | internal/controller/openlibertyapplication_controller.go:602-628 | After any leader's success, mirroring included, the servers receive the password of the configuration in force, which was made at the time of the keys in force. |
| LtpaProtocol.GetMaxTime | utils/utils.go:453-472 | The loop returns the maximum of the times, an empty one counting as 0. |
| LtpaLaws.Progress | internal/controller/ltpa_keys_sharing.go:393-520 | A leader's reconcile that fails has deleted a stale configuration or, once that is gone, keys of an old operator. |
| LtpaLaws.ConvergesInThree | internal/controller/ltpa_keys_sharing.go:225-562 | From any state with the required fields one of three successive reconciles succeeds. |
| LtpaLaws.TwoAreNotEnough | internal/controller/ltpa_keys_sharing.go:404-413 | A stale configuration beside keys of an old operator needs three. |
| LtpaFreshness.FullConvergesInThree | internal/controller/openlibertyapplication_controller.go:602-628 | While users leave their keys alone one of three successive whole reconciles of a leader, the mirroring included, succeeds. |
| LtpaFreshness.MaxIsLater | utils/utils.go:453-472 | The maximum, written out and read back, is the later of the two times. |
| LtpaFreshness.SuccessIsCurrent | internal/controller/ltpa_keys_sharing.go:482-562 | With one internal key at most a success ends with a label at least as late as both rotations, whoever reconciles. |
| LtpaFreshness.LeaderUnblocks | internal/controller/ltpa_keys_sharing.go:351-378 | A leader's success lets every instance through that has seen the same rotations. |
| LtpaFreshness.SuccessIsStable | internal/controller/ltpa_keys_sharing.go:350-562 | After a leader's success the same reconcile succeeds again and changes no Secret. |
| LtpaFreshness.EverySuccessIsCurrent | internal/controller/openlibertyapplication_controller.go:602-628 | The freshness holds in every history of a namespace that starts empty. |
| LtpaFreshness.SuccessIsCurrentExactly | internal/controller/ltpa_keys_sharing.go:482-562 | Whatever internal keys there are, a success ends with a label at least as late as both rotations exactly when, for a leader, the rotation of the keys or that of the valid internal key is not behind the reported one. |
| LtpaFreshness.EverySuccessExactly | internal/controller/openlibertyapplication_controller.go:602-628 | So it is in every history of a namespace that starts empty. |
| LtpaFreshness.TwoInternalKeysLag | internal/controller/password_encryption_key_sharing.go:247-283 | A store with two internal keys for which the label lags behind a rotation that was seen. |
| LtpaLag.LagIsReached | internal/controller/password_encryption_key_sharing.go:30-128 | A history of edits and reconciles from the empty namespace leads to such a lag. |
| LtpaCrash.CrashesExactly | internal/controller/password_encryption_key_sharing.go:286-297 | A whole reconcile panics exactly when sharing is enabled, an internal key Secret is there but none is valid, and this instance is to make the keys, or the configuration from keys with a raw password. |
| LtpaCrash.LeaderCrashesExactly | internal/controller/password_encryption_key_sharing.go:286-297 | In every history a leader that is to make the keys panics exactly when users provide key Secrets and none holds a key. |
| LtpaCrash.EmptyUserKeyCrashes | internal/controller/password_encryption_key_sharing.go:286-297 | A namespace with one such Secret. |
| SemeruGenerations.Compiler.GetGeneration | internal/controller/semeru_compiler.go:200-208 | Defaults to 1 and records it; without status references it is 1 and nothing is recorded. |
| SemeruGenerations.Compiler.CreateNewSemeruGeneration | internal/controller/semeru_compiler.go:211-223 | Increments the counter in 64 bits, back to 1 when it is no number; without status references nothing changes. |
| SemeruGenerations.NoNumberRestarts | internal/controller/semeru_compiler.go:211-223 | A counter that is no number starts again at 1. |
| SemeruGenerations.CounterOverflows | internal/controller/semeru_compiler.go:211-223 | The largest counter is followed by the smallest 64-bit number. |
| SemeruGenerations.Compiler.RecordCompleted | internal/controller/semeru_compiler.go:171-185 | Appends the current generation unless the substring test finds it, and marks old instances; without status references nothing is recorded. |
| SemeruGenerations.Compiler.DeleteOlder | internal/controller/semeru_compiler.go:236-293 | Deletes the resources of the older generations in list order up to the first failure. |
| SemeruGenerations.Compiler.TakeOutAll | internal/controller/semeru_compiler.go:295-303 | The loop takes the generations out of the string one by one. |
| SemeruGenerations.Compiler.DeleteCompletedSemeruInstances | internal/controller/semeru_compiler.go:230-306 | The status and the resources after a cleanup, the status untouched when a deletion fails, and whether it succeeded. |
| SemeruGenerations.CleanableExactly | internal/controller/semeru_compiler.go:230-293 | It succeeds exactly when the deletion of no older listed generation fails. |
| SemeruGenerations.FailedCleanup | internal/controller/semeru_compiler.go:230-293 | A deletion that fails leaves its resources and the whole list. |
| SemeruGenerations.ContainsIsMembership | internal/controller/semeru_compiler.go:178 | The substring test is membership when no listed generation exceeds the one looked for. |
| SemeruGenerations.SubstringIsNotMembership | internal/controller/semeru_compiler.go:178 | Without that bound it is not. |
| SemeruGenerations.TakeOutHead | internal/controller/semeru_compiler.go:296-298 | Taking out the head of a longer list leaves its tail unharmed. |
| SemeruGenerations.TakeOutOnly | internal/controller/semeru_compiler.go:296-302 | A generation alone in the list stays. |
| SemeruGenerations.CleaningKeeps | internal/controller/semeru_compiler.go:295-303 | The substring edits on an ascending list drop exactly the older generations, but never the last element. |
| SemeruGenerations.CleanupExactly | internal/controller/semeru_compiler.go:230-306 | A cleanup leaves the current generation alone in the list exactly when it was listed. |
| SemeruGenerations.CleanupDeletesExactly | internal/controller/semeru_compiler.go:236-293 | It deletes the resources of exactly the listed older generations. |
| SemeruGenerations.RunStands | internal/controller/semeru_compiler.go:171-223 | In every run from an empty status the string lists ascending decimals bounded by the current generation. |
| SemeruGenerations.MembershipInRun | internal/controller/semeru_compiler.go:178 | So the substring test is membership in every run. |
| SemeruGenerations.CleanupInRun | internal/controller/semeru_compiler.go:230-306 | A cleanup in any run leaves exactly the current generation listed and its resources in place. |
| SemeruGenerations.RecordedIsListedOrGone | internal/controller/semeru_compiler.go:171-306 | In every run, deletions that fail included, a generation that was recorded once is still listed, or it was superseded and its resources are gone. |
| SemeruGenerations.DisabledDeletesCurrent | internal/controller/semeru_compiler.go:186-196 | Disabling the compiler deletes the resources of the current generation alone. |
| SemeruGenerations.UnrecordedGenerationRemains | internal/controller/semeru_compiler.go:171-185 | In every run the resources of a generation that is never recorded stay, unless the compiler is disabled while it is current. |
| SemeruGenerations.UnrecordedGenerationHappens | internal/controller/semeru_compiler.go:171-185 | A run in which that happens. |
| Wire.HandleRead | utils/socket/pod_injector.go:308-338 | The loop processes the lines of one read in order and gives up at the first malformed one. |
| Wire.AllHandled | utils/socket/pod_injector.go:308-338 | Well-formed lines are all processed, one message for each that has text. |
| Wire.StopsAtMalformed | utils/socket/pod_injector.go:315-328 | What stands before the first malformed line is processed, and nothing after it. |
| Wire.SentIsHandled | utils/socket/pod_injector.go:76-78 | Clean messages delivered in one read are processed as exactly those messages, in order. |
| Wire.HandledIsClean | utils/socket/pod_injector.go:315-328 | Whatever is processed is clean, whatever was sent. |
| Wire.DeliveredExactly | utils/socket/pod_injector.go:315-328 | A message sent alone is processed as itself exactly when it is clean. |
| Wire.DecodeLinperfAttr | utils/utils.go:213-224 | The loop collects the well-formed pairs, later ones winning. |
| Wire.AttributesRoundTrip | utils/utils.go:205-224 | Decoding gives the encoded values exactly when uid and name hold no separator and the name does not end in a space. |
| Wire.KeysDiffer | utils/socket/pod_injector.go:202-212 | Different pods, namespaces or uids have different worker keys. |
| Requests.ActionReachesKey | utils/socket/pod_injector.go:206-303 | Each action, sent with encoded attributes, reaches the worker key of the pod, the namespace and the uid; one by another name is ignored. |
| Requests.ResizeArrives | utils/socket/pod_injector.go:221-237 | A resize request asks for the number it was sent with, when that is between 1 and 100. |
| Injector.Server.HasWorker | utils/socket/pod_injector.go:341-348 | The loop finds a worker with the key exactly when there is one. |
| Injector.Server.RemoveWorker | utils/socket/pod_injector.go:350-373 | The first worker with the key goes, the others keep their order. |
| Injector.Server.SetMaxWorkers | utils/socket/pod_injector.go:221-237 | The limit and the answer after a resize request. |
| Injector.Server.Start | utils/socket/pod_injector.go:238-247 | A start is refused, or claims the mutex and forgets the earlier completion and file name. |
| Injector.Server.FinishStart | utils/socket/pod_injector.go:269-277 | The worker is appended when the copy was launched. |
| Injector.Server.Complete | utils/socket/pod_injector.go:278-281 | Worker, completion and error of the key are gone. |
| Injector.Server.GetStatus | utils/socket/pod_injector.go:282-293 | The status, in the order of precedence of the checks. |
| Injector.Server.ProcessAction | utils/socket/pod_injector.go:206-303 | The state and the answer after any message, nothing without a pod name and a namespace. |
| InjectorLaws.WithoutShrinks | utils/socket/pod_injector.go:350-373 | With distinct keys removal takes away exactly the worker of the key. |
| InjectorLaws.AlwaysBounded | utils/socket/pod_injector.go:206-303 | In every interleaving the limit is within 1 and 100, active workers are within the limit, keys are distinct. |
| InjectorLaws.ResizeExactly | utils/socket/pod_injector.go:221-237 | A valid request sets the limit to the larger of the number asked for and the active workers; success says which. |
| InjectorLaws.LimitComesDown | utils/socket/pod_injector.go:228-232 | While everybody asks for the same number a larger limit only comes down, never below it. |
| InjectorLaws.FreePlaceIsRefilled | utils/socket/pod_injector.go:228-247 | A start between a departure and the next request takes the free place again. |
| InjectorLaws.MarkedExactly | utils/socket/pod_injector.go:246-281 | The completion mark is set exactly when a success was stored after the last accepted start and complete. |
| InjectorLaws.DoneExactly | utils/socket/pod_injector.go:282-293 | "done" is answered exactly when, besides, the key has no worker and no recorded error. |
| InjectorLaws.ErrorSticks | utils/socket/pod_injector.go:258-286 | A recorded error stays until a complete, whatever is started and succeeds in between. |
| InjectorLaws.WorkerStays | utils/socket/pod_injector.go:248-301 | Only a complete, a stop or a callback of its key ends a worker. |
| WorkerLaws.CompleteFrees | utils/socket/pod_injector.go:278-281 | Whatever a bounded pool holds, a complete leaves no worker, error or completion of its key, the others keep their order, and where there was a worker a start is accepted. |
| WorkerLaws.StopFrees | utils/socket/pod_injector.go:294-301 | So does a stop, leaving what is known of the key. |
| WorkerLaws.StartAnswers | utils/socket/pod_injector.go:238-247 | A start is answered by silence exactly when it is accepted; otherwise the key is active, or there is no place. |
| WorkerLaws.WorkerExactly | utils/socket/pod_injector.go:206-303 | In every run a key has a worker exactly when a start of it was launched and since then no complete or stop of it was carried out and no callback of it ran. |
| WorkerLaws.ErrorExactly | utils/socket/pod_injector.go:206-303 | The recorded error is the last one stored, unless a complete was carried out since. |
| WorkerLaws.FileExactly | utils/socket/pod_injector.go:206-303 | The file name is the last one stored, unless a start was accepted since. |
| WorkerLaws.StartingExactly | utils/socket/pod_injector.go:238-277 | A start is in progress exactly when one was accepted and its outcome is not known yet. |
| WorkerLaws.StatusExactly | utils/socket/pod_injector.go:282-293 | The answer to a status request, by these events: active, failed with which error, done, or neither. |
| WorkerLaws.LimitIsTen | utils/socket/pod_injector.go:221-237 | Until a valid resize request the limit is 10. |
| InjectorLaws.EarlyCallbackHidesCompletion | utils/socket/pod_injector.go:248-276 | A callback that precedes the append leaves a worker that reports "writing" for good. |
| InjectorLaws.FileNameComesLast | utils/socket/pod_injector.go:256-258 | Between the two stores of a callback the injector says "done" but knows no file name. |
| PerformanceData.PutGet | api/v1/openlibertyperformancedata_types.go:121-142 | Setting a condition changes the condition of its kind only. |
| PerformanceData.TransitionsKeepDistinct | internal/controller/openlibertyperformancedata_controller.go:95-303 | No transition duplicates a condition. |
| PerformanceData.Instance.SetCondition | api/v1/openlibertyperformancedata_types.go:121-142 | The loop updates the first condition of the kind or appends one. |
| PerformanceData.Instance.IsPerformanceDataRunning | internal/controller/openlibertyperformancedata_controller.go:329-345 | The loop finds a collection in progress exactly when Started holds, Completed says InProgress and Failed does not hold. |
| PerformanceData.Instance.Begin | internal/controller/openlibertyperformancedata_controller.go:95-171 | The conditions up to the connection, and whether the reconcile goes on. |
| PerformanceData.BegunExactly | internal/controller/openlibertyperformancedata_controller.go:95-171 | Nothing changes once Completed holds; otherwise Started says whether the pod runs and is reachable, a missing pod sets the reason of Completed, Failed stays. |
| PerformanceData.Instance.OnStatus | internal/controller/openlibertyperformancedata_controller.go:209-282 | The conditions after a status other than "done", and whether a start was sent. |
| PerformanceData.AnsweredExactly | internal/controller/openlibertyperformancedata_controller.go:209-282 | Failed becomes true exactly on an error answer or a lost connection, with that reason, and is otherwise what it was; Completed is false with the reason for the wait; Started stays. |
| PerformanceData.Instance.OnDone | internal/controller/openlibertyperformancedata_controller.go:284-297 | Completed holds, with the file name the injector gave. |
| PerformanceData.FinishedExactly | internal/controller/openlibertyperformancedata_controller.go:284-297 | Completed becomes true and the other conditions stay. |
| PerformanceDataRuns.PoolIsRun | utils/socket/pod_injector.go:206-303 | The pool of a run is the pool of its injector events alone. |
| PerformanceDataRuns.CompletedAfterCallback | internal/controller/openlibertyperformancedata_controller.go:209-297 | Completed is stored only after a poll at which a successful callback was later than every accepted start and complete. |
| PerformanceDataRuns.FailureIsStoredExactly | internal/controller/openlibertyperformancedata_controller.go:209-282 | In every run with all updates stored, a decision counts a failure exactly when the injector answered one or the connection was lost, and the stored status then says Failed for that reason. |
| PerformanceDataRuns.FileIsStored | internal/controller/openlibertyperformancedata_controller.go:284-302 | The file name stored with Completed is the one the injector had for the key when it was asked. |
| InjectorLaws.MarkLastsExactly | utils/socket/pod_injector.go:246-281 | A completion that is there at the beginning of some events is there at the end exactly when each accepted start and each complete among them is followed by a successful callback. |
| InjectorLaws.CompletedSinceExactly | utils/socket/pod_injector.go:246-281 | So, over runs, a callback later than every accepted start and complete stays the latest under the same condition on what follows. |
| PerformanceDataRuns.StoredCompletionExactly | internal/controller/openlibertyperformancedata_controller.go:209-302 | When Completed is stored a successful callback is later than every accepted start and complete exactly when each of those accepted since the poll that said "done" was followed by another such callback. |
| PerformanceDataRuns.LateStartIsOverlooked | internal/controller/openlibertyperformancedata_controller.go:252-302 | A start still in flight at the poll undoes the completion that is then stored. |
| PerformanceDataRuns.LateStartIsReached | internal/controller/openlibertyperformancedata_controller.go:329-345 | A run from the initial state reaches such a poll, with one of the starts sent not yet delivered. |
| PerformanceDataRuns.AlwaysDistinct | internal/controller/openlibertyperformancedata_controller.go:95-303 | In every run the stored conditions, and those a reconcile works on, are of distinct kinds. |
| PerformanceDataRuns.CompletedIsFinal | internal/controller/openlibertyperformancedata_controller.go:95-98 | Once stored, no step changes the status or sends anything. |
| PerformanceDataRuns.AlwaysAccounted | internal/controller/openlibertyperformancedata_controller.go:233-277 | With every update stored, a start that was sent shows in the status until a failure is stored. |
| PerformanceDataRuns.NoSecondStartBeforeFailure | internal/controller/openlibertyperformancedata_controller.go:233-254 | So no second start is sent before some failure was stored. |
| PerformanceDataRuns.AnyNumberOfStarts | internal/controller/openlibertyperformancedata_controller.go:329-345 | After one stored failure any number of starts may follow. |
| PerformanceDataRuns.StartIsSentExactly | internal/controller/openlibertyperformancedata_controller.go:233-277 | With every update stored a step sends a start exactly when the injector answered "idle" and the status shows no collection in progress or a failure. |
| PerformanceDataRuns.UnsavedUpdateRestarts | internal/controller/openlibertyperformancedata_controller.go:252-277 | Without the stored update two starts need no failure. |
| TreeCache.ClearTree | utils/tree/cache.go:39-50 | Both maps are emptied in place. |
| TreeCache.DecisionTreeCache.PerformCacheClear | utils/tree/cache.go:72-84 | Every cached map is emptied, in any order, and the trees are forgotten. |
| TreeCache.DecisionTreeCache.Lookup | utils/tree/cache.go:52-69 | A hit returns the cached maps, holding what a fresh parse gives; a record that does not match clears the cache. |
| TreeCache.DecisionTreeCache.SetDecisionTree | utils/tree/cache.go:92-97 | The tree and its record are stored. |
| TreeCache.DecisionTreeCache.ParseDecisionTree | utils/tree/tree.go:488-548 | The maps hold what parsing gives, whether they come from the cache or from the file. |
| TreeCache.Serve | utils/tree/tree.go:497-547 | Over any run of lookups and clears every answer is what an uncached parse would give. |
| TreeCache.LookStep | utils/tree/tree.go:497-512 | A lookup answers as the view says: what a fresh parse gives when it hits; on a miss the file is read into maps that nobody else holds. |
| TreeCache.StoreStep | utils/tree/tree.go:540-547 | What a worker stores and gets is what parsing the file it missed gives. |
| TreeCache.Interleave | utils/tree/tree.go:497-547 | In every interleaving of the lookups, stores and clears of many parses, the cache of maps on the heap gives each worker exactly the answers of the view without maps. |
| TreeCache.LookAnswersExactly | utils/tree/cache.go:52-69 | A lookup of a file that parses gives the contents of a fresh parse exactly when the file, as of its time, was stored under the key and since then nothing else was stored there and the cache was not emptied; otherwise the worker reads. |
| TreeCache.StoreAnswersExactly | utils/tree/tree.go:497-547 | A store gives its worker nothing exactly when it has no unanswered miss, otherwise the contents of a fresh parse of the file it missed. |
| TreeCache.HitsExactly | utils/tree/cache.go:52-69 | The condition of a hit, over every run. |
| TreeCache.WaitsExactly | utils/tree/tree.go:497-547 | A worker waits exactly when it missed and has neither stored nor missed since. |
| TreeCache.HeldMapsAreEmptied | utils/tree/cache.go:61-63 | Maps held by a reader are emptied by the next lookup after the file changed. |

## Left out

- Kubernetes client calls, watches, predicates, finalizers, events and error reporting: foreign; reading, creating, updating and deleting Secrets are operations on a map, and failures of the client itself are not modelled except where a parameter says so.
- Deployments, services, routes, certificates, probes, environment and single sign-on customisation: field copying without a deeper invariant.
- YAML parsing, casts, API types and generated code: the model starts from a typed tree and a typed replace map.
- Sublease renewal and eviction, commented out of the election, and the branch for an owner that was evicted, which no longer can be reached.
- The partial path that CanTraverseTree and GetPathFromLeafIndex return beside an error.
- Library sorting: a sorted listing of map keys is any listing in ascending order, and replace versions that compare equal may come in either order.
- Strings are sequences of characters; Go's bytes and UTF-8 decoding are not modelled.
- Secret names are constructors of a datatype with their suffixes instead of strings; labels other than the rotation label and the contents of the Liberty XML files are left out.
- Leadership in the LTPA protocol is a parameter of each reconcile; elections are modelled on their own.
- The branch of generateLTPAConfig for a valid internal key without a rotation, which cannot be reached because a key without a rotation is not valid.
- Termination of the random suffix search: it is probabilistic, the supply of draws is finite in the model.
- Memory-level races on the worker slice: each removal of a worker is one atomic step.
- A read that ends in the middle of a message: the original does not reassemble messages, and the theorem is about messages delivered in one read.
- Messages and times of status conditions, requeue intervals, and a reconcile that starts from an outdated copy of its resource.
- PerformanceDataRuns.CompletedAfterCallback: speaks of the moment of the poll, because a start still in flight may be accepted before the status is stored; StoredCompletionExactly says when the completion lasts until then.
- Migration.ReplacePath: replace maps filed under keys without three version components, where the library sort decides which comparisons are made; ValidateMaps wants those keys in the tree, and the search for the latest version fails on a tree that has one.
- EncryptionKeys.Namespace.ReconcileEncryptionKey: the two Liberty XML Secrets that the leader creates for the key, written from the key and read by no other step modelled here.
- RebuiltTracker.RebuiltIsGood: resources whose names or labels hold a comma, which Kubernetes does not allow, and trees with a comma in a leaf path.
- InjectorLaws.DoneExactly: any successful callback of the key counts, since the original does not tell the callback of an earlier start from that of the current one.
- Semeru status updates that are lost: the status references are taken to persist from one reconcile to the next.
