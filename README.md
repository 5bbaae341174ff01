# itempool-export core, modelled in Dafny

This project models the export pipeline in `src/createZipFiles.ts`. The
pipeline picks the item pool's most productive authors. It then gives each
author a staging directory that holds their items as `items.json`, their
profile as `metadata.json`, and a copy of each image their items refer to
that exists in the source `images/` directory.

The model follows that file in five modules:

- **Ranking** (`ranking.dfy`, with `tables.dfy` and `relational.dfy`) covers
  the two aggregate queries of `getUserData`:
  - the per-user counts query: pool items, challenge items, and three
    render-type sub-totals, filtered by `num_items > 10` and ordered by
    `num_items DESC`;
  - the recent-counts query: items created after 2023-10-01, filtered by
    `num_items >= 1` and ordered by `num_items ASC`.

  Both queries are stated over the rows of the store. Joins are
  comprehensions over row sequences. `LEFT JOIN` onto an aggregate gives
  NULL, which is modelled as `Option`. `COALESCE` is `Ranking.Coalesce`. The
  challenge sub-query is modelled as the two `GROUP BY`s it performs. The
  model proves each column against a direct count of the user's rows.
- **UserData** (`userdata.dfy`) covers the rest of `getUserData`:
  - the `Record<string, User>` is a class, `UserTable`, holding a key order
    and a map;
  - the two `forEach` loops are the methods `Fill` and `Merge`;
  - `Object.values` is `UserTable.Values`.

  The end-to-end lemma says the result lists exactly the ranked users, in
  ranked order, each with their counts and their recent count.
- **Items** (`items.dfy`) covers `getItems`: the challenge path and the pool
  path, each joined through the user row and each turned into `Item`s, then
  concatenated with challenge items first.
- **AssetUrls** (`asseturls.dfy`) covers how makeCSV finds image references:
  - a recogniser for the regular expression
    `https://public\.itempooluserdata\.com/[a-zA-Z0-9_-]+\-\d+\.[a-zA-Z]+`;
  - the left-to-right scan that the `g` flag performs;
  - `url.substring(36)`.
- **Staging** (`staging.dfy`) covers makeCSV up to the zip and covers
  `copyFile`:
  - a `FileStore` class over a map from paths to entries, whose methods are
    `rm -r`, `mkdir -p`, `writeFile`, `readFile` and the error-catching copy;
  - the `Prepare`, `CopyAll` and `MakeCsv` methods, each proved against
    functions that describe the store afterwards;
  - lemmas about the bundle that staging leaves behind.

## Model

| member | source | states |
|---|---|---|
| Tables.ItemsInPool | src/createZipFiles.ts:192 | for one pool, the joined pairs are that pool with each of its items, every item of the pool appears, and there are no more pairs than items; how often each pair occurs is `Tables.ItemsInPoolCounts` |
| Tables.PoolJoin | src/createZipFiles.ts:191-192 | every joined pair is a pool and an item whose `poolId` is that pool's id, and every such pool and item of the store appear joined; how often each pair occurs is `Tables.PoolJoinCounts` |
| Tables.ItemsInPoolCounts | src/createZipFiles.ts:192 | for one pool, a pair occurs as often as its item occurs in the item table if the item is in that pool, and not at all otherwise: no row is merged or duplicated |
| Tables.PoolJoinCounts | src/createZipFiles.ts:191-192 | a (pool, item) pair occurs in the join as many times as the pool row occurs times the item row occurs when the item's `poolId` is the pool's id, and not at all otherwise, so `COUNT(*)` counts each matching pair of rows once |
| Tables.ItemsInChallenge | src/createZipFiles.ts:208 | for one challenge, the joined pairs are that challenge with each of its members, every member appears, and there are no more pairs than members; how often each pair occurs is `Tables.ItemsInChallengeCounts` |
| Tables.ChallengeJoin | src/createZipFiles.ts:207-208 | every joined pair is a challenge and a challenge item whose `challengeId` is that challenge's id, and every such challenge and member of the store appear joined; how often each pair occurs is `Tables.ChallengeJoinCounts` |
| Tables.ItemsInChallengeCounts | src/createZipFiles.ts:208 | for one challenge, a pair occurs as often as its member row occurs in the member table if it belongs to that challenge, and not at all otherwise |
| Tables.ChallengeJoinCounts | src/createZipFiles.ts:207-208 | a (challenge, member) pair occurs in the join as many times as the challenge row occurs times the member row occurs when the member's `challengeId` is the challenge's id, and not at all otherwise |
| Tables.UserMultiplicity | src/createZipFiles.ts:114 | the number of user rows the `WHERE id = userId` sub-query keeps is zero exactly when no user has that id |
| Relational.Filter | src/createZipFiles.ts:213-214 | `WHERE` keeps exactly the rows satisfying the condition, never more rows than it was given |
| Relational.FilterMultiset | src/createZipFiles.ts:213-214 | the rows `WHERE` keeps are a sub-multiset of its input, and every kept row keeps its multiplicity |
| Relational.Insert | src/createZipFiles.ts:215-216 | one insertion step of the sort adds exactly the one row to the multiset of rows |
| Relational.InsertKeepsOrder | src/createZipFiles.ts:215-216 | inserting into a list ordered by non-increasing key keeps it ordered |
| Relational.SortDesc | src/createZipFiles.ts:215-216 | `ORDER BY key DESC` gives a permutation of its input, with keys non-increasing |
| Relational.SortDescKeepsSorted | src/createZipFiles.ts:215-216 | input already ordered by non-increasing key comes out unchanged, so equal keys keep their input order |
| Relational.SortedFilterMembers | src/createZipFiles.ts:213-216 | after `WHERE ... ORDER BY`, a row is present iff it was in the input and satisfies the condition |
| Relational.FilterDistinct | src/createZipFiles.ts:213-214 | `WHERE` keeps ids distinct |
| Relational.SortDescDistinct | src/createZipFiles.ts:215-216 | `ORDER BY` keeps ids distinct: it neither duplicates nor merges rows |
| Ranking.Coalesce | src/createZipFiles.ts:187 | `COALESCE(x, 0)` is the value when it is not NULL and 0 when it is |
| Ranking.PoolItemCount | src/createZipFiles.ts:190-193 | a user's pool-item count is at most the number of joined rows, and is zero iff no row is owned by the user (and, for the recent query, created after the cutoff, line 246) |
| Ranking.ChallengeItemCount | src/createZipFiles.ts:203-209 | a user's challenge-item count for a render-type selector is at most the number of joined rows, and is zero iff no owned row is selected (and, for the recent query, created after the cutoff, line 256) |
| Ranking.OtherRenderTypeCount | src/createZipFiles.ts:198-200 | the user's items whose render type is none of ASSESSMENT, VIDEO or LIVE number zero iff every challenge item the user owns has one of those three types |
| Ranking.RenderTypesPartition | src/createZipFiles.ts:198-201 | all of a user's challenge items = the ASSESSMENT, VIDEO and LIVE counts plus the items of any other or NULL render type |
| Ranking.GroupByOwnerAndType | src/createZipFiles.ts:203-209 | the inner `GROUP BY ownerId, renderType` gives each (owner, renderType) pair at most one group, and every group counts at least one row |
| Ranking.AddToGroupsKeepsGrouping | src/createZipFiles.ts:209 | counting one more row keeps groups distinct and non-empty |
| Ranking.AddToGroups | src/createZipFiles.ts:209 | counting one row changes or adds only the group of that row's (owner, renderType), and afterwards the owner has a group |
| Ranking.AddToGroupsSum | src/createZipFiles.ts:198-201 | counting one row into the groups raises each `SUM(CASE ...)` by one exactly when the row is the owner's and the selector selects its render type |
| Ranking.SumGroups | src/createZipFiles.ts:198-201 | an owner with no group sums to 0 |
| Ranking.HasGroup | src/createZipFiles.ts:211 | the outer `GROUP BY ownerId` has a row for an owner iff some inner group belongs to that owner |
| Ranking.GroupSumsCountRows | src/createZipFiles.ts:196-211 | the outer `SUM(CASE WHEN renderType = ...)` over the inner groups equals the number of the owner's joined rows of that render type |
| Ranking.HasGroupIffPositive | src/createZipFiles.ts:195-212 | the outer `GROUP BY ownerId` has a row for a user iff that user has at least one challenge item |
| Ranking.ChallengeTotalsFor | src/createZipFiles.ts:195-212 | the `c` columns of the `LEFT JOIN` are NULL iff no inner group belongs to the user, and a NULL side has nothing to sum |
| Ranking.CountsRowFor | src/createZipFiles.ts:176-212 | the counts row carries the user's id, username and both emails; `pool_items` is NULL rather than 0; `num_items` is the coalesced sum of `pool_items` and `challenge_items` |
| Ranking.CountsRows | src/createZipFiles.ts:176-212 | before the `WHERE`, the counts query has one row per user row, in user order |
| Ranking.CountsRowListed | src/createZipFiles.ts:188 | every user has a row in the counts query |
| Ranking.CountsRowTotals | src/createZipFiles.ts:182-194 | `num_items` equals the user's total number of items of both kinds; `pool_items` is NULL iff the user has no pool items, and otherwise counts them; `challenge_items` is NULL iff the user has no challenge items, and otherwise counts them |
| Ranking.SubtotalsPartitionChallengeItems | src/createZipFiles.ts:195-212 | each sub-total counts the user's challenge items of that render type; the three sub-totals plus the other render types make `challenge_items`; the three alone equal it iff all the user's challenge items have one of the three types |
| Ranking.RankedRows | src/createZipFiles.ts:213-216 | a row is ranked iff it is a counts row with `num_items` above 10, and there are at most as many ranked rows as users |
| Ranking.RankedIsThresholdedAndOrdered | src/createZipFiles.ts:213-216 | a user's row is ranked iff their total exceeds 10 (a user with exactly 10 is left out); every ranked row is a counts row; the rows come by non-increasing `num_items`; the ranking is a permutation of the thresholded rows |
| Ranking.AllRecentRows | src/createZipFiles.ts:235-259 | before the `WHERE`, the recent query has one row per user row, in user order |
| Ranking.RecentRowFor | src/createZipFiles.ts:235-259 | the recent row carries the user's id; a side without recent rows is NULL rather than 0; `num_items` is the coalesced sum of both sides |
| Ranking.RecentRows | src/createZipFiles.ts:260-263 | a row is listed iff it is a recent row with `num_items >= 1`, and there are at most as many listed rows as users |
| Ranking.RecentRowCount | src/createZipFiles.ts:240-259 | a user's recent row has that user's id and, as `num_items`, their number of items created after the cutoff |
| Ranking.RecentRowsCarryCounts | src/createZipFiles.ts:235-261 | every recent row belongs to a user and has `num_items >= 1`, equal to that user's number of items created after 2023-10-01 |
| Ranking.RecentRowsCoverUsers | src/createZipFiles.ts:241-261 | every user with at least one recent item has a recent row |
| Ranking.RecentRowsAscending | src/createZipFiles.ts:262-263 | the recent rows come by non-decreasing `num_items` |
| UserData.ToUser | src/createZipFiles.ts:219-233 | a ranked row becomes a User with the row's id, username and both emails, and a recent count of 0 |
| UserData.UserCountsConsistent | src/createZipFiles.ts:224-231 | each count field takes its own column: `all` is the user's number of items, `poolItems` their pool items, `challengeItems` their challenge items, and `assessmentItems`, `liveItems`, `videoItems` their challenge items of type ASSESSMENT, LIVE and VIDEO (0 when NULL); so `all == poolItems + challengeItems` and the three never exceed `challengeItems` |
| UserData.ZeroCountSelectsNone | src/createZipFiles.ts:228-230 | a user with no challenge items has none of any one render type, so the NULL sub-totals become 0 like the true counts |
| UserData.UserTable.constructor | src/createZipFiles.ts:175 | the record starts with no keys |
| UserData.UserTable.Put | src/createZipFiles.ts:219 | assigning an ordinary key (see "Left out" for `__proto__`) stores the user under it; a new key goes last in key order, and an existing key keeps its place |
| UserData.UserTable.Contains | src/createZipFiles.ts:266 | for an ordinary key (see "Left out" for inherited property names), `userData[id] != null` holds iff the id is a key of the record |
| UserData.UserTable.SetRecentItemCount | src/createZipFiles.ts:267 | only that entry's `recentItemCount` changes; keys and key order stay |
| UserData.UserTable.Values | src/createZipFiles.ts:270 | `Object.values` lists one value per key, in key order |
| UserData.FillEntries | src/createZipFiles.ts:218-234 | after the first loop, the record's keys are exactly the ids of the ranked rows, and each key holds a user with that id |
| UserData.FillOrder | src/createZipFiles.ts:218-234 | after the first loop, the key order holds each key of the record exactly once, so it has no more keys than there were rows |
| UserData.PatchedEntriesKeepIds | src/createZipFiles.ts:265-270 | after the merge, every key in the key order still holds a user with that id |
| UserData.UserList | src/createZipFiles.ts:218-270 | the returned list has at most one user per ranked row, every user is the user of some ranked row, and no id appears twice, because the record has one value per key |
| UserData.LastRecentCount | src/createZipFiles.ts:265-269 | an id that no recent row has keeps its current count |
| UserData.Patch | src/createZipFiles.ts:265-269 | the merge adds no key and changes only `recentItemCount`, which takes the last recent row's count for that id, or stays when there is none |
| UserData.Fill | src/createZipFiles.ts:218-234 | the first `forEach` leaves the record with `FillOrder`/`FillEntries` of the ranked rows |
| UserData.Merge | src/createZipFiles.ts:265-269 | the second `forEach` leaves the key order unchanged and the entries patched by the recent rows; ids not in the record are skipped |
| UserData.GetUserData | src/createZipFiles.ts:174-270 | the returned list is `UserList` of the ranked rows and the recent rows |
| UserData.FillDistinct | src/createZipFiles.ts:218-234 | with distinct ids, the first loop makes one key per row, in row order, holding that row's User |
| UserData.UserListFollowsRanking | src/createZipFiles.ts:218-270 | with distinct ids, the result has one User per ranked row, in ranked order, carrying the last recent count for its id (0 if none) |
| UserData.LastRecentCountUniform | src/createZipFiles.ts:265-269 | when every recent row of an id carries the same count, the merge takes that count if such a row exists |
| UserData.RankedIdsDistinct | src/createZipFiles.ts:213-216 | when user ids are distinct, so are the ids of the ranked rows |
| UserData.RecentCountOfUser | src/createZipFiles.ts:235-269 | the count the merge takes for a user is the user's number of items created after the cutoff (0 if none) |
| UserData.RecentCountOfRankedRow | src/createZipFiles.ts:265-269 | the same, for the id of any counts row |
| UserData.ExportedUsersAreRankedUsers | src/createZipFiles.ts:174-270 | when user ids are distinct, getUserData lists exactly the ranked users, in ranked order, each with the counts of their row and their number of items created after the cutoff |
| Items.TagsOf | src/createZipFiles.ts:118-126 | the `irt` side of the `LEFT JOIN` is NULL iff the revision has no tag list, and otherwise it is that revision's list |
| Items.RowOf | src/createZipFiles.ts:107-113 | the selected columns are the container's title as `context` and the revision's id, title, item document, explanation and tag list |
| Items.RevisionsWithId | src/createZipFiles.ts:117 | every row comes from a revision whose id is the member's `itemRevisionId`, and every such revision yields a row; `Items.RevisionsWithIdFollowsLinks` gives one row per occurrence |
| Items.DraftRevisionsOf | src/createZipFiles.ts:148 | every row comes from a revision whose `draftItemId` is the pool item's id, and every such revision yields a row; `Items.DraftRevisionsFollowLinks` gives one row per occurrence |
| Items.ChallengePath | src/createZipFiles.ts:114-127 | every row comes from a joined (challenge, member) pair whose challenge the user owns and a revision whose id is that member's `itemRevisionId`, with the challenge's title as context; every such pair and revision yields a row; how often is `Items.ChallengePathFollowsChains` |
| Items.PoolPath | src/createZipFiles.ts:145-158 | every row comes from a joined (pool, item) pair whose pool the user owns and a revision whose `draftItemId` is that item's id, with the pool's title as context; every such pair and revision yields a row; how often is `Items.PoolPathFollowsChains` |
| Items.ChallengeChainRows | src/createZipFiles.ts:108-117 | one row per (challenge, member, revision) chain, in chain order, selecting the challenge's title and the revision's columns |
| Items.PoolChainRows | src/createZipFiles.ts:139-148 | one row per (pool, item, revision) chain, in chain order, selecting the pool's title and the revision's columns |
| Items.RevisionsWithIdFollowsLinks | src/createZipFiles.ts:117 | the join on `itemRevisionId` yields exactly the rows of the member's links to revisions, one per revision row it names, in table order |
| Items.DraftRevisionsFollowLinks | src/createZipFiles.ts:148 | the join on `draftItemId` yields exactly the rows of the item's links to revisions, one per revision row that is its draft, in table order |
| Items.ChallengeLinksCountAt | src/createZipFiles.ts:117 | a (challenge, member, revision) link occurs as often as the revision row occurs when the member names it, and not at all otherwise |
| Items.PoolLinksCountAt | src/createZipFiles.ts:148 | a (pool, item, revision) link occurs as often as the revision row occurs when it is the item's draft, and not at all otherwise |
| Items.ChallengePathFollowsChains | src/createZipFiles.ts:114-127 | the challenge path is exactly one row per chain through an owned (challenge, member) pair, nothing merged and nothing added |
| Items.PoolPathFollowsChains | src/createZipFiles.ts:145-158 | the pool path is exactly one row per chain through an owned (pool, item) pair, nothing merged and nothing added |
| Items.ChallengeChainsCount | src/createZipFiles.ts:115-117 | a chain occurs as often as its pair occurs in the join times its revision row occurs, when the challenge is the user's and the member names the revision, and not at all otherwise |
| Items.PoolChainsCount | src/createZipFiles.ts:146-148 | a chain occurs as often as its pair occurs in the join times its revision row occurs, when the pool is the user's and the revision is the item's draft, and not at all otherwise |
| Items.ChallengeQueryChainCounts | src/createZipFiles.ts:114-117 | over the whole store, the challenge path has one row per combination of a challenge row the user owns, a member row of it and a revision row it names: the count is the product of the three rows' occurrences |
| Items.PoolQueryChainCounts | src/createZipFiles.ts:145-148 | over the whole store, the pool path has one row per combination of a pool row the user owns, an item row in it and a revision row that is the item's draft: the count is the product of the three rows' occurrences |
| Items.Repeat | src/createZipFiles.ts:114 | joining through the user sub-query yields no rows when no user row matches, the path's rows unchanged when exactly one matches, and every path row when any matches; there are as many copies of the path's rows as matching user rows |
| Items.ChallengeItemRows | src/createZipFiles.ts:106-127 | the challenge query yields the challenge path's rows once per user row with that id: every row is a path row, and every path row appears when the user exists |
| Items.PoolItemRows | src/createZipFiles.ts:137-158 | the pool query yields the pool path's rows once per user row with that id: every row is a path row, and every path row appears when the user exists |
| Items.ToItem | src/createZipFiles.ts:128-136 | the item is stamped with the requested user id; its context, id, title, item document, explanation and tags are the row's; `explanation_doc` is absent exactly when the column is NULL |
| Items.ToItems | src/createZipFiles.ts:159-167 | `.map` makes one item per row, in row order |
| Items.ConcatenatedItems | src/createZipFiles.ts:128-168 | mapping two row lists and concatenating them puts the first list's items first and the second's after, one per row |
| Items.GetItems | src/createZipFiles.ts:105-169 | getItems returns one item per row of the two queries, every one stamped with the requested user id |
| Items.GetItemsConcatenatesBothPaths | src/createZipFiles.ts:168 | getItems returns the challenge items first, then the pool items, one per query row, nothing merged or dropped, all stamped with the user id |
| Items.ItemsComeFromOwnedContainers | src/createZipFiles.ts:106-158 | every item is the revision at the end of a chain of the store, with the title of the chain's container as context: an owned challenge, its member and the revision the member names; or an owned pool, its item and a draft revision of that item |
| Items.OwnedRevisionsAreExported | src/createZipFiles.ts:106-158 | for a user of the store, every such chain, of either kind, yields an item |
| Items.ChallengeRowIsChained | src/createZipFiles.ts:114-127 | each row of the challenge query comes from a challenge chain |
| Items.PoolRowIsChained | src/createZipFiles.ts:145-158 | each row of the pool query comes from a pool chain |
| Items.JoinedChallengeIsStored | src/createZipFiles.ts:115-116 | a joined (challenge, member) pair is stored, and the member belongs to the challenge |
| Items.JoinedPoolIsStored | src/createZipFiles.ts:146-147 | a joined (pool, item) pair is stored, and the item lies in the pool |
| Items.ChainedChallengeRowListed | src/createZipFiles.ts:114-127 | for a user of the store, a challenge chain's row is in the challenge query |
| Items.ChainedPoolRowListed | src/createZipFiles.ts:145-158 | for a user of the store, a pool chain's row is in the pool query |
| Items.UnknownUserHasNoItems | src/createZipFiles.ts:114 | an id with no user row yields no items |
| AssetUrls.PrefixLengthIsPrefix | src/createZipFiles.ts:80 | the 36 of `substring(36)` is exactly the length of `https://public.itempooluserdata.com/` |
| AssetUrls.RunEnd | src/createZipFiles.ts:71 | the greedy run of a character class from a position ends where the class first stops |
| AssetUrls.DigitsStart | src/createZipFiles.ts:71 | the `\d+` before the dot starts where the trailing digit run starts |
| AssetUrls.MatchEnd | src/createZipFiles.ts:70-71 | a reported match at a position is a non-empty piece of the text |
| AssetUrls.MatchEndIsLongestMatch | src/createZipFiles.ts:70-71 | the recogniser reports a match at a position iff some word of the pattern starts there, and then it reports the longest such word |
| AssetUrls.Scan | src/createZipFiles.ts:72 | the spans the `g` scan reports lie in the text, in order, without overlap |
| AssetUrls.ScanSpansAreMatches | src/createZipFiles.ts:72 | each reported span is the recogniser's match at its start |
| AssetUrls.ScanMissesNothing | src/createZipFiles.ts:72 | every position where a match starts lies inside a reported span |
| AssetUrls.ExtractUrls | src/createZipFiles.ts:72 | `match(...) \|\| []` returns one URL per reported span |
| AssetUrls.ExtractedUrlsAreAssetReferences | src/createZipFiles.ts:69-82 | every extracted URL is a pattern word of the text, in scan order; it is the prefix followed by its file name, and the name is non-empty and has no `/` |
| AssetUrls.ImageFilename | src/createZipFiles.ts:80 | `url.substring(36)` is what follows the first 36 characters of the URL, and the empty string for a shorter URL |
| AssetUrls.MatchedUrl | src/createZipFiles.ts:71-80 | one reported match is a pattern word, and `substring(36)` of it is the non-empty, slash-free rest after the prefix |
| AssetUrls.NoPrefixNoUrls | src/createZipFiles.ts:72-74 | a text that does not contain the prefix yields no URLs |
| Staging.WithoutTree | src/createZipFiles.ts:51 | `rm -r` removes the directory and everything below it, and keeps every other entry unchanged |
| Staging.AncestryMembers | src/createZipFiles.ts:52 | the paths `mkdir -p` must make are exactly the non-empty prefixes of the path |
| Staging.WithDirs | src/createZipFiles.ts:52 | `mkdir -p` adds every missing prefix of the path as a directory, and keeps existing entries unchanged |
| Staging.CopyResult | src/createZipFiles.ts:273-280 | a copy that can read its source and write its destination puts the source's entry at the destination; a failed copy changes nothing; no other path changes either way |
| Staging.ApplyCopies | src/createZipFiles.ts:78-85 | the copies remove no entry, and leave every path that no copy targets as it was |
| Staging.CopyAttempts | src/createZipFiles.ts:78-85 | the copies report one outcome per planned copy |
| Staging.FileStore.constructor | src/createZipFiles.ts:48-86 | the store makeCSV works on is any well-formed tree: every proper prefix of an entry is a directory |
| Staging.FileStore.RemoveTree | src/createZipFiles.ts:51 | `fs.rm(dir, {recursive, force})` fails iff an ancestor of `dir` is a file, and then nothing changes; otherwise it leaves `WithoutTree` (an absent `dir` is no error) |
| Staging.FileStore.MakeDirs | src/createZipFiles.ts:52 | `fs.mkdir(path, {recursive})` succeeds iff no prefix of the path is a file; on success it leaves `WithDirs`, and on failure nothing changes |
| Staging.FileStore.WriteFile | src/createZipFiles.ts:56 | `fs.writeFile` succeeds iff the parent is a directory and the path is not one; it then stores the content, and otherwise changes nothing |
| Staging.FileStore.ReadFile | src/createZipFiles.ts:66 | `fs.readFile` succeeds iff the path is a file, and then returns its content |
| Staging.FileStore.CopyFile | src/createZipFiles.ts:273-280 | copyFile reports whether both its read and its write succeed; a caught failure leaves the store unchanged |
| Staging.StagingDir | src/createZipFiles.ts:50 | the staging directory lies under `out/unzipped`, which is not the source image directory |
| Staging.ImageNames | src/createZipFiles.ts:79-80 | one file name per extracted URL, in order: name m is `substring(36)` of URL m |
| Staging.StagedNamesAreAssetFileNames | src/createZipFiles.ts:73-82 | every staged image name is what follows the asset prefix in an extracted URL, and is non-empty and free of `/`, so its copy lands directly in the bundle's image directory |
| Staging.StagedNameAt | src/createZipFiles.ts:80-82 | the name staged for URL m is the rest of URL m after the asset prefix, non-empty and free of `/` |
| Staging.CopyPlan | src/createZipFiles.ts:75-84 | one copy per file name, from `images/<name>` to `<staging>/images/<name>` |
| Staging.CopyLog | src/createZipFiles.ts:78-85 | one reported copy per extracted URL |
| Staging.CanStage | src/createZipFiles.ts:51-52 | the rm and the mkdir of the staging directory both succeed iff no ancestor of it is a file |
| Staging.Prepared | src/createZipFiles.ts:50-64 | after the rm, the mkdir and the two writes, `items.json` and `metadata.json` hold the two encoded texts |
| Staging.CopyBase | src/createZipFiles.ts:74-77 | before the copies, the bundle's image directory exists, and the two JSON files still hold their texts |
| Staging.Staged | src/createZipFiles.ts:48-86 | after staging, `items.json` and `metadata.json` hold the two encoded texts, whatever the copies did |
| Staging.Prepare | src/createZipFiles.ts:50-64 | rm, mkdir and the two writes succeed iff no file is in the way of the staging directory; on success the store is `Prepared`, and otherwise it is unchanged |
| Staging.CopyAll | src/createZipFiles.ts:78-85 | the copies run one after the other; the store becomes `ApplyCopies` of the plan, and each outcome is what that copy meets |
| Staging.MakeCsv | src/createZipFiles.ts:48-86 | makeCSV fails iff a file blocks the staging directory, and then has changed nothing; otherwise the store is `Staged` with the encoded items and user, and each copy reports whether its source image existed |
| Staging.ApplyCopiesEffect | src/createZipFiles.ts:78-85 | the copies create, in an empty image directory, exactly the named files whose source exists, each with the source's content, and touch nothing outside that directory |
| Staging.PreparedShape | src/createZipFiles.ts:50-64 | after the writes, the staging directory and its ancestors are directories, and the image directory can be created |
| Staging.PreparedInside | src/createZipFiles.ts:50-64 | inside the staging directory, the prepared store holds only the directory and the two JSON files |
| Staging.CopyBaseShape | src/createZipFiles.ts:74-77 | before the copies, the image directory exists and is empty, and the source images are untouched |
| Staging.CopyStepFrom | src/createZipFiles.ts:273-280 | from an empty image directory, each copy succeeds iff its source is a file |
| Staging.CopyStep | src/createZipFiles.ts:78-84 | in makeCSV, copy i succeeds iff its source image is a file in the original store |
| Staging.CopyAttemptAt | src/createZipFiles.ts:78-85 | attempt m reports whether copy m can succeed in the store the earlier copies left |
| Staging.CopyAttemptsAreLog | src/createZipFiles.ts:78-85 | the outcomes of makeCSV's copies are exactly `CopyLog`: each copy succeeds iff its source image exists |
| Staging.ImagesEntryIsInside | src/createZipFiles.ts:76 | every entry of the bundle's image directory lies inside the staging directory |
| Staging.OutsideIsNotInImages | src/createZipFiles.ts:76 | a path outside the staging directory is not in the image directory, and `mkdir` of the image directory does not create it |
| Staging.PreparedOutside | src/createZipFiles.ts:50-64 | the rm, the mkdir and the two writes change no entry that lies neither inside the staging directory nor on its ancestry |
| Staging.StagingTouchesOnlyItsDirectory | src/createZipFiles.ts:48-86 | staging changes no entry that lies neither inside the staging directory nor on its ancestry |
| Staging.StagingKeepsAncestorsDirectories | src/createZipFiles.ts:52 | after staging, the staging directory and each of its ancestors is a directory |
| Staging.StagedBundleFiles | src/createZipFiles.ts:55-77 | the bundle holds `items.json` and `metadata.json` with the encoded texts, and an image directory iff at least one URL was found |
| Staging.StagedBundleImages | src/createZipFiles.ts:74-85 | `images/<n>` is in the bundle iff n is a found name whose source image is a file, and its content is the source's |
| Staging.StagedBundleNothingElse | src/createZipFiles.ts:50-86 | inside the staging directory there is nothing but the directory, the two JSON files, the image directory and its images |
| Staging.ClearedAgree | src/createZipFiles.ts:50-53 | after the rm and the mkdir, two stores that agree outside the staging directory are the same store |
| Staging.ClearedAgreeAt | src/createZipFiles.ts:50-53 | after the rm and the mkdir, two stores that agree outside the staging directory agree at every path |
| Staging.StagingForgetsStaleContents | src/createZipFiles.ts:50-53 | two stores that agree outside the staging directory stage to the same store: stale contents of a previous run leave no trace |
| Staging.StagingIsIdempotent | src/createZipFiles.ts:48-86 | staging again with the same inputs still succeeds, and leaves the store as staging once did |

## Left out

- The zip step of makeCSV (`src/createZipFiles.ts:88-102`) is not modelled. It streams the staging directory through `archiver` into `out/zipped/<username>.zip`, and that compression and streaming is a foreign library.
- `main` (`src/createZipFiles.ts:36-46`) is not modelled: it opens the in-memory database, loads the Parquet files and fans out over users with `Promise.all`. `Promise.all` rejects on the first failing user, so there is no per-user isolation and no per-user report. `Staging.MakeCsv` handles one user and returns its outcome.
- dbSetup (`src/createZipFiles.ts:282-301`) is not modelled. It loads Parquet files into DuckDB with `read_parquet`; the model takes the resulting tables as the `Tables.Db` value.
- The copies of makeCSV run concurrently under `Promise.all`. `Staging.CopyAll` runs them one after the other. Two URLs with the same file name copy the same bytes to the same place, so the final store does not depend on the order.
- `JSON.stringify` of the items and of the user is given to `Staging.MakeCsv` as two encoder parameters. The model proves nothing about the JSON text, except what the URL scan finds in it.
- Console logging (`src/createZipFiles.ts:98`, `:278`) is left out.
- The commented-out test at the end of the file is left out.
- The SQL string interpolation of `userId` (`src/createZipFiles.ts:114`, `:145`) is modelled as a comparison of ids, so an id containing a quote is not modelled.
- File-system errors other than path shape are not modelled: a read or write succeeds whenever the path shape allows it. This covers permissions, a full disk and I/O failures.
- Paths are sequences of names. A username is taken as one path segment: the model does not interpret `/`, `.` or `..` inside it. An empty username makes the staging directory `out/unzipped` itself, which is what the string concatenation does.
- The working directory (`process.cwd()`) is the root of the path space. The `mkdir` of `out/unzipped` and `out/zipped` in `main` is not modelled; the `mkdir -p` of the staging directory creates any missing ancestor itself.
- Tag aggregation (`list(it.normalizedName)`, lines 118-126 and 149-157) is given as a map from revision id to its list of tag names. The order of tags inside a list is whatever that map holds.
- SQL leaves the order of joined rows and of rows with equal `num_items` unspecified. The model fixes it: joins follow the order of the tables, and `ORDER BY` is a stable insertion sort, so ties keep their input order (`Relational.SortDescKeepsSorted` shows that input already in order is unchanged).
- `Object.values` puts integer-like keys first, in numeric order. The model takes ids to be ordinary strings, so values come in insertion order.
- `userData` is a plain `{}`, so it inherits the properties of `Object.prototype`. The model takes ids to be neither integer-like nor the names of those properties (`__proto__`, `constructor`, `toString`, `hasOwnProperty`, …). For such ids the source behaves differently:
  - `userData["__proto__"] = {...}` (line 219) sets the record's prototype and adds no key, so that user is missing from `Object.values` (line 270). The model exports them.
  - for an inherited name, `userData[id] != null` (line 266) holds even when the id is not a key, so the merge writes `recentItemCount` onto the inherited value: a function such as `Object.prototype.toString`, or, for `__proto__`, the prototype object. The model skips the id. The exact effect of that write is not modelled.
- UserData.UserTable.Put: states the assignment for ordinary keys only. Assigning `__proto__` is the case above.
- UserData.UserTable.Contains: states the `!= null` test for ordinary keys only. Inherited property names are the case above.
- `createdAt > '2023-10-01'` is modelled with timestamps as whole seconds and the cutoff as 1696118400 (2023-10-01 00:00:00 UTC).
- `Number(...)` of the BIGINT/HUGEINT columns is modelled as the exact natural number: JavaScript rounding above 2^53 is not modelled.
- The three render-type sub-totals need not sum to `challengeItems`: a challenge whose render type is NULL or another value counts only in `challengeItems`. `Ranking.SubtotalsPartitionChallengeItems` states the exact relation and when the sum is equal.
