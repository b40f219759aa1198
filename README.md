# Big Bowl Elo — a verified model

Big Bowl Elo ranks the dishes of a restaurant menu with Elo ratings. This
project models its bookkeeping core in Dafny and proves what that core
promises.

- **Consolidation** (`consolidate_elo_data.py`), module `Consolidation`.
  - A raw export holds ratings under several spellings of one dish. Each
    spelling is normalised to a canonical name, the text before the first
    `" | "`, stripped.
  - The keys are grouped by canonical name. Each group is merged: the rating
    of the variant with the most games, and the games summed over the group.
  - The battle history is rewritten to canonical names; a record without a
    winner or loser stops the run, as its `KeyError` would. Appearances are
    recounted and compared with the stored games.
  - The store is split into an official ranking (3 or more games) and a
    provisional one.
- **The Elo update** (`update_elo` in both `restaurant_elo_system.py` and
  `streamlit_app.py`).
  - The store is modelled twice:
    - as a value `Elo.Ratings`: the `elo` and `games_played` dictionaries, with
      the insertion order of `elo`;
    - as the class `RankingSystem.EloSystem`, whose methods change those
      fields in place.
  - A match seeds unrated dishes at 1500 with 0 games, moves both ratings by
    the logistic Elo formula, and counts one game for each player.
- **The ranking report** (`generate_ranking_report`, in both files), module
  `Elo`, over the sorting and filtering of module `Ranking`.
- **The match-file parser** (`parse_match_content`), module `MatchParser`.
  - The regular expression `(.+?)([01])(.+?)([01])$` is modelled on its own
    terms: a split of the line into four groups, the first as short as
    possible.
  - It is also modelled by an index computation, proved to pick that same
    split.
- **`process_matches`**, as `RankingSystem.EloSystem.ProcessMatches`: parse,
  then play the matches in order and report each rating change.
- **Menu-line extraction and the pairwise schedule** of the command-line
  version, module `Menu`.
- Shared helpers:
  - `Text` models Python's `strip`, `find`, `split` and string order
    (its `Join` is not used by the program; it only states that `split`
    loses nothing);
  - `Sequences` holds generic sequence facts;
  - `Wrappers` holds `Option` and `Result`.

Shared assumptions:

- Ratings are `real`. The power `10 ** x` is a parameter `pow10` of type
  `Pow10Fn`, which is any function with positive values. Lemmas that need
  `10 ** 0 == 1` require it.
- The two copies of `update_elo` and of `generate_ranking_report` are
  identical in what they compute, so each is modelled once. The streamlit
  copy of `update_elo` also returns the old ratings, and `UpdateElo` does
  too.

## Model

| member | source | states |
|---|---|---|
| `Consolidation.ExtractChineseName` | consolidate_elo_data.py:10-14 | definition: the text before the first separator, stripped, or the whole name stripped; properties in `ExtractChineseNameShape` and `ExtractIdempotent` |
| `Consolidation.ExtractChineseNameShape` | consolidate_elo_data.py:10-14 | a canonical name has no surrounding whitespace and never contains the separator (space, bar, space) |
| `Consolidation.ExtractIdempotent` | consolidate_elo_data.py:10-14 | normalising a name twice is normalising it once |
| `Text.Find` | consolidate_elo_data.py:12 | definition of `s.find(p)`; properties in `FindFirst` |
| `Text.FindFirst` | consolidate_elo_data.py:12-13 | `s.find(p)` succeeds exactly when `p in s`, and then gives the first occurrence |
| `Text.Trim` | restaurant_elo_system.py:34 | definition of `strip()`; properties in `TrimIdempotent`, `TrimUnpadded` and its own contract (the result is unpadded) |
| `Text.TrimIdempotent` | restaurant_elo_system.py:34 | `strip()` applied twice is `strip()` applied once |
| `Text.TrimUnpadded` | restaurant_elo_system.py:34 | `strip()` leaves a string without surrounding whitespace unchanged |
| `Text.SplitOn` | streamlit_app.py:39 | definition of `s.split(c)`; properties in `JoinSplit` and `SecondPiece` |
| `Text.JoinSplit` | streamlit_app.py:39 | `split` loses nothing: joining the pieces with the separator gives the string back |
| `Text.SecondPiece` | restaurant_elo_system.py:36 | `s.split(c)[1]` is the text between the first `c` and the next one, or the end of `s` |
| `Text.SortStringsSorted` | consolidate_elo_data.py:86 | `sorted` of a duplicate-free list is strictly increasing in Python's string order |
| `Text.LessTotal` | consolidate_elo_data.py:86 | two different strings are ordered one way or the other |
| `Text.LessTransitive` | consolidate_elo_data.py:86 | Python's string order is transitive |
| `Consolidation.CollectCanonicalNames` | consolidate_elo_data.py:33-36 | the loop lists every canonical name of the keys once, and no other name |
| `Consolidation.VariantsMembers` | consolidate_elo_data.py:46 | the variants of `c` are exactly the keys that normalise to `c` |
| `Consolidation.VariantsDistinct` | consolidate_elo_data.py:46 | the variants are listed once each |
| `Consolidation.BestVariant` | consolidate_elo_data.py:58 | a variant with the most games (`get(d, 0)`), and the first one among equals, as Python's `max` picks |
| `Consolidation.SumGames` | consolidate_elo_data.py:64 | the summed games are at least those of each variant |
| `Consolidation.SingleVariant` | consolidate_elo_data.py:48-52 | a group of one takes its variant's games, and that variant is the best |
| `Consolidation.MergeGroup` | consolidate_elo_data.py:46-65 | a group fails exactly when it is one variant without a games entry, naming it; otherwise it gives the best variant's rating and the summed games |
| `Consolidation.LonelyMissingFails` | consolidate_elo_data.py:48-52 | a key alone in its group without games is exactly a failing group |
| `Consolidation.FailingGroupLonely` | consolidate_elo_data.py:52 | the error of a failing group names a key alone in its group without games |
| `Consolidation.MergeSucceedsIff` | consolidate_elo_data.py:44-65 | every group merges exactly when no key is alone in its group without games |
| `Consolidation.MergeGroups` | consolidate_elo_data.py:44-65 | the loop succeeds exactly when every group merges, then fills both dictionaries on exactly the canonical names with each group's merge; otherwise it returns the error of a failing group |
| `Consolidation.MergedElo` | consolidate_elo_data.py:44-61 | definition: each canonical name's rating is its best variant's; properties in `MergeGroupsStore`, `MergeAll`, `CanonicalStoreUnchanged` and `ReconsolidateFixpoint` |
| `Consolidation.MergedGames` | consolidate_elo_data.py:63-65 | definition: each canonical name's games are its variants' summed; properties in `MergeGroupsStore`, `GamesConserved` and `ReconsolidateFixpoint` |
| `Consolidation.MergeGroupsStore` | consolidate_elo_data.py:41-65 | the dictionaries the loop fills are the merged store |
| `Consolidation.MergeAll` | consolidate_elo_data.py:29-65 | grouping fails exactly when some key is alone without games; on success the names are the canonical names once each, and the ratings and games are keyed by them and merged |
| `Consolidation.GamesConserved` | consolidate_elo_data.py:63-65 | consolidated games, summed over the canonical names, equal the raw `get(d, 0)` summed over every key |
| `Consolidation.CanonicalStoreUnchanged` | consolidate_elo_data.py:48-52 | a store whose keys are already canonical, with a games entry for each, consolidates to itself |
| `Consolidation.MergedNamesCanonical` | consolidate_elo_data.py:33-36 | every consolidated name is canonical |
| `Consolidation.ReconsolidateFixpoint` | consolidate_elo_data.py:44-65 | consolidating a consolidated store again changes neither ratings nor games |
| `Consolidation.Complete` | consolidate_elo_data.py:73-74 | definition: a record has both the `winner` and the `loser` key; `RewriteHistory` fails exactly when some record is not complete |
| `Consolidation.Canonicalised` | consolidate_elo_data.py:72-74 | definition: the record with canonical winner and loser; `RewriteHistory` states that each rewritten record is this |
| `Consolidation.MissingName` | consolidate_elo_data.py:73-74 | definition: the error of an incomplete record names the winner when it is missing, as it is read first, else the loser; used in `RewriteHistory`'s failure case |
| `Consolidation.RewriteHistory` | consolidate_elo_data.py:70-75 | a record without a `winner` (read first) or a `loser` fails, naming the first such record and field, as the `KeyError` would; otherwise the history keeps its length and order, and each record has canonical winner and loser and every other field copied |
| `Consolidation.Wins` | consolidate_elo_data.py:78-83 | definition: battles the dish won; `CountBattles` states that the count is wins plus losses |
| `Consolidation.Losses` | consolidate_elo_data.py:78-83 | definition: battles the dish lost; `CountBattles` states that the count is wins plus losses |
| `Consolidation.PlaysCounted` | consolidate_elo_data.py:78-83 | a dish gets a count exactly when it plays in some battle |
| `Consolidation.CountBattles` | consolidate_elo_data.py:78-83 | a dish's count is its wins plus its losses, so a battle against itself counts twice; a dish that never plays has no entry |
| `Consolidation.SortedEnumerates` | consolidate_elo_data.py:86 | `sorted(keys)` lists each key once |
| `Consolidation.SortedKeys` | consolidate_elo_data.py:86 | `sorted(consolidated_games.keys())` lists every consolidated dish once, in increasing order |
| `Consolidation.VerifyCounts` | consolidate_elo_data.py:86-90 | one verification line per sorted dish, in that order, with its stored and recounted games and whether they agree |
| `Consolidation.VerifyCountsAgree` | consolidate_elo_data.py:86-90 | the report has one line per consolidated dish in increasing name order; each line shows the stored games unchanged and the recount, and is OK exactly when the two are equal |
| `Consolidation.ReportCounts` | consolidate_elo_data.py:78-90 | recounting the rewritten history and verifying it yields a report of that shape |
| `Consolidation.StoreRows` | consolidate_elo_data.py:117 | one `(dish, score, games)` row per listed dish, in order |
| `Consolidation.RowsOfStore` | consolidate_elo_data.py:117 | the rows listed are each row of the store exactly once |
| `Consolidation.StoreRowsMembers` | consolidate_elo_data.py:117 | a row is listed exactly when it is a row of the store |
| `Consolidation.FinalRankings` | consolidate_elo_data.py:117-120 | both rankings are sorted by score, highest first; official rows have 3 or more games, provisional rows fewer (0 included); together they are a permutation of all rows |
| `Consolidation.FinalRankingsStable` | consolidate_elo_data.py:117-120 | within each ranking, rows of equal score keep the store's order |
| `Consolidation.ConsolidateEloData` | consolidate_elo_data.py:23-120 | a missing top-level key fails first (`elo_ratings`, then `games_played`, then `battle_history`), and a missing-key error means exactly that; a key alone without games fails; then a history record without a winner or loser fails; otherwise the result is the merged store, the rewritten history, a verification report over it and the two rankings |
| `Ranking.SelectMembers` | restaurant_elo_system.py:167-173 | a tier keeps exactly the rows whose games fall in it |
| `Ranking.Insert` | restaurant_elo_system.py:177 | inserting into a sorted ranking keeps it sorted and adds exactly the row |
| `Ranking.SortByScore` | restaurant_elo_system.py:176-180 | sorting by score, highest first, gives a sorted permutation of the rows |
| `Ranking.SortStable` | consolidate_elo_data.py:117 | the sort is stable: rows of each score keep their input order |
| `Ranking.InsertWithScore` | consolidate_elo_data.py:117 | an inserted row follows the rows of its score already there |
| `Ranking.SelectSorted` | consolidate_elo_data.py:119-120 | filtering a sorted ranking leaves it sorted |
| `Ranking.SelectWithScore` | consolidate_elo_data.py:119-120 | filtering does not reorder rows of equal score |
| `Ranking.SelectAppend` | consolidate_elo_data.py:119-120 | filtering a concatenation filters each part |
| `Ranking.SelectCount` | consolidate_elo_data.py:119-120 | a tier keeps every copy of a row in the tier and none of the others |
| `Ranking.SelectPermutation` | restaurant_elo_system.py:176-180 | filtering two permutations of the same rows gives permutations of the same tier |
| `Ranking.SelectPartition` | consolidate_elo_data.py:119-120 | `games >= n` and `games < n` together hold every row exactly once |
| `Elo.Expected` | restaurant_elo_system.py:117 | definition of `Ea`; properties in `ExpectedBounds` and `ExpectedEven` |
| `Elo.ExpectedBounds` | restaurant_elo_system.py:117 | `Ea = 1 / (1 + 10 ** ((Rb - Ra) / 400))` lies strictly between 0 and 1 |
| `Elo.ExpectedEven` | restaurant_elo_system.py:117 | between equal ratings `Ea` is one half |
| `Elo.Seed` | restaurant_elo_system.py:109-114 | seeding adds the dish to the rated keys and keeps every rated dish's games entry |
| `Elo.Seeded` | restaurant_elo_system.py:109-114 | after seeding both players, both are rated |
| `Elo.SeedValid` | restaurant_elo_system.py:109-111 | seeding keeps `elo` and its insertion order in step, with a games entry per rated dish |
| `Elo.SeedFrame` | restaurant_elo_system.py:109-111 | seeding appends a new dish to the order and touches no other entry |
| `Elo.SeededFacts` | restaurant_elo_system.py:109-114 | seeded players start from their old rating and games, or from 1500 and 0 when unrated; new ones are appended in order; nobody else changes |
| `Elo.Play` | restaurant_elo_system.py:116-124 | definition of a match's writes on seeded ratings; properties in `PlayFrame` and `PlayOutcome` |
| `Elo.AfterMatch` | restaurant_elo_system.py:106-124 | definition of `update_elo`'s new store (seed, then play); properties in the `AfterMatch...` lemmas below and `UpdateElo`'s contract |
| `Elo.PlayFrame` | restaurant_elo_system.py:120-124 | the writes of a match touch only the two players |
| `Elo.PlayOutcome` | restaurant_elo_system.py:120-124 | the writes of a match between two dishes, and the loser's writes standing when a dish plays itself |
| `Elo.AfterMatchValid` | restaurant_elo_system.py:106-124 | `update_elo` keeps the store valid |
| `Elo.AfterMatchFrame` | restaurant_elo_system.py:108-124 | only the two players are added, new ones at the end of the order; nothing is removed; every other dish keeps its rating and games |
| `Elo.AfterMatchSameKeys` | restaurant_elo_system.py:109-114 | `elo` and `games_played` stay on the same keys |
| `Elo.AfterMatchPair` | restaurant_elo_system.py:116-124 | between two dishes the winner gains `k (1 - Ea)`, the loser gains `k (0 - Eb)`, and each plays one more game (same in streamlit_app.py:78-89) |
| `Elo.AfterMatchSelf` | restaurant_elo_system.py:116-124 | a dish beating itself ends at `R + k (0 - Eb)` with two more games |
| `Elo.AfterMatchGames` | restaurant_elo_system.py:123-124 | each player plays one more game; a dish playing itself plays two |
| `Elo.AfterMatchZeroSum` | restaurant_elo_system.py:116-121 | the winner's change and the loser's change cancel |
| `Elo.AfterMatchSigns` | restaurant_elo_system.py:117-121 | with `k > 0` the winner strictly gains and the loser strictly loses |
| `Elo.SelfMatch` | restaurant_elo_system.py:120-121 | a dish beating itself loses `k / 2` |
| `Elo.FirstMatch` | restaurant_elo_system.py:109-121 | two new dishes end their first match at 1516 and 1484 |
| `Elo.SeedTotals` | restaurant_elo_system.py:109-114 | seeding adds 1500 to the rating total over the rated dishes per new dish, and nothing to their games total |
| `Elo.AfterMatchTotalGames` | restaurant_elo_system.py:123-124 | every match adds exactly two games to the games total over the rated dishes, a dish playing itself included |
| `Elo.AfterMatchTotalRating` | restaurant_elo_system.py:109-121 | between two dishes the rating total over the rated dishes is conserved, apart from 1500 per new dish |
| `Elo.RowsOfSpec` | restaurant_elo_system.py:167-173 | the rows of `elo.items()` are exactly the rated dishes with their rating and games |
| `Elo.RankingReport` | restaurant_elo_system.py:164-182 | both tables are sorted by rating, highest first; each holds exactly the rows of its tier (games at least 3, and 1 or 2), as often as in `elo.items()` (same in streamlit_app.py:93-111) |
| `Elo.ReportMembers` | streamlit_app.py:96-102 | a row is official exactly when it is a dish's row with 3 or more games, and provisional exactly when it has 1 or 2 |
| `Elo.ReportUnplayed` | restaurant_elo_system.py:171-173 | a dish without games is in neither table |
| `Menu.MenuDish` | restaurant_elo_system.py:34-38 | definition of one line's dish; properties in `MenuDishSpec`, `MenuDishShape` and `NumberedEntry` |
| `Menu.MenuOf` | restaurant_elo_system.py:33-38 | definition of the menu of a run of lines; properties in `LoadMenuLines`, `MenuOfAppend` and `MenuOfEntries` |
| `Menu.MenuDishSpec` | restaurant_elo_system.py:34-38 | a line gives a dish exactly when its stripped text holds `→` and the text after the first arrow, up to the next one, is not blank; the dish is that text, stripped |
| `Menu.MenuDishShape` | restaurant_elo_system.py:36-37 | a dish name is non-blank, unpadded and holds no arrow |
| `Menu.LoadMenuLines` | restaurant_elo_system.py:32-38 | the loop gives the dish of every line that has one, in line order |
| `Menu.MenuOfAppend` | restaurant_elo_system.py:33-38 | the menu of two runs of lines is the menu of the first, then that of the second |
| `Menu.MenuOfEntries` | restaurant_elo_system.py:33-38 | every name on the menu is the dish of some line |
| `Menu.NumberedEntry` | restaurant_elo_system.py:35-38 | a line `1→<name>` gives `<name>` |
| `Menu.Pairwise` | restaurant_elo_system.py:84-86 | there are `C(n)` pairs of `n` dishes |
| `Menu.Choose2Closed` | restaurant_elo_system.py:84-86 | `C(n) = n (n - 1) / 2` |
| `Menu.PairwiseAt` | restaurant_elo_system.py:84-86 | the dishes at positions `i < j` are paired, at index `PairIndex(n, i, j)` |
| `Menu.PairwiseOnly` | restaurant_elo_system.py:84-86 | every pair listed is that of some positions `i < j` |
| `Menu.PairIndexOrder` | restaurant_elo_system.py:84-86 | pairs come in lexicographic order of their positions |
| `Menu.FiveDishes` | restaurant_elo_system.py:134-135 | five dishes give ten comparisons |
| `MatchParser.FirstFitFromSpec` | streamlit_app.py:47-48 | the scan finds the first index where the pattern can match, or reports that there is none |
| `MatchParser.RegexMatch` | streamlit_app.py:47-51 | definition of the pattern's match on a line not ending in a newline; properties in `RegexMatchSpec` and `RegexMatchIndex` |
| `MatchParser.RegexMatchSpec` | streamlit_app.py:47-51 | on a line not ending in a newline, the pattern matches exactly when the line has a split of its shape, and then gives the split with the shortest first group |
| `MatchParser.RegexMatchIndex` | streamlit_app.py:47-51 | on a line without a newline, the pattern matches exactly when the last character is a bit and a bit sits at some index `1 <= i <= len - 3`, and the first group then ends at the smallest such index; a line holding a newline never matches in the model, where Python's `$` would still accept one final newline, which no classified line has |
| `MatchParser.SplitsFit` | streamlit_app.py:47 | a split of the pattern's shape fits at the length of its first group |
| `MatchParser.FitSplits` | streamlit_app.py:47 | every fitting index gives a split of the pattern's shape |
| `MatchParser.Classify` | streamlit_app.py:42-64 | definition of one line's fate; properties in `ClassifySpec` and `LinesAccounted` |
| `MatchParser.ClassifySpec` | streamlit_app.py:42-64 | a line is skipped exactly when blank or a header, unparsed exactly when no split fits, and invalid exactly when the scores are equal; an accepted line puts the dish scored 1 first |
| `MatchParser.SelfMatchAccepted` | streamlit_app.py:54-62 | a dish beating itself is accepted, not rejected |
| `MatchParser.SelfMatchGroups` | streamlit_app.py:47-51 | the groups of `d1d0` are `d`, `1`, `d`, `0` when `d` has no bit after its first character |
| `MatchParser.ExampleWin` | streamlit_app.py:47-55 | `炒饭1白粥0` gives fried rice over plain congee |
| `MatchParser.ExampleInvalid` | streamlit_app.py:54-60 | `炒饭0白粥0` is rejected as an invalid score |
| `MatchParser.ExampleLazy` | streamlit_app.py:47-55 | the lazy first group splits `A1B10` into `A` over `B1` |
| `MatchParser.Lines` | streamlit_app.py:39-42 | definition of the stripped lines; properties in `ParseMatchContent` and `ClassifiedLinesEndClean` |
| `MatchParser.ClassifiedLinesEndClean` | streamlit_app.py:39-51 | no stripped piece of the content ends in a newline, so the pattern's `$` can only match at the very end of a classified line |
| `MatchParser.AcceptedIn` | streamlit_app.py:54-62 | definition of the accepted pairs, in line order; properties in `AcceptedFromLines`, `AcceptedComplete`, `AcceptedInOrder` and `ParseLines` |
| `MatchParser.RejectedIn` | streamlit_app.py:56-64 | definition of the warnings, in line order; properties in `RejectedSound`, `RejectedComplete` and `ParseLines` |
| `MatchParser.LinesAccounted` | streamlit_app.py:41-64 | every line is skipped, rejected or accepted, and only one of these |
| `MatchParser.RejectedSound` | streamlit_app.py:56-64 | every warning reports a rejected line by its 1-based number, with its text and reason |
| `MatchParser.RejectedComplete` | streamlit_app.py:56-64 | every rejected line is reported under its number |
| `MatchParser.AcceptedFromLines` | streamlit_app.py:54-62 | every pair is that of some line classified as accepted |
| `MatchParser.AcceptedInAppend` | streamlit_app.py:41-62 | the pairs of two runs of lines are those of the first, then those of the second |
| `MatchParser.AcceptedComplete` | streamlit_app.py:54-62 | every line classified as accepted puts its pair in the list, right after the pairs of the lines before it |
| `MatchParser.AcceptedInOrder` | streamlit_app.py:41-62 | pairs keep the order of their lines: an accepted line's pair comes before those of every later line |
| `MatchParser.ParseLines` | streamlit_app.py:41-64 | the loop gives the accepted pairs and the warnings of the stripped lines, in line order |
| `MatchParser.ParseMatchContent` | streamlit_app.py:36-66 | the pairs and warnings of the stripped lines of `content.strip().split('\n')` |
| `RankingSystem.Replay` | streamlit_app.py:190-191 | a run of matches keeps a games entry for every rated dish |
| `RankingSystem.Results` | streamlit_app.py:189-201 | one entry per match; what each entry holds is in `ResultsAt` and `ResultsSigns` |
| `RankingSystem.ReplayExtend` | streamlit_app.py:190-191 | playing the next match extends the run by one step |
| `RankingSystem.ResultsExtend` | streamlit_app.py:195-201 | recording the next match appends its entry, numbered from 1 |
| `RankingSystem.ReplayStep` | streamlit_app.py:190-201 | one loop step extends both the run and the entries |
| `RankingSystem.ResultSigns` | streamlit_app.py:191-193 | between two dishes the winner's change is positive, the loser's negative, and they cancel; a dish beating itself shows -16 twice |
| `RankingSystem.ResultsAt` | streamlit_app.py:189-201 | entry `i` is that of match `i`, numbered `i + 1`, played on the store the first `i` matches left |
| `RankingSystem.ResultsSigns` | streamlit_app.py:189-201 | every entry is numbered from 1 in match order, names its match's players, and shows the winner up, the loser down by the same amount (or -16 twice for a dish beating itself) |
| `RankingSystem.ReplayValid` | streamlit_app.py:190-191 | a run of matches keeps the store valid |
| `RankingSystem.Players` | streamlit_app.py:190 | the dishes that play in a run |
| `RankingSystem.ReplayKeys` | streamlit_app.py:190-191 | after a run the rated dishes are those rated before and those that played |
| `RankingSystem.ReplayTotalGames` | streamlit_app.py:88-89 | a run adds two games per match to the games total over the rated dishes |
| `RankingSystem.EloSystem.constructor` | streamlit_app.py:21-34 | the system starts from the loaded ratings |
| `RankingSystem.EloSystem.SeedDish` | streamlit_app.py:71-76 | an unrated dish is added at 1500 with 0 games, appended to the order |
| `RankingSystem.EloSystem.RecordMatch` | streamlit_app.py:78-89 | the rating writes, then the two game increments (same in restaurant_elo_system.py:116-124) |
| `RankingSystem.EloSystem.UpdateElo` | streamlit_app.py:68-91 | the new store is the one `AfterMatch` describes, and the ratings returned are those the players had when the match started (1500 for a new dish) |
| `RankingSystem.EloSystem.ProcessMatches` | streamlit_app.py:178-206 | no accepted match gives `False` and leaves the store alone; otherwise the matches are played in order, the store is the run's result, and one entry per match is returned, each numbered from 1, naming its players, with the winner's change positive and the loser's negative and cancelling (-16 twice for a dish beating itself) |

## Left out

- File and JSON I/O is not modelled.
  - The loaded dictionaries are the constructor's argument.
  - Consolidation takes the export as a value (`ExportFile`) and returns
    its result.
  - Not modelled: `save_ratings`, the writes of `elo_ratings.json` and
    `battle_history.json`, and `load_menu`'s encoding fallback and sample
    menu. `LoadMenuLines` is the loop for one encoding.
- Timestamps (`last_updated`), randomness and presentation are not modelled.
  - Randomness: `select_random_dishes`, `mock_comparison_result`,
    `run_iteration`.
  - Presentation: plots, Plotly charts, Streamlit widgets, CSV export, and
    every `print`, `st.warning` and `st.error`.
  - The parser's warnings are returned as a list of `Rejection`s instead.
  - `ProcessMatches` does not return them, as the source does not.
- Floating point is not modelled.
  - Ratings are exact reals.
  - `10 ** x` is any positive function, with `10 ** 0 == 1` required where
    it is used.
  - Rounding and the `:.1f`/`:.0f` formatting of the reported changes are
    not modelled, so `ProcessMatches` returns the changes as numbers.
- Python's `chinese_names` is a set, whose iteration order is not specified.
  The model takes the canonical names in order of first appearance among
  the keys. That order decides two things:
  - which failing group's error is raised first;
  - the stored order of the consolidated dictionaries, and with it the
    order of equal scores in the final rankings.
- `dish_mapping` is built but never read in the source, so it is not
  modelled.
- `Elo.RankingReport`: `sort_values` uses pandas' default sort, which is not
  stable. The contract therefore promises sorted permutations of the tiers
  and not the order of equal ratings.
- `Consolidation.ConsolidateEloData`: a key present in `elo_ratings` must be
  listed once (`WellFormed`), as JSON object keys are.
- A rated dish without a `games_played` entry makes `update_elo` and
  `generate_ranking_report` raise `KeyError`. The model requires every rated
  dish to have one. This is what `update_elo` keeps, and what a store
  written by `save_ratings` has.
- Game counts are natural numbers. JSON could hold other values, which the
  program would not handle either.
- String handling has no Unicode normalisation and no encoding; strings are
  sequences of code points.
  - Whitespace for `strip()` is the set for which Python's `str.isspace()`
    holds.
  - The header prefixes are the mis-decoded text the program compares
    against.
