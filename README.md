# Bongograms word-puzzle engine, modelled in Dafny

Bongograms finds dictionary words for a five-cell row. Some cells of the
template are fixed letters, the others are blank. Each cell carries a score
multiplier: 0 turns the cell off, 1 is neutral, 2 and 3 are boosts. The player
supplies a pool of letters, which may hold the wildcards `?` and `*`.

A word is found when two things hold:

- it can be laid on the row so that it agrees with the fixed cells;
- it can be spelled from the pool plus the template's fixed letters.

Found words are then scored at their positions, and the best position is
chosen. The list is ranked: common words first, then by score.

This project models that engine and proves what it promises. It has one
module per part of the engine:

- `TemplateMatcher` models `matchesAtPosition`, `getValidPositions` and
  `matchesTemplate` (anagramFinder.js). It has four branches: the length
  filter, the cell-by-cell check of five-letter words, free sliding on a
  blank template, and the window scan when letters are fixed.
- `LetterConsumer` models `canMakeWordWithTemplate` (anagramFinder.js). This
  is the greedy spelling walk: for each letter it takes an exact letter if
  one is left, else a `?`, else a `*`, and it records which one it took.
- `AnagramFinder` models `findAnagrams`, which chains the two stages above.
- `LegacyScript` models `canMakeWord` (script.js), an older version of the
  walk that knows only `?`.
- `Scoring` models scoring.js: the letter values, the score of a word at a
  position (with the common-word bonus of ceil(1.3 × base)), and
  `findBestPosition`.
- `ResultRanking` models public/resultRanking.js: the multiplier-space score,
  `findBestPositionForOrdering` and `compareMatches`.
- `SearchPage` models public/script.js. It covers the click cycle of the
  multiplier buttons, as a class over the page's `multipliers` array. It
  also covers the data part of `updateResults`:
  - cells that are off are removed from the template and the multipliers;
  - the pool is built, `?` repeated in "any" mode;
  - words are filtered by length;
  - the two lists are de-duplicated;
  - results are scored and sorted stably by score.

The loops of the source are methods, each proved equal to a specification
function: `MatchesAtPosition`, `GetValidPositions`, `ScanWindow`,
`CanMakeWordWithTemplate`, `CanMakeWord`, `FindBestPosition`,
`ComputeHasBoost` and `FindBestPositionForOrdering`. The lemmas state the
source's promises about those functions. The map/filter/reduce code is
written as functions.

JavaScript details are written out where they change results:

- A read past the end of a string or an array yields `undefined`
  (`Conflicts`, `IsStar`).
- `multipliers[g] || 1` sends both 0 and a missing cell to 1 (`CellMultiplier`).
- `positions[0]` on an empty list is `undefined` (an `Option`).
- `-Infinity` is the `NegInf` case of `Bound`.
- `Math.ceil(base * 1.3)` is the integer `(13 * base + 9) / 10`.

Two behaviours are modelled as written, although the scorer reads them
differently:

- In the fixed-letter branch, a returned position is the index in the word
  that lines up with the first fixed cell. It is not a cell of the row; the
  word starts on cell `FirstFixed - p`. `FixedPositionsAreWordOffsets` proves
  this, and `WordOffsetIsNotGridStart` gives an example. The scorer adds the
  returned number to the letter index as if it were a cell (scoring.js:13).
- The five-letter branch and the sliding branch hard-code the row width 5.
  The window scan uses the template's real length. When a cell is off,
  public/script.js passes a shorter template; `SlidingIgnoresTemplateLength`
  shows the effect.

Two further consequences of the code are stated as lemmas:

- A multiplier of 0 switches a cell off only on the page. public/script.js
  disables the cell's box (line 76) and removes the cell before searching
  (lines 177-188). The scorer itself counts a 0 as a 1 (scoring.js:14;
  `ZeroMultiplierCountsAsOne`).
- In the five-letter test of anagramFinder.test.js:25-33, "mount" fits the
  template `_ o _ _ t`. It is rejected by the letter check, not by the
  position check (`MountCannotBeSpelled`).

## Model

| member | source | states |
|---|---|---|
| TemplateMatcher.Conflicts | anagramFinder.js:4 | definition: cell `i` is fixed and the word's character at `j` (`undefined` outside the word) differs from it |
| TemplateMatcher.MatchesAt | anagramFinder.js:1-9 | definition of `matchesAtPosition`: no cell from `firstNonEmpty` to `lastNonEmpty` conflicts with the word placed at `startPos` |
| TemplateMatcher.MinStart | anagramFinder.js:42 | definition of `minStartPos`: `max(0, len - (template.length - firstNonEmpty))` |
| TemplateMatcher.MaxStart | anagramFinder.js:41-43 | definition of `maxStartPos`: `min(firstNonEmpty, len - patternLength)` |
| TemplateMatcher.Scan | anagramFinder.js:45-49 | definition of the closing loop: the offsets from `minStartPos` to `maxStartPos` at which the span matches, ascending |
| TemplateMatcher.FixedScan | anagramFinder.js:38-51 | definition of the fixed-letter branch: the scan between the two bounds of the first and last fixed cells |
| TemplateMatcher.ValidPositions | anagramFinder.js:11-52 | definition of `getValidPositions`: the length filter, then the five-letter check over five cells, the blank-template slide `0..5-len`, or the fixed-letter scan |
| TemplateMatcher.MatchesTemplate | anagramFinder.js:54-56 | definition of `matchesTemplate`: some valid position exists |
| TemplateMatcher.FirstFixed | anagramFinder.js:38 | the index found is a fixed cell and every cell before it is blank |
| TemplateMatcher.LastFixed | anagramFinder.js:39 | the index found is a fixed cell and every cell after it is blank |
| TemplateMatcher.MatchesAtPosition | anagramFinder.js:1-9 | the loop returns true exactly when every cell from `firstNonEmpty` to `lastNonEmpty` is blank or carries the word's letter lined up with it; a read outside the word or the template is `undefined` |
| TemplateMatcher.GetValidPositions | anagramFinder.js:11-52 | the four branches return exactly `ValidPositions`: nothing outside lengths 3-5, `[0]` or `[]` for five letters, `0..5-len` on a blank template, the window scan otherwise |
| TemplateMatcher.ScanWindow | anagramFinder.js:45-49 | the closing loop pushes exactly the matching offsets from `minStartPos` to `maxStartPos`, in order |
| TemplateMatcher.ScanExactly | anagramFinder.js:45-49 | the scanned offsets lie within the two bounds, are strictly ascending, and are exactly the in-bound offsets that match |
| TemplateMatcher.PositionsAscending | anagramFinder.js:11-52 | every position list is non-negative and strictly ascending |
| TemplateMatcher.OutOfRangeLengthHasNoPositions | anagramFinder.js:15 | words shorter than 3 or longer than 5 letters get no position |
| TemplateMatcher.FiveLetterWordIsCheckedCellByCell | anagramFinder.js:17-29 | on a five-cell template a five-letter word gets `[0]` exactly when every fixed cell equals the word's letter at that index, and `[]` otherwise |
| TemplateMatcher.FiveLetterWordNeverFitsShortTemplate | anagramFinder.js:17-29 | because the loop always reads five cells, a five-letter word gets nothing on a shorter template |
| TemplateMatcher.BlankTemplateSlides | anagramFinder.js:31-36 | with no fixed letter a three- or four-letter word gets every position `0..5-len`, in order |
| TemplateMatcher.FixedBranch | anagramFinder.js:38-51 | three- and four-letter words against fixed letters go through the window scan |
| TemplateMatcher.MatchesAtFixedCells | anagramFinder.js:1-9 | the span matches at `p` exactly when every fixed cell `i` in it has `word[p + i - first]` equal to its letter |
| TemplateMatcher.FixedLettersWindow | anagramFinder.js:38-50 | with fixed letters, `p` is returned exactly when it lies between `minStartPos` and `maxStartPos` and lines the word up with every fixed cell |
| TemplateMatcher.WindowGivesFit | anagramFinder.js:41-46 | an offset in the window lays the word on the row from cell `first - p`, covering and agreeing with every fixed cell |
| TemplateMatcher.FitGivesWindow | anagramFinder.js:41-46 | any placement on the row that covers and agrees with every fixed cell gives an offset inside the window |
| TemplateMatcher.WindowIffFit | anagramFinder.js:41-46 | an offset lies in the window exactly when the word fits the row from cell `first - p` |
| TemplateMatcher.FixedPositionsAreWordOffsets | anagramFinder.js:38-50 | in the fixed-letter branch, `p` is returned exactly when the word really fits the row with its first letter on cell `first - p` |
| TemplateMatcher.SlidingPositionsAreGridStarts | anagramFinder.js:31-36 | on a blank five-cell template, `p` is returned exactly when the word fits on cell `p` |
| TemplateMatcher.FiveLetterPositionIsGridStart | anagramFinder.js:17-29 | a five-letter word on a five-cell template is returned only at 0, and exactly when it fits there |
| TemplateMatcher.PositionGivesFit | anagramFinder.js:11-52 | on a five-cell template, any returned position means the word fits the row somewhere |
| TemplateMatcher.FitGivesPosition | anagramFinder.js:11-52 | on a five-cell template, a three- to five-letter word that fits somewhere gets a position |
| TemplateMatcher.MatchesTemplateIffPlaceable | anagramFinder.js:54-56 | on a five-cell template, `matchesTemplate` holds exactly when the word has 3-5 letters and fits the row somewhere |
| TemplateMatcher.WordOffsetIsNotGridStart | anagramFinder.js:38-50 | "cab" against a lone `c` on cell 1 gets `[0]`, though it fits on cell 1 and not on cell 0 |
| TemplateMatcher.SlidingIgnoresTemplateLength | anagramFinder.js:31-36 | on a blank four-cell template a four-letter word gets 0 and 1, though only cell 0 fits |
| LetterConsumer.PoolOf | anagramFinder.js:59-60 | definition of `available`: the given letters followed by the template's fixed letters |
| LetterConsumer.CanFill | anagramFinder.js:65-80 | definition: the pool holds the letter itself, a `?` or a `*` |
| LetterConsumer.UnitFor | anagramFinder.js:65-77 | the unit spliced out for a letter lies in the pool: the letter itself if present, else `?`, else `*` |
| LetterConsumer.KindFor | anagramFinder.js:69-77 | definition of the type pushed: exact (`null`), `?` or `*`, in the same order of preference as `UnitFor` |
| LetterConsumer.Consume | anagramFinder.js:64-83 | definition of the walk on the pool as a multiset: each letter takes `UnitFor` and records `KindFor`, and the walk fails on the first letter no unit can fill |
| LetterConsumer.TemplateLetters | anagramFinder.js:59 | the fixed letters of the template: no longer than the template, holding exactly the letters of its fixed cells |
| LetterConsumer.IndexOf | anagramFinder.js:65-67 | `indexOf` gives -1 exactly when the character is absent, and otherwise its first occurrence |
| LetterConsumer.RemoveAt | anagramFinder.js:70-76 | `splice(i, 1)` removes exactly one unit, the one at `i`, from the pool's multiset |
| LetterConsumer.CanMakeWordWithTemplate | anagramFinder.js:58-84 | the splicing loop returns the greedy walk's result on the letters followed by the template's fixed letters |
| LetterConsumer.ConsumeStep | anagramFinder.js:64-77 | one step of the walk takes an exact letter, else a `?`, else a `*`, records its kind and continues on the pool without it |
| LetterConsumer.ConsumeStuck | anagramFinder.js:78-80 | a letter that no unit can fill makes the whole walk fail |
| LetterConsumer.OwnLettersSpellExactly | anagramFinder.js:64-83 | a pool of exactly the word's letters spells it with an exact letter at every position |
| LetterConsumer.ConsumeLength | anagramFinder.js:62-83 | on success there is one wildcard type per letter, and the word is no longer than the pool |
| LetterConsumer.ConsumeSucceedsIff | anagramFinder.js:59-83 | the walk succeeds exactly when the word's letters that the pool cannot supply as themselves number no more than its `?` and `*` units |
| LetterConsumer.ExactLetterWhenAvailable | anagramFinder.js:65-71 | when letter `k` is no marker, it is filled by itself exactly when the pool holds at least as many copies of it as the word has up to and including `k` |
| LetterConsumer.NoQuestionWithoutQuestionUnit | anagramFinder.js:72-74 | a pool without `?` never records a `?` |
| LetterConsumer.NoQuestionAfterStar | anagramFinder.js:72-77 | after a `*` has been recorded, no `?` is recorded |
| LetterConsumer.StarOnlyAfterAllQuestions | anagramFinder.js:72-77 | when a `*` is recorded, every `?` of the pool has already been used |
| AnagramFinder.MatchWord | anagramFinder.js:88-98 | definition of the `map` callback: no match without a position, no match when the word cannot be made, else the word with its wildcard types and positions |
| AnagramFinder.Kept | anagramFinder.js:99 | definition of `filter(result => result !== null)` for one callback result |
| AnagramFinder.FindAnagrams | anagramFinder.js:86-100 | definition of `findAnagrams`: the callback mapped over the word list, nulls dropped, list order kept |
| AnagramFinder.FindAnagramsConcat | anagramFinder.js:86-100 | searching two lists one after the other gives the two results one after the other, so the word-list order is kept |
| AnagramFinder.FindAnagramsSound | anagramFinder.js:86-100 | every result is a word of the list with a position and a spelling, and it carries exactly its positions and wildcard types; its length is 3-5 |
| AnagramFinder.FindAnagramsComplete | anagramFinder.js:86-100 | every word of the list with a position and a spelling is returned, with its wildcard types and positions |
| AnagramFinder.ToothHasNoPosition | anagramFinder.test.js:25-33 | "tooth" gets no position against `_ o _ _ t` |
| AnagramFinder.MountCannotBeSpelled | anagramFinder.test.js:25-33 | "mount" cannot be spelled from "cun" plus `o` and `t` |
| AnagramFinder.CountFitsTheRow | anagramFinder.test.js:25-33 | "count" gets position 0 against `_ o _ _ t` |
| AnagramFinder.CountCanBeSpelled | anagramFinder.test.js:25-33 | "count" is spelled from "cun" plus `o` and `t` |
| AnagramFinder.OnlyFirstOfThree | anagramFinder.js:86-100 | when only the first of three words matches, only that word is returned |
| AnagramFinder.CountMatches | anagramFinder.test.js:25-33 | "count" is a match of the scenario |
| AnagramFinder.ToothAndMountDoNotMatch | anagramFinder.test.js:25-33 | "tooth" and "mount" are not matches of the scenario |
| AnagramFinder.FiveLetterScenario | anagramFinder.test.js:25-33 | searching "count", "tooth", "mount" against `_ o _ _ t` with "cun" returns only "count" |
| LegacyScript.CanSpell | script.js:72-90 | definition of `canMakeWord` on the pool as a multiset: each letter takes itself if present, else a `?`, and the walk fails when neither is left |
| LegacyScript.CanMakeWord | script.js:72-90 | the splicing loop returns the greedy exact-then-`?` walk's result on the letters |
| LegacyScript.CanSpellIff | script.js:72-90 | `canMakeWord` succeeds exactly when the word's letters that the pool cannot supply as themselves number no more than its `?` units |
| LegacyScript.CanSpellNeedsEnoughUnits | script.js:73-85 | a word longer than the pool always fails |
| LegacyScript.CanSpellIsConsumeWithoutStar | script.js:76-87 | on a pool without `*`, `canMakeWord` succeeds exactly when `canMakeWordWithTemplate` does |
| Scoring.LetterScore | scoring.js:1-5 | definition of `letterScores[letter]`, defaulting to 0: the table's value for the 26 letters, 0 for any other character |
| Scoring.IsStar | scoring.js:9 | definition of `wildcardTypes[index] === '*'`, false outside the array |
| Scoring.Points | scoring.js:9-15 | definition of one step of the reduce: 0 for a `*` letter, else letter value × `CellMultiplier` of cell `position + index` |
| Scoring.BaseUpTo | scoring.js:8-16 | definition of the reduce over the first `n` letters, from 0 |
| Scoring.BaseScore | scoring.js:8-16 | definition of `baseScore`: the reduce over the whole word |
| Scoring.CommonScore | scoring.js:17-18 | definition of `Math.ceil(baseScore * 1.3)` in integers |
| Scoring.LetterScorePositiveIffInTable | scoring.js:1-5 | exactly the 26 lower-case letters have a positive value, and no value exceeds 90 |
| Scoring.CellMultiplier | scoring.js:14 | a cell's multiplier is at least 1: its own value when inside the array and non-zero, else 1 |
| Scoring.ScoreAtPosition | scoring.js:7-21 | the base score is the sum over non-`*` letters of value × cell multiplier; a common word scores the ceiling of 1.3 × base, with the difference as a bonus that is positive when the base is; any other word scores its base with no bonus |
| Scoring.SameCellMultipliers | scoring.js:8-16 | two multiplier arrays that give every cell the same multiplier give the same score |
| Scoring.ZeroMultiplierCountsAsOne | scoring.js:14 | a cell set to 0 scores as if it were 1 |
| Scoring.PaddingWithOnes | scoring.js:14 | a cell past the end of the array counts as 1 |
| Scoring.StarLetterScoresZero | scoring.js:9-11 | a letter filled by `*` adds 0 points, and replacing it by any other character changes no base score |
| Scoring.AllStarScoresZero | scoring.js:8-16 | a word filled by `*` at every letter has base score 0, whatever the position and multipliers |
| Scoring.QuestionScoresLikeReal | scoring.js:9-15 | a letter filled by `?` scores like an exact letter |
| Scoring.NoStarScoresEveryLetter | scoring.js:8-16 | without `*`, every letter scores value × multiplier |
| Scoring.FirstBest | scoring.js:24-37 | the strict-greater scan from 0 settles on the earliest index holding the maximum score, or on none when every score is 0 |
| Scoring.FirstBestSnoc | scoring.js:29-37 | one more score takes over only when strictly above the current best |
| Scoring.BestPosition | scoring.js:23-40 | the chosen score is at least every position's score; with a positive best, the position is the earliest one scoring it, with that position's triple; when all scores are 0 it is `positions[0]` with 0/0/0; with no positions it is undefined with 0/0/0 |
| Scoring.FindBestPosition | scoring.js:23-40 | the loop over the four `best*` variables returns `BestPosition` |
| Scoring.CatOnMultipliers | tests/scoring.test.js:28-41 | "cat" at 0 under 2, 1, 3 scores 35·2 + 5 + 9·3 = 102, with no bonus |
| Scoring.CatAllWildcards | tests/scoring.test.js:157-168 | "cat" spelled with three `*` on 2x cells has score and base score 0 |
| Scoring.CatBestAtTwo | tests/scoring.test.js:145-155 | "cat" at 0, 1, 2 under 1, 1, 1, 1, 3 is best at 2 |
| ResultRanking.HasBoost | public/resultRanking.js:45 | definition of `multipliers.some(m => m > 1)` |
| ResultRanking.BoostedPoints | public/resultRanking.js:30-39 | definition of one step of the reduce: 0 for a `*` letter or a cell whose multiplier is at most 1, else letter value × multiplier |
| ResultRanking.SpaceUpTo | public/resultRanking.js:29-40 | definition of the reduce over the first `n` letters, from 0 |
| ResultRanking.MultiplierSpaceScore | public/resultRanking.js:28-41 | definition of `calculateMultiplierSpaceScore`: the reduce over the whole word |
| ResultRanking.KeyLess | public/resultRanking.js:59-61 | definition of `isBetter` between two positions: a higher multiplier-space score, or an equal one and a higher score |
| ResultRanking.SpaceAtMostBase | public/resultRanking.js:28-41 | the multiplier-space score never exceeds the base score at the same position |
| ResultRanking.NoBoostNoSpace | public/resultRanking.js:28-41 | with no multiplier above 1 the multiplier-space score is 0 |
| ResultRanking.AllBoostedSpaceIsBase | public/resultRanking.js:28-41 | when every letter lies on a boosted cell, the multiplier-space score equals the base score |
| ResultRanking.FirstMaxKey | public/resultRanking.js:53-70 | the index chosen holds a key (multiplier-space score, score) that no other key is above, and is above every earlier key |
| ResultRanking.OrderingBest | public/resultRanking.js:43-80 | with positions, the choice is the earliest position with the greatest key, with its score triple and multiplier-space score; with none, the score stays `-Infinity`, and so does the multiplier-space score when there is a boost; without a boost the multiplier-space score is 0 |
| ResultRanking.ComputeHasBoost | public/resultRanking.js:45 | the loop finds whether some multiplier is above 1 |
| ResultRanking.FirstMaxKeySnoc | public/resultRanking.js:59-69 | one more key takes over exactly when it is above the current winner |
| ResultRanking.FirstMaxKeyNext | public/resultRanking.js:59-69 | the first key always takes over from `-Infinity`; after that, a key takes over exactly when `isBetter` holds |
| ResultRanking.FindBestPositionForOrdering | public/resultRanking.js:43-80 | the loop over the five `best*` variables returns `OrderingBest` |
| ResultRanking.NoBoostAgreesWithBestPosition | public/resultRanking.js:45-61 | without a boost, the position and score triple chosen are those of `findBestPosition` |
| ResultRanking.BoostOutranksScore | public/resultRanking.js:55-69 | with a boost, the chosen multiplier-space score is at least every position's |
| ResultRanking.QuizOnTripleCell | tests/resultRanking.test.js:30-40 | "quiz" at 0 or 1 with a 3x first cell is placed at 0 |
| ResultRanking.LexCompare | public/resultRanking.js:102 | the word comparison is -1, 0 or 1 |
| ResultRanking.LexCompareAntisymmetric | public/resultRanking.js:102 | swapping the words negates the comparison |
| ResultRanking.LexCompareZeroIffEqual | public/resultRanking.js:102 | the comparison is 0 exactly on equal words |
| ResultRanking.LexCompareIsLexLess | public/resultRanking.js:102 | a negative comparison means exactly that the first word is a proper prefix of the second or smaller at the first difference |
| ResultRanking.LexCompareTransitive | public/resultRanking.js:102 | the word order is transitive |
| ResultRanking.SpaceOrZero | public/resultRanking.js:90 | definition of `multiplierSpaceScore`, defaulting to 0 when missing |
| ResultRanking.CompareMatches | public/resultRanking.js:82-103 | definition of `compareMatches`: -1/1 on the common flag, then with a boost the difference of multiplier-space scores, then the difference of scores, then the word comparison |
| ResultRanking.RanksBefore | public/resultRanking.js:82-103 | reference definition of the intended order: common first, then higher multiplier-space score with a boost, then higher score, then the word in ascending order |
| ResultRanking.CompareMatchesIsRanking | public/resultRanking.js:82-103 | a negative result means exactly: common first; then, with the flag, the higher multiplier-space score (missing as 0); then the higher score; then the word in ascending order |
| ResultRanking.CompareMatchesAntisymmetric | public/resultRanking.js:82-103 | swapping the matches flips the sign of the result |
| ResultRanking.CompareMatchesZeroIff | public/resultRanking.js:82-103 | the result is 0 exactly when the common flag, the compared scores and the word all coincide |
| ResultRanking.CompareMatchesTransitive | public/resultRanking.js:82-103 | ranking first is transitive |
| ResultRanking.CommonRanksFirst | public/resultRanking.js:83-86 | a common match ranks before a non-common one, from both sides, whatever their scores |
| SearchPage.NextMultiplier | public/script.js:61-67 | a click gives a value within 0-3, and always changes a value that was within 0-3 |
| SearchPage.Clicks | public/script.js:61-67 | after at least one click the value is between 0 and 3 |
| SearchPage.FourClicksRestore | public/script.js:61-67 | four more clicks bring a button back to the same value |
| SearchPage.ClicksVisitEveryValue | public/script.js:61-67 | four successive values visit each of 0, 1, 2 and 3 |
| SearchPage.MultiplierRow.constructor | public/script.js:24 | the row starts as five 1s |
| SearchPage.MultiplierRow.Click | public/script.js:58-67 | a click changes only the clicked cell, by one step of the cycle, and keeps every cell within 0-3 |
| SearchPage.Pick | public/script.js:183 | `activeIndices.map(i => s[i])` takes the entries at the indices, in order |
| SearchPage.ActiveIndices | public/script.js:177-179 | the indices of the cells that are on, strictly ascending, each such index present |
| SearchPage.AllActive | public/script.js:177-180 | every index is active exactly when no cell is off, and then the indices are `0..4` |
| SearchPage.IsLengthFiltered | public/script.js:180 | definition of `activeIndices.length !== 5` |
| SearchPage.SearchTemplate | public/script.js:182-184 | definition of `template`: the boxes of the active cells when a cell is off, else all boxes |
| SearchPage.ScoringMultipliers | public/script.js:186-188 | definition of `multipliersForScoring`: the multipliers of the active cells when a cell is off, else all of them |
| SearchPage.OffCellsRemoved | public/script.js:177-188 | off cells are removed from the template and the scoring multipliers, which keep the rest in order; with no cell off both are unchanged |
| SearchPage.Repeat | public/script.js:213 | `'?'.repeat(n)` is `n` copies of `?` |
| SearchPage.WildcardCount | public/script.js:212 | definition of `wildcardCount`: the number of active cells when a cell is off, else 5 |
| SearchPage.SearchLetters | public/script.js:213 | definition of `letters`: `wildcardCount` copies of `?` in "any" mode, the chosen letters otherwise |
| SearchPage.AnyModePool | public/script.js:212-213 | in "any" mode the pool is one `?` per active cell, five when none is off |
| SearchPage.MatchesOf | public/script.js:215-222 | definition of one list's matches: `findAnagrams` on the search template and letters, then the length filter when a cell is off |
| SearchPage.WordSet | public/script.js:224 | definition of `commonSet`: the words of the common matches |
| SearchPage.Record | public/script.js:228-250 | definition of one shown record: the match's word and types with the position and scores of `findBestPosition` and the common flag |
| SearchPage.Merged | public/script.js:227-252 | definition of `matches` before sorting: the common records, then the records of the general matches whose word is not a common match's |
| SearchPage.SortedByScore | public/script.js:254 | definition: scores never increase along the list |
| SearchPage.Insert | public/script.js:254 | definition of one step of the stable sort: the record goes before the first record scoring no more than it |
| SearchPage.SortByScore | public/script.js:254 | definition of the stable sort by descending score: each record is inserted into the sorted rest of the list |
| SearchPage.UpdateResults | public/script.js:175-254 | definition of the data part of `updateResults`: the template message, the letters message, the not-loaded message, or the sorted merged records |
| SearchPage.KeepLength | public/script.js:218-222 | the length filter keeps exactly the matches whose word has the required length |
| SearchPage.DropWords | public/script.js:224-225 | the de-duplication keeps exactly the matches whose word is not a common match |
| SearchPage.Records | public/script.js:227-252 | each match becomes a record placed and scored by `findBestPosition`, in order |
| SearchPage.InsertPermutes | public/script.js:254 | an insertion step of the sort adds its record and nothing else |
| SearchPage.SortPermutes | public/script.js:254 | the sort is a permutation |
| SearchPage.InsertSorted | public/script.js:254 | inserting into a list sorted by score keeps it sorted |
| SearchPage.SortSorted | public/script.js:254 | the sorted list has the highest scores first |
| SearchPage.InsertWithScore | public/script.js:254 | an inserted record goes before every record of its own score |
| SearchPage.SortStable | public/script.js:254 | the records of each score keep their earlier order |
| SearchPage.NoSearchWithoutInput | public/script.js:190-205 | with no fixed cell, "any" mode asks for a template, and "choose" mode with no letters asks for letters |
| SearchPage.FoundIsStableSortOfMerged | public/script.js:227-254 | the shown list is a permutation of the merged records, highest score first, with equal scores in merged order |
| SearchPage.CommonFirstInMerged | public/script.js:227-252 | before sorting, every common record precedes every other one |
| SearchPage.MatchesOfMember | public/script.js:215-222 | a match of a list survives exactly when it is found and, with a cell off, has the number of active cells as its length |
| SearchPage.MergedMember | public/script.js:224-252 | a merged record is the record of a common match, or of a match of the full list whose word is no common match's |
| SearchPage.FoundMember | public/script.js:254 | every shown record is a merged record |
| SearchPage.MergedShown | public/script.js:254 | every merged record is shown |
| SearchPage.MatchSound | public/script.js:215-222 | a match of a list is a playable word of the list with its positions, of the row's length when a cell is off |
| SearchPage.RecordSound | public/script.js:227-252 | a record of a sound match is a playable word placed by `findBestPosition` over its positions |
| SearchPage.FoundSound | public/script.js:176-254 | every shown record is a playable word of its list, of the row's length when a cell is off, placed and scored by `findBestPosition` over its positions |
| SearchPage.FoundCommonOnce | public/script.js:224-252 | a word shown as common is never shown again as non-common |
| SearchPage.MatchComplete | public/script.js:215-222 | a playable word of a list with the right length is among that list's matches |
| SearchPage.CommonMerged | public/script.js:227-239 | the record of every common match is merged |
| SearchPage.OtherMerged | public/script.js:240-251 | the record of every other match whose word is no common match's is merged |
| SearchPage.FoundComplete | public/script.js:176-254 | every playable word of the right length is shown: a common word as common, any other word as non-common |

## Left out

- The DOM, the event listeners, focus movement, `setLettersMode` and the score toggle: these are presentation.
- Dictionary loading (fetching and splitting the word lists): network I/O. The word lists are inputs of `Page`.
- `formatWord`, the HTML written by `updateResults` and the cap of 200 shown words: presentation. `UpdateResults` returns the message or the full sorted list.
- The older page's `findAnagrams` (script.js:37-68) filters both word lists with `canMakeWord`, de-duplicates them as `updateResults` does, and writes HTML. Only `canMakeWord` is modelled; the de-duplication and merge are modelled for `updateResults`.
- `getScoring` and `cachedScoring`: these resolve modules and globals. The ranker calls the scorer's functions directly.
- Floating point: `Math.ceil(base * 1.3)` is written as the integer `(13 * base + 9) / 10`, which is the same value for every natural base.
- `localeCompare` is modelled as code-point order. For the lower-case Latin words of the dictionaries, this gives the same order as the locale.
- `compareMatches` is modelled on integer scores. A match still carrying the `-Infinity` score of `findBestPositionForOrdering` would make JavaScript subtract infinities; the model does not cover that.
- `toLowerCase` and `trim` of the boxes and the letters: the model takes cells and letters already normalised. Each template box holds one character or nothing.
- The multipliers are naturals. The click cycle keeps each one within 0-3, and `MultiplierRow` holds that as its invariant.
- SearchPage.WellFormed: a page always has five boxes and five multipliers, so the pipeline's lemmas require exactly that.
- TemplateMatcher.MatchesTemplateIffPlaceable: stated for five-cell templates only, because the hard-coded 5 breaks the correspondence on a shorter template (see `SlidingIgnoresTemplateLength`).
- TemplateMatcher.PositionGivesFit: stated for five-cell templates only, for the same reason.
- TemplateMatcher.FitGivesPosition: stated for five-cell templates only, for the same reason.
- TemplateMatcher.SlidingPositionsAreGridStarts: stated for five-cell templates only, for the same reason.
- LetterConsumer.ConsumeSucceedsIff: stated for words without `?` or `*`, as dictionary words are. A word containing a marker could consume a marker unit as an exact letter.
- LegacyScript.CanSpellIff: stated for words without `?` or `*`, for the same reason.
- LetterConsumer.ExactLetterWhenAvailable: stated for a letter `k` that is not itself `?` or `*`, for the same reason.
- LetterConsumer.StarOnlyAfterAllQuestions: stated for words without `?` or `*`. In a word containing `?`, that letter could take a `?` unit as an exact letter, which the recorded types do not show.
