/**
 * The scorer of scoring.js: the letter values, the score of a word placed
 * at one position of the row under the cell multipliers, the common-word
 * bonus, and the choice of the best position.
 */
module Scoring {
  import opened Wrappers
  import opened LetterConsumer

  /** The lower-case Latin letters, the keys of the letter-value table. */
  const Alphabet: string := "abcdefghijklmnopqrstuvwxyz"

  /** `letterScores[letter] || 0`: the value of a letter, 0 for any character outside the table. */
  function LetterScore(c: char): nat
  {
    match c
    case 'a' => 5  case 'b' => 50 case 'c' => 35 case 'd' => 30 case 'e' => 5
    case 'f' => 60 case 'g' => 45 case 'h' => 40 case 'i' => 10 case 'j' => 80
    case 'k' => 50 case 'l' => 9  case 'm' => 35 case 'n' => 25 case 'o' => 7
    case 'p' => 35 case 'q' => 90 case 'r' => 7  case 's' => 5  case 't' => 9
    case 'u' => 15 case 'v' => 70 case 'w' => 65 case 'x' => 80 case 'y' => 35
    case 'z' => 80
    case _ => 0
  }

  /** Exactly the 26 letters of the table have a value, and every one of them a positive value. */
  lemma LetterScorePositiveIffInTable(c: char)
    ensures LetterScore(c) > 0 <==> c in Alphabet
    ensures LetterScore(c) <= 90
  {
    if c in Alphabet {
      var i :| 0 <= i < |Alphabet| && Alphabet[i] == c;
      assert c == "abcdefghijklmnopqrstuvwxyz"[i];
    }
  }

  /**
   * `multipliers[gridPosition] || 1`: the multiplier of a grid cell; a cell
   * outside the array and a cell whose multiplier is 0 both count as 1.
   */
  function CellMultiplier(multipliers: seq<nat>, g: int): (r: nat)
    ensures r >= 1
    ensures 0 <= g < |multipliers| && multipliers[g] != 0 ==> r == multipliers[g]
    ensures !(0 <= g < |multipliers|) ==> r == 1
  {
    if 0 <= g < |multipliers| && multipliers[g] != 0 then multipliers[g] else 1
  }

  /** `wildcardTypes[index] === '*'`; an index past the end reads `undefined`, which is no star. */
  predicate IsStar(wildcardTypes: seq<Wildcard>, index: int)
  {
    0 <= index < |wildcardTypes| && wildcardTypes[index] == Star
  }

  /** What the letter at `index` adds to the base score: nothing for a `*` letter. */
  function Points(word: string, wildcardTypes: seq<Wildcard>, position: int, multipliers: seq<nat>, index: nat): nat
    requires index < |word|
  {
    if IsStar(wildcardTypes, index) then 0
    else LetterScore(word[index]) * CellMultiplier(multipliers, position + index)
  }

  /** The reduce of `calculateScoreAtPosition` over the first `n` letters. */
  function BaseUpTo(word: string, wildcardTypes: seq<Wildcard>, position: int, multipliers: seq<nat>, n: nat): nat
    requires n <= |word|
  {
    if n == 0 then 0
    else BaseUpTo(word, wildcardTypes, position, multipliers, n - 1) + Points(word, wildcardTypes, position, multipliers, n - 1)
  }

  /** The base score of the word at a position. */
  function BaseScore(word: string, wildcardTypes: seq<Wildcard>, position: int, multipliers: seq<nat>): nat
  {
    BaseUpTo(word, wildcardTypes, position, multipliers, |word|)
  }

  /** `Math.ceil(base * 1.3)`, in integers. */
  function CommonScore(base: nat): nat
  {
    (13 * base + 9) / 10
  }

  /** The record `{ score, baseScore, bonusScore }`. */
  datatype Score = Score(score: nat, baseScore: nat, bonusScore: nat)

  /**
   * `calculateScoreAtPosition`: a common word scores the ceiling of 1.3 times
   * its base score, the difference being its bonus; any other word scores its
   * base score and has no bonus.
   */
  function ScoreAtPosition(word: string, wildcardTypes: seq<Wildcard>, position: int, multipliers: seq<nat>, isCommon: bool): (r: Score)
    ensures r.baseScore == BaseScore(word, wildcardTypes, position, multipliers)
    ensures isCommon ==> 13 * r.baseScore <= 10 * r.score < 13 * r.baseScore + 10
    ensures isCommon ==> r.score == r.baseScore + r.bonusScore && (r.baseScore > 0 ==> r.bonusScore > 0)
    ensures !isCommon ==> r.score == r.baseScore && r.bonusScore == 0
    ensures r.score >= r.baseScore
  {
    var base := BaseScore(word, wildcardTypes, position, multipliers);
    if isCommon then
      var s := CommonScore(base);
      Score(s, base, s - base)
    else Score(base, base, 0)
  }

  /** Two multiplier arrays that give every cell the same multiplier give every prefix the same base score. */
  lemma {:induction false} SameCellMultipliers(word: string, wildcardTypes: seq<Wildcard>, position: int,
                                               m1: seq<nat>, m2: seq<nat>, n: nat)
    requires n <= |word|
    requires forall g :: CellMultiplier(m1, g) == CellMultiplier(m2, g)
    ensures BaseUpTo(word, wildcardTypes, position, m1, n) == BaseUpTo(word, wildcardTypes, position, m2, n)
  {
    if n > 0 {
      SameCellMultipliers(word, wildcardTypes, position, m1, m2, n - 1);
      assert CellMultiplier(m1, position + n - 1) == CellMultiplier(m2, position + n - 1);
    }
  }

  /** A cell set to 0 scores as if it were set to 1. */
  lemma ZeroMultiplierCountsAsOne(word: string, wildcardTypes: seq<Wildcard>, position: int, multipliers: seq<nat>, g: nat)
    requires g < |multipliers| && multipliers[g] == 0
    ensures BaseScore(word, wildcardTypes, position, multipliers) == BaseScore(word, wildcardTypes, position, multipliers[g := 1])
  {
    forall h ensures CellMultiplier(multipliers, h) == CellMultiplier(multipliers[g := 1], h) {
    }
    SameCellMultipliers(word, wildcardTypes, position, multipliers, multipliers[g := 1], |word|);
  }

  /** Cells past the end of the multipliers count as 1: padding the array with 1s changes no score. */
  lemma PaddingWithOnes(word: string, wildcardTypes: seq<Wildcard>, position: int, multipliers: seq<nat>, k: nat)
    ensures BaseScore(word, wildcardTypes, position, multipliers)
         == BaseScore(word, wildcardTypes, position, multipliers + seq(k, _ => 1))
  {
    var padded := multipliers + seq(k, _ => 1);
    forall h ensures CellMultiplier(multipliers, h) == CellMultiplier(padded, h) {
      if 0 <= h < |padded| && h >= |multipliers| {
        assert padded[h] == 1;
      }
    }
    SameCellMultipliers(word, wildcardTypes, position, multipliers, padded, |word|);
  }

  /**
   * A `*` letter scores 0: it adds nothing, and replacing it by any other
   * character changes no prefix's base score.
   */
  lemma {:induction false} StarLetterScoresZero(word: string, wildcardTypes: seq<Wildcard>, position: int,
                                                multipliers: seq<nat>, i: nat, c: char, n: nat)
    requires i < |word| && IsStar(wildcardTypes, i) && n <= |word|
    ensures Points(word, wildcardTypes, position, multipliers, i) == 0
    ensures BaseUpTo(word, wildcardTypes, position, multipliers, n)
         == BaseUpTo(word[i := c], wildcardTypes, position, multipliers, n)
  {
    if n > 0 {
      StarLetterScoresZero(word, wildcardTypes, position, multipliers, i, c, n - 1);
      if n - 1 != i {
        assert word[i := c][n - 1] == word[n - 1];
      }
    }
  }

  /** A word spelled entirely with `*` scores 0, whatever the multipliers. */
  lemma {:induction false} AllStarScoresZero(word: string, wildcardTypes: seq<Wildcard>, position: int,
                                             multipliers: seq<nat>, n: nat)
    requires n <= |word|
    requires forall k :: 0 <= k < |word| ==> IsStar(wildcardTypes, k)
    ensures BaseUpTo(word, wildcardTypes, position, multipliers, n) == 0
  {
    if n > 0 {
      AllStarScoresZero(word, wildcardTypes, position, multipliers, n - 1);
      assert IsStar(wildcardTypes, n - 1);
    }
  }

  /** A `?` letter scores like the letter it stands for: marking it as an exact letter changes no prefix's base score. */
  lemma {:induction false} QuestionScoresLikeReal(word: string, wildcardTypes: seq<Wildcard>, position: int,
                                                  multipliers: seq<nat>, i: nat, n: nat)
    requires i < |wildcardTypes| && wildcardTypes[i] == Question && n <= |word|
    ensures BaseUpTo(word, wildcardTypes, position, multipliers, n)
         == BaseUpTo(word, wildcardTypes[i := Real], position, multipliers, n)
  {
    if n > 0 {
      QuestionScoresLikeReal(word, wildcardTypes, position, multipliers, i, n - 1);
      assert IsStar(wildcardTypes, n - 1) == IsStar(wildcardTypes[i := Real], n - 1);
    }
  }

  /** With no `*` letter, the base score is the sum of letter value times cell multiplier over every letter. */
  lemma {:induction false} NoStarScoresEveryLetter(word: string, wildcardTypes: seq<Wildcard>, position: int,
                                                   multipliers: seq<nat>, n: nat)
    requires n <= |word|
    requires forall k :: 0 <= k < |wildcardTypes| ==> wildcardTypes[k] != Star
    ensures BaseUpTo(word, wildcardTypes, position, multipliers, n) == BaseUpTo(word, [], position, multipliers, n)
  {
    if n > 0 {
      NoStarScoresEveryLetter(word, wildcardTypes, position, multipliers, n - 1);
      assert !IsStar(wildcardTypes, n - 1);
    }
  }

  /** The scores of a word at each of its positions. */
  function ScoresAt(word: string, wildcardTypes: seq<Wildcard>, positions: seq<int>, multipliers: seq<nat>, isCommon: bool): (r: seq<nat>)
    ensures |r| == |positions|
    ensures forall k :: 0 <= k < |positions| ==> r[k] == ScoreAtPosition(word, wildcardTypes, positions[k], multipliers, isCommon).score
  {
    seq(|positions|, k requires 0 <= k < |positions| => ScoreAtPosition(word, wildcardTypes, positions[k], multipliers, isCommon).score)
  }

  /**
   * The index the loop of `findBestPosition` settles on, which starts from a
   * best score of 0 and takes a strictly better score only: the earliest index
   * holding the maximum, or none when every score is 0.
   */
  function FirstBest(scores: seq<nat>): (r: Option<nat>)
    ensures r.None? <==> forall k :: 0 <= k < |scores| ==> scores[k] == 0
    ensures r.Some? ==> r.value < |scores| && scores[r.value] > 0
    ensures r.Some? ==> forall k :: 0 <= k < |scores| ==> scores[k] <= scores[r.value]
    ensures r.Some? ==> forall k :: 0 <= k < r.value ==> scores[k] < scores[r.value]
  {
    if scores == [] then None
    else
      var prev := FirstBest(scores[..|scores| - 1]);
      var best := if prev.None? then 0 else scores[prev.value];
      if scores[|scores| - 1] > best then Some(|scores| - 1) else prev
  }

  /** One more score either takes over strictly or leaves the choice as it was. */
  lemma FirstBestSnoc(scores: seq<nat>, k: nat)
    requires k < |scores|
    ensures FirstBest(scores[..k + 1])
         == (var prev := FirstBest(scores[..k]);
             if scores[k] > (if prev.None? then 0 else scores[prev.value]) then Some(k) else prev)
  {
    assert scores[..k + 1][..k] == scores[..k];
  }

  /** The record `{ position, score, baseScore, bonusScore }` of `findBestPosition`; `position` is `undefined` for no positions. */
  datatype Placement = Placement(position: Option<int>, score: nat, baseScore: nat, bonusScore: nat)

  /**
   * `findBestPosition`: the earliest position with the highest score and that
   * position's score triple; when no position scores above 0, the first
   * position with a zero triple.
   */
  function BestPosition(word: string, wildcardTypes: seq<Wildcard>, positions: seq<int>, multipliers: seq<nat>, isCommon: bool): (r: Placement)
    ensures positions == [] ==> r == Placement(None, 0, 0, 0)
    ensures r.position.Some? <==> positions != []
    ensures forall k :: 0 <= k < |positions| ==>
              ScoreAtPosition(word, wildcardTypes, positions[k], multipliers, isCommon).score <= r.score
    ensures r.score == 0 && positions != [] ==> r == Placement(Some(positions[0]), 0, 0, 0)
    ensures r.score > 0 ==>
              exists i :: 0 <= i < |positions| && r.position == Some(positions[i])
                && ScoreAtPosition(word, wildcardTypes, positions[i], multipliers, isCommon)
                   == Score(r.score, r.baseScore, r.bonusScore)
                && forall k :: 0 <= k < i ==> ScoreAtPosition(word, wildcardTypes, positions[k], multipliers, isCommon).score < r.score
  {
    var scores := ScoresAt(word, wildcardTypes, positions, multipliers, isCommon);
    match FirstBest(scores)
    case None => Placement(if positions == [] then None else Some(positions[0]), 0, 0, 0)
    case Some(i) =>
      var s := ScoreAtPosition(word, wildcardTypes, positions[i], multipliers, isCommon);
      Placement(Some(positions[i]), s.score, s.baseScore, s.bonusScore)
  }

  /** The loop of `findBestPosition`. */
  method FindBestPosition(word: string, wildcardTypes: seq<Wildcard>, positions: seq<int>, multipliers: seq<nat>, isCommon: bool)
    returns (r: Placement)
    ensures r == BestPosition(word, wildcardTypes, positions, multipliers, isCommon)
  {
    ghost var scores := ScoresAt(word, wildcardTypes, positions, multipliers, isCommon);
    var bestScore := 0;
    var bestPosition := if positions == [] then None else Some(positions[0]);
    var bestBaseScore := 0;
    var bestBonusScore := 0;
    var k := 0;
    ghost var best: Option<nat> := None;
    assert scores[..0] == [];
    while k < |positions|
      invariant 0 <= k <= |positions|
      invariant best == FirstBest(scores[..k])
      invariant best.None? ==>
                  bestScore == 0 && bestBaseScore == 0 && bestBonusScore == 0
                  && bestPosition == (if positions == [] then None else Some(positions[0]))
      invariant best.Some? ==>
                  best.value < |positions| && bestPosition == Some(positions[best.value]) && bestScore == scores[best.value]
                  && bestBaseScore == ScoreAtPosition(word, wildcardTypes, positions[best.value], multipliers, isCommon).baseScore
                  && bestBonusScore == ScoreAtPosition(word, wildcardTypes, positions[best.value], multipliers, isCommon).bonusScore
    {
      var result := ScoreAtPosition(word, wildcardTypes, positions[k], multipliers, isCommon);
      assert result.score == scores[k];
      assert bestScore == if best.None? then 0 else scores[best.value];
      FirstBestSnoc(scores, k);
      if result.score > bestScore {
        bestScore := result.score;
        bestBaseScore := result.baseScore;
        bestBonusScore := result.bonusScore;
        bestPosition := Some(positions[k]);
        best := Some(k);
      }
      k := k + 1;
    }
    assert scores[..k] == scores;
    r := Placement(bestPosition, bestScore, bestBaseScore, bestBonusScore);
  }

  /** The three letters of "cat" on the cells 2x, 1x and 3x. */
  lemma CatOnMultipliers()
    ensures ScoreAtPosition("cat", [Real, Real, Real], 0, [2, 1, 3, 1, 1], false) == Score(102, 102, 0)
  {
  }

  /** "cat" at positions 0, 1 and 2 under the multipliers 1, 1, 1, 1, 3 is best at 2, with t on the 3x cell. */
  lemma CatBestAtTwo()
    ensures BestPosition("cat", [Real, Real, Real], [0, 1, 2], [1, 1, 1, 1, 3], false) == Placement(Some(2), 67, 67, 0)
  {
    var wt := [Real, Real, Real];
    var m := [1, 1, 1, 1, 3];
    assert ScoreAtPosition("cat", wt, 0, m, false).score == 49;
    assert ScoreAtPosition("cat", wt, 1, m, false).score == 49;
    assert ScoreAtPosition("cat", wt, 2, m, false).score == 67;
  }

  /** "cat" spelled with three `*` scores 0 even on 2x cells. */
  lemma CatAllWildcards()
    ensures ScoreAtPosition("cat", [Star, Star, Star], 0, [2, 2, 2, 1, 1], false) == Score(0, 0, 0)
  {
    AllStarScoresZero("cat", [Star, Star, Star], 0, [2, 2, 2, 1, 1], 3);
  }
}
