/**
 * The ranker of public/resultRanking.js: the score a placement earns on the
 * boosted (2x/3x) cells, the placement chosen for ordering, and the
 * comparator of ranked matches.
 */
module ResultRanking {
  import opened Wrappers
  import opened LetterConsumer
  import opened Scoring

  /** `multipliers.some(m => m > 1)`. */
  predicate HasBoost(multipliers: seq<nat>)
  {
    exists g :: 0 <= g < |multipliers| && multipliers[g] > 1
  }

  /** What the letter at `index` adds to the multiplier-space score: only a non-`*` letter on a boosted cell counts. */
  function BoostedPoints(word: string, wildcardTypes: seq<Wildcard>, position: int, multipliers: seq<nat>, index: nat): nat
    requires index < |word|
  {
    var multiplier := CellMultiplier(multipliers, position + index);
    if IsStar(wildcardTypes, index) || multiplier <= 1 then 0
    else LetterScore(word[index]) * multiplier
  }

  /** The reduce of `calculateMultiplierSpaceScore` over the first `n` letters. */
  function SpaceUpTo(word: string, wildcardTypes: seq<Wildcard>, position: int, multipliers: seq<nat>, n: nat): nat
    requires n <= |word|
  {
    if n == 0 then 0
    else SpaceUpTo(word, wildcardTypes, position, multipliers, n - 1) + BoostedPoints(word, wildcardTypes, position, multipliers, n - 1)
  }

  /** `calculateMultiplierSpaceScore`. */
  function MultiplierSpaceScore(word: string, wildcardTypes: seq<Wildcard>, position: int, multipliers: seq<nat>): nat
  {
    SpaceUpTo(word, wildcardTypes, position, multipliers, |word|)
  }

  /** The multiplier-space score of a prefix never exceeds its base score: it is the base score restricted to boosted cells. */
  lemma {:induction false} SpaceAtMostBase(word: string, wildcardTypes: seq<Wildcard>, position: int, multipliers: seq<nat>, n: nat)
    requires n <= |word|
    ensures SpaceUpTo(word, wildcardTypes, position, multipliers, n) <= BaseUpTo(word, wildcardTypes, position, multipliers, n)
  {
    if n > 0 {
      SpaceAtMostBase(word, wildcardTypes, position, multipliers, n - 1);
    }
  }

  /** Without a boosted cell, no prefix earns a multiplier-space score. */
  lemma {:induction false} NoBoostNoSpace(word: string, wildcardTypes: seq<Wildcard>, position: int, multipliers: seq<nat>, n: nat)
    requires n <= |word| && !HasBoost(multipliers)
    ensures SpaceUpTo(word, wildcardTypes, position, multipliers, n) == 0
  {
    if n > 0 {
      NoBoostNoSpace(word, wildcardTypes, position, multipliers, n - 1);
      var g := position + n - 1;
      if 0 <= g < |multipliers| {
        assert multipliers[g] <= 1;
      }
    }
  }

  /** The letter at `index` lies on a cell whose multiplier is above 1. */
  predicate OnBoostedCell(position: int, multipliers: seq<nat>, index: int)
  {
    CellMultiplier(multipliers, position + index) > 1
  }

  /** When every letter of the prefix lies on a boosted cell, the multiplier-space score is the whole base score. */
  lemma {:induction false} AllBoostedSpaceIsBase(word: string, wildcardTypes: seq<Wildcard>, position: int, multipliers: seq<nat>, n: nat)
    requires n <= |word|
    requires forall k :: 0 <= k < n ==> OnBoostedCell(position, multipliers, k)
    ensures SpaceUpTo(word, wildcardTypes, position, multipliers, n) == BaseUpTo(word, wildcardTypes, position, multipliers, n)
  {
    if n > 0 {
      AllBoostedSpaceIsBase(word, wildcardTypes, position, multipliers, n - 1);
      assert OnBoostedCell(position, multipliers, n - 1);
    }
  }

  /** The result of multiplier-space and overall score, `-Infinity` before any position is seen. */
  datatype Bound = NegInf | Finite(value: int)

  /** `x > b`, with every integer above `-Infinity`. */
  predicate Above(x: int, b: Bound)
  {
    b.NegInf? || x > b.value
  }

  /** The key a position is ranked by: the multiplier-space score (0 without a boost), then the score. */
  datatype Key = Key(space: nat, score: nat)

  /** `a` is lexicographically below `b`. */
  predicate KeyLess(a: Key, b: Key)
  {
    a.space < b.space || (a.space == b.space && a.score < b.score)
  }

  /** The keys of a word at each of its positions. */
  function KeysAt(word: string, wildcardTypes: seq<Wildcard>, positions: seq<int>, multipliers: seq<nat>, isCommon: bool): (r: seq<Key>)
    ensures |r| == |positions|
    ensures forall k :: 0 <= k < |positions| ==>
              r[k].score == ScoreAtPosition(word, wildcardTypes, positions[k], multipliers, isCommon).score
              && r[k].space == (if HasBoost(multipliers) then MultiplierSpaceScore(word, wildcardTypes, positions[k], multipliers) else 0)
  {
    seq(|positions|, k requires 0 <= k < |positions| =>
      Key(if HasBoost(multipliers) then MultiplierSpaceScore(word, wildcardTypes, positions[k], multipliers) else 0,
          ScoreAtPosition(word, wildcardTypes, positions[k], multipliers, isCommon).score))
  }

  /** The earliest index holding the lexicographically greatest key. */
  function FirstMaxKey(keys: seq<Key>): (i: nat)
    requires |keys| > 0
    ensures i < |keys|
    ensures forall k :: 0 <= k < |keys| ==> !KeyLess(keys[i], keys[k])
    ensures forall k :: 0 <= k < i ==> KeyLess(keys[k], keys[i])
  {
    if |keys| == 1 then 0
    else
      var j := FirstMaxKey(keys[..|keys| - 1]);
      if KeyLess(keys[j], keys[|keys| - 1]) then |keys| - 1 else j
  }

  /** The record returned by `findBestPositionForOrdering`. */
  datatype OrderingChoice = OrderingChoice(position: Option<int>, score: Bound, baseScore: nat, bonusScore: nat,
                                           multiplierSpaceScore: Bound, hasBoostMultipliers: bool)

  /**
   * `findBestPositionForOrdering`: the earliest position whose key is
   * greatest, with its score triple and multiplier-space score; with no
   * positions, both scores stay `-Infinity` (the multiplier-space score is
   * reported as 0 when there is no boost).
   */
  function OrderingBest(word: string, wildcardTypes: seq<Wildcard>, positions: seq<int>, multipliers: seq<nat>, isCommon: bool): (r: OrderingChoice)
    ensures r.hasBoostMultipliers == HasBoost(multipliers)
    ensures positions == [] ==>
              r == OrderingChoice(None, NegInf, 0, 0, if HasBoost(multipliers) then NegInf else Finite(0), HasBoost(multipliers))
    ensures !HasBoost(multipliers) ==> r.multiplierSpaceScore == Finite(0)
    ensures positions != [] ==>
              exists i :: 0 <= i < |positions|
                && r.position == Some(positions[i])
                && r.score == Finite(ScoreAtPosition(word, wildcardTypes, positions[i], multipliers, isCommon).score)
                && r.baseScore == ScoreAtPosition(word, wildcardTypes, positions[i], multipliers, isCommon).baseScore
                && r.bonusScore == ScoreAtPosition(word, wildcardTypes, positions[i], multipliers, isCommon).bonusScore
                && r.multiplierSpaceScore == Finite(KeysAt(word, wildcardTypes, positions, multipliers, isCommon)[i].space)
                && (forall k :: 0 <= k < |positions| ==>
                      !KeyLess(KeysAt(word, wildcardTypes, positions, multipliers, isCommon)[i],
                               KeysAt(word, wildcardTypes, positions, multipliers, isCommon)[k]))
                && (forall k :: 0 <= k < i ==>
                      KeyLess(KeysAt(word, wildcardTypes, positions, multipliers, isCommon)[k],
                              KeysAt(word, wildcardTypes, positions, multipliers, isCommon)[i]))
  {
    var boost := HasBoost(multipliers);
    if positions == [] then
      OrderingChoice(None, NegInf, 0, 0, if boost then NegInf else Finite(0), boost)
    else
      var keys := KeysAt(word, wildcardTypes, positions, multipliers, isCommon);
      var i := FirstMaxKey(keys);
      var s := ScoreAtPosition(word, wildcardTypes, positions[i], multipliers, isCommon);
      OrderingChoice(Some(positions[i]), Finite(s.score), s.baseScore, s.bonusScore, Finite(keys[i].space), boost)
  }

  /** `multipliers.some(m => m > 1)`, as a loop. */
  method ComputeHasBoost(multipliers: seq<nat>) returns (b: bool)
    ensures b == HasBoost(multipliers)
  {
    b := false;
    var g := 0;
    while g < |multipliers|
      invariant 0 <= g <= |multipliers|
      invariant b == exists h :: 0 <= h < g && multipliers[h] > 1
    {
      if multipliers[g] > 1 {
        b := true;
      }
      g := g + 1;
    }
  }

  /** Extending the keys by one: the new key wins exactly when it is above the current winner. */
  lemma FirstMaxKeySnoc(keys: seq<Key>, k: nat)
    requires 0 < k < |keys|
    ensures FirstMaxKey(keys[..k + 1])
         == (if KeyLess(keys[FirstMaxKey(keys[..k])], keys[k]) then k else FirstMaxKey(keys[..k]))
  {
    assert keys[..k + 1][..k] == keys[..k];
  }

  /** The winner after one more key, from the winner before it and whether the new key beats it. */
  lemma FirstMaxKeyNext(keys: seq<Key>, k: nat, best: nat, isBetter: bool)
    requires k < |keys|
    requires k == 0 ==> isBetter
    requires k > 0 ==> best == FirstMaxKey(keys[..k]) && isBetter == KeyLess(keys[best], keys[k])
    ensures FirstMaxKey(keys[..k + 1]) == if isBetter then k else best
  {
    if k > 0 {
      FirstMaxKeySnoc(keys, k);
    }
  }

  /** The loop of `findBestPositionForOrdering`, over the five `best*` variables. */
  method FindBestPositionForOrdering(word: string, wildcardTypes: seq<Wildcard>, positions: seq<int>, multipliers: seq<nat>, isCommon: bool)
    returns (r: OrderingChoice)
    ensures r == OrderingBest(word, wildcardTypes, positions, multipliers, isCommon)
  {
    var hasBoostMultipliers := ComputeHasBoost(multipliers);
    ghost var keys := KeysAt(word, wildcardTypes, positions, multipliers, isCommon);
    var bestPosition := if positions == [] then None else Some(positions[0]);
    var bestScore := NegInf;
    var bestBaseScore := 0;
    var bestBonusScore := 0;
    var bestMultiplierSpaceScore := NegInf;
    var k := 0;
    ghost var best: nat := 0;
    while k < |positions|
      invariant 0 <= k <= |positions|
      invariant k == 0 ==> bestScore == NegInf && bestMultiplierSpaceScore == NegInf
                           && bestBaseScore == 0 && bestBonusScore == 0
                           && bestPosition == (if positions == [] then None else Some(positions[0]))
      invariant k > 0 ==> best == FirstMaxKey(keys[..k])
      invariant k > 0 ==>
                  best < |positions|
                  && bestPosition == Some(positions[best])
                  && bestScore == Finite(ScoreAtPosition(word, wildcardTypes, positions[best], multipliers, isCommon).score)
                  && bestBaseScore == ScoreAtPosition(word, wildcardTypes, positions[best], multipliers, isCommon).baseScore
                  && bestBonusScore == ScoreAtPosition(word, wildcardTypes, positions[best], multipliers, isCommon).bonusScore
                  && bestMultiplierSpaceScore == Finite(keys[best].space)
    {
      var result := ScoreAtPosition(word, wildcardTypes, positions[k], multipliers, isCommon);
      var multiplierSpaceScore := if hasBoostMultipliers then MultiplierSpaceScore(word, wildcardTypes, positions[k], multipliers) else 0;
      var isBetter := if hasBoostMultipliers
        then Above(multiplierSpaceScore, bestMultiplierSpaceScore)
             || (bestMultiplierSpaceScore == Finite(multiplierSpaceScore) && Above(result.score, bestScore))
        else Above(result.score, bestScore);
      assert keys[k] == Key(multiplierSpaceScore, result.score);
      assert k > 0 ==> isBetter == KeyLess(keys[best], keys[k]);
      FirstMaxKeyNext(keys, k, best, isBetter);
      if isBetter {
        bestPosition := Some(positions[k]);
        bestScore := Finite(result.score);
        bestBaseScore := result.baseScore;
        bestBonusScore := result.bonusScore;
        bestMultiplierSpaceScore := Finite(multiplierSpaceScore);
        best := k;
      }
      k := k + 1;
    }
    if positions != [] {
      assert keys[..k] == keys;
    }
    r := OrderingChoice(bestPosition, bestScore, bestBaseScore, bestBonusScore,
                        if hasBoostMultipliers then bestMultiplierSpaceScore else Finite(0), hasBoostMultipliers);
  }

  /**
   * Without a boosted cell, the placement chosen for ordering is the one
   * `findBestPosition` chooses, with the same score triple.
   */
  lemma NoBoostAgreesWithBestPosition(word: string, wildcardTypes: seq<Wildcard>, positions: seq<int>, multipliers: seq<nat>, isCommon: bool)
    requires !HasBoost(multipliers)
    ensures OrderingBest(word, wildcardTypes, positions, multipliers, isCommon).position
         == BestPosition(word, wildcardTypes, positions, multipliers, isCommon).position
    ensures positions != [] ==>
              var o := OrderingBest(word, wildcardTypes, positions, multipliers, isCommon);
              var b := BestPosition(word, wildcardTypes, positions, multipliers, isCommon);
              o.score == Finite(b.score) && o.baseScore == b.baseScore && o.bonusScore == b.bonusScore
  {
    if positions != [] {
      var keys := KeysAt(word, wildcardTypes, positions, multipliers, isCommon);
      var scores := ScoresAt(word, wildcardTypes, positions, multipliers, isCommon);
      var i := FirstMaxKey(keys);
      var fb := FirstBest(scores);
      if fb.Some? {
        var j := fb.value;
        assert keys[i].score == scores[i] && keys[j].score == scores[j];
        assert keys[i].space == 0 && keys[j].space == 0;
        assert i == j;
      } else {
        assert keys[0] == keys[i] == Key(0, 0);
        assert i == 0;
      }
    }
  }

  /** With a boost, a position earning more on the boosted cells is preferred whatever the overall scores. */
  lemma BoostOutranksScore(word: string, wildcardTypes: seq<Wildcard>, positions: seq<int>, multipliers: seq<nat>, isCommon: bool, k: nat)
    requires HasBoost(multipliers) && k < |positions|
    ensures OrderingBest(word, wildcardTypes, positions, multipliers, isCommon).multiplierSpaceScore.Finite?
    ensures MultiplierSpaceScore(word, wildcardTypes, positions[k], multipliers)
         <= OrderingBest(word, wildcardTypes, positions, multipliers, isCommon).multiplierSpaceScore.value
  {
    var keys := KeysAt(word, wildcardTypes, positions, multipliers, isCommon);
    var i := FirstMaxKey(keys);
    assert !KeyLess(keys[i], keys[k]);
  }

  /** "quiz" at positions 0 and 1 with a 3x first cell is placed at 0, putting q on the 3x cell. */
  lemma QuizOnTripleCell()
    ensures OrderingBest("quiz", [Real, Real, Real, Real], [0, 1], [3, 1, 1, 1, 1], false).position == Some(0)
  {
    var m := [3, 1, 1, 1, 1];
    assert HasBoost(m) by { assert m[0] > 1; }
    var keys := KeysAt("quiz", [Real, Real, Real, Real], [0, 1], m, false);
    var wt := [Real, Real, Real, Real];
    assert SpaceUpTo("quiz", wt, 0, m, 1) == 270;
    assert SpaceUpTo("quiz", wt, 0, m, 2) == 270;
    assert SpaceUpTo("quiz", wt, 0, m, 3) == 270;
    assert SpaceUpTo("quiz", wt, 0, m, 4) == 270;
    assert SpaceUpTo("quiz", wt, 1, m, 1) == 0;
    assert SpaceUpTo("quiz", wt, 1, m, 2) == 0;
    assert SpaceUpTo("quiz", wt, 1, m, 3) == 0;
    assert SpaceUpTo("quiz", wt, 1, m, 4) == 0;
    assert KeyLess(keys[1], keys[0]);
  }

  /** `localeCompare`, on character codes: negative, zero or positive as `a` sorts before, with or after `b`. */
  function LexCompare(a: string, b: string): (r: int)
    ensures -1 <= r <= 1
  {
    if a == [] && b == [] then 0
    else if a == [] then -1
    else if b == [] then 1
    else if a[0] < b[0] then -1
    else if a[0] > b[0] then 1
    else LexCompare(a[1..], b[1..])
  }

  /** `a` sorts before `b`: a proper prefix, or smaller at the first difference. */
  predicate LexLess(a: string, b: string)
  {
    (|a| < |b| && a == b[..|a|])
    || exists i :: 0 <= i < |a| && i < |b| && a[..i] == b[..i] && a[i] < b[i]
  }

  /** Swapping the arguments of `LexCompare` negates the result. */
  lemma {:induction false} LexCompareAntisymmetric(a: string, b: string)
    ensures LexCompare(a, b) == -LexCompare(b, a)
  {
    if a != [] && b != [] && a[0] == b[0] {
      LexCompareAntisymmetric(a[1..], b[1..]);
    }
  }

  /** `LexCompare` is 0 exactly on equal strings. */
  lemma {:induction false} LexCompareZeroIffEqual(a: string, b: string)
    ensures LexCompare(a, b) == 0 <==> a == b
  {
    if a != [] && b != [] && a[0] == b[0] {
      LexCompareZeroIffEqual(a[1..], b[1..]);
      if a[1..] == b[1..] {
        assert a == [a[0]] + a[1..] && b == [b[0]] + b[1..];
      }
    }
  }

  /** Sorting before a non-empty string needs a head no greater, and an equal head leaves the tails in order. */
  lemma LexLessHead(a: string, b: string)
    requires a != [] && b != [] && LexLess(a, b)
    ensures a[0] <= b[0]
    ensures a[0] == b[0] ==> LexLess(a[1..], b[1..])
  {
    if |a| < |b| && a == b[..|a|] {
      assert b[..|a|][0] == b[0];
      assert a[1..] == b[1..][..|a[1..]|];
    } else {
      var i :| 0 <= i < |a| && i < |b| && a[..i] == b[..i] && a[i] < b[i];
      if i > 0 {
        assert a[..i][0] == a[0] && b[..i][0] == b[0];
        assert a[1..][..i - 1] == a[..i][1..] == b[..i][1..] == b[1..][..i - 1];
        assert a[1..][i - 1] < b[1..][i - 1];
      }
    }
  }

  /** Equal heads and tails in order put the strings in order. */
  lemma LexLessCons(a: string, b: string)
    requires a != [] && b != [] && a[0] == b[0] && LexLess(a[1..], b[1..])
    ensures LexLess(a, b)
  {
    if |a[1..]| < |b[1..]| && a[1..] == b[1..][..|a[1..]|] {
      assert a == [a[0]] + a[1..];
      assert b[..|a|] == [b[0]] + b[1..][..|a[1..]|];
    } else {
      var i :| 0 <= i < |a[1..]| && i < |b[1..]| && a[1..][..i] == b[1..][..i] && a[1..][i] < b[1..][i];
      assert a[..i + 1] == [a[0]] + a[1..][..i];
      assert b[..i + 1] == [b[0]] + b[1..][..i];
      assert a[i + 1] < b[i + 1];
    }
  }

  /** A negative `LexCompare` means exactly that `a` sorts before `b`. */
  lemma {:induction false} LexCompareIsLexLess(a: string, b: string)
    ensures LexCompare(a, b) < 0 <==> LexLess(a, b)
  {
    if a == [] {
      if b != [] {
        assert a == b[..0];
      }
    } else if b == [] {
    } else if a[0] < b[0] {
      assert a[..0] == b[..0];
    } else {
      if LexLess(a, b) {
        LexLessHead(a, b);
      }
      if a[0] == b[0] {
        LexCompareIsLexLess(a[1..], b[1..]);
        if LexLess(a[1..], b[1..]) {
          LexLessCons(a, b);
        }
      }
    }
  }

  /** `LexCompare`'s order is transitive. */
  lemma {:induction false} LexCompareTransitive(a: string, b: string, c: string)
    requires LexCompare(a, b) < 0 && LexCompare(b, c) < 0
    ensures LexCompare(a, c) < 0
  {
    if a != [] && b != [] && c != [] && a[0] == b[0] && b[0] == c[0] {
      LexCompareTransitive(a[1..], b[1..], c[1..]);
    }
  }

  /** A match as `compareMatches` reads it; a missing multiplier-space score is `None`. */
  datatype RankedMatch = RankedMatch(word: string, isCommon: bool, score: int, multiplierSpaceScore: Option<int>)

  /** `m.multiplierSpaceScore || 0`. */
  function SpaceOrZero(m: RankedMatch): int
  {
    match m.multiplierSpaceScore
    case None => 0
    case Some(v) => v
  }

  /** `compareMatches`: negative when `a` ranks first, positive when `b` does. */
  function CompareMatches(a: RankedMatch, b: RankedMatch, hasBoostMultipliers: bool): int
  {
    if a.isCommon != b.isCommon then (if a.isCommon then -1 else 1)
    else if hasBoostMultipliers && SpaceOrZero(b) - SpaceOrZero(a) != 0 then SpaceOrZero(b) - SpaceOrZero(a)
    else if b.score - a.score != 0 then b.score - a.score
    else LexCompare(a.word, b.word)
  }

  /** The sign of an integer. */
  function Sign(x: int): int
  {
    if x < 0 then -1 else if x > 0 then 1 else 0
  }

  /**
   * The ranking `compareMatches` implements, stated as its own order: common
   * first; then, with the flag, the higher multiplier-space score; then the
   * higher score; then the word in ascending order.
   */
  predicate RanksBefore(a: RankedMatch, b: RankedMatch, hasBoostMultipliers: bool)
  {
    if a.isCommon != b.isCommon then a.isCommon
    else if hasBoostMultipliers && SpaceOrZero(a) != SpaceOrZero(b) then SpaceOrZero(a) > SpaceOrZero(b)
    else if a.score != b.score then a.score > b.score
    else LexLess(a.word, b.word)
  }

  /** A negative comparison means exactly that `a` ranks first. */
  lemma CompareMatchesIsRanking(a: RankedMatch, b: RankedMatch, hasBoostMultipliers: bool)
    ensures CompareMatches(a, b, hasBoostMultipliers) < 0 <==> RanksBefore(a, b, hasBoostMultipliers)
  {
    LexCompareIsLexLess(a.word, b.word);
  }

  /** Swapping the arguments flips the sign of the comparison. */
  lemma CompareMatchesAntisymmetric(a: RankedMatch, b: RankedMatch, hasBoostMultipliers: bool)
    ensures Sign(CompareMatches(a, b, hasBoostMultipliers)) == -Sign(CompareMatches(b, a, hasBoostMultipliers))
  {
    LexCompareAntisymmetric(a.word, b.word);
  }

  /** The comparison is 0 only when the common flag, the compared scores and the word all coincide. */
  lemma CompareMatchesZeroIff(a: RankedMatch, b: RankedMatch, hasBoostMultipliers: bool)
    ensures CompareMatches(a, b, hasBoostMultipliers) == 0 <==>
              a.isCommon == b.isCommon && (hasBoostMultipliers ==> SpaceOrZero(a) == SpaceOrZero(b))
              && a.score == b.score && a.word == b.word
  {
    LexCompareZeroIffEqual(a.word, b.word);
  }

  /** Ranking first is transitive. */
  lemma CompareMatchesTransitive(a: RankedMatch, b: RankedMatch, c: RankedMatch, hasBoostMultipliers: bool)
    requires CompareMatches(a, b, hasBoostMultipliers) < 0 && CompareMatches(b, c, hasBoostMultipliers) < 0
    ensures CompareMatches(a, c, hasBoostMultipliers) < 0
  {
    if a.isCommon == b.isCommon == c.isCommon
       && (hasBoostMultipliers ==> SpaceOrZero(a) == SpaceOrZero(b) == SpaceOrZero(c))
       && a.score == b.score == c.score {
      LexCompareTransitive(a.word, b.word, c.word);
    }
  }

  /** A common match ranks before a non-common one whatever their scores. */
  lemma CommonRanksFirst(a: RankedMatch, b: RankedMatch, hasBoostMultipliers: bool)
    requires a.isCommon && !b.isCommon
    ensures CompareMatches(a, b, hasBoostMultipliers) < 0 && CompareMatches(b, a, hasBoostMultipliers) > 0
  {
  }
}
