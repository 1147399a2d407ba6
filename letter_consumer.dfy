/**
 * Spelling a word from the letter pool (anagramFinder.js,
 * `canMakeWordWithTemplate`): a greedy, order-sensitive multiset match that
 * tries an exact letter, then a `?`, then a `*`.
 */
module LetterConsumer {
  import opened TemplateMatcher

  /** Which unit of the pool filled a letter of the word (`null`, `'?'` or `'*'`). */
  datatype Wildcard = Real | Question | Star

  /** The result of `canMakeWordWithTemplate`. */
  datatype Consumption = CannotMake | CanMake(wildcardTypes: seq<Wildcard>)

  /** The two wildcard markers of the pool. */
  predicate IsMark(c: char) { c == '?' || c == '*' }

  /** The word is made of ordinary letters only, as dictionary words are. */
  predicate NoMarks(word: string)
  {
    forall i :: 0 <= i < |word| ==> !IsMark(word[i])
  }

  /** The fixed letters of the template, left to right (`template.filter(letter => letter !== '')`). */
  function TemplateLetters(template: seq<Cell>): (r: string)
    ensures |r| <= |template|
    ensures forall c :: c in r <==> exists i :: 0 <= i < |template| && template[i] == Letter(c)
  {
    if template == [] then []
    else
      var rest := TemplateLetters(template[1..]);
      assert forall i :: 1 <= i < |template| ==> template[1..][i - 1] == template[i];
      match template[0]
      case Empty => rest
      case Letter(c) => [c] + rest
  }

  /** `s.indexOf(c)`: the first index holding `c`, or -1. */
  function IndexOf(s: string, c: char): (r: int)
    ensures -1 <= r < |s|
    ensures r == -1 <==> c !in s
    ensures r >= 0 ==> s[r] == c && c !in s[..r]
  {
    if s == [] then -1
    else if s[0] == c then 0
    else
      var k := IndexOf(s[1..], c);
      assert s[1..] == s[1..];
      if k == -1 then -1
      else
        assert s[..k + 1] == [s[0]] + s[1..][..k];
        k + 1
  }

  /** `s.splice(i, 1)`: drop the unit at index `i`. */
  function RemoveAt(s: string, i: nat): (r: string)
    requires i < |s|
    ensures multiset(r) == multiset(s) - multiset{s[i]}
    ensures |r| == |s| - 1
  {
    assert s == s[..i] + [s[i]] + s[i + 1..];
    s[..i] + s[i + 1..]
  }

  /** Put `prefix` in front of the wildcard types of a success; a failure stays a failure. */
  function Extend(prefix: seq<Wildcard>, c: Consumption): Consumption
  {
    match c
    case CannotMake => CannotMake
    case CanMake(rest) => CanMake(prefix + rest)
  }

  /** Some unit of the pool can fill the letter `x`. */
  predicate CanFill(pool: multiset<char>, x: char)
  {
    x in pool || '?' in pool || '*' in pool
  }

  /** The unit used for `x`: the letter itself if present, else a `?`, else a `*`. */
  function UnitFor(pool: multiset<char>, x: char): (u: char)
    requires CanFill(pool, x)
    ensures u in pool
  {
    if x in pool then x else if '?' in pool then '?' else '*'
  }

  /** The wildcard type recorded for `x`. */
  function KindFor(pool: multiset<char>, x: char): Wildcard
    requires CanFill(pool, x)
  {
    if x in pool then Real else if '?' in pool then Question else Star
  }

  /**
   * The greedy walk over the word, on the pool seen as a multiset (which copy
   * of a unit is spliced out does not matter): for each letter, an identical
   * unit if there is one, else a `?`, else a `*`, else failure.
   */
  function Consume(pool: multiset<char>, word: string): Consumption
    decreases |word|
  {
    if word == [] then CanMake([])
    else if !CanFill(pool, word[0]) then CannotMake
    else Extend([KindFor(pool, word[0])], Consume(pool - multiset{UnitFor(pool, word[0])}, word[1..]))
  }

  /** The pool a search spells from: the available letters followed by the template's fixed letters. */
  function PoolOf(availableLetters: string, template: seq<Cell>): string
  {
    availableLetters + TemplateLetters(template)
  }

  lemma ExtendExtend(p: seq<Wildcard>, q: seq<Wildcard>, c: Consumption)
    ensures Extend(p, Extend(q, c)) == Extend(p + q, c)
  {
    match c
    case CannotMake =>
    case CanMake(rest) => assert p + (q + rest) == (p + q) + rest;
  }

  /** One step of the greedy walk that finds a unit for the letter at `k`. */
  lemma ConsumeStep(pool: multiset<char>, word: string, k: nat, wildcardTypes: seq<Wildcard>)
    requires k < |word| && CanFill(pool, word[k])
    ensures Extend(wildcardTypes, Consume(pool, word[k..]))
         == Extend(wildcardTypes + [KindFor(pool, word[k])], Consume(pool - multiset{UnitFor(pool, word[k])}, word[k + 1..]))
  {
    assert word[k..][0] == word[k] && word[k..][1..] == word[k + 1..];
    ExtendExtend(wildcardTypes, [KindFor(pool, word[k])], Consume(pool - multiset{UnitFor(pool, word[k])}, word[k + 1..]));
  }

  /** The greedy walk fails at a letter no unit can fill. */
  lemma ConsumeStuck(pool: multiset<char>, word: string, k: nat, wildcardTypes: seq<Wildcard>)
    requires k < |word| && !CanFill(pool, word[k])
    ensures Extend(wildcardTypes, Consume(pool, word[k..])) == CannotMake
  {
    assert word[k..][0] == word[k];
  }

  /** The loop of `canMakeWordWithTemplate`, splicing used units out of a local copy of the pool. */
  method CanMakeWordWithTemplate(availableLetters: string, word: string, template: seq<Cell>)
    returns (r: Consumption)
    ensures r == Consume(multiset(PoolOf(availableLetters, template)), word)
  {
    var available := availableLetters + TemplateLetters(template);
    var wildcardTypes: seq<Wildcard> := [];
    for k := 0 to |word|
      invariant Consume(multiset(PoolOf(availableLetters, template)), word)
                == Extend(wildcardTypes, Consume(multiset(available), word[k..]))
    {
      var letter := word[k];
      var index := IndexOf(available, letter);
      var questionIndex := IndexOf(available, '?');
      var starIndex := IndexOf(available, '*');
      ghost var pool := multiset(available);
      if index != -1 {
        assert letter in pool;
        ConsumeStep(pool, word, k, wildcardTypes);
        available := RemoveAt(available, index);
        wildcardTypes := wildcardTypes + [Real];
      } else if questionIndex != -1 {
        assert letter !in pool && '?' in pool;
        ConsumeStep(pool, word, k, wildcardTypes);
        available := RemoveAt(available, questionIndex);
        wildcardTypes := wildcardTypes + [Question];
      } else if starIndex != -1 {
        assert letter !in pool && '?' !in pool && '*' in pool;
        ConsumeStep(pool, word, k, wildcardTypes);
        available := RemoveAt(available, starIndex);
        wildcardTypes := wildcardTypes + [Star];
      } else {
        assert !CanFill(pool, letter);
        ConsumeStuck(pool, word, k, wildcardTypes);
        return CannotMake;
      }
    }
    assert word[|word|..] == [];
    assert wildcardTypes + [] == wildcardTypes;
    return CanMake(wildcardTypes);
  }

  /** A word is spelled from a pool of exactly its own letters, every letter by an identical unit. */
  lemma {:induction false} OwnLettersSpellExactly(word: string)
    ensures Consume(multiset(word), word) == CanMake(seq(|word|, _ => Real))
  {
    if word != [] {
      DropHead(word);
      OwnLettersSpellExactly(word[1..]);
      RealsCons(|word| - 1);
    }
  }

  /** Taking the head out of a list's multiset leaves the tail's multiset. */
  lemma DropHead<T>(s: seq<T>)
    requires s != []
    ensures s[0] in multiset(s) && multiset(s) - multiset{s[0]} == multiset(s[1..])
  {
    assert s == [s[0]] + s[1..];
  }

  /** One more exact letter in front of `n` exact letters. */
  lemma RealsCons(n: nat)
    ensures [Real] + seq(n, _ => Real) == seq(n + 1, _ => Real)
  {
  }

  /** On success there is one wildcard type per letter, and each letter used up one unit of the pool. */
  lemma {:induction false} ConsumeLength(pool: multiset<char>, word: string)
    ensures Consume(pool, word).CanMake? ==>
              |Consume(pool, word).wildcardTypes| == |word| && |word| <= |pool|
    decreases |word|
  {
    if word != [] && CanFill(pool, word[0]) {
      ConsumeLength(pool - multiset{UnitFor(pool, word[0])}, word[1..]);
    }
  }

  /** The letters of `word` that the pool cannot supply as themselves, counted with multiplicity. */
  function Uncovered(word: string, pool: multiset<char>): nat
  {
    |multiset(word) - pool|
  }

  /** The number of wildcard units, `?` and `*`, in the pool. */
  function WildcardUnits(pool: multiset<char>): nat
  {
    pool['?'] + pool['*']
  }

  /** The tail of a word without markers has no markers. */
  lemma NoMarksTail(word: string)
    requires word != [] && NoMarks(word)
    ensures NoMarks(word[1..]) && !IsMark(word[0])
  {
    forall i | 0 <= i < |word| - 1 ensures !IsMark(word[1..][i]) { assert word[1..][i] == word[i + 1]; }
  }

  /** Using up an exact letter leaves the uncovered count of the rest of the word unchanged. */
  lemma UncoveredAfterExact(x: char, rest: string, pool: multiset<char>)
    requires x in pool
    ensures Uncovered([x] + rest, pool) == Uncovered(rest, pool - multiset{x})
  {
    var A := multiset(rest);
    assert multiset([x] + rest) == A + multiset{x};
    assert (A + multiset{x}) - pool == A - (pool - multiset{x});
  }

  /** A letter the pool lacks is one more uncovered letter; removing a marker does not change the rest. */
  lemma UncoveredAfterMark(x: char, rest: string, pool: multiset<char>, mark: char)
    requires x !in pool && mark in pool && NoMarks(rest) && IsMark(mark)
    ensures Uncovered([x] + rest, pool) == Uncovered(rest, pool - multiset{mark}) + 1
  {
    var A := multiset(rest);
    assert mark !in rest;
    assert A[mark] == 0;
    assert multiset([x] + rest) == A + multiset{x};
    assert (A + multiset{x}) - pool == (A - pool) + multiset{x};
    assert A - (pool - multiset{mark}) == A - pool;
  }

  /** A letter the pool lacks leaves something uncovered. */
  lemma UncoveredMissing(x: char, rest: string, pool: multiset<char>)
    requires x !in pool
    ensures Uncovered([x] + rest, pool) > 0
  {
    var m := multiset([x] + rest) - pool;
    assert x in m;
  }

  /** The greedy walk on a non-empty word succeeds exactly when the first letter is filled and the rest succeeds. */
  lemma ConsumeHead(pool: multiset<char>, word: string)
    requires word != []
    ensures Consume(pool, word).CanMake? <==>
              CanFill(pool, word[0]) && Consume(pool - multiset{UnitFor(pool, word[0])}, word[1..]).CanMake?
  {
  }

  /** Removing a unit `u` from the pool: one wildcard unit fewer when `u` is a marker, as many otherwise. */
  lemma WildcardUnitsAfter(pool: multiset<char>, u: char)
    requires u in pool
    ensures WildcardUnits(pool - multiset{u}) == WildcardUnits(pool) - (if IsMark(u) then 1 else 0)
  {
  }

  /**
   * `canMakeWordWithTemplate` succeeds exactly when the letters of the word
   * that the pool cannot supply as themselves number no more than its `?` and
   * `*` units: the greedy order never makes a spellable word fail.
   */
  lemma {:induction false} ConsumeSucceedsIff(pool: multiset<char>, word: string)
    requires NoMarks(word)
    ensures Consume(pool, word).CanMake? <==> Uncovered(word, pool) <= WildcardUnits(pool)
    decreases |word|
  {
    if word == [] {
      assert multiset(word) - pool == multiset{};
    } else {
      var x, rest := word[0], word[1..];
      assert word == [x] + rest;
      NoMarksTail(word);
      ConsumeHead(pool, word);
      if CanFill(pool, x) {
        var u := UnitFor(pool, x);
        ConsumeSucceedsIff(pool - multiset{u}, rest);
        WildcardUnitsAfter(pool, u);
        if x in pool {
          UncoveredAfterExact(x, rest, pool);
        } else {
          UncoveredAfterMark(x, rest, pool, u);
        }
      } else {
        UncoveredMissing(x, rest, pool);
      }
    }
  }

  /** The copies of `word[k]` up to `k` are those in the tail up to `k` plus one if the first letter is the same. */
  lemma PrefixCount(word: string, k: nat)
    requires 0 < k < |word|
    ensures multiset(word[..k + 1])[word[k]] == multiset(word[1..][..k])[word[k]] + (if word[0] == word[k] then 1 else 0)
  {
    assert word[..k + 1] == [word[0]] + word[1..][..k];
  }

  /** The `k`-th letter of a success is the `k - 1`-th letter of the rest's success. */
  lemma ConsumeTailAt(pool: multiset<char>, word: string, k: nat)
    requires Consume(pool, word).CanMake? && 0 < k < |word|
    requires |Consume(pool, word).wildcardTypes| == |word|
    ensures Consume(pool - multiset{UnitFor(pool, word[0])}, word[1..]).CanMake?
    ensures Consume(pool, word).wildcardTypes[k] == Consume(pool - multiset{UnitFor(pool, word[0])}, word[1..]).wildcardTypes[k - 1]
  {
  }

  /**
   * An exact letter is used whenever the pool still has one: the `k`-th
   * letter is filled by itself exactly when the pool holds at least as many
   * copies of it as occur in the word up to and including position `k`.
   */
  lemma {:induction false} ExactLetterWhenAvailable(pool: multiset<char>, word: string, k: nat)
    requires k < |word| && !IsMark(word[k]) && Consume(pool, word).CanMake?
    ensures |Consume(pool, word).wildcardTypes| == |word|
    ensures Consume(pool, word).wildcardTypes[k] == Real <==> multiset(word[..k + 1])[word[k]] <= pool[word[k]]
    decreases |word|
  {
    ConsumeLength(pool, word);
    var x, y := word[0], word[k];
    if k == 0 {
      assert word[..1] == [x];
    } else {
      var pool' := pool - multiset{UnitFor(pool, x)};
      ConsumeTailAt(pool, word, k);
      ExactLetterWhenAvailable(pool', word[1..], k - 1);
      assert word[1..][k - 1] == y;
      PrefixCount(word, k);
      if x !in pool && x == y {
        assert y in word[1..][..k];
      }
    }
  }

  /** A pool without `?` never fills a letter with `?`. */
  lemma {:induction false} NoQuestionWithoutQuestionUnit(pool: multiset<char>, word: string, k: nat)
    requires '?' !in pool && Consume(pool, word).CanMake? && k < |Consume(pool, word).wildcardTypes|
    ensures Consume(pool, word).wildcardTypes[k] != Question
    decreases |word|
  {
    var x, rest := word[0], word[1..];
    var pool' := pool - multiset{UnitFor(pool, x)};
    assert Consume(pool, word).wildcardTypes == [KindFor(pool, x)] + Consume(pool', rest).wildcardTypes;
    if k > 0 {
      NoQuestionWithoutQuestionUnit(pool', rest, k - 1);
    }
  }

  /** Once a `*` has been used, no `?` is used after it. */
  lemma {:induction false} NoQuestionAfterStar(pool: multiset<char>, word: string, j: nat, k: nat)
    requires Consume(pool, word).CanMake? && j < k < |Consume(pool, word).wildcardTypes|
    requires Consume(pool, word).wildcardTypes[j] == Star
    ensures Consume(pool, word).wildcardTypes[k] != Question
    decreases |word|
  {
    var x, rest := word[0], word[1..];
    var pool' := pool - multiset{UnitFor(pool, x)};
    assert Consume(pool, word).wildcardTypes == [KindFor(pool, x)] + Consume(pool', rest).wildcardTypes;
    if j == 0 {
      NoQuestionWithoutQuestionUnit(pool', rest, k - 1);
    } else {
      NoQuestionAfterStar(pool', rest, j - 1, k - 1);
    }
  }

  /** A success on a non-empty word is its first letter's type followed by the success on the rest. */
  lemma ConsumeSplit(pool: multiset<char>, word: string)
    requires word != [] && Consume(pool, word).CanMake?
    ensures CanFill(pool, word[0])
    ensures Consume(pool - multiset{UnitFor(pool, word[0])}, word[1..]).CanMake?
    ensures Consume(pool, word).wildcardTypes
         == [KindFor(pool, word[0])] + Consume(pool - multiset{UnitFor(pool, word[0])}, word[1..]).wildcardTypes
  {
  }

  /** A `?` is recorded exactly when a `?` unit is used up, and then the pool has one `?` fewer. */
  lemma QuestionUnit(pool: multiset<char>, x: char)
    requires CanFill(pool, x) && !IsMark(x)
    ensures (KindFor(pool, x) == Question) == (UnitFor(pool, x) == '?')
    ensures (pool - multiset{UnitFor(pool, x)})['?'] == pool['?'] - (if UnitFor(pool, x) == '?' then 1 else 0)
  {
  }

  /** A `*` is used only after every `?` of the pool has been used. */
  lemma {:induction false} StarOnlyAfterAllQuestions(pool: multiset<char>, word: string, k: nat)
    requires NoMarks(word) && Consume(pool, word).CanMake? && k < |Consume(pool, word).wildcardTypes|
    requires Consume(pool, word).wildcardTypes[k] == Star
    ensures multiset(Consume(pool, word).wildcardTypes[..k])[Question] == pool['?']
    decreases |word|
  {
    NoMarksTail(word);
    ConsumeSplit(pool, word);
    var x := word[0];
    var pool' := pool - multiset{UnitFor(pool, x)};
    var wt' := Consume(pool', word[1..]).wildcardTypes;
    if k == 0 {
      assert KindFor(pool, x) == Star;
      assert Consume(pool, word).wildcardTypes[..0] == [];
    } else {
      StarOnlyAfterAllQuestions(pool', word[1..], k - 1);
      ConsPrefixCount(KindFor(pool, x), wt', k, Question);
      QuestionUnit(pool, x);
    }
  }

  /** The count of `v` in a prefix of a list with one more element in front. */
  lemma ConsPrefixCount<T>(x: T, t: seq<T>, k: nat, v: T)
    requires 0 < k <= |t| + 1
    ensures multiset(([x] + t)[..k])[v] == multiset(t[..k - 1])[v] + (if x == v then 1 else 0)
  {
    assert ([x] + t)[..k] == [x] + t[..k - 1];
  }
}
