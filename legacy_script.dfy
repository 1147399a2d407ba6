/**
 * The older letter check of the first page script (script.js,
 * `canMakeWord`), which knows only the `?` wildcard.
 */
module LegacyScript {
  import opened LetterConsumer

  /**
   * The greedy walk of `canMakeWord` on the pool seen as a multiset: each
   * letter takes an identical unit if there is one, else a `?`, else the
   * word cannot be made.
   */
  function CanSpell(pool: multiset<char>, word: string): bool
    decreases |word|
  {
    if word == [] then true
    else if word[0] in pool then CanSpell(pool - multiset{word[0]}, word[1..])
    else if '?' in pool then CanSpell(pool - multiset{'?'}, word[1..])
    else false
  }

  /** The loop of `canMakeWord`, splicing used units out of a copy of the letters. */
  method CanMakeWord(availableLetters: string, word: string) returns (ok: bool)
    ensures ok == CanSpell(multiset(availableLetters), word)
  {
    var available := availableLetters;
    for k := 0 to |word|
      invariant CanSpell(multiset(availableLetters), word) == CanSpell(multiset(available), word[k..])
    {
      var letter := word[k];
      assert word[k..][0] == letter && word[k..][1..] == word[k + 1..];
      var index := IndexOf(available, letter);
      var wildcardIndex := IndexOf(available, '?');
      if index != -1 {
        available := RemoveAt(available, index);
      } else if wildcardIndex != -1 {
        available := RemoveAt(available, wildcardIndex);
      } else {
        return false;
      }
    }
    return true;
  }

  /**
   * `canMakeWord` succeeds exactly when the letters of the word that the
   * pool cannot supply as themselves number no more than its `?` units.
   */
  lemma {:induction false} CanSpellIff(pool: multiset<char>, word: string)
    requires NoMarks(word)
    ensures CanSpell(pool, word) <==> Uncovered(word, pool) <= pool['?']
    decreases |word|
  {
    if word == [] {
      assert multiset(word) - pool == multiset{};
    } else {
      var x, rest := word[0], word[1..];
      assert word == [x] + rest;
      NoMarksTail(word);
      if x in pool {
        CanSpellIff(pool - multiset{x}, rest);
        UncoveredAfterExact(x, rest, pool);
      } else if '?' in pool {
        CanSpellIff(pool - multiset{'?'}, rest);
        UncoveredAfterMark(x, rest, pool, '?');
      } else {
        UncoveredMissing(x, rest, pool);
      }
    }
  }

  /** Every letter uses up one unit, so a word longer than the pool always fails. */
  lemma {:induction false} CanSpellNeedsEnoughUnits(pool: multiset<char>, word: string)
    requires |word| > |pool|
    ensures !CanSpell(pool, word)
    decreases |word|
  {
    if word[0] in pool {
      CanSpellNeedsEnoughUnits(pool - multiset{word[0]}, word[1..]);
    } else if '?' in pool {
      CanSpellNeedsEnoughUnits(pool - multiset{'?'}, word[1..]);
    }
  }

  /**
   * On a pool without `*`, `canMakeWord` is the success test of the newer
   * `canMakeWordWithTemplate`: the same exact-then-`?` preference.
   */
  lemma {:induction false} CanSpellIsConsumeWithoutStar(pool: multiset<char>, word: string)
    requires '*' !in pool
    ensures CanSpell(pool, word) == Consume(pool, word).CanMake?
    decreases |word|
  {
    if word != [] {
      var unit := if word[0] in pool then word[0] else '?';
      if CanFill(pool, word[0]) {
        assert (pool - multiset{unit})['*'] == 0;
        CanSpellIsConsumeWithoutStar(pool - multiset{unit}, word[1..]);
      }
    }
  }
}
