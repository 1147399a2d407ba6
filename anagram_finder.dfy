/** The search of anagramFinder.js (`findAnagrams`): the matcher and the letter consumer chained. */
module AnagramFinder {
  import opened Wrappers
  import opened TemplateMatcher
  import opened LetterConsumer

  /** One result of `findAnagrams`. */
  datatype AnagramMatch = AnagramMatch(word: string, wildcardTypes: seq<Wildcard>, positions: seq<int>)

  /** The callback of `findAnagrams`: the match for one word, or `null`. */
  function MatchWord(word: string, template: seq<Cell>, letters: string): Option<AnagramMatch>
  {
    var positions := ValidPositions(word, template);
    if |positions| == 0 then None
    else
      match Consume(multiset(PoolOf(letters, template)), word)
      case CannotMake => None
      case CanMake(wildcardTypes) => Some(AnagramMatch(word, wildcardTypes, positions))
  }

  /** `findAnagrams`: map every word to its match and drop the `null`s, keeping the word-list order. */
  function FindAnagrams(wordlist: seq<string>, template: seq<Cell>, letters: string): seq<AnagramMatch>
    decreases |wordlist|
  {
    if wordlist == [] then []
    else Kept(MatchWord(wordlist[0], template, letters)) + FindAnagrams(wordlist[1..], template, letters)
  }

  /** What `filter(match => match !== null)` keeps of one callback result. */
  function Kept(r: Option<AnagramMatch>): seq<AnagramMatch>
  {
    match r
    case None => []
    case Some(m) => [m]
  }

  /** The words of a list of matches. */
  function Words(ms: seq<AnagramMatch>): (r: seq<string>)
    ensures |r| == |ms| && forall k :: 0 <= k < |ms| ==> r[k] == ms[k].word
  {
    seq(|ms|, k requires 0 <= k < |ms| => ms[k].word)
  }

  /** The word has a position and can be spelled from the letters and the template's fixed letters. */
  predicate Playable(word: string, template: seq<Cell>, letters: string)
  {
    ValidPositions(word, template) != [] && Consume(multiset(PoolOf(letters, template)), word).CanMake?
  }

  /** Searching two word lists one after the other gives the two results one after the other: the order is kept. */
  lemma {:induction false} FindAnagramsConcat(a: seq<string>, b: seq<string>, template: seq<Cell>, letters: string)
    ensures FindAnagrams(a + b, template, letters) == FindAnagrams(a, template, letters) + FindAnagrams(b, template, letters)
    decreases |a|
  {
    if a != [] {
      var h := Kept(MatchWord(a[0], template, letters));
      var ra, rb := FindAnagrams(a[1..], template, letters), FindAnagrams(b, template, letters);
      ConcatTail(a, b);
      FindAnagramsConcat(a[1..], b, template, letters);
      assert FindAnagrams(a + b, template, letters) == h + (ra + rb);
      ConcatAssoc(h, ra, rb);
    } else {
      assert a + b == b;
    }
  }

  /** The head and the tail of a concatenation with a non-empty left part. */
  lemma ConcatTail<T>(a: seq<T>, b: seq<T>)
    requires a != []
    ensures (a + b)[0] == a[0] && (a + b)[1..] == a[1..] + b
  {
  }

  lemma ConcatAssoc<T>(x: seq<T>, y: seq<T>, z: seq<T>)
    ensures x + (y + z) == (x + y) + z
  {
  }

  /**
   * Every result is a playable word of the list, carrying exactly its
   * positions and the wildcard types of its spelling, one per letter; so
   * its length is between three and five.
   */
  lemma {:induction false} FindAnagramsSound(wordlist: seq<string>, template: seq<Cell>, letters: string, m: AnagramMatch)
    requires m in FindAnagrams(wordlist, template, letters)
    ensures m.word in wordlist && Playable(m.word, template, letters)
    ensures m.positions == ValidPositions(m.word, template)
    ensures Consume(multiset(PoolOf(letters, template)), m.word) == CanMake(m.wildcardTypes)
    ensures |m.wildcardTypes| == |m.word| && 3 <= |m.word| <= 5
    decreases |wordlist|
  {
    var head := MatchWord(wordlist[0], template, letters);
    if head == Some(m) {
      ConsumeLength(multiset(PoolOf(letters, template)), m.word);
      if |m.word| < 3 || |m.word| > 5 {
        OutOfRangeLengthHasNoPositions(m.word, template);
      }
    } else {
      assert m in FindAnagrams(wordlist[1..], template, letters);
      FindAnagramsSound(wordlist[1..], template, letters, m);
    }
  }

  /** Every playable word of the list is found, with its positions and its wildcard types. */
  lemma {:induction false} FindAnagramsComplete(wordlist: seq<string>, template: seq<Cell>, letters: string, w: string)
    requires w in wordlist && Playable(w, template, letters)
    ensures AnagramMatch(w, Consume(multiset(PoolOf(letters, template)), w).wildcardTypes, ValidPositions(w, template))
              in FindAnagrams(wordlist, template, letters)
    decreases |wordlist|
  {
    if wordlist[0] != w {
      assert w in wordlist[1..];
      FindAnagramsComplete(wordlist[1..], template, letters, w);
    }
  }

  /** The template `_ o _ _ t` of the scenario below. */
  function ScenarioTemplate(): seq<Cell>
  {
    [Empty, Letter('o'), Empty, Empty, Letter('t')]
  }

  /** The letters of the scenario's search pool: "cun" and the template's `o` and `t`. */
  lemma ScenarioPool()
    ensures multiset(PoolOf("cun", ScenarioTemplate())) == multiset("cunot")
  {
    assert TemplateLetters(ScenarioTemplate()) == "ot";
    assert PoolOf("cun", ScenarioTemplate()) == "cunot";
  }

  /** "tooth" has no `t` on the last cell. */
  lemma ToothHasNoPosition()
    ensures ValidPositions("tooth", ScenarioTemplate()) == []
  {
    FiveLetterWordIsCheckedCellByCell("tooth", ScenarioTemplate());
    assert "tooth"[4] != 't';
  }

  /** "mount" needs an `m`, which the pool lacks. */
  lemma MountCannotBeSpelled()
    ensures !Consume(multiset("cunot"), "mount").CanMake?
  {
    assert multiset("cunot") == multiset{'c', 'u', 'n', 'o', 't'};
    assert !CanFill(multiset("cunot"), 'm');
  }

  /** "count" fits the template on the whole row. */
  lemma CountFitsTheRow()
    ensures ValidPositions("count", ScenarioTemplate()) == [0]
  {
    FiveLetterWordIsCheckedCellByCell("count", ScenarioTemplate());
  }

  /** "count" is spelled from the pool without a wildcard: the pool holds exactly its letters. */
  lemma CountCanBeSpelled()
    ensures Consume(multiset("cunot"), "count").CanMake?
  {
    assert multiset("count") == multiset{'c', 'o', 'u', 'n', 't'} == multiset("cunot");
    OwnLettersSpellExactly("count");
  }

  /** A three-word search in which only the first word matches finds only that word. */
  lemma OnlyFirstOfThree(a: string, b: string, c: string, template: seq<Cell>, letters: string)
    requires MatchWord(a, template, letters).Some?
    requires MatchWord(b, template, letters) == None && MatchWord(c, template, letters) == None
    ensures Words(FindAnagrams([a, b, c], template, letters)) == [a]
  {
    var ws := [a, b, c];
    assert ws[1..] == [b, c] && ws[1..][1..] == [c] && ws[1..][1..][1..] == [];
    assert FindAnagrams([c], template, letters) == [];
    assert FindAnagrams([b, c], template, letters) == [];
    assert FindAnagrams(ws, template, letters) == [MatchWord(a, template, letters).value];
  }

  /** "count" is a match of the scenario. */
  lemma CountMatches()
    ensures MatchWord("count", ScenarioTemplate(), "cun").Some?
  {
    ScenarioPool();
    CountFitsTheRow();
    CountCanBeSpelled();
  }

  /** "tooth" and "mount" are not. */
  lemma ToothAndMountDoNotMatch()
    ensures MatchWord("tooth", ScenarioTemplate(), "cun") == None
    ensures MatchWord("mount", ScenarioTemplate(), "cun") == None
  {
    ScenarioPool();
    ToothHasNoPosition();
    MountCannotBeSpelled();
  }

  /** A five-letter search against `_ o _ _ t` with the letters "cun" finds only "count". */
  lemma FiveLetterScenario()
    ensures Words(FindAnagrams(["count", "tooth", "mount"], ScenarioTemplate(), "cun")) == ["count"]
  {
    CountMatches();
    ToothAndMountDoNotMatch();
    OnlyFirstOfThree("count", "tooth", "mount", ScenarioTemplate(), "cun");
  }
}
