/**
 * The search set-up of public/script.js: the multiplier buttons cycling the
 * five cell multipliers, and the data part of `updateResults` that turns the
 * template boxes, the multipliers, the letters mode and the two word lists
 * into the ranked list of matches.
 */
module SearchPage {
  import opened Wrappers
  import opened TemplateMatcher
  import opened LetterConsumer
  import opened AnagramFinder
  import opened Scoring

  /** One click on a multiplier button: 1 → 2 → 3 → 0 (off) → 1; any other value becomes 1. */
  function NextMultiplier(m: nat): (r: nat)
    ensures r <= 3
    ensures m <= 3 ==> r != m
  {
    if m == 1 then 2 else if m == 2 then 3 else if m == 3 then 0 else 1
  }

  /** The multiplier after `n` clicks. */
  function Clicks(m: nat, n: nat): (r: nat)
    ensures n > 0 ==> r <= 3
    decreases n
  {
    if n == 0 then m else Clicks(NextMultiplier(m), n - 1)
  }

  /** Four clicks bring a button back to where it was. */
  lemma {:induction false} FourClicksRestore(m: nat, n: nat)
    requires m <= 3
    ensures Clicks(m, n + 4) == Clicks(m, n)
    decreases n
  {
    if n == 0 {
      assert Clicks(m, 4) == NextMultiplier(NextMultiplier(NextMultiplier(NextMultiplier(m))));
    } else {
      FourClicksRestore(NextMultiplier(m), n - 1);
    }
  }

  /** Four successive clicks visit each of the values 0, 1, 2 and 3 once. */
  lemma ClicksVisitEveryValue(m: nat)
    requires m <= 3
    ensures {Clicks(m, 0), Clicks(m, 1), Clicks(m, 2), Clicks(m, 3)} == {0, 1, 2, 3}
  {
  }

  /** The module-level `multipliers` array of the page, one entry per cell, changed in place by the buttons. */
  class MultiplierRow {
    const cells: array<nat>

    /** Five cells, each holding 0 (off), 1, 2 or 3. */
    ghost predicate Valid()
      reads this, cells
    {
      cells.Length == RowWidth && forall i :: 0 <= i < cells.Length ==> cells[i] <= 3
    }

    /** `const multipliers = [1, 1, 1, 1, 1]`. */
    constructor ()
      ensures Valid() && fresh(cells)
      ensures cells[..] == [1, 1, 1, 1, 1]
    {
      var a := new nat[RowWidth](_ => 1);
      assert a[..] == [a[0], a[1], a[2], a[3], a[4]];
      cells := a;
    }

    /** The click handler of the button at `index`: only that cell moves one step of the cycle. */
    method Click(index: nat)
      requires Valid() && index < RowWidth
      modifies cells
      ensures Valid()
      ensures cells[..] == old(cells[..])[index := NextMultiplier(old(cells[index]))]
    {
      cells[index] := NextMultiplier(cells[index]);
    }
  }

  /** The template or multiplier entries at the given indices, in order: `indices.map(i => s[i])`. */
  function Pick<T>(s: seq<T>, indices: seq<nat>): (r: seq<T>)
    requires forall k :: 0 <= k < |indices| ==> indices[k] < |s|
    ensures |r| == |indices| && forall k :: 0 <= k < |indices| ==> r[k] == s[indices[k]]
  {
    seq(|indices|, k requires 0 <= k < |indices| => s[indices[k]])
  }

  /** `activeIndices`: the indices of the cells that are not off, in ascending order. */
  function ActiveIndices(multipliers: seq<nat>): (r: seq<nat>)
    ensures |r| <= |multipliers|
    ensures forall k :: 0 <= k < |r| ==> r[k] < |multipliers| && multipliers[r[k]] != 0
    ensures forall k, l :: 0 <= k < l < |r| ==> r[k] < r[l]
    ensures forall i :: 0 <= i < |multipliers| && multipliers[i] != 0 ==> i in r
  {
    if multipliers == [] then []
    else
      var last := |multipliers| - 1;
      var front := ActiveIndices(multipliers[..last]);
      front + (if multipliers[last] == 0 then [] else [last])
  }

  /** The active indices of a row grow by its last index exactly when its last cell is on. */
  lemma ActiveSnoc(multipliers: seq<nat>)
    requires multipliers != []
    ensures ActiveIndices(multipliers)
         == ActiveIndices(multipliers[..|multipliers| - 1]) + (if multipliers[|multipliers| - 1] == 0 then [] else [|multipliers| - 1])
  {
  }

  /** The indices `0..n-1` in order. */
  function Iota(n: nat): (r: seq<nat>)
    ensures |r| == n && forall k :: 0 <= k < n ==> r[k] == k
  {
    seq(n, i => i)
  }

  /** `0..n` is `0..n-1` followed by `n`. */
  lemma IotaSnoc(n: nat)
    ensures Iota(n) + [n] == Iota(n + 1)
  {
  }

  /** When every cell is on, the active indices are `0..n-1`. */
  lemma {:induction false} AllOnAllActive(multipliers: seq<nat>)
    requires forall i :: 0 <= i < |multipliers| ==> multipliers[i] != 0
    ensures ActiveIndices(multipliers) == Iota(|multipliers|)
  {
    if multipliers != [] {
      var last := |multipliers| - 1;
      var front := multipliers[..last];
      assert forall i :: 0 <= i < |front| ==> front[i] == multipliers[i];
      AllOnAllActive(front);
      ActiveSnoc(multipliers);
      assert multipliers[last] != 0;
      IotaSnoc(last);
    }
  }

  /** When every index is active, every cell is on. */
  lemma {:induction false} AllActiveAllOn(multipliers: seq<nat>)
    requires |ActiveIndices(multipliers)| == |multipliers|
    ensures forall i :: 0 <= i < |multipliers| ==> multipliers[i] != 0
  {
    if multipliers != [] {
      var last := |multipliers| - 1;
      var front := multipliers[..last];
      ActiveSnoc(multipliers);
      assert |ActiveIndices(front)| <= last;
      AllActiveAllOn(front);
      forall i | 0 <= i < |multipliers| ensures multipliers[i] != 0 {
        if i < last {
          assert front[i] == multipliers[i];
        }
      }
    }
  }

  /** Every cell is on exactly when every index is active, and then the active indices are `0..n-1`. */
  lemma AllActive(multipliers: seq<nat>)
    ensures |ActiveIndices(multipliers)| == |multipliers| <==> forall i :: 0 <= i < |multipliers| ==> multipliers[i] != 0
    ensures |ActiveIndices(multipliers)| == |multipliers| ==> ActiveIndices(multipliers) == Iota(|multipliers|)
  {
    if |ActiveIndices(multipliers)| == |multipliers| {
      AllActiveAllOn(multipliers);
    }
    if forall i :: 0 <= i < |multipliers| ==> multipliers[i] != 0 {
      AllOnAllActive(multipliers);
    }
  }

  /** `isLengthFiltered`: some cell is off. */
  predicate IsLengthFiltered(multipliers: seq<nat>)
  {
    |ActiveIndices(multipliers)| != RowWidth
  }

  /** `template`: the boxes of the active cells, or all the boxes when no cell is off. */
  function SearchTemplate(templateRaw: seq<Cell>, multipliers: seq<nat>): seq<Cell>
    requires |templateRaw| == |multipliers|
  {
    if IsLengthFiltered(multipliers) then Pick(templateRaw, ActiveIndices(multipliers)) else templateRaw
  }

  /** `multipliersForScoring`: the multipliers of the active cells, or all of them when no cell is off. */
  function ScoringMultipliers(multipliers: seq<nat>): seq<nat>
  {
    if IsLengthFiltered(multipliers) then Pick(multipliers, ActiveIndices(multipliers)) else multipliers
  }

  /**
   * Cells that are off are removed from both the template and the scoring
   * multipliers, which keep the active cells in order; with no cell off, both
   * are used unchanged.
   */
  lemma OffCellsRemoved(templateRaw: seq<Cell>, multipliers: seq<nat>)
    requires |templateRaw| == |multipliers| == RowWidth
    ensures SearchTemplate(templateRaw, multipliers) == Pick(templateRaw, ActiveIndices(multipliers))
    ensures ScoringMultipliers(multipliers) == Pick(multipliers, ActiveIndices(multipliers))
    ensures forall k :: 0 <= k < |ScoringMultipliers(multipliers)| ==> ScoringMultipliers(multipliers)[k] != 0
    ensures (forall i :: 0 <= i < RowWidth ==> multipliers[i] != 0) <==> !IsLengthFiltered(multipliers)
    ensures !IsLengthFiltered(multipliers) ==>
              SearchTemplate(templateRaw, multipliers) == templateRaw && ScoringMultipliers(multipliers) == multipliers
  {
    AllActive(multipliers);
    if !IsLengthFiltered(multipliers) {
      assert Pick(templateRaw, ActiveIndices(multipliers)) == templateRaw;
      assert Pick(multipliers, ActiveIndices(multipliers)) == multipliers;
    }
  }

  /** The two modes of the letters chooser. */
  datatype LettersMode = Any | Choose

  /** `'?'.repeat(n)`. */
  function Repeat(c: char, n: nat): (r: string)
    ensures |r| == n && forall k :: 0 <= k < n ==> r[k] == c
  {
    seq(n, _ => c)
  }

  /** `wildcardCount`. */
  function WildcardCount(multipliers: seq<nat>): nat
  {
    if IsLengthFiltered(multipliers) then |ActiveIndices(multipliers)| else RowWidth
  }

  /** `letters`: one `?` per cell in "any" mode, the chosen letters in "choose" mode. */
  function SearchLetters(multipliers: seq<nat>, mode: LettersMode, chosenLetters: string): string
  {
    if mode == Any then Repeat('?', WildcardCount(multipliers)) else chosenLetters
  }

  /** In "any" mode the pool is a `?` per active cell, five when no cell is off. */
  lemma AnyModePool(multipliers: seq<nat>, chosenLetters: string)
    requires |multipliers| == RowWidth
    ensures SearchLetters(multipliers, Any, chosenLetters) == Repeat('?', |ActiveIndices(multipliers)|)
    ensures (forall i :: 0 <= i < RowWidth ==> multipliers[i] != 0) ==> SearchLetters(multipliers, Any, chosenLetters) == "?????"
  {
    AllActive(multipliers);
  }

  /** What the page shows: one of its three messages, or the ranked matches. */
  datatype MatchRecord = MatchRecord(word: string, wildcardTypes: seq<Wildcard>, position: Option<int>,
                                     isCommon: bool, score: nat, baseScore: nat, bonusScore: nat)

  datatype SearchOutcome = NeedTemplate | NeedLetters | NotLoaded | Found(matches: seq<MatchRecord>)

  /** The inputs `updateResults` reads: the five template boxes, the five multipliers, the mode, the chosen letters and the two word lists. */
  datatype Page = Page(templateRaw: seq<Cell>, multipliers: seq<nat>, mode: LettersMode, chosenLetters: string,
                       commonWords: seq<string>, allWords: seq<string>)

  /** The page has five boxes and five multipliers. */
  predicate WellFormed(p: Page)
  {
    |p.templateRaw| == RowWidth && |p.multipliers| == RowWidth
  }

  /** `m.word.length === requiredLength` as a filter. */
  function KeepLength(ms: seq<AnagramMatch>, n: nat): (r: seq<AnagramMatch>)
    ensures forall m :: m in r <==> m in ms && |m.word| == n
  {
    if ms == [] then []
    else (if |ms[0].word| == n then [ms[0]] else []) + KeepLength(ms[1..], n)
  }

  /** The words of a list of matches, as a set: `commonSet`. */
  function WordSet(ms: seq<AnagramMatch>): set<string>
  {
    set m | m in ms :: m.word
  }

  /** `!commonSet.has(m.word)` as a filter. */
  function DropWords(ms: seq<AnagramMatch>, words: set<string>): (r: seq<AnagramMatch>)
    ensures forall m :: m in r <==> m in ms && m.word !in words
  {
    if ms == [] then []
    else (if ms[0].word !in words then [ms[0]] else []) + DropWords(ms[1..], words)
  }

  /** The matches of one word list, length-filtered when a cell is off. */
  function MatchesOf(p: Page, words: seq<string>): seq<AnagramMatch>
    requires WellFormed(p)
  {
    var found := FindAnagrams(words, SearchTemplate(p.templateRaw, p.multipliers), SearchLetters(p.multipliers, p.mode, p.chosenLetters));
    if IsLengthFiltered(p.multipliers) then KeepLength(found, |ActiveIndices(p.multipliers)|) else found
  }

  /** A match placed by `findBestPosition` under the scoring multipliers. */
  function Record(m: AnagramMatch, multipliers: seq<nat>, isCommon: bool): MatchRecord
  {
    var b := BestPosition(m.word, m.wildcardTypes, m.positions, multipliers, isCommon);
    MatchRecord(m.word, m.wildcardTypes, b.position, isCommon, b.score, b.baseScore, b.bonusScore)
  }

  /** The records of a list of matches, in order. */
  function Records(ms: seq<AnagramMatch>, multipliers: seq<nat>, isCommon: bool): (r: seq<MatchRecord>)
    ensures |r| == |ms| && forall k :: 0 <= k < |ms| ==> r[k] == Record(ms[k], multipliers, isCommon)
  {
    seq(|ms|, k requires 0 <= k < |ms| => Record(ms[k], multipliers, isCommon))
  }

  /** `matches` before sorting: the common matches, then the other matches whose word is not common. */
  function Merged(p: Page): seq<MatchRecord>
    requires WellFormed(p)
  {
    var common := MatchesOf(p, p.commonWords);
    var unique := DropWords(MatchesOf(p, p.allWords), WordSet(common));
    Records(common, ScoringMultipliers(p.multipliers), true) + Records(unique, ScoringMultipliers(p.multipliers), false)
  }

  /** Highest score first. */
  predicate SortedByScore(s: seq<MatchRecord>)
  {
    forall i, j :: 0 <= i < j < |s| ==> s[i].score >= s[j].score
  }

  /** Put `x` after the records scoring more than it and before the rest. */
  function Insert(x: MatchRecord, s: seq<MatchRecord>): seq<MatchRecord>
  {
    if s == [] then [x]
    else if s[0].score > x.score then [s[0]] + Insert(x, s[1..])
    else [x] + s
  }

  /** `matches.sort((a, b) => b.score - a.score)`, a stable sort. */
  function SortByScore(s: seq<MatchRecord>): seq<MatchRecord>
  {
    if s == [] then [] else Insert(s[0], SortByScore(s[1..]))
  }

  /** `updateResults`, without the HTML it writes. */
  function UpdateResults(p: Page): SearchOutcome
    requires WellFormed(p)
  {
    var hasTemplate := HasFixed(SearchTemplate(p.templateRaw, p.multipliers));
    if !hasTemplate && p.mode == Any then NeedTemplate
    else if !hasTemplate && |p.chosenLetters| == 0 then NeedLetters
    else if p.commonWords == [] && p.allWords == [] then NotLoaded
    else Found(SortByScore(Merged(p)))
  }

  /** Inserting adds `x` and nothing else. */
  lemma {:induction false} InsertPermutes(x: MatchRecord, s: seq<MatchRecord>)
    ensures multiset(Insert(x, s)) == multiset(s) + multiset{x}
  {
    if s != [] && s[0].score > x.score {
      var t := Insert(x, s[1..]);
      InsertPermutes(x, s[1..]);
      assert Insert(x, s) == [s[0]] + t;
      HeadTail([s[0]] + t);
      HeadTail(s);
      assert ([s[0]] + t)[1..] == t;
    }
  }

  /** A non-empty list holds its head and its tail. */
  lemma HeadTail<T>(s: seq<T>)
    requires s != []
    ensures multiset(s) == multiset(s[1..]) + multiset{s[0]}
  {
    assert s == [s[0]] + s[1..];
  }

  /** The sort is a permutation. */
  lemma {:induction false} SortPermutes(s: seq<MatchRecord>)
    ensures multiset(SortByScore(s)) == multiset(s)
  {
    if s != [] {
      SortPermutes(s[1..]);
      InsertPermutes(s[0], SortByScore(s[1..]));
      assert s == [s[0]] + s[1..];
    }
  }

  /** Inserting into a sorted list keeps it sorted. */
  lemma {:induction false} InsertSorted(x: MatchRecord, s: seq<MatchRecord>)
    requires SortedByScore(s)
    ensures SortedByScore(Insert(x, s))
  {
    if s != [] && s[0].score > x.score {
      InsertSorted(x, s[1..]);
      var t := Insert(x, s[1..]);
      InsertPermutes(x, s[1..]);
      forall j | 0 <= j < |t| ensures s[0].score >= t[j].score {
        assert t[j] in multiset(t);
        if t[j] != x {
          assert t[j] in s[1..];
        }
      }
    }
  }

  /** The sort yields the highest scores first. */
  lemma {:induction false} SortSorted(s: seq<MatchRecord>)
    ensures SortedByScore(SortByScore(s))
  {
    if s != [] {
      SortSorted(s[1..]);
      InsertSorted(s[0], SortByScore(s[1..]));
    }
  }

  /** The records with a given score, in order. */
  function WithScore(s: seq<MatchRecord>, v: nat): seq<MatchRecord>
  {
    if s == [] then [] else (if s[0].score == v then [s[0]] else []) + WithScore(s[1..], v)
  }

  /** The records of a given score in a list with a known head. */
  lemma WithScoreCons(y: MatchRecord, t: seq<MatchRecord>, v: nat)
    ensures WithScore([y] + t, v) == (if y.score == v then [y] else []) + WithScore(t, v)
  {
    assert ([y] + t)[0] == y && ([y] + t)[1..] == t;
  }

  /** Inserting past a record scoring more than `x` keeps that record in front. */
  lemma InsertPast(x: MatchRecord, s: seq<MatchRecord>)
    requires s != [] && s[0].score > x.score
    ensures Insert(x, s) == [s[0]] + Insert(x, s[1..])
  {
  }

  /** The step of `InsertWithScore` past a record scoring more than `x`, when `x` has the score looked for. */
  lemma InsertWithScoreSame(x: MatchRecord, s: seq<MatchRecord>, v: nat)
    requires s != [] && s[0].score > x.score && x.score == v
    requires WithScore(Insert(x, s[1..]), v) == [x] + WithScore(s[1..], v)
    ensures WithScore(Insert(x, s), v) == [x] + WithScore(s, v)
  {
    InsertPast(x, s);
    WithScoreCons(s[0], Insert(x, s[1..]), v);
    assert [s[0]] + s[1..] == s;
    WithScoreCons(s[0], s[1..], v);
  }

  /** The step of `InsertWithScore` past a record scoring more than `x`, when `x` has another score. */
  lemma InsertWithScoreOther(x: MatchRecord, s: seq<MatchRecord>, v: nat)
    requires s != [] && s[0].score > x.score && x.score != v
    requires WithScore(Insert(x, s[1..]), v) == WithScore(s[1..], v)
    ensures WithScore(Insert(x, s), v) == WithScore(s, v)
  {
    InsertPast(x, s);
    WithScoreCons(s[0], Insert(x, s[1..]), v);
    assert [s[0]] + s[1..] == s;
    WithScoreCons(s[0], s[1..], v);
  }

  /** Inserting `x` puts it before every record of its own score. */
  lemma {:induction false} InsertWithScore(x: MatchRecord, s: seq<MatchRecord>, v: nat)
    ensures WithScore(Insert(x, s), v) == (if x.score == v then [x] else []) + WithScore(s, v)
  {
    if s == [] {
      WithScoreCons(x, [], v);
    } else if s[0].score > x.score {
      InsertWithScore(x, s[1..], v);
      if x.score == v {
        InsertWithScoreSame(x, s, v);
      } else {
        assert [] + WithScore(s[1..], v) == WithScore(s[1..], v);
        InsertWithScoreOther(x, s, v);
        assert [] + WithScore(s, v) == WithScore(s, v);
      }
    } else {
      WithScoreCons(x, s, v);
    }
  }

  /** The sort is stable: the records of each score keep their order. */
  lemma {:induction false} SortStable(s: seq<MatchRecord>, v: nat)
    ensures WithScore(SortByScore(s), v) == WithScore(s, v)
  {
    if s != [] {
      SortStable(s[1..], v);
      InsertWithScore(s[0], SortByScore(s[1..]), v);
    }
  }

  /** With no filled cell, "any" mode searches nothing, and neither does "choose" mode without letters. */
  lemma NoSearchWithoutInput(p: Page)
    requires WellFormed(p) && !HasFixed(SearchTemplate(p.templateRaw, p.multipliers))
    ensures p.mode == Any ==> UpdateResults(p) == NeedTemplate
    ensures p.mode == Choose && p.chosenLetters == [] ==> UpdateResults(p) == NeedLetters
  {
  }

  /** The shown list holds the merged records, each once, highest score first, records of equal score in merged order. */
  lemma FoundIsStableSortOfMerged(p: Page, v: nat)
    requires WellFormed(p) && UpdateResults(p).Found?
    ensures multiset(UpdateResults(p).matches) == multiset(Merged(p))
    ensures SortedByScore(UpdateResults(p).matches)
    ensures WithScore(UpdateResults(p).matches, v) == WithScore(Merged(p), v)
  {
    SortPermutes(Merged(p));
    SortSorted(Merged(p));
    SortStable(Merged(p), v);
  }

  /** In a list of common records followed by non-common ones, every common record precedes every other one. */
  lemma CommonThenOther(a: seq<MatchRecord>, b: seq<MatchRecord>)
    requires forall k :: 0 <= k < |a| ==> a[k].isCommon
    requires forall k :: 0 <= k < |b| ==> !b[k].isCommon
    ensures forall i, j :: 0 <= i < j < |a + b| && (a + b)[j].isCommon ==> (a + b)[i].isCommon
  {
    forall j | |a| <= j < |a + b| ensures !(a + b)[j].isCommon {
      assert (a + b)[j] == b[j - |a|];
    }
    forall i | 0 <= i < |a| ensures (a + b)[i].isCommon {
      assert (a + b)[i] == a[i];
    }
  }

  /** Before sorting, every common record precedes every other one. */
  lemma CommonFirstInMerged(p: Page)
    requires WellFormed(p)
    ensures forall i, j :: 0 <= i < j < |Merged(p)| && Merged(p)[j].isCommon ==> Merged(p)[i].isCommon
  {
    var common := MatchesOf(p, p.commonWords);
    var unique := DropWords(MatchesOf(p, p.allWords), WordSet(common));
    var a := Records(common, ScoringMultipliers(p.multipliers), true);
    var b := Records(unique, ScoringMultipliers(p.multipliers), false);
    assert Merged(p) == a + b;
    CommonThenOther(a, b);
  }

  /** A match of one list survives the length filter exactly when its word has the number of active cells. */
  lemma MatchesOfMember(p: Page, words: seq<string>, m: AnagramMatch)
    requires WellFormed(p)
    ensures m in MatchesOf(p, words) <==>
              m in FindAnagrams(words, SearchTemplate(p.templateRaw, p.multipliers), SearchLetters(p.multipliers, p.mode, p.chosenLetters))
              && (IsLengthFiltered(p.multipliers) ==> |m.word| == |ActiveIndices(p.multipliers)|)
  {
  }

  /** A record of a list of matches is the record of one of them. */
  lemma RecordsMember(ms: seq<AnagramMatch>, multipliers: seq<nat>, isCommon: bool, r: MatchRecord)
    requires r in Records(ms, multipliers, isCommon)
    ensures exists m :: m in ms && r == Record(m, multipliers, isCommon)
  {
    var k :| 0 <= k < |ms| && Records(ms, multipliers, isCommon)[k] == r;
    assert ms[k] in ms;
  }

  /** The merged list is the common records followed by the other records. */
  lemma MergedSplit(p: Page)
    requires WellFormed(p)
    ensures Merged(p) == Records(MatchesOf(p, p.commonWords), ScoringMultipliers(p.multipliers), true)
                       + Records(DropWords(MatchesOf(p, p.allWords), WordSet(MatchesOf(p, p.commonWords))), ScoringMultipliers(p.multipliers), false)
  {
  }

  /** The record of a match in the merged list. */
  lemma MergedMember(p: Page, r: MatchRecord)
    requires WellFormed(p) && r in Merged(p)
    ensures r.isCommon ==> exists m :: m in MatchesOf(p, p.commonWords) && r == Record(m, ScoringMultipliers(p.multipliers), true)
    ensures !r.isCommon ==> exists m :: m in MatchesOf(p, p.allWords) && m.word !in WordSet(MatchesOf(p, p.commonWords))
                                      && r == Record(m, ScoringMultipliers(p.multipliers), false)
  {
    var multipliers := ScoringMultipliers(p.multipliers);
    var common := MatchesOf(p, p.commonWords);
    var unique := DropWords(MatchesOf(p, p.allWords), WordSet(common));
    MergedSplit(p);
    if r in Records(common, multipliers, true) {
      RecordsMember(common, multipliers, true, r);
    } else {
      assert r in Records(unique, multipliers, false);
      RecordsMember(unique, multipliers, false, r);
    }
  }

  /** The shown records are the merged records. */
  lemma FoundMember(p: Page, r: MatchRecord)
    requires WellFormed(p) && UpdateResults(p).Found? && r in UpdateResults(p).matches
    ensures r in Merged(p)
  {
    assert UpdateResults(p).matches == SortByScore(Merged(p));
    SortPermutes(Merged(p));
    assert r in multiset(SortByScore(Merged(p)));
  }

  /** A merged record is shown. */
  lemma MergedShown(p: Page, r: MatchRecord)
    requires WellFormed(p) && UpdateResults(p).Found? && r in Merged(p)
    ensures r in UpdateResults(p).matches
  {
    assert UpdateResults(p).matches == SortByScore(Merged(p));
    SortPermutes(Merged(p));
    assert r in multiset(Merged(p));
  }

  /** A match of one list is a playable word of that list, with its positions, and of the row's length when a cell is off. */
  lemma MatchSound(p: Page, words: seq<string>, m: AnagramMatch)
    requires WellFormed(p) && m in MatchesOf(p, words)
    ensures m.word in words
    ensures Playable(m.word, SearchTemplate(p.templateRaw, p.multipliers), SearchLetters(p.multipliers, p.mode, p.chosenLetters))
    ensures m.positions == ValidPositions(m.word, SearchTemplate(p.templateRaw, p.multipliers))
    ensures IsLengthFiltered(p.multipliers) ==> |m.word| == |ActiveIndices(p.multipliers)|
  {
    MatchesOfMember(p, words, m);
    FindAnagramsSound(words, SearchTemplate(p.templateRaw, p.multipliers), SearchLetters(p.multipliers, p.mode, p.chosenLetters), m);
  }

  /** A record made from a sound match is a playable word with its positions, placed by `findBestPosition`. */
  lemma RecordSound(p: Page, words: seq<string>, m: AnagramMatch, r: MatchRecord)
    requires WellFormed(p) && m in MatchesOf(p, words) && r == Record(m, ScoringMultipliers(p.multipliers), r.isCommon)
    ensures r.word in words
    ensures Playable(r.word, SearchTemplate(p.templateRaw, p.multipliers), SearchLetters(p.multipliers, p.mode, p.chosenLetters))
    ensures IsLengthFiltered(p.multipliers) ==> |r.word| == |ActiveIndices(p.multipliers)|
    ensures r == Record(AnagramMatch(r.word, r.wildcardTypes, ValidPositions(r.word, SearchTemplate(p.templateRaw, p.multipliers))),
                        ScoringMultipliers(p.multipliers), r.isCommon)
  {
    MatchSound(p, words, m);
    assert m == AnagramMatch(r.word, r.wildcardTypes, ValidPositions(r.word, SearchTemplate(p.templateRaw, p.multipliers)));
  }

  /**
   * Every shown record is a playable word of its list, with the length of the
   * active row when a cell is off, placed and scored by `findBestPosition` over
   * its positions.
   */
  lemma FoundSound(p: Page, r: MatchRecord)
    requires WellFormed(p) && UpdateResults(p).Found? && r in UpdateResults(p).matches
    ensures r.word in (if r.isCommon then p.commonWords else p.allWords)
    ensures Playable(r.word, SearchTemplate(p.templateRaw, p.multipliers), SearchLetters(p.multipliers, p.mode, p.chosenLetters))
    ensures IsLengthFiltered(p.multipliers) ==> |r.word| == |ActiveIndices(p.multipliers)|
    ensures r == Record(AnagramMatch(r.word, r.wildcardTypes, ValidPositions(r.word, SearchTemplate(p.templateRaw, p.multipliers))),
                        ScoringMultipliers(p.multipliers), r.isCommon)
  {
    FoundMember(p, r);
    MergedMember(p, r);
    if r.isCommon {
      var m :| m in MatchesOf(p, p.commonWords) && r == Record(m, ScoringMultipliers(p.multipliers), true);
      RecordSound(p, p.commonWords, m, r);
    } else {
      var m :| m in MatchesOf(p, p.allWords) && m.word !in WordSet(MatchesOf(p, p.commonWords))
               && r == Record(m, ScoringMultipliers(p.multipliers), false);
      RecordSound(p, p.allWords, m, r);
    }
  }

  /** A word shown as common is never shown again as non-common. */
  lemma FoundCommonOnce(p: Page, r: MatchRecord, o: MatchRecord)
    requires WellFormed(p) && UpdateResults(p).Found?
    requires r in UpdateResults(p).matches && o in UpdateResults(p).matches
    requires !r.isCommon && o.isCommon
    ensures o.word != r.word
  {
    FoundMember(p, r);
    MergedMember(p, r);
    FoundMember(p, o);
    MergedMember(p, o);
    var m :| m in MatchesOf(p, p.allWords) && m.word !in WordSet(MatchesOf(p, p.commonWords))
             && r == Record(m, ScoringMultipliers(p.multipliers), false);
    var mo :| mo in MatchesOf(p, p.commonWords) && o == Record(mo, ScoringMultipliers(p.multipliers), true);
    assert mo.word in WordSet(MatchesOf(p, p.commonWords));
  }

  /** The match of a playable word of a list with the right length is among that list's matches. */
  lemma MatchComplete(p: Page, words: seq<string>, w: string)
    requires WellFormed(p) && w in words
    requires Playable(w, SearchTemplate(p.templateRaw, p.multipliers), SearchLetters(p.multipliers, p.mode, p.chosenLetters))
    requires IsLengthFiltered(p.multipliers) ==> |w| == |ActiveIndices(p.multipliers)|
    ensures PlayedMatch(p, w) in MatchesOf(p, words)
  {
    FindAnagramsComplete(words, SearchTemplate(p.templateRaw, p.multipliers), SearchLetters(p.multipliers, p.mode, p.chosenLetters), w);
    MatchesOfMember(p, words, PlayedMatch(p, w));
  }

  /** The match `findAnagrams` gives a playable word. */
  function PlayedMatch(p: Page, w: string): AnagramMatch
    requires WellFormed(p)
    requires Playable(w, SearchTemplate(p.templateRaw, p.multipliers), SearchLetters(p.multipliers, p.mode, p.chosenLetters))
  {
    var template := SearchTemplate(p.templateRaw, p.multipliers);
    var letters := SearchLetters(p.multipliers, p.mode, p.chosenLetters);
    AnagramMatch(w, Consume(multiset(PoolOf(letters, template)), w).wildcardTypes, ValidPositions(w, template))
  }

  /** The record of a match of the common list is merged. */
  lemma CommonMerged(p: Page, m: AnagramMatch)
    requires WellFormed(p) && m in MatchesOf(p, p.commonWords)
    ensures Record(m, ScoringMultipliers(p.multipliers), true) in Merged(p)
  {
    var common := MatchesOf(p, p.commonWords);
    var a := Records(common, ScoringMultipliers(p.multipliers), true);
    var k :| 0 <= k < |common| && common[k] == m;
    assert a[k] == Record(m, ScoringMultipliers(p.multipliers), true);
    assert Merged(p)[k] == a[k];
  }

  /** The record of a match of the full list whose word is no common match's is merged. */
  lemma OtherMerged(p: Page, m: AnagramMatch)
    requires WellFormed(p) && m in MatchesOf(p, p.allWords) && m.word !in WordSet(MatchesOf(p, p.commonWords))
    ensures Record(m, ScoringMultipliers(p.multipliers), false) in Merged(p)
  {
    var common := MatchesOf(p, p.commonWords);
    var unique := DropWords(MatchesOf(p, p.allWords), WordSet(common));
    var a := Records(common, ScoringMultipliers(p.multipliers), true);
    var b := Records(unique, ScoringMultipliers(p.multipliers), false);
    var k :| 0 <= k < |unique| && unique[k] == m;
    assert b[k] == Record(m, ScoringMultipliers(p.multipliers), false);
    assert Merged(p)[|a| + k] == b[k];
  }

  /**
   * Every playable word of a list with the right length is shown: a common
   * word as a common record, any other word as a non-common record.
   */
  lemma FoundComplete(p: Page, w: string, isCommon: bool)
    requires WellFormed(p) && UpdateResults(p).Found?
    requires if isCommon then w in p.commonWords else w in p.allWords && w !in p.commonWords
    requires Playable(w, SearchTemplate(p.templateRaw, p.multipliers), SearchLetters(p.multipliers, p.mode, p.chosenLetters))
    requires IsLengthFiltered(p.multipliers) ==> |w| == |ActiveIndices(p.multipliers)|
    ensures exists r :: r in UpdateResults(p).matches && r.word == w && r.isCommon == isCommon
  {
    var m := PlayedMatch(p, w);
    var r := Record(m, ScoringMultipliers(p.multipliers), isCommon);
    if isCommon {
      MatchComplete(p, p.commonWords, w);
      CommonMerged(p, m);
    } else {
      MatchComplete(p, p.allWords, w);
      if w in WordSet(MatchesOf(p, p.commonWords)) {
        var o :| o in MatchesOf(p, p.commonWords) && o.word == w;
        MatchSound(p, p.commonWords, o);
      }
      OtherMerged(p, m);
    }
    MergedShown(p, r);
  }
}
