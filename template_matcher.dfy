/**
 * Placing a word on the five-cell row against a template of blank and
 * fixed cells (anagramFinder.js, `matchesAtPosition`, `getValidPositions`
 * and `matchesTemplate`).
 */
module TemplateMatcher {

  /** One template cell: blank, or a fixed letter typed by the player. */
  datatype Cell = Empty | Letter(c: char)

  /** The row width that the length checks of the matcher hard-code. */
  const RowWidth: nat := 5

  function Max(a: int, b: int): int { if a >= b then a else b }
  function Min(a: int, b: int): int { if a <= b then a else b }

  /** Some cell of the template holds a letter (`template.some(letter => letter !== '')`). */
  predicate HasFixed(template: seq<Cell>)
  {
    exists i :: 0 <= i < |template| && template[i].Letter?
  }

  /**
   * The test `template[i] !== '' && word[j] !== template[i]`: cell `i` is
   * fixed and the word does not carry that letter at index `j`.  A read past
   * either end of an array or a string yields `undefined`, which differs from
   * '' and from every letter, but equals another `undefined`.
   */
  predicate Conflicts(word: string, j: int, template: seq<Cell>, i: int)
  {
    if 0 <= i < |template| then
      template[i].Letter? && !(0 <= j < |word| && word[j] == template[i].c)
    else
      0 <= j < |word|
  }

  /** Cell `i` agrees with the word when the word's letter `startPos` is lined up with cell `first`. */
  predicate AgreesAt(word: string, template: seq<Cell>, startPos: int, first: int, i: int)
  {
    !Conflicts(word, startPos + (i - first), template, i)
  }

  /** Every cell from `first` to `last` agrees with the word lined up at `startPos`. */
  predicate MatchesAt(word: string, template: seq<Cell>, startPos: int, first: int, last: int)
  {
    forall i :: first <= i <= last ==> AgreesAt(word, template, startPos, first, i)
  }

  /** A five-letter word agrees with every one of the first five cells. */
  predicate FitsWholeRow(word: string, template: seq<Cell>)
  {
    forall i :: 0 <= i < RowWidth ==> !Conflicts(word, i, template, i)
  }

  /**
   * The word can really be laid on the row with its first letter on cell
   * `g`: it stays inside the row, it covers every fixed cell, and it carries
   * the fixed letter of every cell it covers.
   */
  predicate FitsAt(word: string, template: seq<Cell>, g: int)
  {
    && 0 <= g && g + |word| <= |template|
    && forall i :: 0 <= i < |template| && template[i].Letter? ==>
         g <= i < g + |word| && word[i - g] == template[i].c
  }

  /** `template.findIndex(letter => letter !== '')`. */
  function FirstFixed(template: seq<Cell>): (r: nat)
    requires HasFixed(template)
    ensures r < |template| && template[r].Letter?
    ensures forall i :: 0 <= i < r ==> template[i].Empty?
  {
    if template[0].Letter? then 0
    else
      assert HasFixed(template[1..]) by {
        var i :| 0 <= i < |template| && template[i].Letter?;
        assert template[1..][i - 1] == template[i];
      }
      1 + FirstFixed(template[1..])
  }

  /** `template.findLastIndex(letter => letter !== '')`. */
  function LastFixed(template: seq<Cell>): (r: nat)
    requires HasFixed(template)
    ensures r < |template| && template[r].Letter?
    ensures forall i :: r < i < |template| ==> template[i].Empty?
  {
    var n := |template| - 1;
    if template[n].Letter? then n
    else
      assert HasFixed(template[..n]) by {
        var i :| 0 <= i < |template| && template[i].Letter?;
        assert template[..n][i] == template[i];
      }
      LastFixed(template[..n])
  }

  /** The lowest word offset tried (anagramFinder.js:42); it uses the template's real length. */
  function MinStart(word: string, template: seq<Cell>, first: int): int
  {
    Max(0, |word| - (|template| - first))
  }

  /** The highest word offset tried (anagramFinder.js:41, 43). */
  function MaxStart(word: string, first: int, last: int): int
  {
    Min(first, |word| - (last - first + 1))
  }

  /** The offsets from `lo` to `hi`, in ascending order, at which the fixed span matches. */
  function Scan(word: string, template: seq<Cell>, lo: int, hi: int, first: int, last: int): seq<int>
    decreases hi - lo
  {
    if lo > hi then []
    else (if MatchesAt(word, template, lo, first, last) then [lo] else [])
         + Scan(word, template, lo + 1, hi, first, last)
  }

  /**
   * The numbers `getValidPositions` returns.  In the fixed-letter branch a
   * number is the index IN THE WORD that lines up with the first fixed cell,
   * not a cell of the row; the other two branches return cells of the row.
   */
  function ValidPositions(word: string, template: seq<Cell>): seq<int>
  {
    if |word| < 3 || |word| > 5 then []
    else if |word| == RowWidth then
      if FitsWholeRow(word, template) then [0] else []
    else if !HasFixed(template) then seq(RowWidth - |word| + 1, p => p)
    else FixedScan(word, template)
  }

  /** The fixed-letter branch: scan the offsets between the two bounds. */
  function FixedScan(word: string, template: seq<Cell>): seq<int>
    requires HasFixed(template)
  {
    var first := FirstFixed(template);
    var last := LastFixed(template);
    Scan(word, template, MinStart(word, template, first), MaxStart(word, first, last), first, last)
  }

  /** `matchesTemplate`: the word has at least one position. */
  function MatchesTemplate(word: string, template: seq<Cell>): bool
  {
    |ValidPositions(word, template)| > 0
  }

  /** The loop of `matchesAtPosition`, which stops at the first conflicting cell. */
  method MatchesAtPosition(word: string, template: seq<Cell>, startPos: int, firstNonEmpty: int, lastNonEmpty: int)
    returns (ok: bool)
    ensures ok == MatchesAt(word, template, startPos, firstNonEmpty, lastNonEmpty)
  {
    var i := firstNonEmpty;
    while i <= lastNonEmpty
      invariant firstNonEmpty <= i
      invariant forall k :: firstNonEmpty <= k < i ==> AgreesAt(word, template, startPos, firstNonEmpty, k)
      decreases lastNonEmpty - i
    {
      var wordPos := startPos + (i - firstNonEmpty);
      if Conflicts(word, wordPos, template, i) {
        assert !AgreesAt(word, template, startPos, firstNonEmpty, i);
        return false;
      }
      i := i + 1;
    }
    return true;
  }

  /** The loops of `getValidPositions`, one branch per case of the source. */
  method GetValidPositions(word: string, template: seq<Cell>) returns (positions: seq<int>)
    ensures positions == ValidPositions(word, template)
  {
    positions := [];
    if |word| < 3 || |word| > 5 {
      return;
    }
    if |word| == 5 {
      assert ValidPositions(word, template) == if FitsWholeRow(word, template) then [0] else [];
      var matches := true;
      var i := 0;
      while i < |word|
        invariant 0 <= i <= |word|
        invariant matches
        invariant forall k :: 0 <= k < i ==> !Conflicts(word, k, template, k)
      {
        if Conflicts(word, i, template, i) {
          matches := false;
          break;
        }
        i := i + 1;
      }
      assert matches == FitsWholeRow(word, template);
      if matches {
        positions := positions + [0];
      }
      return;
    }
    if !HasFixed(template) {
      assert ValidPositions(word, template) == seq(RowWidth - |word| + 1, p => p);
      var startPos := 0;
      while startPos <= RowWidth - |word|
        invariant 0 <= startPos <= RowWidth - |word| + 1
        invariant positions == seq(startPos, p => p)
      {
        positions := positions + [startPos];
        startPos := startPos + 1;
      }
      return;
    }
    assert ValidPositions(word, template) == FixedScan(word, template);
    var firstNonEmpty := FirstFixed(template);
    var lastNonEmpty := LastFixed(template);
    var minStartPos := MinStart(word, template, firstNonEmpty);
    var maxStartPos := MaxStart(word, firstNonEmpty, lastNonEmpty);
    positions := ScanWindow(word, template, minStartPos, maxStartPos, firstNonEmpty, lastNonEmpty);
  }

  /** The closing loop of `getValidPositions`: try each offset from `minStartPos` to `maxStartPos`. */
  method ScanWindow(word: string, template: seq<Cell>, minStartPos: int, maxStartPos: int,
                    firstNonEmpty: int, lastNonEmpty: int) returns (positions: seq<int>)
    ensures positions == Scan(word, template, minStartPos, maxStartPos, firstNonEmpty, lastNonEmpty)
  {
    positions := [];
    var startPos := minStartPos;
    while startPos <= maxStartPos
      invariant positions + Scan(word, template, startPos, maxStartPos, firstNonEmpty, lastNonEmpty)
                == Scan(word, template, minStartPos, maxStartPos, firstNonEmpty, lastNonEmpty)
      decreases maxStartPos - startPos
    {
      var ok := MatchesAtPosition(word, template, startPos, firstNonEmpty, lastNonEmpty);
      ghost var rest := Scan(word, template, startPos + 1, maxStartPos, firstNonEmpty, lastNonEmpty);
      if ok {
        assert positions + ([startPos] + rest) == (positions + [startPos]) + rest;
        positions := positions + [startPos];
      } else {
        assert positions + ([] + rest) == positions + rest;
      }
      startPos := startPos + 1;
    }
  }

  /** `Scan` lists, in strictly ascending order, exactly the offsets in `[lo, hi]` that match. */
  lemma {:induction false} ScanExactly(word: string, template: seq<Cell>, lo: int, hi: int, first: int, last: int)
    ensures forall k :: 0 <= k < |Scan(word, template, lo, hi, first, last)| ==>
              lo <= Scan(word, template, lo, hi, first, last)[k] <= hi
    ensures forall j, k :: 0 <= j < k < |Scan(word, template, lo, hi, first, last)| ==>
              Scan(word, template, lo, hi, first, last)[j] < Scan(word, template, lo, hi, first, last)[k]
    ensures forall p :: p in Scan(word, template, lo, hi, first, last) <==>
              lo <= p <= hi && MatchesAt(word, template, p, first, last)
    decreases hi - lo
  {
    if lo <= hi {
      ScanExactly(word, template, lo + 1, hi, first, last);
    }
  }

  /** Every position list is strictly ascending and made of non-negative numbers. */
  lemma PositionsAscending(word: string, template: seq<Cell>)
    ensures forall k :: 0 <= k < |ValidPositions(word, template)| ==> ValidPositions(word, template)[k] >= 0
    ensures forall j, k :: 0 <= j < k < |ValidPositions(word, template)| ==>
              ValidPositions(word, template)[j] < ValidPositions(word, template)[k]
  {
    if 3 <= |word| <= 4 && HasFixed(template) {
      var first, last := FirstFixed(template), LastFixed(template);
      ScanExactly(word, template, MinStart(word, template, first), MaxStart(word, first, last), first, last);
    }
  }

  /** Words shorter than three or longer than five letters get no position. */
  lemma OutOfRangeLengthHasNoPositions(word: string, template: seq<Cell>)
    requires |word| < 3 || |word| > 5
    ensures ValidPositions(word, template) == []
  {
  }

  /** A five-letter word gets `[0]` exactly when it carries every fixed letter of a five-cell template. */
  lemma FiveLetterWordIsCheckedCellByCell(word: string, template: seq<Cell>)
    requires |word| == 5 && |template| == 5
    ensures ValidPositions(word, template) ==
              if forall i :: 0 <= i < 5 && template[i].Letter? ==> word[i] == template[i].c then [0] else []
  {
    if forall i :: 0 <= i < 5 && template[i].Letter? ==> word[i] == template[i].c {
      assert FitsWholeRow(word, template);
    } else {
      var i :| 0 <= i < 5 && template[i].Letter? && word[i] != template[i].c;
      assert Conflicts(word, i, template, i);
    }
  }

  /** Because of the literal 5, a five-letter word never fits a template shorter than five cells. */
  lemma FiveLetterWordNeverFitsShortTemplate(word: string, template: seq<Cell>)
    requires |word| == 5 && |template| < 5
    ensures ValidPositions(word, template) == []
  {
    assert Conflicts(word, 4, template, 4);
  }

  /** With no fixed letter, a three- or four-letter word may start on any cell `0 .. 5 - |word|`. */
  lemma BlankTemplateSlides(word: string, template: seq<Cell>)
    requires 3 <= |word| <= 4 && !HasFixed(template)
    ensures |ValidPositions(word, template)| == 6 - |word|
    ensures forall k :: 0 <= k < 6 - |word| ==> ValidPositions(word, template)[k] == k
  {
  }

  /** With fixed letters, three- and four-letter words go through the window scan. */
  lemma FixedBranch(word: string, template: seq<Cell>)
    requires 3 <= |word| <= 4 && HasFixed(template)
    ensures ValidPositions(word, template) == FixedScan(word, template)
  {
  }

  /** The fixed span agrees at offset `p` exactly when every fixed cell of it carries the word's letter. */
  lemma MatchesAtFixedCells(word: string, template: seq<Cell>, p: int, first: int, last: int)
    requires 0 <= first && last < |template|
    ensures MatchesAt(word, template, p, first, last) <==>
      forall i :: first <= i <= last && template[i].Letter? ==>
        0 <= p + i - first < |word| && word[p + i - first] == template[i].c
  {
    if MatchesAt(word, template, p, first, last) {
      forall i | first <= i <= last && template[i].Letter?
        ensures 0 <= p + i - first < |word| && word[p + i - first] == template[i].c
      {
        assert AgreesAt(word, template, p, first, i);
      }
    }
  }

  /**
   * Offset `p` lies between the two scan bounds and lines the word up so that
   * `word[p + i - first]` is the letter of every fixed cell `i`.
   */
  predicate InWindow(word: string, template: seq<Cell>, p: int)
    requires HasFixed(template)
  {
    var first, last := FirstFixed(template), LastFixed(template);
    && MinStart(word, template, first) <= p <= MaxStart(word, first, last)
    && forall i :: first <= i <= last && template[i].Letter? ==>
         0 <= p + i - first < |word| && word[p + i - first] == template[i].c
  }

  /** With fixed letters, `p` is returned exactly when it lies in the scan window and matches there. */
  lemma FixedLettersWindow(word: string, template: seq<Cell>, p: int)
    requires 3 <= |word| <= 4 && HasFixed(template)
    ensures p in ValidPositions(word, template) <==> InWindow(word, template, p)
  {
    var first, last := FirstFixed(template), LastFixed(template);
    FixedBranch(word, template);
    ScanExactly(word, template, MinStart(word, template, first), MaxStart(word, first, last), first, last);
    MatchesAtFixedCells(word, template, p, first, last);
  }

  /** A word offset in the window puts the word on the row at `FirstFixed(template) - p`. */
  lemma WindowGivesFit(word: string, template: seq<Cell>, p: int)
    requires HasFixed(template) && InWindow(word, template, p)
    ensures FitsAt(word, template, FirstFixed(template) - p)
  {
    var first, last := FirstFixed(template), LastFixed(template);
    var g := first - p;
    forall i | 0 <= i < |template| && template[i].Letter?
      ensures g <= i < g + |word| && word[i - g] == template[i].c
    {
      assert first <= i <= last;
      assert p + i - first == i - g;
    }
  }

  /** A fit of the word on cell `g` puts the offset `FirstFixed(template) - g` in the window. */
  lemma FitGivesWindow(word: string, template: seq<Cell>, g: int)
    requires HasFixed(template) && FitsAt(word, template, g)
    ensures InWindow(word, template, FirstFixed(template) - g)
  {
    var first, last := FirstFixed(template), LastFixed(template);
    var p := first - g;
    assert g <= first < g + |word|;
    assert g <= last < g + |word|;
    forall i | first <= i <= last && template[i].Letter?
      ensures 0 <= p + i - first < |word| && word[p + i - first] == template[i].c
    {
      assert p + i - first == i - g;
    }
  }

  /**
   * In the fixed-letter branch, `p` is returned exactly when the word really
   * fits the row with its first letter on cell `FirstFixed(template) - p`.
   */
  lemma FixedPositionsAreWordOffsets(word: string, template: seq<Cell>, p: int)
    requires 3 <= |word| <= 4 && HasFixed(template)
    ensures p in ValidPositions(word, template) <==> FitsAt(word, template, FirstFixed(template) - p)
  {
    FixedLettersWindow(word, template, p);
    WindowIffFit(word, template, p);
  }

  /** Offset `p` lies in the window exactly when the word fits on cell `FirstFixed(template) - p`. */
  lemma WindowIffFit(word: string, template: seq<Cell>, p: int)
    requires HasFixed(template)
    ensures InWindow(word, template, p) <==> FitsAt(word, template, FirstFixed(template) - p)
  {
    if InWindow(word, template, p) {
      WindowGivesFit(word, template, p);
    }
    var g := FirstFixed(template) - p;
    if FitsAt(word, template, g) {
      FitGivesWindow(word, template, g);
      assert FirstFixed(template) - g == p;
    }
  }

  /** With no fixed letter and a five-cell template, `p` is returned exactly when the word fits on cell `p`. */
  lemma SlidingPositionsAreGridStarts(word: string, template: seq<Cell>, p: int)
    requires 3 <= |word| <= 4 && !HasFixed(template) && |template| == 5
    ensures p in ValidPositions(word, template) <==> FitsAt(word, template, p)
  {
    if 0 <= p <= 5 - |word| {
      assert ValidPositions(word, template)[p] == p;
    }
  }

  /** A five-letter word on a five-cell template can only start on cell 0, and does when it fits there. */
  lemma FiveLetterPositionIsGridStart(word: string, template: seq<Cell>, p: int)
    requires |word| == 5 && |template| == 5
    ensures p in ValidPositions(word, template) <==> p == 0 && FitsAt(word, template, 0)
  {
    if FitsWholeRow(word, template) {
      forall i | 0 <= i < 5 && template[i].Letter?
        ensures word[i] == template[i].c
      {
        assert !Conflicts(word, i, template, i);
      }
    }
    if FitsAt(word, template, 0) {
      forall i | 0 <= i < 5
        ensures !Conflicts(word, i, template, i)
      {
      }
    }
  }

  /** On a five-cell template, every position returned lays the word on the row somewhere. */
  lemma PositionGivesFit(word: string, template: seq<Cell>, p: int)
    requires |template| == 5 && p in ValidPositions(word, template)
    ensures exists g :: FitsAt(word, template, g)
  {
    if |word| < 3 || |word| > 5 {
      OutOfRangeLengthHasNoPositions(word, template);
      assert false;
    }
    if |word| == 5 {
      FiveLetterPositionIsGridStart(word, template, p);
      assert FitsAt(word, template, 0);
    } else if HasFixed(template) {
      FixedPositionsAreWordOffsets(word, template, p);
    } else {
      SlidingPositionsAreGridStarts(word, template, p);
      assert FitsAt(word, template, p);
    }
  }

  /** On a five-cell template, a word of three to five letters that fits somewhere gets a position. */
  lemma FitGivesPosition(word: string, template: seq<Cell>, g: int)
    requires |template| == 5 && 3 <= |word| <= 5 && FitsAt(word, template, g)
    ensures ValidPositions(word, template) != []
  {
    var p := g;
    if |word| == 5 {
      assert g == 0;
      FiveLetterPositionIsGridStart(word, template, 0);
    } else if HasFixed(template) {
      p := FirstFixed(template) - g;
      assert FirstFixed(template) - p == g;
      FixedPositionsAreWordOffsets(word, template, p);
    } else {
      SlidingPositionsAreGridStarts(word, template, g);
    }
    assert p in ValidPositions(word, template);
  }

  /** On a five-cell template, `matchesTemplate` holds exactly when the word can be laid on the row somewhere. */
  lemma MatchesTemplateIffPlaceable(word: string, template: seq<Cell>)
    requires |template| == 5
    ensures MatchesTemplate(word, template) <==> 3 <= |word| <= 5 && exists g :: FitsAt(word, template, g)
  {
    if |word| < 3 || |word| > 5 {
      OutOfRangeLengthHasNoPositions(word, template);
    }
    var r := ValidPositions(word, template);
    if |r| > 0 {
      assert r[0] in r;
      PositionGivesFit(word, template, r[0]);
    }
    if 3 <= |word| <= 5 && exists g :: FitsAt(word, template, g) {
      var g :| FitsAt(word, template, g);
      FitGivesPosition(word, template, g);
    }
  }

  /**
   * The fixed-letter branch returns a word offset: "cab" against a template
   * whose only fixed cell is a `c` on cell 1 gets `[0]`, although the word
   * fits the row on cell 1 and not on cell 0.
   */
  lemma WordOffsetIsNotGridStart()
    ensures ValidPositions("cab", [Empty, Letter('c'), Empty, Empty, Empty]) == [0]
    ensures FitsAt("cab", [Empty, Letter('c'), Empty, Empty, Empty], 1)
    ensures !FitsAt("cab", [Empty, Letter('c'), Empty, Empty, Empty], 0)
  {
    var t := [Empty, Letter('c'), Empty, Empty, Empty];
    assert t[1].Letter?;
    assert FirstFixed(t) == 1 && LastFixed(t) == 1;
    assert MatchesAt("cab", t, 0, 1, 1);
    assert !MatchesAt("cab", t, 1, 1, 1) by { assert !AgreesAt("cab", t, 1, 1, 1); }
    assert !FitsAt("cab", t, 0) by { assert t[1].Letter?; }
  }

  /**
   * The literal 5 of the sliding branch: on a four-cell template with no
   * fixed letter, a four-letter word gets positions 0 and 1, though only
   * cell 0 lies on that row.
   */
  lemma SlidingIgnoresTemplateLength()
    ensures ValidPositions("gods", [Empty, Empty, Empty, Empty]) == [0, 1]
    ensures FitsAt("gods", [Empty, Empty, Empty, Empty], 0)
    ensures !FitsAt("gods", [Empty, Empty, Empty, Empty], 1)
  {
    var t := [Empty, Empty, Empty, Empty];
    assert !HasFixed(t);
  }
}
