/** What highlighted text reads: exactly when it is the query again after case folding. */
module HighlightedText {
  import opened YamlPaths
  import opened TreeSearch
  import opened TreeSearchMeaning

  /** Every match range reads like the query, up to case. */
  ghost predicate MatchesSpell(ranges: seq<Range>, pattern: Text, lower: Text -> Text) {
    forall r :: 0 <= r < |ranges| && ranges[r].isMatch ==> lower(ranges[r].text) == pattern
  }

  /** The window of the source over which a match at p is drawn folds to the query. */
  predicate WindowSpells(source: Text, p: nat, pattern: Text, lower: Text -> Text) {
    lower(SliceOf(source)(p, p + |pattern|)) == pattern
  }

  ghost predicate PositionsSpell(source: Text, positions: seq<nat>, pattern: Text, lower: Text -> Text) {
    forall k :: 0 <= k < |positions| ==> WindowSpells(source, positions[k], pattern, lower)
  }

  // ----- Each match range is drawn over the window of a position -----

  lemma {:induction false} EveryRangeHasPosition(slice: (nat, nat) -> Text, m: Matches, k: nat, r: nat) returns (j: nat)
    requires k <= |m.positions| && r < |PiecesTo(slice, m, k)| && PiecesTo(slice, m, k)[r].isMatch
    ensures j < k && PiecesTo(slice, m, k)[r].text == slice(m.positions[j], m.positions[j] + m.length)
  {
    j := k - 1;
    if r < |PiecesTo(slice, m, k - 1)| {
      j := EveryRangeHasPosition(slice, m, k - 1, r);
    }
  }

  lemma SpelledRanges(source: Text, pattern: Text, m: Matches, lower: Text -> Text)
    requires m.length == |pattern| && PositionsSpell(source, m.positions, pattern, lower)
    ensures MatchesSpell(Pieces(SliceOf(source), |source|, m), pattern, lower)
  {
    var slice, n := SliceOf(source), |m.positions|;
    var pieces := Pieces(slice, |source|, m);
    forall r | 0 <= r < |pieces| && pieces[r].isMatch ensures lower(pieces[r].text) == pattern {
      assert pieces[r] == PiecesTo(slice, m, n)[r];
      var j := EveryRangeHasPosition(slice, m, n, r);
      assert WindowSpells(source, m.positions[j], pattern, lower);
    }
  }

  lemma SpelledPositions(source: Text, pattern: Text, m: Matches, lower: Text -> Text)
    requires m.length == |pattern| && MatchesSpell(Pieces(SliceOf(source), |source|, m), pattern, lower)
    ensures PositionsSpell(source, m.positions, pattern, lower)
  {
    var slice, n := SliceOf(source), |m.positions|;
    var pieces := Pieces(slice, |source|, m);
    forall k | 0 <= k < n ensures WindowSpells(source, m.positions[k], pattern, lower) {
      var r := EveryPositionHasRange(slice, m, n, k);
      assert pieces[r] == PiecesTo(slice, m, n)[r];
    }
  }

  lemma RangesSpellIff(source: Text, pattern: Text, m: Matches, lower: Text -> Text)
    requires m.length == |pattern|
    ensures MatchesSpell(Pieces(SliceOf(source), |source|, m), pattern, lower) <==>
      PositionsSpell(source, m.positions, pattern, lower)
  {
    if PositionsSpell(source, m.positions, pattern, lower) {
      SpelledRanges(source, pattern, m, lower);
    }
    if MatchesSpell(Pieces(SliceOf(source), |source|, m), pattern, lower) {
      SpelledPositions(source, pattern, m, lower);
    }
  }

  /** For one query: what is highlighted reads like it exactly when every window that is stopped at does. */
  lemma MatchesSpellQueryIff(source: Text, query: Text, trim: Text -> Text, lower: Text -> Text)
    requires Normalized(query, trim, lower) != []
    ensures var pattern := Normalized(query, trim, lower);
      MatchesSpell(RangesOf(source, query, trim, lower), pattern, lower) <==>
      PositionsSpell(source, Positions(lower(source), pattern, 0), pattern, lower)
  {
    var pattern := Normalized(query, trim, lower);
    RangesSpellIff(source, pattern, MatchesIn(lower(source), pattern), lower);
  }

  // ----- All queries at once -----

  ghost predicate IsAsked(pattern: Text, trim: Text -> Text, lower: Text -> Text) {
    exists query :: Normalized(query, trim, lower) == pattern
  }

  /** Searching t for its own window from i to j stops there, because no earlier stop overlaps it. */
  ghost predicate StopsAt(t: Text, i: nat, j: nat)
    requires i < j <= |t|
  {
    i in Positions(t, t[i..j], 0)
  }

  /** Between i and j, folding the source and cutting it may be done in either order. */
  ghost predicate FoldsAlike(source: Text, i: nat, j: nat, lower: Text -> Text)
    requires i < j <= |lower(source)|
  {
    lower(SliceOf(source)(i, j)) == lower(source)[i..j]
  }

  /** What a caller can check of a source before any query is known. */
  ghost predicate CanBeHighlighted(source: Text, trim: Text -> Text, lower: Text -> Text) {
    forall i: nat, j: nat :: i < j <= |lower(source)| && IsAsked(lower(source)[i..j], trim, lower) ==>
      StopsAt(lower(source), i, j) ==> FoldsAlike(source, i, j, lower)
  }

  ghost predicate QuerySpells(source: Text, query: Text, trim: Text -> Text, lower: Text -> Text) {
    var pattern := Normalized(query, trim, lower);
    pattern != [] ==> MatchesSpell(RangesOf(source, query, trim, lower), pattern, lower)
  }

  lemma OccurrenceIsWindow(t: Text, pattern: Text, p: nat)
    requires Occurs(t, pattern, p)
    ensures p + |pattern| <= |t| && t[p..p + |pattern|] == pattern
  {
    assert t[p..][..|pattern|] == t[p..p + |pattern|];
  }

  lemma ApartOccur(positions: seq<nat>, t: Text, pattern: Text, p: nat)
    requires AreApart(positions, t, pattern, 0) && p in positions
    ensures Occurs(t, pattern, p)
  {
    AreApartMeans(positions, t, pattern, 0);
  }

  lemma PositionsOccur(t: Text, pattern: Text, p: nat)
    requires pattern != [] && p in Positions(t, pattern, 0)
    ensures p + |pattern| <= |t| && t[p..p + |pattern|] == pattern
  {
    assert Occurs(t, pattern, p) by {
      MatchesGoForward(t, pattern);
      ApartOccur(Positions(t, pattern, 0), t, pattern, p);
    }
    OccurrenceIsWindow(t, pattern, p);
  }

  lemma MemberSpells(source: Text, positions: seq<nat>, pattern: Text, lower: Text -> Text, p: nat)
    requires PositionsSpell(source, positions, pattern, lower) && p in positions
    ensures WindowSpells(source, p, pattern, lower)
  {
  }

  lemma WindowOfQuery(source: Text, query: Text, i: nat, j: nat, trim: Text -> Text, lower: Text -> Text)
    requires i < j <= |lower(source)| && Normalized(query, trim, lower) == lower(source)[i..j]
    requires QuerySpells(source, query, trim, lower) && StopsAt(lower(source), i, j)
    ensures FoldsAlike(source, i, j, lower)
  {
    var pattern := lower(source)[i..j];
    MatchesSpellQueryIff(source, query, trim, lower);
    MemberSpells(source, Positions(lower(source), pattern, 0), pattern, lower, i);
  }

  lemma PositionSpells(source: Text, query: Text, p: nat, trim: Text -> Text, lower: Text -> Text)
    requires CanBeHighlighted(source, trim, lower) && Normalized(query, trim, lower) != []
    requires p in Positions(lower(source), Normalized(query, trim, lower), 0)
    ensures WindowSpells(source, p, Normalized(query, trim, lower), lower)
  {
    var pattern := Normalized(query, trim, lower);
    PositionsOccur(lower(source), pattern, p);
    assert IsAsked(pattern, trim, lower);
    assert StopsAt(lower(source), p, p + |pattern|);
    assert FoldsAlike(source, p, p + |pattern|, lower);
  }

  lemma QueryOfWindows(source: Text, query: Text, trim: Text -> Text, lower: Text -> Text)
    requires CanBeHighlighted(source, trim, lower)
    ensures QuerySpells(source, query, trim, lower)
  {
    var pattern := Normalized(query, trim, lower);
    if pattern != [] {
      var positions := Positions(lower(source), pattern, 0);
      forall k | 0 <= k < |positions| ensures WindowSpells(source, positions[k], pattern, lower) {
        PositionSpells(source, query, positions[k], trim, lower);
      }
      MatchesSpellQueryIff(source, query, trim, lower);
    }
  }

  /** Every query is spelled by its matches exactly when folding and cutting commute wherever a search stops. */
  lemma EveryQuerySpellsIff(source: Text, trim: Text -> Text, lower: Text -> Text)
    ensures (forall query :: QuerySpells(source, query, trim, lower)) <==> CanBeHighlighted(source, trim, lower)
  {
    if forall query :: QuerySpells(source, query, trim, lower) {
      forall i: nat, j: nat | i < j <= |lower(source)| && IsAsked(lower(source)[i..j], trim, lower) &&
          StopsAt(lower(source), i, j)
        ensures FoldsAlike(source, i, j, lower)
      {
        var query :| Normalized(query, trim, lower) == lower(source)[i..j];
        WindowOfQuery(source, query, i, j, trim, lower);
      }
    }
    if CanBeHighlighted(source, trim, lower) {
      forall query ensures QuerySpells(source, query, trim, lower) {
        QueryOfWindows(source, query, trim, lower);
      }
    }
  }

  // ----- Folding in place -----

  /** Folding keeps the length, and treats every stretch of the source as it would alone. */
  ghost predicate FoldsInPlace(source: Text, lower: Text -> Text) {
    && |lower(source)| == |source|
    && forall i: nat, j: nat :: i <= j <= |source| ==> lower(source[i..j]) == lower(source)[i..j]
  }

  function MapUnits(f: Unit -> Unit, t: Text): Text {
    seq(|t|, k requires 0 <= k < |t| => f(t[k]))
  }

  /** Folding unit by unit is in place on every source. */
  lemma UnitwiseFoldsInPlace(f: Unit -> Unit, source: Text, lower: Text -> Text)
    requires forall t :: lower(t) == MapUnits(f, t)
    ensures FoldsInPlace(source, lower)
  {
    forall i: nat, j: nat | i <= j <= |source| ensures lower(source[i..j]) == lower(source)[i..j] {
      assert MapUnits(f, source[i..j]) == MapUnits(f, source)[i..j];
    }
  }

  /** A window of the source, all of it inside, that folds to the query. */
  predicate SpellsAt(source: Text, p: nat, pattern: Text, lower: Text -> Text) {
    p + |pattern| <= |source| && lower(source[p..p + |pattern|]) == pattern
  }

  /** Windows in order that do not overlap, none before cursor, each of which folds to the query. */
  ghost predicate AreWindows(starts: seq<nat>, source: Text, pattern: Text, lower: Text -> Text, cursor: nat)
    decreases |starts|
  {
    starts != [] ==>
      && cursor <= starts[0] && SpellsAt(source, starts[0], pattern, lower)
      && AreWindows(starts[1..], source, pattern, lower, starts[0] + |pattern|)
  }

  lemma SpellsIffOccurs(source: Text, p: nat, pattern: Text, lower: Text -> Text)
    requires pattern != [] && FoldsInPlace(source, lower)
    ensures SpellsAt(source, p, pattern, lower) <==> Occurs(lower(source), pattern, p)
  {
    var t := lower(source);
    if p + |pattern| <= |t| {
      assert t[p..][..|pattern|] == t[p..p + |pattern|];
    }
  }

  lemma {:induction false} WindowsAreOccurrences(starts: seq<nat>, source: Text, pattern: Text, lower: Text -> Text,
                                                 cursor: nat)
    requires pattern != [] && FoldsInPlace(source, lower)
    ensures AreWindows(starts, source, pattern, lower, cursor) <==> AreApart(starts, lower(source), pattern, cursor)
    decreases |starts|
  {
    if starts != [] {
      SpellsIffOccurs(source, starts[0], pattern, lower);
      WindowsAreOccurrences(starts[1..], source, pattern, lower, starts[0] + |pattern|);
    }
  }

  /** Under folding in place every match reads like the query, wherever and whatever the query. */
  lemma InPlaceSpells(source: Text, query: Text, trim: Text -> Text, lower: Text -> Text)
    requires FoldsInPlace(source, lower)
    ensures QuerySpells(source, query, trim, lower)
  {
    forall i: nat, j: nat | i < j <= |lower(source)| ensures FoldsAlike(source, i, j, lower) {
      assert SliceOf(source)(i, j) == source[i..j];
    }
    QueryOfWindows(source, query, trim, lower);
  }

  /**
   And the matches are a largest choice of non-overlapping windows of the source that fold to the
   query: they are such a choice, and no other has more members.
   */
  lemma InPlaceMatchesAreMost(source: Text, query: Text, trim: Text -> Text, lower: Text -> Text, others: seq<nat>)
    requires FoldsInPlace(source, lower) && Normalized(query, trim, lower) != []
    requires AreWindows(others, source, Normalized(query, trim, lower), lower, 0)
    ensures var pattern := Normalized(query, trim, lower);
      var found := Positions(lower(source), pattern, 0);
      && AreWindows(found, source, pattern, lower, 0)
      && |others| <= |found| == CountMatches(RangesOf(source, query, trim, lower))
  {
    var pattern := Normalized(query, trim, lower);
    MatchesGoForward(lower(source), pattern);
    WindowsAreOccurrences(Positions(lower(source), pattern, 0), source, pattern, lower, 0);
    WindowsAreOccurrences(others, source, pattern, lower, 0);
    MatchesAreMost(source, query, trim, lower, others);
    RangesCount(source, query, trim, lower);
  }

  // ----- Foldings that are not in place -----

  lemma OnePosition(t: Text, pattern: Text, p: nat)
    requires |pattern| == 1 && p < |t| && forall i :: 0 <= i < |t| ==> (t[i] == pattern[0] <==> i == p)
    ensures Positions(t, pattern, 0) == [p]
  {
    var m := FoundMatches(t, pattern);
    assert pattern <= t[p..] && Occurs(t, pattern, p);
    MatchesGoForward(t, pattern);
    forall k | 0 <= k < |m.positions| ensures m.positions[k] == p {
      OccurrenceBegins(t, pattern, m.positions[k]);
    }
    EveryOccurrenceIsTouched(m.positions, t, pattern, 0, p);
    AreApartMeans(m.positions, t, pattern, 0);
  }

  /**
   Folding U+0130 to two units moves what follows: in that letter, a, b the query a is highlighted
   in full and inside the source, over b.
   */
  lemma ShiftedMatch(trim: Text -> Text, lower: Text -> Text)
    requires trim([0x61]) == [0x61] && lower([0x61]) == [0x61] && lower([0x62]) == [0x62]
    requires lower([0x130, 0x61, 0x62]) == [0x69, 0x307, 0x61, 0x62]
    ensures RangesOf([0x130, 0x61, 0x62], [0x61], trim, lower) == [Range([0x130, 0x61], false), Range([0x62], true)]
    ensures InBounds(MatchesIn(lower([0x130, 0x61, 0x62]), [0x61]), 3)
    ensures !QuerySpells([0x130, 0x61, 0x62], [0x61], trim, lower)
  {
    var source: Text, t: Text, pattern: Text := [0x130, 0x61, 0x62], [0x69, 0x307, 0x61, 0x62], [0x61];
    OnePosition(t, pattern, 2);
    OneMatch(source, 2);
    assert source[..2] == [0x130, 0x61] && source[2..3] == [0x62];
    var ranges := RangesOf(source, pattern, trim, lower);
    assert ranges[1].isMatch && lower(ranges[1].text) != pattern;
  }

  lemma OneMatch(source: Text, p: nat)
    requires 0 < p < |source|
    ensures Pieces(SliceOf(source), |source|, Matches([p], 1)) ==
      [Range(source[..p], false), Range(source[p..p + 1], true)]
      + if p + 1 < |source| then [Range(source[p + 1..], false)] else []
  {
    var slice, m := SliceOf(source), Matches([p], 1);
    var before := PieceUnfold(slice, m, 0);
    assert PiecesTo(slice, m, 0) == [];
    assert slice(0, p) == source[..p] && slice(p, p + 1) == source[p..p + 1];
    assert slice(p + 1, |source|) == source[p + 1..];
  }

  /**
   Keeping the length is not enough. A capital sigma at the end of a word folds to the final form
   and alone to the other: the query for the final form highlights a letter that folds to the
   other, and the query for the capital highlights nothing, although a window folds to it.
   */
  lemma FinalSigma(trim: Text -> Text, lower: Text -> Text)
    requires trim([0x3C2]) == [0x3C2] && lower([0x3C2]) == [0x3C2]
    requires trim([0x3A3]) == [0x3A3] && lower([0x3A3]) == [0x3C3]
    requires lower([0x391, 0x3A3]) == [0x3B1, 0x3C2]
    ensures RangesOf([0x391, 0x3A3], [0x3C2], trim, lower) == [Range([0x391], false), Range([0x3A3], true)]
    ensures !QuerySpells([0x391, 0x3A3], [0x3C2], trim, lower)
    ensures AreWindows([1], [0x391, 0x3A3], [0x3C3], lower, 0)
    ensures CountMatches(RangesOf([0x391, 0x3A3], [0x3A3], trim, lower)) == 0
  {
    var source: Text, t: Text := [0x391, 0x3A3], [0x3B1, 0x3C2];
    OnePosition(t, [0x3C2], 1);
    OneMatch(source, 1);
    assert source[..1] == [0x391] && source[1..2] == [0x3A3];
    var ranges := RangesOf(source, [0x3C2], trim, lower);
    assert ranges[1].isMatch && lower(ranges[1].text) != [0x3C2];
    IndexOfMeans(t, [0x3C3], 0);
    if IndexOf(t, [0x3C3], 0) >= 0 {
      OccurrenceBegins(t, [0x3C3], IndexOf(t, [0x3C3], 0));
    }
    RangesCount(source, [0x3A3], trim, lower);
  }
}
