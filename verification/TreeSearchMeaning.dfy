/** What highlighting guarantees: the source is spelled out, matches are occurrences and as many as possible. */
module TreeSearchMeaning {
  import opened YamlPaths
  import opened TreeIndex
  import opened TreeSearch

  // ----- The ranges spell out the source -----

  /** The text of the first k ranges. */
  function JoinedTo(ranges: seq<Range>, k: nat): Text
    requires k <= |ranges|
  {
    if k == 0 then [] else JoinedTo(ranges, k - 1) + ranges[k - 1].text
  }

  lemma {:induction false} JoinedPrefix(a: seq<Range>, b: seq<Range>, k: nat)
    requires k <= |a|
    ensures JoinedTo(a + b, k) == JoinedTo(a, k)
  {
    if k > 0 {
      JoinedPrefix(a, b, k - 1);
    }
  }

  lemma JoinedAppend(ranges: seq<Range>, r: Range)
    ensures JoinedTo(ranges + [r], |ranges| + 1) == JoinedTo(ranges, |ranges|) + r.text
    ensures JoinedTo(ranges + [r], |ranges|) == JoinedTo(ranges, |ranges|)
  {
    JoinedPrefix(ranges, [r], |ranges|);
  }

  ghost predicate GoForward(m: Matches) {
    forall k :: 0 <= k < |m.positions| ==> CursorAt(m, k) <= m.positions[k]
  }

  ghost predicate MeetAt(slice: (nat, nat) -> Text, a: nat, b: nat, c: nat) {
    slice(a, b) + slice(b, c) == slice(a, c)
  }

  /** Slices that meet make one slice. */
  ghost predicate Meets(slice: (nat, nat) -> Text) {
    slice(0, 0) == [] && forall a: nat, b: nat, c: nat :: a <= b <= c ==> MeetAt(slice, a, b, c)
  }

  lemma SlicesMeet(t: Text)
    ensures Meets(SliceOf(t))
  {
  }

  /** done spells out everything before an index. */
  ghost predicate Spells(done: seq<Range>, slice: (nat, nat) -> Text, to: nat) {
    JoinedTo(done, |done|) == slice(0, to)
  }

  lemma SpellsMore(done: seq<Range>, slice: (nat, nat) -> Text, from: nat, to: nat, isMatch: bool)
    requires Meets(slice) && Spells(done, slice, from) && from <= to
    ensures Spells(done + [Range(slice(from, to), isMatch)], slice, to)
  {
    JoinedAppend(done, Range(slice(from, to), isMatch));
    assert MeetAt(slice, 0, from, to);
  }

  lemma SpellsGap(done: seq<Range>, slice: (nat, nat) -> Text, from: nat, to: nat)
    requires Meets(slice) && Spells(done, slice, from) && from <= to
    ensures Spells(done + Gap(slice, from, to), slice, to)
  {
    if from < to {
      SpellsMore(done, slice, from, to, false);
    } else {
      assert done + [] == done;
    }
  }

  /** The ranges through match k spell out everything to its end, and those before it everything to its beginning. */
  lemma {:induction false} PiecesSpell(slice: (nat, nat) -> Text, m: Matches, k: nat)
    requires Meets(slice) && GoForward(m) && k <= |m.positions|
    ensures Spells(PiecesTo(slice, m, k), slice, CursorAt(m, k))
  {
    if k > 0 {
      PiecesSpell(slice, m, k - 1);
      SpellsGap(PiecesTo(slice, m, k - 1), slice, CursorAt(m, k - 1), m.positions[k - 1]);
      var before := PieceUnfold(slice, m, k - 1);
      SpellsMore(before, slice, m.positions[k - 1], CursorAt(m, k), true);
    }
  }

  lemma PiecesJoined(source: Text, m: Matches)
    requires GoForward(m)
    ensures Spells(Pieces(SliceOf(source), |source|, m), SliceOf(source), |source|)
  {
    var slice, cursor, done := SliceOf(source), CursorAt(m, |m.positions|), PiecesTo(SliceOf(source), m, |m.positions|);
    SlicesMeet(source);
    PiecesSpell(slice, m, |m.positions|);
    if cursor <= |source| {
      SpellsGap(done, slice, cursor, |source|);
    } else {
      assert done + [] == done;
    }
  }

  function MatchesIn(t: Text, pattern: Text): Matches
    requires pattern != []
  {
    Matches(Positions(t, pattern, 0), |pattern|)
  }

  lemma MatchesGoForward(t: Text, pattern: Text)
    requires pattern != []
    ensures GoForward(MatchesIn(t, pattern))
    ensures IsLeftmost(Positions(t, pattern, 0), t, pattern, 0) && AreApart(Positions(t, pattern, 0), t, pattern, 0)
  {
    var positions := Positions(t, pattern, 0);
    PositionsAreLeftmost(t, pattern, 0);
    LeftmostIsApart(positions, t, pattern, 0);
    AreApartMeans(positions, t, pattern, 0);
  }

  /** Whatever case folding does to lengths, the ranges always spell out the source. */
  lemma RangesSpellSource(source: Text, query: Text, trim: Text -> Text, lower: Text -> Text)
    ensures var ranges := RangesOf(source, query, trim, lower); JoinedTo(ranges, |ranges|) == source
  {
    var pattern := Normalized(query, trim, lower);
    JoinedAppend([], Range(source, false));
    assert [] + [Range(source, false)] == [Range(source, false)] && [] + source == source;
    if pattern != [] {
      MatchesGoForward(lower(source), pattern);
      PiecesJoined(source, MatchesIn(lower(source), pattern));
      assert SliceOf(source)(0, |source|) == source;
    }
  }

  // ----- The matches -----

  /** Every match range stands right after everything before one of the positions, and is the slice there. */
  ghost predicate MatchesFit(ranges: seq<Range>, slice: (nat, nat) -> Text, m: Matches) {
    forall r :: 0 <= r < |ranges| && ranges[r].isMatch ==> MatchFits(ranges[r], |JoinedTo(ranges, r)|, slice, m)
  }

  ghost predicate MatchFits(x: Range, at: nat, slice: (nat, nat) -> Text, m: Matches) {
    at in m.positions && x.text == slice(at, at + m.length)
  }

  lemma FitsMore(done: seq<Range>, x: Range, slice: (nat, nat) -> Text, m: Matches)
    requires MatchesFit(done, slice, m)
    requires x.isMatch ==> MatchFits(x, |JoinedTo(done, |done|)|, slice, m)
    ensures MatchesFit(done + [x], slice, m)
  {
    var ranges := done + [x];
    forall r | 0 <= r < |ranges| && ranges[r].isMatch ensures MatchFits(ranges[r], |JoinedTo(ranges, r)|, slice, m) {
      JoinedPrefix(done, [x], r);
      assert r < |done| ==> MatchFits(done[r], |JoinedTo(done, r)|, slice, m);
    }
  }

  lemma FitsGap(done: seq<Range>, slice: (nat, nat) -> Text, m: Matches, from: nat, to: nat)
    requires MatchesFit(done, slice, m)
    ensures MatchesFit(done + Gap(slice, from, to), slice, m)
  {
    if from < to {
      FitsMore(done, Range(slice(from, to), false), slice, m);
    } else {
      assert done + [] == done;
    }
  }

  /** No position lies beyond the end of the text. */
  ghost predicate InRange(slice: (nat, nat) -> Text, m: Matches) {
    forall k :: 0 <= k < |m.positions| ==> |slice(0, m.positions[k])| == m.positions[k]
  }

  lemma RegroupRanges(a: seq<Range>, b: seq<Range>, c: seq<Range>)
    ensures a + (b + c) == (a + b) + c
  {
  }

  lemma FitsMatch(before: seq<Range>, slice: (nat, nat) -> Text, m: Matches, k: nat) returns (ranges: seq<Range>)
    requires InRange(slice, m) && k < |m.positions|
    requires MatchesFit(before, slice, m) && Spells(before, slice, m.positions[k])
    ensures ranges == before + [Range(slice(m.positions[k], m.positions[k] + m.length), true)]
    ensures MatchesFit(ranges, slice, m)
  {
    ranges := before + [Range(slice(m.positions[k], m.positions[k] + m.length), true)];
    assert |JoinedTo(before, |before|)| == m.positions[k];
    FitsMore(before, Range(slice(m.positions[k], m.positions[k] + m.length), true), slice, m);
  }

  lemma BeforeMatch(done: seq<Range>, slice: (nat, nat) -> Text, m: Matches, k: nat) returns (before: seq<Range>)
    requires Meets(slice) && GoForward(m) && k < |m.positions|
    requires MatchesFit(done, slice, m) && Spells(done, slice, CursorAt(m, k))
    ensures before == done + Gap(slice, CursorAt(m, k), m.positions[k])
    ensures MatchesFit(before, slice, m) && Spells(before, slice, m.positions[k])
  {
    before := done + Gap(slice, CursorAt(m, k), m.positions[k]);
    FitsGap(done, slice, m, CursorAt(m, k), m.positions[k]);
    SpellsGap(done, slice, CursorAt(m, k), m.positions[k]);
  }

  lemma PieceRegroups(done: seq<Range>, slice: (nat, nat) -> Text, m: Matches, k: nat)
    requires k < |m.positions|
    ensures done + PieceAt(slice, m, k) == done + Gap(slice, CursorAt(m, k), m.positions[k])
      + [Range(slice(m.positions[k], m.positions[k] + m.length), true)]
  {
    RegroupRanges(done, Gap(slice, CursorAt(m, k), m.positions[k]),
                  [Range(slice(m.positions[k], m.positions[k] + m.length), true)]);
  }

  lemma FitsPiece(done: seq<Range>, slice: (nat, nat) -> Text, m: Matches, k: nat) returns (ranges: seq<Range>)
    requires Meets(slice) && GoForward(m) && InRange(slice, m) && k < |m.positions|
    requires MatchesFit(done, slice, m) && Spells(done, slice, CursorAt(m, k))
    ensures ranges == done + PieceAt(slice, m, k) && MatchesFit(ranges, slice, m)
  {
    var before := BeforeMatch(done, slice, m, k);
    PieceRegroups(done, slice, m, k);
    ranges := FitsMatch(before, slice, m, k);
  }

  lemma FitsNext(slice: (nat, nat) -> Text, m: Matches, k: nat)
    requires Meets(slice) && GoForward(m) && InRange(slice, m) && k < |m.positions|
    requires MatchesFit(PiecesTo(slice, m, k), slice, m)
    ensures MatchesFit(PiecesTo(slice, m, k + 1), slice, m)
  {
    PiecesSpell(slice, m, k);
    var ranges := FitsPiece(PiecesTo(slice, m, k), slice, m, k);
    assert PiecesTo(slice, m, k + 1) == ranges;
  }

  lemma {:induction false} PiecesFit(slice: (nat, nat) -> Text, m: Matches, k: nat)
    requires Meets(slice) && GoForward(m) && InRange(slice, m) && k <= |m.positions|
    ensures MatchesFit(PiecesTo(slice, m, k), slice, m)
  {
    if k > 0 {
      PiecesFit(slice, m, k - 1);
      FitsNext(slice, m, k - 1);
    } else {
      assert PiecesTo(slice, m, k) == [];
    }
  }

  /** Every match ends inside the source. */
  ghost predicate InBounds(m: Matches, size: nat) {
    forall k :: 0 <= k < |m.positions| ==> m.positions[k] + m.length <= size
  }

  lemma SliceInBounds(source: Text, at: nat, length: nat)
    requires at + length <= |source|
    ensures |SliceOf(source)(0, at)| == at && SliceOf(source)(at, at + length) == source[at..at + length]
  {
  }

  lemma RangesFit(source: Text, m: Matches) returns (pieces: seq<Range>)
    requires GoForward(m) && InBounds(m, |source|)
    ensures pieces == Pieces(SliceOf(source), |source|, m) && MatchesFit(pieces, SliceOf(source), m)
  {
    var slice := SliceOf(source);
    SlicesMeet(source);
    forall k | 0 <= k < |m.positions| ensures |slice(0, m.positions[k])| == m.positions[k] {
      SliceInBounds(source, m.positions[k], m.length);
    }
    PiecesFit(slice, m, |m.positions|);
    FitsGap(PiecesTo(slice, m, |m.positions|), slice, m, CursorAt(m, |m.positions|), |source|);
    pieces := Pieces(slice, |source|, m);
  }

  /**
   The match range stands at the offset of an occurrence of the pattern in the folded text t, and is
   as long as the pattern. What it reads is another matter.
   */
  ghost predicate CoversOccurrence(ranges: seq<Range>, r: nat, source: Text, t: Text, pattern: Text)
    requires r < |ranges|
  {
    var at := |JoinedTo(ranges, r)|;
    Occurs(t, pattern, at) && |ranges[r].text| == |pattern| && ranges[r].text == SliceOf(source)(at, at + |pattern|)
  }

  ghost predicate MatchesCover(ranges: seq<Range>, source: Text, t: Text, pattern: Text) {
    forall r :: 0 <= r < |ranges| && ranges[r].isMatch ==> CoversOccurrence(ranges, r, source, t, pattern)
  }

  lemma FitMeans(source: Text, t: Text, pattern: Text, m: Matches, pieces: seq<Range>, r: nat)
    requires m.length == |pattern| && InBounds(m, |source|)
    requires forall k :: 0 <= k < |m.positions| ==> Occurs(t, pattern, m.positions[k])
    requires MatchesFit(pieces, SliceOf(source), m) && r < |pieces| && pieces[r].isMatch
    ensures CoversOccurrence(pieces, r, source, t, pattern)
  {
    assert MatchFits(pieces[r], |JoinedTo(pieces, r)|, SliceOf(source), m);
    SliceInBounds(source, |JoinedTo(pieces, r)|, |pattern|);
  }

  lemma MatchesInBoundsCover(source: Text, t: Text, pattern: Text, m: Matches)
    requires GoForward(m) && m.length == |pattern| && InBounds(m, |source|)
    requires forall k :: 0 <= k < |m.positions| ==> Occurs(t, pattern, m.positions[k])
    ensures MatchesCover(Pieces(SliceOf(source), |source|, m), source, t, pattern)
  {
    var pieces := RangesFit(source, m);
    forall r | 0 <= r < |pieces| && pieces[r].isMatch ensures CoversOccurrence(pieces, r, source, t, pattern) {
      FitMeans(source, t, pattern, m, pieces, r);
    }
  }

  lemma {:induction false} EveryPositionHasRange(slice: (nat, nat) -> Text, m: Matches, k: nat, j: nat) returns (r: nat)
    requires j < k <= |m.positions|
    ensures r < |PiecesTo(slice, m, k)| && PiecesTo(slice, m, k)[r].isMatch
    ensures PiecesTo(slice, m, k)[r].text == slice(m.positions[j], m.positions[j] + m.length)
  {
    if j == k - 1 {
      r := |PiecesTo(slice, m, k)| - 1;
    } else {
      r := EveryPositionHasRange(slice, m, k - 1, j);
    }
  }

  lemma CoveringMatchesAreInBounds(source: Text, t: Text, pattern: Text, m: Matches)
    requires pattern != [] && m.length == |pattern|
    requires MatchesCover(Pieces(SliceOf(source), |source|, m), source, t, pattern)
    ensures InBounds(m, |source|)
  {
    var slice, pieces := SliceOf(source), Pieces(SliceOf(source), |source|, m);
    forall j | 0 <= j < |m.positions| ensures m.positions[j] + m.length <= |source| {
      var r := EveryPositionHasRange(slice, m, |m.positions|, j);
      assert CoversOccurrence(pieces, r, source, t, pattern);
      assert |slice(m.positions[j], m.positions[j] + m.length)| == m.length;
    }
  }

  lemma FoundMatches(t: Text, pattern: Text) returns (m: Matches)
    requires pattern != []
    ensures m == MatchesIn(t, pattern) && GoForward(m) && m.length == |pattern|
    ensures forall k :: 0 <= k < |m.positions| ==> Occurs(t, pattern, m.positions[k])
  {
    m := MatchesIn(t, pattern);
    MatchesGoForward(t, pattern);
    AreApartMeans(m.positions, t, pattern, 0);
  }

  /**
   The match ranges stand at occurrences in the folded text and are as long as the query exactly when
   every occurrence that is found ends inside the source. Case folding that lengthens a text can
   break this: a match then lies at the end of the source, cut short.
   */
  lemma MatchesAreOccurrences(source: Text, query: Text, trim: Text -> Text, lower: Text -> Text)
    requires Normalized(query, trim, lower) != []
    ensures var pattern := Normalized(query, trim, lower);
      MatchesCover(RangesOf(source, query, trim, lower), source, lower(source), pattern) <==>
      InBounds(MatchesIn(lower(source), pattern), |source|)
  {
    var pattern := Normalized(query, trim, lower);
    var m := FoundMatches(lower(source), pattern);
    if InBounds(m, |source|) {
      MatchesInBoundsCover(source, lower(source), pattern, m);
    }
    if MatchesCover(Pieces(SliceOf(source), |source|, m), source, lower(source), pattern) {
      CoveringMatchesAreInBounds(source, lower(source), pattern, m);
    }
  }

  lemma OccurrenceBegins(t: Text, pattern: Text, i: int)
    requires pattern != [] && Occurs(t, pattern, i)
    ensures i < |t| && t[i] == pattern[0]
  {
    assert t[i..][0] == pattern[0];
  }

  /** Folding U+0130 to two units does: the match of the following letter begins at the end of the source. */
  lemma LengtheningBreaksIt(trim: Text -> Text, lower: Text -> Text)
    requires trim([0x61]) == [0x61] && lower([0x61]) == [0x61] && lower([0x130, 0x61]) == [0x69, 0x307, 0x61]
    ensures !MatchesCover(RangesOf([0x130, 0x61], [0x61], trim, lower), [0x130, 0x61], [0x69, 0x307, 0x61], [0x61])
  {
    var t: Text, pattern: Text := [0x69, 0x307, 0x61], [0x61];
    IndexOfMeans(t, pattern, 0);
    assert t[2..] == pattern && Occurs(t, pattern, 2);
    OccurrenceBegins(t, pattern, IndexOf(t, pattern, 0));
    assert Positions(t, pattern, 0)[0] == 2;
    MatchesAreOccurrences([0x130, 0x61], [0x61], trim, lower);
    assert MatchesIn(t, pattern).positions[0] + 1 > 2;
  }

  function CountTo(ranges: seq<Range>, k: nat): nat
    requires k <= |ranges|
  {
    if k == 0 then 0 else CountTo(ranges, k - 1) + (if ranges[k - 1].isMatch then 1 else 0)
  }

  function CountMatches(ranges: seq<Range>): nat {
    CountTo(ranges, |ranges|)
  }

  lemma {:induction false} CountPrefix(a: seq<Range>, b: seq<Range>, k: nat)
    requires k <= |a|
    ensures CountTo(a + b, k) == CountTo(a, k)
  {
    if k > 0 {
      CountPrefix(a, b, k - 1);
    }
  }

  lemma CountAppend(ranges: seq<Range>, r: Range)
    ensures CountMatches(ranges + [r]) == CountMatches(ranges) + (if r.isMatch then 1 else 0)
  {
    CountPrefix(ranges, [r], |ranges|);
  }

  lemma CountGap(ranges: seq<Range>, slice: (nat, nat) -> Text, cursor: nat, at: nat)
    ensures CountMatches(ranges + Gap(slice, cursor, at)) == CountMatches(ranges)
  {
    if cursor < at {
      CountAppend(ranges, Range(slice(cursor, at), false));
    } else {
      assert ranges + [] == ranges;
    }
  }

  lemma {:induction false} CountPieces(slice: (nat, nat) -> Text, m: Matches, k: nat)
    requires k <= |m.positions|
    ensures CountMatches(PiecesTo(slice, m, k)) == k
  {
    if k > 0 {
      CountPieces(slice, m, k - 1);
      CountGap(PiecesTo(slice, m, k - 1), slice, CursorAt(m, k - 1), m.positions[k - 1]);
      var before := PieceUnfold(slice, m, k - 1);
      CountAppend(before, Range(slice(m.positions[k - 1], CursorAt(m, k)), true));
    }
  }

  /** One match range for every position, and none without a query. */
  lemma RangesCount(source: Text, query: Text, trim: Text -> Text, lower: Text -> Text)
    ensures var pattern := Normalized(query, trim, lower);
      CountMatches(RangesOf(source, query, trim, lower)) ==
        if pattern == [] then 0 else |Positions(lower(source), pattern, 0)|
  {
    var pattern := Normalized(query, trim, lower);
    CountAppend([], Range(source, false));
    assert [] + [Range(source, false)] == [Range(source, false)];
    if pattern != [] {
      var m, slice := MatchesIn(lower(source), pattern), SliceOf(source);
      CountPieces(slice, m, |m.positions|);
      CountGap(PiecesTo(slice, m, |m.positions|), slice, CursorAt(m, |m.positions|), |source|);
    }
  }

  /** No set of non-overlapping occurrences has more members than there are match ranges. */
  lemma MatchesAreMost(source: Text, query: Text, trim: Text -> Text, lower: Text -> Text, others: seq<nat>)
    requires Normalized(query, trim, lower) != []
    requires AreApart(others, lower(source), Normalized(query, trim, lower), 0)
    ensures |others| <= CountMatches(RangesOf(source, query, trim, lower))
  {
    var pattern := Normalized(query, trim, lower);
    RangesCount(source, query, trim, lower);
    MatchesGoForward(lower(source), pattern);
    LeftmostIsLargest(Positions(lower(source), pattern, 0), lower(source), pattern, 0, others);
  }

  // ----- The filter -----

  lemma {:induction false} CountPositive(ranges: seq<Range>, k: nat)
    requires k <= |ranges|
    ensures CountTo(ranges, k) > 0 <==> exists j :: 0 <= j < k && ranges[j].isMatch
  {
    if k > 0 {
      CountPositive(ranges, k - 1);
    }
  }

  ghost predicate IsHighlighted(text: Text, query: Text, trim: Text -> Text, lower: Text -> Text) {
    var ranges := RangesOf(text, query, trim, lower);
    exists j :: 0 <= j < |ranges| && ranges[j].isMatch
  }

  lemma HighlightedWhenFound(text: Text, query: Text, trim: Text -> Text, lower: Text -> Text)
    ensures IsHighlighted(text, query, trim, lower) <==>
      Normalized(query, trim, lower) != [] && IndexOf(lower(text), Normalized(query, trim, lower), 0) != -1
  {
    RangesCount(text, query, trim, lower);
    var ranges := RangesOf(text, query, trim, lower);
    CountPositive(ranges, |ranges|);
  }

  /** The filter and the highlighter agree: a record is kept exactly when some text of it gets a match range. */
  lemma KeptWhenHighlighted(records: seq<Record>, query: Text, trim: Text -> Text, lower: Text -> Text, r: Record)
    ensures r in SearchTreeIndex(records, query, trim, lower) <==>
      r in records && exists text :: text in Texts(r) && IsHighlighted(text, query, trim, lower)
  {
    var pattern := Normalized(query, trim, lower);
    forall text ensures IsHighlighted(text, query, trim, lower) <==>
      pattern != [] && IndexOf(lower(text), pattern, 0) != -1
    {
      HighlightedWhenFound(text, query, trim, lower);
    }
    if pattern != [] {
      CanonicalOrder.FilterKeeps(records, r => Mentions(r, pattern, lower), r);
    }
  }
}
