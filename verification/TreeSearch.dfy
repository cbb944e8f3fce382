/** Searching the index and highlighting what matched: a filter over texts and a leftmost, non-overlapping splitter. */
module TreeSearch {
  import CanonicalOrder
  import opened YamlPaths
  import opened TreeIndex

  datatype Range = Range(text: Text, isMatch: bool)

  // ----- Occurrences -----

  predicate Occurs(t: Text, pattern: Text, i: int) {
    0 <= i <= |t| && pattern <= t[i..]
  }

  ghost predicate IsFirst(at: int, t: Text, pattern: Text, cursor: nat) {
    cursor <= at && Occurs(t, pattern, at) && forall i :: cursor <= i < at ==> !Occurs(t, pattern, i)
  }

  /** The first occurrence at or after from, or -1. */
  function IndexOf(t: Text, pattern: Text, from: nat): (r: int)
    requires pattern != []
    ensures r == -1 || from <= r < |t|
    decreases |t| - from
  {
    if from >= |t| then -1
    else if Occurs(t, pattern, from) then from
    else IndexOf(t, pattern, from + 1)
  }

  lemma {:induction false} IndexOfMeans(t: Text, pattern: Text, from: nat)
    requires pattern != []
    ensures var r := IndexOf(t, pattern, from);
      if r < 0 then forall i :: from <= i ==> !Occurs(t, pattern, i) else IsFirst(r, t, pattern, from)
    decreases |t| - from
  {
    if from < |t| && !Occurs(t, pattern, from) {
      IndexOfMeans(t, pattern, from + 1);
    }
  }

  /** Where a splitter stops that asks find for the next match and goes on after its end. */
  function Stops(find: nat -> int, limit: nat, length: nat, cursor: nat): seq<nat>
    requires length > 0
    decreases limit - cursor
  {
    var at := find(cursor);
    if cursor <= at < limit then [at] + Stops(find, limit, length, at + length) else []
  }

  function Search(t: Text, pattern: Text): nat -> int
    requires pattern != []
  {
    (from: nat) => IndexOf(t, pattern, from)
  }

  /** The matches of a pattern, from the left, none overlapping the one before. */
  function Positions(t: Text, pattern: Text, cursor: nat): seq<nat>
    requires pattern != []
  {
    Stops(Search(t, pattern), |t|, |pattern|, cursor)
  }

  /** Occurrences in order that do not overlap, none before cursor. */
  ghost predicate AreApart(positions: seq<nat>, t: Text, pattern: Text, cursor: nat)
    decreases |positions|
  {
    positions != [] ==>
      && cursor <= positions[0] && Occurs(t, pattern, positions[0])
      && AreApart(positions[1..], t, pattern, positions[0] + |pattern|)
  }

  lemma {:induction false} AreApartMeans(positions: seq<nat>, t: Text, pattern: Text, cursor: nat)
    requires AreApart(positions, t, pattern, cursor)
    ensures forall k :: 0 <= k < |positions| ==> cursor <= positions[k] && Occurs(t, pattern, positions[k])
    ensures forall i, j :: 0 <= i < j < |positions| ==> positions[i] + |pattern| <= positions[j]
    decreases |positions|
  {
    if positions != [] {
      AreApartMeans(positions[1..], t, pattern, positions[0] + |pattern|);
      assert forall k :: 0 < k < |positions| ==> positions[k] == positions[1..][k - 1];
    }
  }

  /** Each position is the first occurrence that does not overlap the one before, until there is none. */
  ghost predicate IsLeftmost(positions: seq<nat>, t: Text, pattern: Text, cursor: nat)
    decreases |positions|
  {
    if positions == [] then forall i :: cursor <= i ==> !Occurs(t, pattern, i)
    else IsFirst(positions[0], t, pattern, cursor) && IsLeftmost(positions[1..], t, pattern, positions[0] + |pattern|)
  }

  lemma {:induction false} PositionsAreLeftmost(t: Text, pattern: Text, cursor: nat)
    requires pattern != []
    ensures IsLeftmost(Positions(t, pattern, cursor), t, pattern, cursor)
    decreases |t| - cursor
  {
    var at := IndexOf(t, pattern, cursor);
    IndexOfMeans(t, pattern, cursor);
    if at >= 0 {
      PositionsAreLeftmost(t, pattern, at + |pattern|);
    }
  }

  lemma Earlier(positions: seq<nat>, t: Text, pattern: Text, cursor: nat, i: nat)
    requires IsLeftmost(positions, t, pattern, cursor) && cursor <= i && Occurs(t, pattern, i)
    ensures positions != [] && positions[0] <= i
    ensures IsLeftmost(positions[1..], t, pattern, positions[0] + |pattern|)
  {
  }

  lemma {:induction false} LeftmostIsApart(positions: seq<nat>, t: Text, pattern: Text, cursor: nat)
    requires IsLeftmost(positions, t, pattern, cursor)
    ensures AreApart(positions, t, pattern, cursor)
    decreases |positions|
  {
    if positions != [] {
      LeftmostIsApart(positions[1..], t, pattern, positions[0] + |pattern|);
    }
  }

  /** No choice of non-overlapping occurrences is larger than a leftmost one. */
  lemma {:induction false} LeftmostIsLargest(positions: seq<nat>, t: Text, pattern: Text, cursor: nat, others: seq<nat>)
    requires IsLeftmost(positions, t, pattern, cursor) && AreApart(others, t, pattern, cursor)
    ensures |others| <= |positions|
    decreases |others|
  {
    if others != [] {
      Earlier(positions, t, pattern, cursor, others[0]);
      StartLower(others[1..], t, pattern, others[0] + |pattern|, positions[0] + |pattern|);
      LeftmostIsLargest(positions[1..], t, pattern, positions[0] + |pattern|, others[1..]);
    }
  }

  lemma StartLower(positions: seq<nat>, t: Text, pattern: Text, cursor: nat, lower: nat)
    requires AreApart(positions, t, pattern, cursor) && lower <= cursor
    ensures AreApart(positions, t, pattern, lower)
  {
  }

  /** Every occurrence begins inside a match. */
  lemma {:induction false} EveryOccurrenceIsTouched(positions: seq<nat>, t: Text, pattern: Text, cursor: nat, i: nat)
    requires IsLeftmost(positions, t, pattern, cursor) && cursor <= i && Occurs(t, pattern, i)
    ensures exists k :: 0 <= k < |positions| && positions[k] <= i < positions[k] + |pattern|
    decreases |positions|
  {
    Earlier(positions, t, pattern, cursor, i);
    if i >= positions[0] + |pattern| {
      EveryOccurrenceIsTouched(positions[1..], t, pattern, positions[0] + |pattern|, i);
      var k :| 0 <= k < |positions[1..]| && positions[1..][k] <= i < positions[1..][k] + |pattern|;
      assert positions[k + 1] == positions[1..][k];
    }
  }

  // ----- Ranges -----

  function Min(a: int, b: int): int {
    if a < b then a else b
  }

  /** JavaScript's slice of a text: both ends are cut off at the length, and reversed ends give nothing. */
  function SliceOf(t: Text): (nat, nat) -> Text {
    (from: nat, to: nat) => if from <= to then t[Min(from, |t|)..Min(to, |t|)] else []
  }

  function Gap(slice: (nat, nat) -> Text, cursor: nat, at: nat): seq<Range> {
    if cursor < at then [Range(slice(cursor, at), false)] else []
  }

  /** The splitter's matches: where each begins, and the one length of them all. */
  datatype Matches = Matches(positions: seq<nat>, length: nat)

  /** Where the splitter stands after k matches. */
  function CursorAt(m: Matches, k: nat): nat
    requires k <= |m.positions|
  {
    if k == 0 then 0 else m.positions[k - 1] + m.length
  }

  /** The unmatched text before match k, if there is any, and the match itself. */
  function PieceAt(slice: (nat, nat) -> Text, m: Matches, k: nat): seq<Range>
    requires k < |m.positions|
  {
    Gap(slice, CursorAt(m, k), m.positions[k]) + [Range(slice(m.positions[k], m.positions[k] + m.length), true)]
  }

  function PiecesTo(slice: (nat, nat) -> Text, m: Matches, k: nat): seq<Range>
    requires k <= |m.positions|
  {
    if k == 0 then [] else PiecesTo(slice, m, k - 1) + PieceAt(slice, m, k - 1)
  }

  function Pieces(slice: (nat, nat) -> Text, size: nat, m: Matches): seq<Range> {
    PiecesTo(slice, m, |m.positions|) + Gap(slice, CursorAt(m, |m.positions|), size)
  }

  function Normalized(query: Text, trim: Text -> Text, lower: Text -> Text): Text {
    lower(trim(query))
  }

  function RangesOf(source: Text, query: Text, trim: Text -> Text, lower: Text -> Text): seq<Range> {
    var pattern := Normalized(query, trim, lower);
    if pattern == [] then [Range(source, false)]
    else
      var pieces := Pieces(SliceOf(source), |source|, Matches(Positions(lower(source), pattern, 0), |pattern|));
      if pieces == [] then [Range(source, false)] else pieces
  }

  method MatchingTextRanges(source: Text, query: Text, trim: Text -> Text, lower: Text -> Text)
    returns (ranges: seq<Range>)
    ensures ranges == RangesOf(source, query, trim, lower)
  {
    var pattern := lower(trim(query));
    if pattern == [] {
      return [Range(source, false)];
    }
    var lowered := lower(source);
    ranges := CollectRanges(SliceOf(source), |source|, Search(lowered, pattern), |lowered|, |pattern|);
    if ranges == [] {
      ranges := [Range(source, false)];
    }
  }

  lemma NextStop(find: nat -> int, limit: nat, length: nat, cursor: nat, stops: seq<nat>, k: nat)
    requires length > 0 && k <= |stops| && stops[k..] == Stops(find, limit, length, cursor)
    ensures if cursor <= find(cursor) < limit
      then
        k < |stops| && stops[k] == find(cursor)
        && stops[k + 1..] == Stops(find, limit, length, find(cursor) + length)
      else k == |stops|
  {
    var rest := Stops(find, limit, length, cursor);
    if cursor <= find(cursor) < limit {
      assert stops[k] == rest[0] && stops[k + 1..] == rest[1..];
    }
  }

  lemma PieceUnfold(slice: (nat, nat) -> Text, m: Matches, k: nat) returns (before: seq<Range>)
    requires k < |m.positions|
    ensures before == PiecesTo(slice, m, k) + Gap(slice, CursorAt(m, k), m.positions[k])
    ensures PiecesTo(slice, m, k + 1) == before + [Range(slice(m.positions[k], CursorAt(m, k + 1)), true)]
  {
    before := PiecesTo(slice, m, k) + Gap(slice, CursorAt(m, k), m.positions[k]);
  }

  /** find is the search for the next match from an index on, with -1 for none. */
  method CollectRanges(slice: (nat, nat) -> Text, size: nat, find: nat -> int, limit: nat, length: nat)
    returns (ranges: seq<Range>)
    requires length > 0 && forall from: nat :: find(from) == -1 || from <= find(from) < limit
    ensures ranges == Pieces(slice, size, Matches(Stops(find, limit, length, 0), length))
  {
    ranges := [];
    var cursor: nat := 0;
    var matchAt := find(cursor);
    ghost var m, k := Matches(Stops(find, limit, length, cursor), length), 0;
    while matchAt != -1
      invariant k <= |m.positions| && cursor == CursorAt(m, k) && matchAt == find(cursor)
      invariant m.positions[k..] == Stops(find, limit, length, cursor)
      invariant ranges == PiecesTo(slice, m, k)
      decreases limit - cursor
    {
      NextStop(find, limit, length, cursor, m.positions, k);
      ghost var before := PieceUnfold(slice, m, k);
      ranges := AppendGap(ranges, slice, cursor, matchAt);
      ranges := ranges + [Range(slice(matchAt, matchAt + length), true)];
      cursor := matchAt + length;
      matchAt := find(cursor);
      k := k + 1;
    }
    NextStop(find, limit, length, cursor, m.positions, k);
    ranges := AppendGap(ranges, slice, cursor, size);
  }

  method AppendGap(ranges: seq<Range>, slice: (nat, nat) -> Text, cursor: nat, at: nat)
    returns (extended: seq<Range>)
    ensures extended == ranges + Gap(slice, cursor, at)
  {
    extended := ranges;
    if cursor < at {
      extended := extended + [Range(slice(cursor, at), false)];
    }
  }

  // ----- The filter -----

  function Texts(r: Record): seq<Text> {
    if r.valueText.Some? then [r.name, r.valueText.value, r.path] else [r.name, r.path]
  }

  predicate Mentions(r: Record, pattern: Text, lower: Text -> Text)
    requires pattern != []
  {
    exists text :: text in Texts(r) && IndexOf(lower(text), pattern, 0) != -1
  }

  function SearchTreeIndex(records: seq<Record>, query: Text, trim: Text -> Text, lower: Text -> Text): seq<Record> {
    var pattern := Normalized(query, trim, lower);
    if pattern == [] then []
    else CanonicalOrder.Filter(records, r => Mentions(r, pattern, lower))
  }
}
