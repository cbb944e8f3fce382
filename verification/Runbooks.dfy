/** The runbook catalog: which repository sections may be referred to, and the selectors that refer to them. */
module Runbooks {
  import opened Lexicographic
  import opened Evidence
  import opened EvidenceComparison

  const CATALOG_SCHEMA := "forgeops.runbook-catalog/v1alpha1"

  datatype Mode = Exact | Prefix

  datatype Signal = Signal(mode: Mode, checkId: string, kinds: seq<DeltaKind>, statuses: seq<Status>)

  datatype Entry = Entry(id: string, title: string, path: string, section: string, signals: seq<Signal>)

  datatype Catalog = Catalog(entries: seq<Entry>)

  datatype CatalogDocument = CatalogDocument(schema: string, entries: seq<Entry>, limitations: FixedText)

  // ----- Paths -----

  /** The pieces between slashes. */
  function Segments(path: string): (r: seq<string>)
    ensures r != []
  {
    if path == "" then [""]
    else
      var rest := Segments(path[1..]);
      if path[0] == '/' then [""] + rest else [[path[0]] + rest[0]] + rest[1..]
  }

  /** PurePosixPath(path).parts for a relative path: empty segments and single dots vanish. */
  function Parts(path: string): seq<string> {
    CanonicalOrder.Filter(Segments(path), Counts)
  }

  predicate Counts(segment: string) {
    segment != "" && segment != "."
  }

  /** Where a walk along the segments ends, two dots going up. */
  function Walk(at: seq<string>, segments: seq<string>): seq<string>
    decreases |segments|
  {
    if segments == [] then at
    else if segments[0] == "" || segments[0] == "." then Walk(at, segments[1..])
    else if segments[0] == ".." then Walk(if at == [] then [] else at[..|at| - 1], segments[1..])
    else Walk(at + [segments[0]], segments[1..])
  }

  predicate HasMarkdownSuffix(name: string) {
    |name| > 3 && name[|name| - 3..] == ".md"
  }

  predicate IsRunbookPath(path: string) {
    && path != "" && path[0] != '/'
    && var parts := Parts(path);
       ".." !in parts && ["docs", "runbooks"] <= parts && HasMarkdownSuffix(parts[|parts| - 1])
  }

  lemma {:induction false} WalkDown(at: seq<string>, segments: seq<string>)
    requires ".." !in CanonicalOrder.Filter(segments, Counts)
    ensures Walk(at, segments) == at + CanonicalOrder.Filter(segments, Counts)
    decreases |segments|
  {
    if segments != [] {
      WalkDown(if Counts(segments[0]) then at + [segments[0]] else at, segments[1..]);
    }
  }

  /** An accepted path leads from the repository root to a Markdown file below docs/runbooks. */
  lemma RunbookPathStaysInside(path: string)
    requires IsRunbookPath(path)
    ensures var file := Walk([], Segments(path));
      |file| > 2 && file[..2] == ["docs", "runbooks"] && HasMarkdownSuffix(file[|file| - 1])
  {
    WalkDown([], Segments(path));
    var parts := Parts(path);
    assert parts[0] == "docs" && parts[1] == "runbooks";
  }

  function Slashed(segments: seq<string>): string
    requires segments != []
  {
    if |segments| == 1 then segments[0] else segments[0] + "/" + Slashed(segments[1..])
  }

  lemma RegroupText(x: string, y: string, z: string)
    ensures (x + y) + z == x + (y + z)
  {
  }

  lemma SlashedFirst(c: char, rest: seq<string>)
    requires rest != []
    ensures Slashed([[c] + rest[0]] + rest[1..]) == [c] + Slashed(rest)
  {
    var longer := [[c] + rest[0]] + rest[1..];
    if |rest| > 1 {
      assert longer[1..] == rest[1..];
      RegroupText([c], rest[0], "/");
      RegroupText([c], rest[0] + "/", Slashed(rest[1..]));
    }
  }

  /** The segments hold no slash, and with slashes between them they are the path. */
  lemma {:induction false} SegmentsMean(path: string)
    ensures Slashed(Segments(path)) == path
    ensures forall segment :: segment in Segments(path) ==> '/' !in segment
  {
    if path != "" {
      var rest := Segments(path[1..]);
      SegmentsMean(path[1..]);
      if path[0] == '/' {
        assert ([""] + rest)[1..] == rest;
        assert Slashed([""] + rest) == "" + "/" + Slashed(rest);
      } else {
        SlashedFirst(path[0], rest);
        assert rest[0] in rest;
      }
    }
  }

  /** The walk ends at such a file. */
  ghost predicate EndsAtRunbook(file: seq<string>) {
    exists inner, stem :: stem != "" && file == ["docs", "runbooks"] + inner + [stem + ".md"]
  }

  lemma SuffixMeans(name: string)
    ensures HasMarkdownSuffix(name) <==> exists stem :: stem != "" && name == stem + ".md"
  {
    if HasMarkdownSuffix(name) {
      var stem := name[..|name| - 3];
      assert name == stem + name[|name| - 3..];
    }
    if stem :| stem != "" && name == stem + ".md" {
      assert (stem + ".md")[|stem|..] == ".md";
    }
  }

  lemma EndsAtRunbookMeans(file: seq<string>)
    ensures EndsAtRunbook(file) <==>
      ["docs", "runbooks"] <= file && HasMarkdownSuffix(file[|file| - 1])
  {
    if inner, stem :| stem != "" && file == ["docs", "runbooks"] + inner + [stem + ".md"] {
      SuffixMeans(stem + ".md");
      assert file[|file| - 1] == stem + ".md" && file[..2] == ["docs", "runbooks"];
    }
    if ["docs", "runbooks"] <= file && HasMarkdownSuffix(file[|file| - 1]) {
      MoreThanTwo(file);
      SuffixMeans(file[|file| - 1]);
      var stem :| stem != "" && file[|file| - 1] == stem + ".md";
      assert file == ["docs", "runbooks"] + file[2..|file| - 1] + [stem + ".md"];
    }
  }

  lemma MoreThanTwo(file: seq<string>)
    requires ["docs", "runbooks"] <= file && HasMarkdownSuffix(file[|file| - 1])
    ensures |file| > 2
  {
    assert file[1] == "runbooks";
    assert "runbooks"[|"runbooks"| - 1] == 's' && ".md"[2] == 'd';
  }

  /** A path is accepted exactly when it is relative, never goes up, and leads to such a file. */
  lemma RunbookPathMeans(path: string)
    ensures IsRunbookPath(path) <==>
      path != "" && path[0] != '/' && ".." !in Segments(path) && EndsAtRunbook(Walk([], Segments(path)))
  {
    var segments, parts := Segments(path), Parts(path);
    CanonicalOrder.FilterKeeps(segments, Counts, "..");
    EndsAtRunbookMeans(parts);
    if ".." !in parts {
      WalkDown([], segments);
      assert [] + parts == parts;
    }
  }

  // ----- Selectors -----

  const KINDS := [ADDED, REMOVED, STATUS_CHANGED, EVIDENCE_CHANGED]
  const STATUSES := [PASS, WARN, FAIL, UNKNOWN]

  function KindRank(kind: DeltaKind): nat {
    match kind
    case ADDED => 0
    case REMOVED => 1
    case STATUS_CHANGED => 2
    case EVIDENCE_CHANGED => 3
  }

  /** The pair (mode, check id) as one string; no mode name begins another, so tuple order is string order. */
  function Key(signal: Signal): string {
    (if signal.mode.Exact? then "exact" else "prefix") + signal.checkId
  }

  function Keys(signals: seq<Signal>): seq<string> {
    seq(|signals|, k requires 0 <= k < |signals| => Key(signals[k]))
  }

  lemma {:induction false} LessAfterPrefix(p: string, x: string, y: string)
    ensures Less(p + x, p + y) <==> Less(x, y)
  {
    if p == "" {
      assert p + x == x && p + y == y;
    } else {
      assert (p + x)[1..] == p[1..] + x && (p + y)[1..] == p[1..] + y;
      LessAfterPrefix(p[1..], x, y);
    }
  }

  lemma KeyOrder(x: Signal, y: Signal)
    ensures Less(Key(x), Key(y)) <==>
      (x.mode.Exact? && y.mode.Prefix?) || (x.mode == y.mode && Less(x.checkId, y.checkId))
    ensures Key(x) == Key(y) <==> x.mode == y.mode && x.checkId == y.checkId
  {
    if x.mode == y.mode {
      var p := if x.mode.Exact? then "exact" else "prefix";
      LessAfterPrefix(p, x.checkId, y.checkId);
      assert Key(x)[|p|..] == x.checkId && Key(y)[|p|..] == y.checkId;
    } else {
      assert Key(x)[0] != Key(y)[0];
    }
  }

  predicate SignalIsAcceptable(s: Signal) {
    && s.checkId != "" && (s.mode.Prefix? ==> s.checkId[|s.checkId| - 1] == '.')
    && s.kinds != [] && CanonicalOrder.InOrder(s.kinds, KindRank)
    && s.statuses != [] && CanonicalOrder.InOrder(s.statuses, Severity)
  }

  ghost predicate EntryIsAcceptable(e: Entry) {
    && e.id != "" && e.title != "" && IsRunbookPath(e.path) && e.section != ""
    && e.signals != [] && (forall k :: 0 <= k < |e.signals| ==> SignalIsAcceptable(e.signals[k]))
    && Ascending(Keys(e.signals))
  }

  function EntryIds(entries: seq<Entry>): seq<string> {
    seq(|entries|, k requires 0 <= k < |entries| => entries[k].id)
  }

  ghost predicate IsValidCatalog(c: Catalog) {
    && c.entries != [] && (forall k :: 0 <= k < |c.entries| ==> EntryIsAcceptable(c.entries[k]))
    && Ascending(EntryIds(c.entries))
  }

  ghost predicate IsAcceptableCatalog(d: CatalogDocument) {
    d.schema == CATALOG_SCHEMA && d.limitations.Supported? && IsValidCatalog(Catalog(d.entries))
  }

  // ----- The loader -----

  method ParseCatalog(d: CatalogDocument) returns (r: Result<Catalog>)
    ensures r == if IsAcceptableCatalog(d) then Accepted(Catalog(d.entries)) else Rejected
  {
    if d.schema != CATALOG_SCHEMA || !d.limitations.Supported? || d.entries == [] {
      return Rejected;
    }
    var entries, entryIds := [], [];
    for i := 0 to |d.entries|
      invariant entries == d.entries[..i] && entryIds == EntryIds(d.entries[..i])
      invariant forall k :: 0 <= k < i ==> EntryIsAcceptable(d.entries[k])
    {
      var entry := d.entries[i];
      var acceptable := CheckEntry(entry);
      if !acceptable {
        return Rejected;
      }
      entryIds := entryIds + [entry.id];
      entries := entries + [entry];
    }
    assert d.entries[..|d.entries|] == d.entries;
    SortUniqueFixedPoints(entryIds);
    if entryIds != SortUnique(entryIds) {
      return Rejected;
    }
    return Accepted(Catalog(entries));
  }

  method CheckEntry(entry: Entry) returns (acceptable: bool)
    ensures acceptable <==> EntryIsAcceptable(entry)
  {
    if entry.id == "" || entry.signals == [] {
      return false;
    }
    var signalKeys := [];
    for i := 0 to |entry.signals|
      invariant signalKeys == Keys(entry.signals[..i])
      invariant forall k :: 0 <= k < i ==> SignalIsAcceptable(entry.signals[k])
    {
      var signal := entry.signals[i];
      acceptable := CheckSignal(signal);
      if !acceptable {
        return false;
      }
      signalKeys := signalKeys + [Key(signal)];
    }
    assert entry.signals[..|entry.signals|] == entry.signals;
    SortUniqueFixedPoints(signalKeys);
    if signalKeys != SortUnique(signalKeys) {
      return false;
    }
    return entry.title != "" && IsRunbookPath(entry.path) && entry.section != "";
  }

  method CheckSignal(signal: Signal) returns (acceptable: bool)
    ensures acceptable <==> SignalIsAcceptable(signal)
  {
    if signal.checkId == "" || (signal.mode.Prefix? && signal.checkId[|signal.checkId| - 1] != '.') {
      return false;
    }
    KindsInOrder(signal.kinds);
    if signal.kinds == [] || !CanonicalOrder.IsCanonical(signal.kinds, KINDS) {
      return false;
    }
    StatusesInOrder(signal.statuses);
    return signal.statuses != [] && CanonicalOrder.IsCanonical(signal.statuses, STATUSES);
  }

  lemma KindsInOrder(kinds: seq<DeltaKind>)
    ensures CanonicalOrder.IsCanonical(kinds, KINDS) <==> CanonicalOrder.InOrder(kinds, KindRank)
  {
    var allowed := KINDS;
    forall kind: DeltaKind ensures kind in allowed {
      assert kind == allowed[KindRank(kind)];
    }
    CanonicalOrder.CanonicalMeansInOrder(kinds, allowed, KindRank);
  }

  lemma StatusesInOrder(statuses: seq<Status>)
    ensures CanonicalOrder.IsCanonical(statuses, STATUSES) <==> CanonicalOrder.InOrder(statuses, Severity)
  {
    var allowed := STATUSES;
    forall status: Status ensures status in allowed {
      assert status == allowed[Severity(status)];
    }
    CanonicalOrder.CanonicalMeansInOrder(statuses, allowed, Severity);
  }
}
