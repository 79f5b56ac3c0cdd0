/**
 The atomic-claim pilot: resolve returned quotes to spans, reject anything outside the
 target ranges, report what was returned and what was not, and make no further paid call
 once the transport has asked to stop.
 */
module AtomicPilot {
  import opened Wrappers
  import opened Text
  import opened Sentences

  // ---------------------------------------------------------------- locating quotes

  datatype Error = AbsentOrAmbiguous | Inadmissible | Overlapping

  predicate ByStart(spans: seq<Span>) {
    forall i, j :: 0 <= i < j < |spans| ==> spans[i].start <= spans[j].start
  }

  function Insert(span: Span, spans: seq<Span>): (r: seq<Span>)
    ensures multiset(r) == multiset(spans) + multiset{span}
  {
    if spans == [] then [span]
    else
      assert spans == [spans[0]] + spans[1..];
      if span.start < spans[0].start then [span] + spans else [spans[0]] + Insert(span, spans[1..])
  }

  function SortByStart(spans: seq<Span>): (r: seq<Span>)
    ensures multiset(r) == multiset(spans)
  {
    if spans == [] then []
    else
      assert spans == spans[..|spans|-1] + [spans[|spans|-1]];
      Insert(spans[|spans|-1], SortByStart(spans[..|spans|-1]))
  }

  lemma {:induction false} InsertKeepsOrder(span: Span, spans: seq<Span>)
    requires ByStart(spans)
    ensures ByStart(Insert(span, spans))
  {
    if spans != [] && span.start >= spans[0].start {
      var rest := Insert(span, spans[1..]);
      InsertKeepsOrder(span, spans[1..]);
      forall j | 0 <= j < |rest| ensures spans[0].start <= rest[j].start {
        assert rest[j] in multiset(rest);
        assert rest[j] == span || rest[j] in spans[1..];
      }
    }
  }

  lemma {:induction false} SortedByStart(spans: seq<Span>)
    ensures ByStart(SortByStart(spans))
  {
    if spans != [] {
      SortedByStart(spans[..|spans|-1]);
      InsertKeepsOrder(spans[|spans|-1], SortByStart(spans[..|spans|-1]));
    }
  }

  predicate Disjoint(spans: seq<Span>) {
    forall i :: 0 < i < |spans| ==> spans[i-1].end <= spans[i].start
  }

  /** A quote and the span of its only occurrence. */
  ghost predicate Located(text: string, quote: string, span: Span) {
    Unique(text, quote) && !BlankRange(quote, 0, |quote|)
    && OccursAt(text, quote, span.start) && span.end == span.start + |quote|
  }

  ghost predicate AllLocated(text: string, claims: seq<string>, at: seq<Span>) {
    |at| == |claims| && forall k :: 0 <= k < |claims| ==> Located(text, claims[k], at[k])
  }

  /** Each quote must occur exactly once, counting overlapping occurrences. */
  method LocateAll(claims: seq<string>, text: string) returns (r: Result<seq<Span>, Error>)
    ensures r.Success? ==> AllLocated(text, claims, r.value)
    ensures r.Failure? ==> r.error == AbsentOrAmbiguous
    ensures r.Failure? ==>
              exists k :: 0 <= k < |claims| && (BlankRange(claims[k], 0, |claims[k]|) || !Unique(text, claims[k]))
  {
    var at: seq<Span> := [];
    for k := 0 to |claims|
      invariant |at| == k
      invariant forall j :: 0 <= j < k ==> Located(text, claims[j], at[j])
    {
      var quote := claims[k];
      var first := Find(text, quote);
      var last := RFind(text, quote);
      FoundIsUnique(text, quote, first, last);
      if Strip(quote) == "" || first == -1 || first != last {
        return Failure(AbsentOrAmbiguous);
      }
      at := at + [Span(first, first + |quote|)];
    }
    r := Success(at);
  }

  /** The strict span guard: `admissible` stands for its checks on quotations and token
      boundaries; spans are sorted by start and must not overlap. */
  method Guard(at: seq<Span>, admissible: Span -> bool) returns (r: Result<seq<Span>, Error>)
    ensures r.Success? <==> (forall k :: 0 <= k < |at| ==> admissible(at[k])) && Disjoint(SortByStart(at))
    ensures r.Success? ==> r.value == SortByStart(at)
  {
    for k := 0 to |at|
      invariant forall j :: 0 <= j < k ==> admissible(at[j])
    {
      if !admissible(at[k]) {
        return Failure(Inadmissible);
      }
    }
    var sorted := SortByStart(at);
    for i := 0 to |sorted|
      invariant forall j :: 0 < j < i ==> sorted[j-1].end <= sorted[j].start
    {
      if i > 0 && sorted[i-1].end > sorted[i].start {
        return Failure(Overlapping);
      }
    }
    r := Success(sorted);
  }

  /** The places of the quotes, none inadmissible and no two overlapping. */
  ghost predicate Places(text: string, claims: seq<string>, admissible: Span -> bool, at: seq<Span>) {
    && AllLocated(text, claims, at) && Disjoint(SortByStart(at))
    && forall k :: 0 <= k < |at| ==> admissible(at[k])
  }

  /** Each quote has one place, and these are the places in order. */
  ghost predicate Locatable(text: string, claims: seq<string>, admissible: Span -> bool, spans: seq<Span>) {
    exists at :: Places(text, claims, admissible, at) && spans == SortByStart(at)
  }

  /** The spans of these quotes, if they can be located. */
  ghost function LocatedSpans(claims: seq<string>, text: string, admissible: Span -> bool): (r: Option<seq<Span>>)
    ensures r.Some? ==> Locatable(text, claims, admissible, r.value)
    ensures r.None? ==> forall spans :: !Locatable(text, claims, admissible, spans)
  {
    if spans :| Locatable(text, claims, admissible, spans) then Some(spans) else None
  }

  lemma LocatableUnique(text: string, claims: seq<string>, admissible: Span -> bool, spans: seq<Span>, other: seq<Span>)
    requires Locatable(text, claims, admissible, spans) && Locatable(text, claims, admissible, other)
    ensures spans == other
  {
    var at :| Places(text, claims, admissible, at) && spans == SortByStart(at);
    var too :| Places(text, claims, admissible, too) && other == SortByStart(too);
    PlacesUnique(text, claims, at, too);
  }

  lemma LocatableOrdered(text: string, claims: seq<string>, admissible: Span -> bool, spans: seq<Span>)
    requires Locatable(text, claims, admissible, spans)
    ensures OrderedSpans(0, spans, |text|)
  {
    var at :| Places(text, claims, admissible, at) && spans == SortByStart(at);
    PlacesInText(text, claims, admissible, at);
    DisjointIsOrdered(spans, |text|);
  }

  predicate AllInText(spans: seq<Span>, n: nat) {
    forall j :: 0 <= j < |spans| ==> spans[j].start < spans[j].end <= n
  }

  lemma PlacesInText(text: string, claims: seq<string>, admissible: Span -> bool, at: seq<Span>)
    requires Places(text, claims, admissible, at)
    ensures AllInText(SortByStart(at), |text|) && Disjoint(SortByStart(at))
  {
    LocatedInText(text, claims, at);
  }

  lemma PlacesUnique(text: string, claims: seq<string>, at: seq<Span>, other: seq<Span>)
    requires AllLocated(text, claims, at) && AllLocated(text, claims, other)
    ensures at == other
  {
    forall k | 0 <= k < |claims| ensures at[k] == other[k] {
      assert Located(text, claims[k], at[k]) && Located(text, claims[k], other[k]);
    }
  }

  /** The accepted spans are the unique occurrences of the quotes, ordered and disjoint; quotes
      are accepted whenever such spans exist. */
  method LocateQuotes(claims: seq<string>, text: string, admissible: Span -> bool)
      returns (r: Result<seq<Span>, Error>)
    ensures r.Success? ==> OrderedSpans(0, r.value, |text|) && Locatable(text, claims, admissible, r.value)
    ensures r.Failure? ==> forall spans :: !Locatable(text, claims, admissible, spans)
  {
    var at := LocateAll(claims, text);
    if at.Failure? {
      return Failure(at.error);
    }
    r := Guard(at.value, admissible);
    if r.Success? {
      assert Places(text, claims, admissible, at.value);
      LocatableOrdered(text, claims, admissible, r.value);
    } else {
      forall spans ensures !Locatable(text, claims, admissible, spans) {
        if Locatable(text, claims, admissible, spans) {
          var other :| Places(text, claims, admissible, other) && spans == SortByStart(other);
          PlacesUnique(text, claims, at.value, other);
          assert false;
        }
      }
    }
  }

  lemma LocatedInText(text: string, claims: seq<string>, at: seq<Span>)
    requires AllLocated(text, claims, at)
    ensures AllInText(SortByStart(at), |text|)
  {
    var sorted := SortByStart(at);
    forall j | 0 <= j < |sorted| ensures sorted[j].start < sorted[j].end <= |text| {
      assert sorted[j] in multiset(sorted);
      var k :| 0 <= k < |at| && at[k] == sorted[j];
      assert Located(text, claims[k], at[k]);
    }
  }

  lemma {:induction false} DisjointIsOrdered(spans: seq<Span>, n: nat)
    requires AllInText(spans, n) && Disjoint(spans)
    ensures OrderedSpans(0, spans, n)
  {
    if spans != [] {
      var m := |spans| - 1;
      DisjointIsOrdered(spans[..m], n);
      forall j | 0 <= j < m ensures spans[j].end <= spans[m].start {
        if j < m - 1 {
          assert spans[..m][j].end <= spans[..m][m-1].start;
          assert spans[m-1].start < spans[m-1].end <= spans[m].start;
        }
      }
    }
  }

  // ---------------------------------------------------------------- target ranges

  predicate ValidRanges(ranges: seq<Span>, n: nat) {
    && ranges != []
    && (forall k :: 0 <= k < |ranges| ==> ranges[k].start < ranges[k].end <= n)
    && (forall k :: 0 < k < |ranges| ==> ranges[k-1].end <= ranges[k].start)
  }

  method CheckRanges(ranges: seq<Span>, n: nat) returns (ok: bool)
    ensures ok <==> ValidRanges(ranges, n)
  {
    if ranges == [] {
      return false;
    }
    var previous := 0;
    for k := 0 to |ranges|
      invariant previous == if k == 0 then 0 else ranges[k-1].end
      invariant forall j :: 0 <= j < k ==> ranges[j].start < ranges[j].end <= n
      invariant forall j :: 0 < j < k ==> ranges[j-1].end <= ranges[j].start
    {
      if !(previous <= ranges[k].start < ranges[k].end <= n) {
        return false;
      }
      previous := ranges[k].end;
    }
    ok := true;
  }

  predicate Inside(span: Span, range: Span) {
    range.start <= span.start < span.end <= range.end
  }

  /** A span is inside a range exactly if it is not empty and all its characters are. */
  lemma InsideIff(span: Span, range: Span)
    ensures Inside(span, range) <==> span.start < span.end && forall i :: Covers(span, i) ==> Covers(range, i)
  {
    if span.start < span.end {
      assert Covers(span, span.start) && Covers(span, span.end - 1);
    }
  }

  /** Ranges are valid exactly if there is one, none is empty or leaves the text, and every
      character of a range comes before every character of a later one; they may touch. */
  lemma ValidRangesIff(ranges: seq<Span>, n: nat)
    ensures ValidRanges(ranges, n) <==>
            && ranges != []
            && (forall k :: 0 <= k < |ranges| ==> ranges[k].start < ranges[k].end <= n)
            && forall j, k, x, y :: 0 <= j < k < |ranges| && Covers(ranges[j], x) && Covers(ranges[k], y) ==> x < y
  {
    if ValidRanges(ranges, n) {
      forall j, k | 0 <= j < k < |ranges| ensures ranges[j].end <= ranges[k].start {
        RangesInOrder(ranges, n, j, k);
      }
    } else if ranges != [] && forall k :: 0 <= k < |ranges| ==> ranges[k].start < ranges[k].end <= n {
      var k :| 0 < k < |ranges| && !(ranges[k-1].end <= ranges[k].start);
      assert Covers(ranges[k-1], ranges[k-1].end - 1) && Covers(ranges[k], ranges[k].start);
    }
  }

  lemma {:induction false} RangesInOrder(ranges: seq<Span>, n: nat, j: nat, k: nat)
    requires ValidRanges(ranges, n) && j < k < |ranges|
    ensures ranges[j].end <= ranges[k].start
    decreases k
  {
    if j < k - 1 {
      RangesInOrder(ranges, n, j, k - 1);
    }
  }

  predicate InsideSome(span: Span, ranges: seq<Span>) {
    exists k :: 0 <= k < |ranges| && Inside(span, ranges[k])
  }

  function Within(spans: seq<Span>, range: Span): seq<Span> {
    if spans == [] then []
    else Within(spans[..|spans|-1], range) + (if Inside(spans[|spans|-1], range) then [spans[|spans|-1]] else [])
  }

  /** The filter of `respond`: the spans returned for one range. */
  method Returned(spans: seq<Span>, range: Span) returns (r: seq<Span>)
    ensures r == Within(spans, range)
  {
    r := [];
    for k := 0 to |spans|
      invariant r == Within(spans[..k], range)
    {
      assert spans[..k+1][..k] == spans[..k];
      if Inside(spans[k], range) {
        r := r + [spans[k]];
      }
    }
    assert spans[..|spans|] == spans;
  }

  /** The filtered spans are exactly those inside the range. */
  lemma {:induction false} WithinAre(spans: seq<Span>, range: Span)
    ensures forall s :: s in Within(spans, range) <==> s in spans && Inside(s, range)
  {
    if spans != [] {
      var n := |spans| - 1;
      WithinAre(spans[..n], range);
      assert spans == spans[..n] + [spans[n]];
    }
  }

  function Lesser(a: nat, b: nat): nat { if a < b then a else b }

  /** The filtered spans stay ordered and disjoint, and lie in the range. */
  lemma {:induction false} WithinOrdered(lo: nat, spans: seq<Span>, hi: nat, range: Span)
    requires OrderedSpans(lo, spans, hi)
    ensures OrderedSpans(range.start, Within(spans, range), Lesser(hi, range.end))
  {
    if spans != [] {
      var n := |spans| - 1;
      var last := spans[n];
      WithinOrdered(lo, spans[..n], last.start, range);
      if Inside(last, range) {
        OrderedSnoc(range.start, Within(spans[..n], range), last.start, last, Lesser(hi, range.end));
      }
    }
  }

  // ---------------------------------------------------------------- gaps and coverage

  /** Where reading stands after the first k spans. */
  function Cursor(start: nat, spans: seq<Span>, k: nat): nat
    requires k <= |spans|
  {
    if k == 0 then start else spans[k-1].end
  }

  /** The stretch between two positions, unless nothing is left of it when stripped. */
  function Gap(text: string, a: nat, b: nat): seq<Span> {
    if a <= b <= |text| && !BlankRange(text, a, b) then [Span(a, b)] else []
  }

  /** The gaps left by the first spans of a range, read up to a cursor. */
  function GapsUpTo(text: string, start: nat, spans: seq<Span>): seq<Span> {
    if spans == [] then []
    else
      var n := |spans| - 1;
      GapsUpTo(text, start, spans[..n]) + Gap(text, Cursor(start, spans, n), spans[n].start)
  }

  function Gaps(text: string, range: Span, spans: seq<Span>): seq<Span> {
    GapsUpTo(text, range.start, spans) + Gap(text, Cursor(range.start, spans, |spans|), range.end)
  }

  datatype Coverage = NotReturned | Partial | FullTextReturned

  function CoverageOf(spans: seq<Span>, gaps: seq<Span>): Coverage {
    if spans == [] then NotReturned else if gaps != [] then Partial else FullTextReturned
  }

  /** Whether a slice has anything left when stripped. */
  predicate HasText(text: string, a: nat, b: nat)
    requires a <= b <= |text|
    ensures HasText(text, a, b) <==> !BlankRange(text, a, b)
  {
    BlankSlice(text, a, b);
    Strip(text[a..b]) != ""
  }

  /** The gap loop of `respond` for one range. */
  method Report(text: string, range: Span, spans: seq<Span>) returns (gaps: seq<Span>, coverage: Coverage)
    requires range.start < range.end <= |text| && OrderedSpans(range.start, spans, range.end)
    ensures gaps == Gaps(text, range, spans) && coverage == CoverageOf(spans, gaps)
  {
    gaps := [];
    var cursor := range.start;
    for k := 0 to |spans|
      invariant cursor == Cursor(range.start, spans, k) <= range.end
      invariant gaps == GapsUpTo(text, range.start, spans[..k])
    {
      GapsStep(text, range.start, spans, k);
      CursorBefore(range, spans, k);
      gaps := AddGap(text, cursor, spans[k].start, gaps);
      cursor := spans[k].end;
    }
    assert spans[..|spans|] == spans;
    gaps := AddGap(text, cursor, range.end, gaps);
    coverage := if spans == [] then NotReturned else if gaps != [] then Partial else FullTextReturned;
  }

  method AddGap(text: string, cursor: nat, stop: nat, gaps: seq<Span>) returns (more: seq<Span>)
    requires cursor <= stop <= |text|
    ensures more == gaps + Gap(text, cursor, stop)
  {
    more := gaps;
    if HasText(text, cursor, stop) {
      more := gaps + [Span(cursor, stop)];
    }
  }

  lemma CursorBefore(range: Span, spans: seq<Span>, k: nat)
    requires OrderedSpans(range.start, spans, range.end) && k < |spans|
    ensures Cursor(range.start, spans, k) <= spans[k].start < spans[k].end <= range.end
  {
  }

  lemma GapsStep(text: string, start: nat, spans: seq<Span>, k: nat)
    requires k < |spans|
    ensures GapsUpTo(text, start, spans[..k+1])
         == GapsUpTo(text, start, spans[..k]) + Gap(text, Cursor(start, spans, k), spans[k].start)
  {
    assert spans[..k+1][..k] == spans[..k];
  }

  lemma BlankSlice(text: string, a: nat, b: nat)
    requires a <= b <= |text|
    ensures BlankRange(text[a..b], 0, b - a) <==> BlankRange(text, a, b)
  {
    if BlankRange(text[a..b], 0, b - a) {
      forall i | a <= i < b ensures IsBlank(text[i]) {
        assert text[a..b][i-a] == text[i];
      }
    }
  }

  // ---------------------------------------------------------------- the tiling

  /** Position i is in exactly one span or gap, or is blank. */
  predicate OnceAt(text: string, spans: seq<Span>, gaps: seq<Span>, i: nat)
    requires i < |text|
  {
    !(Covered(spans, i) && Covered(gaps, i)) && (Covered(spans, i) || Covered(gaps, i) || IsBlank(text[i]))
  }

  lemma CoveredSnoc(spans: seq<Span>, last: Span, i: int)
    ensures Covered(spans + [last], i) <==> Covered(spans, i) || Covers(last, i)
  {
    var all := spans + [last];
    if k :| 0 <= k < |spans| && Covers(spans[k], i) {
      assert Covers(all[k], i);
    }
    if Covers(last, i) {
      assert Covers(all[|spans|], i);
    }
    if k :| 0 <= k < |all| && Covers(all[k], i) {
      assert k < |spans| ==> Covers(spans[k], i);
    }
  }

  /** Nothing before the start or after the end of ordered spans is covered by them. */
  lemma OutsideUncovered(lo: nat, spans: seq<Span>, hi: nat, i: int)
    requires OrderedSpans(lo, spans, hi) && (i < lo || hi <= i)
    ensures !Covered(spans, i)
  {
  }

  lemma OrderedSnoc(lo: nat, spans: seq<Span>, end: nat, last: Span, hi: nat)
    requires OrderedSpans(lo, spans, end) && lo <= end <= last.start < last.end <= hi
    ensures OrderedSpans(lo, spans + [last], hi)
  {
  }

  predicate TiledUpTo(text: string, lo: nat, spans: seq<Span>, gaps: seq<Span>, cursor: nat)
    requires cursor <= |text|
  {
    && lo <= cursor && OrderedSpans(lo, spans, cursor) && OrderedSpans(lo, gaps, cursor)
    && (forall i {:trigger OnceAt(text, spans, gaps, i)} :: lo <= i < cursor ==> OnceAt(text, spans, gaps, i))
  }

  /** Closing a stretch between two spans keeps the tiling. */
  lemma TileGap(text: string, lo: nat, spans: seq<Span>, gaps: seq<Span>, cursor: nat, stop: nat)
    requires cursor <= stop <= |text| && TiledUpTo(text, lo, spans, gaps, cursor)
    ensures TiledUpTo(text, lo, spans, gaps + Gap(text, cursor, stop), stop)
  {
    var more := gaps + Gap(text, cursor, stop);
    if BlankRange(text, cursor, stop) {
      assert more == gaps;
    } else {
      OrderedSnoc(lo, gaps, cursor, Span(cursor, stop), stop);
    }
    forall i | lo <= i < stop ensures OnceAt(text, spans, more, i) {
      if i < cursor {
        assert OnceAt(text, spans, gaps, i);
        if more != gaps {
          CoveredSnoc(gaps, Span(cursor, stop), i);
        }
      } else {
        OutsideUncovered(lo, spans, cursor, i);
        if more != gaps {
          CoveredSnoc(gaps, Span(cursor, stop), i);
        }
      }
    }
  }

  lemma TileSpan(text: string, lo: nat, spans: seq<Span>, gaps: seq<Span>, cursor: nat, span: Span)
    requires cursor == span.start < span.end <= |text| && TiledUpTo(text, lo, spans, gaps, cursor)
    ensures TiledUpTo(text, lo, spans + [span], gaps, span.end)
  {
    OrderedSnoc(lo, spans, cursor, span, span.end);
    forall i | lo <= i < span.end ensures OnceAt(text, spans + [span], gaps, i) {
      CoveredSnoc(spans, span, i);
      if i < cursor {
        assert OnceAt(text, spans, gaps, i);
      } else {
        OutsideUncovered(lo, gaps, cursor, i);
      }
    }
  }

  lemma TileNext(text: string, lo: nat, spans: seq<Span>, gaps: seq<Span>, cursor: nat, span: Span)
    requires cursor <= span.start < span.end <= |text| && TiledUpTo(text, lo, spans, gaps, cursor)
    ensures TiledUpTo(text, lo, spans + [span], gaps + Gap(text, cursor, span.start), span.end)
  {
    TileGap(text, lo, spans, gaps, cursor, span.start);
    TileSpan(text, lo, spans, gaps + Gap(text, cursor, span.start), span.start, span);
  }

  /** Spans and their gaps tile the text up to the end of the last span. */
  predicate PrefixTiled(text: string, lo: nat, spans: seq<Span>) {
    && Cursor(lo, spans, |spans|) <= |text|
    && TiledUpTo(text, lo, spans, GapsUpTo(text, lo, spans), Cursor(lo, spans, |spans|))
  }

  lemma GapsSnoc(text: string, lo: nat, spans: seq<Span>, span: Span)
    ensures Cursor(lo, spans + [span], |spans| + 1) == span.end
    ensures GapsUpTo(text, lo, spans + [span]) == GapsUpTo(text, lo, spans) + Gap(text, Cursor(lo, spans, |spans|), span.start)
  {
    assert (spans + [span])[..|spans|] == spans;
    assert Cursor(lo, spans + [span], |spans|) == Cursor(lo, spans, |spans|);
  }

  lemma OrderedUnsnoc(lo: nat, spans: seq<Span>, span: Span, hi: nat)
    requires OrderedSpans(lo, spans + [span], hi)
    ensures OrderedSpans(lo, spans, hi) && lo <= span.start < span.end <= hi && Cursor(lo, spans, |spans|) <= span.start
  {
    var all := spans + [span];
    assert all[|spans|] == span;
    forall k | 0 <= k < |spans| ensures lo <= spans[k].start < spans[k].end <= hi && spans[k].end <= span.start {
      assert all[k] == spans[k];
    }
    forall j, k | 0 <= j < k < |spans| ensures spans[j].end <= spans[k].start {
      assert all[j] == spans[j] && all[k] == spans[k];
    }
  }

  lemma PrefixTiledSnoc(text: string, lo: nat, spans: seq<Span>, span: Span)
    requires PrefixTiled(text, lo, spans) && Cursor(lo, spans, |spans|) <= span.start < span.end <= |text|
    ensures PrefixTiled(text, lo, spans + [span])
  {
    TileNext(text, lo, spans, GapsUpTo(text, lo, spans), Cursor(lo, spans, |spans|), span);
    GapsSnoc(text, lo, spans, span);
  }

  lemma {:induction false} TiledPrefix(text: string, lo: nat, spans: seq<Span>)
    requires lo <= |text| && OrderedSpans(lo, spans, |text|)
    ensures PrefixTiled(text, lo, spans)
    decreases |spans|
  {
    if spans != [] {
      var before, last := Unsnoc(spans);
      OrderedUnsnoc(lo, before, last, |text|);
      TiledPrefix(text, lo, before);
      PrefixTiledSnoc(text, lo, before, last);
    } else {
      assert OrderedSpans(lo, [], lo);
    }
  }

  /** For ordered spans inside a range, the spans and the reported gaps tile the range up to
      white space: every non-blank character lies in exactly one span or in exactly one gap. */
  lemma RangeTiled(text: string, range: Span, spans: seq<Span>)
    requires range.start < range.end <= |text| && OrderedSpans(range.start, spans, range.end)
    ensures TiledUpTo(text, range.start, spans, Gaps(text, range, spans), range.end)
  {
    TiledPrefix(text, range.start, spans);
    TileGap(text, range.start, spans, GapsUpTo(text, range.start, spans),
            Cursor(range.start, spans, |spans|), range.end);
  }

  /** A gap is never blank. */
  lemma {:induction false} GapsUpToSolid(text: string, lo: nat, spans: seq<Span>, g: nat)
    requires lo <= |text| && OrderedSpans(lo, spans, |text|) && g < |GapsUpTo(text, lo, spans)|
    ensures var gap := GapsUpTo(text, lo, spans)[g];
            lo <= gap.start < gap.end <= |text| && !BlankRange(text, gap.start, gap.end)
  {
    var n := |spans| - 1;
    if g < |GapsUpTo(text, lo, spans[..n])| {
      GapsUpToSolid(text, lo, spans[..n], g);
    }
  }

  /** The coverage verdict: the full text was returned if and only if something was returned
      and every non-blank character of the range is inside a returned span. */
  lemma FullTextIff(text: string, range: Span, spans: seq<Span>)
    requires range.start < range.end <= |text| && OrderedSpans(range.start, spans, range.end)
    ensures CoverageOf(spans, Gaps(text, range, spans)).FullTextReturned? <==>
            spans != [] && forall i :: range.start <= i < range.end ==> Covered(spans, i) || IsBlank(text[i])
  {
    var gaps := Gaps(text, range, spans);
    RangeTiled(text, range, spans);
    if gaps == [] {
      NoGapCovers(text, range, spans);
    } else {
      SolidGap(text, range, spans);
    }
  }

  lemma NoGapCovers(text: string, range: Span, spans: seq<Span>)
    requires range.start < range.end <= |text| && TiledUpTo(text, range.start, spans, [], range.end)
    ensures forall i :: range.start <= i < range.end ==> Covered(spans, i) || IsBlank(text[i])
  {
    forall i | range.start <= i < range.end ensures Covered(spans, i) || IsBlank(text[i]) {
      assert OnceAt(text, spans, [], i);
    }
  }

  /** A gap holds a character that no span covers and that is not blank. */
  lemma SolidGap(text: string, range: Span, spans: seq<Span>)
    requires range.start < range.end <= |text| && OrderedSpans(range.start, spans, range.end)
    requires Gaps(text, range, spans) != []
    requires TiledUpTo(text, range.start, spans, Gaps(text, range, spans), range.end)
    ensures exists i :: range.start <= i < range.end && !Covered(spans, i) && !IsBlank(text[i])
  {
    var gaps := Gaps(text, range, spans);
    if 0 < |GapsUpTo(text, range.start, spans)| {
      GapsUpToSolid(text, range.start, spans, 0);
    }
    assert !BlankRange(text, gaps[0].start, gaps[0].end);
    var i :| gaps[0].start <= i < gaps[0].end && !IsBlank(text[i]);
    assert Covers(gaps[0], i) && OnceAt(text, spans, gaps, i);
  }
}
