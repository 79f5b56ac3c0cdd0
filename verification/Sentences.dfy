/** Sentence boundaries over normalized text, and the printed ids of sentences. */
module Sentences {
  import opened Text

  datatype Span = Span(start: nat, end: nat)

  // ---------------------------------------------------------------- the boundary pattern

  predicate IsStop(c: char) {
    c == '.' || c == '!' || c == '?'
  }

  /** End of a run of line feeds. */
  function NewlineEnd(s: string, e: nat): (r: nat)
    requires e <= |s|
    ensures e <= r <= |s|
    decreases |s| - e
  {
    if e < |s| && s[e] == '\n' then NewlineEnd(s, e + 1) else e
  }

  /** Where a match that has already taken the characters before e ends: after a stop that is
      followed by white space or the end, after a run of line feeds, or at the end. */
  function MatchEnd(s: string, e: nat): (r: nat)
    requires e <= |s|
    ensures e <= r <= |s|
    decreases |s| - e
  {
    if e == |s| then e
    else if IsStop(s[e]) && (e + 1 == |s| || IsBlank(s[e+1])) then e + 1
    else if s[e] == '\n' then NewlineEnd(s, e)
    else MatchEnd(s, e + 1)
  }

  /** Successive matches from p; each takes at least one character. */
  function Matches(s: string, p: nat): (ms: seq<Span>)
    requires p <= |s|
    decreases |s| - p
  {
    if p == |s| then [] else
    var e := MatchEnd(s, p + 1);
    [Span(p, e)] + Matches(s, e)
  }

  function Trimmed(s: string, m: Span): (r: Span)
    requires m.start <= m.end <= |s| && !BlankRange(s, m.start, m.end)
    ensures m.start <= r.start < r.end <= m.end
    ensures !IsBlank(s[r.start]) && !IsBlank(s[r.end-1])
    ensures BlankRange(s, m.start, r.start) && BlankRange(s, r.end, m.end)
  {
    var a := Skip(s, m.start, m.end);
    Span(a, Back(s, a, m.end))
  }

  function Spans(s: string, ms: seq<Span>): (r: seq<Span>)
    requires forall k :: 0 <= k < |ms| ==> ms[k].start <= ms[k].end <= |s|
  {
    if ms == [] then []
    else if BlankRange(s, ms[0].start, ms[0].end) then Spans(s, ms[1..])
    else [Trimmed(s, ms[0])] + Spans(s, ms[1..])
  }

  lemma {:induction false} MatchesInText(s: string, p: nat)
    requires p <= |s|
    ensures forall k :: 0 <= k < |Matches(s, p)| ==> p <= Matches(s, p)[k].start < Matches(s, p)[k].end <= |s|
    decreases |s| - p
  {
    if p < |s| {
      var e := MatchEnd(s, p + 1);
      MatchesInText(s, e);
      forall k | 0 <= k < |Matches(s, p)|
        ensures p <= Matches(s, p)[k].start < Matches(s, p)[k].end <= |s|
      {
        if k > 0 {
          assert Matches(s, p)[k] == Matches(s, e)[k-1];
        }
      }
    }
  }

  function SentenceSpans(s: string): seq<Span> {
    MatchesInText(s, 0);
    Spans(s, Matches(s, 0))
  }

  // ---------------------------------------------------------------- what the spans are

  predicate Covers(span: Span, i: int) {
    span.start <= i < span.end
  }

  predicate Covered(spans: seq<Span>, i: int) {
    exists k :: 0 <= k < |spans| && Covers(spans[k], i)
  }

  predicate OrderedSpans(lo: nat, spans: seq<Span>, hi: nat) {
    && (forall k :: 0 <= k < |spans| ==> lo <= spans[k].start < spans[k].end <= hi)
    && (forall j, k :: 0 <= j < k < |spans| ==> spans[j].end <= spans[k].start)
  }

  predicate CleanEnds(s: string, spans: seq<Span>) {
    forall k :: 0 <= k < |spans| ==>
      spans[k].start < spans[k].end <= |s| && !IsBlank(s[spans[k].start]) && !IsBlank(s[spans[k].end-1])
  }

  predicate NoneMissed(s: string, lo: nat, spans: seq<Span>) {
    forall i {:trigger Covered(spans, i)} :: lo <= i < |s| && !IsBlank(s[i]) ==> Covered(spans, i)
  }

  /** The spans cut the text from lo on at its blanks. */
  predicate Tiles(s: string, lo: nat, spans: seq<Span>) {
    OrderedSpans(lo, spans, |s|) && CleanEnds(s, spans) && NoneMissed(s, lo, spans)
  }

  lemma CoveredCons(first: Span, rest: seq<Span>, i: int)
    ensures Covered([first] + rest, i) <==> Covers(first, i) || Covered(rest, i)
  {
    var spans := [first] + rest;
    if Covers(first, i) {
      assert Covers(spans[0], i);
    }
    if k :| 0 <= k < |rest| && Covers(rest[k], i) {
      assert Covers(spans[k+1], i);
    }
    if k :| 0 <= k < |spans| && Covers(spans[k], i) {
      assert k > 0 ==> Covers(rest[k-1], i);
    }
  }

  lemma MissedCons(s: string, lo: nat, first: Span, e: nat, rest: seq<Span>)
    requires lo <= first.start < first.end <= e <= |s|
    requires BlankRange(s, lo, first.start) && BlankRange(s, first.end, e)
    requires NoneMissed(s, e, rest)
    ensures NoneMissed(s, lo, [first] + rest)
  {
    forall i | lo <= i < |s| && !IsBlank(s[i]) ensures Covered([first] + rest, i) {
      CoveredCons(first, rest, i);
    }
  }

  lemma OrderedCons(lo: nat, first: Span, e: nat, rest: seq<Span>, hi: nat)
    requires lo <= first.start < first.end <= e <= hi && OrderedSpans(e, rest, hi)
    ensures OrderedSpans(lo, [first] + rest, hi)
  {
  }

  lemma CleanCons(s: string, first: Span, rest: seq<Span>)
    requires CleanEnds(s, rest)
    requires first.start < first.end <= |s| && !IsBlank(s[first.start]) && !IsBlank(s[first.end-1])
    ensures CleanEnds(s, [first] + rest)
  {
  }

  lemma BlankSkipped(s: string, p: nat, e: nat, rest: seq<Span>)
    requires p <= e <= |s| && BlankRange(s, p, e) && Tiles(s, e, rest)
    ensures Tiles(s, p, rest)
  {
    forall i | p <= i < |s| && !IsBlank(s[i]) ensures Covered(rest, i) {
      assert e <= i;
    }
  }

  lemma FirstTiles(s: string, p: nat, e: nat, first: Span, rest: seq<Span>)
    requires p <= first.start < first.end <= e <= |s| && Tiles(s, e, rest)
    requires !IsBlank(s[first.start]) && !IsBlank(s[first.end-1])
    requires BlankRange(s, p, first.start) && BlankRange(s, first.end, e)
    ensures Tiles(s, p, [first] + rest)
  {
    MissedCons(s, p, first, e, rest);
    OrderedCons(p, first, e, rest, |s|);
    CleanCons(s, first, rest);
  }

  /** Putting one match in front of tiled text keeps it tiled. */
  lemma ConsTiles(s: string, p: nat, e: nat, rest: seq<Span>, all: seq<Span>)
    requires p < e <= |s| && Tiles(s, e, rest)
    requires all == if BlankRange(s, p, e) then rest else [Trimmed(s, Span(p, e))] + rest
    ensures Tiles(s, p, all)
  {
    if BlankRange(s, p, e) {
      BlankSkipped(s, p, e, rest);
    } else {
      FirstTiles(s, p, e, Trimmed(s, Span(p, e)), rest);
    }
  }

  predicate InText(s: string, ms: seq<Span>) {
    forall k :: 0 <= k < |ms| ==> ms[k].start <= ms[k].end <= |s|
  }

  lemma SpansCons(s: string, m: Span, ms: seq<Span>)
    requires m.start <= m.end <= |s| && InText(s, ms)
    ensures Spans(s, [m] + ms) == if BlankRange(s, m.start, m.end) then Spans(s, ms) else [Trimmed(s, m)] + Spans(s, ms)
  {
    assert ([m] + ms)[1..] == ms && ([m] + ms)[0] == m;
  }

  lemma TileStep(s: string, p: nat, e: nat, ms: seq<Span>)
    requires p < e <= |s| && InText(s, ms) && Tiles(s, e, Spans(s, ms))
    ensures InText(s, [Span(p, e)] + ms) && Tiles(s, p, Spans(s, [Span(p, e)] + ms))
  {
    SpansCons(s, Span(p, e), ms);
    ConsTiles(s, p, e, Spans(s, ms), Spans(s, [Span(p, e)] + ms));
  }

  lemma {:induction false} SpansTile(s: string, p: nat)
    requires p <= |s|
    ensures InText(s, Matches(s, p)) && Tiles(s, p, Spans(s, Matches(s, p)))
    decreases |s| - p
  {
    if p < |s| {
      var e := MatchEnd(s, p + 1);
      SpansTile(s, e);
      TileStep(s, p, e, Matches(s, e));
    }
  }

  /** Sentence spans are ordered and disjoint, start and end on a non-blank character, and
      leave out nothing but blanks. */
  lemma SentencesTileText(s: string)
    ensures Tiles(s, 0, SentenceSpans(s))
  {
    SpansTile(s, 0);
  }

  // ---------------------------------------------------------------- where the boundaries are

  /** The characters from b to e end a match: a stop before white space or the end, a whole run
      of line feeds from b on, or nothing at the end of the text. */
  predicate Terminates(s: string, b: nat, e: nat) {
    && b <= e <= |s|
    && if b == |s| then e == b
       else if s[b] == '\n' then b < e && (forall i :: b <= i < e ==> s[i] == '\n') && (e < |s| ==> s[e] != '\n')
       else e == b + 1 && (s[b] == '.' || s[b] == '!' || s[b] == '?') && (e < |s| ==> IsBlank(s[e]))
  }

  /** The first end of a match that takes at least the character at p. */
  ghost predicate FirstEnd(s: string, p: nat, b: nat, e: nat) {
    p < b && Terminates(s, b, e) && forall c: nat, d: nat :: p < c < b ==> !Terminates(s, c, d)
  }

  lemma {:induction false} NewlineRun(s: string, b: nat, e: nat)
    requires b <= e <= |s|
    ensures var r := NewlineEnd(s, e);
            (forall i :: e <= i < r ==> s[i] == '\n') && (r < |s| ==> s[r] != '\n')
    decreases |s| - e
  {
    if e < |s| && s[e] == '\n' {
      NewlineRun(s, b, e + 1);
    }
  }

  lemma {:induction false} MatchEndTerminates(s: string, q: nat) returns (b: nat)
    requires q <= |s|
    ensures q <= b && Terminates(s, b, MatchEnd(s, q))
    ensures forall c: nat, d: nat :: q <= c < b ==> !Terminates(s, c, d)
    decreases |s| - q
  {
    b := q;
    if q < |s| {
      if s[q] == '\n' {
        NewlineRun(s, q, q);
      } else if !(IsStop(s[q]) && (q + 1 == |s| || IsBlank(s[q+1]))) {
        b := MatchEndTerminates(s, q + 1);
      }
    }
  }

  lemma OneTerminator(s: string, b: nat, d: nat, e: nat)
    requires Terminates(s, b, d) && Terminates(s, b, e)
    ensures d == e
  {
  }

  /** A match from p ends exactly at the first end of the boundary pattern after p. */
  lemma MatchEndIff(s: string, p: nat, e: nat)
    requires p < |s|
    ensures e == MatchEnd(s, p + 1) <==> exists b: nat :: FirstEnd(s, p, b, e)
  {
    var b := MatchEndTerminates(s, p + 1);
    assert FirstEnd(s, p, b, MatchEnd(s, p + 1));
    if c: nat :| FirstEnd(s, p, c, e) {
      assert b == c;
      OneTerminator(s, b, e, MatchEnd(s, p + 1));
    }
  }

  /** No boundary inside a sentence: no line feed, and no stop before white space but at its
      first character. */
  predicate Uncut(s: string, span: Span) {
    && span.end <= |s|
    && (forall i :: span.start <= i < span.end ==> s[i] != '\n')
    && (forall i :: span.start < i < span.end - 1 && IsStop(s[i]) ==> !IsBlank(s[i+1]))
  }

  /** A boundary between two sentences: the first ends with a stop before white space, or a line
      feed separates them. */
  predicate CutBetween(s: string, a: Span, b: Span) {
    && 0 < a.end < b.start <= |s|
    && ((IsStop(s[a.end-1]) && IsBlank(s[a.end])) || exists i :: a.end <= i < b.start && s[i] == '\n')
  }

  predicate CutRight(s: string, spans: seq<Span>) {
    && (forall k :: 0 <= k < |spans| ==> Uncut(s, spans[k]))
    && (forall k {:trigger spans[k]} :: 0 < k < |spans| ==> CutBetween(s, spans[k-1], spans[k]))
  }

  lemma TrimmedUncut(s: string, p: nat, b: nat, e: nat)
    requires FirstEnd(s, p, b, e) && !BlankRange(s, p, e)
    ensures Uncut(s, Trimmed(s, Span(p, e)))
  {
    var span := Trimmed(s, Span(p, e));
    forall i | span.start <= i < span.end ensures s[i] != '\n' {
      if s[i] == '\n' {
        NewlineRun(s, i, i);
        assert Terminates(s, i, NewlineEnd(s, i));
      }
    }
    forall i | span.start < i < span.end - 1 && IsStop(s[i]) ensures !IsBlank(s[i+1]) {
      if IsBlank(s[i+1]) {
        assert Terminates(s, i, i + 1);
      }
    }
  }

  lemma TrimmedCut(s: string, p: nat, b: nat, e: nat, next: Span)
    requires FirstEnd(s, p, b, e) && !BlankRange(s, p, e) && e <= next.start < next.end <= |s| && !IsBlank(s[next.start])
    ensures CutBetween(s, Trimmed(s, Span(p, e)), next)
  {
    var span := Trimmed(s, Span(p, e));
    if s[b] == '\n' {
      assert span.end <= b;
    } else {
      assert span.end == e;
    }
  }

  lemma CutCons(s: string, first: Span, rest: seq<Span>)
    requires Uncut(s, first) && CutRight(s, rest) && (rest != [] ==> CutBetween(s, first, rest[0]))
    ensures CutRight(s, [first] + rest)
  {
    var all := [first] + rest;
    forall k | 0 < k < |all| ensures CutBetween(s, all[k-1], all[k]) {
      assert all[k] == rest[k-1];
      assert k > 1 ==> all[k-1] == rest[k-2];
    }
  }

  lemma FirstTiled(s: string, e: nat, rest: seq<Span>)
    requires Tiles(s, e, rest) && rest != []
    ensures e <= rest[0].start < rest[0].end <= |s| && !IsBlank(s[rest[0].start])
  {
  }

  /** Putting the sentence of one match in front keeps the cuts right. */
  lemma CutMatch(s: string, p: nat, b: nat, e: nat, rest: seq<Span>)
    requires FirstEnd(s, p, b, e) && !BlankRange(s, p, e)
    requires CutRight(s, rest) && Tiles(s, e, rest)
    ensures CutRight(s, [Trimmed(s, Span(p, e))] + rest)
  {
    TrimmedUncut(s, p, b, e);
    if rest != [] {
      FirstTiled(s, e, rest);
      TrimmedCut(s, p, b, e, rest[0]);
    }
    CutCons(s, Trimmed(s, Span(p, e)), rest);
  }

  lemma CutStep(s: string, p: nat, e: nat, ms: seq<Span>, rest: seq<Span>)
    requires p < |s| && e == MatchEnd(s, p + 1) && InText(s, ms) && rest == Spans(s, ms)
    requires CutRight(s, rest) && Tiles(s, e, rest)
    ensures InText(s, [Span(p, e)] + ms) && CutRight(s, Spans(s, [Span(p, e)] + ms))
  {
    SpansCons(s, Span(p, e), ms);
    if !BlankRange(s, p, e) {
      var b := MatchEndTerminates(s, p + 1);
      CutMatch(s, p, b, e, rest);
    }
  }

  lemma {:induction false} SpansCut(s: string, p: nat)
    requires p <= |s|
    ensures InText(s, Matches(s, p)) && CutRight(s, Spans(s, Matches(s, p)))
    decreases |s| - p
  {
    if p < |s| {
      var e := MatchEnd(s, p + 1);
      SpansCut(s, e);
      SpansTile(s, e);
      CutStep(s, p, e, Matches(s, e), Spans(s, Matches(s, e)));
    }
  }

  /** Sentences are cut where the pattern says and nowhere else: none has a boundary inside, and
      between any two neighbours there is one. */
  lemma SentencesCut(s: string)
    ensures CutRight(s, SentenceSpans(s))
  {
    SpansCut(s, 0);
  }

  // ---------------------------------------------------------------- printed ids

  function Digit(n: nat): (c: char)
    requires n < 10
    ensures c != ':'
  {
    ('0' as int + n) as char
  }

  /** Decimal notation without leading zeros. */
  function Decimal(n: nat): (s: string)
    ensures s != "" && ':' !in s
  {
    if n < 10 then [Digit(n)] else Decimal(n / 10) + [Digit(n % 10)]
  }

  function Value(s: string): nat {
    if s == "" then 0
    else
      var c := s[|s|-1] as int - '0' as int;
      10 * Value(s[..|s|-1]) + (if 0 <= c < 10 then c else 0)
  }

  /** Printing is undone by reading, so it is injective. */
  lemma {:induction false} DecimalRoundTrip(n: nat)
    ensures Value(Decimal(n)) == n
  {
    if n >= 10 {
      DecimalRoundTrip(n / 10);
      assert Decimal(n)[..|Decimal(n)|-1] == Decimal(n / 10);
    } else {
      assert Value("") == 0 && Decimal(n)[..0] == "";
    }
  }

  function SentenceId(source: string, i: nat): string {
    source + ":" + Decimal(i)
  }

  function LastColon(s: string): int {
    if s == "" || s[|s|-1] == ':' then |s| - 1 else LastColon(s[..|s|-1])
  }

  lemma {:induction false} LastColonFound(a: string, x: string)
    requires ':' !in x
    ensures LastColon(a + ":" + x) == |a|
  {
    var s := a + ":" + x;
    if x != "" {
      assert x[|x|-1] in x;
      assert s[..|s|-1] == a + ":" + x[..|x|-1];
      LastColonFound(a, x[..|x|-1]);
    }
  }

  /** A sentence id names one sentence of one source, even if source ids contain colons. */
  lemma SentenceIdInjective(a: string, i: nat, b: string, j: nat)
    requires SentenceId(a, i) == SentenceId(b, j)
    ensures a == b && i == j
  {
    LastColonFound(a, Decimal(i));
    LastColonFound(b, Decimal(j));
    var id := SentenceId(a, i);
    assert a == id[..|a|] && Decimal(i) == id[|a|+1..];
    assert b == id[..|b|] && Decimal(j) == id[|b|+1..];
    DecimalRoundTrip(i);
    DecimalRoundTrip(j);
  }
}
