/**
 Reversible display text: some raw characters are deleted for display, a quote is found in
 the display text, and a boundary table restores its raw offsets.
 */
module DisplayMap {
  import opened Wrappers
  import opened Text

  // ---------------------------------------------------------------- the alignment

  /** Raw indices below n that are displayed, in order. */
  function Retained(n: nat, deleted: set<int>): seq<nat> {
    if n == 0 then [] else Retained(n - 1, deleted) + (if n - 1 in deleted then [] else [n - 1])
  }

  function DisplayUpTo(raw: string, n: nat, deleted: set<int>): (text: string)
    requires n <= |raw|
    ensures |text| == |Retained(n, deleted)|
  {
    if n == 0 then "" else DisplayUpTo(raw, n - 1, deleted) + (if n - 1 in deleted then "" else [raw[n-1]])
  }

  function Display(raw: string, deleted: set<int>): (text: string)
    ensures |text| == |Retained(|raw|, deleted)|
  {
    DisplayUpTo(raw, |raw|, deleted)
  }

  /** Entry k is one past the raw index of the k-th displayed character; entry 0 is 0. */
  function Boundaries(n: nat, deleted: set<int>): (bs: seq<int>)
    ensures |bs| == |Retained(n, deleted)| + 1
  {
    if n == 0 then [0] else Boundaries(n - 1, deleted) + (if n - 1 in deleted then [] else [n])
  }

  /** The loop that builds the display and its table. */
  method Align(raw: string, deleted: set<int>) returns (text: string, boundaries: seq<int>)
    ensures text == Display(raw, deleted) && boundaries == Boundaries(|raw|, deleted)
  {
    text, boundaries := "", [0];
    for i := 0 to |raw|
      invariant text == DisplayUpTo(raw, i, deleted) && boundaries == Boundaries(i, deleted)
    {
      if i !in deleted {
        text := text + [raw[i]];
        boundaries := boundaries + [i + 1];
      }
    }
  }

  /** What the k-th displayed character is, in all three tables. */
  lemma {:induction false} Entry(raw: string, n: nat, deleted: set<int>, k: nat)
    requires n <= |raw| && k < |Retained(n, deleted)|
    ensures k <= Retained(n, deleted)[k] < n && Retained(n, deleted)[k] !in deleted
    ensures DisplayUpTo(raw, n, deleted)[k] == raw[Retained(n, deleted)[k]]
    ensures Boundaries(n, deleted)[k+1] == Retained(n, deleted)[k] + 1
  {
    if k < |Retained(n - 1, deleted)| {
      Entry(raw, n - 1, deleted, k);
    } else {
      assert |Retained(n - 1, deleted)| <= n - 1 by { RetainedShort(n - 1, deleted); }
    }
  }

  lemma {:induction false} RetainedShort(n: nat, deleted: set<int>)
    ensures |Retained(n, deleted)| <= n
  {
    if n > 0 {
      RetainedShort(n - 1, deleted);
    }
  }

  datatype Error = SpanRange | SplitCodepoint

  function RawSpan(boundaries: seq<int>, start: int, end: int): Result<(int, int), Error> {
    if !(0 <= start < end < |boundaries|) then Failure(SpanRange)
    else Success((boundaries[start+1] - 1, boundaries[end]))
  }

  /** Position of the first entry with this value, or the number of entries. */
  function IndexOf(xs: seq<int>, x: int): (k: nat)
    ensures k <= |xs|
  {
    if xs == [] || xs[0] == x then 0 else 1 + IndexOf(xs[1..], x)
  }

  lemma {:induction false} IndexFound(xs: seq<int>, x: int)
    ensures IndexOf(xs, x) < |xs| <==> x in xs
    ensures IndexOf(xs, x) < |xs| ==> xs[IndexOf(xs, x)] == x
  {
    if xs != [] && xs[0] != x {
      IndexFound(xs[1..], x);
    }
  }

  lemma {:induction false} IndexIsFirst(xs: seq<int>, k: nat)
    requires k < |xs|
    ensures IndexOf(xs, xs[k]) <= k
  {
    if k > 0 && xs[0] != xs[k] {
      IndexIsFirst(xs[1..], k - 1);
    }
  }

  function SelectedSpan(n: nat, boundaries: seq<int>, start: int, end: int): Result<(int, int), Error>
    requires boundaries != []
  {
    var kept := boundaries[1..];
    if !(0 <= start < end <= n) then Failure(SpanRange)
    else if IndexOf(kept, start + 1) == |kept| || IndexOf(kept, end) == |kept| then Failure(SplitCodepoint)
    else Success((IndexOf(kept, start + 1), IndexOf(kept, end) + 1))
  }

  // ---------------------------------------------------------------- ranks

  /** Number of displayed characters before raw position i. */
  function Rank(i: nat, deleted: set<int>): nat {
    |Retained(i, deleted)|
  }

  /** The displayed characters of raw[a..b]. */
  function Kept(raw: string, a: nat, b: nat, deleted: set<int>): string
    requires a <= b <= |raw|
  {
    if a == b then "" else Kept(raw, a, b - 1, deleted) + (if b - 1 in deleted then "" else [raw[b-1]])
  }

  lemma {:induction false} RankMonotone(i: nat, j: nat, deleted: set<int>)
    requires i <= j
    ensures Rank(i, deleted) <= Rank(j, deleted)
    decreases j
  {
    if i < j {
      RankMonotone(i, j - 1, deleted);
    }
  }

  lemma {:induction false} DisplayPrefix(raw: string, i: nat, n: nat, deleted: set<int>)
    requires i <= n <= |raw|
    ensures Rank(i, deleted) <= Rank(n, deleted)
    ensures DisplayUpTo(raw, i, deleted) == DisplayUpTo(raw, n, deleted)[..Rank(i, deleted)]
    decreases n
  {
    if i < n {
      DisplayPrefix(raw, i, n - 1, deleted);
    }
  }

  /** Deleting characters from a raw slice gives the slice of the display between the ranks. */
  lemma {:induction false} KeptUpTo(raw: string, a: nat, b: nat, deleted: set<int>)
    requires a <= b <= |raw|
    ensures Rank(a, deleted) <= Rank(b, deleted)
    ensures Kept(raw, a, b, deleted) == DisplayUpTo(raw, b, deleted)[Rank(a, deleted)..]
    decreases b
  {
    if a < b {
      KeptUpTo(raw, a, b - 1, deleted);
    }
  }

  lemma KeptIsSlice(raw: string, a: nat, b: nat, deleted: set<int>)
    requires a <= b <= |raw|
    ensures Rank(a, deleted) <= Rank(b, deleted) <= |Display(raw, deleted)|
    ensures Kept(raw, a, b, deleted) == Display(raw, deleted)[Rank(a, deleted)..Rank(b, deleted)]
  {
    KeptUpTo(raw, a, b, deleted);
    DisplayPrefix(raw, b, |raw|, deleted);
  }

  /** The k-th displayed character has rank k, and the position after it rank k + 1. */
  lemma {:induction false} RankOfRetained(n: nat, deleted: set<int>, k: nat)
    requires k < |Retained(n, deleted)|
    ensures Rank(Retained(n, deleted)[k], deleted) == k
    ensures Rank(Retained(n, deleted)[k] + 1, deleted) == k + 1
    ensures Retained(n, deleted)[k] < n && Retained(n, deleted)[k] !in deleted
  {
    if k < |Retained(n - 1, deleted)| {
      RankOfRetained(n - 1, deleted, k);
    }
  }

  lemma RankReflects(i: nat, j: nat, deleted: set<int>)
    requires Rank(i, deleted) < Rank(j, deleted)
    ensures i < j
  {
    if j <= i {
      RankMonotone(j, i, deleted);
      assert false;
    }
  }

  // ---------------------------------------------------------------- restoration

  function RestoredStart(raw: string, deleted: set<int>, s: nat): nat
    requires s < |Display(raw, deleted)|
  {
    Retained(|raw|, deleted)[s]
  }

  function RestoredEnd(raw: string, deleted: set<int>, e: nat): nat
    requires 0 < e <= |Display(raw, deleted)|
  {
    Retained(|raw|, deleted)[e-1] + 1
  }

  /** The boundary table restores the raw index of the first character and one past that of
      the last: the span starts and ends on displayed characters and spells the display. */
  lemma RestoredSpan(raw: string, deleted: set<int>, s: nat, e: nat)
    requires s < e <= |Display(raw, deleted)|
    ensures var (a, b) := (RestoredStart(raw, deleted, s), RestoredEnd(raw, deleted, e));
            && RawSpan(Boundaries(|raw|, deleted), s, e) == Success((a, b))
            && a < b <= |raw| && a !in deleted && b - 1 !in deleted
            && Rank(a, deleted) == s && Rank(b, deleted) == e
            && Kept(raw, a, b, deleted) == Display(raw, deleted)[s..e]
  {
    RestoredEntries(raw, deleted, s, e);
    KeptIsSlice(raw, RestoredStart(raw, deleted, s), RestoredEnd(raw, deleted, e), deleted);
  }

  lemma RestoredEntries(raw: string, deleted: set<int>, s: nat, e: nat)
    requires s < e <= |Display(raw, deleted)|
    ensures var (a, b) := (RestoredStart(raw, deleted, s), RestoredEnd(raw, deleted, e));
            && RawSpan(Boundaries(|raw|, deleted), s, e) == Success((a, b))
            && a < b <= |raw| && a !in deleted && b - 1 !in deleted
            && Rank(a, deleted) == s && Rank(b, deleted) == e
  {
    RestoredEdge(raw, deleted, s);
    RestoredEdge(raw, deleted, e - 1);
    RankReflects(RestoredStart(raw, deleted, s), RestoredEnd(raw, deleted, e), deleted);
  }

  lemma RestoredEdge(raw: string, deleted: set<int>, k: nat)
    requires k < |Display(raw, deleted)|
    ensures var i := Retained(|raw|, deleted)[k];
            && i < |raw| && i !in deleted && Boundaries(|raw|, deleted)[k+1] == i + 1
            && Rank(i, deleted) == k && Rank(i + 1, deleted) == k + 1
  {
    Entry(raw, |raw|, deleted, k);
    RankOfRetained(|raw|, deleted, k);
  }

  /** A raw span with the ranks of a restored span contains it. */
  lemma RestoredIsSmallest(raw: string, deleted: set<int>, s: nat, e: nat, a: nat, b: nat)
    requires s < e <= |Display(raw, deleted)| && a <= b <= |raw|
    requires Rank(a, deleted) == s && Rank(b, deleted) == e
    ensures a <= RestoredStart(raw, deleted, s) && RestoredEnd(raw, deleted, e) <= b
  {
    RankOfRetained(|raw|, deleted, s);
    RankOfRetained(|raw|, deleted, e - 1);
    RankReflects(a, RestoredStart(raw, deleted, s) + 1, deleted);
    RankReflects(RestoredEnd(raw, deleted, e) - 1, b, deleted);
  }

  predicate Spells(raw: string, deleted: set<int>, quote: string, a: nat, b: nat) {
    a <= b <= |raw| && Kept(raw, a, b, deleted) == quote
  }

  /** A raw span spells a quote exactly at its ranks. */
  lemma SpellsMeansOccurs(raw: string, deleted: set<int>, quote: string, a: nat, b: nat)
    requires Spells(raw, deleted, quote, a, b)
    ensures OccursAt(Display(raw, deleted), quote, Rank(a, deleted))
    ensures Rank(b, deleted) == Rank(a, deleted) + |quote|
  {
    KeptIsSlice(raw, a, b, deleted);
  }

  /** Restoring an occurrence of a quote gives the smallest raw span that spells it if and only
      if that is the only occurrence in the display, counting overlapping ones. */
  lemma SmallestSpellingIff(raw: string, deleted: set<int>, quote: string, s: nat)
    requires quote != "" && OccursAt(Display(raw, deleted), quote, s)
    ensures var (a0, b0) := (RestoredStart(raw, deleted, s), RestoredEnd(raw, deleted, s + |quote|));
            (forall a: nat, b: nat :: Spells(raw, deleted, quote, a, b) ==> a <= a0 && b0 <= b)
            <==> (forall i :: OccursAt(Display(raw, deleted), quote, i) ==> i == s)
  {
    var text := Display(raw, deleted);
    var (a0, b0) := (RestoredStart(raw, deleted, s), RestoredEnd(raw, deleted, s + |quote|));
    if forall i :: OccursAt(text, quote, i) ==> i == s {
      forall a: nat, b: nat | Spells(raw, deleted, quote, a, b) ensures a <= a0 && b0 <= b {
        SpellsMeansOccurs(raw, deleted, quote, a, b);
        RestoredIsSmallest(raw, deleted, s, s + |quote|, a, b);
      }
    } else {
      var i :| OccursAt(text, quote, i) && i != s;
      OtherSpelling(raw, deleted, quote, s, i);
    }
  }

  /** Another occurrence restores to a span that does not contain the first one. */
  lemma OtherSpelling(raw: string, deleted: set<int>, quote: string, s: nat, i: nat)
    requires quote != "" && OccursAt(Display(raw, deleted), quote, s) && OccursAt(Display(raw, deleted), quote, i)
    requires i != s
    ensures var (a, b) := (RestoredStart(raw, deleted, i), RestoredEnd(raw, deleted, i + |quote|));
            && Spells(raw, deleted, quote, a, b)
            && !(a <= RestoredStart(raw, deleted, s) && RestoredEnd(raw, deleted, s + |quote|) <= b)
  {
    RestoredSpan(raw, deleted, i, i + |quote|);
    RestoredSpan(raw, deleted, s, s + |quote|);
    var (a, b) := (RestoredStart(raw, deleted, i), RestoredEnd(raw, deleted, i + |quote|));
    var (a0, b0) := (RestoredStart(raw, deleted, s), RestoredEnd(raw, deleted, s + |quote|));
    if i < s {
      RankReflects(b, b0, deleted);
    } else {
      RankReflects(a0, a, deleted);
    }
  }

  // ---------------------------------------------------------------- the inverse map

  lemma {:induction false} InTable(n: nat, deleted: set<int>, x: int)
    ensures x in Boundaries(n, deleted)[1..] <==> 1 <= x <= n && x - 1 !in deleted
  {
    if n > 0 {
      InTable(n - 1, deleted, x);
      var before := Boundaries(n - 1, deleted);
      assert Boundaries(n, deleted)[1..] == before[1..] + (if n - 1 in deleted then [] else [n]);
    }
  }

  lemma {:induction false} TableIncreases(n: nat, deleted: set<int>, j: nat, k: nat)
    requires j < k < |Boundaries(n, deleted)|
    ensures Boundaries(n, deleted)[j] < Boundaries(n, deleted)[k] <= n
  {
    if k < |Boundaries(n - 1, deleted)| {
      TableIncreases(n - 1, deleted, j, k);
    } else if j > 0 {
      TableIncreases(n - 1, deleted, 0, j);
    } else {
      TableStart(n - 1, deleted);
    }
  }

  lemma {:induction false} TableStart(n: nat, deleted: set<int>)
    ensures Boundaries(n, deleted)[0] == 0
  {
    if n > 0 {
      TableStart(n - 1, deleted);
    }
  }

  lemma TableIndex(n: nat, deleted: set<int>, k: nat)
    requires k + 1 < |Boundaries(n, deleted)|
    ensures IndexOf(Boundaries(n, deleted)[1..], Boundaries(n, deleted)[k+1]) == k
  {
    var kept := Boundaries(n, deleted)[1..];
    IndexIsFirst(kept, k);
    IndexFound(kept, kept[k]);
    var j := IndexOf(kept, kept[k]);
    if j < k {
      TableIncreases(n, deleted, j + 1, k + 1);
      assert false;
    }
  }

  lemma IndexMonotone(n: nat, deleted: set<int>, kept: seq<int>, x: int, y: int)
    requires kept == Boundaries(n, deleted)[1..] && x <= y
    requires IndexOf(kept, x) < |kept| && IndexOf(kept, y) < |kept|
    ensures IndexOf(kept, x) <= IndexOf(kept, y)
  {
    IndexFound(kept, x);
    IndexFound(kept, y);
    var j, k := IndexOf(kept, x), IndexOf(kept, y);
    if k < j {
      TableIncreases(n, deleted, k + 1, j + 1);
      assert false;
    }
  }

  /** Display offsets survive the round trip through raw offsets. */
  lemma DisplayRoundTrip(raw: string, deleted: set<int>, s: nat, e: nat)
    requires s < e <= |Display(raw, deleted)|
    ensures var bs := Boundaries(|raw|, deleted);
            var raw0 := RawSpan(bs, s, e);
            raw0.Success? && SelectedSpan(|raw|, bs, raw0.value.0, raw0.value.1) == Success((s, e))
  {
    RestoredSpan(raw, deleted, s, e);
    TableIndex(|raw|, deleted, s);
    TableIndex(|raw|, deleted, e - 1);
  }

  lemma InKept(n: nat, deleted: set<int>, kept: seq<int>, x: int)
    requires kept == Boundaries(n, deleted)[1..]
    ensures IndexOf(kept, x) < |kept| <==> 1 <= x <= n && x - 1 !in deleted
    ensures IndexOf(kept, x) < |kept| ==> kept[IndexOf(kept, x)] == x
  {
    InTable(n, deleted, x);
    IndexFound(kept, x);
  }

  /** A raw span has display offsets exactly when both of its edge characters are displayed,
      and then it survives the round trip. */
  lemma RawRoundTripIff(n: nat, deleted: set<int>, a: nat, b: nat)
    requires a < b <= n
    ensures var r := SelectedSpan(n, Boundaries(n, deleted), a, b);
            (r.Success? <==> a !in deleted && b - 1 !in deleted)
    ensures var r := SelectedSpan(n, Boundaries(n, deleted), a, b);
            r.Success? ==> RawSpan(Boundaries(n, deleted), r.value.0, r.value.1) == Success((a, b))
  {
    var kept := Boundaries(n, deleted)[1..];
    InKept(n, deleted, kept, a + 1);
    InKept(n, deleted, kept, b);
    if IndexOf(kept, a + 1) < |kept| && IndexOf(kept, b) < |kept| {
      IndexMonotone(n, deleted, kept, a + 1, b);
    }
  }

  /** Which spans each map refuses: an empty span, one that leaves its text, and for the raw map
      one whose first or last character is deleted. */
  lemma RefusedSpans(n: nat, deleted: set<int>, start: int, end: int)
    ensures var bs := Boundaries(n, deleted);
            && (RawSpan(bs, start, end) == Failure(SpanRange) <==> start < 0 || start >= end || end > Rank(n, deleted))
            && (SelectedSpan(n, bs, start, end) == Failure(SpanRange) <==> start < 0 || start >= end || end > n)
            && (SelectedSpan(n, bs, start, end) == Failure(SplitCodepoint) <==>
                  0 <= start < end <= n && (start in deleted || end - 1 in deleted))
  {
    if 0 <= start < end <= n {
      RawRoundTripIff(n, deleted, start, end);
    }
  }

  // ---------------------------------------------------------------- counting occurrences

  /** First occurrence at or after i, or |text| + 1. */
  function FirstFrom(text: string, quote: string, i: nat): (k: nat)
    requires i <= |text|
    ensures i <= k <= |text| + 1
    ensures k <= |text| ==> OccursAt(text, quote, k)
    decreases |text| - i
  {
    if OccursAt(text, quote, i) then i
    else if i == |text| then |text| + 1
    else FirstFrom(text, quote, i + 1)
  }

  lemma {:induction false} NoneBeforeFirst(text: string, quote: string, i: nat, j: nat)
    requires i <= |text| && i <= j < FirstFrom(text, quote, i)
    ensures !OccursAt(text, quote, j)
    decreases |text| - i
  {
    if i < j {
      NoneBeforeFirst(text, quote, i + 1, j);
    }
  }

  /** `str.count`: occurrences taken from the left without overlap. */
  function Count(text: string, quote: string, i: nat): nat
    requires i <= |text| && quote != ""
    decreases |text| + 1 - i, 1
  {
    CountAt(text, quote, FirstFrom(text, quote, i))
  }

  /** The count when the next occurrence is at k, if k is in the text. */
  function CountAt(text: string, quote: string, k: nat): nat
    requires k <= |text| + 1 && quote != "" && (k <= |text| ==> OccursAt(text, quote, k))
    decreases |text| + 1 - k, 0
  {
    if k > |text| then 0 else 1 + Count(text, quote, k + |quote|)
  }

  ghost predicate NoneFrom(text: string, quote: string, i: nat) {
    forall j :: i <= j ==> !OccursAt(text, quote, j)
  }

  /** Every occurrence starts inside the occurrence at k. */
  ghost predicate AllWithin(text: string, quote: string, k: nat) {
    forall i :: OccursAt(text, quote, i) ==> k <= i < k + |quote|
  }

  lemma CountZeroIff(text: string, quote: string, i: nat)
    requires i <= |text| && quote != ""
    ensures Count(text, quote, i) == 0 <==> NoneFrom(text, quote, i)
  {
    var k := FirstFrom(text, quote, i);
    if k <= |text| {
      assert OccursAt(text, quote, k);
    } else {
      forall j | i <= j ensures !OccursAt(text, quote, j) {
        if j <= |text| {
          NoneBeforeFirst(text, quote, i, j);
        }
      }
    }
  }

  /** A count of one means that every occurrence starts inside the first one. */
  lemma CountOneIff(text: string, quote: string)
    requires quote != ""
    ensures var k := FirstFrom(text, quote, 0);
            Count(text, quote, 0) == 1 <==> k <= |text| && AllWithin(text, quote, k)
  {
    var k := FirstFrom(text, quote, 0);
    CountOnce(text, quote);
    if k <= |text| {
      FirstIsLeast(text, quote);
      CountZeroIff(text, quote, k + |quote|);
      NoneLater(text, quote, k);
    }
  }

  lemma NoneLater(text: string, quote: string, k: nat)
    requires forall i :: OccursAt(text, quote, i) ==> k <= i
    ensures NoneFrom(text, quote, k + |quote|) <==> AllWithin(text, quote, k)
  {
  }

  lemma CountOnce(text: string, quote: string)
    requires quote != ""
    ensures var k := FirstFrom(text, quote, 0);
            Count(text, quote, 0) == 1 <==> k <= |text| && Count(text, quote, k + |quote|) == 0
  {
  }

  lemma FirstIsLeast(text: string, quote: string)
    ensures forall i :: OccursAt(text, quote, i) ==> FirstFrom(text, quote, 0) <= i
  {
    forall i | OccursAt(text, quote, i) ensures FirstFrom(text, quote, 0) <= i {
      if i < FirstFrom(text, quote, 0) {
        NoneBeforeFirst(text, quote, 0, i);
      }
    }
  }

  /** A count of one is a unique occurrence exactly when the quote does not occur again
      inside its own first occurrence. */
  lemma UniqueIff(text: string, quote: string)
    requires quote != ""
    ensures var k := FirstFrom(text, quote, 0);
            Unique(text, quote) <==>
            Count(text, quote, 0) == 1 && forall i :: k < i < k + |quote| ==> !OccursAt(text, quote, i)
  {
    var k := FirstFrom(text, quote, 0);
    CountOneIff(text, quote);
    if k <= |text| {
      assert OccursAt(text, quote, k);
    } else {
      CountZeroIff(text, quote, 0);
    }
  }

  /** The two differ: "aa" is counted once in "aaa" but occurs twice. */
  lemma OverlapExample()
    ensures Count("aaa", "aa", 0) == 1 && !Unique("aaa", "aa")
  {
    var t, q := "aaa", "aa";
    assert OccursAt(t, q, 0) && OccursAt(t, q, 1);
    assert FirstFrom(t, q, 0) == 0;
    CountZeroIff(t, q, 2);
    assert forall j :: 2 <= j ==> !OccursAt(t, q, j);
  }

  // ---------------------------------------------------------------- archived quotes

  /** One replica's answer for an axis. */
  datatype Answer = Answer(index: int, quote: string)

  /** A display pin of one source; `sameRaw` is the comparison of the raw hashes. */
  datatype Pin = Pin(deleted: set<int>, text: string, boundaries: seq<int>, sameRaw: bool)

  datatype Restored = Restored(index: int, start: int, end: int, quote: string)

  /** Python slicing: negative indices count from the end, others are clamped. */
  function Clamp(i: int, n: nat): (k: nat)
    ensures k <= n
  {
    if i >= n then n else if i >= 0 then i else if i + n >= 0 then i + n else 0
  }

  function PySlice(s: string, a: int, b: int): string {
    var lo, hi := Clamp(a, |s|), Clamp(b, |s|);
    if lo < hi then s[lo..hi] else ""
  }

  /** A negative index counts from the end. */
  lemma NegativeIndex(s: string, k: nat, other: int)
    requires 1 <= k <= |s|
    ensures PySlice(s, 0 - k, other) == PySlice(s, |s| - k, other)
    ensures PySlice(s, other, 0 - k) == PySlice(s, other, |s| - k)
  {
  }

  /** The characters of a slice whose number, counted from `first`, is not deleted. */
  function Numbered(slice: string, first: int, deleted: set<int>): string {
    if slice == "" then ""
    else
      var n := |slice| - 1;
      Numbered(slice[..n], first, deleted) + (if first + n in deleted then "" else [slice[n]])
  }

  /** The archive's boundary table is taken as it is and checked by spelling the quote again. */
  function Restore(raw: string, pin: Pin, index: int, quote: string): Option<Restored>
    requires quote != ""
  {
    if Display(raw, pin.deleted) != pin.text || !pin.sameRaw || Count(pin.text, quote, 0) != 1 then None
    else
      RestoreAt(raw, pin.deleted, pin.boundaries, index, quote, FirstFrom(pin.text, quote, 0))
  }

  function RestoreAt(raw: string, deleted: set<int>, boundaries: seq<int>, index: int, quote: string, s: nat):
    Option<Restored>
    requires quote != ""
  {
    if s + |quote| >= |boundaries| then None
    else
      var a, b := boundaries[s+1] - 1, boundaries[s+|quote|];
      if Numbered(PySlice(raw, a, b), a, deleted) != quote then None
      else Some(Restored(index, a, b, PySlice(raw, a, b)))
  }

  /** What one replica returned: nothing usable, or an answer for some of the axes. */
  type Output = Option<map<string, Answer>>

  predicate Usable(outputs: seq<Output>) {
    |outputs| == 3 && forall i :: 0 <= i < |outputs| ==> outputs[i].Some?
  }

  predicate Agreed(outputs: seq<Output>, axis: string, answer: Answer) {
    forall i :: 0 <= i < |outputs| ==>
      outputs[i].Some? && axis in outputs[i].value && outputs[i].value[axis] == answer
  }

  function Archived(answer: Answer, sources: seq<string>, pins: seq<Pin>): Option<Restored> {
    var (index, quote) := (answer.index, answer.quote);
    if index < 0 || quote == "" || index >= |sources| then None
    else if pins != [] then
      if index >= |pins| then None else Restore(sources[index], pins[index], index, quote)
    else if Count(sources[index], quote, 0) != 1 then None
    else
      var s := FirstFrom(sources[index], quote, 0);
      Some(Restored(index, s, s + |quote|, PySlice(sources[index], s, s + |quote|)))
  }

  /** An axis is recovered when all replicas gave the same answer and it can be restored. */
  function Recovered(outputs: seq<Output>, sources: seq<string>, pins: seq<Pin>, axis: string): Option<Restored> {
    if Usable(outputs) && axis in outputs[0].value && Agreed(outputs, axis, outputs[0].value[axis])
    then Archived(outputs[0].value[axis], sources, pins) else None
  }

  /** The loop over the axes. */
  method ArchivedQuotes(axes: seq<string>, outputs: seq<Output>, sources: seq<string>, pins: seq<Pin>)
    returns (result: map<string, Restored>)
    ensures forall x :: x in result <==> x in axes && Recovered(outputs, sources, pins, x).Some?
    ensures forall x :: x in result ==> Recovered(outputs, sources, pins, x) == Some(result[x])
  {
    result := map[];
    if !Usable(outputs) {
      return;
    }
    for k := 0 to |axes|
      invariant forall x :: x in result <==> x in axes[..k] && Recovered(outputs, sources, pins, x).Some?
      invariant forall x :: x in result ==> Recovered(outputs, sources, pins, x) == Some(result[x])
    {
      var axis := axes[k];
      assert axes[..k+1] == axes[..k] + [axis];
      if axis in outputs[0].value && Agreed(outputs, axis, outputs[0].value[axis]) {
        var restored := Archived(outputs[0].value[axis], sources, pins);
        if restored.Some? {
          result := result[axis := restored.value];
        }
      }
    }
    assert axes[..|axes|] == axes;
  }

  lemma {:induction false} NumberedIsKept(raw: string, a: nat, b: nat, deleted: set<int>)
    requires a <= b <= |raw|
    ensures Numbered(raw[a..b], a, deleted) == Kept(raw, a, b, deleted)
    decreases b
  {
    if a < b {
      NumberedIsKept(raw, a, b - 1, deleted);
      assert raw[a..b][..b-a-1] == raw[a..b-1];
    }
  }

  lemma SpellingCheckPasses(raw: string, deleted: set<int>, quote: string, s: nat)
    requires quote != "" && OccursAt(Display(raw, deleted), quote, s)
    ensures var bs := Boundaries(|raw|, deleted);
            var (a, b) := (RestoredStart(raw, deleted, s), RestoredEnd(raw, deleted, s + |quote|));
            && s + |quote| < |bs| && bs[s+1] - 1 == a && bs[s+|quote|] == b && a < b <= |raw|
            && PySlice(raw, a, b) == raw[a..b]
            && Numbered(raw[a..b], a, deleted) == quote
            && Spells(raw, deleted, quote, a, b) && Rank(a, deleted) == s
  {
    RestoredSpan(raw, deleted, s, s + |quote|);
    NumberedIsKept(raw, RestoredStart(raw, deleted, s), RestoredEnd(raw, deleted, s + |quote|), deleted);
  }

  /** What the restoration of the occurrence at s is. */
  function Expected(raw: string, deleted: set<int>, index: int, quote: string, s: nat): Restored
    requires OccursAt(Display(raw, deleted), quote, s) && quote != ""
  {
    var (a, b) := (RestoredStart(raw, deleted, s), RestoredEnd(raw, deleted, s + |quote|));
    Restored(index, a, b, if a <= b <= |raw| then raw[a..b] else "")
  }

  /** The spelling check accepts every occurrence restored through a well-formed table. */
  lemma RestoreAccepts(raw: string, deleted: set<int>, index: int, quote: string, s: nat)
    requires quote != "" && OccursAt(Display(raw, deleted), quote, s)
    ensures var e := Expected(raw, deleted, index, quote, s);
            && RestoreAt(raw, deleted, Boundaries(|raw|, deleted), index, quote, s) == Some(e)
            && 0 <= e.start < e.end <= |raw| && e.quote == raw[e.start..e.end]
            && Spells(raw, deleted, quote, e.start, e.end)
  {
    SpellingCheckPasses(raw, deleted, quote, s);
  }

  function WellFormed(raw: string, deleted: set<int>): Pin {
    Pin(deleted, Display(raw, deleted), Boundaries(|raw|, deleted), true)
  }

  lemma CountedMeansOccurs(text: string, quote: string)
    requires quote != "" && Count(text, quote, 0) == 1
    ensures OccursAt(text, quote, FirstFrom(text, quote, 0))
  {
    CountOnce(text, quote);
  }

  /** A well-formed pin is never rejected by the spelling check: the quote is restored if and
      only if it is counted once in the display, to the raw span of its first occurrence. */
  lemma WellFormedPinAccepted(raw: string, deleted: set<int>, index: int, quote: string)
    requires quote != ""
    ensures Restore(raw, WellFormed(raw, deleted), index, quote).Some? <==> Count(Display(raw, deleted), quote, 0) == 1
    ensures Count(Display(raw, deleted), quote, 0) == 1 ==>
              var s := FirstFrom(Display(raw, deleted), quote, 0);
              && OccursAt(Display(raw, deleted), quote, s)
              && Restore(raw, WellFormed(raw, deleted), index, quote) == Some(Expected(raw, deleted, index, quote, s))
  {
    if Count(Display(raw, deleted), quote, 0) == 1 {
      CountedMeansOccurs(Display(raw, deleted), quote);
      RestoreAccepts(raw, deleted, index, quote, FirstFrom(Display(raw, deleted), quote, 0));
    }
  }

  /** The span spells the quote, and lies inside every raw span that does. */
  ghost predicate SmallestSpelling(raw: string, deleted: set<int>, quote: string, start: int, end: int) {
    && 0 <= start && 0 <= end && Spells(raw, deleted, quote, start, end)
    && forall a: nat, b: nat :: Spells(raw, deleted, quote, a, b) ==> a <= start && end <= b
  }

  lemma OnlyOneIff(text: string, quote: string, s: nat)
    requires OccursAt(text, quote, s)
    ensures Unique(text, quote) <==> forall i :: OccursAt(text, quote, i) ==> i == s
  {
  }

  lemma ExpectedSmallestIff(raw: string, deleted: set<int>, index: int, quote: string, s: nat)
    requires quote != "" && OccursAt(Display(raw, deleted), quote, s)
    ensures var e := Expected(raw, deleted, index, quote, s);
            SmallestSpelling(raw, deleted, quote, e.start, e.end) <==> Unique(Display(raw, deleted), quote)
  {
    RestoreAccepts(raw, deleted, index, quote, s);
    SmallestSpellingIff(raw, deleted, quote, s);
    OnlyOneIff(Display(raw, deleted), quote, s);
  }

  /** What the code restores is the smallest raw span that spells the quote, inside every other
      one, if and only if the quote occurs once in the display, counting overlaps. */
  lemma RestoredSmallestIff(raw: string, deleted: set<int>, index: int, quote: string)
    requires quote != "" && Restore(raw, WellFormed(raw, deleted), index, quote).Some?
    ensures var r := Restore(raw, WellFormed(raw, deleted), index, quote).value;
            SmallestSpelling(raw, deleted, quote, r.start, r.end) <==> Unique(Display(raw, deleted), quote)
  {
    WellFormedPinAccepted(raw, deleted, index, quote);
    ExpectedSmallestIff(raw, deleted, index, quote, FirstFrom(Display(raw, deleted), quote, 0));
  }

  /** Three usable outputs give this same answer for the axis. */
  predicate AllAnswer(outputs: seq<Output>, axis: string, answer: Answer) {
    && |outputs| == 3 && outputs[0].Some? && outputs[1].Some? && outputs[2].Some?
    && axis in outputs[0].value && axis in outputs[1].value && axis in outputs[2].value
    && outputs[0].value[axis] == answer && outputs[1].value[axis] == answer && outputs[2].value[axis] == answer
  }

  lemma RecoveredIs(outputs: seq<Output>, sources: seq<string>, pins: seq<Pin>, axis: string, r: Restored)
    ensures Recovered(outputs, sources, pins, axis) == Some(r) <==>
            exists answer :: AllAnswer(outputs, axis, answer) && Archived(answer, sources, pins) == Some(r)
  {
    if Usable(outputs) && axis in outputs[0].value {
      var answer := outputs[0].value[axis];
      assert Agreed(outputs, axis, answer) <==> AllAnswer(outputs, axis, answer);
    }
  }

  lemma PlainArchived(answer: Answer, sources: seq<string>, r: Restored)
    ensures Archived(answer, sources, []) == Some(r) <==>
            && 0 <= answer.index < |sources| && answer.quote != "" && Count(sources[answer.index], answer.quote, 0) == 1
            && r.index == answer.index && r.quote == answer.quote && r.end == r.start + |r.quote|
            && OccursAt(sources[r.index], r.quote, r.start)
            && forall i :: OccursAt(sources[r.index], r.quote, i) ==> r.start <= i
  {
    if 0 <= answer.index < |sources| && answer.quote != "" && Count(sources[answer.index], answer.quote, 0) == 1 {
      CountedMeansOccurs(sources[answer.index], answer.quote);
      FirstIsLeast(sources[answer.index], answer.quote);
    }
  }

  /** Without a display map an axis is recovered if and only if all three replicas gave the same
      answer, of an existing source and a quote that is counted once in it; the restoration is
      the quote at its first occurrence. */
  lemma RecoveredPlain(outputs: seq<Output>, sources: seq<string>, axis: string, r: Restored)
    ensures Recovered(outputs, sources, [], axis) == Some(r) <==>
            exists answer ::
              && AllAnswer(outputs, axis, answer) && 0 <= answer.index < |sources| && answer.quote != ""
              && Count(sources[answer.index], answer.quote, 0) == 1
              && r.index == answer.index && r.quote == answer.quote && r.end == r.start + |r.quote|
              && OccursAt(sources[r.index], r.quote, r.start)
              && forall i :: OccursAt(sources[r.index], r.quote, i) ==> r.start <= i
  {
    RecoveredIs(outputs, sources, [], axis, r);
    if answer :| AllAnswer(outputs, axis, answer) {
      PlainArchived(answer, sources, r);
    }
  }

  /** With well-formed pins of all sources an axis is recovered if and only if all three replicas
      gave the same answer, of an existing source and a quote counted once in its display; the
      restoration is the raw span of the first occurrence. */
  lemma RecoveredPinned(outputs: seq<Output>, sources: seq<string>, pins: seq<Pin>, axis: string)
    requires |pins| == |sources| && forall k :: 0 <= k < |pins| ==> pins[k] == WellFormed(sources[k], pins[k].deleted)
    requires pins != []
    ensures Recovered(outputs, sources, pins, axis).Some? <==>
            exists answer ::
              && AllAnswer(outputs, axis, answer) && 0 <= answer.index < |sources| && answer.quote != ""
              && Count(Display(sources[answer.index], pins[answer.index].deleted), answer.quote, 0) == 1
    ensures forall answer :: AllAnswer(outputs, axis, answer) && Recovered(outputs, sources, pins, axis).Some? ==>
              && 0 <= answer.index < |sources| && answer.quote != ""
              && var (raw, deleted) := (sources[answer.index], pins[answer.index].deleted);
                 var s := FirstFrom(Display(raw, deleted), answer.quote, 0);
                 && OccursAt(Display(raw, deleted), answer.quote, s)
                 && Recovered(outputs, sources, pins, axis) == Some(Expected(raw, deleted, answer.index, answer.quote, s))
  {
    if answer :| AllAnswer(outputs, axis, answer) {
      assert Agreed(outputs, axis, answer);
      if 0 <= answer.index < |sources| && answer.quote != "" {
        WellFormedPinAccepted(sources[answer.index], pins[answer.index].deleted, answer.index, answer.quote);
      }
    } else if Recovered(outputs, sources, pins, axis).Some? {
      RecoveredIs(outputs, sources, pins, axis, Recovered(outputs, sources, pins, axis).value);
    }
  }
}
