/**
 The outline of a document, read as one pass over its bookmarks, and the runs of equal font
 size on a page.
 */
module Outline {
  import opened Wrappers

  // ---------------------------------------------------------------- the outline tree

  datatype Node = Node(title: string, target: Option<int>, children: seq<Node>)

  datatype Bookmark = Bookmark(level: nat, title: string, target: Option<int>)

  datatype Anchor = Anchor(page: int, title: string, path: seq<string>)

  /** The bookmarks of a forest in the order the document lists them. */
  function Preorder(forest: seq<Node>, level: nat): seq<Bookmark> {
    if forest == [] then []
    else
      [Bookmark(level, forest[0].title, forest[0].target)]
      + Preorder(forest[0].children, level + 1) + Preorder(forest[1..], level)
  }

  predicate Resolved(target: Option<int>, count: int) {
    target.Some? && 0 <= target.value < count
  }

  function OwnAnchor(node: Node, path: seq<string>, count: int): seq<Anchor> {
    if Resolved(node.target, count) then [Anchor(node.target.value + 1, node.title, path)] else []
  }

  function OwnIssue(node: Node, count: int): seq<string> {
    if Resolved(node.target, count) then [] else [node.title]
  }

  /** The anchors the tree asks for: each resolved node with the titles from its root to it. */
  function TreeAnchors(forest: seq<Node>, above: seq<string>, count: int): seq<Anchor> {
    if forest == [] then []
    else
      var path := above + [forest[0].title];
      OwnAnchor(forest[0], path, count)
      + TreeAnchors(forest[0].children, path, count) + TreeAnchors(forest[1..], above, count)
  }

  /** The titles of the nodes whose target is not a page of the document, in document order. */
  function TreeIssues(forest: seq<Node>, count: int): seq<string> {
    if forest == [] then []
    else
      OwnIssue(forest[0], count)
      + TreeIssues(forest[0].children, count) + TreeIssues(forest[1..], count)
  }

  // ---------------------------------------------------------------- the pass

  /** Titles of the levels below `limit` that are present, in ascending order of level. */
  function Below(parents: map<nat, string>, limit: nat): seq<string> {
    if limit == 0 then []
    else Below(parents, limit - 1) + (if limit - 1 in parents then [parents[limit-1]] else [])
  }

  datatype State = State(parents: map<nat, string>, anchors: seq<Anchor>, issues: seq<string>)

  const START: State := State(map[], [], [])

  function Visit(st: State, mark: Bookmark, count: int): State {
    var parents := st.parents[mark.level := mark.title];
    if Resolved(mark.target, count) then
      State(parents, st.anchors + [Anchor(mark.target.value + 1, mark.title, Below(parents, mark.level + 1))], st.issues)
    else State(parents, st.anchors, st.issues + [mark.title])
  }

  function Pass(st: State, marks: seq<Bookmark>, count: int): State
    decreases |marks|
  {
    if marks == [] then st else Pass(Visit(st, marks[0], count), marks[1..], count)
  }

  lemma {:induction false} PassSplit(st: State, left: seq<Bookmark>, right: seq<Bookmark>, count: int)
    ensures Pass(st, left + right, count) == Pass(Pass(st, left, count), right, count)
    decreases |left|
  {
    if left == [] {
      assert left + right == right;
    } else {
      PassSplit(Visit(st, left[0], count), left[1..], right, count);
      assert (left + right)[1..] == left[1..] + right;
    }
  }

  /** The loop over the bookmarks. */
  method Inspect(marks: seq<Bookmark>, count: int) returns (anchors: seq<Anchor>, issues: seq<string>)
    ensures var st := Pass(START, marks, count);
            anchors == st.anchors && issues == st.issues
  {
    var parents: map<nat, string> := map[];
    anchors, issues := [], [];
    for i := 0 to |marks|
      invariant State(parents, anchors, issues) == Pass(START, marks[..i], count)
    {
      var mark := marks[i];
      ghost var before := State(parents, anchors, issues);
      PassSplit(START, marks[..i], [mark], count);
      assert marks[..i] + [mark] == marks[..i+1];
      assert Pass(before, [mark], count) == Visit(before, mark, count) by {
        assert [mark][1..] == [];
      }
      parents := parents[mark.level := mark.title];
      if !Resolved(mark.target, count) {
        issues := issues + [mark.title];
        continue;
      }
      var path := [];
      for level := 0 to mark.level + 1
        invariant path == Below(parents, level)
      {
        if level in parents {
          path := path + [parents[level]];
        }
      }
      anchors := anchors + [Anchor(mark.target.value + 1, mark.title, path)];
    }
    assert marks[..|marks|] == marks;
  }

  // ---------------------------------------------------------------- breadcrumbs

  lemma {:induction false} BelowAgrees(p: map<nat, string>, q: map<nat, string>, limit: nat)
    requires forall l: nat :: l < limit ==> (l in p <==> l in q) && (l in p ==> p[l] == q[l])
    ensures Below(p, limit) == Below(q, limit)
  {
    if limit > 0 {
      BelowAgrees(p, q, limit - 1);
    }
  }

  lemma BelowUpdated(parents: map<nat, string>, above: seq<string>, title: string)
    requires Below(parents, |above|) == above
    ensures Below(parents[|above| := title], |above|) == above
    ensures Below(parents[|above| := title], |above| + 1) == above + [title]
  {
    BelowAgrees(parents, parents[|above| := title], |above|);
  }

  /** What passing over a forest adds to the state. */
  predicate Adds(st: State, after: State, anchors: seq<Anchor>, issues: seq<string>) {
    after.anchors == st.anchors + anchors && after.issues == st.issues + issues
  }

  lemma AddsBoth(st: State, mid: State, after: State, a: seq<Anchor>, b: seq<Anchor>, c: seq<string>, d: seq<string>)
    requires Adds(st, mid, a, c) && Adds(mid, after, b, d)
    ensures Adds(st, after, a + b, c + d)
  {
  }

  lemma VisitAdds(node: Node, level: nat, path: seq<string>, st: State, count: int)
    requires Below(st.parents[level := node.title], level + 1) == path
    ensures Adds(st, Visit(st, Bookmark(level, node.title, node.target), count),
                 OwnAnchor(node, path, count), OwnIssue(node, count))
  {
    var after := Visit(st, Bookmark(level, node.title, node.target), count);
    assert st.anchors + [] == st.anchors && st.issues + [] == st.issues;
    if Resolved(node.target, count) {
      assert after.issues == st.issues;
    } else {
      assert after.anchors == st.anchors;
    }
  }

  /** One bookmark: the titles above it are those of the tree, and so is its anchor. */
  lemma VisitNode(above: seq<string>, node: Node, st: State, count: int)
    requires Below(st.parents, |above|) == above
    ensures var after := Visit(st, Bookmark(|above|, node.title, node.target), count);
            && Below(after.parents, |above| + 1) == above + [node.title]
            && Adds(st, after, OwnAnchor(node, above + [node.title], count), OwnIssue(node, count))
  {
    BelowUpdated(st.parents, above, node.title);
    VisitAdds(node, |above|, above + [node.title], st, count);
  }

  /** The pass over a forest is the pass over its first node, its children and the rest. */
  lemma PassParts(forest: seq<Node>, level: nat, st: State, count: int)
    requires forest != []
    ensures var st1 := Visit(st, Bookmark(level, forest[0].title, forest[0].target), count);
            var st2 := Pass(st1, Preorder(forest[0].children, level + 1), count);
            Pass(st, Preorder(forest, level), count) == Pass(st2, Preorder(forest[1..], level), count)
  {
    var mark := Bookmark(level, forest[0].title, forest[0].target);
    var inner, rest := Preorder(forest[0].children, level + 1), Preorder(forest[1..], level);
    PassSplit(Visit(st, mark, count), inner, rest, count);
    var marks := [mark] + inner + rest;
    assert marks[0] == mark && marks[1..] == inner + rest;
  }

  /** Passing over a forest adds exactly its anchors and issues, whatever is left over in
      `parents` from deeper or earlier branches, and leaves the levels above it alone. */
  lemma {:induction false} ForestPass(forest: seq<Node>, above: seq<string>, st: State, count: int)
    requires Below(st.parents, |above|) == above
    ensures Adds(st, Pass(st, Preorder(forest, |above|), count), TreeAnchors(forest, above, count), TreeIssues(forest, count))
    ensures Below(Pass(st, Preorder(forest, |above|), count).parents, |above|) == above
    decreases forest
  {
    if forest != [] {
      var node, rest := forest[0], forest[1..];
      var path := above + [node.title];
      var st1 := Visit(st, Bookmark(|above|, node.title, node.target), count);
      var st2 := Pass(st1, Preorder(node.children, |path|), count);
      var st3 := Pass(st2, Preorder(rest, |above|), count);
      VisitNode(above, node, st, count);
      ForestPass(node.children, path, st1, count);
      BelowPrefix(st2.parents, |above|, above, node.title);
      ForestPass(rest, above, st2, count);
      PassParts(forest, |above|, st, count);
      var (a1, a2, a3) := (OwnAnchor(node, path, count), TreeAnchors(node.children, path, count), TreeAnchors(rest, above, count));
      var (i1, i2, i3) := (OwnIssue(node, count), TreeIssues(node.children, count), TreeIssues(rest, count));
      AddsBoth(st, st1, st2, a1, a2, i1, i2);
      AddsBoth(st, st2, st3, a1 + a2, a3, i1 + i2, i3);
    }
  }

  lemma {:induction false} BelowShort(parents: map<nat, string>, limit: nat)
    ensures |Below(parents, limit)| <= limit
  {
    if limit > 0 {
      BelowShort(parents, limit - 1);
    }
  }

  lemma BelowPrefix(parents: map<nat, string>, limit: nat, above: seq<string>, title: string)
    requires |above| == limit && Below(parents, limit + 1) == above + [title]
    ensures Below(parents, limit) == above
  {
    BelowShort(parents, limit);
    var titles := Below(parents, limit);
    if limit in parents {
      assert titles == (titles + [parents[limit]])[..limit] == (above + [title])[..limit];
    }
  }

  /** For every outline, every anchor carries exactly the titles from the root to its node,
      although no entry of `parents` is ever removed; anchors and unresolved bookmarks come
      in document order. */
  lemma Breadcrumbs(forest: seq<Node>, count: int)
    ensures var st := Pass(START, Preorder(forest, 0), count);
            st.anchors == TreeAnchors(forest, [], count) && st.issues == TreeIssues(forest, count)
  {
    ForestPass(forest, [], START, count);
  }

  // ---------------------------------------------------------------- any list of bookmarks

  /** The title of the last of the first n bookmarks that is on this level. */
  function LastAt(marks: seq<Bookmark>, n: nat, level: nat): Option<string>
    requires n <= |marks|
  {
    if n == 0 then None
    else if marks[n-1].level == level then Some(marks[n-1].title)
    else LastAt(marks, n - 1, level)
  }

  /** The last titles of the levels below `limit`, from the top, without the levels not seen. */
  function LastTitles(marks: seq<Bookmark>, n: nat, limit: nat): seq<string>
    requires n <= |marks|
  {
    if limit == 0 then []
    else
      var last := LastAt(marks, n, limit - 1);
      LastTitles(marks, n, limit - 1) + (if last.Some? then [last.value] else [])
  }

  /** The anchor of bookmark k. */
  function AnchorAt(marks: seq<Bookmark>, k: nat): Anchor
    requires k < |marks| && marks[k].target.Some?
  {
    Anchor(marks[k].target.value + 1, marks[k].title, LastTitles(marks, k + 1, marks[k].level + 1))
  }

  /** The resolved ones of the first n bookmarks. */
  function ResolvedUpTo(marks: seq<Bookmark>, n: nat, count: int): (ks: seq<nat>)
    requires n <= |marks|
    ensures forall i :: 0 <= i < |ks| ==> ks[i] < n && Resolved(marks[ks[i]].target, count)
  {
    if n == 0 then []
    else ResolvedUpTo(marks, n - 1, count) + (if Resolved(marks[n-1].target, count) then [n - 1] else [])
  }

  /** A bookmark is resolved exactly if it points at one of the pages. */
  lemma {:induction false} ResolvedIff(marks: seq<Bookmark>, n: nat, count: int, k: nat)
    requires n <= |marks|
    ensures k in ResolvedUpTo(marks, n, count) <==>
            k < n && marks[k].target.Some? && 0 <= marks[k].target.value && marks[k].target.value + 1 <= count
  {
    if n > 0 {
      ResolvedIff(marks, n - 1, count, k);
    }
  }

  ghost predicate Remembers(parents: map<nat, string>, marks: seq<Bookmark>, n: nat)
    requires n <= |marks|
  {
    forall l: nat {:trigger LastAt(marks, n, l)} ::
      LastAt(marks, n, l) == if l in parents then Some(parents[l]) else None
  }

  lemma {:induction false} BelowIsLast(parents: map<nat, string>, marks: seq<Bookmark>, n: nat, limit: nat)
    requires n <= |marks| && Remembers(parents, marks, n)
    ensures Below(parents, limit) == LastTitles(marks, n, limit)
  {
    if limit > 0 {
      BelowIsLast(parents, marks, n, limit - 1);
    }
  }

  /** The anchors of the first n bookmarks, one for each resolved one. */
  predicate AnchorsOf(marks: seq<Bookmark>, n: nat, count: int, anchors: seq<Anchor>)
    requires n <= |marks|
  {
    var ks := ResolvedUpTo(marks, n, count);
    |anchors| == |ks| && forall i :: 0 <= i < |ks| ==> anchors[i] == AnchorAt(marks, ks[i])
  }

  lemma PassSnoc(marks: seq<Bookmark>, n: nat, count: int)
    requires n < |marks|
    ensures Pass(START, marks[..n+1], count) == Visit(Pass(START, marks[..n], count), marks[n], count)
  {
    PassSplit(START, marks[..n], [marks[n]], count);
    assert marks[..n] + [marks[n]] == marks[..n+1] && [marks[n]][1..] == [];
  }

  lemma RemembersNext(parents: map<nat, string>, marks: seq<Bookmark>, n: nat)
    requires n < |marks| && Remembers(parents, marks, n)
    ensures Remembers(parents[marks[n].level := marks[n].title], marks, n + 1)
  {
    var next := parents[marks[n].level := marks[n].title];
    forall l: nat ensures LastAt(marks, n + 1, l) == if l in next then Some(next[l]) else None {
      assert LastAt(marks, n, l) == if l in parents then Some(parents[l]) else None;
    }
  }

  lemma {:induction false} PassHistory(marks: seq<Bookmark>, n: nat, count: int)
    requires n <= |marks|
    ensures Remembers(Pass(START, marks[..n], count).parents, marks, n)
    ensures AnchorsOf(marks, n, count, Pass(START, marks[..n], count).anchors)
  {
    if n > 0 {
      var before := Pass(START, marks[..n-1], count);
      PassHistory(marks, n - 1, count);
      PassSnoc(marks, n - 1, count);
      RemembersNext(before.parents, marks, n - 1);
      BelowIsLast(Visit(before, marks[n-1], count).parents, marks, n, marks[n-1].level + 1);
    }
  }

  /** Over any list of bookmarks, the pass emits one anchor for each resolved bookmark, in
      order, and its path is the last title of each level down to its own. */
  lemma PathsAreLastTitles(marks: seq<Bookmark>, count: int)
    ensures AnchorsOf(marks, |marks|, count, Pass(START, marks, count).anchors)
  {
    PassHistory(marks, |marks|, count);
    assert marks[..|marks|] == marks;
  }

  predicate SeenBefore(marks: seq<Bookmark>, k: nat, level: nat)
    requires k <= |marks|
  {
    exists j :: 0 <= j < k && marks[j].level == level
  }

  lemma {:induction false} LastAtIff(marks: seq<Bookmark>, n: nat, level: nat)
    requires n <= |marks|
    ensures LastAt(marks, n, level).Some? <==> SeenBefore(marks, n, level)
  {
    if n > 0 {
      LastAtIff(marks, n - 1, level);
    }
  }

  /** Every level below `limit` is that of one of the first k bookmarks. */
  predicate AllSeen(marks: seq<Bookmark>, k: nat, limit: nat)
    requires k <= |marks|
  {
    forall l: nat {:trigger SeenBefore(marks, k, l)} :: l < limit ==> SeenBefore(marks, k, l)
  }

  lemma {:induction false} LastTitlesFull(marks: seq<Bookmark>, n: nat, limit: nat)
    requires n <= |marks|
    ensures |LastTitles(marks, n, limit)| <= limit
    ensures |LastTitles(marks, n, limit)| == limit <==> AllSeen(marks, n, limit)
  {
    if limit > 0 {
      LastTitlesFull(marks, n, limit - 1);
      LastAtIff(marks, n, limit - 1);
      if AllSeen(marks, n, limit) {
        assert AllSeen(marks, n, limit - 1) && SeenBefore(marks, n, limit - 1);
      }
    }
  }

  lemma SeenNext(marks: seq<Bookmark>, k: nat, level: nat)
    requires k < |marks|
    ensures SeenBefore(marks, k + 1, level) <==> level == marks[k].level || SeenBefore(marks, k, level)
  {
  }

  lemma AllSeenNext(marks: seq<Bookmark>, k: nat)
    requires k < |marks|
    ensures AllSeen(marks, k + 1, marks[k].level + 1) <==> AllSeen(marks, k, marks[k].level)
  {
    if AllSeen(marks, k + 1, marks[k].level + 1) {
      forall l: nat | l < marks[k].level ensures SeenBefore(marks, k, l) {
        assert SeenBefore(marks, k + 1, l);
        SeenNext(marks, k, l);
      }
    }
    if AllSeen(marks, k, marks[k].level) {
      var n, limit := k + 1, marks[k].level + 1;
      forall l: nat | l < limit ensures SeenBefore(marks, n, l) {
        SeenNext(marks, k, l);
        assert l < marks[k].level ==> SeenBefore(marks, k, l);
      }
    }
  }

  /** An emitted path has one title for each level down to its bookmark if and only if every
      level above that bookmark was seen before it. */
  lemma EmittedPathFullIff(marks: seq<Bookmark>, count: int, i: nat)
    requires i < |Pass(START, marks, count).anchors|
    ensures var ks := ResolvedUpTo(marks, |marks|, count);
            && i < |ks| && ks[i] < |marks|
            && (|Pass(START, marks, count).anchors[i].path| == marks[ks[i]].level + 1
                <==> AllSeen(marks, ks[i], marks[ks[i]].level))
  {
    PathsAreLastTitles(marks, count);
    var k := ResolvedUpTo(marks, |marks|, count)[i];
    LastTitlesFull(marks, k + 1, marks[k].level + 1);
    AllSeenNext(marks, k);
  }

  /** A list that starts below the top level, which no outline tree gives, has a short path. */
  lemma ShortPathExample()
    ensures Pass(START, [Bookmark(2, "b", Some(0))], 1).anchors == [Anchor(1, "b", ["b"])]
  {
    var marks := [Bookmark(2, "b", Some(0))];
    assert marks[1..] == [];
    assert Below(map[2 := "b"], 3) == ["b"] by {
      assert Below(map[2 := "b"], 2) == [];
    }
  }

  // ---------------------------------------------------------------- font runs

  /** A rounded font size: a not-a-number differs from every size, itself included. */
  datatype Size = Finite(value: real) | Infinite(negative: bool) | NotANumber

  predicate Differs(x: Size, y: Size) {
    x.NotANumber? || x != y
  }

  predicate Printed(x: Size) {
    x.Finite? && x.value > 0.0
  }

  datatype Run = Run(size: Size, start: nat, end: nat)

  /** [start, end) is a longest stretch of one size. */
  predicate Maximal(sizes: seq<Size>, run: Run) {
    && run.start < run.end <= |sizes| && sizes[run.start] == run.size
    && (forall k :: run.start < k < run.end ==> !Differs(sizes[k], run.size))
    && (run.start > 0 ==> Differs(sizes[run.start], sizes[run.start - 1]))
    && (run.end < |sizes| ==> Differs(sizes[run.end], run.size))
  }

  lemma MaximalSame(sizes: seq<Size>, r: Run, q: Run)
    requires Maximal(sizes, r) && Maximal(sizes, q) && r.start < q.end && q.start < r.end
    ensures r == q
  {
    if r.start < q.start {
      assert false;
    }
    if q.start < r.start {
      assert false;
    }
  }

  ghost predicate ListsUpTo(sizes: seq<Size>, runs: seq<Run>, limit: nat) {
    && (forall r :: r in runs <==> Maximal(sizes, r) && Printed(r.size) && r.end <= limit)
    && (forall i, j :: 0 <= i < j < |runs| ==> runs[i].end <= runs[j].start)
  }

  lemma ListMore(sizes: seq<Size>, runs: seq<Run>, run: Run)
    requires ListsUpTo(sizes, runs, run.start) && Maximal(sizes, run)
    ensures ListsUpTo(sizes, if Printed(run.size) then runs + [run] else runs, run.end)
  {
    var more := if Printed(run.size) then runs + [run] else runs;
    forall r ensures r in more <==> Maximal(sizes, r) && Printed(r.size) && r.end <= run.end {
      if Maximal(sizes, r) && run.start < r.end <= run.end {
        MaximalSame(sizes, r, run);
      }
    }
    forall k | 0 <= k < |runs| ensures runs[k].end <= run.start {
      assert runs[k] in runs;
    }
  }

  /** [start, end) is one size and begins a stretch; the runs up to it are listed. */
  ghost predicate Segmented(sizes: seq<Size>, runs: seq<Run>, start: nat, end: nat) {
    && start < end <= |sizes|
    && (start > 0 ==> Differs(sizes[start], sizes[start-1]))
    && (forall k :: start < k < end ==> !Differs(sizes[k], sizes[start]))
    && ListsUpTo(sizes, runs, start)
  }

  lemma RunEnds(sizes: seq<Size>, runs: seq<Run>, start: nat, end: nat)
    requires Segmented(sizes, runs, start, end)
    requires end == |sizes| || Differs(sizes[end], sizes[start])
    ensures var more := if Printed(sizes[start]) then runs + [Run(sizes[start], start, end)] else runs;
            if end == |sizes| then ListsUpTo(sizes, more, end) else Segmented(sizes, more, end, end + 1)
  {
    ListMore(sizes, runs, Run(sizes[start], start, end));
  }

  /** The loop over the characters of a page: the runs listed are exactly the longest stretches
      of one positive finite size, in order of position. */
  method Segment(sizes: seq<Size>) returns (runs: seq<Run>)
    ensures ListsUpTo(sizes, runs, |sizes|)
  {
    runs := [];
    var start := 0;
    for end := 1 to |sizes| + 1
      invariant if end <= |sizes| then Segmented(sizes, runs, start, end) else ListsUpTo(sizes, runs, |sizes|)
    {
      if end == |sizes| || Differs(sizes[end], sizes[start]) {
        RunEnds(sizes, runs, start, end);
        var size := sizes[start];
        if Printed(size) {
          runs := runs + [Run(size, start, end)];
        }
        start := end;
      }
    }
  }

  /** Every character of positive finite size is in exactly one listed run, and in a run of its
      own size. */
  lemma EveryPrintedCharacterOnce(sizes: seq<Size>, runs: seq<Run>, k: nat)
    requires ListsUpTo(sizes, runs, |sizes|) && k < |sizes|
    ensures sizes[k].Finite? && sizes[k].value > 0.0 <==> exists r :: r in runs && r.start <= k < r.end
    ensures forall r, q :: r in runs && q in runs && r.start <= k < r.end && q.start <= k < q.end ==> r == q
    ensures forall r :: r in runs && r.start <= k < r.end ==> r.size == sizes[k]
  {
    if Printed(sizes[k]) {
      var r := MaximalAround(sizes, k);
    }
    forall r, q | r in runs && q in runs && r.start <= k < r.end && q.start <= k < q.end ensures r == q {
      MaximalSame(sizes, r, q);
    }
    forall r | r in runs && r.start <= k < r.end ensures r.size == sizes[k] {
      assert k == r.start || !Differs(sizes[k], r.size);
    }
  }

  lemma MaximalAround(sizes: seq<Size>, k: nat) returns (r: Run)
    requires k < |sizes| && Printed(sizes[k])
    ensures Maximal(sizes, r) && r.start <= k < r.end && r.size == sizes[k]
  {
    var start, end: nat := k, k + 1;
    while start > 0 && !Differs(sizes[k], sizes[start-1])
      invariant 0 <= start <= k && forall i :: start <= i <= k ==> sizes[i] == sizes[k]
    {
      start := start - 1;
    }
    while end < |sizes| && !Differs(sizes[end], sizes[k])
      invariant k < end <= |sizes| && forall i :: k <= i < end ==> sizes[i] == sizes[k]
    {
      end := end + 1;
    }
    r := Run(sizes[k], start, end);
  }
}
