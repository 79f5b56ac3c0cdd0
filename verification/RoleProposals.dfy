/**
 From role tags to dimension proposals: the assigned quotes of every claim go through the same
 check as any other answer.
 */
module RoleProposals {
  import opened Wrappers
  import opened Text
  import opened Sentences
  import R = RoleTags
  import D = Dimensions

  // ---------------------------------------------------------------- the answers of the tags

  function QuotesOf(values: R.Values, c: nat): D.Quotes {
    map f | f in D.FIELDS :: if (c, f) in values then Some(values[(c, f)]) else None
  }

  /** One answer for each of n claims, with every field. */
  function ItemsOf(values: R.Values, n: nat): (items: seq<D.Item>)
    ensures |items| == n && forall c: nat :: c < n ==> items[c] == D.Item(c, QuotesOf(values, c))
  {
    seq(n, c requires 0 <= c < n => D.Item(c, QuotesOf(values, c)))
  }

  /** The candidates are mentions in the claims. */
  predicate FromClaims(targets: seq<D.Target>, cands: R.Candidates) {
    forall id :: id in cands ==>
      && cands[id].claim < |targets| && cands[id].quote != ""
      && OccursAt(targets[cands[id].claim].text, cands[id].quote, cands[id].at)
  }

  /** The roles a candidate may take are fields. */
  predicate RolesAreFields(cands: R.Candidates) {
    forall id, r :: id in cands && r in cands[id].options ==> r == R.UNKNOWN || r in D.FIELDS
  }

  /** The quote a tag assigns may be proposed for its role. */
  ghost predicate TagProposable(targets: seq<D.Target>, cands: R.Candidates, tag: R.Tag, allowed: (string, string) -> bool)
    requires FromClaims(targets, cands) && tag.id in cands
  {
    var c := cands[tag.id];
    tag.role != R.UNKNOWN ==> D.Proposable(targets[c.claim].text, tag.role, Some(c.quote), allowed)
  }

  ghost predicate TagsProposable(targets: seq<D.Target>, cands: R.Candidates, tags: seq<R.Tag>,
                                 allowed: (string, string) -> bool)
    requires FromClaims(targets, cands) && R.AllLegal(cands, tags)
  {
    forall k :: 0 <= k < |tags| ==> TagProposable(targets, cands, tags[k], allowed)
  }

  /** The reference of a tag is the candidate's own place, moved to the block. */
  predicate ReferredAt(targets: seq<D.Target>, cands: R.Candidates, tag: R.Tag, proposals: seq<D.Proposal>)
    requires FromClaims(targets, cands) && tag.id in cands && |proposals| == |targets|
  {
    var c := cands[tag.id];
    var start := targets[c.claim].span.start + c.at;
    tag.role != R.UNKNOWN ==>
      && tag.role in proposals[c.claim].refs
      && proposals[c.claim].refs[tag.role] == Some(Span(start, start + |c.quote|))
  }

  /** The check of role tags: accepted if and only if the tags are and every assigned quote may
      be proposed; then every known tag refers to its own mention, and there are as many
      dimensions as known tags. */
  method ValidateRoles(targets: seq<D.Target>, cands: R.Candidates, tags: seq<R.Tag>, allowed: (string, string) -> bool)
    returns (r: Option<seq<D.Proposal>>)
    requires FromClaims(targets, cands) && RolesAreFields(cands)
    ensures r.Some? <==> R.Accepted(cands, tags) && TagsProposable(targets, cands, tags, allowed)
    ensures r.Some? ==> |r.value| == |targets| && PopulatedSum(r.value) == R.Known(tags)
    ensures r.Some? ==>
              forall k :: 0 <= k < |tags| ==> tags[k].id in cands && ReferredAt(targets, cands, tags[k], r.value)
  {
    var values := R.AssignRoles(cands, tags);
    if values.None? {
      return None;
    }
    r := D.Validate(targets, ItemsOf(values.value, |targets|), allowed);
    AnswersAcceptedIff(targets, cands, tags, values.value, allowed);
    if r.Some? {
      AllReferred(targets, cands, tags, values.value, allowed, r.value);
      SlotsInRange(targets, cands, tags, values.value);
      PopulatedIsSize(targets, values.value, r.value);
    }
  }

  // ---------------------------------------------------------------- acceptance

  /** An answer holds this quote for this field. */
  predicate Holds(quotes: D.Quotes, field: string, quote: string) {
    field in quotes && quotes[field] == Some(quote)
  }

  lemma SlotGiven(cands: R.Candidates, tags: seq<R.Tag>, values: R.Values, k: nat)
    requires RolesAreFields(cands) && R.AllLegal(cands, tags) && R.Filled(cands, tags, values)
    requires k < |tags| && tags[k].role != R.UNKNOWN
    ensures var c := cands[tags[k].id]; Holds(QuotesOf(values, c.claim), tags[k].role, c.quote)
  {
    assert R.Legal(cands, tags[k]);
    assert R.Gives(cands, tags[k], R.Slot(cands, tags[k]));
  }

  lemma ItemProposable(targets: seq<D.Target>, cands: R.Candidates, tags: seq<R.Tag>, values: R.Values,
                       allowed: (string, string) -> bool, c: nat)
    requires FromClaims(targets, cands) && R.AllLegal(cands, tags) && R.Filled(cands, tags, values)
    requires TagsProposable(targets, cands, tags, allowed) && c < |targets|
    ensures D.AllProposable(targets[c].text, QuotesOf(values, c), allowed)
  {
    forall f | f in D.FIELDS ensures D.Proposable(targets[c].text, f, QuotesOf(values, c)[f], allowed) {
      if (c, f) in values {
        assert R.Given(cands, tags, (c, f));
        var k :| 0 <= k < |tags| && R.Gives(cands, tags[k], (c, f));
        assert TagProposable(targets, cands, tags[k], allowed);
      }
    }
  }

  lemma AnswersAcceptedIff(targets: seq<D.Target>, cands: R.Candidates, tags: seq<R.Tag>, values: R.Values,
                           allowed: (string, string) -> bool)
    requires FromClaims(targets, cands) && RolesAreFields(cands)
    requires R.Accepted(cands, tags) && R.Filled(cands, tags, values)
    ensures D.Accepted(targets, ItemsOf(values, |targets|), allowed) <==> TagsProposable(targets, cands, tags, allowed)
  {
    var items := ItemsOf(values, |targets|);
    if D.Accepted(targets, items, allowed) {
      forall k | 0 <= k < |tags| ensures TagProposable(targets, cands, tags[k], allowed) {
        if tags[k].role != R.UNKNOWN {
          SlotGiven(cands, tags, values, k);
          assert D.ItemAccepted(targets, items[cands[tags[k].id].claim], allowed);
        }
      }
    }
    if TagsProposable(targets, cands, tags, allowed) {
      forall c | 0 <= c < |items| ensures D.ItemAccepted(targets, items[c], allowed) {
        ItemProposable(targets, cands, tags, values, allowed, c);
      }
      forall c: nat | c < |targets| ensures D.Answers(items, c) {
        assert items[c].claim == c;
      }
    }
  }

  // ---------------------------------------------------------------- references

  lemma OneReferred(targets: seq<D.Target>, c: R.Candidate, role: string, quotes: D.Quotes, p: D.Proposal)
    requires D.Proposes(targets, D.Item(c.claim, quotes), p) && Holds(quotes, role, c.quote)
    requires Unique(targets[c.claim].text, c.quote) && OccursAt(targets[c.claim].text, c.quote, c.at)
    ensures var start := targets[c.claim].span.start + c.at;
            role in p.refs && p.refs[role] == Some(Span(start, start + |c.quote|))
  {
    D.ProposedRef(targets, c.claim, quotes, p, role);
    D.PlacedAt(targets[c.claim].text, c.quote, c.at, targets[c.claim].span.start, p.refs[role]);
  }

  /** Whatever the answers are, if they hold the quotes of the known tags. */
  predicate AnswersHold(cands: R.Candidates, tags: seq<R.Tag>, answers: seq<D.Quotes>)
    requires R.AllLegal(cands, tags)
  {
    forall k :: 0 <= k < |tags| && tags[k].role != R.UNKNOWN ==>
      var c := cands[tags[k].id]; c.claim < |answers| && Holds(answers[c.claim], tags[k].role, c.quote)
  }

  ghost predicate AnswersPropose(targets: seq<D.Target>, answers: seq<D.Quotes>, proposals: seq<D.Proposal>) {
    && |proposals| == |targets| == |answers|
    && forall c :: 0 <= c < |targets| ==> D.Proposes(targets, D.Item(c, answers[c]), proposals[c])
  }

  lemma HeldReferred(targets: seq<D.Target>, cands: R.Candidates, tags: seq<R.Tag>, answers: seq<D.Quotes>,
                     allowed: (string, string) -> bool, proposals: seq<D.Proposal>)
    requires FromClaims(targets, cands) && R.AllLegal(cands, tags) && AnswersHold(cands, tags, answers)
    requires TagsProposable(targets, cands, tags, allowed) && AnswersPropose(targets, answers, proposals)
    ensures forall k :: 0 <= k < |tags| ==> tags[k].id in cands && ReferredAt(targets, cands, tags[k], proposals)
  {
    forall k | 0 <= k < |tags| ensures tags[k].id in cands && ReferredAt(targets, cands, tags[k], proposals) {
      assert R.Legal(cands, tags[k]) && TagProposable(targets, cands, tags[k], allowed);
      if tags[k].role != R.UNKNOWN {
        var c := cands[tags[k].id];
        OneReferred(targets, c, tags[k].role, answers[c.claim], proposals[c.claim]);
      }
    }
  }

  /** Each claim's proposal is that of its answer. */
  ghost predicate AllPropose(targets: seq<D.Target>, values: R.Values, proposals: seq<D.Proposal>) {
    && |proposals| == |targets|
    && forall c: nat :: c < |targets| ==> D.Proposes(targets, D.Item(c, QuotesOf(values, c)), proposals[c])
  }

  lemma AllReferred(targets: seq<D.Target>, cands: R.Candidates, tags: seq<R.Tag>, values: R.Values,
                    allowed: (string, string) -> bool, proposals: seq<D.Proposal>)
    requires FromClaims(targets, cands) && RolesAreFields(cands)
    requires R.Accepted(cands, tags) && R.Filled(cands, tags, values)
    requires TagsProposable(targets, cands, tags, allowed) && AllPropose(targets, values, proposals)
    ensures forall k :: 0 <= k < |tags| ==> tags[k].id in cands && ReferredAt(targets, cands, tags[k], proposals)
  {
    var answers := seq(|targets|, c requires 0 <= c < |targets| => QuotesOf(values, c));
    forall k | 0 <= k < |tags| && tags[k].role != R.UNKNOWN
      ensures var c := cands[tags[k].id]; c.claim < |answers| && Holds(answers[c.claim], tags[k].role, c.quote)
    {
      assert R.Legal(cands, tags[k]);
      SlotGiven(cands, tags, values, k);
    }
    HeldReferred(targets, cands, tags, answers, allowed, proposals);
  }

  // ---------------------------------------------------------------- counting

  function PopulatedSum(proposals: seq<D.Proposal>): nat {
    if proposals == [] then 0
    else PopulatedSum(proposals[..|proposals|-1]) + proposals[|proposals|-1].populated
  }

  function SlotsBelow(values: R.Values, n: nat): set<(nat, string)> {
    set s | s in values && s.0 < n
  }

  function FieldsAt(values: R.Values, c: nat): set<string> {
    set f | f in D.FIELDS && (c, f) in values
  }

  function Named(c: nat, fields: set<string>): set<(nat, string)> {
    set f | f in fields :: (c, f)
  }

  lemma {:induction false} NamedSize(c: nat, fields: set<string>)
    ensures |Named(c, fields)| == |fields|
    decreases |fields|
  {
    if fields == {} {
      assert Named(c, fields) == {};
    } else {
      var f :| f in fields;
      NamedSize(c, fields - {f});
      assert Named(c, fields) == Named(c, fields - {f}) + {(c, f)};
    }
  }

  predicate SlotsIn(values: R.Values, n: nat) {
    forall s :: s in values ==> s.0 < n && s.1 in D.FIELDS
  }

  lemma SlotsInRange(targets: seq<D.Target>, cands: R.Candidates, tags: seq<R.Tag>, values: R.Values)
    requires FromClaims(targets, cands) && RolesAreFields(cands) && R.Accepted(cands, tags) && R.Filled(cands, tags, values)
    ensures SlotsIn(values, |targets|)
  {
    forall s | s in values ensures s.0 < |targets| && s.1 in D.FIELDS {
      assert R.Given(cands, tags, s);
      var k :| 0 <= k < |tags| && R.Gives(cands, tags[k], s);
      assert R.Legal(cands, tags[k]);
    }
  }

  lemma SlotsNext(values: R.Values, c: nat)
    requires forall s :: s in values ==> s.1 in D.FIELDS
    ensures |SlotsBelow(values, c + 1)| == |SlotsBelow(values, c)| + |FieldsAt(values, c)|
  {
    NamedSize(c, FieldsAt(values, c));
    assert SlotsBelow(values, c + 1) == SlotsBelow(values, c) + Named(c, FieldsAt(values, c));
  }

  lemma PopulatedAt(targets: seq<D.Target>, values: R.Values, c: nat, p: D.Proposal)
    requires c < |targets| && D.Proposes(targets, D.Item(c, QuotesOf(values, c)), p)
    ensures p.populated == |FieldsAt(values, c)|
  {
    var quotes := QuotesOf(values, c);
    assert forall f :: f in quotes ==> D.Refers(targets[c].text, targets[c].span.start, quotes[f], p.refs[f]);
    assert (set f | f in p.refs && p.refs[f].Some?) == FieldsAt(values, c);
  }

  lemma {:induction false} PopulatedBelow(targets: seq<D.Target>, values: R.Values, proposals: seq<D.Proposal>, n: nat)
    requires SlotsIn(values, |targets|) && n <= |targets| == |proposals|
    requires AllPropose(targets, values, proposals)
    ensures PopulatedSum(proposals[..n]) == |SlotsBelow(values, n)|
  {
    if n == 0 {
      assert SlotsBelow(values, 0) == {};
    } else {
      PopulatedBelow(targets, values, proposals, n - 1);
      SlotsNext(values, n - 1);
      PopulatedAt(targets, values, n - 1, proposals[n-1]);
      assert proposals[..n][..n-1] == proposals[..n-1];
    }
  }

  lemma PopulatedIsSize(targets: seq<D.Target>, values: R.Values, proposals: seq<D.Proposal>)
    requires SlotsIn(values, |targets|) && |targets| == |proposals|
    requires AllPropose(targets, values, proposals)
    ensures PopulatedSum(proposals) == |values|
  {
    PopulatedBelow(targets, values, proposals, |targets|);
    assert proposals[..|targets|] == proposals;
    AllBelow(values, |targets|);
  }

  lemma AllBelow(values: R.Values, n: nat)
    requires SlotsIn(values, n)
    ensures |SlotsBelow(values, n)| == |values|
  {
    assert SlotsBelow(values, n) == values.Keys;
  }
}
