/**
 Role tags: a model assigns a role to every literal candidate, and each role of a claim takes
 at most one quote.
 */
module RoleTags {
  import opened Wrappers

  const UNKNOWN: string := "unknown"

  /** A literal mention: where it starts in its claim, and the roles it may take. */
  datatype Candidate = Candidate(claim: nat, at: nat, quote: string, options: set<string>)

  datatype Tag = Tag(id: string, role: string)

  type Candidates = map<string, Candidate>

  /** The dimensions given: a claim and a role name a quote. */
  type Values = map<(nat, string), string>

  predicate Legal(cands: Candidates, tag: Tag) {
    tag.id in cands && tag.role in cands[tag.id].options
  }

  function Slot(cands: Candidates, tag: Tag): (nat, string)
    requires tag.id in cands
  {
    (cands[tag.id].claim, tag.role)
  }

  /** Two tags that cannot both be accepted: one candidate twice, or one dimension twice. */
  predicate Conflict(cands: Candidates, a: Tag, b: Tag) {
    a.id == b.id
    || (a.id in cands && b.id in cands && a.role != UNKNOWN && Slot(cands, a) == Slot(cands, b))
  }

  predicate AllLegal(cands: Candidates, tags: seq<Tag>) {
    forall k :: 0 <= k < |tags| ==> Legal(cands, tags[k])
  }

  predicate NoConflict(cands: Candidates, tags: seq<Tag>) {
    forall i, j :: 0 <= i < j < |tags| ==> !Conflict(cands, tags[i], tags[j])
  }

  predicate Decided(tags: seq<Tag>, id: string) {
    exists k :: 0 <= k < |tags| && tags[k].id == id
  }

  ghost predicate Accepted(cands: Candidates, tags: seq<Tag>) {
    AllLegal(cands, tags) && NoConflict(cands, tags) && forall id :: id in cands ==> Decided(tags, id)
  }

  predicate Gives(cands: Candidates, tag: Tag, slot: (nat, string)) {
    tag.id in cands && tag.role != UNKNOWN && Slot(cands, tag) == slot
  }

  predicate Given(cands: Candidates, tags: seq<Tag>, slot: (nat, string)) {
    exists k :: 0 <= k < |tags| && Gives(cands, tags[k], slot)
  }

  /** The dimensions are exactly those that some tag gives, with the candidate's quote. */
  ghost predicate Filled(cands: Candidates, tags: seq<Tag>, values: Values) {
    && (forall slot :: slot in values <==> Given(cands, tags, slot))
    && (forall k, slot :: 0 <= k < |tags| && Gives(cands, tags[k], slot) ==>
          slot in values && values[slot] == cands[tags[k].id].quote)
  }

  function Known(tags: seq<Tag>): nat {
    if tags == [] then 0
    else Known(tags[..|tags|-1]) + (if tags[|tags|-1].role == UNKNOWN then 0 else 1)
  }

  lemma KnownSnoc(tags: seq<Tag>, tag: Tag)
    ensures Known(tags + [tag]) == Known(tags) + (if tag.role == UNKNOWN then 0 else 1)
  {
    assert (tags + [tag])[..|tags|] == tags;
  }

  function KnownAt(tags: seq<Tag>): set<nat> {
    set i | 0 <= i < |tags| && tags[i].role != UNKNOWN
  }

  lemma {:induction false} KnownCounts(tags: seq<Tag>)
    ensures Known(tags) == |KnownAt(tags)|
    decreases |tags|
  {
    if tags != [] {
      var before, last := Unsnoc(tags);
      KnownCounts(before);
      KnownSnoc(before, last);
      assert KnownAt(tags) == KnownAt(before) + if last.role == UNKNOWN then {} else {|before|};
    }
  }

  lemma GivenSnoc(cands: Candidates, tags: seq<Tag>, tag: Tag, slot: (nat, string))
    ensures Given(cands, tags + [tag], slot) <==> Given(cands, tags, slot) || Gives(cands, tag, slot)
  {
    var all := tags + [tag];
    assert all[|tags|] == tag;
    if k :| 0 <= k < |tags| && Gives(cands, tags[k], slot) {
      assert Gives(cands, all[k], slot);
    }
  }

  lemma FilledSnoc(cands: Candidates, tags: seq<Tag>, tag: Tag, values: Values)
    requires Filled(cands, tags, values) && tag.id in cands
    requires tag.role != UNKNOWN ==> Slot(cands, tag) !in values
    ensures Filled(cands, tags + [tag],
                   if tag.role == UNKNOWN then values else values[Slot(cands, tag) := cands[tag.id].quote])
  {
    var all := tags + [tag];
    forall slot ensures Given(cands, all, slot) <==> Given(cands, tags, slot) || Gives(cands, tag, slot) {
      GivenSnoc(cands, tags, tag, slot);
    }
    forall k, slot | 0 <= k < |tags| && Gives(cands, tags[k], slot)
      ensures tag.role != UNKNOWN ==> slot != Slot(cands, tag)
    {
      assert slot in values;
    }
  }

  /** What holds after some of the tags. */
  ghost predicate Progress(cands: Candidates, tags: seq<Tag>, seen: set<string>, values: Values) {
    && seen == (set i | 0 <= i < |tags| :: tags[i].id)
    && AllLegal(cands, tags) && NoConflict(cands, tags)
    && Filled(cands, tags, values) && |values| == Known(tags)
  }

  lemma ProgressStep(cands: Candidates, tags: seq<Tag>, tag: Tag, seen: set<string>, values: Values)
    requires Progress(cands, tags, seen, values) && Legal(cands, tag) && tag.id !in seen
    requires tag.role != UNKNOWN ==> Slot(cands, tag) !in values
    ensures Progress(cands, tags + [tag], seen + {tag.id},
                     if tag.role == UNKNOWN then values else values[Slot(cands, tag) := cands[tag.id].quote])
  {
    KnownSnoc(tags, tag);
    FilledSnoc(cands, tags, tag, values);
    NoConflictSnoc(cands, tags, tag, values);
    IdsSnoc(tags, tag);
  }

  lemma IdsSnoc(tags: seq<Tag>, tag: Tag)
    ensures (set i | 0 <= i < |tags + [tag]| :: (tags + [tag])[i].id) == (set i | 0 <= i < |tags| :: tags[i].id) + {tag.id}
  {
    var all := tags + [tag];
    assert all[|tags|] == tag;
    forall i | 0 <= i < |tags| ensures all[i].id == tags[i].id {
    }
  }

  /** A tag that the loop refuses conflicts with an earlier one. */
  lemma Refused(cands: Candidates, tags: seq<Tag>, k: nat, seen: set<string>, values: Values)
    requires k < |tags| && Progress(cands, tags[..k], seen, values)
    requires !Legal(cands, tags[k]) || tags[k].id in seen || (tags[k].role != UNKNOWN && Slot(cands, tags[k]) in values)
    ensures !Accepted(cands, tags)
  {
    var before := tags[..k];
    if Legal(cands, tags[k]) {
      if tags[k].id in seen {
        var i :| 0 <= i < k && before[i].id == tags[k].id;
        assert Conflict(cands, tags[i], tags[k]);
      } else {
        assert Given(cands, before, Slot(cands, tags[k]));
        var i :| 0 <= i < k && Gives(cands, before[i], Slot(cands, tags[k]));
        assert Conflict(cands, tags[i], tags[k]);
      }
    }
  }

  /** Accepted exactly when every candidate is decided once, with an allowed role, and no
      dimension is given twice. */
  method AssignRoles(cands: Candidates, tags: seq<Tag>) returns (r: Option<Values>)
    ensures r.Some? <==> Accepted(cands, tags)
    ensures r.Some? ==> Filled(cands, tags, r.value) && |r.value| == Known(tags)
  {
    var ok, seen, values := ReadTags(cands, tags);
    if !ok {
      return None;
    }
    AllDecided(cands, tags, seen);
    r := if seen == cands.Keys then Some(values) else None;
  }

  /** The loop over the tags. */
  method ReadTags(cands: Candidates, tags: seq<Tag>) returns (ok: bool, seen: set<string>, values: Values)
    ensures ok ==> Progress(cands, tags, seen, values)
    ensures !ok ==> !Accepted(cands, tags)
  {
    values, seen := map[], {};
    for k := 0 to |tags|
      invariant Progress(cands, tags[..k], seen, values)
    {
      var tag := tags[k];
      if !Legal(cands, tag) || tag.id in seen || (tag.role != UNKNOWN && Slot(cands, tag) in values) {
        Refused(cands, tags, k, seen, values);
        return false, seen, values;
      }
      ProgressStep(cands, tags[..k], tag, seen, values);
      assert tags[..k+1] == tags[..k] + [tag];
      seen := seen + {tag.id};
      if tag.role != UNKNOWN {
        values := values[Slot(cands, tag) := cands[tag.id].quote];
      }
    }
    assert tags[..|tags|] == tags;
    ok := true;
  }

  lemma NoConflictSnoc(cands: Candidates, tags: seq<Tag>, tag: Tag, values: Values)
    requires NoConflict(cands, tags) && Filled(cands, tags, values) && tag.id in cands && AllLegal(cands, tags)
    requires forall k :: 0 <= k < |tags| ==> tags[k].id != tag.id
    requires tag.role != UNKNOWN ==> Slot(cands, tag) !in values
    ensures NoConflict(cands, tags + [tag])
  {
    forall k | 0 <= k < |tags| ensures !Conflict(cands, tags[k], tag) {
      if tags[k].role != UNKNOWN {
        assert Gives(cands, tags[k], Slot(cands, tags[k]));
      }
    }
  }

  lemma AllDecided(cands: Candidates, tags: seq<Tag>, seen: set<string>)
    requires seen == (set i | 0 <= i < |tags| :: tags[i].id) && AllLegal(cands, tags)
    ensures seen == cands.Keys <==> forall id :: id in cands ==> Decided(tags, id)
  {
    if forall id :: id in cands ==> Decided(tags, id) {
      forall id | id in cands ensures id in seen {
        assert Decided(tags, id);
      }
    }
    forall id | id in seen ensures Decided(tags, id) && id in cands {
    }
  }

  // ---------------------------------------------------------------- order does not matter

  /** Two places of a list hold a and b if and only if the list has both at once. */
  lemma {:induction false} PairFrom(tags: seq<Tag>, a: Tag, b: Tag) returns (i: nat, j: nat)
    requires multiset{a, b} <= multiset(tags)
    ensures i < |tags| && j < |tags| && i != j && tags[i] == a && tags[j] == b
  {
    assert a in multiset(tags);
    i :| i < |tags| && tags[i] == a;
    var rest := tags[..i] + tags[i+1..];
    WithoutOne(tags, i);
    assert b in multiset(rest);
    var k :| 0 <= k < |rest| && rest[k] == b;
    j := if k < i then k else k + 1;
  }

  lemma WithoutOne(tags: seq<Tag>, i: nat)
    requires i < |tags|
    ensures multiset(tags) == multiset(tags[..i] + tags[i+1..]) + multiset{tags[i]}
  {
    assert tags == tags[..i] + ([tags[i]] + tags[i+1..]);
  }

  lemma PairIn(tags: seq<Tag>, i: nat, j: nat)
    requires i < j < |tags|
    ensures multiset{tags[i], tags[j]} <= multiset(tags)
  {
    assert tags == tags[..i] + [tags[i]] + tags[i+1..j] + [tags[j]] + tags[j+1..];
  }

  lemma SameMembers(tags: seq<Tag>, other: seq<Tag>, k: nat) returns (j: nat)
    requires multiset(tags) == multiset(other) && k < |tags|
    ensures j < |other| && other[j] == tags[k]
  {
    assert tags[k] in multiset(tags);
    j :| j < |other| && other[j] == tags[k];
  }

  lemma AcceptedPermuted(cands: Candidates, tags: seq<Tag>, other: seq<Tag>)
    requires multiset(tags) == multiset(other) && Accepted(cands, tags)
    ensures Accepted(cands, other)
  {
    forall k | 0 <= k < |other| ensures Legal(cands, other[k]) {
      var j := SameMembers(other, tags, k);
    }
    forall i, j | 0 <= i < j < |other| ensures !Conflict(cands, other[i], other[j]) {
      PairIn(other, i, j);
      var k, l := PairFrom(tags, other[i], other[j]);
      assert Conflict(cands, tags[k], tags[l]) <==> Conflict(cands, tags[l], tags[k]);
    }
    forall id | id in cands ensures Decided(other, id) {
      assert Decided(tags, id);
      var k :| 0 <= k < |tags| && tags[k].id == id;
      var j := SameMembers(tags, other, k);
    }
  }

  /** Neither acceptance nor the dimensions depend on the order of the tags. */
  lemma OrderDoesNotMatter(cands: Candidates, tags: seq<Tag>, other: seq<Tag>, values: Values, otherValues: Values)
    requires multiset(tags) == multiset(other)
    ensures Accepted(cands, tags) <==> Accepted(cands, other)
    ensures Filled(cands, tags, values) && Filled(cands, other, otherValues) ==> values == otherValues
  {
    if Accepted(cands, tags) {
      AcceptedPermuted(cands, tags, other);
    }
    if Accepted(cands, other) {
      AcceptedPermuted(cands, other, tags);
    }
    if Filled(cands, tags, values) && Filled(cands, other, otherValues) {
      Subset(cands, tags, other, values, otherValues);
      Subset(cands, other, tags, otherValues, values);
    }
  }

  lemma Subset(cands: Candidates, tags: seq<Tag>, other: seq<Tag>, values: Values, otherValues: Values)
    requires multiset(tags) == multiset(other) && Filled(cands, tags, values) && Filled(cands, other, otherValues)
    ensures forall slot :: slot in values ==> slot in otherValues && otherValues[slot] == values[slot]
  {
    forall slot | slot in values ensures slot in otherValues && otherValues[slot] == values[slot] {
      assert Given(cands, tags, slot);
      var k :| 0 <= k < |tags| && Gives(cands, tags[k], slot);
      var j := SameMembers(tags, other, k);
      assert Gives(cands, other[j], slot);
    }
  }

  /** Accepted tags decide every candidate exactly once. */
  lemma DecidedOnce(cands: Candidates, tags: seq<Tag>, id: string)
    requires Accepted(cands, tags) && id in cands
    ensures exists k :: 0 <= k < |tags| && tags[k].id == id && forall j :: 0 <= j < |tags| && tags[j].id == id ==> j == k
  {
    assert Decided(tags, id);
    var k :| 0 <= k < |tags| && tags[k].id == id;
    assert forall i, j :: 0 <= i < j < |tags| ==> tags[i].id != tags[j].id by {
      forall i, j | 0 <= i < j < |tags| ensures tags[i].id != tags[j].id {
        assert !Conflict(cands, tags[i], tags[j]);
      }
    }
  }
}
