/**
 From token ids to dimension proposals: the pairs of every answer are expanded to quotes, which
 go through the same check as any other answer.
 */
module TokenProposals {
  import opened Wrappers
  import opened Text
  import opened Sentences
  import T = Tokens
  import D = Dimensions

  const SEMANTIC_FIELDS: seq<string> := ["entity", "metric", "boundary"]

  type Pairs = map<string, Option<seq<string>>>

  datatype Item = Item(claim: nat, pairs: Pairs)

  predicate SemanticOnly(pairs: Pairs) {
    pairs.Keys == set f | f in SEMANTIC_FIELDS
  }

  // ---------------------------------------------------------------- the expansion of one answer

  function QuoteOf(texts: seq<string>, tokens: seq<T.Token>, claim: nat, pair: Option<seq<string>>): Option<string>
    requires claim < |texts| && T.InTexts(texts, tokens)
  {
    if pair.None? then None else T.Quote(texts, tokens, claim, pair.value)
  }

  /** A pair is missing, or names two tokens of the claim in order. */
  ghost predicate Fits(tokens: seq<T.Token>, claim: nat, pair: Option<seq<string>>) {
    pair.Some? ==> exists a, b :: T.OwnOrderedPair(tokens, claim, pair.value, a, b)
  }

  ghost predicate Expandable(n: nat, tokens: seq<T.Token>, item: Item) {
    item.claim < n && SemanticOnly(item.pairs) && forall f :: f in item.pairs ==> Fits(tokens, item.claim, item.pairs[f])
  }

  /** Every field is given; the ones without a pair are empty. */
  function Expanded(texts: seq<string>, tokens: seq<T.Token>, item: Item): D.Item
    requires item.claim < |texts| && T.InTexts(texts, tokens)
  {
    D.Item(item.claim, map f | f in D.FIELDS ::
      if f in item.pairs then QuoteOf(texts, tokens, item.claim, item.pairs[f]) else None)
  }

  lemma ListedInTexts(texts: seq<string>, tokens: seq<T.Token>)
    requires T.ListsTokens(texts, tokens)
    ensures T.InTexts(texts, tokens)
  {
    forall k | 0 <= k < |tokens| ensures tokens[k].claim < |texts| && tokens[k].at.end <= |texts[tokens[k].claim]| {
      assert T.IsToken(texts[tokens[k].claim], tokens[k].at);
    }
  }

  /** The loop over the fields of one answer. */
  method Expand(texts: seq<string>, tokens: seq<T.Token>, item: Item) returns (r: Option<D.Item>)
    requires T.ListsTokens(texts, tokens) && T.InTexts(texts, tokens)
    ensures r.Some? <==> Expandable(|texts|, tokens, item)
    ensures r.Some? ==> r == Some(Expanded(texts, tokens, item))
  {
    if item.claim >= |texts| || !SemanticOnly(item.pairs) {
      return None;
    }
    for k := 0 to |SEMANTIC_FIELDS|
      invariant forall j :: 0 <= j < k ==> Fits(tokens, item.claim, item.pairs[SEMANTIC_FIELDS[j]])
    {
      var pair := item.pairs[SEMANTIC_FIELDS[k]];
      if pair.Some? {
        T.QuoteIff(texts, tokens, item.claim, pair.value);
        if T.Quote(texts, tokens, item.claim, pair.value).None? {
          return None;
        }
      }
    }
    r := Some(Expanded(texts, tokens, item));
  }

  // ---------------------------------------------------------------- all answers

  predicate Distinct(items: seq<Item>) {
    forall i, j :: 0 <= i < j < |items| ==> items[i].claim != items[j].claim
  }

  predicate Answers(items: seq<Item>, claim: nat) {
    exists k :: 0 <= k < |items| && items[k].claim == claim
  }

  /** The chosen tokens spell a quote that occurs once in the claim and is allowed. */
  ghost predicate Chosen(texts: seq<string>, tokens: seq<T.Token>, item: Item, allowed: (string, string) -> bool)
    requires T.InTexts(texts, tokens) && item.claim < |texts|
  {
    forall f :: f in item.pairs ==>
      var quote := QuoteOf(texts, tokens, item.claim, item.pairs[f]);
      quote.Some? ==> Unique(texts[item.claim], quote.value) && allowed(f, quote.value)
  }

  ghost predicate ItemGood(texts: seq<string>, tokens: seq<T.Token>, item: Item, allowed: (string, string) -> bool)
    requires T.InTexts(texts, tokens)
  {
    Expandable(|texts|, tokens, item) && Chosen(texts, tokens, item, allowed)
  }

  ghost predicate AllGood(texts: seq<string>, tokens: seq<T.Token>, items: seq<Item>, allowed: (string, string) -> bool)
    requires T.InTexts(texts, tokens)
  {
    && Distinct(items)
    && (forall k :: 0 <= k < |items| ==> ItemGood(texts, tokens, items[k], allowed))
    && (forall c: nat :: c < |texts| ==> Answers(items, c))
  }

  predicate ClaimsIn(items: seq<Item>, n: nat) {
    forall k :: 0 <= k < |items| ==> items[k].claim < n
  }

  function ExpandedAll(texts: seq<string>, tokens: seq<T.Token>, items: seq<Item>): (r: seq<D.Item>)
    requires T.InTexts(texts, tokens) && ClaimsIn(items, |texts|)
    ensures |r| == |items| && forall k :: 0 <= k < |items| ==> r[k] == Expanded(texts, tokens, items[k])
  {
    seq(|items|, k requires 0 <= k < |items| => Expanded(texts, tokens, items[k]))
  }

  function TextsOf(targets: seq<D.Target>): (texts: seq<string>)
    ensures |texts| == |targets| && forall c :: 0 <= c < |targets| ==> texts[c] == targets[c].text
  {
    seq(|targets|, c requires 0 <= c < |targets| => targets[c].text)
  }

  /** The check of token answers: accepted if and only if every claim is answered once, every
      pair names two of its tokens in order, and the text between them occurs once in the claim
      and is allowed; the proposals are then those of the expanded answers. */
  method ValidateTokens(targets: seq<D.Target>, items: seq<Item>, allowed: (string, string) -> bool)
    returns (r: Option<seq<D.Proposal>>, ghost tokens: seq<T.Token>)
    ensures T.ListsTokens(TextsOf(targets), tokens) && T.InTexts(TextsOf(targets), tokens)
    ensures r.Some? <==> AllGood(TextsOf(targets), tokens, items, allowed)
    ensures r.Some? ==> ClaimsIn(items, |TextsOf(targets)|) && |r.value| == |items|
    ensures r.Some? ==> forall k :: 0 <= k < |items| ==>
              D.Proposes(targets, ExpandedAll(TextsOf(targets), tokens, items)[k], r.value[k])
  {
    var texts := TextsOf(targets);
    var listed := T.SemanticTokens(texts);
    tokens := listed;
    ListedInTexts(texts, listed);
    var expanded := ExpandAll(texts, listed, items);
    if expanded.None? {
      return None, tokens;
    }
    r := D.Validate(targets, expanded.value, allowed);
    ExpandedAcceptedIff(targets, listed, items, allowed);
  }

  /** The loop over the answers. */
  method ExpandAll(texts: seq<string>, tokens: seq<T.Token>, items: seq<Item>) returns (r: Option<seq<D.Item>>)
    requires T.ListsTokens(texts, tokens) && T.InTexts(texts, tokens)
    ensures r.Some? <==> forall k :: 0 <= k < |items| ==> Expandable(|texts|, tokens, items[k])
    ensures r.Some? ==> ClaimsIn(items, |texts|) && r.value == ExpandedAll(texts, tokens, items)
  {
    var expanded := [];
    for k := 0 to |items|
      invariant |expanded| == k
      invariant forall j :: 0 <= j < k ==>
                  Expandable(|texts|, tokens, items[j]) && expanded[j] == Expanded(texts, tokens, items[j])
    {
      var one := Expand(texts, tokens, items[k]);
      if one.None? {
        return None;
      }
      expanded := expanded + [one.value];
    }
    r := Some(expanded);
  }

  // ---------------------------------------------------------------- acceptance

  /** A quote chosen by tokens is never blank, so it may be proposed exactly when it occurs once
      and is allowed. */
  lemma PairProposableIff(texts: seq<string>, tokens: seq<T.Token>, claim: nat, pair: Option<seq<string>>, f: string,
                          allowed: (string, string) -> bool)
    requires T.ListsTokens(texts, tokens) && T.InTexts(texts, tokens) && claim < |texts| && Fits(tokens, claim, pair)
    ensures var quote := QuoteOf(texts, tokens, claim, pair);
            D.Proposable(texts[claim], f, quote, allowed)
            <==> (quote.Some? ==> Unique(texts[claim], quote.value) && allowed(f, quote.value))
  {
    if pair.Some? {
      var a, b :| T.OwnOrderedPair(tokens, claim, pair.value, a, b);
      T.TokenProposableIff(texts, tokens, claim, pair.value, a, b, f, allowed);
    }
  }

  lemma SemanticAreFields(f: string)
    requires f in SEMANTIC_FIELDS
    ensures f in D.FIELDS
  {
    assert D.FIELDS[0] == "entity" && D.FIELDS[1] == "metric" && D.FIELDS[11] == "boundary";
  }

  lemma ItemGoodIff(targets: seq<D.Target>, tokens: seq<T.Token>, item: Item, allowed: (string, string) -> bool)
    requires T.ListsTokens(TextsOf(targets), tokens) && T.InTexts(TextsOf(targets), tokens)
    requires Expandable(|targets|, tokens, item)
    ensures D.ItemAccepted(targets, Expanded(TextsOf(targets), tokens, item), allowed)
       <==> Chosen(TextsOf(targets), tokens, item, allowed)
  {
    var texts := TextsOf(targets);
    var quotes := Expanded(texts, tokens, item).quotes;
    forall f | f in item.pairs
      ensures f in quotes && quotes[f] == QuoteOf(texts, tokens, item.claim, item.pairs[f])
      ensures D.Proposable(texts[item.claim], f, quotes[f], allowed) <==>
              (quotes[f].Some? ==> Unique(texts[item.claim], quotes[f].value) && allowed(f, quotes[f].value))
    {
      SemanticAreFields(f);
      PairProposableIff(texts, tokens, item.claim, item.pairs[f], f, allowed);
    }
  }

  lemma ExpandedAcceptedIff(targets: seq<D.Target>, tokens: seq<T.Token>, items: seq<Item>, allowed: (string, string) -> bool)
    requires T.ListsTokens(TextsOf(targets), tokens) && T.InTexts(TextsOf(targets), tokens)
    requires ClaimsIn(items, |targets|)
    requires forall k :: 0 <= k < |items| ==> Expandable(|targets|, tokens, items[k])
    ensures D.Accepted(targets, ExpandedAll(TextsOf(targets), tokens, items), allowed)
       <==> AllGood(TextsOf(targets), tokens, items, allowed)
  {
    var expanded := ExpandedAll(TextsOf(targets), tokens, items);
    forall k | 0 <= k < |items|
      ensures expanded[k].claim == items[k].claim
      ensures D.ItemAccepted(targets, expanded[k], allowed) <==> ItemGood(TextsOf(targets), tokens, items[k], allowed)
    {
      ItemGoodIff(targets, tokens, items[k], allowed);
    }
    SameClaims(expanded, items, |targets|);
  }

  lemma SameClaims(expanded: seq<D.Item>, items: seq<Item>, n: nat)
    requires |expanded| == |items| && forall k :: 0 <= k < |items| ==> expanded[k].claim == items[k].claim
    ensures D.Distinct(expanded) <==> Distinct(items)
    ensures (forall c: nat :: c < n ==> D.Answers(expanded, c)) <==> forall c: nat :: c < n ==> Answers(items, c)
  {
    forall c: nat ensures D.Answers(expanded, c) <==> Answers(items, c) {
      if k :| 0 <= k < |items| && items[k].claim == c {
        assert expanded[k].claim == c;
      }
      if k :| 0 <= k < |expanded| && expanded[k].claim == c {
        assert items[k].claim == c;
      }
    }
  }
}
