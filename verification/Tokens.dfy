/**
 Dimension quotes chosen by token ids: the tokens of every claim, and the expansion of a pair
 of tokens to the text between them.
 */
module Tokens {
  import opened Wrappers
  import opened Text
  import opened Sentences
  import D = Dimensions

  // ---------------------------------------------------------------- tokens of one claim

  predicate StartsToken(text: string, a: nat) {
    a < |text| && !IsBlank(text[a]) && (a == 0 || IsBlank(text[a-1]))
  }

  predicate EndsToken(text: string, b: nat) {
    0 < b <= |text| && !IsBlank(text[b-1]) && (b == |text| || IsBlank(text[b]))
  }

  predicate Solid(text: string, a: nat, b: nat) {
    b <= |text| && forall i :: a <= i < b ==> !IsBlank(text[i])
  }

  /** A longest stretch of characters that are not blank. */
  predicate IsToken(text: string, t: Span) {
    t.start < t.end && StartsToken(text, t.start) && EndsToken(text, t.end) && Solid(text, t.start, t.end)
  }

  ghost predicate TokensUpTo(text: string, tokens: seq<Span>, limit: nat) {
    && (forall t :: t in tokens <==> IsToken(text, t) && t.end <= limit)
    && (forall i, j :: 0 <= i < j < |tokens| ==> tokens[i].end <= tokens[j].start)
  }

  lemma SameToken(text: string, s: Span, t: Span)
    requires IsToken(text, s) && IsToken(text, t) && s.start < t.end && t.start < s.end
    ensures s == t
  {
    if s.start < t.start {
      assert false;
    }
  }

  lemma TokenAdded(text: string, tokens: seq<Span>, limit: nat, t: Span)
    requires TokensUpTo(text, tokens, limit) && IsToken(text, t) && limit == t.start
    ensures TokensUpTo(text, tokens + [t], t.end)
  {
    forall s ensures s in tokens + [t] <==> IsToken(text, s) && s.end <= t.end {
      if IsToken(text, s) && t.start < s.end <= t.end {
        SameToken(text, s, t);
      }
    }
    forall i | 0 <= i < |tokens| ensures tokens[i].end <= t.start {
      assert tokens[i] in tokens;
    }
  }

  /** The search for `\S+` over one claim. */
  method Split(text: string) returns (tokens: seq<Span>)
    ensures TokensUpTo(text, tokens, |text|)
  {
    tokens := [];
    var pos := 0;
    while pos < |text|
      invariant pos <= |text| && TokensUpTo(text, tokens, pos)
      invariant pos == 0 || pos == |text| || IsBlank(text[pos-1]) || IsBlank(text[pos])
    {
      if IsBlank(text[pos]) {
        pos := pos + 1;
      } else {
        var end := pos + 1;
        while end < |text| && !IsBlank(text[end])
          invariant pos < end <= |text| && Solid(text, pos, end)
        {
          end := end + 1;
        }
        TokenAdded(text, tokens, pos, Span(pos, end));
        tokens := tokens + [Span(pos, end)];
        pos := end;
      }
    }
  }

  /** A token is a stretch without blanks that has a blank, or the end of the text, on each side. */
  lemma IsTokenIff(text: string, t: Span)
    ensures IsToken(text, t) <==>
            && t.start < t.end <= |text| && (forall i :: t.start <= i < t.end ==> !IsBlank(text[i]))
            && (t.start > 0 ==> IsBlank(text[t.start-1])) && (t.end < |text| ==> IsBlank(text[t.end]))
  {
  }

  lemma TokenAround(text: string, i: nat) returns (t: Span)
    requires i < |text| && !IsBlank(text[i])
    ensures IsToken(text, t) && t.start <= i < t.end
  {
    var a, b: nat := i, i + 1;
    while a > 0 && !IsBlank(text[a-1])
      invariant 0 <= a <= i && forall j :: a <= j <= i ==> !IsBlank(text[j])
    {
      a := a - 1;
    }
    while b < |text| && !IsBlank(text[b])
      invariant i < b <= |text| && forall j :: i <= j < b ==> !IsBlank(text[j])
    {
      b := b + 1;
    }
    t := Span(a, b);
  }

  /** Every character that is not blank is in exactly one listed token, and no blank is in one. */
  lemma EveryCharacterOnce(text: string, tokens: seq<Span>, i: nat)
    requires TokensUpTo(text, tokens, |text|) && i < |text|
    ensures !IsBlank(text[i]) <==> exists t :: t in tokens && t.start <= i < t.end
    ensures forall s, t :: s in tokens && t in tokens && s.start <= i < s.end && t.start <= i < t.end ==> s == t
  {
    if !IsBlank(text[i]) {
      var t := TokenAround(text, i);
    }
    forall s, t | s in tokens && t in tokens && s.start <= i < s.end && t.start <= i < t.end ensures s == t {
      SameToken(text, s, t);
    }
  }

  // ---------------------------------------------------------------- tokens of all claims

  datatype Token = Token(id: string, claim: nat, at: Span)

  function TokenId(k: nat): string {
    "t" + Decimal(k)
  }

  lemma TokenIdInjective(j: nat, k: nat)
    requires TokenId(j) == TokenId(k)
    ensures j == k
  {
    assert Decimal(j) == TokenId(j)[1..] == TokenId(k)[1..] == Decimal(k);
    DecimalRoundTrip(j);
    DecimalRoundTrip(k);
  }

  ghost predicate Listed(tokens: seq<Token>, claim: nat, at: Span) {
    exists k :: 0 <= k < |tokens| && tokens[k].claim == claim && tokens[k].at == at
  }

  predicate Numbered(tokens: seq<Token>) {
    forall k :: 0 <= k < |tokens| ==> tokens[k].id == TokenId(k)
  }

  ghost predicate ListsTokens(texts: seq<string>, tokens: seq<Token>) {
    && Numbered(tokens)
    && (forall k :: 0 <= k < |tokens| ==> tokens[k].claim < |texts| && IsToken(texts[tokens[k].claim], tokens[k].at))
    && (forall c: nat, t :: c < |texts| && IsToken(texts[c], t) ==> Listed(tokens, c, t))
    && (forall j, k :: 0 <= j < k < |tokens| ==> Before(tokens[j], tokens[k]))
  }

  predicate Before(s: Token, t: Token) {
    s.claim < t.claim || (s.claim == t.claim && s.at.end <= t.at.start)
  }

  function Label(spans: seq<Span>, first: nat, claim: nat): (r: seq<Token>)
    ensures |r| == |spans|
  {
    seq(|spans|, k requires 0 <= k < |spans| => Token(TokenId(first + k), claim, spans[k]))
  }

  lemma ListedMore(tokens: seq<Token>, more: seq<Token>, c: nat, t: Span)
    requires Listed(tokens, c, t)
    ensures Listed(tokens + more, c, t)
  {
    var k :| 0 <= k < |tokens| && tokens[k].claim == c && tokens[k].at == t;
    assert (tokens + more)[k] == tokens[k];
  }

  lemma LabelListed(tokens: seq<Token>, spans: seq<Span>, c: nat, t: Span)
    requires t in spans
    ensures Listed(tokens + Label(spans, |tokens|, c), c, t)
  {
    var k :| 0 <= k < |spans| && spans[k] == t;
    var all := tokens + Label(spans, |tokens|, c);
    assert all[|tokens| + k].claim == c && all[|tokens| + k].at == t;
  }

  lemma LabelAll(texts: seq<string>, tokens: seq<Token>, c: nat, spans: seq<Span>)
    requires c < |texts| && ListsTokens(texts[..c], tokens) && TokensUpTo(texts[c], spans, |texts[c]|)
    ensures ListsTokens(texts[..c+1], tokens + Label(spans, |tokens|, c))
  {
    var all := tokens + Label(spans, |tokens|, c);
    LabelOrdered(texts, tokens, c, spans);
    forall k | |tokens| <= k < |all| ensures IsToken(texts[c], all[k].at) {
      assert spans[k-|tokens|] in spans;
    }
    forall d: nat, t | d < |texts[..c+1]| && IsToken(texts[..c+1][d], t) ensures Listed(all, d, t) {
      StillListed(texts, tokens, c, spans, d, t);
    }
  }

  lemma LabelOrdered(texts: seq<string>, tokens: seq<Token>, c: nat, spans: seq<Span>)
    requires c < |texts| && ListsTokens(texts[..c], tokens) && TokensUpTo(texts[c], spans, |texts[c]|)
    ensures var all := tokens + Label(spans, |tokens|, c);
            forall j, k :: 0 <= j < k < |all| ==> Before(all[j], all[k])
  {
    var all := tokens + Label(spans, |tokens|, c);
    forall j, k | 0 <= j < k < |all| ensures Before(all[j], all[k]) {
      if j < |tokens| {
        assert all[j] == tokens[j];
      }
    }
  }

  lemma StillListed(texts: seq<string>, tokens: seq<Token>, c: nat, spans: seq<Span>, d: nat, t: Span)
    requires d <= c < |texts| && ListsTokens(texts[..c], tokens) && TokensUpTo(texts[c], spans, |texts[c]|)
    requires IsToken(texts[d], t)
    ensures Listed(tokens + Label(spans, |tokens|, c), d, t)
  {
    if d < c {
      assert texts[..c][d] == texts[d];
      ListedMore(tokens, Label(spans, |tokens|, c), d, t);
    } else {
      assert t in spans;
      LabelListed(tokens, spans, c, t);
    }
  }

  /** The tokens of all claims, numbered through. */
  method SemanticTokens(texts: seq<string>) returns (tokens: seq<Token>)
    ensures ListsTokens(texts, tokens)
  {
    tokens := [];
    for c := 0 to |texts|
      invariant ListsTokens(texts[..c], tokens)
    {
      var spans := Split(texts[c]);
      LabelAll(texts, tokens, c, spans);
      tokens := Labelled(tokens, c, spans);
    }
    assert texts[..|texts|] == texts;
  }

  /** The inner loop over the matches of one claim. */
  method Labelled(tokens: seq<Token>, c: nat, spans: seq<Span>) returns (more: seq<Token>)
    ensures more == tokens + Label(spans, |tokens|, c)
  {
    more := tokens;
    for k := 0 to |spans|
      invariant more == tokens + Label(spans, |tokens|, c)[..k]
    {
      more := more + [Token(TokenId(|more|), c, spans[k])];
    }
  }

  // ---------------------------------------------------------------- pairs of token ids

  function Lookup(tokens: seq<Token>, id: string): Option<Token> {
    if tokens == [] then None
    else if tokens[|tokens|-1].id == id then Some(tokens[|tokens|-1])
    else Lookup(tokens[..|tokens|-1], id)
  }

  /** Ids name their token. */
  lemma {:induction false} LookupNumbered(tokens: seq<Token>, k: nat)
    requires Numbered(tokens) && k < |tokens|
    ensures Lookup(tokens, TokenId(k)) == Some(tokens[k])
  {
    var n := |tokens| - 1;
    if k < n {
      if TokenId(k) == TokenId(n) {
        TokenIdInjective(k, n);
      }
      LookupNumbered(tokens[..n], k);
    }
  }

  lemma {:induction false} LookupIsMember(tokens: seq<Token>, id: string)
    ensures var t := Lookup(tokens, id); t.Some? ==> t.value in tokens && t.value.id == id
  {
    if tokens != [] {
      LookupIsMember(tokens[..|tokens|-1], id);
    }
  }

  predicate InTexts(texts: seq<string>, tokens: seq<Token>) {
    forall k :: 0 <= k < |tokens| ==> tokens[k].claim < |texts| && tokens[k].at.end <= |texts[tokens[k].claim]|
  }

  /** The text from the start of one token of a claim to the end of a later or equal one. */
  function Quote(texts: seq<string>, tokens: seq<Token>, claim: nat, pair: seq<string>): Option<string>
    requires claim < |texts|
    requires InTexts(texts, tokens)
  {
    if |pair| != 2 then None
    else
      var (a, b) := (Lookup(tokens, pair[0]), Lookup(tokens, pair[1]));
      if a.None? || b.None? || a.value.claim != claim || b.value.claim != claim
         || a.value.at.start > b.value.at.start then None
      else
        LookupIsMember(tokens, pair[1]);
        var (from, to) := (a.value.at.start, b.value.at.end);
        if from <= to then Some(texts[claim][from..to]) else None
  }

  ghost predicate OwnOrderedPair(tokens: seq<Token>, claim: nat, pair: seq<string>, a: Token, b: Token) {
    && |pair| == 2 && a in tokens && b in tokens && a.id == pair[0] && b.id == pair[1]
    && a.claim == claim && b.claim == claim && a.at.start <= b.at.start
  }

  lemma PairFound(texts: seq<string>, tokens: seq<Token>, claim: nat, pair: seq<string>, a: Token, b: Token)
    requires ListsTokens(texts, tokens) && OwnOrderedPair(tokens, claim, pair, a, b)
    ensures Lookup(tokens, pair[0]) == Some(a) && Lookup(tokens, pair[1]) == Some(b)
    ensures a.at.start < b.at.end <= |texts[claim]|
  {
    var j :| 0 <= j < |tokens| && tokens[j] == a;
    var k :| 0 <= k < |tokens| && tokens[k] == b;
    LookupNumbered(tokens, j);
    LookupNumbered(tokens, k);
    assert IsToken(texts[claim], b.at);
  }

  /** A pair of ids yields a quote exactly when it names two tokens of the claim in order. */
  lemma QuoteIff(texts: seq<string>, tokens: seq<Token>, claim: nat, pair: seq<string>)
    requires ListsTokens(texts, tokens) && claim < |texts|
    ensures Quote(texts, tokens, claim, pair).Some? <==> exists a, b :: OwnOrderedPair(tokens, claim, pair, a, b)
  {
    if Quote(texts, tokens, claim, pair).Some? {
      LookupIsMember(tokens, pair[0]);
      LookupIsMember(tokens, pair[1]);
      var (a, b) := (Lookup(tokens, pair[0]).value, Lookup(tokens, pair[1]).value);
      assert OwnOrderedPair(tokens, claim, pair, a, b);
    }
    if a, b :| OwnOrderedPair(tokens, claim, pair, a, b) {
      PairFound(texts, tokens, claim, pair, a, b);
    }
  }

  /** The quote of a pair is not blank, and starts and ends where its tokens do. */
  lemma QuoteOnTokens(texts: seq<string>, tokens: seq<Token>, claim: nat, pair: seq<string>, a: Token, b: Token)
    requires ListsTokens(texts, tokens) && OwnOrderedPair(tokens, claim, pair, a, b)
    ensures claim < |texts| && a.at.start < b.at.end <= |texts[claim]|
    ensures Quote(texts, tokens, claim, pair) == Some(texts[claim][a.at.start..b.at.end])
    ensures StartsToken(texts[claim], a.at.start) && EndsToken(texts[claim], b.at.end)
    ensures !BlankRange(texts[claim][a.at.start..b.at.end], 0, b.at.end - a.at.start)
  {
    PairFound(texts, tokens, claim, pair, a, b);
    assert IsToken(texts[claim], a.at) && IsToken(texts[claim], b.at);
    var quote := texts[claim][a.at.start..b.at.end];
    assert quote[0] == texts[claim][a.at.start];
  }

  /** A quote from tokens is proposable exactly when it occurs once in the claim and is allowed. */
  lemma TokenProposableIff(texts: seq<string>, tokens: seq<Token>, claim: nat, pair: seq<string>, a: Token, b: Token,
                           field: string, allowed: (string, string) -> bool)
    requires ListsTokens(texts, tokens) && OwnOrderedPair(tokens, claim, pair, a, b)
    ensures claim < |texts| && Quote(texts, tokens, claim, pair).Some?
    ensures var quote := Quote(texts, tokens, claim, pair);
            D.Proposable(texts[claim], field, quote, allowed)
            <==> Unique(texts[claim], quote.value) && allowed(field, quote.value)
  {
    QuoteOnTokens(texts, tokens, claim, pair, a, b);
  }

  lemma SliceReferred(text: string, a: nat, b: nat, quote: Option<string>, offset: nat, ref: Option<Span>)
    requires a < b <= |text| && quote == Some(text[a..b])
    requires Unique(text, quote.value) && D.Refers(text, offset, quote, ref)
    ensures ref == Some(Span(offset + a, offset + b))
  {
    assert OccursAt(text, quote.value, a);
    D.PlacedAt(text, quote.value, a, offset, ref);
  }

  /** Its reference then covers exactly the tokens it was chosen by. */
  lemma TokenReference(texts: seq<string>, tokens: seq<Token>, claim: nat, pair: seq<string>, a: Token, b: Token,
                       offset: nat, ref: Option<Span>)
    requires ListsTokens(texts, tokens) && OwnOrderedPair(tokens, claim, pair, a, b)
    requires claim < |texts| && Quote(texts, tokens, claim, pair).Some?
    requires Unique(texts[claim], Quote(texts, tokens, claim, pair).value)
    requires D.Refers(texts[claim], offset, Quote(texts, tokens, claim, pair), ref)
    ensures ref == Some(Span(offset + a.at.start, offset + b.at.end))
  {
    QuoteOnTokens(texts, tokens, claim, pair, a, b);
    SliceReferred(texts[claim], a.at.start, b.at.end, Quote(texts, tokens, claim, pair), offset, ref);
  }
}
