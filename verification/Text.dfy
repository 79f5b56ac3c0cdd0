/** Strings as Python sees them: blanks, stripping and literal occurrences. */
module Text {
  /** The characters `str.strip` and the pattern class `\s` treat as white space. */
  predicate IsBlank(c: char) {
    var n := c as int;
    || 0x09 <= n <= 0x0D || 0x1C <= n <= 0x20 || n == 0x85 || n == 0xA0 || n == 0x1680
    || 0x2000 <= n <= 0x200A || n == 0x2028 || n == 0x2029 || n == 0x202F || n == 0x205F || n == 0x3000
  }

  predicate BlankRange(s: string, lo: int, hi: int)
    requires 0 <= lo && hi <= |s|
  {
    forall i :: lo <= i < hi ==> IsBlank(s[i])
  }

  /** First position from i that is not blank, or hi. */
  function Skip(s: string, i: nat, hi: nat): (r: nat)
    requires i <= hi <= |s|
    ensures i <= r <= hi && BlankRange(s, i, r)
    ensures r < hi ==> !IsBlank(s[r])
    decreases hi - i
  {
    if i == hi || !IsBlank(s[i]) then i else Skip(s, i + 1, hi)
  }

  /** End of the text before j once trailing blanks are dropped, not below lo. */
  function Back(s: string, lo: nat, j: nat): (r: nat)
    requires lo <= j <= |s|
    ensures lo <= r <= j && BlankRange(s, r, j)
    ensures r > lo ==> !IsBlank(s[r-1])
  {
    if j == lo || !IsBlank(s[j-1]) then j else Back(s, lo, j - 1)
  }

  /** `str.strip`. */
  function Strip(s: string): (r: string)
    ensures r == "" <==> BlankRange(s, 0, |s|)
    ensures r != "" ==> !IsBlank(r[0]) && !IsBlank(r[|r|-1])
  {
    var a := Skip(s, 0, |s|);
    s[a..Back(s, a, |s|)]
  }

  predicate OccursAt(text: string, quote: string, i: int) {
    0 <= i && i + |quote| <= |text| && text[i..i+|quote|] == quote
  }

  /** Exactly one occurrence, counting overlapping ones. */
  ghost predicate Unique(text: string, quote: string) {
    && (exists i :: OccursAt(text, quote, i))
    && (forall i, j :: OccursAt(text, quote, i) && OccursAt(text, quote, j) ==> i == j)
  }

  /** `str.find`: the first occurrence, or -1. */
  method Find(text: string, quote: string) returns (k: int)
    ensures k == -1 <==> forall i :: !OccursAt(text, quote, i)
    ensures k != -1 ==> OccursAt(text, quote, k) && forall i :: OccursAt(text, quote, i) ==> k <= i
  {
    k := 0;
    while k + |quote| <= |text|
      invariant 0 <= k
      invariant forall i :: 0 <= i < k ==> !OccursAt(text, quote, i)
    {
      if text[k..k+|quote|] == quote {
        assert OccursAt(text, quote, k);
        return;
      }
      k := k + 1;
    }
    k := -1;
  }

  /** `str.rfind`: the last occurrence, or -1. */
  method RFind(text: string, quote: string) returns (k: int)
    ensures k == -1 <==> forall i :: !OccursAt(text, quote, i)
    ensures k != -1 ==> OccursAt(text, quote, k) && forall i :: OccursAt(text, quote, i) ==> i <= k
  {
    k := |text| - |quote|;
    while k >= 0
      invariant k >= -1 || k == |text| - |quote|
      invariant forall i :: k < i ==> !OccursAt(text, quote, i)
    {
      if text[k..k+|quote|] == quote {
        assert OccursAt(text, quote, k);
        return;
      }
      k := k - 1;
    }
    k := -1;
  }

  /** The first and the last occurrence are one exactly when there is only one. */
  lemma FoundIsUnique(text: string, quote: string, first: int, last: int)
    requires first == -1 <==> forall i :: !OccursAt(text, quote, i)
    requires first != -1 ==> OccursAt(text, quote, first) && forall i :: OccursAt(text, quote, i) ==> first <= i
    requires last == -1 <==> forall i :: !OccursAt(text, quote, i)
    requires last != -1 ==> OccursAt(text, quote, last) && forall i :: OccursAt(text, quote, i) ==> i <= last
    ensures first != -1 && first == last <==> Unique(text, quote)
  {
  }

  lemma SliceOfSlice(s: string, a: nat, b: nat, i: nat, j: nat)
    requires a <= i <= j <= b <= |s|
    ensures s[a..b][i-a..j-a] == s[i..j]
  {
    var part := s[a..b][i-a..j-a];
    assert |part| == j - i;
    forall k | 0 <= k < j - i ensures part[k] == s[i..j][k] {
      assert part[k] == s[a..b][i-a+k] == s[i+k];
    }
  }
}
