/** String operations the bridge relies on: literal search, `String.prototype.includes`,
    literal replace-all, `trimStart` and decimal rendering of a number. */
module Text {
  import opened Wrappers

  /** `pat` occurs in `s` starting at index `i`. */
  predicate PrefixAt(s: string, pat: string, i: nat) {
    i + |pat| <= |s| && s[i..i + |pat|] == pat
  }

  /** `s.includes(pat)`. */
  predicate Contains(s: string, pat: string) {
    exists i: nat | i <= |s| :: PrefixAt(s, pat, i)
  }

  /** Two adjacent occurrences form one occurrence of the concatenation. */
  lemma PrefixAtConcat(s: string, a: string, b: string, i: nat)
    requires PrefixAt(s, a, i) && PrefixAt(s, b, i + |a|)
    ensures PrefixAt(s, a + b, i)
  {
    assert s[i..i + |a + b|] == s[i..i + |a|] + s[i + |a|..i + |a| + |b|];
  }

  /** An occurrence inside a slice is an occurrence in the whole text. */
  lemma PrefixAtSlice(s: string, pat: string, start: nat, end: nat, j: nat)
    requires start <= end <= |s| && PrefixAt(s[start..end], pat, j)
    ensures PrefixAt(s, pat, start + j) && start + j + |pat| <= end
  {
    forall k | 0 <= k < |pat| ensures s[start + j..start + j + |pat|][k] == pat[k] {
      assert s[start..end][j..j + |pat|][k] == pat[k];
    }
  }

  /** The first index at or after `from` where `pat` occurs (`s.indexOf(pat, from)`),
      or None when there is none. */
  function FindFrom(s: string, pat: string, from: nat): (r: Option<nat>)
    decreases |s| - from
    ensures r.Some? ==> from <= r.value && PrefixAt(s, pat, r.value)
    ensures r.Some? ==> forall k: nat :: from <= k < r.value ==> !PrefixAt(s, pat, k)
    ensures r.None? ==> forall k: nat :: from <= k ==> !PrefixAt(s, pat, k)
  {
    if from + |pat| > |s| then None
    else if PrefixAt(s, pat, from) then Some(from)
    else FindFrom(s, pat, from + 1)
  }

  /** `includes` is exactly "a search from the start succeeds". */
  lemma ContainsIffFound(s: string, pat: string)
    ensures Contains(s, pat) <==> FindFrom(s, pat, 0).Some?
  {
    if FindFrom(s, pat, 0).Some? {
      assert PrefixAt(s, pat, FindFrom(s, pat, 0).value);
    }
  }

  /** The search loop behind `indexOf`, proved to return the first occurrence. */
  method IndexOf(s: string, pat: string, from: nat) returns (r: Option<nat>)
    ensures r == FindFrom(s, pat, from)
  {
    var i := from;
    while i + |pat| <= |s|
      invariant from <= i
      invariant FindFrom(s, pat, i) == FindFrom(s, pat, from)
      decreases |s| - i
    {
      if s[i..i + |pat|] == pat {
        return Some(i);
      }
      i := i + 1;
    }
    return None;
  }

  /** Replacing every occurrence of the non-empty literal `pat`, scanning left to right and
      never re-examining inserted text (a global literal `String.prototype.replace`). */
  function ReplaceAll(s: string, pat: string, rep: string): (r: string)
    requires |pat| > 0
    decreases |s|
    ensures rep == pat ==> r == s
    ensures |rep| <= |pat| ==> |r| <= |s|
    ensures |rep| >= |pat| ==> |r| >= |s|
  {
    if |s| < |pat| then s
    else if s[..|pat|] == pat then rep + ReplaceAll(s[|pat|..], pat, rep)
    else [s[0]] + ReplaceAll(s[1..], pat, rep)
  }

  /** With no occurrence, replace-all leaves the text exactly as it was. */
  lemma {:induction false} ReplaceAllAbsent(s: string, pat: string, rep: string)
    requires |pat| > 0 && !Contains(s, pat)
    ensures ReplaceAll(s, pat, rep) == s
    decreases |s|
  {
    if |s| >= |pat| {
      assert !PrefixAt(s, pat, 0);
      assert s[..|pat|] != pat;
      forall i: nat | PrefixAt(s[1..], pat, i) ensures PrefixAt(s, pat, i + 1) {
        assert s[1..][i..i + |pat|] == s[i + 1..i + 1 + |pat|];
      }
      ReplaceAllAbsent(s[1..], pat, rep);
    }
  }

  /** Replace-all keeps the text before the first occurrence, puts `rep` in its place and
      carries on after it; with the absent case this determines replace-all completely. */
  lemma ReplaceAllFirst(s: string, pat: string, rep: string, k: nat)
    requires |pat| > 0 && FindFrom(s, pat, 0) == Some(k)
    ensures ReplaceAll(s, pat, rep) == s[..k] + rep + ReplaceAll(s[k + |pat|..], pat, rep)
  {
    ReplaceAllKeepsPrefix(s, pat, rep, k);
    var u := s[k..];
    assert u[..|pat|] == s[k..k + |pat|] && u[|pat|..] == s[k + |pat|..];
    ReplaceAllAtStart(u, pat, rep);
    ConcatAssoc(s[..k], rep, ReplaceAll(s[k + |pat|..], pat, rep));
  }

  lemma ConcatAssoc(a: string, b: string, c: string)
    ensures a + (b + c) == a + b + c
  {
  }

  lemma ReplaceAllAtStart(s: string, pat: string, rep: string)
    requires |pat| > 0 && PrefixAt(s, pat, 0)
    ensures ReplaceAll(s, pat, rep) == rep + ReplaceAll(s[|pat|..], pat, rep)
  {
  }

  /** Replace-all copies a prefix in which no occurrence starts. */
  lemma {:induction false} ReplaceAllKeepsPrefix(s: string, pat: string, rep: string, j: nat)
    requires |pat| > 0 && j <= |s|
    requires forall i: nat :: i < j ==> !PrefixAt(s, pat, i)
    ensures ReplaceAll(s, pat, rep) == s[..j] + ReplaceAll(s[j..], pat, rep)
    decreases j
  {
    if j == 0 {
      assert s[j..] == s;
    } else {
      ReplaceAllKeepsPrefix(s, pat, rep, j - 1);
      ReplaceAllSkipAt(s, pat, rep, j - 1);
      ConcatAssoc(s[..j - 1], [s[j - 1]], ReplaceAll(s[j..], pat, rep));
      SnocPrefix(s, j);
    }
  }

  lemma SnocPrefix(s: string, j: nat)
    requires 0 < j <= |s|
    ensures s[..j - 1] + [s[j - 1]] == s[..j]
  {
  }

  /** Where no occurrence starts at `i`, replace-all of the suffix from `i` copies its first
      character. */
  lemma ReplaceAllSkipAt(s: string, pat: string, rep: string, i: nat)
    requires |pat| > 0 && i < |s| && !PrefixAt(s, pat, i)
    ensures ReplaceAll(s[i..], pat, rep) == [s[i]] + ReplaceAll(s[i + 1..], pat, rep)
  {
    var u := s[i..];
    if |pat| <= |u| {
      assert u[..|pat|] == s[i..i + |pat|];
    }
    assert u[1..] == s[i + 1..] && u[0] == s[i];
    ReplaceAllSkip(u, pat, rep);
  }

  /** Where `pat` does not start the text, replace-all copies the first character. */
  lemma ReplaceAllSkip(s: string, pat: string, rep: string)
    requires |pat| > 0 && |s| > 0 && (|s| < |pat| || s[..|pat|] != pat)
    ensures ReplaceAll(s, pat, rep) == [s[0]] + ReplaceAll(s[1..], pat, rep)
  {
    if |s| < |pat| {
      assert s == [s[0]] + s[1..];
    }
  }

  /** An occurrence at `k` with none between `from` and `k` is what the search from `from`
      finds. */
  lemma FirstFrom(s: string, pat: string, from: nat, k: nat)
    requires from <= k && PrefixAt(s, pat, k)
    requires forall j: nat :: from <= j < k ==> !PrefixAt(s, pat, j)
    ensures FindFrom(s, pat, from) == Some(k)
  {
  }

  /** An occurrence right after a prefix that holds no copy of the pattern's first character is
      the first occurrence. */
  lemma FirstAfterFree(a: string, pat: string, b: string)
    requires |pat| > 0 && pat[0] !in a
    ensures FindFrom(a + pat + b, pat, 0) == Some(|a|)
  {
    var s := a + pat + b;
    assert s[|a|..|a| + |pat|] == pat;
    forall j: nat | j < |a| ensures !PrefixAt(s, pat, j) {
      assert s[j] == a[j];
    }
    FirstFrom(s, pat, 0, |a|);
  }

  /** The largest index in `[lo, hi]` where `pat` occurs: what a greedy `.*` in front of `pat`
      settles on. */
  function FindLast(s: string, pat: string, lo: nat, hi: int): (r: Option<nat>)
    decreases if hi < lo then 0 else hi - lo + 1
    ensures r.Some? ==> lo <= r.value <= hi && PrefixAt(s, pat, r.value)
    ensures r.Some? ==> forall k: nat :: r.value < k <= hi ==> !PrefixAt(s, pat, k)
    ensures r.None? ==> forall k: nat :: lo <= k <= hi ==> !PrefixAt(s, pat, k)
  {
    if hi < lo then None
    else if PrefixAt(s, pat, hi) then Some(hi)
    else FindLast(s, pat, lo, hi - 1)
  }

  /** An occurrence at `k` with none after it up to `hi` is what the backward search finds. */
  lemma {:induction false} LastUpTo(s: string, pat: string, lo: nat, hi: int, k: nat)
    requires lo <= k <= hi && PrefixAt(s, pat, k)
    requires forall j: nat :: k < j <= hi ==> !PrefixAt(s, pat, j)
    ensures FindLast(s, pat, lo, hi) == Some(k)
    decreases hi - k
  {
    if hi != k {
      LastUpTo(s, pat, lo, hi - 1, k);
    }
  }

  /** `s.replace(pat, rep)` with a string pattern: only the first occurrence is replaced. The
      replacement is taken literally, which holds when it holds no `$`. */
  function ReplaceFirst(s: string, pat: string, rep: string): (r: string)
    requires '$' !in rep
    ensures !Contains(s, pat) ==> r == s
    ensures FindFrom(s, pat, 0).Some? ==>
              var k := FindFrom(s, pat, 0).value;
              k + |pat| <= |s| && r == s[..k] + rep + s[k + |pat|..]
  {
    ContainsIffFound(s, pat);
    match FindFrom(s, pat, 0)
    case None => s
    case Some(k) => s[..k] + rep + s[k + |pat|..]
  }

  /** Replacing the first occurrence in `a + pat + b`, where `a` cannot hold one. */
  lemma ReplaceFirstAfterFree(a: string, pat: string, b: string, rep: string)
    requires |pat| > 0 && pat[0] !in a && '$' !in rep
    ensures ReplaceFirst(a + pat + b, pat, rep) == a + rep + b
  {
    FirstAfterFree(a, pat, b);
    var s := a + pat + b;
    assert s[..|a|] == a && s[|a| + |pat|..] == b;
  }

  /** The characters JavaScript's `trimStart` removes: WhiteSpace and LineTerminator of
      ECMAScript (sections 12.2 and 12.3 of ECMA-262). */
  predicate IsJsSpace(c: char) {
    var n := c as int;
    n == 0x09 || n == 0x0A || n == 0x0B || n == 0x0C || n == 0x0D || n == 0x20
    || n == 0xA0 || n == 0x1680 || (0x2000 <= n <= 0x200A) || n == 0x2028 || n == 0x2029
    || n == 0x202F || n == 0x205F || n == 0x3000 || n == 0xFEFF
  }

  /** `s.trimStart()`: the longest suffix of `s` whose removed prefix is all white space. */
  function TrimStart(s: string): (r: string)
    ensures |r| <= |s| && r == s[|s| - |r|..]
    ensures forall i :: 0 <= i < |s| - |r| ==> IsJsSpace(s[i])
    ensures r == [] || !IsJsSpace(r[0])
  {
    if s != [] && IsJsSpace(s[0]) then TrimStart(s[1..]) else s
  }

  function DigitChar(d: nat): (c: char)
    requires d < 10
  {
    "0123456789"[d]
  }

  /** The decimal numeral of `n`, as a template literal renders a non-negative integer. */
  function NatToString(n: nat): (r: string)
    ensures |r| >= 1
    ensures forall i :: 0 <= i < |r| ==> '0' <= r[i] <= '9'
    ensures DecimalValue(r) == n
  {
    if n < 10 then [DigitChar(n)] else NatToString(n / 10) + [DigitChar(n % 10)]
  }

  /** The number a string of decimal digits denotes. */
  function DecimalValue(s: string): nat
  {
    if s == [] then 0
    else DecimalValue(s[..|s| - 1]) * 10 + (if '0' <= s[|s| - 1] <= '9' then (s[|s| - 1] as int - '0' as int) else 0)
  }
}
