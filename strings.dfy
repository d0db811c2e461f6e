/** Whitespace as Go's unicode.IsSpace defines it, strings.TrimSpace built on
    it, and the subsequence relation used to say where trimmed text comes from. */
module Strings {

  /** Go's unicode.IsSpace: the Latin-1 spaces '\t', '\n', '\v', '\f', '\r',
      ' ', U+0085 and U+00A0, and above Latin-1 the White_Space property
      (U+1680, U+2000..U+200A, U+2028, U+2029, U+202F, U+205F, U+3000). */
  predicate IsSpace(c: char) {
    || c == '\t' || c == '\n' || c == '\U{000B}' || c == '\U{000C}' || c == '\r'
    || c == ' ' || c == '\U{0085}' || c == '\U{00A0}'
    || c == '\U{1680}'
    || ('\U{2000}' <= c <= '\U{200A}')
    || c == '\U{2028}' || c == '\U{2029}' || c == '\U{202F}' || c == '\U{205F}'
    || c == '\U{3000}'
  }

  predicate AllSpace(s: string) {
    forall i :: 0 <= i < |s| ==> IsSpace(s[i])
  }

  predicate NoSpace(s: string) {
    forall i :: 0 <= i < |s| ==> !IsSpace(s[i])
  }

  /** Neither the first nor the last character is whitespace. */
  predicate NoEdgeSpace(s: string) {
    s == [] || (!IsSpace(s[0]) && !IsSpace(s[|s| - 1]))
  }

  /** s[lo..hi] is all whitespace, stated on the indices of s. */
  predicate SpaceBetween(s: string, lo: int, hi: int)
    requires 0 <= lo <= hi <= |s|
  {
    forall j :: lo <= j < hi ==> IsSpace(s[j])
  }

  /** The first index at or after i that does not hold whitespace, or |s|. */
  function SkipSpace(s: string, i: nat): (k: nat)
    requires i <= |s|
    ensures i <= k <= |s| && SpaceBetween(s, i, k)
    ensures k == |s| || !IsSpace(s[k])
    decreases |s| - i
  {
    if i < |s| && IsSpace(s[i]) then SkipSpace(s, i + 1) else i
  }

  /** Going back from j, but not below lo: the first index whose
      predecessor does not hold whitespace, or lo. */
  function BackSpace(s: string, lo: nat, j: nat): (k: nat)
    requires lo <= j <= |s|
    ensures lo <= k <= j && SpaceBetween(s, k, j)
    ensures k == lo || !IsSpace(s[k - 1])
  {
    if lo < j && IsSpace(s[j - 1]) then BackSpace(s, lo, j - 1) else j
  }

  /** Go's strings.TrimSpace: cuts the leading whitespace, then the trailing
      whitespace of what is left, and keeps the rest unchanged
      (TrimSpaceInfix, TrimSpaceEmpty). */
  function TrimSpace(s: string): (r: string)
    ensures NoEdgeSpace(r)
    ensures |r| <= |s|
    ensures NoEdgeSpace(s) ==> r == s
  {
    var lo := SkipSpace(s, 0);
    var hi := BackSpace(s, lo, |s|);
    assert hi > lo ==> s[lo..hi][0] == s[lo] && s[lo..hi][hi - lo - 1] == s[hi - 1];
    s[lo..hi]
  }

  /** Trimming cuts an all-whitespace prefix and an all-whitespace suffix
      and keeps what lies between, unchanged. */
  lemma TrimSpaceInfix(s: string) returns (i: nat)
    ensures i + |TrimSpace(s)| <= |s|
    ensures TrimSpace(s) == s[i..i + |TrimSpace(s)|]
    ensures SpaceBetween(s, 0, i) && SpaceBetween(s, i + |TrimSpace(s)|, |s|)
  {
    i := SkipSpace(s, 0);
  }

  /** Everything is cut exactly when everything is whitespace. */
  lemma TrimSpaceEmpty(s: string)
    ensures AllSpace(s) <==> TrimSpace(s) == []
  {
    var lo := SkipSpace(s, 0);
    var hi := BackSpace(s, lo, |s|);
    if hi == lo {
      assert SpaceBetween(s, 0, lo);
    }
  }

  lemma {:induction false} SkipSpaceTo(s: string, i: nat, m: nat)
    requires i <= m < |s| && SpaceBetween(s, i, m) && !IsSpace(s[m])
    ensures SkipSpace(s, i) == m
    decreases m - i
  {
    if i < m {
      assert IsSpace(s[i]);
      SkipSpaceTo(s, i + 1, m);
    }
  }

  lemma {:induction false} BackSpaceTo(s: string, lo: nat, j: nat, m: nat)
    requires lo < m <= j <= |s| && SpaceBetween(s, m, j) && !IsSpace(s[m - 1])
    ensures BackSpace(s, lo, j) == m
    decreases j - m
  {
    if m < j {
      assert IsSpace(s[j - 1]);
      BackSpaceTo(s, lo, j - 1, m);
    }
  }

  /** Trimming is determined by where the whitespace margins end: whatever
      core lies between an all-whitespace prefix and suffix, and has no
      whitespace at its own edges, is exactly what is kept. */
  lemma TrimSpaceOfMargins(pre: string, core: string, post: string)
    requires AllSpace(pre) && AllSpace(post) && NoEdgeSpace(core) && core != []
    ensures TrimSpace(pre + core + post) == core
  {
    var s := pre + core + post;
    var m, n := |pre|, |pre| + |core|;
    assert s[m] == core[0] && s[n - 1] == core[|core| - 1];
    assert SpaceBetween(s, 0, m) by {
      forall j | 0 <= j < m ensures IsSpace(s[j]) { assert s[j] == pre[j]; }
    }
    assert SpaceBetween(s, n, |s|) by {
      forall j | n <= j < |s| ensures IsSpace(s[j]) { assert s[j] == post[j - n]; }
    }
    SkipSpaceTo(s, 0, m);
    BackSpaceTo(s, m, |s|, n);
    assert s[m..n] == core;
  }

  /** The characters of s that are not whitespace, in order. */
  function Visible(s: string): string {
    if s == [] then []
    else Visible(s[..|s| - 1]) + (if IsSpace(s[|s| - 1]) then [] else [s[|s| - 1]])
  }

  lemma {:induction false} VisibleConcat(a: string, b: string)
    ensures Visible(a + b) == Visible(a) + Visible(b)
    decreases |b|
  {
    if b == [] {
      assert a + b == a;
    } else {
      assert (a + b)[..|a + b| - 1] == a + b[..|b| - 1];
      VisibleConcat(a, b[..|b| - 1]);
    }
  }

  lemma {:induction false} VisibleOfSpace(s: string)
    requires AllSpace(s)
    ensures Visible(s) == []
  {
    if s != [] {
      VisibleOfSpace(s[..|s| - 1]);
    }
  }

  /** Trimming deletes whitespace only: every other character survives, in
      order. */
  lemma VisibleTrim(s: string)
    ensures Visible(TrimSpace(s)) == Visible(s)
  {
    var r := TrimSpace(s);
    var i := TrimSpaceInfix(s);
    var j := i + |r|;
    assert s == s[..i] + r + s[j..];
    assert AllSpace(s[..i]) by {
      forall k | 0 <= k < i ensures IsSpace(s[..i][k]) { assert s[..i][k] == s[k]; }
    }
    assert AllSpace(s[j..]) by {
      forall k | 0 <= k < |s| - j ensures IsSpace(s[j..][k]) { assert s[j..][k] == s[j + k]; }
    }
    VisibleOfSpace(s[..i]);
    VisibleOfSpace(s[j..]);
    VisibleConcat(s[..i] + r, s[j..]);
    VisibleConcat(s[..i], r);
  }

  /** a can be obtained from b by deleting characters. */
  ghost predicate Subsequence(a: string, b: string)
    decreases |b|
  {
    if a == [] then true
    else if b == [] then false
    else (a[0] == b[0] && Subsequence(a[1..], b[1..])) || Subsequence(a, b[1..])
  }

  lemma {:induction false} SubsequenceRefl(a: string)
    ensures Subsequence(a, a)
    decreases |a|
  {
    if a != [] { SubsequenceRefl(a[1..]); }
  }

  lemma {:induction false} SubsequenceConcat(a1: string, b1: string, a2: string, b2: string)
    requires Subsequence(a1, b1) && Subsequence(a2, b2)
    ensures Subsequence(a1 + a2, b1 + b2)
    decreases |b1|
  {
    if b1 == [] {
      assert a1 == [];
      assert a1 + a2 == a2 && b1 + b2 == b2;
    } else if a1 != [] && a1[0] == b1[0] && Subsequence(a1[1..], b1[1..]) {
      SubsequenceConcat(a1[1..], b1[1..], a2, b2);
      assert (a1 + a2)[1..] == a1[1..] + a2;
      assert (b1 + b2)[1..] == b1[1..] + b2;
    } else {
      assert Subsequence(a1, b1[1..]);
      SubsequenceConcat(a1, b1[1..], a2, b2);
      assert (b1 + b2)[1..] == b1[1..] + b2;
    }
  }

  lemma {:induction false} SubsequenceTrans(a: string, b: string, c: string)
    requires Subsequence(a, b) && Subsequence(b, c)
    ensures Subsequence(a, c)
    decreases |c|
  {
    if a != [] {
      assert b != [] && c != [];
      if b[0] == c[0] && Subsequence(b[1..], c[1..]) {
        if a[0] == b[0] && Subsequence(a[1..], b[1..]) {
          SubsequenceTrans(a[1..], b[1..], c[1..]);
        } else {
          SubsequenceTrans(a, b[1..], c[1..]);
        }
      } else {
        SubsequenceTrans(a, b, c[1..]);
      }
    }
  }

  lemma SubsequenceMiddle(a: string, r: string, b: string)
    ensures Subsequence(r, a + r + b)
  {
    SubsequenceRefl(r);
    SubsequenceConcat([], a, r, r);
    assert [] + r == r;
    SubsequenceConcat(r, a + r, [], b);
    assert r + [] == r;
  }

  lemma SubsequenceInfix(s: string, i: nat, j: nat)
    requires i <= j <= |s|
    ensures Subsequence(s[i..j], s)
  {
    SubsequenceMiddle(s[..i], s[i..j], s[j..]);
    assert s == s[..i] + s[i..j] + s[j..];
  }

  /** Trimming deletes characters and moves none. */
  lemma TrimSpaceSubsequence(s: string)
    ensures Subsequence(TrimSpace(s), s)
  {
    var r := TrimSpace(s);
    var i := TrimSpaceInfix(s);
    SubsequenceInfix(s, i, i + |r|);
  }
}
