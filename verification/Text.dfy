/** The string operations that the knowledge layer, the tools and the policy share. */
module Text {

  /** The characters `str.strip` and `str.split` treat as whitespace. */
  predicate IsSpace(c: char) {
    var n := c as int;
    9 <= n <= 13 || 28 <= n <= 32 || n == 0x85 || n == 0xa0 || n == 0x1680 ||
    0x2000 <= n <= 0x200a || n == 0x2028 || n == 0x2029 || n == 0x202f || n == 0x205f || n == 0x3000
  }

  predicate AllSpace(s: string) {
    forall i | 0 <= i < |s| :: IsSpace(s[i])
  }

  predicate SpaceFree(s: string) {
    forall i | 0 <= i < |s| :: !IsSpace(s[i])
  }

  predicate EndsWith(s: string, suffix: string) {
    |suffix| <= |s| && s[|s| - |suffix|..] == suffix
  }

  /** `needle in haystack` for strings. */
  predicate Contains(haystack: string, needle: string) {
    exists k | 0 <= k <= |haystack| :: needle <= haystack[k..]
  }

  /** Case folding of one character (ASCII letters only). */
  function LowerChar(c: char): (r: char)
    ensures !('A' <= r <= 'Z') && (r == c || ('A' <= c <= 'Z' && r as int == c as int + 32))
    ensures IsSpace(c) <==> IsSpace(r)
  {
    if 'A' <= c <= 'Z' then (c as int + 32) as char else c
  }

  function Lower(s: string): (r: string)
    ensures |r| == |s|
    ensures forall i | 0 <= i < |s| :: r[i] == LowerChar(s[i])
  {
    Fold(s, LowerChar)
  }

  /** Folding a text character by character. */
  function Fold(s: string, fold: char -> char): (r: string)
    ensures |r| == |s|
    ensures forall i | 0 <= i < |s| :: r[i] == fold(s[i])
  {
    seq(|s|, i requires 0 <= i < |s| => fold(s[i]))
  }

  function StripLeft(s: string): (r: string)
    ensures |r| <= |s| && r == s[|s| - |r|..] && AllSpace(s[..|s| - |r|])
    ensures r != "" ==> !IsSpace(r[0])
    ensures s != "" && !IsSpace(s[0]) ==> r == s
  {
    if s == "" || !IsSpace(s[0]) then s
    else
      var r := StripLeft(s[1..]);
      assert s[..|s| - |r|] == [s[0]] + s[1..][..|s| - 1 - |r|];
      r
  }

  function StripRight(s: string): (r: string)
    ensures |r| <= |s| && r == s[..|r|] && AllSpace(s[|r|..])
    ensures r != "" ==> !IsSpace(r[|r| - 1])
    ensures s != "" && !IsSpace(s[|s| - 1]) ==> r == s
  {
    if s == "" || !IsSpace(s[|s| - 1]) then s
    else
      var r := StripRight(s[..|s| - 1]);
      assert s[|r|..] == s[..|s| - 1][|r|..] + [s[|s| - 1]];
      r
  }

  /** `str.strip()`: neither end of the result is whitespace, so stripping again changes nothing. */
  function Strip(s: string): (r: string)
    ensures r != "" ==> !IsSpace(r[0]) && !IsSpace(r[|r| - 1])
    ensures s != "" && !IsSpace(s[0]) && !IsSpace(s[|s| - 1]) ==> r == s
  {
    StripRight(StripLeft(s))
  }

  /** Stripping removes white space at the two ends and nothing else. */
  lemma StripOnlyTrims(s: string) returns (lo: nat, hi: nat)
    ensures lo <= hi <= |s| && Strip(s) == s[lo..hi] && AllSpace(s[..lo]) && AllSpace(s[hi..])
  {
    var left := StripLeft(s);
    lo, hi := TrimParts(s, left, StripRight(left));
  }

  lemma TrimParts(s: string, left: string, r: string) returns (lo: nat, hi: nat)
    requires |left| <= |s| && left == s[|s| - |left|..] && AllSpace(s[..|s| - |left|])
    requires |r| <= |left| && r == left[..|r|] && AllSpace(left[|r|..])
    ensures lo <= hi <= |s| && r == s[lo..hi] && AllSpace(s[..lo]) && AllSpace(s[hi..])
  {
    lo, hi := |s| - |left|, |s| - |left| + |r|;
    SliceOfTail(s, lo, |r|);
  }

  lemma SliceOfTail(s: string, lo: nat, n: nat)
    requires lo + n <= |s|
    ensures s[lo..][..n] == s[lo..lo + n] && s[lo..][n..] == s[lo + n..]
  {
  }

  /** So exactly blank text strips to nothing. */
  lemma BlankIff(s: string)
    ensures Strip(s) == "" <==> AllSpace(s)
  {
    var lo, hi := StripOnlyTrims(s);
    if Strip(s) == "" {
      forall i | 0 <= i < |s| ensures IsSpace(s[i]) {
        if i < lo {
          assert s[..lo][i] == s[i];
        } else {
          assert s[hi..][i - hi] == s[i];
        }
      }
    } else {
      assert Strip(s)[0] == s[lo];
    }
  }

  /** The length of the whitespace-free token at the front of `s`. */
  function TokenEnd(s: string): (n: nat)
    ensures n <= |s| && (n < |s| ==> IsSpace(s[n]))
    ensures SpaceFree(s[..n])
    ensures s != "" && !IsSpace(s[0]) ==> 0 < n
  {
    if s == "" || IsSpace(s[0]) then 0 else
      var rest := TokenEnd(s[1..]);
      assert s[..rest + 1] == [s[0]] + s[1..][..rest];
      rest + 1
  }

  /** `str.split()`: the maximal whitespace-free tokens of `s`, in order. */
  function Split(s: string): (tokens: seq<string>)
    ensures forall i | 0 <= i < |tokens| :: tokens[i] != "" && SpaceFree(tokens[i])
    decreases |s|
  {
    if s == "" then []
    else if IsSpace(s[0]) then Split(s[1..])
    else
      var n := TokenEnd(s);
      [s[..n]] + Split(s[n..])
  }

  lemma {:induction false} NoTokensIff(s: string)
    ensures Split(s) == [] <==> AllSpace(s)
    decreases |s|
  {
    if s != "" && IsSpace(s[0]) {
      NoTokensIff(s[1..]);
      assert forall i | 0 < i < |s| :: s[1..][i - 1] == s[i];
    }
  }

  /** A maximal whitespace-free stretch. */
  predicate IsWord(s: string, lo: nat, hi: nat) {
    && lo < hi <= |s| && (forall i | lo <= i < hi :: !IsSpace(s[i]))
    && (lo == 0 || IsSpace(s[lo - 1])) && (hi == |s| || IsSpace(s[hi]))
  }

  /** Where the rest of the text begins after its first token or its first white space. */
  function FirstCut(s: string): (n: nat)
    requires s != ""
    ensures 0 < n <= |s|
    ensures IsSpace(s[0]) ==> n == 1
    ensures !IsSpace(s[0]) ==> (forall i | 0 <= i < n :: !IsSpace(s[i])) && (n == |s| || IsSpace(s[n]))
  {
    if IsSpace(s[0]) then 1
    else
      assert forall i | 0 <= i < TokenEnd(s) :: s[..TokenEnd(s)][i] == s[i];
      TokenEnd(s)
  }

  /** Every word of the text is among its tokens. */
  lemma {:induction false} WordIsToken(s: string, lo: nat, hi: nat)
    requires IsWord(s, lo, hi)
    ensures s[lo..hi] in Split(s)
    decreases |s|
  {
    var n := FirstCut(s);
    if lo < n {
      FirstWord(s, lo, hi);
      assert s[0..n] == s[..n];
    } else {
      WordInRest(s, n, lo, hi);
      WordIsToken(s[n..], lo - n, hi - n);
    }
  }

  lemma FirstWord(s: string, lo: nat, hi: nat)
    requires IsWord(s, lo, hi) && lo < FirstCut(s)
    ensures !IsSpace(s[0]) && lo == 0 && hi == FirstCut(s)
  {
    assert !IsSpace(s[lo]);
  }

  lemma WordInRest(s: string, n: nat, lo: nat, hi: nat)
    requires IsWord(s, lo, hi) && n <= lo
    ensures IsWord(s[n..], lo - n, hi - n) && s[n..][lo - n..hi - n] == s[lo..hi]
  {
    SliceOfTail(s, n, hi - n);
    assert forall i | n <= i < |s| :: s[n..][i - n] == s[i];
  }

  /** Every token is a word of the text; so `str.split()` gives exactly its words. */
  lemma {:induction false} TokenIsWord(s: string, t: string) returns (lo: nat, hi: nat)
    requires t in Split(s)
    ensures IsWord(s, lo, hi) && s[lo..hi] == t
    decreases |s|
  {
    var n := FirstCut(s);
    if !IsSpace(s[0]) && t == s[..n] {
      lo, hi := 0, n;
    } else {
      var l, h := TokenIsWord(s[n..], t);
      SliceOfTail(s, n, h);
      WordOfRest(s, n, l, h);
      lo, hi := l + n, h + n;
    }
  }

  lemma WordOfRest(s: string, n: nat, l: nat, h: nat)
    requires n <= |s| && IsWord(s[n..], l, h) && (n == 0 || IsSpace(s[n - 1]) || n == |s| || IsSpace(s[n]))
    ensures IsWord(s, l + n, h + n) && s[l + n..h + n] == s[n..][l..h]
  {
    forall i | l + n <= i < h + n ensures !IsSpace(s[i]) {
      assert s[n..][i - n] == s[i];
    }
    assert l > 0 ==> s[n..][l - 1] == s[l + n - 1];
    assert s[n..][l] == s[l + n];
    assert h < |s[n..]| ==> s[n..][h] == s[h + n];
    SliceOfTail(s, n, h);
  }

  /** Folding a text before it is split leaves only folded tokens. */
  lemma {:induction false} SplitOfFolded(s: string, fold: char -> char)
    requires Fold(s, fold) == s
    ensures forall t | t in Split(s) :: Fold(t, fold) == t
    decreases |s|
  {
    if s == "" {
    } else if IsSpace(s[0]) {
      FoldSlice(s, 1, |s|, fold);
      SplitOfFolded(s[1..], fold);
    } else {
      var n := TokenEnd(s);
      FoldSlice(s, 0, n, fold);
      FoldSlice(s, n, |s|, fold);
      SplitOfFolded(s[n..], fold);
    }
  }

  lemma FoldSlice(s: string, lo: nat, hi: nat, fold: char -> char)
    requires lo <= hi <= |s| && Fold(s, fold) == s
    ensures Fold(s[lo..hi], fold) == s[lo..hi]
  {
    forall i | 0 <= i < hi - lo ensures Fold(s[lo..hi], fold)[i] == s[lo..hi][i] {
      assert Fold(s, fold)[lo + i] == s[lo + i];
    }
  }
}
