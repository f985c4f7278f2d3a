/** The handful of Python `str` operations the server relies on, over ASCII:
    `isspace`, `isalnum`, `lower`, `strip`, the `in` substring test and
    `replace`. Characters outside ASCII are never whitespace, never
    alphanumeric and are left alone by `Lower`. The functions are plain
    recursive definitions; what they guarantee is stated by the lemmas
    after them. */
module Text {

  /** `str.isspace` on ASCII: tab, line feed, vertical tab, form feed,
      carriage return, the separators 0x1C-0x1F, and the space. */
  predicate IsSpace(c: char) {
    c == ' ' || ('\t' <= c <= '\r') || ('\U{1C}' <= c <= '\U{1F}')
  }

  predicate IsDigit(c: char) { '0' <= c <= '9' }
  predicate IsUpper(c: char) { 'A' <= c <= 'Z' }
  predicate IsLower(c: char) { 'a' <= c <= 'z' }

  /** `str.isalnum` on ASCII. */
  predicate IsAlnum(c: char) { IsDigit(c) || IsUpper(c) || IsLower(c) }

  /** `str.lower` on one ASCII character: an upper-case letter becomes the
      lower-case letter 32 code points above it; nothing else changes. */
  function LowerChar(c: char): (d: char)
    ensures IsUpper(c) ==> IsLower(d) && d as int == c as int + 32
    ensures !IsUpper(c) ==> d == c
  {
    if IsUpper(c) then (c as int + 32) as char else c
  }

  /** `str.lower`. */
  function Lower(s: string): string
  {
    if s == [] then [] else [LowerChar(s[0])] + Lower(s[1..])
  }

  /** `Lower` works character by character. */
  lemma {:induction false} LowerAt(s: string)
    ensures |Lower(s)| == |s|
    ensures forall i :: 0 <= i < |s| ==> Lower(s)[i] == LowerChar(s[i])
  {
    if s != [] {
      LowerAt(s[1..]);
    }
  }

  lemma {:induction false} LowerAppend(a: string, b: string)
    ensures Lower(a + b) == Lower(a) + Lower(b)
  {
    if a == [] {
      assert a + b == b;
    } else {
      assert (a + b)[0] == a[0] && (a + b)[1..] == a[1..] + b;
      LowerAppend(a[1..], b);
    }
  }

  /** `s.replace(from, to)` for single characters. */
  function ReplaceChar(s: string, from: char, to: char): string
  {
    if s == [] then []
    else [if s[0] == from then to else s[0]] + ReplaceChar(s[1..], from, to)
  }

  /** `ReplaceChar` swaps every `from` for `to` and touches nothing else. */
  lemma {:induction false} ReplaceCharAt(s: string, from: char, to: char)
    ensures |ReplaceChar(s, from, to)| == |s|
    ensures forall i :: 0 <= i < |s| ==> ReplaceChar(s, from, to)[i] == if s[i] == from then to else s[i]
  {
    if s != [] {
      ReplaceCharAt(s[1..], from, to);
    }
  }

  predicate StartsWith(s: string, p: string) {
    |p| <= |s| && s[..|p|] == p
  }

  /** Python's `p in s`: `p` occurs somewhere in `s`. */
  predicate Contains(s: string, p: string)
    decreases |s|
  {
    StartsWith(s, p) || (s != [] && Contains(s[1..], p))
  }

  /** A pattern longer than the text cannot occur in it. */
  lemma {:induction false} ContainsNeedsRoom(s: string, p: string)
    requires |s| < |p|
    ensures !Contains(s, p)
    decreases |s|
  {
    if s != [] {
      ContainsNeedsRoom(s[1..], p);
    }
  }

  /** An occurrence of `p` at index `j` of `s` is an occurrence. */
  lemma {:induction false} ContainsAt(s: string, p: string, j: nat)
    requires j + |p| <= |s| && s[j..j + |p|] == p
    ensures Contains(s, p)
    decreases j
  {
    if j > 0 {
      assert s[1..][j - 1..j - 1 + |p|] == s[j..j + |p|];
      ContainsAt(s[1..], p, j - 1);
    }
  }

  /** Every occurrence of `p` in `s` sits at some index `j`. */
  lemma {:induction false} ContainsIndex(s: string, p: string) returns (j: nat)
    requires Contains(s, p)
    ensures j + |p| <= |s| && s[j..j + |p|] == p
    decreases |s|
  {
    if StartsWith(s, p) {
      j := 0;
    } else {
      var i := ContainsIndex(s[1..], p);
      j := i + 1;
      assert s[1..][i..i + |p|] == s[j..j + |p|];
    }
  }

  /** `p` occurs in the middle of `a + p + b`. */
  lemma ContainsMiddle(a: string, p: string, b: string)
    ensures Contains(a + p + b, p)
  {
    assert (a + p + b)[|a|..|a| + |p|] == p;
    ContainsAt(a + p + b, p, |a|);
  }

  /** Where `p + q` occurs, `p` occurs. */
  lemma ContainsPrefix(s: string, p: string, q: string)
    requires Contains(s, p + q)
    ensures Contains(s, p)
  {
    var j := ContainsIndex(s, p + q);
    assert s[j..j + |p|] == (p + q)[..|p|] == p;
    ContainsAt(s, p, j);
  }

  /** Drops leading whitespace (`str.lstrip`). */
  function TrimStart(s: string): (r: string)
    ensures |r| <= |s|
  {
    if s != [] && IsSpace(s[0]) then TrimStart(s[1..]) else s
  }

  /** `TrimStart` keeps a suffix that does not start with whitespace, and
      drops whitespace only. */
  lemma {:induction false} TrimStartFacts(s: string)
    ensures var r := TrimStart(s);
      && |r| <= |s| && r == s[|s| - |r|..]
      && (r == [] || !IsSpace(r[0]))
      && forall i :: 0 <= i < |s| - |r| ==> IsSpace(s[i])
  {
    if s != [] && IsSpace(s[0]) {
      var t, r := s[1..], TrimStart(s);
      TrimStartFacts(t);
      assert r == TrimStart(t);
      assert t[|t| - |r|..] == s[|s| - |r|..];
      forall i | 0 <= i < |s| - |r| ensures IsSpace(s[i]) {
        if i > 0 {
          assert s[i] == t[i - 1];
        }
      }
    }
  }

  /** Drops trailing whitespace (`str.rstrip`). */
  function TrimEnd(s: string): (r: string)
    ensures |r| <= |s|
  {
    if s != [] && IsSpace(s[|s| - 1]) then TrimEnd(s[..|s| - 1]) else s
  }

  /** `TrimEnd` keeps a prefix that does not end with whitespace, and drops
      whitespace only. */
  lemma {:induction false} TrimEndFacts(s: string)
    ensures var r := TrimEnd(s);
      && |r| <= |s| && r == s[..|r|]
      && (r == [] || !IsSpace(r[|r| - 1]))
      && forall i :: |r| <= i < |s| ==> IsSpace(s[i])
  {
    if s != [] && IsSpace(s[|s| - 1]) {
      var t, r := s[..|s| - 1], TrimEnd(s);
      TrimEndFacts(t);
      assert r == TrimEnd(t);
      assert t[..|r|] == s[..|r|];
      forall i | |r| <= i < |s| ensures IsSpace(s[i]) {
        if i < |s| - 1 {
          assert s[i] == t[i];
        }
      }
    }
  }

  /** `str.strip`. */
  function Strip(s: string): string
  {
    TrimEnd(TrimStart(s))
  }

  /** How many characters `Strip` drops at the front of `s`. */
  function StripOffset(s: string): nat
  {
    |s| - |TrimStart(s)|
  }

  /** `Strip` keeps the slice of `s` that starts at `StripOffset(s)`, drops
      only whitespace around it, and what it keeps neither starts nor ends
      with whitespace. */
  lemma StripFacts(s: string)
    ensures var k, r := StripOffset(s), Strip(s);
      && k + |r| <= |s| && r == s[k..k + |r|]
      && (forall i :: 0 <= i < k ==> IsSpace(s[i]))
      && (forall i :: k + |r| <= i < |s| ==> IsSpace(s[i]))
      && (r == [] || (!IsSpace(r[0]) && !IsSpace(r[|r| - 1])))
  {
    var t := TrimStart(s);
    TrimStartFacts(s);
    TrimEndFacts(t);
    var k, r := StripOffset(s), Strip(s);
    assert t == s[k..];
    assert r == t[..|r|];
    forall i | k + |r| <= i < |s| ensures IsSpace(s[i]) {
      assert s[i] == t[i - k];
    }
    if r != [] {
      assert r[0] == t[0];
    }
  }

  /** A string with no whitespace at either end is its own `Strip`. */
  lemma StripStripped(s: string)
    requires s == [] || (!IsSpace(s[0]) && !IsSpace(s[|s| - 1]))
    ensures Strip(s) == s
  {
  }

  /** Stripping cannot create or destroy an occurrence of a pattern that
      neither starts nor ends with whitespace. */
  lemma StripContains(s: string, p: string)
    requires p != [] && !IsSpace(p[0]) && !IsSpace(p[|p| - 1])
    ensures Contains(Strip(s), p) <==> Contains(s, p)
  {
    StripFacts(s);
    if Contains(Strip(s), p) {
      SliceContains(s, StripOffset(s), Strip(s), p);
    }
    if Contains(s, p) {
      var j := ContainsIndex(s, p);
      InnerOccurrence(s, StripOffset(s), Strip(s), p, j);
    }
  }

  /** An occurrence in a slice of `s` is an occurrence in `s`. */
  lemma SliceContains(s: string, k: nat, r: string, p: string)
    requires k + |r| <= |s| && r == s[k..k + |r|]
    requires Contains(r, p)
    ensures Contains(s, p)
  {
    var j := ContainsIndex(r, p);
    forall i | 0 <= i < |p| ensures s[k + j + i] == p[i] {
      assert s[k + j + i] == r[j + i] == r[j..j + |p|][i];
    }
    assert s[k + j..k + j + |p|] == p;
    ContainsAt(s, p, k + j);
  }

  /** An occurrence in `s` of a pattern with non-space ends lies inside the
      slice `r` of `s` when everything outside `r` is whitespace. */
  lemma InnerOccurrence(s: string, k: nat, r: string, p: string, j: nat)
    requires k + |r| <= |s| && r == s[k..k + |r|]
    requires forall i :: 0 <= i < k ==> IsSpace(s[i])
    requires forall i :: k + |r| <= i < |s| ==> IsSpace(s[i])
    requires p != [] && !IsSpace(p[0]) && !IsSpace(p[|p| - 1])
    requires j + |p| <= |s| && s[j..j + |p|] == p
    ensures Contains(r, p)
  {
    assert s[j] == p[0] && s[j + |p| - 1] == p[|p| - 1];
    assert k <= j && j + |p| <= k + |r|;
    forall i | 0 <= i < |p| ensures r[j - k + i] == p[i] {
      assert r[j - k + i] == s[j + i];
    }
    assert r[j - k..j - k + |p|] == p;
    ContainsAt(r, p, j - k);
  }

  /** `Strip` keeps a string that already has no whitespace at its ends. */
  lemma StripTwice(s: string)
    ensures Strip(Strip(s)) == Strip(s)
  {
    StripFacts(s);
    StripStripped(Strip(s));
  }

  /** `Strip` gives the empty string exactly when `s` is all whitespace. */
  lemma StripEmpty(s: string)
    ensures Strip(s) == [] <==> forall i :: 0 <= i < |s| ==> IsSpace(s[i])
  {
    StripFacts(s);
    var k, r := StripOffset(s), Strip(s);
    if r != [] {
      assert s[k] == r[0];
    }
  }

  /** `s.replace(p, "")`: scanning left to right, every non-overlapping
      occurrence of `p` is deleted. Nothing changes exactly when `p` does
      not occur, and the result is shorter otherwise. */
  function RemoveAll(s: string, p: string): (r: string)
    requires p != []
    ensures |r| <= |s|
    ensures !Contains(s, p) ==> r == s
    ensures Contains(s, p) ==> |r| < |s|
    decreases |s|
  {
    if |s| < |p| then
      ContainsNeedsRoom(s, p);
      s
    else if s[..|p|] == p then RemoveAll(s[|p|..], p)
    else [s[0]] + RemoveAll(s[1..], p)
  }

  /** Text before the first occurrence of `p` survives `RemoveAll` as it is,
      that occurrence goes, and the scan carries on after it. The
      requirement says that no occurrence of `p` starts inside `a`. */
  lemma {:induction false} RemoveAllSkip(a: string, p: string, b: string)
    requires p != []
    requires !Contains(a + p[..|p| - 1], p)
    ensures RemoveAll(a + p + b, p) == a + RemoveAll(b, p)
    decreases |a|
  {
    var s := a + p + b;
    if a == [] {
      assert s == p + b;
      assert s[..|p|] == p && s[|p|..] == b;
    } else {
      NotAtFront(a, p, b);
      assert s[1..] == a[1..] + p + b;
      RemoveAllSkip(a[1..], p, b);
      assert [a[0]] + (a[1..] + RemoveAll(b, p)) == a + RemoveAll(b, p);
    }
  }

  /** When no occurrence of `p` starts inside a non-empty `a`, none starts
      at the front of `a + p + b`, and none starts inside `a[1..]`. */
  lemma NotAtFront(a: string, p: string, b: string)
    requires p != [] && a != []
    requires !Contains(a + p[..|p| - 1], p)
    ensures (a + p + b)[..|p|] != p && (a + p + b)[0] == a[0]
    ensures !Contains(a[1..] + p[..|p| - 1], p)
  {
    var q := a + p[..|p| - 1];
    assert (a + p + b)[..|p|] == q[..|p|];
    assert q[1..] == a[1..] + p[..|p| - 1];
  }
}
