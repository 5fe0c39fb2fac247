/**
 * Character classes, `str.strip`, `str.lower`, `str.title` and Python's string ordering,
 * as the name normaliser and the sorts of the pipeline use them.
 */
module Strings {

  /** The characters Python's `str.isspace` accepts (and so `str.strip()` removes). */
  predicate IsSpace(c: char) {
    c == ' ' || ('\t' <= c <= '\r') || ('\U{1c}' <= c <= '\U{1f}') || c == '\U{85}' || c == '\U{a0}'
    || c == '\U{1680}' || ('\U{2000}' <= c <= '\U{200a}') || c == '\U{2028}' || c == '\U{2029}'
    || c == '\U{202f}' || c == '\U{205f}' || c == '\U{3000}'
  }

  predicate IsUpperAscii(c: char) { 'A' <= c <= 'Z' }

  predicate IsLowerAscii(c: char) { 'a' <= c <= 'z' }

  predicate IsDigit(c: char) { '0' <= c <= '9' }

  /**
   * A cased character for title-casing: an ASCII letter, or any character outside ASCII
   * that is not whitespace (such characters are treated as letters whose case never changes).
   */
  predicate IsLetter(c: char) {
    IsUpperAscii(c) || IsLowerAscii(c) || (c > '\U{7f}' && !IsSpace(c))
  }

  function Upper(c: char): (u: char)
    ensures IsLetter(u) == IsLetter(c)
    ensures !IsLowerAscii(u)
    ensures IsLowerAscii(c) || u == c
  {
    if IsLowerAscii(c) then (c as int - 32) as char else c
  }

  function Lower(c: char): (l: char)
    ensures IsLetter(l) == IsLetter(c)
    ensures !IsUpperAscii(l)
    ensures IsUpperAscii(c) || l == c
  {
    if IsUpperAscii(c) then (c as int + 32) as char else c
  }

  lemma CaseMapsAbsorb(c: char)
    ensures Upper(Upper(c)) == Upper(c) && Upper(Lower(c)) == Upper(c)
    ensures Lower(Lower(c)) == Lower(c) && Lower(Upper(c)) == Lower(c)
  {
  }

  /** `s.lower()` over the characters modelled here. */
  function LowerStr(s: string): (r: string)
    ensures |r| == |s|
    ensures forall i :: 0 <= i < |s| ==> r[i] == Lower(s[i])
  {
    seq(|s|, i requires 0 <= i < |s| => Lower(s[i]))
  }

  // ---------------------------------------------------------------- strip

  predicate NoOuterSpace(s: string) {
    s == [] || (!IsSpace(s[0]) && !IsSpace(s[|s| - 1]))
  }

  function TrimLeft(s: string): (r: string)
    ensures |r| <= |s| && r == s[|s| - |r|..]
    ensures r != [] ==> !IsSpace(r[0])
  {
    if s != [] && IsSpace(s[0]) then TrimLeft(s[1..]) else s
  }

  lemma {:induction false} TrimLeftRemovesSpace(s: string, k: nat)
    requires k < |s| - |TrimLeft(s)|
    ensures IsSpace(s[k])
  {
    if k > 0 {
      TrimLeftRemovesSpace(s[1..], k - 1);
    }
  }

  /** `TrimLeft` drops exactly the leading run of whitespace. */
  lemma {:induction false} TrimLeftSkip(s: string, n: nat)
    requires n <= |s| && (forall k :: 0 <= k < n ==> IsSpace(s[k])) && (n < |s| ==> !IsSpace(s[n]))
    ensures TrimLeft(s) == s[n..]
  {
    if n > 0 {
      TrimLeftSkip(s[1..], n - 1);
      assert s[1..][n - 1..] == s[n..];
    }
  }

  function TrimRight(s: string): (r: string)
    ensures |r| <= |s| && r == s[..|r|]
    ensures r != [] ==> !IsSpace(r[|r| - 1])
  {
    if s != [] && IsSpace(s[|s| - 1]) then TrimRight(s[..|s| - 1]) else s
  }

  /** `TrimRight` drops exactly the trailing run of whitespace. */
  lemma {:induction false} TrimRightSkip(s: string, n: nat)
    requires n <= |s| && (forall k :: |s| - n <= k < |s| ==> IsSpace(s[k])) && (n < |s| ==> !IsSpace(s[|s| - n - 1]))
    ensures TrimRight(s) == s[..|s| - n]
  {
    if n > 0 {
      var t := s[..|s| - 1];
      TrimRightSkip(t, n - 1);
      assert t[..|t| - (n - 1)] == s[..|s| - n];
    }
  }

  lemma {:induction false} TrimRightRemovesSpace(s: string, k: nat)
    requires |TrimRight(s)| <= k < |s|
    ensures IsSpace(s[k])
  {
    if k < |s| - 1 {
      TrimRightRemovesSpace(s[..|s| - 1], k);
    }
  }

  /** Number of characters `Strip` removes from the front. */
  function LeadingSpaces(s: string): nat {
    |s| - |TrimLeft(s)|
  }

  /**
   * Python's `s.strip()`: the result is a slice of `s` with no whitespace at either end, and a
   * string with none is its own strip.
   */
  function Strip(s: string): (r: string)
    ensures LeadingSpaces(s) + |r| <= |s| && r == s[LeadingSpaces(s)..LeadingSpaces(s) + |r|]
    ensures NoOuterSpace(r)
    ensures NoOuterSpace(s) ==> r == s
  {
    var l := TrimLeft(s);
    var r := TrimRight(l);
    assert r != [] ==> r[0] == l[0];
    r
  }

  /** `Strip` drops `n` leading and `m` trailing whitespace characters around a core without any. */
  lemma StripSkip(s: string, n: nat, m: nat)
    requires n + m < |s| && !IsSpace(s[n]) && !IsSpace(s[|s| - m - 1])
    requires forall k :: 0 <= k < n ==> IsSpace(s[k])
    requires forall k :: |s| - m <= k < |s| ==> IsSpace(s[k])
    ensures Strip(s) == s[n..|s| - m]
  {
    TrimLeftSkip(s, n);
    StripTail(s, n, m);
    StripParts(s, n, m);
  }

  lemma StripTail(s: string, n: nat, m: nat)
    requires n + m < |s| && !IsSpace(s[|s| - m - 1])
    requires forall k :: |s| - m <= k < |s| ==> IsSpace(s[k])
    ensures TrimRight(s[n..]) == s[n..|s| - m]
  {
    var l := s[n..];
    forall k | |l| - m <= k < |l| ensures IsSpace(l[k]) {
      assert l[k] == s[n + k];
    }
    assert l[|l| - m - 1] == s[|s| - m - 1];
    TrimRightSkip(l, m);
    assert l[..|l| - m] == s[n..|s| - m];
  }

  lemma StripParts(s: string, n: nat, m: nat)
    requires n + m < |s|
    requires TrimLeft(s) == s[n..]
    requires TrimRight(s[n..]) == s[n..|s| - m]
    ensures Strip(s) == s[n..|s| - m]
  {
    StripIs(s);
  }

  lemma StripIs(s: string)
    ensures Strip(s) == TrimRight(TrimLeft(s))
  {
  }

  /** What `Strip` removes is whitespace, at the front and at the back. */
  lemma StripRemovesSpace(s: string, k: nat)
    requires k < |s| && !(LeadingSpaces(s) <= k < LeadingSpaces(s) + |Strip(s)|)
    ensures IsSpace(s[k])
  {
    var l := TrimLeft(s);
    if k < LeadingSpaces(s) {
      TrimLeftRemovesSpace(s, k);
    } else {
      assert l[k - LeadingSpaces(s)] == s[k];
      TrimRightRemovesSpace(l, k - LeadingSpaces(s));
    }
  }

  lemma StripIdempotent(s: string)
    ensures Strip(Strip(s)) == Strip(s)
  {
  }

  // ---------------------------------------------------------------- title

  /**
   * `str.title` as a left-to-right scan: a letter is upper-cased when the character before it is
   * not a letter (or `afterLetter` is false at the start), and lower-cased otherwise.
   */
  function TitleFrom(s: string, afterLetter: bool): (r: string)
    ensures |r| == |s|
    ensures forall i :: 0 <= i < |s| ==>
      r[i] == if (if i == 0 then afterLetter else IsLetter(s[i - 1])) then Lower(s[i]) else Upper(s[i])
  {
    if s == [] then []
    else [if afterLetter then Lower(s[0]) else Upper(s[0])] + TitleFrom(s[1..], IsLetter(s[0]))
  }

  /** Character `i` of `s.title()`. */
  function TitleAt(s: string, i: nat): char
    requires i < |s|
  {
    if i > 0 && IsLetter(s[i - 1]) then Lower(s[i]) else Upper(s[i])
  }

  /** `s.title()`; the pointwise rule is stated for the positions a proof names with `TitleAt`. */
  function Title(s: string): (r: string)
    ensures |r| == |s|
    ensures forall i {:trigger TitleAt(s, i)} :: 0 <= i < |s| ==> r[i] == TitleAt(s, i)
  {
    TitleFrom(s, false)
  }

  /** Title-casing keeps every character's letter-ness, so it is idempotent. */
  lemma TitleIdempotent(s: string)
    ensures Title(Title(s)) == Title(s)
  {
    var t := Title(s);
    forall i | 0 <= i < |s| ensures Title(t)[i] == t[i] {
      assert Title(t)[i] == TitleAt(t, i) && t[i] == TitleAt(s, i);
      CaseMapsAbsorb(s[i]);
      if i > 0 {
        LetterKept(s, i - 1);
      }
    }
  }

  lemma LetterKept(s: string, i: nat)
    requires i < |s|
    ensures IsLetter(Title(s)[i]) == IsLetter(s[i])
  {
    var r := Title(s);
    assert r[i] == TitleAt(s, i);
  }

  /** In a title-cased string a lower-case ASCII letter always follows another letter. */
  lemma TitleLowerFollowsLetter(s: string, i: nat)
    requires i < |s| && IsLowerAscii(Title(s)[i])
    ensures i > 0 && IsLetter(Title(s)[i - 1])
  {
    assert Title(s)[i] == TitleAt(s, i);
    if i > 0 {
      LetterKept(s, i - 1);
    }
  }

  /** Title-casing commutes with dropping a prefix that ends in a non-letter. */
  lemma TitleDropPrefix(s: string, n: nat)
    requires 0 < n <= |s| && !IsLetter(s[n - 1])
    ensures Title(s)[n..] == Title(s[n..])
  {
    var a, b := Title(s)[n..], Title(s[n..]);
    assert |a| == |b|;
    forall k | 0 <= k < |a| ensures a[k] == b[k] {
      assert a[k] == Title(s)[n + k] == TitleAt(s, n + k);
      assert b[k] == TitleAt(s[n..], k);
      assert s[n..][k] == s[n + k];
      if k > 0 {
        assert s[n..][k - 1] == s[n + k - 1];
      }
    }
  }

  /** Each character of a title-cased string depends only on what precedes it. */
  lemma TitleTakePrefix(s: string, m: nat)
    requires m <= |s|
    ensures Title(s)[..m] == Title(s[..m])
  {
    var a, b := Title(s)[..m], Title(s[..m]);
    forall k | 0 <= k < m ensures a[k] == b[k] {
      assert a[k] == TitleAt(s, k);
      assert b[k] == TitleAt(s[..m], k);
    }
  }

  /** Title-casing keeps every character up to case. */
  lemma TitleKeepsLetters(s: string)
    ensures LowerStr(Title(s)) == LowerStr(s)
  {
    var r := Title(s);
    forall i | 0 <= i < |s| ensures Lower(r[i]) == Lower(s[i]) {
      assert r[i] == TitleAt(s, i);
      CaseMapsAbsorb(s[i]);
    }
  }

  /** Title-casing ignores the case it is given: strings equal up to case title-case alike. */
  lemma TitleIgnoresCase(a: string, b: string)
    requires LowerStr(a) == LowerStr(b)
    ensures Title(a) == Title(b)
  {
    assert |a| == |LowerStr(a)| == |b|;
    forall i | 0 <= i < |a| ensures Title(a)[i] == Title(b)[i] {
      assert Title(a)[i] == TitleAt(a, i) && Title(b)[i] == TitleAt(b, i);
      assert Lower(a[i]) == LowerStr(a)[i] == Lower(b[i]);
      CaseMapsAbsorb(a[i]);
      CaseMapsAbsorb(b[i]);
      if i > 0 {
        assert Lower(a[i - 1]) == LowerStr(a)[i - 1] == Lower(b[i - 1]);
      }
    }
  }

  // ---------------------------------------------------------------- ordering

  /** Python's `a < b` on strings: lexicographic by code point. */
  predicate StrLess(a: string, b: string)
    decreases |a|
  {
    if a == [] then b != []
    else if b == [] then false
    else if a[0] != b[0] then a[0] < b[0]
    else StrLess(a[1..], b[1..])
  }

  predicate StrLe(a: string, b: string) {
    a == b || StrLess(a, b)
  }

  lemma {:induction false} StrLessIrreflexive(a: string)
    ensures !StrLess(a, a)
  {
    if a != [] {
      StrLessIrreflexive(a[1..]);
    }
  }

  lemma {:induction false} StrLessTransitive(a: string, b: string, c: string)
    requires StrLess(a, b) && StrLess(b, c)
    ensures StrLess(a, c)
    decreases |a|
  {
    if a != [] && a[0] == b[0] && b[0] == c[0] {
      StrLessTransitive(a[1..], b[1..], c[1..]);
    }
  }

  lemma {:induction false} StrLessTotal(a: string, b: string)
    ensures a == b || StrLess(a, b) || StrLess(b, a)
    decreases |a|
  {
    if a != [] && b != [] && a[0] == b[0] {
      StrLessTotal(a[1..], b[1..]);
      assert a == [a[0]] + a[1..] && b == [b[0]] + b[1..];
    }
  }

  lemma StrLessAsymmetric(a: string, b: string)
    requires StrLess(a, b)
    ensures !StrLess(b, a) && a != b
  {
    StrLessIrreflexive(a);
    if StrLess(b, a) {
      StrLessTransitive(a, b, a);
    }
  }

  lemma StrLeTransitive(a: string, b: string, c: string)
    requires StrLe(a, b) && StrLe(b, c)
    ensures StrLe(a, c)
  {
    if a != b && b != c {
      StrLessTransitive(a, b, c);
    }
  }

  lemma StrLeTotal(a: string, b: string)
    ensures StrLe(a, b) || StrLe(b, a)
  {
    StrLessTotal(a, b);
  }
}
