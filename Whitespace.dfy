/** Whitespace trimming of device names: the three strip helpers of
    uiautomatorstartall.cpp. The C++ helpers take a `std::string &` and erase
    from it; here each takes the string's value and returns its new value. */
module Whitespace {

  /** The characters `std::isspace` accepts in the "C" locale:
      space, tab, newline, vertical tab, form feed, carriage return; that
      is, the space and the control codes 9 to 13. */
  predicate IsSpace(c: char)
    ensures IsSpace(c) <==> c == ' ' || ('\t' <= c <= '\r')
  {
    c == ' ' || c == '\t' || c == '\n' || c == '\U{B}' || c == '\U{C}' || c == '\r'
  }

  /** Every character of `s` is whitespace (vacuously true of ""). */
  predicate AllSpace(s: string) {
    forall k :: 0 <= k < |s| ==> IsSpace(s[k])
  }

  /** Where `std::find_if` stops when it looks for a non-space character
      from the front: everything before that index is whitespace, and the
      character at it, if any, is not. */
  function FirstNonSpace(s: string): (n: nat)
    ensures n <= |s|
    ensures forall k :: 0 <= k < n ==> IsSpace(s[k])
    ensures n == |s| || !IsSpace(s[n])
  {
    if s != [] && IsSpace(s[0]) then 1 + FirstNonSpace(s[1..]) else 0
  }

  /** Where the reverse `std::find_if` stops, as a position from the front
      (its `.base()`): everything from that index on is whitespace, and the
      character just before it, if any, is not. */
  function EndOfNonSpace(s: string): (n: nat)
    ensures n <= |s|
    ensures forall k :: n <= k < |s| ==> IsSpace(s[k])
    ensures n == 0 || !IsSpace(s[n - 1])
  {
    if s != [] && IsSpace(s[|s| - 1]) then EndOfNonSpace(s[..|s| - 1]) else |s|
  }

  /** The two conditions of `FirstNonSpace` single out one index. */
  lemma {:induction false} FirstNonSpaceUnique(s: string, n: nat)
    requires n <= |s|
    requires forall k :: 0 <= k < n ==> IsSpace(s[k])
    requires n == |s| || !IsSpace(s[n])
    ensures FirstNonSpace(s) == n
  {
    if n > 0 {
      FirstNonSpaceUnique(s[1..], n - 1);
    }
  }

  /** The two conditions of `EndOfNonSpace` single out one index. */
  lemma {:induction false} EndOfNonSpaceUnique(s: string, n: nat)
    requires n <= |s|
    requires forall k :: n <= k < |s| ==> IsSpace(s[k])
    requires n == 0 || !IsSpace(s[n - 1])
    ensures EndOfNonSpace(s) == n
  {
    if n < |s| {
      EndOfNonSpaceUnique(s[..|s| - 1], n);
    }
  }

  /** `s` without its leading whitespace: it starts with no whitespace
      character. */
  function TrimLeft(s: string): (r: string)
    ensures |r| <= |s|
    ensures r == [] || !IsSpace(r[0])
  {
    if s != [] && IsSpace(s[0]) then TrimLeft(s[1..]) else s
  }

  /** `s` without its trailing whitespace: it ends with no whitespace
      character and, unless empty, starts where `s` starts. */
  function TrimRight(s: string): (r: string)
    ensures |r| <= |s|
    ensures r == [] || (r[0] == s[0] && !IsSpace(r[|r| - 1]))
  {
    if s != [] && IsSpace(s[|s| - 1]) then TrimRight(s[..|s| - 1]) else s
  }

  /** `s` without leading and trailing whitespace: neither end of the
      result is a whitespace character. */
  function Trim(s: string): (r: string)
    ensures |r| <= |s|
    ensures r == [] || (!IsSpace(r[0]) && !IsSpace(r[|r| - 1]))
  {
    TrimRight(TrimLeft(s))
  }

  /** The left trim starts where `std::find_if` stops. */
  lemma {:induction false} TrimLeftIsSuffix(s: string)
    ensures TrimLeft(s) == s[FirstNonSpace(s)..]
  {
    if s != [] && IsSpace(s[0]) {
      TrimLeftIsSuffix(s[1..]);
      assert s[1..][FirstNonSpace(s[1..])..] == s[FirstNonSpace(s)..];
    }
  }

  /** The right trim ends where the reverse `std::find_if` stops. */
  lemma {:induction false} TrimRightIsPrefix(s: string)
    ensures TrimRight(s) == s[..EndOfNonSpace(s)]
  {
    if s != [] && IsSpace(s[|s| - 1]) {
      TrimRightIsPrefix(s[..|s| - 1]);
      assert s[..|s| - 1][..EndOfNonSpace(s)] == s[..EndOfNonSpace(s)];
    }
  }

  /** The left trim is the suffix that starts at the first non-space
      character: what it drops is whitespace and it starts with none. */
  lemma TrimLeftShape(s: string)
    ensures var r := TrimLeft(s);
      r == s[|s| - |r|..] && AllSpace(s[..|s| - |r|])
  {
    TrimLeftIsSuffix(s);
  }

  /** The right trim is the prefix that ends at the last non-space
      character: what it drops is whitespace and it ends with none. */
  lemma TrimRightShape(s: string)
    ensures var r := TrimRight(s);
      r == s[..|r|] && AllSpace(s[|r|..])
  {
    TrimRightIsPrefix(s);
    var n := EndOfNonSpace(s);
    assert forall k :: 0 <= k < |s| - n ==> s[n..][k] == s[n + k];
  }

  /** The trim is one contiguous piece of `s`, starting at its first
      non-space character; all that was cut off on either side is
      whitespace. */
  lemma TrimShape(s: string)
    ensures var i := FirstNonSpace(s); var r := Trim(s);
      i + |r| <= |s| && r == s[i..i + |r|] &&
      AllSpace(s[..i]) && AllSpace(s[i + |r|..])
  {
    var i := FirstNonSpace(s);
    var l := TrimLeft(s);
    TrimLeftIsSuffix(s);
    TrimRightIsPrefix(l);
    var j := EndOfNonSpace(l);
    assert Trim(s) == s[i..i + j];
    assert s[i + j..] == l[j..];
  }

  /** Trimming trims nothing more the second time. */
  lemma TrimIdempotent(s: string)
    ensures Trim(Trim(s)) == Trim(s)
  {
    var r := Trim(s);
    assert TrimLeft(r) == r;
  }

  /** A string trims to nothing exactly when it is empty or all whitespace. */
  lemma TrimEmptyIff(s: string)
    ensures Trim(s) == [] <==> AllSpace(s)
  {
    TrimShape(s);
    var i := FirstNonSpace(s);
    if Trim(s) == [] {
      forall k | 0 <= k < |s| ensures IsSpace(s[k]) {
        assert s[..i][k] == s[k];
      }
    }
    if AllSpace(s) {
      FirstNonSpaceUnique(s, |s|);
    }
  }

  /** Trimming removes exactly the whitespace padding around a string
      that has none at its ends. */
  lemma TrimPadding(l: string, a: string, r: string)
    requires AllSpace(l) && AllSpace(r)
    requires a == [] || (!IsSpace(a[0]) && !IsSpace(a[|a| - 1]))
    ensures Trim(l + a + r) == a
  {
    var s := l + a + r;
    assert forall k :: 0 <= k < |l| ==> s[k] == l[k];
    assert forall k :: |l| + |a| <= k < |s| ==> s[k] == r[k - |l| - |a|];
    if a == [] {
      TrimEmptyIff(s);
    } else {
      FirstNonSpaceUnique(s, |l|);
      TrimLeftIsSuffix(s);
      assert TrimLeft(s) == a + r;
      EndOfNonSpaceUnique(a + r, |a|);
      TrimRightIsPrefix(a + r);
      assert (a + r)[..|a|] == a;
    }
  }

  /** Trimming never introduces a character: what is absent from `s` is
      absent from its trim. */
  lemma TrimKeepsOut(s: string, c: char)
    requires c !in s
    ensures c !in Trim(s)
  {
    TrimShape(s);
    var i := FirstNonSpace(s);
    var r := Trim(s);
    forall k | 0 <= k < |r| ensures r[k] != c {
      assert r[k] == s[i + k];
    }
  }

  /** `lstrip_spaces_inplace`: an empty string is left alone; otherwise
      everything before the first non-space character (`std::find_if`) is
      erased. */
  method LStripSpacesInPlace(s: string) returns (r: string)
    ensures r == TrimLeft(s)
  {
    if |s| == 0 {
      return s;
    }
    var i := 0;
    while i < |s| && IsSpace(s[i])
      invariant i <= |s|
      invariant forall k :: 0 <= k < i ==> IsSpace(s[k])
    {
      i := i + 1;
    }
    FirstNonSpaceUnique(s, i);
    TrimLeftIsSuffix(s);
    r := s[i..];
  }

  /** `rstrip_spaces_inplace`: an empty string is left alone; otherwise
      everything after the last non-space character (`std::find_if` over the
      reversed string, then `.base()`) is erased. */
  method RStripSpacesInPlace(s: string) returns (r: string)
    ensures r == TrimRight(s)
  {
    if |s| == 0 {
      return s;
    }
    var j: nat := |s|;
    while j > 0 && IsSpace(s[j - 1])
      invariant j <= |s|
      invariant forall k :: j <= k < |s| ==> IsSpace(s[k])
    {
      j := j - 1;
    }
    EndOfNonSpaceUnique(s, j);
    TrimRightIsPrefix(s);
    r := s[..j];
  }

  /** `strip_spaces_inplace`: an empty string is left alone; otherwise the
      left strip and then the right strip. */
  method StripSpacesInPlace(s: string) returns (r: string)
    ensures r == Trim(s)
  {
    if |s| == 0 {
      return s;
    }
    r := LStripSpacesInPlace(s);
    r := RStripSpacesInPlace(r);
  }
}
