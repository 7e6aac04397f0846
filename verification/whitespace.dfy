/** Python's `str.strip()` with no argument, over the ASCII whitespace set. */
module Whitespace {
  import opened Chars

  /** Removes leading whitespace. */
  function StripLeft(s: string): (r: string)
    ensures |r| <= |s|
    ensures r == [] || !IsSpace(r[0])
    decreases |s|
  {
    if s != [] && IsSpace(s[0]) then StripLeft(s[1..]) else s
  }

  /** What `StripLeft` removes is whitespace, and what it keeps is the suffix
      of `s` that starts at its first non-space character. */
  lemma {:induction false} StripLeftSpec(s: string)
    ensures forall k :: 0 <= k < |StripLeft(s)| ==> StripLeft(s)[k] == s[|s| - |StripLeft(s)| + k]
    ensures forall k :: 0 <= k < |s| - |StripLeft(s)| ==> IsSpace(s[k])
    decreases |s|
  {
    if s != [] && IsSpace(s[0]) {
      StripLeftSpec(s[1..]);
      assert forall k :: 1 <= k < |s| ==> s[k] == s[1..][k - 1];
    }
  }

  /** Removes trailing whitespace. */
  function StripRight(s: string): (r: string)
    ensures |r| <= |s|
    ensures r == [] || !IsSpace(r[|r| - 1])
    decreases |s|
  {
    if s != [] && IsSpace(s[|s| - 1]) then StripRight(s[..|s| - 1]) else s
  }

  /** What `StripRight` removes is whitespace, and what it keeps is the prefix
      of `s` that ends at its last non-space character. */
  lemma {:induction false} StripRightSpec(s: string)
    ensures forall k :: 0 <= k < |StripRight(s)| ==> StripRight(s)[k] == s[k]
    ensures forall k :: |StripRight(s)| <= k < |s| ==> IsSpace(s[k])
    decreases |s|
  {
    if s != [] && IsSpace(s[|s| - 1]) {
      StripRightSpec(s[..|s| - 1]);
    }
  }

  /** `r` is the slice of `s` starting at `a`, and everything of `s` outside
      that slice is whitespace. */
  predicate TrimmedAt(s: string, r: string, a: nat) {
    && a + |r| <= |s|
    && (forall k :: 0 <= k < |r| ==> s[a + k] == r[k])
    && (forall k :: 0 <= k < a ==> IsSpace(s[k]))
    && (forall k :: a + |r| <= k < |s| ==> IsSpace(s[k]))
  }

  /** Removes leading and trailing whitespace, keeping everything in between. */
  function Strip(s: string): (r: string)
    ensures Trimmed(r)
  {
    var l := StripLeft(s);
    var r := StripRight(l);
    assert r != [] ==> r[0] == l[0] by {
      StripRightSpec(l);
    }
    r
  }

  /** `Strip` keeps a slice of its input with only whitespace around it: the
      offset of that slice. */
  lemma StripOffset(s: string) returns (a: nat)
    ensures TrimmedAt(s, Strip(s), a)
  {
    var l := StripLeft(s);
    var r := StripRight(l);
    a := |s| - |l|;
    assert Strip(s) == r;
    assert forall k :: 0 <= k < a ==> IsSpace(s[k]) by {
      StripLeftSpec(s);
    }
    assert forall k :: 0 <= k < |l| ==> s[a + k] == l[k] by {
      StripLeftSpec(s);
    }
    StripRightSpec(l);
    assert forall k :: 0 <= k < |r| ==> s[a + k] == r[k];
    assert forall k :: a + |r| <= k < |s| ==> IsSpace(s[k]) by {
      forall k | a + |r| <= k < |s|
        ensures IsSpace(s[k])
      {
        assert s[k] == l[k - a];
      }
    }
  }

  /** The trimmed slice is unique: any slice with only whitespace around it
      and no whitespace at its ends is what `Strip` returns. */
  lemma StripUnique(s: string, r: string, a: nat)
    requires TrimmedAt(s, r, a) && Trimmed(r)
    ensures Strip(s) == r
  {
    var q := Strip(s);
    var b := StripOffset(s);
    if r == [] {
      assert q == [];
    } else {
      assert s[a] == r[0];
      assert s[a + |r| - 1] == r[|r| - 1];
      assert q != [];
      assert s[b] == q[0];
      assert s[b + |q| - 1] == q[|q| - 1];
    }
  }

  /** Text without whitespace at either end is left unchanged. */
  lemma StripTrimmed(s: string)
    requires Trimmed(s)
    ensures Strip(s) == s
  {
    assert s[0..0 + |s|] == s;
    StripUnique(s, s, 0);
  }

  /** Stripping twice is the same as stripping once. */
  lemma StripIdempotent(s: string)
    ensures Strip(Strip(s)) == Strip(s)
  {
    StripTrimmed(Strip(s));
  }

  /** Whitespace added on either side does not change the stripped text. */
  lemma StripPadded(w1: string, x: string, w2: string)
    requires AllSpace(w1) && AllSpace(w2)
    ensures Strip(w1 + x + w2) == Strip(x)
  {
    var a := StripOffset(x);
    PaddedTrimmedAt(w1, x, w2, Strip(x), a);
    StripUnique(w1 + x + w2, Strip(x), |w1| + a);
  }

  /** Whitespace added on either side keeps a slice with only whitespace
      around it, shifted by the whitespace added in front. */
  lemma PaddedTrimmedAt(w1: string, x: string, w2: string, r: string, a: nat)
    requires AllSpace(w1) && AllSpace(w2) && TrimmedAt(x, r, a)
    ensures TrimmedAt(w1 + x + w2, r, |w1| + a)
  {
    var s := w1 + x + w2;
    var b := |w1| + a;
    forall k | 0 <= k < |r|
      ensures s[b + k] == r[k]
    {
      assert s[b + k] == x[a + k];
    }
    forall k | 0 <= k < b
      ensures IsSpace(s[k])
    {
      if k < |w1| {
        assert s[k] == w1[k];
      } else {
        assert s[k] == x[k - |w1|];
      }
    }
    forall k | b + |r| <= k < |s|
      ensures IsSpace(s[k])
    {
      if k < |w1| + |x| {
        assert s[k] == x[k - |w1|];
      } else {
        assert s[k] == w2[k - |w1| - |x|];
      }
    }
  }

  /** Digits are not whitespace, so stripping keeps every digit. */
  lemma StripKeepsDigits(s: string)
    ensures HasDigit(Strip(s)) <==> HasDigit(s)
  {
    var r := Strip(s);
    var a := StripOffset(s);
    if HasDigit(s) {
      var k :| 0 <= k < |s| && IsDigit(s[k]);
      assert r[k - a] == s[k];
    }
    if HasDigit(r) {
      var k :| 0 <= k < |r| && IsDigit(r[k]);
      assert s[a + k] == r[k];
    }
  }
}
