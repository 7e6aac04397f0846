/** How typical message shapes parse: a number and a phrase, a number alone,
    a number inside a phrase, two numbers and a phrase. */
module Messages {
  import opened Chars
  import opened Whitespace
  import opened Decimal
  import opened Scan
  import opened Prompt

  /** The single space the message shapes below put between their parts. */
  const Space: string := " "

  /** A count is the limit exactly when it bounds the value of every maximal
      digit run and is the value of one of them. */
  lemma LimitFromRuns(text: string, n: nat)
    requires exists i, j :: MaximalRun(text, i, j) && Value(text[i..j]) == n
    requires forall i, j :: MaximalRun(text, i, j) ==> Value(text[i..j]) <= n
    ensures ParsePrompt(text).limit == n
  {
    var i0, j0 :| MaximalRun(text, i0, j0) && Value(text[i0..j0]) == n;
    assert HasDigit(text) by {
      assert IsDigit(text[i0]);
    }
    LimitIsLargestRun(text);
  }

  /** In `x d y` with `x` and `y` digit-free, `d` is the only maximal digit
      run. */
  lemma OnlyRun(x: string, d: string, y: string)
    requires |d| > 0 && AllDigits(d) && !HasDigit(x) && !HasDigit(y)
    ensures MaximalRun(x + d + y, |x|, |x| + |d|)
    ensures (x + d + y)[|x|..|x| + |d|] == d
    ensures forall i, j :: MaximalRun(x + d + y, i, j) ==> i == |x| && j == |x| + |d|
  {
    var text, a, b := x + d + y, |x|, |x| + |d|;
    assert forall k :: 0 <= k < a ==> text[k] == x[k];
    assert forall k :: a <= k < b ==> text[k] == d[k - a];
    assert forall k :: b <= k < |text| ==> text[k] == y[k - b];
    forall i, j | MaximalRun(text, i, j)
      ensures i == a && j == b
    {
      assert IsDigit(text[i]) && IsDigit(text[j - 1]);
    }
  }

  /** Deleting digits drops a block of digits and keeps both sides of it. */
  lemma RemoveRun(x: string, d: string, y: string)
    requires AllDigits(d)
    ensures RemoveDigits(x + d + y) == RemoveDigits(x) + RemoveDigits(y)
  {
    var xd := x + d;
    RemoveDigitsAppend(xd, y);
    RemoveDigitsAppend(x, d);
    RemoveDigitsOfDigits(d);
    assert RemoveDigits(xd) == RemoveDigits(x);
  }

  /** Deleting the digits of `x d y`, where `d` is all digits and `x`, `y`
      have none, leaves `x y`. */
  lemma RemoveOnlyRun(x: string, d: string, y: string)
    requires AllDigits(d) && !HasDigit(x) && !HasDigit(y)
    ensures RemoveDigits(x + d + y) == x + y
  {
    RemoveRun(x, d, y);
    RemoveDigitsIdentity(x);
    RemoveDigitsIdentity(y);
  }

  /** One number anywhere in a digit-free message `text == x d y`: it is the
      count, and it is deleted from the phrase with everything else left in
      place. */
  lemma OneNumber(text: string, x: string, d: string, y: string)
    requires text == x + d + y
    requires |d| > 0 && AllDigits(d) && !HasDigit(x) && !HasDigit(y)
    ensures ParsePrompt(text).limit == Value(d)
    ensures ParsePrompt(text).query == Strip(x + y)
  {
    OnlyRun(x, d, y);
    LimitFromRuns(text, Value(d));
    RemoveOnlyRun(x, d, y);
    QueryIsStrippedDigitFree(text);
  }

  /** In `x d1 m d2 y` with `m` non-empty and `x`, `m`, `y` digit-free, `d1`
      and `d2` are the only maximal digit runs. */
  lemma TwoRuns(text: string, x: string, d1: string, m: string, d2: string, y: string)
    requires text == x + d1 + m + d2 + y
    requires |d1| > 0 && AllDigits(d1) && |d2| > 0 && AllDigits(d2)
    requires |m| > 0 && !HasDigit(x) && !HasDigit(m) && !HasDigit(y)
    ensures MaximalRun(text, |x|, |x| + |d1|)
    ensures MaximalRun(text, |x| + |d1| + |m|, |x| + |d1| + |m| + |d2|)
    ensures text[|x|..|x| + |d1|] == d1
    ensures text[|x| + |d1| + |m|..|x| + |d1| + |m| + |d2|] == d2
    ensures forall i, j :: MaximalRun(text, i, j) ==>
      (i == |x| && j == |x| + |d1|) || (i == |x| + |d1| + |m| && j == |x| + |d1| + |m| + |d2|)
  {
    var a1, b1 := |x|, |x| + |d1|;
    var a2, b2 := b1 + |m|, b1 + |m| + |d2|;
    assert forall k :: 0 <= k < a1 ==> text[k] == x[k];
    assert forall k :: a1 <= k < b1 ==> text[k] == d1[k - a1];
    assert forall k :: b1 <= k < a2 ==> text[k] == m[k - b1];
    assert forall k :: a2 <= k < b2 ==> text[k] == d2[k - a2];
    assert forall k :: b2 <= k < |text| ==> text[k] == y[k - b2];
    forall i, j | MaximalRun(text, i, j)
      ensures (i == a1 && j == b1) || (i == a2 && j == b2)
    {
      assert IsDigit(text[i]) && IsDigit(text[j - 1]);
      if i < b1 {
        assert !IsDigit(text[b1]);
        assert i == a1 && j == b1;
      } else {
        assert !IsDigit(text[a2 - 1]);
        assert i == a2 && j == b2;
      }
    }
  }

  /** Deleting the digits of `x d1 m d2 y` leaves `x m y`. */
  lemma RemoveTwoRuns(x: string, d1: string, m: string, d2: string, y: string)
    requires AllDigits(d1) && AllDigits(d2)
    requires !HasDigit(x) && !HasDigit(m) && !HasDigit(y)
    ensures RemoveDigits(x + d1 + m + d2 + y) == x + m + y
  {
    RemoveRun(x + d1 + m, d2, y);
    RemoveOnlyRun(x, d1, m);
    RemoveDigitsIdentity(y);
  }

  /** When the maximal digit runs of `text` are exactly `d1` and `d2`, a
      number that bounds both values and equals one of them bounds every run
      and is the value of one of them. */
  lemma LargerOfTwoRuns(text: string, a1: int, b1: int, a2: int, b2: int, d1: string, d2: string, n: nat)
    requires MaximalRun(text, a1, b1) && MaximalRun(text, a2, b2)
    requires text[a1..b1] == d1 && text[a2..b2] == d2
    requires forall i, j :: MaximalRun(text, i, j) ==> (i == a1 && j == b1) || (i == a2 && j == b2)
    requires AllDigits(d1) && AllDigits(d2)
    requires Value(d1) <= n && Value(d2) <= n && (Value(d1) == n || Value(d2) == n)
    ensures exists i, j :: MaximalRun(text, i, j) && Value(text[i..j]) == n
    ensures forall i, j :: MaximalRun(text, i, j) ==> Value(text[i..j]) <= n
  {
    forall i, j | MaximalRun(text, i, j)
      ensures Value(text[i..j]) <= n
    {
      if i == a1 && j == b1 {
        assert text[i..j] == d1;
      } else {
        assert text[i..j] == d2;
      }
    }
    if Value(d1) == n {
      assert MaximalRun(text, a1, b1) && Value(text[a1..b1]) == n;
    } else {
      assert MaximalRun(text, a2, b2) && Value(text[a2..b2]) == n;
    }
  }

  /** In `x d1 m d2 y`, the larger of the two numbers bounds every maximal
      digit run and is the value of one of them. */
  lemma LargerOfTwoNumbers(text: string, x: string, d1: string, m: string, d2: string, y: string, n: nat)
    requires text == x + d1 + m + d2 + y
    requires |d1| > 0 && AllDigits(d1) && |d2| > 0 && AllDigits(d2)
    requires |m| > 0 && !HasDigit(x) && !HasDigit(m) && !HasDigit(y)
    requires n == if Value(d1) >= Value(d2) then Value(d1) else Value(d2)
    ensures exists i, j :: MaximalRun(text, i, j) && Value(text[i..j]) == n
    ensures forall i, j :: MaximalRun(text, i, j) ==> Value(text[i..j]) <= n
  {
    TwoRuns(text, x, d1, m, d2, y);
    var b1 := |x| + |d1|;
    var a2 := b1 + |m|;
    LargerOfTwoRuns(text, |x|, b1, a2, a2 + |d2|, d1, d2, n);
  }

  /** Two numbers in a digit-free message `text == x d1 m d2 y`, apart from
      each other: the larger is the count, and both are deleted from the
      phrase. */
  lemma TwoNumbers(text: string, x: string, d1: string, m: string, d2: string, y: string)
    requires text == x + d1 + m + d2 + y
    requires |d1| > 0 && AllDigits(d1) && |d2| > 0 && AllDigits(d2)
    requires |m| > 0 && !HasDigit(x) && !HasDigit(m) && !HasDigit(y)
    ensures ParsePrompt(text).limit == if Value(d1) >= Value(d2) then Value(d1) else Value(d2)
    ensures ParsePrompt(text).query == Strip(x + m + y)
  {
    var n := if Value(d1) >= Value(d2) then Value(d1) else Value(d2);
    LargerOfTwoNumbers(text, x, d1, m, d2, y, n);
    LimitFromRuns(text, n);
    RemoveTwoRuns(x, d1, m, d2, y);
    QueryIsStrippedDigitFree(text);
  }

  /** Whitespace before a trimmed phrase is stripped off. */
  lemma StripLeadingSpace(w: string, q: string)
    requires AllSpace(w) && Trimmed(q)
    ensures Strip(w + q) == q
  {
    var e: string := [];
    assert w + q == w + q + e;
    StripPadded(w, q, e);
    StripTrimmed(q);
  }

  /** A number, a space and a digit-free phrase: the count is the number and
      the phrase is kept as it is. */
  lemma NumberThenPhrase(d: string, q: string)
    requires |d| > 0 && AllDigits(d)
    requires !HasDigit(q) && Trimmed(q)
    ensures ParsePrompt(d + Space + q) == Request(Value(d), q)
  {
    var e: string, y := [], Space + q;
    assert d + Space + q == e + d + y by {
      assert e + d == d;
    }
    assert !HasDigit(y) by {
      forall k | 0 <= k < |y|
        ensures !IsDigit(y[k])
      {
        if k > 0 {
          assert y[k] == q[k - 1];
        }
      }
    }
    assert Strip(e + y) == q by {
      assert e + y == y;
      StripLeadingSpace(Space, q);
    }
    OneNumber(d + Space + q, e, d, y);
  }

  /** Any natural number, written in decimal before a phrase, is taken as the
      count: the parser itself puts no upper bound on it. */
  lemma CountThenPhrase(n: nat, q: string)
    requires !HasDigit(q) && Trimmed(q)
    ensures ParsePrompt(Render(n) + Space + q) == Request(n, q)
  {
    NumberThenPhrase(Render(n), q);
    ValueOfRender(n);
  }

  /** A message that is only a number is not rejected: the count is the
      number and the phrase is empty. */
  lemma NumberAlone(d: string)
    requires |d| > 0 && AllDigits(d)
    ensures ParsePrompt(d) == Request(Value(d), [])
  {
    var e: string := [];
    assert e + d == d && d + e == d;
    assert Strip(e + e) == [] by {
      assert e + e == e;
      StripTrimmed(e);
    }
    OneNumber(d, e, d, e);
  }

  /** Once `d` is deleted from `u d v`, what is left is `u`, two spaces and
      `v`, already stripped. */
  lemma TwoSpacesInside(u: string, v: string)
    requires u != [] && v != [] && Trimmed(u) && Trimmed(v)
    ensures Strip(u + Space + Space + v) == u + Space + Space + v
  {
    var r := u + Space + Space + v;
    assert r[0] == u[0] && r[|r| - 1] == v[|v| - 1];
    StripTrimmed(r);
  }

  /** A number between two phrases is deleted and both spaces around it stay:
      they are not merged into one. */
  lemma NumberInsidePhrase(u: string, d: string, v: string)
    requires |d| > 0 && AllDigits(d)
    requires u != [] && v != [] && !HasDigit(u) && !HasDigit(v) && Trimmed(u) && Trimmed(v)
    ensures ParsePrompt(u + Space + d + Space + v) == Request(Value(d), u + Space + Space + v)
  {
    var x, y := u + Space, Space + v;
    assert u + Space + d + Space + v == x + d + y;
    assert !HasDigit(x) && !HasDigit(y);
    assert Strip(x + y) == u + Space + Space + v by {
      assert x + y == u + Space + Space + v;
      TwoSpacesInside(u, v);
    }
    OneNumber(u + Space + d + Space + v, x, d, y);
  }

  /** The two spaces left before a phrase once two leading numbers are
      deleted are stripped off. */
  lemma TwoSpacesThenPhrase(q: string)
    requires Trimmed(q)
    ensures Strip(Space + (Space + q)) == q
  {
    var w := Space + Space;
    assert Space + (Space + q) == w + q;
    StripLeadingSpace(w, q);
  }

  /** Two numbers before a phrase: the larger is the count and both are
      deleted. */
  lemma TwoNumbersThenPhrase(d1: string, d2: string, q: string)
    requires |d1| > 0 && AllDigits(d1) && |d2| > 0 && AllDigits(d2)
    requires !HasDigit(q) && Trimmed(q)
    ensures ParsePrompt(d1 + Space + d2 + Space + q) ==
      Request(if Value(d1) >= Value(d2) then Value(d1) else Value(d2), q)
  {
    var e: string, y := [], Space + q;
    assert d1 + Space + d2 + Space + q == e + d1 + Space + d2 + y by {
      assert e + d1 == d1;
    }
    assert !HasDigit(y) by {
      forall k | 0 <= k < |y|
        ensures !IsDigit(y[k])
      {
        if k > 0 {
          assert y[k] == q[k - 1];
        }
      }
    }
    assert e + Space == Space;
    TwoSpacesThenPhrase(q);
    TwoNumbers(d1 + Space + d2 + Space + q, e, d1, Space, d2, y);
  }
}
