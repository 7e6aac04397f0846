/** The base-10 value of a run of digits, as Python's `int()` computes it on
    the output of `re.findall(r'\d+', ...)`, together with its inverse, the
    canonical decimal rendering of a natural number. */
module Decimal {
  import opened Chars

  function Pow10(n: nat): (p: nat)
    ensures p >= 1
  {
    if n == 0 then 1 else 10 * Pow10(n - 1)
  }

  /** Base-10 value of a digit string, most significant digit first. The empty
      string never reaches it from the parser (every run has a digit); it
      is given the value 0. */
  function Value(s: string): (n: nat)
    requires AllDigits(s)
    ensures n < Pow10(|s|)
    decreases |s|
  {
    if s == [] then 0 else 10 * Value(s[..|s| - 1]) + DigitValue(s[|s| - 1])
  }

  /** A digit string with no redundant leading zero: "0", "7", "120", but
      not "007" or "". */
  predicate Canonical(s: string) {
    |s| > 0 && AllDigits(s) && (s[0] != '0' || |s| == 1)
  }

  /** The decimal rendering of `n`, most significant digit first. */
  function Render(n: nat): (s: string)
    ensures Canonical(s)
    ensures n == 0 <==> s == "0"
    decreases n
  {
    if n < 10 then [DigitChar(n)] else Render(n / 10) + [DigitChar(n % 10)]
  }

  /** Rendering then reading back gives the number. */
  lemma {:induction false} ValueOfRender(n: nat)
    ensures Value(Render(n)) == n
    decreases n
  {
    var s := Render(n);
    if n >= 10 {
      ValueOfRender(n / 10);
      assert s[..|s| - 1] == Render(n / 10);
    }
  }

  /** A value is zero exactly when every digit is '0'. */
  lemma {:induction false} ValueZero(s: string)
    requires AllDigits(s)
    ensures Value(s) == 0 <==> forall k :: 0 <= k < |s| ==> s[k] == '0'
    decreases |s|
  {
    if s != [] {
      var p := s[..|s| - 1];
      ValueZero(p);
      assert forall k :: 0 <= k < |p| ==> p[k] == s[k];
    }
  }

  /** Reading a canonical string then rendering it gives the string back. */
  lemma {:induction false} RenderOfValue(s: string)
    requires Canonical(s)
    ensures Render(Value(s)) == s
    decreases |s|
  {
    if |s| > 1 {
      var p := s[..|s| - 1];
      assert Canonical(p) && p[0] == s[0];
      RenderOfValue(p);
      ValueZero(p);
      assert Value(p) >= 1;
      var n := Value(s);
      assert n / 10 == Value(p) && n % 10 == DigitValue(s[|s| - 1]);
    }
  }

  /** A leading zero does not change the value, so "007" reads as 7. */
  lemma {:induction false} LeadingZero(s: string)
    requires AllDigits(s)
    ensures AllDigits(['0'] + s) && Value(['0'] + s) == Value(s)
    decreases |s|
  {
    if s != [] {
      var p := s[..|s| - 1];
      LeadingZero(p);
      assert (['0'] + s)[..|s|] == ['0'] + p;
    }
  }

  /** Every digit string, leading zeros or not, reads as the number whose
      rendering is that string with its redundant leading zeros dropped. */
  lemma {:induction false} ValueIgnoresLeadingZeros(zeros: string, s: string)
    requires forall k :: 0 <= k < |zeros| ==> zeros[k] == '0'
    requires Canonical(s)
    ensures AllDigits(zeros + s)
    ensures Value(zeros + s) == Value(s)
    ensures Render(Value(zeros + s)) == s
    decreases |zeros|
  {
    if zeros == [] {
      assert zeros + s == s;
    } else {
      var rest := zeros[1..];
      ValueIgnoresLeadingZeros(rest, s);
      LeadingZero(rest + s);
      assert zeros + s == ['0'] + (rest + s);
    }
    RenderOfValue(s);
  }
}
