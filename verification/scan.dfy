/** The two regular-expression operations the parser applies with the pattern
    `\d+`: `re.findall`, which lists the maximal digit runs from left to right,
    and `re.sub(..., '', ...)`, which deletes them. */
module Scan {
  import opened Chars

  /** The half-open index range `start..end` of one match. */
  datatype Span = Span(start: nat, end: nat)

  /** `s[i..j]` is a maximal run of digits: non-empty, only digits, and with
      no digit immediately before or after it. This is what one match of `\d+`
      is, independently of how the scanner finds it. */
  predicate MaximalRun(s: string, i: int, j: int) {
    && 0 <= i < j <= |s|
    && (forall k :: i <= k < j ==> IsDigit(s[k]))
    && (i == 0 || !IsDigit(s[i - 1]))
    && (j == |s| || !IsDigit(s[j]))
  }

  /** Position `p` does not fall strictly inside a run of digits, so a scan may
      resume there. */
  predicate AtBoundary(s: string, p: nat) {
    p <= |s| && (p == 0 || p == |s| || !IsDigit(s[p - 1]) || !IsDigit(s[p]))
  }

  /** The first position at or after `i` that holds no digit. */
  function RunEnd(s: string, i: nat): (j: nat)
    requires i <= |s|
    ensures i <= j <= |s|
    ensures forall k :: i <= k < j ==> IsDigit(s[k])
    ensures j == |s| || !IsDigit(s[j])
    decreases |s| - i
  {
    if i < |s| && IsDigit(s[i]) then RunEnd(s, i + 1) else i
  }

  /** The matches of `\d+` in `s` from position `p` on, leftmost first. */
  function SpansFrom(s: string, p: nat): (spans: seq<Span>)
    requires AtBoundary(s, p)
    ensures forall n :: 0 <= n < |spans| ==> p <= spans[n].start && MaximalRun(s, spans[n].start, spans[n].end)
    ensures forall n :: 0 < n < |spans| ==> spans[n - 1].end < spans[n].start
    ensures spans == [] ==> forall k :: p <= k < |s| ==> !IsDigit(s[k])
    decreases |s| - p
  {
    if p == |s| then []
    else if !IsDigit(s[p]) then SpansFrom(s, p + 1)
    else
      var j := RunEnd(s, p);
      [Span(p, j)] + SpansFrom(s, j)
  }

  /** The positions of the matches `re.findall(r'\d+', s)` returns. */
  function Spans(s: string): (spans: seq<Span>)
    ensures forall n :: 0 <= n < |spans| ==> MaximalRun(s, spans[n].start, spans[n].end)
    ensures spans == [] ==> !HasDigit(s)
  {
    SpansFrom(s, 0)
  }

  /** `re.findall(r'\d+', s)`: the matched digit strings, leftmost first. */
  function Runs(s: string): (runs: seq<string>)
    ensures |runs| == |Spans(s)|
    ensures forall n :: 0 <= n < |runs| ==> |runs[n]| > 0 && AllDigits(runs[n])
  {
    var spans := Spans(s);
    seq(|spans|, n requires 0 <= n < |spans| => s[spans[n].start..spans[n].end])
  }

  /** The scan from `p` finds every maximal run that starts at or after `p`,
      and finds none exactly when no digit is left. */
  lemma {:induction false} SpansFromComplete(s: string, p: nat)
    requires AtBoundary(s, p)
    ensures forall i, j :: p <= i && MaximalRun(s, i, j) ==> Span(i, j) in SpansFrom(s, p)
    ensures SpansFrom(s, p) == [] <==> forall k :: p <= k < |s| ==> !IsDigit(s[k])
    decreases |s| - p
  {
    if p < |s| {
      if !IsDigit(s[p]) {
        SpansFromComplete(s, p + 1);
      } else {
        var e := RunEnd(s, p);
        SpansFromComplete(s, e);
        forall i, j | p <= i && MaximalRun(s, i, j)
          ensures Span(i, j) in SpansFrom(s, p)
        {
          if i == p {
            assert j == e;
          } else {
            assert e <= i;
          }
        }
      }
    }
  }

  /** The spans `Spans` reports are exactly the maximal digit runs of `s`, in
      left-to-right order, and there are none exactly when `s` has no digit. */
  lemma SpansAreMaximalRuns(s: string)
    ensures forall n :: 0 <= n < |Spans(s)| ==> MaximalRun(s, Spans(s)[n].start, Spans(s)[n].end)
    ensures forall n :: 0 < n < |Spans(s)| ==> Spans(s)[n - 1].end < Spans(s)[n].start
    ensures forall i, j :: MaximalRun(s, i, j) ==> Span(i, j) in Spans(s)
    ensures Spans(s) == [] <==> !HasDigit(s)
  {
    SpansFromComplete(s, 0);
  }

  /** Every digit string `Runs` reports is the text of the matching span. */
  lemma RunsAreSpanTexts(s: string)
    ensures forall n :: 0 <= n < |Runs(s)| ==>
      Spans(s)[n].end <= |s| && Runs(s)[n] == s[Spans(s)[n].start..Spans(s)[n].end]
  {
  }

  /** `w` is the text of some maximal digit run of `s`. */
  predicate IsRunText(s: string, w: string) {
    exists i, j :: 0 <= i < j <= |s| && MaximalRun(s, i, j) && w == s[i..j]
  }

  /** `re.findall(r'\d+', s)` lists exactly the texts of the maximal digit
      runs of `s`: each string it reports is one, and each one is reported. */
  lemma RunsAreMaximalRunTexts(s: string)
    ensures forall n :: 0 <= n < |Runs(s)| ==> IsRunText(s, Runs(s)[n])
    ensures forall i, j :: MaximalRun(s, i, j) ==> s[i..j] in Runs(s)
  {
    SpansAreMaximalRuns(s);
    RunsAreSpanTexts(s);
    forall n | 0 <= n < |Runs(s)|
      ensures IsRunText(s, Runs(s)[n])
    {
      var i, j := Spans(s)[n].start, Spans(s)[n].end;
      assert MaximalRun(s, i, j) && Runs(s)[n] == s[i..j];
    }
    forall i, j | MaximalRun(s, i, j)
      ensures s[i..j] in Runs(s)
    {
      var n :| 0 <= n < |Spans(s)| && Spans(s)[n] == Span(i, j);
      assert Runs(s)[n] == s[i..j];
    }
  }

  /** Deletes every digit character and keeps the rest in order. */
  function RemoveDigits(s: string): (r: string)
    ensures !HasDigit(r)
    ensures |r| <= |s|
    decreases |s|
  {
    if s == [] then []
    else (if IsDigit(s[0]) then [] else [s[0]]) + RemoveDigits(s[1..])
  }

  /** Deleting digits introduces no character: whatever is left was there. */
  lemma {:induction false} RemoveDigitsKeepsOwnChars(s: string)
    ensures forall c :: c in RemoveDigits(s) ==> c in s
    decreases |s|
  {
    if s != [] {
      RemoveDigitsKeepsOwnChars(s[1..]);
    }
  }

  /** Deleting digits distributes over concatenation, so the characters that
      survive keep their relative order and nothing is merged or collapsed. */
  lemma {:induction false} RemoveDigitsAppend(a: string, b: string)
    ensures RemoveDigits(a + b) == RemoveDigits(a) + RemoveDigits(b)
    decreases |a|
  {
    if a != [] {
      RemoveDigitsAppend(a[1..], b);
      assert (a + b)[1..] == a[1..] + b;
    } else {
      assert a + b == b;
    }
  }

  /** Deleting digits from a string of digits leaves nothing. */
  lemma {:induction false} RemoveDigitsOfDigits(s: string)
    requires AllDigits(s)
    ensures RemoveDigits(s) == []
    decreases |s|
  {
    if s != [] {
      RemoveDigitsOfDigits(s[1..]);
    }
  }

  /** Deleting digits leaves a string unchanged exactly when it has none. */
  lemma {:induction false} RemoveDigitsIdentity(s: string)
    ensures RemoveDigits(s) == s <==> !HasDigit(s)
    decreases |s|
  {
    if s != [] {
      RemoveDigitsIdentity(s[1..]);
      if !IsDigit(s[0]) && HasDigit(s) {
        var k :| 0 <= k < |s| && IsDigit(s[k]);
        assert s[1..][k - 1] == s[k];
      }
      if !HasDigit(s[1..]) && !IsDigit(s[0]) {
        assert forall k :: 0 < k < |s| ==> s[k] == s[1..][k - 1];
      }
    }
  }

  /** `re.sub(r'\d+', '', s)` from position `p` on: characters outside runs
      are copied, each run is skipped as a whole. */
  function DeleteRunsFrom(s: string, p: nat): (r: string)
    requires p <= |s|
    ensures !HasDigit(r)
    decreases |s| - p
  {
    if p == |s| then []
    else if !IsDigit(s[p]) then [s[p]] + DeleteRunsFrom(s, p + 1)
    else DeleteRunsFrom(s, RunEnd(s, p))
  }

  /** `re.sub(r'\d+', '', s)`. */
  function DeleteRuns(s: string): (r: string)
    ensures !HasDigit(r)
  {
    DeleteRunsFrom(s, 0)
  }

  /** Removing a prefix of digits does not change what deleting digits leaves. */
  lemma {:induction false} RemoveDigitsSkipsRun(s: string, p: nat, q: nat)
    requires p <= q <= |s|
    requires forall k :: p <= k < q ==> IsDigit(s[k])
    ensures RemoveDigits(s[p..]) == RemoveDigits(s[q..])
    decreases q - p
  {
    if p < q {
      assert s[p..][1..] == s[p + 1..];
      RemoveDigitsSkipsRun(s, p + 1, q);
    }
  }

  /** Skipping whole runs deletes exactly the digit characters. */
  lemma {:induction false} DeleteRunsFromIsRemoveDigits(s: string, p: nat)
    requires p <= |s|
    ensures DeleteRunsFrom(s, p) == RemoveDigits(s[p..])
    decreases |s| - p
  {
    if p < |s| {
      if !IsDigit(s[p]) {
        DeleteRunsFromIsRemoveDigits(s, p + 1);
        assert s[p..][1..] == s[p + 1..];
      } else {
        var e := RunEnd(s, p);
        DeleteRunsFromIsRemoveDigits(s, e);
        RemoveDigitsSkipsRun(s, p, e);
      }
    }
  }

  /** Deleting the matches of `\d+` removes every digit character and only
      those, so the result has no digit and keeps all other characters. */
  lemma DeleteRunsIsRemoveDigits(s: string)
    ensures DeleteRuns(s) == RemoveDigits(s)
    ensures !HasDigit(DeleteRuns(s))
  {
    DeleteRunsFromIsRemoveDigits(s, 0);
    assert s[0..] == s;
  }
}
