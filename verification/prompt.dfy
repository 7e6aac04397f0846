/** The parsing block of the bot's message handler `gerar_playlist`: a chat
    message becomes a requested track count and a search phrase. */
module Prompt {
  import opened Chars
  import opened Whitespace
  import opened Decimal
  import opened Scan

  /** One parsed request: how many tracks to ask for and the search phrase. */
  datatype Request = Request(limit: nat, query: string)

  /** The count used when the message holds no number. */
  const DefaultLimit: nat := 20

  /** Python's `max` over a non-empty list. */
  function Max(xs: seq<nat>): (m: nat)
    requires |xs| > 0
    ensures m in xs
    ensures forall k :: 0 <= k < |xs| ==> xs[k] <= m
  {
    if |xs| == 1 then xs[0]
    else
      var rest := Max(xs[1..]);
      if xs[0] >= rest then xs[0] else rest
  }

  /** `[int(num) for num in re.findall(r'\d+', userQuery)]`: the value of
      every maximal digit run, leftmost first. */
  function Numbers(userQuery: string): (ns: seq<nat>)
    ensures |ns| == |Runs(userQuery)|
    ensures ns == [] ==> !HasDigit(userQuery)
  {
    var runs := Runs(userQuery);
    seq(|runs|, n requires 0 <= n < |runs| => Value(runs[n]))
  }

  /** `re.sub(r'\d+', '', userQuery).strip()`: the phrase with its numbers
      deleted and the whitespace around it removed. */
  function CleanQuery(userQuery: string): (q: string)
    ensures !HasDigit(q)
    ensures Trimmed(q)
  {
    StripKeepsDigits(DeleteRuns(userQuery));
    Strip(DeleteRuns(userQuery))
  }

  /** Strips the message; if it holds numbers, the count is the largest of them
      and the phrase is the message with its numbers deleted, stripped again;
      otherwise the count is the default and the phrase is the stripped
      message. Nothing is rejected and the count is not capped. */
  function ParsePrompt(text: string): (r: Request)
    ensures !HasDigit(r.query)
    ensures Trimmed(r.query)
  {
    var userQuery := Strip(text);
    var numbers := Numbers(userQuery);
    if |numbers| > 0 then Request(Max(numbers), CleanQuery(userQuery))
    else Request(DefaultLimit, userQuery)
  }

  /** A message without digits keeps the default count and is only stripped. */
  lemma NoDigitsDefaults(text: string)
    requires !HasDigit(text)
    ensures ParsePrompt(text) == Request(DefaultLimit, Strip(text))
  {
    StripKeepsDigits(text);
    SpansAreMaximalRuns(Strip(text));
  }

  /** A maximal digit run of a message lies inside the slice that stripping
      keeps: digits are not whitespace. */
  lemma RunInsideSlice(text: string, t: string, a: nat, i: int, j: int)
    requires TrimmedAt(text, t, a) && MaximalRun(text, i, j)
    ensures a <= i && j <= a + |t|
  {
    assert IsDigit(text[i]) && IsDigit(text[j - 1]);
    assert !IsSpace(text[i]) && !IsSpace(text[j - 1]);
  }

  /** A maximal digit run of a message lies inside its stripped form, where it
      is a maximal run too: stripping only removes whitespace. */
  lemma RunSurvivesStrip(text: string, t: string, a: nat, i: int, j: int)
    requires TrimmedAt(text, t, a) && MaximalRun(text, i, j)
    ensures a <= i && j <= a + |t|
    ensures MaximalRun(t, i - a, j - a) && t[i - a..j - a] == text[i..j]
  {
    RunInsideSlice(text, t, a, i, j);
    var u, v := i - a, j - a;
    forall k | u <= k < v
      ensures t[k] == text[a + k] && IsDigit(t[k])
    {
      assert IsDigit(text[a + k]);
    }
    if u > 0 {
      assert t[u - 1] == text[i - 1];
    }
    if v < |t| {
      assert t[v] == text[j];
    }
    forall k | 0 <= k < v - u
      ensures t[u..v][k] == text[i..j][k]
    {
      assert t[u + k] == text[a + u + k];
    }
  }

  /** A maximal digit run of the stripped message is one of the message. */
  lemma RunOfStripped(text: string, t: string, a: nat, i: int, j: int)
    requires TrimmedAt(text, t, a) && MaximalRun(t, i, j)
    ensures MaximalRun(text, i + a, j + a) && t[i..j] == text[i + a..j + a]
  {
    var p, q := i + a, j + a;
    forall k | p <= k < q
      ensures text[k] == t[k - a] && IsDigit(text[k])
    {
      assert IsDigit(t[k - a]);
    }
    if p > 0 {
      if i > 0 {
        assert t[i - 1] == text[p - 1];
      } else {
        assert IsSpace(text[p - 1]);
      }
    }
    if q < |text| {
      if j < |t| {
        assert t[j] == text[q];
      } else {
        assert IsSpace(text[q]);
      }
    }
    forall k | 0 <= k < j - i
      ensures t[i..j][k] == text[p..q][k]
    {
      assert t[i + k] == text[a + i + k];
    }
  }

  /** Within a message, every maximal digit run is worth at most the largest
      number `re.findall` reports. */
  lemma RunAtMostMax(t: string, i: int, j: int, w: string)
    requires MaximalRun(t, i, j) && t[i..j] == w
    ensures |Runs(t)| > 0
    ensures AllDigits(w) && Value(w) <= Max(Numbers(t))
  {
    SpansAreMaximalRuns(t);
    RunsAreSpanTexts(t);
    var spans, runs := Spans(t), Runs(t);
    var n :| 0 <= n < |spans| && spans[n] == Span(i, j);
    assert runs[n] == t[i..j];
    assert Numbers(t)[n] == Value(runs[n]);
  }

  /** Within a message that has digits, the largest number `re.findall`
      reports is the value of one of its maximal digit runs. */
  lemma MaxIsSomeRun(t: string)
    requires HasDigit(t)
    ensures |Runs(t)| > 0
    ensures exists i, j :: MaximalRun(t, i, j) && Value(t[i..j]) == Max(Numbers(t))
  {
    SpansAreMaximalRuns(t);
    RunsAreSpanTexts(t);
    var spans, runs := Spans(t), Runs(t);
    var numbers := Numbers(t);
    var n :| 0 <= n < |numbers| && numbers[n] == Max(numbers);
    assert numbers[n] == Value(runs[n]);
    assert MaximalRun(t, spans[n].start, spans[n].end);
  }

  /** With digits present, the count is the largest number in the stripped
      message. */
  lemma LimitWithDigits(text: string)
    requires HasDigit(text)
    ensures |Runs(Strip(text))| > 0
    ensures ParsePrompt(text).limit == Max(Numbers(Strip(text)))
  {
    StripKeepsDigits(text);
    SpansAreMaximalRuns(Strip(text));
  }

  /** Every maximal digit run of a message is worth at most the largest
      number of its stripped form. */
  lemma RunsOfTextAtMostMax(text: string, t: string, a: nat)
    requires TrimmedAt(text, t, a) && HasDigit(t)
    ensures |Runs(t)| > 0
    ensures forall i, j :: MaximalRun(text, i, j) ==> Value(text[i..j]) <= Max(Numbers(t))
  {
    assert |Numbers(t)| > 0;
    forall i, j | MaximalRun(text, i, j)
      ensures Value(text[i..j]) <= Max(Numbers(t))
    {
      RunSurvivesStrip(text, t, a, i, j);
      RunAtMostMax(t, i - a, j - a, text[i..j]);
    }
  }

  /** The largest number of the stripped form of a message is the value of
      one maximal digit run of the message. */
  lemma MaxIsRunOfText(text: string, t: string, a: nat)
    requires TrimmedAt(text, t, a) && HasDigit(t)
    ensures |Runs(t)| > 0
    ensures exists i, j :: MaximalRun(text, i, j) && Value(text[i..j]) == Max(Numbers(t))
  {
    MaxIsSomeRun(t);
    var i, j :| MaximalRun(t, i, j) && Value(t[i..j]) == Max(Numbers(t));
    RunOfStripped(text, t, a, i, j);
  }

  /** The count is the value of one maximal digit run of the message and at
      least the value of every other one. */
  lemma LimitIsLargestRun(text: string)
    requires HasDigit(text)
    ensures forall i, j :: MaximalRun(text, i, j) ==> Value(text[i..j]) <= ParsePrompt(text).limit
    ensures exists i, j :: MaximalRun(text, i, j) && Value(text[i..j]) == ParsePrompt(text).limit
  {
    var t := Strip(text);
    var a := StripOffset(text);
    StripKeepsDigits(text);
    LimitWithDigits(text);
    RunsOfTextAtMostMax(text, t, a);
    MaxIsRunOfText(text, t, a);
  }

  /** The whitespace that stripping removes contains no digit, so deleting
      digits before or after stripping makes no difference once the result is
      stripped. */
  lemma RemoveDigitsIgnoresPadding(text: string, t: string, a: nat)
    requires TrimmedAt(text, t, a)
    ensures Strip(RemoveDigits(text)) == Strip(RemoveDigits(t))
  {
    var w1, w2 := text[..a], text[a + |t|..];
    assert text == w1 + t + w2;
    RemoveDigitsAppend(w1 + t, w2);
    RemoveDigitsAppend(w1, t);
    RemoveDigitsIdentity(w1);
    RemoveDigitsIdentity(w2);
    StripPadded(w1, RemoveDigits(t), w2);
  }

  /** With digits present, the phrase is the stripped message with its digits
      deleted, stripped again. */
  lemma QueryWithDigits(text: string)
    requires HasDigit(text)
    ensures ParsePrompt(text).query == Strip(RemoveDigits(Strip(text)))
  {
    LimitWithDigits(text);
    DeleteRunsIsRemoveDigits(Strip(text));
  }

  /** The phrase is always the message with every digit character deleted,
      then stripped; characters that remain keep their order and spacing. */
  lemma QueryIsStrippedDigitFree(text: string)
    ensures ParsePrompt(text).query == Strip(RemoveDigits(text))
  {
    var t := Strip(text);
    var a := StripOffset(text);
    RemoveDigitsIgnoresPadding(text, t, a);
    if HasDigit(text) {
      QueryWithDigits(text);
    } else {
      NoDigitsDefaults(text);
      RemoveDigitsIdentity(text);
      StripIdempotent(text);
    }
  }

  /** Parsing the phrase again gives the same phrase but the default count. */
  lemma ReparseResetsLimit(text: string)
    ensures ParsePrompt(ParsePrompt(text).query) == Request(DefaultLimit, ParsePrompt(text).query)
  {
    var q := ParsePrompt(text).query;
    NoDigitsDefaults(q);
    StripTrimmed(q);
  }

  /** A message of digits and whitespace only is not rejected: it yields an
      empty phrase, and the default count if it is empty or blank. */
  lemma DigitsOnlyGivesEmptyQuery(text: string)
    requires forall k :: 0 <= k < |text| ==> IsDigit(text[k]) || IsSpace(text[k])
    ensures ParsePrompt(text).query == []
    ensures !HasDigit(text) ==> ParsePrompt(text).limit == DefaultLimit
  {
    QueryIsStrippedDigitFree(text);
    var rest := RemoveDigits(text);
    RemoveDigitsKeepsOwnChars(text);
    assert forall k :: 0 <= k < |rest| ==> IsSpace(rest[k]) by {
      forall k | 0 <= k < |rest|
        ensures IsSpace(rest[k])
      {
        assert rest[k] in text;
      }
    }
    StripUnique(rest, [], 0);
    if !HasDigit(text) {
      NoDigitsDefaults(text);
    }
  }
}
