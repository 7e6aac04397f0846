/** Worked messages: the welcome text's own example and the corner cases of
    the parser, each derived from the message shapes of module `Messages`. */
module Examples {
  import opened Chars
  import opened Whitespace
  import opened Decimal
  import opened Prompt
  import opened Messages

  /** The example the bot's welcome message gives: a count of 50 and the
      phrase "músicas de kpop". */
  lemma WelcomeExample()
    ensures ParsePrompt("50 músicas de kpop") == Request(50, "músicas de kpop")
  {
    var message := "50 músicas de kpop";
    var d, q := "50", "músicas de kpop";
    assert message == d + Space + q;
    assert AllDigits(d) && Value(d) == 50;
    assert !IsDigit(q[0]) && !IsDigit(q[1]);
    assert !HasDigit(q) && Trimmed(q);
    NumberThenPhrase(d, q);
  }

  /** No number: the default count, and the whitespace around the phrase is
      removed. */
  lemma NoNumberExample()
    ensures ParsePrompt("  kpop ") == Request(20, "kpop")
  {
    var message := "  kpop ";
    var w1, q, w2 := "  ", "kpop", " ";
    assert message == w1 + q + w2;
    assert AllSpace(w1) && AllSpace(w2) && Trimmed(q);
    assert !HasDigit(message);
    NoDigitsDefaults(message);
    StripPadded(w1, q, w2);
    StripTrimmed(q);
  }

  /** Several numbers: the largest is the count, not the first, and every
      number is deleted from the phrase. */
  lemma SeveralNumbersExample()
    ensures ParsePrompt("10 20 rock") == Request(20, "rock")
  {
    var message := "10 20 rock";
    var d1, d2, q := "10", "20", "rock";
    assert message == d1 + Space + d2 + Space + q;
    assert AllDigits(d1) && Value(d1) == 10;
    assert AllDigits(d2) && Value(d2) == 20;
    assert !HasDigit(q) && Trimmed(q);
    TwoNumbersThenPhrase(d1, d2, q);
  }

  /** A number inside the phrase: it is deleted and the two spaces around it
      both stay. */
  lemma InnerSpacesExample()
    ensures ParsePrompt("rock 50 pop") == Request(50, "rock  pop")
  {
    var message := "rock 50 pop";
    var u, d, v := "rock", "50", "pop";
    assert message == u + Space + d + Space + v;
    assert AllDigits(d) && Value(d) == 50;
    assert !HasDigit(u) && Trimmed(u);
    assert !HasDigit(v) && Trimmed(v);
    assert u + Space + Space + v == "rock  pop";
    NumberInsidePhrase(u, d, v);
  }

  /** Leading zeros do not change the count. */
  lemma LeadingZerosExample()
    ensures ParsePrompt("007 rock") == Request(7, "rock")
  {
    var message := "007 rock";
    var d, q := "007", "rock";
    assert message == d + Space + q;
    assert AllDigits(d) && Value(d) == 7;
    assert !HasDigit(q) && Trimmed(q);
    NumberThenPhrase(d, q);
  }

  /** A number alone is accepted, with an empty phrase. */
  lemma NumberOnlyExample()
    ensures ParsePrompt("15") == Request(15, "")
  {
    var message := "15";
    assert AllDigits(message) && Value(message) == 15;
    NumberAlone(message);
  }

  /** A count of zero is accepted as it is. */
  lemma ZeroCountExample()
    ensures ParsePrompt("0 rock") == Request(0, "rock")
  {
    var message := "0 rock";
    var d, q := "0", "rock";
    assert message == d + Space + q;
    assert AllDigits(d) && Value(d) == 0;
    assert !HasDigit(q) && Trimmed(q);
    NumberThenPhrase(d, q);
  }

  /** The empty message is accepted: default count, empty phrase. */
  lemma EmptyExample()
    ensures ParsePrompt("") == Request(20, "")
  {
    var message := "";
    NoDigitsDefaults(message);
    StripTrimmed(message);
  }
}
