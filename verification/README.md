# Prompt parser of the playlist bot

The Telegram bot in `joganocoroa.py` reads a free-text chat message and
creates a Spotify playlist from it. Its handler `gerar_playlist` first
turns the message into a track count (`limit`) and a search phrase
(`user_query`):

- the message is stripped;
- `re.findall(r'\d+', ...)` lists every maximal run of decimal digits, and
  `int` reads each run;
- if there are numbers, the count is the largest one, and the phrase is the
  stripped message after `re.sub(r'\d+', '', ...)`, stripped again;
- otherwise the count is 20 and the phrase is the stripped message.

This project models that parsing block as the pure function
`Prompt.ParsePrompt(text): Request(limit, query)` and proves what it
guarantees. The modules are:

- `Chars` (chars.dfy): the character classes for digits and whitespace.
- `Whitespace` (whitespace.dfy): `str.strip()`.
- `Decimal` (decimal.dfy): `int()` on a digit run and its inverse rendering.
- `Scan` (scan.dfy): `re.findall(r'\d+', s)` as a left-to-right scanner that
  reports match spans, and `re.sub(r'\d+', '', s)` as a scanner that skips
  whole runs. Both are related to the independent definitions "maximal digit
  run" and "delete every digit character".
- `Prompt` (prompt.dfy): `max`, the parser and its properties.
- `Messages` (messages.dfy): the result for whole families of message shapes,
  such as a number then a phrase, a number inside a phrase, or two numbers.
- `Examples` (examples.dfy): concrete messages, including the one the
  welcome text suggests.

Nothing is rejected. An empty or digits-only message still yields a phrase,
possibly empty, which the handler goes on to search with
(joganocoroa.py:59-66). The parser puts no upper bound on the count, and the
count can be 0. Spaces left behind by deleted numbers are not collapsed.
Parsing the resulting phrase again gives the same phrase with the count reset
to 20, because the phrase no longer holds a number.

## Model

| member | source | states |
|---|---|---|
| Whitespace.Strip | joganocoroa.py:54 | `str.strip()`: the result has no leading and no trailing whitespace |
| Whitespace.StripOffset | joganocoroa.py:54 | the stripped text is a contiguous slice of the input, and everything cut from either end is whitespace |
| Whitespace.StripUnique | joganocoroa.py:54 | any trimmed slice that only cuts whitespace from the ends is the stripped text, so strip is fully characterised |
| Whitespace.StripTrimmed | joganocoroa.py:54 | a text with no whitespace at its ends is left unchanged |
| Whitespace.StripIdempotent | joganocoroa.py:54-61 | stripping twice is the same as stripping once |
| Whitespace.StripPadded | joganocoroa.py:54 | whitespace added around a text does not change its stripped form |
| Whitespace.StripKeepsDigits | joganocoroa.py:54-57 | the stripped text holds a digit exactly when the input does |
| Decimal.Value | joganocoroa.py:57 | `int()` of a digit run is a natural number below 10 to the power of the run's length |
| Decimal.Render | joganocoroa.py:57 | the decimal rendering of a number is canonical (no redundant leading zero), and it is "0" exactly for zero |
| Decimal.ValueOfRender | joganocoroa.py:57 | reading back a rendered number gives the number |
| Decimal.RenderOfValue | joganocoroa.py:57 | rendering the value of a canonical digit string gives the string back |
| Decimal.ValueZero | joganocoroa.py:57 | a digit run is worth zero exactly when all its digits are '0' |
| Decimal.LeadingZero | joganocoroa.py:57 | a leading '0' does not change the value of a run |
| Decimal.ValueIgnoresLeadingZeros | joganocoroa.py:57 | any number of leading zeros is ignored: "007" reads as 7 and renders back as "7" |
| Scan.RunEnd | joganocoroa.py:57 | the end of the digit run starting at a position: all digits up to it and no digit at it |
| Scan.SpansFrom | joganocoroa.py:57 | every span the scanner reports is a maximal digit run, the spans are strictly left to right, and none are reported only when no digit is left |
| Scan.SpansFromComplete | joganocoroa.py:57 | the scan from a boundary misses no maximal run after it, and it reports nothing exactly when no digit follows |
| Scan.SpansAreMaximalRuns | joganocoroa.py:57 | the matches of `re.findall(r'\d+')` are exactly the maximal digit runs, in order, and there are none exactly when the text has no digit |
| Scan.Spans | joganocoroa.py:57 | every match position of `re.findall(r'\d+')` is a maximal digit run, and there are no matches only when the text has no digit |
| Scan.Runs | joganocoroa.py:57 | every matched string is a non-empty run of digits, one per span |
| Scan.RunsAreMaximalRunTexts | joganocoroa.py:57 | `re.findall(r'\d+')` returns only texts of maximal digit runs, and the text of every maximal digit run is among the strings it returns |
| Scan.RemoveDigits | joganocoroa.py:61 | deleting every digit character leaves no digit and never lengthens the text |
| Scan.RemoveDigitsKeepsOwnChars | joganocoroa.py:61 | deleting digits introduces no character |
| Scan.RemoveDigitsAppend | joganocoroa.py:61 | deleting digits distributes over concatenation, so the kept characters keep their order |
| Scan.RemoveDigitsOfDigits | joganocoroa.py:61 | deleting digits from a digit string leaves nothing |
| Scan.RemoveDigitsIdentity | joganocoroa.py:61 | deleting digits leaves a text unchanged exactly when it has no digit |
| Scan.DeleteRunsFrom | joganocoroa.py:61 | `re.sub(r'\d+', '', s)` from a position on leaves no digit |
| Scan.DeleteRuns | joganocoroa.py:61 | `re.sub(r'\d+', '', s)` leaves no digit |
| Scan.RemoveDigitsSkipsRun | joganocoroa.py:61 | skipping a block of digits does not change what deleting digits leaves |
| Scan.DeleteRunsFromIsRemoveDigits | joganocoroa.py:61 | skipping whole matches from a position on equals deleting every digit character of the rest |
| Scan.DeleteRunsIsRemoveDigits | joganocoroa.py:61 | `re.sub(r'\d+', '', s)` equals deleting every digit character of `s` |
| Prompt.Max | joganocoroa.py:60 | `max` of a non-empty list is an element of it and at least every element |
| Prompt.Numbers | joganocoroa.py:57 | one number per match, and an empty list only when the text has no digit |
| Prompt.CleanQuery | joganocoroa.py:61 | the phrase after deleting numbers and stripping holds no digit and is trimmed |
| Prompt.ParsePrompt | joganocoroa.py:54-63 | the phrase never holds a digit and never starts or ends with whitespace |
| Prompt.NoDigitsDefaults | joganocoroa.py:54-63 | a message with no digit gives count 20 and the stripped message as the phrase |
| Prompt.RunInsideSlice | joganocoroa.py:54-57 | every maximal digit run of the message lies inside the part that stripping keeps |
| Prompt.RunSurvivesStrip | joganocoroa.py:54-57 | each maximal digit run of the message lies inside its stripped form and is a maximal run there with the same text |
| Prompt.RunOfStripped | joganocoroa.py:54-57 | each maximal digit run of the stripped message is a maximal run of the message with the same text |
| Prompt.RunAtMostMax | joganocoroa.py:57-60 | each maximal digit run of a text is worth at most the `max` of the numbers found in it |
| Prompt.MaxIsSomeRun | joganocoroa.py:57-60 | the `max` of the numbers found is the value of one maximal digit run |
| Prompt.LimitWithDigits | joganocoroa.py:54-60 | with a digit present, numbers are found and the count is their `max` |
| Prompt.RunsOfTextAtMostMax | joganocoroa.py:54-60 | every maximal digit run of the message is worth at most the `max` of the numbers in its stripped form |
| Prompt.MaxIsRunOfText | joganocoroa.py:54-60 | the `max` of the numbers in the stripped form is the value of a maximal digit run of the message |
| Prompt.LimitIsLargestRun | joganocoroa.py:54-60 | with a digit present, the count is at least the value of every maximal digit run of the message and equals the value of one of them |
| Prompt.RemoveDigitsIgnoresPadding | joganocoroa.py:54-61 | deleting digits before or after stripping gives the same phrase once stripped |
| Prompt.QueryWithDigits | joganocoroa.py:54-61 | with a digit present, the phrase is the stripped message with every digit deleted, stripped again |
| Prompt.QueryIsStrippedDigitFree | joganocoroa.py:54-63 | in both branches, the phrase is the message with every digit character deleted, then stripped; other characters keep their order and spacing |
| Prompt.ReparseResetsLimit | joganocoroa.py:54-63 | parsing the phrase again gives the same phrase with the default count 20 |
| Prompt.DigitsOnlyGivesEmptyQuery | joganocoroa.py:57-63 | a message of only digits and whitespace is accepted with an empty phrase, and with count 20 when it holds no digit |
| Messages.LimitFromRuns | joganocoroa.py:57-60 | a number that is one run's value and at least every run's value is the count |
| Messages.OnlyRun | joganocoroa.py:57 | in a digit block between digit-free texts, the block is the only maximal run |
| Messages.RemoveRun | joganocoroa.py:61 | deleting digits removes a digit block from the middle of a text |
| Messages.RemoveOnlyRun | joganocoroa.py:61 | deleting digits from digit-free text around one block leaves that text, joined |
| Messages.OneNumber | joganocoroa.py:54-61 | a message with one number gives that number as the count and the surrounding text, joined and stripped, as the phrase |
| Messages.TwoRuns | joganocoroa.py:57 | two digit blocks separated by non-digit text are the two maximal runs, and the only ones |
| Messages.RemoveTwoRuns | joganocoroa.py:61 | deleting digits from a message with two digit blocks leaves the text around and between them |
| Messages.LargerOfTwoRuns | joganocoroa.py:60 | when a text has exactly two maximal runs, the larger value is at least each run's value and equals one of them |
| Messages.LargerOfTwoNumbers | joganocoroa.py:57-60 | in a message with two numbers, the larger one bounds every run and is a run's value |
| Messages.TwoNumbers | joganocoroa.py:54-61 | a message with two numbers gives the larger as the count, not the first, and the text around and between them as the phrase |
| Messages.StripLeadingSpace | joganocoroa.py:54 | whitespace before a trimmed phrase is removed |
| Messages.NumberThenPhrase | joganocoroa.py:54-61 | "N phrase" gives count N and the phrase, as in the welcome text's example |
| Messages.CountThenPhrase | joganocoroa.py:54-61 | for every number n, the rendering of n, a space and a digit-free trimmed phrase parse back to n and that phrase |
| Messages.NumberAlone | joganocoroa.py:54-61 | a message that is only a number is accepted with that count and an empty phrase |
| Messages.TwoSpacesInside | joganocoroa.py:61 | the two spaces around a deleted inner number both stay |
| Messages.NumberInsidePhrase | joganocoroa.py:54-61 | "u N v" gives count N and "u", two spaces, "v": inner spacing is not collapsed |
| Messages.TwoSpacesThenPhrase | joganocoroa.py:61 | the spaces left before a phrase by two deleted numbers are removed |
| Messages.TwoNumbersThenPhrase | joganocoroa.py:54-61 | "N M phrase" gives the larger of N and M as the count and the phrase |
| Examples.WelcomeExample | joganocoroa.py:54-61 | the welcome text's example "50 músicas de kpop" gives count 50 and phrase "músicas de kpop" |
| Examples.NoNumberExample | joganocoroa.py:54-63 | "  kpop " gives count 20 and phrase "kpop" |
| Examples.SeveralNumbersExample | joganocoroa.py:57-61 | "10 20 rock" gives count 20 and phrase "rock" |
| Examples.InnerSpacesExample | joganocoroa.py:61 | "rock 50 pop" gives count 50 and phrase "rock  pop" |
| Examples.LeadingZerosExample | joganocoroa.py:57-60 | "007 rock" gives count 7 |
| Examples.NumberOnlyExample | joganocoroa.py:57-61 | "15" gives count 15 and an empty phrase |
| Examples.ZeroCountExample | joganocoroa.py:57-60 | "0 rock" gives count 0: the count is not clamped |
| Examples.EmptyExample | joganocoroa.py:54-63 | the empty message gives count 20 and an empty phrase |

## Left out

- Spotify authentication and the interactive token prompt (joganocoroa.py:16-34) are left out. They are a foreign library, console I/O and a token cache.
- `buscar_musicas` and `criar_playlist` (joganocoroa.py:37-45) are left out. They are remote calls whose results the model cannot see. The model stops at the `(limit, user_query)` pair these calls receive.
- The Telegram handlers, replies and `bot.polling()` (joganocoroa.py:48-53, 65-77) are left out. They are transport and event-loop plumbing. The welcome text at line 50 appears only as the example message of `Examples.WelcomeExample`.
- Configuration from environment variables (joganocoroa.py:8-11) is left out.
- The message object is left out. The model takes the message text as a string.
- Chars.IsSpace: Python's `str.strip()` removes every character for which `isspace()` holds. That set includes the ASCII separators U+001C to U+001F and Unicode whitespace such as U+0085 and U+00A0. The model strips only space, tab, line feed, carriage return, vertical tab and form feed, so a message that starts with U+001C keeps it in the phrase.
- Chars.IsDigit: Python's `\d` also matches non-ASCII decimal digits, such as Arabic-Indic digits. The model treats only '0' to '9' as digits.
- Decimal.Value: the model drops the error path of `int()` on very long runs. From CPython 3.11, and in the 2022 security releases of 3.7 to 3.10, `int()` on a string raises `ValueError` for more than 4300 digits (joganocoroa.py:57). Telegram caps text messages at 4096 characters, so the bot never receives such a run.
