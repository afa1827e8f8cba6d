# Array transformations, modelled in Dafny

The repository is a small TypeScript library, `src/arrays.ts`. It holds nine
independent, side-effect-free transformations of arrays of numbers or
strings:

- `bookEndList` keeps the first and last number.
- `tripleNumbers` triples every number.
- `stringsToIntegers` parses strings to numbers, using 0 when parsing fails.
- `removeDollars` does the same after dropping one leading `$`.
- `shoutIfExclaiming` drops questions and upper-cases exclamations.
- `countShortWords` counts the words shorter than four characters.
- `allRGB` checks that every colour is `red`, `green` or `blue`.
- `makeMath` renders an equation such as `6=1+2+3`.
- `injectPositive` inserts the total of the numbers before the first
  negative right after it. When there is no negative, it appends the total.

None of them changes its argument or has internal state, so each one is a
Dafny function. The model has four modules:

- `JsArray` (`js_array.dfy`) holds the array combinators the source is built
  from: `map`, `filter`, `some` and `findIndex`. Each has a contract that
  says what it returns. `Filter` also has a lemma showing its result is
  exactly the in-order subsequence of the kept elements.
- `JsText` (`js_text.dfy`) holds the string conversions:
  - `Number(string)` becomes `ParseNumber`, a decimal-integer parser that
    returns `Option<int>`.
  - `number.toString()` becomes `IntToString`.
  - `toUpperCase` becomes `ToUpper`, which works on ASCII letters.
  - `Join` and `Split` on a separator character state what `makeMath`'s
    output means.
- `Arrays` (`arrays.dfy`) holds the nine transformations, the left-fold
  `Sum` used by `makeMath` and `injectPositive`, and the properties of each
  transformation.
- `ArraysExamples` (`arrays_examples.dfy`) holds worked examples for each
  transformation, including those of the doc comments and the boundary
  cases they describe.

Every transformation is paired with something independent of its body:

- a round trip: integers rendered and parsed back, and `makeMath`'s equation
  decoded back into its total and its addends;
- an inverse: removing the number `injectPositive` inserted gives back the
  input;
- idempotence, for `shoutIfExclaiming` and `bookEndList`;
- behaviour under concatenation;
- a count stated as the size of a set of positions.

Numbers are modelled as mathematical integers.

String lengths follow JavaScript: `word.length` in `countShortWords` is
the number of UTF-16 code units (`Utf16Length`), so a character outside the
Basic Multilingual Plane counts as two. `shoutIfExclaiming` reads the last
UTF-16 code unit; the model reads the last character, which gives the same
answer, since a trailing surrogate is never '?' or '!'.

Where the documentation and the code differ, the model follows the code
within the decimal-integer grammar listed under "## Left out".
For example, `stringsToIntegers` and `removeDollars` call JavaScript's
`Number`, which also accepts a leading `+` sign. The model's parser accepts
it too.

## Model

| member | source | states |
|---|---|---|
| `JsArray.Map` | src/arrays.ts:21 | `map` keeps the length, and output `i` is `f` applied to input `i` |
| `JsArray.MapConcat` | src/arrays.ts:60-62 | mapping a concatenation maps each part |
| `JsArray.Filter` | src/arrays.ts:57-59 | `filter` never lengthens, every survivor passes the test, and when everything passes the input comes back unchanged |
| `JsArray.FilterSelects` | src/arrays.ts:57-59 | the filter result is exactly the input's kept elements: same count as the kept positions, `k`-th survivor = element at the `k`-th kept position, positions strictly increasing, and a position is kept iff its element passes |
| `JsArray.FilterSnoc` | src/arrays.ts:70-72 | filtering a list with one more element at the end adds that element exactly when it passes |
| `JsArray.FilterCountsKept` | src/arrays.ts:70-73 | the length of the filter result equals the number of positions whose element passes |
| `JsArray.FilterConcat` | src/arrays.ts:57-59 | filtering a concatenation filters each part |
| `JsArray.Any` | src/arrays.ts:85-88 | `some` is true iff some position's element passes the test |
| `JsArray.FindIndex` | src/arrays.ts:134-136 | `findIndex` is -1 iff no element passes; otherwise its element passes and none before it does |
| `JsText.DigitValue` | src/arrays.ts:31 | a digit character's value is at most 9 |
| `JsText.DigitChar` | src/arrays.ts:109 | the character for a digit value is a digit whose value is that digit |
| `JsText.NatToString` | src/arrays.ts:109 | the decimal form of a natural number is a non-empty run of digits without leading zeros |
| `JsText.NumeralRoundTrip` | src/arrays.ts:109 | reading back the decimal form of a natural number gives the number |
| `JsText.IntToString` | src/arrays.ts:114 | `toString` of an integer is non-empty, consists of digits and '-', and starts with '-' iff the number is negative |
| `JsText.ParseNumber` | src/arrays.ts:31 | `Number(s)` succeeds exactly on a non-empty string of digits, optionally after one leading '+' or '-'; a run of digits (leading zeros allowed, as in "007") gives its decimal value, and a sign in front negates it or keeps it |
| `JsText.ParseIntToString` | src/arrays.ts:117 | parsing the `toString` form of any integer gives that integer back |
| `JsText.Utf16Length` | src/arrays.ts:71 | `word.length` counts UTF-16 code units: at least the number of characters and at most twice it, and exactly it when no character lies outside the Basic Multilingual Plane |
| `JsText.ToUpper` | src/arrays.ts:61 | `toUpperCase` keeps the length, leaves no lower-case letter, keeps every other character and shifts each lower-case letter to its capital |
| `JsText.ToUpperKeepsCapitals` | src/arrays.ts:61 | text without lower-case letters is unchanged by upper-casing |
| `JsText.ToUpperIdempotent` | src/arrays.ts:61 | upper-casing twice is upper-casing once |
| `JsText.JoinSnoc` | src/arrays.ts:112-116 | joining one more part adds the separator and the part at the end |
| `JsText.SplitPrefix` | src/arrays.ts:113-114 | a separator-free prefix is glued to the first piece when splitting |
| `JsText.SplitJoin` | src/arrays.ts:108-116 | splitting a join gives back the parts when none contains the separator |
| `Arrays.Sum` | src/arrays.ts:103-106 | the `reduce` total of numbers that are all non-negative is non-negative |
| `Arrays.SumConcat` | src/arrays.ts:137-139 | the total of a concatenation is the sum of the totals |
| `Arrays.BookEndList` | src/arrays.ts:7-14 | empty input gives nothing; otherwise two numbers, the first and the last of the input |
| `Arrays.BookEndListSingleton` | src/arrays.ts:4-5 | a one-element list gives its element twice |
| `Arrays.BookEndListIdempotent` | src/arrays.ts:7-14 | the book ends of the book ends are the book ends |
| `Arrays.BookEndListConcat` | src/arrays.ts:11 | the book ends of any concatenation depend only on the book ends of the parts |
| `Arrays.TripleNumbers` | src/arrays.ts:20-23 | same length, each output is three times the input at that position |
| `Arrays.TripleNumbersSum` | src/arrays.ts:21 | the total of the tripled list is three times the original total |
| `Arrays.StringsToIntegers` | src/arrays.ts:29-33 | same length; a string that parses gives its number, one that does not gives 0 |
| `Arrays.StringsToIntegersRoundTrip` | src/arrays.ts:30-32 | integers rendered with `toString` convert back to themselves |
| `Arrays.RemoveDollars` | src/arrays.ts:42-49 | same length; an amount starting with '$' reads the text after exactly one '$' (0 if that fails); any other amount reads as `stringsToIntegers` reads it |
| `Arrays.RemoveDollarsRoundTrip` | src/arrays.ts:43-47 | integers written with or without a leading '$' read back as themselves |
| `Arrays.Shout` | src/arrays.ts:61 | a message ends in '!' (or '?') iff its shouted form does |
| `Arrays.ShoutIfExclaiming` | src/arrays.ts:56-63 | never longer than the input, no result ends in '?', and a result ending in '!' has no lower-case letter |
| `Arrays.ShoutIfExclaimingSelects` | src/arrays.ts:56-63 | the result corresponds, in order, to the input messages not ending in '?'; those ending in '!' are upper-cased and the others (the empty string included) are unchanged |
| `Arrays.ShoutIfExclaimingConcat` | src/arrays.ts:57-62 | shouting a concatenation shouts each part |
| `Arrays.ShoutIfExclaimingIdempotent` | src/arrays.ts:56-63 | shouting an already shouted list changes nothing |
| `Arrays.CountShortWords` | src/arrays.ts:69-74 | the count is at most the number of words and equals the number of positions holding a word shorter than 4 UTF-16 code units |
| `Arrays.CountShortWordsConcat` | src/arrays.ts:70-73 | the count of a concatenation is the sum of the counts |
| `Arrays.AllRGB` | src/arrays.ts:81-90 | true iff every colour is exactly "red", "green" or "blue" (so true for the empty list) |
| `Arrays.AllRGBConcat` | src/arrays.ts:85-89 | a concatenation is all RGB iff both parts are |
| `Arrays.PlusTerms` | src/arrays.ts:110-116 | the fold over the remaining addends writes a '+' and at least one character per addend, starts with '+' when there is an addend, and never writes '=' |
| `Arrays.Summation` | src/arrays.ts:108-116 | the right-hand side starts with the first addend's decimal form and contains no '=' |
| `Arrays.MakeMath` | src/arrays.ts:99-118 | no addends give "0=0"; otherwise the total's decimal form, '=', and the addends' decimal forms joined by '+' in order |
| `Arrays.SummationSnoc` | src/arrays.ts:112-115 | one more addend adds "+" and its decimal form at the end of the right-hand side |
| `Arrays.SummationIsJoin` | src/arrays.ts:108-116 | the left fold that builds the right-hand side equals the addends' decimal forms joined by '+' |
| `Arrays.IntToStringHasNoOperators` | src/arrays.ts:109 | a decimal form contains neither '+' nor '=' |
| `Arrays.MakeMathDecodes` | src/arrays.ts:99-118 | for non-empty input, the text before the first '=' parses to the total; the rest splits at '+' into exactly one piece per addend, and each piece parses (not falls back) to its addend |
| `Arrays.MakeMathEmpty` | src/arrays.ts:100-102 | the empty list is written as the equation of the single addend 0 |
| `Arrays.InjectPositive` | src/arrays.ts:129-152 | one longer than the input; after the first negative at `i` the total of `values[..i]` is inserted and everything else stays in place; with no negative the total is appended |
| `Arrays.LeadingNonNegatives` | src/arrays.ts:134-138 | the longest negative-free prefix: a prefix of the input, all non-negative, followed by a negative when shorter than the input |
| `Arrays.InjectPositiveInserted` | src/arrays.ts:121-124 | exactly one number is inserted, right after the first negative or at the end; it is the total of the numbers before the first negative, is never negative, and removing it gives back the input |
| `Arrays.SpliceAfterNegative` | src/arrays.ts:133-144 | when the longest negative-free prefix is shorter than the input, the result is the input up to and including the first negative, then the total of the numbers before it, then the rest of the input |
| `Arrays.SpliceAtEnd` | src/arrays.ts:145-151 | when the longest negative-free prefix is the whole input, the result is the input followed by its total |
| `Arrays.InjectPositiveAfterNegative` | src/arrays.ts:137-144 | with the first negative at `p`, the number at `p + 1` is the total before `p`, and removing it gives back the input |
| `Arrays.InjectPositiveAtEnd` | src/arrays.ts:145-151 | with no negative, the input is followed by its total |
| `ArraysExamples.BookEndListExamples` | src/arrays.ts:1-14 | `[]` gives `[]`, `[5]` gives `[5,5]`, `[1,2,3]` gives `[1,3]` |
| `ArraysExamples.TripleNumbersExamples` | src/arrays.ts:16-23 | `[1,2,3]` gives `[3,6,9]`, `[]` gives `[]` |
| `ArraysExamples.StringsToIntegersExamples` | src/arrays.ts:25-33 | `["1","x","3"]` gives `[1,0,3]` |
| `ArraysExamples.RemoveDollarsExamples` | src/arrays.ts:35-49 | `["$5","$x","10"]` gives `[5,0,10]`; `"$$5"` gives 0 because only one '$' is removed |
| `ArraysExamples.ShoutOne` | src/arrays.ts:56-63 | a one-message list keeps its message, shouted, unless the message ends in '?' |
| `ArraysExamples.ShoutExclamation` | src/arrays.ts:57-62 | `["hi!"]` gives `["HI!"]` |
| `ArraysExamples.ShoutQuestion` | src/arrays.ts:57-59 | `["what?"]` gives `[]` |
| `ArraysExamples.ShoutPlain` | src/arrays.ts:57-62 | `["ok"]` is unchanged |
| `ArraysExamples.ShoutEmpty` | src/arrays.ts:57-62 | `[""]` is unchanged, since the empty string ends in neither '?' nor '!' |
| `ArraysExamples.ShoutIfExclaimingSingletons` | src/arrays.ts:56-63 | `["hi!"]` gives `["HI!"]`, `["what?"]` gives `[]`, `["ok"]` and `[""]` are unchanged |
| `ArraysExamples.ShoutThree` | src/arrays.ts:57-62 | a three-message list is shouted message by message |
| `ArraysExamples.ShoutIfExclaimingExamples` | src/arrays.ts:51-63 | `["hi!","what?","ok"]` gives `["HI!","ok"]`; the empty string is kept |
| `ArraysExamples.CountShortWordsExamples` | src/arrays.ts:65-74 | `["a","bb","ccc","dddd"]` gives 3 |
| `ArraysExamples.CountShortWordsAstralExample` | src/arrays.ts:71 | a word of two emoji is four UTF-16 code units long, so it is not short |
| `ArraysExamples.AllRGBExamples` | src/arrays.ts:76-90 | `[]` and `["red","blue"]` are all RGB, `["red","pink"]` is not |
| `ArraysExamples.JoinedDigitsExample` | src/arrays.ts:108-116 | the decimal forms of 1, 2 and 3 joined with '+' read "1+2+3" |
| `ArraysExamples.MakeMathExamples` | src/arrays.ts:92-118 | `[]` gives `"0=0"`, `[1,2,3]` gives `"6=1+2+3"` |
| `ArraysExamples.InjectPositiveNegativeExample` | src/arrays.ts:126 | `[1,9,-5,7]` gives `[1,9,-5,10,7]` |
| `ArraysExamples.InjectPositiveExamples` | src/arrays.ts:120-152 | `[1,9,-5,7]` gives `[1,9,-5,10,7]`, `[1,9,7]` gives `[1,9,7,17]`, `[]` gives `[0]` |

## Left out

- JavaScript `number` is an IEEE-754 double. The model uses unbounded
  integers, so it has no fractions, no rounding, no overflow to `Infinity`
  and no `NaN` arithmetic.
- `Arrays.StringsToIntegers`, `Arrays.RemoveDollars` and `JsText.ParseNumber`
  do not model the full grammar of JavaScript's `Number(string)`. They
  reject whitespace padding, hexadecimal, octal and binary prefixes,
  exponents, fractions and `"Infinity"`. In the source, a string such as
  `"1.5"` or `" 7 "` yields a non-zero number; in the model it yields 0. The
  empty string gives 0 in both: JavaScript reads it as 0, and the model
  falls back to 0.
- `JsText.ToUpper` upper-cases only the ASCII letters a–z. Locale- and
  Unicode-aware case mapping is not modelled: some characters change
  length when upper-cased, and the model does not capture that.
- `JsText.IntToString` covers only integers. The float formatting of
  `Number.prototype.toString` (exponent notation, fractions, `-0`) is not
  modelled.
- Non-mutation of the argument and determinism need no statement. Dafny
  sequences are values and Dafny functions are deterministic.
