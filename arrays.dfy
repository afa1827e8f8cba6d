/** The nine transformations of `src/arrays.ts`. Each takes a sequence of
    numbers or strings and returns a new value; the argument is never
    changed, so every one is a function. JavaScript numbers are read as
    unbounded integers. */
module Arrays {
  import opened JsArray
  import opened JsText

  /** `values.reduce((total, n) => total + n, 0)`: the running total,
      folded from the left. */
  function Sum(values: seq<int>): (total: int)
    ensures (forall i :: 0 <= i < |values| ==> values[i] >= 0) ==> total >= 0
  {
    if values == [] then 0 else Sum(values[..|values| - 1]) + values[|values| - 1]
  }

  lemma {:induction false} SumConcat(a: seq<int>, b: seq<int>)
    ensures Sum(a + b) == Sum(a) + Sum(b)
    decreases |b|
  {
    if b == [] {
      assert a + b == a;
    } else {
      var n := |b| - 1;
      SumConcat(a, b[..n]);
      assert (a + b)[..|a + b| - 1] == a + b[..n];
    }
  }

  // ---------------------------------------------------------------------
  // bookEndList

  /** The first and the last number; nothing for an empty list, and the
      only number twice for a one-element list. */
  function BookEndList(numbers: seq<int>): (ends: seq<int>)
    ensures |ends| == if numbers == [] then 0 else 2
    ensures numbers != [] ==> ends[0] == numbers[0] && ends[1] == numbers[|numbers| - 1]
  {
    if |numbers| == 0 then [] else [numbers[0], numbers[|numbers| - 1]]
  }

  lemma BookEndListSingleton(x: int)
    ensures BookEndList([x]) == [x, x]
  {
  }

  /** The book ends of a list are their own book ends. */
  lemma BookEndListIdempotent(numbers: seq<int>)
    ensures BookEndList(BookEndList(numbers)) == BookEndList(numbers)
  {
  }

  /** The book ends of a concatenation depend only on the book ends of
      its two parts. */
  lemma BookEndListConcat(a: seq<int>, b: seq<int>)
    ensures BookEndList(a + b) == BookEndList(BookEndList(a) + BookEndList(b))
  {
  }

  // ---------------------------------------------------------------------
  // tripleNumbers

  function TripleNumbers(numbers: seq<int>): (tripled: seq<int>)
    ensures |tripled| == |numbers|
    ensures forall i :: 0 <= i < |numbers| ==> tripled[i] == 3 * numbers[i]
  {
    Map((n: int) => n * 3, numbers)
  }

  /** Tripling every number triples the total. */
  lemma {:induction false} TripleNumbersSum(numbers: seq<int>)
    ensures Sum(TripleNumbers(numbers)) == 3 * Sum(numbers)
    decreases |numbers|
  {
    if numbers != [] {
      var n := |numbers| - 1;
      TripleNumbersSum(numbers[..n]);
      assert TripleNumbers(numbers)[..n] == TripleNumbers(numbers[..n]);
    }
  }

  // ---------------------------------------------------------------------
  // stringsToIntegers and removeDollars

  /** `isNaN(Number(s)) ? 0 : Number(s)`. */
  function NumberOrZero(s: string): int
  {
    match ParseNumber(s)
    case Some(n) => n
    case None => 0
  }

  function StringsToIntegers(strings: seq<string>): (numbers: seq<int>)
    ensures |numbers| == |strings|
    ensures forall i :: 0 <= i < |strings| && ParseNumber(strings[i]).Some? ==>
      numbers[i] == ParseNumber(strings[i]).value
    ensures forall i :: 0 <= i < |strings| && ParseNumber(strings[i]).None? ==> numbers[i] == 0
  {
    Map(NumberOrZero, strings)
  }

  /** Rendering numbers as strings and converting them back gives the
      numbers again. */
  lemma StringsToIntegersRoundTrip(values: seq<int>)
    ensures StringsToIntegers(Map(IntToString, values)) == values
  {
    forall i | 0 <= i < |values|
      ensures StringsToIntegers(Map(IntToString, values))[i] == values[i]
    {
      ParseIntToString(values[i]);
    }
  }

  predicate StartsWithDollar(s: string)
  {
    |s| > 0 && s[0] == '$'
  }

  /** One amount of `removeDollars`: the four-way conditional of the
      source, reading the text after a leading '$' when there is one. */
  function DollarAmount(s: string): int
  {
    if StartsWithDollar(s) && ParseNumber(s[1..]).None? then 0
    else if StartsWithDollar(s) then ParseNumber(s[1..]).value
    else if ParseNumber(s).None? then 0
    else ParseNumber(s).value
  }

  function RemoveDollars(amounts: seq<string>): (numbers: seq<int>)
    ensures |numbers| == |amounts|
    ensures forall i :: 0 <= i < |amounts| && StartsWithDollar(amounts[i]) ==>
      numbers[i] == NumberOrZero(amounts[i][1..])
    ensures forall i :: 0 <= i < |amounts| && !StartsWithDollar(amounts[i]) ==>
      numbers[i] == StringsToIntegers(amounts)[i]
  {
    Map(DollarAmount, amounts)
  }

  function DollarString(n: int): string
  {
    "$" + IntToString(n)
  }

  /** Amounts written with or without a leading '$' both read back as the
      numbers they were written from. */
  lemma RemoveDollarsRoundTrip(values: seq<int>)
    ensures RemoveDollars(Map(DollarString, values)) == values
    ensures RemoveDollars(Map(IntToString, values)) == values
  {
    forall i | 0 <= i < |values|
      ensures RemoveDollars(Map(DollarString, values))[i] == values[i]
      ensures RemoveDollars(Map(IntToString, values))[i] == values[i]
    {
      ParseIntToString(values[i]);
      assert DollarString(values[i])[1..] == IntToString(values[i]);
    }
  }

  // ---------------------------------------------------------------------
  // shoutIfExclaiming

  function NotQuestion(message: string): bool
  {
    !EndsWith(message, '?')
  }

  /** One survivor of `shoutIfExclaiming`: upper-cased when it ends in '!'.
      Upper-casing keeps a final '!' or '?', so the shouted form ends in
      either exactly when the message does. */
  function Shout(message: string): (shouted: string)
    ensures EndsWith(shouted, '!') <==> EndsWith(message, '!')
    ensures EndsWith(shouted, '?') <==> EndsWith(message, '?')
  {
    if EndsWith(message, '!') then ToUpper(message) else message
  }

  function ShoutIfExclaiming(messages: seq<string>): (shouted: seq<string>)
    ensures |shouted| <= |messages|
    ensures forall i :: 0 <= i < |shouted| ==> !EndsWith(shouted[i], '?')
    ensures forall i :: 0 <= i < |shouted| && EndsWith(shouted[i], '!') ==>
      forall j :: 0 <= j < |shouted[i]| ==> !IsLower(shouted[i][j])
  {
    Map(Shout, Filter(NotQuestion, messages))
  }

  /** The result is the questions-free subsequence of the input, in the
      input's order, with each exclamation upper-cased and every other
      survivor (the empty string included) unchanged. */
  lemma ShoutIfExclaimingSelects(messages: seq<string>)
    ensures var idx, shouted := KeptIndices(NotQuestion, messages), ShoutIfExclaiming(messages);
      && |idx| == |shouted|
      && (forall k :: 0 <= k < |idx| ==> idx[k] < |messages|)
      && (forall k :: 0 <= k < |idx| && EndsWith(messages[idx[k]], '!') ==>
            shouted[k] == ToUpper(messages[idx[k]]))
      && (forall k :: 0 <= k < |idx| && !EndsWith(messages[idx[k]], '!') ==>
            shouted[k] == messages[idx[k]])
      && (forall k, l :: 0 <= k < l < |idx| ==> idx[k] < idx[l])
      && (forall i :: 0 <= i < |messages| ==> (!EndsWith(messages[i], '?') <==> i in idx))
  {
    FilterSelects(NotQuestion, messages);
  }

  /** Shouting distributes over concatenation. */
  lemma ShoutIfExclaimingConcat(a: seq<string>, b: seq<string>)
    ensures ShoutIfExclaiming(a + b) == ShoutIfExclaiming(a) + ShoutIfExclaiming(b)
  {
    FilterConcat(NotQuestion, a, b);
    MapConcat(Shout, Filter(NotQuestion, a), Filter(NotQuestion, b));
  }

  /** Shouting an already shouted list changes nothing. */
  lemma ShoutIfExclaimingIdempotent(messages: seq<string>)
    ensures ShoutIfExclaiming(ShoutIfExclaiming(messages)) == ShoutIfExclaiming(messages)
  {
    var once := ShoutIfExclaiming(messages);
    assert forall i :: 0 <= i < |once| ==> NotQuestion(once[i]);
    assert Filter(NotQuestion, once) == once;
    forall i | 0 <= i < |once| ensures Shout(once[i]) == once[i] {
      if EndsWith(once[i], '!') {
        ToUpperKeepsCapitals(once[i]);
      }
    }
    assert Map(Shout, once) == once;
  }

  // ---------------------------------------------------------------------
  // countShortWords

  /** `word.length < 4`, with the length in UTF-16 code units. */
  function IsShortWord(word: string): bool
  {
    Utf16Length(word) < 4
  }

  /** The positions of the words shorter than four UTF-16 code units. */
  function ShortWordPositions(words: seq<string>): set<int>
  {
    set i | 0 <= i < |words| && Utf16Length(words[i]) < 4
  }

  function CountShortWords(words: seq<string>): (count: nat)
    ensures count <= |words|
    ensures count == |ShortWordPositions(words)|
  {
    FilterCountsKept(IsShortWord, words);
    assert KeptPositions(IsShortWord, words) == ShortWordPositions(words);
    |Filter(IsShortWord, words)|
  }

  /** The count of a concatenation is the sum of the counts. */
  lemma CountShortWordsConcat(a: seq<string>, b: seq<string>)
    ensures CountShortWords(a + b) == CountShortWords(a) + CountShortWords(b)
  {
    FilterConcat(IsShortWord, a, b);
  }

  // ---------------------------------------------------------------------
  // allRGB

  predicate IsRGB(color: string)
  {
    color == "red" || color == "green" || color == "blue"
  }

  function AllRGB(colors: seq<string>): (all: bool)
    ensures all <==> forall i :: 0 <= i < |colors| ==> IsRGB(colors[i])
  {
    if |colors| == 0 then true
    else !Any((color: string) => color != "red" && color != "green" && color != "blue", colors)
  }

  lemma AllRGBConcat(a: seq<string>, b: seq<string>)
    ensures AllRGB(a + b) <==> AllRGB(a) && AllRGB(b)
  {
    assert forall i :: 0 <= i < |a| ==> (a + b)[i] == a[i];
    assert forall i :: 0 <= i < |b| ==> (a + b)[|a| + i] == b[i];
  }

  // ---------------------------------------------------------------------
  // makeMath

  /** `rest.reduce((text, n) => text + "+" + n.toString(), "")`: a '+'
      and at least one character for every number, and never an '='. */
  function PlusTerms(rest: seq<int>): (text: string)
    ensures |text| >= 2 * |rest|
    ensures rest != [] ==> text[0] == '+'
    ensures '=' !in text
  {
    if rest == [] then "" else PlusTerms(rest[..|rest| - 1]) + "+" + IntToString(rest[|rest| - 1])
  }

  /** The right-hand side of the equation: the first addend, then "+" and
      each further addend. */
  function Summation(addends: seq<int>): (text: string)
    requires |addends| > 0
    ensures |IntToString(addends[0])| <= |text| && text[..|IntToString(addends[0])|] == IntToString(addends[0])
    ensures '=' !in text
  {
    IntToString(addends[0]) + PlusTerms(addends[1..])
  }

  /** `makeMath`: "0=0" for no addends, otherwise the total, '=', and the
      addends' decimal forms joined with '+'. */
  function MakeMath(addends: seq<int>): (equation: string)
    ensures addends == [] ==> equation == "0=0"
    ensures addends != [] ==>
      equation == IntToString(Sum(addends)) + "=" + Join('+', Map(IntToString, addends))
  {
    if |addends| == 0 then "0=0"
    else
      SummationIsJoin(addends);
      IntToString(Sum(addends)) + "=" + Summation(addends)
  }

  /** Appending an addend appends "+" and its decimal form. */
  lemma SummationSnoc(init: seq<int>, x: int)
    requires |init| > 0
    ensures Summation(init + [x]) == Summation(init) + "+" + IntToString(x)
  {
    var addends := init + [x];
    var rest := addends[1..];
    assert rest == init[1..] + [x];
    assert rest[..|rest| - 1] == init[1..];
  }

  /** The summation is the addends' decimal forms joined with "+". */
  lemma {:induction false} SummationIsJoin(addends: seq<int>)
    requires |addends| > 0
    ensures Summation(addends) == Join('+', Map(IntToString, addends))
    decreases |addends|
  {
    if |addends| > 1 {
      var n := |addends| - 1;
      var init, last := addends[..n], IntToString(addends[n]);
      assert addends == init + [addends[n]];
      SummationIsJoin(init);
      SummationSnoc(init, addends[n]);
      MapConcat(IntToString, init, [addends[n]]);
      assert Map(IntToString, [addends[n]]) == [last];
      JoinSnoc('+', Map(IntToString, init), last);
      assert "+" == ['+'];
    } else {
      assert addends[1..] == [];
    }
  }

  /** A decimal form holds no '+' and no '='. */
  lemma IntToStringHasNoOperators(n: int)
    ensures '+' !in IntToString(n) && '=' !in IntToString(n)
  {
  }

  /** The equation can be read back: the text before its first '=' is the
      total, and the pieces of the rest between '+' signs, converted to
      numbers, are the addends in order. */
  lemma MakeMathDecodes(addends: seq<int>)
    requires |addends| > 0
    ensures var equation, k := MakeMath(addends), |IntToString(Sum(addends))|;
      && k < |equation| && equation[k] == '=' && '=' !in equation[..k]
      && ParseNumber(equation[..k]) == Some(Sum(addends))
      && |Split(equation[k + 1..], '+')| == |addends|
      && (forall i :: 0 <= i < |addends| ==> ParseNumber(Split(equation[k + 1..], '+')[i]) == Some(addends[i]))
      && StringsToIntegers(Split(equation[k + 1..], '+')) == addends
  {
    var total := IntToString(Sum(addends));
    var equation, k := MakeMath(addends), |total|;
    assert equation[..k] == total;
    assert equation[k + 1..] == Summation(addends);
    IntToStringHasNoOperators(Sum(addends));
    ParseIntToString(Sum(addends));
    SummationIsJoin(addends);
    var parts := Map(IntToString, addends);
    forall i | 0 <= i < |parts| ensures '+' !in parts[i] {
      IntToStringHasNoOperators(addends[i]);
    }
    SplitJoin('+', parts);
    forall i | 0 <= i < |addends| ensures ParseNumber(parts[i]) == Some(addends[i]) {
      ParseIntToString(addends[i]);
    }
    StringsToIntegersRoundTrip(addends);
  }

  /** The empty list is written as the equation of the single addend 0. */
  lemma MakeMathEmpty()
    ensures MakeMath([]) == MakeMath([0])
  {
    assert Sum([0]) == 0;
    assert Summation([0]) == "0";
  }

  // ---------------------------------------------------------------------
  // injectPositive

  function IsNegative(n: int): bool
  {
    n < 0
  }

  function InjectPositive(values: seq<int>): (injected: seq<int>)
    ensures |injected| == |values| + 1
    ensures forall i :: 0 <= i < |values| && values[i] < 0 && (forall j :: 0 <= j < i ==> values[j] >= 0) ==>
      injected == values[..i + 1] + [Sum(values[..i])] + values[i + 1..]
    ensures (forall i :: 0 <= i < |values| ==> values[i] >= 0) ==> injected == values + [Sum(values)]
  {
    if Any(IsNegative, values) then
      var first := FindIndex(IsNegative, values);
      values[..first + 1] + [Sum(values[..first])] + values[first + 1..]
    else
      values + [Sum(values)]
  }

  /** The longest prefix of `values` without a negative number. */
  function LeadingNonNegatives(values: seq<int>): (prefix: seq<int>)
    ensures |prefix| <= |values| && prefix == values[..|prefix|]
    ensures forall i :: 0 <= i < |prefix| ==> prefix[i] >= 0
    ensures |prefix| < |values| ==> values[|prefix|] < 0
  {
    if values == [] || values[0] < 0 then [] else [values[0]] + LeadingNonNegatives(values[1..])
  }

  /** Exactly one number is inserted: it follows the first negative (or
      ends the list when there is none), it is the total of the numbers
      before that negative, and so it is never negative; removing it gives
      back the input. */
  lemma InjectPositiveInserted(values: seq<int>)
    ensures var prefix := LeadingNonNegatives(values);
      var k := if |prefix| < |values| then |prefix| + 1 else |prefix|;
      var injected := InjectPositive(values);
      && k < |injected|
      && injected[..k] + injected[k + 1..] == values
      && injected[k] == Sum(prefix)
      && injected[k] >= 0
  {
    var prefix := LeadingNonNegatives(values);
    var k := if |prefix| < |values| then |prefix| + 1 else |prefix|;
    var injected := InjectPositive(values);
    if |prefix| < |values| {
      SpliceAfterNegative(values);
    } else {
      SpliceAtEnd(values);
    }
    assert injected == values[..k] + [Sum(prefix)] + values[k..];
    SpliceRemoved(values, k, Sum(prefix));
  }

  /** After the first negative, at `|prefix|`, the result holds the total
      of the leading non-negative numbers. */
  lemma SpliceAfterNegative(values: seq<int>)
    requires |LeadingNonNegatives(values)| < |values|
    ensures var prefix := LeadingNonNegatives(values);
      InjectPositive(values) == values[..|prefix| + 1] + [Sum(prefix)] + values[|prefix| + 1..]
  {
    var prefix := LeadingNonNegatives(values);
    var p := |prefix|;
    forall j | 0 <= j < p
      ensures values[j] >= 0
    {
      assert values[j] == prefix[j];
    }
    assert values[p] < 0;
    assert InjectPositive(values) == values[..p + 1] + [Sum(values[..p])] + values[p + 1..];
    assert prefix == values[..p];
  }

  /** Without a negative, the result ends with the total of the input. */
  lemma SpliceAtEnd(values: seq<int>)
    requires |LeadingNonNegatives(values)| == |values|
    ensures var prefix := LeadingNonNegatives(values);
      InjectPositive(values) == values[..|prefix|] + [Sum(prefix)] + values[|prefix|..]
  {
    var prefix := LeadingNonNegatives(values);
    assert prefix == values;
    assert values[..|prefix|] == values && values[|prefix|..] == [];
  }

  /** Removing a number spliced in at `k` gives back the original list. */
  lemma SpliceRemoved(values: seq<int>, k: nat, x: int)
    requires k <= |values|
    ensures var spliced := values[..k] + [x] + values[k..];
      spliced[k] == x && spliced[..k] + spliced[k + 1..] == values
  {
    var spliced := values[..k] + [x] + values[k..];
    assert spliced[..k] == values[..k];
    assert spliced[k + 1..] == values[k..];
  }

  /** Removing the number inserted after the first negative, at `p`,
      gives back the input. */
  lemma InjectPositiveAfterNegative(values: seq<int>, p: nat)
    requires p < |values| && values[p] < 0
    requires forall j :: 0 <= j < p ==> values[j] >= 0
    ensures var injected := InjectPositive(values);
      && injected[..p + 1] + injected[p + 2..] == values
      && injected[p + 1] == Sum(values[..p])
  {
    var injected := InjectPositive(values);
    assert injected == values[..p + 1] + [Sum(values[..p])] + values[p + 1..];
    assert injected[..p + 1] == values[..p + 1];
    assert injected[p + 2..] == values[p + 1..];
    assert values[..p + 1] + values[p + 1..] == values;
  }

  /** Without a negative, removing the appended total gives back the input. */
  lemma InjectPositiveAtEnd(values: seq<int>)
    requires forall i :: 0 <= i < |values| ==> values[i] >= 0
    ensures var injected := InjectPositive(values);
      && injected[..|values|] == values
      && injected[|values|] == Sum(values)
  {
    var injected := InjectPositive(values);
    assert injected == values + [Sum(values)];
    assert injected[..|values|] == values;
  }
}
