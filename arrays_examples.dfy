/** Worked examples for each transformation of `src/arrays.ts`, including
    those of its doc comments and the boundary cases they describe. */
module ArraysExamples {
  import opened JsArray
  import opened JsText
  import opened Arrays

  lemma BookEndListExamples()
    ensures BookEndList([]) == []
    ensures BookEndList([5]) == [5, 5]
    ensures BookEndList([1, 2, 3]) == [1, 3]
  {
  }

  lemma TripleNumbersExamples()
    ensures TripleNumbers([1, 2, 3]) == [3, 6, 9]
    ensures TripleNumbers([]) == []
  {
  }

  lemma StringsToIntegersExamples()
    ensures StringsToIntegers(["1", "x", "3"]) == [1, 0, 3]
  {
    assert NumeralValue("1") == 1;
    assert NumeralValue("3") == 3;
  }

  lemma RemoveDollarsExamples()
    ensures RemoveDollars(["$5", "$x", "10"]) == [5, 0, 10]
    ensures RemoveDollars(["$$5"]) == [0]
  {
    assert "$5"[1..] == "5";
    assert "$x"[1..] == "x";
    assert "$$5"[1..] == "$5";
    assert NumeralValue("5") == 5;
    assert NumeralValue("1") == 1;
    assert NumeralValue("10") == 10;
  }

  /** A one-message list keeps the message, shouted, unless it is a
      question. */
  lemma ShoutOne(message: string)
    ensures ShoutIfExclaiming([message]) == if EndsWith(message, '?') then [] else [Shout(message)]
  {
    FilterSnoc(NotQuestion, [], message);
    assert [] + [message] == [message];
  }

  lemma ShoutExclamation()
    ensures ShoutIfExclaiming(["hi!"]) == ["HI!"]
  {
    ShoutOne("hi!");
    assert EndsWith("hi!", '!');
    assert ToUpper("hi!") == "HI!";
  }

  lemma ShoutQuestion()
    ensures ShoutIfExclaiming(["what?"]) == []
  {
    ShoutOne("what?");
    assert EndsWith("what?", '?');
  }

  lemma ShoutPlain()
    ensures ShoutIfExclaiming(["ok"]) == ["ok"]
  {
    ShoutOne("ok");
    assert !EndsWith("ok", '?') && !EndsWith("ok", '!');
  }

  lemma ShoutEmpty()
    ensures ShoutIfExclaiming([""]) == [""]
  {
    ShoutOne("");
  }

  lemma ShoutIfExclaimingSingletons()
    ensures ShoutIfExclaiming(["hi!"]) == ["HI!"]
    ensures ShoutIfExclaiming(["what?"]) == []
    ensures ShoutIfExclaiming(["ok"]) == ["ok"]
    ensures ShoutIfExclaiming([""]) == [""]
  {
    ShoutExclamation();
    ShoutQuestion();
    ShoutPlain();
    ShoutEmpty();
  }

  /** A three-message list is shouted message by message. */
  lemma ShoutThree(a: string, b: string, c: string)
    ensures ShoutIfExclaiming([a, b, c])
      == ShoutIfExclaiming([a]) + ShoutIfExclaiming([b]) + ShoutIfExclaiming([c])
  {
    assert [a] + [b] == [a, b] && [a, b] + [c] == [a, b, c];
    ShoutIfExclaimingConcat([a], [b]);
    ShoutIfExclaimingConcat([a, b], [c]);
  }

  lemma ShoutIfExclaimingExamples()
    ensures ShoutIfExclaiming(["hi!", "what?", "ok"]) == ["HI!", "ok"]
    ensures ShoutIfExclaiming([""]) == [""]
  {
    ShoutIfExclaimingSingletons();
    ShoutThree("hi!", "what?", "ok");
    assert ["HI!"] + [] + ["ok"] == ["HI!", "ok"];
  }

  lemma CountShortWordsExamples()
    ensures CountShortWords(["a", "bb", "ccc", "dddd"]) == 3
  {
    assert ShortWordPositions(["a", "bb", "ccc", "dddd"]) == {0, 1, 2};
  }

  /** Two emoji are four UTF-16 code units, so the word is not short. */
  lemma CountShortWordsAstralExample()
    ensures CountShortWords(["\U{1F600}\U{1F600}"]) == 0
  {
    var word := "\U{1F600}\U{1F600}";
    assert word[..1] == "\U{1F600}" && word[..1][..0] == "";
    assert Utf16Length(word) == 4;
    assert ShortWordPositions([word]) == {};
  }

  lemma AllRGBExamples()
    ensures AllRGB([])
    ensures AllRGB(["red", "blue"])
    ensures !AllRGB(["red", "pink"])
  {
    assert !IsRGB(["red", "pink"][1]);
  }

  /** The decimal forms of 1, 2 and 3, joined with '+'. */
  lemma JoinedDigitsExample()
    ensures Join('+', Map(IntToString, [1, 2, 3])) == "1+2+3"
  {
    assert IntToString(1) == "1" && IntToString(2) == "2" && IntToString(3) == "3";
    assert Map(IntToString, [1, 2, 3]) == ["1", "2", "3"];
    assert ["1", "2", "3"][1..] == ["2", "3"] && ["2", "3"][1..] == ["3"];
  }

  lemma MakeMathExamples()
    ensures MakeMath([]) == "0=0"
    ensures MakeMath([1, 2, 3]) == "6=1+2+3"
  {
    assert Sum([1, 2, 3]) == 6 by {
      assert [1, 2, 3][..2] == [1, 2] && [1, 2][..1] == [1];
    }
    assert IntToString(6) == "6";
    JoinedDigitsExample();
  }

  /** The doc comment's list with a negative: the total 10 follows -5. */
  lemma InjectPositiveNegativeExample()
    ensures InjectPositive([1, 9, -5, 7]) == [1, 9, -5, 10, 7]
  {
    var withNegative := [1, 9, -5, 7];
    assert withNegative[..2] == [1, 9];
    assert Sum([1, 9]) == 10;
    assert InjectPositive(withNegative) == withNegative[..3] + [10] + withNegative[3..] by {
      assert withNegative[2] < 0 && withNegative[0] >= 0 && withNegative[1] >= 0;
    }
  }

  lemma InjectPositiveExamples()
    ensures InjectPositive([1, 9, -5, 7]) == [1, 9, -5, 10, 7]
    ensures InjectPositive([1, 9, 7]) == [1, 9, 7, 17]
    ensures InjectPositive([]) == [0]
  {
    InjectPositiveNegativeExample();
    var allPositive := [1, 9, 7];
    InjectPositiveAtEnd(allPositive);
    assert Sum(allPositive) == 17;
    InjectPositiveAtEnd([]);
  }
}
