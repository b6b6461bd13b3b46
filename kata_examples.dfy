/** The tests of KataByKalinets.cs, as facts about `AddOutcome` on a fresh
    calculator, and a few inputs that show how the kata cuts its text. */
module KataExamples {
  import opened Exceptions
  import opened DotNetText
  import opened KataCalculator
  import opened KataProperties
  import DelimiterParsing
  import GuardedCalculator

  // ---------------------------------------------------------------------------
  // From the general lemmas to a fresh calculator

  /** Numbers written out with the default delimiters, in list order. */
  lemma FreshNumbers(input: string, values: seq<int>, between: seq<string>)
    requires |between| + 1 == |values| && Ranked(DEFAULT_DELIMITERS, between)
    requires forall v :: v in values ==> IsInt32(v)
    requires input == Interleave(FormatAll(values), between)
    ensures AddOutcome(INITIAL, input).0 == Reported(GuardedCalculator.Negatives(values), CountedSum(values))
  {
    var negatives := GuardedCalculator.Negatives(values);
    assert AddOutcome(INITIAL, input).0 == Reported(INITIAL.negatives + negatives, CountedSum(values)) by {
      DefaultApart();
      AddOfNumbers(INITIAL, values, between);
    }
    assert INITIAL.negatives + negatives == negatives;
  }

  /** Numbers after a header `//c`. */
  lemma FreshCustom(input: string, c: char, values: seq<int>, between: seq<string>)
    requires c != '[' && c != '\n' && !IsDigit(c) && c != '-'
    requires |between| + 1 == |values| && forall b :: b in between ==> b == [c]
    requires forall v :: v in values ==> IsInt32(v)
    requires input == "//" + [c] + "\n" + Interleave(FormatAll(values), between)
    ensures AddOutcome(INITIAL, input).0 == Reported(GuardedCalculator.Negatives(values), CountedSum(values))
  {
    AddOfCustom(INITIAL, c, values, between);
    assert [] + GuardedCalculator.Negatives(values) == GuardedCalculator.Negatives(values);
  }

  /** Numbers after a header of bracketed delimiters. */
  lemma FreshBracketed(input: string, ds: seq<string>, values: seq<int>, between: seq<string>)
    requires ds != [] && Apart(ds) && Ranked(ds, between) && |between| + 1 == |values|
    requires forall k :: 0 <= k < |ds| ==> '[' !in ds[k] && ']' !in ds[k] && '\n' !in ds[k]
    requires forall v :: v in values ==> IsInt32(v)
    requires input == "//" + DelimiterParsing.Bracketed(ds) + "\n" + Interleave(FormatAll(values), between)
    ensures AddOutcome(INITIAL, input).0 == Reported(GuardedCalculator.Negatives(values), CountedSum(values))
  {
    AddOfBracketed(INITIAL, ds, values, between);
    assert [] + GuardedCalculator.Negatives(values) == GuardedCalculator.Negatives(values);
  }

  /** Adding up the counted numbers from the front. */
  lemma CountedSumCons(v: int, rest: seq<int>)
    requires IsInt32(v) && forall w :: w in rest ==> IsInt32(w)
    ensures forall w :: w in [v] + rest ==> IsInt32(w)
    ensures CountedSum([v] + rest) == UncheckedAdd(Counted(v), CountedSum(rest))
  {
    assert ([v] + rest)[1..] == rest;
  }

  // ---------------------------------------------------------------------------
  // The tests

  /** `should_return_0_for_empty_string`. */
  lemma EmptyExample()
    ensures AddOutcome(INITIAL, "").0 == Ok(0)
  {
    AddOfEmpty(INITIAL);
  }

  /** `should_return_5_for_5`. */
  lemma SingleExample()
    ensures AddOutcome(INITIAL, "5").0 == Ok(5)
  {
    assert FormatAll([5]) == ["5"] by {
      assert DigitChar(5) == '5';
    }
    FreshNumbers("5", [5], []);
    assert CountedSum([5]) == 5;
  }

  /** `should_return_14_for_5_and_9`. */
  lemma TwoExample()
    ensures AddOutcome(INITIAL, "5,9").0 == Ok(14)
  {
    TwoInput();
    assert Rank(DEFAULT_DELIMITERS, ",") == 0;
    FreshNumbers("5,9", [5, 9], [","]);
    CountedSumCons(5, [9]);
    assert CountedSum([9]) == 9;
  }

  lemma TwoInput()
    ensures Interleave(FormatAll([5, 9]), [","]) == "5,9"
  {
    assert FormatAll([5, 9]) == ["5", "9"] by {
      assert DigitChar(5) == '5' && DigitChar(9) == '9';
    }
    InterleaveCons("5", ["9"], ",", []);
  }

  /** `should_support_new_line_as_delimiter`: `,` comes first in the list, so it
      is cut at before the newlines. */
  lemma NewlineExample()
    ensures AddOutcome(INITIAL, "3,4\n6\n7").0 == Ok(20)
  {
    NewlineInput();
    NewlineRanked();
    FreshNumbers("3,4\n6\n7", [3, 4, 6, 7], [",", "\n", "\n"]);
    NewlineSum();
  }

  lemma NewlineRanked()
    ensures Ranked(DEFAULT_DELIMITERS, [",", "\n", "\n"])
  {
    RankedTwo(",", "\n", 1, 2);
    assert Repeated(",", 1) + Repeated("\n", 2) == [",", "\n", "\n"];
  }

  lemma NewlineInput()
    ensures Interleave(FormatAll([3, 4, 6, 7]), [",", "\n", "\n"]) == "3,4\n6\n7"
  {
    assert FormatAll([3, 4, 6, 7]) == ["3", "4", "6", "7"] by {
      assert DigitChar(3) == '3' && DigitChar(4) == '4' && DigitChar(6) == '6' && DigitChar(7) == '7';
    }
    NewlineBody();
  }

  lemma NewlineBody()
    ensures Interleave(["3", "4", "6", "7"], [",", "\n", "\n"]) == "3,4\n6\n7"
  {
    InterleaveCons("6", ["7"], "\n", []);
    InterleaveCons("4", ["6", "7"], "\n", ["\n"]);
    InterleaveCons("3", ["4", "6", "7"], ",", ["\n", "\n"]);
  }

  lemma NewlineSum()
    ensures CountedSum([3, 4, 6, 7]) == 20
    ensures GuardedCalculator.Negatives([3, 4, 6, 7]) == []
  {
    CountedSumCons(6, [7]);
    CountedSumCons(4, [6, 7]);
    CountedSumCons(3, [4, 6, 7]);
    assert CountedSum([7]) == 7;
  }

  /** `should_support_custom_delimiter`. */
  lemma CustomExample()
    ensures AddOutcome(INITIAL, "//*\n4*3*2").0 == Ok(9)
  {
    CustomInput();
    FreshCustom("//*\n4*3*2", '*', [4, 3, 2], ["*", "*"]);
    CustomSum();
  }

  lemma CustomInput()
    ensures "//" + ['*'] + "\n" + Interleave(FormatAll([4, 3, 2]), ["*", "*"]) == "//*\n4*3*2"
  {
    assert FormatAll([4, 3, 2]) == ["4", "3", "2"] by {
      assert DigitChar(4) == '4' && DigitChar(3) == '3' && DigitChar(2) == '2';
    }
    CustomBody();
  }

  lemma CustomBody()
    ensures Interleave(["4", "3", "2"], ["*", "*"]) == "4*3*2"
  {
    InterleaveCons("3", ["2"], "*", []);
    InterleaveCons("4", ["3", "2"], "*", ["*"]);
  }

  lemma CustomSum()
    ensures CountedSum([4, 3, 2]) == 9
    ensures GuardedCalculator.Negatives([4, 3, 2]) == []
  {
    CountedSumCons(3, [2]);
    CountedSumCons(4, [3, 2]);
    assert CountedSum([2]) == 2;
  }

  /** `should_throw_exception_for_negatives_and_message_should_list_all_negatives`. */
  lemma NegativesExample()
    ensures AddOutcome(INITIAL, "-1,2,-3").0 == Throws(InvalidOperationException("negatives are not allowed: -1,-3"))
  {
    NegativesInput();
    assert Rank(DEFAULT_DELIMITERS, ",") == 0;
    FreshNumbers("-1,2,-3", [-1, 2, -3], [",", ","]);
    NegativesFound();
    NegativesReport();
  }

  lemma NegativesFound()
    ensures GuardedCalculator.Negatives([-1, 2, -3]) == [-1, -3]
  {
    var values := [-1, 2, -3];
    assert values[1..] == [2, -3] && values[1..][1..] == [-3];
  }

  lemma MinusOneAndThree()
    ensures FormatInt32(-1) == "-1" && FormatInt32(-3) == "-3"
  {
    assert FormatInt32(-1) == "-1" by {
      assert DigitChar(1) == '1';
    }
    assert FormatInt32(-3) == "-3" by {
      assert DigitChar(3) == '3';
    }
  }

  lemma NegativesInput()
    ensures Interleave(FormatAll([-1, 2, -3]), [",", ","]) == "-1,2,-3"
  {
    assert FormatAll([-1, 2, -3]) == ["-1", "2", "-3"] by {
      MinusOneAndThree();
      assert DigitChar(2) == '2';
    }
    NegativesBody();
  }

  lemma NegativesBody()
    ensures Interleave(["-1", "2", "-3"], [",", ","]) == "-1,2,-3"
  {
    InterleaveCons("2", ["-3"], ",", []);
    InterleaveCons("-1", ["2", "-3"], ",", [","]);
  }

  lemma NegativesReport()
    ensures Reported([-1, -3], CountedSum([-1, 2, -3])) == Throws(InvalidOperationException("negatives are not allowed: -1,-3"))
  {
    assert FormatAll([-1, -3]) == ["-1", "-3"] by {
      MinusOneAndThree();
    }
    assert ["-1", "-3"][1..] == ["-3"];
    assert Join(",", ["-1", "-3"]) == "-1,-3";
    assert NegativesText([-1, -3]) == NEGATIVES_PREFIX + "-1,-3";
    assert NEGATIVES_PREFIX + "-1,-3" == "negatives are not allowed: -1,-3";
    assert [-1, -3] != [];
  }

  /** `should_ignore_numbers_greater_than_1000`. */
  lemma AboveThresholdExample()
    ensures AddOutcome(INITIAL, "2,1002").0 == Ok(2)
  {
    AboveThresholdInput();
    assert Rank(DEFAULT_DELIMITERS, ",") == 0;
    FreshNumbers("2,1002", [2, 1002], [","]);
    AboveThresholdSum();
  }

  lemma AboveThresholdInput()
    ensures Interleave(FormatAll([2, 1002]), [","]) == "2,1002"
  {
    assert DigitChar(0) == '0' && DigitChar(1) == '1' && DigitChar(2) == '2';
    assert FormatNat(1) == "1";
    assert FormatNat(10) == "10";
    assert FormatNat(100) == "100";
    assert FormatNat(1002) == "1002";
    assert FormatAll([2, 1002]) == ["2", "1002"];
    InterleaveCons("2", ["1002"], ",", []);
  }

  lemma AboveThresholdSum()
    ensures CountedSum([2, 1002]) == 2
    ensures GuardedCalculator.Negatives([2, 1002]) == []
  {
    CountedSumCons(2, [1002]);
    assert CountedSum([1002]) == 0;
  }

  /** `should_support_delimiters_of_any_length`. */
  lemma AnyLengthExample()
    ensures AddOutcome(INITIAL, "//[***]\n1***2***3").0 == Ok(6)
  {
    AnyLengthInput();
    assert Apart(["***"]) && Rank(["***"], "***") == 0;
    FreshBracketed("//[***]\n1***2***3", ["***"], [1, 2, 3], ["***", "***"]);
    AnyLengthSum();
  }

  lemma AnyLengthInput()
    ensures "//" + DelimiterParsing.Bracketed(["***"]) + "\n" + Interleave(FormatAll([1, 2, 3]), ["***", "***"])
            == "//[***]\n1***2***3"
  {
    assert FormatAll([1, 2, 3]) == ["1", "2", "3"] by {
      assert DigitChar(1) == '1' && DigitChar(2) == '2' && DigitChar(3) == '3';
    }
    AnyLengthBody();
    assert ["***"][1..] == [];
    assert "//" + DelimiterParsing.Bracketed(["***"]) + "\n" == "//[***]\n";
  }

  lemma AnyLengthBody()
    ensures Interleave(["1", "2", "3"], ["***", "***"]) == "1***2***3"
  {
    InterleaveCons("2", ["3"], "***", []);
    InterleaveCons("1", ["2", "3"], "***", ["***"]);
  }

  lemma AnyLengthSum()
    ensures CountedSum([1, 2, 3]) == 6
    ensures GuardedCalculator.Negatives([1, 2, 3]) == []
  {
    CountedSumCons(2, [3]);
    CountedSumCons(1, [2, 3]);
    assert CountedSum([3]) == 3;
  }

  /** `should_support_multiple_delimiters`. */
  lemma MultipleExample()
    ensures AddOutcome(INITIAL, "//[==-][&&$]\n2==-3==-6&&$8&&$9").0 == Ok(28)
  {
    MultipleDelimiters();
    MultipleInput();
    FreshBracketed("//[==-][&&$]\n2==-3==-6&&$8&&$9", ["==-", "&&$"], [2, 3, 6, 8, 9], ["==-", "==-", "&&$", "&&$"]);
    MultipleSum();
  }

  lemma MultipleDelimiters()
    ensures Apart(["==-", "&&$"]) && Ranked(["==-", "&&$"], ["==-", "==-", "&&$", "&&$"])
    ensures forall k :: 0 <= k < 2 ==> '[' !in ["==-", "&&$"][k] && ']' !in ["==-", "&&$"][k] && '\n' !in ["==-", "&&$"][k]
  {
    ApartTwo("==-", "&&$");
    RankedTwo("==-", "&&$", 2, 2);
  }

  /** Two delimiters that start with neither a digit nor `-` and do not contain
      each other's first character are apart. */
  lemma ApartTwo(a: string, b: string)
    requires a != "" && !IsDigit(a[0]) && a[0] != '-' && a[0] !in b
    requires b != "" && !IsDigit(b[0]) && b[0] != '-' && b[0] !in a
    ensures Apart([a, b])
  {
  }

  /** The first of two different delimiters `m` times, then the second `n` times. */
  lemma RankedTwo(a: string, b: string, m: nat, n: nat)
    requires a != b
    ensures Ranked([a, b], Repeated(a, m) + Repeated(b, n))
  {
    var between := Repeated(a, m) + Repeated(b, n);
    assert Rank([a, b], a) == 0 && Rank([a, b], b) == 1;
    forall i | 0 <= i < |between|
      ensures between[i] in [a, b] && Rank([a, b], between[i]) == if i < m then 0 else 1
    {
      if i < m {
        assert between[i] == Repeated(a, m)[i];
      } else {
        assert between[i] == Repeated(b, n)[i - m];
      }
    }
  }

  lemma MultipleInput()
    ensures "//" + DelimiterParsing.Bracketed(["==-", "&&$"]) + "\n"
            + Interleave(FormatAll([2, 3, 6, 8, 9]), ["==-", "==-", "&&$", "&&$"])
            == "//[==-][&&$]\n2==-3==-6&&$8&&$9"
  {
    MultipleHeader();
    MultipleNumerals();
    MultipleBody();
    MultipleText();
  }

  /** Helper: the header line and the body form the test's text. A lemma of its own
      keeps the long literal concatenation out of the caller's proof. */
  lemma MultipleText()
    ensures "//[==-][&&$]\n" + "2==-3==-6&&$8&&$9" == "//[==-][&&$]\n2==-3==-6&&$8&&$9"
  {
  }

  lemma MultipleHeader()
    ensures "//" + DelimiterParsing.Bracketed(["==-", "&&$"]) + "\n" == "//[==-][&&$]\n"
  {
    var ds := ["==-", "&&$"];
    assert ds[1..] == ["&&$"] && ds[1..][1..] == [];
  }

  lemma MultipleBody()
    ensures Interleave(["2", "3", "6", "8", "9"], ["==-", "==-", "&&$", "&&$"]) == "2==-3==-6&&$8&&$9"
  {
    MultipleTail();
    InterleaveCons("2", ["3", "6", "8", "9"], "==-", ["==-", "&&$", "&&$"]);
  }

  lemma MultipleTail()
    ensures Interleave(["3", "6", "8", "9"], ["==-", "&&$", "&&$"]) == "3==-6&&$8&&$9"
  {
    MultipleLast();
    InterleaveCons("3", ["6", "8", "9"], "==-", ["&&$", "&&$"]);
  }

  lemma MultipleLast()
    ensures Interleave(["6", "8", "9"], ["&&$", "&&$"]) == "6&&$8&&$9"
  {
    InterleaveCons("8", ["9"], "&&$", []);
    InterleaveCons("6", ["8", "9"], "&&$", ["&&$"]);
  }

  lemma MultipleNumerals()
    ensures FormatAll([2, 3, 6, 8, 9]) == ["2", "3", "6", "8", "9"]
  {
    assert DigitChar(2) == '2' && DigitChar(3) == '3' && DigitChar(6) == '6';
    assert DigitChar(8) == '8' && DigitChar(9) == '9';
  }

  lemma MultipleSum()
    ensures CountedSum([2, 3, 6, 8, 9]) == 28
    ensures GuardedCalculator.Negatives([2, 3, 6, 8, 9]) == []
  {
    CountedSumCons(8, [9]);
    CountedSumCons(6, [8, 9]);
    CountedSumCons(3, [6, 8, 9]);
    CountedSumCons(2, [3, 6, 8, 9]);
    assert CountedSum([9]) == 9;
  }

  // ---------------------------------------------------------------------------
  // How the kata cuts its text

  /** `,` stands before the newline in the list, so `IndexOfAny` cuts `1\n2,3` at
      the comma although the newline comes first in the text; `Int32.Parse`
      then refuses the head `1\n2`. */
  lemma ListOrderExample()
    ensures AddOutcome(INITIAL, "1\n2,3").0 == Throws(FormatException)
  {
    var input := "1\n2,3";
    assert input[0] != '/';
    ListOrderCut();
    ListOrderHead();
  }

  lemma ListOrderCut()
    ensures FirstOccurring("1\n2,3", DEFAULT_DELIMITERS) == Some(Found(3, ","))
  {
    IndexOfAfter("1\n2", ",", "3");
    assert "1\n2" + "," + "3" == "1\n2,3";
  }

  lemma ListOrderHead()
    requires FirstOccurring("1\n2,3", DEFAULT_DELIMITERS) == Some(Found(3, ","))
    ensures InternalRun(DEFAULT_DELIMITERS, "1\n2,3", "").total == Throws(FormatException)
  {
    var items := "1\n2,3";
    PiecesStep(DEFAULT_DELIMITERS, items, 3, ",");
    assert items[..3] == "1\n2";
    assert ParseInt32("1\n2") == Throws(FormatException) by {
      assert TrimEnd("1\n2") == "1\n2";
      assert !AllDigits("1\n2");
    }
  }

  /** Text that is only `//` has no third character: `Add` throws and keeps the
      rest of the state. */
  lemma SlashesOnlyExample(s: State)
    ensures AddOutcome(s, "//") == (Throws(IndexOutOfRangeException), s.(numbers := "//"))
  {
    assert "//" <= "//";
  }

  /** A second call keeps the delimiters of the first call's header: after
      `//;\n1;2` the text `3;4` adds up with `;`. */
  lemma CarryOverExample()
    ensures AddOutcome(INITIAL, "//;\n1;2").0 == Ok(3)
    ensures AddOutcome(AddOutcome(INITIAL, "//;\n1;2").1, "3;4").0 == Ok(7)
  {
    CarryOverFirst();
    CarryOverSecond(AddOutcome(INITIAL, "//;\n1;2").1);
  }

  /** The state after a header `//c` and numbers that hold no negative. */
  lemma CustomState(input: string, c: char, values: seq<int>, between: seq<string>, body: string)
    requires c != '[' && c != '\n' && !IsDigit(c) && c != '-'
    requires between != [] && |between| + 1 == |values| && forall b :: b in between ==> b == [c]
    requires forall v :: v in values ==> 0 <= v <= INT32_MAX
    requires body == Interleave(FormatAll(values), between) && input == "//" + [c] + "\n" + body
    ensures AddOutcome(INITIAL, input) == (Ok(CountedSum(values)), State([], [c], [[c]], "\n" + body))
  {
    AddOfCustom(INITIAL, c, values, between);
    assert GuardedCalculator.Negatives(values) == [];
  }

  lemma CarryOverFirst()
    ensures AddOutcome(INITIAL, "//;\n1;2") == (Ok(3), State([], ";", [";"], "\n1;2"))
  {
    CarryOverFirstInput();
    CustomState("//;\n1;2", ';', [1, 2], [";"], "1;2");
    CountedSumCons(1, [2]);
    assert CountedSum([2]) == 2;
  }

  lemma CarryOverFirstInput()
    ensures Interleave(FormatAll([1, 2]), [";"]) == "1;2"
    ensures "//" + [';'] + "\n" + "1;2" == "//;\n1;2"
  {
    assert FormatAll([1, 2]) == ["1", "2"] by {
      assert DigitChar(1) == '1' && DigitChar(2) == '2';
    }
    InterleaveCons("1", ["2"], ";", []);
  }

  /** Any calculator with `;` as its only delimiter and no negatives met adds up `3;4`. */
  lemma CarryOverSecond(s: State)
    requires s.delimiters == [";"] && s.negatives == []
    ensures AddOutcome(s, "3;4").0 == Ok(7)
  {
    assert FormatAll([3, 4]) == ["3", "4"] by {
      assert DigitChar(3) == '3' && DigitChar(4) == '4';
    }
    InterleaveCons("3", ["4"], ";", []);
    assert Interleave(FormatAll([3, 4]), [";"]) == "3;4";
    assert Apart([";"]) && Rank([";"], ";") == 0;
    assert Ranked([";"], [";"]);
    AddOfNumbers(s, [3, 4], [";"]);
    assert AddOutcome(s, "3;4").0 == Reported(s.negatives + GuardedCalculator.Negatives([3, 4]), CountedSum([3, 4]));
    CountedSumCons(3, [4]);
    assert CountedSum([4]) == 4;
    assert GuardedCalculator.Negatives([3, 4]) == [];
  }
}
