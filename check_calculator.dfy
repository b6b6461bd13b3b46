/** CalcForCheck.cs: a second copy of the calculator in which the parser itself
    drops the numbers from 1000 upwards, `Add` builds a fresh parser on every
    call, and `Subtract` is a stub that answers 0. Its extractors are copies of
    the ones in StringParser.cs and are shared with that model. */
module CheckCalculator {
  import opened Exceptions
  import opened DotNetText
  import opened DelimiterParsing
  import GuardedCalculator

  /** What `StringParser.GetNumbers(input)` returns or throws: the parsed numbers
      below 1000, in input order; negative numbers pass the filter. */
  function FilteredNumbers(input: string): (r: Result<seq<int>>)
    ensures r.Ok? <==> Numbers(input).Ok?
    ensures r.Throws? ==> r.exception == Numbers(input).exception
    ensures r.Ok? ==> |r.value| <= |Numbers(input).value|
  {
    var nums :- Numbers(input);
    Ok(GuardedCalculator.Below(nums, GuardedCalculator.BOUND))
  }

  /** What `Calculator.Add(numbers)` returns or throws. */
  function AddInput(numbers: string): Result<int> {
    var nums :- FilteredNumbers(numbers);
    var negatives := GuardedCalculator.Negatives(nums);
    if negatives != [] then Throws(CalcNegativeNumberException(GuardedCalculator.NegativesMessage(negatives)))
    else GuardedCalculator.CheckedSum(0, nums)
  }

  /** The parser of this file: the same extractor choice, and a filter on the numbers. */
  class StringParser {
    var extractor: Option<Extractor>

    constructor ()
      ensures extractor == None
    {
      extractor := None;
    }

    method GetDelimiters(input: string) returns (r: Result<seq<string>>)
      modifies this
      ensures extractor == Some(SelectExtractor(input))
      ensures r == Delimiters(SelectExtractor(input), input)
    {
      extractor := Some(SelectExtractor(input));
      match extractor.value
      case DefaultExtractor =>
        r := Ok(DefaultDelimiters(input));
      case CustomExtractor =>
        r := CustomDelimiters(input);
      case ExtendedExtractor =>
        r := ExtendedGetDelimiters(input);
    }

    method GetNumbers(input: string) returns (r: Result<seq<int>>)
      modifies this
      ensures extractor == Some(SelectExtractor(input))
      ensures r == FilteredNumbers(input)
      ensures r.Ok? ==> forall n :: n in r.value ==> n < GuardedCalculator.BOUND
    {
      var delimiters := GetDelimiters(input);
      if delimiters.Throws? {
        return Throws(delimiters.exception);
      }
      var index := if extractor == Some(DefaultExtractor) then 0 else IndexOfChar(input, '\n');
      if index < 0 {
        return Throws(ArgumentOutOfRangeException);
      }
      var parsed := ParseAll(Split(input[index..], delimiters.value));
      if parsed.Throws? {
        return Throws(parsed.exception);
      }
      r := Ok(GuardedCalculator.Below(parsed.value, GuardedCalculator.BOUND));
    }
  }

  /** `Calculator`; its `Numbers` property is never read by the operations. */
  class Calculator {
    var numbers: string

    constructor ()
      ensures numbers == ""
    {
      numbers := "";
    }

    method Add(numbers: string) returns (r: Result<int>)
      ensures r == AddInput(numbers)
    {
      var parser := new StringParser();
      var nums := parser.GetNumbers(numbers);
      if nums.Throws? {
        return Throws(nums.exception);
      }
      var negatives := GuardedCalculator.Negatives(nums.value);
      if negatives != [] {
        return Throws(CalcNegativeNumberException(GuardedCalculator.NegativesMessage(negatives)));
      }
      r := GuardedCalculator.CheckedSum(0, nums.value);
    }

    /** The stub: 0 whatever the input, with no parsing and hence no exception. */
    method Subtract(numbers: string) returns (r: int)
      ensures r == 0
    {
      r := 0;
    }
  }

  // ---------------------------------------------------------------------------
  // Properties

  /** Filtering at the parser or at the calculator makes no difference: this `Add`
      agrees with the one of Calculator.cs, given a plain `StringParser`, on every
      input. Both return the same value or throw the same exception, except that
      where Calculator.cs throws its `NegativeNumberException`, this one throws the
      class of the same name declared beside it, with the same message. */
  lemma AddAgreesWithCalculator(numbers: string)
    ensures var mine, theirs := AddInput(numbers), GuardedCalculator.AddInput(numbers);
      mine == theirs ||
      (theirs.Throws? && theirs.exception.NegativeNumberException? &&
       mine == Throws(CalcNegativeNumberException(theirs.exception.message)))
  {
    var parsed := Numbers(numbers);
    if parsed.Ok? {
      NegativesOfBelow(parsed.value, GuardedCalculator.BOUND);
    }
  }

  /** Every negative number is below the bound, so filtering keeps all of them. */
  lemma {:induction false} NegativesOfBelow(nums: seq<int>, bound: int)
    requires bound > 0
    ensures GuardedCalculator.Negatives(GuardedCalculator.Below(nums, bound)) == GuardedCalculator.Negatives(nums)
    decreases |nums|
  {
    if nums != [] {
      var head := if nums[0] < bound then [nums[0]] else [];
      var tail := GuardedCalculator.Below(nums[1..], bound);
      assert GuardedCalculator.Below(nums, bound) == head + tail;
      GuardedCalculator.NegativesAppend(head, tail);
      NegativesOfBelow(nums[1..], bound);
      assert head == [] ==> GuardedCalculator.Negatives(head) == [];
      assert head != [] ==> GuardedCalculator.Negatives(head) == GuardedCalculator.Negatives([nums[0]]) by {
        assert head != [] ==> head == [nums[0]];
      }
      assert [nums[0]] + nums[1..] == nums;
      GuardedCalculator.NegativesAppend([nums[0]], nums[1..]);
    }
  }

  /** The parser's filter keeps exactly the parsed numbers below 1000. */
  lemma FilteredNumbersMeaning(input: string)
    requires Numbers(input).Ok?
    ensures forall n :: n in FilteredNumbers(input).value <==> n in Numbers(input).value && n < GuardedCalculator.BOUND
  {
  }

  /** Numbers that are all below 1000 pass the filter unchanged. */
  lemma FilteredSmallNumbers(input: string, values: seq<int>)
    requires Numbers(input) == Ok(values)
    requires forall n :: n in values ==> n < GuardedCalculator.BOUND
    ensures FilteredNumbers(input) == Ok(values)
  {
    GuardedCalculator.BelowKeepsAll(values, GuardedCalculator.BOUND);
  }

  /** `test_substitute`: the custom delimiter `;` between 1 and 2 adds up to 3. */
  lemma AddExample()
    ensures AddInput("//;\n1;2") == Ok(3)
  {
    CustomExample();
    AddAgreesWithCalculator("//;\n1;2");
    GuardedCalculator.AddListOfSmallNumbers([1, 2]);
    assert GuardedCalculator.Sum([1, 2]) == 3;
  }

  /** `should_take_string_return_delim`. */
  lemma GetNumbersDefaultExample()
    ensures FilteredNumbers("1,2") == Ok([1, 2])
  {
    assert Numbers("1,2") == Ok([1, 2]) by {
      DefaultExample();
    }
    FilteredSmallNumbers("1,2", [1, 2]);
  }

  /** `should_take_custom_delimiter_return_this`. */
  lemma GetNumbersCustomExample()
    ensures FilteredNumbers("//;\n1;2") == Ok([1, 2])
  {
    assert Numbers("//;\n1;2") == Ok([1, 2]) by {
      CustomExample();
    }
    FilteredSmallNumbers("//;\n1;2", [1, 2]);
  }

  /** `should_take_custom_delimiters_return_them`. */
  lemma GetNumbersExtendedExample()
    ensures FilteredNumbers("//[***][%%%][$$$]\n1***2%%%3$$$4") == Ok([1, 2, 3, 4])
  {
    assert FilteredNumbers("//[***][%%%][$$$]\n1***2%%%3$$$4")
      == Ok(GuardedCalculator.Below([1, 2, 3, 4], GuardedCalculator.BOUND)) by {
      ExtendedExample();
    }
    GuardedCalculator.BelowKeepsAll([1, 2, 3, 4], GuardedCalculator.BOUND);
  }
}
