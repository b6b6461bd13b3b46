/** Calculator.cs: `Calculator.Add` and `Calculator.Subtract` take the numbers a
    `StringParser` reads from the input, refuse negatives with a
    `NegativeNumberException`, and ignore every number from 1000 upwards. */
module GuardedCalculator {
  import opened Exceptions
  import opened DotNetText
  import DelimiterParsing

  /** Numbers at or above this bound are left out of both operations. */
  const BOUND: int := 1000

  /** `nums.Where(n => n < 0)`. */
  function Negatives(nums: seq<int>): (r: seq<int>)
    ensures |r| <= |nums|
    ensures forall x :: x in r ==> x < 0 && x in nums
    ensures forall x :: x in nums && x < 0 ==> x in r
    ensures r == [] <==> forall x :: x in nums ==> x >= 0
  {
    if nums == [] then []
    else
      var tail := Negatives(nums[1..]);
      assert forall x :: x in nums[1..] ==> x in nums;
      assert forall x :: x in nums ==> x == nums[0] || x in nums[1..];
      var r := (if nums[0] < 0 then [nums[0]] else []) + tail;
      assert r != [] ==> r[0] in r;
      r
  }

  /** `nums.Where(n => n < bound)`. */
  function Below(nums: seq<int>, bound: int): (r: seq<int>)
    ensures |r| <= |nums|
    ensures forall x :: x in r ==> x < bound && x in nums
    ensures forall x :: x in nums && x < bound ==> x in r
  {
    if nums == [] then []
    else (if nums[0] < bound then [nums[0]] else []) + Below(nums[1..], bound)
  }

  /** The mathematical sum. */
  function Sum(xs: seq<int>): int {
    if xs == [] then 0 else xs[0] + Sum(xs[1..])
  }

  /** `Enumerable.Sum` over `int`: adds from the left in checked arithmetic and
      throws as soon as a partial sum leaves the 32-bit range. */
  function CheckedSum(acc: int, xs: seq<int>): Result<int>
    decreases |xs|
  {
    if xs == [] then Ok(acc)
    else if !IsInt32(acc + xs[0]) then Throws(OverflowException)
    else CheckedSum(acc + xs[0], xs[1..])
  }

  /** The text of the exception: the negatives in input order, separated by `", "`. */
  function NegativesMessage(negatives: seq<int>): string {
    "negatives not allowed: " + Join(", ", FormatAll(negatives))
  }

  /** `Calculator.Add` once the parser has returned `nums`. */
  function AddList(nums: seq<int>): Result<int> {
    var negatives := Negatives(nums);
    if negatives != [] then Throws(NegativeNumberException(NegativesMessage(negatives)))
    else CheckedSum(0, Below(nums, BOUND))
  }

  /** `Calculator.Subtract` once the parser has returned `nums`. */
  function SubtractList(nums: seq<int>): Result<int> {
    var negatives := Negatives(nums);
    if negatives != [] then Throws(NegativeNumberException(NegativesMessage(negatives)))
    else SubtractKept(Below(nums, BOUND))
  }

  /** The rest of `Calculator.Subtract`: the first kept number minus the checked sum
      of the others; when nothing is kept the sum is 0 and indexing the empty list throws. */
  function SubtractKept(kept: seq<int>): Result<int> {
    var rest :- CheckedSum(0, if kept == [] then [] else kept[1..]);
    if kept == [] then Throws(ArgumentOutOfRangeException)
    else Ok(kept[0] - rest)
  }

  /** What `Calculator.Add(numbers)` returns or throws. */
  function AddInput(numbers: string): Result<int> {
    var nums :- DelimiterParsing.Numbers(numbers);
    AddList(nums)
  }

  /** What `Calculator.Subtract(numbers)` returns or throws. */
  function SubtractInput(numbers: string): Result<int> {
    var nums :- DelimiterParsing.Numbers(numbers);
    SubtractList(nums)
  }

  /** `Calculator`: both operations ask the parser it was given for the numbers,
      which also sets the parser's `Extractor`. */
  class Calculator {
    const stringParser: DelimiterParsing.StringParser

    constructor (stringParser: DelimiterParsing.StringParser)
      ensures this.stringParser == stringParser
    {
      this.stringParser := stringParser;
    }

    method Add(numbers: string) returns (r: Result<int>)
      modifies stringParser
      ensures stringParser.extractor == Some(DelimiterParsing.SelectExtractor(numbers))
      ensures r == AddInput(numbers)
    {
      var nums := stringParser.GetNumbers(numbers);
      if nums.Throws? {
        return Throws(nums.exception);
      }
      r := AddList(nums.value);
    }

    method Subtract(numbers: string) returns (r: Result<int>)
      modifies stringParser
      ensures stringParser.extractor == Some(DelimiterParsing.SelectExtractor(numbers))
      ensures r == SubtractInput(numbers)
    {
      var nums := stringParser.GetNumbers(numbers);
      if nums.Throws? {
        return Throws(nums.exception);
      }
      r := SubtractList(nums.value);
    }
  }

  // ---------------------------------------------------------------------------
  // Properties

  /** Filtering keeps the order: the negatives of a concatenation are those of
      each part, in turn. */
  lemma {:induction false} NegativesAppend(a: seq<int>, b: seq<int>)
    ensures Negatives(a + b) == Negatives(a) + Negatives(b)
    decreases |a|
  {
    if a == [] {
      assert a + b == b;
    } else {
      assert (a + b)[0] == a[0];
      assert (a + b)[1..] == a[1..] + b;
      NegativesAppend(a[1..], b);
    }
  }

  lemma {:induction false} BelowAppend(a: seq<int>, b: seq<int>, bound: int)
    ensures Below(a + b, bound) == Below(a, bound) + Below(b, bound)
    decreases |a|
  {
    if a == [] {
      assert a + b == b;
    } else {
      assert (a + b)[0] == a[0];
      assert (a + b)[1..] == a[1..] + b;
      BelowAppend(a[1..], b, bound);
    }
  }

  lemma {:induction false} SumNatural(xs: seq<int>)
    requires forall x :: x in xs ==> x >= 0
    ensures Sum(xs) >= 0
    decreases |xs|
  {
    if xs != [] {
      assert xs[0] in xs;
      assert forall x :: x in xs[1..] ==> x in xs;
      SumNatural(xs[1..]);
    }
  }

  lemma {:induction false} SumAtMost(xs: seq<int>, high: int)
    requires forall x :: x in xs ==> x <= high
    ensures Sum(xs) <= high * |xs|
    decreases |xs|
  {
    if xs != [] {
      assert xs[0] in xs;
      assert forall x :: x in xs[1..] ==> x in xs;
      SumAtMost(xs[1..], high);
      assert high * |xs| == high + high * (|xs| - 1);
    }
  }

  /** For numbers that are not negative, the checked sum is the sum, or an
      `OverflowException` exactly when the sum does not fit in 32 bits. */
  lemma {:induction false} CheckedSumOfNatural(acc: int, xs: seq<int>)
    requires 0 <= acc && IsInt32(acc)
    requires forall x :: x in xs ==> x >= 0
    ensures CheckedSum(acc, xs) == if IsInt32(acc + Sum(xs)) then Ok(acc + Sum(xs)) else Throws(OverflowException)
    decreases |xs|
  {
    if xs != [] {
      assert xs[0] in xs;
      assert forall x :: x in xs[1..] ==> x in xs;
      SumNatural(xs[1..]);
      if IsInt32(acc + xs[0]) {
        CheckedSumOfNatural(acc + xs[0], xs[1..]);
      }
    }
  }

  /** `Add` throws exactly when a number is negative, with the message listing the
      negatives; otherwise it returns the sum of the numbers below 1000, unless
      that sum does not fit in 32 bits. */
  lemma AddListMeaning(nums: seq<int>)
    ensures (exists x :: x in nums && x < 0) ==>
      AddList(nums) == Throws(NegativeNumberException(NegativesMessage(Negatives(nums))))
    ensures (forall x :: x in nums ==> x >= 0) ==>
      AddList(nums) == if IsInt32(Sum(Below(nums, BOUND))) then Ok(Sum(Below(nums, BOUND))) else Throws(OverflowException)
  {
    if Negatives(nums) == [] {
      AddListOfNatural(nums);
    }
  }

  lemma AddListOfNatural(nums: seq<int>)
    requires Negatives(nums) == []
    ensures var kept := Below(nums, BOUND);
      AddList(nums) == if IsInt32(Sum(kept)) then Ok(Sum(kept)) else Throws(OverflowException)
  {
    var kept := Below(nums, BOUND);
    assert CheckedSum(0, kept) == if IsInt32(Sum(kept)) then Ok(Sum(kept)) else Throws(OverflowException) by {
      assert forall x :: x in kept ==> x >= 0;
      CheckedSumOfNatural(0, kept);
    }
    assert AddList(nums) == CheckedSum(0, kept);
  }

  /** Every number `Add` counts lies in 0..999, so the result is at most 999 per number. */
  lemma AddListBounds(nums: seq<int>)
    requires AddList(nums).Ok?
    ensures 0 <= AddList(nums).value <= 999 * |nums|
  {
    var kept := Below(nums, BOUND);
    assert forall x :: x in kept ==> 0 <= x <= 999;
    AddListMeaning(nums);
    SumNatural(kept);
    SumAtMost(kept, 999);
    assert 999 * |kept| <= 999 * |nums|;
  }

  /** Numbers below 1000 that are not negative, few enough for the sum to fit,
      add up to their sum: the case the randomised tests exercise. */
  lemma AddListOfSmallNumbers(nums: seq<int>)
    requires forall x :: x in nums ==> 0 <= x < BOUND
    requires |nums| <= 2000000
    ensures AddList(nums) == Ok(Sum(nums))
  {
    assert Below(nums, BOUND) == nums by {
      BelowKeepsAll(nums, BOUND);
    }
    SumNatural(nums);
    SumAtMost(nums, 999);
    AddListMeaning(nums);
  }

  /** Keeping the numbers below a bound above all of them keeps them all. */
  lemma {:induction false} BelowKeepsAll(nums: seq<int>, bound: int)
    requires forall x :: x in nums ==> x < bound
    ensures Below(nums, bound) == nums
    decreases |nums|
  {
    if nums != [] {
      assert nums[0] in nums;
      assert forall x :: x in nums[1..] ==> x in nums;
      BelowKeepsAll(nums[1..], bound);
    }
  }

  /** `Subtract` is `Add` turned around the first kept number: the first kept number
      minus the others is twice the first kept number minus their sum. */
  lemma SubtractIsTwiceFirstMinusAdd(nums: seq<int>)
    requires SubtractList(nums).Ok? && AddList(nums).Ok?
    ensures Below(nums, BOUND) != []
    ensures SubtractList(nums).value == 2 * Below(nums, BOUND)[0] - AddList(nums).value
  {
    var kept := Below(nums, BOUND);
    assert forall x :: x in kept ==> 0 <= x;
    AddListMeaning(nums);
    assert forall x :: x in kept[1..] ==> x in kept;
    SumNatural(kept[1..]);
    CheckedSumOfNatural(0, kept[1..]);
  }

  /** `Subtract` throws exactly when a number is negative (the same exception as
      `Add`), or when no number is below 1000; otherwise it returns the first number
      below 1000 minus the sum of the later ones, unless that sum does not fit in
      32 bits, where the checked `Sum` throws. */
  lemma SubtractListMeaning(nums: seq<int>)
    ensures (exists x :: x in nums && x < 0) ==>
      SubtractList(nums) == Throws(NegativeNumberException(NegativesMessage(Negatives(nums))))
    ensures (forall x :: x in nums ==> x >= 0) && Below(nums, BOUND) == [] ==>
      SubtractList(nums) == Throws(ArgumentOutOfRangeException)
    ensures (forall x :: x in nums ==> x >= 0) && Below(nums, BOUND) != [] ==>
      var kept := Below(nums, BOUND);
      SubtractList(nums) == if IsInt32(Sum(kept[1..])) then Ok(kept[0] - Sum(kept[1..])) else Throws(OverflowException)
  {
    if Negatives(nums) == [] && Below(nums, BOUND) != [] {
      SubtractListOfNatural(nums);
    }
  }

  lemma SubtractListOfNatural(nums: seq<int>)
    requires Negatives(nums) == [] && Below(nums, BOUND) != []
    ensures var kept := Below(nums, BOUND);
      SubtractList(nums) == if IsInt32(Sum(kept[1..])) then Ok(kept[0] - Sum(kept[1..])) else Throws(OverflowException)
  {
    var kept := Below(nums, BOUND);
    assert SubtractList(nums) == SubtractKept(kept);
    assert forall x :: x in kept ==> x >= 0;
    SubtractKeptMeaning(kept);
  }

  /** The first kept number minus the checked sum of the others. */
  lemma SubtractKeptMeaning(kept: seq<int>)
    requires kept != []
    requires forall x :: x in kept ==> x >= 0
    ensures SubtractKept(kept) ==
      if IsInt32(Sum(kept[1..])) then Ok(kept[0] - Sum(kept[1..])) else Throws(OverflowException)
  {
    assert forall x :: x in kept[1..] ==> x in kept;
    CheckedSumOfNatural(0, kept[1..]);
  }

  lemma SubtractOfKept(kept: seq<int>)
    requires kept != [] && |kept| <= 2000000
    requires forall x :: x in kept ==> 0 <= x < BOUND
    ensures SubtractKept(kept) == Ok(kept[0] - Sum(kept[1..]))
  {
    var rest := kept[1..];
    assert forall x :: x in rest ==> x in kept;
    SumNatural(rest);
    SumAtMost(rest, 999);
    assert 999 * |rest| <= 999 * 2000000;
    SubtractKeptMeaning(kept);
  }

  /** The numbers can be read back from the exception message: after the fixed
      prefix, splitting on `", "` and parsing gives the negatives in order. */
  lemma NegativesMessageRoundTrip(negatives: seq<int>)
    requires negatives != []
    requires forall x :: x in negatives ==> x < 0 && IsInt32(x)
    ensures "negatives not allowed: " <= NegativesMessage(negatives)
    ensures DelimiterParsing.ParseAll(
      Split(NegativesMessage(negatives)[|"negatives not allowed: "|..], [", "])) == Ok(negatives)
  {
    var prefix := "negatives not allowed: ";
    var strs := FormatAll(negatives);
    var message := NegativesMessage(negatives);
    assert message[|prefix|..] == Join(", ", strs);
    assert SplitAll(Join(", ", strs), [", "]) == strs by {
      DelimiterParsing.FormattedAllHaveNoSeparatorStart(negatives, [", "]);
      SplitJoin(strs, ", ", [", "]);
    }
    RemoveEmptyKeepsNonEmpty(strs);
    DelimiterParsing.ParseAllFormatted(negatives);
  }

  // The examples in Calculator.cs, where the parser hands over the lists.

  lemma AddExample()
    ensures AddList([1, 2, 3]) == Ok(6)
  {
    AddListOfSmallNumbers([1, 2, 3]);
    assert Sum([1, 2, 3]) == 6;
  }

  lemma AddIgnoresLargeExample()
    ensures AddList([1, 2000, 3]) == Ok(4)
  {
    assert Below([1, 2000, 3], BOUND) == [1, 3];
    AddListMeaning([1, 2000, 3]);
    assert Sum([1, 3]) == 4;
  }

  lemma AddNegativesExample()
    ensures AddList([-1, -2, 3]) == Throws(NegativeNumberException("negatives not allowed: -1, -2"))
  {
    NegativesExample();
  }

  lemma SubtractExample()
    ensures SubtractList([5, 2, 3]) == Ok(0)
  {
    assert Below([5, 2, 3], BOUND) == [5, 2, 3];
    SubtractListMeaning([5, 2, 3]);
    assert [5, 2, 3][1..] == [2, 3];
    assert Sum([2, 3]) == 5;
  }

  lemma SubtractIgnoresLargeExample()
    ensures SubtractList([3, 2000, 1]) == Ok(2)
  {
    assert Below([3, 2000, 1], BOUND) == [3, 1];
    SubtractListMeaning([3, 2000, 1]);
    assert [3, 1][1..] == [1];
  }

  lemma SubtractNegativesExample()
    ensures SubtractList([-1, -2, 3]) == Throws(NegativeNumberException("negatives not allowed: -1, -2"))
  {
    NegativesExample();
  }

  lemma NegativesExample()
    ensures Negatives([-1, -2, 3]) == [-1, -2]
    ensures NegativesMessage([-1, -2]) == "negatives not allowed: -1, -2"
  {
    NegativesOfExample();
    JoinExample();
  }

  lemma JoinExample()
    ensures Join(", ", FormatAll([-1, -2])) == "-1, -2"
  {
    FormatExample();
    assert Join(", ", ["-1", "-2"]) == "-1, -2";
  }

  lemma NegativesOfExample()
    ensures Negatives([-1, -2, 3]) == [-1, -2]
  {
    assert [-1, -2, 3][1..] == [-2, 3];
    assert [-2, 3][1..] == [3];
    assert [3][1..] == [];
  }

  lemma FormatExample()
    ensures FormatAll([-1, -2]) == ["-1", "-2"]
  {
    assert FormatInt32(-1) == "-1" by {
      assert DigitChar(1) == '1';
    }
    assert FormatInt32(-2) == "-2" by {
      assert DigitChar(2) == '2';
    }
  }
}
