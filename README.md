# String calculator, modelled in Dafny

The repository holds three variants of a string calculator. Each one adds up
the numbers in a text such as `1,2`, `//;\n1;2` or `//[***][%%%]\n1***2%%%3`.

- **`StringParser`** (StringParser.cs) picks one of three delimiter
  extractors:
  - the default one finds `,` and `\n`;
  - the custom one takes the character after `//`;
  - the extended one reads a header of bracketed delimiters.

  `GetNumbers` then cuts off the header, splits the body with .NET
  `String.Split` (dropping empty pieces) and parses every piece with
  `Int32.Parse`.
- **`Calculator`** (Calculator.cs) asks that parser for the numbers. It
  rejects negatives with a message that lists them all and keeps the numbers
  below 1000. `Add` returns their checked sum; `Subtract` returns the first
  minus the rest.
- **`calc.Calculator`** (CalcForCheck.cs) has its own copy of the parser,
  which already drops numbers of 1000 and above. Its `Subtract` always
  returns 0.
- **The kata's `StringCalculator`** (KataByKalinets.cs) is stateful. It
  keeps its delimiters, the delimiter it matched last and every negative it
  has parsed in fields, and adds by recursion over the text:
  - `IndexOfAny` finds the first delimiter, in list order, that occurs
    anywhere in the text;
  - the head before that occurrence is parsed and added, in unchecked 32-bit
    arithmetic, to the sum of the rest;
  - numbers above 1000 count as 0;
  - after the whole sum, any negative met so far (in this call or an earlier
    one) makes `Add` throw.

The project has these modules:

| module | file | models |
|---|---|---|
| `Exceptions` | exceptions.dfy | `Option` and a `Result` that is a value or a .NET exception |
| `DotNetText` | dotnet_text.dfy | the .NET library calls the code relies on: ordinal `IndexOf`, `Split` with `RemoveEmptyEntries`, `Int32.Parse`, `Int32.ToString`, `String.Join` |
| `DelimiterParsing` | delimiter_parsing.dfy | StringParser.cs: the three extractors, the choice between them, and `GetNumbers` |
| `GuardedCalculator` | guarded_calculator.dfy | Calculator.cs |
| `CheckCalculator` | check_calculator.dfy | CalcForCheck.cs |
| `KataCalculator` | kata_calculator.dfy | KataByKalinets.cs, as a class with the four fields |
| `KataProperties` | kata_properties.dfy | what `IndexOfAny`, `InternalAdd` and `Add` compute, for all inputs |
| `KataExamples` | kata_examples.dfy | the kata's tests, and a few inputs that show how it cuts its text |

Each C# method that changes state is a Dafny method. Its contract ties its
result and its new fields to a function of the inputs and the old fields:
`Delimiters`, `Numbers`, `AddInput`, `FilteredNumbers` or `AddOutcome`. The
lemmas state what those functions compute. An exception is the `Throws` case
of a `Result`, with the .NET exception class and, where the code builds one,
its message. The two classes named `NegativeNumberException` (one in the
`StringCalculator` namespace, one in `calc`) are two constructors.

## Model

| member | source | states |
|---|---|---|
| DotNetText.IndexOfMeaning | StringCalculator/KataByKalinets.cs:231 | ordinal `IndexOf` returns -1 exactly when the delimiter occurs nowhere; otherwise it returns an occurrence with no earlier one |
| DotNetText.IndexOfChar | StringCalculator/StringParser.cs:91 | `IndexOf('\n')` is -1 exactly when there is no newline; otherwise it is the index of the first one |
| DotNetText.SplitJoin | StringCalculator/StringParser.cs:95 | `Split` undoes `Join` when no separator can start inside a piece |
| DotNetText.SplitInterleaved | StringCalculator/StringParser.cs:95 | `Split` recovers the pieces, whichever recognised separators stand between them |
| DotNetText.SplitPiecesFromInput | StringCalculator/StringParser.cs:95 | every character of a piece comes from the input |
| DotNetText.RemoveEmpty | StringCalculator/StringParser.cs:95 | `RemoveEmptyEntries` keeps only non-empty pieces, all taken from the split |
| DotNetText.ParseInt32 | StringCalculator/KataByKalinets.cs:254-257 | `Int32.Parse` gives a 32-bit value from non-empty text, or throws `FormatException` or `OverflowException` |
| DotNetText.ParseFormatRoundTrip | StringCalculator/KataByKalinets.cs:254-257 | `Int32.Parse` reads back what `Int32.ToString` writes, for every 32-bit value |
| DotNetText.FormatInt32 | StringCalculator/Calculator.cs:24 | `ToString` of an int is non-empty, ends in a digit and holds only digits and `-` |
| DelimiterParsing.SelectExtractor | StringCalculator/StringParser.cs:78-82 | exactly one extractor: default without `//`, extended with `//` and a `[` anywhere, custom otherwise |
| DelimiterParsing.DefaultDelimiters | StringCalculator/StringParser.cs:19-28 | `,` is present exactly when a comma occurs, `\n` exactly when a newline occurs, and `,` comes first |
| DelimiterParsing.CustomDelimiters | StringCalculator/StringParser.cs:34-37 | the one-character string at index 2, or `IndexOutOfRangeException` when the text has no index 2 |
| DelimiterParsing.AllMatches | StringCalculator/StringParser.cs:48-53 | the regex matches are characters the pattern keeps, at most as many as the header has |
| DelimiterParsing.ExtendedDelimiters | StringCalculator/StringParser.cs:43-56 | throws `ArgumentOutOfRangeException` exactly when there is no newline for `Substring` to stop at |
| DelimiterParsing.ExtendedGetDelimiters | StringCalculator/StringParser.cs:43-56 | the match loop, appending one match at a time, computes `ExtendedDelimiters` |
| DelimiterParsing.ExtendedDelimitersWellFormed | StringCalculator/StringParser.cs:43-56 | every extended delimiter is non-empty, holds no `]` and holds only characters the pattern keeps |
| DelimiterParsing.ExtendedDelimitersRoundTrip | StringCalculator/StringParser.cs:43-56 | a header `//[d1][d2]…` of such delimiters gives back exactly `d1, d2, …` in header order |
| DelimiterParsing.AllMatchesAppend | StringCalculator/StringParser.cs:48-53 | matching a concatenation concatenates the matches |
| DelimiterParsing.Numbers | StringCalculator/StringParser.cs:87-98 | a text with `//` and no newline makes `GetNumbers` throw |
| DelimiterParsing.StringParser.constructor | StringCalculator/StringParser.cs:72-74 | a new parser has no extractor yet |
| DelimiterParsing.StringParser.GetDelimiters | StringCalculator/StringParser.cs:76-85 | sets the extractor to the selected one and returns its delimiters or exception |
| DelimiterParsing.StringParser.GetNumbers | StringCalculator/StringParser.cs:87-98 | sets the extractor and returns `Numbers(input)` |
| DelimiterParsing.ParseAllMeaning | StringCalculator/StringParser.cs:93-97 | parsing the pieces succeeds exactly when every piece parses, with one value per piece in order; otherwise the first failing piece's exception |
| DelimiterParsing.ParseAllFormatted | StringCalculator/StringParser.cs:96 | pieces written by `ToString` parse back to their values |
| DelimiterParsing.CustomHeaderNumbers | StringCalculator/StringParser.cs:87-98 | after `//c\n` the body, newline included, is split on `c` alone and parsed |
| DelimiterParsing.ExtendedHeaderNumbers | StringCalculator/StringParser.cs:87-98 | after a bracketed header the body, newline included, is split on the header's delimiters and parsed |
| DelimiterParsing.ParseAfterNewline | StringCalculator/StringParser.cs:91-96 | the first piece of a body, which starts with the newline, parses to its number |
| DelimiterParsing.NumbersOfEmptyInput | StringCalculator/StringParser.cs:93-97 | the empty text gives the empty list |
| DelimiterParsing.NumbersOfJoinedValues | StringCalculator/StringParser.cs:87-98 | any 32-bit values joined with `,` come back as the same list |
| DelimiterParsing.NumbersOfCustomDelimited | StringCalculator/StringParser.cs:87-98 | values joined with a custom character after `//c\n` come back as the same list |
| DelimiterParsing.NumbersOfExtendedDelimited | StringCalculator/StringParser.cs:87-98 | values separated by any of the bracketed delimiters come back as the same list |
| DelimiterParsing.CustomHeaderWithoutNumbersThrows | StringCalculator/StringParser.cs:91-96 | `//c\n` with no body throws `FormatException`: the lone `\n` piece does not parse |
| DelimiterParsing.DefaultExample | StringCalculator/StringParser.cs:105-112 | `"1,2"` gives `[1, 2]` |
| DelimiterParsing.DefaultExampleDelimiters | StringCalculator/StringParser.cs:134-141 | the delimiters of `"1,2"` are `[","]` |
| DelimiterParsing.CustomExample | StringCalculator/StringParser.cs:114-122 | `"//;\n1;2"` gives `[1, 2]` |
| DelimiterParsing.CustomExampleHeader | StringCalculator/StringParser.cs:143-150 | the delimiters of `"//;\n1;2"` are `[";"]` |
| DelimiterParsing.ExtendedExample | StringCalculator/StringParser.cs:124-132 | `"//[***][%%%][$$$]\n1***2%%%3$$$4"` gives `[1, 2, 3, 4]` and the delimiters `["***", "%%%", "$$$"]` |
| GuardedCalculator.Negatives | StringCalculator/Calculator.cs:23 | exactly the negatives of the list, none else; empty exactly when nothing is negative |
| GuardedCalculator.Below | StringCalculator/Calculator.cs:27 | exactly the numbers of the list below the bound |
| GuardedCalculator.NegativesAppend | StringCalculator/Calculator.cs:23 | the negatives of a concatenation are those of its parts, in order |
| GuardedCalculator.BelowAppend | StringCalculator/Calculator.cs:27 | filtering a concatenation concatenates the filtered parts |
| GuardedCalculator.CheckedSumOfNatural | StringCalculator/Calculator.cs:26-28 | LINQ `Sum` of non-negative numbers is their sum, or `OverflowException` when that leaves the 32-bit range |
| GuardedCalculator.Calculator.constructor | StringCalculator/Calculator.cs:14-17 | the calculator keeps the parser it is given |
| GuardedCalculator.Calculator.Add | StringCalculator/Calculator.cs:19-29 | returns `AddInput(numbers)` and leaves the parser's extractor set as `GetNumbers` does |
| GuardedCalculator.Calculator.Subtract | StringCalculator/Calculator.cs:31-42 | returns `SubtractInput(numbers)` and leaves the parser's extractor set |
| GuardedCalculator.AddListMeaning | StringCalculator/Calculator.cs:19-29 | any negative: `NegativeNumberException` listing all negatives; otherwise the checked sum of the numbers below 1000 |
| GuardedCalculator.AddListBounds | StringCalculator/Calculator.cs:26-28 | a successful sum is between 0 and 999 per number |
| GuardedCalculator.AddListOfSmallNumbers | StringCalculator/Calculator.cs:94-105 | numbers in 0..999 add up to their plain sum |
| GuardedCalculator.SubtractListMeaning | StringCalculator/Calculator.cs:31-42 | any negative: the same exception as `Add`; nothing kept: `ArgumentOutOfRangeException`; otherwise the first kept number minus the sum of the other kept numbers, or `OverflowException` when that sum does not fit in 32 bits |
| GuardedCalculator.SubtractIsTwiceFirstMinusAdd | StringCalculator/Calculator.cs:19-42 | when both succeed, `Subtract` is twice the first kept number minus `Add` |
| GuardedCalculator.SubtractOfKept | StringCalculator/Calculator.cs:38-41 | for kept numbers in 0..999, `Subtract` is the first minus the plain sum of the rest |
| GuardedCalculator.NegativesMessageRoundTrip | StringCalculator/Calculator.cs:24 | the message starts with `negatives not allowed: ` and the negatives can be read back from the rest |
| GuardedCalculator.AddExample | StringCalculator/Calculator.cs:62-71 | `[1, 2, 3]` adds to 6 |
| GuardedCalculator.AddIgnoresLargeExample | StringCalculator/Calculator.cs:73-82 | `[1, 2000, 3]` adds to 4 |
| GuardedCalculator.AddNegativesExample | StringCalculator/Calculator.cs:84-92 | `[-1, -2, 3]` throws with `negatives not allowed: -1, -2` |
| GuardedCalculator.SubtractExample | StringCalculator/Calculator.cs:107-116 | `[5, 2, 3]` subtracts to 0 |
| GuardedCalculator.SubtractIgnoresLargeExample | StringCalculator/Calculator.cs:118-127 | `[3, 2000, 1]` subtracts to 2 |
| GuardedCalculator.SubtractNegativesExample | StringCalculator/Calculator.cs:129-137 | `[-1, -2, 3]` throws from `Subtract` with the same message |
| CheckCalculator.FilteredNumbers | StringCalculator/CalcForCheck.cs:101-112 | succeeds exactly when the unfiltered parse does, with its exception otherwise, and never keeps more numbers |
| CheckCalculator.FilteredNumbersMeaning | StringCalculator/CalcForCheck.cs:106-111 | a number is kept exactly when it was parsed and is below 1000; negatives pass |
| CheckCalculator.FilteredSmallNumbers | StringCalculator/CalcForCheck.cs:106-111 | when every number is below 1000, the filter keeps the list as it is |
| CheckCalculator.StringParser.constructor | StringCalculator/CalcForCheck.cs:86-88 | a new parser has no extractor yet |
| CheckCalculator.StringParser.GetDelimiters | StringCalculator/CalcForCheck.cs:90-99 | the same extractor choice and delimiters as in StringParser.cs |
| CheckCalculator.StringParser.GetNumbers | StringCalculator/CalcForCheck.cs:101-112 | returns `FilteredNumbers(input)`, every number below 1000 |
| CheckCalculator.Calculator.constructor | StringCalculator/CalcForCheck.cs:11-13 | the unused `Numbers` property starts as the empty string (null in C#, see below) |
| CheckCalculator.Calculator.Add | StringCalculator/CalcForCheck.cs:15-23 | returns `AddInput(numbers)`: negatives throw, otherwise the checked sum of the filtered numbers |
| CheckCalculator.Calculator.Subtract | StringCalculator/CalcForCheck.cs:25-29 | always 0 |
| CheckCalculator.AddAgreesWithCalculator | StringCalculator/CalcForCheck.cs:15-23 | on the same text, this `Add` and Calculator.cs's `Add` with a plain `StringParser` return the same value or throw the same exception, except that Calculator.cs's `NegativeNumberException` is `calc.NegativeNumberException` here, with the same message |
| CheckCalculator.NegativesOfBelow | StringCalculator/CalcForCheck.cs:19 | filtering below 1000 before the negative check loses no negative |
| CheckCalculator.AddExample | StringCalculator/CalcForCheck.cs:119-130 | `"//;\n1;2"` adds to 3 |
| CheckCalculator.GetNumbersDefaultExample | StringCalculator/CalcForCheck.cs:132-139 | `"1,2"` gives `[1, 2]` |
| CheckCalculator.GetNumbersCustomExample | StringCalculator/CalcForCheck.cs:141-149 | `"//;\n1;2"` gives `[1, 2]` |
| CheckCalculator.GetNumbersExtendedExample | StringCalculator/CalcForCheck.cs:151-159 | `"//[***][%%%][$$$]\n1***2%%%3$$$4"` gives `[1, 2, 3, 4]` |
| KataCalculator.UncheckedAdd | StringCalculator/KataByKalinets.cs:224 | the sum stays a 32-bit value and is the plain sum whenever that fits |
| KataCalculator.UncheckedAddWraps | StringCalculator/KataByKalinets.cs:224 | the unchecked sum differs from the true sum by a multiple of 2^32, so an overflowing sum wraps around |
| KataCalculator.BeforeNewline | StringCalculator/KataByKalinets.cs:195 | a prefix of the text with no newline |
| KataCalculator.FromNewline | StringCalculator/KataByKalinets.cs:187 | what follows that prefix: empty, or starting at the first newline |
| KataCalculator.FirstOccurring | StringCalculator/KataByKalinets.cs:227-239 | a found delimiter is in the list and occurs at the found index |
| KataCalculator.ParseRun | StringCalculator/KataByKalinets.cs:241-249 | succeeds exactly when `Int32.Parse` does, on non-empty text, with a value of at most 1000 |
| KataCalculator.StringCalculator.constructor | StringCalculator/KataByKalinets.cs:162-167 | no negatives, delimiters `,` and `\n` |
| KataCalculator.StringCalculator.Add | StringCalculator/KataByKalinets.cs:169-180 | the result and the new fields are `AddOutcome` of the old fields |
| KataCalculator.StringCalculator.FindCustomDelimiters | StringCalculator/KataByKalinets.cs:182-189 | the delimiters and the text become those `FindCustom` gives, or `IndexOutOfRangeException` for `//` alone |
| KataCalculator.StringCalculator.GetCustomDelimiters | StringCalculator/KataByKalinets.cs:191-209 | the character loop computes the tokens of the header line |
| KataCalculator.StringCalculator.InternalAdd | StringCalculator/KataByKalinets.cs:211-225 | the result, the negatives appended and the delimiter left current are those of `InternalRun` |
| KataCalculator.StringCalculator.IndexOfAny | StringCalculator/KataByKalinets.cs:227-239 | -1 and nothing changed when no delimiter occurs; otherwise the index of `FirstOccurring`, with its delimiter made current |
| KataCalculator.StringCalculator.Parse | StringCalculator/KataByKalinets.cs:241-249 | the counted value or the parse exception; a negative value is appended to the negatives |
| KataProperties.FirstOccurringMeaning | StringCalculator/KataByKalinets.cs:227-239 | nothing found exactly when no delimiter occurs; otherwise the first occurrence of a delimiter that stands, in the list, before every other one that occurs |
| KataProperties.PiecesShape | StringCalculator/KataByKalinets.cs:217-224 | the text is cut into no piece exactly when it is empty; every piece but the last ends at a delimiter of the list |
| KataProperties.PiecesRejoin | StringCalculator/KataByKalinets.cs:222-223 | with no empty delimiter, the pieces and the delimiters cut at put back together give the text |
| KataProperties.FoldOfParsed | StringCalculator/KataByKalinets.cs:211-249 | when every piece parses, the run returns the counted sum, collects the negatives in order and ends on the last delimiter cut at |
| KataProperties.FoldThrowsAtFailure | StringCalculator/KataByKalinets.cs:224 | the run throws what the first piece that does not parse throws |
| KataProperties.RunOfInterleaved | StringCalculator/KataByKalinets.cs:211-249 | numbers written with delimiters that are apart and in list order give back their counted sum and their negatives |
| KataProperties.HeaderTokensOfBracketed | StringCalculator/KataByKalinets.cs:191-209 | a header `//[d1][d2]…` gives back `d1, d2, …` in header order |
| KataProperties.AddOfEmpty | StringCalculator/KataByKalinets.cs:169-180 | `Add("")` returns 0 unless a negative was met before, and changes only `numbers` |
| KataProperties.AddOfNumbers | StringCalculator/KataByKalinets.cs:169-180 | numbers written with the current delimiters give their counted sum, or the exception naming every negative met so far; the delimiters stay |
| KataProperties.AddOfCustom | StringCalculator/KataByKalinets.cs:169-189 | after `//c\n` the delimiters become `[c]` and the body adds up as above |
| KataProperties.AddOfBracketed | StringCalculator/KataByKalinets.cs:169-209 | after a bracketed header the delimiters become those of the header and the body adds up as above |
| KataProperties.DelimitersPersist | StringCalculator/KataByKalinets.cs:182-189 | a text without `//` leaves the delimiters of the earlier calls |
| KataProperties.NegativesPersist | StringCalculator/KataByKalinets.cs:169-180 | the negatives only grow, and once one is met every later `Add` throws |
| KataProperties.CountedSumOfNatural | StringCalculator/KataByKalinets.cs:224 | for non-negative numbers the unchecked sum is the plain sum of those up to 1000 |
| KataProperties.JoinInterleaves | StringCalculator/KataByKalinets.cs:56 | `String.Join` puts the separator between every two values |
| KataProperties.AddOfJoined | StringCalculator/KataByKalinets.cs:51-65 | non-negative numbers joined with `,` add up to the sum of those up to 1000 |
| KataProperties.AddOfSmallJoined | StringCalculator/KataByKalinets.cs:51-69 | numbers in 0..999 joined with `,` add up to their sum |
| KataExamples.EmptyExample | StringCalculator/KataByKalinets.cs:13-23 | `""` gives 0 |
| KataExamples.SingleExample | StringCalculator/KataByKalinets.cs:25-36 | `"5"` gives 5 |
| KataExamples.TwoExample | StringCalculator/KataByKalinets.cs:38-49 | `"5,9"` gives 14 |
| KataExamples.NewlineExample | StringCalculator/KataByKalinets.cs:77-88 | `"3,4\n6\n7"` gives 20 |
| KataExamples.CustomExample | StringCalculator/KataByKalinets.cs:90-101 | `"//*\n4*3*2"` gives 9 |
| KataExamples.NegativesExample | StringCalculator/KataByKalinets.cs:103-115 | `"-1,2,-3"` throws `InvalidOperationException` with `negatives are not allowed: -1,-3` |
| KataExamples.AboveThresholdExample | StringCalculator/KataByKalinets.cs:117-128 | `"2,1002"` gives 2 |
| KataExamples.AnyLengthExample | StringCalculator/KataByKalinets.cs:130-141 | `"//[***]\n1***2***3"` gives 6 |
| KataExamples.MultipleExample | StringCalculator/KataByKalinets.cs:143-154 | `"//[==-][&&$]\n2==-3==-6&&$8&&$9"` gives 28 |
| KataExamples.ListOrderExample | StringCalculator/KataByKalinets.cs:217-239 | `"1\n2,3"` throws `FormatException`: `,` is found first because it stands first in the list, and the head `1\n2` does not parse |
| KataExamples.SlashesOnlyExample | StringCalculator/KataByKalinets.cs:184-186 | `"//"` throws `IndexOutOfRangeException` and keeps the other fields |
| KataExamples.CarryOverExample | StringCalculator/KataByKalinets.cs:162-189 | after `"//;\n1;2"` gives 3, a second call with `"3;4"` on the same calculator gives 7 |

## Left out

- Pofig.cs is not part of this model: it downloads data over HTTP or sums what an external provider returns.
- The test classes are not modelled as code. Their fixed inputs appear as example lemmas. Their mocks (NSubstitute), their console output and their random data (`System.Random`, `Guid.GetHashCode`) are left out. Lemmas over all lists of numbers in the tested range stand in for the random tests.
- Strings are modelled as sequences of Unicode characters, while a .NET string is a sequence of UTF-16 code units. The two differ on characters outside the Basic Multilingual Plane. On `"//😀\n1😀2"`, `input[2]` (StringParser.cs:36, KataByKalinets.cs:186) is only the high surrogate U+D83D, so .NET splits the body into `"\n1"` and `"\uDE002"` and `Int32.Parse` throws `FormatException`. The model takes the whole emoji as the delimiter: `Numbers` returns `[1, 2]` and the kata returns 3.
- The regular expression engine: the pattern `[^\w\./\[,\n]` is modelled as a per-character test, and `\w` as ASCII letters, digits and `_`. Unicode letters and digits also count as `\w` in .NET.
- `Int32.Parse` is modelled as invariant culture with `NumberStyles.Integer`: white space (tab to carriage return, and space, which is all that `NumberStyles.Integer` allows), an optional sign, then decimal digits. Culture-specific signs are left out. So is the trailing NUL characters quirk.
- `String.Split` with an empty separator array splits on every character `Char.IsWhiteSpace` accepts (`WHITE_SPACE_SEPARATORS`: tab to carriage return, space, U+0085, U+00A0, U+1680, U+2000 to U+200A, U+2028, U+2029, U+202F, U+205F and U+3000). Nothing is left out there.
- CheckCalculator.AddAgreesWithCalculator: Calculator.cs's side is taken with a plain `StringParser`. `GetNumbers` is `virtual` (StringParser.cs:87), and a parser that overrides it can make Calculator.cs's `Add` return anything; overriding parsers are not modelled.
- CalcForCheck.cs repeats StringParser.cs's extractors word for word. `CheckCalculator` reuses the `DelimiterParsing` model of them rather than a second copy.
- DelimiterParsing.SelectExtractor: `input.StartsWith("//")` (StringParser.cs:78, CalcForCheck.cs:92) compares by the current culture in .NET, which ignores characters such as the soft hyphen U+00AD. The model tests an ordinal prefix. The two differ on `"\u00AD//\n1"`: .NET picks the custom extractor with delimiter `/` and returns `[1]`, the model picks the default one and throws `FormatException`.
- KataCalculator.StringCalculator.Add: `numbers.StartsWith("//")` (KataByKalinets.cs:184) is culture-sensitive in the same way and is modelled as an ordinal prefix test. On `"\u00AD//\n1"` .NET takes `/` as the delimiter and the model keeps the old ones, which shows on the next call.
- KataCalculator.StringCalculator.constructor: `currentDelimiter` and `numbers` start as null in C#. Both are written before they are read, so the model starts them as empty strings.
- CheckCalculator.Calculator.constructor: the `Numbers` auto-property (CalcForCheck.cs:13) starts as null in C#. It is never read, so the model starts it as the empty string.
- KataCalculator.Pieces: when the empty delimiter (from a header `//[]`) is matched, the cutting stops after the empty head. C# would throw on that head (`Int32.Parse("")`) before it cut again, and `Fold` throws on it too, so nothing observable is lost.
- The kata adds with C#'s default unchecked `int` arithmetic (`UncheckedAdd`). The two LINQ sums in Calculator.cs and CalcForCheck.cs are checked (`CheckedSum`).
- Object identity is not modelled. `Calculator.cs`'s parser is a reference the calculator shares with its creator; the model states only the parser's `extractor` field, which is all the parser holds.
