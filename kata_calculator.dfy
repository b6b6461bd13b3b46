/** KataByKalinets.cs: the kata's `StringCalculator`. It keeps its delimiters, the
    delimiter it matched last and every negative number it has parsed in fields,
    and adds by recursion over the text: the first delimiter, in list order, that
    occurs anywhere in the text cuts off the head, which is parsed and added to the
    sum of the rest. Numbers above 1000 count as 0; the negatives are reported once
    the whole sum is done. */
module KataCalculator {
  import opened Exceptions
  import opened DotNetText
  import DelimiterParsing
  import GuardedCalculator

  /** Numbers above this count as 0. */
  const THRESHOLD: int := 1000

  /** The delimiters of a fresh calculator. */
  const DEFAULT_DELIMITERS: seq<string> := [",", "\n"]

  const NEGATIVES_PREFIX: string := "negatives are not allowed: "

  const TWO_TO_32: int := 0x1_0000_0000

  /** `a + b` in unchecked 32-bit `int` arithmetic: the sum, wrapped around into
      the 32-bit range when it leaves it. */
  function UncheckedAdd(a: int, b: int): (r: int)
    requires IsInt32(a) && IsInt32(b)
    ensures IsInt32(r)
    ensures IsInt32(a + b) ==> r == a + b
  {
    var sum := a + b;
    if sum > INT32_MAX then sum - TWO_TO_32
    else if sum < INT32_MIN then sum + TWO_TO_32
    else sum
  }
  /** The unchecked sum differs from the true sum by a multiple of 2^32: it is the
      true sum reduced into the 32-bit range. */
  lemma UncheckedAddWraps(a: int, b: int)
    requires IsInt32(a) && IsInt32(b)
    ensures (UncheckedAdd(a, b) - (a + b)) % TWO_TO_32 == 0
  {
  }


  /** What `Parse` makes of the value `v`. */
  function Counted(v: int): int {
    if v > THRESHOLD then 0 else v
  }

  /** The fields of a `StringCalculator`. */
  datatype State = State(negatives: seq<int>, currentDelimiter: string, delimiters: seq<string>, numbers: string)

  /** A fresh calculator. `numbers` and `currentDelimiter` start as null in C#;
      both are written before they are read, so the empty string stands in. */
  const INITIAL: State := State([], "", DEFAULT_DELIMITERS, "")

  // ---------------------------------------------------------------------------
  // The header

  /** `s.TakeWhile(c => c != '\n')`. */
  function BeforeNewline(s: string): (r: string)
    ensures r <= s && '\n' !in r
  {
    var i := IndexOfChar(s, '\n');
    if i == -1 then s else s[..i]
  }

  /** `s.SkipWhile(c => c != '\n')`: the text from the first newline on, or nothing. */
  function FromNewline(s: string): (r: string)
    ensures BeforeNewline(s) + r == s
    ensures r == [] || r[0] == '\n'
  {
    var i := IndexOfChar(s, '\n');
    if i == -1 then [] else s[i..]
  }

  /** The state of the `Aggregate` in `GetCustomDelimiters`: the `StringBuilder`
      and the list of delimiters found so far. */
  datatype Tokens = Tokens(buffer: string, list: seq<string>)

  /** One step of the aggregation: `[` clears the buffer, `]` adds the buffer to
      the list and leaves it as it is, any other character is appended to it. */
  function Step(acc: Tokens, c: char): Tokens {
    if c == '[' then acc.(buffer := "")
    else if c == ']' then acc.(list := acc.list + [acc.buffer])
    else acc.(buffer := acc.buffer + [c])
  }

  /** The aggregation over `chars`, from `start`. */
  function Scan(start: Tokens, chars: string): Tokens
    decreases |chars|
  {
    if chars == [] then start else Step(Scan(start, chars[..|chars| - 1]), chars[|chars| - 1])
  }

  /** What `GetCustomDelimiters` returns for the text `numbers`. */
  function HeaderTokens(numbers: string): seq<string> {
    Scan(Tokens("", []), BeforeNewline(numbers)).list
  }

  /** What `FindCustomDelimiters` leaves in `delimiters` and `numbers`, or what it
      throws: after `//` the third character is the delimiter unless it is `[`,
      which starts the bracketed list; the text is then cut at the first newline.
      Text of two characters, `//`, has no third one to read. */
  function FindCustom(numbers: string, delimiters: seq<string>): Result<(seq<string>, string)> {
    if "//" <= numbers then
      if |numbers| == 2 then Throws(IndexOutOfRangeException)
      else if numbers[2] != '[' then Ok(([[numbers[2]]], FromNewline(numbers)))
      else Ok((HeaderTokens(numbers), FromNewline(numbers)))
    else Ok((delimiters, numbers))
  }

  // ---------------------------------------------------------------------------
  // The sum

  /** A delimiter found in the text, and the index of its first occurrence. */
  datatype Found = Found(index: nat, delimiter: string)

  /** What `IndexOfAny(items)` finds: the first delimiter, in list order, that
      occurs anywhere in `items`, with the index of its first occurrence. */
  function FirstOccurring(items: string, delimiters: seq<string>): (r: Option<Found>)
    decreases |delimiters|
    ensures r.Some? ==> r.value.delimiter in delimiters && OccursAt(items, r.value.delimiter, r.value.index)
  {
    if delimiters == [] then None
    else
      var index := IndexOf(items, delimiters[0]);
      if index > -1 then Some(Found(index, delimiters[0]))
      else FirstOccurring(items, delimiters[1..])
  }

  /** The outcome of a run of `InternalAdd`: what it returns or throws, the
      negatives it parsed, in order, and the value it leaves in `currentDelimiter`. */
  datatype Run = Run(total: Result<int>, seen: seq<int>, current: string)

  /** `Parse(items)`, with `current` as the delimiter last matched. */
  function ParseRun(items: string, current: string): (r: Run)
    ensures r.total.Ok? <==> ParseInt32(items).Ok?
    ensures r.total.Ok? ==> items != "" && r.total.value <= THRESHOLD
  {
    match ParseInt32(items)
    case Throws(e) => Run(Throws(e), [], current)
    case Ok(v) => Run(Ok(Counted(v)), if v < 0 then [v] else [], current)
  }

  /** A number of the text as `InternalAdd` cuts it off, and the delimiter that
      `IndexOfAny` matched after it; the last number has none. */
  datatype Piece = Piece(text: string, delimiter: Option<string>)

  /** The pieces `InternalAdd` cuts `items` into, without parsing them. A match of
      the empty delimiter cuts off an empty head and nothing else: `Parse` throws
      on that head before the recursion would begin again on the same text. */
  function Pieces(delimiters: seq<string>, items: string): seq<Piece>
    decreases |items|
  {
    if items == "" then []
    else match FirstOccurring(items, delimiters)
      case None => [Piece(items, None)]
      case Some(Found(index, d)) =>
        [Piece(items[..index], Some(d))] + (if index + |d| == 0 then [] else Pieces(delimiters, items[index + |d|..]))
  }

  /** Parsing and adding up the pieces, with `current` as the delimiter last matched:
      `Parse(head)` runs before the rest is added up, and an exception from either
      leaves the negatives parsed until then. */
  function Fold(pieces: seq<Piece>, current: string): Run
  {
    if pieces == [] then Run(Ok(0), [], current)
    else match pieces[0].delimiter
      case None => ParseRun(pieces[0].text, current)
      case Some(d) =>
        var head := ParseRun(pieces[0].text, d);
        if head.total.Throws? then head
        else
          var rest := Fold(pieces[1..], d);
          Run(if rest.total.Throws? then rest.total else Ok(UncheckedAdd(head.total.value, rest.total.value)),
              head.seen + rest.seen, rest.current)
  }

  /** `InternalAdd(items)` with `delimiters` in the field and `current` as the
      delimiter last matched. */
  function InternalRun(delimiters: seq<string>, items: string, current: string): Run {
    Fold(Pieces(delimiters, items), current)
  }

  /** The message of the `InvalidOperationException` that reports the negatives. */
  function NegativesText(negatives: seq<int>): string {
    NEGATIVES_PREFIX + Join(",", FormatAll(negatives))
  }

  /** What `Add(input)` returns or throws, and the fields it leaves behind, when
      the fields are `s` before the call. */
  function AddOutcome(s: State, input: string): (Result<int>, State) {
    match FindCustom(input, s.delimiters)
    case Throws(e) => (Throws(e), s.(numbers := input))
    case Ok((delimiters, numbers)) =>
      var run := InternalRun(delimiters, numbers, s.currentDelimiter);
      var after := State(s.negatives + run.seen, run.current, delimiters, numbers);
      if run.total.Throws? then (run.total, after)
      else if after.negatives != [] then (Throws(InvalidOperationException(NegativesText(after.negatives))), after)
      else (run.total, after)
  }

  // ---------------------------------------------------------------------------
  // The class

  class StringCalculator {
    var negatives: seq<int>
    var currentDelimiter: string
    var delimiters: seq<string>
    var numbers: string

    function Fields(): State
      reads this
    {
      State(negatives, currentDelimiter, delimiters, numbers)
    }

    constructor ()
      ensures Fields() == INITIAL
    {
      negatives := [];
      currentDelimiter := "";
      delimiters := DEFAULT_DELIMITERS;
      numbers := "";
    }

    method Add(input: string) returns (r: Result<int>)
      modifies this
      ensures (r, Fields()) == AddOutcome(old(Fields()), input)
    {
      numbers := input;
      var found := FindCustomDelimiters();
      if found.Throws? {
        return Throws(found.exception);
      }
      r := InternalAdd(numbers);
      if r.Throws? {
        return;
      }
      if |negatives| > 0 {
        r := Throws(InvalidOperationException(NEGATIVES_PREFIX + Join(",", FormatAll(negatives))));
      }
    }

    method FindCustomDelimiters() returns (r: Result<()>)
      modifies this`delimiters, this`numbers
      ensures match FindCustom(old(numbers), old(delimiters))
              case Throws(e) => r == Throws(e) && delimiters == old(delimiters) && numbers == old(numbers)
              case Ok((ds, rest)) => r == Ok(()) && delimiters == ds && numbers == rest
    {
      if "//" <= numbers {
        if |numbers| == 2 {
          return Throws(IndexOutOfRangeException);
        }
        if numbers[2] != '[' {
          delimiters := [[numbers[2]]];
        } else {
          delimiters := GetCustomDelimiters();
        }
        numbers := FromNewline(numbers);
      }
      r := Ok(());
    }

    /** The aggregation, one character of the header line at a time. */
    method GetCustomDelimiters() returns (r: seq<string>)
      ensures r == HeaderTokens(numbers)
    {
      var t := "";
      var list := [];
      var i := 0;
      while i < |numbers| && numbers[i] != '\n'
        invariant 0 <= i <= |numbers| && '\n' !in numbers[..i]
        invariant Tokens(t, list) == Scan(Tokens("", []), numbers[..i])
      {
        var c := numbers[i];
        if c == '[' {
          t := "";
        } else if c == ']' {
          list := list + [t];
        } else {
          t := t + [c];
        }
        assert numbers[..i + 1][..i] == numbers[..i];
        i := i + 1;
      }
      assert numbers[..i] == BeforeNewline(numbers) by {
        PrefixBeforeNewline(numbers, i);
      }
      r := list;
    }

    method InternalAdd(items: string) returns (r: Result<int>)
      modifies this`negatives, this`currentDelimiter
      decreases |items|
      ensures var run := InternalRun(delimiters, items, old(currentDelimiter));
              r == run.total && negatives == old(negatives) + run.seen && currentDelimiter == run.current
    {
      if items == "" {
        assert InternalRun(delimiters, "", old(currentDelimiter)) == Run(Ok(0), [], old(currentDelimiter));
        return Ok(0);
      }
      var separatorIndex := IndexOfAny(items);
      if separatorIndex == -1 {
        RunWithoutDelimiter(delimiters, items, old(currentDelimiter));
        r := Parse(items);
        return;
      }
      ghost var delimiter := currentDelimiter;
      var head := items[..separatorIndex];
      var tail := items[separatorIndex + |currentDelimiter|..];
      ghost var before := negatives;
      var first := Parse(head);
      if first.Throws? {
        FoldThrowingHead(delimiters, items, old(currentDelimiter), separatorIndex, delimiter);
        return first;
      }
      ghost var headRun := ParseRun(head, delimiter);
      ghost var middle := negatives;
      var rest := InternalAdd(tail);
      ghost var restRun := InternalRun(delimiters, tail, delimiter);
      assert negatives == middle + restRun.seen && middle == before + headRun.seen;
      ConcatAssociative(before, headRun.seen, restRun.seen);
      FoldStep(delimiters, items, old(currentDelimiter), separatorIndex, delimiter);
      if rest.Throws? {
        return rest;
      }
      r := Ok(UncheckedAdd(first.value, rest.value));
    }

    method IndexOfAny(items: string) returns (index: int)
      modifies this`currentDelimiter
      ensures match FirstOccurring(items, delimiters)
              case None => index == -1 && currentDelimiter == old(currentDelimiter)
              case Some(Found(i, d)) => index == i && currentDelimiter == d
    {
      var k := 0;
      while k < |delimiters|
        invariant 0 <= k <= |delimiters|
        invariant FirstOccurring(items, delimiters) == FirstOccurring(items, delimiters[k..])
        invariant currentDelimiter == old(currentDelimiter)
      {
        var indexOf := IndexOf(items, delimiters[k]);
        if indexOf > -1 {
          currentDelimiter := delimiters[k];
          return indexOf;
        }
        assert delimiters[k..][1..] == delimiters[k + 1..];
        k := k + 1;
      }
      return -1;
    }

    method Parse(items: string) returns (r: Result<int>)
      modifies this`negatives
      ensures var run := ParseRun(items, currentDelimiter);
              r == run.total && negatives == old(negatives) + run.seen
    {
      var result := ParseInt32(items);
      if result.Throws? {
        return Throws(result.exception);
      }
      if result.value < 0 {
        negatives := negatives + [result.value];
      }
      r := Ok(if result.value > THRESHOLD then 0 else result.value);
    }
  }

  // ---------------------------------------------------------------------------
  // Helpers of the class

  lemma RunWithoutDelimiter(delimiters: seq<string>, items: string, current: string)
    requires items != "" && FirstOccurring(items, delimiters) == None
    ensures InternalRun(delimiters, items, current) == ParseRun(items, current)
  {
    assert Pieces(delimiters, items) == [Piece(items, None)];
  }

  /** A head that does not parse ends the run with its exception. */
  lemma FoldThrowingHead(delimiters: seq<string>, items: string, current: string, index: nat, d: string)
    requires items != "" && FirstOccurring(items, delimiters) == Some(Found(index, d))
    requires ParseRun(items[..index], d).total.Throws?
    ensures InternalRun(delimiters, items, current) == ParseRun(items[..index], d)
  {
    var pieces := Pieces(delimiters, items);
    assert pieces[0] == Piece(items[..index], Some(d));
  }

  /** A head that parses is added to the run over the text after its delimiter. */
  lemma FoldStep(delimiters: seq<string>, items: string, current: string, index: nat, d: string)
    requires items != "" && FirstOccurring(items, delimiters) == Some(Found(index, d))
    requires ParseRun(items[..index], d).total.Ok?
    ensures var head := ParseRun(items[..index], d);
            var rest := InternalRun(delimiters, items[index + |d|..], d);
            InternalRun(delimiters, items, current)
            == Run(if rest.total.Throws? then rest.total else Ok(UncheckedAdd(head.total.value, rest.total.value)),
                   head.seen + rest.seen, rest.current)
  {
    PiecesStep(delimiters, items, index, d);
    FoldCons(Piece(items[..index], Some(d)), Pieces(delimiters, items[index + |d|..]), current);
  }

  /** `InternalAdd` cuts off the head before the first delimiter it finds. */
  lemma PiecesStep(delimiters: seq<string>, items: string, index: nat, d: string)
    requires items != "" && FirstOccurring(items, delimiters) == Some(Found(index, d))
    requires index + |d| > 0
    ensures Pieces(delimiters, items) == [Piece(items[..index], Some(d))] + Pieces(delimiters, items[index + |d|..])
  {
  }

  /** Adding up a head that parses and the pieces after it. */
  lemma FoldCons(p: Piece, pieces: seq<Piece>, current: string)
    requires p.delimiter.Some? && ParseRun(p.text, p.delimiter.value).total.Ok?
    ensures var head := ParseRun(p.text, p.delimiter.value);
            var rest := Fold(pieces, p.delimiter.value);
            Fold([p] + pieces, current)
            == Run(if rest.total.Throws? then rest.total else Ok(UncheckedAdd(head.total.value, rest.total.value)),
                   head.seen + rest.seen, rest.current)
  {
    assert ([p] + pieces)[1..] == pieces;
  }

  /** Helper: concatenation regrouped. Called where the solver would otherwise look
      for the regrouping among many sequence terms. */
  lemma ConcatAssociative<T>(a: seq<T>, b: seq<T>, c: seq<T>)
    ensures (a + b) + c == a + (b + c)
  {
  }

  /** A prefix without newline that ends at a newline or at the end is the header line. */
  lemma PrefixBeforeNewline(s: string, i: nat)
    requires i <= |s| && '\n' !in s[..i]
    requires i == |s| || s[i] == '\n'
    ensures s[..i] == BeforeNewline(s)
  {
    var j := IndexOfChar(s, '\n');
    assert forall k | 0 <= k < i :: s[k] != '\n' by {
      forall k | 0 <= k < i ensures s[k] != '\n' {
        assert s[..i][k] == s[k];
      }
    }
    if i < |s| {
      assert s[i] in s;
      assert forall k | 0 <= k < j :: s[k] != '\n' by {
        forall k | 0 <= k < j ensures s[k] != '\n' {
          assert s[..j][k] == s[k];
        }
      }
    } else {
      assert s[..i] == s;
    }
  }
}
