/** StringParser.cs: the three delimiter extractors, the selector that picks one
    of them, and `StringParser.GetNumbers`, which cuts off the header, splits the
    body on the delimiters (dropping empty pieces) and parses every piece. */
module DelimiterParsing {
  import opened Exceptions
  import opened DotNetText

  /** The run-time type of the parser's `Extractor` property. */
  datatype Extractor = DefaultExtractor | CustomExtractor | ExtendedExtractor

  /** The extractor `StringParser.GetDelimiters` picks: the default one unless the
      input starts with `//`, and then the extended one when a `[` occurs anywhere
      in the input. */
  function SelectExtractor(input: string): (e: Extractor)
    ensures e == DefaultExtractor <==> !("//" <= input)
    ensures e == ExtendedExtractor <==> "//" <= input && '[' in input
    ensures e == CustomExtractor <==> "//" <= input && '[' !in input
  {
    if !("//" <= input) then DefaultExtractor
    else if '[' in input then ExtendedExtractor
    else CustomExtractor
  }

  // ---------------------------------------------------------------------------
  // The extractors

  /** `DefaultExtractor.GetDelimiters`: `","` and `"\n"`, each only when that
      character occurs in the input, in this order. */
  function DefaultDelimiters(input: string): (r: seq<string>)
    ensures |r| <= 2
    ensures "," in r <==> ',' in input
    ensures "\n" in r <==> '\n' in input
    ensures forall d :: d in r ==> d == "," || d == "\n"
    ensures |r| == 2 ==> r == [",", "\n"]
  {
    (if ',' in input then [","] else []) + (if '\n' in input then ["\n"] else [])
  }

  /** `CustomExtractor.GetDelimiters`: the one-character string at index 2; the
      string indexer throws when the input is shorter. */
  function CustomDelimiters(input: string): (r: Result<seq<string>>)
    ensures r.Ok? <==> |input| > 2
    ensures r.Ok? ==> |r.value| == 1 && |r.value[0]| == 1 && r.value[0][0] == input[2]
    ensures r.Throws? ==> r.exception == IndexOutOfRangeException
  {
    if |input| > 2 then Ok([[input[2]]]) else Throws(IndexOutOfRangeException)
  }

  /** `\w` of the .NET regular expressions, on ASCII. */
  predicate IsWordChar(c: char) {
    'a' <= c <= 'z' || 'A' <= c <= 'Z' || '0' <= c <= '9' || c == '_'
  }

  /** The characters the pattern `[^\w\./\[,\n]` matches. */
  predicate MatchesPattern(c: char) {
    !IsWordChar(c) && c != '.' && c != '/' && c != '[' && c != ',' && c != '\n'
  }

  /** Every character of `s` is one the pattern matches. */
  predicate AllMatching(s: string) {
    forall i :: 0 <= i < |s| ==> MatchesPattern(s[i])
  }

  /** A delimiter a header `[...]` can declare and the extended extractor keeps whole. */
  predicate IsHeaderDelimiter(d: string) {
    d != "" && ']' !in d && AllMatching(d)
  }

  /** All matches of the pattern in `s`, concatenated in the order they are found. */
  function AllMatches(s: string): (r: string)
    decreases |s|
    ensures |r| <= |s|
    ensures forall c :: c in r ==> MatchesPattern(c)
  {
    if s == [] then []
    else AllMatches(s[..|s| - 1]) + (if MatchesPattern(s[|s| - 1]) then [s[|s| - 1]] else [])
  }

  /** `ExtendedExtractor.GetDelimiters`: the matches of the pattern in the text
      before the first newline, split on `]` without empty pieces; `Substring`
      throws when there is no newline. */
  function ExtendedDelimiters(input: string): (r: Result<seq<string>>)
    ensures r.Throws? <==> '\n' !in input
    ensures r.Throws? ==> r.exception == ArgumentOutOfRangeException
  {
    var newline := IndexOfChar(input, '\n');
    if newline < 0 then Throws(ArgumentOutOfRangeException)
    else Ok(Split(AllMatches(input[..newline]), ["]"]))
  }

  /** The imperative `ExtendedExtractor.GetDelimiters`: appends the matches to
      `result` one at a time, then splits. */
  method ExtendedGetDelimiters(input: string) returns (r: Result<seq<string>>)
    ensures r == ExtendedDelimiters(input)
  {
    var newline := IndexOfChar(input, '\n');
    if newline < 0 {
      return Throws(ArgumentOutOfRangeException);
    }
    var strForSearch := input[..newline];
    var result := "";
    var i := 0;
    while i < |strForSearch|
      invariant 0 <= i <= |strForSearch|
      invariant result == AllMatches(strForSearch[..i])
    {
      assert strForSearch[..i + 1][..i] == strForSearch[..i];
      if MatchesPattern(strForSearch[i]) {
        result := result + [strForSearch[i]];
      }
      i := i + 1;
    }
    assert strForSearch[..i] == strForSearch;
    r := Ok(Split(result, ["]"]));
  }

  /** The delimiters the chosen extractor returns for `input`. */
  function Delimiters(extractor: Extractor, input: string): Result<seq<string>> {
    match extractor
    case DefaultExtractor => Ok(DefaultDelimiters(input))
    case CustomExtractor => CustomDelimiters(input)
    case ExtendedExtractor => ExtendedDelimiters(input)
  }

  // ---------------------------------------------------------------------------
  // GetNumbers

  /** `.Select(int.Parse).ToList()`: every piece parsed, in order; the first piece
      that does not parse ends the call with its exception. */
  function ParseAll(pieces: seq<string>): Result<seq<int>> {
    if pieces == [] then Ok([])
    else
      var first :- ParseInt32(pieces[0]);
      var rest :- ParseAll(pieces[1..]);
      Ok([first] + rest)
  }

  /** What `StringParser.GetNumbers(input)` returns or throws: the body starts at
      index 0 for the default extractor and at the first newline otherwise. */
  function Numbers(input: string): (r: Result<seq<int>>)
    ensures "//" <= input && '\n' !in input ==> r.Throws?
  {
    var extractor := SelectExtractor(input);
    var delimiters :- Delimiters(extractor, input);
    var index := if extractor == DefaultExtractor then 0 else IndexOfChar(input, '\n');
    if index < 0 then Throws(ArgumentOutOfRangeException)
    else ParseAll(Split(input[index..], delimiters))
  }

  /** `StringParser`; `extractor` is its `Extractor` property, null until the
      first call of `GetDelimiters`. */
  class StringParser {
    var extractor: Option<Extractor>

    constructor ()
      ensures extractor == None
    {
      extractor := None;
    }

    /** Picks the extractor for `input`, stores it, and asks it for the delimiters. */
    method GetDelimiters(input: string) returns (r: Result<seq<string>>)
      modifies this
      ensures extractor == Some(SelectExtractor(input))
      ensures r == Delimiters(SelectExtractor(input), input)
    {
      extractor := Some(SelectExtractor(input));
      match extractor.value
      case DefaultExtractor =>
        r := Ok(DefaultDelimiters(input));
      case CustomExtractor =>
        r := CustomDelimiters(input);
      case ExtendedExtractor =>
        r := ExtendedGetDelimiters(input);
    }

    /** Reads the stored extractor back to decide where the body starts. */
    method GetNumbers(input: string) returns (r: Result<seq<int>>)
      modifies this
      ensures extractor == Some(SelectExtractor(input))
      ensures r == Numbers(input)
    {
      var delimiters := GetDelimiters(input);
      if delimiters.Throws? {
        return Throws(delimiters.exception);
      }
      var index := if extractor == Some(DefaultExtractor) then 0 else IndexOfChar(input, '\n');
      if index < 0 {
        return Throws(ArgumentOutOfRangeException);
      }
      r := ParseAll(Split(input[index..], delimiters.value));
    }
  }

  // ---------------------------------------------------------------------------
  // Properties of the extended extractor

  lemma {:induction false} AllMatchesAppend(a: string, b: string)
    ensures AllMatches(a + b) == AllMatches(a) + AllMatches(b)
    decreases |b|
  {
    if b == [] {
      assert a + b == a;
    } else {
      var b' := b[..|b| - 1];
      assert (a + b)[..|a + b| - 1] == a + b';
      AllMatchesAppend(a, b');
    }
  }

  lemma {:induction false} AllMatchesOfMatching(s: string)
    requires AllMatching(s)
    ensures AllMatches(s) == s
    decreases |s|
  {
    if s != [] {
      assert AllMatching(s[..|s| - 1]);
      AllMatchesOfMatching(s[..|s| - 1]);
      assert s[..|s| - 1] + [s[|s| - 1]] == s;
    }
  }

  /** Every delimiter the extended extractor returns is non-empty, holds no `]`
      and is made of characters the pattern matches. */
  lemma ExtendedDelimitersWellFormed(input: string)
    ensures ExtendedDelimiters(input).Ok? ==>
      forall d :: d in ExtendedDelimiters(input).value ==>
        IsHeaderDelimiter(d)
  {
    var newline := IndexOfChar(input, '\n');
    if newline >= 0 {
      var kept := AllMatches(input[..newline]);
      SplitPiecesHoldNoSeparator(kept, ["]"]);
      SplitPiecesFromInput(kept, ["]"]);
      forall d | d in ExtendedDelimiters(input).value
        ensures IsHeaderDelimiter(d)
      {
        assert d in SplitAll(kept, ["]"]);
        assert IndexOf(d, "]") == -1;
        IndexOfMeaning(d, "]");
        forall i | 0 <= i < |d|
          ensures d[i] != ']'
        {
          OccursAtChar(d, ']', i);
        }
        assert forall c :: c in d ==> c in kept;
      }
    }
  }

  /** The header `[d1][d2]...[dn]` that declares the delimiters `ds`. */
  function Bracketed(ds: seq<string>): string
    decreases |ds|
  {
    if ds == [] then "" else "[" + ds[0] + "]" + Bracketed(ds[1..])
  }

  /** Each delimiter followed by `]`: what the pattern keeps of `Bracketed(ds)`. */
  function Closed(ds: seq<string>): string
    decreases |ds|
  {
    if ds == [] then "" else ds[0] + "]" + Closed(ds[1..])
  }

  lemma AllMatchesOfBrackets()
    ensures AllMatches("[") == "" && AllMatches("]") == "]"
  {
    assert "["[..0] == "" && "]"[..0] == "";
  }

  lemma {:induction false} AllMatchesOfBracketed(ds: seq<string>)
    requires forall d :: d in ds ==> AllMatching(d)
    ensures AllMatches(Bracketed(ds)) == Closed(ds)
    decreases |ds|
  {
    if ds != [] {
      var d := ds[0];
      assert ds[0] in ds;
      var open, close, tail := "[", "]", Bracketed(ds[1..]);
      assert Bracketed(ds) == open + d + close + tail;
      AllMatchesOfBracketed(ds[1..]);
      AllMatchesOfMatching(d);
      AllMatchesOfBrackets();
      AllMatchesAppend(open, d);
      assert AllMatches(open + d) == d;
      AllMatchesAppend(open + d, close);
      assert AllMatches(open + d + close) == d + close;
      AllMatchesAppend(open + d + close, tail);
      assert Closed(ds) == d + close + Closed(ds[1..]);
    }
  }

  lemma {:induction false} SplitClosed(ds: seq<string>)
    requires forall d :: d in ds ==> ']' !in d
    ensures SplitAll(Closed(ds), ["]"]) == ds + [""]
    decreases |ds|
  {
    if ds == [] {
      CloseBracketOnly("");
      SplitSingle("", ["]"]);
    } else {
      assert SplitAll(Closed(ds), ["]"]) == [ds[0]] + SplitAll(Closed(ds[1..]), ["]"]) by {
        assert ds[0] in ds;
        CloseBracketOnly(ds[0]);
        SplitCons(ds[0], "]", Closed(ds[1..]), ["]"]);
      }
      assert SplitAll(Closed(ds[1..]), ["]"]) == ds[1..] + [""] by {
        assert forall d :: d in ds[1..] ==> d in ds;
        SplitClosed(ds[1..]);
      }
      assert [ds[0]] + (ds[1..] + [""]) == ds + [""];
    }
  }

  /** `]` is the only separator, so it cannot start inside a text without one. */
  lemma CloseBracketOnly(t: string)
    requires ']' !in t
    ensures NoSeparatorStart(t, ["]"]) && DistinctHeads(["]"])
  {
    assert forall d :: d in ["]"] ==> d == "]";
  }

  /** The text before the newline is all the pattern sees of the header. */
  lemma HeaderMatches(ds: seq<string>)
    requires forall d :: d in ds ==> AllMatching(d)
    ensures AllMatches("//" + Bracketed(ds)) == Closed(ds)
  {
    AllMatchesOfBracketed(ds);
    AllMatchesAppend("//", Bracketed(ds));
    assert AllMatches("//") == "" by {
      assert "//"[..1] == "/";
      assert "/"[..0] == "";
    }
  }

  lemma SplitOfClosed(ds: seq<string>)
    requires forall d :: d in ds ==> IsHeaderDelimiter(d)
    ensures Split(Closed(ds), ["]"]) == ds
  {
    SplitClosed(ds);
    RemoveEmptyAppend(ds, [""]);
    RemoveEmptyKeepsNonEmpty(ds);
    assert RemoveEmpty([""]) == [];
    assert ds + [] == ds;
  }

  /** The first `c` of `t + [c] + rest` is the one after `t` when `t` has none. */
  lemma IndexOfCharFirst(t: string, c: char, rest: string)
    requires c !in t
    ensures IndexOfChar(t + [c] + rest, c) == |t|
  {
    var s := t + [c] + rest;
    var r := IndexOfChar(s, c);
    assert s[|t|] == c;
    assert forall k :: 0 <= k < |t| ==> s[k] == t[k];
    assert forall k :: 0 <= k < r ==> s[..r][k] == s[k];
  }

  /** The extended extractor recovers the delimiters of a header `//[d1]...[dn]`,
      in header order, when they are non-empty and made of characters the
      pattern matches other than `]`. */
  lemma ExtendedDelimitersRoundTrip(ds: seq<string>, body: string)
    requires forall d :: d in ds ==> IsHeaderDelimiter(d)
    ensures ExtendedDelimiters("//" + Bracketed(ds) + "\n" + body) == Ok(ds)
  {
    var header := "//" + Bracketed(ds);
    BracketedChars(ds);
    IndexOfCharFirst(header, '\n', body);
    assert (header + "\n" + body)[..|header|] == header;
    HeaderMatches(ds);
    SplitOfClosed(ds);
  }

  lemma {:induction false} BracketedChars(ds: seq<string>)
    requires forall d :: d in ds ==> AllMatching(d)
    ensures '\n' !in Bracketed(ds)
    decreases |ds|
  {
    if ds != [] {
      BracketedChars(ds[1..]);
      assert ds[0] in ds;
      assert Bracketed(ds) == "[" + ds[0] + "]" + Bracketed(ds[1..]);
    }
  }

  // ---------------------------------------------------------------------------
  // Properties of GetNumbers

  /** No non-empty separator starts with a character a number can start with. */
  predicate NumeralSafe(separators: seq<string>) {
    forall d :: d in separators && d != "" ==> !IsDigit(d[0]) && d[0] != '-'
  }

  lemma FormattedHasNoSeparatorStart(n: int, separators: seq<string>)
    requires NumeralSafe(separators)
    ensures NoSeparatorStart(FormatInt32(n), separators)
  {
  }

  /** Every value `Int32.ToString` writes is read back by `ParseAll`. */
  lemma {:induction false} ParseAllFormatted(values: seq<int>)
    requires forall v :: v in values ==> IsInt32(v)
    ensures ParseAll(FormatAll(values)) == Ok(values)
    decreases |values|
  {
    if values != [] {
      assert values[0] in values;
      ParseFormatRoundTrip(values[0]);
      assert FormatAll(values)[1..] == FormatAll(values[1..]);
      ParseAllFormatted(values[1..]);
      assert [values[0]] + values[1..] == values;
    }
  }

  /** Putting text before the first value puts it before the joined text. */
  lemma JoinPrefix(prefix: string, separator: string, values: seq<string>)
    requires values != []
    ensures Join(separator, [prefix + values[0]] + values[1..]) == prefix + Join(separator, values)
  {
    var values' := [prefix + values[0]] + values[1..];
    assert values'[1..] == values[1..];
  }

  /** Helper: a character that is neither a digit nor '-' appears in no formatted number. */
  lemma FormattedAbsent(values: seq<int>, c: char)
    requires !IsDigit(c) && c != '-'
    ensures forall v :: v in FormatAll(values) ==> c !in v
  {
  }

  /** Helper: no white-space separator can start inside a number. A lemma of its own
      keeps the 25-element constant out of the caller's proof. */
  lemma WhiteSpaceIsNumeralSafe()
    ensures NumeralSafe(WHITE_SPACE_SEPARATORS)
  {
  }

  lemma FormattedAllHaveNoSeparatorStart(values: seq<int>, separators: seq<string>)
    requires NumeralSafe(separators)
    ensures forall v :: v in FormatAll(values) ==> NoSeparatorStart(v, separators)
  {
    forall v | v in FormatAll(values)
      ensures NoSeparatorStart(v, separators)
    {
      var i :| 0 <= i < |values| && FormatAll(values)[i] == v;
      FormattedHasNoSeparatorStart(values[i], separators);
    }
  }

  lemma SplitOneValue(n: int)
    ensures Split(FormatInt32(n), DefaultDelimiters(FormatInt32(n))) == [FormatInt32(n)]
  {
    var t := FormatInt32(n);
    assert DefaultDelimiters(t) == [];
    assert SplitAll(t, WHITE_SPACE_SEPARATORS) == [t] by {
      WhiteSpaceIsNumeralSafe();
      FormattedHasNoSeparatorStart(n, WHITE_SPACE_SEPARATORS);
      SplitSingle(t, WHITE_SPACE_SEPARATORS);
    }
    assert RemoveEmpty([t]) == [t];
  }

  lemma SplitSeveralValues(values: seq<int>)
    requires |values| > 1
    ensures Split(Join(",", FormatAll(values)), DefaultDelimiters(Join(",", FormatAll(values)))) == FormatAll(values)
  {
    var strs := FormatAll(values);
    var input := Join(",", strs);
    assert DefaultDelimiters(input) == [","] by {
      FormattedAbsent(values, '\n');
      JoinAbsent(",", strs, '\n');
      assert input == strs[0] + "," + Join(",", strs[1..]);
      assert input[|strs[0]|] == ',';
    }
    assert SplitAll(input, [","]) == strs by {
      FormattedAllHaveNoSeparatorStart(values, [","]);
      SplitJoin(strs, ",", [","]);
    }
    RemoveEmptyKeepsNonEmpty(strs);
  }

  /** The numbers joined by commas, with no header, are cut back into the numbers. */
  lemma SplitJoinedValues(values: seq<int>)
    requires values != []
    ensures Split(Join(",", FormatAll(values)), DefaultDelimiters(Join(",", FormatAll(values)))) == FormatAll(values)
  {
    if |values| == 1 {
      SplitOneValue(values[0]);
      assert FormatAll(values) == [FormatInt32(values[0])];
    } else {
      SplitSeveralValues(values);
    }
  }

  /** An input without a header, the numbers joined by commas, parses back to the numbers. */
  lemma NumbersOfJoinedValues(values: seq<int>)
    requires forall v :: v in values ==> IsInt32(v)
    ensures Numbers(Join(",", FormatAll(values))) == Ok(values)
  {
    var strs := FormatAll(values);
    var input := Join(",", strs);
    if values == [] {
      assert input == "";
      NumbersOfEmptyInput();
    } else {
      assert strs[0] <= input;
      assert input[0] == strs[0][0];
      NumbersWithoutHeader(input);
      SplitJoinedValues(values);
      ParseAllFormatted(values);
    }
  }

  /** The body after a custom header: the first number keeps the newline before it. */
  function CustomBodyPieces(values: seq<int>): (r: seq<string>)
    requires values != []
    ensures |r| == |values|
  {
    ["\n" + FormatAll(values)[0]] + FormatAll(values)[1..]
  }

  /** The body after a header, the numbers joined by one of the delimiters, is cut
      back into its pieces when no delimiter can start inside a number or at the newline. */
  lemma SplitHeaderBody(separator: string, separators: seq<string>, values: seq<int>)
    requires values != []
    requires separator in separators && separator != ""
    requires NumeralSafe(separators) && DistinctHeads(separators)
    requires forall d :: d in separators && d != "" ==> d[0] != '\n'
    ensures Split(Join(separator, CustomBodyPieces(values)), separators) == CustomBodyPieces(values)
  {
    var pieces := CustomBodyPieces(values);
    assert SplitAll(Join(separator, pieces), separators) == pieces by {
      BodyPiecesHaveNoSeparatorStart(separators, values);
      SplitJoin(pieces, separator, separators);
    }
    assert RemoveEmpty(pieces) == pieces by {
      RemoveEmptyKeepsNonEmpty(pieces);
    }
  }

  lemma ParseCustomBody(values: seq<int>)
    requires values != []
    requires forall v :: v in values ==> IsInt32(v)
    ensures ParseAll(CustomBodyPieces(values)) == Ok(values)
  {
    var strs := FormatAll(values);
    var head := "\n" + strs[0];
    assert ParseInt32(head) == Ok(values[0]) by {
      assert values[0] in values;
      ParseAfterNewline(values[0]);
    }
    assert ParseAll(strs[1..]) == Ok(values[1..]) by {
      assert strs[1..] == FormatAll(values[1..]);
      assert forall v :: v in values[1..] ==> v in values;
      ParseAllFormatted(values[1..]);
    }
    assert CustomBodyPieces(values) == [head] + strs[1..];
    ParseAllOfParsedCons(head, strs[1..], values[0], values[1..]);
    assert [values[0]] + values[1..] == values;
  }

  /** Helper: a piece that parses in front of pieces that parse. */
  lemma ParseAllOfParsedCons(piece: string, rest: seq<string>, v: int, vs: seq<int>)
    requires ParseInt32(piece) == Ok(v) && ParseAll(rest) == Ok(vs)
    ensures ParseAll([piece] + rest) == Ok([v] + vs)
  {
    ParseAllCons(piece, rest);
  }

  /** The first piece of a custom body keeps the newline, which `Int32.Parse` skips. */
  lemma ParseAfterNewline(v: int)
    requires IsInt32(v)
    ensures ParseInt32("\n" + FormatInt32(v)) == Ok(v)
  {
    ParseSkipsLeadingSpace('\n', FormatInt32(v));
    ParseFormatRoundTrip(v);
  }

  /** `ParseAll` succeeds exactly when every piece parses, and then holds each
      piece's value at its index; otherwise it throws what the first piece that
      does not parse throws. */
  lemma {:induction false} ParseAllMeaning(pieces: seq<string>)
    ensures ParseAll(pieces).Ok? <==> forall i :: 0 <= i < |pieces| ==> ParseInt32(pieces[i]).Ok?
    ensures ParseAll(pieces).Ok? ==> |ParseAll(pieces).value| == |pieces|
    ensures ParseAll(pieces).Ok? ==>
      forall i :: 0 <= i < |pieces| ==> ParseInt32(pieces[i]) == Ok(ParseAll(pieces).value[i])
    ensures ParseAll(pieces).Throws? ==>
      exists i :: 0 <= i < |pieces| && ParseInt32(pieces[i]) == Throws(ParseAll(pieces).exception)
        && forall j :: 0 <= j < i ==> ParseInt32(pieces[j]).Ok?
    decreases |pieces|
  {
    if pieces != [] {
      var rest := pieces[1..];
      ParseAllMeaning(rest);
      assert forall i :: 1 <= i < |pieces| ==> pieces[i] == rest[i - 1];
      var head := ParseInt32(pieces[0]);
      if head.Ok? && ParseAll(rest).Throws? {
        var k :| 0 <= k < |rest| && ParseInt32(rest[k]) == Throws(ParseAll(rest).exception)
          && forall j :: 0 <= j < k ==> ParseInt32(rest[j]).Ok?;
        assert ParseInt32(pieces[k + 1]) == Throws(ParseAll(pieces).exception);
      }
    }
  }

  lemma ParseAllCons(piece: string, rest: seq<string>)
    ensures ParseAll([piece] + rest) ==
      if ParseInt32(piece).Throws? then Throws(ParseInt32(piece).exception)
      else if ParseAll(rest).Throws? then Throws(ParseAll(rest).exception)
      else Ok([ParseInt32(piece).value] + ParseAll(rest).value)
  {
    assert ([piece] + rest)[1..] == rest;
  }

  /** An input `//c\n` with the numbers joined by a one-character delimiter `c`
      parses back to the numbers; the first piece keeps the newline, which
      `Int32.Parse` skips as leading white space. */
  lemma NumbersOfCustomDelimited(c: char, values: seq<int>)
    requires values != []
    requires forall v :: v in values ==> IsInt32(v)
    requires !IsDigit(c) && c != '-' && c != '\n' && c != '['
    ensures Numbers("//" + [c] + "\n" + Join([c], FormatAll(values))) == Ok(values)
  {
    var strs := FormatAll(values);
    var body := Join([c], strs);
    assert '[' !in body by {
      FormattedAbsent(values, '[');
      JoinAbsent([c], strs, '[');
    }
    CustomHeaderNumbers(c, body);
    assert "\n" + body == Join([c], CustomBodyPieces(values)) by {
      JoinPrefix("\n", [c], strs);
    }
    SplitHeaderBody([c], [[c]], values);
    ParseCustomBody(values);
  }

  /** The numbers after a header `//c` are those of the body, newline included. */
  lemma CustomHeaderNumbers(c: char, body: string)
    requires c != '\n' && c != '[' && '[' !in body
    ensures Numbers("//" + [c] + "\n" + body) == ParseAll(Split("\n" + body, [[c]]))
  {
    var input := "//" + [c] + "\n" + body;
    assert "//" <= input && '[' !in input by {
      assert input[..2] == "//";
    }
    assert Delimiters(SelectExtractor(input), input) == Ok([[c]]) by {
      assert input[2] == c;
    }
    assert IndexOfChar(input, '\n') == 3 by {
      IndexOfCharFirst("//" + [c], '\n', body);
    }
    NumbersWithHeader(input, [[c]], 3);
    assert input[3..] == "\n" + body;
  }

  /** An input `//[d1]...[dn]\n` followed by the numbers, with any of the declared
      delimiters between each two of them, parses back to the numbers. */
  lemma NumbersOfExtendedDelimited(ds: seq<string>, between: seq<string>, values: seq<int>)
    requires ds != [] && |between| + 1 == |values|
    requires forall v :: v in values ==> IsInt32(v)
    requires forall d :: d in ds ==> IsHeaderDelimiter(d)
    requires NumeralSafe(ds) && DistinctHeads(ds)
    requires forall d :: d in between ==> d in ds
    ensures Numbers("//" + Bracketed(ds) + "\n" + Interleave(FormatAll(values), between)) == Ok(values)
  {
    var body := Interleave(FormatAll(values), between);
    ExtendedHeaderNumbers(ds, body);
    ExtendedBodyValues(ds, between, values);
  }

  /** The numbers after a header `//[d1]...[dn]` are those of the body. */
  lemma ExtendedHeaderNumbers(ds: seq<string>, body: string)
    requires ds != []
    requires forall d :: d in ds ==> IsHeaderDelimiter(d)
    ensures Numbers("//" + Bracketed(ds) + "\n" + body) == ParseAll(Split("\n" + body, ds))
  {
    var header := "//" + Bracketed(ds);
    var input := header + "\n" + body;
    assert Numbers(input) == ParseAll(Split(input[|header|..], ds)) by {
      assert "//" <= input by {
        assert input[..2] == "//";
      }
      ExtendedHeader(ds, body);
      NumbersWithHeader(input, ds, |header|);
    }
    AfterHeader(header, body);
  }

  /** What follows a header is the newline and the body. */
  lemma AfterHeader(header: string, body: string)
    ensures (header + "\n" + body)[|header|..] == "\n" + body
  {
    assert header + "\n" + body == header + ("\n" + body);
  }

  lemma ExtendedBodyValues(ds: seq<string>, between: seq<string>, values: seq<int>)
    requires ds != [] && |between| + 1 == |values|
    requires forall v :: v in values ==> IsInt32(v)
    requires forall d :: d in ds ==> IsHeaderDelimiter(d)
    requires NumeralSafe(ds) && DistinctHeads(ds)
    requires forall d :: d in between ==> d in ds
    ensures ParseAll(Split("\n" + Interleave(FormatAll(values), between), ds)) == Ok(values)
  {
    ExtendedHeader(ds, "");
    assert forall d :: d in between ==> d in ds && d != "";
    ParseInterleavedBody(between, ds, values);
  }

  /** Putting text before the first piece puts it before the interleaved text. */
  lemma InterleavePrefix(prefix: string, pieces: seq<string>, between: seq<string>)
    requires |between| + 1 == |pieces|
    ensures Interleave([prefix + pieces[0]] + pieces[1..], between) == prefix + Interleave(pieces, between)
  {
    var pieces' := [prefix + pieces[0]] + pieces[1..];
    assert pieces'[1..] == pieces[1..];
  }

  lemma SplitInterleavedBody(between: seq<string>, separators: seq<string>, values: seq<int>)
    requires |between| + 1 == |values| && separators != []
    requires forall d :: d in between ==> d in separators && d != ""
    requires NumeralSafe(separators) && DistinctHeads(separators)
    requires forall d :: d in separators && d != "" ==> d[0] != '\n'
    ensures Split(Interleave(CustomBodyPieces(values), between), separators) == CustomBodyPieces(values)
  {
    var pieces := CustomBodyPieces(values);
    assert Split(Interleave(pieces, between), separators) == RemoveEmpty(SplitAll(Interleave(pieces, between), separators));
    SplitAllInterleavedBody(between, separators, values);
    BodyPiecesNonEmpty(values);
    RemoveEmptyKeepsNonEmpty(pieces);
  }

  lemma BodyPiecesNonEmpty(values: seq<int>)
    requires values != []
    ensures forall t :: t in CustomBodyPieces(values) ==> t != ""
  {
    var strs := FormatAll(values);
    forall t | t in CustomBodyPieces(values)
      ensures t != ""
    {
      if t != "\n" + strs[0] {
        var i :| 0 <= i < |strs[1..]| && strs[1..][i] == t;
        assert t == FormatInt32(values[i + 1]);
      }
    }
  }

  lemma SplitAllInterleavedBody(between: seq<string>, separators: seq<string>, values: seq<int>)
    requires |between| + 1 == |values|
    requires forall d :: d in between ==> d in separators && d != ""
    requires NumeralSafe(separators) && DistinctHeads(separators)
    requires forall d :: d in separators && d != "" ==> d[0] != '\n'
    ensures SplitAll(Interleave(CustomBodyPieces(values), between), separators) == CustomBodyPieces(values)
  {
    BodyPiecesHaveNoSeparatorStart(separators, values);
    SplitInterleaved(CustomBodyPieces(values), between, separators);
  }

  lemma BodyPiecesHaveNoSeparatorStart(separators: seq<string>, values: seq<int>)
    requires values != []
    requires NumeralSafe(separators)
    requires forall d :: d in separators && d != "" ==> d[0] != '\n'
    ensures forall v :: v in CustomBodyPieces(values) ==> NoSeparatorStart(v, separators)
  {
    var strs := FormatAll(values);
    var pieces := CustomBodyPieces(values);
    FormattedAllHaveNoSeparatorStart(values, separators);
    forall v | v in pieces
      ensures NoSeparatorStart(v, separators)
    {
      if v != pieces[0] {
        assert v in strs[1..];
      }
    }
  }

  /** The body after a header: a newline, then the numbers with a delimiter
      between each two of them. */
  lemma ParseInterleavedBody(between: seq<string>, separators: seq<string>, values: seq<int>)
    requires |between| + 1 == |values| && separators != []
    requires forall v :: v in values ==> IsInt32(v)
    requires forall d :: d in between ==> d in separators && d != ""
    requires NumeralSafe(separators) && DistinctHeads(separators)
    requires forall d :: d in separators && d != "" ==> d[0] != '\n'
    ensures ParseAll(Split("\n" + Interleave(FormatAll(values), between), separators)) == Ok(values)
  {
    InterleavePrefix("\n", FormatAll(values), between);
    SplitInterleavedBody(between, separators, values);
    ParseCustomBody(values);
  }

  /** What the parser sees of an input with a header `//[d1]...[dn]`. */
  lemma ExtendedHeader(ds: seq<string>, body: string)
    requires ds != []
    requires forall d :: d in ds ==> IsHeaderDelimiter(d)
    ensures SelectExtractor("//" + Bracketed(ds) + "\n" + body) == ExtendedExtractor
    ensures Delimiters(ExtendedExtractor, "//" + Bracketed(ds) + "\n" + body) == Ok(ds)
    ensures IndexOfChar("//" + Bracketed(ds) + "\n" + body, '\n') == |"//" + Bracketed(ds)|
    ensures forall d :: d in ds && d != "" ==> d[0] != '\n'
  {
    var header := "//" + Bracketed(ds);
    var input := header + "\n" + body;
    assert input[..2] == "//";
    assert input[2] == '[';
    ExtendedDelimitersRoundTrip(ds, body);
    BracketedChars(ds);
    IndexOfCharFirst(header, '\n', body);
    forall d | d in ds
      ensures d[0] != '\n'
    {
      assert MatchesPattern(d[0]);
    }
  }

  /** A custom header with nothing after its newline is not the empty list: the
      newline itself is a non-empty piece, and `Int32.Parse` rejects it. */
  lemma CustomHeaderWithoutNumbersThrows(c: char)
    requires c != '\n' && c != '['
    ensures Numbers("//" + [c] + "\n") == Throws(FormatException)
  {
    assert Numbers("//" + [c] + "\n") == ParseAll(Split("\n", [[c]])) by {
      CustomHeaderNumbers(c, "");
      assert "\n" + "" == "\n";
      assert "//" + [c] + "\n" + "" == "//" + [c] + "\n";
    }
    NewlineAlone(c);
    NewlineIsNoNumber();
  }

  lemma NewlineAlone(c: char)
    requires c != '\n'
    ensures Split("\n", [[c]]) == ["\n"]
  {
    assert NoSeparatorStart("\n", [[c]]) by {
      assert forall d :: d in [[c]] ==> d == [c];
    }
    SplitSingle("\n", [[c]]);
    RemoveEmptyKeepsNonEmpty(["\n"]);
  }

  lemma NewlineIsNoNumber()
    ensures ParseInt32("\n") == Throws(FormatException)
  {
    assert "\n"[1..] == "";
  }

  lemma SplitAllEmpty(separators: seq<string>)
    ensures SplitAll("", separators) == [""]
  {
    var next := NextSeparator("", separators, 0);
    assert next.None?;
  }

  /** Helper: `Numbers` for an input without a header, where the whole input is the body. */
  lemma NumbersWithoutHeader(input: string)
    requires !("//" <= input)
    ensures Numbers(input) == ParseAll(Split(input, DefaultDelimiters(input)))
  {
    assert input[0..] == input;
  }

  /** Helper: `Numbers` for an input with a header, where the body starts at the first
      newline. It names the unfolding once for its two callers. */
  lemma NumbersWithHeader(input: string, delimiters: seq<string>, newline: nat)
    requires "//" <= input
    requires Delimiters(SelectExtractor(input), input) == Ok(delimiters)
    requires IndexOfChar(input, '\n') == newline
    ensures Numbers(input) == ParseAll(Split(input[newline..], delimiters))
  {
  }

  /** An empty input is an empty list of numbers. */
  lemma NumbersOfEmptyInput()
    ensures Numbers("") == Ok([])
  {
    NumbersWithoutHeader("");
    assert DefaultDelimiters("") == [];
    SplitAllEmpty(WHITE_SPACE_SEPARATORS);
    assert RemoveEmpty([""]) == [];
    assert Split("", []) == [];
  }

  /** Pieces that each parse to the value at their index parse to all the values. */
  lemma {:induction false} ParseAllOfParsed(pieces: seq<string>, values: seq<int>)
    requires |pieces| == |values|
    requires forall i :: 0 <= i < |pieces| ==> ParseInt32(pieces[i]) == Ok(values[i])
    ensures ParseAll(pieces) == Ok(values)
    decreases |pieces|
  {
    if pieces != [] {
      ParseAllOfParsed(pieces[1..], values[1..]);
      assert [values[0]] + values[1..] == values;
    }
  }

  /** `should_take_string_return_delim` and `should_take_default_string_return_delimiter`. */
  lemma DefaultExample()
    ensures Numbers("1,2") == Ok([1, 2])
    ensures Delimiters(SelectExtractor("1,2"), "1,2") == Ok([","])
  {
    assert Join(",", FormatAll([1, 2])) == "1,2" by {
      OneAndTwo();
      assert Join(",", ["1", "2"]) == "1" + "," + "2";
    }
    NumbersOfJoinedValues([1, 2]);
    DefaultExampleDelimiters();
  }

  lemma DefaultExampleDelimiters()
    ensures Delimiters(SelectExtractor("1,2"), "1,2") == Ok([","])
  {
    assert "1,2"[0] == '1';
    assert DefaultDelimiters("1,2") == [","];
  }

  lemma OneAndTwo()
    ensures FormatAll([1, 2]) == ["1", "2"]
  {
    assert DigitChar(1) == '1' && DigitChar(2) == '2';
  }

  /** `should_take_custom_delimiter_return_this` and `should_take_custom_string_return_delimiter`. */
  lemma CustomExample()
    ensures Numbers("//;\n1;2") == Ok([1, 2])
    ensures Delimiters(SelectExtractor("//;\n1;2"), "//;\n1;2") == Ok([";"])
  {
    assert "//" + [';'] + "\n" + Join([';'], FormatAll([1, 2])) == "//;\n1;2" by {
      OneAndTwo();
      assert Join([';'], ["1", "2"]) == "1" + ";" + "2";
    }
    NumbersOfCustomDelimited(';', [1, 2]);
    CustomExampleHeader();
  }

  lemma CustomExampleHeader()
    ensures Delimiters(SelectExtractor("//;\n1;2"), "//;\n1;2") == Ok([";"])
  {
    assert "//;\n1;2"[..2] == "//";
    assert '[' !in "//;\n1;2";
  }

  /** `which_delimiters_returns_method`, `should_take_custom_delimiters_return_them`
      and `should_take_extended_string_return_delimiters`. */
  lemma ExtendedExample()
    ensures Numbers("//[***][%%%][$$$]\n1***2%%%3$$$4") == Ok([1, 2, 3, 4])
    ensures Delimiters(SelectExtractor("//[***][%%%][$$$]\n1***2%%%3$$$4"), "//[***][%%%][$$$]\n1***2%%%3$$$4")
      == Ok(["***", "%%%", "$$$"])
  {
    var ds := ["***", "%%%", "$$$"];
    var values := [1, 2, 3, 4];
    var input := "//" + Bracketed(ds) + "\n" + Interleave(FormatAll(values), ds);
    assert Numbers(input) == Ok(values) by {
      ExampleDelimiters();
      assert forall v :: v in values ==> IsInt32(v);
      NumbersOfExtendedDelimited(ds, ds, values);
    }
    assert Delimiters(SelectExtractor(input), input) == Ok(ds) by {
      ExampleDelimiters();
      ExtendedHeader(ds, Interleave(FormatAll(values), ds));
    }
    ExampleInput();
  }

  lemma ExampleDelimiters()
    ensures forall d :: d in ["***", "%%%", "$$$"] ==> IsHeaderDelimiter(d)
    ensures NumeralSafe(["***", "%%%", "$$$"]) && DistinctHeads(["***", "%%%", "$$$"])
  {
    assert IsHeaderDelimiter("***") && IsHeaderDelimiter("%%%") && IsHeaderDelimiter("$$$");
  }

  lemma ExampleInput()
    ensures "//[***][%%%][$$$]\n1***2%%%3$$$4"
      == "//" + Bracketed(["***", "%%%", "$$$"]) + "\n" + Interleave(FormatAll([1, 2, 3, 4]), ["***", "%%%", "$$$"])
  {
    ExampleHeaderLine();
    ExampleInterleave();
    ExampleLines();
  }

  /** Helper: the header line and the body form the test's text. A lemma of its own
      keeps the long literal concatenation out of the caller's proof. */
  lemma ExampleLines()
    ensures "//[***][%%%][$$$]\n" + "1***2%%%3$$$4" == "//[***][%%%][$$$]\n1***2%%%3$$$4"
  {
  }

  lemma ExampleHeaderLine()
    ensures "//" + Bracketed(["***", "%%%", "$$$"]) + "\n" == "//[***][%%%][$$$]\n"
  {
    ExampleBracketed();
  }

  lemma ExampleBracketed()
    ensures Bracketed(["***", "%%%", "$$$"]) == "[***][%%%][$$$]"
  {
    var ds := ["***", "%%%", "$$$"];
    assert ds[1..] == ["%%%", "$$$"];
    assert ds[1..][1..] == ["$$$"];
    assert ds[1..][1..][1..] == [];
  }

  lemma ExampleInterleave()
    ensures Interleave(FormatAll([1, 2, 3, 4]), ["***", "%%%", "$$$"]) == "1***2%%%3$$$4"
  {
    OneToFour();
    ExampleBody();
  }

  lemma ExampleBody()
    ensures Interleave(["1", "2", "3", "4"], ["***", "%%%", "$$$"]) == "1***2%%%3$$$4"
  {
    InterleaveCons("3", ["4"], "$$$", []);
    InterleaveCons("2", ["3", "4"], "%%%", ["$$$"]);
    InterleaveCons("1", ["2", "3", "4"], "***", ["%%%", "$$$"]);
  }

  lemma OneToFour()
    ensures FormatAll([1, 2, 3, 4]) == ["1", "2", "3", "4"]
  {
    assert DigitChar(1) == '1' && DigitChar(2) == '2' && DigitChar(3) == '3' && DigitChar(4) == '4';
  }
}
