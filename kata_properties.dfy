/** Properties of the kata calculator of KataByKalinets.cs: what `IndexOfAny`
    finds, how `InternalAdd` cuts the text and adds up the pieces, what `Add`
    returns for the inputs of the kata's tests, and what carries over from one
    call of `Add` to the next. */
module KataProperties {
  import opened Exceptions
  import opened DotNetText
  import opened KataCalculator
  import DelimiterParsing
  import GuardedCalculator

  // ---------------------------------------------------------------------------
  // IndexOfAny

  /** `IndexOfAny` finds nothing exactly when no delimiter occurs anywhere in the
      text. Otherwise it finds the first occurrence of a delimiter `d` such that
      every delimiter that occurs somewhere stands at or after `d` in the list:
      list order decides, not the position in the text. */
  lemma {:induction false} FirstOccurringMeaning(items: string, delimiters: seq<string>)
    decreases |delimiters|
    ensures FirstOccurring(items, delimiters).None? <==>
            forall k, i :: 0 <= k < |delimiters| ==> !OccursAt(items, delimiters[k], i)
    ensures match FirstOccurring(items, delimiters)
            case None => true
            case Some(Found(i, d)) =>
              d in delimiters && OccursAt(items, d, i) &&
              (forall j :: 0 <= j < i ==> !OccursAt(items, d, j)) &&
              (forall k, j :: 0 <= k < |delimiters| && OccursAt(items, delimiters[k], j) ==> d in delimiters[..k + 1])
  {
    if delimiters != [] {
      IndexOfMeaning(items, delimiters[0]);
      if IndexOf(items, delimiters[0]) == -1 {
        var tail := delimiters[1..];
        FirstOccurringMeaning(items, tail);
        forall k | 1 <= k < |delimiters|
          ensures delimiters[k] == tail[k - 1] && delimiters[..k + 1] == [delimiters[0]] + tail[..k]
        {
        }
      }
    }
  }

  /** `IndexOfAny` finds the `k`-th delimiter when none before it occurs. */
  lemma {:induction false} FirstOccurringAt(items: string, delimiters: seq<string>, k: nat, i: nat)
    requires k < |delimiters| && IndexOf(items, delimiters[k]) == i
    requires forall j :: 0 <= j < k ==> IndexOf(items, delimiters[j]) == -1
    ensures FirstOccurring(items, delimiters) == Some(Found(i, delimiters[k]))
    decreases k
  {
    if k > 0 {
      assert IndexOf(items, delimiters[0]) == -1;
      FirstOccurringAt(items, delimiters[1..], k - 1, i);
    }
  }

  /** `IndexOfAny` finds nothing when no delimiter occurs. */
  lemma {:induction false} FirstOccurringNone(items: string, delimiters: seq<string>)
    requires forall j :: 0 <= j < |delimiters| ==> IndexOf(items, delimiters[j]) == -1
    ensures FirstOccurring(items, delimiters) == None
    decreases |delimiters|
  {
    if delimiters != [] {
      assert IndexOf(items, delimiters[0]) == -1;
      FirstOccurringNone(items, delimiters[1..]);
    }
  }

  // ---------------------------------------------------------------------------
  // Cutting the text

  /** Every piece but the last was cut off by a delimiter. */
  predicate Shaped(pieces: seq<Piece>) {
    forall k :: 0 <= k < |pieces| - 1 ==> pieces[k].delimiter.Some?
  }

  /** The text of the pieces with the delimiters between them put back. */
  function Rejoin(pieces: seq<Piece>): string {
    if pieces == [] then ""
    else
      var after := if pieces[0].delimiter.Some? then pieces[0].delimiter.value else "";
      pieces[0].text + after + Rejoin(pieces[1..])
  }

  /** `InternalAdd` cuts nothing from empty text, cuts only at delimiters of the
      list, and only the last piece can lack a delimiter. */
  lemma {:induction false} PiecesShape(delimiters: seq<string>, items: string)
    decreases |items|
    ensures Pieces(delimiters, items) == [] <==> items == ""
    ensures Shaped(Pieces(delimiters, items))
    ensures forall p :: p in Pieces(delimiters, items) && p.delimiter.Some? ==> p.delimiter.value in delimiters
  {
    if items != "" {
      match FirstOccurring(items, delimiters)
      case None =>
      case Some(Found(index, d)) =>
        if index + |d| > 0 {
          var tail := items[index + |d|..];
          PiecesShape(delimiters, tail);
          PiecesStep(delimiters, items, index, d);
        }
    }
  }

  /** With no empty delimiter, the pieces and the delimiters `InternalAdd` cuts at
      put back together give the text. */
  lemma {:induction false} PiecesRejoin(delimiters: seq<string>, items: string)
    requires "" !in delimiters
    decreases |items|
    ensures Rejoin(Pieces(delimiters, items)) == items
  {
    if items != "" {
      match FirstOccurring(items, delimiters)
      case None =>
        assert Pieces(delimiters, items) == [Piece(items, None)];
      case Some(Found(index, d)) =>
        var tail := items[index + |d|..];
        PiecesStep(delimiters, items, index, d);
        PiecesRejoin(delimiters, tail);
        RejoinCons(Piece(items[..index], Some(d)), Pieces(delimiters, tail));
        CutAround(items, d, index);
    }
  }

  lemma RejoinCons(p: Piece, pieces: seq<Piece>)
    requires p.delimiter.Some?
    ensures Rejoin([p] + pieces) == p.text + p.delimiter.value + Rejoin(pieces)
  {
    assert ([p] + pieces)[1..] == pieces;
  }

  /** The text is what stands before an occurrence, the occurrence and what follows. */
  lemma CutAround(items: string, d: string, index: nat)
    requires OccursAt(items, d, index)
    ensures items == items[..index] + d + items[index + |d|..]
  {
    assert items == items[..index] + items[index..index + |d|] + items[index + |d|..];
  }

  // ---------------------------------------------------------------------------
  // Adding up the pieces

  /** The sum of the counted values in unchecked 32-bit arithmetic, added from the
      last value to the first as the recursion of `InternalAdd` adds them. */
  function CountedSum(values: seq<int>): (r: int)
    requires forall v :: v in values ==> IsInt32(v)
    ensures IsInt32(r)
  {
    if values == [] then 0
    else
      assert values[0] in values;
      UncheckedAdd(Counted(values[0]), CountedSum(values[1..]))
  }

  /** The delimiter `InternalAdd` leaves in `currentDelimiter`: the last one it cut at. */
  function LastCurrent(pieces: seq<Piece>, current: string): string {
    if pieces == [] then current
    else match pieces[0].delimiter
      case None => current
      case Some(d) => LastCurrent(pieces[1..], d)
  }

  /** When every piece parses, the run adds up their counted values, keeps their
      negatives in order and ends on the last delimiter it cut at. */
  lemma {:induction false} FoldOfParsed(pieces: seq<Piece>, values: seq<int>, current: string)
    requires Shaped(pieces) && |values| == |pieces|
    requires forall k :: 0 <= k < |pieces| ==> ParseInt32(pieces[k].text) == Ok(values[k])
    ensures forall v :: v in values ==> IsInt32(v)
    ensures Fold(pieces, current) == Run(Ok(CountedSum(values)), GuardedCalculator.Negatives(values), LastCurrent(pieces, current))
    decreases |pieces|
  {
    forall v | v in values
      ensures IsInt32(v)
    {
      var k :| 0 <= k < |values| && values[k] == v;
      assert ParseInt32(pieces[k].text) == Ok(v);
    }
    if pieces != [] {
      var v := values[0];
      assert ParseInt32(pieces[0].text) == Ok(v);
      var seen := if v < 0 then [v] else [];
      assert GuardedCalculator.Negatives(values) == seen + GuardedCalculator.Negatives(values[1..]);
      match pieces[0].delimiter
      case None =>
        assert |pieces| == 1;
      case Some(d) =>
        assert forall k :: 0 <= k < |pieces| - 1 ==> pieces[1..][k] == pieces[k + 1];
        FoldOfParsed(pieces[1..], values[1..], d);
    }
  }

  /** The run throws exactly what the first piece that does not parse throws. */
  lemma {:induction false} FoldThrowsAtFailure(pieces: seq<Piece>, k: nat, current: string)
    requires Shaped(pieces) && k < |pieces|
    requires forall j :: 0 <= j < k ==> ParseInt32(pieces[j].text).Ok?
    requires ParseInt32(pieces[k].text).Throws?
    ensures Fold(pieces, current).total == Throws(ParseInt32(pieces[k].text).exception)
    decreases k
  {
    if k > 0 {
      assert ParseInt32(pieces[0].text).Ok?;
      var d := pieces[0].delimiter.value;
      assert forall j :: 0 <= j < |pieces| - 1 ==> pieces[1..][j] == pieces[j + 1];
      FoldThrowsAtFailure(pieces[1..], k - 1, d);
    }
  }

  // ---------------------------------------------------------------------------
  // Numbers between delimiters

  /** The place of `d` in the list of delimiters. */
  function Rank(delimiters: seq<string>, d: string): (r: nat)
    requires d in delimiters
    ensures r < |delimiters| && delimiters[r] == d
    decreases |delimiters|
  {
    if delimiters[0] == d then 0 else 1 + Rank(delimiters[1..], d)
  }

  /** Delimiters that no number can contain and that cannot be mistaken for each
      other: none is empty or starts with a digit or `-`, and none contains the
      first character of another. */
  predicate Apart(delimiters: seq<string>) {
    (forall k :: 0 <= k < |delimiters| ==>
       delimiters[k] != "" && !IsDigit(delimiters[k][0]) && delimiters[k][0] != '-') &&
    (forall j, k :: 0 <= j < |delimiters| && 0 <= k < |delimiters| && j != k ==> delimiters[j][0] !in delimiters[k])
  }

  /** Delimiters of the list, each standing no earlier in the list than the one before it. */
  predicate Ranked(delimiters: seq<string>, between: seq<string>) {
    (forall b :: b in between ==> b in delimiters) &&
    (forall i, j :: 0 <= i < j < |between| ==> Rank(delimiters, between[i]) <= Rank(delimiters, between[j]))
  }

  /** The pieces of `lead` and the numbers written out with `between` between them. */
  function ExpectedPieces(lead: string, values: seq<int>, between: seq<string>): (r: seq<Piece>)
    requires |between| + 1 == |values|
    ensures |r| == |values|
    decreases |between|
  {
    if between == [] then [Piece(lead + FormatInt32(values[0]), None)]
    else [Piece(lead + FormatInt32(values[0]), Some(between[0]))] + ExpectedPieces("", values[1..], between[1..])
  }

  /** A character that is neither a digit nor `-` nor in any delimiter between the
      numbers is not in their interleaving. */
  lemma {:induction false} CharAbsentInInterleave(c: char, values: seq<int>, between: seq<string>)
    requires |between| + 1 == |values|
    requires !IsDigit(c) && c != '-'
    requires forall j :: 0 <= j < |between| ==> c !in between[j]
    ensures c !in Interleave(FormatAll(values), between)
    decreases |between|
  {
    if between != [] {
      assert FormatAll(values)[1..] == FormatAll(values[1..]);
      CharAbsentInInterleave(c, values[1..], between[1..]);
    }
  }

  /** The interleaving, with its first number and delimiter taken off. */
  lemma InterleaveFirst(values: seq<int>, between: seq<string>)
    requires |between| + 1 == |values| && between != []
    ensures Interleave(FormatAll(values), between)
            == FormatInt32(values[0]) + between[0] + Interleave(FormatAll(values[1..]), between[1..])
  {
    assert FormatAll(values)[1..] == FormatAll(values[1..]);
  }

  /** A delimiter that stands before every delimiter between the numbers occurs
      nowhere in them. */
  lemma EarlierDelimiterAbsent(delimiters: seq<string>, lead: string, values: seq<int>, between: seq<string>, k: nat)
    requires |between| + 1 == |values| && Apart(delimiters) && Ranked(delimiters, between)
    requires k < |delimiters| && delimiters[k][0] !in lead
    requires forall j :: 0 <= j < |between| ==> k < Rank(delimiters, between[j])
    ensures IndexOf(lead + Interleave(FormatAll(values), between), delimiters[k]) == -1
  {
    var c := delimiters[k][0];
    forall j | 0 <= j < |between|
      ensures c !in between[j]
    {
      assert between[j] in between;
      assert delimiters[Rank(delimiters, between[j])] == between[j];
    }
    CharAbsentInInterleave(c, values, between);
    IndexOfAbsent(lead + Interleave(FormatAll(values), between), delimiters[k]);
  }

  /** With delimiters apart and in list order, `InternalAdd` cuts the text of the
      numbers exactly at the delimiters between them. */
  lemma {:induction false} PiecesOfInterleaved(delimiters: seq<string>, lead: string, values: seq<int>, between: seq<string>)
    requires |between| + 1 == |values| && Apart(delimiters) && Ranked(delimiters, between)
    requires forall k :: 0 <= k < |delimiters| ==> delimiters[k][0] !in lead
    ensures Pieces(delimiters, lead + Interleave(FormatAll(values), between)) == ExpectedPieces(lead, values, between)
    decreases |between|
  {
    if between == [] {
      PiecesOfLast(delimiters, lead, values);
    } else {
      PiecesOfFirst(delimiters, lead, values, between);
      var rest := Interleave(FormatAll(values[1..]), between[1..]);
      assert "" + rest == rest;
      PiecesOfInterleaved(delimiters, "", values[1..], between[1..]);
    }
  }

  /** A number alone is one piece. */
  lemma PiecesOfLast(delimiters: seq<string>, lead: string, values: seq<int>)
    requires |values| == 1 && Apart(delimiters)
    requires forall k :: 0 <= k < |delimiters| ==> delimiters[k][0] !in lead
    ensures Pieces(delimiters, lead + Interleave(FormatAll(values), [])) == [Piece(lead + FormatInt32(values[0]), None)]
  {
    var items := lead + Interleave(FormatAll(values), []);
    forall k | 0 <= k < |delimiters|
      ensures IndexOf(items, delimiters[k]) == -1
    {
      EarlierDelimiterAbsent(delimiters, lead, values, [], k);
    }
    FirstOccurringNone(items, delimiters);
  }

  /** The first number and the delimiter after it are the first piece. */
  lemma PiecesOfFirst(delimiters: seq<string>, lead: string, values: seq<int>, between: seq<string>)
    requires |between| + 1 == |values| && between != [] && Apart(delimiters) && Ranked(delimiters, between)
    requires forall k :: 0 <= k < |delimiters| ==> delimiters[k][0] !in lead
    ensures Pieces(delimiters, lead + Interleave(FormatAll(values), between))
            == [Piece(lead + FormatInt32(values[0]), Some(between[0]))]
               + Pieces(delimiters, Interleave(FormatAll(values[1..]), between[1..]))
  {
    var items := lead + Interleave(FormatAll(values), between);
    var t := lead + FormatInt32(values[0]);
    var b := between[0];
    var rest := Interleave(FormatAll(values[1..]), between[1..]);
    FirstCut(delimiters, lead, values, between);
    assert items[..|t|] == t && items[|t| + |b|..] == rest by {
      assert items == t + b + rest;
    }
    PiecesStep(delimiters, items, |t|, b);
  }

  /** `IndexOfAny` finds the first delimiter between the numbers right after the
      first number. */
  lemma FirstCut(delimiters: seq<string>, lead: string, values: seq<int>, between: seq<string>)
    requires |between| + 1 == |values| && between != [] && Apart(delimiters) && Ranked(delimiters, between)
    requires forall k :: 0 <= k < |delimiters| ==> delimiters[k][0] !in lead
    ensures var t := lead + FormatInt32(values[0]);
            var items := lead + Interleave(FormatAll(values), between);
            FirstOccurring(items, delimiters) == Some(Found(|t|, between[0])) &&
            items == t + between[0] + Interleave(FormatAll(values[1..]), between[1..])
  {
    var items := lead + Interleave(FormatAll(values), between);
    var t := lead + FormatInt32(values[0]);
    var b := between[0];
    var rest := Interleave(FormatAll(values[1..]), between[1..]);
    InterleaveFirst(values, between);
    assert items == t + b + rest by {
      ConcatAssociative(lead, FormatInt32(values[0]) + b, rest);
      ConcatAssociative(lead, FormatInt32(values[0]), b);
    }
    var r := Rank(delimiters, b);
    forall k | 0 <= k < r
      ensures IndexOf(items, delimiters[k]) == -1
    {
      EarlierDelimiterAbsent(delimiters, lead, values, between, k);
    }
    assert b[0] !in t;
    IndexOfAfter(t, b, rest);
    FirstOccurringAt(items, delimiters, r, |t|);
  }

  /** Numbers written out one after the other are cut into shaped pieces, and
      the last delimiter cut at is the last one between them. */
  lemma {:induction false} ExpectedPiecesShape(lead: string, values: seq<int>, between: seq<string>, current: string)
    requires |between| + 1 == |values|
    ensures Shaped(ExpectedPieces(lead, values, between))
    ensures LastCurrent(ExpectedPieces(lead, values, between), current) == if between == [] then current else between[|between| - 1]
    decreases |between|
  {
    if between != [] {
      var pieces := ExpectedPieces(lead, values, between);
      var tail := ExpectedPieces("", values[1..], between[1..]);
      ExpectedPiecesShape("", values[1..], between[1..], between[0]);
      assert pieces[1..] == tail;
      assert forall k :: 1 <= k < |pieces| ==> pieces[k] == tail[k - 1];
      assert between[1..] != [] ==> between[1..][|between[1..]| - 1] == between[|between| - 1];
    }
  }

  /** The pieces of numbers written out one after the other hold the numbers,
      the first one after `lead`. */
  lemma {:induction false} ExpectedPieceText(lead: string, values: seq<int>, between: seq<string>, k: nat)
    requires |between| + 1 == |values| && k < |values|
    ensures ExpectedPieces(lead, values, between)[k].text == (if k == 0 then lead else "") + FormatInt32(values[k])
    decreases k
  {
    if k > 0 {
      var tail := ExpectedPieces("", values[1..], between[1..]);
      ExpectedPieceText("", values[1..], between[1..], k - 1);
      assert ExpectedPieces(lead, values, between)[k] == tail[k - 1];
      assert values[1..][k - 1] == values[k];
    }
  }

  /** `Int32.Parse` reads a number back after nothing or after a newline. */
  lemma ParseWithLead(lead: string, v: int)
    requires (lead == "" || lead == "\n") && IsInt32(v)
    ensures ParseInt32(lead + FormatInt32(v)) == Ok(v)
  {
    if lead == "" {
      assert lead + FormatInt32(v) == FormatInt32(v);
      ParseFormatRoundTrip(v);
    } else {
      DelimiterParsing.ParseAfterNewline(v);
    }
  }

  /** `InternalAdd` over numbers written out with delimiters apart and in list
      order: the sum of the counted numbers, their negatives in order, and the
      last delimiter between them left in `currentDelimiter`. */
  lemma RunOfInterleaved(delimiters: seq<string>, lead: string, values: seq<int>, between: seq<string>, current: string)
    requires |between| + 1 == |values| && Apart(delimiters) && Ranked(delimiters, between)
    requires lead == "" || lead == "\n"
    requires forall k :: 0 <= k < |delimiters| ==> delimiters[k][0] !in lead
    requires forall v :: v in values ==> IsInt32(v)
    ensures InternalRun(delimiters, lead + Interleave(FormatAll(values), between), current)
            == Run(Ok(CountedSum(values)), GuardedCalculator.Negatives(values),
                   if between == [] then current else between[|between| - 1])
  {
    PiecesOfInterleaved(delimiters, lead, values, between);
    ExpectedPiecesShape(lead, values, between, current);
    var pieces := ExpectedPieces(lead, values, between);
    forall k | 0 <= k < |pieces|
      ensures ParseInt32(pieces[k].text) == Ok(values[k])
    {
      ExpectedPieceText(lead, values, between, k);
      assert values[k] in values;
      if k == 0 {
        ParseWithLead(lead, values[k]);
      } else {
        ParseWithLead("", values[k]);
      }
    }
    FoldOfParsed(ExpectedPieces(lead, values, between), values, current);
  }

  // ---------------------------------------------------------------------------
  // The header

  /** The text up to the first newline is the header line, the rest the body. */
  lemma HeaderLine(header: string, body: string)
    requires '\n' !in header
    ensures BeforeNewline(header + "\n" + body) == header
    ensures FromNewline(header + "\n" + body) == "\n" + body
  {
    var s := header + "\n" + body;
    assert s[..|header|] == header;
    PrefixBeforeNewline(s, |header|);
    assert s == header + s[|header|..];
  }

  /** The aggregation over two texts, one after the other. */
  lemma {:induction false} ScanAppend(start: Tokens, a: string, b: string)
    ensures Scan(start, a + b) == Scan(Scan(start, a), b)
    decreases |b|
  {
    if b == [] {
      assert a + b == a;
    } else {
      var ab := a + b;
      assert ab[..|ab| - 1] == a + b[..|b| - 1];
      ScanAppend(start, a, b[..|b| - 1]);
    }
  }

  /** Characters other than brackets go to the buffer. */
  lemma {:induction false} ScanWord(start: Tokens, d: string)
    requires '[' !in d && ']' !in d
    ensures Scan(start, d) == Tokens(start.buffer + d, start.list)
    decreases |d|
  {
    if d != [] {
      var init := d[..|d| - 1];
      assert d[|d| - 1] in d;
      ScanWord(start, init);
      assert start.buffer + init + [d[|d| - 1]] == start.buffer + d;
    }
  }

  /** A bracketed delimiter is added to the list, and stays in the buffer. */
  lemma ScanBracket(start: Tokens, d: string)
    requires '[' !in d && ']' !in d
    ensures Scan(start, "[" + d + "]") == Tokens(d, start.list + [d])
  {
    var front := "[" + d;
    var whole := front + "]";
    assert whole[..|whole| - 1] == front && whole[|whole| - 1] == ']';
    assert Scan(start, whole) == Step(Scan(start, front), ']');
    ScanOpen(start);
    ScanAppend(start, "[", d);
    ScanWord(start.(buffer := ""), d);
  }

  /** `[` clears the buffer. */
  lemma ScanOpen(start: Tokens)
    ensures Scan(start, "[") == start.(buffer := "")
  {
    assert "["[..0] == "";
  }

  /** The leading `//` of a header only goes to the buffer. */
  lemma ScanSlashes()
    ensures Scan(Tokens("", []), "//") == Tokens("//", [])
  {
    assert "//"[..1] == "/" && "/"[..0] == "";
  }

  /** The aggregation over bracketed delimiters adds them to the list in order. */
  lemma {:induction false} ScanBracketed(start: Tokens, ds: seq<string>)
    requires forall k :: 0 <= k < |ds| ==> '[' !in ds[k] && ']' !in ds[k]
    ensures Scan(start, DelimiterParsing.Bracketed(ds)).list == start.list + ds
    decreases |ds|
  {
    if ds != [] {
      var first := "[" + ds[0] + "]";
      var rest := DelimiterParsing.Bracketed(ds[1..]);
      assert DelimiterParsing.Bracketed(ds) == first + rest;
      ScanAppend(start, first, rest);
      ScanBracket(start, ds[0]);
      ScanBracketed(Tokens(ds[0], start.list + [ds[0]]), ds[1..]);
      assert start.list + [ds[0]] + ds[1..] == start.list + ds;
    }
  }

  /** A character that is no bracket and in no delimiter is not in the brackets. */
  lemma {:induction false} CharNotInBracketed(c: char, ds: seq<string>)
    requires c != '[' && c != ']'
    requires forall k :: 0 <= k < |ds| ==> c !in ds[k]
    ensures c !in DelimiterParsing.Bracketed(ds)
    decreases |ds|
  {
    if ds != [] {
      CharNotInBracketed(c, ds[1..]);
      assert DelimiterParsing.Bracketed(ds) == "[" + ds[0] + "]" + DelimiterParsing.Bracketed(ds[1..]);
    }
  }

  /** `GetCustomDelimiters` reads back the delimiters of a bracketed header, in
      header order, when no delimiter holds a bracket or a newline. */
  lemma HeaderTokensOfBracketed(ds: seq<string>, body: string)
    requires forall k :: 0 <= k < |ds| ==> '[' !in ds[k] && ']' !in ds[k] && '\n' !in ds[k]
    ensures HeaderTokens("//" + DelimiterParsing.Bracketed(ds) + "\n" + body) == ds
  {
    var brackets := DelimiterParsing.Bracketed(ds);
    CharNotInBracketed('\n', ds);
    HeaderLine("//" + brackets, body);
    ScanAppend(Tokens("", []), "//", brackets);
    ScanSlashes();
    ScanBracketed(Tokens("//", []), ds);
  }

  // ---------------------------------------------------------------------------
  // Add

  /** What `Add` returns or throws once `InternalAdd` has added up `total`, with
      `negatives` collected by this and the earlier calls. */
  function Reported(negatives: seq<int>, total: int): Result<int> {
    if negatives == [] then Ok(total) else Throws(InvalidOperationException(NegativesText(negatives)))
  }

  /** `Add` once the header is read and `InternalAdd` has run without exception. */
  lemma AddOutcomeOfRun(s: State, input: string, ds: seq<string>, numbers: string, total: int, seen: seq<int>, current: string)
    requires FindCustom(input, s.delimiters) == Ok((ds, numbers))
    requires InternalRun(ds, numbers, s.currentDelimiter) == Run(Ok(total), seen, current)
    ensures AddOutcome(s, input) == (Reported(s.negatives + seen, total), State(s.negatives + seen, current, ds, numbers))
  {
  }

  /** Text that starts with a number has no header. */
  lemma NoHeader(values: seq<int>, between: seq<string>)
    requires |between| + 1 == |values|
    ensures !("//" <= Interleave(FormatAll(values), between))
  {
    var first := FormatInt32(values[0]);
    assert first[0] in first;
    if between != [] {
      InterleaveFirst(values, between);
    }
    assert Interleave(FormatAll(values), between)[0] == first[0];
  }

  /** `Add` of numbers written out with the calculator's delimiters, apart and in
      list order, between them: the sum of the counted numbers, unless this or an
      earlier call has met a negative number. The delimiters stay, the last one
      cut at becomes the current one. */
  lemma AddOfNumbers(s: State, values: seq<int>, between: seq<string>)
    requires |between| + 1 == |values| && Apart(s.delimiters) && Ranked(s.delimiters, between)
    requires forall v :: v in values ==> IsInt32(v)
    ensures var input := Interleave(FormatAll(values), between);
            var negatives := s.negatives + GuardedCalculator.Negatives(values);
            AddOutcome(s, input)
            == (Reported(negatives, CountedSum(values)),
                State(negatives, if between == [] then s.currentDelimiter else between[|between| - 1], s.delimiters, input))
  {
    var input := Interleave(FormatAll(values), between);
    var last := if between == [] then s.currentDelimiter else between[|between| - 1];
    NoHeader(values, between);
    assert "" + input == input;
    RunOfInterleaved(s.delimiters, "", values, between, s.currentDelimiter);
    AddOutcomeOfRun(s, input, s.delimiters, input, CountedSum(values), GuardedCalculator.Negatives(values), last);
  }

  /** `Add` of numbers after a header `//c` with a single delimiter character
      `c`: the delimiters become `[c]` and the body is what follows the header line. */
  lemma AddOfCustom(s: State, c: char, values: seq<int>, between: seq<string>)
    requires c != '[' && c != '\n' && !IsDigit(c) && c != '-'
    requires |between| + 1 == |values| && forall b :: b in between ==> b == [c]
    requires forall v :: v in values ==> IsInt32(v)
    ensures var body := Interleave(FormatAll(values), between);
            var negatives := s.negatives + GuardedCalculator.Negatives(values);
            AddOutcome(s, "//" + [c] + "\n" + body)
            == (Reported(negatives, CountedSum(values)),
                State(negatives, if between == [] then s.currentDelimiter else [c], [[c]], "\n" + body))
  {
    var body := Interleave(FormatAll(values), between);
    var input := "//" + [c] + "\n" + body;
    CustomHeader(c, body, s.delimiters);
    SingleDelimiter(c, between);
    RunOfInterleaved([[c]], "\n", values, between, s.currentDelimiter);
    assert between != [] ==> between[|between| - 1] in between;
    var last := if between == [] then s.currentDelimiter else [c];
    AddOutcomeOfRun(s, input, [[c]], "\n" + body, CountedSum(values), GuardedCalculator.Negatives(values), last);
  }

  /** A single delimiter character that is no digit, `-` or newline is apart,
      and repeating it keeps list order. */
  lemma SingleDelimiter(c: char, between: seq<string>)
    requires c != '\n' && !IsDigit(c) && c != '-'
    requires forall b :: b in between ==> b == [c]
    ensures Apart([[c]]) && Ranked([[c]], between)
    ensures forall k :: 0 <= k < |[[c]]| ==> [[c]][k][0] !in "\n"
  {
    forall b | b in between
      ensures b in [[c]] && Rank([[c]], b) == 0
    {
    }
  }

  /** A header `//c` makes `c` the one delimiter; the body starts at the newline. */
  lemma CustomHeader(c: char, body: string, delimiters: seq<string>)
    requires c != '[' && c != '\n'
    ensures FindCustom("//" + [c] + "\n" + body, delimiters) == Ok(([[c]], "\n" + body))
  {
    var header := "//" + [c];
    assert header == ['/', '/', c];
    HeaderLine(header, body);
    assert (header + "\n" + body)[2] == c;
  }

  /** `Add` of numbers after a header of bracketed delimiters that hold no bracket
      and no newline: the delimiters become those of the header, in header order. */
  lemma AddOfBracketed(s: State, ds: seq<string>, values: seq<int>, between: seq<string>)
    requires ds != [] && Apart(ds) && Ranked(ds, between) && |between| + 1 == |values|
    requires forall k :: 0 <= k < |ds| ==> '[' !in ds[k] && ']' !in ds[k] && '\n' !in ds[k]
    requires forall v :: v in values ==> IsInt32(v)
    ensures var body := Interleave(FormatAll(values), between);
            var negatives := s.negatives + GuardedCalculator.Negatives(values);
            AddOutcome(s, "//" + DelimiterParsing.Bracketed(ds) + "\n" + body)
            == (Reported(negatives, CountedSum(values)),
                State(negatives, if between == [] then s.currentDelimiter else between[|between| - 1], ds, "\n" + body))
  {
    var body := Interleave(FormatAll(values), between);
    var brackets := DelimiterParsing.Bracketed(ds);
    var input := "//" + brackets + "\n" + body;
    CharNotInBracketed('\n', ds);
    HeaderLine("//" + brackets, body);
    HeaderTokensOfBracketed(ds, body);
    assert input[2] == '[';
    assert FindCustom(input, s.delimiters) == Ok((ds, "\n" + body));
    forall k | 0 <= k < |ds|
      ensures ds[k][0] !in "\n"
    {
      assert ds[k][0] in ds[k];
    }
    RunOfInterleaved(ds, "\n", values, between, s.currentDelimiter);
    var last := if between == [] then s.currentDelimiter else between[|between| - 1];
    AddOutcomeOfRun(s, input, ds, "\n" + body, CountedSum(values), GuardedCalculator.Negatives(values), last);
  }

  /** `Add("")` returns 0 unless an earlier call met a negative number, and
      changes nothing but `numbers`. */
  lemma AddOfEmpty(s: State)
    ensures AddOutcome(s, "") == (Reported(s.negatives, 0), s.(numbers := ""))
  {
    assert !("//" <= "");
    assert Pieces(s.delimiters, "") == [];
    assert s.negatives + [] == s.negatives;
  }

  /** Text that does not start with `//` leaves the delimiters as they are. */
  lemma DelimitersPersist(s: State, input: string)
    requires !("//" <= input)
    ensures AddOutcome(s, input).1.delimiters == s.delimiters
    ensures AddOutcome(s, input).1.numbers == input
  {
  }

  /** The negatives only grow from call to call, and once one has been met every
      later call of `Add` throws. */
  lemma NegativesPersist(s: State, input: string)
    ensures s.negatives <= AddOutcome(s, input).1.negatives
    ensures s.negatives != [] ==> AddOutcome(s, input).0.Throws?
  {
    match FindCustom(input, s.delimiters)
    case Throws(e) =>
    case Ok((delimiters, numbers)) =>
      var run := InternalRun(delimiters, numbers, s.currentDelimiter);
      assert s.negatives <= s.negatives + run.seen;
      assert s.negatives != [] ==> s.negatives + run.seen != [];
  }

  /** Without wrap-around, which needs more than two million numbers, the sum of
      non-negative numbers is the plain sum of those up to 1000. */
  lemma {:induction false} CountedSumOfNatural(values: seq<int>)
    requires forall v :: v in values ==> 0 <= v <= INT32_MAX
    requires |values| <= 2_000_000
    ensures CountedSum(values) == GuardedCalculator.Sum(GuardedCalculator.Below(values, THRESHOLD + 1))
    ensures 0 <= CountedSum(values) <= THRESHOLD * |values|
    decreases |values|
  {
    if values != [] {
      var v := values[0];
      var tail := values[1..];
      assert v in values;
      assert forall w :: w in tail ==> w in values;
      CountedSumOfNatural(tail);
      var kept := if v < THRESHOLD + 1 then [v] else [];
      var below := GuardedCalculator.Below(tail, THRESHOLD + 1);
      assert GuardedCalculator.Below(values, THRESHOLD + 1) == kept + below;
      if kept != [] {
        assert (kept + below)[1..] == below;
      } else {
        assert kept + below == below;
      }
    }
  }

  /** The same delimiter `n` times. */
  function Repeated(d: string, n: nat): (r: seq<string>)
    ensures |r| == n && forall b :: b in r ==> b == d
  {
    seq(n, _ => d)
  }

  /** `String.Join` writes the separator between every two values. */
  lemma {:induction false} JoinInterleaves(separator: string, values: seq<string>)
    requires values != []
    ensures Join(separator, values) == Interleave(values, Repeated(separator, |values| - 1))
    decreases |values|
  {
    if |values| > 1 {
      JoinInterleaves(separator, values[1..]);
      assert Repeated(separator, |values| - 1)[1..] == Repeated(separator, |values| - 2);
    }
  }

  /** A fresh calculator and its default delimiters, apart from each other. */
  lemma DefaultApart()
    ensures Apart(DEFAULT_DELIMITERS)
  {
    assert DEFAULT_DELIMITERS[0] == "," && DEFAULT_DELIMITERS[1] == "\n";
  }

  /** `should_return_sum_for_unknown_amount_of_numbers`: numbers joined with `,` by
      `String.Join` add up to their sum on a fresh calculator, once those above
      1000 are left out. */
  lemma AddOfJoined(values: seq<int>)
    requires forall v :: v in values ==> 0 <= v <= INT32_MAX
    requires |values| <= 2_000_000
    ensures AddOutcome(INITIAL, Join(",", FormatAll(values))).0
            == Ok(GuardedCalculator.Sum(GuardedCalculator.Below(values, THRESHOLD + 1)))
  {
    CountedSumOfNatural(values);
    if values == [] {
      AddOfEmpty(INITIAL);
    } else {
      var between := Repeated(",", |values| - 1);
      JoinInterleaves(",", FormatAll(values));
      DefaultApart();
      forall b | b in between
        ensures b in DEFAULT_DELIMITERS && Rank(DEFAULT_DELIMITERS, b) == 0
      {
      }
      AddOfNumbers(INITIAL, values, between);
      assert GuardedCalculator.Negatives(values) == [];
    }
  }

  /** The test's own numbers, all below 1000, add up to their plain sum. */
  lemma AddOfSmallJoined(values: seq<int>)
    requires forall v :: v in values ==> 0 <= v < 1000
    requires |values| <= 2_000_000
    ensures AddOutcome(INITIAL, Join(",", FormatAll(values))).0 == Ok(GuardedCalculator.Sum(values))
  {
    AddOfJoined(values);
    GuardedCalculator.BelowKeepsAll(values, THRESHOLD + 1);
  }
}
