/** The parts of the .NET string and integer API that the calculators rely on:
    ordinal `IndexOf`, `String.Split` with `RemoveEmptyEntries`, `Int32.Parse`,
    `Int32.ToString` and `String.Join`, with the behaviour the C# code observes. */
module DotNetText {
  import opened Exceptions

  const INT32_MIN: int := -0x8000_0000
  const INT32_MAX: int := 0x7FFF_FFFF

  predicate IsInt32(n: int) {
    INT32_MIN <= n <= INT32_MAX
  }

  // ---------------------------------------------------------------------------
  // Searching

  /** `d` occurs in `s` starting at index `i`. */
  predicate OccursAt(s: string, d: string, i: int) {
    0 <= i && i + |d| <= |s| && s[i..i + |d|] == d
  }

  /** Ordinal `s.IndexOf(d)`: the first index at which `d` occurs in `s`, or -1
      when it occurs nowhere (`IndexOfMeaning`). */
  function IndexOf(s: string, d: string): (r: int)
    ensures -1 <= r <= |s|
    ensures r >= 0 ==> OccursAt(s, d, r)
  {
    IndexOfFrom(s, d, 0)
  }

  function IndexOfFrom(s: string, d: string, k: nat): (r: int)
    requires k <= |s|
    decreases |s| - k
    ensures r == -1 || (k <= r <= |s| && OccursAt(s, d, r))
  {
    if OccursAt(s, d, k) then k
    else if k == |s| then -1
    else IndexOfFrom(s, d, k + 1)
  }

  lemma {:induction false} IndexOfFromMeaning(s: string, d: string, k: nat)
    requires k <= |s|
    decreases |s| - k
    ensures IndexOfFrom(s, d, k) == -1 <==> forall i :: k <= i <= |s| ==> !OccursAt(s, d, i)
    ensures IndexOfFrom(s, d, k) >= 0 ==> forall i :: k <= i < IndexOfFrom(s, d, k) ==> !OccursAt(s, d, i)
  {
    if !OccursAt(s, d, k) && k < |s| {
      IndexOfFromMeaning(s, d, k + 1);
    }
  }

  /** `IndexOf` answers -1 exactly when `d` occurs nowhere in `s`, and otherwise
      the index of its first occurrence. */
  lemma IndexOfMeaning(s: string, d: string)
    ensures IndexOf(s, d) == -1 <==> forall i :: 0 <= i <= |s| ==> !OccursAt(s, d, i)
    ensures IndexOf(s, d) >= 0 ==> forall i :: 0 <= i < IndexOf(s, d) ==> !OccursAt(s, d, i)
  {
    IndexOfFromMeaning(s, d, 0);
  }

  /** `s.IndexOf(c)`: the index of the first `c` in `s`, or -1. */
  function IndexOfChar(s: string, c: char): (r: int)
    ensures -1 <= r < |s|
    ensures r == -1 <==> c !in s
    ensures r >= 0 ==> r < |s| && s[r] == c && c !in s[..r]
  {
    if s == [] then -1
    else if s[0] == c then 0
    else
      var k := IndexOfChar(s[1..], c);
      if k == -1 then -1
      else
        assert s[..k + 1] == [s[0]] + s[1..][..k];
        k + 1
  }

  /** A non-empty `d` that occurs at `i` starts with the character at `i`. */
  lemma OccurrenceHead(s: string, d: string, i: int)
    ensures d != [] && OccursAt(s, d, i) ==> s[i] == d[0]
  {
    if d != [] && OccursAt(s, d, i) {
      assert s[i..i + |d|][0] == s[i];
    }
  }

  /** An occurrence inside a prefix is an occurrence in the whole text. */
  lemma OccursInPrefix(s: string, p: nat, d: string, i: int)
    requires p <= |s|
    ensures OccursAt(s[..p], d, i) ==> OccursAt(s, d, i)
  {
    if OccursAt(s[..p], d, i) {
      assert s[..p][i..i + |d|] == s[i..i + |d|];
    }
  }

  /** A one-character string occurs exactly where that character stands. */
  lemma OccursAtChar(s: string, c: char, i: int)
    ensures OccursAt(s, [c], i) <==> 0 <= i < |s| && s[i] == c
  {
    if 0 <= i < |s| {
      assert s[i..i + 1] == [s[i]];
    }
  }

  /** Where the first character of `d` is not in `t`, the first occurrence of `d`
      in `t + d + rest` is the one right after `t`. */
  lemma IndexOfAfter(t: string, d: string, rest: string)
    requires d != "" && d[0] !in t
    ensures IndexOf(t + d + rest, d) == |t|
  {
    var s := t + d + rest;
    assert s[|t|..|t| + |d|] == d;
    forall i | 0 <= i < |t|
      ensures !OccursAt(s, d, i)
    {
      OccurrenceHead(s, d, i);
      assert s[i] == t[i];
    }
    IndexOfMeaning(s, d);
    assert OccursAt(s, d, |t|);
    var r := IndexOf(s, d);
    assert r >= 0;
    assert !(r < |t|);
  }

  /** Where the first character of `d` is not in `t`, `d` occurs nowhere in `t`. */
  lemma IndexOfAbsent(t: string, d: string)
    requires d != "" && d[0] !in t
    ensures IndexOf(t, d) == -1
  {
    forall i | 0 <= i <= |t|
      ensures !OccursAt(t, d, i)
    {
      OccurrenceHead(t, d, i);
    }
    IndexOfMeaning(t, d);
  }

  // ---------------------------------------------------------------------------
  // String.Split

  /** The separator `String.Split` recognises at index `i` of `s`: the first of
      `separators`, in array order, that is not empty and occurs there. */
  function SeparatorAt(s: string, i: int, separators: seq<string>): (r: Option<string>)
    decreases |separators|
    ensures r.Some? ==> r.value in separators && r.value != "" && OccursAt(s, r.value, i)
    ensures r.None? ==> forall d :: d in separators && d != "" ==> !OccursAt(s, d, i)
  {
    if separators == [] then None
    else if separators[0] != "" && OccursAt(s, separators[0], i) then Some(separators[0])
    else SeparatorAt(s, i, separators[1..])
  }

  /** The first index at or after `i` at which a separator is recognised, with that separator. */
  function NextSeparator(s: string, separators: seq<string>, i: nat): (r: Option<(nat, string)>)
    decreases |s| - i
    ensures r.Some? ==> i <= r.value.0 < |s| && SeparatorAt(s, r.value.0, separators) == Some(r.value.1)
    ensures r.Some? ==> forall k :: i <= k < r.value.0 ==> SeparatorAt(s, k, separators).None?
    ensures r.None? ==> forall k :: i <= k < |s| ==> SeparatorAt(s, k, separators).None?
  {
    if i >= |s| then None
    else match SeparatorAt(s, i, separators)
      case Some(d) => Some((i, d))
      case None => NextSeparator(s, separators, i + 1)
  }

  /** The pieces `s.Split(separators, StringSplitOptions.None)` returns: the text
      between the separators recognised scanning left to right, empty pieces included. */
  function SplitAll(s: string, separators: seq<string>): seq<string>
    decreases |s|
  {
    match NextSeparator(s, separators, 0)
    case None => [s]
    case Some((p, d)) => [s[..p]] + SplitAll(s[p + |d|..], separators)
  }

  /** The characters `Char.IsWhiteSpace` accepts, each as a one-character separator:
      with an empty separator array `String.Split` splits at every one of them. */
  const WHITE_SPACE_SEPARATORS: seq<string> := [
    " ", "\t", "\n", "\U{B}", "\U{C}", "\r", "\U{85}", "\U{A0}", "\U{1680}",
    "\U{2000}", "\U{2001}", "\U{2002}", "\U{2003}", "\U{2004}", "\U{2005}",
    "\U{2006}", "\U{2007}", "\U{2008}", "\U{2009}", "\U{200A}",
    "\U{2028}", "\U{2029}", "\U{202F}", "\U{205F}", "\U{3000}"]

  /** `StringSplitOptions.RemoveEmptyEntries`: the non-empty pieces, in order. */
  function RemoveEmpty(pieces: seq<string>): (r: seq<string>)
    ensures forall t :: t in r ==> t != "" && t in pieces
    ensures forall t :: t in pieces && t != "" ==> t in r
  {
    if pieces == [] then []
    else (if pieces[0] == "" then [] else [pieces[0]]) + RemoveEmpty(pieces[1..])
  }

  /** `s.Split(separators, StringSplitOptions.RemoveEmptyEntries)`. */
  function Split(s: string, separators: seq<string>): seq<string>
  {
    RemoveEmpty(SplitAll(s, if separators == [] then WHITE_SPACE_SEPARATORS else separators))
  }

  /** No non-empty separator starts with a character of `t`, so none can start inside `t`. */
  predicate NoSeparatorStart(t: string, separators: seq<string>) {
    forall d :: d in separators && d != "" ==> d[0] !in t
  }

  /** Distinct non-empty separators start with distinct characters. */
  predicate DistinctHeads(separators: seq<string>) {
    forall d, e :: d in separators && e in separators && d != "" && e != "" && d[0] == e[0] ==> d == e
  }

  lemma NoSeparatorInside(t: string, rest: string, separators: seq<string>, k: nat)
    requires NoSeparatorStart(t, separators) && k < |t|
    ensures SeparatorAt(t + rest, k, separators).None?
  {
    var s := t + rest;
    assert s[k] == t[k];
    forall d | d in separators && d != ""
      ensures !OccursAt(s, d, k)
    {
      OccurrenceHead(s, d, k);
    }
  }

  /** A text in which no separator can start is a single piece. */
  lemma SplitSingle(t: string, separators: seq<string>)
    requires NoSeparatorStart(t, separators)
    ensures SplitAll(t, separators) == [t]
  {
    forall k | 0 <= k < |t|
      ensures SeparatorAt(t, k, separators).None?
    {
      NoSeparatorInside(t, "", separators, k);
      assert t + "" == t;
    }
  }

  /** A separator after a text in which none can start ends the first piece there. */
  lemma SplitCons(t: string, d: string, rest: string, separators: seq<string>)
    requires NoSeparatorStart(t, separators) && DistinctHeads(separators)
    requires d in separators && d != ""
    ensures SplitAll(t + d + rest, separators) == [t] + SplitAll(rest, separators)
  {
    var s := t + d + rest;
    assert s == t + (d + rest);
    assert OccursAt(s, d, |t|) by {
      assert s[|t|..|t| + |d|] == d;
    }
    var at := SeparatorAt(s, |t|, separators);
    assert at.Some?;
    OccurrenceHead(s, at.value, |t|);
    OccurrenceHead(s, d, |t|);
    assert at == Some(d);
    var next := NextSeparator(s, separators, 0);
    assert next.Some?;
    if next.value.0 < |t| {
      NoSeparatorInside(t, d + rest, separators, next.value.0);
    }
    assert next == Some((|t|, d));
    assert s[..|t|] == t;
    assert s[|t| + |d|..] == rest;
  }

  /** Split undoes Join: joining pieces in which no separator can start with a
      separator that is the only one starting with its first character, then
      splitting, gives the pieces back. */
  lemma {:induction false} SplitJoin(values: seq<string>, separator: string, separators: seq<string>)
    requires values != []
    requires forall v :: v in values ==> NoSeparatorStart(v, separators)
    requires |values| > 1 ==> separator in separators && separator != "" && DistinctHeads(separators)
    ensures SplitAll(Join(separator, values), separators) == values
    decreases |values|
  {
    if |values| == 1 {
      SplitSingle(values[0], separators);
    } else {
      SplitJoin(values[1..], separator, separators);
      SplitCons(values[0], separator, Join(separator, values[1..]), separators);
    }
  }

  /** The pieces with one separator between each two neighbours. */
  function Interleave(pieces: seq<string>, between: seq<string>): string
    requires |between| + 1 == |pieces|
    decreases |between|
  {
    if between == [] then pieces[0] else pieces[0] + between[0] + Interleave(pieces[1..], between[1..])
  }

  /** A piece and a separator in front of an interleaving. */
  lemma InterleaveCons(first: string, rest: seq<string>, separator: string, between: seq<string>)
    requires |between| + 1 == |rest|
    ensures Interleave([first] + rest, [separator] + between) == first + separator + Interleave(rest, between)
  {
    assert ([first] + rest)[1..] == rest && ([separator] + between)[1..] == between;
  }

  /** Split undoes any interleaving of pieces in which no separator can start
      with recognised separators, whichever of them stands between two pieces. */
  lemma {:induction false} SplitInterleaved(pieces: seq<string>, between: seq<string>, separators: seq<string>)
    requires |between| + 1 == |pieces|
    requires forall v :: v in pieces ==> NoSeparatorStart(v, separators)
    requires forall d :: d in between ==> d in separators && d != ""
    requires DistinctHeads(separators)
    ensures SplitAll(Interleave(pieces, between), separators) == pieces
    decreases |between|
  {
    if between == [] {
      assert pieces[0] in pieces;
      SplitSingle(pieces[0], separators);
    } else {
      var rest := Interleave(pieces[1..], between[1..]);
      assert SplitAll(Interleave(pieces, between), separators) == [pieces[0]] + SplitAll(rest, separators) by {
        assert pieces[0] in pieces && between[0] in between;
        SplitCons(pieces[0], between[0], rest, separators);
      }
      assert SplitAll(rest, separators) == pieces[1..] by {
        assert forall d :: d in between[1..] ==> d in between;
        assert forall v :: v in pieces[1..] ==> v in pieces;
        SplitInterleaved(pieces[1..], between[1..], separators);
      }
      assert [pieces[0]] + pieces[1..] == pieces;
    }
  }

  /** No piece `String.Split` returns contains a separator. */
  lemma {:induction false} SplitPiecesHoldNoSeparator(s: string, separators: seq<string>)
    ensures forall t, d :: t in SplitAll(s, separators) && d in separators && d != "" ==> IndexOf(t, d) == -1
    decreases |s|
  {
    match NextSeparator(s, separators, 0)
    case None =>
      assert s[..|s|] == s;
      NoSeparatorBefore(s, separators, |s|);
    case Some((p, d)) =>
      var tail := s[p + |d|..];
      assert forall t, e :: t in SplitAll(tail, separators) && e in separators && e != "" ==> IndexOf(t, e) == -1 by {
        SplitPiecesHoldNoSeparator(tail, separators);
      }
      assert forall e :: e in separators && e != "" ==> IndexOf(s[..p], e) == -1 by {
        NoSeparatorBefore(s, separators, p);
      }
      assert SplitAll(s, separators) == [s[..p]] + SplitAll(tail, separators);
  }

  /** Where no separator is recognised before `p`, none occurs in the first `p` characters. */
  lemma NoSeparatorBefore(s: string, separators: seq<string>, p: nat)
    requires p <= |s|
    requires forall k :: 0 <= k < p ==> SeparatorAt(s, k, separators).None?
    ensures forall d :: d in separators && d != "" ==> IndexOf(s[..p], d) == -1
  {
    forall d | d in separators && d != ""
      ensures IndexOf(s[..p], d) == -1
    {
      forall i | 0 <= i <= p
        ensures !OccursAt(s[..p], d, i)
      {
        OccursInPrefix(s, p, d, i);
        if i < p {
          assert SeparatorAt(s, i, separators).None?;
        }
      }
      IndexOfMeaning(s[..p], d);
    }
  }

  /** Every character of every piece comes from the split text. */
  lemma {:induction false} SplitPiecesFromInput(s: string, separators: seq<string>)
    ensures forall t, c :: t in SplitAll(s, separators) && c in t ==> c in s
    decreases |s|
  {
    match NextSeparator(s, separators, 0)
    case None =>
    case Some((p, d)) =>
      var tail := s[p + |d|..];
      SplitPiecesFromInput(tail, separators);
      forall c | c in tail
        ensures c in s
      {
        var j :| 0 <= j < |tail| && tail[j] == c;
        assert s[p + |d| + j] == c;
      }
      forall c | c in s[..p]
        ensures c in s
      {
        var j :| 0 <= j < p && s[..p][j] == c;
        assert s[j] == c;
      }
  }

  lemma {:induction false} RemoveEmptyKeepsNonEmpty(pieces: seq<string>)
    requires forall t :: t in pieces ==> t != ""
    ensures RemoveEmpty(pieces) == pieces
    decreases |pieces|
  {
    if pieces != [] {
      assert pieces[0] in pieces;
      assert forall t :: t in pieces[1..] ==> t in pieces;
      RemoveEmptyKeepsNonEmpty(pieces[1..]);
      assert [pieces[0]] + pieces[1..] == pieces;
    }
  }

  lemma {:induction false} RemoveEmptyAppend(a: seq<string>, b: seq<string>)
    ensures RemoveEmpty(a + b) == RemoveEmpty(a) + RemoveEmpty(b)
    decreases |a|
  {
    if a == [] {
      assert a + b == b;
    } else {
      assert (a + b)[1..] == a[1..] + b;
      RemoveEmptyAppend(a[1..], b);
    }
  }

  // ---------------------------------------------------------------------------
  // Int32.Parse and Int32.ToString

  /** The white space `Int32.Parse` skips around a number: U+0009 to U+000D and the space. */
  predicate IsNumberSpace(c: char) {
    c == ' ' || '\t' <= c <= '\r'
  }

  predicate IsDigit(c: char) {
    '0' <= c <= '9'
  }

  predicate AllDigits(s: string) {
    forall i :: 0 <= i < |s| ==> IsDigit(s[i])
  }

  function TrimEnd(s: string): (r: string)
    ensures |r| <= |s| && r == s[..|r|]
    ensures r == [] || !IsNumberSpace(r[|r| - 1])
  {
    if s != [] && IsNumberSpace(s[|s| - 1]) then TrimEnd(s[..|s| - 1]) else s
  }

  function DigitValue(c: char): nat {
    if IsDigit(c) then c as int - '0' as int else 0
  }

  /** The value of a string of decimal digits. */
  function DigitsValue(ds: string): nat
  {
    if ds == [] then 0 else DigitsValue(ds[..|ds| - 1]) * 10 + DigitValue(ds[|ds| - 1])
  }

  /** `Int32.Parse(s)` (NumberStyles.Integer, invariant culture): optional white
      space, an optional `-` or `+`, one or more decimal digits, optional white space. */
  function ParseInt32(s: string): (r: Result<int>)
    decreases |s|
    ensures r.Ok? ==> IsInt32(r.value) && s != ""
    ensures r.Throws? ==> r.exception == FormatException || r.exception == OverflowException
  {
    if s != [] && IsNumberSpace(s[0]) then ParseInt32(s[1..]) else ParseTrimmed(TrimEnd(s))
  }

  /** `Int32.Parse` once the surrounding white space is gone: a sign and digits. */
  function ParseTrimmed(t: string): (r: Result<int>)
    ensures r.Ok? ==> IsInt32(r.value) && t != ""
    ensures r.Throws? ==> r.exception == FormatException || r.exception == OverflowException
  {
    var digits := if t != [] && (t[0] == '-' || t[0] == '+') then t[1..] else t;
    if digits == [] || !AllDigits(digits) then Throws(FormatException)
    else
      var magnitude := DigitsValue(digits);
      var v: int := if t[0] == '-' then -(magnitude as int) else magnitude;
      if IsInt32(v) then Ok(v) else Throws(OverflowException)
  }

  function DigitChar(d: nat): (c: char)
    requires d < 10
    ensures IsDigit(c) && DigitValue(c) == d
  {
    ('0' as int + d) as char
  }

  /** The decimal digits of `n`, without leading zeros. */
  function FormatNat(n: nat): (r: string)
    decreases n
    ensures r != [] && AllDigits(r)
    ensures DigitsValue(r) == n
  {
    if n < 10 then [DigitChar(n)]
    else
      var r := FormatNat(n / 10) + [DigitChar(n % 10)];
      assert r[..|r| - 1] == FormatNat(n / 10);
      r
  }

  /** `n.ToString()` for an `int`, invariant culture. */
  function FormatInt32(n: int): (r: string)
    ensures r != [] && IsDigit(r[|r| - 1])
    ensures forall c :: c in r ==> IsDigit(c) || c == '-'
  {
    if n < 0 then "-" + FormatNat(-n) else FormatNat(n)
  }

  /** `Int32.Parse` reads back what `Int32.ToString` writes. */
  lemma ParseFormatRoundTrip(n: int)
    requires IsInt32(n)
    ensures ParseInt32(FormatInt32(n)) == Ok(n)
  {
    var s := FormatInt32(n);
    assert TrimEnd(s) == s;
    if n < 0 {
      assert s[1..] == FormatNat(-n);
    }
  }

  /** `Int32.Parse` skips white space before the number. */
  lemma ParseSkipsLeadingSpace(c: char, s: string)
    requires IsNumberSpace(c)
    ensures ParseInt32([c] + s) == ParseInt32(s)
  {
    assert ([c] + s)[1..] == s;
  }

  /** `String.Join(separator, values)`. */
  function Join(separator: string, values: seq<string>): string
    decreases |values|
  {
    if values == [] then ""
    else if |values| == 1 then values[0]
    else values[0] + separator + Join(separator, values[1..])
  }

  /** The decimal form of each value, as `String.Join<int>` writes them. */
  function FormatAll(values: seq<int>): (r: seq<string>)
    ensures |r| == |values|
    ensures forall i :: 0 <= i < |values| ==> r[i] == FormatInt32(values[i])
  {
    seq(|values|, i requires 0 <= i < |values| => FormatInt32(values[i]))
  }

  /** A character in neither the separator nor any value is not in the joined text. */
  lemma {:induction false} JoinAbsent(separator: string, values: seq<string>, c: char)
    requires c !in separator
    requires forall v :: v in values ==> c !in v
    ensures c !in Join(separator, values)
    decreases |values|
  {
    if |values| > 1 {
      JoinAbsent(separator, values[1..], c);
    }
  }
}
