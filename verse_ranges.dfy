/** The verse-range grammar shared by the verse panel and the build script: a
    range string `"start-end"` names the inclusive run of verse numbers from
    `start` to `end`. Both `parseRange` in the panel and
    `getVerseNumbersFromRange` in the script implement it with the same guards
    and the same push loop; `ParseRange` below is that loop. */
module VerseRanges {
  import opened Strings

  /** The bounds a range string denotes, or `None` when it is empty, does not
      split on `-` into exactly two pieces, a piece is not a number, the start is
      below 1 or the end is below the start. */
  function RangeBounds(range: string): Option<(int, int)> {
    if range == [] then None
    else
      var parts := Split(range, '-');
      if |parts| != 2 then None
      else
        match (ParseInt(parts[0]), ParseInt(parts[1]))
        case (Some(start), Some(end)) =>
          if start < 1 || end < start then None else Some((start, end))
        case _ => None
  }

  /** `[start, start + 1, ..., end]`. */
  function Interval(start: int, end: int): (r: seq<int>)
    requires start <= end + 1
  {
    seq(end - start + 1, k requires 0 <= k < end - start + 1 => start + k)
  }

  /** The verse numbers a range string denotes; `[]` for a rejected range. */
  function RangeVerses(range: string): seq<int> {
    match RangeBounds(range)
    case None => []
    case Some((start, end)) => Interval(start, end)
  }

  /** `parseRange(range)` / `getVerseNumbersFromRange(range)`. */
  method ParseRange(range: string) returns (verses: seq<int>)
    ensures verses == RangeVerses(range)
  {
    if range == [] {
      return [];
    }
    var parts := Split(range, '-');
    if |parts| != 2 {
      return [];
    }
    var start := ParseInt(parts[0]);
    var end := ParseInt(parts[1]);
    if start.None? || end.None? || start.value < 1 || end.value < start.value {
      return [];
    }
    verses := [];
    var i := start.value;
    while i <= end.value
      invariant start.value <= i <= end.value + 1
      invariant verses == Interval(start.value, i - 1)
    {
      verses := verses + [i];
      i := i + 1;
    }
  }

  // ---------------------------------------------------------------------------
  // What a range denotes
  // ---------------------------------------------------------------------------

  /** An accepted range yields `start, start + 1, ..., end`: ascending by one,
      `end - start + 1` numbers, all at least 1; a rejected one yields nothing,
      and an accepted one never yields nothing. */
  lemma RangeVersesShape(range: string)
    ensures RangeVerses(range) == [] <==> RangeBounds(range).None?
    ensures RangeBounds(range).Some? ==>
              var (start, end) := RangeBounds(range).value;
              var r := RangeVerses(range);
              && 1 <= start <= end
              && |r| == end - start + 1
              && r[0] == start && r[|r| - 1] == end
              && (forall k :: 0 <= k < |r| ==> r[k] == start + k)
              && Increasing(r)
              && (forall v :: v in r <==> start <= v <= end)
  {
    if RangeBounds(range).Some? {
      var (start, end) := RangeBounds(range).value;
      IntervalShape(start, end);
    }
  }

  lemma IntervalShape(start: int, end: int)
    requires start <= end
    ensures var r := Interval(start, end);
            && |r| == end - start + 1
            && r[0] == start && r[|r| - 1] == end
            && (forall k :: 0 <= k < |r| ==> r[k] == start + k)
            && Increasing(r)
            && (forall v :: v in r <==> start <= v <= end)
  {
    var r := Interval(start, end);
    forall v | start <= v <= end
      ensures v in r
    {
      assert r[v - start] == v;
    }
  }

  /** Rejections: a range without exactly one `-` gives nothing (so `"-3-5"`
      and `"7"` are both rejected). */
  lemma NotOneDashRejected(range: string)
    requires Count(range, '-') != 1
    ensures RangeVerses(range) == []
  {
    SplitCount(range, '-');
  }

  /** Bounds are read with `parseInt(_, 10)`: each piece may carry anything
      after its leading digits (`"1a-3b"` reads as 1 to 3), and a start/end pair
      written in decimal is read back exactly. */
  lemma NumericPrefixAccepted(start: nat, startRest: string, end: nat, endRest: string)
    requires 1 <= start <= end
    requires startRest == [] || !IsDigit(startRest[0])
    requires endRest == [] || !IsDigit(endRest[0])
    requires '-' !in startRest && '-' !in endRest
    ensures RangeBounds(DecimalString(start) + startRest + "-" + DecimalString(end) + endRest)
         == Some((start, end))
  {
    DecimalPiece(start, startRest);
    DecimalPiece(end, endRest);
    Regroup(DecimalString(start), startRest, DecimalString(end), endRest);
    BoundsOfPieces(DecimalString(start) + startRest, DecimalString(end) + endRest, start, end);
  }

  /** A decimal numeral followed by dash-free text that does not start with a
      digit is a dash-free piece that reads as the numeral's value. */
  lemma DecimalPiece(n: nat, rest: string)
    requires rest == [] || !IsDigit(rest[0])
    requires '-' !in rest
    ensures '-' !in DecimalString(n) + rest
    ensures ParseInt(DecimalString(n) + rest) == Some(n)
  {
    assert '-' !in DecimalString(n);
    ParseIntDecimal(n, rest);
  }

  lemma Regroup(w: string, x: string, y: string, z: string)
    ensures w + x + "-" + y + z == (w + x) + "-" + (y + z)
  {
  }

  /** A range whose two dash-free pieces read as numbers denotes those numbers,
      subject to the bound checks. */
  lemma BoundsOfPieces(a: string, b: string, x: int, y: int)
    requires '-' !in a && '-' !in b
    requires ParseInt(a) == Some(x) && ParseInt(b) == Some(y)
    ensures RangeBounds(a + "-" + b) == if x < 1 || y < x then None else Some((x, y))
  {
    assert a + "-" + b == a + ['-'] + b;
    SplitTwo(a, b, '-');
  }

  /** Round trip: the range string `"<start>-<end>"` denotes exactly the bounds
      it was written from. */
  lemma RangeRoundTrip(start: nat, end: nat)
    requires 1 <= start <= end
    ensures RangeBounds(DecimalString(start) + "-" + DecimalString(end)) == Some((start, end))
    ensures RangeVerses(DecimalString(start) + "-" + DecimalString(end)) == Interval(start, end)
  {
    DecimalPair(start, end);
  }

  /** An inverted range (`"5-3"`) and a range starting at 0 (`"0-4"`) are
      rejected. */
  lemma BadBoundsRejected(start: nat, end: nat)
    requires end < start || start == 0
    ensures RangeVerses(DecimalString(start) + "-" + DecimalString(end)) == []
  {
    DecimalPair(start, end);
  }

  /** How `"<start>-<end>"` splits and reads. */
  lemma DecimalPair(start: nat, end: nat)
    ensures var a, b := DecimalString(start), DecimalString(end);
            && Split(a + "-" + b, '-') == [a, b]
            && ParseInt(a) == Some(start) && ParseInt(b) == Some(end)
  {
    var a, b := DecimalString(start), DecimalString(end);
    assert '-' !in a && '-' !in b;
    assert a + "-" + b == a + ['-'] + b;
    SplitTwo(a, b, '-');
    ParseIntDecimal(start, []);
    ParseIntDecimal(end, []);
    assert a + [] == a && b + [] == b;
  }
}
