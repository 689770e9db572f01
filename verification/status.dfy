/** Reading the result count off the first results page (`count`, and the
    status check at the top of `scrape`): the zero-results marker, then the
    status line `Displaying buildings A - B of N`. */
module Status {
  import opened Wrappers
  import opened Text
  import opened Page

  /** The phrase whose presence anywhere in the page means "no results". */
  const ZeroMarker := "0 results found"

  /** The literal start of the status line. */
  const CountPrefix := "Displaying buildings "

  /** What the regex class `\d` accepts, on ASCII. */
  predicate IsDigit(c: char) {
    '0' <= c <= '9'
  }

  predicate AllDigits(s: string) {
    forall i | 0 <= i < |s| :: IsDigit(s[i])
  }

  /** The length of the run of digits that `s` starts with: what a greedy `\d+`
      (or `\d*`) consumes. */
  function Digits(s: string): (n: nat)
    ensures n <= |s| && AllDigits(s[..n])
    ensures n < |s| ==> !IsDigit(s[n])
  {
    if s != [] && IsDigit(s[0]) then
      var n := 1 + Digits(s[1..]);
      assert forall i | 1 <= i < n :: s[..n][i] == s[1..][..n - 1][i - 1];
      n
    else 0
  }

  /** The status line `Displaying buildings d1 - d2 of d3`, each number a
      non-empty run of digits. */
  predicate StatusLine(s: string, d1: string, d2: string, d3: string) {
    && d1 != [] && AllDigits(d1)
    && d2 != [] && AllDigits(d2)
    && d3 != [] && AllDigits(d3)
    && s == CountPrefix + d1 + " - " + d2 + " of " + d3
  }

  /** `\d+` followed by the literal `sep`, at the start of `s`: what is left of `s`
      after both, if they match there. The `\d+` takes the whole run of digits,
      the only way to match when `sep` starts with a non-digit. */
  function NumberThen(s: string, sep: string): Option<string>
  {
    var n := Digits(s);
    if n == 0 || !(sep <= s[n..]) then None else Some(s[n + |sep|..])
  }

  /** The regex `Displaying buildings \d+ - \d+ of (\d+)` anchored at the start
      of `s`: the captured group, if it matches there. */
  function CountIn(s: string): Option<string> {
    if !(CountPrefix <= s) then None
    else match NumberThen(s[|CountPrefix|..], " - ")
      case None => None
      case Some(t) =>
        match NumberThen(t, " of ")
        case None => None
        case Some(u) =>
          var n := Digits(u);
          if n == 0 then None else Some(u[..n])
  }

  /** The status regex tried at index `i` of `text`. */
  function CountAt(text: string, i: nat): Option<string> {
    if i <= |text| then CountIn(text[i..]) else None
  }

  /** What the status regex captures is a non-empty run of digits, and it only
      matches where the literal start of the status line occurs. */
  lemma CountAtShape(text: string, i: nat)
    ensures CountAt(text, i).Some? ==> CountAt(text, i).value != [] && AllDigits(CountAt(text, i).value)
    ensures CountAt(text, i).Some? ==> OccursAt(text, CountPrefix, i)
  {
  }

  /** The leftmost index at or after `from` where the status regex matches:
      `re.search` scans from the left. */
  function FirstCount(text: string, from: nat): (r: Option<nat>)
    ensures r.Some? ==> from <= r.value <= |text| && CountAt(text, r.value).Some?
    ensures r.Some? ==> forall j: nat | from <= j < r.value :: CountAt(text, j).None?
    ensures r.None? ==> forall j: nat | from <= j <= |text| :: CountAt(text, j).None?
    decreases |text| - from
  {
    if from > |text| then None
    else if CountAt(text, from).Some? then Some(from)
    else FirstCount(text, from + 1)
  }

  /** What `count` reports for a first results page (and what `scrape` checks):
      `"0"` when the zero marker occurs anywhere; otherwise the total of the
      leftmost status line; an error when there is neither. */
  function ParseCount(text: string): (r: Result<string, Error>)
    ensures Contains(text, ZeroMarker) ==> r == Success("0")
    ensures r.Success? ==> r.value != [] && AllDigits(r.value)
    ensures r.Failure? <==> !Contains(text, ZeroMarker) && forall j: nat | j <= |text| :: CountAt(text, j).None?
    ensures r.Failure? ==> r.error == MissingStatus
  {
    if Contains(text, ZeroMarker) then Success("0")
    else match FirstCount(text, 0)
      case None => Failure(MissingStatus)
      case Some(i) =>
        CountAtShape(text, i);
        Success(CountAt(text, i).value)
  }

  /** A digit run followed by a non-digit is consumed whole. */
  lemma {:induction false} DigitsOfRun(d: string, s: string)
    requires AllDigits(d)
    requires s == [] || !IsDigit(s[0])
    ensures Digits(d + s) == |d|
  {
    if d != [] {
      assert (d + s)[1..] == d[1..] + s;
      DigitsOfRun(d[1..], s);
    } else {
      assert d + s == s;
    }
  }

  /** A run of digits followed by a separator that starts with a non-digit
      matches, and leaves what follows the separator. */
  lemma NumberThenRun(d: string, sep: string, tail: string)
    requires d != [] && AllDigits(d) && sep != [] && !IsDigit(sep[0])
    ensures NumberThen(d + sep + tail, sep) == Some(tail)
  {
    var s := d + sep + tail;
    assert s == d + (sep + tail);
    DigitsOfRun(d, sep + tail);
    assert s[|d|..] == sep + tail;
    assert s[|d| + |sep|..] == tail;
  }

  /** The status line is read correctly where it starts: the captured group is
      the whole total. */
  lemma CountInStatusLine(line: string, d1: string, d2: string, d3: string, rest: string)
    requires StatusLine(line, d1, d2, d3)
    requires rest == [] || !IsDigit(rest[0])
    ensures CountIn(line + rest) == Some(d3)
  {
    var z := d3 + rest;
    var y := d2 + " of " + z;
    var x := d1 + " - " + y;
    assert line + rest == CountPrefix + x;
    assert NumberThen(x, " - ") == Some(y) by {
      NumberThenRun(d1, " - ", y);
    }
    assert NumberThen(y, " of ") == Some(z) by {
      NumberThenRun(d2, " of ", z);
    }
    assert Digits(z) == |d3| && z[..|d3|] == d3 by {
      DigitsOfRun(d3, rest);
    }
    CountInParts(CountPrefix + x, x, y, z, d3);
  }

  /** The regex matches when its three parts do, one after the other. */
  lemma CountInParts(s: string, x: string, y: string, z: string, d: string)
    requires s == CountPrefix + x
    requires NumberThen(x, " - ") == Some(y) && NumberThen(y, " of ") == Some(z)
    requires d != [] && Digits(z) == |d| && z[..|d|] == d
    ensures CountIn(s) == Some(d)
  {
    assert s[|CountPrefix|..] == x;
  }

  /** Completeness of the count: on a page without the zero marker, the first
      status line (none starts before it) gives the count, its total. */
  lemma ParseCountOfStatusLine(pre: string, line: string, d1: string, d2: string, d3: string, rest: string)
    requires StatusLine(line, d1, d2, d3)
    requires rest == [] || !IsDigit(rest[0])
    requires forall j: nat | j < |pre| :: CountAt(pre + line + rest, j).None?
    requires !Contains(pre + line + rest, ZeroMarker)
    ensures ParseCount(pre + line + rest) == Success(d3)
  {
    StatusLineAt(pre, line, d1, d2, d3, rest);
    LeftmostCount(pre + line + rest, |pre|);
    ParseCountFirst(pre + line + rest, |pre|);
  }

  /** The status regex, tried where the status line starts, captures its total. */
  lemma StatusLineAt(pre: string, line: string, d1: string, d2: string, d3: string, rest: string)
    requires StatusLine(line, d1, d2, d3)
    requires rest == [] || !IsDigit(rest[0])
    ensures CountAt(pre + line + rest, |pre|) == Some(d3)
  {
    assert (pre + line + rest)[|pre|..] == line + rest;
    CountInStatusLine(line, d1, d2, d3, rest);
  }

  /** A match with no match before it is the one the search finds. */
  lemma LeftmostCount(text: string, i: nat)
    requires CountAt(text, i).Some?
    requires forall j: nat | j < i :: CountAt(text, j).None?
    ensures FirstCount(text, 0) == Some(i)
  {
  }

  lemma ParseCountFirst(text: string, i: nat)
    requires !Contains(text, ZeroMarker) && FirstCount(text, 0) == Some(i)
    ensures ParseCount(text) == Success(CountAt(text, i).value)
  {
  }

  /** The zero-results test is a substring test: the marker inside a larger
      count, such as `10 results found`, also reads as zero results. */
  lemma ZeroMarkerAnywhere(pre: string, post: string)
    ensures ParseCount(pre + ZeroMarker + post) == Success("0")
  {
    var text := pre + ZeroMarker + post;
    assert text[|pre|..] == ZeroMarker + post;
    assert OccursAt(text, ZeroMarker, |pre|);
  }

  /** A page with neither the zero marker nor the phrase `Displaying buildings `
      has no status line: the count is the missing-status error. */
  lemma ParseCountMissing(text: string)
    requires !Contains(text, ZeroMarker) && !Contains(text, CountPrefix)
    ensures ParseCount(text) == Failure(MissingStatus)
  {
    forall j: nat | j <= |text|
      ensures CountAt(text, j).None?
    {
      CountAtShape(text, j);
    }
  }
}
