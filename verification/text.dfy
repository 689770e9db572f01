/** String primitives shared by both scripts: substring search (Python's `in`
    and `re.search` of a pattern without metacharacters), `str.strip`, and the
    whitespace collapse `re.sub(r'\s+', ' ', …)`. Characters are ASCII. */
module Text {

  /** `p` occurs in `s` starting at index `i`. */
  predicate OccursAt(s: string, p: string, i: nat) {
    i <= |s| && p <= s[i..]
  }

  /** Python's `p in s`. */
  predicate Contains(s: string, p: string) {
    exists i: nat | i <= |s| :: OccursAt(s, p, i)
  }

  /** An occurrence in the tail is an occurrence in the whole, one index later. */
  lemma OccursAtTail(s: string, p: string, i: nat)
    requires s != []
    ensures OccursAt(s[1..], p, i) <==> OccursAt(s, p, i + 1)
  {
    if i + 1 <= |s| {
      assert s[1..][i..] == s[i + 1..];
    }
  }

  /** The ASCII characters that Python's `str.isspace()` and the regex class
      `\s` both accept: tab, line feed, vertical tab, form feed, carriage return,
      the four separators 0x1C-0x1F, and space. */
  const Whitespace: set<char> :=
    {'\t', '\n', '\U{0B}', '\U{0C}', '\r', '\U{1C}', '\U{1D}', '\U{1E}', '\U{1F}', ' '}

  predicate IsSpace(c: char) {
    c in Whitespace
  }

  /** `s` has no whitespace at all: a single word. */
  predicate NoSpace(s: string) {
    forall i | 0 <= i < |s| :: !IsSpace(s[i])
  }

  /** `s` is made of whitespace only. */
  predicate AllSpace(s: string) {
    forall i | 0 <= i < |s| :: IsSpace(s[i])
  }

  // ---- str.strip ----

  /** `s.lstrip(cs)`: drops the longest prefix made of characters of `cs`. */
  function TrimLeft(s: string, cs: set<char>): (r: string)
    ensures |r| <= |s|
  {
    if s != [] && s[0] in cs then TrimLeft(s[1..], cs) else s
  }

  /** `s.rstrip(cs)`: drops the longest suffix made of characters of `cs`. */
  function TrimRight(s: string, cs: set<char>): string {
    if s != [] && s[|s| - 1] in cs then TrimRight(s[..|s| - 1], cs) else s
  }

  /** `s.strip(cs)`. */
  function Strip(s: string, cs: set<char>): string {
    TrimRight(TrimLeft(s, cs), cs)
  }

  /** What `lstrip` leaves is a suffix that does not start with a character of
      `cs`, and all it dropped is in `cs`. */
  lemma {:induction false} TrimLeftCuts(s: string, cs: set<char>)
    ensures var r := TrimLeft(s, cs);
            && r == s[|s| - |r|..]
            && (forall i | 0 <= i < |s| - |r| :: s[i] in cs)
            && (r == [] || r[0] !in cs)
  {
    if s != [] && s[0] in cs {
      TrimLeftCuts(s[1..], cs);
      var r := TrimLeft(s, cs);
      assert s[1..][|s| - 1 - |r|..] == s[|s| - |r|..];
      forall i | 1 <= i < |s| - |r|
        ensures s[i] in cs
      {
        assert s[1..][i - 1] == s[i];
      }
    }
  }

  /** What `rstrip` leaves is a prefix that does not end with a character of
      `cs`, and all it dropped is in `cs`. */
  lemma {:induction false} TrimRightCuts(s: string, cs: set<char>)
    ensures var r := TrimRight(s, cs);
            && |r| <= |s| && r == s[..|r|]
            && (forall i | |r| <= i < |s| :: s[i] in cs)
            && (r == [] || r[|r| - 1] !in cs)
    decreases |s|
  {
    if s != [] && s[|s| - 1] in cs {
      var n := |s| - 1;
      TrimRightCuts(s[..n], cs);
      var r := TrimRight(s, cs);
      assert s[..n][..|r|] == s[..|r|];
      forall i | |r| <= i < n
        ensures s[i] in cs
      {
        assert s[..n][i] == s[i];
      }
    }
  }

  /** `r` is the slice of `s` at `k`, and everything of `s` before and after it is in `cs`. */
  predicate TrimmedAt(s: string, r: string, k: nat, cs: set<char>) {
    && k + |r| <= |s|
    && r == s[k..k + |r|]
    && (forall i | 0 <= i < k :: s[i] in cs)
    && (forall i | k + |r| <= i < |s| :: s[i] in cs)
  }

  /** `strip` leaves a slice of `s` that neither starts nor ends with a character
      of `cs`, and everything it cut off on either side is in `cs`. */
  lemma StripTrims(s: string, cs: set<char>)
    ensures exists k: nat :: TrimmedAt(s, Strip(s, cs), k, cs)
    ensures var r := Strip(s, cs); r == [] || (r[0] !in cs && r[|r| - 1] !in cs)
  {
    var left := TrimLeft(s, cs);
    var r := Strip(s, cs);
    TrimLeftCuts(s, cs);
    TrimRightCuts(left, cs);
    var k := |s| - |left|;
    assert r == s[k..k + |r|];
    forall i | k + |r| <= i < |s|
      ensures s[i] in cs
    {
      assert left[i - k] == s[i];
    }
    assert TrimmedAt(s, r, k, cs);
    if r != [] {
      assert r[0] == left[0];
    }
  }

  /** Left-stripping a run of characters of `cs` in front of text that does not
      start with one leaves that text. */
  lemma {:induction false} TrimLeftRun(pre: string, s: string, cs: set<char>)
    requires forall i | 0 <= i < |pre| :: pre[i] in cs
    requires s == [] || s[0] !in cs
    ensures TrimLeft(pre + s, cs) == s
  {
    if pre == [] {
      assert pre + s == s;
    } else {
      assert (pre + s)[1..] == pre[1..] + s;
      TrimLeftRun(pre[1..], s, cs);
    }
  }

  /** Right-stripping a run of characters of `cs` after text that does not end
      with one leaves that text. */
  lemma {:induction false} TrimRightRun(s: string, post: string, cs: set<char>)
    requires forall i | 0 <= i < |post| :: post[i] in cs
    requires s == [] || s[|s| - 1] !in cs
    ensures TrimRight(s + post, cs) == s
    decreases |post|
  {
    if post == [] {
      assert s + post == s;
    } else {
      var n := |post| - 1;
      assert (s + post)[..|s + post| - 1] == s + post[..n];
      TrimRightRun(s, post[..n], cs);
    }
  }

  /** Stripping `cs` from text wrapped in runs of `cs` gives the text, when it
      neither starts nor ends with a character of `cs`. */
  lemma StripAround(pre: string, s: string, post: string, cs: set<char>)
    requires forall i | 0 <= i < |pre| :: pre[i] in cs
    requires forall i | 0 <= i < |post| :: post[i] in cs
    requires s != [] && s[0] !in cs && s[|s| - 1] !in cs
    ensures Strip(pre + s + post, cs) == s
  {
    assert pre + s + post == pre + (s + post);
    assert (s + post)[0] == s[0];
    TrimLeftRun(pre, s + post, cs);
    TrimRightRun(s, post, cs);
  }

  // ---- re.sub(r'\s+', ' ', …) ----

  /** `re.sub(r'\s+', ' ', s)`: every maximal run of whitespace becomes one space. */
  function Collapse(s: string): string
    decreases |s|
  {
    if s == [] then []
    else if IsSpace(s[0]) then " " + Collapse(TrimLeft(s[1..], Whitespace))
    else [s[0]] + Collapse(s[1..])
  }

  /** The only whitespace in `s` is the plain space, and no two spaces are adjacent. */
  predicate SingleSpaced(s: string) {
    && (forall i | 0 <= i < |s| :: IsSpace(s[i]) ==> s[i] == ' ')
    && (forall i | 0 < i < |s| :: s[i] == ' ' ==> s[i - 1] != ' ')
  }

  /** The characters of `s` that are not whitespace, in order. */
  function Visible(s: string): string {
    if s == [] then []
    else if IsSpace(s[0]) then Visible(s[1..])
    else [s[0]] + Visible(s[1..])
  }

  /** A text that starts with a visible character keeps it first after collapsing. */
  lemma CollapseHead(s: string)
    requires s != [] && !IsSpace(s[0])
    ensures Collapse(s) != [] && Collapse(s)[0] == s[0]
  {
  }

  /** Collapsing leaves no whitespace but single, separated spaces. */
  lemma {:induction false} CollapseSingleSpaced(s: string)
    ensures SingleSpaced(Collapse(s))
    decreases |s|
  {
    if s == [] {
    } else if IsSpace(s[0]) {
      var t := TrimLeft(s[1..], Whitespace);
      TrimLeftCuts(s[1..], Whitespace);
      CollapseSingleSpaced(t);
      if t != [] {
        CollapseHead(t);
      }
    } else {
      CollapseSingleSpaced(s[1..]);
      if s[1..] != [] && !IsSpace(s[1]) {
        CollapseHead(s[1..]);
      }
    }
  }

  /** Visible characters of a concatenation. */
  lemma {:induction false} VisibleAppend(a: string, b: string)
    ensures Visible(a + b) == Visible(a) + Visible(b)
  {
    if a != [] {
      var ab := a + b;
      assert ab[0] == a[0] && ab[1..] == a[1..] + b;
      VisibleAppend(a[1..], b);
    } else {
      assert a + b == b;
    }
  }

  /** A word without whitespace is all visible. */
  lemma {:induction false} VisibleWord(w: string)
    requires NoSpace(w)
    ensures Visible(w) == w
  {
    if w != [] {
      VisibleWord(w[1..]);
    }
  }

  /** Left-stripping whitespace loses no visible character. */
  lemma {:induction false} VisibleTrimLeft(s: string, cs: set<char>)
    requires cs <= Whitespace
    ensures Visible(TrimLeft(s, cs)) == Visible(s)
  {
    if s != [] && s[0] in cs {
      VisibleTrimLeft(s[1..], cs);
    }
  }

  /** Right-stripping whitespace loses no visible character. */
  lemma {:induction false} VisibleTrimRight(s: string, cs: set<char>)
    requires cs <= Whitespace
    ensures Visible(TrimRight(s, cs)) == Visible(s)
    decreases |s|
  {
    if s != [] && s[|s| - 1] in cs {
      var n := |s| - 1;
      VisibleTrimRight(s[..n], cs);
      assert s == s[..n] + [s[n]];
      VisibleAppend(s[..n], [s[n]]);
      assert Visible([s[n]]) == [];
    }
  }

  /** Stripping whitespace from the edges loses no visible character. */
  lemma VisibleStrip(s: string, cs: set<char>)
    requires cs <= Whitespace
    ensures Visible(Strip(s, cs)) == Visible(s)
  {
    VisibleTrimLeft(s, cs);
    VisibleTrimRight(TrimLeft(s, cs), cs);
  }

  /** Collapsing changes only whitespace: the visible characters are exactly those of the input. */
  lemma {:induction false} CollapseKeepsVisible(s: string)
    ensures Visible(Collapse(s)) == Visible(s)
    decreases |s|
  {
    if s == [] {
    } else if IsSpace(s[0]) {
      var t := TrimLeft(s[1..], Whitespace);
      CollapseKeepsVisible(t);
      VisibleTrimLeft(s[1..], Whitespace);
      assert (" " + Collapse(t))[1..] == Collapse(t);
    } else {
      CollapseKeepsVisible(s[1..]);
      assert ([s[0]] + Collapse(s[1..]))[1..] == Collapse(s[1..]);
    }
  }

  /** A text that ends with a visible character still does so after collapsing. */
  lemma {:induction false} CollapseLast(s: string)
    requires s != [] && !IsSpace(s[|s| - 1])
    ensures Collapse(s) != [] && !IsSpace(Collapse(s)[|Collapse(s)| - 1])
    decreases |s|
  {
    if IsSpace(s[0]) {
      var u := s[1..];
      var t := TrimLeft(u, Whitespace);
      TrimLeftCuts(u, Whitespace);
      assert u != [] && u[|u| - 1] == s[|s| - 1];
      assert t != [] && t[|t| - 1] == s[|s| - 1];
      CollapseLast(t);
    } else if |s| > 1 {
      assert s[1..][|s| - 2] == s[|s| - 1];
      CollapseLast(s[1..]);
    }
  }

  /** A word in front of whitespace (or of nothing) comes through collapsing unchanged. */
  lemma {:induction false} CollapseWordThen(w: string, s: string)
    requires NoSpace(w)
    requires s == [] || IsSpace(s[0])
    ensures Collapse(w + s) == w + Collapse(s)
  {
    if w == [] {
      assert w + s == s;
    } else {
      var ws := w + s;
      assert ws[0] == w[0] && !IsSpace(ws[0]);
      assert ws[1..] == w[1..] + s;
      assert NoSpace(w[1..]) by {
        assert forall i | 0 <= i < |w[1..]| :: w[1..][i] == w[i + 1];
      }
      CollapseWordThen(w[1..], s);
      assert [w[0]] + (w[1..] + Collapse(s)) == w + Collapse(s);
    }
  }

  /** A word comes through collapsing unchanged. */
  lemma CollapseWord(w: string)
    requires NoSpace(w)
    ensures Collapse(w) == w
  {
    CollapseWordThen(w, []);
    assert w + [] == w;
  }

  /** A run of whitespace in front of text that does not start with
      whitespace collapses to one space, and the text collapses on its own. */
  lemma CollapseGap(gap: string, t: string)
    requires gap != [] && AllSpace(gap)
    requires t == [] || !IsSpace(t[0])
    ensures Collapse(gap + t) == " " + Collapse(t)
  {
    var s := gap + t;
    assert s[0] == gap[0];
    assert s[1..] == gap[1..] + t;
    TrimLeftRun(gap[1..], t, Whitespace);
  }

  /** A run of whitespace in front of a word collapses to one space. */
  lemma CollapseGapWord(gap: string, w: string)
    requires gap != [] && AllSpace(gap)
    requires w != [] && NoSpace(w)
    ensures Collapse(gap + w) == " " + w
  {
    CollapseGap(gap, w);
    CollapseWord(w);
  }

  /** Two words with whitespace between them collapse to the words and one space. */
  lemma CollapseTwoWords(a: string, gap: string, b: string)
    requires a != [] && NoSpace(a) && b != [] && NoSpace(b)
    requires gap != [] && AllSpace(gap)
    ensures Collapse(a + (gap + b)) == a + " " + b
  {
    CollapseGapWord(gap, b);
    assert (gap + b)[0] == gap[0];
    CollapseWordThen(a, gap + b);
  }

  /** Words in order, each separated from the next by its gap: `ws[0] + gaps[0]
      + ws[1] + … + ws[|ws| - 1]`. */
  function Interleave(ws: seq<string>, gaps: seq<string>): string
    requires |ws| == |gaps| + 1
    decreases |ws|
  {
    if |ws| == 1 then ws[0] else ws[0] + (gaps[0] + Interleave(ws[1..], gaps[1..]))
  }

  /** The words joined by single spaces: `' '.join(ws)`. */
  function JoinWords(ws: seq<string>): string
    requires |ws| >= 1
    decreases |ws|
  {
    if |ws| == 1 then ws[0] else ws[0] + (" " + JoinWords(ws[1..]))
  }

  /** The words of a text are non-empty and hold no whitespace; its gaps are
      non-empty runs of whitespace. */
  predicate WordsAndGaps(ws: seq<string>, gaps: seq<string>) {
    && |ws| == |gaps| + 1
    && (forall i | 0 <= i < |ws| :: ws[i] != [] && NoSpace(ws[i]))
    && (forall i | 0 <= i < |gaps| :: gaps[i] != [] && AllSpace(gaps[i]))
  }

  /** Text made of words and whitespace gaps, starting and ending with a word,
      collapses to the words joined by one space each: every whitespace run,
      whatever its length and characters, becomes exactly one space. */
  lemma {:induction false} CollapseWords(ws: seq<string>, gaps: seq<string>)
    requires WordsAndGaps(ws, gaps)
    ensures Collapse(Interleave(ws, gaps)) == JoinWords(ws)
    decreases |ws|
  {
    if |ws| == 1 {
      CollapseWord(ws[0]);
    } else {
      var rest := Interleave(ws[1..], gaps[1..]);
      assert WordsAndGaps(ws[1..], gaps[1..]) by {
        assert forall i | 0 <= i < |ws| - 1 :: ws[1..][i] == ws[i + 1];
        assert forall i | 0 <= i < |gaps| - 1 :: gaps[1..][i] == gaps[i + 1];
      }
      CollapseWords(ws[1..], gaps[1..]);
      InterleaveEnds(ws[1..], gaps[1..]);
      CollapseGap(gaps[0], rest);
      assert (gaps[0] + rest)[0] == gaps[0][0];
      CollapseWordThen(ws[0], gaps[0] + rest);
    }
  }

  /** Interleaved words start with the first word's first character and end
      with the last word's last character. */
  lemma {:induction false} InterleaveEnds(ws: seq<string>, gaps: seq<string>)
    requires WordsAndGaps(ws, gaps)
    ensures var r := Interleave(ws, gaps);
            r != [] && r[0] == ws[0][0] && r[|r| - 1] == ws[|ws| - 1][|ws[|ws| - 1]| - 1]
    decreases |ws|
  {
    if |ws| > 1 {
      assert WordsAndGaps(ws[1..], gaps[1..]) by {
        assert forall i | 0 <= i < |ws| - 1 :: ws[1..][i] == ws[i + 1];
        assert forall i | 0 <= i < |gaps| - 1 :: gaps[1..][i] == gaps[i + 1];
      }
      InterleaveEnds(ws[1..], gaps[1..]);
    }
  }
}
