/** The county argument as both scripts pass it on: `NEWYORK` spelled with the
    space the portal's drop-down expects. */
module County {
  import opened Text

  /** The spelling the command line allows (no space, so no shell quoting). */
  const Joined := "NEWYORK"

  /** The spelling the portal uses. */
  const Spaced := "NEW YORK"

  /** Python's `s.replace('NEWYORK', 'NEW YORK')`: every occurrence, scanning from
      the left, replaced in turn. */
  function Replace(s: string): (r: string)
    ensures |r| >= |s|
    decreases |s|
  {
    if Joined <= s then Spaced + Replace(s[|Joined|..])
    else if s == [] then []
    else [s[0]] + Replace(s[1..])
  }

  /** An occurrence past a known prefix is an occurrence in the rest. */
  lemma OccursAtShift(a: string, b: string, p: string, i: nat)
    requires |a| <= i
    ensures OccursAt(a + b, p, i) <==> OccursAt(b, p, i - |a|)
  {
    if i <= |a + b| {
      assert (a + b)[i..] == b[i - |a|..];
    }
  }

  /** A prefix without an `N` of the replaced text is a prefix of the original:
      replacing only rewrites text that starts with `N`. */
  lemma {:induction false} PrefixWithoutN(w: string, u: string)
    requires 'N' !in w && w <= Replace(u)
    ensures w <= u
    decreases |u|
  {
    if w != [] {
      assert w[0] != 'N';
    }
    if w != [] && !(Joined <= u) && u != [] {
      assert Replace(u) == [u[0]] + Replace(u[1..]);
      assert w[0] == u[0];
      assert w[1..] <= Replace(u[1..]);
      PrefixWithoutN(w[1..], u[1..]);
    }
  }

  /** After the replacement no `NEWYORK` is left. */
  lemma {:induction false} ReplaceLeavesNone(s: string)
    ensures !Contains(Replace(s), Joined)
    decreases |s|
  {
    var r := Replace(s);
    if Joined <= s {
      var rest := Replace(s[|Joined|..]);
      ReplaceLeavesNone(s[|Joined|..]);
      forall i: nat | i <= |r|
        ensures !OccursAt(r, Joined, i)
      {
        if i >= |Spaced| {
          OccursAtShift(Spaced, rest, Joined, i);
        } else {
          assert r[i] == Spaced[i] && r[3] == ' ';
        }
      }
    } else if s != [] {
      var rest := Replace(s[1..]);
      ReplaceLeavesNone(s[1..]);
      forall i: nat | i <= |r|
        ensures !OccursAt(r, Joined, i)
      {
        if i >= 1 {
          OccursAtShift([s[0]], rest, Joined, i);
        } else if OccursAt(r, Joined, 0) {
          assert r[1..] == rest;
          assert Joined[1..] <= rest;
          PrefixWithoutN(Joined[1..], s[1..]);
        }
      }
    }
  }

  /** A county without `NEWYORK` is passed on unchanged. */
  lemma {:induction false} ReplaceUnchanged(s: string)
    requires !Contains(s, Joined)
    ensures Replace(s) == s
    decreases |s|
  {
    assert !OccursAt(s, Joined, 0);
    if s != [] {
      forall i: nat | i <= |s[1..]|
        ensures !OccursAt(s[1..], Joined, i)
      {
        OccursAtTail(s, Joined, i);
      }
      ReplaceUnchanged(s[1..]);
    }
  }

  /** Normalising twice is normalising once. */
  lemma ReplaceIdempotent(s: string)
    ensures Replace(Replace(s)) == Replace(s)
  {
    ReplaceLeavesNone(s);
    ReplaceUnchanged(Replace(s));
  }

  /** The replacement only inserts spaces: with whitespace ignored, the county
      sent is the county given. */
  lemma {:induction false} ReplaceOnlyAddsSpace(s: string)
    ensures Visible(Replace(s)) == Visible(s)
    decreases |s|
  {
    if Joined <= s {
      var tail := s[|Joined|..];
      ReplaceOnlyAddsSpace(tail);
      VisibleAppend(Spaced, Replace(tail));
      assert s == Joined + tail;
      VisibleAppend(Joined, tail);
      SpacedLooksJoined();
    } else if s != [] {
      ReplaceOnlyAddsSpace(s[1..]);
      assert Replace(s)[1..] == Replace(s[1..]);
    }
  }

  /** The two spellings differ only by the space. */
  lemma SpacedLooksJoined()
    ensures Visible(Spaced) == Visible(Joined) == Joined
  {
    var a, b := "NEW", "YORK";
    UpperNoSpace(a);
    UpperNoSpace(b);
    assert Spaced == a + " " + b && Joined == a + b;
    VisibleGap(a, b);
  }

  /** Capital letters are not whitespace. */
  lemma UpperNoSpace(s: string)
    requires forall i | 0 <= i < |s| :: 'A' <= s[i] <= 'Z'
    ensures NoSpace(s)
  {
  }

  /** Two words joined by a space look like the words run together. */
  lemma VisibleGap(a: string, b: string)
    requires NoSpace(a) && NoSpace(b)
    ensures Visible(a + " " + b) == Visible(a + b) == a + b
  {
    VisibleWord(a);
    VisibleWord(b);
    assert Visible(a + " ") == a by {
      VisibleAppend(a, " ");
      assert Visible(" ") == [];
    }
    assert Visible(a + " " + b) == a + b by {
      VisibleAppend(a + " ", b);
    }
    assert Visible(a + b) == a + b by {
      VisibleAppend(a, b);
    }
  }

  /** The spelling from the command line becomes the portal's. */
  lemma ReplaceJoined()
    ensures Replace(Joined) == Spaced
  {
    assert Joined[|Joined|..] == [];
  }
}
