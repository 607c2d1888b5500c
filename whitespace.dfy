/** The whitespace pre-pass applied to a snapshot before it is decoded:
    every non-overlapping pair of spaces is removed, then every newline. */
module Whitespace {

  /** Replace every non-overlapping occurrence of `pat` by nothing, scanning
      from the left, as the standard string replacement does with a count of
      -1 and an empty replacement. An empty `pat` leaves `s` unchanged. */
  function RemoveAll(s: string, pat: string): (r: string)
    ensures |r| <= |s|
    decreases |s|
  {
    if pat == [] || |s| < |pat| then s
    else if s[..|pat|] == pat then RemoveAll(s[|pat|..], pat)
    else [s[0]] + RemoveAll(s[1..], pat)
  }

  /** The pre-pass itself: remove double spaces, then newlines. Its second
      step deletes exactly the newlines, so none is left. */
  function StripWhitespace(s: string): (r: string)
    ensures r == Drop(RemoveAll(s, "  "), '\n')
    ensures '\n' !in r
  {
    RemoveCharIsDrop(RemoveAll(s, "  "), '\n');
    RemoveAll(RemoveAll(s, "  "), "\n")
  }

  /** Independent reference: `s` with every `c` deleted. */
  function Drop(s: string, c: char): (r: string)
    ensures c !in r
    ensures forall x :: x != c ==> (x in r <==> x in s)
  {
    if s == [] then []
    else (if s[0] == c then [] else [s[0]]) + Drop(s[1..], c)
  }

  /** No two neighbouring characters of `s` are both spaces. */
  predicate NoDoubleSpace(s: string)
  {
    forall i :: 0 < i < |s| ==> s[i - 1] != ' ' || s[i] != ' '
  }

  /** Removing a one-character pattern deletes exactly that character. */
  lemma {:induction false} RemoveCharIsDrop(s: string, c: char)
    ensures RemoveAll(s, [c]) == Drop(s, c)
  {
    if s != [] {
      RemoveCharIsDrop(s[1..], c);
    }
  }

  /** A string not starting with a space keeps its first character. */
  lemma KeepsLeadingNonSpace(s: string)
    requires s != [] && s[0] != ' '
    ensures RemoveAll(s, "  ") == [s[0]] + RemoveAll(s[1..], "  ")
  {
    if |s| < 2 {
      assert s[1..] == [];
    }
  }

  /** `k` spaces. */
  function Spaces(k: nat): string
  {
    if k == 0 then [] else [' '] + Spaces(k - 1)
  }

  /** What removing double spaces does to a run of spaces: a run of `k`
      spaces, ended by a non-space or by the end of the text, leaves `k % 2`
      of them. With `KeepsLeadingNonSpace` this fixes the result on every
      input. */
  lemma {:induction false} RunOfSpaces(k: nat, t: string)
    requires t == [] || t[0] != ' '
    ensures RemoveAll(Spaces(k) + t, "  ") == Spaces(k % 2) + RemoveAll(t, "  ")
  {
    var s := Spaces(k) + t;
    if k >= 2 {
      assert Spaces(k) == [' ', ' '] + Spaces(k - 2);
      assert s[..2] == "  ";
      assert s[2..] == Spaces(k - 2) + t;
      RunOfSpaces(k - 2, t);
    } else if k == 1 {
      assert s == [' '] + t;
      if t == [] {
        assert s == Spaces(1) + t;
      } else {
        assert s[..2][1] == t[0];
        assert s[1..] == t;
      }
    } else {
      assert s == t;
    }
  }

  /** Removing double spaces leaves no two spaces side by side. */
  lemma {:induction false} NoDoubleSpaceAfterRemoval(s: string)
    ensures NoDoubleSpace(RemoveAll(s, "  "))
  {
    if |s| < 2 {
    } else if s[..2] == "  " {
      NoDoubleSpaceAfterRemoval(s[2..]);
    } else {
      var rest := RemoveAll(s[1..], "  ");
      NoDoubleSpaceAfterRemoval(s[1..]);
      assert RemoveAll(s, "  ") == [s[0]] + rest;
      if s[0] == ' ' {
        assert s[1] != ' ';
        KeepsLeadingNonSpace(s[1..]);
        assert rest[0] != ' ';
      }
      forall i | 0 < i < |[s[0]] + rest|
        ensures ([s[0]] + rest)[i - 1] != ' ' || ([s[0]] + rest)[i] != ' '
      {
        if i > 1 {
          assert ([s[0]] + rest)[i - 1] == rest[i - 2];
          assert ([s[0]] + rest)[i] == rest[i - 1];
        }
      }
    }
  }

  /** Removing double spaces deletes only spaces: every other character
      survives, in order. */
  lemma {:induction false} RemovalKeepsNonSpaces(s: string)
    ensures Drop(RemoveAll(s, "  "), ' ') == Drop(s, ' ')
  {
    if |s| < 2 {
    } else if s[..2] == "  " {
      RemovalKeepsNonSpaces(s[2..]);
      assert s[1..][1..] == s[2..];
      assert Drop(s, ' ') == Drop(s[2..], ' ');
    } else {
      RemovalKeepsNonSpaces(s[1..]);
      var rest := RemoveAll(s[1..], "  ");
      assert ([s[0]] + rest)[1..] == rest;
    }
  }

  lemma {:induction false} DropIdempotent(s: string, c: char)
    ensures Drop(Drop(s, c), c) == Drop(s, c)
  {
    if s != [] {
      DropIdempotent(s[1..], c);
      var head := if s[0] == c then [] else [s[0]];
      DropAppend(head, Drop(s[1..], c), c);
    }
  }

  lemma {:induction false} DropAppend(a: string, b: string, c: char)
    ensures Drop(a + b, c) == Drop(a, c) + Drop(b, c)
  {
    if a != [] {
      DropAppend(a[1..], b, c);
      assert (a + b)[1..] == a[1..] + b;
    } else {
      assert a + b == b;
    }
  }

  lemma {:induction false} DropCommutes(s: string, c: char, d: char)
    ensures Drop(Drop(s, c), d) == Drop(Drop(s, d), c)
  {
    if s != [] {
      DropCommutes(s[1..], c, d);
      var hc := if s[0] == c then [] else [s[0]];
      var hd := if s[0] == d then [] else [s[0]];
      DropAppend(hc, Drop(s[1..], c), d);
      DropAppend(hd, Drop(s[1..], d), c);
    }
  }

  /** The pre-pass deletes only spaces and newlines: with both removed, the
      snapshot before and after the pre-pass is the same text. */
  lemma StripKeepsContent(s: string)
    ensures Drop(Drop(StripWhitespace(s), '\n'), ' ') == Drop(Drop(s, '\n'), ' ')
  {
    var r := RemoveAll(s, "  ");
    RemoveCharIsDrop(r, '\n');
    DropIdempotent(r, '\n');
    DropCommutes(r, '\n', ' ');
    RemovalKeepsNonSpaces(s);
    DropCommutes(s, '\n', ' ');
  }

  /** The pre-pass may itself bring two spaces together: a space, a newline
      and a space become two neighbouring spaces. */
  lemma StripCanJoinSpaces()
    ensures StripWhitespace(" \n ") == "  "
  {
    assert RemoveAll(" \n ", "  ") == " \n ";
    RemoveCharIsDrop(" \n ", '\n');
  }
}
