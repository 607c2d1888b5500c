/** The Differ: the entries of one snapshot that have no matching entry in
    the other, and the two-way comparison built from it. */
module Differ {
  import opened RouteData
  import opened Slices
  import opened Sequences

  /** The match rule of the comparison: same destination and the same three
      next-hop lists, compared as whole lists. The table name plays no part. */
  function Matches(a: RtDestination, b: RtDestination): (r: bool)
    ensures r <==> a.(tableName := b.tableName) == b
  {
    a.destination == b.destination
    && IsSameSlice(a.nhLocalInterface, b.nhLocalInterface)
    && IsSameSlice(a.nextHop, b.nextHop)
    && IsSameSlice(a.via, b.via)
  }

  /** Some entry of `s` matches `x`. */
  predicate HasMatch(x: RtDestination, s: seq<RtDestination>)
  {
    exists j :: 0 <= j < |s| && Matches(x, s[j])
  }

  /** What one entry of the first list contributes to the difference:
      itself when nothing in `second` matches it, nothing otherwise. */
  function KeepUnmatched(second: seq<RtDestination>): RtDestination -> seq<RtDestination>
  {
    x => if HasMatch(x, second) then [] else [x]
  }

  /** The order-preserving difference `first` minus `second`. */
  function Unmatched(first: seq<RtDestination>, second: seq<RtDestination>): seq<RtDestination>
  {
    FlatMap(first, KeepUnmatched(second), |first|)
  }

  /** The scan of `createTable`: for each entry of `first`, look through
      `second` for a match, stopping at the first one; keep the entry when
      none was found. */
  method OnlyIn(first: seq<RtDestination>, second: seq<RtDestination>) returns (kept: seq<RtDestination>)
    ensures kept == Unmatched(first, second)
  {
    kept := [];
    for i := 0 to |first|
      invariant kept == FlatMap(first, KeepUnmatched(second), i)
    {
      var rt1Dest := first[i];
      var found := false;
      for j := 0 to |second|
        invariant !found
        invariant forall k :: 0 <= k < j ==> !Matches(rt1Dest, second[k])
      {
        if Matches(rt1Dest, second[j]) {
          found := true;
          break;
        }
      }
      assert found == HasMatch(rt1Dest, second);
      if !found {
        kept := kept + [rt1Dest];
      }
    }
  }

  /** The two tables as `main` asks for them: both calls pass the snapshots
      in the order (pre, post), so both compute pre minus post. */
  method CreateTablesAsWritten(pre: seq<RtDestination>, post: seq<RtDestination>)
    returns (preTable: seq<RtDestination>, postTable: seq<RtDestination>)
    ensures preTable == Unmatched(pre, post)
    ensures postTable == Unmatched(pre, post)
  {
    preTable := OnlyIn(pre, post);
    postTable := OnlyIn(pre, post);
  }

  /** The two tables as their banners describe them: pre entries not found
      in post, and post entries not found in pre. */
  method CreateTables(pre: seq<RtDestination>, post: seq<RtDestination>)
    returns (preTable: seq<RtDestination>, postTable: seq<RtDestination>)
    ensures preTable == Unmatched(pre, post)
    ensures postTable == Unmatched(post, pre)
  {
    preTable := OnlyIn(pre, post);
    postTable := OnlyIn(post, pre);
  }

  // ---------------------------------------------------------------------
  // Properties of the difference.
  // ---------------------------------------------------------------------

  /** What the difference keeps: exactly the entries of `first` that no
      entry of `second` matches. */
  lemma UnmatchedMembership(first: seq<RtDestination>, second: seq<RtDestination>, x: RtDestination)
    ensures x in Unmatched(first, second) <==> x in first && !HasMatch(x, second)
  {
    FlatMapMembership(first, KeepUnmatched(second), |first|, x);
    if x in first && !HasMatch(x, second) {
      var i :| 0 <= i < |first| && first[i] == x;
      assert x in KeepUnmatched(second)(first[i]);
    }
  }

  /** Shape of the difference: the kept entries form a subsequence of the
      first list, in their original order. */
  lemma UnmatchedSubsequence(first: seq<RtDestination>, second: seq<RtDestination>)
    ensures IsSubsequence(Unmatched(first, second), first)
  {
    FilterIsSubsequence(first, KeepUnmatched(second), |first|);
    assert first[..|first|] == first;
  }

  /** Comparing a snapshot with itself reports nothing. */
  lemma UnmatchedSelf(a: seq<RtDestination>)
    ensures Unmatched(a, a) == []
  {
    forall i | 0 <= i < |a|
      ensures KeepUnmatched(a)(a[i]) == []
    {
      assert Matches(a[i], a[i]);
    }
    FlatMapEmpty(a, KeepUnmatched(a), |a|);
  }

  /** Against an empty list every entry is kept; an empty first list keeps
      nothing. */
  lemma UnmatchedBoundaries(first: seq<RtDestination>, second: seq<RtDestination>)
    ensures Unmatched(first, []) == first
    ensures Unmatched([], second) == []
  {
    UnmatchedSubsequenceAll(first, |first|);
    assert first[..|first|] == first;
  }

  lemma {:induction false} UnmatchedSubsequenceAll(first: seq<RtDestination>, n: nat)
    requires n <= |first|
    ensures FlatMap(first, KeepUnmatched([]), n) == first[..n]
  {
    if n != 0 {
      UnmatchedSubsequenceAll(first, n - 1);
      assert first[..n] == first[..n - 1] + [first[n - 1]];
    }
  }

  /** The table name plays no part in matching: renaming the tables of the
      second list leaves the difference unchanged. */
  lemma UnmatchedIgnoresTableNames(first: seq<RtDestination>, second: seq<RtDestination>, renamed: seq<RtDestination>)
    requires |renamed| == |second|
    requires forall j :: 0 <= j < |second| ==> renamed[j] == second[j].(tableName := renamed[j].tableName)
    ensures Unmatched(first, renamed) == Unmatched(first, second)
  {
    forall i | 0 <= i < |first|
      ensures KeepUnmatched(renamed)(first[i]) == KeepUnmatched(second)(first[i])
    {
      var x := first[i];
      if HasMatch(x, second) {
        var j :| 0 <= j < |second| && Matches(x, second[j]);
        assert Matches(x, renamed[j]);
      }
      if HasMatch(x, renamed) {
        var j :| 0 <= j < |renamed| && Matches(x, renamed[j]);
        assert Matches(x, second[j]);
      }
    }
    FlatMapCongruence(first, KeepUnmatched(renamed), KeepUnmatched(second), |first|);
  }

  /** The two corrected tables never report the same entry, and an entry
      present in both snapshots is reported in neither. */
  lemma CreateTablesDisjoint(pre: seq<RtDestination>, post: seq<RtDestination>, x: RtDestination)
    ensures x in Unmatched(pre, post) ==> x !in Unmatched(post, pre)
    ensures x in pre && x in post ==> x !in Unmatched(pre, post) && x !in Unmatched(post, pre)
  {
    UnmatchedMembership(pre, post, x);
    UnmatchedMembership(post, pre, x);
    if x in pre {
      var i :| 0 <= i < |pre| && pre[i] == x;
      assert Matches(x, pre[i]);
    }
    if x in post {
      var j :| 0 <= j < |post| && post[j] == x;
      assert Matches(x, post[j]);
    }
  }

  /** As written, the post table misses a route that only the post snapshot
      has: with no pre entries and one post entry, both tables are empty. */
  lemma AsWrittenMissesPostOnlyRoute(e: RtDestination)
    ensures Unmatched([], [e]) == []
    ensures Unmatched([e], []) == [e]
  {
    UnmatchedBoundaries([e], []);
  }
}
