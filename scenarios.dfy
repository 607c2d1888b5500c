/** End-to-end comparisons of two small snapshots, through extraction and
    the two-way difference. */
module Scenarios {
  import opened RouteData
  import opened Extractor
  import opened Differ
  import opened Sequences

  function Reply(tables: seq<RouteTable>): RpcReply
  {
    RpcReply(RouteInformation(tables))
  }

  /** One table "inet.0" with destination 10.0.0.0/24 and the given hops. */
  function Snapshot(hops: seq<Nh>): RpcReply
  {
    Reply([RouteTable("inet.0", [Rt("10.0.0.0/24", [RtEntry(hops)])])])
  }

  const hop1: Nh := Nh("192.168.1.1", "ge-0/0/0", "")
  const hop2: Nh := Nh("192.168.1.2", "ge-0/0/1", "")

  /** The record extracted from `Snapshot(hops)`: one record for the single
      rt-entry, carrying the table name. */
  lemma SnapshotRecords(hops: seq<Nh>, filter: seq<string>)
    requires "ALL" in filter
    ensures DestinationEntries(Snapshot(hops), filter)
         == [EntryRecord("inet.0", "10.0.0.0/24", RtEntry(hops))]
  {
    var rt := Rt("10.0.0.0/24", [RtEntry(hops)]);
    var table := RouteTable("inet.0", [rt]);
    FlatMapSingle(RtEntry(hops), PerEntry("inet.0", "10.0.0.0/24"));
    FlatMapSingle(rt, PerRt("inet.0"));
    FlatMapSingle(table, PerTable(filter));
  }

  /** Identical snapshots: nothing only in pre, nothing only in post. */
  lemma ScenarioIdentical(filter: seq<string>)
    ensures Unmatched(DestinationEntries(Snapshot([hop1]), filter),
                      DestinationEntries(Snapshot([hop1]), filter)) == []
  {
    UnmatchedSelf(DestinationEntries(Snapshot([hop1]), filter));
  }

  /** A next hop added in post: the lists differ in length, so the pre
      record and the post record are each reported on their own side. */
  lemma ScenarioAddedNextHop()
    ensures var pre := DestinationEntries(Snapshot([hop1]), ["ALL"]);
            var post := DestinationEntries(Snapshot([hop1, hop2]), ["ALL"]);
            Unmatched(pre, post) == pre && Unmatched(post, pre) == post
            && |pre| == 1 && pre[0].nextHop == ["192.168.1.1"]
            && |post| == 1 && post[0].nextHop == ["192.168.1.1", "192.168.1.2"]
  {
    SnapshotRecords([hop1], ["ALL"]);
    SnapshotRecords([hop1, hop2], ["ALL"]);
    var pre := DestinationEntries(Snapshot([hop1]), ["ALL"]);
    var post := DestinationEntries(Snapshot([hop1, hop2]), ["ALL"]);
    ColumnsAligned([hop1], 1);
    ColumnsAligned([hop1, hop2], 2);
    assert !Matches(pre[0], post[0]);
    assert !HasMatch(pre[0], post);
    assert !HasMatch(post[0], pre);
    FlatMapSingle(pre[0], KeepUnmatched(post));
    FlatMapSingle(post[0], KeepUnmatched(pre));
  }

  /** A table missing from post: with "ALL" its record is reported only in
      pre; with a filter naming neither table, nothing is reported. */
  lemma ScenarioMissingTable()
    ensures var pre := DestinationEntries(Snapshot([hop1]), ["ALL"]);
            var post := DestinationEntries(Reply([]), ["ALL"]);
            Unmatched(pre, post) == pre && |pre| == 1 && Unmatched(post, pre) == []
    ensures var pre := DestinationEntries(Snapshot([hop1]), ["mgmt_junos"]);
            var post := DestinationEntries(Reply([]), ["mgmt_junos"]);
            pre == [] && post == [] && Unmatched(pre, post) == [] && Unmatched(post, pre) == []
  {
    SnapshotRecords([hop1], ["ALL"]);
    var pre := DestinationEntries(Snapshot([hop1]), ["ALL"]);
    UnmatchedBoundaries(pre, []);
    UnmatchedBoundaries([], pre);
    NothingRetained(Snapshot([hop1]).routeInformation.routeTable, ["mgmt_junos"]);
    UnmatchedBoundaries([], []);
  }
}
