/** The Extractor: flattens a decoded reply into one `RtDestination` per
    `rt-entry` of every route table the routing-instance filter retains. */
module Extractor {
  import opened RouteData
  import opened Slices
  import opened Sequences

  // ---------------------------------------------------------------------
  // Specification. Each list is what the matching loop of the extractor
  // builds by appending at its end while it visits the document in order.
  // ---------------------------------------------------------------------

  /** The filter rule: a table is kept when the filter holds "ALL"
      anywhere, or holds the table's name. */
  predicate Retained(filter: seq<string>, tableName: string)
  {
    "ALL" in filter || tableName in filter
  }

  /** The `to` of the first `n` `nh` elements. */
  function NextHops(nhs: seq<Nh>, n: nat): seq<string>
    requires n <= |nhs|
  {
    if n == 0 then [] else NextHops(nhs, n - 1) + [nhs[n - 1].to]
  }

  /** The `via` of the first `n` `nh` elements. */
  function Vias(nhs: seq<Nh>, n: nat): seq<string>
    requires n <= |nhs|
  {
    if n == 0 then [] else Vias(nhs, n - 1) + [nhs[n - 1].via]
  }

  /** The `nh-local-interface` of the first `n` `nh` elements. */
  function LocalInterfaces(nhs: seq<Nh>, n: nat): seq<string>
    requires n <= |nhs|
  {
    if n == 0 then [] else LocalInterfaces(nhs, n - 1) + [nhs[n - 1].nhLocalInterface]
  }

  /** The record built for one route entry of destination `destination`. */
  function EntryRecord(tableName: string, destination: string, entry: RtEntry): RtDestination
  {
    var nhs := entry.nh;
    RtDestination(destination, NextHops(nhs, |nhs|), Vias(nhs, |nhs|), tableName,
                  LocalInterfaces(nhs, |nhs|))
  }

  /** What one route entry contributes: exactly one record. */
  function PerEntry(tableName: string, destination: string): RtEntry -> seq<RtDestination>
  {
    entry => [EntryRecord(tableName, destination, entry)]
  }

  /** The records of one `rt`, route entry after route entry. */
  function RtRecords(tableName: string, rt: Rt): seq<RtDestination>
  {
    FlatMap(rt.rtEntry, PerEntry(tableName, rt.rtDestination), |rt.rtEntry|)
  }

  /** What one `rt` contributes. */
  function PerRt(tableName: string): Rt -> seq<RtDestination>
  {
    rt => RtRecords(tableName, rt)
  }

  /** The records of one route table, `rt` after `rt`. */
  function TableRecords(table: RouteTable): seq<RtDestination>
  {
    FlatMap(table.rt, PerRt(table.tableName), |table.rt|)
  }

  /** What one route table contributes under `filter`. */
  function PerTable(filter: seq<string>): RouteTable -> seq<RtDestination>
  {
    (table: RouteTable) => if Retained(filter, table.tableName) then TableRecords(table) else []
  }

  /** The records of a list of route tables, table after table. */
  function Records(tables: seq<RouteTable>, filter: seq<string>): seq<RtDestination>
  {
    FlatMap(tables, PerTable(filter), |tables|)
  }

  /** What `getRtDestinationEntries` returns for `reply` and `filter`. */
  function DestinationEntries(reply: RpcReply, filter: seq<string>): seq<RtDestination>
  {
    Records(reply.routeInformation.routeTable, filter)
  }

  /** Number of route entries in the first `n` `rt` elements. */
  function EntryCount(rts: seq<Rt>, n: nat): nat
    requires n <= |rts|
  {
    if n == 0 then 0 else EntryCount(rts, n - 1) + |rts[n - 1].rtEntry|
  }

  /** Number of route entries in the retained tables among the first `n`. */
  function RetainedEntryCount(tables: seq<RouteTable>, filter: seq<string>, n: nat): nat
    requires n <= |tables|
  {
    if n == 0 then 0
    else RetainedEntryCount(tables, filter, n - 1)
         + (if Retained(filter, tables[n - 1].tableName)
            then EntryCount(tables[n - 1].rt, |tables[n - 1].rt|) else 0)
  }

  /** `x` is the record of route entry `k` of `rt` `j` of table `i`, and
      table `i` is retained. */
  ghost predicate ComesFrom(tables: seq<RouteTable>, filter: seq<string>, x: RtDestination,
                            i: int, j: int, k: int)
  {
    && 0 <= i < |tables|
    && 0 <= j < |tables[i].rt|
    && 0 <= k < |tables[i].rt[j].rtEntry|
    && Retained(filter, tables[i].tableName)
    && x == EntryRecord(tables[i].tableName, tables[i].rt[j].rtDestination, tables[i].rt[j].rtEntry[k])
  }

  // ---------------------------------------------------------------------
  // The extractor itself.
  // ---------------------------------------------------------------------

  /** The innermost loop of `getRtDestinationEntries`: one element appended
      to each of the three lists per `nh` of a route entry. */
  method NhColumns(rtEntry: RtEntry) returns (nextHops: seq<string>, via: seq<string>, nhLocalInterfaces: seq<string>)
    ensures nextHops == NextHops(rtEntry.nh, |rtEntry.nh|)
    ensures via == Vias(rtEntry.nh, |rtEntry.nh|)
    ensures nhLocalInterfaces == LocalInterfaces(rtEntry.nh, |rtEntry.nh|)
  {
    nextHops, via, nhLocalInterfaces := [], [], [];
    for n := 0 to |rtEntry.nh|
      invariant nextHops == NextHops(rtEntry.nh, n)
      invariant via == Vias(rtEntry.nh, n)
      invariant nhLocalInterfaces == LocalInterfaces(rtEntry.nh, n)
    {
      var nh := rtEntry.nh[n];
      nextHops := nextHops + [nh.to];
      via := via + [nh.via];
      nhLocalInterfaces := nhLocalInterfaces + [nh.nhLocalInterface];
    }
  }

  /** The loop over the route entries of one `rt`: one record appended to
      `entries` per route entry, carrying the `rt`'s destination. */
  method AppendRtEntries(entries: seq<RtDestination>, tableName: string, rt: Rt)
    returns (result: seq<RtDestination>)
    ensures result == entries + RtRecords(tableName, rt)
  {
    result := entries;
    for e := 0 to |rt.rtEntry|
      invariant result == entries + FlatMap(rt.rtEntry, PerEntry(tableName, rt.rtDestination), e)
    {
      var rtEntry := rt.rtEntry[e];
      var nextHops, via, nhLocalInterfaces := NhColumns(rtEntry);
      result := result + [RtDestination(rt.rtDestination, nextHops, via, tableName, nhLocalInterfaces)];
    }
  }

  /** `getRtDestinationEntries`: a loop over the route tables that skips the
      tables the filter does not retain, and a loop over the `rt` elements of
      each retained table. */
  method GetRtDestinationEntries(reply: RpcReply, routingInstance: seq<string>)
    returns (entries: seq<RtDestination>)
    ensures entries == DestinationEntries(reply, routingInstance)
  {
    var tables := reply.routeInformation.routeTable;
    entries := [];
    for t := 0 to |tables|
      invariant entries == FlatMap(tables, PerTable(routingInstance), t)
    {
      var routeTable := tables[t];
      var tableName := routeTable.tableName;
      if !Contains(routingInstance, "ALL") && !Contains(routingInstance, tableName) {
        continue;
      }
      ghost var before := entries;
      for r := 0 to |routeTable.rt|
        invariant entries == before + FlatMap(routeTable.rt, PerRt(tableName), r)
      {
        entries := AppendRtEntries(entries, tableName, routeTable.rt[r]);
      }
    }
  }

  // ---------------------------------------------------------------------
  // Properties of the extraction.
  // ---------------------------------------------------------------------

  /** List alignment: the three lists have one element per `nh`, and element
      `i` of each comes from the `i`-th `nh`. */
  lemma {:induction false} ColumnsAligned(nhs: seq<Nh>, n: nat)
    requires n <= |nhs|
    ensures |NextHops(nhs, n)| == |Vias(nhs, n)| == |LocalInterfaces(nhs, n)| == n
    ensures forall i :: 0 <= i < n ==>
      NextHops(nhs, n)[i] == nhs[i].to && Vias(nhs, n)[i] == nhs[i].via
      && LocalInterfaces(nhs, n)[i] == nhs[i].nhLocalInterface
  {
    if n != 0 {
      ColumnsAligned(nhs, n - 1);
    }
  }

  /** The record of one route entry: destination and table name copied, the
      three lists aligned with the entry's `nh` elements; an entry without
      `nh` gives three empty lists. */
  lemma EntryRecordShape(tableName: string, destination: string, entry: RtEntry)
    ensures var d := EntryRecord(tableName, destination, entry);
      && d.destination == destination && d.tableName == tableName
      && |d.nextHop| == |d.via| == |d.nhLocalInterface| == |entry.nh|
      && (forall i :: 0 <= i < |entry.nh| ==>
            d.nextHop[i] == entry.nh[i].to && d.via[i] == entry.nh[i].via
            && d.nhLocalInterface[i] == entry.nh[i].nhLocalInterface)
  {
    ColumnsAligned(entry.nh, |entry.nh|);
  }

  lemma {:induction false} PerEntryAt(tableName: string, destination: string, entries: seq<RtEntry>, n: nat)
    requires n <= |entries|
    ensures |FlatMap(entries, PerEntry(tableName, destination), n)| == n
    ensures forall k :: 0 <= k < n ==>
      FlatMap(entries, PerEntry(tableName, destination), n)[k] == EntryRecord(tableName, destination, entries[k])
  {
    if n != 0 {
      PerEntryAt(tableName, destination, entries, n - 1);
    }
  }

  /** One record per `rt-entry`, in `rt-entry` order: record `k` of an `rt`
      is built from its `k`-th route entry and carries the `rt`'s
      destination. */
  lemma RtRecordsAt(tableName: string, rt: Rt)
    ensures |RtRecords(tableName, rt)| == |rt.rtEntry|
    ensures forall k :: 0 <= k < |rt.rtEntry| ==>
      RtRecords(tableName, rt)[k] == EntryRecord(tableName, rt.rtDestination, rt.rtEntry[k])
  {
    PerEntryAt(tableName, rt.rtDestination, rt.rtEntry, |rt.rtEntry|);
  }

  /** `rt` order: the records of a table whose `rt` list is `a + b` are those
      for `a`, then those for `b`. */
  lemma TableRecordsAppend(tableName: string, a: seq<Rt>, b: seq<Rt>)
    ensures TableRecords(RouteTable(tableName, a + b))
         == TableRecords(RouteTable(tableName, a)) + TableRecords(RouteTable(tableName, b))
  {
    FlatMapAppend(a, b, PerRt(tableName));
  }

  /** Table order: the records of the table list `a + b` are those of `a`,
      then those of `b`; nothing is sorted, merged or deduplicated. */
  lemma RecordsAppend(a: seq<RouteTable>, b: seq<RouteTable>, filter: seq<string>)
    ensures Records(a + b, filter) == Records(a, filter) + Records(b, filter)
  {
    FlatMapAppend(a, b, PerTable(filter));
  }

  /** Filter rule, positionally: table `i` contributes all of its records
      exactly when it is retained, and nothing otherwise; they sit between
      the records of the tables before it and those of the tables after it. */
  lemma TableAt(tables: seq<RouteTable>, filter: seq<string>, i: nat)
    requires i < |tables|
    ensures Records(tables, filter)
         == Records(tables[..i], filter)
            + (if Retained(filter, tables[i].tableName) then TableRecords(tables[i]) else [])
            + Records(tables[i + 1..], filter)
  {
    var before, table, after := tables[..i], [tables[i]], tables[i + 1..];
    assert before + table + after == tables;
    RecordsAppend(before + table, after, filter);
    RecordsAppend(before, table, filter);
    assert Records(table, filter)
        == FlatMap(table, PerTable(filter), 0) + PerTable(filter)(table[0]);
  }

  lemma {:induction false} TableRecordsLength(table: RouteTable, n: nat)
    requires n <= |table.rt|
    ensures |FlatMap(table.rt, PerRt(table.tableName), n)| == EntryCount(table.rt, n)
  {
    if n != 0 {
      TableRecordsLength(table, n - 1);
      RtRecordsAt(table.tableName, table.rt[n - 1]);
    }
  }

  lemma {:induction false} RecordsLengthUpTo(tables: seq<RouteTable>, filter: seq<string>, n: nat)
    requires n <= |tables|
    ensures |FlatMap(tables, PerTable(filter), n)| == RetainedEntryCount(tables, filter, n)
  {
    if n != 0 {
      RecordsLengthUpTo(tables, filter, n - 1);
      TableRecordsLength(tables[n - 1], |tables[n - 1].rt|);
    }
  }

  /** One record per `rt-entry`: the output length is the number of route
      entries in the retained tables. */
  lemma RecordsLength(tables: seq<RouteTable>, filter: seq<string>)
    ensures |Records(tables, filter)| == RetainedEntryCount(tables, filter, |tables|)
  {
    RecordsLengthUpTo(tables, filter, |tables|);
  }

  lemma TableRecordsMembership(table: RouteTable, x: RtDestination)
    ensures x in TableRecords(table)
        <==> exists j, k :: 0 <= j < |table.rt| && 0 <= k < |table.rt[j].rtEntry|
                            && x == EntryRecord(table.tableName, table.rt[j].rtDestination, table.rt[j].rtEntry[k])
  {
    var rts := table.rt;
    FlatMapMembership(rts, PerRt(table.tableName), |rts|, x);
    if x in TableRecords(table) {
      var j :| 0 <= j < |rts| && x in RtRecords(table.tableName, rts[j]);
      RtRecordsAt(table.tableName, rts[j]);
      var k :| 0 <= k < |rts[j].rtEntry| && RtRecords(table.tableName, rts[j])[k] == x;
    }
    if exists j, k :: 0 <= j < |rts| && 0 <= k < |rts[j].rtEntry|
                      && x == EntryRecord(table.tableName, rts[j].rtDestination, rts[j].rtEntry[k]) {
      var j, k :| 0 <= j < |rts| && 0 <= k < |rts[j].rtEntry|
                  && x == EntryRecord(table.tableName, rts[j].rtDestination, rts[j].rtEntry[k]);
      RtRecordsAt(table.tableName, rts[j]);
      assert RtRecords(table.tableName, rts[j])[k] == x;
    }
  }

  /** Filter rule, by membership: a record is extracted iff it is the record
      of some route entry of some retained table. */
  lemma RecordsMembership(tables: seq<RouteTable>, filter: seq<string>, x: RtDestination)
    ensures x in Records(tables, filter) <==> exists i, j, k :: ComesFrom(tables, filter, x, i, j, k)
  {
    FlatMapMembership(tables, PerTable(filter), |tables|, x);
    if x in Records(tables, filter) {
      var i :| 0 <= i < |tables| && x in PerTable(filter)(tables[i]);
      TableRecordsMembership(tables[i], x);
      var j, k :| 0 <= j < |tables[i].rt| && 0 <= k < |tables[i].rt[j].rtEntry|
                  && x == EntryRecord(tables[i].tableName, tables[i].rt[j].rtDestination, tables[i].rt[j].rtEntry[k]);
      assert ComesFrom(tables, filter, x, i, j, k);
    }
    if exists i, j, k :: ComesFrom(tables, filter, x, i, j, k) {
      var i, j, k :| ComesFrom(tables, filter, x, i, j, k);
      TableRecordsMembership(tables[i], x);
      assert x in PerTable(filter)(tables[i]);
    }
  }

  /** Every extracted record comes from a retained table and has its three
      lists of equal length. */
  lemma ExtractedRecordsWellFormed(reply: RpcReply, filter: seq<string>)
    ensures forall x :: x in DestinationEntries(reply, filter) ==>
      && Retained(filter, x.tableName)
      && |x.nextHop| == |x.via| == |x.nhLocalInterface|
  {
    var tables := reply.routeInformation.routeTable;
    forall x | x in DestinationEntries(reply, filter)
      ensures Retained(filter, x.tableName) && |x.nextHop| == |x.via| == |x.nhLocalInterface|
    {
      RecordsMembership(tables, filter, x);
      var i, j, k :| ComesFrom(tables, filter, x, i, j, k);
      EntryRecordShape(tables[i].tableName, tables[i].rt[j].rtDestination, tables[i].rt[j].rtEntry[k]);
    }
  }

  /** The filter matters only through the tables it retains: two filters that
      retain the same tables extract the same records. In particular every
      filter holding "ALL" extracts the same records. */
  lemma FilterExtensional(tables: seq<RouteTable>, f: seq<string>, g: seq<string>)
    requires forall i :: 0 <= i < |tables| ==>
      (Retained(f, tables[i].tableName) <==> Retained(g, tables[i].tableName))
    ensures Records(tables, f) == Records(tables, g)
  {
    FlatMapCongruence(tables, PerTable(f), PerTable(g), |tables|);
  }

  /** A filter that retains none of the tables extracts nothing. */
  lemma NothingRetained(tables: seq<RouteTable>, filter: seq<string>)
    requires forall i :: 0 <= i < |tables| ==> !Retained(filter, tables[i].tableName)
    ensures Records(tables, filter) == []
  {
    FlatMapEmpty(tables, PerTable(filter), |tables|);
  }
}
