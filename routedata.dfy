/** The decoded reply of a Junos `show route | display xml` query, reduced to
    the elements the route comparison reads, and the flat record it extracts.
    Elements the comparison never reads (protocol-name, preference, age,
    nh-type, selected-next-hop and character data) are not modelled. An XML
    child the decoder did not find is the empty string. */
module RouteData {

  /** One `nh` element: next-hop address, egress interface, local interface. */
  datatype Nh = Nh(to: string, via: string, nhLocalInterface: string)

  /** One `rt-entry` element (one per contributing protocol). */
  datatype RtEntry = RtEntry(nh: seq<Nh>)

  /** One `rt` element: a destination prefix and its route entries. */
  datatype Rt = Rt(rtDestination: string, rtEntry: seq<RtEntry>)

  /** One `route-table` element, named by its routing instance. */
  datatype RouteTable = RouteTable(tableName: string, rt: seq<Rt>)

  /** The `route-information` element. */
  datatype RouteInformation = RouteInformation(routeTable: seq<RouteTable>)

  /** The `rpc-reply` root element. */
  datatype RpcReply = RpcReply(routeInformation: RouteInformation)

  /** The flat record built per route entry; the three lists are positionally
      correlated, one element per `nh`. */
  datatype RtDestination = RtDestination(
    destination: string,
    nextHop: seq<string>,
    via: seq<string>,
    tableName: string,
    nhLocalInterface: seq<string>)
}
