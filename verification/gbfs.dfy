/**
 The two GBFS feeds the server reads (station status and station
 information), the outcome of fetching each of them, and the lookup from
 station identifier to information record that the KML generator builds.
 The network and JSON decoding are not modelled: an HTTP exchange is given
 as its outcome.
 */
module Gbfs {
  import opened JsValues

  /** One entry of `data.stations` in the status feed. */
  datatype StationStatus = StationStatus(
    stationId: string,
    numBikesAvailable: NumField,
    numDocksAvailable: NumField)

  /** One entry of `data.stations` in the information feed. */
  datatype StationInformation = StationInformation(
    stationId: string,
    name: Option<string>,
    address: Option<string>,
    lat: NumField,
    lon: NumField)

  /**
   A decoded information document.  `stations` is None when the document has
   no `data.stations` (including a document that decodes to `null`).
   */
  datatype InfoDocument = InfoDocument(stations: Option<seq<StationInformation>>)

  /** A decoded status document: its `data.stations`, None when that path is absent. */
  type StatusDocument = Option<seq<StationStatus>>

  /** Why a status fetch failed. */
  datatype FetchError =
    | HttpError(status: int)   // the response was not ok
    | TransportError           // the request itself failed
    | MalformedBody            // the body was not JSON, or had no data.stations

  datatype Body<T> = Undecodable | Decoded(value: T)

  /** What the upstream endpoint answered: nothing at all, or a response. */
  datatype HttpReply<T> = NoReply | Reply(ok: bool, status: int, body: Body<T>)

  datatype Result<+T> = Ok(value: T) | Err(error: FetchError)

  /**
   getStationData: fails on a transport error, on a non-ok response (with its
   status), on an undecodable body, and on a body without `data.stations`
   (reading its length throws); otherwise yields the station list.
   */
  function FetchStatus(reply: HttpReply<StatusDocument>): (r: Result<seq<StationStatus>>)
    ensures r.Ok? <==> reply.Reply? && reply.ok && reply.body.Decoded? && reply.body.value.Some?
    ensures r.Ok? ==> r.value == reply.body.value.value
    ensures reply.Reply? && !reply.ok ==> r == Err(HttpError(reply.status))
    ensures reply.NoReply? ==> r == Err(TransportError)
  {
    match reply
    case NoReply => Err(TransportError)
    case Reply(ok, status, body) =>
      if !ok then Err(HttpError(status))
      else match body
        case Undecodable => Err(MalformedBody)
        case Decoded(None) => Err(MalformedBody)
        case Decoded(Some(stations)) => Ok(stations)
  }

  /**
   getStationInfo: every failure is swallowed and yields None (`null`);
   otherwise the decoded document, whatever its shape.
   */
  function FetchInfo(reply: HttpReply<InfoDocument>): (r: Option<InfoDocument>)
    ensures r.Some? <==> reply.Reply? && reply.ok && reply.body.Decoded?
    ensures r.Some? ==> r.value == reply.body.value
  {
    match reply
    case NoReply => None
    case Reply(ok, _, body) =>
      if ok && body.Decoded? then Some(body.value) else None
  }

  /**
   The lookup built by `forEach` over the information records: each record is
   stored under its identifier, so a later record replaces an earlier one with
   the same identifier.
   */
  function IndexById(records: seq<StationInformation>): (m: map<string, StationInformation>)
    ensures forall id :: id in m <==> exists i :: 0 <= i < |records| && records[i].stationId == id
    decreases |records|
  {
    if |records| == 0 then map[]
    else
      var last := records[|records| - 1];
      IndexById(records[..|records| - 1])[last.stationId := last]
  }

  /** No record after position i carries the identifier of record i. */
  ghost predicate LastWithId(records: seq<StationInformation>, i: int)
    requires 0 <= i < |records|
  {
    forall j :: i < j < |records| ==> records[j].stationId != records[i].stationId
  }

  /**
   Reference definition of the lookup: scan the records from the end and take
   the first one with the identifier.
   */
  function FindLast(records: seq<StationInformation>, id: string): Option<StationInformation>
    decreases |records|
  {
    if |records| == 0 then None
    else if records[|records| - 1].stationId == id then Some(records[|records| - 1])
    else FindLast(records[..|records| - 1], id)
  }

  /** The lookup and the backwards scan agree on every identifier. */
  lemma {:induction false} IndexByIdIsFindLast(records: seq<StationInformation>, id: string)
    ensures id in IndexById(records) <==> FindLast(records, id).Some?
    ensures id in IndexById(records) ==> IndexById(records)[id] == FindLast(records, id).value
    decreases |records|
  {
    if |records| > 0 {
      IndexByIdIsFindLast(records[..|records| - 1], id);
    }
  }

  lemma {:induction false} FindLastFindsLastIndex(records: seq<StationInformation>, i: int)
    requires 0 <= i < |records| && LastWithId(records, i)
    ensures FindLast(records, records[i].stationId) == Some(records[i])
    decreases |records|
  {
    if i < |records| - 1 {
      var init := records[..|records| - 1];
      assert records[|records| - 1].stationId != records[i].stationId;
      assert LastWithId(init, i) by {
        forall j | i < j < |init| ensures init[j].stationId != init[i].stationId {
          assert init[j] == records[j];
        }
      }
      FindLastFindsLastIndex(init, i);
    }
  }

  /**
   When the same identifier appears several times among the information
   records, the lookup holds the last of them.
   */
  lemma LaterRecordWins(records: seq<StationInformation>, i: int)
    requires 0 <= i < |records| && LastWithId(records, i)
    ensures records[i].stationId in IndexById(records)
    ensures IndexById(records)[records[i].stationId] == records[i]
  {
    FindLastFindsLastIndex(records, i);
    IndexByIdIsFindLast(records, records[i].stationId);
  }

  /** Every entry of the lookup is a record of the list, stored under its own identifier. */
  lemma {:induction false} IndexByIdEntriesAreRecords(records: seq<StationInformation>, id: string)
    requires id in IndexById(records)
    ensures IndexById(records)[id].stationId == id
    ensures IndexById(records)[id] in records
    decreases |records|
  {
    var last := records[|records| - 1];
    var init := records[..|records| - 1];
    if last.stationId != id {
      IndexByIdEntriesAreRecords(init, id);
    }
  }

  /**
   The station-information dictionary that generateKML builds: empty unless
   the information document is present and has `data.stations`, and then
   keyed by exactly the records' identifiers, every entry one of its records
   stored under its own identifier.
   */
  function InfoLookup(info: Option<InfoDocument>): (m: map<string, StationInformation>)
    ensures info.None? || info.value.stations.None? ==> m == map[]
    ensures info.Some? && info.value.stations.Some? ==>
      forall id :: id in m <==> exists i :: 0 <= i < |info.value.stations.value| && info.value.stations.value[i].stationId == id
    ensures forall id :: id in m ==> m[id].stationId == id && m[id] in info.value.stations.value
  {
    if info.Some? && info.value.stations.Some? then
      var records := info.value.stations.value;
      var m := IndexById(records);
      forall id | id in m ensures m[id].stationId == id && m[id] in records {
        IndexByIdEntriesAreRecords(records, id);
      }
      m
    else map[]
  }

  /** `stationInfoMap[id] || {}`: the paired record, or None for the empty object. */
  function Resolve(m: map<string, StationInformation>, id: string): Option<StationInformation> {
    if id in m then Some(m[id]) else None
  }

  /**
   What `stationInfoMap[id] || {}` yields for a status record: the last
   information record carrying the identifier, and nothing when there is no
   such record or no usable information document.
   */
  lemma ResolveIsLastRecord(info: Option<InfoDocument>, id: string)
    ensures Resolve(InfoLookup(info), id) ==
      if info.Some? && info.value.stations.Some? then FindLast(info.value.stations.value, id) else None
  {
    if info.Some? && info.value.stations.Some? {
      IndexByIdIsFindLast(info.value.stations.value, id);
    }
  }
}
