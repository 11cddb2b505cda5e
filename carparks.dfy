/** The records of the car-park pipeline: rows of the HDB car-park CSV after
    dynamic typing, entries of the live availability feed, and the unified
    car-park record that the map, the nearest list and the explore table show. */
module Carparks {
  import opened Wrappers
  import opened JsStrings
  import opened JsValues
  import opened JsNumbers

  /** A WGS84 position in degrees. */
  datatype LatLon = LatLon(lat: real, lon: real)

  /** One parsed row of the static dataset, keyed by the CSV header. A column
      the row lacks is `Undefined`; an empty cell is `Null`. */
  datatype CsvRow = CsvRow(
    carParkNo: JsValue,
    address: JsValue,
    xCoord: JsValue,
    yCoord: JsValue,
    carParkType: JsValue)

  /** The unified car-park record; `id` is the trimmed `car_park_no`. */
  datatype Carpark = Carpark(
    id: string,
    address: string,
    pos: LatLon,
    distance: real,
    carParkType: JsValue,
    available: int)

  /** One element of `carpark_info` in the live feed. */
  datatype LotInfo = LotInfo(lotsAvailable: JsValue)

  /** One element of `carpark_data`; `carparkInfo` is `None` when the property
      is missing or null. */
  datatype LiveEntry = LiveEntry(carparkNumber: JsValue, carparkInfo: Option<seq<LotInfo>>)

  /** One element of the response's `items`. */
  datatype FeedItem = FeedItem(carparkData: Option<seq<LiveEntry>>)

  /** What the availability request produced: a failure (network error,
      non-OK status or a body that is not JSON), or a JSON body whose `items`
      may be missing. */
  datatype FeedResult = FetchFailed | Fetched(items: Option<seq<FeedItem>>)

  /** The SVY21 to WGS84 conversion. Anything but two numbers gives the
      sentinel (0, 0); two numbers go to the inverse projection, supplied as
      `project(northing, easting)`. */
  function Svy21ToWgs84(x: JsValue, y: JsValue, project: (real, real) -> LatLon): (r: LatLon)
    ensures !(x.Number? && y.Number?) ==> r == LatLon(0.0, 0.0)
    ensures x.Number? && y.Number? ==> r == project(y.value, x.value)
  {
    if x.Number? && y.Number? then project(y.value, x.value) else LatLon(0.0, 0.0)
  }

  /** A row takes part only if its number and both coordinates are truthy, so
      a coordinate of 0 or an empty cell drops it. */
  predicate Usable(row: CsvRow) {
    Truthy(row.carParkNo) && Truthy(row.xCoord) && Truthy(row.yCoord)
  }

  /** The key a row is stored under: `String(car_park_no).trim()`. */
  function RowKey(row: CsvRow): string {
    Trim(ToJsString(row.carParkNo))
  }

  /** The record built for a usable row, before any live data: no lots, no distance. */
  function ToCarpark(row: CsvRow, project: (real, real) -> LatLon): (c: Carpark)
    ensures c.id == RowKey(row) && c.available == 0 && c.distance == 0.0
    ensures c.address == Trim(ToJsString(row.address)) && c.carParkType == row.carParkType
    ensures c.pos == Svy21ToWgs84(row.xCoord, row.yCoord, project)
  {
    Carpark(RowKey(row), Trim(ToJsString(row.address)),
      Svy21ToWgs84(row.xCoord, row.yCoord, project), 0.0, row.carParkType, 0)
  }

  /** The key a live entry is matched by: `String(carpark_number).trim()`;
      no case folding. */
  function LiveKey(e: LiveEntry): string {
    Trim(ToJsString(e.carparkNumber))
  }

  /** The lot count a matched live entry sets: `parseInt` of the first
      snapshot's `lots_available`, or 0 when there is no snapshot or the parse
      is NaN. A negative parse is kept. */
  function LiveLots(e: LiveEntry): (n: int)
    ensures (e.carparkInfo.None? || e.carparkInfo.value == []) ==> n == 0
    ensures e.carparkInfo.Some? && e.carparkInfo.value != [] ==>
      n == ParseInt(ToJsString(e.carparkInfo.value[0].lotsAvailable)).GetOr(0)
  {
    match e.carparkInfo
    case None => 0
    case Some(info) =>
      if |info| > 0 then
        match ParseInt(ToJsString(info[0].lotsAvailable))
        case Some(parsed) => parsed
        case None => 0
      else 0
  }

  /** The live entries the merge walks: `items[0].carpark_data` when the
      request succeeded and that path exists, and none otherwise. */
  function LiveEntries(feed: FeedResult): (live: seq<LiveEntry>)
    ensures feed.FetchFailed? ==> live == []
    ensures feed.Fetched? && (feed.items.None? || feed.items.value == []) ==> live == []
    ensures feed.Fetched? && feed.items.Some? && feed.items.value != [] ==>
      live == feed.items.value[0].carparkData.GetOr([])
    ensures feed.Fetched? && feed.items.Some? && feed.items.value != [] && feed.items.value[0].carparkData.None? ==>
      live == []
  {
    match feed
    case FetchFailed => []
    case Fetched(items) =>
      match items
      case None => []
      case Some(its) => if |its| > 0 then its[0].carparkData.GetOr([]) else []
  }

  /** A lot count written as the feed writes it reads back exactly. */
  lemma LiveLotsOfDecimal(number: JsValue, n: int)
    ensures LiveLots(LiveEntry(number, Some([LotInfo(Text(Decimal(n)))]))) == n
  {
    ParseIntOfDecimal(n, []);
    assert Decimal(n) + [] == Decimal(n);
  }

  /** A count with no digit in it, such as "N/A", leaves the lots at 0. */
  lemma LiveLotsWithoutDigits(number: JsValue, text: string)
    requires forall i :: 0 <= i < |text| ==> !('0' <= text[i] <= '9')
    ensures LiveLots(LiveEntry(number, Some([LotInfo(Text(text))]))) == 0
  {
    ParseIntWithoutDigits(text);
  }
}
