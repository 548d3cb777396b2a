/**
 * The station map (`fetch_station_coords`): one record per station the data
 * server names, with coordinates read from the station's properties, from its
 * GeoJSON geometry, or from a geocoder, sorted into the order of the request.
 */
module StationCoords {
  import opened Strings
  import opened JsonValues
  import opened Dicts
  import opened StationNames
  import Icao

  /** `{"icao": ..., "name": ..., "lat": ..., "lon": ...}`; None is Python's None. */
  datatype StationRecord = StationRecord(icao: string, name: Json, lat: Option<real>, lon: Option<real>)

  const LatKeys: seq<string> := ["latitude", "lat", "latitude_deg", "latitude_degN"]
  const LonKeys: seq<string> := ["longitude", "lon", "longitude_deg", "longitude_degE"]

  /** The rank of a station that was not requested, `1e9`. */
  const Unrequested: int := 1000000000

  /** Python's `float(v)`; None when it raises. Text goes through `parseFloat`,
      which stands for Python's float literal parser. */
  function Float(v: Json, parseFloat: string -> Option<real>): (r: Option<real>)
    ensures v.JNum? ==> r == Some(v.n)
    ensures v.JBool? ==> r == Some(if v.b then 1.0 else 0.0)
    ensures v.JStr? ==> r == parseFloat(v.s)
    ensures v.JNull? || v.JArr? || v.JObj? ==> r == None
  {
    match v
    case JNum(n) => Some(n)
    case JBool(b) => Some(if b then 1.0 else 0.0)
    case JStr(s) => parseFloat(s)
    case _ => None
  }

  /** `float(v) if v is not None else None`: Raised when `float` raises. */
  function Coordinate(v: Json, parseFloat: string -> Option<real>): (r: Result<Option<real>>)
    ensures v.JNull? ==> r == Ok(None)
    ensures !v.JNull? ==> (r.Raised? <==> Float(v, parseFloat).None?)
    ensures r.Ok? && r.value.Some? ==> Float(v, parseFloat) == r.value
    ensures !v.JNull? && Float(v, parseFloat).Some? ==> r == Ok(Float(v, parseFloat))
  {
    if v.JNull? then Ok(None)
    else match Float(v, parseFloat)
      case None => Raised
      case Some(x) => Ok(Some(x))
  }

  /** The `try` around both conversions: when either raises, both become None. */
  function Convert(lat: Json, lon: Json, parseFloat: string -> Option<real>): (r: (Option<real>, Option<real>))
    ensures Coordinate(lat, parseFloat).Raised? || Coordinate(lon, parseFloat).Raised? ==> r == (None, None)
    ensures r.0.Some? ==> !lat.JNull? && Float(lat, parseFloat) == r.0
    ensures r.1.Some? ==> !lon.JNull? && Float(lon, parseFloat) == r.1
    ensures lat.JNum? && lon.JNum? ==> r == (Some(lat.n), Some(lon.n))
    ensures Coordinate(lat, parseFloat).Ok? && Coordinate(lon, parseFloat).Ok?
      ==> r == (Coordinate(lat, parseFloat).value, Coordinate(lon, parseFloat).value)
  {
    var a, b := Coordinate(lat, parseFloat), Coordinate(lon, parseFloat);
    if a.Raised? || b.Raised? then (None, None) else (a.value, b.value)
  }

  /** `coords` of the item's geometry, when `item.get('geometry') or {}` is an object. */
  function GeometryCoordinates(item: map<string, Json>): Json {
    var geom := Or([Get(item, "geometry"), JObj(map[])]);
    if geom.JObj? then Get(geom.fields, "coordinates") else JNull
  }

  /** The GeoJSON fallback: a missing latitude comes from `coordinates[1]`, a
      missing longitude from `coordinates[0]`, when the item is an object whose
      geometry holds at least two coordinates. */
  function Fallback(item: Json, lat: Json, lon: Json): (r: (Json, Json))
    ensures !lat.JNull? ==> r.0 == lat
    ensures !lon.JNull? ==> r.1 == lon
    ensures (item.JObj? && (lat.JNull? || lon.JNull?)
             && GeometryCoordinates(item.fields).JArr? && |GeometryCoordinates(item.fields).items| >= 2)
      ==> r == (if lat.JNull? then GeometryCoordinates(item.fields).items[1] else lat,
                if lon.JNull? then GeometryCoordinates(item.fields).items[0] else lon)
    ensures (!item.JObj? || !GeometryCoordinates(item.fields).JArr? || |GeometryCoordinates(item.fields).items| < 2)
      ==> r == (lat, lon)
  {
    if (lat.JNull? || lon.JNull?) && item.JObj? then
      var coords := GeometryCoordinates(item.fields);
      if coords.JArr? && |coords.items| >= 2 then
        (if lat.JNull? then coords.items[1] else lat, if lon.JNull? then coords.items[0] else lon)
      else (lat, lon)
    else (lat, lon)
  }

  /** The coordinates read for one item with properties `props`. */
  function Position(item: Json, props: map<string, Json>, parseFloat: string -> Option<real>): (Option<real>, Option<real>) {
    var (lat, lon) := Fallback(item, Or(Lookups(props, LatKeys)), Or(Lookups(props, LonKeys)));
    Convert(lat, lon, parseFloat)
  }

  /** The record built from an item that names a station. */
  function ItemRecord(item: Json, parseFloat: string -> Option<real>): (r: StationRecord)
    requires ItemEntry(item).Ok? && ItemEntry(item).value.Named?
    ensures r.icao == ItemEntry(item).value.icao && r.icao != ""
    ensures r.name == ItemEntry(item).value.name
  {
    var e := ItemEntry(item).value;
    var pos := Position(item, ItemProps(item).fields, parseFloat);
    StationRecord(e.icao, e.name, pos.0, pos.1)
  }

  /** The loop over the payload items with the set `seen` of ids already listed. */
  function Collect(items: seq<Json>, seen: set<string>, parseFloat: string -> Option<real>): Result<seq<StationRecord>> {
    if items == [] then Ok([])
    else match ItemEntry(items[0])
      case Raised => Raised
      case Ok(Skip) => Collect(items[1..], seen, parseFloat)
      case Ok(Named(k, _)) =>
        if k in seen then Collect(items[1..], seen, parseFloat)
        else Then([ItemRecord(items[0], parseFloat)], Collect(items[1..], seen + {k}, parseFloat))
  }

  /** The station ids of a list of records. */
  function Ids(recs: seq<StationRecord>): (r: seq<string>)
    ensures |r| == |recs|
    ensures forall i :: 0 <= i < |recs| ==> r[i] == recs[i].icao
  {
    seq(|recs|, i requires 0 <= i < |recs| => recs[i].icao)
  }

  /** What the geocoder's reply gives: nothing, a latitude only (the longitude
      conversion raised after the latitude was stored), or both. */
  datatype Geo = GeoNone | GeoLat(lat: real) | GeoBoth(lat: real, lon: real)

  /** `float(arr[0][key])` on the geocoder's list; None when it raises. */
  function FirstField(arr: seq<Json>, key: string, parseFloat: string -> Option<real>): Option<real>
    requires arr != []
  {
    if arr[0].JObj? && key in arr[0].fields then Float(arr[0].fields[key], parseFloat) else None
  }

  /** The geocoder reply as the handler reads it. */
  function Nominatim(reply: Response, parseFloat: string -> Option<real>): (g: Geo)
    ensures (reply.TransportError? || reply.status != 200 || reply.body.None?) ==> g == GeoNone
    ensures g.GeoLat? || g.GeoBoth? ==>
      (reply.Reply? && reply.body.Some? && reply.body.value.JArr? && reply.body.value.items != []
       && FirstField(reply.body.value.items, "lat", parseFloat) == Some(g.lat))
    ensures g.GeoBoth? ==> FirstField(reply.body.value.items, "lon", parseFloat) == Some(g.lon)
    ensures g.GeoLat? ==> FirstField(reply.body.value.items, "lon", parseFloat).None?
    ensures (reply.Reply? && reply.status == 200 && reply.body.Some? && reply.body.value.JArr?
             && reply.body.value.items != [])
      ==> var arr := reply.body.value.items;
          && (g.GeoNone? <==> FirstField(arr, "lat", parseFloat).None?)
          && (g.GeoBoth? <==> FirstField(arr, "lat", parseFloat).Some? && FirstField(arr, "lon", parseFloat).Some?)
  {
    if reply.TransportError? || reply.status != 200 || reply.body.None? then GeoNone
    else if !reply.body.value.JArr? || reply.body.value.items == [] then GeoNone
    else
      var arr := reply.body.value.items;
      match FirstField(arr, "lat", parseFloat)
      case None => GeoNone
      case Some(a) =>
        match FirstField(arr, "lon", parseFloat)
        case None => GeoLat(a)
        case Some(b) => GeoBoth(a, b)
  }

  /** The geocoder query for a station. */
  function Query(icao: string): string {
    "airport " + icao
  }

  /** The fallback for one record: a record missing a coordinate asks the
      geocoder (`geocode` is the exchange for a query) and takes what it gives. */
  function Locate(rec: StationRecord, geocode: string -> Response, parseFloat: string -> Option<real>): (r: StationRecord)
    ensures r.icao == rec.icao && r.name == rec.name
    ensures rec.lat.Some? && rec.lon.Some? ==> r == rec
    ensures rec.lat.Some? ==> r.lat.Some?
    ensures rec.lon.Some? ==> r.lon.Some?
    ensures r.lat != rec.lat ==>
      var g := Nominatim(geocode(Query(rec.icao)), parseFloat); (g.GeoLat? || g.GeoBoth?) && r.lat == Some(g.lat)
    ensures r.lon != rec.lon ==>
      var g := Nominatim(geocode(Query(rec.icao)), parseFloat); g.GeoBoth? && r == rec.(lat := Some(g.lat), lon := Some(g.lon))
  {
    if rec.lat.Some? && rec.lon.Some? then rec
    else match Nominatim(geocode(Query(rec.icao)), parseFloat)
      case GeoNone => rec
      case GeoLat(a) => rec.(lat := Some(a))
      case GeoBoth(a, b) => rec.(lat := Some(a), lon := Some(b))
  }

  /** Every record after the fallback. */
  function LocateAll(recs: seq<StationRecord>, geocode: string -> Response, parseFloat: string -> Option<real>): (r: seq<StationRecord>)
    ensures |r| == |recs|
    ensures forall i :: 0 <= i < |recs| ==> r[i] == Locate(recs[i], geocode, parseFloat)
  {
    seq(|recs|, i requires 0 <= i < |recs| => Locate(recs[i], geocode, parseFloat))
  }

  /** Index of the last `k` in `codes`, or -1. */
  function LastIndex(codes: seq<string>, k: string): (r: int)
    ensures -1 <= r < |codes|
    ensures r >= 0 ==> codes[r] == k
    ensures forall j :: r < j < |codes| ==> codes[j] != k
    ensures r == -1 <==> k !in codes
  {
    if codes == [] then -1
    else if codes[|codes| - 1] == k then |codes| - 1
    else LastIndex(codes[..|codes| - 1], k)
  }

  /** `order.get(icao, 1e9)` with `order = {c: i for i, c in enumerate(codes)}`:
      a later repetition of a code overwrites the earlier index. */
  function Rank(codes: seq<string>, icao: string): int {
    var i := LastIndex(codes, icao);
    if i < 0 then Unrequested else i
  }

  predicate SortedByRank(s: seq<StationRecord>, codes: seq<string>) {
    forall i, j :: 0 <= i < j < |s| ==> Rank(codes, s[i].icao) <= Rank(codes, s[j].icao)
  }

  /** `x` placed before the first record of `t` whose rank is not smaller. */
  function InsertByRank(x: StationRecord, t: seq<StationRecord>, codes: seq<string>): (r: seq<StationRecord>)
    ensures |r| == |t| + 1
  {
    if t == [] || Rank(codes, x.icao) <= Rank(codes, t[0].icao) then [x] + t
    else [t[0]] + InsertByRank(x, t[1..], codes)
  }

  /** `out.sort(key=...)`: Python's sort is stable, and a stable sort by a key
      has exactly one result, which this insertion sort builds. */
  function SortByRequest(s: seq<StationRecord>, codes: seq<string>): (r: seq<StationRecord>)
    ensures |r| == |s|
  {
    if s == [] then []
    else InsertByRank(s[0], SortByRequest(s[1..], codes), codes)
  }

  /** `[{"icao": c, "name": "", "lat": None, "lon": None} for c in codes]` */
  function Placeholders(codes: seq<string>): (r: seq<StationRecord>)
    ensures |r| == |codes|
    ensures forall i :: 0 <= i < |codes| ==> r[i] == StationRecord(codes[i], JStr(""), None, None)
  {
    seq(|codes|, i requires 0 <= i < |codes| => StationRecord(codes[i], JStr(""), None, None))
  }

  /** The records before the fallback, or Raised when the handler's outer
      `try` catches: the request raised, `raise_for_status` rejected the
      status, the body did not decode, the payload was malformed, or an id was
      not text. */
  function Raw(resp: Response, parseFloat: string -> Option<real>): Result<seq<StationRecord>> {
    if resp.TransportError? || (400 <= resp.status < 600) || resp.body.None? then Raised
    else match Payload(resp.body.value, "stations")
      case Raised => Raised
      case Ok(data) => Collect(ListItems(data), {}, parseFloat)
  }

  /** The list `fetch_station_coords(icao_codes)` returns. */
  function StationCoords(icaoCodes: seq<string>, resp: Response, geocode: string -> Response,
                         parseFloat: string -> Option<real>): (r: seq<StationRecord>)
    ensures Icao.CleanCodes(icaoCodes) == [] ==> r == []
  {
    var codes := Icao.CleanCodes(icaoCodes);
    if codes == [] then []
    else match Raw(resp, parseFloat)
      case Raised => Placeholders(codes)
      case Ok(recs) => SortByRequest(LocateAll(recs, geocode, parseFloat), codes)
  }

  /** `fetch_station_coords`, step by step as the handler runs it. */
  method FetchStationCoords(icaoCodes: seq<string>, resp: Response, geocode: string -> Response,
                            parseFloat: string -> Option<real>) returns (out: seq<StationRecord>)
    ensures out == StationCoords(icaoCodes, resp, geocode, parseFloat)
  {
    if icaoCodes == [] {
      return [];
    }
    var codes := Icao.CleanCodes(icaoCodes);
    if codes == [] {
      return [];
    }
    ghost var raw := Raw(resp, parseFloat);
    assert StationCoords(icaoCodes, resp, geocode, parseFloat)
      == if raw.Raised? then Placeholders(codes) else SortByRequest(LocateAll(raw.value, geocode, parseFloat), codes);
    if resp.TransportError? || (400 <= resp.status < 600) || resp.body.None? {
      return Placeholders(codes);
    }
    var data := Payload(resp.body.value, "stations");
    if data.Raised? {
      return Placeholders(codes);
    }
    var collected := CollectRecords(ListItems(data.value), parseFloat);
    assert collected == raw;
    if collected.Raised? {
      return Placeholders(codes);
    }
    out := LocateRecords(collected.value, geocode, parseFloat);
    out := SortByRequest(out, codes);
  }

  /** The loop over the payload items, appending a record for each station
      not yet in `seen`. */
  method CollectRecords(items: seq<Json>, parseFloat: string -> Option<real>) returns (r: Result<seq<StationRecord>>)
    ensures r == Collect(items, {}, parseFloat)
  {
    var out: seq<StationRecord> := [];
    var seen: set<string> := {};
    var i := 0;
    assert items[i..] == items;
    assert Then(out, Collect(items, seen, parseFloat)) == Collect(items, seen, parseFloat) by {
      var c := Collect(items, seen, parseFloat);
      if c.Ok? {
        assert out + c.value == c.value;
      }
    }
    while i < |items|
      invariant 0 <= i <= |items|
      invariant Collect(items, {}, parseFloat) == Then(out, Collect(items[i..], seen, parseFloat))
    {
      CollectStep(items[i..], seen, parseFloat);
      assert items[i..][0] == items[i] && items[i..][1..] == items[i + 1..];
      var e := ItemEntry(items[i]);
      if e.Raised? {
        return Raised;
      }
      if e.value.Named? && e.value.icao !in seen {
        var rec := ItemRecord(items[i], parseFloat);
        ThenThen(out, [rec], Collect(items[i + 1..], seen + {e.value.icao}, parseFloat));
        seen := seen + {e.value.icao};
        out := out + [rec];
      }
      i := i + 1;
    }
    assert items[i..] == [];
    assert out + [] == out;
    return Ok(out);
  }

  /** The geocoder fallback, updating the records in place. */
  method LocateRecords(recs: seq<StationRecord>, geocode: string -> Response, parseFloat: string -> Option<real>)
    returns (out: seq<StationRecord>)
    ensures out == LocateAll(recs, geocode, parseFloat)
  {
    out := recs;
    var k := 0;
    while k < |out|
      invariant |out| == |recs|
      invariant 0 <= k <= |out|
      invariant forall m :: 0 <= m < k ==> out[m] == Locate(recs[m], geocode, parseFloat)
      invariant forall m :: k <= m < |out| ==> out[m] == recs[m]
    {
      out := out[k := Locate(out[k], geocode, parseFloat)];
      k := k + 1;
    }
  }

  // ---------------------------------------------------------------------
  // Lemmas

  /** One turn of the loop over the items. */
  lemma {:induction false} CollectStep(items: seq<Json>, seen: set<string>, parseFloat: string -> Option<real>)
    requires items != []
    ensures ItemEntry(items[0]).Raised? ==> Collect(items, seen, parseFloat).Raised?
    ensures ItemEntry(items[0]) == Ok(Skip) ==> Collect(items, seen, parseFloat) == Collect(items[1..], seen, parseFloat)
    ensures ItemEntry(items[0]).Ok? && ItemEntry(items[0]).value.Named? ==>
      var k := ItemEntry(items[0]).value.icao;
      Collect(items, seen, parseFloat) ==
        if k in seen then Collect(items[1..], seen, parseFloat)
        else Then([ItemRecord(items[0], parseFloat)], Collect(items[1..], seen + {k}, parseFloat))
  {
  }

  /** The ids of `s` in order, each at its first occurrence, skipping `seen`. */
  function FirstMentions(s: seq<string>, seen: set<string>): seq<string> {
    if s == [] then []
    else if s[0] in seen then FirstMentions(s[1..], seen)
    else [s[0]] + FirstMentions(s[1..], seen + {s[0]})
  }

  /** Listing each id at its first mention is removing repetitions. */
  lemma {:induction false} FirstMentionsDedup(p: seq<string>, s: seq<string>)
    ensures Dedup(p + s) == Dedup(p) + FirstMentions(s, set x | x in p)
    decreases |s|
  {
    var seen := set x | x in p;
    if s == [] {
      assert p + s == p;
    } else {
      var p' := p + [s[0]];
      FirstMentionsDedup(p', s[1..]);
      assert p' + s[1..] == p + s;
      assert p'[..|p'| - 1] == p;
      assert (set x | x in p') == seen + {s[0]};
      assert p'[|p'| - 1] == s[0];
      assert s[0] in Dedup(p) <==> s[0] in seen;
      if s[0] in seen {
        assert Dedup(p') == Dedup(p);
        assert seen + {s[0]} == seen;
        assert FirstMentions(s, seen) == FirstMentions(s[1..], seen);
      } else {
        assert Dedup(p') == Dedup(p) + [s[0]];
        assert FirstMentions(s, seen) == [s[0]] + FirstMentions(s[1..], seen + {s[0]});
        assert Dedup(p) + [s[0]] + FirstMentions(s[1..], seen + {s[0]})
          == Dedup(p) + ([s[0]] + FirstMentions(s[1..], seen + {s[0]}));
      }
    }
  }

  /** The records list each station the payload names once, at its first
      mention, skipping those already in `seen`; the payload raises for the
      map exactly when it raises for the directory. */
  lemma {:induction false} CollectIds(items: seq<Json>, seen: set<string>, parseFloat: string -> Option<real>)
    ensures Collect(items, seen, parseFloat).Ok? ==>
      Ids(Collect(items, seen, parseFloat).value) == FirstMentions(MentionIds(items), seen)
  {
    if items != [] {
      var rest := items[1..];
      match ItemEntry(items[0])
      case Raised =>
      case Ok(Skip) =>
        CollectIds(rest, seen, parseFloat);
        assert MentionIds(items) == MentionIds(rest);
      case Ok(Named(k, v)) =>
        assert MentionIds(items) == [k] + MentionIds(rest);
        if k in seen {
          CollectIds(rest, seen, parseFloat);
        } else {
          var r := Collect(rest, seen + {k}, parseFloat);
          CollectIds(rest, seen + {k}, parseFloat);
          if r.Ok? {
            var x := ItemRecord(items[0], parseFloat);
            assert Collect(items, seen, parseFloat).value == [x] + r.value;
            IdsCons(x, r.value);
          }
        }
    }
  }

  lemma {:induction false} IdsCons(x: StationRecord, recs: seq<StationRecord>)
    ensures Ids([x] + recs) == [x.icao] + Ids(recs)
  {
  }

  /** The payload raises for the map exactly when it raises for the directory. */
  lemma {:induction false} CollectRaisesLikeFill(items: seq<Json>, seen: set<string>, d: Dict,
                                                 parseFloat: string -> Option<real>)
    requires Valid(d)
    ensures Collect(items, seen, parseFloat).Raised? <==> Fill(items, d).Raised?
  {
    if items != [] {
      var rest := items[1..];
      match ItemEntry(items[0])
      case Raised =>
      case Ok(Skip) =>
        CollectRaisesLikeFill(rest, seen, d, parseFloat);
      case Ok(Named(k, v)) =>
        if k in seen {
          CollectRaisesLikeFill(rest, seen, Set(d, k, v), parseFloat);
        } else {
          CollectRaisesLikeFill(rest, seen + {k}, Set(d, k, v), parseFloat);
        }
    }
  }

  /** The first item of the payload that names `k`. */
  function FirstNaming(items: seq<Json>, k: string): (item: Json)
    requires k in MentionIds(items)
    ensures ItemEntry(item).Ok? && ItemEntry(item).value.Named? && ItemEntry(item).value.icao == k
  {
    var e := ItemEntry(items[0]);
    if e.Ok? && e.value.Named? && e.value.icao == k then items[0]
    else
      assert MentionIds(items) == (if e.Ok? && e.value.Named? then [e.value.icao] else []) + MentionIds(items[1..]);
      FirstNaming(items[1..], k)
  }

  /** First mention wins: each record is built from the first item naming its
      station, and no record is for a station in `seen`. */
  lemma {:induction false} CollectFirstMentionWins(items: seq<Json>, seen: set<string>, parseFloat: string -> Option<real>)
    requires Collect(items, seen, parseFloat).Ok?
    ensures forall rec :: rec in Collect(items, seen, parseFloat).value ==>
      rec.icao !in seen && rec.icao in MentionIds(items)
      && rec == ItemRecord(FirstNaming(items, rec.icao), parseFloat)
  {
    if items != [] {
      var rest := items[1..];
      var e := ItemEntry(items[0]);
      assert MentionIds(items) == (if e.Ok? && e.value.Named? then [e.value.icao] else []) + MentionIds(rest);
      match e
      case Ok(Skip) =>
        CollectFirstMentionWins(rest, seen, parseFloat);
      case Ok(Named(k, _)) =>
        CollectStep(items, seen, parseFloat);
        if k in seen {
          CollectFirstMentionWins(rest, seen, parseFloat);
        } else {
          var r := Collect(rest, seen + {k}, parseFloat);
          CollectFirstMentionWins(rest, seen + {k}, parseFloat);
          assert Collect(items, seen, parseFloat).value == [ItemRecord(items[0], parseFloat)] + r.value;
          assert FirstNaming(items, k) == items[0];
          forall rec | rec in r.value
            ensures FirstNaming(items, rec.icao) == FirstNaming(rest, rec.icao)
          {
            assert rec.icao != k;
          }
        }
    }
  }

  /** The records of an answered request list each station the payload names
      exactly once, in order of first mention: the same stations, in the same
      order, as the keys the directory gives them. */
  lemma {:induction false} CollectEachStationOnce(items: seq<Json>, parseFloat: string -> Option<real>)
    requires Collect(items, {}, parseFloat).Ok?
    ensures Ids(Collect(items, {}, parseFloat).value) == Dedup(MentionIds(items))
    ensures Fill(items, Empty).Ok? && Ids(Collect(items, {}, parseFloat).value) == Fill(items, Empty).value.keys
  {
    CollectIds(items, {}, parseFloat);
    CollectRaisesLikeFill(items, {}, Empty, parseFloat);
    FirstMentionsDedup([], MentionIds(items));
    assert [] + MentionIds(items) == MentionIds(items);
    assert (set x: string | x in []) == {};
    FillKeys(items, Empty);
    assert Empty.keys + MentionIds(items) == MentionIds(items);
  }

  /** Coordinates in the GeoJSON geometry are `[lon, lat]`: with no coordinate
      among the properties, the latitude is the second number. */
  lemma {:induction false} GeometryOrder(item: map<string, Json>, props: map<string, Json>, x: real, y: real,
                      parseFloat: string -> Option<real>)
    requires forall k :: k in LatKeys + LonKeys ==> k !in props
    requires Get(item, "geometry") == JObj(map["coordinates" := JArr([JNum(x), JNum(y)])])
    ensures Position(JObj(item), props, parseFloat) == (Some(y), Some(x))
  {
    forall k | k in LatKeys ensures k !in props { assert k in LatKeys + LonKeys; }
    forall k | k in LonKeys ensures k !in props { assert k in LatKeys + LonKeys; }
    AbsentKeysNull(props, LatKeys);
    AbsentKeysNull(props, LonKeys);
  }

  /** A chain of `get`s over keys none of which is present gives None. */
  lemma {:induction false} AbsentKeysNull(props: map<string, Json>, keys: seq<string>)
    requires keys != [] && forall k :: k in keys ==> k !in props
    ensures Or(Lookups(props, keys)) == JNull
  {
    var vs := Lookups(props, keys);
    forall i | 0 <= i < |vs| ensures vs[i] == JNull { assert keys[i] in keys; }
  }

  /** A latitude of 0 under `latitude` is falsy, so `or` moves on to the other
      keys and, with none of them present, the latitude reads as missing. */
  lemma {:induction false} ZeroLatitudeReadsAsMissing(x: real, parseFloat: string -> Option<real>)
    requires x != 0.0
    ensures var props := map["latitude" := JNum(0.0), "longitude" := JNum(x)];
      Position(JObj(map["properties" := JObj(props)]), props, parseFloat) == (None, Some(x))
  {
    var props := map["latitude" := JNum(0.0), "longitude" := JNum(x)];
    assert Or(Lookups(props, LatKeys)) == JNull;
    assert Lookups(props, LonKeys)[0] == JNum(x);
    assert Or(Lookups(props, LonKeys)) == JNum(x);
  }

  /** Every record of `s` has rank at least `k`. */
  predicate RanksFrom(s: seq<StationRecord>, codes: seq<string>, k: int) {
    forall j :: 0 <= j < |s| ==> k <= Rank(codes, s[j].icao)
  }

  /** Inserting a record of rank at least `k` among such records keeps the bound. */
  lemma {:induction false} InsertRanksFrom(x: StationRecord, t: seq<StationRecord>, codes: seq<string>, k: int)
    requires k <= Rank(codes, x.icao) && RanksFrom(t, codes, k)
    ensures RanksFrom(InsertByRank(x, t, codes), codes, k)
  {
    if t != [] && Rank(codes, x.icao) > Rank(codes, t[0].icao) {
      assert RanksFrom(t[1..], codes, k) by {
        forall j | 0 <= j < |t[1..]| ensures k <= Rank(codes, t[1..][j].icao) {
          assert t[1..][j] == t[j + 1];
        }
      }
      InsertRanksFrom(x, t[1..], codes, k);
      var r := InsertByRank(x, t, codes);
      var r' := InsertByRank(x, t[1..], codes);
      assert r == [t[0]] + r';
      forall j | 0 <= j < |r| ensures k <= Rank(codes, r[j].icao) {
        if j > 0 {
          assert r[j] == r'[j - 1];
        }
      }
    }
  }

  /** Inserting adds the record and loses none. */
  lemma {:induction false} InsertPermutes(x: StationRecord, t: seq<StationRecord>, codes: seq<string>)
    ensures multiset(InsertByRank(x, t, codes)) == multiset(t) + multiset{x}
  {
    if t != [] && Rank(codes, x.icao) > Rank(codes, t[0].icao) {
      InsertPermutes(x, t[1..], codes);
      assert t == [t[0]] + t[1..];
    }
  }

  /** Sorting rearranges the records and does nothing else. */
  lemma {:induction false} SortPermutes(s: seq<StationRecord>, codes: seq<string>)
    ensures multiset(SortByRequest(s, codes)) == multiset(s)
  {
    if s != [] {
      SortPermutes(s[1..], codes);
      InsertPermutes(s[0], SortByRequest(s[1..], codes), codes);
      assert s == [s[0]] + s[1..];
    }
  }

  /** A record put in front of sorted records of no smaller rank keeps them sorted. */
  lemma {:induction false} ConsSorted(y: StationRecord, t: seq<StationRecord>, codes: seq<string>)
    requires SortedByRank(t, codes) && RanksFrom(t, codes, Rank(codes, y.icao))
    ensures SortedByRank([y] + t, codes)
  {
    var r := [y] + t;
    forall i, j | 0 <= i < j < |r| ensures Rank(codes, r[i].icao) <= Rank(codes, r[j].icao) {
      assert r[j] == t[j - 1];
      if i > 0 {
        assert r[i] == t[i - 1];
      }
    }
  }

  /** The tail of sorted records is sorted, and no record in it ranks below the head. */
  lemma {:induction false} TailSorted(t: seq<StationRecord>, codes: seq<string>)
    requires SortedByRank(t, codes) && t != []
    ensures SortedByRank(t[1..], codes) && RanksFrom(t[1..], codes, Rank(codes, t[0].icao))
  {
    var rest := t[1..];
    forall i, j | 0 <= i < j < |rest| ensures Rank(codes, rest[i].icao) <= Rank(codes, rest[j].icao) {
      assert rest[i] == t[i + 1] && rest[j] == t[j + 1];
    }
    forall j | 0 <= j < |rest| ensures Rank(codes, t[0].icao) <= Rank(codes, rest[j].icao) {
      assert rest[j] == t[j + 1];
    }
  }

  /** `SortByRequest` orders by rank. */
  lemma {:induction false} InsertSorted(x: StationRecord, t: seq<StationRecord>, codes: seq<string>)
    requires SortedByRank(t, codes)
    ensures SortedByRank(InsertByRank(x, t, codes), codes)
  {
    if t == [] || Rank(codes, x.icao) <= Rank(codes, t[0].icao) {
      if t != [] {
        TailSorted(t, codes);
        forall j | 0 <= j < |t| ensures Rank(codes, x.icao) <= Rank(codes, t[j].icao) {
          if j > 0 {
            assert t[j] == t[1..][j - 1];
          }
        }
      }
      ConsSorted(x, t, codes);
    } else {
      TailSorted(t, codes);
      InsertSorted(x, t[1..], codes);
      InsertRanksFrom(x, t[1..], codes, Rank(codes, t[0].icao));
      ConsSorted(t[0], InsertByRank(x, t[1..], codes), codes);
    }
  }

  lemma {:induction false} SortSorted(s: seq<StationRecord>, codes: seq<string>)
    ensures SortedByRank(SortByRequest(s, codes), codes)
  {
    if s != [] {
      SortSorted(s[1..], codes);
      InsertSorted(s[0], SortByRequest(s[1..], codes), codes);
    }
  }

  /** The records of rank `k`, in order. */
  function WithRank(s: seq<StationRecord>, codes: seq<string>, k: int): seq<StationRecord> {
    if s == [] then []
    else (if Rank(codes, s[0].icao) == k then [s[0]] else []) + WithRank(s[1..], codes, k)
  }

  lemma {:induction false} InsertStable(x: StationRecord, t: seq<StationRecord>, codes: seq<string>, k: int)
    ensures WithRank(InsertByRank(x, t, codes), codes, k)
      == (if Rank(codes, x.icao) == k then [x] else []) + WithRank(t, codes, k)
  {
    var r := InsertByRank(x, t, codes);
    var keepX := if Rank(codes, x.icao) == k then [x] else [];
    if t == [] || Rank(codes, x.icao) <= Rank(codes, t[0].icao) {
      assert r == [x] + t;
      assert r[0] == x && r[1..] == t;
    } else {
      var r' := InsertByRank(x, t[1..], codes);
      InsertStable(x, t[1..], codes, k);
      assert r == [t[0]] + r';
      assert r[0] == t[0] && r[1..] == r';
      var keepT := if Rank(codes, t[0].icao) == k then [t[0]] else [];
      assert WithRank(r, codes, k) == keepT + (keepX + WithRank(t[1..], codes, k));
      assert keepX == [] || keepT == [];
      assert keepT + keepX == keepX + keepT;
      assert WithRank(t, codes, k) == keepT + WithRank(t[1..], codes, k);
    }
  }

  /** The sort is stable: the records of each rank keep their order. */
  lemma {:induction false} SortStable(s: seq<StationRecord>, codes: seq<string>, k: int)
    ensures WithRank(SortByRequest(s, codes), codes, k) == WithRank(s, codes, k)
  {
    if s != [] {
      SortStable(s[1..], codes, k);
      InsertStable(s[0], SortByRequest(s[1..], codes), codes, k);
    }
  }

  /** The rank of a station is the last position of its code in the request. */
  lemma {:induction false} RankMeaning(codes: seq<string>, icao: string)
    ensures icao in codes ==>
      (0 <= Rank(codes, icao) < |codes| && codes[Rank(codes, icao)] == icao
       && forall j :: Rank(codes, icao) < j < |codes| ==> codes[j] != icao)
    ensures icao !in codes ==> Rank(codes, icao) == Unrequested
  {
  }

  /** Requested stations come before stations the request did not name, as
      long as the request has no more than `1e9` codes. */
  lemma {:induction false} RequestedFirst(s: seq<StationRecord>, codes: seq<string>)
    requires SortedByRank(s, codes) && |codes| <= Unrequested
    ensures forall i, j :: 0 <= i < |s| && 0 <= j < |s| && s[i].icao in codes && s[j].icao !in codes ==> i < j
  {
    forall i, j | 0 <= i < |s| && 0 <= j < |s| && s[i].icao in codes && s[j].icao !in codes
      ensures i < j
    {
      RankMeaning(codes, s[i].icao);
      RankMeaning(codes, s[j].icao);
    }
  }

  /** When the handler's `try` fails, the list has one placeholder per
      requested code, in request order, repetitions included. */
  lemma {:induction false} CoordsOnFailure(icaoCodes: seq<string>, resp: Response, geocode: string -> Response,
                        parseFloat: string -> Option<real>)
    requires Raw(resp, parseFloat).Raised?
    ensures var r := StationCoords(icaoCodes, resp, geocode, parseFloat);
      Ids(r) == Icao.CleanCodes(icaoCodes)
      && forall rec :: rec in r ==> rec.name == JStr("") && rec.lat.None? && rec.lon.None?
  {
  }

  /** On an answered request the list holds each station the payload names
      once, at its geocoded first mention, sorted by the request order, stably. */
  lemma {:induction false} CoordsOnAnswer(icaoCodes: seq<string>, resp: Response, geocode: string -> Response,
                       parseFloat: string -> Option<real>)
    requires Raw(resp, parseFloat).Ok? && Icao.CleanCodes(icaoCodes) != []
    ensures var r := StationCoords(icaoCodes, resp, geocode, parseFloat);
      var codes := Icao.CleanCodes(icaoCodes);
      var recs := LocateAll(Raw(resp, parseFloat).value, geocode, parseFloat);
      && multiset(r) == multiset(recs)
      && SortedByRank(r, codes)
      && (forall k :: WithRank(r, codes, k) == WithRank(recs, codes, k))
      && Distinct(Ids(r))
  {
    var codes := Icao.CleanCodes(icaoCodes);
    var raw := Raw(resp, parseFloat).value;
    var recs := LocateAll(raw, geocode, parseFloat);
    var r := SortByRequest(recs, codes);
    SortPermutes(recs, codes);
    SortSorted(recs, codes);
    forall k ensures WithRank(r, codes, k) == WithRank(recs, codes, k) {
      SortStable(recs, codes, k);
    }
    var data := Payload(resp.body.value, "stations").value;
    CollectEachStationOnce(ListItems(data), parseFloat);
    assert Ids(recs) == Ids(raw);
    PermutationKeepsDistinct(recs, r);
  }

  /** Reordering records keeps their ids distinct. */
  lemma {:induction false} PermutationKeepsDistinct(a: seq<StationRecord>, b: seq<StationRecord>)
    requires multiset(a) == multiset(b) && Distinct(Ids(a))
    ensures Distinct(Ids(b))
  {
    forall i, j | 0 <= i < j < |b| ensures Ids(b)[i] != Ids(b)[j] {
      if b[i].icao == b[j].icao {
        assert b[i] in multiset(a) && b[j] in multiset(a);
        var i' :| 0 <= i' < |a| && a[i'] == b[i];
        var j' :| 0 <= j' < |a| && a[j'] == b[j];
        DistinctCount(a, i');
        CountTwo(b, i, j);
        assert false;
      }
    }
  }

  /** A record whose id occurs once in `Ids(a)` occurs once in `a`. */
  lemma {:induction false} DistinctCount(a: seq<StationRecord>, i: int)
    requires Distinct(Ids(a)) && 0 <= i < |a|
    ensures multiset(a)[a[i]] == 1
  {
    assert a == a[..i] + [a[i]] + a[i + 1..];
    assert a[i] !in a[..i] by {
      forall m | 0 <= m < i ensures a[m] != a[i] {
        assert Ids(a)[m] != Ids(a)[i];
      }
    }
    assert a[i] !in a[i + 1..] by {
      forall m | i < m < |a| ensures a[m] != a[i] {
        assert Ids(a)[i] != Ids(a)[m];
      }
    }
  }

  /** Two equal elements at two positions count twice. */
  lemma {:induction false} CountTwo(b: seq<StationRecord>, i: int, j: int)
    requires 0 <= i < j < |b| && b[i] == b[j]
    ensures multiset(b)[b[i]] >= 2
  {
    assert b == b[..j] + [b[j]] + b[j + 1..];
    assert b[..j][i] == b[i];
  }
  /** A list of dicts without a `properties` key yields no records. */
  lemma {:induction false} FlatRecordsCollectNothing(items: seq<Json>, seen: set<string>, parseFloat: string -> Option<real>)
    requires forall i :: 0 <= i < |items| ==> items[i].JObj? && "properties" !in items[i].fields
    ensures Collect(items, seen, parseFloat) == Ok([])
  {
    if items != [] {
      assert ItemEntry(items[0]) == Ok(Skip);
      FlatRecordsCollectNothing(items[1..], seen, parseFloat);
    }
  }

  /** A 200 reply whose `stations.data` lists flat station records gives an
      empty list: not even the placeholders a failed request would give. */
  lemma {:induction false} FlatStationsLocateNothing(icaoCodes: seq<string>, records: seq<Json>,
                                                     geocode: string -> Response, parseFloat: string -> Option<real>)
    requires records != []
    requires forall i :: 0 <= i < |records| ==> records[i].JObj? && "properties" !in records[i].fields
    ensures var resp := Reply(200, Some(JObj(map["stations" := JObj(map["data" := JArr(records)])])));
      StationCoords(icaoCodes, resp, geocode, parseFloat) == []
  {
    FlatPayload(records);
    FlatRecordsCollectNothing(records, {}, parseFloat);
  }
}
