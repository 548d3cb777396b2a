/**
 * The station-name directory (`fetch_station_info`): what the handler makes
 * of the data server's station reply, a dict from station id to display name
 * that always holds every requested code.
 */
module StationNames {
  import opened Strings
  import opened JsonValues
  import opened Dicts
  import Icao

  const IdKeys: seq<string> := ["station_id", "icao_site", "icao_code"]
  const NameKeys: seq<string> := ["site", "station_name", "name"]

  /** `(p.get('station_id') or p.get('icao_site') or p.get('icao_code') or "").upper()`:
      Raised when the first truthy candidate is not a string, since `.upper()` then fails. */
  function StationId(props: map<string, Json>): (r: Result<string>)
    ensures Truthy(Get(props, "station_id")) && Get(props, "station_id").JStr?
      ==> r == Ok(Upper(props["station_id"].s))
    ensures Truthy(Get(props, "station_id")) && !Get(props, "station_id").JStr? ==> r == Raised
    ensures (forall k :: k in IdKeys ==> !Truthy(Get(props, k))) ==> r == Ok("")
    ensures forall i ::
      (0 <= i < |IdKeys| && Truthy(Get(props, IdKeys[i])) && (forall j :: 0 <= j < i ==> !Truthy(Get(props, IdKeys[j]))))
      ==> r == (if Get(props, IdKeys[i]).JStr? then Ok(Upper(Get(props, IdKeys[i]).s)) else Raised)
  {
    var vs := Lookups(props, IdKeys) + [JStr("")];
    assert forall i :: 0 <= i < |IdKeys| ==> vs[i] == Get(props, IdKeys[i]);
    var v := Or(vs);
    if v.JStr? then Ok(Upper(v.s)) else Raised
  }

  /** `p.get('site') or p.get('station_name') or p.get('name') or ""` */
  function StationName(props: map<string, Json>): (r: Json)
    ensures Truthy(r) || r == JStr("")
    ensures Truthy(Get(props, "site")) ==> r == props["site"]
    ensures (forall k :: k in NameKeys ==> !Truthy(Get(props, k))) ==> r == JStr("")
    ensures forall i ::
      (0 <= i < |NameKeys| && Truthy(Get(props, NameKeys[i])) && (forall j :: 0 <= j < i ==> !Truthy(Get(props, NameKeys[j]))))
      ==> r == Get(props, NameKeys[i])
  {
    var vs := Lookups(props, NameKeys) + [JStr("")];
    assert forall i :: 0 <= i < |NameKeys| ==> vs[i] == Get(props, NameKeys[i]);
    Or(vs)
  }

  /** What one item of the payload does to the directory. */
  datatype Entry = Skip | Named(icao: string, name: Json)

  /** One turn of the loop: items whose properties are not an object, or whose
      id is empty, are skipped. */
  function ItemEntry(item: Json): (r: Result<Entry>)
    ensures r.Ok? && r.value.Named? ==> r.value.icao != ""
  {
    var props := ItemProps(item);
    if !props.JObj? then Ok(Skip)
    else match StationId(props.fields)
      case Raised => Raised
      case Ok(icao) => if icao == "" then Ok(Skip) else Ok(Named(icao, StationName(props.fields)))
  }

  /** The ids the payload names, in payload order, repetitions included. */
  function MentionIds(items: seq<Json>): seq<string> {
    if items == [] then []
    else
      var e := ItemEntry(items[0]);
      (if e.Ok? && e.value.Named? then [e.value.icao] else []) + MentionIds(items[1..])
  }

  /** The name the last item naming `k` carries. */
  function LastName(items: seq<Json>, k: string): Json
    requires k in MentionIds(items)
  {
    var e := ItemEntry(items[0]);
    if k in MentionIds(items[1..]) then LastName(items[1..], k) else e.value.name
  }

  /** The loop over the items, `out[icao] = name` for each named one; Raised
      when one of them makes the loop raise. */
  function Fill(items: seq<Json>, out: Dict): (r: Result<Dict>)
    requires Valid(out)
    ensures r.Ok? ==> Valid(r.value)
  {
    if items == [] then Ok(out)
    else match ItemEntry(items[0])
      case Raised => Raised
      case Ok(Skip) => Fill(items[1..], out)
      case Ok(Named(k, v)) => Fill(items[1..], Set(out, k, v))
  }

  /** `for c in codes: out.setdefault(c, "")` */
  function Defaults(codes: seq<string>, out: Dict): (r: Dict)
    requires Valid(out)
    ensures Valid(r)
  {
    if codes == [] then out else Defaults(codes[1..], SetDefault(out, codes[0], JStr("")))
  }

  /** `{c: "" for c in codes}`, the reply to any failure. */
  function Blank(codes: seq<string>): Dict {
    FromKeys(codes, JStr(""))
  }

  /** The dict `fetch_station_info(icao_codes)` returns for the reply `resp`. */
  function StationInfo(icaoCodes: seq<string>, resp: Response): (r: Dict)
    ensures Valid(r)
    ensures Icao.CleanCodes(icaoCodes) == [] ==> r == Empty
  {
    var codes := Icao.CleanCodes(icaoCodes);
    if codes == [] then Empty
    else if resp.TransportError? || resp.status != 200 || resp.body.None? then Blank(codes)
    else match Payload(resp.body.value, "stations")
      case Raised => Blank(codes)
      case Ok(data) =>
        match Fill(ListItems(data), Empty)
        case Raised => Blank(codes)
        case Ok(out) => Defaults(codes, out)
  }

  /** `fetch_station_info`, step by step as the handler runs it. */
  method FetchStationInfo(icaoCodes: seq<string>, resp: Response) returns (out: Dict)
    ensures out == StationInfo(icaoCodes, resp)
  {
    if icaoCodes == [] {
      return Empty;
    }
    var codes := Icao.CleanCodes(icaoCodes);
    if codes == [] {
      return Empty;
    }
    if resp.TransportError? || resp.status != 200 || resp.body.None? {
      return Blank(codes);
    }
    var data := Payload(resp.body.value, "stations");
    if data.Raised? {
      return Blank(codes);
    }
    var filled := FillLoop(ListItems(data.value));
    if filled.Raised? {
      return Blank(codes);
    }
    out := DefaultsLoop(codes, filled.value);
  }

  /** The loop over the payload items, from an empty dict. */
  method FillLoop(items: seq<Json>) returns (r: Result<Dict>)
    ensures r == Fill(items, Empty)
  {
    var out := Empty;
    var i := 0;
    while i < |items|
      invariant 0 <= i <= |items|
      invariant Valid(out)
      invariant Fill(items, Empty) == Fill(items[i..], out)
    {
      FillStep(items[i..], out);
      assert items[i..][0] == items[i] && items[i..][1..] == items[i + 1..];
      var e := ItemEntry(items[i]);
      if e.Raised? {
        return Raised;
      }
      if e.value.Named? {
        out := Set(out, e.value.icao, e.value.name);
      }
      i := i + 1;
    }
    assert items[i..] == [];
    return Ok(out);
  }

  /** The `setdefault` loop over the requested codes. */
  method DefaultsLoop(codes: seq<string>, filled: Dict) returns (out: Dict)
    requires Valid(filled)
    ensures out == Defaults(codes, filled)
  {
    out := filled;
    var j := 0;
    while j < |codes|
      invariant 0 <= j <= |codes|
      invariant Valid(out)
      invariant Defaults(codes, filled) == Defaults(codes[j..], out)
    {
      DefaultsStep(codes[j..], out);
      assert codes[j..][0] == codes[j] && codes[j..][1..] == codes[j + 1..];
      out := SetDefault(out, codes[j], JStr(""));
      j := j + 1;
    }
    assert codes[j..] == [];
  }

  /** One turn of the loop over the items. */
  lemma {:induction false} FillStep(items: seq<Json>, out: Dict)
    requires Valid(out) && items != []
    ensures ItemEntry(items[0]).Raised? ==> Fill(items, out).Raised?
    ensures ItemEntry(items[0]) == Ok(Skip) ==> Fill(items, out) == Fill(items[1..], out)
    ensures ItemEntry(items[0]).Ok? && ItemEntry(items[0]).value.Named? ==>
      Fill(items, out) == Fill(items[1..], Set(out, ItemEntry(items[0]).value.icao, ItemEntry(items[0]).value.name))
  {
  }

  /** One turn of the `setdefault` loop. */
  lemma {:induction false} DefaultsStep(codes: seq<string>, out: Dict)
    requires Valid(out) && codes != []
    ensures Defaults(codes, out) == Defaults(codes[1..], SetDefault(out, codes[0], JStr("")))
  {
  }

  // ---------------------------------------------------------------------
  // Lemmas

  /** After the loop the keys are the ids in first-mention order, after
      the keys already there. */
  lemma {:induction false} FillKeys(items: seq<Json>, d: Dict)
    requires Valid(d) && Fill(items, d).Ok?
    ensures Fill(items, d).value.keys == Dedup(d.keys + MentionIds(items))
  {
    if items == [] {
      assert d.keys + MentionIds(items) == d.keys;
      DedupOfDistinct(d.keys);
    } else {
      var rest := items[1..];
      match ItemEntry(items[0])
      case Ok(Skip) =>
        FillKeys(rest, d);
        assert MentionIds(items) == MentionIds(rest);
      case Ok(Named(k, v)) =>
        FillKeys(rest, Set(d, k, v));
        DedupStep(d.keys, k, MentionIds(rest));
    }
  }

  /** After the loop each id holds the name of its last mention, and every
      other key keeps its value. */
  lemma {:induction false} FillValues(items: seq<Json>, d: Dict)
    requires Valid(d) && Fill(items, d).Ok?
    ensures var out := Fill(items, d).value;
      && (forall k :: k in out.vals <==> k in d.vals || k in MentionIds(items))
      && (forall k :: k in MentionIds(items) ==> out.vals[k] == LastName(items, k))
      && (forall k :: k in d.vals && k !in MentionIds(items) ==> out.vals[k] == d.vals[k])
  {
    if items != [] {
      var rest := items[1..];
      match ItemEntry(items[0])
      case Ok(Skip) =>
        FillValues(rest, d);
      case Ok(Named(k, v)) =>
        FillValues(rest, Set(d, k, v));
    }
  }

  /** After the `setdefault` loop the requested codes follow the existing keys. */
  lemma {:induction false} DefaultsKeys(codes: seq<string>, d: Dict)
    requires Valid(d)
    ensures Defaults(codes, d).keys == Dedup(d.keys + codes)
  {
    if codes == [] {
      assert d.keys + codes == d.keys;
      DedupOfDistinct(d.keys);
    } else {
      var d' := SetDefault(d, codes[0], JStr(""));
      DefaultsStep(codes, d);
      DefaultsKeys(codes[1..], d');
      DedupCons(d.keys, codes);
    }
  }

  /** After the `setdefault` loop only the codes that were missing hold "". */
  lemma {:induction false} DefaultsValues(codes: seq<string>, d: Dict)
    requires Valid(d)
    ensures var out := Defaults(codes, d);
      && (forall k :: k in out.vals <==> k in d.vals || k in codes)
      && (forall k :: k in d.vals ==> out.vals[k] == d.vals[k])
      && (forall k :: k in codes && k !in d.vals ==> out.vals[k] == JStr(""))
  {
    if codes != [] {
      var c, rest := codes[0], codes[1..];
      var d' := SetDefault(d, c, JStr(""));
      DefaultsStep(codes, d);
      DefaultsValues(rest, d');
      var out := Defaults(rest, d');
      assert codes == [c] + rest;
      forall k ensures k in out.vals <==> k in d.vals || k in codes {
        assert k in codes <==> k == c || k in rest;
      }
      forall k | k in d.vals ensures out.vals[k] == d.vals[k] {
        assert d'.vals[k] == d.vals[k];
      }
      forall k | k in codes && k !in d.vals ensures out.vals[k] == JStr("") {
        if k == c { assert d'.vals[k] == JStr(""); } else { assert k in rest; }
      }
    }
  }

  /** The reply the handler could read: the payload items, or None when the
      request raised, the status was not 200, or the payload was malformed. */
  function Answer(resp: Response): Option<seq<Json>> {
    if resp.TransportError? || resp.status != 200 || resp.body.None? then None
    else match Payload(resp.body.value, "stations")
      case Raised => None
      case Ok(data) => if Fill(ListItems(data), Empty).Raised? then None else Some(ListItems(data))
  }

  /** Every requested code, stripped and upper-cased, is a key of the dict. */
  lemma {:induction false} StationInfoCoversRequest(icaoCodes: seq<string>, resp: Response)
    ensures forall c :: c in Icao.CleanCodes(icaoCodes) ==> c in StationInfo(icaoCodes, resp).vals
  {
    var codes := Icao.CleanCodes(icaoCodes);
    var a := Answer(resp);
    if codes != [] && a.Some? {
      DefaultsValues(codes, Fill(a.value, Empty).value);
    }
  }

  /** On a failed request, exactly the requested codes are keys, in request
      order, and each maps to "". */
  lemma {:induction false} StationInfoOnFailure(icaoCodes: seq<string>, resp: Response)
    requires Answer(resp).None?
    ensures var r := StationInfo(icaoCodes, resp); var codes := Icao.CleanCodes(icaoCodes);
      && r.keys == Dedup(codes)
      && (forall k :: k in r.vals <==> k in codes)
      && (forall k :: k in r.vals ==> r.vals[k] == JStr(""))
  {
  }

  /** On an answered request the dict lists the answered ids in order of first
      mention, then the requested codes nobody answered; an answered id maps
      to the name of its last mention, an unanswered code to "". */
  lemma {:induction false} StationInfoOnAnswer(icaoCodes: seq<string>, resp: Response)
    requires Answer(resp).Some? && Icao.CleanCodes(icaoCodes) != []
    ensures var r := StationInfo(icaoCodes, resp); var codes := Icao.CleanCodes(icaoCodes);
      var ids := MentionIds(Answer(resp).value);
      && r.keys == Dedup(ids + codes)
      && (forall k :: k in r.vals <==> k in ids || k in codes)
      && (forall k :: k in ids ==> r.vals[k] == LastName(Answer(resp).value, k))
      && (forall k :: k in codes && k !in ids ==> r.vals[k] == JStr(""))
  {
    var items := Answer(resp).value;
    var codes := Icao.CleanCodes(icaoCodes);
    FillKeys(items, Empty);
    FillValues(items, Empty);
    var out := Fill(items, Empty).value;
    assert Empty.keys + MentionIds(items) == MentionIds(items);
    DefaultsKeys(codes, out);
    DefaultsValues(codes, out);
    DedupAppend(MentionIds(items), codes);
  }
  /** An item that is a dict without a `properties` key reads as null
      properties and is skipped, so a list of such items names nothing. */
  lemma {:induction false} FlatRecordsSkipped(items: seq<Json>, out: Dict)
    requires Valid(out)
    requires forall i :: 0 <= i < |items| ==> items[i].JObj? && "properties" !in items[i].fields
    ensures Fill(items, out) == Ok(out)
  {
    if items != [] {
      assert ItemEntry(items[0]) == Ok(Skip);
      FlatRecordsSkipped(items[1..], out);
    }
  }

  /** A 200 reply whose `stations.data` lists flat station records (the
      station fields at the top level of each record, as the documented
      payload has them) gives every requested code an empty name. */
  lemma {:induction false} FlatStationsNameNothing(icaoCodes: seq<string>, records: seq<Json>)
    requires records != []
    requires forall i :: 0 <= i < |records| ==> records[i].JObj? && "properties" !in records[i].fields
    ensures var resp := Reply(200, Some(JObj(map["stations" := JObj(map["data" := JArr(records)])])));
      StationInfo(icaoCodes, resp) == Defaults(Icao.CleanCodes(icaoCodes), Empty)
  {
    FlatPayload(records);
    FlatRecordsSkipped(records, Empty);
  }

  /** The records are the payload's list of items. */
  lemma {:induction false} FlatPayload(records: seq<Json>)
    requires records != []
    ensures Payload(JObj(map["stations" := JObj(map["data" := JArr(records)])]), "stations") == Ok(JArr(records))
  {
    var body := JObj(map["stations" := JObj(map["data" := JArr(records)])]);
    assert "features" !in body.fields;
    assert Truthy(JArr(records));
  }
}
