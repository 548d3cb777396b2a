/**
 * The weather bundle handed to the summariser: the METAR and TAF texts, the
 * labelled blocks assembled from them and the hazard text, the check that
 * refuses a briefing when every source came back empty, and the airport
 * directory listed in the prompt.
 */
module Briefing {
  import opened Strings
  import opened JsonValues
  import opened Dicts
  import Icao
  import StationNames

  /** The reply of a plain-text endpoint: the request raised, or a status and a body. */
  datatype TextResponse = TextFailed | TextReply(status: int, text: string)

  /** The `ids` query parameter: the codes joined by commas. */
  function IdsParam(codes: seq<string>): string {
    Join(",", codes)
  }

  /** `fetch_metars` / `fetch_tafs` after the request: the stripped body of a
      200 reply, and "" for no codes, a failed request or another status. */
  function Observations(icaoCodes: seq<string>, resp: TextResponse): (r: string)
    ensures Icao.CleanCodes(icaoCodes) == [] ==> r == ""
    ensures resp.TextFailed? || resp.status != 200 ==> r == ""
    ensures Icao.CleanCodes(icaoCodes) != [] && resp.TextReply? && resp.status == 200 ==> r == Strip(resp.text)
    ensures r == [] || (!IsSpace(r[0]) && !IsSpace(r[|r| - 1]))
  {
    if Icao.CleanCodes(icaoCodes) == [] then ""
    else if resp.TextFailed? || resp.status != 200 then ""
    else Strip(resp.text)
  }

  const MetarHeading: string := "METARs:\n"
  const TafHeading: string := "TAFs:\n"
  const HazardHeading: string := "Hazards(if any):\n"

  /** One labelled block: its heading, its text, a blank line; nothing for an empty text. */
  function Block(heading: string, text: string): (r: string)
    ensures text == "" ==> r == ""
    ensures text != "" ==>
      (|r| == |heading| + |text| + 2 && r[..|heading|] == heading
       && r[|heading|..|heading| + |text|] == text && r[|heading| + |text|..] == "\n\n")
  {
    if text == "" then "" else heading + text + "\n\n"
  }

  /** The combined weather text for the three sources. */
  function Bundle(metars: string, tafs: string, hazards: string): string {
    Block(MetarHeading, metars) + Block(TafHeading, tafs) + Block(HazardHeading, hazards)
  }

  /** The assembly by repeated `+=`, as the handlers write it. */
  method CombinedText(metars: string, tafs: string, hazards: string) returns (combined: string)
    ensures combined == Bundle(metars, tafs, hazards)
  {
    combined := "";
    if metars != "" {
      combined := combined + (MetarHeading + metars + "\n\n");
    }
    assert combined == Block(MetarHeading, metars);
    if tafs != "" {
      combined := combined + (TafHeading + tafs + "\n\n");
    }
    assert combined == Block(MetarHeading, metars) + Block(TafHeading, tafs);
    if hazards != "" {
      combined := combined + (HazardHeading + hazards + "\n\n");
    }
  }

  /** The condition under which `/summarize` answers 502 instead of a briefing. */
  predicate AllSourcesEmpty(metars: string, tafs: string, hazards: string) {
    metars == "" && tafs == "" && hazards == ""
  }

  // ---------------------------------------------------------------------
  // Lemmas

  /** The 502 check refuses exactly the bundles that would be empty, and a
      bundle that passes it is not blank after `strip()` either. */
  lemma {:induction false} RefusedIffBundleEmpty(metars: string, tafs: string, hazards: string)
    ensures AllSourcesEmpty(metars, tafs, hazards) <==> Bundle(metars, tafs, hazards) == ""
    ensures !AllSourcesEmpty(metars, tafs, hazards) ==> Strip(Bundle(metars, tafs, hazards)) != ""
  {
    var b := Bundle(metars, tafs, hazards);
    if !AllSourcesEmpty(metars, tafs, hazards) {
      assert b != "" && !IsSpace(b[0]);
    }
  }

  /** The bundle opens with the block of the first non-empty source, in the
      fixed order METARs, TAFs, Hazards. */
  lemma {:induction false} BundleOpensWithFirstSource(metars: string, tafs: string, hazards: string)
    ensures metars != "" ==> Bundle(metars, tafs, hazards)[..|MetarHeading| + |metars| + 2] == Block(MetarHeading, metars)
    ensures metars == "" && tafs != "" ==> Bundle(metars, tafs, hazards)[..|TafHeading| + |tafs| + 2] == Block(TafHeading, tafs)
    ensures metars == "" && tafs == "" ==> Bundle(metars, tafs, hazards) == Block(HazardHeading, hazards)
  {
  }

  /** Each heading is there exactly when its source is: the blocks of the
      non-empty sources follow one another in the fixed order, each heading
      followed by its text and a blank line. */
  lemma {:induction false} BundleLayout(metars: string, tafs: string, hazards: string)
    ensures var b := Bundle(metars, tafs, hazards);
      var m := |Block(MetarHeading, metars)|;
      var t := |Block(TafHeading, tafs)|;
      && |b| == m + t + |Block(HazardHeading, hazards)|
      && b[..m] == Block(MetarHeading, metars)
      && b[m..m + t] == Block(TafHeading, tafs)
      && b[m + t..] == Block(HazardHeading, hazards)
      && (metars != "" <==> m > 0)
      && (tafs != "" <==> t > 0)
      && (hazards != "" <==> |b| > m + t)
  {
  }

  /** The request names every code: when no requested code holds a comma,
      the cleaning keeps it that way, and splitting the `ids` parameter built
      from the cleaned codes at commas gives those codes back. */
  lemma {:induction false} IdsParamRoundTrip(icaoCodes: seq<string>)
    requires forall c :: c in icaoCodes ==> ',' !in c
    ensures var codes := Icao.CleanCodes(icaoCodes);
      codes != [] ==> Split(IdsParam(codes), ',') == codes
  {
    var codes := Icao.CleanCodes(icaoCodes);
    Icao.CleanCodesKeep(icaoCodes, ',');
    if codes != [] {
      SplitJoin(codes, ',');
    }
  }

  /** Codes from the comma-separated form of the request hold no comma, so
      the `ids` parameter built from them names each of them. */
  lemma {:induction false} CommaCodesRoundTrip(raw: string)
    ensures var codes := Icao.CleanCodes(Icao.CommaCodes(raw));
      codes != [] ==> Split(IdsParam(codes), ',') == codes
  {
    IdsParamRoundTrip(Icao.CommaCodes(raw));
  }

  /** Python's `str(v)` inside an f-string; `show` renders values other than text. */
  function Text(v: Json, show: Json -> string): string {
    if v.JStr? then v.s else show(v)
  }

  /** `f"{k}: {v}" if v else f"{k}:"` */
  function DirectoryLine(k: string, v: Json, show: Json -> string): (r: string)
    ensures |r| > |k| && r[..|k| + 1] == k + ":"
    ensures !Truthy(v) <==> r == k + ":"
    ensures Truthy(v) ==> r == k + ": " + Text(v, show)
  {
    if Truthy(v) then k + ": " + Text(v, show) else k + ":"
  }

  /** The lines of the directory, one per entry of `stations.items()`. */
  function DirectoryLines(stations: Dict, show: Json -> string): (r: seq<string>)
    requires Valid(stations)
    ensures |r| == |stations.keys|
    ensures forall i :: 0 <= i < |r| ==>
      r[i] == DirectoryLine(stations.keys[i], stations.vals[stations.keys[i]], show)
  {
    seq(|stations.keys|, i requires 0 <= i < |stations.keys| =>
      DirectoryLine(Items(stations)[i].0, Items(stations)[i].1, show))
  }

  /** The airport directory of the prompt. */
  function Directory(stations: Dict, show: Json -> string): string
    requires Valid(stations)
  {
    Join("\n", DirectoryLines(stations, show))
  }

  /** One line per station: when no name or key holds a newline, splitting
      the directory at newlines gives the lines back, in dict order. */
  lemma {:induction false} DirectoryHasOneLinePerStation(stations: Dict, show: Json -> string)
    requires Valid(stations) && stations.keys != []
    requires forall k :: k in stations.keys ==> '\n' !in k
    requires forall k :: k in stations.keys && Truthy(stations.vals[k]) ==> '\n' !in Text(stations.vals[k], show)
    ensures Split(Directory(stations, show), '\n') == DirectoryLines(stations, show)
  {
    var lines := DirectoryLines(stations, show);
    forall l | l in lines ensures '\n' !in l {
      var i :| 0 <= i < |lines| && lines[i] == l;
      var k := stations.keys[i];
      assert k in stations.keys;
      assert l == k + ":" || l == k + ": " + Text(stations.vals[k], show);
    }
    SplitJoin(lines, '\n');
  }

  /** When the station request fails, the directory lists every requested
      code once, in request order, with no name. */
  lemma {:induction false} FailedDirectory(icaoCodes: seq<string>, resp: Response, show: Json -> string)
    requires StationNames.Answer(resp).None?
    ensures var stations := StationNames.StationInfo(icaoCodes, resp);
      var codes := Dedup(Icao.CleanCodes(icaoCodes));
      var lines := DirectoryLines(stations, show);
      |lines| == |codes| && forall i :: 0 <= i < |codes| ==> lines[i] == codes[i] + ":"
  {
    StationNames.StationInfoOnFailure(icaoCodes, resp);
  }
}
