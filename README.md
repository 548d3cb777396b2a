# Weather briefer core, modelled in Dafny

The service is a Flask application (`app.py`). It takes a list of ICAO airport identifiers. It fetches METARs, TAFs, SIGMETs/AIRMETs, station names and coordinates from the aviationweather.gov data services. It asks a generative model for an HTML briefing, then normalizes that HTML into three sections. This project models the parts of `app.py` that compute rather than communicate:

- **Icao** (`icao.dfy`) covers `is_icao_list` and `normalize_icao_list`:
  - the regular-expression split on runs of whitespace and commas, written out as a recursive tokenizer;
  - the code cleaning the fetchers repeat (`c.strip().upper()` for each non-blank code);
  - the comma-separated parsing of the `/summarize` and `/api/coords` routes.
- **StationNames** (`station_names.dfy`) covers `fetch_station_info`. It turns an already received HTTP reply into the ordered `{ICAO: name}` dictionary. The loops are methods proved against recursive specification functions.
- **StationCoords** (`station_coords.dfy`) covers `fetch_station_coords`:
  - record collection with a `seen` set;
  - latitude/longitude extraction with its GeoJSON fallback and `float()` conversion;
  - the Nominatim fallback, as a loop over the records;
  - the sort into requested order, and the placeholder result on failure.
- **Hazards** (`hazards.dfy`) covers `fetch_sigmet_airmet`: the SIGMET and AIRMET blocks, their headings and joins, and the "any exception gives the empty string" rule.
- **Briefing** (`briefing.dfy`) covers:
  - `fetch_metars` / `fetch_tafs` (their reply handling);
  - the combined weather text built in three places;
  - the 502 check of `/summarize`;
  - the airport directory line given to the generative model.
- **Sections** (`sections.dfy`) covers `normalize_sections` and its `extract_block`:
  - the fast path;
  - heading search and backtracking to `<`;
  - the cut at the next `<h1`/`<h2`;
  - the wrapping in `<section id=...>`;
  - the per-airport remainder.
- **Strings**, **JsonValues** and **Dicts** (`strings.dfy`, `json.dfy`, `dicts.dfy`) give the Python behaviour the core relies on:
  - `strip`, `upper`, `lower`, `split`, `join`, `find`, `rfind` (ASCII);
  - decoded JSON values, Python truthiness and first-truthy `or` chains;
  - the `features`/`<entity>.data` payload lookup;
  - insertion-ordered dictionaries with assignment and `setdefault`.

The network is not modelled. Each HTTP exchange is a `Response` value given as a parameter: a transport error (the request itself raised), or a reply with its status and an optional decoded JSON body, absent when `r.json()` raises. The two differ: a hazard reply with a status other than 200 adds nothing whatever its body, while a transport error raises. The geocoder is a function from query to `Response`. Python's `float()` on strings is the parameter `parseFloat`. An exception raised inside a `try` is the `Raised` case of `Result`, and the surrounding `except` is modelled at the point where the source catches it.

Where the documented behaviour of the service and the code differ, the model follows the code:

- `fetch_sigmet_airmet` loses both blocks when either request raises (a transport error or a body that is not JSON). It does not degrade per class (`Hazards.RaiseDiscardsAll`).
- `fetch_station_coords` returns one record per station the data service reported, in requested order, and adds no placeholder for requested codes that are missing from the reply. Placeholders for every code appear only when the whole request raised (`StationCoords.CoordsOnFailure`).
- A latitude of `0` (or `0.0`) under `latitude`, `lat` or `latitude_deg` is falsy in the `or` chain, so the chain moves on to the next key. When no later key holds a value the chain gives None and the latitude counts as missing: with no geometry it stays None after extraction (`StationCoords.ZeroLatitudeReadsAsMissing`), and the record is then sent to the geocoder, which may fill both coordinates. A `0` under `latitude_degN`, the last operand, is not None and is kept as 0.
- `fetch_station_info` and `fetch_station_coords` read the station fields only from an item's `properties` dict. A flat record in `stations.data`, with `station_id` and `site` at its top level, is skipped: the names stay empty (`StationNames.FlatStationsNameNothing`) and the coordinates list is empty (`StationCoords.FlatStationsLocateNothing`).
- The per-airport section holds the stripped remainder, not the remainder verbatim (`Sections.PerAirport`).
- `normalize_sections` is not idempotent. On text with no headings and no section markers, a second pass wraps the first pass's output again (`Sections.NormalizeNotIdempotent`).

## Model

| member | source | states |
|---|---|---|
| Icao.IsIcaoListMeaning | app.py:72-83 | the text is accepted exactly when its upper-cased tokens (split on whitespace/comma runs) are non-empty and each is four letters A-Z; empty text is refused |
| Icao.AcceptedTextGivesCodes | app.py:72-87 | accepted text normalizes to a non-empty list of four-letter codes |
| Icao.NormalizeIcaoList | app.py:85-87 | every produced code is non-empty, upper-case and free of whitespace and commas |
| Icao.NormalizeIgnoresStrip | app.py:86 | stripping before the split changes nothing: the codes are the tokens of the upper-cased text |
| Icao.NormalizeIdempotent | app.py:85-87 | normalizing the space-joined codes gives the same codes back |
| Icao.TokensOfJoin | app.py:86-87 | tokens of separator-free words joined by a space are those words |
| Icao.TokensConserveText | app.py:86-87 | concatenated tokens are the text with every separator removed; no character is lost or invented |
| Icao.TokensIgnoreSurroundingSeparators | app.py:86-87 | leading and trailing separator runs do not change the tokens |
| Icao.CleanCodes | app.py:133 | cleaning never lengthens the code list |
| Icao.CleanCodesShape | app.py:152 | each cleaned code is non-empty, upper-case and has no surrounding whitespace |
| Icao.CleanCodesOfNormalized | app.py:190 | codes coming from normalize_icao_list pass through the fetchers' cleaning unchanged |
| Icao.CommaCodes | app.py:440 | each parsed code is non-empty, upper-case and comma-free |
| Strings.SplitJoin | app.py:136 | splitting a comma join of comma-free parts gives the parts back |
| Briefing.IdsParamRoundTrip | app.py:133-136 | when no requested code holds a comma, splitting the `ids` parameter at commas gives the cleaned codes back |
| Briefing.CommaCodesRoundTrip | app.py:133-136 | codes parsed from a comma-separated request always satisfy that round trip |
| Briefing.Observations | app.py:128-145 | no codes or a failed reply give "", otherwise the stripped body; the result never starts or ends with whitespace |
| JsonValues.Or | app.py:175 | the value of a Python `or` chain: the first truthy operand, else the last one |
| JsonValues.Payload | app.py:168 | `features` when truthy, else the nested entity's `data` when truthy, else [] (entity missing, or its `data` falsy); raises when the body or the nested entity is not an object |
| Dicts.Dedup | app.py:178 | the keys in first-insertion order: distinct, with the same members as the input |
| Dicts.Set | app.py:178 | assignment keeps an existing key's place and appends a new key; the dictionary stays well-formed |
| Dicts.SetDefault | app.py:181 | setdefault adds a missing key at the end with the default and leaves a present key untouched |
| Dicts.FromKeys | app.py:165 | the comprehension has the distinct codes in order, each mapped to the given value |
| Dicts.Items | app.py:339 | the items follow the key order and carry the mapped values |
| StationNames.StationId | app.py:175 | the first truthy of `station_id`, `icao_site`, `icao_code`, upper-cased; a truthy non-string there raises; none gives "" |
| StationNames.StationName | app.py:176 | the first truthy of `site`, `station_name`, `name`, else "" |
| StationNames.ItemEntry | app.py:172-178 | an entry that names a station has a non-empty identifier |
| StationNames.Fill | app.py:169-178 | the filled dictionary is well-formed |
| StationNames.FillLoop | app.py:169-178 | the loop over the items computes the fill specification |
| StationNames.FillKeys | app.py:171-178 | keys are the existing keys then the mentioned identifiers, first insertion order |
| StationNames.FillValues | app.py:171-178 | each mentioned identifier maps to the name from its last mention; other keys are kept |
| StationNames.Defaults | app.py:180-181 | the defaulted dictionary is well-formed |
| StationNames.DefaultsLoop | app.py:180-181 | the setdefault loop computes the defaults specification |
| StationNames.DefaultsKeys | app.py:180-181 | requested codes missing from the dictionary are appended in request order |
| StationNames.DefaultsValues | app.py:180-181 | present keys keep their value; added codes map to "" |
| StationNames.StationInfo | app.py:147-184 | the result is a well-formed ordered dictionary, and `{}` when no requested code survives cleaning, whatever the reply |
| StationNames.FetchStationInfo | app.py:147-184 | the method computes StationInfo, early returns and exception path included |
| StationNames.StationInfoCoversRequest | app.py:179-182 | every cleaned requested code is a key of the result |
| StationNames.FlatRecordsSkipped | app.py:170-174 | dict items without a `properties` key add no name |
| StationNames.FlatStationsNameNothing | app.py:166-182 | a 200 reply listing flat station records leaves every requested code with an empty name |
| StationNames.StationInfoOnFailure | app.py:162-184 | on a failed or non-200 reply every requested code, once and in order, maps to "" |
| StationNames.StationInfoOnAnswer | app.py:166-182 | on an answer the keys are the reported identifiers then the unreported codes; reported names are the last mention, the rest "" |
| StationCoords.Float | app.py:228-229 | Python `float()` on a JSON value: numbers as is, booleans as 1/0, strings by parsing, anything else fails |
| StationCoords.Coordinate | app.py:228-229 | a missing value stays missing; any other value converts to its `float()` when that exists and raises otherwise |
| StationCoords.Convert | app.py:227-231 | if either coordinate fails to convert, both become missing; when both convert, each is its own conversion |
| StationCoords.Fallback | app.py:221-226 | a missing coordinate is taken from `geometry.coordinates` as [lon, lat] when that list has two or more entries; present ones are kept |
| StationCoords.GeometryOrder | app.py:221-226 | with no coordinate properties, the geometry pair [x, y] gives latitude y and longitude x |
| StationCoords.ZeroLatitudeReadsAsMissing | app.py:218-231 | a latitude of 0 under `latitude`, with no later latitude key and no geometry, gives no latitude while the longitude is kept |
| StationCoords.FlatRecordsCollectNothing | app.py:207-211 | dict items without a `properties` key yield no record |
| StationCoords.FlatStationsLocateNothing | app.py:202-261 | a 200 reply listing flat station records gives an empty list, without placeholders |
| StationCoords.ItemRecord | app.py:216-232 | the record carries the item's identifier (non-empty) and name |
| StationCoords.CollectRecords | app.py:205-232 | the collection loop computes the Collect specification |
| StationCoords.CollectIds | app.py:206-215 | records come out in the order of each identifier's first unseen mention |
| StationCoords.CollectEachStationOnce | app.py:206-215 | record identifiers are distinct and are the same keys, in the same order, as fetch_station_info's |
| StationCoords.CollectFirstMentionWins | app.py:213-232 | each record is built from the first item naming that station |
| StationCoords.CollectRaisesLikeFill | app.py:208-212 | collecting raises exactly when the names loop over the same items raises |
| StationCoords.FirstMentionsDedup | app.py:213-215 | skipping seen identifiers is deduplication in first-occurrence order |
| StationCoords.Nominatim | app.py:244-252 | no coordinates unless a 200 reply holds a non-empty array; then nothing exactly when the first result's latitude fails, both exactly when both convert, and the latitude alone when only the longitude fails |
| StationCoords.Locate | app.py:239-252 | complete records are untouched; otherwise only coordinates change, and only to geocoded values |
| StationCoords.LocateAll | app.py:239-252 | the fallback handles every record independently and in place |
| StationCoords.LocateRecords | app.py:239-254 | the fallback loop computes LocateAll |
| StationCoords.LastIndex | app.py:259 | the index the `{c: i}` comprehension keeps: the last position of the code, or -1 |
| StationCoords.RankMeaning | app.py:259-260 | the sort key is the last requested position of the identifier, or 1e9 when not requested |
| StationCoords.SortByRequest | app.py:260 | sorting keeps the number of records |
| StationCoords.SortPermutes | app.py:260 | sorting is a permutation |
| StationCoords.SortSorted | app.py:260 | the result is ordered by the sort key |
| StationCoords.SortStable | app.py:260 | records with equal keys keep their relative order (Python's sort is stable) |
| StationCoords.RequestedFirst | app.py:259-260 | requested stations precede unrequested ones |
| StationCoords.Placeholders | app.py:264 | one empty record per cleaned code, in order |
| StationCoords.StationCoords | app.py:186-192 | `[]` when no requested code survives cleaning, before any request |
| StationCoords.FetchStationCoords | app.py:186-264 | the method computes the StationCoords specification |
| StationCoords.CoordsOnFailure | app.py:262-264 | when the request raises, the result is a placeholder per cleaned code with no name or coordinates |
| StationCoords.CoordsOnAnswer | app.py:257-261 | on an answer the result is a stable, key-sorted permutation of the geocoded records, each station once |
| Hazards.ItemText | app.py:287-288 | the first truthy text field of the item's properties; empty properties give nothing; non-object properties raise |
| Hazards.Texts | app.py:285-290 | only truthy texts are kept, and every item's truthy text is kept, never more than the items; the loop raises exactly when some item raises |
| Hazards.TextsAreTruthies | app.py:285-290 | when no item raises, the texts are the items' text chains filtered to the truthy ones |
| Hazards.TruthiesKeepTruthy | app.py:288-290 | the filter keeps every truthy value and nothing else |
| Hazards.TruthiesConcat | app.py:285-290 | the filter keeps order: the texts of earlier items come before those of later items |
| Hazards.CollectTexts | app.py:285-290 | the text loop computes Texts |
| Hazards.TextLines | app.py:292 | joining succeeds exactly when every text is a string, line for line |
| Hazards.ClassPieces | app.py:280-292 | a transport error raises; a non-200 status contributes nothing; at most one block per class |
| Hazards.ClassPiecesContent | app.py:280-292 | on a 200 reply, nothing when no item has a truthy text, else one block: the heading, then the truthy texts joined by newlines in payload order |
| Hazards.ClassBlockLines | app.py:285-292 | read line by line, the block a class adds is its heading line followed by one line per truthy item text |
| Hazards.ClassBlock | app.py:280-292 | the per-class fetch computes ClassPieces |
| Hazards.FetchSigmetAirmet | app.py:266-315 | the method computes the hazard text, exception path included |
| Hazards.RaiseDiscardsAll | app.py:313-314 | an exception in either class yields "" even if the other class succeeded |
| Hazards.NoHazardsIsEmpty | app.py:315 | with no texts in either class the result is "" |
| Hazards.BothBlocks | app.py:292-315 | with both classes present the SIGMET block comes first, followed by a blank line and the AIRMET heading |
| Hazards.PieceHasHeading | app.py:292 | a class block starts with its heading line |
| Hazards.OneBlock | app.py:311-315 | with one class present the result is that block stripped, starting with its heading |
| Hazards.BlockLines | app.py:292 | a class block read line by line is its heading line followed by exactly its texts |
| Briefing.Block | app.py:454-455 | an empty source contributes nothing; otherwise heading, text and a blank line |
| Briefing.CombinedText | app.py:453-459 | the step-by-step concatenation equals the three optional blocks in order |
| Briefing.BundleLayout | app.py:453-459 | the combined text is METAR, TAF and hazard blocks back to back, each present iff its source is non-empty |
| Briefing.BundleOpensWithFirstSource | app.py:44-50 | the combined text opens with the first non-empty source's block |
| Briefing.RefusedIffBundleEmpty | app.py:450-451 | the 502 refusal happens exactly when the combined text would be empty; otherwise the stripped text is non-empty |
| Briefing.DirectoryLine | app.py:339 | `k: v` for a truthy name, bare `k:` exactly when the name is falsy |
| Briefing.DirectoryLines | app.py:339 | one line per station in dictionary order |
| Briefing.DirectoryHasOneLinePerStation | app.py:339 | splitting the directory on newlines recovers the station lines |
| Briefing.FailedDirectory | app.py:339 | after a failed station lookup, the directory lists each requested code once, in order, with a bare colon |
| Sections.Normalize | app.py:380-381 | text already holding all three section markers is returned unchanged |
| Sections.NormalizeSections | app.py:411-425 | the method computes the normalization |
| Sections.Wrap | app.py:408 | the block is enclosed in `<section id="`, the id, `">` and a closing tag |
| Sections.HeadingIndex | app.py:386-389 | the first tagged occurrence whenever there is one, else the first loose occurrence; -1 exactly when neither form occurs in the lower-cased text |
| Sections.BlockStart | app.py:390-395 | the last `<` before the heading, with no `<` in between; -1 only when there is no heading or no `<` before it |
| Sections.CutOver | app.py:400-403 | the earliest position past the start where a listed tag occurs, or the end |
| Sections.CutMeaning | app.py:398-404 | the block ends at the first `<h1`/`<h2` after its start, or at the end of the text |
| Sections.BlockEnd | app.py:398-403 | the cut lies within the remainder and past its first character |
| Sections.Extract | app.py:385-409 | no block exactly when no heading start is found, and then the source is unchanged; the source never grows |
| Sections.ExtractBlock | app.py:385-409 | the method computes Extract |
| Sections.SplitMeaning | app.py:404-408 | the source is the prefix, the block and the rest; the new source drops the block; the wrapped block is returned |
| Sections.BlockCut | app.py:393-404 | the block holds no heading tag past its first character and ends at one or at the end |
| Sections.ExtractKeepsHeading | app.py:386-404 | the extracted block contains the heading it was found by |
| Sections.PerAirport | app.py:421-424 | the remainder yields a section exactly when it is not blank |
| Sections.Kept | app.py:415-416 | empty parts are dropped, non-empty kept |
| Sections.NormalizeLayout | app.py:411-425 | the parts are the summary, recommendations and per-airport sections present, in that order, each wrapping its block |
| Sections.SplitConserves | app.py:404-409 | one cut keeps every character: the block and the new source hold exactly the characters of the source |
| Sections.NormalizeConserves | app.py:411-422 | the two extracted blocks and the remainder hold exactly the characters of the input, as a multiset and in length |
| Sections.NormalizeKeepsText | app.py:421-425 | non-blank input never normalizes to "" |
| Sections.NoHeadingsWrapsAll | app.py:411-425 | input where neither heading is found and the three ids are not all present becomes a single per-airport section of the stripped input |
| Sections.NormalizeNotIdempotent | app.py:373-425 | normalizing such output again wraps it a second time |

## Left out

- The Flask routes, request JSON parsing, templates, `jsonify` and HTTP status tuples are left out. Only the computations inside them are modelled: the 502 check, the combined text and the comma-code parsing.
- Network requests, timeouts, headers and URL building are left out. Replies are `Response` parameters, and only the `ids` parameter's comma join is modelled.
- The Nominatim geocoder is the parameter `geocode`. The Python session object and its headers are left out.
- Python's `float()` on strings is the parameter `parseFloat`. NaN and infinities are not modelled, and JSON numbers are `real`.
- `str()` of a non-string station name in the directory is the parameter `show`.
- Case conversion and whitespace are ASCII only, with no Unicode case mapping or Unicode whitespace.
- The generative model call, the prompt text, the `summarize_weather` error message and the final `weather-brief` wrapper are left out. They are foreign calls and fixed strings.
- The `HTMLParser` import inside `normalize_sections` is left out because it has no effect on the result.
- The `hours_before`, `hours=2` and `hours=24` query parameters are left out. They only shape the request.
- `convert_english_to_pirep`, the PIREP route, `engToPIREP.py` and `check.py` are not part of this model.
- Elements of a list of codes given to `/api/coords` are modelled as strings. In the code, falsy elements (`None`, `0`, `""`) are skipped by `c and c.strip()`, and any other non-string element raises inside the handler's `try`, which answers `{"error": ...}` with status 500.
- The request URLs are not encoded: a code holding `&`, `#` or a space would change the query the data service receives. Only the comma join of the `ids` parameter is modelled.
- `fetch_station_coords` mutates the record dictionaries in place during the geocoding fallback. The model rebuilds each record as a value.
- StationCoords.SortByRequest: Python's Timsort is modelled by an insertion sort. A stable sort by key has a unique result, and SortPermutes, SortSorted and SortStable pin that result down.
- StationCoords.RequestedFirst: it assumes at most 10^9 requested codes. Past that, a position would reach the 1e9 key given to unrequested stations.
