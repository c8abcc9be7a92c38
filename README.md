# counseling-map core, modelled in Dafny

counseling-map is a web map of Taiwan's mental-health clinics. It shows which
clinics have free counselling quota in the coming weeks. This project models
its core and proves properties of that model:

- `src/types/clinic.ts` does three things:
  - It defines the clinic record.
  - It derives a stable clinic id. Each of county, organisation name and
    address has its whitespace stripped and 台 rewritten to 臺. The three
    results are joined with `|`. The key is hashed with 32-bit FNV-1a and
    printed as eight lower-case hex digits.
  - It ingests raw JSON rows with `toClinics`. The input is a flat array, or
    an object whose `rows` property holds the array. A row without
    coordinates is skipped, or throws under `strict`. When a reference point
    is given, its distance is attached to each record.
- `src/pages/index.tsx` is the home page:
  - It repairs lat/lng pairs written the wrong way round, using Taiwan's
    bounding box.
  - It classifies every point by its nearest county centroid, out of 22.
  - It gives rows positional ids and filters by quota availability.
  - Its "nearest to me" ranking has three steps:
    - Take the filtered clinics in the user's own county, or all of them if
      there are none.
    - Keep those within 30 km.
    - Stably sort them by distance.
  - Its component state (filter, search, selection, map centre, preferred
    county, distance sort) is a small state machine.

Files (one module each):

| file | module | models |
|---|---|---|
| `wrappers.dfy` | `Wrappers` | `Option`, `Result` |
| `seqs.dfy` | `Seqs` | `Array.prototype.filter` and its laws |
| `js_string.dfy` | `JsString` | UTF-16 strings, `trim`, `includes`, `Number.prototype.toString(radix)` |
| `clinic_id.dfy` | `ClinicId` | `norm`, `fnv1a32`, `makeClinicId` |
| `clinic_data.dfy` | `ClinicData` | `Clinic`, `RawClinicRow`, `ClinicsInput`, `toClinics` |
| `stable_sort.dfy` | `StableSort` | `Array.prototype.sort` with a numeric comparator (stable since ECMAScript 2019) |
| `geo.dfy` | `Geo` | `isTWLat`, `isTWLng`, `normalizeLatLng`, `COUNTY_CENTROIDS`, `countyByCoords` |
| `page_clinics.dfy` | `PageClinics` | `clinicsAll`, the filter memo and counts, the ranking of `sortClinicsByDistance`, the search predicate |
| `home.dfy` | `HomePage` | the `Home` component's state and handlers, as a class |

Modelling choices:

- **Strings.**
  - A JavaScript string is a sequence of UTF-16 code units (`JsString.Str`).
  - `charCodeAt` therefore reads one unit, so the FNV hash is over code units.
  - `\s` is ECMAScript's WhiteSpace and LineTerminator set.
- **Numbers.**
  - Coordinates and distances are `real`.
  - The 32-bit arithmetic of `fnv1a32` is `bv32`: XOR, then multiplication mod 2^32. This is what `Math.imul(h, p) >>> 0` computes.
- **Distance.** The distance function is a `Distance` parameter.
  - The ingestion step and the page each receive one.
  - It models `haversineKm` in `clinic.ts` and `haversineDistance` in `index.tsx`.
  - The argument order is the source's own in each file.
- **The component.** `Home` is a class with one field per `useState` hook.
  - `Clinics` and `ClinicsToShow` are its memos.
  - Each handler is a method.
  - `Valid` holds of every state the handlers produce. It says a stored distance sort is exactly the ranking of the current filtered list from the position it was computed for. It also says the preferred county is that position's county.
- **Ingestion and ids.**
  - `toClinics` neither repairs coordinates nor classifies counties. Only the page does both (src/pages/index.tsx:72-81).
  - `norm` does not remove `|`, so two different triples can share a key. `ClinicId.SeparatorCanCollide` exhibits such a pair.

## Model

| member | source | states |
|---|---|---|
| ClinicId.Norm | src/types/clinic.ts:38-40 | a normalised field is no longer than the input and contains no whitespace code unit and no 台 |
| ClinicId.NormIdempotent | src/types/clinic.ts:38-40 | normalising twice equals normalising once |
| ClinicId.NormConcat | src/types/clinic.ts:39 | normalisation distributes over concatenation |
| ClinicId.NormIgnoresWhitespace | src/types/clinic.ts:39 | deleting one whitespace unit anywhere in a field does not change its normal form |
| ClinicId.NormIdentifiesTai | src/types/clinic.ts:39 | 台 and 臺 at the same place give the same normal form |
| ClinicId.NormOneVariant | src/types/clinic.ts:38-40 | a one-unit whitespace or 台/臺 variant of a field has the same normal form |
| ClinicId.RenderIsFixedHex | src/types/clinic.ts:49 | the rendering of any 32-bit value is exactly 8 lower-case hex digits that read back as that value |
| ClinicId.Fnv1a32 | src/types/clinic.ts:43-50 | the loop computes the FNV-1a fold over the code units (offset basis 0x811c9dc5, prime 0x01000193, XOR then multiply mod 2^32), rendered as 8 hex digits that parse back to the hash |
| ClinicId.EmptyKeyRendersBasis | src/types/clinic.ts:44-49 | the empty string hashes to the offset basis and renders as "811c9dc5" |
| ClinicId.MakeClinicId | src/types/clinic.ts:51-54 | the id is the hash of the three normalised fields joined by `\|`, 8 lower-case hex digits |
| ClinicId.ClinicIdOfNormalised | src/types/clinic.ts:51-54 | the id depends on the fields only through their normal forms |
| ClinicId.ClinicIdIgnoresVariant | src/types/clinic.ts:51-54 | a whitespace or 台/臺 variant in any one of the three fields keeps the id |
| ClinicId.SeparatorCanCollide | src/types/clinic.ts:52 | ("A\|", "B", "C") and ("A", "\|B", "C") have different normal forms yet the same key and id |
| JsString.TrimEmpty | src/pages/index.tsx:151-152 | a search input trims to the empty keyword exactly when it is all whitespace |
| JsString.ToRadix | src/types/clinic.ts:49 | `toString(radix)` gives at least one digit, all in the radix, with no leading zero unless the number is 0 |
| JsString.ParseToRadix | src/types/clinic.ts:49 | reading the digits of `toString(radix)` back gives the number |
| JsString.ToRadixInjective | src/pages/index.tsx:75 | different numbers print differently |
| JsString.ToRadixLength | src/types/clinic.ts:49 | a number below b^w prints in at most w digits |
| ClinicData.OrNull | src/types/clinic.ts:93 | `f ?? null` is null exactly when the field is missing or null, and the value otherwise |
| ClinicData.FirstMissing | src/types/clinic.ts:82-86 | the position of the first row lacking lat or lng, or none exactly when every row has both |
| ClinicData.Convert | src/types/clinic.ts:89-111 | a converted row keeps its county, name, address, coordinates, five week counts and flags, maps each optional field to null exactly when it was absent and to its value when present, carries the derived id, and has a distance exactly when a reference point is given |
| ClinicData.BuildClinic | src/types/clinic.ts:89-111 | building the record with `makeClinicId`, then attaching the distance, yields the converted row |
| ClinicData.ToClinics | src/types/clinic.ts:72-115 | the loop with its early throw returns exactly the specified result: the failure naming the first row without coordinates under `strict`, else every row with coordinates converted in order |
| ClinicData.ToClinicsLenient | src/types/clinic.ts:82-88 | without `strict` the result succeeds and lists, in input order, exactly the rows with both coordinates, each converted; it is never longer than the input |
| ClinicData.ToClinicsStrict | src/types/clinic.ts:83-86 | with `strict` the call fails exactly when some row lacks a coordinate, the error names the first such row, and success equals the lenient result |
| ClinicData.ToClinicsRecords | src/types/clinic.ts:89-111 | every returned clinic has the id derived from its own county, name and address, 8 units long, and a distance exactly when `from` is given |
| ClinicData.ToClinicsNoRows | src/types/clinic.ts:78 | a wrapper without `rows`, or with `rows: null`, and a missing input all give the empty list |
| Seqs.FilterMembership | src/pages/index.tsx:106-107 | an element survives `filter` exactly when it was in the input and satisfies the predicate |
| Seqs.FilterIsSubsequence | src/pages/index.tsx:106-107 | `filter` keeps its survivors in input order |
| Seqs.FilterPartition | src/pages/index.tsx:118-119 | filtering by a predicate and by its negation gives lengths that add up to the input's |
| StableSort.SortSorted | src/pages/index.tsx:187 | the sort result is ascending by key |
| StableSort.SortPermutation | src/pages/index.tsx:187 | the sort result is a permutation of the input |
| StableSort.SortStable | src/pages/index.tsx:187 | for every key value, the elements with that key keep their input order |
| StableSort.SortMembership | src/pages/index.tsx:187 | an element is in the sort result exactly when it is in the input |
| Geo.NormalizeLatLng | src/pages/index.tsx:25-31 | the result is the pair as given or swapped, and it lies in Taiwan's box exactly when either ordering does |
| Geo.NormalizeCases | src/pages/index.tsx:23-30 | a plausible pair is kept, a pair plausible only swapped is swapped, any other pair is kept |
| Geo.NormalizeIdempotent | src/pages/index.tsx:25-31 | normalising a normalised pair changes nothing |
| Geo.NormalizeSwappedTaipei | src/pages/index.tsx:29 | Taipei written as (121.56, 25.03) is repaired to (25.03, 121.56) |
| Geo.NearestIn | src/pages/index.tsx:58-69 | the argmin over a centroid table: no centroid is nearer, and every earlier one is strictly farther |
| Geo.NearestInIsFirstNearest | src/pages/index.tsx:58-69 | an entry is the first nearest exactly when it is the one the argmin chooses |
| Geo.TieGoesToFirstListed | src/pages/index.tsx:63 | of two centroids at the same distance, the later one is never chosen |
| Geo.NearestName | src/pages/index.tsx:58-69 | the scan with `best` and `bestD`, initially Infinity, returns the name of the first nearest centroid |
| Geo.CountyByCoords | src/pages/index.tsx:34-69 | the county returned is a name from the 22-entry table whose centroid is first nearest to the point |
| PageClinics.ClinicsAll | src/pages/index.tsx:72-81 | the page list has one clinic per dataset row |
| PageClinics.ClinicsAllFields | src/pages/index.tsx:72-81 | each clinic takes its row's raw id if it has one and `String(i + 1)` otherwise, keeps its county, name, address and quota flag, has its pair as given when plausible, swapped when only the swap is plausible, and as given otherwise, and is given the county of the repaired position |
| PageClinics.PositionalIdsDistinct | src/pages/index.tsx:75 | rows without a raw id get pairwise different ids |
| PageClinics.RawIdsCanCollide | src/pages/index.tsx:75-76 | a raw id overrides the positional one unchecked, so a raw "2" on row 0 equals row 1's positional id |
| PageClinics.FilteredKeepsExactly | src/pages/index.tsx:105-109 | "has" keeps exactly the clinics with quota, "none" exactly those without, "all" everything, each in original order |
| PageClinics.CountsAddUp | src/pages/index.tsx:118-119 | `hasCount + noneCount` equals the number of clinics |
| PageClinics.PoolChoice | src/pages/index.tsx:177-178 | the pool is exactly the same-county clinics when any exist, else the whole filtered list |
| PageClinics.PoolWithin | src/pages/index.tsx:177-178 | every pool clinic is a filtered clinic |
| PageClinics.RankedMembers | src/pages/index.tsx:181-186 | a ranked entry is exactly a pool clinic with only its distance from the user added, kept when that distance is at most 30 km |
| PageClinics.RankedOrdered | src/pages/index.tsx:181-187 | every ranked entry is within the limit at its own distance; the list is ascending by distance, a permutation of the candidates, and keeps pool order among equal distances |
| PageClinics.RankedFirstIsNearest | src/pages/index.tsx:181-192 | the ranking is empty exactly when no pool clinic is within 30 km; otherwise its first entry is a pool clinic no farther than any pool clinic within the limit |
| PageClinics.FirstMatch | src/pages/index.tsx:154-156 | `findIndex` returns the first clinic whose non-empty name or address contains the keyword, and none exactly when no clinic matches |
| HomePage.Home.constructor | src/pages/index.tsx:90-102 | the initial state: empty search, filter "all", no position, centre, selection, preferred county or sort |
| HomePage.Home.SetFilter | src/pages/index.tsx:122-129 | a changed filter drops the distance sort and clears a non-empty selected id absent from the list then on screen; an unchanged filter changes nothing |
| HomePage.Home.HandleSearch | src/pages/index.tsx:150-162 | a blank keyword changes nothing; otherwise the first shown match is selected and centred, and nothing changes when none matches |
| HomePage.Home.SortClinicsByDistance | src/pages/index.tsx:165-195 | with no position nothing changes; otherwise the preferred county is the user's, the shown list is the ranking from the user's position (`Valid`), and a non-empty ranking's first entry is selected and centred |
| HomePage.Home.RankFrom | src/pages/index.tsx:173-189 | the user's county and the ranking of the filtered list from `u` are stored, re-establishing `Valid` |
| HomePage.Home.OnSelect | src/pages/index.tsx:221-224 | selecting a clinic sets the selected id to its id and centres the map on its position |
| HomePage.Home.OnClearPreferred | src/pages/index.tsx:229-232 | clearing the preferred county also drops the sort, so the filtered list is shown |
| HomePage.Home.ClearSort | src/pages/index.tsx:269 | clearing the sort shows the filtered list again |
| HomePage.Home.SetSearchInput | src/pages/index.tsx:247 | typing in the search box sets the search input to the typed text |
| HomePage.Home.SetUserLatLng | src/pages/index.tsx:317 | the located position becomes the user position |
| HomePage.ShownRespectsFilter | src/pages/index.tsx:105-115 | in every valid state each shown clinic is a clinic of the current filter, unchanged or with its distance added, so the shown list respects the filter |

## Left out

- Haversine trigonometry (`haversineKm`, `haversineDistance`) is floating-point `sin`, `cos` and `atan2`. Distance is therefore a parameter. Symmetry and zero self-distance are not assumed.
- JavaScript number semantics: `Number(...)` coercion, NaN, infinities and rounding are left out. Coordinates and distances are exact reals, and the week counts are integers.
- Geo.NearestName: the starting `bestD = Infinity` is modelled as "no distance yet". Distances are reals, so a NaN distance, which never passes `d < bestD`, is not modelled.
- ClinicId.Norm: the `s || ''` guard for a null or missing field is left out. Fields are always strings in this model.
- ClinicData.ToClinicsSpec: the thrown error is a `Failure` value. The exception mechanism and the exact message text are left out.
- The wrapper's optional `county` and `total` properties are left out: `toClinics` never reads them.
- Extra JSON properties that the page's `...c` spread would carry along are left out. The only one the page reads is a raw `id`, which is modelled as optional.
- PageClinics.PageRow: a raw `id` is a string in the model. A JSON number there would not compare `===` with the string ids.
- HomePage.Home.SetFilter: React's render and effect timing is reduced to one step. The effect's check runs against the list on screen when the filter changes: the old sort if there was one, else the newly filtered list, as the effect's closure sees it.
- The startup console audit of text county against coordinate county, the debug logging, and `alert` are left out. They are I/O.
- Browser geolocation and the Leaflet map are left out. The located position enters only through `SetUserLatLng`, and `mapCenter` is stored, never rendered.
- `src/pages/api/views.ts`, the components (`LeftSidebar`, `Map`, `RecenterMapWithSearch`, `AnnouncementPanel`) and the datalist of suggestions are not part of this model.
- ClinicId.MakeClinicId: collision freedom is not claimed. A 32-bit hash can collide, and the separator can too (`SeparatorCanCollide`).
