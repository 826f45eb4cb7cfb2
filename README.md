# METAR parser model

A Dafny model of the METAR parser of a Go program that writes the current weather at an airport
onto the desktop wallpaper. `ParseMETAR` (main.go) splits a METAR report into whitespace-separated
fields. It takes the station from the first field and day, hour and minute from the second. It then
reads the wind from the third field and makes one pass over the fields for each of: visibility (from
the fourth field on), cloud layers, temperature and dew point, and the altimeter setting. It ends
with the remarks from the first `RMK` field on. `indexOf` finds that field. The time-of-day greeting
printed on the wallpaper is modelled as well, with the hour as a parameter.

The modules follow the program's structure:

- `GoStrings` (go_strings.dfy): the library calls the parser makes on its strings.
  - A Go string is a byte sequence, so a `Byte` is a char below 256.
  - `Fields` is `strings.Fields`, with the Unicode white space of `unicode.IsSpace` in its UTF-8 encodings.
  - `Join` is `strings.Join`.
  - `Atoi` is `strconv.Atoi` with its error dropped.
  - The round trip `Fields(Join(fs, " ")) == fs` is proved for words.
  - `Fields` is characterised both ways: every text is its fields interleaved with runs of white
    space (non-empty between fields), and any words so interleaved split back into those words.
- `Regex` (regex.dfy): the five regular expressions and `regexp.FindStringSubmatch`.
  - A matcher per pattern (`WindAt`, `VisibilityAt`, …) gives the match that Go's leftmost-first
    semantics picks at one byte position.
  - `FindStringSubmatch` takes the leftmost position with a match.
  - The partner is a declarative reading, `Matches`/`MatchesAt`. The matchers are sound and complete against it.
  - `FindStringSubmatchIsLeftmost` states that the reported match is a match, and that no match begins before it.
  - At most one match of each pattern begins at a given byte (`MatchesAtUnique`), so the leftmost
    match is determined, and `LeftmostMatchIsFound` states that it is what is reported.
- `MetarSpec` (metar_spec.dfy): the record types and what each part of the parse computes, as
  functions of the fields.
  - `ParseFields`/`Parse` is the whole of `ParseMETAR` as written.
  - `ParseCorrected` is the version without the panic (see Findings).
- `MetarParser` (metar_parser.dfy): `ParseMETAR` and `indexOf` as the program runs them.
  - The record is updated one assignment after another.
  - The visibility, cloud, temperature and altimeter passes are loops, split out as one method per pass.
  - Each method is proved to compute the `MetarSpec` function.
  - `ParseMETAR` is proved equal to `Parse`.
- `MetarProperties` (metar_properties.dfy): what the parser promises about each field of the record
  after a successful parse, stated on the fields of the report. The outcomes themselves (errors,
  panic, record) are the contracts of `MetarSpec.ParseFields` and `MetarSpec.Parse`.
- `MetarScenarios` (metar_scenarios.dfy): concrete reports.
  - The complete report `KBFI 261853Z 18015G22KT 10SM FEW020 SCT035 BKN250 22/15 A2992 RMK AO2 SLP132`
    is proved to parse into its full record. The report is written in the model as its twelve fields
    joined by single spaces (`Join(ReportFields, " ")`), not as one string literal.
  - Also covered: a variable wind, the two short reports that fail, and the two-field report that panics.
- `Greeting` (greeting.dfy): the hour classification of `getTimeOfDayGreeting`.

A call of `ParseMETAR` ends in one of three ways, and `Outcome` has one case for each:

- `Parsed(m)`: the record, with no error.
- `Failed(kind, partial)`: an error, together with the record as filled in so far.
- `Panicked`: a run-time panic.

An error result carries the record as filled in so far: the zero record for too few fields, the
record holding the station for a short time group (main.go:58, main.go:72).

The regular expressions in main.go carry no `^`/`$` anchors. A field matches when it *contains* a
match, and the groups come from the leftmost match. So `X18015KTX` yields the wind 180/15 and
`BKN0250` the layer BKN at 2500 feet. The model follows the unanchored code throughout. `MetarSpec.Contains` is "some match begins
in the field".

## Model

| member | source | states |
|---|---|---|
| GoStrings.SpaceLen | main.go:53 | the length of the white-space character of unicode.IsSpace that starts the text (0 for none): at most three bytes, led by an ASCII or lead byte and continued by continuation bytes only |
| GoStrings.Fields | main.go:53 | every field of strings.Fields is a non-empty run in which no white-space character starts |
| GoStrings.NoSpaceAcross | main.go:53 | a white-space character cannot begin inside a word and run into the white space after it |
| GoStrings.FieldsOfWordThenSpaces | main.go:53 | a word followed by any white-space character is the first field, and splitting continues at that character |
| GoStrings.FieldsSkipsSpaceRun | main.go:53 | a run of white space in front of the text changes nothing |
| GoStrings.FieldsOfInterleave | main.go:53 | words separated by non-empty white-space runs, with any run before the first and after the last, split back into exactly those words |
| GoStrings.FieldsSeparators | main.go:53 | every text is its fields interleaved with white-space runs, non-empty between two fields and in front when the text begins with white space |
| GoStrings.FieldsOfJoin | main.go:131-133 | joining words with single spaces and splitting again gives back the same words (round trip) |
| GoStrings.FieldsOfWordThenSpace | main.go:53 | a word followed by a space is the first field, and splitting continues after the space |
| GoStrings.Join | main.go:132 | the joined text starts with the first element |
| GoStrings.Atoi | main.go:67-69 | a non-empty run of digits gives its decimal value, below 10 to the length; a minus or plus sign followed by digits gives their value negated or as it is; any other text gives 0 |
| GoStrings.AtoiTwoBytes | main.go:66-69 | a two-byte time component reads as TwoByteValue: the two-digit value for two digits, the signed digit for a sign and a digit, and 0 for anything else, so always in -9..99 |
| GoStrings.AtoiOfDigits | main.go:80-84 | one to three digits read as their decimal value, below 1000 |
| Regex.WindAt | main.go:77 | a wind match found at a position is a match of the wind pattern there |
| Regex.WindAtComplete | main.go:77 | wherever some wind match begins, the wind matcher finds one |
| Regex.VisibilityAt | main.go:90-92 | a visibility match found at a position is a match of the visibility pattern there |
| Regex.CloudAt | main.go:99-101 | a cloud match found at a position is a match of the cloud pattern there |
| Regex.TemperatureAt | main.go:111-113 | a temperature match found at a position is a match of the temperature pattern there |
| Regex.AltimeterAt | main.go:121-123 | an altimeter match found at a position is a match of the altimeter pattern there |
| Regex.MatchAt | main.go:77-121 | whatever the matcher finds at a position is a match of the pattern that begins there |
| Regex.MatchAtComplete | main.go:77-121 | wherever a match begins, the matcher finds one |
| Regex.WindMatchShape | main.go:77 | where the groups of a wind match lie, and the bytes after the speed and gust digits that fix their lengths |
| Regex.MatchesAtUnique | main.go:77-121 | at most one match of a pattern begins at any one position |
| Regex.FindFrom | main.go:78 | finding nothing from a position means the matcher finds nothing at any position from there on; what is found is a match of the pattern |
| Regex.FindStringSubmatch | main.go:78 | the groups returned satisfy the pattern's reading |
| Regex.FindFromPosition | main.go:78 | the match reported comes from the first position at which the matcher finds one |
| Regex.FindStringSubmatchIsLeftmost | main.go:78 | nothing is found exactly when no match begins anywhere in the field; what is found begins at a position before which no match begins |
| Regex.LeftmostMatchIsFound | main.go:78 | a match that begins at a position before which no match begins is exactly what FindStringSubmatch reports |
| Regex.NoMatchWithoutKeyByte | main.go:77-121 | a field too short for a pattern, or without any of the bytes every match of it contains, has no match |
| MetarSpec.FoundIffContains | main.go:78 | FindStringSubmatch returns groups exactly when the field contains a match |
| MetarSpec.ObservationTimeOf | main.go:65-70 | day, hour and minute are each read on their own from bytes 0-1, 2-3 and 4-5 of the time group, as TwoByteValue of that pair (0 for a pair that is no number) |
| MetarSpec.WindOf | main.go:77-86 | no wind match leaves the zero wind; otherwise direction 0 for VRB or the direction digits, the speed digits, and the gust digits after G or 0, each below 1000 |
| MetarSpec.WindOfGroups | main.go:79-85 | the wind of one wind match: VRB gives direction 0, a missing gust gives 0 |
| MetarSpec.WindFrom | main.go:76-87 | without a third field the wind stays zero; each component is below 1000 |
| MetarSpec.WindOnlyFromThirdField | main.go:76-78 | the wind depends on the third field alone |
| MetarSpec.FirstMatch | main.go:91-96 | nothing is found exactly when no field has a match; what is found is a match of the pattern |
| MetarSpec.FirstMatchIs | main.go:91-96 | the first field with a match decides, whatever follows it |
| MetarSpec.FirstMatchIndex | main.go:91-96 | what is found comes from a field before which no field has a match |
| MetarSpec.FirstMatchIsFirstContaining | main.go:91-96 | the first match is the leftmost match in the first field that contains a match |
| MetarSpec.VisibilityOf | main.go:90-96 | empty exactly when no field has a match, otherwise the whole first match: digits followed by SM |
| MetarSpec.LayerOf | main.go:102-106 | a layer has a coverage code FEW, SCT, BKN or OVC and a height of 100 times the three digits, in whole hundreds up to 99900 feet |
| MetarSpec.LayersOfField | main.go:101-107 | a field adds one layer exactly when FindStringSubmatch finds a cloud match in it, the coverage group of that match and 100 times its height digits, and none otherwise |
| MetarSpec.LayersOfFieldIffContains | main.go:101-107 | a field adds a layer exactly when it contains a cloud match |
| MetarSpec.CloudLayersOf | main.go:99-108 | no more layers than fields, each a valid layer |
| MetarSpec.CloudLayersOfConcat | main.go:100-108 | layers keep field order: those of two runs of fields are those of the first run followed by those of the second |
| MetarSpec.CloudLayersAround | main.go:100-108 | the layers are those of the fields before any field, then that field's, then those of the fields after it |
| MetarSpec.CloudLayersOfCount | main.go:100-108 | the number of layers is the number of fields that contain a cloud match |
| MetarSpec.TemperatureDewPointOf | main.go:111-118 | (0, 0) without a match; otherwise the two two-digit numbers of the first match, each in 0..99 |
| MetarSpec.AltimeterOf | main.go:121-128 | 0 without a match; otherwise the four digits of the first match, in hundredths of an inch |
| MetarSpec.FirstIndexOf | main.go:138-145 | -1 exactly when the item is absent; otherwise an index holding the item with no earlier occurrence |
| MetarSpec.RemarksOf | main.go:131-133 | empty without an RMK field; otherwise text starting with RMK |
| MetarSpec.RemarksFromFirstRMK | main.go:131-133 | the remarks are the fields from the first RMK on, joined by single spaces |
| MetarSpec.Extract | main.go:61-135 | the record of a report past both checks: the station verbatim, the time pairs as read, the zero wind without a third field, no visibility without a fourth, at most one valid layer per field, temperature, dew point and altimeter in range, remarks exactly when some field is RMK, and an empty weather list |
| MetarSpec.ParseFields | main.go:57-135 | on the fields: an error exactly for fewer than two fields (zero record) or a short time group (record with the station), a panic exactly for two fields with a long enough time group, and otherwise the record Extract builds |
| MetarSpec.Parse | main.go:52-136 | on the report text: an error exactly for fewer than two fields or a second field under six bytes, carrying the zero record or the record with the station; a panic exactly for two fields with a long enough time group; a record exactly for three fields or more with a long enough time group |
| MetarSpec.ParseCorrected | main.go:89-96 | the corrected parser never panics, agrees with Parse wherever that one does not panic, and on the panicking input gives the record with an empty visibility |
| MetarParser.IndexOf | main.go:138-145 | the loop returns -1 exactly when the item is absent, and otherwise the first index holding it |
| MetarParser.IndexOfUnique | main.go:138-145 | that contract pins the index down to FirstIndexOf |
| MetarParser.WindPass | main.go:76-87 | the wind assignments leave the record with WindFrom of the fields and change nothing else |
| MetarParser.VisibilityPass | main.go:90-96 | the loop with early exit sets the visibility to VisibilityOf the fields from the fourth on and nothing else |
| MetarParser.CloudPass | main.go:99-108 | the appending loop sets the layers to CloudLayersOf the fields and nothing else |
| MetarParser.TemperaturePass | main.go:111-118 | the loop sets temperature and dew point to TemperatureDewPointOf the fields and nothing else |
| MetarParser.AltimeterPass | main.go:121-128 | the loop sets the altimeter to AltimeterOf the fields and nothing else |
| MetarParser.ParseMETAR | main.go:52-136 | the imperative parser ends in exactly the outcome Parse gives, including the two errors and the panic |
| MetarProperties.StationTimeAndWind | main.go:61-87 | on success: the station is the first field verbatim, the time comes from the second field, the wind from the third, and the weather list stays empty |
| MetarProperties.FirstMatchWhenFirstContaining | main.go:91-96 | first match wins: nothing found exactly when no field contains a match, else the leftmost match of the first field that contains one |
| MetarProperties.VisibilityIsFirstContaining | main.go:89-96 | visibility is empty exactly when no field from the fourth on contains a match, else the digits of the first such field's match followed by SM |
| MetarProperties.CloudLayersPerField | main.go:98-108 | one layer per field containing a cloud match, never more than the fields, each with a coverage code and a height in whole hundreds of feet; for every field, the layers are those of the fields before it, its own, then those after it |
| MetarProperties.TemperatureIsFirstContaining | main.go:110-118 | temperature and dew point in 0..99: zero without a match, else the numbers of the first field that contains one |
| MetarProperties.AltimeterIsFirstContaining | main.go:120-128 | altimeter in 0..9999 hundredths: zero without a match, else the four digits of the first field that contains one |
| MetarProperties.RemarksFromFirstRMKField | main.go:130-133 | remarks empty without RMK, else the fields from the first RMK joined, text that starts with RMK and splits back into those fields |
| MetarProperties.FirstMatchOfConcat | main.go:112-117 | once a match is found, later fields make no difference; before any match, later fields decide |
| MetarScenarios.ReportParses | main.go:52-136 | the complete report parses to station KBFI, day 26 18:53, wind 180/15 gusting 22, visibility 10SM, layers FEW 2000, SCT 3500, BKN 25000, 22/15, altimeter 2992 hundredths and remarks RMK AO2 SLP132, with no error |
| MetarScenarios.ReportSplitsIntoItsFields | main.go:53 | the report splits into its twelve fields |
| MetarScenarios.ReportTime | main.go:64-70 | 261853Z gives day 26, hour 18, minute 53 |
| MetarScenarios.TimePairsReadSeparately | main.go:64-70 | 26XX53Z gives day 26, hour 0, minute 53, and 26-553Z gives hour -5: each pair is read on its own |
| MetarScenarios.WindGustMatch | main.go:77-78 | 18015G22KT matches with groups 180, 15 and G22 (three speed digits tried and given up) |
| MetarScenarios.ReportWind | main.go:77-86 | 18015G22KT gives direction 180, speed 15, gust 22 |
| MetarScenarios.VariableWindMatch | main.go:77-78 | VRB03KT matches with groups VRB, 03 and an empty gust |
| MetarScenarios.VariableWind | main.go:79-85 | VRB03KT gives direction 0, speed 3, gust 0 |
| MetarScenarios.VariableWindReport | main.go:52-136 | KBFI 261853Z VRB03KT parses with no error and wind 0/3 without gust |
| MetarScenarios.VisibilityMatch | main.go:90-93 | 10SM matches with digits 10 |
| MetarScenarios.ReportVisibility | main.go:89-96 | the visibility of the complete report is 10SM |
| MetarScenarios.CloudLayerField | main.go:99-106 | a coverage code followed by three digits is exactly one layer, at 100 times the digits |
| MetarScenarios.NoCloudMatch | main.go:99-101 | a field without a coverage code followed by three bytes has no cloud match |
| MetarScenarios.ReportCloudLayers | main.go:98-108 | the complete report has the layers FEW 2000, SCT 3500 and BKN 25000, in that order |
| MetarScenarios.ThreeLayersInTwelveFields | main.go:100-108 | the layers of twelve fields whose fifth to seventh fields have one layer each and the others none are those three, in order |
| MetarScenarios.TemperatureMatch | main.go:111-113 | 22/15 matches with 22 and 15 |
| MetarScenarios.ReportTemperature | main.go:110-118 | the complete report has temperature 22 and dew point 15 |
| MetarScenarios.AltimeterMatch | main.go:121-124 | A2992 matches with 2992 |
| MetarScenarios.ReportAltimeter | main.go:120-128 | the complete report has altimeter 2992 hundredths |
| MetarScenarios.ReportRemarks | main.go:130-133 | the remarks of the complete report are RMK AO2 SLP132 |
| MetarScenarios.StationOnlyIsIncomplete | main.go:57-59 | KBFI fails as incomplete with the zero record |
| MetarScenarios.ShortTimeIsInvalid | main.go:61-73 | KBFI 18 fails on the observation time, the record holding the station KBFI |
| MetarScenarios.StationAndTimePanics | main.go:89-91 | KBFI 261853Z panics |
| MetarScenarios.StationAndTimeCorrected | main.go:89-96 | the corrected parser gives KBFI at day 26 18:53 with every other part at its zero value, and no error |
| Greeting.TimeOfDayGreeting | main.go:173-182 | MORNING exactly for hours 5-11, AFTERNOON exactly for 12-16, EVENING exactly for 17-20, NIGHT exactly for the others |
| Greeting.GreetingsCoverAndDoNotOverlap | main.go:173-182 | every hour gets one of the four greetings |
| Greeting.GreetingChangesAt | main.go:173-182 | over a day, the greeting changes from one hour to the next exactly at 5, 12, 17 and 21 |

## Left out

- fetchMetarData (main.go:148-167): an HTTP request to the weather service. The report text is the parser's parameter.
- createWallpaper, setWallpaper, the fonts and images, runEvery15Minutes, main and the flag handling: drawing, files, the desktop and the scheduler. None of them is part of parsing.
- getTimeOfDayGreeting reads the clock (`time.Now().Hour()`). The model takes the hour as a parameter.
- MetarSpec.ObservationTimeOf: the year and month come from the clock, and `time.Date` normalises out-of-range values (day 0 or 32, hour 25). The model records the day, hour and minute exactly as read, and the zero `time.Time` as `ZeroTime`.
- MetarSpec.TemperatureDewPointOf: the source stores float64 values from `strconv.ParseFloat`. Both groups are always two digits, so the value is the same whole number, and the model keeps it as an int.
- MetarSpec.AltimeterOf: the source stores float64 `altInHg / 100` in inches of mercury. The model keeps the exact hundredths (2992 for 29.92), because Dafny has no float64. The rounding of the division is not modelled.
- GoStrings.Atoi: only the fast path of `strconv.Atoi` for inputs shorter than 19 bytes is modelled, with no overflow check. Every call in the parser passes input of at most four bytes.
- The error messages of `fmt.Errorf` (which quote the report) are reduced to the two error kinds `Incomplete` and `InvalidObservationTime`.
- Invalid UTF-8 in the report is not treated specially. Every pattern begins with an ASCII byte, which Go's regexp always reads as a character of its own, so byte positions suffice.
- Compiling the regexes on every call (`regexp.MustCompile`) has no visible effect, because the patterns are constant.
- That two calls on the same text give the same result needs no lemma: `Parse` is a function.
- The `Weather` list is declared but never filled in by the source. The model keeps it empty (MetarProperties.StationTimeAndWind).

## Findings

| source | as written | input that shows it | evidently intended | confidence | as-written member | corrected member |
|---|---|---|---|---|---|---|
| main.go:91 | `parts[3:]` is evaluated for any report that passed the time check, and with exactly two fields the low bound 3 exceeds the length 2, so the slice expression panics | `KBFI 261853Z` | a report of station and time alone gives the record with every other part at its zero value, and no error | high (not executed) | MetarScenarios.StationAndTimePanics | MetarScenarios.StationAndTimeCorrected |

`MetarSpec.Parse` and `MetarParser.ParseMETAR` keep the panic, as the code has it. `MetarSpec.ParseCorrected`
searches for visibility in an empty list instead. Its contract states that it never panics and agrees
with `Parse` on every other input. The properties of the record in `MetarProperties` are stated
on a successful parse of `ParseFields`, so they hold for the corrected version on every report of
three fields or more. On a two-field report its record is `Extract(parts)`, whose contract gives the
station, the time, the zero wind and the empty visibility.
