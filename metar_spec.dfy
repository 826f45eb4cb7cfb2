/** What ParseMETAR computes, as functions of the report's fields, and the properties the parser
    promises about its result. The parser itself, written as the sequence of assignments and
    loops it is, is in MetarParser and is proved to compute Parse. */
module MetarSpec {
  import opened GoStrings
  import opened Regex

  datatype Wind = Wind(direction: int, speed: int, gust: int)

  datatype CloudLayer = CloudLayer(coverage: seq<Byte>, height: int)

  /** The observation time as the report gives it. The year and month come from the clock and
      are not modelled; ZeroTime stands for Go's zero time.Time. */
  datatype ObservationTime = ZeroTime | Observed(day: int, hour: int, minute: int)

  datatype Metar = Metar(
    stationId: seq<Byte>,
    observationTime: ObservationTime,
    wind: Wind,
    visibility: seq<Byte>,
    weather: seq<seq<Byte>>,
    cloudLayers: seq<CloudLayer>,
    temperature: int,
    dewPoint: int,
    altimeter: int,  // in hundredths of an inch of mercury
    remarks: seq<Byte>)

  const ZeroWind := Wind(0, 0, 0)

  /** The zero value of the record, from which the parser starts. */
  const ZeroMetar := Metar([], ZeroTime, ZeroWind, [], [], [], 0, 0, 0, [])

  const RMK: seq<Byte> := "RMK"

  datatype ErrorKind =
    | Incomplete              // fewer than two fields
    | InvalidObservationTime  // the second field is shorter than six bytes

  /** What a call of ParseMETAR ends in: the record and no error, an error together with the
      record as far as it was filled in, or a run-time panic. */
  datatype Outcome = Parsed(metar: Metar) | Failed(kind: ErrorKind, partial: Metar) | Panicked

  /** Some match of p begins somewhere in field. */
  ghost predicate Contains(p: Pattern, field: seq<Byte>) {
    exists j: nat, g :: MatchesAt(p, field, j, g)
  }

  lemma FoundIffContains(p: Pattern, field: seq<Byte>)
    ensures FindStringSubmatch(p, field).Some? <==> Contains(p, field)
  {
    FindStringSubmatchIsLeftmost(p, field);
  }

  // ---------------------------------------------------------------- station and time

  /** Day, hour and minute from bytes [0,2), [2,4) and [4,6) of the second field. */
  function ObservationTimeOf(field: seq<Byte>): (t: ObservationTime)
    requires |field| >= 6
    ensures t == Observed(TwoByteValue(field[0], field[1]), TwoByteValue(field[2], field[3]),
                          TwoByteValue(field[4], field[5]))
  {
    var timeStr := field[..6];
    AtoiTwoBytes(timeStr[..2]);
    AtoiTwoBytes(timeStr[2..4]);
    AtoiTwoBytes(timeStr[4..6]);
    Observed(Atoi(timeStr[..2]), Atoi(timeStr[2..4]), Atoi(timeStr[4..6]))
  }

  // ---------------------------------------------------------------- wind

  /** The wind read from one field: the groups of the leftmost wind match, as numbers. */
  function WindOf(field: seq<Byte>): (w: Wind)
    ensures 0 <= w.direction < 1000 && 0 <= w.speed < 1000 && 0 <= w.gust < 1000
    ensures !Contains(WindPattern, field) ==> w == ZeroWind
    ensures FindStringSubmatch(WindPattern, field).Some? ==>
      var g := FindStringSubmatch(WindPattern, field).value;
      w.direction == (if g[1] == "VRB" then 0 else Decimal(g[1])) &&
      w.speed == Decimal(g[2]) &&
      w.gust == (if g[3] == [] then 0 else Decimal(g[3][1..]))
  {
    FoundIffContains(WindPattern, field);
    match FindStringSubmatch(WindPattern, field)
    case None => ZeroWind
    case Some(g) => WindOfGroups(g)
  }

  /** The wind for the groups of one wind match. */
  function WindOfGroups(g: Groups): (w: Wind)
    requires Matches(WindPattern, g)
    ensures 0 <= w.direction < 1000 && 0 <= w.speed < 1000 && 0 <= w.gust < 1000
    ensures w.direction == (if g[1] == "VRB" then 0 else Decimal(g[1]))
    ensures w.speed == Decimal(g[2])
    ensures w.gust == (if g[3] == [] then 0 else Decimal(g[3][1..]))
  {
    var direction := if g[1] != "VRB" then (AtoiOfDigits(g[1]); Atoi(g[1])) else 0;
    AtoiOfDigits(g[2]);
    var speed := Atoi(g[2]);
    var gust := if g[3] != [] then (AtoiOfDigits(g[3][1..]); Atoi(g[3][1..])) else 0;
    Wind(direction, speed, gust)
  }

  /** The wind of a report: read from the third field, when there is one. */
  function WindFrom(parts: seq<seq<Byte>>): (w: Wind)
    ensures |parts| <= 2 ==> w == ZeroWind
    ensures 0 <= w.direction < 1000 && 0 <= w.speed < 1000 && 0 <= w.gust < 1000
  {
    if |parts| > 2 then WindOf(parts[2]) else ZeroWind
  }

  /** The wind depends on the third field alone. */
  lemma WindOnlyFromThirdField(parts: seq<seq<Byte>>, others: seq<seq<Byte>>)
    requires |parts| > 2 && |others| > 2 && parts[2] == others[2]
    ensures WindFrom(parts) == WindFrom(others)
  {
  }

  // ---------------------------------------------------------------- first matches

  /** The groups of the match in the first field of fields that has one. */
  function FirstMatch(p: Pattern, fields: seq<seq<Byte>>): (r: Option<Groups>)
    ensures r.Some? ==> Matches(p, r.value)
    ensures r.None? <==> forall k :: 0 <= k < |fields| ==> FindStringSubmatch(p, fields[k]).None?
  {
    if fields == [] then None
    else if FindStringSubmatch(p, fields[0]).Some? then FindStringSubmatch(p, fields[0])
    else
      var r := FirstMatch(p, fields[1..]);
      assert forall k :: 1 <= k < |fields| ==> fields[1..][k - 1] == fields[k];
      r
  }

  /** The first field with a match decides: the fields before k have none, field k has one. */
  lemma {:induction false} FirstMatchIs(p: Pattern, fields: seq<seq<Byte>>, k: nat)
    requires k < |fields| && FindStringSubmatch(p, fields[k]).Some?
    requires forall j :: 0 <= j < k ==> FindStringSubmatch(p, fields[j]).None?
    ensures FirstMatch(p, fields) == FindStringSubmatch(p, fields[k])
  {
    if k > 0 {
      assert fields[1..][k - 1] == fields[k];
      FirstMatchIs(p, fields[1..], k - 1);
    }
  }

  /** The index of the field FirstMatch takes its groups from. */
  lemma {:induction false} FirstMatchIndex(p: Pattern, fields: seq<seq<Byte>>) returns (k: nat)
    requires FirstMatch(p, fields).Some?
    ensures k < |fields| && FindStringSubmatch(p, fields[k]) == FirstMatch(p, fields)
    ensures forall j :: 0 <= j < k ==> FindStringSubmatch(p, fields[j]).None?
  {
    if FindStringSubmatch(p, fields[0]).Some? {
      k := 0;
    } else {
      assert FirstMatch(p, fields) == FirstMatch(p, fields[1..]);
      var k' := FirstMatchIndex(p, fields[1..]);
      k := k' + 1;
      assert fields[k] == fields[1..][k'];
      forall j | 0 <= j < k ensures FindStringSubmatch(p, fields[j]).None? {
        if j > 0 {
          assert fields[j] == fields[1..][j - 1];
        }
      }
    }
  }

  /** First match wins, in terms of the patterns themselves: FirstMatch finds nothing exactly
      when no field contains a match, and otherwise takes the groups of the leftmost match in
      the first field that contains one. */
  lemma FirstMatchIsFirstContaining(p: Pattern, fields: seq<seq<Byte>>)
    ensures FirstMatch(p, fields).None? <==> forall k :: 0 <= k < |fields| ==> !Contains(p, fields[k])
    ensures FirstMatch(p, fields).Some? ==>
      exists k :: 0 <= k < |fields| && Contains(p, fields[k]) &&
        FirstMatch(p, fields) == FindStringSubmatch(p, fields[k]) &&
        forall j :: 0 <= j < k ==> !Contains(p, fields[j])
  {
    forall k | 0 <= k < |fields| {
      FoundIffContains(p, fields[k]);
    }
    if FirstMatch(p, fields).Some? {
      var k := FirstMatchIndex(p, fields);
    }
  }

  // ---------------------------------------------------------------- visibility

  /** The visibility: the digits of the first match followed by SM, or empty. */
  function VisibilityOf(fields: seq<seq<Byte>>): (v: seq<Byte>)
    ensures v == [] <==> FirstMatch(VisibilityPattern, fields).None?
    ensures v != [] ==> v == FirstMatch(VisibilityPattern, fields).value[0]
    ensures v != [] ==> |v| >= 3 && AllDigits(v[..|v| - 2]) && v[|v| - 2..] == "SM"
  {
    match FirstMatch(VisibilityPattern, fields)
    case None => []
    case Some(g) =>
      assert (g[1] + "SM")[..|g[1]|] == g[1];
      g[1] + "SM"
  }

  // ---------------------------------------------------------------- cloud layers

  /** The layer for the groups of one cloud match: the coverage code, and the height code in
      hundreds of feet converted to feet. */
  function LayerOf(g: Groups): (layer: CloudLayer)
    requires Matches(CloudPattern, g)
    ensures layer.coverage in Coverages
    ensures 0 <= layer.height <= 99900 && layer.height % 100 == 0
    ensures layer.height == 100 * Decimal(g[2])
  {
    CloudLayer(g[1], Atoi(g[2]) * 100)
  }

  /** The layers contributed by one field: one when it contains a cloud match, none otherwise. */
  function LayersOfField(field: seq<Byte>): (layers: seq<CloudLayer>)
    ensures |layers| <= 1
    ensures |layers| == 1 <==> FindStringSubmatch(CloudPattern, field).Some?
    ensures FindStringSubmatch(CloudPattern, field).Some? ==>
      var g := FindStringSubmatch(CloudPattern, field).value;
      layers == [CloudLayer(g[1], 100 * Decimal(g[2]))]
  {
    match FindStringSubmatch(CloudPattern, field)
    case None => []
    case Some(g) => [LayerOf(g)]
  }

  /** A field contributes a layer exactly when some cloud match begins somewhere in it. */
  lemma LayersOfFieldIffContains(field: seq<Byte>)
    ensures |LayersOfField(field)| == 1 <==> Contains(CloudPattern, field)
    ensures LayersOfField(field) == [] <==> !Contains(CloudPattern, field)
  {
    FoundIffContains(CloudPattern, field);
  }

  ghost predicate ValidLayer(layer: CloudLayer) {
    layer.coverage in Coverages && 0 <= layer.height <= 99900 && layer.height % 100 == 0
  }

  /** The cloud layers of a report: those of each field, in field order. */
  function CloudLayersOf(fields: seq<seq<Byte>>): (layers: seq<CloudLayer>)
    ensures |layers| <= |fields|
    ensures forall k :: 0 <= k < |layers| ==> ValidLayer(layers[k])
  {
    if fields == [] then []
    else CloudLayersOf(fields[..|fields| - 1]) + LayersOfField(fields[|fields| - 1])
  }

  /** Layers keep the order of the fields: those of a concatenation are those of each part. */
  lemma {:induction false} CloudLayersOfConcat(a: seq<seq<Byte>>, b: seq<seq<Byte>>)
    ensures CloudLayersOf(a + b) == CloudLayersOf(a) + CloudLayersOf(b)
    decreases |b|
  {
    if b == [] {
      assert a + b == a;
    } else {
      var b' := b[..|b| - 1];
      assert (a + b)[..|a + b| - 1] == a + b';
      CloudLayersOfConcat(a, b');
    }
  }

  /** The layers of the fields before k, then those of field k, then those of the fields after. */
  lemma {:induction false} CloudLayersAround(fields: seq<seq<Byte>>, k: nat)
    requires k < |fields|
    ensures CloudLayersOf(fields) ==
      CloudLayersOf(fields[..k]) + LayersOfField(fields[k]) + CloudLayersOf(fields[k + 1..])
  {
    var before, single, after := fields[..k], [fields[k]], fields[k + 1..];
    assert fields == before + (single + after);
    CloudLayersOfThree(before, single, after);
    CloudLayersOfOne(fields[k]);
  }

  lemma CloudLayersOfThree(a: seq<seq<Byte>>, b: seq<seq<Byte>>, c: seq<seq<Byte>>)
    ensures CloudLayersOf(a + (b + c)) == CloudLayersOf(a) + CloudLayersOf(b) + CloudLayersOf(c)
  {
    CloudLayersOfConcat(a, b + c);
    CloudLayersOfConcat(b, c);
  }

  /** A single field contributes the layers of that field. */
  lemma CloudLayersOfOne(field: seq<Byte>)
    ensures CloudLayersOf([field]) == LayersOfField(field)
  {
    var single: seq<seq<Byte>> := [field];
    assert single[..0] == [];
  }

  /** The number of fields that contain a match of p. */
  ghost function CountContaining(p: Pattern, fields: seq<seq<Byte>>): nat {
    if fields == [] then 0
    else (if Contains(p, fields[0]) then 1 else 0) + CountContaining(p, fields[1..])
  }

  /** One layer for each field that contains a cloud match, taken from its leftmost match. */
  lemma {:induction false} CloudLayersOfCount(fields: seq<seq<Byte>>)
    ensures |CloudLayersOf(fields)| == CountContaining(CloudPattern, fields)
  {
    if fields != [] {
      FoundIffContains(CloudPattern, fields[0]);
      assert [fields[0]] + fields[1..] == fields;
      CloudLayersOfConcat([fields[0]], fields[1..]);
      var single: seq<seq<Byte>> := [fields[0]];
      assert single[..0] == [];
      assert CloudLayersOf(single) == LayersOfField(fields[0]);
      CloudLayersOfCount(fields[1..]);
    }
  }

  // ---------------------------------------------------------------- temperature, dew point, altimeter

  /** Temperature and dew point, from the first field with a two-digit/two-digit match. */
  function TemperatureDewPointOf(fields: seq<seq<Byte>>): (td: (int, int))
    ensures 0 <= td.0 <= 99 && 0 <= td.1 <= 99
    ensures FirstMatch(TemperaturePattern, fields).None? ==> td == (0, 0)
    ensures FirstMatch(TemperaturePattern, fields).Some? ==>
      var g := FirstMatch(TemperaturePattern, fields).value;
      td == (Decimal(g[1]), Decimal(g[2]))
  {
    match FirstMatch(TemperaturePattern, fields)
    case None => (0, 0)
    case Some(g) => (Atoi(g[1]), Atoi(g[2]))
  }

  /** The altimeter setting in hundredths of an inch, from the first field with an A and four
      digits. */
  function AltimeterOf(fields: seq<seq<Byte>>): (hundredths: int)
    ensures 0 <= hundredths <= 9999
    ensures FirstMatch(AltimeterPattern, fields).None? ==> hundredths == 0
    ensures FirstMatch(AltimeterPattern, fields).Some? ==>
      hundredths == Decimal(FirstMatch(AltimeterPattern, fields).value[1])
  {
    match FirstMatch(AltimeterPattern, fields)
    case None => 0
    case Some(g) => Atoi(g[1])
  }

  // ---------------------------------------------------------------- remarks

  /** The smallest index of slice whose element is item, or -1. */
  function FirstIndexOf(slice: seq<seq<Byte>>, item: seq<Byte>): (r: int)
    ensures r == -1 <==> item !in slice
    ensures r != -1 ==> 0 <= r < |slice| && slice[r] == item && item !in slice[..r]
  {
    if slice == [] then -1
    else if slice[0] == item then 0
    else
      var k := FirstIndexOf(slice[1..], item);
      assert slice == [slice[0]] + slice[1..];
      if k == -1 then -1
      else
        assert slice[..k + 1] == [slice[0]] + slice[1..][..k];
        k + 1
  }

  /** The remarks: the fields from the first RMK on, joined by single spaces, or empty. */
  function RemarksOf(parts: seq<seq<Byte>>): (r: seq<Byte>)
    ensures RMK !in parts ==> r == []
    ensures RMK in parts ==> |r| >= 3 && r[..3] == RMK
  {
    var rmkIndex := FirstIndexOf(parts, RMK);
    if rmkIndex != -1 then Join(parts[rmkIndex..], " ") else []
  }

  /** The remarks start at the first field that is exactly RMK, whatever follows it. */
  lemma RemarksFromFirstRMK(parts: seq<seq<Byte>>, k: nat)
    requires k < |parts| && parts[k] == RMK && RMK !in parts[..k]
    ensures RemarksOf(parts) == Join(parts[k..], " ")
  {
  }

  // ---------------------------------------------------------------- the whole report

  /** The record built from the fields of a report with at least two fields and an observation
      time of at least six bytes. Visibility is searched in the fields from the fourth on. */
  function Extract(parts: seq<seq<Byte>>): (m: Metar)
    requires |parts| >= 2 && |parts[1]| >= 6
    ensures m.stationId == parts[0] && m.weather == []
    ensures m.observationTime == Observed(TwoByteValue(parts[1][0], parts[1][1]),
      TwoByteValue(parts[1][2], parts[1][3]), TwoByteValue(parts[1][4], parts[1][5]))
    ensures |parts| == 2 ==> m.wind == ZeroWind
    ensures |parts| > 2 ==> m.wind == WindOf(parts[2])
    ensures |parts| <= 3 ==> m.visibility == []
    ensures |m.cloudLayers| <= |parts| && forall k :: 0 <= k < |m.cloudLayers| ==> ValidLayer(m.cloudLayers[k])
    ensures 0 <= m.temperature <= 99 && 0 <= m.dewPoint <= 99 && 0 <= m.altimeter <= 9999
    ensures m.remarks == [] <==> RMK !in parts
  {
    var td := TemperatureDewPointOf(parts);
    Metar(
      stationId := parts[0],
      observationTime := ObservationTimeOf(parts[1]),
      wind := WindFrom(parts),
      visibility := VisibilityOf(if |parts| >= 3 then parts[3..] else []),
      weather := [],
      cloudLayers := CloudLayersOf(parts),
      temperature := td.0,
      dewPoint := td.1,
      altimeter := AltimeterOf(parts),
      remarks := RemarksOf(parts))
  }

  /** ParseMETAR on the fields of a report, as written: with exactly two fields the slice of
      the fields from the fourth on is out of range and the call panics. */
  function ParseFields(parts: seq<seq<Byte>>): (r: Outcome)
    ensures r.Failed? <==> |parts| < 2 || |parts[1]| < 6
    ensures |parts| < 2 ==> r == Failed(Incomplete, ZeroMetar)
    ensures |parts| >= 2 && |parts[1]| < 6 ==>
      r == Failed(InvalidObservationTime, ZeroMetar.(stationId := parts[0]))
    ensures r.Panicked? <==> |parts| == 2 && |parts[1]| >= 6
    ensures r.Parsed? <==> |parts| >= 3 && |parts[1]| >= 6
    ensures r.Parsed? ==> r.metar == Extract(parts)
  {
    if |parts| < 2 then Failed(Incomplete, ZeroMetar)
    else if |parts[1]| < 6 then Failed(InvalidObservationTime, ZeroMetar.(stationId := parts[0]))
    else if |parts| < 3 then Panicked
    else Parsed(Extract(parts))
  }

  /** ParseMETAR, as written. Only two conditions end in an error: fewer than two fields, and a
      second field shorter than six bytes; the error carries the record as far as it was filled
      in. The call panics exactly on a report of two fields with a long enough second field. */
  function Parse(metarString: seq<Byte>): (r: Outcome)
    ensures var parts := Fields(metarString);
      (r.Failed? <==> |parts| < 2 || |parts[1]| < 6) &&
      (r.Failed? && r.kind == Incomplete <==> |parts| < 2) &&
      (|parts| < 2 ==> r.partial == ZeroMetar) &&
      (|parts| >= 2 && |parts[1]| < 6 ==> r == Failed(InvalidObservationTime, ZeroMetar.(stationId := parts[0]))) &&
      (r == Panicked <==> |parts| == 2 && |parts[1]| >= 6) &&
      (r.Parsed? <==> |parts| >= 3 && |parts[1]| >= 6)
  {
    ParseFields(Fields(metarString))
  }

  /** ParseMETAR as evidently intended: the visibility search over the fields from the fourth
      on finds nothing when there are fewer than four, instead of panicking. It never panics,
      and agrees with the parser as written wherever that one does not panic. */
  function ParseCorrected(metarString: seq<Byte>): (r: Outcome)
    ensures r != Panicked
    ensures Parse(metarString) != Panicked ==> r == Parse(metarString)
    ensures Parse(metarString) == Panicked ==> r == Parsed(Extract(Fields(metarString))) &&
                                               r.metar.visibility == []
  {
    var parts := Fields(metarString);
    if |parts| < 2 then Failed(Incomplete, ZeroMetar)
    else if |parts[1]| < 6 then Failed(InvalidObservationTime, ZeroMetar.(stationId := parts[0]))
    else Parsed(Extract(parts))
  }
}
