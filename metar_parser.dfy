/** ParseMETAR and indexOf as the program runs them: the record is filled in one assignment
    after another, and the visibility, cloud, temperature and altimeter passes are loops over
    the fields. Each method is proved to compute what MetarSpec says. */
module MetarParser {
  import opened GoStrings
  import opened Regex
  import opened MetarSpec

  /** indexOf: the first index of slice holding item, or -1 when there is none. */
  method IndexOf(slice: seq<seq<Byte>>, item: seq<Byte>) returns (r: int)
    ensures r == -1 <==> item !in slice
    ensures r != -1 ==> 0 <= r < |slice| && slice[r] == item && item !in slice[..r]
  {
    for i := 0 to |slice|
      invariant item !in slice[..i]
    {
      if slice[i] == item {
        return i;
      }
      assert slice[..i + 1] == slice[..i] + [slice[i]];
    }
    assert slice[..|slice|] == slice;
    return -1;
  }

  /** Two indices with the contract of IndexOf are the same index. */
  lemma IndexOfUnique(slice: seq<seq<Byte>>, item: seq<Byte>, r: int)
    requires r == -1 <==> item !in slice
    requires r != -1 ==> 0 <= r < |slice| && slice[r] == item && item !in slice[..r]
    ensures r == FirstIndexOf(slice, item)
  {
  }

  /** The wind pass: the groups of the leftmost wind match in the third field, when there is a
      third field, overwrite the zero wind. */
  method WindPass(parts: seq<seq<Byte>>, metar: Metar) returns (m: Metar)
    requires metar.wind == ZeroWind
    ensures m == metar.(wind := WindFrom(parts))
  {
    m := metar;
    if |parts| > 2 {
      var windMatch := FindStringSubmatch(WindPattern, parts[2]);
      if windMatch.Some? {
        var g := windMatch.value;
        if g[1] != "VRB" {
          m := m.(wind := m.wind.(direction := Atoi(g[1])));
        }
        m := m.(wind := m.wind.(speed := Atoi(g[2])));
        if g[3] != [] {
          m := m.(wind := m.wind.(gust := Atoi(g[3][1..])));
        }
      }
    }
  }

  /** The visibility pass over the fields from the fourth on: the first match wins. */
  method VisibilityPass(rest: seq<seq<Byte>>, metar: Metar) returns (m: Metar)
    requires metar.visibility == []
    ensures m == metar.(visibility := VisibilityOf(rest))
  {
    m := metar;
    var i := 0;
    while i < |rest|
      invariant 0 <= i <= |rest|
      invariant forall j :: 0 <= j < i ==> FindStringSubmatch(VisibilityPattern, rest[j]).None?
      invariant m == metar
    {
      var visMatch := FindStringSubmatch(VisibilityPattern, rest[i]);
      if visMatch.Some? {
        m := m.(visibility := visMatch.value[1] + "SM");
        FirstMatchIs(VisibilityPattern, rest, i);
        break;
      }
      i := i + 1;
    }
  }

  /** The cloud pass: one layer appended for every field with a match, in field order. */
  method CloudPass(parts: seq<seq<Byte>>, metar: Metar) returns (m: Metar)
    requires metar.cloudLayers == []
    ensures m == metar.(cloudLayers := CloudLayersOf(parts))
  {
    m := metar;
    for k := 0 to |parts|
      invariant m == metar.(cloudLayers := CloudLayersOf(parts[..k]))
    {
      var cloudMatch := FindStringSubmatch(CloudPattern, parts[k]);
      assert parts[..k + 1][..k] == parts[..k];
      if cloudMatch.Some? {
        var height := Atoi(cloudMatch.value[2]);
        m := m.(cloudLayers := m.cloudLayers + [CloudLayer(cloudMatch.value[1], height * 100)]);
      }
    }
    assert parts[..|parts|] == parts;
  }

  /** The temperature and dew point pass: the first match wins. */
  method TemperaturePass(parts: seq<seq<Byte>>, metar: Metar) returns (m: Metar)
    requires metar.temperature == 0 && metar.dewPoint == 0
    ensures m == metar.(temperature := TemperatureDewPointOf(parts).0, dewPoint := TemperatureDewPointOf(parts).1)
  {
    m := metar;
    var i := 0;
    while i < |parts|
      invariant 0 <= i <= |parts|
      invariant forall j :: 0 <= j < i ==> FindStringSubmatch(TemperaturePattern, parts[j]).None?
      invariant m == metar
    {
      var tempMatch := FindStringSubmatch(TemperaturePattern, parts[i]);
      if tempMatch.Some? {
        m := m.(temperature := Atoi(tempMatch.value[1]), dewPoint := Atoi(tempMatch.value[2]));
        FirstMatchIs(TemperaturePattern, parts, i);
        break;
      }
      i := i + 1;
    }
  }

  /** The altimeter pass: the first match wins. */
  method AltimeterPass(parts: seq<seq<Byte>>, metar: Metar) returns (m: Metar)
    requires metar.altimeter == 0
    ensures m == metar.(altimeter := AltimeterOf(parts))
  {
    m := metar;
    var i := 0;
    while i < |parts|
      invariant 0 <= i <= |parts|
      invariant forall j :: 0 <= j < i ==> FindStringSubmatch(AltimeterPattern, parts[j]).None?
      invariant m == metar
    {
      var altMatch := FindStringSubmatch(AltimeterPattern, parts[i]);
      if altMatch.Some? {
        var altInHundredths := Atoi(altMatch.value[1]);
        m := m.(altimeter := altInHundredths);
        FirstMatchIs(AltimeterPattern, parts, i);
        break;
      }
      i := i + 1;
    }
  }

  /** ParseMETAR: split into fields, reject too few fields or a short observation time, then
      fill in the record pass by pass. */
  method ParseMETAR(metarString: seq<Byte>) returns (r: Outcome)
    ensures r == Parse(metarString)
  {
    var parts := Fields(metarString);
    var metar := ZeroMetar;

    if |parts| < 2 {
      return Failed(Incomplete, metar);
    }

    metar := metar.(stationId := parts[0]);

    if |parts[1]| >= 6 {
      var timeStr := parts[1][..6];
      var day := Atoi(timeStr[..2]);
      var hour := Atoi(timeStr[2..4]);
      var min := Atoi(timeStr[4..6]);
      metar := metar.(observationTime := Observed(day, hour, min));
    } else {
      return Failed(InvalidObservationTime, metar);
    }

    metar := WindPass(parts, metar);

    // The fields from the fourth on: out of range, a run-time panic, with exactly two fields.
    if |parts| < 3 {
      return Panicked;
    }
    metar := VisibilityPass(parts[3..], metar);
    metar := CloudPass(parts, metar);
    metar := TemperaturePass(parts, metar);
    metar := AltimeterPass(parts, metar);

    var rmkIndex := IndexOf(parts, RMK);
    IndexOfUnique(parts, RMK, rmkIndex);
    if rmkIndex != -1 {
      metar := metar.(remarks := Join(parts[rmkIndex..], " "));
    }

    return Parsed(metar);
  }
}
