/** Properties of ParseMETAR stated on the fields of a report: what each field of the record
    holds after a successful parse. */
module MetarProperties {
  import opened GoStrings
  import opened Regex
  import opened MetarSpec

  // ---------------------------------------------------------------- the fields of a parsed report

  /** Station, observation time and wind: the first field verbatim, the day, hour and minute
      read from bytes [0,2), [2,4) and [4,6) of the second, and the wind of the third alone.
      The weather list is never filled in. */
  lemma StationTimeAndWind(parts: seq<seq<Byte>>, m: Metar)
    requires ParseFields(parts) == Parsed(m)
    ensures m.stationId == parts[0] &&
      m.observationTime == ObservationTimeOf(parts[1]) &&
      m.wind == WindOf(parts[2]) &&
      m.weather == []
  {
  }

  /** First match wins, stated field by field: FirstMatch finds nothing exactly when no field
      contains a match, and otherwise takes the groups of the leftmost match in the first field
      that contains one. */
  lemma FirstMatchWhenFirstContaining(p: Pattern, fields: seq<seq<Byte>>)
    ensures FirstMatch(p, fields).None? <==> forall k :: 0 <= k < |fields| ==> !Contains(p, fields[k])
    ensures forall k, g :: 0 <= k < |fields| && FindStringSubmatch(p, fields[k]) == Some(g) &&
                           (forall j :: 0 <= j < k ==> !Contains(p, fields[j])) ==>
      FirstMatch(p, fields) == Some(g)
  {
    FirstMatchIsFirstContaining(p, fields);
    forall k, g | 0 <= k < |fields| && FindStringSubmatch(p, fields[k]) == Some(g) &&
                  (forall j :: 0 <= j < k ==> !Contains(p, fields[j]))
      ensures FirstMatch(p, fields) == Some(g)
    {
      forall j | 0 <= j < k ensures FindStringSubmatch(p, fields[j]).None? {
        FoundIffContains(p, fields[j]);
      }
      FirstMatchIs(p, fields, k);
    }
  }

  /** Visibility: empty exactly when no field from the fourth on contains a match; otherwise the
      digits of the leftmost match g in the first such field, followed by SM. */
  lemma VisibilityIsFirstContaining(parts: seq<seq<Byte>>, m: Metar)
    requires ParseFields(parts) == Parsed(m)
    ensures var rest := parts[3..];
      (m.visibility == [] <==> forall k :: 0 <= k < |rest| ==> !Contains(VisibilityPattern, rest[k])) &&
      forall k, g :: 0 <= k < |rest| && FindStringSubmatch(VisibilityPattern, rest[k]) == Some(g) &&
                     (forall j :: 0 <= j < k ==> !Contains(VisibilityPattern, rest[j])) ==>
        m.visibility == g[1] + "SM"
  {
    assert m.visibility == VisibilityOf(parts[3..]);
    FirstMatchWhenFirstContaining(VisibilityPattern, parts[3..]);
  }

  /** Cloud layers: one per field that contains a cloud match, so never more than the fields,
      each with a coverage code and a height of whole hundreds of feet up to 99900. */
  lemma CloudLayersPerField(parts: seq<seq<Byte>>, m: Metar)
    requires ParseFields(parts) == Parsed(m)
    ensures |m.cloudLayers| == CountContaining(CloudPattern, parts) <= |parts| &&
      forall k :: 0 <= k < |m.cloudLayers| ==> ValidLayer(m.cloudLayers[k])
    ensures forall k :: 0 <= k < |parts| ==>
      m.cloudLayers == CloudLayersOf(parts[..k]) + LayersOfField(parts[k]) + CloudLayersOf(parts[k + 1..])
  {
    CloudLayersOfCount(parts);
    forall k | 0 <= k < |parts| {
      CloudLayersAround(parts, k);
    }
  }

  /** Temperature and dew point: (0, 0) when no field contains a match; otherwise the two
      numbers of the leftmost match g in the first field that contains one. */
  lemma TemperatureIsFirstContaining(parts: seq<seq<Byte>>, m: Metar)
    requires ParseFields(parts) == Parsed(m)
    ensures 0 <= m.temperature <= 99 && 0 <= m.dewPoint <= 99
    ensures (forall k :: 0 <= k < |parts| ==> !Contains(TemperaturePattern, parts[k])) ==>
      m.temperature == 0 && m.dewPoint == 0
    ensures forall k, g :: 0 <= k < |parts| && FindStringSubmatch(TemperaturePattern, parts[k]) == Some(g) &&
                           (forall j :: 0 <= j < k ==> !Contains(TemperaturePattern, parts[j])) ==>
      m.temperature == Decimal(g[1]) && m.dewPoint == Decimal(g[2])
  {
    assert m == Extract(parts);
    var td := TemperatureDewPointOf(parts);
    assert m.temperature == td.0 && m.dewPoint == td.1;
    FirstMatchWhenFirstContaining(TemperaturePattern, parts);
  }

  /** Altimeter, in hundredths of an inch: 0 when no field contains a match; otherwise the four
      digits of the leftmost match g in the first field that contains one, so at most 9999. */
  lemma AltimeterIsFirstContaining(parts: seq<seq<Byte>>, m: Metar)
    requires ParseFields(parts) == Parsed(m)
    ensures 0 <= m.altimeter <= 9999 &&
      ((forall k :: 0 <= k < |parts| ==> !Contains(AltimeterPattern, parts[k])) ==> m.altimeter == 0) &&
      forall k, g :: 0 <= k < |parts| && FindStringSubmatch(AltimeterPattern, parts[k]) == Some(g) &&
                     (forall j :: 0 <= j < k ==> !Contains(AltimeterPattern, parts[j])) ==>
        m.altimeter == Decimal(g[1])
  {
    assert m.altimeter == AltimeterOf(parts);
    FirstMatchWhenFirstContaining(AltimeterPattern, parts);
  }

  /** Remarks: empty when no field is exactly RMK; otherwise the fields from the first RMK on,
      joined by single spaces, which is text starting with RMK and splitting back into those
      fields. */
  lemma RemarksFromFirstRMKField(parts: seq<seq<Byte>>, m: Metar)
    requires ParseFields(parts) == Parsed(m)
    requires forall k :: 0 <= k < |parts| ==> IsWord(parts[k])
    ensures (RMK !in parts ==> m.remarks == []) &&
      forall k :: 0 <= k < |parts| && parts[k] == RMK && RMK !in parts[..k] ==>
        m.remarks == Join(parts[k..], " ") && m.remarks[..3] == RMK && Fields(m.remarks) == parts[k..]
  {
    forall k | 0 <= k < |parts| && parts[k] == RMK && RMK !in parts[..k]
      ensures m.remarks == Join(parts[k..], " ") && Fields(Join(parts[k..], " ")) == parts[k..]
    {
      RemarksFromFirstRMK(parts, k);
      FieldsOfJoin(parts[k..]);
    }
  }

  // ---------------------------------------------------------------- first match wins

  /** The first match is insensitive to what follows it: once the fields a hold a match, more
      fields after them change nothing; when they hold none, the fields after them decide. */
  lemma {:induction false} FirstMatchOfConcat(p: Pattern, a: seq<seq<Byte>>, b: seq<seq<Byte>>)
    ensures FirstMatch(p, a).Some? ==> FirstMatch(p, a + b) == FirstMatch(p, a)
    ensures FirstMatch(p, a).None? ==> FirstMatch(p, a + b) == FirstMatch(p, b)
  {
    if a == [] {
      assert a + b == b;
    } else {
      assert (a + b)[0] == a[0];
      assert (a + b)[1..] == a[1..] + b;
      FirstMatchOfConcat(p, a[1..], b);
    }
  }
}
