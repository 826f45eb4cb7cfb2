/** ParseMETAR on concrete reports: a complete report with gusts, clouds and remarks, a variable
    wind, and the reports too short to parse. */
module MetarScenarios {
  import opened GoStrings
  import opened Regex
  import opened MetarSpec

  /** A non-empty run of printable ASCII bytes is a field. */
  lemma PrintableIsWord(f: seq<Byte>)
    requires f != [] && forall j :: 0 <= j < |f| ==> '!' <= f[j] <= '~'
    ensures IsWord(f)
  {
    forall j | 0 <= j < |f| ensures SpaceLen(f[j..]) == 0 {
      assert f[j..][0] == f[j];
    }
  }

  // ---------------------------------------------------------------- single matches

  lemma WindGustMatch()
    ensures FindStringSubmatch(WindPattern, "18015G22KT") == Some(["18015G22KT", "180", "15", "G22"])
  {
    var s: seq<Byte> := "18015G22KT";
    assert s[0..3] == "180" && AllDigits(s[0..3]);
    assert s[3..6][2] == 'G';
    assert SpeedAndTail(s, 3, 3).None?;
    assert s[3..5] == "15" && AllDigits(s[3..5]);
    assert s[6..9][2] == 'K';
    assert !GustKTAt(s, 5, 3);
    assert s[6..8] == "22" && s[8..10] == "KT";
    assert GustKTAt(s, 5, 2);
    assert WindTail(s, 5) == Some((s[5..8], 10));
    assert s[5..8] == "G22";
    assert s[0..10] == s;
    FoundAtStart(WindPattern, s);
  }

  lemma VariableWindMatch()
    ensures FindStringSubmatch(WindPattern, "VRB03KT") == Some(["VRB03KT", "VRB", "03", ""])
  {
    var s: seq<Byte> := "VRB03KT";
    assert s[0..3] == "VRB";
    assert s[3..6][2] == 'K';
    assert SpeedAndTail(s, 3, 3).None?;
    assert s[3..5] == "03" && AllDigits(s[3..5]);
    assert !GustKTAt(s, 5, 3) && !GustKTAt(s, 5, 2);
    assert s[5..7] == "KT";
    assert WindTail(s, 5) == Some(([], 7));
    assert s[0..7] == s;
    FoundAtStart(WindPattern, s);
  }

  lemma VisibilityMatch()
    ensures FindStringSubmatch(VisibilityPattern, "10SM") == Some(["10SM", "10"])
  {
    var s: seq<Byte> := "10SM";
    assert s[0..][..2] == "10" && s[0..][2] == 'S';
    DigitRunIs(s[0..], 2);
    assert s[2..4] == "SM" && s[0..2] == "10" && s[0..4] == s;
    FoundAtStart(VisibilityPattern, s);
  }

  /** A field that is a coverage code and three digits is one cloud layer. */
  lemma CloudLayerField(code: seq<Byte>, digits: seq<Byte>)
    requires code in Coverages && |digits| == 3 && AllDigits(digits)
    ensures LayersOfField(code + digits) == [CloudLayer(code, 100 * Decimal(digits))]
  {
    var s := code + digits;
    assert s[0..6] == s && s[0..3] == code && s[3..6] == digits;
    FoundAtStart(CloudPattern, s);
  }

  lemma TemperatureMatch()
    ensures FindStringSubmatch(TemperaturePattern, "22/15") == Some(["22/15", "22", "15"])
  {
    var s: seq<Byte> := "22/15";
    assert s[0..2] == "22" && s[3..5] == "15" && s[0..5] == s;
    FoundAtStart(TemperaturePattern, s);
  }

  lemma AltimeterMatch()
    ensures FindStringSubmatch(AltimeterPattern, "A2992") == Some(["A2992", "2992"])
  {
    var s: seq<Byte> := "A2992";
    assert s[1..5] == "2992" && s[0..5] == s;
    FoundAtStart(AltimeterPattern, s);
  }

  predicate CoverageCodeAt(s: seq<Byte>, j: nat) {
    j + 3 <= |s| && s[j..j + 3] in Coverages
  }

  /** No cloud match where no coverage code is followed by three more bytes. */
  lemma NoCloudMatch(s: seq<Byte>)
    requires forall j: nat :: j + 6 <= |s| ==> !CoverageCodeAt(s, j)
    ensures FindStringSubmatch(CloudPattern, s).None?
  {
    if FindStringSubmatch(CloudPattern, s).Some? {
      var k := FindFromPosition(CloudPattern, s, 0);
      assert CloudAt(s, k).Some?;
      assert CoverageCodeAt(s, k);
    }
  }

  lemma DecimalOfTwo(s: seq<Byte>)
    requires |s| == 2 && AllDigits(s)
    ensures Decimal(s) == 10 * DigitValue(s[0]) + DigitValue(s[1])
  {
    assert s[..1][..0] == [];
  }

  lemma DecimalOfThree(s: seq<Byte>)
    requires |s| == 3 && AllDigits(s)
    ensures Decimal(s) == 100 * DigitValue(s[0]) + 10 * DigitValue(s[1]) + DigitValue(s[2])
  {
    DecimalOfTwo(s[..2]);
  }

  lemma DecimalOfFour(s: seq<Byte>)
    requires |s| == 4 && AllDigits(s)
    ensures Decimal(s) == 1000 * DigitValue(s[0]) + 100 * DigitValue(s[1]) + 10 * DigitValue(s[2]) + DigitValue(s[3])
  {
    DecimalOfThree(s[..3]);
  }

  // ---------------------------------------------------------------- a complete report

  /** The fields of a complete report: station, time, wind with gusts, visibility, three cloud
      layers, temperature and dew point, altimeter and remarks. */
  const ReportFields: seq<seq<Byte>> :=
    ["KBFI", "261853Z", "18015G22KT", "10SM", "FEW020", "SCT035", "BKN250", "22/15", "A2992", "RMK", "AO2", "SLP132"]

  /** The report as one line: its fields separated by single spaces. */
  function Report(): seq<Byte> {
    Join(ReportFields, " ")
  }

  lemma ReportSplitsIntoItsFields()
    ensures Fields(Report()) == ReportFields
  {
    ReportFieldsAreWords(ReportFields);
    FieldsOfJoin(ReportFields);
  }

  lemma ReportFieldsAreWords(p: seq<seq<Byte>>)
    requires p == ReportFields
    ensures forall k :: 0 <= k < |p| ==> IsWord(p[k])
  {
    forall k | 0 <= k < |p| ensures IsWord(p[k]) {
      PrintableIsWord(p[k]);
    }
  }

  /** A cloud group of the report: the coverage code and the height code. */
  lemma CloudField(f: seq<Byte>, code: seq<Byte>, digits: seq<Byte>)
    requires code in Coverages && |digits| == 3 && AllDigits(digits) && f == code + digits
    ensures LayersOfField(f) == [CloudLayer(code, 100 * Decimal(digits))]
  {
    CloudLayerField(code, digits);
  }

  /** One step of CloudLayersOf along the prefixes of the fields. */
  lemma CloudLayersOfPrefix(fs: seq<seq<Byte>>, k: nat)
    requires 0 < k <= |fs|
    ensures CloudLayersOf(fs[..k]) == CloudLayersOf(fs[..k - 1]) + LayersOfField(fs[k - 1])
  {
    assert fs[..k][..k - 1] == fs[..k - 1];
  }

  /** Fields without a cloud match add no layer. */
  lemma {:induction false} NoLayersAdded(fs: seq<seq<Byte>>, i: nat, k: nat)
    requires i <= k <= |fs|
    requires forall j :: i <= j < k ==> LayersOfField(fs[j]) == []
    ensures CloudLayersOf(fs[..k]) == CloudLayersOf(fs[..i])
    decreases k - i
  {
    if i < k {
      CloudLayersOfPrefix(fs, k);
      NoLayersAdded(fs, i, k - 1);
    }
  }

  /** A field with a cloud match adds its layer at the end. */
  lemma LayerAdded(fs: seq<seq<Byte>>, k: nat, before: seq<CloudLayer>, layer: CloudLayer)
    requires 0 < k <= |fs|
    requires CloudLayersOf(fs[..k - 1]) == before
    requires LayersOfField(fs[k - 1]) == [layer]
    ensures CloudLayersOf(fs[..k]) == before + [layer]
  {
    CloudLayersOfPrefix(fs, k);
  }

  /** The layers of twelve fields whose fifth to seventh fields are cloud groups. */
  lemma ThreeLayersInTwelveFields(p: seq<seq<Byte>>, x: CloudLayer, y: CloudLayer, z: CloudLayer)
    requires |p| == 12
    requires forall k :: 0 <= k < 4 ==> LayersOfField(p[k]) == []
    requires LayersOfField(p[4]) == [x] && LayersOfField(p[5]) == [y] && LayersOfField(p[6]) == [z]
    requires forall k :: 7 <= k < 12 ==> LayersOfField(p[k]) == []
    ensures CloudLayersOf(p) == [x, y, z]
  {
    assert p[..0] == [];
    NoLayersAdded(p, 0, 4);
    ThreeLayersAfterFour(p, x, y, z);
    NoLayersAdded(p, 7, 12);
    assert p[..12] == p;
  }

  lemma ThreeLayersAfterFour(p: seq<seq<Byte>>, x: CloudLayer, y: CloudLayer, z: CloudLayer)
    requires |p| >= 7 && CloudLayersOf(p[..4]) == []
    requires LayersOfField(p[4]) == [x] && LayersOfField(p[5]) == [y] && LayersOfField(p[6]) == [z]
    ensures CloudLayersOf(p[..7]) == [x, y, z]
  {
    LayerAdded(p, 5, [], x);
    LayerAdded(p, 6, [x], y);
    LayerAdded(p, 7, [x, y], z);
  }

  /** Station, time, wind and visibility of the report have no cloud group in them. */
  lemma ReportHeadHasNoLayers(p: seq<seq<Byte>>)
    requires p == ReportFields
    ensures forall k :: 0 <= k < 4 ==> LayersOfField(p[k]) == []
  {
    StationAndTimeHaveNoLayers(p);
    NoMatchWithoutKeyByte(CloudPattern, p[2]);
    NoMatchWithoutKeyByte(CloudPattern, p[3]);
  }

  lemma StationAndTimeHaveNoLayers(p: seq<seq<Byte>>)
    requires |p| >= 2 && p[0] == "KBFI" && p[1] == "261853Z"
    ensures LayersOfField(p[0]) == [] && LayersOfField(p[1]) == []
  {
    NoMatchWithoutKeyByte(CloudPattern, p[0]);
    NoMatchWithoutKeyByte(CloudPattern, p[1]);
  }

  /** Temperature, altimeter and remarks of the report have no cloud group in them. */
  lemma ReportTailHasNoLayers(p: seq<seq<Byte>>)
    requires p == ReportFields
    ensures forall k :: 7 <= k < 12 ==> LayersOfField(p[k]) == []
  {
    NoMatchWithoutKeyByte(CloudPattern, p[7]);
    NoMatchWithoutKeyByte(CloudPattern, p[8]);
    NoMatchWithoutKeyByte(CloudPattern, p[9]);
    NoMatchWithoutKeyByte(CloudPattern, p[10]);
    assert p[11][0..3] == "SLP";
    NoCloudMatch(p[11]);
  }

  /** A cloud group: the coverage code, and the height code 020 in hundreds of feet. */
  lemma FewGroup()
    ensures LayersOfField("FEW020") == [CloudLayer("FEW", 2000)]
  {
    DecimalOfThree("020");
    CloudField("FEW020", "FEW", "020");
  }

  lemma ScatteredGroup()
    ensures LayersOfField("SCT035") == [CloudLayer("SCT", 3500)]
  {
    DecimalOfThree("035");
    CloudField("SCT035", "SCT", "035");
  }

  lemma BrokenGroup()
    ensures LayersOfField("BKN250") == [CloudLayer("BKN", 25000)]
  {
    DecimalOfThree("250");
    CloudField("BKN250", "BKN", "250");
  }

  /** Every cloud group of the report becomes a layer, in report order. */
  lemma ReportCloudLayers(p: seq<seq<Byte>>)
    requires p == ReportFields
    ensures CloudLayersOf(p) == [CloudLayer("FEW", 2000), CloudLayer("SCT", 3500), CloudLayer("BKN", 25000)]
  {
    ReportHeadHasNoLayers(p);
    FewGroup();
    ScatteredGroup();
    BrokenGroup();
    ReportTailHasNoLayers(p);
    ThreeLayersInTwelveFields(p, CloudLayer("FEW", 2000), CloudLayer("SCT", 3500), CloudLayer("BKN", 25000));
  }

  /** Day 26, 18:53, from the time group. */
  lemma ReportTime()
    ensures ObservationTimeOf("261853Z") == Observed(26, 18, 53)
  {
  }

  /** Each pair is read on its own: a pair that is no number gives 0 and leaves the others
      alone, and a sign followed by a digit reads as a signed one-digit number. */
  lemma TimePairsReadSeparately()
    ensures ObservationTimeOf(LetterHour) == Observed(26, 0, 53)
    ensures ObservationTimeOf(SignedHour) == Observed(26, -5, 53)
  {
  }

  const LetterHour: seq<Byte> := "26XX53Z"
  const SignedHour: seq<Byte> := "26-553Z"

  /** Wind from 180 degrees at 15 knots gusting to 22. */
  lemma ReportWind()
    ensures WindOf("18015G22KT") == Wind(180, 15, 22)
  {
    WindGustMatch();
    DecimalOfThree("180");
    DecimalOfTwo("15");
    DecimalOfTwo("22");
    assert "G22"[1..] == "22";
  }

  /** A variable wind has direction 0. */
  lemma VariableWind()
    ensures WindOf("VRB03KT") == Wind(0, 3, 0)
  {
    VariableWindMatch();
    DecimalOfTwo("03");
  }

  lemma ReportVisibility(p: seq<seq<Byte>>)
    requires p == ReportFields
    ensures VisibilityOf(p[3..]) == "10SM"
  {
    VisibilityMatch();
    FirstMatchIs(VisibilityPattern, p[3..], 0);
  }

  /** No field before the temperature group has a slash in it. */
  lemma NoTemperatureInHead(p: seq<seq<Byte>>)
    requires p == ReportFields
    ensures forall j :: 0 <= j < 4 ==> FindStringSubmatch(TemperaturePattern, p[j]).None?
  {
    NoMatchWithoutKeyByte(TemperaturePattern, p[0]);
    NoMatchWithoutKeyByte(TemperaturePattern, p[1]);
    NoMatchWithoutKeyByte(TemperaturePattern, p[2]);
    NoMatchWithoutKeyByte(TemperaturePattern, p[3]);
  }

  lemma NoTemperatureInClouds(p: seq<seq<Byte>>)
    requires p == ReportFields
    ensures forall j :: 4 <= j < 7 ==> FindStringSubmatch(TemperaturePattern, p[j]).None?
  {
    NoMatchWithoutKeyByte(TemperaturePattern, p[4]);
    NoMatchWithoutKeyByte(TemperaturePattern, p[5]);
    NoMatchWithoutKeyByte(TemperaturePattern, p[6]);
  }

  /** Temperature 22 and dew point 15 degrees Celsius. */
  lemma ReportTemperature(p: seq<seq<Byte>>)
    requires p == ReportFields
    ensures TemperatureDewPointOf(p) == (22, 15)
  {
    NoTemperatureInHead(p);
    NoTemperatureInClouds(p);
    TemperatureMatch();
    FirstMatchIs(TemperaturePattern, p, 7);
    DecimalOfTwo("22");
    DecimalOfTwo("15");
  }

  /** No field before the altimeter group has an A in it. */
  lemma NoAltimeterInHead(p: seq<seq<Byte>>)
    requires p == ReportFields
    ensures forall j :: 0 <= j < 4 ==> FindStringSubmatch(AltimeterPattern, p[j]).None?
  {
    NoMatchWithoutKeyByte(AltimeterPattern, p[0]);
    NoMatchWithoutKeyByte(AltimeterPattern, p[1]);
    NoMatchWithoutKeyByte(AltimeterPattern, p[2]);
    NoMatchWithoutKeyByte(AltimeterPattern, p[3]);
  }

  lemma NoAltimeterInCloudsAndTemperature(p: seq<seq<Byte>>)
    requires p == ReportFields
    ensures forall j :: 4 <= j < 8 ==> FindStringSubmatch(AltimeterPattern, p[j]).None?
  {
    NoMatchWithoutKeyByte(AltimeterPattern, p[4]);
    NoMatchWithoutKeyByte(AltimeterPattern, p[5]);
    NoMatchWithoutKeyByte(AltimeterPattern, p[6]);
    NoMatchWithoutKeyByte(AltimeterPattern, p[7]);
  }

  /** Altimeter 29.92 inches of mercury, in hundredths. */
  lemma ReportAltimeter(p: seq<seq<Byte>>)
    requires p == ReportFields
    ensures AltimeterOf(p) == 2992
  {
    NoAltimeterInHead(p);
    NoAltimeterInCloudsAndTemperature(p);
    AltimeterMatch();
    FirstMatchIs(AltimeterPattern, p, 8);
    DecimalOfFour("2992");
  }

  lemma RemarkFields()
    ensures Join(["RMK", "AO2", "SLP132"], " ") == "RMK AO2 SLP132"
  {
  }

  /** The remarks are the last three fields, joined again. */
  lemma ReportRemarks(p: seq<seq<Byte>>)
    requires p == ReportFields
    ensures RemarksOf(p) == "RMK AO2 SLP132"
  {
    assert RMK !in p[..9];
    RemarksFromFirstRMK(p, 9);
    assert p[9..] == ["RMK", "AO2", "SLP132"];
    RemarkFields();
  }

  // ---------------------------------------------------------------- the whole report

  /** The record the complete report gives. */
  const ReportMetar: Metar := Metar(
    stationId := "KBFI",
    observationTime := Observed(26, 18, 53),
    wind := Wind(180, 15, 22),
    visibility := "10SM",
    weather := [],
    cloudLayers := [CloudLayer("FEW", 2000), CloudLayer("SCT", 3500), CloudLayer("BKN", 25000)],
    temperature := 22,
    dewPoint := 15,
    altimeter := 2992,
    remarks := "RMK AO2 SLP132")

  lemma ReportFieldsParse(p: seq<seq<Byte>>)
    requires p == ReportFields
    ensures ParseFields(p) == Parsed(ReportMetar)
  {
    assert p[0] == "KBFI" && p[1] == "261853Z" && p[2] == "18015G22KT";
    ReportTime();
    ReportWind();
    ReportVisibility(p);
    ReportCloudLayers(p);
    ReportTemperature(p);
    ReportAltimeter(p);
    ReportRemarks(p);
  }

  /** The complete report parses into its record, with no error. */
  lemma ReportParses()
    ensures Parse(Report()) == Parsed(ReportMetar)
  {
    ReportSplitsIntoItsFields();
    ReportFieldsParse(ReportFields);
  }

  // ---------------------------------------------------------------- short reports

  /** A report of one field is incomplete, and the record stays zero. */
  lemma StationOnlyIsIncomplete()
    ensures Parse("KBFI") == Failed(Incomplete, ZeroMetar)
  {
    PrintableIsWord("KBFI");
    FieldsOfWord("KBFI");
  }

  lemma TwoFieldsOf(line: seq<Byte>, a: seq<Byte>, b: seq<Byte>)
    requires IsWord(a) && IsWord(b) && line == a + " " + b
    ensures Fields(line) == [a, b]
  {
    FieldsOfJoin([a, b]);
    assert Join([a, b], " ") == a + " " + Join([b], " ");
  }

  lemma ThreeFieldsOf(line: seq<Byte>, a: seq<Byte>, b: seq<Byte>, c: seq<Byte>)
    requires IsWord(a) && IsWord(b) && IsWord(c) && line == a + " " + b + " " + c
    ensures Fields(line) == [a, b, c]
  {
    FieldsOfJoin([a, b, c]);
    assert Join([a, b, c], " ") == a + " " + Join([b, c], " ");
    assert Join([b, c], " ") == b + " " + Join([c], " ");
    assert line == a + " " + (b + " " + c);
  }

  /** A time group shorter than six bytes is rejected; the station is already in the record. */
  lemma ShortTimeIsInvalid()
    ensures Parse("KBFI 18") == Failed(InvalidObservationTime, ZeroMetar.(stationId := "KBFI"))
  {
    PrintableIsWord("KBFI");
    PrintableIsWord("18");
    TwoFieldsOf("KBFI 18", "KBFI", "18");
  }

  /** Station and time alone make ParseMETAR slice the fields from the fourth on out of range. */
  lemma StationAndTimePanics()
    ensures Parse("KBFI 261853Z") == Panicked
  {
    PrintableIsWord("KBFI");
    PrintableIsWord("261853Z");
    TwoFieldsOf("KBFI 261853Z", "KBFI", "261853Z");
  }

  lemma StationAndTimeHaveNoTemperature(p: seq<seq<Byte>>)
    requires |p| >= 2 && p[0] == "KBFI" && p[1] == "261853Z"
    ensures FindStringSubmatch(TemperaturePattern, p[0]).None? && FindStringSubmatch(TemperaturePattern, p[1]).None?
  {
    NoMatchWithoutKeyByte(TemperaturePattern, p[0]);
    NoMatchWithoutKeyByte(TemperaturePattern, p[1]);
  }

  lemma StationAndTimeHaveNoAltimeter(p: seq<seq<Byte>>)
    requires |p| >= 2 && p[0] == "KBFI" && p[1] == "261853Z"
    ensures FindStringSubmatch(AltimeterPattern, p[0]).None? && FindStringSubmatch(AltimeterPattern, p[1]).None?
  {
    NoMatchWithoutKeyByte(AltimeterPattern, p[0]);
    NoMatchWithoutKeyByte(AltimeterPattern, p[1]);
  }

  /** Station and time hold no cloud group, temperature, altimeter setting or remarks. */
  lemma StationAndTimeHaveNothingElse(p: seq<seq<Byte>>)
    requires p == ["KBFI", "261853Z"]
    ensures CloudLayersOf(p) == [] && TemperatureDewPointOf(p) == (0, 0) && AltimeterOf(p) == 0
    ensures RemarksOf(p) == []
  {
    StationAndTimeHaveNoCloudLayers(p);
    StationAndTimeHaveNoTemperature(p);
    StationAndTimeHaveNoAltimeter(p);
    assert RMK != p[0] && RMK != p[1];
  }

  lemma StationAndTimeHaveNoCloudLayers(p: seq<seq<Byte>>)
    requires p == ["KBFI", "261853Z"]
    ensures CloudLayersOf(p) == []
  {
    StationAndTimeHaveNoLayers(p);
    assert p[..0] == [] && p[..2] == p;
    NoLayersAdded(p, 0, 2);
  }

  /** Nothing but station and time: every other part of the record keeps its zero value. */
  lemma StationAndTimeExtract(p: seq<seq<Byte>>)
    requires p == ["KBFI", "261853Z"]
    ensures Extract(p) == ZeroMetar.(stationId := "KBFI", observationTime := Observed(26, 18, 53))
  {
    ReportTime();
    StationAndTimeHaveNothingElse(p);
  }

  /** The corrected parser gives station and time, and the zero value elsewhere, with no error. */
  lemma StationAndTimeCorrected()
    ensures ParseCorrected("KBFI 261853Z") == Parsed(ZeroMetar.(stationId := "KBFI", observationTime := Observed(26, 18, 53)))
  {
    PrintableIsWord("KBFI");
    PrintableIsWord("261853Z");
    TwoFieldsOf("KBFI 261853Z", "KBFI", "261853Z");
    StationAndTimeExtract(["KBFI", "261853Z"]);
  }

  lemma VariableWindFields(p: seq<seq<Byte>>)
    requires p == ["KBFI", "261853Z", "VRB03KT"]
    ensures ParseFields(p).Parsed? && ParseFields(p).metar.wind == Wind(0, 3, 0)
  {
    VariableWind();
  }

  /** A report with a variable wind parses, with direction 0, speed 3 and no gust. */
  lemma VariableWindReport()
    ensures Parse("KBFI 261853Z VRB03KT").Parsed?
    ensures Parse("KBFI 261853Z VRB03KT").metar.wind == Wind(0, 3, 0)
  {
    PrintableIsWord("KBFI");
    PrintableIsWord("261853Z");
    PrintableIsWord("VRB03KT");
    ThreeFieldsOf("KBFI 261853Z VRB03KT", "KBFI", "261853Z", "VRB03KT");
    VariableWindFields(["KBFI", "261853Z", "VRB03KT"]);
  }
}
