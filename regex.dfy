/** The five regular expressions the METAR parser compiles, and Go's FindStringSubmatch over
    them. The patterns carry no anchors, so a match may begin anywhere inside the searched
    field; Go's regexp package reports the match that begins leftmost and, at that position,
    the one a backtracking matcher would try first (leftmost-first semantics). */
module Regex {
  import opened GoStrings

  datatype Pattern =
    | WindPattern         // three digits or VRB; two or three digits; optionally G and two or three digits; KT
    | VisibilityPattern   // one or more digits; SM
    | CloudPattern        // FEW, SCT, BKN or OVC; three digits
    | TemperaturePattern  // two digits; a slash; two digits
    | AltimeterPattern    // A; four digits

  /** What FindStringSubmatch returns: the whole match first, then one entry per capture group
      (the empty string for a group that took no part in the match). */
  type Groups = seq<seq<Byte>>

  const Coverages: set<seq<Byte>> := {"FEW", "SCT", "BKN", "OVC"}

  function GroupCount(p: Pattern): (n: nat)
    ensures 1 <= n <= 3
  {
    match p
    case WindPattern => 3
    case VisibilityPattern => 1
    case CloudPattern => 2
    case TemperaturePattern => 2
    case AltimeterPattern => 1
  }

  predicate DigitsOfLength(s: seq<Byte>, lo: nat, hi: nat) {
    lo <= |s| <= hi && AllDigits(s)
  }

  /** The reference reading of each pattern: g[0] is a string the pattern matches as a whole,
      and g[1..] are its capture groups. */
  predicate Matches(p: Pattern, g: Groups) {
    |g| == GroupCount(p) + 1 &&
    match p
    case WindPattern =>
      (g[1] == "VRB" || DigitsOfLength(g[1], 3, 3)) && DigitsOfLength(g[2], 2, 3) &&
      (g[3] == [] || (g[3][0] == 'G' && DigitsOfLength(g[3][1..], 2, 3))) &&
      g[0] == g[1] + g[2] + g[3] + "KT"
    case VisibilityPattern =>
      DigitsOfLength(g[1], 1, |g[1]|) && g[0] == g[1] + "SM"
    case CloudPattern =>
      g[1] in Coverages && DigitsOfLength(g[2], 3, 3) && g[0] == g[1] + g[2]
    case TemperaturePattern =>
      DigitsOfLength(g[1], 2, 2) && DigitsOfLength(g[2], 2, 2) && g[0] == g[1] + "/" + g[2]
    case AltimeterPattern =>
      DigitsOfLength(g[1], 4, 4) && g[0] == "A" + g[1]
  }

  /** g is a match of p that begins at byte i of s. */
  predicate MatchesAt(p: Pattern, s: seq<Byte>, i: nat, g: Groups) {
    Matches(p, g) && i + |g[0]| <= |s| && s[i..i + |g[0]|] == g[0]
  }

  lemma SplitSlice(s: seq<Byte>, i: nat, a: seq<Byte>, b: seq<Byte>)
    requires i + |a| + |b| <= |s| && s[i..i + |a| + |b|] == a + b
    ensures s[i..i + |a|] == a && s[i + |a|..i + |a| + |b|] == b
  {
    var t := s[i..i + |a| + |b|];
    assert t[..|a|] == a && t[|a|..] == b;
    assert s[i..i + |a|] == t[..|a|];
    assert s[i + |a|..i + |a| + |b|] == t[|a|..];
  }

  /** The length of the run of digits at the start of s. */
  function DigitRun(s: seq<Byte>): (n: nat)
    ensures n <= |s| && AllDigits(s[..n])
    ensures n < |s| ==> !IsDigit(s[n])
  {
    if s != [] && IsDigit(s[0]) then
      var n := 1 + DigitRun(s[1..]);
      assert s[..n] == [s[0]] + s[1..][..n - 1];
      n
    else 0
  }

  /** The digit run is m when the first m bytes are digits and the byte after them is not. */
  lemma {:induction false} DigitRunIs(t: seq<Byte>, m: nat)
    requires m <= |t| && AllDigits(t[..m])
    requires m < |t| ==> !IsDigit(t[m])
    ensures DigitRun(t) == m
  {
    if m > 0 {
      assert t[..m][0] == t[0];
      assert t[1..][..m - 1] == t[..m][1..];
      DigitRunIs(t[1..], m - 1);
    }
  }

  predicate GustKTAt(s: seq<Byte>, k: nat, n: nat) {
    k + n + 3 <= |s| && s[k] == 'G' && AllDigits(s[k + 1..k + 1 + n]) && s[k + 1 + n..k + 3 + n] == "KT"
  }

  /** The optional gust group and the closing KT at byte k, in the order the matcher prefers
      them: G and three digits, G and two digits, no gust. Gives the gust group and the end of
      the match. */
  function WindTail(s: seq<Byte>, k: nat): (r: Option<(seq<Byte>, nat)>)
    ensures r.Some? ==> var (gust, e) := r.value;
      e == k + |gust| + 2 <= |s| && s[k..e] == gust + "KT" &&
      (gust == [] || (gust[0] == 'G' && DigitsOfLength(gust[1..], 2, 3)))
  {
    if GustKTAt(s, k, 3) then
      assert s[k..k + 6] == s[k..k + 4] + s[k + 4..k + 6];
      assert s[k..k + 4][1..] == s[k + 1..k + 4];
      Some((s[k..k + 4], k + 6))
    else if GustKTAt(s, k, 2) then
      assert s[k..k + 5] == s[k..k + 3] + s[k + 3..k + 5];
      assert s[k..k + 3][1..] == s[k + 1..k + 3];
      Some((s[k..k + 3], k + 5))
    else if k + 2 <= |s| && s[k..k + 2] == "KT" then Some(([], k + 2))
    else None
  }

  /** A speed group of n digits at byte j followed by the tail. */
  function SpeedAndTail(s: seq<Byte>, j: nat, n: nat): (r: Option<(seq<Byte>, nat)>)
    ensures r.Some? ==> j + n <= |s| && AllDigits(s[j..j + n]) && var (gust, e) := r.value;
      e == j + n + |gust| + 2 <= |s| && s[j + n..e] == gust + "KT" &&
      (gust == [] || (gust[0] == 'G' && DigitsOfLength(gust[1..], 2, 3)))
  {
    if j + n <= |s| && AllDigits(s[j..j + n]) then WindTail(s, j + n) else None
  }

  /** The wind pattern at byte i: the direction group, then the speed group with three digits
      tried before two, then the tail. */
  function WindAt(s: seq<Byte>, i: nat): (r: Option<Groups>)
    ensures r.Some? ==> MatchesAt(WindPattern, s, i, r.value)
  {
    if i + 3 <= |s| && (AllDigits(s[i..i + 3]) || s[i..i + 3] == "VRB") then
      var j := i + 3;
      var n := if SpeedAndTail(s, j, 3).Some? then 3 else 2;
      var t := SpeedAndTail(s, j, n);
      if t.Some? then
        WindGroupsAt(s, i, n, t.value.0, t.value.1);
        Some([s[i..t.value.1], s[i..j], s[j..j + n], t.value.0])
      else None
    else None
  }

  lemma WindGroupsAt(s: seq<Byte>, i: nat, n: nat, gust: seq<Byte>, e: nat)
    requires i + 3 + n <= e <= |s| && 2 <= n <= 3
    requires AllDigits(s[i..i + 3]) || s[i..i + 3] == "VRB"
    requires AllDigits(s[i + 3..i + 3 + n])
    requires e == i + 3 + n + |gust| + 2 && s[i + 3 + n..e] == gust + "KT"
    requires gust == [] || (gust[0] == 'G' && DigitsOfLength(gust[1..], 2, 3))
    ensures MatchesAt(WindPattern, s, i, [s[i..e], s[i..i + 3], s[i + 3..i + 3 + n], gust])
  {
    assert s[i..e] == s[i..i + 3] + s[i + 3..i + 3 + n] + s[i + 3 + n..e];
  }

  /** The visibility pattern at byte i. The digit group is greedy, and a shorter digit run would
      leave a digit where S must stand, so the longest run is the only candidate. */
  function VisibilityAt(s: seq<Byte>, i: nat): (r: Option<Groups>)
    ensures r.Some? ==> MatchesAt(VisibilityPattern, s, i, r.value)
  {
    if i <= |s| then
      var n := DigitRun(s[i..]);
      if n >= 1 && i + n + 2 <= |s| && s[i + n..i + n + 2] == "SM" then
        assert s[i..i + n] == s[i..][..n];
        assert s[i..i + n + 2] == s[i..i + n] + s[i + n..i + n + 2];
        Some([s[i..i + n + 2], s[i..i + n]])
      else None
    else None
  }

  function CloudAt(s: seq<Byte>, i: nat): (r: Option<Groups>)
    ensures r.Some? ==> MatchesAt(CloudPattern, s, i, r.value)
  {
    if i + 6 <= |s| && s[i..i + 3] in Coverages && AllDigits(s[i + 3..i + 6]) then
      assert s[i..i + 6] == s[i..i + 3] + s[i + 3..i + 6];
      Some([s[i..i + 6], s[i..i + 3], s[i + 3..i + 6]])
    else None
  }

  function TemperatureAt(s: seq<Byte>, i: nat): (r: Option<Groups>)
    ensures r.Some? ==> MatchesAt(TemperaturePattern, s, i, r.value)
  {
    if i + 5 <= |s| && AllDigits(s[i..i + 2]) && s[i + 2] == '/' && AllDigits(s[i + 3..i + 5]) then
      assert s[i..i + 5] == s[i..i + 2] + [s[i + 2]] + s[i + 3..i + 5];
      Some([s[i..i + 5], s[i..i + 2], s[i + 3..i + 5]])
    else None
  }

  function AltimeterAt(s: seq<Byte>, i: nat): (r: Option<Groups>)
    ensures r.Some? ==> MatchesAt(AltimeterPattern, s, i, r.value)
  {
    if i + 5 <= |s| && s[i] == 'A' && AllDigits(s[i + 1..i + 5]) then
      assert s[i..i + 5] == [s[i]] + s[i + 1..i + 5];
      Some([s[i..i + 5], s[i + 1..i + 5]])
    else None
  }

  /** The match of p that the matcher reports when it starts at byte i of s, if any. */
  function MatchAt(p: Pattern, s: seq<Byte>, i: nat): (r: Option<Groups>)
    ensures r.Some? ==> MatchesAt(p, s, i, r.value)
  {
    match p
    case WindPattern => WindAt(s, i)
    case VisibilityPattern => VisibilityAt(s, i)
    case CloudPattern => CloudAt(s, i)
    case TemperaturePattern => TemperatureAt(s, i)
    case AltimeterPattern => AltimeterAt(s, i)
  }

  lemma WindTailComplete(s: seq<Byte>, k: nat, gust: seq<Byte>)
    requires gust == [] || (gust[0] == 'G' && DigitsOfLength(gust[1..], 2, 3))
    requires k + |gust| + 2 <= |s| && s[k..k + |gust| + 2] == gust + "KT"
    ensures WindTail(s, k).Some?
  {
    SplitSlice(s, k, gust, "KT");
    if gust != [] {
      SplitSlice(s, k, [gust[0]], gust[1..]);
      assert [gust[0]] + gust[1..] == gust;
      assert s[k] == s[k..k + 1][0];
      var n := |gust| - 1;
      assert s[k + 1..k + 1 + n] == gust[1..];
      assert GustKTAt(s, k, n);
    }
  }

  lemma WindAtComplete(s: seq<Byte>, i: nat, g: Groups)
    requires MatchesAt(WindPattern, s, i, g)
    ensures WindAt(s, i).Some?
  {
    var j := i + 3;
    var k := j + |g[2]|;
    var tail := g[3] + "KT";
    assert g[0] == (g[1] + g[2]) + tail;
    SplitSlice(s, i, g[1] + g[2], tail);
    SplitSlice(s, i, g[1], g[2]);
    WindTailComplete(s, k, g[3]);
    assert SpeedAndTail(s, j, |g[2]|).Some?;
  }

  lemma VisibilityAtComplete(s: seq<Byte>, i: nat, g: Groups)
    requires MatchesAt(VisibilityPattern, s, i, g)
    ensures VisibilityAt(s, i).Some?
  {
    var d := g[1];
    SplitSlice(s, i, d, "SM");
    var n := DigitRun(s[i..]);
    assert s[i..][..|d|] == d;
    assert s[i..][|d|] == 'S';
    DigitRunIs(s[i..], |d|);
    assert 1 <= n && i + n + 2 <= |s| && s[i + n..i + n + 2] == "SM";
  }

  lemma CloudAtComplete(s: seq<Byte>, i: nat, g: Groups)
    requires MatchesAt(CloudPattern, s, i, g)
    ensures CloudAt(s, i).Some?
  {
    assert |g[1]| == 3;
    SplitSlice(s, i, g[1], g[2]);
  }

  lemma TemperatureAtComplete(s: seq<Byte>, i: nat, g: Groups)
    requires MatchesAt(TemperaturePattern, s, i, g)
    ensures TemperatureAt(s, i).Some?
  {
    SplitSlice(s, i, g[1], "/" + g[2]);
    SplitSlice(s, i + 2, "/", g[2]);
    assert s[i + 2] == s[i + 2..i + 3][0];
  }

  lemma AltimeterAtComplete(s: seq<Byte>, i: nat, g: Groups)
    requires MatchesAt(AltimeterPattern, s, i, g)
    ensures AltimeterAt(s, i).Some?
  {
    SplitSlice(s, i, "A", g[1]);
    assert s[i] == s[i..i + 1][0];
  }

  /** Whenever some match of p begins at byte i, the matcher finds one there. */
  lemma MatchAtComplete(p: Pattern, s: seq<Byte>, i: nat, g: Groups)
    requires MatchesAt(p, s, i, g)
    ensures MatchAt(p, s, i).Some?
  {
    match p
    case WindPattern => WindAtComplete(s, i, g);
    case VisibilityPattern => VisibilityAtComplete(s, i, g);
    case CloudPattern => CloudAtComplete(s, i, g);
    case TemperaturePattern => TemperatureAtComplete(s, i, g);
    case AltimeterPattern => AltimeterAtComplete(s, i, g);
  }

  // ---------------------------------------------------------------- one match per position

  /** Where the groups of a wind match at byte i lie, and the bytes that tell their lengths:
      the byte after a two-digit speed is no digit, the byte after the speed group is G exactly
      when there is a gust group, and the byte after a two-digit gust is no digit. */
  lemma WindMatchShape(s: seq<Byte>, i: nat, g: Groups)
    requires MatchesAt(WindPattern, s, i, g)
    ensures var k := i + 3 + |g[2]|;
      k + |g[3]| + 2 <= |s| && |g[0]| == k + |g[3]| + 2 - i &&
      g[1] == s[i..i + 3] && g[2] == s[i + 3..k] && g[3] == s[k..k + |g[3]|] &&
      (|g[2]| == 3 <==> IsDigit(s[i + 5])) &&
      (g[3] == [] <==> s[k] != 'G') &&
      (g[3] != [] ==> (|g[3]| == 4 <==> IsDigit(s[k + 3])))
  {
    var k := i + 3 + |g[2]|;
    var tail := g[3] + "KT";
    assert g[0] == (g[1] + g[2]) + tail;
    SplitSlice(s, i, g[1] + g[2], tail);
    SplitSlice(s, i, g[1], g[2]);
    SplitSlice(s, k, g[3], "KT");
    assert s[k] == tail[0];
    if |g[2]| == 3 {
      assert s[i + 5] == g[2][2];
    }
    if g[3] != [] {
      assert s[k + 3] == tail[3];
      if |g[3]| == 4 {
        assert tail[3] == g[3][1..][2];
      }
    }
  }

  lemma WindMatchUnique(s: seq<Byte>, i: nat, g: Groups, h: Groups)
    requires MatchesAt(WindPattern, s, i, g) && MatchesAt(WindPattern, s, i, h)
    ensures g == h
  {
    WindMatchShape(s, i, g);
    WindMatchShape(s, i, h);
    assert |g[2]| == |h[2]|;
    assert |g[3]| == |h[3]|;
    assert g[0] == h[0];
  }

  lemma VisibilityMatchUnique(s: seq<Byte>, i: nat, g: Groups, h: Groups)
    requires MatchesAt(VisibilityPattern, s, i, g) && MatchesAt(VisibilityPattern, s, i, h)
    ensures g == h
  {
    SplitSlice(s, i, g[1], "SM");
    SplitSlice(s, i, h[1], "SM");
    assert s[i..][..|g[1]|] == g[1] && s[i..][|g[1]|] == 'S';
    assert s[i..][..|h[1]|] == h[1] && s[i..][|h[1]|] == 'S';
    DigitRunIs(s[i..], |g[1]|);
    DigitRunIs(s[i..], |h[1]|);
    assert g[0] == h[0];
  }

  lemma CloudMatchUnique(s: seq<Byte>, i: nat, g: Groups, h: Groups)
    requires MatchesAt(CloudPattern, s, i, g) && MatchesAt(CloudPattern, s, i, h)
    ensures g == h
  {
    assert |g[1]| == 3 && |h[1]| == 3;
    SplitSlice(s, i, g[1], g[2]);
    SplitSlice(s, i, h[1], h[2]);
  }

  lemma TemperatureMatchUnique(s: seq<Byte>, i: nat, g: Groups, h: Groups)
    requires MatchesAt(TemperaturePattern, s, i, g) && MatchesAt(TemperaturePattern, s, i, h)
    ensures g == h
  {
    SplitSlice(s, i, g[1], "/" + g[2]);
    SplitSlice(s, i + 2, "/", g[2]);
    SplitSlice(s, i, h[1], "/" + h[2]);
    SplitSlice(s, i + 2, "/", h[2]);
  }

  lemma AltimeterMatchUnique(s: seq<Byte>, i: nat, g: Groups, h: Groups)
    requires MatchesAt(AltimeterPattern, s, i, g) && MatchesAt(AltimeterPattern, s, i, h)
    ensures g == h
  {
    SplitSlice(s, i, "A", g[1]);
    SplitSlice(s, i, "A", h[1]);
  }

  /** At most one match of a pattern begins at a given byte, so among the matches beginning at
      the leftmost position there is nothing for leftmost-first matching to choose from. */
  lemma MatchesAtUnique(p: Pattern, s: seq<Byte>, i: nat, g: Groups, h: Groups)
    requires MatchesAt(p, s, i, g) && MatchesAt(p, s, i, h)
    ensures g == h
  {
    match p
    case WindPattern => WindMatchUnique(s, i, g, h);
    case VisibilityPattern => VisibilityMatchUnique(s, i, g, h);
    case CloudPattern => CloudMatchUnique(s, i, g, h);
    case TemperaturePattern => TemperatureMatchUnique(s, i, g, h);
    case AltimeterPattern => AltimeterMatchUnique(s, i, g, h);
  }

  /** Leftmost search: the first byte position from i on at which the matcher finds a match. */
  function FindFrom(p: Pattern, s: seq<Byte>, i: nat): (r: Option<Groups>)
    ensures r.None? ==> forall j :: i <= j <= |s| ==> MatchAt(p, s, j).None?
    ensures r.Some? ==> Matches(p, r.value)
    decreases |s| - i
  {
    if i > |s| then None
    else if MatchAt(p, s, i).Some? then MatchAt(p, s, i)
    else FindFrom(p, s, i + 1)
  }

  /** The position FindFrom takes its match from: the matcher finds it there and at no
      position between i and it. */
  lemma {:induction false} FindFromPosition(p: Pattern, s: seq<Byte>, i: nat) returns (k: nat)
    requires FindFrom(p, s, i).Some?
    ensures i <= k <= |s| && MatchAt(p, s, k) == FindFrom(p, s, i)
    ensures forall j :: i <= j < k ==> MatchAt(p, s, j).None?
    decreases |s| - i
  {
    var here := MatchAt(p, s, i);
    if here.Some? {
      k := i;
    } else {
      assert FindFrom(p, s, i) == FindFrom(p, s, i + 1);
      k := FindFromPosition(p, s, i + 1);
      forall j | i <= j < k ensures MatchAt(p, s, j).None? {
        if j == i {
          assert MatchAt(p, s, j) == here;
        }
      }
    }
  }

  /** regexp.FindStringSubmatch: the groups of the leftmost match of p in s, or nothing. */
  function FindStringSubmatch(p: Pattern, s: seq<Byte>): (r: Option<Groups>)
    ensures r.Some? ==> Matches(p, r.value)
  {
    FindFrom(p, s, 0)
  }

  /** FindStringSubmatch against the reference reading: it finds nothing exactly when no match
      of p begins anywhere in s, and what it finds is a match that begins at a position before
      which no match begins. */
  lemma {:induction false} FindStringSubmatchIsLeftmost(p: Pattern, s: seq<Byte>)
    ensures FindStringSubmatch(p, s).None? <==> forall j: nat, g :: !MatchesAt(p, s, j, g)
    ensures FindStringSubmatch(p, s).Some? ==>
      exists k: nat :: MatchesAt(p, s, k, FindStringSubmatch(p, s).value) &&
                       forall j: nat, g :: j < k ==> !MatchesAt(p, s, j, g)
  {
    var r := FindStringSubmatch(p, s);
    if r.None? {
      forall j: nat, g | MatchesAt(p, s, j, g) ensures false {
        MatchAtComplete(p, s, j, g);
      }
    } else {
      var k := FindFromPosition(p, s, 0);
      forall j: nat, g | j < k && MatchesAt(p, s, j, g) ensures false {
        MatchAtComplete(p, s, j, g);
      }
    }
  }

  /** Conversely, a match of p that begins at a position before which no match begins is
      exactly what FindStringSubmatch reports. */
  lemma LeftmostMatchIsFound(p: Pattern, s: seq<Byte>, k: nat, g: Groups)
    requires MatchesAt(p, s, k, g)
    requires forall j: nat, h :: j < k ==> !MatchesAt(p, s, j, h)
    ensures FindStringSubmatch(p, s) == Some(g)
  {
    FindStringSubmatchIsLeftmost(p, s);
    var r := FindStringSubmatch(p, s).value;
    var k' :| MatchesAt(p, s, k', r) && forall j: nat, h :: j < k' ==> !MatchesAt(p, s, j, h);
    assert k' == k;
    MatchesAtUnique(p, s, k, g, r);
  }

  /** The shortest text each pattern matches. */
  function MinLength(p: Pattern): nat {
    match p
    case WindPattern => 7
    case VisibilityPattern => 3
    case CloudPattern => 6
    case TemperaturePattern => 5
    case AltimeterPattern => 5
  }

  /** Bytes of which every match of the pattern holds at least one: the K of KT, the M of SM,
      the first letter of a coverage code, the slash, the A. */
  function KeyBytes(p: Pattern): set<Byte> {
    match p
    case WindPattern => {'K'}
    case VisibilityPattern => {'M'}
    case CloudPattern => {'F', 'S', 'B', 'O'}
    case TemperaturePattern => {'/'}
    case AltimeterPattern => {'A'}
  }

  /** A string in which the pattern finds a match is long enough and holds one of its key bytes. */
  lemma MatchNeedsKeyByte(p: Pattern, s: seq<Byte>, j: nat, g: Groups)
    requires MatchesAt(p, s, j, g)
    ensures |s| >= MinLength(p)
    ensures exists k :: 0 <= k < |s| && s[k] in KeyBytes(p)
  {
    var n := |g[0]|;
    assert forall k :: 0 <= k < n ==> s[j + k] == g[0][k];
    match p
    case WindPattern =>
      assert g[0][n - 2] == 'K';
    case VisibilityPattern =>
      assert g[0][n - 1] == 'M';
    case CloudPattern =>
      assert g[0][0] == g[1][0];
    case TemperaturePattern =>
      assert g[0][2] == '/';
    case AltimeterPattern =>
      assert g[0][0] == 'A';
  }

  /** FindStringSubmatch finds nothing in a string too short for the pattern or without any of
      its key bytes. */
  lemma NoMatchWithoutKeyByte(p: Pattern, s: seq<Byte>)
    requires |s| < MinLength(p) || forall k :: 0 <= k < |s| ==> s[k] !in KeyBytes(p)
    ensures FindStringSubmatch(p, s).None?
  {
    if FindStringSubmatch(p, s).Some? {
      var k := FindFromPosition(p, s, 0);
      MatchNeedsKeyByte(p, s, k, MatchAt(p, s, k).value);
    }
  }

  /** A match at the first byte is the one FindStringSubmatch reports. */
  lemma FoundAtStart(p: Pattern, s: seq<Byte>)
    requires MatchAt(p, s, 0).Some?
    ensures FindStringSubmatch(p, s) == MatchAt(p, s, 0)
  {
  }
}
