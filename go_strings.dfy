/** The pieces of Go's standard library that the METAR parser calls on its strings:
    strings.Fields, strings.Join and strconv.Atoi (with its error discarded).
    A Go string is a sequence of bytes, and len and slicing count bytes, so the model works
    on byte sequences throughout. */
module GoStrings {

  /** One byte of a Go string, written as the character with the same code (0..255), so that
      ASCII text can be written as string literals. */
  type Byte = c: char | c as int < 256

  datatype Option<+T> = None | Some(value: T)

  predicate IsDigit(b: Byte) {
    '0' <= b <= '9'
  }

  predicate AllDigits(s: seq<Byte>) {
    forall i :: 0 <= i < |s| ==> IsDigit(s[i])
  }

  /** The number of bytes of the white-space character (in the sense of unicode.IsSpace) whose
      UTF-8 encoding begins s, or 0 when s does not begin with one. Every such encoding begins
      with a byte that cannot continue a multi-byte character, and every byte after the first is
      at least 0x80. */
  function SpaceLen(s: seq<Byte>): (n: nat)
    ensures n <= 3 && n <= |s|
    ensures n > 0 ==> s[0] as int < 0x80 || s[0] as int >= 0xC0
    ensures forall j :: 1 <= j < n ==> 0x80 <= s[j] as int < 0xC0
  {
    if |s| >= 1 && (s[0] == ' ' || '\t' <= s[0] <= '\r') then 1
    // U+0085 and U+00A0
    else if |s| >= 2 && s[0] as int == 0xC2 && (s[1] as int == 0x85 || s[1] as int == 0xA0) then 2
    // U+1680
    else if |s| >= 3 && s[0] as int == 0xE1 && s[1] as int == 0x9A && s[2] as int == 0x80 then 3
    // U+2000 to U+200A, U+2028, U+2029 and U+202F
    else if |s| >= 3 && s[0] as int == 0xE2 && s[1] as int == 0x80 &&
            (0x80 <= s[2] as int <= 0x8A || s[2] as int == 0xA8 || s[2] as int == 0xA9 || s[2] as int == 0xAF) then 3
    // U+205F
    else if |s| >= 3 && s[0] as int == 0xE2 && s[1] as int == 0x81 && s[2] as int == 0x9F then 3
    // U+3000
    else if |s| >= 3 && s[0] as int == 0xE3 && s[1] as int == 0x80 && s[2] as int == 0x80 then 3
    else 0
  }

  /** Whether a white-space character is recognised only depends on its own bytes: t and u
      agree on their first |t| bytes. */
  lemma SpaceLenOfPrefix(t: seq<Byte>, u: seq<Byte>)
    requires |t| <= |u| && t == u[..|t|]
    ensures SpaceLen(t) > 0 ==> SpaceLen(u) == SpaceLen(t)
    ensures SpaceLen(u) <= |t| ==> SpaceLen(t) == SpaceLen(u)
  {
    if |t| >= 1 { assert t[0] == u[0]; }
    if |t| >= 2 { assert t[1] == u[1]; }
    if |t| >= 3 { assert t[2] == u[2]; }
  }

  /** A field of strings.Fields: non-empty, and no white-space character starts inside it. */
  predicate IsWord(f: seq<Byte>) {
    f != [] && forall j :: 0 <= j < |f| ==> SpaceLen(f[j..]) == 0
  }

  /** The length of the run of bytes at the start of s before the first white-space character. */
  function WordLen(s: seq<Byte>): (n: nat)
    ensures n <= |s|
    ensures forall j :: 0 <= j < n ==> SpaceLen(s[j..]) == 0
    ensures n < |s| ==> SpaceLen(s[n..]) > 0
  {
    if s == [] || SpaceLen(s) > 0 then 0
    else
      var n := 1 + WordLen(s[1..]);
      assert forall j :: 1 <= j <= |s| ==> s[1..][j - 1..] == s[j..];
      n
  }

  /** strings.Fields: the maximal runs of non-white-space bytes of s, in order. */
  function Fields(s: seq<Byte>): (fs: seq<seq<Byte>>)
    ensures forall k :: 0 <= k < |fs| ==> IsWord(fs[k])
    decreases |s|
  {
    if s == [] then []
    else if SpaceLen(s) > 0 then Fields(s[SpaceLen(s)..])
    else
      var n := WordLen(s);
      var w := s[..n];
      assert IsWord(w) by {
        forall j | 0 <= j < n ensures SpaceLen(w[j..]) == 0 {
          SpaceLenOfPrefix(w[j..], s[j..]);
        }
      }
      [w] + Fields(s[n..])
  }

  /** strings.Join: the elements of xs with sep between each two neighbours. */
  function Join(xs: seq<seq<Byte>>, sep: seq<Byte>): (r: seq<Byte>)
    ensures |xs| > 0 ==> |xs[0]| <= |r| && r[..|xs[0]|] == xs[0]
  {
    if |xs| == 0 then []
    else if |xs| == 1 then xs[0]
    else xs[0] + sep + Join(xs[1..], sep)
  }

  /** No white-space character starts at the beginning of u when none starts at the beginning
      of its prefix t and the byte after t is ASCII. */
  lemma NoSpaceBeforeAscii(t: seq<Byte>, u: seq<Byte>)
    requires 1 <= |t| < |u| && t == u[..|t|] && u[|t|] as int < 0x80
    requires SpaceLen(t) == 0
    ensures SpaceLen(u) == 0
  {
    SpaceLenOfPrefix(t, u);
  }

  /** WordLen stops exactly at the end of a word followed by a space. */
  lemma WordLenBeforeSpace(w: seq<Byte>, s: seq<Byte>)
    requires IsWord(w) && |w| < |s| && s[..|w|] == w && s[|w|] == ' '
    ensures WordLen(s) == |w|
  {
    forall j | 0 <= j < |w| ensures SpaceLen(s[j..]) == 0 {
      assert w[j..] == s[j..][..|w| - j];
      assert s[j..][|w| - j] == ' ';
      NoSpaceBeforeAscii(w[j..], s[j..]);
    }
    assert s[|w|..][0] == ' ';
  }

  /** WordLen of a word on its own is its length. */
  lemma WordLenOfWord(w: seq<Byte>)
    requires IsWord(w)
    ensures WordLen(w) == |w|
  {
  }

  /** Fields at a byte that starts no white space: the word there comes first. */
  lemma FieldsAtWord(s: seq<Byte>)
    requires s != [] && SpaceLen(s) == 0
    ensures Fields(s) == [s[..WordLen(s)]] + Fields(s[WordLen(s)..])
  {
  }

  /** Fields at a single ASCII space: the space is skipped. */
  lemma FieldsAtSpace(s: seq<Byte>)
    requires s != [] && s[0] == ' '
    ensures Fields(s) == Fields(s[1..])
  {
  }

  /** A word followed by a space is the first field. */
  lemma FieldsOfWordThenSpace(w: seq<Byte>, s: seq<Byte>)
    requires IsWord(w) && |w| < |s| && s[..|w|] == w && s[|w|] == ' '
    ensures Fields(s) == [w] + Fields(s[|w| + 1..])
  {
    WordLenBeforeSpace(w, s);
    assert SpaceLen(s[0..]) == 0;
    assert s[0..] == s;
    FieldsAtWord(s);
    var after := s[|w|..];
    assert after[0] == ' ';
    FieldsAtSpace(after);
    assert after[1..] == s[|w| + 1..];
  }

  /** A word on its own is its only field. */
  lemma FieldsOfWord(w: seq<Byte>)
    requires IsWord(w)
    ensures Fields(w) == [w]
  {
    WordLenOfWord(w);
    assert w[0..] == w;
    assert w[|w|..] == [];
    assert w[..|w|] == w;
  }

  /** Round trip: splitting words joined by single spaces gives the words back. */
  lemma {:induction false} FieldsOfJoin(fs: seq<seq<Byte>>)
    requires forall k :: 0 <= k < |fs| ==> IsWord(fs[k])
    ensures Fields(Join(fs, " ")) == fs
  {
    if |fs| == 1 {
      FieldsOfWord(fs[0]);
    } else if |fs| > 1 {
      var s := Join(fs, " ");
      assert s == fs[0] + " " + Join(fs[1..], " ");
      assert s[|fs[0]|] == ' ';
      assert s[|fs[0]| + 1..] == Join(fs[1..], " ");
      FieldsOfWordThenSpace(fs[0], s);
      FieldsOfJoin(fs[1..]);
      assert fs == [fs[0]] + fs[1..];
    }
  }

  // ---------------------------------------------------------------- fields and white-space runs

  /** A run of white-space characters, possibly empty. */
  ghost predicate IsSpaceRun(r: seq<Byte>)
    decreases |r|
  {
    r == [] || (SpaceLen(r) > 0 && IsSpaceRun(r[SpaceLen(r)..]))
  }

  /** seps[0] + fs[0] + seps[1] + fs[1] + ... + fs[|fs| - 1] + seps[|fs|]. */
  function Interleave(seps: seq<seq<Byte>>, fs: seq<seq<Byte>>): (s: seq<Byte>)
    requires |seps| == |fs| + 1
  {
    if fs == [] then seps[0] else seps[0] + (fs[0] + Interleave(seps[1..], fs[1..]))
  }

  /** Separators for n fields: n + 1 white-space runs, of which all but the outer two are
      non-empty. */
  ghost predicate Separators(seps: seq<seq<Byte>>, n: nat) {
    |seps| == n + 1 &&
    (forall i :: 0 <= i < |seps| ==> IsSpaceRun(seps[i])) &&
    (forall i :: 0 < i < n ==> seps[i] != [])
  }

  /** No white-space character starts at the beginning of a + t when none starts at the
      beginning of a and t begins with one: a multi-byte white-space character cannot reach
      into t, whose first byte is no continuation byte. */
  lemma NoSpaceAcross(a: seq<Byte>, t: seq<Byte>)
    requires a != [] && SpaceLen(a) == 0 && SpaceLen(t) > 0
    ensures SpaceLen(a + t) == 0
  {
    var u := a + t;
    assert a == u[..|a|];
    SpaceLenOfPrefix(a, u);
  }

  /** A word followed by text that begins with white space is the first field. */
  lemma FieldsOfWordThenSpaces(w: seq<Byte>, t: seq<Byte>)
    requires IsWord(w) && SpaceLen(t) > 0
    ensures Fields(w + t) == [w] + Fields(t)
  {
    var s := w + t;
    forall j | 0 <= j < |w| ensures SpaceLen(s[j..]) == 0 {
      assert s[j..] == w[j..] + t;
      NoSpaceAcross(w[j..], t);
    }
    assert s[|w|..] == t;
    assert WordLen(s) == |w|;
    assert s[0..] == s;
    assert s[..|w|] == w;
  }

  /** A run of white space in front of rest changes nothing. */
  lemma {:induction false} FieldsSkipsSpaceRun(r: seq<Byte>, rest: seq<Byte>)
    requires IsSpaceRun(r)
    ensures Fields(r + rest) == Fields(rest)
    decreases |r|
  {
    if r == [] {
      assert r + rest == rest;
    } else {
      var n := SpaceLen(r);
      assert r == (r + rest)[..|r|];
      SpaceLenOfPrefix(r, r + rest);
      assert (r + rest)[n..] == r[n..] + rest;
      FieldsSkipsSpaceRun(r[n..], rest);
    }
  }

  /** The first separator is where an interleaving begins. */
  lemma InterleaveStartsWithSpace(seps: seq<seq<Byte>>, fs: seq<seq<Byte>>)
    requires |seps| == |fs| + 1 && seps[0] != [] && IsSpaceRun(seps[0])
    ensures SpaceLen(Interleave(seps, fs)) > 0
  {
    var s := Interleave(seps, fs);
    var r := seps[0];
    assert SpaceLen(r) > 0;
    if fs != [] {
      var x := fs[0] + Interleave(seps[1..], fs[1..]);
      assert s == r + x;
      assert r == (r + x)[..|r|];
    }
    assert r == s[..|r|];
    SpaceLenOfPrefix(r, s);
  }

  /** Dropping the first field and its separator leaves separators for the rest. */
  lemma SeparatorsTail(seps: seq<seq<Byte>>, n: nat)
    requires n > 0 && Separators(seps, n)
    ensures Separators(seps[1..], n - 1)
  {
    assert forall i :: 0 <= i < n ==> seps[1..][i] == seps[i + 1];
  }

  /** After the first field, what follows is empty or begins with white space. */
  lemma NextSeparatorIsSpace(seps: seq<seq<Byte>>, fs: seq<seq<Byte>>)
    requires fs != [] && Separators(seps, |fs|)
    requires Interleave(seps[1..], fs[1..]) != []
    ensures SpaceLen(Interleave(seps[1..], fs[1..])) > 0
  {
    assert seps[1..][0] == seps[1];
    assert seps[1] != [] by {
      if fs[1..] == [] {
        assert Interleave(seps[1..], fs[1..]) == seps[1];
      }
    }
    InterleaveStartsWithSpace(seps[1..], fs[1..]);
  }

  /** Fields inverts Interleave: words separated by white-space runs, with any run (even none)
      in front of the first and after the last, split back into those words. */
  lemma {:induction false} FieldsOfInterleave(seps: seq<seq<Byte>>, fs: seq<seq<Byte>>)
    requires Separators(seps, |fs|)
    requires forall k :: 0 <= k < |fs| ==> IsWord(fs[k])
    ensures Fields(Interleave(seps, fs)) == fs
  {
    if fs == [] {
      FieldsSkipsSpaceRun(seps[0], []);
      assert seps[0] + [] == seps[0];
    } else {
      var x := Interleave(seps[1..], fs[1..]);
      FieldsSkipsSpaceRun(seps[0], fs[0] + x);
      if x == [] {
        assert fs[0] + x == fs[0];
        FieldsOfWord(fs[0]);
      } else {
        NextSeparatorIsSpace(seps, fs);
        FieldsOfWordThenSpaces(fs[0], x);
        SeparatorsTail(seps, |fs|);
        FieldsOfInterleave(seps[1..], fs[1..]);
      }
      assert fs == [fs[0]] + fs[1..];
    }
  }

  /** A single white-space character in front of the first separator keeps them separators. */
  lemma SeparatorsWidenFirst(c: seq<Byte>, seps: seq<seq<Byte>>, n: nat)
    requires SpaceLen(c) == |c| > 0 && Separators(seps, n)
    ensures Separators([c + seps[0]] + seps[1..], n)
  {
    var front := c + seps[0];
    assert c == front[..|c|];
    SpaceLenOfPrefix(c, front);
    assert front[|c|..] == seps[0];
    var wider := [front] + seps[1..];
    assert forall i :: 0 < i < |wider| ==> wider[i] == seps[i];
  }

  /** Widening the first separator puts the extra text in front. */
  lemma InterleaveWidenFirst(c: seq<Byte>, seps: seq<seq<Byte>>, fs: seq<seq<Byte>>)
    requires |seps| == |fs| + 1
    ensures Interleave([c + seps[0]] + seps[1..], fs) == c + Interleave(seps, fs)
  {
    var wider := [c + seps[0]] + seps[1..];
    assert wider[1..] == seps[1..];
  }

  /** An empty separator in front of a new first field keeps them separators when the old
      first separator is non-empty or there were no fields. */
  lemma SeparatorsNewField(seps: seq<seq<Byte>>, n: nat)
    requires Separators(seps, n) && (n > 0 ==> seps[0] != [])
    ensures Separators([[]] + seps, n + 1)
  {
    var more: seq<seq<Byte>> := [[]] + seps;
    assert forall i :: 0 < i < |more| ==> more[i] == seps[i - 1];
  }

  /** The separators of s when it begins with white space: those of the rest, with the first
      widened by that white-space character. */
  lemma SeparatorsAtSpace(s: seq<Byte>, more: seq<seq<Byte>>) returns (seps: seq<seq<Byte>>)
    requires SpaceLen(s) > 0
    requires Separators(more, |Fields(s[SpaceLen(s)..])|)
    requires s[SpaceLen(s)..] == Interleave(more, Fields(s[SpaceLen(s)..]))
    ensures Separators(seps, |Fields(s)|) && s == Interleave(seps, Fields(s)) && seps[0] != []
  {
    var n := SpaceLen(s);
    var c, rest := s[..n], s[n..];
    assert Fields(s) == Fields(rest);
    assert SpaceLen(c) == n by { SpaceLenOfPrefix(c, s); }
    SeparatorsWidenFirst(c, more, |Fields(rest)|);
    InterleaveWidenFirst(c, more, Fields(rest));
    seps := [c + more[0]] + more[1..];
    assert s == c + rest;
  }

  /** The separators of s when it begins with a word w: an empty one in front of w, then those
      of the rest. */
  lemma SeparatorsAtWord(s: seq<Byte>, w: seq<Byte>, rest: seq<Byte>, more: seq<seq<Byte>>)
    returns (seps: seq<seq<Byte>>)
    requires s == w + rest && Fields(s) == [w] + Fields(rest)
    requires Separators(more, |Fields(rest)|) && rest == Interleave(more, Fields(rest))
    requires rest != [] ==> more[0] != []
    ensures Separators(seps, |Fields(s)|) && s == Interleave(seps, Fields(s))
  {
    assert Fields(rest) != [] ==> rest != [];
    SeparatorsNewField(more, |Fields(rest)|);
    InterleaveNewField(w, more, Fields(rest));
    seps := [[]] + more;
  }

  /** A new first field behind an empty separator goes in front. */
  lemma InterleaveNewField(w: seq<Byte>, seps: seq<seq<Byte>>, fs: seq<seq<Byte>>)
    requires |seps| == |fs| + 1
    ensures Interleave([[]] + seps, [w] + fs) == w + Interleave(seps, fs)
  {
    var more: seq<seq<Byte>> := [[]] + seps;
    var fields := [w] + fs;
    assert more[1..] == seps && fields[1..] == fs;
  }

  /** Every text is its fields interleaved with white-space runs: the runs between fields are
      non-empty, and the run in front is non-empty when the text begins with white space. */
  lemma {:induction false} FieldsSeparators(s: seq<Byte>) returns (seps: seq<seq<Byte>>)
    ensures Separators(seps, |Fields(s)|) && s == Interleave(seps, Fields(s))
    ensures SpaceLen(s) > 0 ==> seps[0] != []
    decreases |s|
  {
    if s == [] {
      seps := [[]];
    } else if SpaceLen(s) > 0 {
      var more := FieldsSeparators(s[SpaceLen(s)..]);
      seps := SeparatorsAtSpace(s, more);
    } else {
      var w, rest := s[..WordLen(s)], s[WordLen(s)..];
      var more := FieldsSeparators(rest);
      FieldsAtWord(s);
      assert s == w + rest;
      seps := SeparatorsAtWord(s, w, rest, more);
    }
  }

  function Pow10(n: nat): (p: nat)
    ensures p >= 1
  {
    if n == 0 then 1 else 10 * Pow10(n - 1)
  }

  function DigitValue(b: Byte): (d: nat)
    requires IsDigit(b)
    ensures d <= 9
  {
    b as int - '0' as int
  }

  /** The value of a run of decimal digits, most significant first. */
  function Decimal(s: seq<Byte>): (n: nat)
    requires AllDigits(s)
    ensures n < Pow10(|s|)
  {
    if s == [] then 0 else Decimal(s[..|s| - 1]) * 10 + DigitValue(s[|s| - 1])
  }

  /** strconv.Atoi with its error ignored, for inputs shorter than 19 bytes (the fast path, where
      no overflow can occur): an optional sign followed by at least one decimal digit gives its
      value, and anything else fails and gives 0. */
  function Atoi(s: seq<Byte>): (n: int)
    requires |s| < 19
    ensures AllDigits(s) ==> 0 <= n < Pow10(|s|)
    ensures -(Pow10(|s|) as int) < n < Pow10(|s|)
    ensures n < 0 ==> s[0] == '-' && AllDigits(s[1..])
    ensures n != 0 ==> AllDigits(s) || (|s| >= 2 && (s[0] == '-' || s[0] == '+') && AllDigits(s[1..]))
    ensures s != [] && AllDigits(s) ==> n == Decimal(s)
    ensures |s| >= 2 && s[0] == '-' && AllDigits(s[1..]) ==> n == -(Decimal(s[1..]) as int)
    ensures |s| >= 2 && s[0] == '+' && AllDigits(s[1..]) ==> n == Decimal(s[1..])
  {
    if s == [] then 0
    else if s[0] == '-' || s[0] == '+' then
      var digits := s[1..];
      if digits != [] && AllDigits(digits) then
        assert Pow10(|digits|) <= Pow10(|s|);
        if s[0] == '-' then -(Decimal(digits) as int) else Decimal(digits)
      else 0
    else if AllDigits(s) then Decimal(s)
    else 0
  }

  /** Atoi of a run of one to three digits is its decimal value, below 1000. */
  lemma AtoiOfDigits(s: seq<Byte>)
    requires 1 <= |s| <= 3 && AllDigits(s)
    ensures Atoi(s) == Decimal(s) < 1000
  {
    assert Pow10(|s|) <= Pow10(3) == 1000;
  }

  /** The value of a two-byte string read as a decimal number, by cases: two digits, a sign
      followed by a digit, and 0 for anything else. */
  function TwoByteValue(a: Byte, b: Byte): (n: int)
    ensures -9 <= n <= 99
  {
    if IsDigit(a) && IsDigit(b) then 10 * DigitValue(a) + DigitValue(b)
    else if a == '-' && IsDigit(b) then -(DigitValue(b) as int)
    else if a == '+' && IsDigit(b) then DigitValue(b)
    else 0
  }

  /** Atoi of two bytes is their TwoByteValue. */
  lemma AtoiTwoBytes(s: seq<Byte>)
    requires |s| == 2
    ensures Atoi(s) == TwoByteValue(s[0], s[1])
  {
    if s[0] == '-' || s[0] == '+' {
      assert s[1..][..0] == [];
    } else if AllDigits(s) {
      assert s[..1][..0] == [] && s[..1][0] == s[0];
      assert Decimal(s[..1]) == DigitValue(s[0]);
      assert s[..|s| - 1] == s[..1];
    }
  }
}
