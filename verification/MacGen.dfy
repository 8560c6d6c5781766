/**
 Deterministic MAC addresses and DUIDs (pkg/macgen/macgen.go). The digest is a parameter: any function
 from strings to sixteen bytes. Parsing follows Go's net.ParseMAC.
 */
module MacGen {
  import opened Wrappers

  type byte = b: int | 0 <= b < 256
  type Digest = s: seq<byte> | |s| == 16 witness [0, 0, 0, 0, 0, 0, 0, 0, 0, 0, 0, 0, 0, 0, 0, 0]

  datatype Error = EmptySeed | BadHex | UnsupportedFormat | InvalidMac

  const FORMAT_COLON := "colon"
  const FORMAT_HYPHEN := "hyphen"
  const FORMAT_DOT := "dot"

  function HexDigit(n: int): (c: char)
    requires 0 <= n < 16
  {
    if n < 10 then '0' + n as char else 'a' + (n - 10) as char
  }

  function HexVal(c: char): (r: Option<int>) {
    if '0' <= c <= '9' then Some(c as int - '0' as int)
    else if 'a' <= c <= 'f' then Some(c as int - 'a' as int + 10)
    else if 'A' <= c <= 'F' then Some(c as int - 'A' as int + 10)
    else None
  }

  lemma HexDigitIs(n: int)
    requires 0 <= n < 16
    ensures HexDigit(n) == "0123456789abcdef"[n]
  {
  }

  /** The digit of either case for `v`. */
  ghost predicate IsDigit(c: char, v: int) {
    0 <= v < 16 && (c == "0123456789abcdef"[v] || c == "0123456789ABCDEF"[v])
  }

  lemma HexValIff(c: char, v: int)
    ensures HexVal(c) == Some(v) <==> IsDigit(c, v)
  {
  }

  lemma HexRange(c: char)
    ensures HexVal(c).Some? ==> 0 <= HexVal(c).value < 16
  {
  }

  /** Two lower-case hex digits. */
  function Hex2(b: byte): (s: string)
    ensures |s| == 2
  {
    [HexDigit(b / 16), HexDigit(b % 16)]
  }

  /** The byte two hex digits of either case stand for. */
  function ParseHex2(s: string): (r: Option<byte>)
    requires |s| == 2
    ensures r.Some? <==> HexVal(s[0]).Some? && HexVal(s[1]).Some?
  {
    match (HexVal(s[0]), HexVal(s[1]))
    case (Some(h), Some(l)) => Some(16 * h + l)
    case _ => None
  }

  lemma Hex2RoundTrip(b: byte)
    ensures ParseHex2(Hex2(b)) == Some(b)
  {
    assert HexVal(HexDigit(b / 16)) == Some(b / 16) && HexVal(HexDigit(b % 16)) == Some(b % 16);
  }

  function EncodeHex(bs: seq<byte>): (s: string)
    ensures |s| == 2 * |bs|
  {
    if bs == [] then "" else EncodeHex(bs[..|bs| - 1]) + Hex2(bs[|bs| - 1])
  }

  lemma {:induction false} EncodeHexAt(bs: seq<byte>, i: nat)
    requires i < |bs|
    ensures EncodeHex(bs)[2 * i..2 * i + 2] == Hex2(bs[i])
  {
    if i < |bs| - 1 {
      EncodeHexAt(bs[..|bs| - 1], i);
      assert EncodeHex(bs)[2 * i..2 * i + 2] == EncodeHex(bs[..|bs| - 1])[2 * i..2 * i + 2];
    }
  }

  /** Octets as hex pairs with `sep` between them; with ':' this is how an address is printed. */
  function Join(o: seq<byte>, sep: char): (s: string)
    ensures |s| == if o == [] then 0 else 3 * |o| - 1
  {
    if o == [] then ""
    else if |o| == 1 then Hex2(o[0])
    else Hex2(o[0]) + [sep] + Join(o[1..], sep)
  }

  /** Octets in groups of two with dots between the groups. */
  function JoinDots(o: seq<byte>): (s: string)
    requires |o| % 2 == 0
    ensures |s| == if o == [] then 0 else 5 * (|o| / 2) - 1
  {
    if o == [] then ""
    else if |o| == 2 then Hex2(o[0]) + Hex2(o[1])
    else Hex2(o[0]) + Hex2(o[1]) + "." + JoinDots(o[2..])
  }

  function Octets(md5: string -> Digest, seed: string): (o: seq<byte>)
    ensures |o| == 6
  {
    [2] + md5(seed)[..5]
  }

  predicate Supported(format: string) {
    format in {"", FORMAT_COLON, FORMAT_HYPHEN, FORMAT_DOT}
  }

  function Text(format: string, o: seq<byte>): (s: string)
    requires Supported(format) && |o| % 2 == 0
  {
    if format == FORMAT_HYPHEN then Join(o, '-') else if format == FORMAT_DOT then JoinDots(o) else Join(o, ':')
  }

  /** Derives the address through the hex text of the digest, as the program does. */
  method Generate(md5: string -> Digest, seed: string, format: string) returns (r: Result<string, Error>)
    ensures r == if seed == "" then Err(EmptySeed)
                 else if Supported(format) then Ok(Text(format, Octets(md5, seed)))
                 else Err(UnsupportedFormat)
  {
    if seed == "" {
      return Err(EmptySeed);
    }
    var fmt := if format == "" then FORMAT_COLON else format;
    var sum := md5(seed);
    var hexStr := EncodeHex(sum);
    var macBytes := new byte[6](_ => 0);
    macBytes[0] := 0x02;
    for i := 1 to 6
      invariant macBytes[0] == 0x02
      invariant forall j :: 1 <= j < i ==> macBytes[j] == sum[j - 1]
    {
      var off := 2 * (i - 1);
      EncodeHexAt(sum, i - 1);
      Hex2RoundTrip(sum[i - 1]);
      var val := ParseHex2(hexStr[off..off + 2]);
      if val.None? {
        return Err(BadHex);
      }
      macBytes[i] := val.value;
    }
    assert macBytes[..] == Octets(md5, seed);
    if fmt == FORMAT_COLON {
      return Ok(Join(macBytes[..], ':'));
    } else if fmt == FORMAT_HYPHEN {
      return Ok(Join(macBytes[..], '-'));
    } else if fmt == FORMAT_DOT {
      return Ok(JoinDots(macBytes[..]));
    }
    return Err(UnsupportedFormat);
  }

  // ---------------------------------------------------------------- parsing

  function Separated(s: string, sep: char): (r: Option<seq<byte>>)
    requires |s| % 3 == 2
    ensures r.Some? ==> |r.value| == (|s| + 1) / 3
  {
    if |s| > 2 && s[2] != sep then None
    else
      match ParseHex2(s[..2])
      case None => None
      case Some(b) =>
        if |s| == 2 then Some([b])
        else match Separated(s[3..], sep) case None => None case Some(rest) => Some([b] + rest)
  }

  function Dotted(s: string): (r: Option<seq<byte>>)
    requires |s| % 5 == 4
    ensures r.Some? ==> |r.value| == 2 * ((|s| + 1) / 5)
  {
    if |s| > 4 && s[4] != '.' then None
    else
      match (ParseHex2(s[..2]), ParseHex2(s[2..4]))
      case (Some(a), Some(b)) =>
        if |s| == 4 then Some([a, b])
        else (match Dotted(s[5..]) case None => None case Some(rest) => Some([a, b] + rest))
      case _ => None
  }

  /** Six, eight or twenty octets, separated by colons or hyphens, or dotted in pairs. */
  function ParseMac(s: string): (r: Option<seq<byte>>)
    ensures r.Some? ==> |r.value| in {6, 8, 20}
  {
    if |s| < 14 then None
    else if s[2] == ':' || s[2] == '-' then
      if (|s| + 1) % 3 == 0 && (|s| + 1) / 3 in {6, 8, 20} then Separated(s, s[2]) else None
    else if s[4] == '.' then
      if (|s| + 1) % 5 == 0 && 2 * (|s| + 1) / 5 in {6, 8, 20} then Dotted(s) else None
    else None
  }

  lemma {:induction false} SeparatedRoundTrip(o: seq<byte>, sep: char)
    requires o != []
    ensures Separated(Join(o, sep), sep) == Some(o)
  {
    Hex2RoundTrip(o[0]);
    var s := Join(o, sep);
    assert s[..2] == Hex2(o[0]);
    if |o| > 1 {
      SeparatedRoundTrip(o[1..], sep);
      assert s[2] == sep && s[3..] == Join(o[1..], sep);
      assert o == [o[0]] + o[1..];
    } else {
      assert o == [o[0]];
    }
  }

  lemma {:induction false} DottedRoundTrip(o: seq<byte>)
    requires o != [] && |o| % 2 == 0
    ensures Dotted(JoinDots(o)) == Some(o)
  {
    hide Hex2, ParseHex2;
    Hex2RoundTrip(o[0]);
    Hex2RoundTrip(o[1]);
    var s := JoinDots(o);
    if |o| == 2 {
      assert s == Hex2(o[0]) + Hex2(o[1]) && o == [o[0], o[1]];
      assert s[..2] == Hex2(o[0]) && s[2..4] == Hex2(o[1]);
    } else {
      DottedRoundTrip(o[2..]);
      assert s == Hex2(o[0]) + Hex2(o[1]) + "." + JoinDots(o[2..]);
      assert s[..2] == Hex2(o[0]) && s[2..4] == Hex2(o[1]) && s[4] == '.' && s[5..] == JoinDots(o[2..]);
      assert o == [o[0], o[1]] + o[2..];
    }
  }

  /** Each text format parses back to the octets it was made from. */
  lemma TextRoundTrip(format: string, o: seq<byte>)
    requires Supported(format) && |o| in {6, 8, 20}
    ensures ParseMac(Text(format, o)) == Some(o)
  {
    if format == FORMAT_DOT {
      DottedRoundTrip(o);
      assert JoinDots(o)[2] == Hex2(o[1])[0];
    } else {
      SeparatedRoundTrip(o, if format == FORMAT_HYPHEN then '-' else ':');
    }
  }

  /** Two texts of one format are equal only for equal octets. */
  lemma TextInjective(format: string, o: seq<byte>, p: seq<byte>)
    requires Supported(format) && |o| in {6, 8, 20} && |p| in {6, 8, 20}
    ensures Text(format, o) == Text(format, p) <==> o == p
  {
    TextRoundTrip(format, o);
    TextRoundTrip(format, p);
  }

  /** What Generate answers, parsed back: 0x02 and the first five digest bytes, whatever the format. */
  lemma GeneratedOctets(md5: string -> Digest, seed: string, format: string)
    requires Supported(format)
    ensures ParseMac(Text(format, Octets(md5, seed))) == Some([2] + md5(seed)[..5])
  {
    TextRoundTrip(format, Octets(md5, seed));
  }

  /** Two seeds share an address exactly when their digests agree on the first five bytes. */
  lemma SameMacIff(md5: string -> Digest, format: string, s: string, t: string)
    requires Supported(format)
    ensures Text(format, Octets(md5, s)) == Text(format, Octets(md5, t)) <==> md5(s)[..5] == md5(t)[..5]
  {
    TextInjective(format, Octets(md5, s), Octets(md5, t));
    assert Octets(md5, s)[1..] == md5(s)[..5] && Octets(md5, t)[1..] == md5(t)[..5];
  }

  // ---------------------------------------------------------------- what the texts look like

  /** The hex digits at `k` and `k + 1`, of either case, stand for `b`. */
  ghost predicate PairAt(s: string, k: nat, b: byte) {
    k + 1 < |s| && IsDigit(s[k], b / 16) && IsDigit(s[k + 1], b % 16)
  }

  /** Every octet as a pair of digits, with `sep` between the pairs. */
  ghost predicate Spells(s: string, o: seq<byte>, sep: char) {
    && |s| == 3 * |o| - 1
    && forall i: nat :: i < |o| ==> PairAt(s, 3 * i, o[i]) && (i + 1 < |o| ==> s[3 * i + 2] == sep)
  }

  /** Octet `i` where it belongs in dotted text. */
  ghost predicate DotPair(s: string, o: seq<byte>, i: nat)
    requires i < |o|
  {
    PairAt(s, 5 * (i / 2) + 2 * (i % 2), o[i])
    && (i % 2 == 1 && i + 1 < |o| ==> 5 * (i / 2) + 4 < |s| && s[5 * (i / 2) + 4] == '.')
  }

  /** Every two octets as four digits, with dots between the fours. */
  ghost predicate DotSpells(s: string, o: seq<byte>) {
    && |o| % 2 == 0 && |s| == 5 * (|o| / 2) - 1
    && forall i: nat :: i < |o| ==> DotPair(s, o, i)
  }

  lemma ParsePair(s: string, k: nat, b: byte)
    requires k + 1 < |s|
    ensures ParseHex2(s[k..k + 2]) == Some(b) <==> PairAt(s, k, b)
  {
    hide HexVal, IsDigit;
    HexValIff(s[k], b / 16);
    HexValIff(s[k + 1], b % 16);
    if HexVal(s[k]).Some? && HexVal(s[k + 1]).Some? {
      HexRange(s[k]);
      HexRange(s[k + 1]);
    }
  }

  lemma ShiftedPair(s: string, skip: nat, k: nat, b: byte)
    requires skip <= |s|
    ensures PairAt(s[skip..], k, b) <==> PairAt(s, skip + k, b)
  {
  }

  lemma SpellsFirst(s: string, o: seq<byte>, sep: char)
    requires o != [] && |s| > 2
    ensures Spells(s, o, sep) <==> PairAt(s, 0, o[0]) && s[2] == sep && Spells(s[3..], o[1..], sep)
  {
    hide PairAt;
    forall i: nat | i + 1 < |o|
      ensures PairAt(s, 3 * (i + 1), o[i + 1]) <==> PairAt(s[3..], 3 * i, o[1..][i])
    {
      ShiftedPair(s, 3, 3 * i, o[i + 1]);
    }
    if Spells(s, o, sep) {
      assert forall i: nat :: i + 1 < |o| ==> o[1..][i] == o[i + 1];
    }
    if PairAt(s, 0, o[0]) && s[2] == sep && Spells(s[3..], o[1..], sep) {
      forall i: nat | i < |o| ensures PairAt(s, 3 * i, o[i]) && (i + 1 < |o| ==> s[3 * i + 2] == sep) {
        if i > 0 {
          assert o[1..][i - 1] == o[i];
        }
      }
    }
  }

  lemma {:induction false} SeparatedIff(s: string, sep: char, o: seq<byte>)
    requires |s| % 3 == 2
    ensures Separated(s, sep) == Some(o) <==> Spells(s, o, sep)
  {
    hide ParseHex2, PairAt;
    if o != [] {
      ParsePair(s, 0, o[0]);
      assert s[0..2] == s[..2];
      if |s| > 2 {
        SeparatedIff(s[3..], sep, o[1..]);
        SpellsFirst(s, o, sep);
        assert o == [o[0]] + o[1..];
      } else {
        assert |o| == 1 ==> o == [o[0]];
      }
    }
  }

  lemma DotPairShifts(s: string, o: seq<byte>, i: nat)
    requires i + 2 < |o| && |s| > 4
    ensures DotPair(s, o, i + 2) <==> DotPair(s[5..], o[2..], i)
  {
    hide PairAt;
    ShiftedPair(s, 5, 5 * (i / 2) + 2 * (i % 2), o[i + 2]);
  }

  lemma DotSpellsFirst(s: string, o: seq<byte>)
    requires |o| > 1 && |s| > 4
    ensures DotSpells(s, o) <==>
            PairAt(s, 0, o[0]) && PairAt(s, 2, o[1]) && s[4] == '.' && DotSpells(s[5..], o[2..])
  {
    hide PairAt, DotPair;
    forall i: nat | i + 2 < |o| ensures DotPair(s, o, i + 2) <==> DotPair(s[5..], o[2..], i) {
      DotPairShifts(s, o, i);
    }
    assert DotPair(s, o, 0) && DotPair(s, o, 1) <==>
           PairAt(s, 0, o[0]) && PairAt(s, 2, o[1]) && (|o| > 2 ==> s[4] == '.') by {
      FirstPairs(s, o);
    }
    if DotSpells(s[5..], o[2..]) && DotPair(s, o, 0) && DotPair(s, o, 1) {
      forall i: nat | i < |o| ensures DotPair(s, o, i) {
        if i > 1 {
          assert DotPair(s[5..], o[2..], i - 2);
        }
      }
    }
  }

  lemma FirstPairs(s: string, o: seq<byte>)
    requires |o| > 1 && |s| > 4
    ensures DotPair(s, o, 0) && DotPair(s, o, 1) <==>
            PairAt(s, 0, o[0]) && PairAt(s, 2, o[1]) && (|o| > 2 ==> s[4] == '.')
  {
    hide PairAt;
  }

  lemma {:induction false} DottedIff(s: string, o: seq<byte>)
    requires |s| % 5 == 4
    ensures Dotted(s) == Some(o) <==> DotSpells(s, o)
  {
    hide ParseHex2, PairAt;
    if |o| > 1 {
      ParsePair(s, 0, o[0]);
      ParsePair(s, 2, o[1]);
      assert s[0..2] == s[..2];
      if |s| > 4 {
        DottedIff(s[5..], o[2..]);
        DotSpellsFirst(s, o);
        assert o == [o[0], o[1]] + o[2..];
      } else {
        assert |o| == 2 ==> o == [o[0], o[1]];
        assert DotSpells(s, o) ==> DotPair(s, o, 0) && DotPair(s, o, 1);
      }
    }
  }

  /** The parser takes exactly the texts that spell six, eight or twenty octets, in digits of either case. */
  lemma ParseMacIff(s: string, o: seq<byte>)
    ensures ParseMac(s) == Some(o) <==>
            |o| in {6, 8, 20} && (Spells(s, o, ':') || Spells(s, o, '-') || DotSpells(s, o))
  {
    hide Separated, Dotted, Spells, DotSpells;
    if |s| % 3 == 2 {
      SeparatedIff(s, ':', o);
      SeparatedIff(s, '-', o);
    }
    if |s| % 5 == 4 {
      DottedIff(s, o);
    }
    if |o| in {6, 8, 20} {
      if Spells(s, o, ':') || Spells(s, o, '-') {
        SpellsShape(s, o, if Spells(s, o, ':') then ':' else '-');
      }
      if DotSpells(s, o) {
        DotSpellsShape(s, o);
      }
    }
  }

  lemma SpellsShape(s: string, o: seq<byte>, sep: char)
    requires |o| > 1 && Spells(s, o, sep)
    ensures |s| == 3 * |o| - 1 && s[2] == sep
  {
    hide PairAt;
    assert o[0] == o[0] && s[3 * 0 + 2] == sep;
  }

  lemma DotSpellsShape(s: string, o: seq<byte>)
    requires |o| > 2 && DotSpells(s, o)
    ensures |o| % 2 == 0 && |s| == 5 * (|o| / 2) - 1 && s[2] !in {':', '-'} && s[4] == '.'
  {
    assert DotPair(s, o, 0) && DotPair(s, o, 1);
  }

  const LOWER_HEX := "0123456789abcdef"

  /** Nothing but lower-case digits and `sep`. */
  ghost predicate LowerHex(s: string, sep: char) {
    forall c :: c in s ==> c == sep || c in LOWER_HEX
  }

  lemma Hex2Lower(b: byte, sep: char)
    ensures LowerHex(Hex2(b), sep)
  {
    assert forall n :: 0 <= n < 16 ==> LOWER_HEX[n] in LOWER_HEX;
    HexDigitIs(b / 16);
    HexDigitIs(b % 16);
  }

  lemma {:induction false} JoinLower(o: seq<byte>, sep: char)
    ensures LowerHex(Join(o, sep), sep)
  {
    hide Hex2;
    if o != [] {
      Hex2Lower(o[0], sep);
      JoinLower(o[1..], sep);
    }
  }

  lemma {:induction false} JoinDotsLower(o: seq<byte>)
    requires |o| % 2 == 0
    ensures LowerHex(JoinDots(o), '.')
  {
    hide Hex2;
    if o != [] {
      Hex2Lower(o[0], '.');
      Hex2Lower(o[1], '.');
      JoinDotsLower(o[2..]);
    }
  }

  /** A text spells its octets in lower-case digits, in the layout of its format. */
  lemma TextSpells(format: string, o: seq<byte>)
    requires Supported(format) && o != [] && |o| % 2 == 0
    ensures var s := Text(format, o);
            if format == "dot" then DotSpells(s, o) && LowerHex(s, '.')
            else
              var sep := if format == "hyphen" then '-' else ':';
              Spells(s, o, sep) && LowerHex(s, sep)
  {
    hide Spells, DotSpells, LowerHex, Join, JoinDots;
    if format == FORMAT_DOT {
      DottedRoundTrip(o);
      DottedIff(JoinDots(o), o);
      JoinDotsLower(o);
    } else {
      var sep := if format == FORMAT_HYPHEN then '-' else ':';
      SeparatedRoundTrip(o, sep);
      SeparatedIff(Join(o, sep), sep, o);
      JoinLower(o, sep);
    }
  }

  // ---------------------------------------------------------------- DUID

  function Six(o: seq<byte>): (s: string)
    requires |o| >= 6
  {
    Hex2(o[0]) + ":" + (Hex2(o[1]) + ":" + (Hex2(o[2]) + ":" + (Hex2(o[3]) + ":" + (Hex2(o[4]) + ":" + Hex2(o[5])))))
  }

  function GenerateDUID(mac: string): (r: Result<string, Error>)
    ensures r.Ok? <==> ParseMac(mac).Some?
  {
    match ParseMac(mac)
    case None => Err(InvalidMac)
    case Some(hw) =>
      Ok("00:03:00:01:" + Six(hw))
  }

  lemma JoinFirst(o: seq<byte>, sep: char)
    requires |o| > 1
    ensures Join(o, sep) == (Hex2(o[0]) + [sep]) + Join(o[1..], sep)
  {
  }

  lemma JoinSingle(o: seq<byte>, sep: char)
    requires |o| == 1
    ensures Join(o, sep) == Hex2(o[0])
  {
  }

  lemma Regroup(w: string, x: string, y: string, z: string)
    ensures w + (x + y + z) == (w + x) + y + z
  {
  }

  lemma {:induction false} JoinConcat(a: seq<byte>, b: seq<byte>, sep: char)
    requires a != [] && b != []
    ensures Join(a + b, sep) == Join(a, sep) + [sep] + Join(b, sep)
  {
    hide Join, Hex2;
    JoinFirst(a + b, sep);
    if |a| == 1 {
      assert (a + b)[1..] == b;
      JoinSingle(a, sep);
    } else {
      assert (a + b)[1..] == a[1..] + b;
      JoinConcat(a[1..], b, sep);
      JoinFirst(a, sep);
      Regroup(Hex2(a[0]) + [sep], Join(a[1..], sep), [sep], Join(b, sep));
    }
  }

  lemma Join6(o: seq<byte>)
    requires |o| == 6
    ensures Join(o, ':') == Six(o)
  {
    assert o[1..][1..] == o[2..] && o[2..][1..] == o[3..] && o[3..][1..] == o[4..] && o[4..][1..] == o[5..];
    assert Join(o[4..], ':') == Hex2(o[4]) + ":" + Hex2(o[5]);
    assert Join(o[3..], ':') == Hex2(o[3]) + ":" + Join(o[4..], ':');
    assert Join(o[2..], ':') == Hex2(o[2]) + ":" + Join(o[3..], ':');
    assert Join(o[1..], ':') == Hex2(o[1]) + ":" + Join(o[2..], ':');
  }

  const LINK_LAYER: seq<byte> := [0, 3, 0, 1]

  lemma LinkLayerText()
    ensures Join(LINK_LAYER, ':') == "00:03:00:01"
  {
    assert Hex2(0) == "00" && Hex2(1) == "01" && Hex2(3) == "03";
    assert LINK_LAYER[1..] == [3, 0, 1] && LINK_LAYER[1..][1..] == [0, 1] && LINK_LAYER[1..][1..][1..] == [1];
    assert Join([0, 1], ':') == "00:01";
    assert Join([3, 0, 1], ':') == "03:" + Join([0, 1], ':');
  }

  lemma DuidText(mac: string)
    requires ParseMac(mac).Some?
    ensures GenerateDUID(mac).value == Join(LINK_LAYER + ParseMac(mac).value[..6], ':')
  {
    var o := ParseMac(mac).value[..6];
    Join6(o);
    LinkLayerText();
    JoinConcat(LINK_LAYER, o, ':');
    assert "00:03:00:01:" == "00:03:00:01" + ":";
  }

  /**
   The DUID spells the type 3, hardware type 1 and the first six octets of the address: the DUID-LL of
   section 11.4 of RFC 8415 exactly when the address has six octets.
   */
  lemma DuidOctets(mac: string)
    requires ParseMac(mac).Some?
    ensures var hw, duid := ParseMac(mac).value, GenerateDUID(mac).value;
            && |duid| == 29 && Separated(duid, ':') == Some(LINK_LAYER + hw[..6])
            && (Separated(duid, ':') == Some(LINK_LAYER + hw) <==> |hw| == 6)
  {
    var hw := ParseMac(mac).value;
    DuidText(mac);
    SeparatedRoundTrip(LINK_LAYER + hw[..6], ':');
    if |hw| != 6 {
      assert |LINK_LAYER + hw| != |LINK_LAYER + hw[..6]|;
    } else {
      assert hw[..6] == hw;
    }
  }

  /** Two addresses get one DUID exactly when they agree on their first six octets. */
  lemma SameDuidIff(mac: string, other: string)
    requires ParseMac(mac).Some? && ParseMac(other).Some?
    ensures GenerateDUID(mac) == GenerateDUID(other) <==> ParseMac(mac).value[..6] == ParseMac(other).value[..6]
  {
    DuidOctets(mac);
    DuidOctets(other);
    var a, b := ParseMac(mac).value[..6], ParseMac(other).value[..6];
    assert (LINK_LAYER + a)[4..] == a && (LINK_LAYER + b)[4..] == b;
    DuidText(mac);
    DuidText(other);
  }

  /** A generated address has the same DUID in all three text formats. */
  lemma DuidIgnoresFormat(md5: string -> Digest, seed: string, format: string)
    requires Supported(format)
    ensures GenerateDUID(Text(format, Octets(md5, seed))) == Ok(Join([0, 3, 0, 1, 2] + md5(seed)[..5], ':'))
  {
    TextRoundTrip(format, Octets(md5, seed));
    DuidText(Text(format, Octets(md5, seed)));
    assert LINK_LAYER + Octets(md5, seed)[..6] == [0, 3, 0, 1, 2] + md5(seed)[..5];
  }
}
