/** Hardware addresses (internal/utils/route/route.go). `ParseMac` stands for
    `net.ParseMAC` and `PrintMac` for `HardwareAddr.String` of Go's library. */
module Mac {
  import opened Basics
  import opened Text

  function HexValue(c: char): Option<int> {
    if '0' <= c <= '9' then Some(c as int - '0' as int)
    else if 'a' <= c <= 'f' then Some(c as int - 'a' as int + 10)
    else if 'A' <= c <= 'F' then Some(c as int - 'A' as int + 10)
    else None
  }

  function HexDigit(n: int, upper: bool): (c: char)
    requires 0 <= n < 16
    ensures HexValue(c) == Some(n)
    ensures !upper ==> '0' <= c <= '9' || 'a' <= c <= 'f'
  {
    if n < 10 then '0' + n as char else if upper then 'A' + (n - 10) as char else 'a' + (n - 10) as char
  }

  function HexPair(hi: char, lo: char): Option<Octet> {
    if HexValue(hi).Some? && HexValue(lo).Some? then Some(16 * HexValue(hi).value + HexValue(lo).value) else None
  }

  /** Two-digit groups separated by `sep`, to the end of the string. */
  function ParsePairs(s: string, sep: char): (r: Option<seq<Octet>>)
    ensures r.Some? ==> |s| + 1 == 3 * |r.value|
  {
    if |s| < 2 || HexPair(s[0], s[1]).None? then None
    else if |s| == 2 then Some([HexPair(s[0], s[1]).value])
    else if s[2] != sep || ParsePairs(s[3..], sep).None? then None
    else Some([HexPair(s[0], s[1]).value] + ParsePairs(s[3..], sep).value)
  }

  /** Four-digit groups separated by dots, to the end of the string. */
  function ParseQuads(s: string): (r: Option<seq<Octet>>)
    ensures r.Some? ==> 2 * (|s| + 1) == 5 * |r.value|
  {
    if |s| < 4 || HexPair(s[0], s[1]).None? || HexPair(s[2], s[3]).None? then None
    else
      var two := [HexPair(s[0], s[1]).value, HexPair(s[2], s[3]).value];
      if |s| == 4 then Some(two)
      else if s[4] != '.' || ParseQuads(s[5..]).None? then None
      else Some(two + ParseQuads(s[5..]).value)
  }

  predicate MacLength(n: int) {
    n == 6 || n == 8 || n == 20
  }

  function ParseMac(s: string): (r: Option<seq<Octet>>)
    ensures r.Some? ==> MacLength(|r.value|)
  {
    if |s| < 14 then None
    else if s[2] == ':' || s[2] == '-' then
      if (|s| + 1) % 3 == 0 && MacLength((|s| + 1) / 3) then ParsePairs(s, s[2]) else None
    else if s[4] == '.' then
      if (|s| + 1) % 5 == 0 && MacLength(2 * (|s| + 1) / 5) then ParseQuads(s) else None
    else None
  }

  /** How one octet is written: the case of each digit, and whether a leading
      zero is dropped as macOS arp does. */
  datatype Style = Style(upperHigh: bool, upperLow: bool, dropZero: bool)

  const LOWER := Style(false, false, false)

  function PrintOctet(b: Octet, st: Style): string {
    if st.dropZero && b < 16 then [HexDigit(b, st.upperLow)]
    else [HexDigit(b / 16, st.upperHigh), HexDigit(b % 16, st.upperLow)]
  }

  function PrintParts(octets: seq<Octet>, styles: seq<Style>): seq<string>
    requires |octets| == |styles|
  {
    seq(|octets|, i requires 0 <= i < |octets| => PrintOctet(octets[i], styles[i]))
  }

  function PrintStyled(octets: seq<Octet>, styles: seq<Style>): string
    requires |octets| == |styles|
  {
    Join(PrintParts(octets, styles), ':')
  }

  /** Lowercase colon-separated two-digit octets. */
  function PrintMac(octets: seq<Octet>): string {
    PrintStyled(octets, seq(|octets|, i => LOWER))
  }

  function PadPart(p: string): string {
    if |p| == 1 then "0" + p else p
  }

  function PadParts(parts: seq<string>): seq<string> {
    seq(|parts|, i requires 0 <= i < |parts| => PadPart(parts[i]))
  }

  /** The octets `CanonicalMAC` reads out of `mac`. */
  function MacOctets(mac: string): (r: Option<seq<Octet>>)
    ensures r.Some? ==> MacLength(|r.value|)
  {
    ParseMac(Join(PadParts(Split(mac, ':')), ':'))
  }

  function Canonical(mac: string): Option<string> {
    match MacOctets(mac)
    case None => None
    case Some(octets) => Some(PrintMac(octets))
  }

  /** `CanonicalMAC`: the loop restores the leading zeros in place. */
  method CanonicalMAC(mac: string) returns (r: Option<string>)
    ensures r == Canonical(mac)
    ensures r.Some? ==> Canonical(r.value) == r
  {
    var parts := Split(mac, ':');
    for i := 0 to |parts|
      invariant |parts| == |Split(mac, ':')|
      invariant forall k | 0 <= k < i :: parts[k] == PadPart(Split(mac, ':')[k])
      invariant forall k | i <= k < |parts| :: parts[k] == Split(mac, ':')[k]
    {
      if |parts[i]| == 1 {
        parts := parts[i := "0" + parts[i]];
      }
    }
    assert parts == PadParts(Split(mac, ':'));
    var hw := ParseMac(Join(parts, ':'));
    if hw.None? {
      return None;
    }
    r := Some(PrintMac(hw.value));
    CanonicalIdempotent(mac);
  }

  predicate SameMac(a: string, b: string) {
    Canonical(a).Some? && Canonical(b).Some? && Canonical(a) == Canonical(b)
  }

  // ----- round trip

  lemma {:induction false} ParseOfPairs(parts: seq<string>, octets: seq<Octet>, sep: char)
    requires |parts| == |octets| > 0
    requires forall i | 0 <= i < |parts| :: |parts[i]| == 2 && HexPair(parts[i][0], parts[i][1]) == Some(octets[i])
    ensures ParsePairs(Join(parts, sep), sep) == Some(octets)
  {
    var s := Join(parts, sep);
    if |parts| == 1 {
      assert octets == [octets[0]];
    } else {
      var tail := Join(parts[1..], sep);
      ParseOfPairs(parts[1..], octets[1..], sep);
      assert s == parts[0] + [sep] + tail;
      assert s[3..] == tail;
      assert octets == [octets[0]] + octets[1..];
    }
  }

  lemma PaddedOctet(b: Octet, st: Style)
    ensures var p := PadPart(PrintOctet(b, st)); |p| == 2 && HexPair(p[0], p[1]) == Some(b)
    ensures ':' !in PrintOctet(b, st)
  {
    assert HexValue('0') == Some(0);
    assert b == 16 * (b / 16) + b % 16;
    assert HexValue(':') == None;
  }

  /** The parts in `padded` are the two-digit forms of `octets`. */
  predicate TwoDigits(padded: seq<string>, octets: seq<Octet>) {
    |padded| == |octets|
    && forall i | 0 <= i < |padded| :: |padded[i]| == 2 && HexPair(padded[i][0], padded[i][1]) == Some(octets[i])
  }

  lemma PrintedParts(octets: seq<Octet>, styles: seq<Style>)
    requires |octets| == |styles|
    ensures TwoDigits(PadParts(PrintParts(octets, styles)), octets)
    ensures forall p | p in PrintParts(octets, styles) :: ':' !in p
  {
    var parts := PrintParts(octets, styles);
    forall i | 0 <= i < |parts|
      ensures var p := PadPart(parts[i]); |p| == 2 && HexPair(p[0], p[1]) == Some(octets[i]) && ':' !in parts[i]
    {
      PaddedOctet(octets[i], styles[i]);
    }
  }

  lemma ParseOfPadded(padded: seq<string>, octets: seq<Octet>)
    requires TwoDigits(padded, octets) && MacLength(|octets|)
    ensures ParseMac(Join(padded, ':')) == Some(octets)
  {
    ParseOfPairs(padded, octets, ':');
    SecondSeparator(padded);
  }

  lemma MacRoundTripOctets(octets: seq<Octet>, styles: seq<Style>)
    requires |octets| == |styles| && MacLength(|octets|)
    ensures MacOctets(PrintStyled(octets, styles)) == Some(octets)
  {
    var parts := PrintParts(octets, styles);
    PrintedParts(octets, styles);
    SplitOfJoin(parts, ':');
    ParseOfPadded(PadParts(parts), octets);
  }

  lemma SecondSeparator(parts: seq<string>)
    requires |parts| > 1 && |parts[0]| == 2
    ensures |Join(parts, ':')| > 2 && Join(parts, ':')[2] == ':'
  {
    assert Join(parts, ':') == parts[0] + [':'] + Join(parts[1..], ':');
  }

  /** Any mix of digit cases and dropped leading zeros canonicalises to the
      lowercase two-digit form. */
  lemma MacRoundTrip(octets: seq<Octet>, styles: seq<Style>)
    requires |octets| == |styles| && MacLength(|octets|)
    ensures Canonical(PrintStyled(octets, styles)) == Some(PrintMac(octets))
  {
    MacRoundTripOctets(octets, styles);
  }

  lemma CanonicalIdempotent(mac: string)
    requires Canonical(mac).Some?
    ensures Canonical(Canonical(mac).value) == Canonical(mac)
  {
    var octets := MacOctets(mac).value;
    MacRoundTrip(octets, seq(|octets|, i => LOWER));
  }

  /** Two texts are the same MAC exactly when both parse, to the same octets. */
  lemma SameMacIffSameOctets(a: string, b: string)
    ensures SameMac(a, b) <==> MacOctets(a).Some? && MacOctets(a) == MacOctets(b)
  {
    if SameMac(a, b) {
      var oa, ob := MacOctets(a).value, MacOctets(b).value;
      MacRoundTripOctets(oa, seq(|oa|, i => LOWER));
      MacRoundTripOctets(ob, seq(|ob|, i => LOWER));
    }
  }

  // ----- which texts are MACs

  /** `c` is the hexadecimal digit for `n`, in either case. */
  predicate IsHex(c: char, n: int)
    requires 0 <= n < 16
  {
    c == "0123456789abcdef"[n] || c == "0123456789ABCDEF"[n]
  }

  /** Two digits write the octet. */
  predicate WritesOctet(hi: char, lo: char, b: Octet) {
    IsHex(hi, b / 16) && IsHex(lo, b % 16)
  }

  /** Two digits an octet. */
  predicate PairParts(parts: seq<string>, octets: seq<Octet>) {
    |parts| == |octets| > 0
    && forall i | 0 <= i < |parts| :: |parts[i]| == 2 && WritesOctet(parts[i][0], parts[i][1], octets[i])
  }

  /** Four digits for two octets. */
  predicate QuadParts(parts: seq<string>, octets: seq<Octet>) {
    2 * |parts| == |octets| > 0
    && forall i | 0 <= i < |parts| ::
         |parts[i]| == 4 && WritesOctet(parts[i][0], parts[i][1], octets[2 * i])
         && WritesOctet(parts[i][2], parts[i][3], octets[2 * i + 1])
  }

  ghost predicate WritesPairs(s: string, octets: seq<Octet>, sep: char) {
    exists parts :: PairParts(parts, octets) && s == Join(parts, sep)
  }

  ghost predicate WritesQuads(s: string, octets: seq<Octet>) {
    exists parts :: QuadParts(parts, octets) && s == Join(parts, '.')
  }

  /** The text is a MAC of these octets: 6, 8 or 20 as colon or dash pairs or dotted quads. */
  ghost predicate WritesMac(s: string, octets: seq<Octet>) {
    MacLength(|octets|) && (WritesPairs(s, octets, ':') || WritesPairs(s, octets, '-') || WritesQuads(s, octets))
  }

  lemma HexDigits(c: char, n: int)
    requires 0 <= n < 16
    ensures HexValue(c) == Some(n) <==> IsHex(c, n)
  {
    var lower, upper := "0123456789abcdef", "0123456789ABCDEF";
    assert n < 10 ==> lower[n] == '0' + n as char == upper[n];
    assert n >= 10 ==> lower[n] == 'a' + (n - 10) as char && upper[n] == 'A' + (n - 10) as char;
  }

  lemma PairWrites(hi: char, lo: char, b: Octet)
    ensures HexPair(hi, lo) == Some(b) <==> WritesOctet(hi, lo, b)
  {
    HexDigits(hi, b / 16);
    HexDigits(lo, b % 16);
    assert b == 16 * (b / 16) + b % 16;
    if HexPair(hi, lo) == Some(b) {
      HexRange(hi);
      HexRange(lo);
    }
  }

  lemma HexRange(c: char)
    ensures HexValue(c).Some? ==> 0 <= HexValue(c).value < 16
  {
  }

  lemma PairsParsed(parts: seq<string>, octets: seq<Octet>, sep: char)
    requires PairParts(parts, octets)
    ensures ParsePairs(Join(parts, sep), sep) == Some(octets)
  {
    forall i | 0 <= i < |parts| ensures HexPair(parts[i][0], parts[i][1]) == Some(octets[i]) {
      PairWrites(parts[i][0], parts[i][1], octets[i]);
    }
    ParseOfPairs(parts, octets, sep);
  }

  lemma {:induction false} ParsedPairs(s: string, sep: char) returns (parts: seq<string>)
    requires ParsePairs(s, sep).Some?
    ensures PairParts(parts, ParsePairs(s, sep).value) && s == Join(parts, sep)
  {
    PairWrites(s[0], s[1], HexPair(s[0], s[1]).value);
    if |s| == 2 {
      parts := [s];
    } else {
      var rest := ParsedPairs(s[3..], sep);
      parts := [s[..2]] + rest;
      assert parts[1..] == rest;
      assert s == s[..2] + [sep] + s[3..];
    }
  }

  lemma {:induction false} QuadsParsed(parts: seq<string>, octets: seq<Octet>)
    requires QuadParts(parts, octets)
    ensures ParseQuads(Join(parts, '.')) == Some(octets)
  {
    var s := Join(parts, '.');
    assert |parts[0]| == 4 && WritesOctet(parts[0][0], parts[0][1], octets[2 * 0])
        && WritesOctet(parts[0][2], parts[0][3], octets[2 * 0 + 1]);
    PairWrites(parts[0][0], parts[0][1], octets[0]);
    PairWrites(parts[0][2], parts[0][3], octets[1]);
    if |parts| == 1 {
      assert octets == [octets[0], octets[1]];
    } else {
      QuadPartsTail(parts, octets);
      QuadsParsed(parts[1..], octets[2..]);
      assert s == parts[0] + ['.'] + Join(parts[1..], '.');
      assert s[5..] == Join(parts[1..], '.');
      assert octets == [octets[0], octets[1]] + octets[2..];
    }
  }

  lemma QuadPartsTail(parts: seq<string>, octets: seq<Octet>)
    requires QuadParts(parts, octets) && |parts| > 1
    ensures QuadParts(parts[1..], octets[2..])
  {
    forall i | 0 <= i < |parts[1..]|
      ensures |parts[1..][i]| == 4 && WritesOctet(parts[1..][i][0], parts[1..][i][1], octets[2..][2 * i])
              && WritesOctet(parts[1..][i][2], parts[1..][i][3], octets[2..][2 * i + 1])
    {
      assert parts[1..][i] == parts[i + 1] && octets[2..][2 * i] == octets[2 * (i + 1)];
    }
  }

  lemma QuadPartsMore(p: string, a: Octet, b: Octet, parts: seq<string>, octets: seq<Octet>)
    requires |p| == 4 && WritesOctet(p[0], p[1], a) && WritesOctet(p[2], p[3], b)
    requires (parts == [] && octets == []) || QuadParts(parts, octets)
    ensures QuadParts([p] + parts, [a, b] + octets)
  {
    var ps, os := [p] + parts, [a, b] + octets;
    forall i | 0 <= i < |ps|
      ensures |ps[i]| == 4 && WritesOctet(ps[i][0], ps[i][1], os[2 * i])
              && WritesOctet(ps[i][2], ps[i][3], os[2 * i + 1])
    {
      if i > 0 {
        assert ps[i] == parts[i - 1] && os[2 * i] == octets[2 * (i - 1)] && os[2 * i + 1] == octets[2 * (i - 1) + 1];
      }
    }
  }

  lemma {:induction false} ParsedQuads(s: string) returns (parts: seq<string>)
    requires ParseQuads(s).Some?
    ensures QuadParts(parts, ParseQuads(s).value) && s == Join(parts, '.')
  {
    var a, b := HexPair(s[0], s[1]).value, HexPair(s[2], s[3]).value;
    PairWrites(s[0], s[1], a);
    PairWrites(s[2], s[3], b);
    if |s| == 4 {
      QuadPartsMore(s, a, b, [], []);
      parts := [s];
      assert [s] + [] == parts && [a, b] + [] == ParseQuads(s).value;
    } else {
      var rest := ParsedQuads(s[5..]);
      QuadPartsMore(s[..4], a, b, rest, ParseQuads(s[5..]).value);
      parts := [s[..4]] + rest;
      assert parts[1..] == rest;
      assert s == s[..4] + ['.'] + s[5..];
    }
  }

  lemma PairsAreMac(parts: seq<string>, octets: seq<Octet>, sep: char)
    requires PairParts(parts, octets) && MacLength(|octets|) && (sep == ':' || sep == '-')
    ensures ParseMac(Join(parts, sep)) == Some(octets) && |Join(parts, sep)| >= 14
  {
    PairsParsed(parts, octets, sep);
    assert Join(parts, sep) == parts[0] + [sep] + Join(parts[1..], sep);
    PairTextIsMac(Join(parts, sep), octets, sep);
  }

  lemma PairTextIsMac(s: string, octets: seq<Octet>, sep: char)
    requires MacLength(|octets|) && |s| + 1 == 3 * |octets| && s[2] == sep && (sep == ':' || sep == '-')
    requires ParsePairs(s, sep) == Some(octets)
    ensures ParseMac(s) == Some(octets)
  {
  }

  lemma QuadsShape(parts: seq<string>, octets: seq<Octet>)
    requires QuadParts(parts, octets) && |parts| > 1
    ensures var s := Join(parts, '.'); 2 * (|s| + 1) == 5 * |octets| && s[4] == '.' && s[2] != ':' && s[2] != '-'
  {
    QuadsParsed(parts, octets);
    assert Join(parts, '.') == parts[0] + ['.'] + Join(parts[1..], '.');
    assert WritesOctet(parts[0][2], parts[0][3], octets[2 * 0 + 1]);
    HexDigits(parts[0][2], octets[1] / 16);
  }

  /** The parser accepts exactly the written forms. */
  lemma ParseMacIff(s: string, octets: seq<Octet>)
    ensures ParseMac(s) == Some(octets) <==> WritesMac(s, octets)
  {
    if ParseMac(s) == Some(octets) {
      if s[2] == ':' || s[2] == '-' {
        var parts := ParsedPairs(s, s[2]);
      } else {
        var parts := ParsedQuads(s);
      }
    }
    if WritesMac(s, octets) {
      WrittenIsParsed(s, octets);
    }
  }

  lemma QuadsAreMac(parts: seq<string>, octets: seq<Octet>)
    requires QuadParts(parts, octets) && MacLength(|octets|)
    ensures ParseMac(Join(parts, '.')) == Some(octets) && |Join(parts, '.')| >= 14
  {
    QuadsParsed(parts, octets);
    QuadsShape(parts, octets);
    QuadTextIsMac(Join(parts, '.'), octets);
  }

  lemma QuadTextIsMac(s: string, octets: seq<Octet>)
    requires MacLength(|octets|) && 2 * (|s| + 1) == 5 * |octets| && s[4] == '.' && s[2] != ':' && s[2] != '-'
    requires ParseQuads(s) == Some(octets)
    ensures ParseMac(s) == Some(octets)
  {
  }

  lemma WrittenIsParsed(s: string, octets: seq<Octet>)
    requires WritesMac(s, octets)
    ensures ParseMac(s) == Some(octets) && |s| >= 14
  {
    if WritesPairs(s, octets, ':') {
      var parts :| PairParts(parts, octets) && s == Join(parts, ':');
      PairsAreMac(parts, octets, ':');
    } else if WritesPairs(s, octets, '-') {
      var parts :| PairParts(parts, octets) && s == Join(parts, '-');
      PairsAreMac(parts, octets, '-');
    } else {
      var parts :| QuadParts(parts, octets) && s == Join(parts, '.');
      QuadsAreMac(parts, octets);
    }
  }

  /** One-digit parts between colons get their leading zero back. */
  function Padded(mac: string): string {
    Join(PadParts(Split(mac, ':')), ':')
  }

  function LowerPair(b: Octet): string {
    ["0123456789abcdef"[b / 16], "0123456789abcdef"[b % 16]]
  }

  /** Lowercase two-digit octets with colons. */
  function LowerText(octets: seq<Octet>): string {
    Join(seq(|octets|, i requires 0 <= i < |octets| => LowerPair(octets[i])), ':')
  }

  lemma LowerDigit(n: int)
    requires 0 <= n < 16
    ensures HexDigit(n, false) == "0123456789abcdef"[n]
  {
    HexDigits(HexDigit(n, false), n);
  }

  lemma PrintMacText(octets: seq<Octet>)
    ensures PrintMac(octets) == LowerText(octets)
  {
    var parts := PrintParts(octets, seq(|octets|, i => LOWER));
    forall i | 0 <= i < |parts| ensures parts[i] == LowerPair(octets[i]) {
      LowerDigit(octets[i] / 16);
      LowerDigit(octets[i] % 16);
    }
    assert parts == seq(|octets|, i requires 0 <= i < |octets| => LowerPair(octets[i]));
  }

  /** A text has a canonical form exactly if, padded, it is a MAC in one of the written
      forms; the form is those octets in lowercase colon pairs. */
  lemma CanonicalIff(mac: string, r: string)
    ensures Canonical(mac) == Some(r) <==> exists octets :: WritesMac(Padded(mac), octets) && r == LowerText(octets)
  {
    if Canonical(mac) == Some(r) {
      var octets := MacOctets(mac).value;
      ParseMacIff(Padded(mac), octets);
      PrintMacText(octets);
    }
    if octets :| WritesMac(Padded(mac), octets) && r == LowerText(octets) {
      ParseMacIff(Padded(mac), octets);
      PrintMacText(octets);
    }
  }

  /** No text without a colon that is shorter than a MAC is one. */
  lemma ShortTextIsNoMac(s: string)
    requires ':' !in s && |s| < 14
    ensures Canonical(s) == None
  {
    SplitHead(s, "", ':');
    assert PadParts([s]) == [PadPart(s)];
  }

  /** What the registry and the ARP table store. */
  predicate IsCanonical(mac: string) {
    Canonical(mac) == Some(mac)
  }

  predicate CanonicalOrEmpty(mac: string) {
    mac == "" || IsCanonical(mac)
  }

  lemma CanonicalMacNotEmpty()
    ensures Canonical("") == None
  {
    SplitHead("", "", ':');
    assert PadParts([""]) == [""];
  }

  /** On stored MACs the comparison is string equality of non-empty texts. */
  lemma SameStoredMac(a: string, b: string)
    requires CanonicalOrEmpty(a) && CanonicalOrEmpty(b)
    ensures SameMac(a, b) <==> a == b && a != ""
  {
    CanonicalMacNotEmpty();
  }
}
