/** ARP entries, the pin decision and the tcpdump line parser
    (internal/utils/route/route.go, internal/utils/route/syn.go). */
module Route {
  import opened Basics
  import opened Text
  import opened Mac
  import opened Addr

  /** A resolved entry of the kernel's ARP table; `mac` is canonical. */
  datatype ArpEntry = ArpEntry(mac: string, iface: string)

  // ----- parseArpEntry

  /** The field after the last `key` among the first `n` fields, "" if none. */
  function AfterLast(fields: seq<string>, key: string, n: nat): string
    requires n == 0 || n < |fields|
  {
    if n == 0 then "" else if fields[n - 1] == key then fields[n] else AfterLast(fields, key, n - 1)
  }

  function ArpOfFields(fields: seq<string>): Option<ArpEntry> {
    var n := if fields == [] then 0 else |fields| - 1;
    var mac := Canonical(AfterLast(fields, "at", n));
    var iface := AfterLast(fields, "on", n);
    if mac.None? || iface == "" then None else Some(ArpEntry(mac.value, iface))
  }

  method ParseArpEntry(out: string) returns (r: Option<ArpEntry>)
    ensures r == ArpOfFields(Fields(out))
    ensures r.Some? ==> IsCanonical(r.value.mac) && r.value.iface != ""
  {
    var fields := Fields(out);
    var mac, iface := "", "";
    var i := 0;
    while i < |fields| - 1
      invariant 0 <= i && (i == 0 || i < |fields|)
      invariant mac == AfterLast(fields, "at", i) && iface == AfterLast(fields, "on", i)
    {
      if fields[i] == "at" {
        mac := fields[i + 1];
      } else if fields[i] == "on" {
        iface := fields[i + 1];
      }
      i := i + 1;
    }
    var c := CanonicalMAC(mac);
    if c.None? || iface == "" {
      return None;
    }
    return Some(ArpEntry(c.value, iface));
  }

  predicate PlainToken(s: string) {
    IsToken(s) && s != "at" && s != "on"
  }

  /** `host (ip) at mac on iface trailing...`, as `arp -n` prints it. */
  function ArpTokens(host: string, ip: string, mac: string, iface: string, trailing: seq<string>): seq<string> {
    [host, "(" + ip + ")", "at", mac, "on", iface] + trailing
  }

  lemma {:induction false} AfterLastSkips(fields: seq<string>, key: string, m: nat, n: nat)
    requires m <= n && (n == 0 || n < |fields|)
    requires forall i | m <= i < n :: fields[i] != key
    ensures AfterLast(fields, key, n) == AfterLast(fields, key, m)
  {
    if m < n {
      AfterLastSkips(fields, key, m, n - 1);
    }
  }

  lemma MacTextChars(octets: seq<Octet>, styles: seq<Style>, c: char)
    requires |octets| == |styles|
    requires c in PrintStyled(octets, styles)
    ensures c == ':' || HexValue(c).Some?
  {
    JoinChars(PrintParts(octets, styles), ':', c);
  }

  lemma MacTextIsToken(octets: seq<Octet>, styles: seq<Style>)
    requires |octets| == |styles| > 1
    ensures PlainToken(PrintStyled(octets, styles)) && ',' !in PrintStyled(octets, styles)
    ensures PrintStyled(octets, styles) != ""
  {
    var s := PrintStyled(octets, styles);
    forall c | c in s ensures !IsSpace(c) && c != ',' && (c == ':' || HexValue(c).Some?) {
      MacTextChars(octets, styles, c);
    }
    var parts := PrintParts(octets, styles);
    assert s == parts[0] + [':'] + Join(parts[1..], ':');
    assert s[|parts[0]|] == ':';
    assert ':' in s && ':' !in "at" && ':' !in "on";
  }

  /** Every line `arp -n` prints for a resolved entry is read back. */
  lemma ArpRoundTrip(host: string, ip: string, octets: seq<Octet>, styles: seq<Style>, iface: string,
                     trailing: seq<string>, end: string)
    requires |octets| == |styles| && MacLength(|octets|)
    requires PlainToken(host) && IsToken(ip) && PlainToken(iface)
    requires forall i | 0 <= i < |trailing| :: PlainToken(trailing[i])
    requires end == "" || end == "\n"
    ensures ArpOfFields(Fields(Join(ArpTokens(host, ip, PrintStyled(octets, styles), iface, trailing), ' ') + end))
            == Some(ArpEntry(PrintMac(octets), iface))
  {
    MacTextIsToken(octets, styles);
    ArpLineRead(host, ip, PrintStyled(octets, styles), iface, trailing, end);
    MacRoundTrip(octets, styles);
  }

  lemma EndHasNoFields(end: string)
    requires end == "" || end == "\n"
    ensures Fields(end) == []
  {
    if end == "\n" {
      assert end[1..] == "";
    }
  }

  lemma ArpTokensPlain(host: string, ip: string, mac: string, iface: string, trailing: seq<string>)
    requires PlainToken(host) && IsToken(ip) && PlainToken(mac) && PlainToken(iface)
    requires forall i | 0 <= i < |trailing| :: PlainToken(trailing[i])
    ensures var f := ArpTokens(host, ip, mac, iface, trailing);
            forall i | 0 <= i < |f| :: IsToken(f[i]) && (i != 2 && i != 4 ==> PlainToken(f[i]))
  {
    var f := ArpTokens(host, ip, mac, iface, trailing);
    assert PlainToken(f[1]) by {
      assert f[1][0] == '(';
      forall c | c in f[1] ensures !IsSpace(c) {
        assert c == '(' || c == ')' || c in ip;
      }
    }
    assert forall i | 6 <= i < |f| :: f[i] == trailing[i - 6];
  }

  lemma ArpFieldsRead(host: string, ip: string, mac: string, iface: string, trailing: seq<string>)
    requires PlainToken(host) && IsToken(ip) && PlainToken(mac) && PlainToken(iface)
    requires forall i | 0 <= i < |trailing| :: PlainToken(trailing[i])
    ensures var f := ArpTokens(host, ip, mac, iface, trailing);
            AfterLast(f, "at", |f| - 1) == mac && AfterLast(f, "on", |f| - 1) == iface
  {
    var f := ArpTokens(host, ip, mac, iface, trailing);
    ArpTokensPlain(host, ip, mac, iface, trailing);
    AfterLastSkips(f, "at", 3, |f| - 1);
    AfterLastSkips(f, "on", 5, |f| - 1);
  }

  /** The field that follows the last `key`. */
  lemma AfterLastIs(fields: seq<string>, key: string, i: nat)
    requires i + 1 < |fields| && fields[i] == key && forall j | i < j < |fields| - 1 :: fields[j] != key
    ensures AfterLast(fields, key, |fields| - 1) == fields[i + 1]
  {
    AfterLastSkips(fields, key, i + 1, |fields| - 1);
  }

  /** A word without a colon, shorter than a MAC, where the MAC should be. */
  predicate StandsForNoMac(word: string) {
    PlainToken(word) && ':' !in word && |word| < 14
  }

  lemma IncompleteIsNoMac(word: string)
    requires word == "(incomplete)"
    ensures StandsForNoMac(word)
  {
  }

  /** `host (ip) at (incomplete) on iface ...`: the client has not answered. */
  lemma ArpIncomplete(host: string, ip: string, word: string, iface: string, trailing: seq<string>, end: string)
    requires StandsForNoMac(word) && PlainToken(host) && IsToken(ip) && PlainToken(iface)
    requires forall i | 0 <= i < |trailing| :: PlainToken(trailing[i])
    requires end == "" || end == "\n"
    ensures ArpOfFields(Fields(Join(ArpTokens(host, ip, word, iface, trailing), ' ') + end)) == None
  {
    ArpLineRead(host, ip, word, iface, trailing, end);
    ShortTextIsNoMac(word);
  }

  /** What a line of the documented format is read as, whatever stands for the MAC. */
  lemma ArpLineRead(host: string, ip: string, mac: string, iface: string, trailing: seq<string>, end: string)
    requires PlainToken(host) && IsToken(ip) && PlainToken(mac) && PlainToken(iface)
    requires forall i | 0 <= i < |trailing| :: PlainToken(trailing[i])
    requires end == "" || end == "\n"
    ensures ArpOfFields(Fields(Join(ArpTokens(host, ip, mac, iface, trailing), ' ') + end)) ==
            match Canonical(mac) case None => None case Some(c) => Some(ArpEntry(c, iface))
  {
    var f := ArpTokens(host, ip, mac, iface, trailing);
    ArpTokensPlain(host, ip, mac, iface, trailing);
    FieldsOfLine(f, end);
    EndHasNoFields(end);
    assert f + [] == f;
    ArpFieldsRead(host, ip, mac, iface, trailing);
  }

  /** `ip (ip) -- no entry`. */
  lemma ArpNoEntry(host: string, ip: string, end: string)
    requires PlainToken(host) && IsToken(ip) && (end == "" || end == "\n")
    ensures ArpOfFields(Fields(Join([host, "(" + ip + ")", "--", "no", "entry"], ' ') + end)) == None
  {
    var f := [host, "(" + ip + ")", "--", "no", "entry"];
    ArpTokensPlain(host, ip, "--", "no", []);
    assert f[1] == ArpTokens(host, ip, "--", "no", [])[1];
    FieldsOfLine(f, end);
    EndHasNoFields(end);
    assert f + [] == f;
    AfterLastSkips(f, "at", 0, 4);
    CanonicalMacNotEmpty();
  }

  /** Without a MAC that parses ("-- no entry", "(incomplete)") nothing is found. */
  lemma ArpUnresolved(fields: seq<string>)
    requires forall i | 0 <= i < |fields| - 1 && fields[i] == "at" :: Canonical(fields[i + 1]).None?
    ensures ArpOfFields(fields).None?
  {
    CanonicalMacNotEmpty();
    AfterLastIsField(fields, "at", if fields == [] then 0 else |fields| - 1);
  }

  lemma {:induction false} AfterLastIsField(fields: seq<string>, key: string, n: nat)
    requires n == 0 || n < |fields|
    ensures AfterLast(fields, key, n) == "" ||
            exists i | 0 <= i < n :: fields[i] == key && fields[i + 1] == AfterLast(fields, key, n)
  {
    if n > 0 && fields[n - 1] != key {
      AfterLastIsField(fields, key, n - 1);
    }
  }

  // ----- DecidePin

  datatype PinAction = PinNone | PinAdopt | PinRepin

  function DecidePin(entry: Option<ArpEntry>, wantMac: string, iface: string): PinAction {
    if entry.Some? && entry.value.iface == iface && SameMac(entry.value.mac, wantMac) then PinNone
    else if entry.Some? && entry.value.iface == iface then PinAdopt
    else if wantMac == "" then PinNone
    else PinRepin
  }

  // ----- pickCandidate

  datatype Candidate = Candidate(ifaddr: IfAddr, iface: string)

  /** The first candidate on the preferred interface, else the first of all. */
  method PickCandidate(cands: seq<Candidate>, prefer: string) returns (r: Option<Candidate>)
    ensures cands == [] <==> r.None?
    ensures r.Some? ==> exists i | 0 <= i < |cands| ::
              && cands[i] == r.value
              && (i == 0 || (prefer != "" && cands[i].iface == prefer))
              && (prefer != "" && r.value.iface == prefer ==> forall j | 0 <= j < i :: cands[j].iface != prefer)
              && (prefer != "" && r.value.iface != prefer ==> forall j | 0 <= j < |cands| :: cands[j].iface != prefer)
  {
    if |cands| == 0 {
      return None;
    }
    for i := 0 to |cands|
      invariant forall j | 0 <= j < i :: !(prefer != "" && cands[j].iface == prefer)
    {
      if prefer != "" && cands[i].iface == prefer {
        return Some(cands[i]);
      }
    }
    return Some(cands[0]);
  }

  // ----- parseSYNLine

  const LENGTH_MARK := ", length "

  datatype SynFrame = SynFrame(ip: Addr, mac: string)

  function ParseSynLine(line: string): Option<SynFrame> {
    var head := Fields(line);
    if head == [] || Canonical(head[0]).None? || CutAfter(line, LENGTH_MARK).None? then None
    else
      var fields := Fields(CutAfter(line, LENGTH_MARK).value);
      if |fields| < 2 then None
      else
        var dot := LastIndex(fields[1], '.');
        if dot.None? || ParseAddr(fields[1][..dot.value]).None? then None
        else Some(SynFrame(ParseAddr(fields[1][..dot.value]).value, Canonical(head[0]).value))
  }

  /** `mac > dst, ethertype IPv4 (0x0800), length n: ip.port > ...` */
  function SynLine(mac: string, dst: string, length: string, ip: Addr, port: string, rest: string): string {
    mac + " > " + dst + ", ethertype IPv4 (0x0800)" + LENGTH_MARK + length + ": "
    + PrintAddr(ip) + "." + port + " > " + rest
  }

  lemma NoEarlyLengthMark(mac: string, dst: string, tail: string, j: nat)
    requires ',' !in mac && ',' !in dst
    requires j < |mac + " > " + dst + ", ethertype IPv4 (0x0800)"|
    ensures !HasPrefix((mac + " > " + dst + ", ethertype IPv4 (0x0800)" + LENGTH_MARK + tail)[j..], LENGTH_MARK)
  {
    var p := mac + " > " + dst;
    var e := ", ethertype IPv4 (0x0800)";
    var s := mac + " > " + dst + e + LENGTH_MARK + tail;
    assert s == p + e + LENGTH_MARK + tail;
    assert forall k | 0 < k < |e| :: e[k] != ',';
    if j < |p| {
      assert s[j] == p[j] && (p[j] in mac || p[j] in " > " || p[j] in dst);
    } else {
      assert s[j] == e[j - |p|] && s[|p| + 2] == e[2];
    }
    assert |s[j..]| > 2 && s[j..][0] == s[j] && s[j..][2] == s[j + 2];
    PrefixChars(s[j..], LENGTH_MARK);
  }

  lemma PrefixChars(s: string, p: string)
    requires |s| > 2 && |p| > 2
    ensures HasPrefix(s, p) ==> s[0] == p[0] && s[2] == p[2]
  {
  }

  lemma AddrTextChars(ip: Addr)
    ensures IsToken(PrintAddr(ip))
  {
    DecimalRoundTrip(ip.a);
    DecimalRoundTrip(ip.b);
    DecimalRoundTrip(ip.c);
    DecimalRoundTrip(ip.d);
    var parts := [PrintDecimal(ip.a), PrintDecimal(ip.b), PrintDecimal(ip.c), PrintDecimal(ip.d)];
    forall c | c in PrintAddr(ip) ensures !IsSpace(c) {
      JoinChars(parts, '.', c);
    }
    assert PrintAddr(ip) == parts[0] + ['.'] + Join(parts[1..], '.');
  }

  /** Every line tcpdump prints for an IPv4 SYN yields its sender. */
  lemma SynRoundTrip(octets: seq<Octet>, styles: seq<Style>, dst: string, length: string, ip: Addr, port: string,
      rest: string)
    requires |octets| == |styles| && MacLength(|octets|)
    requires ',' !in dst && IsToken(length) && IsToken(port) && '.' !in port
    ensures ParseSynLine(SynLine(PrintStyled(octets, styles), dst, length, ip, port, rest)) ==
            Some(SynFrame(ip, PrintMac(octets)))
  {
    var mac := PrintStyled(octets, styles);
    var line := SynLine(mac, dst, length, ip, port, rest);
    MacTextIsToken(octets, styles);
    MacRoundTrip(octets, styles);
    var sender := PrintAddr(ip) + "." + port;
    var after := length + ":" + " " + (sender + " " + ("> " + rest));
    SynLineShape(mac, dst, length, ip, port, rest);
    FirstField(mac, line);
    SynCut(mac, dst, after);
    SenderIsToken(ip, port);
    LabelIsToken(length);
    TwoFields(length + ":", sender, "> " + rest);
    SenderAddress(ip, port);
  }

  /** A line that yields a frame starts with its MAC, and has the sender as a dotted quad
      and a port in the second field after the length. */
  lemma SynFrameMeans(line: string, f: SynFrame) returns (pre: string, rest: string, port: string)
    requires ParseSynLine(line) == Some(f)
    ensures Fields(line) != [] && Canonical(Fields(line)[0]) == Some(f.mac)
    ensures line == pre + ", length " + rest && |Fields(rest)| >= 2
    ensures '.' !in port && Fields(rest)[1] == PrintAddr(f.ip) + "." + port
  {
    pre := CutAfterIs(line, LENGTH_MARK);
    rest := CutAfter(line, LENGTH_MARK).value;
    port := SenderParts(Fields(rest)[1], f.ip);
  }

  lemma SenderParts(sender: string, ip: Addr) returns (port: string)
    requires LastIndex(sender, '.').Some? && ParseAddr(sender[..LastIndex(sender, '.').value]) == Some(ip)
    ensures '.' !in port && sender == PrintAddr(ip) + "." + port
  {
    LastIndexIs(sender, '.');
    var k := LastIndex(sender, '.').value;
    port := sender[k + 1..];
    AddrTextUnique(sender[..k], ip);
    assert sender == sender[..k] + "." + port;
  }

  /** So a line without a MAC in front, or without a dotted-quad sender, yields none. */
  lemma SynRefused(line: string)
    requires Fields(line) == [] || Canonical(Fields(line)[0]).None? || !SendsFromAddr(line)
    ensures ParseSynLine(line) == None
  {
    if ParseSynLine(line).Some? {
      var f := ParseSynLine(line).value;
      var pre, rest, port := SynFrameMeans(line, f);
      assert SenderOf(line, rest, f.ip, port);
    }
  }

  predicate SenderOf(line: string, rest: string, ip: Addr, port: string) {
    |rest| <= |line| && line[|line| - |rest|..] == rest && |Fields(rest)| >= 2
    && Fields(rest)[1] == PrintAddr(ip) + "." + port
  }

  /** Some part of the line names an address and a port in its second field. */
  ghost predicate SendsFromAddr(line: string) {
    exists rest, ip, port :: SenderOf(line, rest, ip, port)
  }

  lemma SynLineShape(mac: string, dst: string, length: string, ip: Addr, port: string, rest: string)
    ensures var line := SynLine(mac, dst, length, ip, port, rest);
            line == mac + " > " + dst + ", ethertype IPv4 (0x0800)" + LENGTH_MARK
                    + (length + ":" + " " + (PrintAddr(ip) + "." + port + " " + ("> " + rest)))
            && |mac| < |line| && line[..|mac|] == mac && line[|mac|] == ' '
  {
  }

  lemma SenderIsToken(ip: Addr, port: string)
    requires IsToken(port)
    ensures IsToken(PrintAddr(ip) + "." + port)
  {
    AddrTextChars(ip);
    forall c | c in PrintAddr(ip) + "." + port ensures !IsSpace(c) {
      assert c in PrintAddr(ip) || c == '.' || c in port;
    }
  }

  lemma LabelIsToken(length: string)
    requires IsToken(length)
    ensures IsToken(length + ":")
  {
    forall c | c in length + ":" ensures !IsSpace(c) {
      assert c in length || c == ':';
    }
  }

  lemma FirstField(mac: string, line: string)
    requires IsToken(mac) && |mac| < |line| && line[..|mac|] == mac && line[|mac|] == ' '
    ensures Fields(line) != [] && Fields(line)[0] == mac
  {
    assert line == mac + " " + line[|mac| + 1..];
    FieldsToken(mac, line[|mac| + 1..]);
  }

  lemma SynCut(mac: string, dst: string, after: string)
    requires ',' !in mac && ',' !in dst
    ensures CutAfter(mac + " > " + dst + ", ethertype IPv4 (0x0800)" + LENGTH_MARK + after, LENGTH_MARK) == Some(after)
  {
    var pre := mac + " > " + dst + ", ethertype IPv4 (0x0800)";
    forall j | 0 <= j < |pre| ensures !HasPrefix((pre + LENGTH_MARK + after)[j..], LENGTH_MARK) {
      NoEarlyLengthMark(mac, dst, after, j);
    }
    CutAfterFirst(pre, LENGTH_MARK, after);
  }

  lemma TwoFields(first: string, second: string, rest: string)
    requires IsToken(first) && IsToken(second)
    ensures var f := Fields(first + " " + (second + " " + rest)); |f| >= 2 && f[1] == second
  {
    FieldsToken(first, second + " " + rest);
    FieldsToken(second, rest);
  }

  lemma SenderAddress(ip: Addr, port: string)
    requires '.' !in port
    ensures var s := PrintAddr(ip) + "." + port;
            LastIndex(s, '.').Some? && ParseAddr(s[..LastIndex(s, '.').value]) == Some(ip)
  {
    LastIndexBefore(PrintAddr(ip), '.', port);
    var s := PrintAddr(ip) + "." + port;
    assert s[..|PrintAddr(ip)|] == PrintAddr(ip);
    AddrTextUnique(PrintAddr(ip), ip);
  }
}
