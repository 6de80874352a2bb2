/** The answers of the `vpn` command line (internal/utils/cisco/cisco.go). */
module Cisco {
  import opened Basics
  import opened Text

  datatype VpnState = Connected | Disconnected | Reconnecting | Unknown

  const STATE_PREFIX := ">> state: "

  function TrimLeft(s: string): string {
    if s != "" && IsSpace(s[0]) then TrimLeft(s[1..]) else s
  }

  function TrimRight(s: string): string {
    if s != "" && IsSpace(s[|s| - 1]) then TrimRight(s[..|s| - 1]) else s
  }

  function TrimSpace(s: string): string {
    TrimRight(TrimLeft(s))
  }

  /** What precedes the first blank. */
  function FirstWord(s: string): string {
    if s == "" || s[0] == ' ' then "" else [s[0]] + FirstWord(s[1..])
  }

  /** The word a state line carries, None for any other line. */
  function StateWord(line: string): Option<string> {
    var t := TrimSpace(line);
    if HasPrefix(t, STATE_PREFIX) then Some(FirstWord(t[|STATE_PREFIX|..])) else None
  }

  function LastStateWord(lines: seq<string>): string {
    if lines == [] then ""
    else
      match StateWord(lines[|lines| - 1])
      case Some(w) => w
      case None => LastStateWord(lines[..|lines| - 1])
  }

  function StateOfWord(w: string): VpnState {
    if w == "Подключено" || w == "Connected" then Connected
    else if w == "Отключено" || w == "Disconnected" then Disconnected
    else if w == "Reconnecting" then Reconnecting
    else Unknown
  }

  /** The state the output of "vpn -s state" reports. */
  function ReportedState(output: string): VpnState {
    StateOfWord(LastStateWord(Split(output, '\n')))
  }

  method ParseState(output: string) returns (r: VpnState)
    ensures r == ReportedState(output)
  {
    var lines := Split(output, '\n');
    var last := "";
    for i := 0 to |lines|
      invariant last == LastStateWord(lines[..i])
    {
      var w := StateWord(lines[i]);
      assert lines[..i + 1][..i] == lines[..i];
      if w.Some? {
        last := w.value;
      }
    }
    assert lines[..|lines|] == lines;
    r := StateOfWord(last);
  }

  /** The last state line decides, whatever other lines follow it. */
  lemma {:induction false} LastStateLineWins(lines: seq<string>, k: nat)
    requires k < |lines| && StateWord(lines[k]).Some?
    requires forall i | k < i < |lines| :: StateWord(lines[i]).None?
    ensures LastStateWord(lines) == StateWord(lines[k]).value
  {
    if k < |lines| - 1 {
      LastStateLineWins(lines[..|lines| - 1], k);
    }
  }

  // ----- the texts

  predicate AllSpaces(s: string) {
    forall c | c in s :: IsSpace(c)
  }

  lemma {:induction false} TrimLeftSkips(lead: string, s: string)
    requires AllSpaces(lead) && s != "" && !IsSpace(s[0])
    ensures TrimLeft(lead + s) == s
  {
    if lead == "" {
      assert lead + s == s;
    } else {
      assert lead[0] in lead;
      assert (lead + s)[1..] == lead[1..] + s;
      TrimLeftSkips(lead[1..], s);
    }
  }

  /** Trimming on the right keeps everything up to a character that is no blank. */
  lemma {:induction false} TrimRightKeeps(s: string, tail: string)
    requires s != "" && !IsSpace(s[|s| - 1])
    ensures |s| <= |TrimRight(s + tail)| <= |s + tail| && TrimRight(s + tail) == (s + tail)[..|TrimRight(s + tail)|]
    ensures AllSpaces(tail) ==> TrimRight(s + tail) == s
  {
    if tail == "" {
      assert s + tail == s;
    } else {
      var n := |tail| - 1;
      assert (s + tail)[..|s + tail| - 1] == s + tail[..n];
      if IsSpace(tail[n]) {
        TrimRightKeeps(s, tail[..n]);
      } else {
        assert tail[n] in tail;
      }
    }
  }

  lemma {:induction false} FirstWordOf(w: string, tail: string)
    requires ' ' !in w && (tail == "" || tail[0] == ' ')
    ensures FirstWord(w + tail) == w
  {
    if w == "" {
      assert w + tail == tail;
    } else {
      assert (w + tail)[1..] == w[1..] + tail;
      FirstWordOf(w[1..], tail);
    }
  }

  /** What may follow the word on its line. */
  predicate TailOfWord(tail: string) {
    AllSpaces(tail) || tail[0] == ' '
  }

  lemma StateLineWord(lead: string, w: string, tail: string)
    requires AllSpaces(lead) && IsToken(w) && TailOfWord(tail)
    ensures StateWord(lead + ">> state: " + w + tail) == Some(w)
  {
    var p := ">> state: ";
    var core := p + w;
    assert w[|w| - 1] in w && core[|core| - 1] == w[|w| - 1];
    assert lead + p + w + tail == lead + (core + tail);
    TrimLeftSkips(lead, core + tail);
    TrimRightKeeps(core, tail);
    var t := TrimRight(core + tail);
    var rest := t[|core|..];
    assert t == (core + tail)[..|t|] && t[..|core|] == core;
    assert t == core + rest;
    assert rest != "" ==> t[|core|] == rest[0] && (core + tail)[|core|] == tail[0];
    assert t[|p|..] == w + rest && t[..|p|] == p;
    assert ' ' !in w;
    FirstWordOf(w, rest);
  }

  /** The line is no state line. */
  predicate NoStateLine(line: string) {
    !HasPrefix(TrimSpace(line), ">> state: ")
  }

  lemma {:induction false} NoStateLines(lines: seq<string>)
    requires forall i | 0 <= i < |lines| :: NoStateLine(lines[i])
    ensures LastStateWord(lines) == ""
  {
    if lines != [] {
      NoStateLines(lines[..|lines| - 1]);
    }
  }

  /** An output whose last state line is blanks, ">> state: ", a word and perhaps more is
      read by that word, in either language. */
  lemma StateRoundTrip(before: seq<string>, lead: string, w: string, tail: string, after: seq<string>)
    requires AllSpaces(lead) && IsToken(w) && TailOfWord(tail)
    requires forall i | 0 <= i < |after| :: NoStateLine(after[i])
    requires forall l | l in before + [lead + ">> state: " + w + tail] + after :: '\n' !in l
    ensures var r := ReportedState(Join(before + [lead + ">> state: " + w + tail] + after, '\n'));
            (r == Connected <==> w == "Connected" || w == "Подключено")
            && (r == Disconnected <==> w == "Disconnected" || w == "Отключено")
            && (r == Reconnecting <==> w == "Reconnecting")
  {
    var line := lead + ">> state: " + w + tail;
    var lines := before + [line] + after;
    SplitOfJoin(lines, '\n');
    StateLineWord(lead, w, tail);
    assert lines[|before|] == line;
    forall i | |before| < i < |lines| ensures StateWord(lines[i]).None? {
      assert lines[i] == after[i - |before| - 1];
    }
    LastStateLineWins(lines, |before|);
    WordsMean(w);
  }

  lemma WordsMean(w: string)
    ensures var r := StateOfWord(w);
            (r == Connected <==> w == "Connected" || w == "Подключено")
            && (r == Disconnected <==> w == "Disconnected" || w == "Отключено")
            && (r == Reconnecting <==> w == "Reconnecting")
  {
    var a, b, c, d, e := "Connected", "Подключено", "Disconnected", "Отключено", "Reconnecting";
    assert |a| == 9 && |b| == 10 && |c| == 12 && |d| == 9 && |e| == 12;
    assert a[0] != d[0] && c[0] != e[0];
  }

  /** Without a state line the state is unknown. */
  lemma NoStateIsUnknown(lines: seq<string>)
    requires lines != [] && forall l | l in lines :: '\n' !in l
    requires forall i | 0 <= i < |lines| :: NoStateLine(lines[i])
    ensures ReportedState(Join(lines, '\n')) == Unknown
  {
    SplitOfJoin(lines, '\n');
    NoStateLines(lines);
    NoWordIsUnknown();
  }

  lemma NoWordIsUnknown()
    ensures StateOfWord("") == Unknown
  {
    WordsMean("");
  }

  /** What the agent answers to "connect": a capability conflict in the output, a
      failed command, and the state it reports afterwards (None: the query failed). */
  datatype ConnectAnswer = ConnectAnswer(acquired: bool, failed: bool, recheck: Option<VpnState>)

  datatype ConnectResult = Established | Acquired | ConnectFailed

  function Connect(a: ConnectAnswer): ConnectResult {
    if a.acquired then Acquired
    else if a.failed then ConnectFailed
    else if a.recheck == Some(Connected) then Established
    else ConnectFailed
  }
}
