/** Types shared by every module. */
module Basics {
  /** A value that may be absent: Go's `value, ok` pairs. */
  datatype Option<+T> = None | Some(value: T)

  type Octet = n: int | 0 <= n < 256

  /** Clock readings and durations are in nanoseconds. */
  const SECOND := 1_000_000_000
}

/** The string operations of Go's `strings` package that the parsers use. */
module Text {
  import opened Basics

  predicate IsSpace(c: char) {
    c == ' ' || '\t' <= c <= '\r' || c == '\U{85}' || c == '\U{A0}' || c == '\U{1680}' ||
    '\U{2000}' <= c <= '\U{200A}' || c == '\U{2028}' || c == '\U{2029}' || c == '\U{202F}' ||
    c == '\U{205F}' || c == '\U{3000}'
  }

  /** A non-empty run of characters that `Fields` never cuts. */
  predicate IsToken(s: string) {
    s != "" && forall c | c in s :: !IsSpace(c)
  }

  function Split(s: string, sep: char): (parts: seq<string>)
    ensures |parts| > 0
  {
    if s == "" then [""]
    else
      var rest := Split(s[1..], sep);
      if s[0] == sep then [""] + rest else [[s[0]] + rest[0]] + rest[1..]
  }

  function Join(parts: seq<string>, sep: char): string {
    if parts == [] then ""
    else if |parts| == 1 then parts[0]
    else parts[0] + [sep] + Join(parts[1..], sep)
  }

  lemma {:induction false} SplitHead(p: string, rest: string, sep: char)
    requires sep !in p
    ensures Split(p, sep) == [p]
    ensures Split(p + [sep] + rest, sep) == [p] + Split(rest, sep)
  {
    if p == "" {
      assert ("" + [sep] + rest)[1..] == rest;
    } else {
      SplitHead(p[1..], rest, sep);
      assert p + [sep] + rest == [p[0]] + (p[1..] + [sep] + rest);
      assert [p[0]] + p[1..] == p;
    }
  }

  lemma {:induction false} SplitOfJoin(parts: seq<string>, sep: char)
    requires parts != []
    requires forall p | p in parts :: sep !in p
    ensures Split(Join(parts, sep), sep) == parts
  {
    var tail := Join(parts[1..], sep);
    SplitHead(parts[0], tail, sep);
    assert parts == [parts[0]] + parts[1..];
    if |parts| > 1 {
      SplitOfJoin(parts[1..], sep);
    }
  }

  lemma {:induction false} JoinOfSplit(s: string, sep: char)
    ensures Join(Split(s, sep), sep) == s
  {
    if s != "" {
      JoinOfSplit(s[1..], sep);
      var rest := Split(s[1..], sep);
      if s[0] == sep {
        assert ([""] + rest)[1..] == rest;
      } else {
        assert ([[s[0]] + rest[0]] + rest[1..])[1..] == rest[1..];
      }
    }
  }

  /** The length of the token that starts `s`. */
  function TokenLength(s: string): (n: nat)
    ensures n <= |s|
    ensures s != "" && !IsSpace(s[0]) ==> n > 0
  {
    if s == "" || IsSpace(s[0]) then 0 else 1 + TokenLength(s[1..])
  }

  function Fields(s: string): seq<string> {
    if s == "" then []
    else if IsSpace(s[0]) then Fields(s[1..])
    else
      var n := TokenLength(s);
      [s[..n]] + Fields(s[n..])
  }

  lemma {:induction false} TokenLengthOf(tok: string, rest: string)
    requires forall c | c in tok :: !IsSpace(c)
    requires rest == "" || IsSpace(rest[0])
    ensures TokenLength(tok + rest) == |tok|
  {
    if tok == "" {
      assert tok + rest == rest;
    } else {
      assert (tok + rest)[1..] == tok[1..] + rest;
      TokenLengthOf(tok[1..], rest);
    }
  }

  lemma FieldsHead(tok: string, rest: string)
    requires IsToken(tok)
    requires rest == "" || IsSpace(rest[0])
    ensures Fields(tok + rest) == [tok] + Fields(rest)
  {
    TokenLengthOf(tok, rest);
    assert (tok + rest)[..|tok|] == tok && (tok + rest)[|tok|..] == rest;
    assert tok[0] in tok;
  }

  lemma FieldsToken(tok: string, rest: string)
    requires IsToken(tok)
    ensures Fields(tok + " " + rest) == [tok] + Fields(rest)
  {
    assert tok + " " + rest == tok + (" " + rest);
    FieldsHead(tok, " " + rest);
    assert (" " + rest)[1..] == rest;
  }

  lemma JoinHead(tokens: seq<string>, tail: string)
    requires |tokens| > 1
    ensures Join(tokens, ' ') + tail == tokens[0] + " " + (Join(tokens[1..], ' ') + tail)
  {
  }

  lemma ConsTail(tokens: seq<string>, more: seq<string>)
    requires tokens != []
    ensures [tokens[0]] + (tokens[1..] + more) == tokens + more
  {
  }

  /** `Fields` undoes joining tokens with single blanks. */
  lemma {:induction false} FieldsOfLine(tokens: seq<string>, tail: string)
    requires tokens != [] && forall i | 0 <= i < |tokens| :: IsToken(tokens[i])
    requires tail == "" || IsSpace(tail[0])
    ensures Fields(Join(tokens, ' ') + tail) == tokens + Fields(tail)
  {
    if |tokens| == 1 {
      FieldsHead(tokens[0], tail);
      assert tokens == [tokens[0]];
    } else {
      FieldsOfLine(tokens[1..], tail);
      FieldsToken(tokens[0], Join(tokens[1..], ' ') + tail);
      JoinHead(tokens, tail);
      ConsTail(tokens, Fields(tail));
    }
  }

  lemma {:induction false} JoinChars(parts: seq<string>, sep: char, c: char)
    requires c in Join(parts, sep)
    ensures c == sep || exists i | 0 <= i < |parts| :: c in parts[i]
  {
    if |parts| > 1 && c != sep && c !in parts[0] {
      JoinChars(parts[1..], sep, c);
      var i :| 0 <= i < |parts[1..]| && c in parts[1..][i];
      assert parts[1..][i] == parts[i + 1];
    }
  }

  predicate HasPrefix(s: string, p: string) {
    |p| <= |s| && s[..|p|] == p
  }

  /** `strings.Cut`, second result: what follows the first occurrence of `sep`. */
  function CutAfter(s: string, sep: string): Option<string> {
    if HasPrefix(s, sep) then Some(s[|sep|..])
    else if s == "" then None
    else CutAfter(s[1..], sep)
  }

  lemma {:induction false} CutAfterFirst(pre: string, sep: string, rest: string)
    requires forall j | 0 <= j < |pre| :: !HasPrefix((pre + sep + rest)[j..], sep)
    ensures CutAfter(pre + sep + rest, sep) == Some(rest)
  {
    var s := pre + sep + rest;
    if pre == "" {
      assert s[|sep|..] == rest && s[..|sep|] == sep;
    } else {
      assert !HasPrefix(s[0..], sep) && s[0..] == s;
      assert s[1..] == pre[1..] + sep + rest;
      forall j | 0 <= j < |pre[1..]|
        ensures !HasPrefix((pre[1..] + sep + rest)[j..], sep)
      {
        assert (pre[1..] + sep + rest)[j..] == s[j + 1..];
      }
      CutAfterFirst(pre[1..], sep, rest);
    }
  }

  /** `strings.LastIndexByte`; None for -1. */
  function LastIndex(s: string, c: char): (r: Option<nat>)
    ensures r.Some? ==> r.value < |s|
  {
    if s == "" then None else if s[|s| - 1] == c then Some(|s| - 1) else LastIndex(s[..|s| - 1], c)
  }

  /** What is found is the last one. */
  lemma {:induction false} LastIndexIs(s: string, c: char)
    requires LastIndex(s, c).Some?
    ensures var k := LastIndex(s, c).value; s[k] == c && c !in s[k + 1..]
  {
    var n := |s| - 1;
    if s[n] != c {
      LastIndexIs(s[..n], c);
      var k := LastIndex(s, c).value;
      assert s[k + 1..] == s[..n][k + 1..] + [s[n]];
    }
  }

  lemma {:induction false} LastIndexNone(s: string, c: char)
    ensures LastIndex(s, c).None? <==> c !in s
  {
    if s != "" {
      var n := |s| - 1;
      LastIndexNone(s[..n], c);
      assert s == s[..n] + [s[n]];
    }
  }

  /** What is cut follows an occurrence of `sep`. */
  lemma {:induction false} CutAfterIs(s: string, sep: string) returns (pre: string)
    requires CutAfter(s, sep).Some?
    ensures s == pre + sep + CutAfter(s, sep).value
  {
    if HasPrefix(s, sep) {
      pre := "";
    } else {
      var rest := CutAfterIs(s[1..], sep);
      pre := [s[0]] + rest;
    }
  }

  lemma {:induction false} LastIndexBefore(pre: string, c: char, post: string)
    requires c !in post
    ensures LastIndex(pre + [c] + post, c) == Some(|pre|)
  {
    var s := pre + [c] + post;
    if post != "" {
      assert s[|s| - 1] == post[|post| - 1];
      assert s[..|s| - 1] == pre + [c] + post[..|post| - 1];
      LastIndexBefore(pre, c, post[..|post| - 1]);
    }
  }
}
