/** grep() of user/grep.c: lines are collected in a fixed buffer from reads of any size. */
module Grep {
  import opened Regex

  const BUFSIZE: int := 1024

  /** The position of the first newline or NUL. */
  ghost function Stop(d: string): (q: nat)
    ensures q <= |d| && '\n' !in d[..q] && '\0' !in d[..q]
    ensures q < |d| ==> d[q] == '\n' || d[q] == '\0'
  {
    if d == [] || d[0] == '\n' || d[0] == '\0' then 0 else 1 + Stop(d[1..])
  }

  /** A complete line in front that fits the buffer with its newline. */
  ghost predicate HasLine(d: string) {
    var q := Stop(d);
    q < |d| && q < BUFSIZE - 1 && d[q] == '\n'
  }

  /** What grep prints for the input d: the matching lines in order, up to the first line that does
      not fit the buffer, contains a NUL, or is not terminated. */
  ghost function Printed(re: string, d: string): string {
    if HasLine(d) then
      var q := Stop(d);
      (if Matches(Regex.Read(re), d[..q]) then d[..q + 1] else []) + Printed(re, d[q + 1..])
    else []
  }

  /** No line can be taken from what is in the buffer. */
  ghost predicate NoLine(d: string) {
    !(Stop(d) < |d| && d[Stop(d)] == '\n')
  }

  lemma {:induction false} StopAt(d: string, q: nat)
    requires q <= |d| && '\n' !in d[..q] && '\0' !in d[..q]
    requires q < |d| ==> d[q] == '\n' || d[q] == '\0'
    ensures Stop(d) == q
  {
    if q > 0 {
      assert d[..q][0] == d[0] && d[..q][1..] == d[1..][..q - 1];
      StopAt(d[1..], q - 1);
    }
  }

  /** What is found in the part read so far is what is found in the whole. */
  lemma {:induction false} StopPrefix(d: string, n: nat)
    requires n <= |d|
    ensures Stop(d[..n]) < n ==> Stop(d) == Stop(d[..n])
    ensures Stop(d[..n]) == n ==> Stop(d) >= n
  {
    if n > 0 && d[0] != '\n' && d[0] != '\0' {
      assert d[..n][1..] == d[1..][..n - 1];
      StopPrefix(d[1..], n - 1);
    }
  }

  /** One line taken off the front. */
  lemma TakeLine(re: string, d: string, n: nat)
    requires n <= |d| && n < BUFSIZE && !NoLine(d[..n])
    ensures var q := Stop(d[..n]);
      && d[..q + 1] == d[..q] + ['\n']
      && '\0' !in d[..q]
      && Printed(re, d) == (if Matches(Regex.Read(re), d[..q]) then d[..q + 1] else []) + Printed(re, d[q + 1..])
  {
    StopPrefix(d, n);
  }

  /** The input file and how much of it has been read. A read returns any part of what is left, at
      least one byte unless the file is at its end or no room is given. */
  class Input {
    const bytes: string
    var pos: nat

    constructor (bytes: string)
      ensures this.bytes == bytes && pos == 0
    {
      this.bytes := bytes;
      pos := 0;
    }

    method Read(buf: array<char>, at: nat, room: nat) returns (n: nat)
      requires pos <= |bytes| && at + room <= buf.Length
      modifies this, buf
      ensures n <= room && pos == old(pos) + n <= |bytes|
      ensures n == 0 <==> room == 0 || old(pos) == |bytes|
      ensures buf[..at] == old(buf[..at]) && buf[at..at + n] == bytes[old(pos)..pos]
    {
      var left := |bytes| - pos;
      var most := if room < left then room else left;
      n :| 0 <= n <= most && (n == 0 <==> most == 0);
      forall k | 0 <= k < n {
        buf[at + k] := bytes[pos + k];
      }
      pos := pos + n;
    }
  }

  /** strchr(p, '\\n') in a buffer with a NUL at m: the next newline, unless a NUL comes first. */
  method NextNewline(buf: array<char>, p: nat, m: nat) returns (found: bool, q: nat)
    requires p <= m < buf.Length && buf[m] == '\0'
    ensures p <= q <= m && q == p + Stop(buf[p..m])
    ensures found <==> q < m && buf[q] == '\n'
  {
    q := p;
    while buf[q] != '\n' && buf[q] != '\0'
      invariant p <= q <= m && '\n' !in buf[p..q] && '\0' !in buf[p..q]
      decreases m - q
    {
      q := q + 1;
      assert buf[p..q] == buf[p..q - 1] + [buf[q - 1]];
    }
    assert buf[p..m][..q - p] == buf[p..q];
    StopAt(buf[p..m], q - p);
    found := buf[q] == '\n';
  }

  /** The C string that starts at p. */
  method StringAt(buf: array<char>, p: nat, ghost q: nat) returns (t: string)
    requires p <= q < buf.Length && buf[q] == '\0' && '\0' !in buf[p..q]
    ensures t == buf[p..q]
  {
    assert forall k :: p <= k < q ==> buf[k] in buf[p..q];
    var e := p;
    while buf[e] != '\0'
      invariant p <= e <= q
      decreases q - e
    {
      e := e + 1;
    }
    t := buf[p..e];
  }

  /** One pass of grep's inner loop: the line from p to the newline at q is matched and printed. */
  method PrintLine(re: string, buf: array<char>, p: nat, q: nat) returns (out: string)
    requires '\0' !in re && p <= q < buf.Length && '\0' !in buf[p..q] && buf[q] == '\n'
    modifies buf
    ensures out == if Matches(Regex.Read(re), old(buf[p..q])) then old(buf[p..q + 1]) else []
    ensures buf[q + 1..] == old(buf[q + 1..])
  {
    buf[q] := '\0';
    out := [];
    assert buf[p..q] == old(buf[p..q]);
    var text := StringAt(buf, p, q);
    var matched := Match(re, text);
    if matched {
      buf[q] := '\n';
      assert buf[p..q + 1] == old(buf[p..q + 1]);
      out := buf[p..q + 1];
    }
  }

  /** The next line of the buffer, if it is complete, is taken off what is left of the input. */
  method PrintNext(re: string, buf: array<char>, p: nat, m: nat, ghost rest: string)
    returns (found: bool, next: nat, line: string)
    requires '\0' !in re && p <= m < buf.Length == BUFSIZE && buf[m] == '\0' && m <= |rest| && buf[p..m] == rest[p..m]
    modifies buf
    ensures !found ==> NoLine(rest[p..m]) && buf[..] == old(buf[..])
    ensures found ==>
              && p < next <= m && buf[next..m] == rest[next..m] && buf[m] == '\0'
              && Printed(re, rest[p..]) == line + Printed(re, rest[next..])
  {
    hide Printed, Stop;
    var q;
    found, q := NextNewline(buf, p, m);
    next, line := p, [];
    if found {
      ghost var b := buf[..];
      assert b[p..m] == buf[p..m] && b[p..q] == buf[p..q] && b[p..q + 1] == buf[p..q + 1];
      LineInBuffer(re, b, rest, p, m, q);
      line := PrintLine(re, buf, p, q);
      next := q + 1;
      SameTail(b, buf[..], q + 1, m);
    }
  }

  lemma SameTail(b: string, b': string, k: nat, m: nat)
    requires k <= m < |b| == |b'| && b[k..] == b'[k..]
    ensures b'[k..m] == b[k..m] && b'[m] == b[m]
  {
    assert b[k..][..m - k] == b[k..m] && b'[k..][..m - k] == b'[k..m];
    assert b[k..][m - k] == b[m];
  }

  lemma LineInBuffer(re: string, b: string, rest: string, p: nat, m: nat, q: nat)
    requires p <= q < m < |b| && m < BUFSIZE && m <= |rest| && b[p..m] == rest[p..m]
    requires q == p + Stop(b[p..m]) && b[q] == '\n'
    ensures '\0' !in b[p..q] && b[q + 1..m] == rest[q + 1..m]
    ensures Printed(re, rest[p..]) ==
            (if Matches(Regex.Read(re), b[p..q]) then b[p..q + 1] else []) + Printed(re, rest[q + 1..])
  {
    hide Printed, Stop;
    var d, len := rest[p..], q - p;
    assert d[..m - p] == rest[p..m];
    assert b[p..m][len] == b[q];
    TakeLine(re, d, m - p);
    assert d[..len] == b[p..m][..len] == b[p..q];
    assert d[..len + 1] == b[p..m][..len + 1] == b[p..q + 1];
    assert d[len + 1..] == rest[q + 1..];
    assert b[q + 1..m] == b[p..m][len + 1..] && rest[q + 1..m] == rest[p..m][len + 1..];
  }

  /** The inner loop of grep: print the matching lines among those complete in the buffer. */
  method PrintLines(re: string, buf: array<char>, m: nat, ghost rest: string) returns (p: nat, out: string)
    requires '\0' !in re && m < buf.Length == BUFSIZE && buf[m] == '\0' && m <= |rest| && buf[..m] == rest[..m]
    modifies buf
    ensures p <= m && buf[p..m] == rest[p..m] && NoLine(rest[p..m])
    ensures out + Printed(re, rest[p..]) == Printed(re, rest)
  {
    hide Printed, Stop, NoLine;
    p, out := 0, [];
    assert rest[0..] == rest;
    while true
      invariant p <= m && buf[p..m] == rest[p..m] && buf[m] == '\0'
      invariant out + Printed(re, rest[p..]) == Printed(re, rest)
      decreases m - p
    {
      var found, next, line := PrintNext(re, buf, p, m, rest);
      if !found {
        return;
      }
      p, out := next, out + line;
    }
  }

  /** grep: for every way the reads cut up the input, exactly Printed(input) is written. */
  method Grep(re: string, input: Input) returns (out: string)
    requires '\0' !in re && input.pos == 0
    modifies input
    ensures out == Printed(re, input.bytes)
  {
    hide Printed, Stop, NoLine;
    var buf := new char[BUFSIZE];
    var m := 0;
    out := [];
    ghost var base, d := 0, input.bytes;
    assert d[0..] == d && d[0..0] == [];
    EmptyNoLine();
    while true
      invariant 0 <= m < BUFSIZE && 0 <= base && base + m == input.pos <= |d|
      invariant buf[..m] == d[base..base + m] && NoLine(d[base..base + m])
      invariant out + Printed(re, d[base..]) == Printed(re, d)
      decreases |d| - input.pos
    {
      var n := input.Read(buf, m, BUFSIZE - m - 1);
      ghost var rest := d[base..];
      if n <= 0 {
        assert rest[..m] == d[base..base + m];
        NothingLeft(re, rest, m);
        return;
      }
      Filled(buf[..], d, base, m, n);
      m := m + n;
      buf[m] := '\0';
      var p, o := PrintLines(re, buf, m, rest);
      out := out + o;
      SuffixOfSuffix(d, base, p, m);
      if m > 0 {
        m := Shift(buf, p, m);
      }
      base := base + p;
    }
  }

  /** memmove(buf, p, m): what is left of the buffer moves to its front. */
  method Shift(buf: array<char>, p: nat, m: nat) returns (m': nat)
    requires p <= m <= buf.Length
    modifies buf
    ensures m' == m - p && buf[..m'] == old(buf[p..m])
  {
    forall k | 0 <= k < m - p {
      buf[k] := buf[p + k];
    }
    m' := m - p;
  }

  lemma Filled(b: string, d: string, base: nat, m: nat, n: nat)
    requires base + m + n <= |d| && m + n <= |b|
    requires b[..m] == d[base..base + m] && b[m..m + n] == d[base + m..base + m + n]
    ensures b[..m + n] == d[base..][..m + n]
  {
    assert b[..m + n] == b[..m] + b[m..m + n];
    assert d[base..][..m + n] == d[base..base + m] + d[base + m..base + m + n];
  }

  lemma SuffixOfSuffix(d: string, base: nat, p: nat, m: nat)
    requires p <= m && base + m <= |d|
    ensures d[base..][p..] == d[base + p..] && d[base..][p..m] == d[base + p..base + m]
  {
  }

  lemma EmptyNoLine()
    ensures NoLine([])
  {
  }

  lemma NothingLeft(re: string, d: string, m: nat)
    requires m <= |d| && m < BUFSIZE && NoLine(d[..m]) && (m == BUFSIZE - 1 || m == |d|)
    ensures Printed(re, d) == []
  {
    StopPrefix(d, m);
    if m == |d| { assert d[..m] == d; }
  }

  // ---------------------------------------------------------------- what grep is for

  /** Lines written one after the other, each with its newline. */
  ghost function Text(lines: seq<string>): string {
    if lines == [] then [] else lines[0] + ['\n'] + Text(lines[1..])
  }

  ghost function Selected(re: string, lines: seq<string>): seq<string> {
    if lines == [] then []
    else (if Matches(Regex.Read(re), lines[0]) then [lines[0]] else []) + Selected(re, lines[1..])
  }

  /** On a text of lines that fit the buffer, grep prints exactly the matching lines, in order. */
  lemma {:induction false} PrintsMatchingLines(re: string, lines: seq<string>)
    requires forall k :: 0 <= k < |lines| ==> '\n' !in lines[k] && '\0' !in lines[k] && |lines[k]| + 1 < BUFSIZE
    ensures Printed(re, Text(lines)) == Text(Selected(re, lines))
  {
    if lines != [] {
      var line, d := lines[0], Text(lines);
      PrintsMatchingLines(re, lines[1..]);
      assert d[..|line|] == line && d[|line|] == '\n';
      StopAt(d, |line|);
      assert d[|line| + 1..] == Text(lines[1..]);
      assert d[..|line| + 1] == line + ['\n'];
      var rest := Selected(re, lines[1..]);
      assert ([line] + rest)[1..] == rest;
      assert Text([line] + rest) == line + ['\n'] + Text(rest);
      assert [] + rest == rest;
    }
  }
}
