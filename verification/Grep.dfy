/** grep's line reader over a fixed buffer (user/grep.c:7-34). */
module Grep {
  import opened Regex

  const BUFSIZE: nat := 1024
  const NUL: char := 0 as char

  // ---- lines ------------------------------------------------------------------

  /** The position of the first newline, or |s|. */
  function FirstNewline(s: seq<char>): (n: nat)
    ensures n <= |s| && (n < |s| ==> s[n] == '\n')
    ensures forall i :: 0 <= i < n ==> s[i] != '\n'
  {
    if s == [] || s[0] == '\n' then 0 else 1 + FirstNewline(s[1..])
  }

  lemma NewlineAt(s: seq<char>, n: nat)
    requires n <= |s| && (n < |s| ==> s[n] == '\n') && forall i :: 0 <= i < n ==> s[i] != '\n'
    ensures FirstNewline(s) == n
  {
  }

  /** The line up to the newline at n, if the pattern selects it. */
  ghost function Line(re: seq<char>, s: seq<char>, n: nat): seq<char>
    requires n < |s|
  {
    if Matches(re, s[..n]) then s[..n + 1] else []
  }

  /** The lines that a pattern selects, in order, each with its newline; an unterminated last
      line is not a line. */
  ghost function Selected(re: seq<char>, s: seq<char>): seq<char>
    decreases |s|
  {
    var n := FirstNewline(s);
    if n == |s| then []
    else Line(re, s, n) + Selected(re, s[n + 1..])
  }

  /** The same, up to the first line that does not fit into the buffer with its newline. */
  ghost function Printed(re: seq<char>, s: seq<char>): seq<char>
    decreases |s|
  {
    var n := FirstNewline(s);
    if n == |s| || n + 1 >= BUFSIZE then []
    else Line(re, s, n) + Printed(re, s[n + 1..])
  }

  ghost predicate LinesFit(s: seq<char>)
    decreases |s|
  {
    var n := FirstNewline(s);
    n == |s| || (n + 1 < BUFSIZE && LinesFit(s[n + 1..]))
  }

  /** The input from the first line on that does not fit into the buffer with its newline. */
  ghost function LongTail(s: seq<char>): seq<char>
    decreases |s|
  {
    var n := FirstNewline(s);
    if n == |s| then [] else if n + 1 >= BUFSIZE then s else LongTail(s[n + 1..])
  }

  /** What grep prints, and what it leaves out: the selected lines from the first too long line
      on. So it prints all selected lines if and only if none of those is selected. */
  lemma {:induction false} PrintedAll(re: seq<char>, s: seq<char>)
    ensures Selected(re, s) == Printed(re, s) + Selected(re, LongTail(s))
    ensures Printed(re, s) == Selected(re, s) <==> Selected(re, LongTail(s)) == []
    decreases |s|
  {
    hide Matches, FirstNewline;
    var n := FirstNewline(s);
    if n < |s| && n + 1 < BUFSIZE {
      PrintedAll(re, s[n + 1..]);
      var line := if Matches(re, s[..n]) then s[..n + 1] else [];
      Associates(line, Printed(re, s[n + 1..]), Selected(re, LongTail(s[n + 1..])));
      assert Printed(re, s) == line + Printed(re, s[n + 1..]) && Selected(re, s) == line + Selected(re, s[n + 1..]);
      assert LongTail(s) == LongTail(s[n + 1..]);
    }
    hide Printed, Selected, LongTail;
    assert |Selected(re, s)| == |Printed(re, s)| + |Selected(re, LongTail(s))|;
  }

  lemma Associates(a: seq<char>, b: seq<char>, c: seq<char>)
    ensures a + (b + c) == (a + b) + c
  {
  }

  /** For input whose lines have at most 1023 bytes, newline included, nothing is left out,
      whatever the pattern. */
  lemma {:induction false} FittingLines(re: seq<char>, s: seq<char>)
    requires LinesFit(s)
    ensures LongTail(s) == [] && Printed(re, s) == Selected(re, s)
    decreases |s|
  {
    var n := FirstNewline(s);
    if n < |s| { FittingLines(re, s[n + 1..]); }
  }

  /** A line of 1024 bytes is lost, and with it every line behind it: the empty pattern
      selects both lines of this input, and grep prints neither. */
  lemma LongLineLost(s: seq<char>)
    requires s == seq(1023, _ => 'a') + "\nb\n"
    ensures Selected([], s) == s && Printed([], s) == []
  {
    NewlineAt(s, BUFSIZE - 1);
    var rest := s[BUFSIZE..];
    assert rest == "b\n";
    NewlineAt(rest, 1);
    assert FirstNewline([]) == 0 && rest[2..] == [];
    EmptyMatches(s[..BUFSIZE - 1]);
    EmptyMatches(rest[..1]);
    assert Selected([], rest) == rest[..2] + Selected([], rest[2..]);
    assert s == s[..BUFSIZE] + rest;
  }

  lemma EmptyMatches(text: seq<char>)
    ensures Matches([], text)
  {
    MatchesNothing(text, 0);
    assert MatchesAt(Tokens([]), text, 0);
  }

  // ---- reading ----------------------------------------------------------------

  /** A file: what is left of it, and how much each future read call is willing to return. */
  class Input {
    var rest: seq<char>
    var sizes: seq<nat>

    constructor (data: seq<char>, sizes: seq<nat>)
      ensures rest == data && this.sizes == sizes
    {
      rest := data;
      this.sizes := sizes;
    }

    /** read: any nonempty piece that fits, as long as there is input and room. */
    method Read(max: nat) returns (chunk: seq<char>)
      modifies this
      ensures |chunk| <= max && old(rest) == chunk + rest
      ensures chunk == [] <==> old(rest) == [] || max == 0
    {
      var want := if sizes == [] || sizes[0] == 0 then 1 else sizes[0];
      if sizes != [] { sizes := sizes[1..]; }
      var n := if want < max then want else max;
      n := if n < |rest| then n else |rest|;
      chunk := rest[..n];
      rest := rest[n..];
    }
  }

  // ---- grep ---------------------------------------------------------------------

  /** strchr(p, '\n') on the NUL-terminated text in buf. */
  method StrChr(buf: array<char>, p: nat, ghost m: nat) returns (q: nat)
    requires p <= m < buf.Length && buf[m] == NUL
    requires forall i :: p <= i < m ==> buf[i] != NUL
    ensures q == p + FirstNewline(buf[p..m])
  {
    q := p;
    while buf[q] != '\n' && buf[q] != NUL
      invariant p <= q <= m
      invariant forall i :: p <= i < q ==> buf[i] != '\n'
      decreases m - q
    {
      q := q + 1;
    }
    assert buf[p..m][..q - p] == buf[p..q];
    NewlineAt(buf[p..m], q - p);
  }

  lemma Append(a: seq<char>, b: seq<char>)
    requires FirstNewline(a) == |a|
    ensures FirstNewline(a + b) == |a| + FirstNewline(b)
  {
    var n := |a| + FirstNewline(b);
    NewlineAt(a + b, n);
  }

  ghost predicate NoNul(s: seq<char>) {
    forall i :: 0 <= i < |s| ==> s[i] != NUL
  }

  /** user/grep.c:22-26: the line between p and q, printed if it matches. */
  method TestLine(buf: array<char>, re: seq<char>, p: nat, q: nat) returns (out: seq<char>)
    requires p <= q < buf.Length && buf[q] == '\n'
    modifies buf
    ensures out == if Matches(re, old(buf[p..q])) then old(buf[p..q + 1]) else []
    ensures forall i :: 0 <= i < buf.Length && i != q ==> buf[i] == old(buf[i])
  {
    hide Matches;
    ghost var line := buf[p..q + 1];
    buf[q] := NUL;
    assert buf[p..q] == line[..q - p];
    var hit := Match(re, buf[p..q]);
    out := [];
    if hit {
      buf[q] := '\n';
      out := buf[p..q + 1];
      assert out == line;
    }
  }

  lemma SliceOf(b: seq<char>, p: nat, q: nat, m: nat)
    requires p <= q < m <= |b|
    ensures b[q] == b[p..m][q - p] && b[p..q] == b[p..m][..q - p] && b[p..q + 1] == b[p..m][..q - p + 1]
    ensures b[q + 1..m] == b[p..m][q - p + 1..]
  {
  }

  lemma SameText(text: seq<char>, p: nat, q: nat)
    requires p <= q < |text|
    ensures text[p..][..q - p] == text[p..q] && text[p..][..q - p + 1] == text[p..q + 1] &&
            text[p..][q - p + 1..] == text[q + 1..]
  {
  }

  /** The inner loop (user/grep.c:20-28): prints the selected ones of the complete lines in
      the buffer, and returns where the unfinished line begins. */
  method Lines(buf: array<char>, re: seq<char>, m: nat, ghost rest: seq<char>) returns (p: nat, out: seq<char>)
    requires buf.Length == BUFSIZE && m < BUFSIZE && buf[m] == NUL && NoNul(buf[..m])
    modifies buf
    ensures p <= m && buf[p..m] == old(buf[..m])[p..] && FirstNewline(buf[p..m]) == m - p
    ensures Printed(re, old(buf[..m]) + rest) == out + Printed(re, buf[p..m] + rest)
  {
    hide Printed, Matches, FirstNewline;
    p, out := 0, [];
    ghost var text := buf[..m];
    assert text[0..] == text && buf[0..m] == text;
    while true
      invariant p <= m && buf[m] == NUL && |text| == m && buf[p..m] == text[p..]
      invariant Printed(re, text + rest) == out + Printed(re, text[p..] + rest)
      decreases m - p
    {
      forall i | p <= i < m ensures buf[i] != NUL {
        assert buf[i] == buf[p..m][i - p] == text[i];
      }
      var q := StrChr(buf, p, m);
      if q == m { return; }
      FirstLine(re, text[p..], rest, q - p);
      SameText(text, p, q);
      SliceOf(buf[..], p, q, m);
      assert buf[p..m] == buf[..][p..m] && buf[p..q] == buf[..][p..q] && buf[p..q + 1] == buf[..][p..q + 1];
      var line := TestLine(buf, re, p, q);
      out := out + line;
      p := q + 1;
    }
  }

  /** One line taken off the front. */
  lemma FirstLine(re: seq<char>, s: seq<char>, rest: seq<char>, n: nat)
    requires FirstNewline(s) == n < |s| && n + 1 < BUFSIZE
    ensures Printed(re, s + rest) == (if Matches(re, s[..n]) then s[..n + 1] else []) + Printed(re, s[n + 1..] + rest)
  {
    hide Matches, FirstNewline, Printed;
    NewlineJoin(s, rest, n);
    PrintedStep(re, s + rest, n);
    LineSlices(s, rest, n);
  }

  lemma NewlineJoin(s: seq<char>, rest: seq<char>, n: nat)
    requires FirstNewline(s) == n < |s|
    ensures FirstNewline(s + rest) == n
  {
    NewlineAt(s + rest, n);
  }

  lemma LineSlices(s: seq<char>, rest: seq<char>, n: nat)
    requires n < |s|
    ensures (s + rest)[..n] == s[..n] && (s + rest)[..n + 1] == s[..n + 1] && (s + rest)[n + 1..] == s[n + 1..] + rest
  {
  }

  lemma PrintedStep(re: seq<char>, t: seq<char>, n: nat)
    requires FirstNewline(t) == n < |t| && n + 1 < BUFSIZE
    ensures Printed(re, t) == Line(re, t, n) + Printed(re, t[n + 1..])
  {
    hide Line, FirstNewline;
  }

  /** A line that fills the buffer, or an unfinished last one, is never printed. */
  lemma NoMoreLines(re: seq<char>, s: seq<char>, rest: seq<char>)
    requires FirstNewline(s) == |s| && (rest == [] || |s| + 1 >= BUFSIZE)
    ensures Printed(re, s + rest) == []
  {
    Append(s, rest);
  }

  /** user/grep.c:10-34, for NUL-free input: whatever pieces read returns, grep prints exactly
      the selected lines in order, up to the first one too long for the buffer. */
  method GrepFile(buf: array<char>, re: seq<char>, file: Input) returns (out: seq<char>)
    requires buf.Length == BUFSIZE && NoNul(file.rest)
    modifies buf, file
    ensures out == Printed(re, old(file.rest))
  {
    hide Printed, Matches, FirstNewline;
    ghost var all := file.rest;
    var m := 0;
    out := [];
    assert buf[..0] + file.rest == all;
    NewlineAt(buf[..0], 0);
    while true
      invariant 0 <= m < BUFSIZE && NoNul(buf[..m]) && NoNul(file.rest)
      invariant FirstNewline(buf[..m]) == m
      invariant Printed(re, all) == out + Printed(re, buf[..m] + file.rest)
      decreases |file.rest|
    {
      ghost var before, kept := file.rest, buf[..m];
      var chunk := file.Read(BUFSIZE - m - 1);
      if chunk == [] {
        NoMoreLines(re, kept, before);
        assert file.rest == before && out + [] == out;
        return;
      }
      Fill(buf, m, chunk);
      Joined(kept, chunk, file.rest, before);
      m := m + |chunk|;
      var p, printed := Lines(buf, re, m, file.rest);
      out := out + printed;
      Shift(buf, p, m);
      m := m - p;
    }
  }

  /** read into buf + m, and the NUL behind it (user/grep.c:17-19). */
  method Fill(buf: array<char>, m: nat, chunk: seq<char>)
    requires m + |chunk| < buf.Length
    modifies buf
    ensures buf[..m + |chunk|] == old(buf[..m]) + chunk && buf[m + |chunk|] == NUL
  {
    forall i | 0 <= i < |chunk| { buf[m + i] := chunk[i]; }
    buf[m + |chunk|] := NUL;
  }

  lemma Joined(kept: seq<char>, chunk: seq<char>, rest: seq<char>, before: seq<char>)
    requires before == chunk + rest && NoNul(before) && NoNul(kept)
    ensures (kept + chunk) + rest == kept + before && NoNul(kept + chunk) && NoNul(rest)
  {
    assert forall i :: 0 <= i < |chunk| ==> chunk[i] == before[i];
    assert forall i :: 0 <= i < |rest| ==> rest[i] == before[|chunk| + i];
  }

  /** memmove(buf, p, m) */
  method Shift(buf: array<char>, p: nat, m: nat)
    requires p <= m <= buf.Length
    modifies buf
    ensures buf[..m - p] == old(buf[p..m])
  {
    forall i | 0 <= i < m - p { buf[i] := buf[p + i]; }
  }
}
