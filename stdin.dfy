/**
 * How the command reads the message body from standard input
 * (cmd/sendmail/main.go): line by line with bufio.Reader.ReadBytes('\n'),
 * stopping at end of input or, unless `-i` was given, at a line that is a
 * single dot.
 */
module Stdin {
  import opened GoStrings

  /** Where the first line break of s is. */
  function NewlineIndex(s: string): (i: nat)
    requires '\n' in s
    ensures i < |s| && s[i] == '\n' && '\n' !in s[..i]
  {
    if s[0] == '\n' then 0
    else
      var j := NewlineIndex(s[1..]);
      assert s[..j + 1] == [s[0]] + s[1..][..j];
      j + 1
  }

  /** A complete line: it ends with its only line break. */
  predicate IsLine(line: string)
  {
    |line| > 0 && line[|line| - 1] == '\n' && '\n' !in line[..|line| - 1]
  }

  function Concat(lines: seq<string>): string
  {
    if lines == [] then "" else lines[0] + Concat(lines[1..])
  }

  /**
   * The lines ReadBytes('\n') returns without an error: complete lines that
   * together are a prefix of the input, after which only a fragment without a
   * line break is left (ReadBytes returns that fragment with io.EOF).
   */
  function CompleteLines(s: string): (lines: seq<string>)
    ensures forall i :: 0 <= i < |lines| ==> IsLine(lines[i])
    ensures Concat(lines) <= s && '\n' !in s[|Concat(lines)|..]
    decreases |s|
  {
    if '\n' !in s then
      assert s[|Concat([])|..] == s;
      []
    else
      var i := NewlineIndex(s);
      var rest := CompleteLines(s[i + 1..]);
      var lines := [s[..i + 1]] + rest;
      LineThenLines(s, i, rest, lines);
      LineThenRest(s, i, rest, lines);
      lines
  }

  /** The first line of s, followed by complete lines, is a list of complete lines. */
  lemma LineThenLines(s: string, i: nat, rest: seq<string>, lines: seq<string>)
    requires i < |s| && s[i] == '\n' && '\n' !in s[..i]
    requires forall j :: 0 <= j < |rest| ==> IsLine(rest[j])
    requires lines == [s[..i + 1]] + rest
    ensures forall j :: 0 <= j < |lines| ==> IsLine(lines[j])
  {
    var line := s[..i + 1];
    assert line[..i] == s[..i];
    assert IsLine(line);
    forall j | 0 <= j < |lines| ensures IsLine(lines[j]) {
      if j > 0 {
        assert lines[j] == rest[j - 1];
      }
    }
  }

  /** The first line of s, followed by the lines of what comes after it, covers s up to a final fragment. */
  lemma LineThenRest(s: string, i: nat, rest: seq<string>, lines: seq<string>)
    requires i < |s| && s[i] == '\n'
    requires Concat(rest) <= s[i + 1..] && '\n' !in s[i + 1..][|Concat(rest)|..]
    requires lines == [s[..i + 1]] + rest
    ensures Concat(lines) <= s && '\n' !in s[|Concat(lines)|..]
  {
    assert lines[1..] == rest;
    ConcatAfterLine(s, s[..i + 1], s[i + 1..], Concat(rest));
  }

  /** A prefix of what follows the first line extends to a prefix of the whole text. */
  lemma ConcatAfterLine(s: string, line: string, tail: string, c: string)
    requires s == line + tail && c <= tail
    ensures line + c <= s && s[|line + c|..] == tail[|c|..]
  {
    assert tail == c + tail[|c|..];
    assert s == (line + c) + tail[|c|..];
  }

  /** The test at main.go:98: the line, trimmed of line breaks at both ends, is ".". */
  predicate IsDotLine(line: string)
  {
    Trim(line, '\n') == "."
  }

  /**
   * The lines that make up the body: all of them with `-i`, otherwise the
   * longest prefix without a dot line.
   */
  function UntilDot(lines: seq<string>, ignoreDot: bool): (kept: seq<string>)
    ensures kept <= lines
    ensures ignoreDot ==> kept == lines
    ensures !ignoreDot ==> forall i :: 0 <= i < |kept| ==> !IsDotLine(kept[i])
    ensures !ignoreDot && |kept| < |lines| ==> IsDotLine(lines[|kept|])
  {
    if lines == [] then []
    else if !ignoreDot && IsDotLine(lines[0]) then []
    else
      var rest := UntilDot(lines[1..], ignoreDot);
      assert lines == [lines[0]] + lines[1..];
      [lines[0]] + rest
  }

  /** The body the loop at main.go:88-103 accumulates. */
  function Body(stdin: string, ignoreDot: bool): string
  {
    Concat(UntilDot(CompleteLines(stdin), ignoreDot))
  }

  /**
   * bufio.Reader.ReadBytes('\n'): the text up to and including the first line
   * break, or, when there is none, all that is left together with io.EOF.
   */
  method ReadLine(rest: string) returns (line: string, eof: bool)
    ensures eof <==> '\n' !in rest
    ensures eof ==> line == rest
    ensures !eof ==> line == rest[..NewlineIndex(rest) + 1]
  {
    var n := 0;
    while n < |rest| && rest[n] != '\n'
      invariant 0 <= n <= |rest|
      invariant '\n' !in rest[..n]
    {
      n := n + 1;
    }
    if n == |rest| {
      assert rest[..n] == rest;
      return rest, true;
    }
    NewlineFirst(rest, n);
    return rest[..n + 1], false;
  }

  /** The read loop: one ReadBytes('\n') per iteration, appending each complete line. */
  method ReadBody(stdin: string, ignoreDot: bool) returns (body: string)
    ensures body == Body(stdin, ignoreDot)
  {
    body := "";
    var rest := stdin;
    while true
      invariant body + Body(rest, ignoreDot) == Body(stdin, ignoreDot)
      decreases |rest|
    {
      var line, eof := ReadLine(rest);
      if eof {
        BodyAtEnd(body, rest, ignoreDot);
        break;
      }
      if !ignoreDot && Trim(line, '\n') == "." {
        BodyAtDot(body, rest, line);
        break;
      }
      var next := rest[|line|..];
      BodyStep(body, rest, line, next, ignoreDot);
      body := body + line;
      rest := next;
    }
  }

  /** Input without a line break adds nothing to the body. */
  lemma BodyAtEnd(body: string, rest: string, ignoreDot: bool)
    requires '\n' !in rest
    ensures body + Body(rest, ignoreDot) == body
  {
    assert Body(rest, ignoreDot) == "";
  }

  /** A dot line at the front ends the body. */
  lemma BodyAtDot(body: string, rest: string, line: string)
    requires '\n' in rest && line == rest[..NewlineIndex(rest) + 1]
    requires IsDotLine(line)
    ensures body + Body(rest, false) == body
  {
    assert CompleteLines(rest)[0] == line;
    assert Body(rest, false) == "";
  }

  /** Reading one line that is not a dot line adds it in front of what follows. */
  lemma BodyStep(body: string, rest: string, line: string, next: string, ignoreDot: bool)
    requires '\n' in rest && line == rest[..NewlineIndex(rest) + 1] && next == rest[|line|..]
    requires ignoreDot || !IsDotLine(line)
    ensures body + Body(rest, ignoreDot) == (body + line) + Body(next, ignoreDot)
  {
    var lines := CompleteLines(rest);
    assert lines == [line] + CompleteLines(next);
    assert lines[1..] == CompleteLines(next);
    assert Body(rest, ignoreDot) == line + Body(next, ignoreDot);
  }

  /** A line break with none before it is the first one. */
  lemma NewlineFirst(s: string, n: nat)
    requires n < |s| && s[n] == '\n' && '\n' !in s[..n]
    ensures NewlineIndex(s) == n
  {
    assert forall k :: 0 <= k < n ==> s[k] == s[..n][k];
  }

  /**
   * Only the exact line ".\n" ends the body: a complete line is a dot line
   * exactly when it is ".\n" (so ".\r\n" and " .\n" are content).
   */
  lemma DotLineExact(line: string)
    requires IsLine(line)
    ensures IsDotLine(line) <==> line == ".\n"
  {
    var text := line[..|line| - 1];
    assert line == text + "\n";
    assert forall k :: 0 <= k < |text| ==> text[k] != '\n';
    if line[0] == '\n' {
      assert TrimLeft(line, '\n') == TrimLeft("", '\n');
    } else {
      assert TrimLeft(line, '\n') == line;
      assert TrimRight(line, '\n') == TrimRight(text, '\n');
      assert TrimRight(text, '\n') == text;
    }
  }

  /**
   * Splitting text made of complete lines and a final fragment without a
   * line break gives back exactly those lines: the fragment is dropped.
   */
  lemma {:induction false} FragmentDropped(lines: seq<string>, fragment: string)
    requires forall i :: 0 <= i < |lines| ==> IsLine(lines[i])
    requires '\n' !in fragment
    ensures CompleteLines(Concat(lines) + fragment) == lines
  {
    if lines == [] {
      assert Concat(lines) + fragment == fragment;
    } else {
      var l := lines[0];
      var tail := Concat(lines[1..]) + fragment;
      var s := Concat(lines) + fragment;
      assert s == l + tail;
      assert s[..|l|] == l;
      assert s[..|l| - 1] == l[..|l| - 1];
      NewlineFirst(s, |l| - 1);
      assert s[|l|..] == tail;
      FragmentDropped(lines[1..], fragment);
      assert lines == [l] + lines[1..];
    }
  }

  /** Lines after a dot line never reach the body, whatever they contain. */
  lemma {:induction false} DotEndsBody(before: seq<string>, dot: string, after: seq<string>)
    requires IsDotLine(dot)
    ensures UntilDot(before + [dot] + after, false) == UntilDot(before, false)
  {
    if before == [] {
      assert (before + [dot] + after)[0] == dot;
    } else if !IsDotLine(before[0]) {
      assert (before + [dot] + after)[1..] == before[1..] + [dot] + after;
      DotEndsBody(before[1..], dot, after);
    }
  }

  /** With `-i` the body is every complete line of the input. */
  lemma IgnoreDotKeepsAll(stdin: string)
    ensures Body(stdin, true) == Concat(CompleteLines(stdin))
    ensures Body(stdin, true) <= stdin
  {
  }
}
