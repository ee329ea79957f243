/**
 * The functions of Go's `strings` and `bytes` packages that the core calls.
 * A Go string is a sequence of bytes; here every character of a `string`
 * stands for one byte, so single-byte separators are single characters.
 */
module GoStrings {

  /** strings.Count(s, string(c)): how many times c occurs in s. */
  function Count(s: string, c: char): (n: nat)
    ensures n <= |s|
    ensures n == 0 <==> c !in s
  {
    if s == [] then 0 else (if s[0] == c then 1 else 0) + Count(s[1..], c)
  }

  /** strings.Split(s, string(sep)): the pieces between the separators, always at least one. */
  function Split(s: string, sep: char): (parts: seq<string>)
    ensures |parts| == Count(s, sep) + 1
    ensures forall i :: 0 <= i < |parts| ==> sep !in parts[i]
  {
    if s == [] then [""]
    else
      var rest := Split(s[1..], sep);
      if s[0] == sep then [""] + rest
      else [[s[0]] + rest[0]] + rest[1..]
  }

  /** strings.Join(parts, sep). */
  function Join(parts: seq<string>, sep: string): string
  {
    if |parts| == 0 then ""
    else if |parts| == 1 then parts[0]
    else parts[0] + sep + Join(parts[1..], sep)
  }

  /** strings.Contains(s, sub): sub occurs somewhere in s (the empty string occurs everywhere). */
  predicate Contains(s: string, sub: string)
  {
    sub <= s || (|s| > 0 && Contains(s[1..], sub))
  }

  function TrimLeft(s: string, c: char): (r: string)
    ensures |r| > 0 ==> r[0] != c
    ensures |s| > 0 && s[0] != c ==> r == s
  {
    if |s| > 0 && s[0] == c then TrimLeft(s[1..], c) else s
  }

  function TrimRight(s: string, c: char): (r: string)
    ensures r <= s
    ensures |r| > 0 ==> r[|r| - 1] != c
    ensures c !in s ==> r == s
  {
    if |s| > 0 && s[|s| - 1] == c then TrimRight(s[..|s| - 1], c) else s
  }

  /** bytes.Trim(s, string(c)): s without its leading and trailing runs of c. */
  function Trim(s: string, c: char): (r: string)
    ensures |r| > 0 ==> r[0] != c && r[|r| - 1] != c
  {
    TrimRight(TrimLeft(s, c), c)
  }

  /** The text that consecutive `WriteString(line + "\r\n")` calls produce. */
  function CrlfLines(lines: seq<string>): string
  {
    if lines == [] then "" else lines[0] + "\r\n" + CrlfLines(lines[1..])
  }

  /** The lines as a reader splitting on '\n' sees them: each keeps its '\r'. */
  function WithCR(lines: seq<string>): seq<string>
  {
    if lines == [] then [] else [lines[0] + "\r"] + WithCR(lines[1..])
  }

  /** sub occurs in s starting at position i. */
  predicate OccursAt(s: string, sub: string, i: int)
  {
    0 <= i <= |s| - |sub| && s[i..i + |sub|] == sub
  }

  /** Contains agrees with the positional definition of a substring. */
  lemma {:induction false} ContainsAt(s: string, sub: string)
    ensures Contains(s, sub) <==> exists i :: OccursAt(s, sub, i)
  {
    if sub <= s {
      assert OccursAt(s, sub, 0);
    } else if |s| == 0 {
    } else {
      ContainsAt(s[1..], sub);
      if Contains(s[1..], sub) {
        var i :| OccursAt(s[1..], sub, i);
        assert s[i + 1..i + 1 + |sub|] == s[1..][i..i + |sub|];
        assert OccursAt(s, sub, i + 1);
      }
      if exists i :: OccursAt(s, sub, i) {
        var i :| OccursAt(s, sub, i);
        if i > 0 {
          assert s[1..][i - 1..i - 1 + |sub|] == s[i..i + |sub|];
          assert OccursAt(s[1..], sub, i - 1);
        }
      }
    }
  }

  /** Splitting after a separator-free prefix yields that prefix as the first piece. */
  lemma {:induction false} SplitAfter(a: string, sep: char, b: string)
    requires sep !in a
    ensures Split(a + [sep] + b, sep) == [a] + Split(b, sep)
  {
    if a == [] {
      assert a + [sep] + b == [sep] + b;
      assert ([sep] + b)[1..] == b;
    } else {
      var t := a[1..] + [sep] + b;
      SplitAfter(a[1..], sep, b);
      assert a + [sep] + b == [a[0]] + t;
      SplitCons(a[0], t, sep);
      assert [a[0]] + a[1..] == a;
    }
  }

  /** A first character other than the separator joins the first piece of the rest. */
  lemma SplitCons(c: char, t: string, sep: char)
    requires c != sep
    ensures Split([c] + t, sep) == [[c] + Split(t, sep)[0]] + Split(t, sep)[1..]
  {
    assert ([c] + t)[1..] == t;
  }

  /** A string without the separator splits into itself. */
  lemma SplitNoSep(s: string, sep: char)
    requires sep !in s
    ensures Split(s, sep) == [s]
  {
    JoinSplit(s, sep);
  }

  lemma {:induction false} JoinConsHead(x: string, parts: seq<string>, sep: string)
    requires |parts| > 0
    ensures Join([x + parts[0]] + parts[1..], sep) == x + Join(parts, sep)
  {
    var q := [x + parts[0]] + parts[1..];
    if |parts| > 1 {
      assert q[1..] == parts[1..];
    }
  }

  /** Joining the pieces of a split with the same separator restores the string. */
  lemma {:induction false} JoinSplit(s: string, sep: char)
    ensures Join(Split(s, sep), [sep]) == s
  {
    if s != [] {
      JoinSplit(s[1..], sep);
      var rest := Split(s[1..], sep);
      if s[0] == sep {
        assert ([""] + rest)[1..] == rest;
        assert Join([""] + rest, [sep]) == [sep] + Join(rest, [sep]);
        assert [sep] + s[1..] == s;
      } else {
        JoinConsHead([s[0]], rest, [sep]);
        assert [s[0]] + s[1..] == s;
      }
    }
  }

  /** Splitting a join of separator-free pieces gives the pieces back. */
  lemma {:induction false} SplitJoin(parts: seq<string>, sep: char)
    requires |parts| > 0
    requires forall i :: 0 <= i < |parts| ==> sep !in parts[i]
    ensures Split(Join(parts, [sep]), sep) == parts
  {
    if |parts| == 1 {
      SplitNoSep(parts[0], sep);
    } else {
      SplitJoin(parts[1..], sep);
      SplitAfter(parts[0], sep, Join(parts[1..], [sep]));
      assert parts == [parts[0]] + parts[1..];
    }
  }

  /** A character that occurs neither in the pieces nor in the separator does not occur in their join. */
  lemma {:induction false} JoinFree(parts: seq<string>, sep: string, c: char)
    requires c !in sep
    requires forall i :: 0 <= i < |parts| ==> c !in parts[i]
    ensures c !in Join(parts, sep)
  {
    if |parts| > 1 {
      JoinFree(parts[1..], sep, c);
    }
  }

  lemma {:induction false} CrlfLinesAppend(lines: seq<string>, last: string)
    ensures CrlfLines(lines + [last]) == CrlfLines(lines) + last + "\r\n"
  {
    if lines != [] {
      CrlfLinesAppend(lines[1..], last);
      assert (lines + [last])[1..] == lines[1..] + [last];
    }
  }

  /** No line contains a '\n'. */
  predicate SingleLines(lines: seq<string>)
  {
    forall i :: 0 <= i < |lines| ==> '\n' !in lines[i]
  }

  /**
   * Text written as CRLF-terminated lines, split on '\n', yields those lines
   * (each with its '\r') followed by the pieces of what comes after.
   */
  lemma {:induction false} SplitCrlfLines(lines: seq<string>, rest: string)
    requires SingleLines(lines)
    ensures Split(CrlfLines(lines) + rest, '\n') == WithCR(lines) + Split(rest, '\n')
  {
    if lines == [] {
      assert CrlfLines(lines) + rest == rest;
    } else {
      var l, tail := lines[0], CrlfLines(lines[1..]);
      SingleLinesTail(lines);
      SplitCrlfLines(lines[1..], rest);
      CrlfCons(l, tail, rest, CrlfLines(lines) + rest);
      SplitStep(l, tail + rest, CrlfLines(lines) + rest);
      ConsAssoc(l + "\r", WithCR(lines[1..]), Split(rest, '\n'));
    }
  }

  /** Header lines followed by a blank line split into those lines, "\r", and the pieces of the rest. */
  lemma SplitHeaderBlock(headers: seq<string>, rest: string)
    requires SingleLines(headers)
    ensures Split(CrlfLines(headers + [""]) + rest, '\n') == WithCR(headers) + ["\r"] + Split(rest, '\n')
  {
    var lines := headers + [""];
    assert SingleLines(lines) by {
      forall i | 0 <= i < |lines| ensures '\n' !in lines[i] {
        if i < |headers| {
          assert lines[i] == headers[i];
        }
      }
    }
    SplitCrlfLines(lines, rest);
    WithCRAppend(headers, "");
    assert "" + "\r" == "\r";
  }

  lemma CrlfCons(l: string, tail: string, rest: string, text: string)
    requires text == (l + "\r\n" + tail) + rest
    ensures text == l + "\r\n" + (tail + rest)
  {
  }

  lemma SingleLinesTail(lines: seq<string>)
    requires SingleLines(lines) && lines != []
    ensures SingleLines(lines[1..]) && '\n' !in lines[0] + "\r"
  {
    assert '\n' !in lines[0];
    forall i | 0 <= i < |lines| - 1 ensures '\n' !in lines[1..][i] {
      assert lines[1..][i] == lines[i + 1];
    }
  }

  lemma ConsAssoc<T>(x: T, b: seq<T>, c: seq<T>)
    ensures [x] + (b + c) == ([x] + b) + c
  {
  }

  lemma SplitStep(l: string, tail: string, text: string)
    requires '\n' !in l + "\r"
    requires text == l + "\r\n" + tail
    ensures Split(text, '\n') == [l + "\r"] + Split(tail, '\n')
  {
    assert text == (l + "\r") + ['\n'] + tail;
    SplitAfter(l + "\r", '\n', tail);
  }

  lemma {:induction false} WithCRAppend(lines: seq<string>, last: string)
    ensures WithCR(lines + [last]) == WithCR(lines) + [last + "\r"]
  {
    if lines != [] {
      assert (lines + [last])[1..] == lines[1..] + [last];
      WithCRAppend(lines[1..], last);
    }
  }

  /** A string contains each of its prefixes. */
  lemma ContainsPrefix(a: string, b: string)
    ensures Contains(a + b, a)
  {
    assert a <= a + b;
  }

  /** What the tail of a string contains, the whole string contains. */
  lemma {:induction false} ContainsSuffix(a: string, b: string, sub: string)
    requires Contains(b, sub)
    ensures Contains(a + b, sub)
  {
    if a != [] {
      assert (a + b)[1..] == a[1..] + b;
      ContainsSuffix(a[1..], b, sub);
    } else {
      assert a + b == b;
    }
  }

  lemma {:induction false} CountAppend(a: string, b: string, c: char)
    ensures Count(a + b, c) == Count(a, c) + Count(b, c)
  {
    if a == [] {
      assert a + b == b;
    } else {
      assert (a + b)[1..] == a[1..] + b;
      CountAppend(a[1..], b, c);
    }
  }

  /** Joined without a separator, the first two parts contribute all their occurrences. */
  lemma CountJoinFirstTwo(parts: seq<string>, c: char)
    requires |parts| >= 2
    ensures Count(Join(parts, ""), c) >= Count(parts[0], c) + Count(parts[1], c)
  {
    var rest := Join(parts[1..], "");
    JoinNoSep(parts);
    CountAppend(parts[0], rest, c);
    if |parts| == 2 {
      assert rest == parts[1];
    } else {
      JoinNoSep(parts[1..]);
      assert parts[1..][1..] == parts[2..];
      CountAppend(parts[1], Join(parts[2..], ""), c);
    }
  }

  lemma JoinNoSep(parts: seq<string>)
    requires |parts| >= 2
    ensures Join(parts, "") == parts[0] + Join(parts[1..], "")
  {
    assert parts[0] + "" == parts[0];
  }
}
