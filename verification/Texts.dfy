/** String functions the text kernels share. A character stands for one byte or rune. */
module Texts {
  import opened Common

  predicate IsSpace(c: char) {
    var n := c as int;
    (9 <= n <= 13) || n == 32 || n == 0x85 || n == 0xA0 || n == 0x1680 || (0x2000 <= n <= 0x200A) ||
    n == 0x2028 || n == 0x2029 || n == 0x202F || n == 0x205F || n == 0x3000
  }

  function TrimLeft(s: string): string {
    if s != "" && IsSpace(s[0]) then TrimLeft(s[1..]) else s
  }

  function TrimRight(s: string): string {
    if s != "" && IsSpace(s[|s| - 1]) then TrimRight(s[..|s| - 1]) else s
  }

  function Trim(s: string): string {
    TrimRight(TrimLeft(s))
  }

  /** Nothing is trimmed from a text with no space at its right end. */
  lemma {:induction false} TrimRightKeeps(s: string)
    requires s == "" || !IsSpace(s[|s| - 1])
    ensures TrimRight(s) == s
  {
  }

  /** A trimmed left part stays where it is when something unspaced follows. */
  lemma {:induction false} TrimLeftOfConcat(a: string, b: string)
    requires TrimLeft(a) != "" || (b != "" && !IsSpace(b[0]))
    ensures TrimLeft(a + b) == TrimLeft(a) + b
  {
    if a == "" {
      assert a + b == b;
    } else {
      assert (a + b)[0] == a[0] && (a + b)[1..] == a[1..] + b;
      if IsSpace(a[0]) {
        TrimLeftOfConcat(a[1..], b);
      }
    }
  }

  lemma {:induction false} TrimLeftShrinksOrKeeps(s: string)
    ensures |TrimLeft(s)| <= |s|
    ensures TrimLeft(s) == s <==> s == "" || !IsSpace(s[0])
    ensures TrimLeft(s) != "" ==> !IsSpace(TrimLeft(s)[0])
  {
    if s != "" && IsSpace(s[0]) {
      TrimLeftShrinksOrKeeps(s[1..]);
    }
  }

  predicate OneLine(s: string) {
    '\n' !in s
  }

  function LineLength(s: string): (n: nat)
    ensures n <= |s| && '\n' !in s[..n] && (n < |s| ==> s[n] == '\n')
  {
    if s == "" || s[0] == '\n' then 0
    else
      var n := 1 + LineLength(s[1..]);
      assert s[..n] == [s[0]] + s[1..][..n - 1];
      n
  }

  /** The pieces of a text between its newlines; always at least one. */
  function Lines(s: string): seq<string> {
    var n := LineLength(s);
    if n == |s| then [s] else [s[..n]] + Lines(s[n + 1..])
  }

  lemma {:induction false} LinesOfOneLine(a: string)
    requires OneLine(a)
    ensures LineLength(a) == |a| && Lines(a) == [a]
  {
    if a != "" {
      LinesOfOneLine(a[1..]);
    }
  }

  lemma {:induction false} FirstLineLength(a: string, rest: string)
    requires OneLine(a)
    ensures LineLength(a + "\n" + rest) == |a|
  {
    if a == "" {
      assert (a + "\n" + rest)[0] == '\n';
    } else {
      assert (a + "\n" + rest)[0] == a[0] && (a + "\n" + rest)[1..] == a[1..] + "\n" + rest;
      FirstLineLength(a[1..], rest);
    }
  }

  lemma {:induction false} LinesOfConcat(a: string, rest: string)
    requires OneLine(a)
    ensures Lines(a + "\n" + rest) == [a] + Lines(rest)
  {
    var s := a + "\n" + rest;
    FirstLineLength(a, rest);
    assert s[..|a|] == a && s[|a| + 1..] == rest;
  }

  /** The lines, each closed by a newline, and what follows them. */
  function Joined(lines: seq<string>, tail: string): string {
    if lines == [] then tail else lines[0] + "\n" + Joined(lines[1..], tail)
  }

  lemma {:induction false} JoinedLine(line: string, lines: seq<string>, tail: string)
    ensures Joined([line] + lines, tail) == line + "\n" + Joined(lines, tail)
  {
    assert ([line] + lines)[1..] == lines;
  }

  lemma {:induction false} LinesOfJoined(lines: seq<string>, tail: string)
    requires forall l :: l in lines ==> OneLine(l)
    ensures Lines(Joined(lines, tail)) == lines + Lines(tail)
  {
    if lines == [] {
      assert lines + Lines(tail) == Lines(tail);
    } else {
      var first, others := lines[0], lines[1..];
      assert lines == [first] + others;
      LinesOfJoined(others, tail);
      JoinedLine(first, others, tail);
      LinesOfConcat(first, Joined(others, tail));
      assert [first] + (others + Lines(tail)) == ([first] + others) + Lines(tail);
    }
  }

  predicate HasPrefix(s: string, prefix: string) {
    prefix <= s
  }

  predicate OccursAt(s: string, k: string, i: int) {
    0 <= i <= |s| - |k| && s[i..i + |k|] == k
  }

  ghost predicate Occurs(s: string, k: string) {
    exists i :: OccursAt(s, k, i)
  }

  function Digits(n: nat): (d: string)
    ensures d != "" && forall c | c in d :: '0' <= c <= '9'
  {
    var last := ['0' + (n % 10) as char];
    if n < 10 then last else Digits(n / 10) + last
  }

  function DigitValue(c: char): nat {
    if '0' <= c <= '9' then (c - '0') as nat else 0
  }

  /** The number a decimal text spells. */
  function Value(d: string): nat {
    if d == "" then 0 else 10 * Value(d[..|d| - 1]) + DigitValue(d[|d| - 1])
  }

  /** Digits spells the number in decimal, without leading zeros. */
  lemma {:induction false} DigitsSpell(n: nat)
    ensures Value(Digits(n)) == n
    ensures n > 0 ==> Digits(n)[0] != '0'
    ensures n < 10 ==> |Digits(n)| == 1
  {
    var last := ['0' + (n % 10) as char];
    if n >= 10 {
      DigitsSpell(n / 10);
      assert Digits(n)[..|Digits(n)| - 1] == Digits(n / 10);
    }
  }

  ghost predicate AllSpace(s: string) {
    forall c | c in s :: IsSpace(c)
  }

  lemma {:induction false} TrimLeftExactly(s: string)
    ensures TrimLeft(s) == "" || !IsSpace(TrimLeft(s)[0])
    ensures |TrimLeft(s)| <= |s| && s[|s| - |TrimLeft(s)|..] == TrimLeft(s) && AllSpace(s[..|s| - |TrimLeft(s)|])
  {
    if s != "" && IsSpace(s[0]) {
      TrimLeftExactly(s[1..]);
      var n := |s| - |TrimLeft(s)|;
      assert s[..n] == [s[0]] + s[1..][..n - 1];
    }
  }

  lemma {:induction false} TrimRightExactly(s: string)
    ensures TrimRight(s) == "" || !IsSpace(TrimRight(s)[|TrimRight(s)| - 1])
    ensures TrimRight(s) <= s && AllSpace(s[|TrimRight(s)|..])
  {
    if s != "" && IsSpace(s[|s| - 1]) {
      TrimRightExactly(s[..|s| - 1]);
      var n := |TrimRight(s)|;
      assert s[n..] == s[..|s| - 1][n..] + [s[|s| - 1]];
    }
  }

  /** Trimming takes spaces, and all of them, off both ends and nothing else. */
  lemma TrimExactly(s: string)
    ensures Trim(s) == "" || (!IsSpace(Trim(s)[0]) && !IsSpace(Trim(s)[|Trim(s)| - 1]))
    ensures exists a, b :: AllSpace(a) && AllSpace(b) && s == a + Trim(s) + b
  {
    var left := TrimLeft(s);
    TrimLeftExactly(s);
    TrimRightExactly(left);
    var a, b := s[..|s| - |left|], left[|Trim(s)|..];
    assert s == a + Trim(s) + b;
  }
}
