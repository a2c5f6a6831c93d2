/** String building blocks the converter relies on: Python's `str.join`,
    list repetition, newline-terminated lines and decimal numerals. */
module Text {
  import opened Outcomes

  /** Python's `sep.join(parts)`: the parts, with `sep` between neighbours. */
  function Join(sep: string, parts: seq<string>): string
    decreases |parts|
  {
    if |parts| == 0 then ""
    else if |parts| == 1 then parts[0]
    else Join(sep, parts[..|parts| - 1]) + sep + parts[|parts| - 1]
  }

  /** Python's `[s] * n`. */
  function Repeat(s: string, n: nat): seq<string>
  {
    seq(n, _ => s)
  }

  /** The parts concatenated, each one followed by `term`. */
  function Terminated(parts: seq<string>, term: string): string
    decreases |parts|
  {
    if parts == [] then ""
    else Terminated(parts[..|parts| - 1], term) + parts[|parts| - 1] + term
  }

  /** The sum of the lengths of the parts. */
  function TotalLength(parts: seq<string>): nat
    decreases |parts|
  {
    if parts == [] then 0 else TotalLength(parts[..|parts| - 1]) + |parts[|parts| - 1]|
  }

  /** Splitting a text into lines at each newline; a final fragment
      without a newline is a line of its own. */
  function SplitLines(s: string): seq<string>
  {
    SplitFrom(s, "")
  }

  /** SplitLines, with `current` the part of the current line already read. */
  function SplitFrom(s: string, current: string): seq<string>
    decreases |s|
  {
    if s == [] then (if current == [] then [] else [current])
    else if s[0] == '\n' then [current] + SplitFrom(s[1..], "")
    else SplitFrom(s[1..], current + [s[0]])
  }

  lemma {:induction false} JoinAvoids(c: char, sep: string, parts: seq<string>)
    requires c !in sep
    requires forall i :: 0 <= i < |parts| ==> c !in parts[i]
    ensures c !in Join(sep, parts)
    decreases |parts|
  {
    if |parts| > 1 {
      JoinAvoids(c, sep, parts[..|parts| - 1]);
    }
  }

  lemma {:induction false} JoinLength(sep: string, parts: seq<string>)
    requires parts != []
    ensures |Join(sep, parts)| == TotalLength(parts) + (|parts| - 1) * |sep|
    decreases |parts|
  {
    if |parts| == 1 {
      assert parts[..0] == [];
    } else {
      JoinLength(sep, parts[..|parts| - 1]);
    }
  }

  /** Terminated turns concatenation of part lists into concatenation of texts. */
  lemma {:induction false} TerminatedAppend(a: seq<string>, b: seq<string>, term: string)
    ensures Terminated(a + b, term) == Terminated(a, term) + Terminated(b, term)
    decreases |b|
  {
    if b == [] {
      assert a + b == a;
    } else {
      var b' := b[..|b| - 1];
      assert (a + b)[..|a + b| - 1] == a + b';
      TerminatedAppend(a, b', term);
    }
  }

  lemma {:induction false} TerminatedCons(first: string, rest: seq<string>, term: string)
    ensures Terminated([first] + rest, term) == first + term + Terminated(rest, term)
  {
    TerminatedAppend([first], rest, term);
    assert [first][..0] == [];
  }

  lemma {:induction false} SplitFromLine(line: string, rest: string, current: string)
    requires '\n' !in line
    ensures SplitFrom(line + "\n" + rest, current) == [current + line] + SplitFrom(rest, "")
    decreases |line|
  {
    var s := line + "\n" + rest;
    if line == [] {
      assert s == "\n" + rest && s[0] == '\n' && s[1..] == rest;
      assert current + line == current;
    } else {
      assert s[0] == line[0];
      assert s[1..] == line[1..] + "\n" + rest;
      SplitFromLine(line[1..], rest, current + [line[0]]);
      assert current + [line[0]] + line[1..] == current + line;
    }
  }

  /** Splitting newline-terminated lines that hold no newline gives back exactly those lines. */
  lemma {:induction false} SplitTerminatedLines(lines: seq<string>)
    requires forall i :: 0 <= i < |lines| ==> '\n' !in lines[i]
    ensures SplitLines(Terminated(lines, "\n")) == lines
    decreases |lines|
  {
    if lines != [] {
      var rest := lines[1..];
      assert lines == [lines[0]] + rest;
      TerminatedCons(lines[0], rest, "\n");
      SplitFromLine(lines[0], Terminated(rest, "\n"), "");
      assert "" + lines[0] == lines[0];
      SplitTerminatedLines(rest);
    }
  }

  /** The character of a decimal digit. */
  function DigitChar(d: nat): char
    requires d < 10
  {
    (48 + d) as char
  }

  /** The value of a decimal digit character, None for any other character. */
  function DigitValue(c: char): Option<nat>
  {
    if '0' <= c <= '9' then Some(c as int - 48) else None
  }

  /** Python's `f"{n}"` for a natural number: its decimal numeral. */
  function Decimal(n: nat): (r: string)
    ensures |r| >= 1
    decreases n
  {
    if n < 10 then [DigitChar(n)] else Decimal(n / 10) + [DigitChar(n % 10)]
  }

  /** The number a string of decimal digits denotes; None when it is empty
      or holds a non-digit. */
  function ParseDecimal(s: string): Option<nat>
    decreases |s|
  {
    if |s| == 0 then None
    else match DigitValue(s[|s| - 1])
      case None => None
      case Some(d) =>
        if |s| == 1 then Some(d)
        else match ParseDecimal(s[..|s| - 1])
          case None => None
          case Some(m) => Some(10 * m + d)
  }

  /** Decimal numerals read back as the number they render. */
  lemma {:induction false} ParseDecimalRoundTrip(n: nat)
    ensures ParseDecimal(Decimal(n)) == Some(n)
    decreases n
  {
    if n >= 10 {
      var s := Decimal(n);
      assert s == Decimal(n / 10) + [DigitChar(n % 10)];
      assert s[..|s| - 1] == Decimal(n / 10);
      ParseDecimalRoundTrip(n / 10);
    }
  }
}
