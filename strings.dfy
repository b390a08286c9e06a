/**
 * The Python string operations the filter and the log parser rely on:
 * `str.startswith`, `str.split(sep)`, `sep.join`, `str.rstrip("\n")`,
 * `str.isdigit` with `int(...)`, and `str(n)` for a natural number.
 */
module Strings {

  predicate StartsWith(s: string, prefix: string)
  {
    |prefix| <= |s| && s[..|prefix|] == prefix
  }

  // ----- digits and decimal values -----

  /** An ASCII decimal digit. */
  predicate IsDigit(c: char)
  {
    '0' <= c <= '9'
  }

  /** Every character is a digit (the empty string qualifies). */
  predicate OnlyDigits(s: string)
  {
    forall i :: 0 <= i < |s| ==> IsDigit(s[i])
  }

  /** `s.isdigit()`: non-empty and made only of digits. */
  predicate IsDigits(s: string)
  {
    |s| > 0 && OnlyDigits(s)
  }

  function DigitValue(c: char): (d: nat)
    requires IsDigit(c)
    ensures d < 10
  {
    c as int - '0' as int
  }

  function DigitChar(d: nat): (c: char)
    requires d < 10
    ensures IsDigit(c) && DigitValue(c) == d
  {
    ('0' as int + d) as char
  }

  /** `int(s)` for a string of digits; leading zeros are allowed. */
  function DigitsValue(s: string): nat
    requires OnlyDigits(s)
  {
    if |s| == 0 then 0 else DigitsValue(s[..|s| - 1]) * 10 + DigitValue(s[|s| - 1])
  }

  /** `str(n)`: the shortest decimal spelling of n. */
  function Decimal(n: nat): (r: string)
    ensures IsDigits(r)
  {
    if n < 10 then [DigitChar(n)] else Decimal(n / 10) + [DigitChar(n % 10)]
  }

  /** `int(str(n)) == n`. */
  lemma {:induction false} DecimalRoundTrip(n: nat)
    ensures DigitsValue(Decimal(n)) == n
  {
    if n >= 10 {
      var s := Decimal(n);
      assert s[..|s| - 1] == Decimal(n / 10);
      DecimalRoundTrip(n / 10);
    }
  }

  /** A leading zero does not change the value of a digit string. */
  lemma {:induction false} LeadingZero(s: string)
    requires OnlyDigits(s)
    ensures OnlyDigits("0" + s) && DigitsValue("0" + s) == DigitsValue(s)
  {
    if |s| > 0 {
      var t := "0" + s;
      assert t[..|t| - 1] == "0" + s[..|s| - 1];
      assert t[|t| - 1] == s[|s| - 1];
      LeadingZero(s[..|s| - 1]);
    }
  }

  // ----- split and join -----

  /** `s.split(sep)` with an explicit one-character separator: never empty, `"".split(sep) == [""]`. */
  function Split(s: string, sep: char): (r: seq<string>)
    ensures |r| >= 1
  {
    if |s| == 0 then [""]
    else
      var rest := Split(s[1..], sep);
      if s[0] == sep then [""] + rest else [[s[0]] + rest[0]] + rest[1..]
  }

  /** `sep.join(parts)`. */
  function Join(parts: seq<string>, sep: char): string
  {
    if |parts| == 0 then ""
    else if |parts| == 1 then parts[0]
    else parts[0] + [sep] + Join(parts[1..], sep)
  }

  function Occurrences(s: string, c: char): nat
  {
    if |s| == 0 then 0 else (if s[0] == c then 1 else 0) + Occurrences(s[1..], c)
  }

  /** No field produced by Split contains the separator. */
  lemma {:induction false} SplitFieldsFree(s: string, sep: char)
    ensures forall i :: 0 <= i < |Split(s, sep)| ==> sep !in Split(s, sep)[i]
  {
    if |s| > 0 {
      SplitFieldsFree(s[1..], sep);
    }
  }

  /** `len(s.split(sep)) == s.count(sep) + 1`. */
  lemma {:induction false} SplitLength(s: string, sep: char)
    ensures |Split(s, sep)| == Occurrences(s, sep) + 1
  {
    if |s| > 0 {
      SplitLength(s[1..], sep);
    }
  }

  /** Joining the fields of a split gives back the original string. */
  lemma {:induction false} JoinSplit(s: string, sep: char)
    ensures Join(Split(s, sep), sep) == s
  {
    if |s| > 0 {
      var rest := Split(s[1..], sep);
      JoinSplit(s[1..], sep);
      if s[0] == sep {
        assert ([""] + rest)[1..] == rest;
        assert Join([""] + rest, sep) == [sep] + Join(rest, sep);
      } else {
        var parts := [[s[0]] + rest[0]] + rest[1..];
        if |rest| == 1 {
          assert parts == [[s[0]] + rest[0]];
        } else {
          assert parts[1..] == rest[1..];
          assert Join(rest, sep) == rest[0] + [sep] + Join(rest[1..], sep);
        }
      }
    }
  }

  /** Splitting a string whose first piece holds no separator. */
  lemma {:induction false} SplitPrefix(a: string, t: string, sep: char)
    requires sep !in a
    ensures Split(a + t, sep) == [a + Split(t, sep)[0]] + Split(t, sep)[1..]
  {
    if |a| > 0 {
      assert (a + t)[1..] == a[1..] + t;
      SplitPrefix(a[1..], t, sep);
      assert [a[0]] + (a[1..] + Split(t, sep)[0]) == a + Split(t, sep)[0];
    } else {
      assert a + t == t;
      var r := Split(t, sep);
      assert a + r[0] == r[0];
      assert [r[0]] + r[1..] == r;
    }
  }

  /** Splitting a join of separator-free fields gives the fields back. */
  lemma {:induction false} SplitJoin(parts: seq<string>, sep: char)
    requires |parts| >= 1
    requires forall i :: 0 <= i < |parts| ==> sep !in parts[i]
    ensures Split(Join(parts, sep), sep) == parts
  {
    if |parts| == 1 {
      SplitPrefix(parts[0], "", sep);
      assert parts[0] + "" == parts[0];
    } else {
      var tail := Join(parts[1..], sep);
      assert Join(parts, sep) == parts[0] + [sep] + tail;
      SplitJoin(parts[1..], sep);
      assert parts[0] + [sep] + tail == parts[0] + ([sep] + tail);
      SplitPrefix(parts[0], [sep] + tail, sep);
      assert ([sep] + tail)[1..] == tail;
      var r := Split([sep] + tail, sep);
      assert r == [""] + parts[1..];
      assert parts[0] + r[0] == parts[0];
      assert r[1..] == parts[1..];
      assert [parts[0]] + parts[1..] == parts;
    }
  }

  /** A joined string starts with the first part's first character. */
  lemma JoinHead(parts: seq<string>, sep: char)
    requires |parts| >= 1 && |parts[0]| >= 1
    ensures |Join(parts, sep)| >= 1 && Join(parts, sep)[0] == parts[0][0]
  {
  }

  /** A character that is neither the separator nor in any part is not in the join. */
  lemma {:induction false} JoinAvoids(parts: seq<string>, sep: char, c: char)
    requires c != sep
    requires forall i :: 0 <= i < |parts| ==> c !in parts[i]
    ensures c !in Join(parts, sep)
  {
    if |parts| >= 2 {
      JoinAvoids(parts[1..], sep, c);
    }
  }

  // ----- trailing newlines -----

  /**
   * `s.rstrip("\n")`: the longest prefix of s that does not end in a newline
   * and after which s holds only newlines.
   */
  function RStripNewlines(s: string): string
  {
    if |s| > 0 && s[|s| - 1] == '\n' then RStripNewlines(s[..|s| - 1]) else s
  }

  lemma {:induction false} RStripNewlinesSpec(s: string)
    ensures var r := RStripNewlines(s);
      && |r| <= |s| && r == s[..|r|]
      && (|r| == 0 || r[|r| - 1] != '\n')
      && forall i :: |r| <= i < |s| ==> s[i] == '\n'
  {
    if |s| > 0 && s[|s| - 1] == '\n' {
      RStripNewlinesSpec(s[..|s| - 1]);
    }
  }

  /** Stripping the newline of a line without any other newline gives its text back. */
  lemma StripLineEnd(s: string)
    requires '\n' !in s
    ensures RStripNewlines(s + "\n") == s
  {
    assert (s + "\n")[..|s|] == s;
    if |s| > 0 {
      assert s[|s| - 1] in s;
    }
  }
}
