/**
 * Reading the filter's summaries back from a log: every line starting with
 * `[OK]` is scanned for `key=value` tokens (the pattern `(\w+)=([^\s]+)`,
 * matched left to right without overlap), the tokens become a dictionary, and
 * a line with an `in` key gives a row whose missing fields are "NA". Rows
 * with the same input file keep only the last.
 */
module LogParser {
  import opened Options
  import opened Strings
  import opened Assoc

  /** `\w` on ASCII: a letter, a digit or an underscore. */
  predicate IsWordChar(c: char)
  {
    'a' <= c <= 'z' || 'A' <= c <= 'Z' || '0' <= c <= '9' || c == '_'
  }

  /** `\s` for a `str` pattern: the characters Python's `str.isspace` accepts. */
  predicate IsSpace(c: char)
  {
    var n := c as int;
    n == 0x20 || 0x09 <= n <= 0x0d || 0x1c <= n <= 0x1f || n == 0x85 || n == 0xa0 || n == 0x1680
    || 0x2000 <= n <= 0x200a || n == 0x2028 || n == 0x2029 || n == 0x202f || n == 0x205f || n == 0x3000
  }

  predicate IsWord(s: string)
  {
    |s| > 0 && forall i :: 0 <= i < |s| ==> IsWordChar(s[i])
  }

  /** Non-empty and free of whitespace: what `[^\s]+` matches. */
  predicate IsNonSpace(s: string)
  {
    |s| > 0 && forall i :: 0 <= i < |s| ==> !IsSpace(s[i])
  }

  /** The length of the longest prefix of word characters. */
  function WordRun(s: string): (n: nat)
    ensures n <= |s|
  {
    if |s| > 0 && IsWordChar(s[0]) then 1 + WordRun(s[1..]) else 0
  }

  /** The length of the longest prefix without whitespace. */
  function NonSpaceRun(s: string): (n: nat)
    ensures n <= |s|
  {
    if |s| > 0 && !IsSpace(s[0]) then 1 + NonSpaceRun(s[1..]) else 0
  }

  /**
   * Where a token starting at the first character ends, or 0 when none
   * starts there. The key is the whole run of word characters (a shorter one
   * would end before a word character, not before `=`), then comes `=`, then
   * the value is the whole run of non-space characters.
   */
  function MatchEnd(s: string): (e: nat)
    ensures e == 0 || 0 < WordRun(s) < WordRun(s) + 1 < e <= |s|
  {
    var w := WordRun(s);
    if 0 < w < |s| && s[w] == '=' && NonSpaceRun(s[w + 1..]) > 0 then w + 1 + NonSpaceRun(s[w + 1..]) else 0
  }

  /**
   * `KV.findall(s)`: after a match the scan resumes at its end, otherwise one
   * position further on.
   */
  function Tokens(s: string): seq<(string, string)>
    decreases |s|
  {
    if |s| == 0 then []
    else
      var e := MatchEnd(s);
      (if e > 0 then [(s[..WordRun(s)], s[WordRun(s) + 1..e])] else []) + Tokens(s[if e > 0 then e else 1..])
  }

  lemma {:induction false} WordRunIsWord(s: string)
    ensures forall i :: 0 <= i < WordRun(s) ==> IsWordChar(s[i])
    ensures WordRun(s) < |s| ==> !IsWordChar(s[WordRun(s)])
  {
    if |s| > 0 && IsWordChar(s[0]) {
      WordRunIsWord(s[1..]);
    }
  }

  lemma {:induction false} NonSpaceRunIsNonSpace(s: string)
    ensures forall i :: 0 <= i < NonSpaceRun(s) ==> !IsSpace(s[i])
    ensures NonSpaceRun(s) < |s| ==> IsSpace(s[NonSpaceRun(s)])
  {
    if |s| > 0 && !IsSpace(s[0]) {
      NonSpaceRunIsNonSpace(s[1..]);
    }
  }

  /** Every token has a word for its key and a non-empty whitespace-free value. */
  lemma {:induction false} TokensWellFormed(s: string)
    ensures forall i :: 0 <= i < |Tokens(s)| ==> IsWord(Tokens(s)[i].0) && IsNonSpace(Tokens(s)[i].1)
    decreases |s|
  {
    if |s| > 0 {
      var w, e := WordRun(s), MatchEnd(s);
      if e > 0 {
        WordRunIsWord(s);
        NonSpaceRunIsNonSpace(s[w + 1..]);
        TokensWellFormed(s[e..]);
      } else {
        TokensWellFormed(s[1..]);
      }
    }
  }

  lemma {:induction false} WordRunOf(k: string, t: string)
    requires forall i :: 0 <= i < |k| ==> IsWordChar(k[i])
    requires |t| == 0 || !IsWordChar(t[0])
    ensures WordRun(k + t) == |k|
  {
    if |k| > 0 {
      assert (k + t)[1..] == k[1..] + t;
      WordRunOf(k[1..], t);
    } else {
      assert k + t == t;
    }
  }

  lemma {:induction false} NonSpaceRunOf(v: string, t: string)
    requires forall i :: 0 <= i < |v| ==> !IsSpace(v[i])
    requires |t| == 0 || IsSpace(t[0])
    ensures NonSpaceRun(v + t) == |v|
  {
    if |v| > 0 {
      assert (v + t)[1..] == v[1..] + t;
      NonSpaceRunOf(v[1..], t);
    } else {
      assert v + t == t;
    }
  }

  /** The scan moves one position on when no token starts here. */
  lemma TokensSkip(s: string)
    requires |s| > 0 && MatchEnd(s) == 0
    ensures Tokens(s) == Tokens(s[1..])
  {
    assert [] + Tokens(s[1..]) == Tokens(s[1..]);
  }

  /** A token whose key is a word run followed by `=` and a non-space run, after which the scan resumes. */
  lemma TokensMatch(s: string, w: nat, e: nat)
    requires 0 < w < |s| && w == WordRun(s) && s[w] == '='
    requires w + 1 < e == w + 1 + NonSpaceRun(s[w + 1..])
    ensures Tokens(s) == [(s[..w], s[w + 1..e])] + Tokens(s[e..])
  {
    assert MatchEnd(s) == e;
  }

  /** A whitespace character starts no token. */
  lemma SpaceSkipped(c: char, t: string)
    requires IsSpace(c)
    ensures Tokens([c] + t) == Tokens(t)
  {
    assert WordRun([c] + t) == 0;
    TokensSkip([c] + t);
    assert ([c] + t)[1..] == t;
  }

  /** `key=value` followed by whitespace or the end yields exactly that token. */
  lemma TokenAt(k: string, v: string, rest: string)
    requires IsWord(k) && IsNonSpace(v)
    requires |rest| == 0 || IsSpace(rest[0])
    ensures Tokens(k + ("=" + (v + rest))) == [(k, v)] + Tokens(rest)
  {
    var after := "=" + (v + rest);
    var t := k + after;
    var w, e := |k|, |k| + 1 + |v|;
    WordRunOf(k, after);
    assert t[w + 1..] == v + rest by {
      assert t[w..] == after && after[1..] == v + rest;
    }
    NonSpaceRunOf(v, rest);
    TokensMatch(t, w, e);
    assert t[..w] == k;
    assert t[w + 1..e] == v && t[e..] == rest by {
      assert t[w + 1..e] == (v + rest)[..|v|] && t[e..] == (v + rest)[|v|..];
    }
  }

  /** A field ` key=value` followed by whitespace or the end yields exactly that token. */
  lemma TokensField(k: string, v: string, rest: string)
    requires IsWord(k) && IsNonSpace(v)
    requires |rest| == 0 || IsSpace(rest[0])
    ensures Tokens(" " + (k + ("=" + (v + rest)))) == [(k, v)] + Tokens(rest)
  {
    SpaceSkipped(' ', k + ("=" + (v + rest)));
    TokenAt(k, v, rest);
  }

  /** The `[OK]` tag yields no token and does not reach into what follows. */
  lemma OkTagSilent(t: string)
    ensures Tokens("[OK]" + t) == Tokens(t)
  {
    var s := "[OK]" + t;
    assert WordRun(s) == 0;
    TokensSkip(s);
    assert s[1..] == "OK]" + t;
    WordRunOf("OK", "]" + t);
    assert "OK" + ("]" + t) == s[1..];
    TokensSkip(s[1..]);
    assert s[2..] == "K]" + t;
    WordRunOf("K", "]" + t);
    assert "K" + ("]" + t) == s[2..];
    TokensSkip(s[2..]);
    assert s[3..] == "]" + t && s[4..] == t;
    assert WordRun(s[3..]) == 0;
    TokensSkip(s[3..]);
    assert s[3..][1..] == s[4..] && s[2..][1..] == s[3..] && s[1..][1..] == s[2..];
  }

  // ----- rows -----

  /** One row of the merged table, as read from the log. */
  datatype Row = Row(gzFile: string, filteredGzFile: string, nRecords: string,
                     afterGtHet: string, afterDp: string, afterGq: string, hetCount: string)

  const Missing: string := "NA"

  /** `d.get(k, "NA")`. */
  function GetOrMissing(d: map<string, string>, k: string): string
  {
    if k in d then d[k] else Missing
  }

  /** The row a log line contributes: none unless it starts with `[OK]` and has an `in` token. */
  function RowOf(line: string): Option<Row>
  {
    if !StartsWith(line, "[OK]") then None
    else
      var d := DictOf(Tokens(line));
      if "in" !in d then None
      else Some(Row(d["in"], GetOrMissing(d, "out"), GetOrMissing(d, "N_Records"), GetOrMissing(d, "After_GT_Het"),
                    GetOrMissing(d, "After_DP"), GetOrMissing(d, "After_GQ"), GetOrMissing(d, "Het_Count")))
  }

  /** A row field read at key k: "NA" when no token has that key, else the value of the last token that does. */
  ghost predicate ReadsLast(ps: seq<(string, string)>, k: string, field: string)
  {
    if forall i :: 0 <= i < |ps| ==> ps[i].0 != k then field == Missing
    else exists i :: 0 <= i < |ps| && ps[i] == (k, field) && LastOf(ps, i)
  }

  /**
   * A line makes a row exactly when it starts with `[OK]` and has an `in`
   * token; the row's file is the last `in` value, and each other field is the
   * last value of its key or "NA".
   */
  lemma RowOfTokens(line: string)
    ensures var ps := Tokens(line);
      RowOf(line).Some? <==> StartsWith(line, "[OK]") && exists i :: 0 <= i < |ps| && ps[i].0 == "in"
    ensures var ps, r := Tokens(line), RowOf(line);
      r.Some? ==>
        && ReadsLast(ps, "in", r.value.gzFile)
        && ReadsLast(ps, "out", r.value.filteredGzFile)
        && ReadsLast(ps, "N_Records", r.value.nRecords)
        && ReadsLast(ps, "After_GT_Het", r.value.afterGtHet)
        && ReadsLast(ps, "After_DP", r.value.afterDp)
        && ReadsLast(ps, "After_GQ", r.value.afterGq)
        && ReadsLast(ps, "Het_Count", r.value.hetCount)
  {
    DictOfLastWins(Tokens(line));
  }

  /** A string without `=` holds no token. */
  lemma {:induction false} NoEqualsNoTokens(s: string)
    requires '=' !in s
    ensures Tokens(s) == []
    decreases |s|
  {
    if |s| > 0 {
      if WordRun(s) < |s| {
        assert s[WordRun(s)] in s;
      }
      TokensSkip(s);
      NoEqualsNoTokens(s[1..]);
    }
  }

  /**
   * A value is cut at the first whitespace: the summary of a file whose name
   * holds a space records only the part before it.
   */
  lemma NameWithSpaceCut(a: string, b: string)
    requires IsNonSpace(a) && '=' !in b
    ensures RowOf("[OK] in=" + a + " " + b) == Some(Row(a, Missing, Missing, Missing, Missing, Missing, Missing))
  {
    var line := "[OK] in=" + a + " " + b;
    CutNameLine(a, b);
    CutNameTokens(a, b);
    assert DictOf([("in", a)]) == map["in" := a];
    assert StartsWith(line, "[OK]");
  }

  lemma CutNameLine(a: string, b: string)
    ensures "[OK] in=" + a + " " + b == "[OK]" + (" " + ("in" + ("=" + (a + (" " + b)))))
  {
    assert "[OK] in=" == "[OK]" + (" " + ("in" + "="));
  }

  lemma CutNameTokens(a: string, b: string)
    requires IsNonSpace(a) && '=' !in b
    ensures Tokens("[OK]" + (" " + ("in" + ("=" + (a + (" " + b)))))) == [("in", a)]
  {
    OkTagSilent(" " + ("in" + ("=" + (a + (" " + b)))));
    assert IsWord("in");
    TokensField("in", a, " " + b);
    SpaceSkipped(' ', b);
    NoEqualsNoTokens(b);
  }

  // ----- collecting and de-duplicating -----

  /** The rows in log order, before de-duplication. */
  function Collected(lines: seq<string>): seq<Row>
  {
    if |lines| == 0 then []
    else
      var rest := Collected(lines[..|lines| - 1]);
      match RowOf(lines[|lines| - 1])
      case Some(r) => rest + [r]
      case None => rest
  }

  function HasFile(rows: seq<Row>, f: string): bool
  {
    |rows| > 0 && (rows[0].gzFile == f || HasFile(rows[1..], f))
  }

  /** `drop_duplicates("GZ_File", keep="last")`: a row stays when no later row has its file; order is kept. */
  function KeepLast(rows: seq<Row>): seq<Row>
  {
    if |rows| == 0 then []
    else (if HasFile(rows[1..], rows[0].gzFile) then [] else [rows[0]]) + KeepLast(rows[1..])
  }

  lemma {:induction false} HasFileIndex(rows: seq<Row>, f: string)
    ensures HasFile(rows, f) <==> exists i :: 0 <= i < |rows| && rows[i].gzFile == f
  {
    if |rows| > 0 {
      HasFileIndex(rows[1..], f);
      if HasFile(rows[1..], f) {
        var i :| 0 <= i < |rows[1..]| && rows[1..][i].gzFile == f;
        assert rows[i + 1].gzFile == f;
      }
      assert forall i :: 1 <= i < |rows| ==> rows[i] == rows[1..][i - 1];
    }
  }

  /** `KeepLast` names exactly the files of its input. */
  lemma {:induction false} KeepLastFiles(rows: seq<Row>)
    ensures forall f :: HasFile(KeepLast(rows), f) <==> HasFile(rows, f)
  {
    if |rows| > 0 {
      var tail := rows[1..];
      KeepLastFiles(tail);
      var head := if HasFile(tail, rows[0].gzFile) then [] else [rows[0]];
      assert KeepLast(rows) == head + KeepLast(tail);
      forall f ensures HasFile(KeepLast(rows), f) <==> HasFile(rows, f) {
        HasFileConcat(head, KeepLast(tail), f);
      }
    }
  }

  /** `KeepLast` names each file once. */
  lemma {:induction false} KeepLastDistinct(rows: seq<Row>)
    ensures forall i, j :: 0 <= i < j < |KeepLast(rows)| ==> KeepLast(rows)[i].gzFile != KeepLast(rows)[j].gzFile
  {
    if |rows| > 0 {
      var tail := rows[1..];
      KeepLastDistinct(tail);
      var kt := KeepLast(tail);
      if !HasFile(tail, rows[0].gzFile) {
        KeepLastFiles(tail);
        HasFileIndex(kt, rows[0].gzFile);
        var kept := [rows[0]] + kt;
        assert KeepLast(rows) == kept;
        forall i, j | 0 <= i < j < |kept| ensures kept[i].gzFile != kept[j].gzFile {
          assert kept[j] == kt[j - 1];
          if i > 0 {
            assert kept[i] == kt[i - 1];
          }
        }
      } else {
        assert KeepLast(rows) == kt;
      }
    }
  }

  /** Each row `KeepLast` keeps is an input row that no later row shares a file with. */
  lemma {:induction false} KeepLastFromInput(rows: seq<Row>)
    ensures forall r :: r in KeepLast(rows) ==> exists i :: 0 <= i < |rows| && rows[i] == r && !HasFile(rows[i + 1..], r.gzFile)
  {
    if |rows| > 0 {
      var tail := rows[1..];
      KeepLastFromInput(tail);
      var kt := KeepLast(tail);
      var head := if HasFile(tail, rows[0].gzFile) then [] else [rows[0]];
      assert KeepLast(rows) == head + kt;
      forall r | r in kt ensures exists i :: 0 <= i < |rows| && rows[i] == r && !HasFile(rows[i + 1..], r.gzFile) {
        var i :| 0 <= i < |tail| && tail[i] == r && !HasFile(tail[i + 1..], r.gzFile);
        assert rows[i + 1] == r && rows[i + 2..] == tail[i + 1..];
      }
      if head != [] {
        assert rows[1..] == tail;
      }
    }
  }

  /**
   * The result names every file of the input exactly once, and each of its
   * rows is a row of the input that no later row shares a file with.
   */
  lemma KeepLastCorrect(rows: seq<Row>)
    ensures forall f :: HasFile(KeepLast(rows), f) <==> HasFile(rows, f)
    ensures forall i, j :: 0 <= i < j < |KeepLast(rows)| ==> KeepLast(rows)[i].gzFile != KeepLast(rows)[j].gzFile
    ensures forall r :: r in KeepLast(rows) ==> exists i :: 0 <= i < |rows| && rows[i] == r && !HasFile(rows[i + 1..], r.gzFile)
  {
    KeepLastFiles(rows);
    KeepLastDistinct(rows);
    KeepLastFromInput(rows);
  }

  /** Row i of rows is the last one with its file. */
  predicate IsLast(rows: seq<Row>, i: nat)
  {
    i < |rows| && !HasFile(rows[i + 1..], rows[i].gzFile)
  }

  /** Which rows are the last ones with their file. */
  function LastFlags(rows: seq<Row>): seq<bool>
  {
    seq(|rows|, i requires 0 <= i < |rows| => IsLast(rows, i))
  }

  /** The indices from `from` on whose flag is set, in increasing order. */
  function Marked(flags: seq<bool>, from: nat): seq<nat>
    decreases |flags| - from
  {
    if from >= |flags| then []
    else (if flags[from] then [from] else []) + Marked(flags, from + 1)
  }

  /** One step of `KeepLast` on a suffix, in terms of `IsLast` on the whole sequence. */
  lemma KeepLastStep(rows: seq<Row>, from: nat)
    requires from < |rows|
    ensures KeepLast(rows[from..]) == (if IsLast(rows, from) then [rows[from]] else []) + KeepLast(rows[from + 1..])
  {
    var suffix := rows[from..];
    assert suffix[0] == rows[from] && suffix[1..] == rows[from + 1..];
  }

  /** The marked indices are flagged indices from `from` on. */
  lemma {:induction false} MarkedBounds(flags: seq<bool>, from: nat)
    requires from <= |flags|
    ensures forall k :: 0 <= k < |Marked(flags, from)| ==> from <= Marked(flags, from)[k] < |flags| && flags[Marked(flags, from)[k]]
    decreases |flags| - from
  {
    if from < |flags| {
      MarkedBounds(flags, from + 1);
    }
  }

  /** The marked indices increase. */
  lemma {:induction false} MarkedIncreasing(flags: seq<bool>, from: nat)
    requires from <= |flags|
    ensures forall k, l :: 0 <= k < l < |Marked(flags, from)| ==> Marked(flags, from)[k] < Marked(flags, from)[l]
    decreases |flags| - from
  {
    if from < |flags| {
      MarkedIncreasing(flags, from + 1);
      MarkedBounds(flags, from + 1);
      var tail := Marked(flags, from + 1);
      if flags[from] {
        var idx := [from] + tail;
        assert Marked(flags, from) == idx;
        forall k, l | 0 <= k < l < |idx|
          ensures idx[k] < idx[l]
        {
          assert idx[l] == tail[l - 1];
          if k > 0 {
            assert idx[k] == tail[k - 1];
          }
        }
      }
    }
  }

  /** Every flagged index from `from` on is marked. */
  lemma {:induction false} MarkedComplete(flags: seq<bool>, from: nat)
    requires from <= |flags|
    ensures forall i :: from <= i < |flags| && flags[i] ==> i in Marked(flags, from)
    decreases |flags| - from
  {
    if from < |flags| {
      MarkedComplete(flags, from + 1);
    }
  }

  /** Read at the marked indices of `LastFlags`, the rows are the result of `KeepLast` on the suffix. */
  lemma {:induction false} MarkedKept(rows: seq<Row>, from: nat)
    requires from <= |rows|
    ensures var idx, kept := Marked(LastFlags(rows), from), KeepLast(rows[from..]);
      && |idx| == |kept|
      && forall k :: 0 <= k < |idx| ==> idx[k] < |rows| && kept[k] == rows[idx[k]]
    decreases |rows| - from
  {
    var flags := LastFlags(rows);
    if from < |rows| {
      MarkedKept(rows, from + 1);
      KeepLastStep(rows, from);
      var tail, keptTail := Marked(flags, from + 1), KeepLast(rows[from + 1..]);
      if flags[from] {
        var idx, kept := [from] + tail, [rows[from]] + keptTail;
        assert Marked(flags, from) == idx && KeepLast(rows[from..]) == kept;
        assert forall k :: 1 <= k < |idx| ==> idx[k] == tail[k - 1] && kept[k] == keptTail[k - 1];
      }
    } else {
      assert rows[from..] == [];
    }
  }

  /**
   * `keep="last"` keeps the frame's order: the result is the input read at
   * strictly increasing indices, exactly the indices of rows no later row
   * shares a file with.
   */
  lemma KeepLastOrder(rows: seq<Row>)
    ensures var idx := Marked(LastFlags(rows), 0);
      && |idx| == |KeepLast(rows)|
      && (forall k :: 0 <= k < |idx| ==> IsLast(rows, idx[k]) && KeepLast(rows)[k] == rows[idx[k]])
      && (forall k, l :: 0 <= k < l < |idx| ==> idx[k] < idx[l])
      && (forall i :: 0 <= i < |rows| && IsLast(rows, i) ==> i in idx)
  {
    var flags := LastFlags(rows);
    MarkedBounds(flags, 0);
    MarkedIncreasing(flags, 0);
    MarkedComplete(flags, 0);
    MarkedKept(rows, 0);
    assert rows[0..] == rows;
    assert forall i :: 0 <= i < |rows| ==> flags[i] == IsLast(rows, i);
  }

  lemma {:induction false} HasFileConcat(a: seq<Row>, b: seq<Row>, f: string)
    ensures HasFile(a + b, f) <==> HasFile(a, f) || HasFile(b, f)
  {
    if |a| > 0 {
      assert (a + b)[1..] == a[1..] + b;
      HasFileConcat(a[1..], b, f);
    } else {
      assert a + b == b;
    }
  }

  /** `parse_log`: collects a row per qualifying line, then keeps the last row of each file. */
  method ParseLog(lines: seq<string>) returns (rows: seq<Row>)
    ensures rows == KeepLast(Collected(lines))
    ensures forall i, j :: 0 <= i < j < |rows| ==> rows[i].gzFile != rows[j].gzFile
  {
    var collected: seq<Row> := [];
    var i := 0;
    while i < |lines|
      invariant 0 <= i <= |lines|
      invariant collected == Collected(lines[..i])
    {
      var line := lines[i];
      assert lines[..i + 1][..i] == lines[..i];
      i := i + 1;
      if !StartsWith(line, "[OK]") {
        continue;
      }
      var d := DictOf(Tokens(line));
      if "in" !in d {
        continue;
      }
      collected := collected + [Row(d["in"], GetOrMissing(d, "out"), GetOrMissing(d, "N_Records"),
                                    GetOrMissing(d, "After_GT_Het"), GetOrMissing(d, "After_DP"),
                                    GetOrMissing(d, "After_GQ"), GetOrMissing(d, "Het_Count"))];
    }
    assert lines[..i] == lines;
    rows := KeepLast(collected);
    KeepLastCorrect(collected);
  }

  /** A line not starting with `[OK]` adds no row. */
  lemma NonOkIgnored(lines: seq<string>, line: string)
    requires !StartsWith(line, "[OK]")
    ensures Collected(lines + [line]) == Collected(lines)
  {
    assert (lines + [line])[..|lines|] == lines;
  }

  /** A line without an `in` token adds no row. */
  lemma NoInIgnored(lines: seq<string>, line: string)
    requires forall i :: 0 <= i < |Tokens(line)| ==> Tokens(line)[i].0 != "in"
    ensures Collected(lines + [line]) == Collected(lines)
  {
    assert (lines + [line])[..|lines|] == lines;
    RowOfTokens(line);
  }
}
