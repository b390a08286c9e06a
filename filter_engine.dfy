/**
 * The streaming filter: header lines are copied, short lines dropped, and every
 * other line is counted and passed through the heterozygosity, depth and
 * quality gates in that order; only lines passing all three are written.
 *
 * The input stream is the sequence of its text lines, each with its trailing
 * newline; the output stream is the sequence of lines written to it.
 */
module FilterEngine {
  import opened Options
  import opened Strings
  import opened PassPredicates
  import opened FieldExtractor

  /** A data line needs at least this many tab-separated fields. */
  const MinFields: nat := 10
  /** Index of the FORMAT column. */
  const FormatColumn: nat := 8
  /** Index of the (only) sample column. */
  const SampleColumn: nat := 9

  /** The progressive funnel of one file. */
  datatype Counts = Counts(nRecords: nat, gtMissing: nat, afterGtHet: nat, afterDp: nat, afterGq: nat)
  {
    /** `Het_Count` is reported beside `After_GQ` and always equals it. */
    function HetCount(): nat
    {
      afterGq
    }

    /** Each stage holds no more records than the one before it, and missing calls are a part of all records. */
    predicate IsFunnel()
    {
      afterGq <= afterDp <= afterGtHet <= nRecords && gtMissing <= nRecords
    }
  }

  /** The counters and the lines written so far. */
  datatype FilterState = FilterState(counts: Counts, out: seq<string>)

  const Initial: FilterState := FilterState(Counts(0, 0, 0, 0, 0), [])

  predicate IsHeader(line: string)
  {
    StartsWith(line, "#")
  }

  /** `line.rstrip("\n").split("\t")`. */
  function TabFields(line: string): seq<string>
  {
    Split(RStripNewlines(line), '\t')
  }

  /** What the filter makes of one line: the outcome of each test on a record. */
  datatype LineClass = HeaderLine | ShortLine | Record(missing: bool, het: bool, dp: bool, gq: bool)

  function Classify(line: string): LineClass
  {
    if IsHeader(line) then HeaderLine
    else
      var parts := TabFields(line);
      if |parts| < MinFields then ShortLine
      else
        RecordOf(ExtractGtDpGq(parts[FormatColumn], parts[SampleColumn]))
  }

  /** The outcome of each test on the extracted GT, DP and GQ. */
  function RecordOf(f: GtDpGq): LineClass
  {
    Record(IsMissingGt(f.gt), IsHeterozygous(f.gt), DpPasses(f.dp), GqPasses(f.gq))
  }

  /** One iteration of the loop over the input lines. */
  function Step(s: FilterState, line: string): FilterState
  {
    StepOn(s, Classify(line), line)
  }

  /** The gates applied in order: each failure ends the line's processing, and only a full pass writes it. */
  function StepOn(s: FilterState, cls: LineClass, line: string): FilterState
  {
    var c := s.counts;
    match cls
    case HeaderLine => FilterState(c, s.out + [line])
    case ShortLine => s
    case Record(missing, het, dp, gq) =>
      var n := c.nRecords + 1;
      var m := if missing then c.gtMissing + 1 else c.gtMissing;
      if !het then FilterState(Counts(n, m, c.afterGtHet, c.afterDp, c.afterGq), s.out)
      else if !dp then FilterState(Counts(n, m, c.afterGtHet + 1, c.afterDp, c.afterGq), s.out)
      else if !gq then FilterState(Counts(n, m, c.afterGtHet + 1, c.afterDp + 1, c.afterGq), s.out)
      else FilterState(Counts(n, m, c.afterGtHet + 1, c.afterDp + 1, c.afterGq + 1), s.out + [line])
  }

  /** The state after processing all of `lines`, from zero counters and an empty output. */
  function Run(lines: seq<string>): FilterState
  {
    if |lines| == 0 then Initial else Step(Run(lines[..|lines| - 1]), lines[|lines| - 1])
  }

  // ----- a reference description of the result, by counting -----

  predicate IsRecord(line: string)
  {
    Classify(line).Record?
  }

  predicate MissingRecord(line: string)
  {
    IsRecord(line) && Classify(line).missing
  }

  predicate PassesHet(line: string)
  {
    IsRecord(line) && Classify(line).het
  }

  predicate PassesDp(line: string)
  {
    PassesHet(line) && Classify(line).dp
  }

  predicate PassesAll(line: string)
  {
    PassesDp(line) && Classify(line).gq
  }

  /** The lines that end up in the output. */
  predicate Written(line: string)
  {
    IsHeader(line) || PassesAll(line)
  }

  predicate IsDataLine(line: string)
  {
    !IsHeader(line)
  }

  function CountWhere(lines: seq<string>, p: string -> bool): nat
  {
    if |lines| == 0 then 0
    else CountWhere(lines[..|lines| - 1], p) + (if p(lines[|lines| - 1]) then 1 else 0)
  }

  /** The lines satisfying p, in their original order. */
  function Select(lines: seq<string>, p: string -> bool): seq<string>
  {
    if |lines| == 0 then []
    else Select(lines[..|lines| - 1], p) + (if p(lines[|lines| - 1]) then [lines[|lines| - 1]] else [])
  }

  /** Each counter is the number of lines reaching its stage. */
  function ReferenceCounts(lines: seq<string>): Counts
  {
    Counts(CountWhere(lines, IsRecord), CountWhere(lines, MissingRecord), CountWhere(lines, PassesHet),
           CountWhere(lines, PassesDp), CountWhere(lines, PassesAll))
  }

  /** The filter's result is the reference one: counts by stage, and the written lines unchanged and in order. */
  lemma {:induction false} RunIsReference(lines: seq<string>)
    ensures Run(lines) == FilterState(ReferenceCounts(lines), Select(lines, Written))
  {
    if |lines| > 0 {
      var front, last := lines[..|lines| - 1], lines[|lines| - 1];
      RunIsReference(front);
      StepIsReference(Run(front), last, front);
    }
  }

  /** One step adds the last line's contribution to each reference count. */
  lemma StepIsReference(s: FilterState, last: string, front: seq<string>)
    requires s == FilterState(ReferenceCounts(front), Select(front, Written))
    ensures Step(s, last).out == Select(front + [last], Written)
    ensures Step(s, last).counts == ReferenceCounts(front + [last])
  {
    var lines := front + [last];
    assert lines[..|lines| - 1] == front && lines[|lines| - 1] == last;
  }

  // ----- counting lemmas -----

  lemma {:induction false} CountDisjoint(lines: seq<string>, p: string -> bool, q: string -> bool, r: string -> bool)
    requires forall l :: !(p(l) && q(l))
    requires forall l :: p(l) || q(l) ==> r(l)
    ensures CountWhere(lines, p) + CountWhere(lines, q) <= CountWhere(lines, r)
  {
    if |lines| > 0 {
      CountDisjoint(lines[..|lines| - 1], p, q, r);
    }
  }

  lemma {:induction false} CountSelect(lines: seq<string>, w: string -> bool, p: string -> bool, q: string -> bool)
    requires forall l :: (w(l) && p(l)) <==> q(l)
    ensures CountWhere(Select(lines, w), p) == CountWhere(lines, q)
  {
    if |lines| > 0 {
      var front, last := lines[..|lines| - 1], lines[|lines| - 1];
      CountSelect(front, w, p, q);
      if w(last) {
        var sel := Select(front, w) + [last];
        assert sel[..|sel| - 1] == Select(front, w);
      } else {
        assert Select(lines, w) == Select(front, w);
      }
    }
  }

  lemma {:induction false} SelectSatisfies(lines: seq<string>, p: string -> bool)
    ensures forall i :: 0 <= i < |Select(lines, p)| ==> p(Select(lines, p)[i])
  {
    if |lines| > 0 {
      SelectSatisfies(lines[..|lines| - 1], p);
    }
  }

  lemma {:induction false} SelectKeepsAll(lines: seq<string>, p: string -> bool)
    requires forall i :: 0 <= i < |lines| ==> p(lines[i])
    ensures Select(lines, p) == lines
  {
    if |lines| > 0 {
      SelectKeepsAll(lines[..|lines| - 1], p);
    }
  }

  lemma {:induction false} SelectFromInput(lines: seq<string>, p: string -> bool)
    ensures |Select(lines, p)| <= |lines|
    ensures forall i :: 0 <= i < |Select(lines, p)| ==> Select(lines, p)[i] in lines
  {
    if |lines| > 0 {
      var front := lines[..|lines| - 1];
      SelectFromInput(front, p);
      assert forall x :: x in front ==> x in lines;
    }
  }

  // ----- properties of the filter -----

  /** One iteration keeps the funnel ordering. */
  lemma StepPreservesFunnel(s: FilterState, line: string)
    requires s.counts.IsFunnel()
    ensures Step(s, line).counts.IsFunnel()
  {
  }

  /** After any input the counters form a funnel. */
  lemma {:induction false} RunFunnel(lines: seq<string>)
    ensures Run(lines).counts.IsFunnel()
  {
    if |lines| > 0 {
      RunFunnel(lines[..|lines| - 1]);
      StepPreservesFunnel(Run(lines[..|lines| - 1]), lines[|lines| - 1]);
    }
  }

  /** A missing genotype and a heterozygous pass never coincide, so together they fit in the record count. */
  lemma MissingDisjointFromHet(lines: seq<string>)
    ensures Run(lines).counts.gtMissing + Run(lines).counts.afterGtHet <= Run(lines).counts.nRecords
  {
    RunIsReference(lines);
    forall l: string ensures !(MissingRecord(l) && PassesHet(l)) {
      var f := Classify(l);
      if f.Record? {
        var parts := TabFields(l);
        MissingIsNotHeterozygous(ExtractGtDpGq(parts[FormatColumn], parts[SampleColumn]).gt);
      }
    }
    CountDisjoint(lines, MissingRecord, PassesHet, IsRecord);
  }

  /** A header line is appended to the output unchanged and changes no counter. */
  lemma HeaderPassThrough(lines: seq<string>, line: string)
    requires IsHeader(line)
    ensures Run(lines + [line]) == FilterState(Run(lines).counts, Run(lines).out + [line])
  {
    assert (lines + [line])[..|lines|] == lines;
  }

  /** A data line with fewer than ten fields changes neither the output nor any counter. */
  lemma ShortLineDropped(lines: seq<string>, line: string)
    requires !IsHeader(line) && |TabFields(line)| < MinFields
    ensures Run(lines + [line]) == Run(lines)
  {
    assert (lines + [line])[..|lines|] == lines;
  }

  /**
   * A record with a missing genotype is counted in N_Records and GT_Missing,
   * then fails the heterozygosity gate: nothing else changes and nothing is written.
   */
  lemma MissingGtCounted(lines: seq<string>, line: string)
    requires MissingRecord(line)
    ensures var c := Run(lines).counts;
      Run(lines + [line]) == FilterState(c.(nRecords := c.nRecords + 1, gtMissing := c.gtMissing + 1), Run(lines).out)
  {
    assert (lines + [line])[..|lines|] == lines;
    var parts := TabFields(line);
    MissingIsNotHeterozygous(ExtractGtDpGq(parts[FormatColumn], parts[SampleColumn]).gt);
  }

  /**
   * Every output line is a header or a record passing all three tests, and the
   * number of data lines written is After_GQ, which is Het_Count.
   */
  lemma {:induction false} OutputLines(lines: seq<string>)
    ensures forall i :: 0 <= i < |Run(lines).out| ==> IsHeader(Run(lines).out[i]) || PassesAll(Run(lines).out[i])
    ensures CountWhere(Run(lines).out, IsDataLine) == Run(lines).counts.afterGq == Run(lines).counts.HetCount()
    ensures CountWhere(Run(lines).out, IsHeader) == CountWhere(lines, IsHeader)
  {
    RunIsReference(lines);
    SelectSatisfies(lines, Written);
    CountSelect(lines, Written, IsDataLine, PassesAll);
    CountSelect(lines, Written, IsHeader, IsHeader);
  }

  /** The output holds input lines as read, newline included, never a stripped or split form, and no more of them than were read. */
  lemma OutputIsInputLines(lines: seq<string>)
    ensures |Run(lines).out| <= |lines|
    ensures forall i :: 0 <= i < |Run(lines).out| ==> Run(lines).out[i] in lines
  {
    RunIsReference(lines);
    SelectFromInput(lines, Written);
  }

  /**
   * Filtering the output again writes the same lines, and every record in it
   * passes every stage (none has a missing genotype).
   */
  lemma {:induction false} FilterIdempotent(lines: seq<string>)
    ensures var out := Run(lines).out; var g := Run(lines).counts.afterGq;
      Run(out) == FilterState(Counts(g, 0, g, g, g), out)
  {
    var out := Run(lines).out;
    RunIsReference(lines);
    RunIsReference(out);
    SelectSatisfies(lines, Written);
    SelectKeepsAll(out, Written);
    forall l: string ensures !(Written(l) && MissingRecord(l)) {
      if IsRecord(l) {
        var parts := TabFields(l);
        MissingIsNotHeterozygous(ExtractGtDpGq(parts[FormatColumn], parts[SampleColumn]).gt);
      }
    }
    CountSelect(lines, Written, IsRecord, PassesAll);
    CountSelect(lines, Written, MissingRecord, (l: string) => false);
    CountSelect(lines, Written, PassesHet, PassesAll);
    CountSelect(lines, Written, PassesDp, PassesAll);
    CountSelect(lines, Written, PassesAll, PassesAll);
    CountNone(lines);
  }

  lemma {:induction false} CountNone(lines: seq<string>)
    ensures CountWhere(lines, (l: string) => false) == 0
  {
    if |lines| > 0 {
      CountNone(lines[..|lines| - 1]);
    }
  }

  // ----- the imperative filter -----

  /** Extending the input by one line applies one step, whose effect depends only on the line's class. */
  lemma RunSnoc(lines: seq<string>, i: nat, cls: LineClass)
    requires 0 < i <= |lines| && cls == Classify(lines[i - 1])
    ensures Run(lines[..i]) == StepOn(Run(lines[..i - 1]), cls, lines[i - 1])
  {
    assert lines[..i][..i - 1] == lines[..i - 1];
  }

  /** `filter_and_count`: streams the lines, updating five counters and appending passing lines to the output. */
  method FilterAndCount(lines: seq<string>) returns (counts: Counts, out: seq<string>)
    ensures FilterState(counts, out) == Run(lines)
    ensures counts.IsFunnel()
    ensures counts == ReferenceCounts(lines) && out == Select(lines, Written)
  {
    var nRecords: nat, gtMissing: nat, afterGt: nat, afterDp: nat, afterGq: nat := 0, 0, 0, 0, 0;
    out := [];
    var i := 0;
    while i < |lines|
      invariant 0 <= i <= |lines|
      invariant FilterState(Counts(nRecords, gtMissing, afterGt, afterDp, afterGq), out) == Run(lines[..i])
      invariant afterGq <= afterDp <= afterGt <= nRecords && gtMissing <= nRecords
    {
      var line := lines[i];
      i := i + 1;
      if IsHeader(line) {
        RunSnoc(lines, i, HeaderLine);
        out := out + [line];
        continue;
      }
      var parts := Split(RStripNewlines(line), '\t');
      if |parts| < MinFields {
        RunSnoc(lines, i, ShortLine);
        continue;
      }
      nRecords := nRecords + 1;
      var f := ExtractGtDpGq(parts[FormatColumn], parts[SampleColumn]);
      RunSnoc(lines, i, RecordOf(f));
      if IsMissingGt(f.gt) {
        gtMissing := gtMissing + 1;
      }
      if !IsHeterozygous(f.gt) {
        continue;
      }
      afterGt := afterGt + 1;
      if !DpPasses(f.dp) {
        continue;
      }
      afterDp := afterDp + 1;
      if !GqPasses(f.gq) {
        continue;
      }
      afterGq := afterGq + 1;
      out := out + [line];
    }
    counts := Counts(nRecords, gtMissing, afterGt, afterDp, afterGq);
    assert lines[..i] == lines;
    RunIsReference(lines);
  }
}
