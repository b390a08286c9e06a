/**
 * The three-record example given next to the predicates of the single-file
 * filter, with its header, read as a tab-separated file: the first record
 * passes every gate, the second falls at the depth gate (DP 18) and the third
 * is homozygous (1|1).
 */
module FilterExample {
  import opened Options
  import opened Strings
  import opened FieldExtractor
  import opened PassPredicates
  import opened FilterEngine

  /** A line of a VCF file: its fields joined by tabs, with its newline. */
  function TabLine(fields: seq<string>): string
  {
    Join(fields, '\t') + "\n"
  }

  /** The fields of a line are free of tabs and newlines. */
  predicate PlainFields(fields: seq<string>)
  {
    forall i :: 0 <= i < |fields| ==> '\t' !in fields[i] && '\n' !in fields[i]
  }

  /** Stripping and splitting a tab line gives its fields back. */
  lemma TabLineFields(fields: seq<string>)
    requires |fields| >= 1 && PlainFields(fields)
    ensures TabFields(TabLine(fields)) == fields
  {
    JoinAvoids(fields, '\t', '\n');
    StripLineEnd(Join(fields, '\t'));
    SplitJoin(fields, '\t');
  }

  /** A tab line whose first field does not start with `#`, holding ten fields, is a record classified by its FORMAT and sample fields. */
  lemma ClassifyRecordLine(fields: seq<string>)
    requires |fields| == MinFields && PlainFields(fields)
    requires |fields[0]| >= 1 && fields[0][0] != '#'
    ensures Classify(TabLine(fields)) == RecordOf(ExtractGtDpGq(fields[FormatColumn], fields[SampleColumn]))
  {
    TabLineFields(fields);
    JoinHead(fields, '\t');
  }

  lemma ClassifyHeaderLine(fields: seq<string>)
    requires |fields| >= 1 && |fields[0]| >= 1 && fields[0][0] == '#'
    ensures Classify(TabLine(fields)) == HeaderLine
  {
    JoinHead(fields, '\t');
  }

  const HeaderFields: seq<string> := ["#CHROM", "POS", "ID", "REF", "ALT", "QUAL", "FILTER", "INFO", "FORMAT", "6iegzyVR"]
  const Record1: seq<string> := ["chr1", "49272", ".", "G", "A", "148.77", "PASS", ".", "GT:AD:DP:GQ", "1|0:14,7:21:99"]
  const Record2: seq<string> := ["chr1", "732021", ".", "C", "T", "26.78", "PASS", ".", "GT:AD:DP:GQ", "0|1:15,3:18:55"]
  const Record3: seq<string> := ["chr1", "873542", ".", "G", "A", "659.77", "PASS", ".", "GT:AD:DP:GQ", "1|1:0,16:16:48"]

  /** The FORMAT column shared by the three records. */
  lemma FormatKeys()
    ensures Join(["GT", "AD", "DP", "GQ"], ':') == "GT:AD:DP:GQ"
  {
    var ks := ["GT", "AD", "DP", "GQ"];
    assert Join(ks[3..], ':') == "GQ";
    assert Join(ks[2..], ':') == "DP:GQ";
    assert Join(ks[1..], ':') == "AD:DP:GQ";
  }

  /** GT, DP and GQ are the first, third and fourth of four distinct keys. */
  lemma ExtractFour(gt: string, ad: string, dp: string, gq: string)
    requires ':' !in gt && ':' !in ad && ':' !in dp && ':' !in gq
    ensures ExtractGtDpGq("GT:AD:DP:GQ", Join([gt, ad, dp, gq], ':')) == GtDpGq(Some(gt), Some(dp), Some(gq))
  {
    FormatKeys();
    var ks, vs := ["GT", "AD", "DP", "GQ"], [gt, ad, dp, gq];
    assert forall i :: 0 <= i < 4 ==> ':' !in ks[i] && ':' !in vs[i];
    assert ks[0] == "GT" && forall j :: 0 < j < 4 ==> ks[j] != "GT";
    assert ks[2] == "DP" && ks[3] != "DP";
    ExampleAt(ks, vs, GtDpGq(Some(gt), Some(dp), Some(gq)));
  }

  lemma SampleJoin(gt: string, ad: string, dp: string, gq: string, s: string)
    requires s == gt + ":" + ad + ":" + dp + ":" + gq
    ensures Join([gt, ad, dp, gq], ':') == s
  {
    var vs := [gt, ad, dp, gq];
    assert Join(vs[3..], ':') == gq;
    assert Join(vs[2..], ':') == dp + ":" + gq;
    assert Join(vs[1..], ':') == ad + ":" + dp + ":" + gq;
  }

  /** A ten-field record line with FORMAT `GT:AD:DP:GQ` is classified by its GT, DP and GQ values. */
  lemma ClassifyFourKeyLine(fields: seq<string>, gt: string, ad: string, dp: string, gq: string)
    requires |fields| == MinFields && PlainFields(fields)
    requires |fields[0]| >= 1 && fields[0][0] != '#'
    requires ':' !in gt && ':' !in ad && ':' !in dp && ':' !in gq
    requires fields[FormatColumn] == "GT:AD:DP:GQ" && fields[SampleColumn] == gt + ":" + ad + ":" + dp + ":" + gq
    ensures Classify(TabLine(fields)) == RecordOf(GtDpGq(Some(gt), Some(dp), Some(gq)))
  {
    SampleJoin(gt, ad, dp, gq, fields[SampleColumn]);
    ExtractFour(gt, ad, dp, gq);
    ClassifyRecordLine(fields);
  }

  /** A ten-field record line with the example's FORMAT column and the given sample column. */
  predicate RecordShaped(fields: seq<string>, sample: string)
  {
    && |fields| == MinFields && PlainFields(fields)
    && |fields[0]| >= 1 && fields[0][0] != '#'
    && fields[FormatColumn] == "GT:AD:DP:GQ" && fields[SampleColumn] == sample
  }

  /** A header line: its first field starts with `#`. */
  predicate HeaderShaped(fields: seq<string>)
  {
    |fields| >= 1 && |fields[0]| >= 1 && fields[0][0] == '#'
  }

  /** The example's own lines have these shapes. */
  lemma HeaderLineShaped()
    ensures HeaderShaped(HeaderFields)
  {
  }

  lemma Record1Shaped()
    ensures RecordShaped(Record1, "1|0:14,7:21:99")
  {
  }

  lemma Record2Shaped()
    ensures RecordShaped(Record2, "0|1:15,3:18:55")
  {
  }

  lemma Record3Shaped()
    ensures RecordShaped(Record3, "1|1:0,16:16:48")
  {
  }

  /** The first record passes every gate. */
  lemma ClassifyRecord1(r1: seq<string>)
    requires RecordShaped(r1, "1|0:14,7:21:99")
    ensures Classify(TabLine(r1)) == Record(false, true, true, true)
  {
    ClassifyFourKeyLine(r1, "1|0", "14,7", "21", "99");
  }

  /** The second record is heterozygous but fails the depth gate. */
  lemma ClassifyRecord2(r2: seq<string>)
    requires RecordShaped(r2, "0|1:15,3:18:55")
    ensures Classify(TabLine(r2)) == Record(false, true, false, true)
  {
    DpThresholdExact(18);
    assert Decimal(18) == "18";
    ClassifyFourKeyLine(r2, "0|1", "15,3", "18", "55");
  }

  /** The third record is homozygous (and would fail the depth gate too). */
  lemma ClassifyRecord3(r3: seq<string>)
    requires RecordShaped(r3, "1|1:0,16:16:48")
    ensures Classify(TabLine(r3)) == Record(false, false, false, true)
  {
    DpThresholdExact(16);
    assert Decimal(16) == "16";
    ClassifyFourKeyLine(r3, "1|1", "0,16", "16", "48");
  }

  /**
   * The example yields N_Records=3, GT_Missing=0, After_GT_Het=2, After_DP=1
   * and After_GQ=1, and writes the header and the first record: the first
   * record passes every gate, the second falls at the depth gate (DP 18) and
   * the third is homozygous (1|1). The columns other than FORMAT and the
   * sample play no part, so they are left free.
   */
  lemma DocstringExample(header: seq<string>, r1: seq<string>, r2: seq<string>, r3: seq<string>)
    requires HeaderShaped(header)
    requires RecordShaped(r1, "1|0:14,7:21:99")
    requires RecordShaped(r2, "0|1:15,3:18:55")
    requires RecordShaped(r3, "1|1:0,16:16:48")
    ensures var h, l1, l2, l3 := TabLine(header), TabLine(r1), TabLine(r2), TabLine(r3);
      Run([h, l1, l2, l3]) == FilterState(Counts(3, 0, 2, 1, 1), [h, l1])
  {
    var h, l1, l2, l3 := TabLine(header), TabLine(r1), TabLine(r2), TabLine(r3);
    var lines := [h, l1, l2, l3];
    ClassifyHeaderLine(header);
    ClassifyRecord1(r1);
    ClassifyRecord2(r2);
    ClassifyRecord3(r3);
    RunSnoc(lines, 1, HeaderLine);
    assert lines[..0] == [];
    RunSnoc(lines, 2, Record(false, true, true, true));
    RunSnoc(lines, 3, Record(false, true, false, true));
    RunSnoc(lines, 4, Record(false, false, false, true));
    assert lines[..4] == lines;
  }

  /** The example's own header and three records. */
  lemma DocstringExampleLines()
    ensures var h, l1, l2, l3 := TabLine(HeaderFields), TabLine(Record1), TabLine(Record2), TabLine(Record3);
      Run([h, l1, l2, l3]) == FilterState(Counts(3, 0, 2, 1, 1), [h, l1])
  {
    HeaderLineShaped();
    Record1Shaped();
    Record2Shaped();
    Record3Shaped();
    DocstringExample(HeaderFields, Record1, Record2, Record3);
  }
}
