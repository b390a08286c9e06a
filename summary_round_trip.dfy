/**
 * The summary line the single-file command prints on success is read back
 * by the log parser as the row of that run: its file names and its five
 * counts, none of them "NA".
 */
module SummaryRoundTrip {
  import opened Options
  import opened Strings
  import opened Assoc
  import opened FilterEngine
  import opened FilterCli
  import opened LogParser

  /** Summary fields followed by any further fields give back exactly those pairs as tokens. */
  lemma {:induction false} TokensOfFields(kvs: seq<(string, string)>)
    requires forall i :: 0 <= i < |kvs| ==> IsWord(kvs[i].0) && IsNonSpace(kvs[i].1)
    ensures Tokens(Fields(kvs)) == kvs
  {
    if |kvs| > 0 {
      var rest := Fields(kvs[1..]);
      TokensOfFields(kvs[1..]);
      if |kvs| > 1 {
        assert rest[0] == ' ';
      }
      TokensField(kvs[0].0, kvs[0].1, rest);
      assert [kvs[0]] + kvs[1..] == kvs;
    }
  }

  lemma DigitsNonSpace(s: string)
    requires IsDigits(s)
    ensures IsNonSpace(s)
  {
  }

  lemma SummaryKeysAreWords()
    ensures IsWord("in") && IsWord("out") && IsWord("N_Records") && IsWord("After_GT_Het")
    ensures IsWord("After_DP") && IsWord("After_GQ") && IsWord("Het_Count")
  {
  }

  /** The tokens of a summary line are its fields, in order. */
  lemma SummaryTokens(inName: string, outName: string, c: Counts)
    requires IsNonSpace(inName) && IsNonSpace(outName)
    ensures Tokens(SummaryLine(inName, outName, c)) == SummaryFields(inName, outName, c)
  {
    var kvs := SummaryFields(inName, outName, c);
    SummaryKeysAreWords();
    DigitsNonSpace(Decimal(c.nRecords));
    DigitsNonSpace(Decimal(c.afterGtHet));
    DigitsNonSpace(Decimal(c.afterDp));
    DigitsNonSpace(Decimal(c.afterGq));
    TokensOfFields(kvs);
    OkTagSilent(Fields(kvs));
  }

  /**
   * Parsing the summary of a run gives the row of that run, provided the
   * file names are non-empty and hold no whitespace (a value ends at the
   * first whitespace).
   */
  lemma SummaryRoundTrip(inName: string, outName: string, c: Counts)
    requires IsNonSpace(inName) && IsNonSpace(outName)
    ensures RowOf(SummaryLine(inName, outName, c))
      == Some(Row(inName, outName, Decimal(c.nRecords), Decimal(c.afterGtHet), Decimal(c.afterDp),
                  Decimal(c.afterGq), Decimal(c.HetCount())))
  {
    var kvs := SummaryFields(inName, outName, c);
    SummaryTokens(inName, outName, c);
    assert StartsWith(SummaryLine(inName, outName, c), "[OK]");
    forall i | 0 <= i < |kvs| ensures kvs[i].0 in DictOf(kvs) && DictOf(kvs)[kvs[i].0] == kvs[i].1 {
      DictOfDistinct(kvs, i);
    }
    assert kvs[0].0 == "in" && kvs[1].0 == "out" && kvs[2].0 == "N_Records" && kvs[3].0 == "After_GT_Het";
    assert kvs[4].0 == "After_DP" && kvs[5].0 == "After_GQ" && kvs[6].0 == "Het_Count";
  }

  /**
   * The row logged for a successful run over `lines` holds, in decimal, the
   * number of records, of heterozygous records, of those with enough depth
   * and of those with enough quality, the last one twice.
   */
  lemma LoggedCountsAreReference(inName: string, outName: string, lines: seq<string>)
    requires IsNonSpace(inName) && IsNonSpace(outName)
    ensures RowOf(SummaryLine(inName, outName, Run(lines).counts))
      == Some(Row(inName, outName, Decimal(CountWhere(lines, IsRecord)), Decimal(CountWhere(lines, PassesHet)),
                  Decimal(CountWhere(lines, PassesDp)), Decimal(CountWhere(lines, PassesAll)),
                  Decimal(CountWhere(lines, PassesAll))))
  {
    RunIsReference(lines);
    SummaryRoundTrip(inName, outName, Run(lines).counts);
  }
}
