/**
 * The three pass/fail criteria of the filter and the missing-genotype test,
 * over optional strings as returned by the field extractor.
 */
module PassPredicates {
  import opened Options
  import opened Strings

  /** Depth must be strictly above this value. */
  const DpThreshold: nat := 20
  /** Quality must be at least this value. */
  const GqThreshold: nat := 30

  /** Phased heterozygous: exactly the literal `0|1` or `1|0`. */
  predicate IsHeterozygous(gt: Option<string>)
  {
    gt == Some("0|1") || gt == Some("1|0")
  }

  /** The genotype is absent or one of the no-call spellings `.`, `./.`, `.|.`. */
  predicate IsMissingGt(gt: Option<string>)
  {
    gt.None? || gt.value == "." || gt.value == "./." || gt.value == ".|."
  }

  /** Present, all digits, and numerically greater than 20. */
  predicate DpPasses(dp: Option<string>)
  {
    dp.Some? && IsDigits(dp.value) && DigitsValue(dp.value) > DpThreshold
  }

  /** Present, all digits, and numerically at least 30. */
  predicate GqPasses(gq: Option<string>)
  {
    gq.Some? && IsDigits(gq.value) && DigitsValue(gq.value) >= GqThreshold
  }

  /** Only the two phased literals pass; unphased, homozygous and absent calls fail. */
  lemma HeterozygousCases(gt: Option<string>)
    ensures IsHeterozygous(gt) <==> gt in {Some("0|1"), Some("1|0")}
    ensures !IsHeterozygous(Some("0/1")) && !IsHeterozygous(Some("1/0"))
    ensures !IsHeterozygous(Some("1|1")) && !IsHeterozygous(Some("0|0"))
    ensures !IsHeterozygous(None)
  {
  }

  /** A missing genotype never passes the heterozygosity test. */
  lemma MissingIsNotHeterozygous(gt: Option<string>)
    ensures IsMissingGt(gt) ==> !IsHeterozygous(gt)
  {
  }

  /** On every canonical decimal spelling, the depth test is exactly `n > 20`. */
  lemma {:induction false} DpThresholdExact(n: nat)
    ensures DpPasses(Some(Decimal(n))) <==> n > 20
  {
    DecimalRoundTrip(n);
  }

  /** On every canonical decimal spelling, the quality test is exactly `n >= 30`. */
  lemma {:induction false} GqThresholdExact(n: nat)
    ensures GqPasses(Some(Decimal(n))) <==> n >= 30
  {
    DecimalRoundTrip(n);
  }

  /** Leading zeros change neither test. */
  lemma {:induction false} LeadingZerosIgnored(s: string)
    requires IsDigits(s)
    ensures DpPasses(Some("0" + s)) == DpPasses(Some(s))
    ensures GqPasses(Some("0" + s)) == GqPasses(Some(s))
  {
    LeadingZero(s);
  }

  /** The boundary values and the non-numeric cases of the depth test. */
  lemma DpBoundary()
    ensures !DpPasses(Some("20")) && DpPasses(Some("21")) && DpPasses(Some("021"))
    ensures !DpPasses(None) && !DpPasses(Some("")) && !DpPasses(Some("-25")) && !DpPasses(Some("25.0"))
  {
    DpThresholdExact(20);
    DpThresholdExact(21);
    assert Decimal(20) == "20" && Decimal(21) == "21";
    LeadingZerosIgnored("21");
    assert !IsDigit('-') && !IsDigit('.');
    assert "-25"[0] == '-' && "25.0"[2] == '.';
  }

  /** The boundary values and the non-numeric cases of the quality test. */
  lemma GqBoundary()
    ensures !GqPasses(Some("29")) && GqPasses(Some("30")) && GqPasses(Some("030"))
    ensures !GqPasses(None) && !GqPasses(Some("")) && !GqPasses(Some("-99")) && !GqPasses(Some("99.5"))
  {
    GqThresholdExact(29);
    GqThresholdExact(30);
    assert Decimal(29) == "29" && Decimal(30) == "30";
    LeadingZerosIgnored("30");
    assert "-99"[0] == '-' && "99.5"[2] == '.';
  }
}
