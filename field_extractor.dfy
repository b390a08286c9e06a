/**
 * Reading GT, DP and GQ out of a record: the FORMAT column names the
 * colon-separated subfields, the sample column holds their values.
 */
module FieldExtractor {
  import opened Options
  import opened Strings
  import opened Assoc

  datatype GtDpGq = GtDpGq(gt: Option<string>, dp: Option<string>, gq: Option<string>)

  /** `extract_gt_dp_gq`: `dict(zip(fmt.split(":"), sample.split(":")))` read at GT, DP and GQ. */
  function ExtractGtDpGq(fmt: string, sample: string): GtDpGq
  {
    var pairs := Zip(Split(fmt, ':'), Split(sample, ':'));
    GtDpGq(Lookup(pairs, "GT"), Lookup(pairs, "DP"), Lookup(pairs, "GQ"))
  }

  /**
   * Keys and values are paired by position over their common length only; a key
   * given twice takes the value of its last position; a key not paired is absent.
   */
  lemma ExtractPositional(fmt: string, sample: string)
    ensures var ks, vs, r := Split(fmt, ':'), Split(sample, ':'), ExtractGtDpGq(fmt, sample);
      && PairedLast(ks, vs, "GT", r.gt)
      && PairedLast(ks, vs, "DP", r.dp)
      && PairedLast(ks, vs, "GQ", r.gq)
  {
    var keys, vals := Split(fmt, ':'), Split(sample, ':');
    LookupZip(keys, vals, "GT");
    LookupZip(keys, vals, "DP");
    LookupZip(keys, vals, "GQ");
  }

  /** Extraction on colon-joined lists of colon-free names and values. */
  lemma ExtractJoined(keys: seq<string>, vals: seq<string>)
    requires |keys| >= 1 && |vals| >= 1
    requires forall i :: 0 <= i < |keys| ==> ':' !in keys[i]
    requires forall i :: 0 <= i < |vals| ==> ':' !in vals[i]
    ensures var r := ExtractGtDpGq(Join(keys, ':'), Join(vals, ':'));
      && PairedLast(keys, vals, "GT", r.gt)
      && PairedLast(keys, vals, "DP", r.dp)
      && PairedLast(keys, vals, "GQ", r.gq)
  {
    SplitJoin(keys, ':');
    SplitJoin(vals, ':');
    ExtractPositional(Join(keys, ':'), Join(vals, ':'));
  }

  /** A key given twice takes its last value. */
  lemma DuplicateKeyLastWins()
    ensures ExtractGtDpGq("GT:DP:GQ:DP", "0|1:5:40:25") == GtDpGq(Some("0|1"), Some("25"), Some("40"))
  {
    var ks, vs := ["GT", "DP", "GQ", "DP"], ["0|1", "5", "40", "25"];
    assert Join(ks, ':') == "GT:DP:GQ:DP" by {
      assert Join(ks[3..], ':') == "DP";
      assert Join(ks[2..], ':') == "GQ:DP";
      assert Join(ks[1..], ':') == "DP:GQ:DP";
    }
    assert Join(vs, ':') == "0|1:5:40:25" by {
      assert Join(vs[3..], ':') == "25";
      assert Join(vs[2..], ':') == "40:25";
      assert Join(vs[1..], ':') == "5:40:25";
    }
    assert ks[0] == "GT" && vs[0] == "0|1" && forall j :: 0 < j < 4 ==> ks[j] != "GT";
    assert ks[3] == "DP" && vs[3] == "25";
    assert ks[2] == "GQ" && vs[2] == "40" && ks[3] != "GQ";
    ExampleAt(ks, vs, GtDpGq(Some("0|1"), Some("25"), Some("40")));
  }

  /** Keys beyond the last value are absent, not errors. */
  lemma ShortSampleColumn()
    ensures ExtractGtDpGq("GT:AD:DP:GQ", "1|0:14,7") == GtDpGq(Some("1|0"), None, None)
  {
    var ks, vs := ["GT", "AD", "DP", "GQ"], ["1|0", "14,7"];
    assert Join(ks, ':') == "GT:AD:DP:GQ" by {
      assert Join(ks[3..], ':') == "GQ";
      assert Join(ks[2..], ':') == "DP:GQ";
      assert Join(ks[1..], ':') == "AD:DP:GQ";
    }
    assert Join(vs, ':') == "1|0:14,7" by {
      assert Join(vs[1..], ':') == "14,7";
    }
    assert ks[0] == "GT" && vs[0] == "1|0" && ks[1] != "GT";
    ExampleAt(ks, vs, GtDpGq(Some("1|0"), None, None));
  }

  /** Values beyond the last key are ignored. */
  lemma ShortFormatColumn()
    ensures ExtractGtDpGq("GT", "0|1:30:40") == GtDpGq(Some("0|1"), None, None)
  {
    var vs := ["0|1", "30", "40"];
    assert Join(vs, ':') == "0|1:30:40" by {
      assert Join(vs[2..], ':') == "40";
      assert Join(vs[1..], ':') == "30:40";
    }
    assert Join(["GT"], ':') == "GT";
    var ks := ["GT"];
    assert ks[0] == "GT" && vs[0] == "0|1";
    ExampleAt(ks, vs, GtDpGq(Some("0|1"), None, None));
  }

  /** A field the FORMAT column does not name is absent. */
  lemma UnnamedFieldAbsent()
    ensures ExtractGtDpGq("AD:DP", "3,4:25") == GtDpGq(None, Some("25"), None)
  {
    var ks2, vs2 := ["AD", "DP"], ["3,4", "25"];
    assert Join(ks2, ':') == "AD:DP" by {
      assert Join(ks2[1..], ':') == "DP";
    }
    assert Join(vs2, ':') == "3,4:25" by {
      assert Join(vs2[1..], ':') == "25";
    }
    assert ks2[1] == "DP" && vs2[1] == "25";
    ExampleAt(ks2, vs2, GtDpGq(None, Some("25"), None));
  }

  /** PairedLast pins down a single value, so it determines the extractor's result. */
  lemma PairedLastUnique(ks: seq<string>, vs: seq<string>, k: string, a: Option<string>, b: Option<string>)
    requires PairedLast(ks, vs, k, a) && PairedLast(ks, vs, k, b)
    ensures a == b
  {
    var n := Min(|ks|, |vs|);
    if a.Some? && b.Some? {
      var i :| 0 <= i < n && ks[i] == k && vs[i] == a.value && forall j :: i < j < n ==> ks[j] != k;
      var i' :| 0 <= i' < n && ks[i'] == k && vs[i'] == b.value && forall j :: i' < j < n ==> ks[j] != k;
      assert i == i';
    }
  }

  lemma ExampleAt(keys: seq<string>, vals: seq<string>, expected: GtDpGq)
    requires |keys| >= 1 && |vals| >= 1
    requires forall i :: 0 <= i < |keys| ==> ':' !in keys[i]
    requires forall i :: 0 <= i < |vals| ==> ':' !in vals[i]
    requires PairedLast(keys, vals, "GT", expected.gt)
    requires PairedLast(keys, vals, "DP", expected.dp)
    requires PairedLast(keys, vals, "GQ", expected.gq)
    ensures ExtractGtDpGq(Join(keys, ':'), Join(vals, ':')) == expected
  {
    ExtractJoined(keys, vals);
    var r := ExtractGtDpGq(Join(keys, ':'), Join(vals, ':'));
    PairedLastUnique(keys, vals, "GT", r.gt, expected.gt);
    PairedLastUnique(keys, vals, "DP", r.dp, expected.dp);
    PairedLastUnique(keys, vals, "GQ", r.gq, expected.gq);
  }
}
