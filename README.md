# gVCF heterozygous-site filter: a verified Dafny model

This project models the core of a small genomics pipeline. The pipeline
filters single-sample gVCF/VCF files, keeping the variant records that are

- phased heterozygous (`GT` is exactly `0|1` or `1|0`),
- of read depth `DP > 20`,
- and of genotype quality `GQ >= 30`.

While it filters, it counts a progressive funnel:

- `N_Records`: the data lines seen;
- `GT_Missing`: the records with no usable genotype;
- `After_GT_Het`: the records that pass the first gate;
- `After_DP`: the records that pass the second gate;
- `After_GQ` (`Het_Count`): the records that pass the third gate.

The single-file command prints every count except `GT_Missing`, with `Het_Count` repeating `After_GQ`, as a `[OK] key=value ...` summary line, and a log parser reads such lines back into table rows.

The batch filter (`src/filter.py`) and the single-file command (`src/filter_one_GZ.py`) contain the same predicates, the same field extractor and the same filter loop, line for line. They are modelled once. Each row of the table below cites one copy; the other copy corresponds as follows:

| src/filter.py | src/filter_one_GZ.py |
|---|---|
| 26-28 `is_heterozygous` | 34-36 |
| 30-32 `dp_passes` | 39-41 |
| 34-36 `gq_passes` | 44-46 |
| 43-50 `extract_gt_dp_gq` | 53-58 |
| 80-123 `filter_and_count` (loop at 86-113) | 74-116 (loop at 80-107) |

Modules, one per file:

- `Options`, `Strings`, `Assoc` (options.dfy, strings.dfy, assoc.dfy): the Python building blocks the code relies on, with their properties proved:
  - `str.split`, `sep.join`, `str.rstrip("\n")`, `str.startswith`;
  - `str.isdigit` with `int()`, and `str(n)`;
  - `dict(zip(keys, vals))` with `.get`.
- `PassPredicates` (pass_predicates.dfy): `is_heterozygous`, `dp_passes`, `gq_passes` and the missing-genotype test.
- `FieldExtractor` (field_extractor.dfy): `extract_gt_dp_gq`.
- `FilterEngine` (filter_engine.dfy): `filter_and_count`, in two forms, proved equal:
  - an imperative method with five counters and an output list;
  - a left fold `Run` of one loop iteration `Step`, over the input lines.

  `Run` is also proved equal to a counting reference: each counter is the number of input lines reaching its stage, and the output is the subsequence of header lines and fully passing records.
- `FilterExample` (filter_example.dfy): the three-record example written next to the predicates in `src/filter_one_GZ.py`.
- `FilterCli` (cli.dfy): `main` of the single-file command, with its exit statuses and messages, over a file system given as a parameter.
- `LogParser` (log_parser.dfy): `parse_log`. It contains an explicit tokenizer for the pattern `(\w+)=([^\s]+)` as `re.findall` applies it, and the keep-last de-duplication.
- `SummaryRoundTrip` (summary_round_trip.dfy): the summary printed by the command parses back into that run's row.

Streams are sequences of lines. Each input line keeps its trailing newline, and the output is the list of lines written.

The three-record example next to the predicates has:

- a passing record (`1|0`, DP 21, GQ 99);
- a heterozygous record of low depth (`0|1`, DP 18);
- a homozygous record (`1|1`).

The code counts it as N_Records=3, After_GT_Het=2, After_DP=1, After_GQ=1. The model follows the code: the `0|1` record passes the heterozygosity gate before it fails the depth gate. In the source the example's columns are aligned with spaces. The model reads them as the tab-separated fields of a VCF file.

## Model

| member | source | states |
|---|---|---|
| PassPredicates.HeterozygousCases | src/filter.py:26-28 | heterozygous iff the genotype is exactly `0\|1` or `1\|0`; `0/1`, `1/0`, `1\|1`, `0\|0` and an absent genotype fail |
| PassPredicates.MissingIsNotHeterozygous | src/filter.py:98-102 | a missing genotype (`None`, `.`, `./.`, `.\|.`) never passes the heterozygosity gate |
| PassPredicates.DpThresholdExact | src/filter.py:30-32 | on the decimal spelling of any n, the depth test passes iff n > 20 (strict) |
| PassPredicates.DpBoundary | src/filter.py:30-32 | `20` fails while `21` and `021` pass; absent, empty, `-25` and `25.0` fail |
| PassPredicates.GqThresholdExact | src/filter.py:34-36 | on the decimal spelling of any n, the quality test passes iff n >= 30 |
| PassPredicates.GqBoundary | src/filter.py:34-36 | `29` fails while `30` and `030` pass; absent, empty, `-99` and `99.5` fail |
| PassPredicates.LeadingZerosIgnored | src/filter.py:30-36 | prefixing a zero to a digit string changes neither test |
| Strings.DecimalRoundTrip | src/filter_one_GZ.py:153-157 | `int(str(n)) == n` for every count printed |
| Strings.SplitJoin | src/filter.py:47-48 | splitting a join of separator-free fields gives the fields back |
| Strings.JoinSplit | src/filter.py:91 | joining the pieces of a split with the separator gives the string back |
| Strings.SplitLength | src/filter.py:91-92 | `len(s.split(sep))` is the number of separators plus one, so a line has at least 10 fields iff it has at least 9 tabs |
| Strings.SplitFieldsFree | src/filter.py:91 | no field produced by a split contains the separator |
| Strings.RStripNewlinesSpec | src/filter.py:91 | `rstrip("\n")` leaves a prefix that does not end in a newline, and only newlines were removed |
| Assoc.ZipPairs | src/filter.py:49 | `zip` pairs index for index and stops at the shorter list |
| Assoc.DictOfLastWins | src/filter.py:49 | the keys of `dict(pairs)` are the keys of the pairs, each mapping to the value of its last pair |
| Assoc.LookupLastWins | src/filter.py:50 | `.get(k)` is absent iff no pair has key k, else the value of the last pair with key k |
| Assoc.LookupZip | src/filter.py:47-50 | `dict(zip(ks, vs)).get(k)` is absent iff k is not among the first min(len) keys, else the value at its last position there |
| FieldExtractor.ExtractPositional | src/filter.py:43-50 | GT, DP and GQ are each paired positionally, over the overlapping prefix only, with the last value of a repeated key, and absent when unpaired |
| FieldExtractor.ExtractJoined | src/filter_one_GZ.py:53-58 | the same, stated on the colon-separated lists of names and values |
| FieldExtractor.DuplicateKeyLastWins | src/filter.py:49 | `GT:DP:GQ:DP` with `0\|1:5:40:25` gives DP `25`, the last one |
| FieldExtractor.ShortSampleColumn | src/filter_one_GZ.py:55-58 | names without a value (a short sample column) are absent, not errors |
| FieldExtractor.ShortFormatColumn | src/filter_one_GZ.py:55-58 | values without a name are ignored |
| FieldExtractor.UnnamedFieldAbsent | src/filter_one_GZ.py:58 | a field the FORMAT column does not name is absent |
| FilterEngine.FilterAndCount | src/filter.py:80-123 | the loop's five counters and written lines are the fold `Run` of the input, they form a funnel, and they equal the reference counts and the subsequence of written lines |
| FilterEngine.RunIsReference | src/filter.py:86-113 | each counter is the number of input lines reaching its stage, and the output is exactly the header lines and the fully passing records, unchanged and in input order |
| FilterEngine.StepIsReference | src/filter.py:86-113 | one loop iteration adds the line's contribution to each reference count and to the output |
| FilterEngine.StepPreservesFunnel | src/filter.py:95-111 | one iteration keeps `After_GQ <= After_DP <= After_GT_Het <= N_Records` and `GT_Missing <= N_Records` |
| FilterEngine.RunFunnel | src/filter.py:95-111 | the funnel holds after any input |
| FilterEngine.MissingDisjointFromHet | src/filter.py:98-103 | `GT_Missing + After_GT_Het <= N_Records`: a missing call is never counted as heterozygous |
| FilterEngine.HeaderPassThrough | src/filter.py:87-89 | a header line is appended to the output unchanged and no counter changes |
| FilterEngine.ShortLineDropped | src/filter.py:91-93 | a data line with fewer than 10 tab fields changes neither the output nor any counter |
| FilterEngine.MissingGtCounted | src/filter_one_GZ.py:92-97 | a record with a missing genotype adds one to N_Records and GT_Missing, still reaches the het gate and fails it: nothing else changes and nothing is written |
| FilterEngine.OutputLines | src/filter.py:109-122 | every output line is a header or passes all three gates; the data lines written number After_GQ, which is Het_Count; every header is kept |
| FilterEngine.OutputIsInputLines | src/filter_one_GZ.py:85-107 | every output line is an input line as read, newline included, and there are no more of them than input lines |
| FilterEngine.FilterIdempotent | src/filter.py:86-113 | filtering the output again writes the same lines, and every record in it passes every stage with none missing |
| FilterExample.TabLineFields | src/filter.py:91 | stripping the newline and splitting a tab-joined line of plain fields gives its fields back |
| FilterExample.ClassifyRecord1 | src/filter_one_GZ.py:30 | `1\|0`, DP 21, GQ 99 passes all three gates |
| FilterExample.ClassifyRecord2 | src/filter_one_GZ.py:31 | `0\|1`, DP 18 is heterozygous but fails the depth gate |
| FilterExample.ClassifyRecord3 | src/filter_one_GZ.py:32 | `1\|1` fails the heterozygosity gate |
| FilterExample.DocstringExample | src/filter_one_GZ.py:28-33 | the header and three records, whatever their other columns hold, give N_Records=3, GT_Missing=0, After_GT_Het=2, After_DP=1, After_GQ=1, and the output is the header and the first record |
| FilterExample.DocstringExampleLines | src/filter_one_GZ.py:28-33 | the same counts and output for the example's own header and record lines |
| FilterCli.Execute | src/filter_one_GZ.py:132-160 | status 1 with the usage text unless there are exactly two arguments; 2 when the input does not exist; 3 on an `OSError`, with the text of the first one in the source's order (creating the output's parent directory, opening the input, opening the output, reading); 1 when another error escapes, including one raised by the existence check; 0 with the summary line otherwise; the output holds the lines written before any failure; when the output path is the input path, opening the output empties the input first, so the run reads no lines and reports zero counts; status 0 iff the input exists and can be opened, the output's parent directory can be created, the output can be opened, and the input is read completely or is the output; the `int()` crashes listed under Left out are not part of this |
| FilterCli.BaseNameProperties | src/filter_one_GZ.py:152 | the `in=` and `out=` names are the final path components: `Path(d + "/" + n).name == n`, and a name never holds a slash |
| LogParser.TokensWellFormed | src/mergeMeta.py:27 | every token's key is a non-empty run of word characters and its value a non-empty run without whitespace |
| LogParser.TokensField | src/mergeMeta.py:27 | ` key=value` followed by whitespace or the end of the line yields exactly that token |
| LogParser.NoEqualsNoTokens | src/mergeMeta.py:27 | text without `=` yields no token |
| LogParser.OkTagSilent | src/mergeMeta.py:31-33 | the `[OK]` tag yields no token and does not change the tokens after it |
| LogParser.RowOfTokens | src/mergeMeta.py:31-44 | a line gives a row iff it starts with `[OK]` and has an `in` token; `GZ_File` is the last `in` value, and every other field is the last value of its key or `NA` |
| LogParser.NameWithSpaceCut | src/mergeMeta.py:27-37 | a value ends at the first whitespace, so `in=my file.gz` records `my` and the other fields are `NA` |
| LogParser.NonOkIgnored | src/mergeMeta.py:31-32 | a line not starting with `[OK]` contributes no row |
| LogParser.NoInIgnored | src/mergeMeta.py:33-35 | a line without an `in` token contributes no row |
| LogParser.KeepLastCorrect | src/mergeMeta.py:45 | de-duplication keeps every file exactly once, and each kept row is an input row with no later row for the same file |
| LogParser.KeepLastOrder | src/mergeMeta.py:45 | the kept rows are the input read at strictly increasing indices, which are exactly the indices of the last row of each file, so the input's order is kept |
| LogParser.ParseLog | src/mergeMeta.py:28-45 | the rows are the keep-last de-duplication of the rows of the qualifying lines in log order, and no two share a `GZ_File` |
| Assoc.DictOfDistinct | src/mergeMeta.py:33 | with distinct keys, `dict(findall(...))` maps each key to its own value |
| SummaryRoundTrip.SummaryTokens | src/filter_one_GZ.py:150-158 | the tokens of the summary line are its seven fields in printed order |
| SummaryRoundTrip.SummaryRoundTrip | src/mergeMeta.py:33-44 | the summary of a run with whitespace-free names parses back into the row of that run: both names and the five counts in decimal, none `NA` |
| SummaryRoundTrip.LoggedCountsAreReference | src/filter_one_GZ.py:144-158 | the logged row of a successful run holds the numbers of records, of heterozygous records, of those with enough depth and of those with enough quality |

## Left out

- Gzip decompression and compression, opening files, and creating the output's parent directory: streams are sequences of lines. In `FilterCli` an unopenable input or output, or a parent directory that cannot be created, is an error text.
- Decoding UTF-8 with `errors="replace"` and universal-newline translation: input lines are already-decoded strings.
- PassPredicates.DpPasses, PassPredicates.GqPasses: a digit is ASCII `0`-`9`, so they differ from the source in three ways. First, `str.isdigit` and `int()` both accept every Unicode decimal digit (category Nd), such as full-width `３０` or Arabic-Indic `٣٠`; the source passes a GQ of `３０` and the model fails it, and likewise for DP. Second, `str.isdigit` also accepts digits that are not decimal, such as `²`, on which `int()` then raises; the model does not have that crash. Third, since Python 3.11 `int()` raises `ValueError` on a string of more than 4300 digits, leading zeros included, so a DP of `"0"*4300 + "21"` crashes the source while the model passes it, and likewise for GQ.
- LogParser.IsWordChar: `\w` is ASCII letters, digits and `_`. Python's `\w` on `str` also matches non-ASCII letters and digits. `\s` follows Python's `str.isspace` set exactly.
- LogParser.ParseLog: the log is given as its lines. `read_text` with replacement decoding and `splitlines`, which also splits at `\r`, `\v`, `\f`, `\x1c`-`\x1e`, `\x85`, `\u2028` and `\u2029`, are not modelled.
- FilterCli.Execute: the `[ERROR] Input not found:` message shows the argument as given, while Python prints it as `Path` normalises it, without duplicate or trailing slashes. `BaseName` does follow `Path.name`: it skips empty and `.` components.
- FilterCli.Execute: the output is recognised as the input only when the two paths are the same string. Two spellings of one file, or a link to it, are not. The empty read also assumes the gzip header the writer buffers is not yet on disk when the reader starts.
- FilterCli.Execute: an `int()` crash in a predicate, on a non-decimal digit such as `²` or on a field of more than 4300 digits, escapes `main` in the source, which exits with status 1 and leaves the output incomplete. The model has no such crash, so it finishes with status 0 and a summary.
- FilterCli.Execute: output write failures after the output is opened, such as a full disk, are not modelled. Only a failure to open the output is.
- `find_sample_gz`, the batch `main` over cohort directories, and the pandas TSV reading and writing in `src/filter.py`: filesystem globbing and library glue.
- The pandas merge, `groupby` and TSV output in `mergeMeta.main`, `src/parquet.py`, `src/makePDF.py` (plotting and floating-point statistics) and `src/verify.py`: library wrappers and reporting outside the filter.
- Concurrency: there is none, since the filter is single-threaded.
