/** The report: counts the classification results per class, lays out the
    Summary sheet (a Metric column and a Value column) and the Detailed
    Results sheet, and returns the summary the API hands back. */
module Report {
  import opened Classification

  /** `len([r for r in results if r['classification'] == name])` */
  function CountLabel(results: seq<PanelResult>, name: string): (n: nat)
    ensures n <= |results|
    decreases |results|
  {
    if results == [] then 0
    else CountLabel(results[..|results| - 1], name) + (if results[|results| - 1].classification == name then 1 else 0)
  }

  /** The four counts, in `ClassNames` order, added up. */
  function CountsTotal(counts: map<string, nat>): nat
    requires forall i :: 0 <= i < |ClassNames| ==> ClassNames[i] in counts
  {
    counts[ClassNames[0]] + counts[ClassNames[1]] + counts[ClassNames[2]] + counts[ClassNames[3]]
  }

  /** The four class counts of `results`, added up. */
  function ClassCountSum(results: seq<PanelResult>): nat
  {
    CountLabel(results, ClassNames[0]) + CountLabel(results, ClassNames[1])
    + CountLabel(results, ClassNames[2]) + CountLabel(results, ClassNames[3])
  }

  predicate KnownLabels(results: seq<PanelResult>)
  {
    forall k :: 0 <= k < |results| ==> results[k].classification in ClassNames
  }

  /** Counting every class and adding up gives the number of results whose
      label is one of the four classes; so the counts sum to the total
      exactly when every label is one of them. */
  lemma {:induction false} CountsPartition(results: seq<PanelResult>)
    ensures ClassCountSum(results) <= |results|
    ensures ClassCountSum(results) == |results| <==> KnownLabels(results)
    decreases |results|
  {
    if results != [] {
      var prefix := results[..|results| - 1];
      CountsPartition(prefix);
      if KnownLabels(results) {
        assert forall k :: 0 <= k < |prefix| ==> prefix[k] == results[k];
      }
      if KnownLabels(prefix) && results[|results| - 1].classification in ClassNames {
        forall k | 0 <= k < |results| ensures results[k].classification in ClassNames {
          if k < |prefix| {
            assert prefix[k] == results[k];
          }
        }
      }
    }
  }

  /** `class_counts`: each class name mapped to its count. */
  function ClassCounts(results: seq<PanelResult>): (counts: map<string, nat>)
    ensures counts.Keys == set i | 0 <= i < |ClassNames| :: ClassNames[i]
    ensures forall i :: 0 <= i < |ClassNames| ==> counts[ClassNames[i]] == CountLabel(results, ClassNames[i])
  {
    map i | 0 <= i < |ClassNames| :: ClassNames[i] := CountLabel(results, ClassNames[i])
  }

  /** The loop over the class names that builds `class_counts`: every class
      gets an entry, even one with no panel. */
  method CountClasses(results: seq<PanelResult>) returns (counts: map<string, nat>)
    ensures counts == ClassCounts(results)
  {
    counts := map[];
    for i := 0 to |ClassNames|
      invariant counts.Keys == set j | 0 <= j < i :: ClassNames[j]
      invariant forall j :: 0 <= j < i ==> counts[ClassNames[j]] == CountLabel(results, ClassNames[j])
    {
      counts := counts[ClassNames[i] := CountLabel(results, ClassNames[i])];
    }
  }

  /** A cell of the Value column: a count, or the processing date text. */
  datatype Cell = CountCell(n: nat) | TextCell(s: string)

  /** The Summary sheet, column by column. */
  datatype SummarySheet = SummarySheet(metric: seq<string>, value: seq<Cell>)

  /** The summary `generate_excel_report` returns. */
  datatype ReportSummary = ReportSummary(totalPanels: nat, classDistribution: map<string, nat>, filePath: string)

  /** The two sheets handed to the Excel writer. */
  datatype Workbook = Workbook(summary: SummarySheet, detailed: seq<PanelResult>)

  /** The Summary sheet: the total, one row per class and the processing
      date, `timestamp` standing for `datetime.now()` as formatted. */
  function Summary(total: nat, counts: map<string, nat>, timestamp: string): (s: SummarySheet)
    requires forall i :: 0 <= i < |ClassNames| ==> ClassNames[i] in counts
    ensures |s.metric| == |s.value| == 6
  {
    SummarySheet(
      ["Total Panels Detected"] + seq(4, i requires 0 <= i < 4 => ClassNames[i] + " Panels") + ["Processing Date"],
      [CountCell(total)] + seq(4, i requires 0 <= i < 4 => CountCell(counts[ClassNames[i]])) + [TextCell(timestamp)])
  }

  /** The Summary sheet pairs each metric with its value: row 0 the total,
      rows 1 to 4 each class with its own count, row 5 the date. */
  lemma SummaryRows(total: nat, counts: map<string, nat>, timestamp: string)
    requires forall i :: 0 <= i < |ClassNames| ==> ClassNames[i] in counts
    ensures var s := Summary(total, counts, timestamp);
            && s.metric[0] == "Total Panels Detected" && s.value[0] == CountCell(total)
            && (forall i :: 0 <= i < 4 ==> s.metric[i + 1] == ClassNames[i] + " Panels" && s.value[i + 1] == CountCell(counts[ClassNames[i]]))
            && s.metric[5] == "Processing Date" && s.value[5] == TextCell(timestamp)
  {
  }

  /** `generate_excel_report` without the writing of the file: the sheets it
      writes and the summary it returns. */
  method GenerateReport(results: seq<PanelResult>, outputPath: string, timestamp: string)
    returns (book: Workbook, report: ReportSummary)
    ensures report == ReportSummary(|results|, ClassCounts(results), outputPath)
    ensures book == Workbook(Summary(|results|, ClassCounts(results), timestamp), results)
  {
    var total := |results|;
    var counts := CountClasses(results);
    book := Workbook(Summary(total, counts, timestamp), results);
    report := ReportSummary(total, counts, outputPath);
  }

  /** With results from the classifier, whose labels are all class names, the
      class counts add up to the total. */
  lemma ReportAddsUp(results: seq<PanelResult>)
    requires KnownLabels(results)
    ensures CountsTotal(ClassCounts(results)) == |results|
  {
    CountsPartition(results);
  }
}
