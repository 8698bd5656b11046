/**
  The text that `ImageProcessor` shows and writes: the `HH:MM:SS` elapsed
  time of `format_time`, and the contents of the spreadsheet built by
  `create_excel_report`, one column of file names per designer, padded to
  a common length with empty strings, and a summary of five metrics.
 */
module Report {
  import opened Options
  import opened Strings
  import opened Collections

  /** `f"{n:02d}"` for a natural number: at least two digits, with a
      leading zero below 10. */
  function Pad2(n: nat): (s: string)
    ensures IsDigitString(s) && |s| >= 2
    ensures n < 100 ==> |s| == 2
    ensures |s| == 2 || s[0] != '0'
    ensures ParseNat(s) == n
  {
    ParseNatToString(n);
    if n < 10 then
      assert "0" + NatToString(n) == ['0', DigitChar(n)];
      "0" + NatToString(n)
    else
      assert n < 100 ==> n / 10 < 10;
      NatToString(n)
  }

  /** The hours, minutes and seconds of a whole number of seconds. */
  function TimeFields(seconds: nat): (r: (nat, nat, nat))
    ensures r.0 * 3600 + r.1 * 60 + r.2 == seconds
    ensures r.1 < 60 && r.2 < 60
  {
    (seconds / 3600, seconds % 3600 / 60, seconds % 60)
  }

  /** `format_time(seconds)`, once the elapsed time is cut to whole
      seconds; the report's own processing time is built the same way. */
  function FormatTime(seconds: nat): (r: string)
    ensures var (h, m, s) := TimeFields(seconds); Split(r, ":") == [Pad2(h), Pad2(m), Pad2(s)]
  {
    var (h, m, s) := TimeFields(seconds);
    FieldsSplit(Pad2(h), Pad2(m), Pad2(s));
    Pad2(h) + ":" + Pad2(m) + ":" + Pad2(s)
  }

  /** Three digit fields joined by colons split back into those fields. */
  lemma FieldsSplit(a: string, b: string, c: string)
    requires IsDigitString(a) && IsDigitString(b) && IsDigitString(c)
    ensures Split(a + ":" + b + ":" + c, ":") == [a, b, c]
  {
    var items := [a, b, c];
    assert Join(":", items[1..]) == b + ":" + c by {
      assert items[1..] == [b, c] && [b, c][1..] == [c];
    }
    assert Join(":", items) == a + ":" + b + ":" + c;
    DigitsExcludeColon(a);
    DigitsExcludeColon(b);
    DigitsExcludeColon(c);
    SplitJoin(items, ":");
  }

  /** Reading an `HH:MM:SS` string back: three fields of digits, the last
      two below 60. */
  function ParseTime(t: string): Option<nat> {
    var parts := Split(t, ":");
    if |parts| == 3 && IsDigitString(parts[0]) && IsDigitString(parts[1]) && IsDigitString(parts[2])
       && ParseNat(parts[1]) < 60 && ParseNat(parts[2]) < 60
    then Some(ParseNat(parts[0]) * 3600 + ParseNat(parts[1]) * 60 + ParseNat(parts[2]))
    else None
  }

  lemma DigitsExcludeColon(s: string)
    requires IsDigitString(s)
    ensures Excludes(s, ':')
  {
  }

  /** The formatted time names exactly the number of seconds it was made
      from. */
  lemma ParseFormatTime(seconds: nat)
    ensures ParseTime(FormatTime(seconds)) == Some(seconds)
  {
  }

  /** Below 100 hours the time has the fixed shape `HH:MM:SS`; beyond, the
      hours keep all their digits. */
  lemma FormatTimeShape(seconds: nat)
    ensures |FormatTime(seconds)| >= 8
    ensures seconds < 360000 ==> |FormatTime(seconds)| == 8
    ensures seconds >= 36000 ==> |FormatTime(seconds)| == |NatToString(seconds / 3600)| + 6
    ensures FormatTime(seconds)[|FormatTime(seconds)| - 3] == ':'
    ensures FormatTime(seconds)[|FormatTime(seconds)| - 6] == ':'
  {
  }

  /** A cell of the summary sheet. */
  datatype Cell = Number(n: nat) | Text(s: string)

  /** One column of the "Designer Files" sheet. */
  datatype Column = Column(header: string, cells: seq<string>)

  /** The two sheets of `SplitImg_Report.xlsx`. */
  datatype Workbook = Workbook(designerFiles: seq<Column>, summary: seq<(string, Cell)>)

  /** `max(len(files) for files in ...)`, or 0 for no lists. */
  function MaxLength(lists: seq<seq<string>>): (r: nat)
    ensures forall i :: 0 <= i < |lists| ==> |lists[i]| <= r
    ensures |lists| == 0 ==> r == 0
    ensures |lists| > 0 ==> exists i :: 0 <= i < |lists| && |lists[i]| == r
    decreases |lists|
  {
    if |lists| == 0 then 0
    else
      var rest := MaxLength(lists[..|lists| - 1]);
      var last := |lists[|lists| - 1]|;
      if last > rest then last else rest
  }

  /** `files + [''] * (max_files - len(files))`. */
  function PadColumn(files: seq<string>, maxLen: nat): (r: seq<string>)
    requires |files| <= maxLen
    ensures |r| == maxLen && files <= r
    ensures forall i :: |files| <= i < maxLen ==> r[i] == ""
  {
    files + seq(maxLen - |files|, _ => "")
  }

  /** The "Designer Files" sheet: one column per designer, in the order
      the designers were added, each padded to the longest list. */
  function DesignerSheet(order: seq<string>, files: map<string, seq<string>>): (cols: seq<Column>)
    requires forall i :: 0 <= i < |order| ==> order[i] in files
    ensures |cols| == |order|
    ensures forall i :: 0 <= i < |order| ==> cols[i].header == order[i]
    ensures forall i :: 0 <= i < |order| ==>
      (|cols[i].cells| == MaxLength(Lookup(order, files)) && files[order[i]] <= cols[i].cells)
  {
    var maxLen := MaxLength(Lookup(order, files));
    seq(|order|, i requires 0 <= i < |order| => Column(order[i], PadColumn(files[order[i]], maxLen)))
  }

  /** The columns line up: every column has the length of the longest
      list, starts with its designer's list and is blank after it. */
  lemma DesignerSheetAligned(order: seq<string>, files: map<string, seq<string>>)
    requires forall i :: 0 <= i < |order| ==> order[i] in files
    ensures var cols := DesignerSheet(order, files);
      && |cols| == |order|
      && (forall i :: 0 <= i < |order| ==> cols[i].header == order[i])
      && (forall i :: 0 <= i < |order| ==> |cols[i].cells| == MaxLength(Lookup(order, files)))
      && (forall i :: 0 <= i < |order| ==> files[order[i]] <= cols[i].cells)
      && (forall i, k :: 0 <= i < |order| && |files[order[i]]| <= k < |cols[i].cells| ==> cols[i].cells[k] == "")
      && (forall i, j :: 0 <= i < j < |order| ==> |cols[i].cells| == |cols[j].cells|)
  {
  }

  /** Without designers the sheet is empty and nothing is padded. */
  lemma NoDesignersNoPadding(files: map<string, seq<string>>)
    ensures MaxLength(Lookup([], files)) == 0 && DesignerSheet([], files) == []
  {
  }

  /** `f"{ext} ({count})"`. */
  function ExtensionEntry(ext: string, count: nat): string {
    ext + " (" + NatToString(count) + ")"
  }

  function ExtensionEntries(order: seq<string>, counts: map<string, nat>): (r: seq<string>)
    requires forall i :: 0 <= i < |order| ==> order[i] in counts
    ensures |r| == |order|
    ensures forall i :: 0 <= i < |order| ==> r[i] == ExtensionEntry(order[i], counts[order[i]])
  {
    seq(|order|, i requires 0 <= i < |order| => ExtensionEntry(order[i], counts[order[i]]))
  }

  /** `extensions_text`: the entries in insertion order, joined by ", ". */
  function ExtensionsText(order: seq<string>, counts: map<string, nat>): (r: string)
    requires forall i :: 0 <= i < |order| ==> order[i] in counts
    ensures r == "" <==> |order| == 0
    ensures |order| > 0 ==> ExtensionEntry(order[0], counts[order[0]]) <= r
    ensures |order| > 0 ==>
      var last := ExtensionEntry(order[|order| - 1], counts[order[|order| - 1]]);
      |last| <= |r| && r[|r| - |last|..] == last
  {
    JoinEnds(", ", ExtensionEntries(order, counts));
    Join(", ", ExtensionEntries(order, counts))
  }

  /** A joined list starts with its first item and ends with its last. */
  lemma {:induction false} JoinEnds(sep: string, items: seq<string>)
    ensures |items| == 0 ==> Join(sep, items) == ""
    ensures |items| > 0 ==> items[0] <= Join(sep, items)
    ensures |items| > 0 ==>
      (|items[|items| - 1]| <= |Join(sep, items)|
       && Join(sep, items)[|Join(sep, items)| - |items[|items| - 1]|..] == items[|items| - 1])
    decreases |items|
  {
    if |items| > 1 {
      JoinEnds(sep, items[1..]);
      var rest := Join(sep, items[1..]);
      var j := items[0] + sep + rest;
      assert j[|j| - |rest|..] == rest;
      assert items[1..][|items[1..]| - 1] == items[|items| - 1];
    }
  }

  lemma EntryExcludesComma(ext: string, count: nat)
    requires Excludes(ext, ',')
    ensures Excludes(ExtensionEntry(ext, count), ',')
  {
    var digits := NatToString(count);
    assert forall i :: 0 <= i < |digits| ==> digits[i] != ',';
  }

  /** The text lists one entry per extension, in insertion order: splitting
      it at ", " gives the entries back, as long as no extension holds a
      comma; without extensions it is empty. */
  lemma ExtensionsTextSplit(order: seq<string>, counts: map<string, nat>)
    requires forall i :: 0 <= i < |order| ==> order[i] in counts
    requires forall i :: 0 <= i < |order| ==> Excludes(order[i], ',')
    ensures |order| == 0 ==> ExtensionsText(order, counts) == ""
    ensures |order| > 0 ==> Split(ExtensionsText(order, counts), ", ") == ExtensionEntries(order, counts)
  {
    var entries := ExtensionEntries(order, counts);
    forall i | 0 <= i < |entries| ensures Excludes(entries[i], ", "[0]) {
      EntryExcludesComma(order[i], counts[order[i]]);
    }
    if |order| > 0 {
      SplitJoin(entries, ", ");
    }
  }

  /** An entry names its extension and its count, which can be read back. */
  lemma ExtensionEntryParts(ext: string, count: nat)
    ensures var entry := ExtensionEntry(ext, count);
      && ext <= entry
      && entry[|ext|..|ext| + 2] == " ("
      && entry[|entry| - 1] == ')'
      && ParseNat(entry[|ext| + 2..|entry| - 1]) == count
  {
    var entry := ExtensionEntry(ext, count);
    assert entry[|ext| + 2..|entry| - 1] == NatToString(count);
    ParseNatToString(count);
  }

  /** The metrics of the summary sheet, in their order. */
  const SummaryLabels: seq<string> := ["Total Images Processed", "White Background Images",
    "Non-White Background Images", "Supported Extensions", "Total Processing Time"]

  /** The summary sheet, metric by metric: each label with its value. */
  function Summary(totalImages: nat, white: nat, nonWhite: nat, extensionsText: string, processingTime: string)
    : (rows: seq<(string, Cell)>)
    ensures |rows| == |SummaryLabels| && forall i :: 0 <= i < |rows| ==> rows[i].0 == SummaryLabels[i]
    ensures rows[0].1 == Number(totalImages) && rows[1].1 == Number(white) && rows[2].1 == Number(nonWhite)
    ensures rows[3].1 == Text(extensionsText) && rows[4].1 == Text(processingTime)
  {
    [(SummaryLabels[0], Number(totalImages)),
     (SummaryLabels[1], Number(white)),
     (SummaryLabels[2], Number(nonWhite)),
     (SummaryLabels[3], Text(extensionsText)),
     (SummaryLabels[4], Text(processingTime))]
  }

  /** What `create_excel_report` writes, from the statistics and the
      elapsed whole seconds. */
  function BuildWorkbook(designerOrder: seq<string>, designerFiles: map<string, seq<string>>,
                         totalImages: nat, white: nat, nonWhite: nat,
                         extensionOrder: seq<string>, extensions: map<string, nat>,
                         elapsed: nat): (r: Workbook)
    requires forall i :: 0 <= i < |designerOrder| ==> designerOrder[i] in designerFiles
    requires forall i :: 0 <= i < |extensionOrder| ==> extensionOrder[i] in extensions
    ensures |r.designerFiles| == |designerOrder|
    ensures forall i :: 0 <= i < |designerOrder| ==>
      (r.designerFiles[i].header == designerOrder[i] && designerFiles[designerOrder[i]] <= r.designerFiles[i].cells)
    ensures |r.summary| == 5 && r.summary[0] == (SummaryLabels[0], Number(totalImages))
    ensures r.summary[1] == (SummaryLabels[1], Number(white)) && r.summary[2] == (SummaryLabels[2], Number(nonWhite))
    ensures r.summary[3].1.Text? && (r.summary[3].1.s == "" <==> |extensionOrder| == 0)
    ensures r.summary[4].1.Text? && ParseTime(r.summary[4].1.s) == Some(elapsed)
  {
    ParseFormatTime(elapsed);
    Workbook(
      DesignerSheet(designerOrder, designerFiles),
      Summary(totalImages, white, nonWhite, ExtensionsText(extensionOrder, extensions), FormatTime(elapsed)))
  }
}
