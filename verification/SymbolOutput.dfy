/** Reading the printed symbol diff back. */
module SymbolOutputs {
  import opened TextLines
  import opened LineDiffs
  import opened SymbolDiffs

  /** No line below a header can be taken for one. */
  predicate IsHeader(line: string) { line != "" && line[0] == 'S' }

  predicate NoHeader(lines: seq<string>) {
    forall i :: 0 <= i < |lines| ==> !IsHeader(lines[i])
  }

  /** The entry that a header and the lines below it stand for. The word after SYMBOL tells the kind. */
  function Entry(header: string, body: seq<string>): Report {
    var kind := Drop(header, |"SYMBOL "|);
    if kind == "" || kind[0] == 'O' then Same(Drop(header, |OK|))
    else if kind[0] == 'D' then Changed(Drop(header, |DIFF|), if |body| < 2 then [] else body[2..])
    else
      var text := if |body| < 2 then "" else Join(body[1..]);
      if kind[0] == 'M' then Missing(Drop(header, |MISSING|), text) else Extra(Drop(header, |EXTRA|), text)
  }

  /** Reads lines from the end, with `below` already read. */
  function ReadLines(lines: seq<string>, below: seq<string>): seq<Report> {
    if lines == [] then []
    else
      var last := lines[|lines| - 1];
      if IsHeader(last) then ReadLines(lines[..|lines| - 1], []) + [Entry(last, below)]
      else ReadLines(lines[..|lines| - 1], [last] + below)
  }

  function ReadOutput(output: string): seq<Report> {
    var lines := Split(output);
    ReadLines(lines[..|lines| - 1], [])
  }

  /** The lines of an entry are lines, and only the first is a header. */
  ghost predicate Printable(r: Report) {
    && OneLine(r.key)
    && match r
       case Missing(_, text) => NoHeader(Split(text))
       case Extra(_, text) => NoHeader(Split(text))
       case Same(_) => true
       case Changed(_, records) => NoHeader(records) && OneLineEach(records)
  }

  lemma {:induction false} ReadBody(lines: seq<string>, body: seq<string>, below: seq<string>)
    requires NoHeader(body)
    ensures ReadLines(lines + body, below) == ReadLines(lines, body + below)
  {
    if body == [] {
      assert lines + body == lines && body + below == below;
    } else {
      var last := |body| - 1;
      assert (lines + body)[..|lines + body| - 1] == lines + body[..last];
      assert !IsHeader(body[last]);
      ReadBody(lines, body[..last], [body[last]] + below);
      assert body[..last] + ([body[last]] + below) == body + below;
    }
  }

  lemma ReadEntry(lines: seq<string>, header: string, body: seq<string>)
    requires IsHeader(header) && NoHeader(body)
    ensures ReadLines(lines + [header] + body, []) == ReadLines(lines, []) + [Entry(header, body)]
  {
    ReadBody(lines + [header], body, []);
    assert body + [] == body;
    assert (lines + [header])[..|lines|] == lines;
  }

  lemma HeaderTellsEntry(r: Report, leftLabel: string, rightLabel: string)
    ensures IsHeader(HeaderOf(r)) && Entry(HeaderOf(r), BodyOf(r, leftLabel, rightLabel)) == r
  {
    var body := BodyOf(r, leftLabel, rightLabel);
    match r
    case Missing(key, text) =>
      assert body[1..] == Split(text);
      JoinSplit(text);
      assert HeaderOf(r)[|MISSING|..] == key && HeaderOf(r)[7..][0] == MISSING[7] == 'M';
    case Extra(key, text) =>
      assert body[1..] == Split(text);
      JoinSplit(text);
      assert HeaderOf(r)[|EXTRA|..] == key && HeaderOf(r)[7..][0] == EXTRA[7] == 'E';
    case Same(key) =>
      assert HeaderOf(r)[|OK|..] == key && HeaderOf(r)[7..][0] == OK[7] == 'O';
    case Changed(key, records) =>
      assert body[2..] == records;
      assert HeaderOf(r)[|DIFF|..] == key && HeaderOf(r)[7..][0] == DIFF[7] == 'D';
  }

  lemma BodyHasNoHeader(r: Report, leftLabel: string, rightLabel: string)
    requires Printable(r) && OneLine(leftLabel) && OneLine(rightLabel)
    ensures NoHeader(BodyOf(r, leftLabel, rightLabel))
    ensures OneLine(HeaderOf(r)) && OneLineEach(BodyOf(r, leftLabel, rightLabel))
  {
    hide Split;
    match r
    case Missing(_, text) => SplitGivesLines(text);
    case Extra(_, text) => SplitGivesLines(text);
    case _ =>
  }

  ghost predicate AllPrintable(report: seq<Report>) {
    forall i :: 0 <= i < |report| ==> Printable(report[i])
  }

  lemma ReadNextEntry(lines: seq<string>, r: Report, leftLabel: string, rightLabel: string)
    requires Printable(r) && OneLine(leftLabel) && OneLine(rightLabel) && OneLineEach(lines)
    ensures ReadLines(lines + ([HeaderOf(r)] + BodyOf(r, leftLabel, rightLabel)), []) == ReadLines(lines, []) + [r]
    ensures OneLineEach(lines + ([HeaderOf(r)] + BodyOf(r, leftLabel, rightLabel)))
  {
    hide Printable, HeaderOf, BodyOf, Entry, IsHeader, NoHeader, OneLine, ReadLines;
    var header, body := HeaderOf(r), BodyOf(r, leftLabel, rightLabel);
    BodyHasNoHeader(r, leftLabel, rightLabel);
    HeaderTellsEntry(r, leftLabel, rightLabel);
    ReadEntry(lines, header, body);
    assert lines + ([header] + body) == lines + [header] + body;
  }

  lemma PrintableParts(report: seq<Report>)
    requires AllPrintable(report) && report != []
    ensures Printable(report[|report| - 1]) && AllPrintable(report[..|report| - 1])
  {
    hide Printable;
  }

  lemma ReadNothing(leftLabel: string, rightLabel: string)
    ensures PrintedReport([], leftLabel, rightLabel) == []
    ensures ReadLines([], []) == [] && OneLineEach([])
  {
  }

  lemma {:induction false} ReadPrintedLines(report: seq<Report>, leftLabel: string, rightLabel: string)
    requires AllPrintable(report) && OneLine(leftLabel) && OneLine(rightLabel)
    ensures ReadLines(PrintedReport(report, leftLabel, rightLabel), []) == report
    ensures OneLineEach(PrintedReport(report, leftLabel, rightLabel))
  {
    hide *;
    if report == [] {
      ReadNothing(leftLabel, rightLabel);
    } else {
      var r, before := report[|report| - 1], report[..|report| - 1];
      PrintableParts(report);
      ReadPrintedLines(before, leftLabel, rightLabel);
      ReadNextEntry(PrintedReport(before, leftLabel, rightLabel), r, leftLabel, rightLabel);
      PrintedNext(before, r, leftLabel, rightLabel);
      assert report == before + [r];
    }
  }

  lemma ReadPrinted(report: seq<Report>, leftLabel: string, rightLabel: string)
    requires AllPrintable(report) && OneLine(leftLabel) && OneLine(rightLabel)
    ensures ReadOutput(Printed(PrintedReport(report, leftLabel, rightLabel))) == report
  {
    var lines := PrintedReport(report, leftLabel, rightLabel);
    ReadPrintedLines(report, leftLabel, rightLabel);
    SplitPrinted(lines);
    assert (lines + [""])[..|lines|] == lines;
  }

  // ---- Reports are printable ----

  lemma {:induction false} RecordsAreNoHeaders(left: seq<string>, right: seq<string>, n: nat)
    ensures NoHeader(RecordsTo(left, right, n))
  {
    if n > 0 { RecordsAreNoHeaders(left, right, n - 1); }
  }

  lemma IndentedIsNoHeader(value: string)
    ensures NoHeader(Split(Join(IndentEach(Lines(value)))))
  {
    var indented := IndentEach(Lines(value));
    SplitGivesLines(TrimRight(value));
    forall i | 0 <= i < |indented|
      ensures OneLine(indented[i]) && !IsHeader(indented[i])
    {
      assert OneLine(Lines(value)[i]);
    }
    SplitJoin(indented);
  }

  lemma ReportIsPrintable(left: Symbols, right: Symbols, key: string)
    requires (key in left || key in right) && OneLine(key)
    ensures Printable(ReportOn(left, right, key))
  {
    hide Split, Join, Lines, TrimRight, NoHeader, OneLineEach;
    if key !in left {
      IndentedIsNoHeader(right[key]);
    } else if key !in right {
      IndentedIsNoHeader(left[key]);
    } else if left[key] != right[key] {
      DiffIsPrintable(left[key], right[key]);
    }
  }

  lemma DiffIsPrintable(left: string, right: string)
    ensures NoHeader(LineDiff(Lines(left), Lines(right))) && OneLineEach(LineDiff(Lines(left), Lines(right)))
  {
    SplitGivesLines(TrimRight(left));
    SplitGivesLines(TrimRight(right));
    var n := Max(|Lines(left)|, |Lines(right)|);
    RecordsAreNoHeaders(Lines(left), Lines(right), n);
    RecordsAreLines(Lines(left), Lines(right), n);
  }

  /** With labels and keys on one line each, the whole output, read back, is the report; so with
      either table it gives the other. */
  lemma OutputDeterminesTables(report: seq<Report>, left: Symbols, right: Symbols, leftLabel: string,
                               rightLabel: string)
    requires Complete(report, left, right) && OneLine(leftLabel) && OneLine(rightLabel)
    requires forall k :: k in left || k in right ==> OneLine(k)
    ensures var read := ReadOutput(Printed(PrintedReport(report, leftLabel, rightLabel)));
            && read == report
            && ApplyReport(read, left) == (map k | k in right :: ShownText(right, left, k))
            && ApplyReport(MirroredAll(read), right) == (map k | k in left :: ShownText(left, right, k))
  {
    var keys := KeysIn(report);
    forall i | 0 <= i < |report|
      ensures Printable(report[i])
    {
      assert keys[i] in keys;
      ReportIsPrintable(left, right, keys[i]);
    }
    hide *;
    assert AllPrintable(report);
    ReadPrinted(report, leftLabel, rightLabel);
    ReportDeterminesTables(report, left, right);
  }
}
