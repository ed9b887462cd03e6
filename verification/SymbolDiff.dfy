/** Text as lines, the way the symbol diff cuts, marks, indents and prints it. */
module TextLines {
  /** Without the newlines at the end. */
  function TrimRight(s: string): string {
    if s != "" && s[|s| - 1] == '\n' then TrimRight(s[..|s| - 1]) else s
  }

  function Split(s: string): (lines: seq<string>)
    ensures |lines| > 0
  {
    if s == "" then [""]
    else
      var rest := Split(s[1..]);
      if s[0] == '\n' then [""] + rest else [[s[0]] + rest[0]] + rest[1..]
  }

  function Join(lines: seq<string>): string
    requires |lines| > 0
  {
    if |lines| == 1 then lines[0] else lines[0] + "\n" + Join(lines[1..])
  }

  function Lines(s: string): seq<string> { Split(TrimRight(s)) }

  predicate OneLine(line: string) { '\n' !in line }

  predicate OneLineEach(lines: seq<string>) {
    forall i :: 0 <= i < |lines| ==> OneLine(lines[i])
  }

  lemma {:induction false} SplitGivesLines(s: string)
    ensures OneLineEach(Split(s))
  {
    if s != "" {
      SplitGivesLines(s[1..]);
      assert forall i :: 0 < i < |Split(s)| ==> Split(s)[i] in Split(s[1..]);
      assert OneLine(Split(s[1..])[0]);
    }
  }

  lemma {:induction false} JoinSplit(s: string)
    ensures Join(Split(s)) == s
  {
    if s != "" {
      JoinSplit(s[1..]);
      var rest := Split(s[1..]);
      assert s == [s[0]] + s[1..];
      if s[0] == '\n' {
        assert ([""] + rest)[1..] == rest;
      } else {
        assert ([[s[0]] + rest[0]] + rest[1..])[1..] == rest[1..];
        if |rest| > 1 {
          assert [s[0]] + (rest[0] + "\n" + Join(rest[1..])) == [s[0]] + rest[0] + "\n" + Join(rest[1..]);
        }
      }
    }
  }

  lemma {:induction false} SplitAfterLine(line: string, more: string)
    requires OneLine(line)
    ensures Split(line + "\n" + more) == [line] + Split(more)
  {
    if line == "" {
      assert line + "\n" + more == "\n" + more;
      assert ("\n" + more)[1..] == more;
    } else {
      assert (line + "\n" + more)[1..] == line[1..] + "\n" + more;
      SplitAfterLine(line[1..], more);
      assert [line[0]] + line[1..] == line;
      assert ([line[1..]] + Split(more))[1..] == Split(more);
    }
  }

  lemma {:induction false} SplitOneLine(line: string)
    requires OneLine(line)
    ensures Split(line) == [line]
  {
    if line != "" {
      SplitOneLine(line[1..]);
      assert [line[0]] + line[1..] == line;
    }
  }

  lemma {:induction false} SplitJoin(lines: seq<string>)
    requires |lines| > 0 && OneLineEach(lines)
    ensures Split(Join(lines)) == lines
  {
    assert OneLine(lines[0]);
    if |lines| == 1 {
      SplitOneLine(lines[0]);
    } else {
      assert OneLineEach(lines[1..]);
      SplitJoin(lines[1..]);
      SplitAfterLine(lines[0], Join(lines[1..]));
      assert lines == [lines[0]] + lines[1..];
    }
  }

  lemma JoinLines(s: string)
    ensures Join(Lines(s)) == TrimRight(s)
  {
    JoinSplit(TrimRight(s));
  }

  /** Lines as printed, each ended by a newline. */
  function Printed(lines: seq<string>): string {
    if lines == [] then "" else lines[0] + "\n" + Printed(lines[1..])
  }

  /** Printed lines can be read back. */
  lemma {:induction false} SplitPrinted(lines: seq<string>)
    requires OneLineEach(lines)
    ensures Split(Printed(lines)) == lines + [""]
  {
    if lines != [] {
      assert OneLine(lines[0]) && OneLineEach(lines[1..]);
      SplitPrinted(lines[1..]);
      SplitAfterLine(lines[0], Printed(lines[1..]));
      assert lines == [lines[0]] + lines[1..];
    }
  }

  // ---- Indentation ----

  const INDENT := "    "

  function IndentEach(lines: seq<string>): (r: seq<string>)
    ensures |r| == |lines| && forall i :: 0 <= i < |r| ==> r[i] == INDENT + lines[i]
  {
    seq(|lines|, i requires 0 <= i < |lines| => INDENT + lines[i])
  }

  function Drop(line: string, n: nat): string {
    if n <= |line| then line[n..] else ""
  }

  function StripEach(lines: seq<string>): (r: seq<string>)
    ensures |r| == |lines| && forall i :: 0 <= i < |r| ==> r[i] == Drop(lines[i], |INDENT|)
  {
    seq(|lines|, i requires 0 <= i < |lines| => Drop(lines[i], |INDENT|))
  }

  function Unindent(text: string): string {
    Join(StripEach(Split(text)))
  }

  method Indent(value: string) returns (text: string)
    ensures text == Join(IndentEach(Lines(value)))
  {
    var lines := Lines(value);
    for i := 0 to |lines|
      invariant |lines| == |Lines(value)|
      invariant forall j :: 0 <= j < |lines| ==>
                  lines[j] == if j < i then INDENT + Lines(value)[j] else Lines(value)[j]
    {
      lines := lines[i := INDENT + lines[i]];
    }
    assert lines == IndentEach(Lines(value));
    text := Join(lines);
  }

  /** The indented text is, line by line, the trimmed text after four blanks. */
  lemma IndentedLines(value: string)
    ensures |Split(Join(IndentEach(Lines(value))))| == |Lines(value)|
    ensures forall i :: 0 <= i < |Lines(value)| ==>
              Split(Join(IndentEach(Lines(value))))[i] == "    " + Lines(value)[i]
  {
    var indented := IndentEach(Lines(value));
    SplitGivesLines(TrimRight(value));
    forall i | 0 <= i < |indented|
      ensures OneLine(indented[i])
    {
      assert OneLine(Lines(value)[i]);
    }
    hide Split, Join;
    SplitJoin(indented);
  }

  /** Taking the indentation away again gives the text back, up to its final newlines. */
  lemma UnindentIndented(value: string)
    ensures Unindent(Join(IndentEach(Lines(value)))) == TrimRight(value)
  {
    var lines := Lines(value);
    var indented := IndentEach(lines);
    SplitGivesLines(TrimRight(value));
    forall i | 0 <= i < |indented|
      ensures OneLine(indented[i]) && Drop(indented[i], |INDENT|) == lines[i]
    {
      assert OneLine(lines[i]);
    }
    SplitJoin(indented);
    assert StripEach(indented) == lines;
    JoinLines(value);
  }
}

/** The line diff: positions are compared one by one. */
module LineDiffs {
  import opened TextLines

  const SAME := "  "
  const LEFT := "- "
  const RIGHT := "+ "

  /** What position `i` contributes. */
  function RecordsAt(left: seq<string>, right: seq<string>, i: nat): seq<string> {
    if i < |left| && i < |right| && left[i] == right[i] then [SAME + left[i]]
    else (if i < |left| then [LEFT + left[i]] else []) + (if i < |right| then [RIGHT + right[i]] else [])
  }

  /** An equal line is shown once, after two blanks; other lines after `-` or `+`, the left one first. */
  lemma RecordsOfPosition(left: seq<string>, right: seq<string>, i: nat)
    ensures i < |left| && i < |right| && left[i] == right[i] ==> RecordsAt(left, right, i) == ["  " + left[i]]
    ensures i < |left| && i < |right| && left[i] != right[i] ==>
              RecordsAt(left, right, i) == ["- " + left[i], "+ " + right[i]]
    ensures |right| <= i < |left| ==> RecordsAt(left, right, i) == ["- " + left[i]]
    ensures |left| <= i < |right| ==> RecordsAt(left, right, i) == ["+ " + right[i]]
  {
  }

  function RecordsTo(left: seq<string>, right: seq<string>, n: nat): seq<string> {
    if n == 0 then [] else RecordsTo(left, right, n - 1) + RecordsAt(left, right, n - 1)
  }

  function Max(a: nat, b: nat): nat { if a < b then b else a }

  function LineDiff(left: seq<string>, right: seq<string>): seq<string> {
    RecordsTo(left, right, Max(|left|, |right|))
  }

  /** The lines of the records that do not carry the mark `dropped`. */
  function Side(records: seq<string>, dropped: char): seq<string> {
    if records == [] then []
    else
      var r := records[|records| - 1];
      Side(records[..|records| - 1], dropped) + if r != "" && r[0] != dropped then [Drop(r, 2)] else []
  }

  lemma {:induction false} SideConcat(a: seq<string>, b: seq<string>, dropped: char)
    ensures Side(a + b, dropped) == Side(a, dropped) + Side(b, dropped)
  {
    if b == [] {
      assert a + b == a;
    } else {
      assert (a + b)[..|a + b| - 1] == a + b[..|b| - 1];
      SideConcat(a, b[..|b| - 1], dropped);
    }
  }

  lemma SideOfRecords(left: seq<string>, right: seq<string>, i: nat)
    ensures Side(RecordsAt(left, right, i), '+') == if i < |left| then [left[i]] else []
    ensures Side(RecordsAt(left, right, i), '-') == if i < |right| then [right[i]] else []
  {
    var a := if i < |left| then [LEFT + left[i]] else [];
    var b := if i < |right| then [RIGHT + right[i]] else [];
    SideConcat(a, b, '+');
    SideConcat(a, b, '-');
    OneRecord(SAME + if i < |left| then left[i] else "");
    OneRecord(LEFT + if i < |left| then left[i] else "");
    OneRecord(RIGHT + if i < |right| then right[i] else "");
  }

  lemma OneRecord(r: string)
    requires |r| >= 2
    ensures forall dropped :: Side([r], dropped) == if r[0] != dropped then [r[2..]] else []
  {
    assert [r][..0] == [];
  }

  function UpTo(lines: seq<string>, n: nat): seq<string> {
    if n < |lines| then lines[..n] else lines
  }

  lemma UpToNext(lines: seq<string>, n: nat)
    ensures UpTo(lines, n + 1) == UpTo(lines, n) + if n < |lines| then [lines[n]] else []
  {
  }

  lemma SidesOfNothing(left: seq<string>, right: seq<string>)
    ensures Side(RecordsTo(left, right, 0), '+') == UpTo(left, 0)
    ensures Side(RecordsTo(left, right, 0), '-') == UpTo(right, 0)
  {
  }

  lemma SidesOfNext(left: seq<string>, right: seq<string>, n: nat)
    requires Side(RecordsTo(left, right, n), '+') == UpTo(left, n)
    requires Side(RecordsTo(left, right, n), '-') == UpTo(right, n)
    ensures Side(RecordsTo(left, right, n + 1), '+') == UpTo(left, n + 1)
    ensures Side(RecordsTo(left, right, n + 1), '-') == UpTo(right, n + 1)
  {
    assert RecordsTo(left, right, n + 1) == RecordsTo(left, right, n) + RecordsAt(left, right, n);
    hide *;
    SideConcat(RecordsTo(left, right, n), RecordsAt(left, right, n), '+');
    SideConcat(RecordsTo(left, right, n), RecordsAt(left, right, n), '-');
    SideOfRecords(left, right, n);
    UpToNext(left, n);
    UpToNext(right, n);
  }

  lemma {:induction false} SidesUpTo(left: seq<string>, right: seq<string>, n: nat)
    ensures Side(RecordsTo(left, right, n), '+') == UpTo(left, n)
    ensures Side(RecordsTo(left, right, n), '-') == UpTo(right, n)
  {
    hide *;
    if n == 0 {
      SidesOfNothing(left, right);
    } else {
      SidesUpTo(left, right, n - 1);
      SidesOfNext(left, right, n - 1);
    }
  }

  /** Dropping the `+` records gives the left lines, dropping the `-` records the right ones. */
  lemma LineDiffRoundTrip(left: seq<string>, right: seq<string>)
    ensures Side(LineDiff(left, right), '+') == left
    ensures Side(LineDiff(left, right), '-') == right
  {
    SidesUpTo(left, right, Max(|left|, |right|));
  }

  lemma {:induction false} RecordsAreLines(left: seq<string>, right: seq<string>, n: nat)
    requires OneLineEach(left) && OneLineEach(right)
    ensures OneLineEach(RecordsTo(left, right, n))
  {
    if n > 0 {
      RecordsAreLines(left, right, n - 1);
      if n - 1 < |left| { assert OneLine(left[n - 1]); }
      if n - 1 < |right| { assert OneLine(right[n - 1]); }
    }
  }

  /** The printed diff of two texts determines both, up to their final newlines. */
  lemma PrintedDiffDeterminesTexts(left: string, right: string)
    ensures var read := Split(Printed(LineDiff(Lines(left), Lines(right))));
            && Side(read, '+') == Lines(left) && Join(Lines(left)) == TrimRight(left)
            && Side(read, '-') == Lines(right) && Join(Lines(right)) == TrimRight(right)
  {
    SplitGivesLines(TrimRight(left));
    SplitGivesLines(TrimRight(right));
    var records := LineDiff(Lines(left), Lines(right));
    RecordsAreLines(Lines(left), Lines(right), Max(|Lines(left)|, |Lines(right)|));
    SplitPrinted(records);
    LineDiffRoundTrip(Lines(left), Lines(right));
    assert (records + [""])[..|records|] == records;
    JoinLines(left);
    JoinLines(right);
  }

  lemma Regroup<T>(a: seq<T>, b: seq<T>, c: seq<T>)
    ensures a + b + c == a + (b + c)
  {
  }

  lemma NoRecords(left: seq<string>, right: seq<string>)
    ensures RecordsTo(left, right, 0) == []
  {
  }

  lemma RecordsNext(left: seq<string>, right: seq<string>, n: nat)
    ensures RecordsTo(left, right, n + 1) == RecordsTo(left, right, n) + RecordsAt(left, right, n)
  {
  }

  function LabelLines(leftLabel: string, rightLabel: string): seq<string> {
    ["--- " + leftLabel, "+++ " + rightLabel]
  }

  /** The lines printed: the two labels, then the records. */
  method PrintLineDiff(leftLabel: string, left: string, rightLabel: string, right: string)
    returns (printed: seq<string>)
    ensures printed == LabelLines(leftLabel, rightLabel) + LineDiff(Lines(left), Lines(right))
  {
    var leftLines, rightLines := Lines(left), Lines(right);
    var maximum := |leftLines|;
    if |rightLines| > maximum {
      maximum := |rightLines|;
    }
    printed := ["--- " + leftLabel];
    printed := printed + ["+++ " + rightLabel];
    assert printed == LabelLines(leftLabel, rightLabel);
    hide Lines, RecordsTo, RecordsAt, LabelLines;
    NoRecords(leftLines, rightLines);
    for i := 0 to maximum
      invariant printed == LabelLines(leftLabel, rightLabel) + RecordsTo(leftLines, rightLines, i)
    {
      ghost var before, here := printed, RecordsAt(leftLines, rightLines, i);
      RecordsNext(leftLines, rightLines, i);
      RecordsOfPosition(leftLines, rightLines, i);
      Regroup(LabelLines(leftLabel, rightLabel), RecordsTo(leftLines, rightLines, i), here);
      var leftOK, rightOK := i < |leftLines|, i < |rightLines|;
      if leftOK && rightOK && leftLines[i] == rightLines[i] {
        printed := printed + ["  " + leftLines[i]];
        continue;
      }
      if leftOK {
        printed := printed + ["- " + leftLines[i]];
      }
      if rightOK {
        printed := printed + ["+ " + rightLines[i]];
      }
      if leftOK && rightOK {
        Regroup(before, ["- " + leftLines[i]], ["+ " + rightLines[i]]);
        assert here == ["- " + leftLines[i]] + ["+ " + rightLines[i]];
      }
    }
  }
}

/** The symbol report over the union of two symbol tables. */
module SymbolDiffs {
  import opened Basics
  import opened TextLines
  import opened LineDiffs

  type Symbols = map<string, string>

  /** One key's report. `text` is indented, `records` are the lines of a line diff. */
  datatype Report =
    | Missing(key: string, text: string)
    | Extra(key: string, text: string)
    | Same(key: string)
    | Changed(key: string, records: seq<string>)

  // ---- Order ----

  predicate Below(a: string, b: string) {
    if b == "" then false
    else if a == "" then true
    else a[0] < b[0] || (a[0] == b[0] && Below(a[1..], b[1..]))
  }

  lemma {:induction false} BelowIsTotal(a: string, b: string)
    ensures Below(a, b) || Below(b, a) || a == b
    ensures !(Below(a, b) && Below(b, a)) && (Below(a, b) ==> a != b)
  {
    if a != "" && b != "" {
      BelowIsTotal(a[1..], b[1..]);
      assert a == [a[0]] + a[1..] && b == [b[0]] + b[1..];
    }
  }

  lemma {:induction false} BelowIsTransitive(a: string, b: string, c: string)
    requires Below(a, b) && Below(b, c)
    ensures Below(a, c)
  {
    if a != "" && a[0] == b[0] == c[0] { BelowIsTransitive(a[1..], b[1..], c[1..]); }
  }

  /** `b` goes on where `a` ends, or has a larger character, after `n` that are the same. */
  predicate BelowFrom(a: string, b: string, n: nat) {
    n <= |a| && n < |b| && a[..n] == b[..n] && (n == |a| || a[n] < b[n])
  }

  lemma {:induction false} BelowHas(a: string, b: string) returns (n: nat)
    requires Below(a, b)
    ensures BelowFrom(a, b, n)
  {
    if a == "" || a[0] < b[0] {
      n := 0;
    } else {
      var m := BelowHas(a[1..], b[1..]);
      n := m + 1;
      assert a[..n] == [a[0]] + a[1..][..m] && b[..n] == [b[0]] + b[1..][..m];
    }
  }

  lemma {:induction false} FromIsBelow(a: string, b: string, n: nat)
    requires BelowFrom(a, b, n)
    ensures Below(a, b)
  {
    if n > 0 {
      assert a[..n][0] == a[0] && b[..n][0] == b[0];
      assert a[1..][..n - 1] == a[..n][1..] && b[1..][..n - 1] == b[..n][1..];
      FromIsBelow(a[1..], b[1..], n - 1);
    }
  }

  /** The order is that of the first differing character, a prefix coming first. */
  lemma BelowIsFirstDifference(a: string, b: string)
    ensures Below(a, b) <==>
            exists n: nat :: n <= |a| && n < |b| && a[..n] == b[..n] && (n == |a| || a[n] < b[n])
  {
    hide Below;
    if Below(a, b) {
      var n := BelowHas(a, b);
      assert a[..n] == b[..n];
    }
    forall n: nat | n <= |a| && n < |b| && a[..n] == b[..n] && (n == |a| || a[n] < b[n])
      ensures Below(a, b)
    {
      FromIsBelow(a, b, n);
    }
  }

  predicate Ascending(keys: seq<string>) {
    forall i, j :: 0 <= i < j < |keys| ==> Below(keys[i], keys[j])
  }

  function Insert(key: string, keys: seq<string>): seq<string> {
    if keys == [] then [key]
    else if Below(key, keys[0]) then [key] + keys
    else [keys[0]] + Insert(key, keys[1..])
  }

  lemma {:induction false} InsertKeepsOrder(key: string, keys: seq<string>)
    requires Ascending(keys) && key !in keys
    ensures Ascending(Insert(key, keys)) && |Insert(key, keys)| == |keys| + 1
    ensures forall k :: k in Insert(key, keys) <==> k == key || k in keys
  {
    if keys != [] {
      assert keys == [keys[0]] + keys[1..];
      if Below(key, keys[0]) {
        forall j | 0 <= j < |keys|
          ensures Below(key, keys[j])
        {
          if j > 0 { BelowIsTransitive(key, keys[0], keys[j]); }
        }
      } else {
        BelowIsTotal(key, keys[0]);
        InsertKeepsOrder(key, keys[1..]);
        var rest := Insert(key, keys[1..]);
        forall j | 0 <= j < |rest|
          ensures Below(keys[0], rest[j])
        {
          if rest[j] != key {
            assert rest[j] in rest;
            assert rest[j] in keys[1..];
            var i :| 0 <= i < |keys[1..]| && keys[1..][i] == rest[j];
            assert keys[i + 1] == rest[j];
          }
        }
      }
    }
  }

  function SortStrings(keys: seq<string>): seq<string> {
    if keys == [] then [] else Insert(keys[|keys| - 1], SortStrings(keys[..|keys| - 1]))
  }

  lemma {:induction false} SortedDistinct(keys: seq<string>)
    requires Distinct(keys)
    ensures Ascending(SortStrings(keys)) && |SortStrings(keys)| == |keys|
    ensures forall k :: k in SortStrings(keys) <==> k in keys
  {
    if keys != [] {
      var last := |keys| - 1;
      assert keys == keys[..last] + [keys[last]];
      SortedDistinct(keys[..last]);
      InsertKeepsOrder(keys[last], SortStrings(keys[..last]));
    }
  }

  // ---- The report ----

  function ReportOn(left: Symbols, right: Symbols, key: string): Report
    requires key in left || key in right
  {
    if key !in left then Missing(key, Join(IndentEach(Lines(right[key]))))
    else if key !in right then Extra(key, Join(IndentEach(Lines(left[key]))))
    else if left[key] == right[key] then Same(key)
    else Changed(key, LineDiff(Lines(left[key]), Lines(right[key])))
  }

  const MISSING := "SYMBOL MISSING target "
  const EXTRA := "SYMBOL EXTRA target "
  const OK := "SYMBOL OK "
  const DIFF := "SYMBOL DIFF "

  /** The lines printed for one key: a header, then what comes below it. */
  function HeaderOf(r: Report): string {
    match r
    case Missing(key, _) => MISSING + key
    case Extra(key, _) => EXTRA + key
    case Same(key) => OK + key
    case Changed(key, _) => DIFF + key
  }

  function BodyOf(r: Report, leftLabel: string, rightLabel: string): seq<string> {
    match r
    case Missing(key, text) => ["+++ " + rightLabel + " " + key] + Split(text)
    case Extra(key, text) => ["--- " + leftLabel + " " + key] + Split(text)
    case Same(_) => []
    case Changed(key, records) => LabelLines(leftLabel + " " + key, rightLabel + " " + key) + records
  }

  function PrintedReport(report: seq<Report>, leftLabel: string, rightLabel: string): seq<string> {
    if report == [] then []
    else
      var r := report[|report| - 1];
      PrintedReport(report[..|report| - 1], leftLabel, rightLabel) + [HeaderOf(r)] + BodyOf(r, leftLabel, rightLabel)
  }

  ghost predicate ReportsOn(report: seq<Report>, left: Symbols, right: Symbols, keys: seq<string>) {
    && |report| == |keys|
    && forall i :: 0 <= i < |keys| ==>
         (keys[i] in left || keys[i] in right) && report[i] == ReportOn(left, right, keys[i])
  }

  /** The text a report gives for its key on the right, from the table on the left. */
  function Applied(r: Report, left: Symbols): Symbols {
    match r
    case Missing(key, text) => map[key := Unindent(text)]
    case Extra(_, _) => map[]
    case Same(key) => if key in left then map[key := left[key]] else map[]
    case Changed(key, records) =>
      var side := Side(records, '-');
      if side == [] then map[] else map[key := Join(side)]
  }

  function ApplyReport(report: seq<Report>, left: Symbols): Symbols {
    if report == [] then map[]
    else ApplyReport(report[..|report| - 1], left) + Applied(report[|report| - 1], left)
  }

  /** The same reading backwards. */
  function Mirrored(r: Report): Report {
    match r
    case Missing(key, text) => Extra(key, text)
    case Extra(key, text) => Missing(key, text)
    case Same(key) => Same(key)
    case Changed(key, records) => Changed(key, Flipped(records))
  }

  function FlipMark(record: string): string {
    if record == "" then record
    else if record[0] == '-' then ['+'] + record[1..]
    else if record[0] == '+' then ['-'] + record[1..]
    else record
  }

  function Flipped(records: seq<string>): seq<string> {
    if records == [] then [] else Flipped(records[..|records| - 1]) + [FlipMark(records[|records| - 1])]
  }

  lemma FlippedMark(record: string)
    requires record != ""
    ensures FlipMark(record) != "" && (FlipMark(record)[0] != '-' <==> record[0] != '+')
    ensures Drop(FlipMark(record), 2) == Drop(record, 2)
  {
  }

  lemma {:induction false} SideOfFlipped(records: seq<string>)
    ensures Side(Flipped(records), '-') == Side(records, '+')
  {
    if records != [] {
      var last := |records| - 1;
      SideOfFlipped(records[..last]);
      if records[last] != "" { FlippedMark(records[last]); }
      assert Flipped(records)[..|Flipped(records)| - 1] == Flipped(records[..last]);
    }
  }

  function MirroredAll(report: seq<Report>): (r: seq<Report>)
    ensures |r| == |report| && forall i :: 0 <= i < |r| ==> r[i] == Mirrored(report[i])
  {
    seq(|report|, i requires 0 <= i < |report| => Mirrored(report[i]))
  }

  /** The text as far as a report shows it beside `other`: whole when both tables have the same
      text, otherwise without its final newlines. */
  function ShownText(symbols: Symbols, other: Symbols, key: string): string
    requires key in symbols
  {
    if key in other && other[key] == symbols[key] then symbols[key] else TrimRight(symbols[key])
  }

  ghost function Shown(symbols: Symbols, other: Symbols, keys: seq<string>): Symbols {
    map k | k in symbols && k in keys :: ShownText(symbols, other, k)
  }

  lemma AppliedGivesRight(left: Symbols, right: Symbols, key: string)
    requires key in left || key in right
    ensures Applied(ReportOn(left, right, key), left) == Shown(right, left, [key])
    ensures Applied(Mirrored(ReportOn(left, right, key)), right) == Shown(left, right, [key])
  {
    hide Unindent, Join, TrimRight, Lines, LineDiff, Side, Flipped;
    if key in right { UnindentIndented(right[key]); JoinLines(right[key]); }
    if key in left { UnindentIndented(left[key]); JoinLines(left[key]); }
    if key in left && key in right {
      LineDiffRoundTrip(Lines(left[key]), Lines(right[key]));
      SideOfFlipped(LineDiff(Lines(left[key]), Lines(right[key])));
      LinesAreSome(left[key]);
      LinesAreSome(right[key]);
    }
  }

  lemma LinesAreSome(s: string)
    ensures |Lines(s)| > 0
  {
  }

  lemma ShownSnoc(symbols: Symbols, other: Symbols, keys: seq<string>, key: string)
    ensures Shown(symbols, other, keys + [key]) == Shown(symbols, other, keys) + Shown(symbols, other, [key])
  {
    hide ShownText;
  }

  lemma ReportsOnPrefix(report: seq<Report>, left: Symbols, right: Symbols, keys: seq<string>)
    requires ReportsOn(report, left, right, keys) && keys != []
    ensures var last := |keys| - 1;
            && |report| == |keys|
            && ReportsOn(report[..last], left, right, keys[..last])
            && (keys[last] in left || keys[last] in right)
            && report[last] == ReportOn(left, right, keys[last])
  {
  }

  /** Applying the report for one more key, from `table`, which the report has beside `symbols`. */
  lemma ApplyNext(report: seq<Report>, r: Report, table: Symbols, symbols: Symbols, keys: seq<string>, key: string)
    requires ApplyReport(report, table) == Shown(symbols, table, keys)
    requires Applied(r, table) == Shown(symbols, table, [key])
    ensures ApplyReport(report + [r], table) == Shown(symbols, table, keys + [key])
  {
    assert (report + [r])[..|report|] == report;
    assert ApplyReport(report + [r], table) == ApplyReport(report, table) + Applied(r, table);
    hide *;
    ShownSnoc(symbols, table, keys, key);
  }

  lemma ApplyNothing(table: Symbols, symbols: Symbols)
    ensures ApplyReport([], table) == Shown(symbols, table, [])
  {
  }

  lemma MirroredSnoc(report: seq<Report>, r: Report)
    ensures MirroredAll(report + [r]) == MirroredAll(report) + [Mirrored(r)]
  {
  }

  lemma NoReports(report: seq<Report>, left: Symbols, right: Symbols)
    requires ReportsOn(report, left, right, [])
    ensures report == [] && MirroredAll(report) == []
  {
  }

  lemma {:induction false} ApplyGivesRight(report: seq<Report>, left: Symbols, right: Symbols, keys: seq<string>)
    requires ReportsOn(report, left, right, keys)
    ensures ApplyReport(report, left) == Shown(right, left, keys)
    ensures ApplyReport(MirroredAll(report), right) == Shown(left, right, keys)
    decreases |keys|
  {
    hide *;
    if keys == [] {
      NoReports(report, left, right);
      ApplyNothing(left, right);
      ApplyNothing(right, left);
    } else {
      var last := |keys| - 1;
      ReportsOnPrefix(report, left, right, keys);
      ApplyGivesRight(report[..last], left, right, keys[..last]);
      AppliedGivesRight(left, right, keys[last]);
      assert report == report[..last] + [report[last]] && keys == keys[..last] + [keys[last]];
      ApplyNext(report[..last], report[last], left, right, keys[..last], keys[last]);
      MirroredSnoc(report[..last], report[last]);
      ApplyNext(MirroredAll(report[..last]), Mirrored(report[last]), right, left, keys[..last], keys[last]);
    }
  }

  lemma ShownAll(symbols: Symbols, other: Symbols, keys: seq<string>)
    requires forall k :: k in symbols ==> k in keys
    ensures Shown(symbols, other, keys) == map k | k in symbols :: ShownText(symbols, other, k)
  {
    hide ShownText;
  }

  ghost function KeysIn(report: seq<Report>): (keys: seq<string>)
    ensures |keys| == |report| && forall i :: 0 <= i < |keys| ==> keys[i] == report[i].key
  {
    seq(|report|, i requires 0 <= i < |report| => report[i].key)
  }

  /** The report covers every key of either table once, in order. */
  ghost predicate Complete(report: seq<Report>, left: Symbols, right: Symbols) {
    var keys := KeysIn(report);
    && ReportsOn(report, left, right, keys)
    && Ascending(keys)
    && forall k :: k in keys <==> k in left || k in right
  }

  lemma ReportedKeys(report: seq<Report>, left: Symbols, right: Symbols, keys: seq<string>)
    requires ReportsOn(report, left, right, keys)
    ensures KeysIn(report) == keys
  {
  }

  /** A complete report turns either table into the other: the texts of unchanged keys whole, the
      others without their final newlines. */
  lemma ReportDeterminesTables(report: seq<Report>, left: Symbols, right: Symbols)
    requires Complete(report, left, right)
    ensures ApplyReport(report, left) == map k | k in right :: ShownText(right, left, k)
    ensures ApplyReport(MirroredAll(report), right) == map k | k in left :: ShownText(left, right, k)
  {
    var keys := KeysIn(report);
    ApplyGivesRight(report, left, right, keys);
    hide ReportsOn, Ascending, ApplyReport, ShownText, MirroredAll, Shown;
    ShownAll(right, left, keys);
    ShownAll(left, right, keys);
  }

  predicate EndsInNewline(s: string) { s != "" && s[|s| - 1] == '\n' }

  lemma {:induction false} TrimmedIsNoLonger(s: string)
    ensures |TrimRight(s)| <= |s|
    ensures TrimRight(s) == s <==> !EndsInNewline(s)
  {
    if EndsInNewline(s) { TrimmedIsNoLonger(s[..|s| - 1]); }
  }

  /** The right table is recovered exactly when each of its texts that ends in a newline is
      unchanged: the report does not show final newlines, but says which texts are equal. */
  lemma RecoveredExactly(report: seq<Report>, left: Symbols, right: Symbols)
    requires Complete(report, left, right)
    ensures ApplyReport(report, left) == right <==>
            forall k :: k in right ==> !EndsInNewline(right[k]) || (k in left && left[k] == right[k])
  {
    hide ApplyReport, Complete, TrimRight, EndsInNewline;
    ReportDeterminesTables(report, left, right);
    forall k | k in right
      ensures ShownText(right, left, k) == right[k] <==>
              !EndsInNewline(right[k]) || (k in left && left[k] == right[k])
    {
      TrimmedIsNoLonger(right[k]);
    }
    hide ShownText;
    var shown := map k | k in right :: ShownText(right, left, k);
    assert forall k :: k in shown <==> k in right;
    assert shown == right <==> forall k :: k in right ==> ShownText(right, left, k) == right[k];
  }

  /** Only newlines at the end go, and all of them. */
  lemma {:induction false} OnlyNewlinesGo(s: string)
    ensures |TrimRight(s)| <= |s| && s[..|TrimRight(s)|] == TrimRight(s)
    ensures forall i :: |TrimRight(s)| <= i < |s| ==> s[i] == '\n'
    ensures TrimRight(s) == "" || TrimRight(s)[|TrimRight(s)| - 1] != '\n'
  {
    if s != "" && s[|s| - 1] == '\n' {
      OnlyNewlinesGo(s[..|s| - 1]);
    }
  }

  /** The lines printed for a key, spelled out: which word, which label, and which text. */
  lemma PrintedForKey(left: Symbols, right: Symbols, key: string, leftLabel: string, rightLabel: string)
    requires key in left || key in right
    ensures var r := ReportOn(left, right, key);
            var lines := [HeaderOf(r)] + BodyOf(r, leftLabel, rightLabel);
            && (key !in left ==>
                  && lines[..2] == ["SYMBOL MISSING target " + key, "+++ " + rightLabel + " " + key]
                  && |lines| == 2 + |Lines(right[key])|
                  && forall i :: 0 <= i < |Lines(right[key])| ==> lines[2 + i] == "    " + Lines(right[key])[i])
            && (key !in right ==>
                  && lines[..2] == ["SYMBOL EXTRA target " + key, "--- " + leftLabel + " " + key]
                  && |lines| == 2 + |Lines(left[key])|
                  && forall i :: 0 <= i < |Lines(left[key])| ==> lines[2 + i] == "    " + Lines(left[key])[i])
            && (key in left && key in right && left[key] == right[key] ==> lines == ["SYMBOL OK " + key])
            && (key in left && key in right && left[key] != right[key] ==>
                  lines == ["SYMBOL DIFF " + key, "--- " + leftLabel + " " + key, "+++ " + rightLabel + " " + key]
                           + LineDiff(Lines(left[key]), Lines(right[key])))
  {
    hide Split, Join, LineDiff, TrimRight;
    assert "--- " + (leftLabel + " " + key) == "--- " + leftLabel + " " + key;
    assert "+++ " + (rightLabel + " " + key) == "+++ " + rightLabel + " " + key;
    if key in right { IndentedLines(right[key]); }
    if key in left { IndentedLines(left[key]); }
  }

  // ---- What no reader can tell apart ----

  lemma {:induction false} AscendingIsUnique(a: seq<string>, b: seq<string>)
    requires Ascending(a) && Ascending(b) && forall k :: k in a <==> k in b
    ensures a == b
  {
    BothOrNeitherEmpty(a, b);
    if a != [] {
      SmallestIsFirst(a, b);
      SmallestIsFirst(b, a);
      BelowIsTotal(a[0], b[0]);
      assert a == [a[0]] + a[1..] && b == [b[0]] + b[1..];
      FirstIsNotAgain(a);
      FirstIsNotAgain(b);
      forall k
        ensures k in a[1..] <==> k in b[1..]
      {
        assert k in a <==> k == a[0] || k in a[1..];
        assert k in b <==> k == b[0] || k in b[1..];
      }
      AscendingIsUnique(a[1..], b[1..]);
    }
  }

  lemma BothOrNeitherEmpty(a: seq<string>, b: seq<string>)
    requires forall k :: k in a <==> k in b
    ensures a == [] <==> b == []
  {
    if a != [] { assert a[0] in a; }
    if b != [] { assert b[0] in b; }
  }

  lemma SmallestIsFirst(a: seq<string>, b: seq<string>)
    requires Ascending(a) && a != [] && b != [] && b[0] in a
    ensures a[0] == b[0] || Below(a[0], b[0])
  {
  }

  lemma FirstIsNotAgain(a: seq<string>)
    requires Ascending(a) && a != []
    ensures a[0] !in a[1..] && Ascending(a[1..])
  {
    forall i | 0 <= i < |a[1..]|
      ensures a[1..][i] != a[0]
    {
      BelowIsTotal(a[0], a[i + 1]);
    }
  }

  /** Right texts for a key that are reported alike against `left`: the same text, or texts that
      differ in final newlines only and both differ from the left one. */
  predicate Alike(left: Symbols, key: string, a: string, b: string) {
    a == b || (TrimRight(a) == TrimRight(b) && (key in left ==> left[key] != a && left[key] != b))
  }

  lemma ReportTellsText(left: Symbols, right: Symbols, right': Symbols, key: string)
    requires key in left || (key in right && key in right')
    ensures ReportOn(left, right, key) == ReportOn(left, right', key) <==>
            && (key in right <==> key in right')
            && (key in right && key in right' ==> Alike(left, key, right[key], right'[key]))
  {
    hide TrimRight, Join, Unindent, LineDiff, Side, Split;
    if key in right && key in right' {
      UnindentIndented(right[key]);
      UnindentIndented(right'[key]);
      JoinLines(right[key]);
      JoinLines(right'[key]);
      if key in left {
        LineDiffRoundTrip(Lines(left[key]), Lines(right[key]));
        LineDiffRoundTrip(Lines(left[key]), Lines(right'[key]));
      }
    }
  }

  lemma SameReportsSameKeys(report: seq<Report>, left: Symbols, right: Symbols, right': Symbols, key: string)
    requires Complete(report, left, right) && Complete(report, left, right')
    ensures key in left || key in right <==> key in left || key in right'
    ensures key in left || key in right ==> ReportOn(left, right, key) == ReportOn(left, right', key)
  {
    hide ReportOn;
    var keys := KeysIn(report);
    assert key in keys <==> key in left || key in right;
    assert key in keys <==> key in left || key in right';
  }

  lemma AlikeReports(report: seq<Report>, report': seq<Report>, left: Symbols, right: Symbols, right': Symbols)
    requires Complete(report, left, right) && Complete(report', left, right')
    requires right.Keys == right'.Keys && forall k :: k in right ==> Alike(left, k, right[k], right'[k])
    ensures report == report'
  {
    var keys, keys' := KeysIn(report), KeysIn(report');
    forall k
      ensures k in right <==> k in right'
      ensures k in keys <==> k in keys'
    {
      assert k in right.Keys <==> k in right'.Keys;
    }
    AscendingIsUnique(keys, keys');
    hide ReportOn, Alike, Ascending;
    forall i | 0 <= i < |keys|
      ensures report[i] == report'[i]
    {
      assert keys[i] in keys;
      ReportTellsText(left, right, right', keys[i]);
    }
  }

  /** Two right tables give the same report against one left table exactly when they have the same
      keys with texts reported alike; no reader of the report can tell such tables apart. */
  lemma ReportsCoincide(report: seq<Report>, report': seq<Report>, left: Symbols, right: Symbols, right': Symbols)
    requires Complete(report, left, right) && Complete(report', left, right')
    ensures report == report' <==>
            right.Keys == right'.Keys && forall k :: k in right && k in right' ==> Alike(left, k, right[k], right'[k])
  {
    hide ReportOn, Alike, Complete;
    if report == report' {
      forall k
        ensures k in right <==> k in right'
        ensures k in right && k in right' ==> Alike(left, k, right[k], right'[k])
      {
        SameReportsSameKeys(report, left, right, right', k);
        if k in left || k in right {
          ReportTellsText(left, right, right', k);
        }
      }
      assert right.Keys == right'.Keys;
    }
    if right.Keys == right'.Keys && forall k :: k in right && k in right' ==> Alike(left, k, right[k], right'[k]) {
      assert forall k :: k in right ==> k in right.Keys && k in right'.Keys && k in right';
      AlikeReports(report, report', left, right, right');
    }
  }

  method AddKeys(keys: set<string>, symbols: Symbols) returns (union: set<string>)
    ensures union == keys + symbols.Keys
  {
    union := keys;
    var todo := symbols.Keys;
    while todo != {}
      invariant todo <= symbols.Keys && union == keys + (symbols.Keys - todo)
      decreases |todo|
    {
      var key :| key in todo;
      union, todo := union + {key}, todo - {key};
    }
  }

  lemma ReportsOnNext(report: seq<Report>, left: Symbols, right: Symbols, keys: seq<string>, i: nat)
    requires i < |keys| && ReportsOn(report, left, right, keys[..i]) && (keys[i] in left || keys[i] in right)
    ensures ReportsOn(report + [ReportOn(left, right, keys[i])], left, right, keys[..i + 1])
  {
    hide ReportOn;
    assert keys[..i + 1] == keys[..i] + [keys[i]];
  }

  /** The report, and the lines printed for it. */
  method RunSymbolDiff(left: Symbols, right: Symbols, leftLabel: string, rightLabel: string)
    returns (report: seq<Report>, printed: seq<string>)
    ensures Complete(report, left, right)
    ensures printed == PrintedReport(report, leftLabel, rightLabel)
  {
    var union := AddKeys({}, left);
    union := AddKeys(union, right);
    var ordered := SortedKeys(union);
    report, printed := [], [];
    assert ReportsOn([], left, right, ordered[..0]);
    assert PrintedReport([], leftLabel, rightLabel) == [];
    hide ReportOn, ReportsOn, Ascending, PrintedReport, HeaderOf, BodyOf;
    for i := 0 to |ordered|
      invariant ReportsOn(report, left, right, ordered[..i])
      invariant printed == PrintedReport(report, leftLabel, rightLabel)
    {
      assert ordered[i] in ordered;
      ReportsOnNext(report, left, right, ordered, i);
      var entry, lines := ReportKey(left, right, ordered[i], leftLabel, rightLabel);
      PrintedNext(report, entry, leftLabel, rightLabel);
      report, printed := report + [entry], printed + lines;
    }
    assert ordered[..|ordered|] == ordered;
    ReportedKeys(report, left, right, ordered);
  }

  lemma PrintedNext(report: seq<Report>, r: Report, leftLabel: string, rightLabel: string)
    ensures PrintedReport(report + [r], leftLabel, rightLabel) ==
            PrintedReport(report, leftLabel, rightLabel) + ([HeaderOf(r)] + BodyOf(r, leftLabel, rightLabel))
  {
    hide HeaderOf, BodyOf;
    assert (report + [r])[..|report|] == report;
  }

  method SortedKeys(union: set<string>) returns (ordered: seq<string>)
    ensures Ascending(ordered) && forall k :: k in ordered <==> k in union
  {
    var keys := Keys(union);
    SortedDistinct(keys);
    ordered := SortStrings(keys);
  }

  method Keys(union: set<string>) returns (keys: seq<string>)
    ensures Distinct(keys) && forall k :: k in keys <==> k in union
  {
    keys := [];
    var todo := union;
    while todo != {}
      invariant todo <= union && Distinct(keys)
      invariant forall k :: k in keys <==> k in union && k !in todo
      decreases |todo|
    {
      var key :| key in todo;
      keys, todo := keys + [key], todo - {key};
    }
  }

  method ReportKey(left: Symbols, right: Symbols, key: string, leftLabel: string, rightLabel: string)
    returns (r: Report, printed: seq<string>)
    requires key in left || key in right
    ensures r == ReportOn(left, right, key)
    ensures printed == [HeaderOf(r)] + BodyOf(r, leftLabel, rightLabel)
  {
    hide LineDiff, Lines, Split, Join;
    if key !in left {
      printed := [MISSING + key];
      var text := Indent(right[key]);
      printed := printed + ["+++ " + rightLabel + " " + key] + Split(text);
      r := Missing(key, text);
    } else if key !in right {
      printed := [EXTRA + key];
      var text := Indent(left[key]);
      printed := printed + ["--- " + leftLabel + " " + key] + Split(text);
      r := Extra(key, text);
    } else if left[key] == right[key] {
      printed := [OK + key];
      r := Same(key);
    } else {
      printed := [DIFF + key];
      var lines := PrintLineDiff(leftLabel + " " + key, left[key], rightLabel + " " + key, right[key]);
      printed := printed + lines;
      r := Changed(key, lines[2..]);
    }
  }
}
