/**
 * ResultService: one result row per participant who answered an exam,
 * and the CSV export of those rows.  The store's queries are inputs: the
 * participant list (or its failure) and the summed score of each
 * participant (or its failure).  The export is the text the writer
 * receives.
 */
module Results {
  import opened Wrappers
  import opened Model
  import opened Text

  /** String.valueOf / "%s" of a possibly null string. */
  function Display(s: Option<string>): (t: string)
    ensures s.Some? ==> t == s.value
    ensures s.None? ==> t == "null"
  {
    s.GetOr("null")
  }

  /** The result built for one participant. */
  function ResultOf(s: Student, total: int): (r: StudentResult)
    ensures r.studentId == Display(s.id) && r.studentName == Display(s.name) && r.totalScore == total
  {
    StudentResult(Display(s.id), Display(s.name), total)
  }

  /**
   * getResultsForExam: one result per listed participant, in order, each
   * with that participant's summed score; any store failure fails the
   * whole call.
   */
  method GetResultsForExam(listed: Result<seq<Student>>, totalScore: Option<string> -> Result<int>)
    returns (r: Result<seq<StudentResult>>)
    ensures listed.Err? ==> r.Err?
    ensures listed.Ok? ==> (r.Ok? <==> forall i :: 0 <= i < |listed.value| ==> totalScore(listed.value[i].id).Ok?)
    ensures r.Ok? ==>
      |r.value| == |listed.value| &&
      forall i :: 0 <= i < |listed.value| ==>
        r.value[i] == ResultOf(listed.value[i], totalScore(listed.value[i].id).value)
  {
    if listed.Err? {
      return Err;
    }
    var students := listed.value;
    var results: seq<StudentResult> := [];
    var i := 0;
    while i < |students|
      invariant 0 <= i <= |students| && |results| == i
      invariant forall j :: 0 <= j < i ==> totalScore(students[j].id).Ok?
      invariant forall j :: 0 <= j < i ==> results[j] == ResultOf(students[j], totalScore(students[j].id).value)
    {
      var total := totalScore(students[i].id);
      if total.Err? {
        // the SQLException is rethrown as a RuntimeException
        return Err;
      }
      results := results + [ResultOf(students[i], total.value)];
      i := i + 1;
    }
    r := Ok(results);
  }

  // ------------------------------------------------------------ CSV export

  const Bom: char := '\U{FEFF}'
  const HeaderLine: string := "Student ID,Student Name,Total Score"

  /** One data row without its line break: "%s,%s,%d". */
  function Row(r: StudentResult): string {
    r.studentId + "," + r.studentName + "," + IntToString(r.totalScore)
  }

  /** A row is its three fields joined by commas. */
  lemma RowIsJoin(r: StudentResult)
    ensures Row(r) == Join([r.studentId, r.studentName, IntToString(r.totalScore)], ',')
  {
    var parts := [r.studentId, r.studentName, IntToString(r.totalScore)];
    var tail := parts[1..];
    assert tail == [parts[1], parts[2]] && tail[1..] == [parts[2]];
    assert Join(tail[1..], ',') == parts[2];
    assert Join(tail, ',') == parts[1] + [','] + parts[2];
    assert Join(parts, ',') == parts[0] + [','] + Join(tail, ',');
  }

  /** The data lines, in list order, each ending in a line break. */
  function Lines(results: seq<StudentResult>): string {
    if results == [] then [] else Row(results[0]) + "\n" + Lines(results[1..])
  }

  /** exportToCsv: the byte-order mark, the header line, then one line per result. */
  function ExportCsv(results: seq<StudentResult>): (text: string)
    ensures |text| >= 1 && text[0] == Bom
    ensures text[1..] == HeaderLine + "\n" + Lines(results)
  {
    [Bom] + (HeaderLine + "\n" + Lines(results))
  }

  /** The rows of the results, as the line texts. */
  function Rows(results: seq<StudentResult>): (rows: seq<string>)
    ensures |rows| == |results|
    ensures forall i :: 0 <= i < |results| ==> rows[i] == Row(results[i])
  {
    if results == [] then [] else [Row(results[0])] + Rows(results[1..])
  }

  /** No field can break a line. */
  predicate OneLine(r: StudentResult) {
    '\n' !in r.studentId && '\n' !in r.studentName
  }

  /**
   * After the mark the text splits into the header, one line per result
   * in order, and the empty rest after the final line break: results + 1
   * lines.
   */
  lemma ExportLines(results: seq<StudentResult>)
    requires forall i :: 0 <= i < |results| ==> OneLine(results[i])
    ensures SplitOn(ExportCsv(results)[1..], '\n') == [HeaderLine] + Rows(results) + [[]]
  {
    HeaderOneLine();
    HeadedLines(HeaderLine, results);
  }

  lemma HeaderOneLine()
    ensures '\n' !in HeaderLine
  {
  }

  lemma HeadedLines(header: string, results: seq<StudentResult>)
    requires '\n' !in header
    requires forall i :: 0 <= i < |results| ==> OneLine(results[i])
    ensures SplitOn(header + "\n" + Lines(results), '\n') == [header] + Rows(results) + [[]]
  {
    SplitOnPrefix(header, Lines(results), '\n');
    LinesSplit(results);
  }

  lemma {:induction false} LinesSplit(results: seq<StudentResult>)
    requires forall i :: 0 <= i < |results| ==> OneLine(results[i])
    ensures SplitOn(Lines(results), '\n') == Rows(results) + [[]]
  {
    if results != [] {
      var r := results[0];
      RowOneLine(r);
      LinesSplit(results[1..]);
      assert Lines(results) == Row(r) + ['\n'] + Lines(results[1..]);
      SplitOnPrefix(Row(r), Lines(results[1..]), '\n');
    }
  }

  /** A row has a line break only where a field has one. */
  lemma RowOneLine(r: StudentResult)
    requires OneLine(r)
    ensures '\n' !in Row(r)
  {
    var score := IntToString(r.totalScore);
    IntToStringHasNo(r.totalScore, '\n');
    assert Row(r) == r.studentId + [','] + (r.studentName + [','] + score);
  }

  /**
   * Fields are written as they are: a row holds two commas more than its
   * id and name hold, so each comma in a name adds a column.
   */
  lemma RowCommas(r: StudentResult)
    ensures CountChar(Row(r), ',') == 2 + CountChar(r.studentId, ',') + CountChar(r.studentName, ',')
  {
    var score := IntToString(r.totalScore);
    IntToStringHasNo(r.totalScore, ',');
    assert Row(r) == r.studentId + ([','] + (r.studentName + ([','] + score)));
    CountCharAppend(r.studentId, [','] + (r.studentName + ([','] + score)), ',');
    CountCharAppend([','], r.studentName + ([','] + score), ',');
    CountCharAppend(r.studentName, [','] + score, ',');
    CountCharAppend([','], score, ',');
  }

  /** Without commas in id and name, a row reads back as its three fields and the score parses back. */
  lemma RowReadsBack(r: StudentResult)
    requires ',' !in r.studentId && ',' !in r.studentName && InInt32(r.totalScore)
    ensures SplitOn(Row(r), ',') == [r.studentId, r.studentName, IntToString(r.totalScore)]
    ensures ParseInt(SplitOn(Row(r), ',')[2]) == Some(r.totalScore)
  {
    var score := IntToString(r.totalScore);
    assert ',' !in score by {
      RowCommas(r);
      CountCharAppend(r.studentId, [','] + (r.studentName + ([','] + score)), ',');
    }
    RowIsJoin(r);
    SplitOnJoin([r.studentId, r.studentName, score], ',');
    ParseIntOfIntToString(r.totalScore);
  }
}
