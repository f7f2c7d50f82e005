/**
 * ExamManagementController: the coordinator's screen for creating and
 * editing exams.  It keeps the exam being edited, the texts of its title
 * and duration fields and its question list; saving validates the two
 * fields, assembles the exam and hands it to the store.  Store calls are
 * inputs (their results or failures) and the saves and deletions issued are
 * logged.  Question dialogs are summarised by the form they were saved with
 * (None when the dialog was cancelled).
 */
module ExamManagement {
  import opened Wrappers
  import opened Model
  import opened Text
  import opened Submission
  import opened QuestionEditor

  /** What handleSaveExam objects to, in the order it checks. */
  datatype DetailProblem = MissingDetails | BadDuration

  /** The warning shown for each problem. */
  function DetailText(p: DetailProblem): string {
    match p
    case MissingDetails => "请填写完整的考试信息（标题和时长）。"
    case BadDuration => "考试时长必须是一个有效的数字。"
  }

  /** new ExamPaper() with its fresh id; its other fields are overwritten before any save. */
  function NewExam(examId: string): (e: ExamPaper)
    ensures e.examId == examId && e.questions == []
  {
    ExamPaper(examId, "", 0, 0, [])
  }

  /** new Question() with its fresh id, as handed to the editor. */
  function NewQuestion(id: string): (q: Question)
    ensures q.id == id && q.qtype.None? && q.options.None? && q.score.None? && q.correctAnswer.None?
  {
    Question(id, "", None, None, None, None)
  }

  /** The checks before assembling: both fields filled, and the trimmed duration a number. */
  function CheckDetails(title: string, duration: string): (r: Option<DetailProblem>)
    ensures IsBlank(title) || IsBlank(duration) ==> r == Some(MissingDetails)
    ensures !IsBlank(title) && !IsBlank(duration) && ParseInt(Trim(duration)).None? ==> r == Some(BadDuration)
    ensures r.None? <==> !IsBlank(title) && !IsBlank(duration) && ParseInt(Trim(duration)).Some?
  {
    if IsBlank(title) || IsBlank(duration) then Some(MissingDetails)
    else if ParseInt(Trim(duration)).None? then Some(BadDuration)
    else None
  }

  /** How handleSaveExam ends: no exam, a warning, an exception after the title was set, or an assembled exam. */
  datatype SaveOutcome =
    | NoExam
    | Warned(problem: DetailProblem)
    | Thrown(titled: ExamPaper)
    | Assembled(exam: ExamPaper)

  /** handleSaveExam with the duration parsed trimmed, as it was validated. */
  function SaveExam(current: Option<ExamPaper>, title: string, duration: string, questions: seq<Question>): (r: SaveOutcome)
    ensures !r.Thrown?
    ensures r.Assembled? <==> current.Some? && CheckDetails(title, duration).None?
  {
    match current
    case None => NoExam
    case Some(e) =>
      match CheckDetails(title, duration)
      case Some(w) => Warned(w)
      case None => Assembled(e.(title := Trim(title), durationMinutes := ParseInt(Trim(duration)).value,
                                startTime := 0, questions := questions))
  }

  /**
   * The corrected save warns with the first problem found, and an
   * assembled exam keeps its id, takes the trimmed non-blank title, the
   * parsed duration and the question list, and starts at 0.
   */
  lemma SaveExamMeaning(current: Option<ExamPaper>, title: string, duration: string, questions: seq<Question>)
    ensures var r := SaveExam(current, title, duration, questions);
      && (current.None? ==> r == NoExam)
      && (current.Some? && CheckDetails(title, duration).Some? ==> r == Warned(CheckDetails(title, duration).value))
      && (r.Assembled? ==>
           r.exam.examId == current.value.examId && r.exam.title == Trim(title) && !IsBlank(r.exam.title) &&
           Some(r.exam.durationMinutes) == ParseInt(Trim(duration)) && r.exam.startTime == 0 &&
           r.exam.questions == questions)
  {
    if current.Some? && CheckDetails(title, duration).None? {
      TrimOfTrimmed(Trim(title));
    }
  }

  /**
   * handleSaveExam as written: the duration is validated trimmed but
   * parsed again untrimmed, which throws after the title was already set.
   * Otherwise it agrees with SaveExam.
   */
  function SaveExamAsWritten(current: Option<ExamPaper>, title: string, duration: string, questions: seq<Question>): (r: SaveOutcome)
    ensures r.Thrown? <==> current.Some? && CheckDetails(title, duration).None? && ParseInt(duration).None?
    ensures r.Thrown? ==> r.titled == current.value.(title := Trim(title))
    ensures !r.Thrown? ==> r == SaveExam(current, title, duration, questions)
  {
    match current
    case None => NoExam
    case Some(e) =>
      match CheckDetails(title, duration)
      case Some(w) => Warned(w)
      case None =>
        var titled := e.(title := Trim(title));
        match ParseInt(duration)
        case None => Thrown(titled)
        case Some(d) =>
          TrimOfTrimmed(duration);
          Assembled(titled.(durationMinutes := d, startTime := 0, questions := questions))
  }

  /** A duration with a leading or trailing blank passes validation yet throws; the corrected save assembles it. */
  lemma PaddedDurationThrows(e: ExamPaper, title: string, duration: string, questions: seq<Question>)
    requires !IsBlank(title) && ParseInt(Trim(duration)).Some?
    requires duration != [] && (IsTrimmable(duration[0]) || IsTrimmable(duration[|duration| - 1]))
    ensures SaveExamAsWritten(Some(e), title, duration, questions) == Thrown(e.(title := Trim(title)))
    ensures SaveExam(Some(e), title, duration, questions).Assembled?
  {
    ParseIntRejectsPadding(duration);
  }

  /** The concrete case: " 30" minutes. */
  lemma LeadingBlankDuration(e: ExamPaper)
    ensures SaveExamAsWritten(Some(e), "Quiz", " 30", []) == Thrown(e.(title := "Quiz"))
    ensures SaveExam(Some(e), "Quiz", " 30", []) == Assembled(e.(title := "Quiz", durationMinutes := 30, startTime := 0, questions := []))
  {
    ThirtyParses();
    TrimOfTrimmed("Quiz");
    PaddedDurationThrows(e, "Quiz", " 30", []);
    SaveExamMeaning(Some(e), "Quiz", " 30", []);
  }

  lemma ThirtyParses()
    ensures Trim(" 30") == "30" && ParseInt("30") == Some(30)
  {
    assert " 30"[1..] == "30";
    assert TrimStart(" 30") == "30";
    TrimOfTrimmed("30");
    assert "30"[..1] == "3";
    assert DigitsValue("30") == 30;
  }

  /** Saving the details as loadExamDetails shows them gives the exam back, started at 0. */
  lemma LoadSaveRoundTrip(e: ExamPaper)
    requires !IsBlank(e.title) && Trim(e.title) == e.title && InInt32(e.durationMinutes)
    ensures SaveExam(Some(e), e.title, IntToString(e.durationMinutes), e.questions) == Assembled(e.(startTime := 0))
    ensures SaveExamAsWritten(Some(e), e.title, IntToString(e.durationMinutes), e.questions) == Assembled(e.(startTime := 0))
  {
    var d := IntToString(e.durationMinutes);
    ParseIntOfIntToString(e.durationMinutes);
    TrimOfTrimmed(d);
  }

  /** In a list without duplicates, List.remove(selected) removes exactly the selected row. */
  lemma {:induction false} RemoveSelectedRow<T>(s: seq<T>, i: nat)
    requires i < |s| && NoDuplicates(s)
    ensures RemoveFirst(s, s[i]) == s[..i] + s[i + 1..]
  {
    if i > 0 {
      var t := s[1..];
      NoDuplicatesTail(s);
      assert t[i - 1] == s[i] && s[0] != s[i];
      RemoveSelectedRow(t, i - 1);
      SliceOfTail(s, i);
    }
  }

  lemma NoDuplicatesTail<T>(s: seq<T>)
    requires s != [] && NoDuplicates(s)
    ensures NoDuplicates(s[1..])
  {
    forall a, b | 0 <= a < b < |s[1..]|
      ensures s[1..][a] != s[1..][b]
    {
      assert s[1..][a] == s[a + 1] && s[1..][b] == s[b + 1];
    }
  }

  lemma SliceOfTail<T>(s: seq<T>, i: nat)
    requires 0 < i < |s|
    ensures s[..i] + s[i + 1..] == [s[0]] + (s[1..][..i - 1] + s[1..][i..])
  {
    assert s[1..][..i - 1] == s[1..i];
    assert s[1..][i..] == s[i + 1..];
    assert s[..i] == [s[0]] + s[1..i];
  }

  class ExamManagementController {
    /** The exam list's items and its selection. */
    var examPapers: seq<ExamPaper>
    var selected: Option<ExamPaper>
    /** The exam being edited; null when none. */
    var currentExam: Option<ExamPaper>
    var titleText: string
    var durationText: string
    var currentQuestions: seq<Question>
    /** Title and duration fields, the question buttons and the save button. */
    var detailsEnabled: bool
    var deleteExamEnabled: bool
    var warnings: seq<string>
    /** examService.saveExam and deleteExam calls, in order. */
    var saves: seq<ExamPaper>
    var deletions: seq<string>

    /** initialize: load the list; nothing is selected, so everything but "new exam" is disabled. */
    constructor(listed: Result<seq<ExamPaper>>)
      ensures examPapers == (if listed.Ok? then listed.value else [])
      ensures selected.None? && currentExam.None? && currentQuestions == []
      ensures !detailsEnabled && !deleteExamEnabled
      ensures warnings == [] && saves == [] && deletions == []
    {
      examPapers := [];
      selected := None;
      currentExam := None;
      titleText := "";
      durationText := "";
      currentQuestions := [];
      warnings := [];
      saves := [];
      deletions := [];
      new;
      LoadExamList(listed);
      UpdateControlsState(false);
    }

    /** loadExamList: the store's list replaces the items; a store failure leaves them. */
    method LoadExamList(listed: Result<seq<ExamPaper>>)
      modifies this
      ensures examPapers == (if listed.Ok? then listed.value else old(examPapers))
      ensures selected == old(selected) && currentExam == old(currentExam) && currentQuestions == old(currentQuestions)
      ensures titleText == old(titleText) && durationText == old(durationText)
      ensures detailsEnabled == old(detailsEnabled) && deleteExamEnabled == old(deleteExamEnabled)
      ensures warnings == old(warnings) && saves == old(saves) && deletions == old(deletions)
    {
      if listed.Ok? {
        examPapers := listed.value;
      }
    }

    /** updateControlsState: details follow the flag; "delete exam" follows the list selection. */
    method UpdateControlsState(isExamActive: bool)
      modifies this
      ensures detailsEnabled == isExamActive && deleteExamEnabled == selected.Some?
      ensures examPapers == old(examPapers) && selected == old(selected) && currentExam == old(currentExam)
      ensures currentQuestions == old(currentQuestions) && titleText == old(titleText) && durationText == old(durationText)
      ensures warnings == old(warnings) && saves == old(saves) && deletions == old(deletions)
    {
      detailsEnabled := isExamActive;
      deleteExamEnabled := selected.Some?;
    }

    /** clearDetails: empty fields, no questions, no current exam. */
    method ClearDetails()
      modifies this
      ensures titleText == "" && durationText == "" && currentQuestions == [] && currentExam.None?
      ensures examPapers == old(examPapers) && selected == old(selected)
      ensures detailsEnabled == old(detailsEnabled) && deleteExamEnabled == old(deleteExamEnabled)
      ensures warnings == old(warnings) && saves == old(saves) && deletions == old(deletions)
    {
      titleText := "";
      durationText := "";
      currentQuestions := [];
      currentExam := None;
    }

    /**
     * loadExamDetails: the exam becomes current; its full version fills the
     * fields and the question list.  A missing full version throws (threw);
     * a store failure leaves the fields.
     */
    method LoadExamDetails(exam: Option<ExamPaper>, fetched: Result<Option<ExamPaper>>) returns (threw: bool)
      modifies this
      ensures threw <==> exam.Some? && fetched == Ok(None)
      ensures exam.None? ==> currentExam.None? && titleText == "" && durationText == "" && currentQuestions == []
      ensures exam.Some? ==> currentExam == exam
      ensures exam.Some? && fetched.Ok? && fetched.value.Some? ==>
        titleText == fetched.value.value.title &&
        durationText == IntToString(fetched.value.value.durationMinutes) &&
        currentQuestions == fetched.value.value.questions
      ensures exam.Some? && !(fetched.Ok? && fetched.value.Some?) ==>
        titleText == old(titleText) && durationText == old(durationText) && currentQuestions == old(currentQuestions)
      ensures examPapers == old(examPapers) && selected == old(selected)
      ensures detailsEnabled == old(detailsEnabled) && deleteExamEnabled == old(deleteExamEnabled)
      ensures warnings == old(warnings) && saves == old(saves) && deletions == old(deletions)
    {
      threw := false;
      currentExam := exam;
      if exam.None? {
        ClearDetails();
        return;
      }
      if fetched.Err? {
        return;
      }
      if fetched.value.None? {
        threw := true;
        return;
      }
      var full := fetched.value.value;
      titleText, durationText, currentQuestions := full.title, IntToString(full.durationMinutes), full.questions;
    }

    /** The list selection changes: the listener loads the details, then enables the controls for a selection. */
    method SelectExam(exam: Option<ExamPaper>, fetched: Result<Option<ExamPaper>>)
      modifies this
      ensures selected == exam
      ensures exam.None? ==> currentExam.None? && titleText == "" && durationText == "" && currentQuestions == []
      ensures exam.Some? ==> currentExam == exam
      ensures exam.Some? && fetched.Ok? && fetched.value.Some? ==>
        titleText == fetched.value.value.title &&
        durationText == IntToString(fetched.value.value.durationMinutes) &&
        currentQuestions == fetched.value.value.questions
      ensures !(exam.Some? && fetched == Ok(None)) ==> detailsEnabled == exam.Some? && deleteExamEnabled == exam.Some?
      ensures exam.Some? && fetched == Ok(None) ==>
        detailsEnabled == old(detailsEnabled) && deleteExamEnabled == old(deleteExamEnabled)
      ensures examPapers == old(examPapers)
      ensures warnings == old(warnings) && saves == old(saves) && deletions == old(deletions)
    {
      selected := exam;
      var threw := LoadExamDetails(exam, fetched);
      if !threw {
        UpdateControlsState(exam.Some?);
      }
    }

    /** handleNewExam: no selection, empty details, a fresh unsaved exam, controls enabled. */
    method HandleNewExam(freshId: string)
      modifies this
      ensures selected.None? && currentExam == Some(NewExam(freshId))
      ensures titleText == "" && durationText == "" && currentQuestions == []
      ensures detailsEnabled && !deleteExamEnabled
      ensures examPapers == old(examPapers)
      ensures warnings == old(warnings) && saves == old(saves) && deletions == old(deletions)
    {
      if selected.Some? {
        SelectExam(None, Err);
      }
      selected := None;
      ClearDetails();
      currentExam := Some(NewExam(freshId));
      UpdateControlsState(true);
    }

    /** handleDeleteExam: the selected exam is deleted by id and the list reloaded, unless the delete failed. */
    method HandleDeleteExam(deleteOk: bool, listed: Result<seq<ExamPaper>>)
      modifies this
      ensures selected.None? ==> deletions == old(deletions) && examPapers == old(examPapers)
      ensures selected.Some? ==> deletions == old(deletions) + [selected.value.examId]
      ensures selected.Some? && deleteOk && listed.Ok? ==> examPapers == listed.value
      ensures selected.Some? && !(deleteOk && listed.Ok?) ==> examPapers == old(examPapers)
      ensures selected == old(selected) && currentExam == old(currentExam) && currentQuestions == old(currentQuestions)
      ensures titleText == old(titleText) && durationText == old(durationText)
      ensures detailsEnabled == old(detailsEnabled) && deleteExamEnabled == old(deleteExamEnabled)
      ensures warnings == old(warnings) && saves == old(saves)
    {
      if selected.None? {
        return;
      }
      deletions := deletions + [selected.value.examId];
      if deleteOk {
        LoadExamList(listed);
      }
    }

    /** handleAddQuestion: a fresh question is appended only when its dialog was saved. */
    method HandleAddQuestion(freshId: string, dialog: Option<Form>)
      requires dialog.Some? ==> Validate(dialog.value).None?
      modifies this
      ensures dialog.None? ==> currentQuestions == old(currentQuestions)
      ensures dialog.Some? ==>
        currentQuestions == old(currentQuestions) + [Edited(NewQuestion(freshId), dialog.value)] &&
        currentQuestions[|currentQuestions| - 1].id == freshId
      ensures examPapers == old(examPapers) && selected == old(selected) && currentExam == old(currentExam)
      ensures titleText == old(titleText) && durationText == old(durationText)
      ensures detailsEnabled == old(detailsEnabled) && deleteExamEnabled == old(deleteExamEnabled)
      ensures warnings == old(warnings) && saves == old(saves) && deletions == old(deletions)
    {
      var q := NewQuestion(freshId);
      if dialog.Some? {
        currentQuestions := currentQuestions + [Edited(q, dialog.value)];
      }
    }

    /** handleEditQuestion: the selected question takes the saved dialog's edits; a cancelled dialog changes nothing. */
    method HandleEditQuestion(row: Option<nat>, dialog: Option<Form>)
      requires row.Some? ==> row.value < |currentQuestions|
      requires dialog.Some? ==> Validate(dialog.value).None?
      modifies this
      ensures row.None? || dialog.None? ==> currentQuestions == old(currentQuestions)
      ensures row.Some? && dialog.Some? ==>
        var i := row.value;
        currentQuestions == old(currentQuestions)[i := Edited(old(currentQuestions)[i], dialog.value)] &&
        currentQuestions[i].id == old(currentQuestions)[i].id
      ensures examPapers == old(examPapers) && selected == old(selected) && currentExam == old(currentExam)
      ensures titleText == old(titleText) && durationText == old(durationText)
      ensures detailsEnabled == old(detailsEnabled) && deleteExamEnabled == old(deleteExamEnabled)
      ensures warnings == old(warnings) && saves == old(saves) && deletions == old(deletions)
    {
      if row.None? {
        return;
      }
      var i := row.value;
      if dialog.Some? {
        currentQuestions := currentQuestions[i := Edited(currentQuestions[i], dialog.value)];
      }
    }

    /** handleDeleteQuestion: List.remove drops the first question equal to the selected one. */
    method HandleDeleteQuestion(row: Option<nat>)
      requires row.Some? ==> row.value < |currentQuestions|
      modifies this
      ensures row.None? ==> currentQuestions == old(currentQuestions)
      ensures row.Some? ==> currentQuestions == RemoveFirst(old(currentQuestions), old(currentQuestions)[row.value])
      ensures row.Some? && NoDuplicates(old(currentQuestions)) ==>
        currentQuestions == old(currentQuestions)[..row.value] + old(currentQuestions)[row.value + 1..]
      ensures examPapers == old(examPapers) && selected == old(selected) && currentExam == old(currentExam)
      ensures titleText == old(titleText) && durationText == old(durationText)
      ensures detailsEnabled == old(detailsEnabled) && deleteExamEnabled == old(deleteExamEnabled)
      ensures warnings == old(warnings) && saves == old(saves) && deletions == old(deletions)
    {
      if row.None? {
        return;
      }
      if NoDuplicates(currentQuestions) {
        RemoveSelectedRow(currentQuestions, row.value);
      }
      currentQuestions := RemoveFirst(currentQuestions, currentQuestions[row.value]);
    }

    /**
     * handleSaveExam as written.  An exception leaves the title set on the
     * current exam and nothing saved.
     */
    method HandleSaveExamAsWritten(saveOk: bool, listed: Result<seq<ExamPaper>>)
      modifies this
      ensures var r := SaveExamAsWritten(old(currentExam), old(titleText), old(durationText), old(currentQuestions));
        && (r.NoExam? ==> currentExam == old(currentExam) && warnings == old(warnings) && saves == old(saves))
        && (r.Warned? ==> currentExam == old(currentExam) && warnings == old(warnings) + [DetailText(r.problem)] && saves == old(saves))
        && (r.Thrown? ==> currentExam == Some(r.titled) && warnings == old(warnings) && saves == old(saves))
        && (r.Assembled? ==> currentExam == Some(r.exam) && warnings == old(warnings) && saves == old(saves) + [r.exam])
        && (r.Assembled? && saveOk && listed.Ok? ==> examPapers == listed.value)
        && (!(r.Assembled? && saveOk && listed.Ok?) ==> examPapers == old(examPapers))
      ensures titleText == old(titleText) && durationText == old(durationText) && currentQuestions == old(currentQuestions)
      ensures selected == old(selected) && deletions == old(deletions)
      ensures detailsEnabled == old(detailsEnabled) && deleteExamEnabled == old(deleteExamEnabled)
    {
      if currentExam.None? {
        return;
      }
      var e0 := currentExam.value;
      ghost var r := SaveExamAsWritten(Some(e0), titleText, durationText, currentQuestions);
      var check := CheckDetails(titleText, durationText);
      if check.Some? {
        assert r == Warned(check.value);
        warnings := warnings + [DetailText(check.value)];
        return;
      }
      currentExam := Some(e0.(title := Trim(titleText)));
      var minutes := ParseInt(durationText);
      if minutes.None? {
        // NumberFormatException escapes the handler
        assert r == Thrown(currentExam.value);
        return;
      }
      currentExam := Some(currentExam.value.(durationMinutes := minutes.value, startTime := 0, questions := currentQuestions));
      assert r == Assembled(currentExam.value);
      StoreExam(currentExam.value, saveOk, listed);
    }

    /** The try block after assembling: saveExam, then loadExamList unless the save threw. */
    method StoreExam(exam: ExamPaper, saveOk: bool, listed: Result<seq<ExamPaper>>)
      modifies this
      ensures saves == old(saves) + [exam]
      ensures examPapers == (if saveOk && listed.Ok? then listed.value else old(examPapers))
      ensures selected == old(selected) && currentExam == old(currentExam) && currentQuestions == old(currentQuestions)
      ensures titleText == old(titleText) && durationText == old(durationText)
      ensures detailsEnabled == old(detailsEnabled) && deleteExamEnabled == old(deleteExamEnabled)
      ensures warnings == old(warnings) && deletions == old(deletions)
    {
      saves := saves + [exam];
      if saveOk {
        LoadExamList(listed);
      }
    }

    /** handleSaveExam parsing the trimmed duration: whatever passes validation is saved. */
    method HandleSaveExam(saveOk: bool, listed: Result<seq<ExamPaper>>)
      modifies this
      ensures var r := SaveExam(old(currentExam), old(titleText), old(durationText), old(currentQuestions));
        && (r.NoExam? ==> currentExam == old(currentExam) && warnings == old(warnings) && saves == old(saves))
        && (r.Warned? ==> currentExam == old(currentExam) && warnings == old(warnings) + [DetailText(r.problem)] && saves == old(saves))
        && (r.Assembled? ==> currentExam == Some(r.exam) && warnings == old(warnings) && saves == old(saves) + [r.exam])
        && (r.Assembled? && saveOk && listed.Ok? ==> examPapers == listed.value)
        && (!(r.Assembled? && saveOk && listed.Ok?) ==> examPapers == old(examPapers))
      ensures titleText == old(titleText) && durationText == old(durationText) && currentQuestions == old(currentQuestions)
      ensures selected == old(selected) && deletions == old(deletions)
      ensures detailsEnabled == old(detailsEnabled) && deleteExamEnabled == old(deleteExamEnabled)
    {
      if currentExam.None? {
        return;
      }
      var e0 := currentExam.value;
      ghost var r := SaveExam(Some(e0), titleText, durationText, currentQuestions);
      var check := CheckDetails(titleText, durationText);
      if check.Some? {
        assert r == Warned(check.value);
        warnings := warnings + [DetailText(check.value)];
        return;
      }
      var minutes := ParseInt(Trim(durationText));
      currentExam := Some(e0.(title := Trim(titleText), durationMinutes := minutes.value,
                              startTime := 0, questions := currentQuestions));
      assert r == Assembled(currentExam.value);
      StoreExam(currentExam.value, saveOk, listed);
    }
  }
}
