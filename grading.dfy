/**
 * GradingServiceImpl: all-or-nothing scoring of one answer, and the pass
 * over every ungraded submission that writes the scores back.
 */
module Grading {
  import opened Wrappers
  import opened Model
  import opened Text
  import opened Sorting

  /**
   * When an answer earns the question's score: a key and a non-blank
   * answer exist, and after trimming they are equal ignoring case (single
   * choice, judge, fill-in) or hold the same characters in any order
   * (multiple choice, case-sensitive).  A question without a type earns
   * nothing.
   */
  predicate Correct(q: Question, a: StudentAnswer) {
    && q.correctAnswer.Some? && a.answer.Some? && !IsBlank(a.answer.value)
    && var key, given := Trim(q.correctAnswer.value), Trim(a.answer.value);
       match q.qtype
       case Some(SingleChoice) => EqualsIgnoreCase(key, given)
       case Some(FillIn) => EqualsIgnoreCase(key, given)
       case Some(Judge) => EqualsIgnoreCase(key, given)
       case Some(MultiChoice) => multiset(key) == multiset(given)
       case None => false
  }

  /**
   * calculateScore, as the code computes it (multiple choice compares the
   * two sorted char arrays).  None: the answer matched but the question's
   * score is null, and unboxing it throws.
   */
  function CalculateScore(q: Question, a: StudentAnswer): (r: Option<int>)
    ensures !Correct(q, a) ==> r == Some(0)
    ensures Correct(q, a) ==> r == q.score
    ensures r.Some? ==> r.value == 0 || r == q.score
  {
    if q.correctAnswer.None? || a.answer.None? || IsBlank(a.answer.value) then Some(0)
    else
      var key := Trim(q.correctAnswer.value);
      var given := Trim(a.answer.value);
      match q.qtype
      case Some(SingleChoice) => if EqualsIgnoreCase(key, given) then q.score else Some(0)
      case Some(FillIn) => if EqualsIgnoreCase(key, given) then q.score else Some(0)
      case Some(Judge) => if EqualsIgnoreCase(key, given) then q.score else Some(0)
      case Some(MultiChoice) =>
        CharLeIsTotal();
        SortEqualIffPermutation(key, given, CharLe);
        if Sort(key, CharLe) == Sort(given, CharLe) then q.score else Some(0)
      case None => Some(0)
  }

  /** Multiple choice does not depend on the order the letters were given in. */
  lemma MultiChoiceOrderFree(q: Question, a: StudentAnswer, b: StudentAnswer)
    requires q.qtype == Some(MultiChoice)
    requires a.answer.Some? && b.answer.Some?
    requires multiset(Trim(a.answer.value)) == multiset(Trim(b.answer.value))
    ensures CalculateScore(q, a) == CalculateScore(q, b)
  {
  }

  /** Surrounding blanks on either side never change a score. */
  lemma ScoreIgnoresPadding(q: Question, a: StudentAnswer, pad: string)
    requires a.answer.Some?
    requires forall i :: 0 <= i < |pad| ==> IsTrimmable(pad[i])
    ensures CalculateScore(q, a.(answer := Some(pad + a.answer.value + pad))) == CalculateScore(q, a)
  {
    TrimPadded(a.answer.value, pad);
  }

  lemma TrimPadded(s: string, pad: string)
    requires forall i :: 0 <= i < |pad| ==> IsTrimmable(pad[i])
    ensures Trim(pad + s + pad) == Trim(s)
  {
    TrimStartPadded(s + pad, pad);
    assert pad + s + pad == pad + (s + pad);
    TrimStartOfAppend(s, pad);
    TrimEndPadded(TrimStart(s), pad);
  }

  lemma {:induction false} TrimStartPadded(s: string, pad: string)
    requires forall i :: 0 <= i < |pad| ==> IsTrimmable(pad[i])
    ensures TrimStart(pad + s) == TrimStart(s)
  {
    if pad != [] {
      assert (pad + s)[1..] == pad[1..] + s;
      TrimStartPadded(s, pad[1..]);
    } else {
      assert pad + s == s;
    }
  }

  /** Trailing blanks survive TrimStart unless all of s is blank. */
  lemma {:induction false} TrimStartOfAppend(s: string, pad: string)
    requires forall i :: 0 <= i < |pad| ==> IsTrimmable(pad[i])
    ensures TrimStart(s + pad) == TrimStart(s) + pad || (TrimStart(s) == [] && TrimStart(s + pad) == [])
  {
    if s == [] {
      assert s + pad == pad;
      TrimStartPadded([], pad);
      assert pad + [] == pad;
    } else if IsTrimmable(s[0]) {
      assert (s + pad)[1..] == s[1..] + pad;
      TrimStartOfAppend(s[1..], pad);
    }
  }

  lemma {:induction false} TrimEndPadded(s: string, pad: string)
    requires forall i :: 0 <= i < |pad| ==> IsTrimmable(pad[i])
    ensures TrimEnd(s + pad) == TrimEnd(s)
  {
    if pad != [] {
      var p := pad[..|pad| - 1];
      assert (s + pad)[..|s + pad| - 1] == s + p;
      TrimEndPadded(s, p);
    } else {
      assert s + pad == s;
    }
  }

  // ---------------------------------------------------------- gradeExam

  predicate UniqueQuestionIds(qs: seq<Question>) {
    forall i, j :: 0 <= i < j < |qs| ==> qs[i].id != qs[j].id
  }

  /** The lookup map toMap(Question::getId) builds when the ids are distinct. */
  function QuestionMap(qs: seq<Question>): (m: map<string, Question>)
    ensures forall id :: id in m <==> exists i :: 0 <= i < |qs| && qs[i].id == id
    ensures forall id :: id in m ==> m[id].id == id
    ensures UniqueQuestionIds(qs) ==> forall i :: 0 <= i < |qs| ==> m[qs[i].id] == qs[i]
  {
    if qs == [] then map[]
    else
      var m := QuestionMap(qs[1..]);
      var r := m[qs[0].id := qs[0]];
      assert forall id :: id in r <==> exists i :: 0 <= i < |qs| && qs[i].id == id by {
        forall id | id in r ensures exists i :: 0 <= i < |qs| && qs[i].id == id {
          if id != qs[0].id {
            var k :| 0 <= k < |qs[1..]| && qs[1..][k].id == id;
            assert qs[k + 1].id == id;
          }
        }
        forall id | exists i :: 0 <= i < |qs| && qs[i].id == id ensures id in r {
          var i :| 0 <= i < |qs| && qs[i].id == id;
          if i > 0 {
            assert qs[1..][i - 1].id == id;
          }
        }
      }
      assert UniqueQuestionIds(qs) ==> forall i :: 0 <= i < |qs| ==> r[qs[i].id] == qs[i] by {
        if UniqueQuestionIds(qs) {
          forall i | 0 <= i < |qs| ensures r[qs[i].id] == qs[i] {
            if i > 0 {
              assert qs[1..][i - 1] == qs[i];
            }
          }
        }
      }
      r
  }

  /** One answerDAO.updateScore call. */
  datatype ScoreUpdate = ScoreUpdate(score: int, examId: string, studentId: string, questionId: string)

  /** One ungraded submission as the answer table returns it. */
  datatype Entry = Entry(studentId: string, answers: seq<StudentAnswer>)

  /** The answer refers to a question of the exam. */
  predicate Known(qmap: map<string, Question>, a: StudentAnswer) {
    a.questionId.Some? && a.questionId.value in qmap
  }

  /** A known answer that matches a question whose score is null: awarding it throws. */
  predicate Throws(qmap: map<string, Question>, a: StudentAnswer) {
    Known(qmap, a) && CalculateScore(qmap[a.questionId.value], a).None?
  }

  /** Every known answer that matches has a score to award. */
  predicate Scorable(qmap: map<string, Question>, answers: seq<StudentAnswer>) {
    forall k :: 0 <= k < |answers| ==> !Throws(qmap, answers[k])
  }

  predicate AllScorable(qmap: map<string, Question>, entries: seq<Entry>) {
    forall i :: 0 <= i < |entries| ==> Scorable(qmap, entries[i].answers)
  }

  /** The updates for one student's answers: unknown questions are skipped. */
  function AnswerUpdates(qmap: map<string, Question>, examId: string, studentId: string, answers: seq<StudentAnswer>): (r: seq<ScoreUpdate>)
    requires Scorable(qmap, answers)
    ensures |r| <= |answers|
    ensures forall u :: u in r ==> u.examId == examId && u.studentId == studentId
    decreases |answers|
  {
    if answers == [] then []
    else
      var a := answers[|answers| - 1];
      var init := answers[..|answers| - 1];
      assert Scorable(qmap, init) by {
        forall k | 0 <= k < |init| && Known(qmap, init[k])
          ensures CalculateScore(qmap[init[k].questionId.value], init[k]).Some?
        {
          assert init[k] == answers[k];
        }
      }
      var before := AnswerUpdates(qmap, examId, studentId, init);
      if !Known(qmap, a) then before
      else
        var q := qmap[a.questionId.value];
        before + [ScoreUpdate(CalculateScore(q, a).value, examId, studentId, q.id)]
  }

  /** The updates for the entries in order. */
  function Updates(qmap: map<string, Question>, examId: string, entries: seq<Entry>): (r: seq<ScoreUpdate>)
    requires AllScorable(qmap, entries)
    decreases |entries|
  {
    if entries == [] then []
    else
      var init := entries[..|entries| - 1];
      var e := entries[|entries| - 1];
      assert AllScorable(qmap, init) by {
        forall i | 0 <= i < |init| ensures Scorable(qmap, init[i].answers) {
          assert init[i] == entries[i];
        }
      }
      Updates(qmap, examId, init) + AnswerUpdates(qmap, examId, e.studentId, e.answers)
  }

  /** The number of answers that refer to a question of the exam. */
  function KnownCount(qmap: map<string, Question>, answers: seq<StudentAnswer>): (n: nat)
    ensures n <= |answers|
  {
    if answers == [] then 0
    else KnownCount(qmap, answers[..|answers| - 1]) + (if Known(qmap, answers[|answers| - 1]) then 1 else 0)
  }

  lemma {:induction false} AnswerUpdatesCount(qmap: map<string, Question>, examId: string, studentId: string, answers: seq<StudentAnswer>)
    requires Scorable(qmap, answers)
    ensures |AnswerUpdates(qmap, examId, studentId, answers)| == KnownCount(qmap, answers)
    decreases |answers|
  {
    if answers != [] {
      var init := answers[..|answers| - 1];
      assert Scorable(qmap, init) by {
        forall k | 0 <= k < |init| && Known(qmap, init[k])
          ensures CalculateScore(qmap[init[k].questionId.value], init[k]).Some?
        {
          assert init[k] == answers[k];
        }
      }
      AnswerUpdatesCount(qmap, examId, studentId, init);
    }
  }

  const NothingToGrade: string := "No new submissions to grade."

  /** "Grading complete. Graded %d answers for %d students." */
  function Summary(answersGraded: int, studentsGraded: int): string {
    "Grading complete. Graded " + IntToString(answersGraded) + " answers for " + IntToString(studentsGraded) + " students."
  }

  /** Where the inner loop of gradeExam throws: the first answer that Throws, or |answers|. */
  function FirstThrow(qmap: map<string, Question>, answers: seq<StudentAnswer>): (k: nat)
    ensures k <= |answers|
    ensures Scorable(qmap, answers[..k])
    ensures k < |answers| ==> Throws(qmap, answers[k])
    decreases |answers|
  {
    if answers == [] then 0
    else if Throws(qmap, answers[0]) then 0
    else
      var k := FirstThrow(qmap, answers[1..]);
      assert Scorable(qmap, answers[..k + 1]) by {
        var pre := answers[..k + 1];
        forall m | 0 <= m < k + 1 ensures !Throws(qmap, pre[m]) {
          if m > 0 {
            assert pre[m] == answers[1..][..k][m - 1];
          }
        }
      }
      k + 1
  }

  /** A position of a throwing answer with only scorable answers before it is FirstThrow. */
  lemma FirstThrowAt(qmap: map<string, Question>, answers: seq<StudentAnswer>, j: nat)
    requires j < |answers| && Scorable(qmap, answers[..j]) && Throws(qmap, answers[j])
    ensures FirstThrow(qmap, answers) == j
  {
    var k := FirstThrow(qmap, answers);
    assert forall m :: 0 <= m < j ==> answers[..j][m] == answers[m];
    assert forall m :: 0 <= m < k ==> answers[..k][m] == answers[m];
  }

  /** Where the outer loop of gradeExam throws: the first entry that is not Scorable, or |entries|. */
  function FirstFailing(qmap: map<string, Question>, entries: seq<Entry>): (i: nat)
    ensures i <= |entries|
    ensures AllScorable(qmap, entries[..i])
    ensures i < |entries| ==> !Scorable(qmap, entries[i].answers)
    decreases |entries|
  {
    if entries == [] then 0
    else if !Scorable(qmap, entries[0].answers) then 0
    else
      var i := FirstFailing(qmap, entries[1..]);
      assert AllScorable(qmap, entries[..i + 1]) by {
        var pre := entries[..i + 1];
        forall m | 0 <= m < i + 1 ensures Scorable(qmap, pre[m].answers) {
          if m > 0 {
            assert pre[m] == entries[1..][..i][m - 1];
          }
        }
      }
      i + 1
  }

  lemma FirstFailingAt(qmap: map<string, Question>, entries: seq<Entry>, i: nat)
    requires i < |entries| && AllScorable(qmap, entries[..i]) && !Scorable(qmap, entries[i].answers)
    ensures FirstFailing(qmap, entries) == i
  {
    var k := FirstFailing(qmap, entries);
    assert forall m :: 0 <= m < i ==> entries[..i][m] == entries[m];
    assert forall m :: 0 <= m < k ==> entries[..k][m] == entries[m];
  }

  /** A batch with a throwing answer has a first failing entry. */
  lemma FirstFailingExists(qmap: map<string, Question>, entries: seq<Entry>)
    requires !AllScorable(qmap, entries)
    ensures FirstFailing(qmap, entries) < |entries|
  {
    assert entries[..|entries|] == entries;
  }

  /**
   * The updateScore calls gradeExam has issued when an answer throws:
   * every update of the entries before the failing one, then those of the
   * failing entry's answers before the throwing answer.
   */
  function IssuedBeforeThrow(qmap: map<string, Question>, examId: string, entries: seq<Entry>): (r: seq<ScoreUpdate>)
    requires !AllScorable(qmap, entries)
    ensures forall u :: u in r ==> u.examId == examId
  {
    FirstFailingExists(qmap, entries);
    var i := FirstFailing(qmap, entries);
    var e := entries[i];
    UpdatesExam(qmap, examId, entries[..i]);
    Updates(qmap, examId, entries[..i]) + AnswerUpdates(qmap, examId, e.studentId, e.answers[..FirstThrow(qmap, e.answers)])
  }

  lemma {:induction false} UpdatesExam(qmap: map<string, Question>, examId: string, entries: seq<Entry>)
    requires AllScorable(qmap, entries)
    ensures forall u :: u in Updates(qmap, examId, entries) ==> u.examId == examId
    decreases |entries|
  {
    if entries != [] {
      var init := entries[..|entries| - 1];
      assert AllScorable(qmap, init) by {
        forall i | 0 <= i < |init| ensures Scorable(qmap, init[i].answers) {
          assert init[i] == entries[i];
        }
      }
      UpdatesExam(qmap, examId, init);
    }
  }

  /**
   * gradeExam as written, over the ungraded submissions (in the answer
   * table's iteration order), on one connection with auto-commit off.
   * Duplicate question ids make building the lookup throw before any
   * write.  A matched answer to a question without a score throws a
   * NullPointerException, which the SQLException handler does not roll
   * back, so the finally block's setAutoCommit(true) commits every score
   * already written (persisted).  A failing commit rolls everything back.
   * Otherwise every known answer is scored and written back, every
   * student counts, and the summary reports both.
   */
  method GradeExamAsWritten(exam: ExamPaper, entries: seq<Entry>, commitOk: bool)
    returns (summary: Result<string>, updates: seq<ScoreUpdate>, persisted: seq<ScoreUpdate>)
    ensures !UniqueQuestionIds(exam.questions) ==> summary.Err? && updates == [] && persisted == []
    ensures UniqueQuestionIds(exam.questions) && entries == [] ==>
      summary == Ok(NothingToGrade) && updates == [] && persisted == []
    ensures UniqueQuestionIds(exam.questions) && entries != [] && !AllScorable(QuestionMap(exam.questions), entries) ==>
      && summary.Err?
      && updates == IssuedBeforeThrow(QuestionMap(exam.questions), exam.examId, entries)
      && persisted == updates
    ensures UniqueQuestionIds(exam.questions) && entries != [] && AllScorable(QuestionMap(exam.questions), entries) ==>
      && updates == Updates(QuestionMap(exam.questions), exam.examId, entries)
      && (commitOk ==> summary == Ok(Summary(|updates|, |entries|)) && persisted == updates)
      && (!commitOk ==> summary.Err? && persisted == [])
  {
    var unique := UniqueIds(exam.questions);
    if !unique {
      return Err, [], [];
    }
    var qmap := QuestionMap(exam.questions);
    if entries == [] {
      return Ok(NothingToGrade), [], [];
    }
    updates := [];
    var studentsGraded := 0;
    var answersGraded := 0;
    var i := 0;
    while i < |entries|
      invariant 0 <= i <= |entries|
      invariant AllScorable(qmap, entries[..i])
      invariant updates == Updates(qmap, exam.examId, entries[..i])
      invariant studentsGraded == i && answersGraded == |updates|
    {
      var ok, graded := GradeStudent(qmap, exam.examId, entries[i]);
      if !ok {
        NotAllScorable(qmap, entries, i);
        FirstFailingAt(qmap, entries, i);
        updates := updates + graded;
        return Err, updates, updates;
      }
      UpdatesSnoc(qmap, exam.examId, entries, i);
      updates := updates + graded;
      answersGraded := answersGraded + |graded|;
      studentsGraded := studentsGraded + 1;
      i := i + 1;
    }
    assert entries[..i] == entries;
    if !commitOk {
      return Err, updates, [];
    }
    summary := Ok(Summary(answersGraded, studentsGraded));
    persisted := updates;
  }

  /**
   * gradeExam with the transaction the code intends: any failure inside
   * it rolls back, so the database keeps either every update or none.
   */
  method GradeExam(exam: ExamPaper, entries: seq<Entry>, commitOk: bool)
    returns (summary: Result<string>, updates: seq<ScoreUpdate>, persisted: seq<ScoreUpdate>)
    ensures summary.Ok? ==> persisted == updates
    ensures summary.Err? ==> persisted == []
    ensures !UniqueQuestionIds(exam.questions) ==> summary.Err? && updates == []
    ensures UniqueQuestionIds(exam.questions) && entries == [] ==> summary == Ok(NothingToGrade) && updates == []
    ensures UniqueQuestionIds(exam.questions) && entries != [] && !AllScorable(QuestionMap(exam.questions), entries) ==>
      summary.Err? && updates == IssuedBeforeThrow(QuestionMap(exam.questions), exam.examId, entries)
    ensures UniqueQuestionIds(exam.questions) && entries != [] && AllScorable(QuestionMap(exam.questions), entries) ==>
      && updates == Updates(QuestionMap(exam.questions), exam.examId, entries)
      && (commitOk ==> summary == Ok(Summary(|updates|, |entries|)))
      && (!commitOk ==> summary.Err?)
  {
    summary, updates, persisted := GradeExamAsWritten(exam, entries, commitOk);
    if summary.Err? {
      persisted := [];
    }
  }

  /**
   * Two questions keyed "A", the second without a score, and one student
   * answering "A" to both: the batch fails, yet the first score has been
   * written and stays.
   */
  lemma UngradableAnswerCommitsPrefix()
    ensures var q1 := Question("q1", "", Some(SingleChoice), None, Some(5), Some("A"));
      var q2 := Question("q2", "", Some(SingleChoice), None, None, Some("A"));
      var qmap := QuestionMap([q1, q2]);
      var entries := [Entry("s1", [StudentAnswer(Some("q1"), Some("A")), StudentAnswer(Some("q2"), Some("A"))])];
      && UniqueQuestionIds([q1, q2]) && !AllScorable(qmap, entries)
      && IssuedBeforeThrow(qmap, "e1", entries) == [ScoreUpdate(5, "e1", "s1", "q1")]
  {
    var q1 := Question("q1", "", Some(SingleChoice), None, Some(5), Some("A"));
    var q2 := Question("q2", "", Some(SingleChoice), None, None, Some("A"));
    var qmap := QuestionMap([q1, q2]);
    var a1, a2 := StudentAnswer(Some("q1"), Some("A")), StudentAnswer(Some("q2"), Some("A"));
    var entries := [Entry("s1", [a1, a2])];
    assert [q1, q2][0] == q1 && [q1, q2][1] == q2;
    assert qmap["q1"] == q1 && qmap["q2"] == q2;
    assert TrimOfTrimmedA: Trim("A") == "A" by {
      TrimOfTrimmed("A");
    }
    assert CalculateScore(q1, a1) == Some(5);
    assert Throws(qmap, a2);
    assert !Throws(qmap, a1);
    assert [a1, a2][..1] == [a1];
    FirstThrowAt(qmap, [a1, a2], 1);
    assert !Scorable(qmap, entries[0].answers);
    assert entries[..0] == [];
    FirstFailingAt(qmap, entries, 0);
    assert [a1][..0] == [];
  }

  /** The inner loop of gradeExam for one student; false where the score unboxing throws. */
  method GradeStudent(qmap: map<string, Question>, examId: string, e: Entry)
    returns (ok: bool, updates: seq<ScoreUpdate>)
    ensures ok <==> Scorable(qmap, e.answers)
    ensures ok ==> updates == AnswerUpdates(qmap, examId, e.studentId, e.answers)
    ensures !ok ==> updates == AnswerUpdates(qmap, examId, e.studentId, e.answers[..FirstThrow(qmap, e.answers)])
  {
    updates := [];
    var j := 0;
    while j < |e.answers|
      invariant 0 <= j <= |e.answers|
      invariant Scorable(qmap, e.answers[..j])
      invariant updates == AnswerUpdates(qmap, examId, e.studentId, e.answers[..j])
    {
      var a := e.answers[j];
      assert e.answers[..j + 1][..j] == e.answers[..j];
      if Known(qmap, a) {
        var q := qmap[a.questionId.value];
        var score := CalculateScore(q, a);
        if score.None? {
          FirstThrowAt(qmap, e.answers, j);
          return false, updates;
        }
        updates := updates + [ScoreUpdate(score.value, examId, e.studentId, q.id)];
      }
      ScorableSnoc(qmap, e.answers, j);
      j := j + 1;
    }
    assert e.answers[..j] == e.answers;
    return true, updates;
  }

  lemma ScorableSnoc(qmap: map<string, Question>, answers: seq<StudentAnswer>, j: nat)
    requires j < |answers| && Scorable(qmap, answers[..j])
    requires Known(qmap, answers[j]) ==> CalculateScore(qmap[answers[j].questionId.value], answers[j]).Some?
    ensures Scorable(qmap, answers[..j + 1])
  {
    var pre := answers[..j + 1];
    forall k | 0 <= k < j + 1 && Known(qmap, pre[k])
      ensures CalculateScore(qmap[pre[k].questionId.value], pre[k]).Some?
    {
      if k < j {
        assert pre[k] == answers[..j][k];
      }
    }
  }

  lemma UpdatesSnoc(qmap: map<string, Question>, examId: string, entries: seq<Entry>, i: nat)
    requires i < |entries| && AllScorable(qmap, entries[..i]) && Scorable(qmap, entries[i].answers)
    ensures AllScorable(qmap, entries[..i + 1])
    ensures Updates(qmap, examId, entries[..i + 1]) ==
      Updates(qmap, examId, entries[..i]) + AnswerUpdates(qmap, examId, entries[i].studentId, entries[i].answers)
  {
    assert entries[..i + 1][..i] == entries[..i];
    var pre := entries[..i + 1];
    forall k | 0 <= k < i + 1 ensures Scorable(qmap, pre[k].answers) {
      if k < i {
        assert pre[k] == entries[..i][k];
      }
    }
  }

  lemma NotAllScorable(qmap: map<string, Question>, entries: seq<Entry>, i: nat)
    requires i < |entries| && !Scorable(qmap, entries[i].answers)
    ensures !AllScorable(qmap, entries)
  {
  }

  /** The check the toMap collector makes. */
  method UniqueIds(qs: seq<Question>) returns (b: bool)
    ensures b == UniqueQuestionIds(qs)
  {
    var i := 0;
    while i < |qs|
      invariant 0 <= i <= |qs|
      invariant forall k, l :: 0 <= k < l < i ==> qs[k].id != qs[l].id
    {
      var j := 0;
      while j < i
        invariant 0 <= j <= i
        invariant forall k :: 0 <= k < j ==> qs[k].id != qs[i].id
      {
        if qs[j].id == qs[i].id {
          return false;
        }
        j := j + 1;
      }
      i := i + 1;
    }
    return true;
  }

  /** Answers to questions the exam does not have are not counted; each student is. */
  lemma {:induction false} UpdatesCount(qmap: map<string, Question>, examId: string, entries: seq<Entry>)
    requires AllScorable(qmap, entries)
    ensures |Updates(qmap, examId, entries)| == TotalKnown(qmap, entries)
    decreases |entries|
  {
    if entries != [] {
      var init := entries[..|entries| - 1];
      var e := entries[|entries| - 1];
      assert AllScorable(qmap, init) by {
        forall i | 0 <= i < |init| ensures Scorable(qmap, init[i].answers) {
          assert init[i] == entries[i];
        }
      }
      UpdatesCount(qmap, examId, init);
      AnswerUpdatesCount(qmap, examId, e.studentId, e.answers);
    }
  }

  function TotalKnown(qmap: map<string, Question>, entries: seq<Entry>): (n: nat)
    ensures n <= TotalAnswers(entries)
  {
    if entries == [] then 0
    else TotalKnown(qmap, entries[..|entries| - 1]) + KnownCount(qmap, entries[|entries| - 1].answers)
  }

  function TotalAnswers(entries: seq<Entry>): nat {
    if entries == [] then 0
    else TotalAnswers(entries[..|entries| - 1]) + |entries[|entries| - 1].answers|
  }
}
