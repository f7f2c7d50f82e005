/**
 * MainController: the coordinator's exam lifecycle.  An exam is started
 * from WAITING or FINISHED, runs IN_PROGRESS under a countdown, and ends
 * (by the countdown or by stopping the server) in FINISHED, where it can
 * be graded.  Clock readings, the selected item and the stored exam are
 * inputs; the service calls the controller makes are logged in order.
 */
module MainControl {
  import opened Wrappers
  import opened Model
  import opened Submission
  import opened Json
  import opened ExamService
  import opened Countdown
  import opened Grading

  datatype ExamState = Waiting | InProgress | Finished

  /** The calls the controller makes on the services and on its timer, in order. */
  datatype Call =
    | SetActiveExam(examId: string)
    | ClearSubmissions
    | StartExam(examId: string)
    | ArmTimer(endTime: int)
    | CancelTimer
    | StopServer

  /** endExam's effect on the state: only a running exam finishes. */
  function AfterEnd(s: ExamState): (r: ExamState)
    ensures r != InProgress
    ensures s != InProgress ==> r == s
  {
    if s == InProgress then Finished else s
  }

  /** Ending twice is ending once. */
  lemma EndIdempotent(s: ExamState)
    ensures AfterEnd(AfterEnd(s)) == AfterEnd(s)
  {
  }

  /** Why a start request is turned away, in the order the checks run. */
  datatype StartRefusal = NothingSelected | FetchFailed | NoQuestions | AlreadyRunning

  function StartCheck(selected: Option<ExamPaper>, fetched: Result<Option<ExamPaper>>, s: ExamState): (r: Option<StartRefusal>)
    ensures r.None? <==>
      selected.Some? && fetched.Ok? && fetched.value.Some? && |fetched.value.value.questions| > 0 && s != InProgress
    ensures selected.None? ==> r == Some(NothingSelected)
    ensures selected.Some? && fetched.Ok? && fetched.value.Some? && |fetched.value.value.questions| > 0 && s == InProgress ==>
      r == Some(AlreadyRunning)
  {
    if selected.None? then Some(NothingSelected)
    else if fetched.Err? then Some(FetchFailed)
    else if fetched.value.None? || |fetched.value.value.questions| == 0 then Some(NoQuestions)
    else if s == InProgress then Some(AlreadyRunning)
    else None
  }

  /** The dashboard's status caption for each state. */
  function StatusCaption(s: ExamState): string {
    match s
    case Waiting => "等待开始"
    case InProgress => "考试进行中"
    case Finished => "考试已结束"
  }

  /** Each state has its own caption. */
  lemma CaptionsDistinct(a: ExamState, b: ExamState)
    requires a != b
    ensures StatusCaption(a) != StatusCaption(b)
  {
    var ca, cb := StatusCaption(a), StatusCaption(b);
    if |ca| == |cb| {
      assert ca[2] != cb[2] || ca[3] != cb[3];
    }
  }

  /** What updateDashboard shows; None where the label is left as it was. */
  datatype Dashboard = Dashboard(
    online: nat, submitted: nat, gradeEnabled: bool, status: string,
    title: Option<string>, timer: Option<string>)

  const NoTimer: string := "--:--:--"

  class MainController {
    const submissions: SubmissionService
    const exams: ExamServiceImpl
    var state: ExamState
    var activeExam: Option<ExamPaper>
    var timerArmed: bool
    var examEndTime: int
    var timerLabel: string
    var calls: seq<Call>

    /** A timer runs exactly while an exam is in progress, and a started exam is remembered. */
    ghost predicate Valid()
      reads this
    {
      && (timerArmed <==> state == InProgress)
      && (state != Waiting ==> activeExam.Some?)
    }

    /** The constructor and initialize(): waiting, no exam, no timer. */
    constructor(submissions: SubmissionService, exams: ExamServiceImpl)
      ensures Valid()
      ensures this.submissions == submissions && this.exams == exams
      ensures state == Waiting && activeExam.None? && !timerArmed
      ensures timerLabel == NoTimer && calls == []
    {
      this.submissions := submissions;
      this.exams := exams;
      state := Waiting;
      activeExam := None;
      timerArmed := false;
      examEndTime := 0;
      timerLabel := NoTimer;
      calls := [];
    }

    /** updateDashboard, given the registry's size. */
    function View(online: nat): (v: Dashboard)
      reads this, submissions
      ensures v.gradeEnabled <==> state == Finished
      ensures v.online == online && v.submitted == |submissions.submissions|
      ensures v.status == StatusCaption(state)
      ensures state == Waiting ==> v.title == Some("-") && v.timer == Some(NoTimer)
      ensures state != Waiting ==> v.timer.None?
      ensures state == InProgress && activeExam.Some? ==> v.title == Some(activeExam.value.title)
      ensures state == Finished && activeExam.Some? ==> v.title == Some(activeExam.value.title + " (已结束)")
      ensures state != Waiting && activeExam.None? ==> v.title.None?
    {
      var title :=
        match state
        case Waiting => Some("-")
        case InProgress => if activeExam.Some? then Some(activeExam.value.title) else None
        case Finished => if activeExam.Some? then Some(activeExam.value.title + " (已结束)") else None;
      Dashboard(online, submissions.SubmissionCount(), state == Finished, StatusCaption(state),
        title, if state == Waiting then Some(NoTimer) else None)
    }

    /** stopLocalExamTimer: cancels a running timer, if any. */
    method StopLocalExamTimer()
      modifies this
      ensures !timerArmed
      ensures calls == old(calls) + (if old(timerArmed) then [CancelTimer] else [])
      ensures state == old(state) && activeExam == old(activeExam)
      ensures examEndTime == old(examEndTime) && timerLabel == old(timerLabel)
    {
      if timerArmed {
        timerArmed := false;
        calls := calls + [CancelTimer];
      }
    }

    /** startLocalExamTimer: replaces any running timer with one ending durationMinutes from now. */
    method StartLocalExamTimer(durationMinutes: int, now: int)
      modifies this
      ensures timerArmed && examEndTime == EndTime(now, durationMinutes)
      ensures examEndTime - now == durationMinutes * MsPerMinute
      ensures calls == old(calls) + (if old(timerArmed) then [CancelTimer] else []) + [ArmTimer(examEndTime)]
      ensures state == old(state) && activeExam == old(activeExam) && timerLabel == old(timerLabel)
    {
      StopLocalExamTimer();
      examEndTime := now + durationMinutes as int * 60 * 1000;
      timerArmed := true;
      calls := calls + [ArmTimer(examEndTime)];
    }

    /** endExam: the timer always stops; only IN_PROGRESS moves, to FINISHED. */
    method EndExam()
      requires Valid()
      modifies this
      ensures Valid()
      ensures !timerArmed && state == AfterEnd(old(state))
      ensures calls == old(calls) + (if old(timerArmed) then [CancelTimer] else [])
      ensures activeExam == old(activeExam) && examEndTime == old(examEndTime) && timerLabel == old(timerLabel)
    {
      StopLocalExamTimer();
      if state == InProgress {
        state := Finished;
      }
    }

    /**
     * handleStartExam: refused, with nothing changed, when nothing is
     * selected, the stored exam cannot be read, is missing or has no
     * questions, or an exam is in progress.  Otherwise the exam becomes
     * the submission service's active exam, the previous submissions are
     * cleared, the paper is broadcast (only if the server is up), the
     * countdown starts, and the exam is IN_PROGRESS whether or not the
     * broadcast went out.
     */
    method HandleStartExam(selected: Option<ExamPaper>, fetched: Result<Option<ExamPaper>>, now: int)
      requires Valid()
      modifies this, submissions, exams
      ensures Valid()
      ensures StartCheck(selected, fetched, old(state)).Some? ==>
        && state == old(state) && activeExam == old(activeExam) && timerArmed == old(timerArmed)
        && calls == old(calls)
        && submissions.submissions == old(submissions.submissions)
        && submissions.activeExam == old(submissions.activeExam)
        && exams.broadcasts == old(exams.broadcasts)
      ensures StartCheck(selected, fetched, old(state)).None? ==>
        var p := fetched.value.value;
        && state == InProgress && activeExam == Some(p)
        && timerArmed && examEndTime == EndTime(now, p.durationMinutes)
        && calls == old(calls) + [SetActiveExam(p.examId), ClearSubmissions, StartExam(p.examId)]
                   + (if old(timerArmed) then [CancelTimer] else []) + [ArmTimer(examEndTime)]
        && submissions.activeExam == Some(p) && submissions.submissions == map[]
        && submissions.notified == old(submissions.notified) + submissions.listeners
        && exams.broadcasts == old(exams.broadcasts) +
             (if old(exams.running) then [NewMessage(ExamStart, now, ExamPaperDTOToJson(ConvertToDTO(p, now)))] else [])
    {
      if selected.None? {
        return;
      }
      if fetched.Err? {
        return;
      }
      var full := fetched.value;
      if full.None? || |full.value.questions| == 0 {
        return;
      }
      if state == InProgress {
        return;
      }
      var p := full.value;
      submissions.SetActiveExam(Some(p));
      calls := calls + [SetActiveExam(p.examId)];
      submissions.ClearSubmissions();
      calls := calls + [ClearSubmissions];
      exams.StartExam(p, now);
      calls := calls + [StartExam(p.examId)];
      StartLocalExamTimer(p.durationMinutes, now);
      activeExam := Some(p);
      state := InProgress;
    }

    /**
     * One firing of the countdown: a cancelled timer fires no more.  The
     * label shows the remainder while positive; at or below zero it shows
     * "00:00:00" and the exam ends.
     */
    method Tick(now: int)
      requires Valid()
      modifies this
      ensures Valid()
      ensures activeExam == old(activeExam) && examEndTime == old(examEndTime)
      ensures !old(timerArmed) ==> state == old(state) && timerLabel == old(timerLabel) && calls == old(calls)
      ensures old(timerArmed) ==> timerLabel == Display(examEndTime - now)
      ensures old(timerArmed) && examEndTime - now > 0 ==> state == old(state) && timerArmed && calls == old(calls)
      ensures old(timerArmed) && examEndTime - now <= 0 ==>
        state == Finished && !timerArmed && calls == old(calls) + [CancelTimer]
    {
      if !timerArmed {
        return;
      }
      var remaining := examEndTime - now;
      timerLabel := Display(remaining);
      if remaining <= 0 {
        EndExam();
      }
    }

    /** handleStopServer: the exam ends before the server stops. */
    method HandleStopServer()
      requires Valid()
      modifies this, exams
      ensures Valid()
      ensures !timerArmed && state == AfterEnd(old(state)) && !exams.running
      ensures calls == old(calls) + (if old(timerArmed) then [CancelTimer] else []) + [StopServer]
      ensures activeExam == old(activeExam)
      ensures exams.broadcasts == old(exams.broadcasts) && exams.startRequests == old(exams.startRequests)
    {
      EndExam();
      exams.StopServer();
      calls := calls + [StopServer];
    }

    /**
     * handleGradeExam: only a finished exam is graded, against its stored
     * version (an input here); the summary is what the dialog shows.  A
     * failing grading shows nothing.  Grading runs in its corrected,
     * all-or-nothing form; persisted is what the database keeps.
     */
    method HandleGradeExam(fetched: Result<Option<ExamPaper>>, entries: seq<Entry>, commitOk: bool)
      returns (shown: Option<string>, updates: seq<ScoreUpdate>, persisted: seq<ScoreUpdate>)
      ensures activeExam.None? || state != Finished ==> shown.None? && updates == [] && persisted == []
      ensures !(fetched.Ok? && fetched.value.Some?) ==> shown.None? && updates == [] && persisted == []
      ensures shown.Some? ==> state == Finished && activeExam.Some? && fetched.Ok? && fetched.value.Some?
      ensures shown.Some? ==> persisted == updates
      ensures shown.None? ==> persisted == []
      ensures activeExam.Some? && state == Finished && fetched.Ok? && fetched.value.Some? ==>
        var p := fetched.value.value;
        && (!UniqueQuestionIds(p.questions) ==> shown.None? && updates == [])
        && (UniqueQuestionIds(p.questions) && entries == [] ==> shown == Some(NothingToGrade))
        && (UniqueQuestionIds(p.questions) && entries != [] && !AllScorable(QuestionMap(p.questions), entries) ==>
              shown.None? && updates == IssuedBeforeThrow(QuestionMap(p.questions), p.examId, entries))
        && (UniqueQuestionIds(p.questions) && entries != [] && AllScorable(QuestionMap(p.questions), entries) ==>
              && updates == Updates(QuestionMap(p.questions), p.examId, entries)
              && shown == (if commitOk then Some(Summary(|updates|, |entries|)) else None))
    {
      shown, updates, persisted := None, [], [];
      if activeExam.None? || state != Finished {
        return;
      }
      if fetched.Err? || fetched.value.None? {
        return;
      }
      var summary;
      summary, updates, persisted := GradeExam(fetched.value.value, entries, commitOk);
      if summary.Ok? {
        shown := Some(summary.value);
      }
    }
  }
}
