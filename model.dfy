/**
 * The data classes shared by the coordinator and the participant: message
 * kinds, question kinds, participant identity, answers, exam papers in
 * their authoritative and published forms, login responses and results.
 * A Java field that may hold null, where the code tests for null or
 * behaves differently on it, is an Option.
 */
module Model {
  import opened Wrappers

  /** MessageType: the closed set of envelope kinds, in declaration order. */
  datatype MessageType =
    | LoginReq
    | LoginResp
    | ExamWaiting
    | ExamStart
    | ExamEnd
    | AnswerSubmit
    | ResultPub
    | Heartbeat

  /** The constant's name, as Jackson writes an enum. */
  function KindName(k: MessageType): string {
    match k
    case LoginReq => "LOGIN_REQ"
    case LoginResp => "LOGIN_RESP"
    case ExamWaiting => "EXAM_WAITING"
    case ExamStart => "EXAM_START"
    case ExamEnd => "EXAM_END"
    case AnswerSubmit => "ANSWER_SUBMIT"
    case ResultPub => "RESULT_PUB"
    case Heartbeat => "HEARTBEAT"
  }

  function KindOrdinal(k: MessageType): (n: nat)
    ensures n < 8
  {
    match k
    case LoginReq => 0
    case LoginResp => 1
    case ExamWaiting => 2
    case ExamStart => 3
    case ExamEnd => 4
    case AnswerSubmit => 5
    case ResultPub => 6
    case Heartbeat => 7
  }

  /** Enum lookup by name: an unknown name fails. */
  function KindOfName(s: string): (r: Option<MessageType>)
    ensures r.Some? ==> KindName(r.value) == s
    ensures forall k :: KindName(k) == s ==> r == Some(k)
  {
    if s == "LOGIN_REQ" then Some(LoginReq)
    else if s == "LOGIN_RESP" then Some(LoginResp)
    else if s == "EXAM_WAITING" then Some(ExamWaiting)
    else if s == "EXAM_START" then Some(ExamStart)
    else if s == "EXAM_END" then Some(ExamEnd)
    else if s == "ANSWER_SUBMIT" then Some(AnswerSubmit)
    else if s == "RESULT_PUB" then Some(ResultPub)
    else if s == "HEARTBEAT" then Some(Heartbeat)
    else None
  }

  /** Enum lookup by ordinal, which Jackson also accepts for an enum. */
  function KindOfOrdinal(n: int): (r: Option<MessageType>)
    ensures r.Some? <==> 0 <= n < 8
    ensures r.Some? ==> KindOrdinal(r.value) == n
  {
    if n == 0 then Some(LoginReq)
    else if n == 1 then Some(LoginResp)
    else if n == 2 then Some(ExamWaiting)
    else if n == 3 then Some(ExamStart)
    else if n == 4 then Some(ExamEnd)
    else if n == 5 then Some(AnswerSubmit)
    else if n == 6 then Some(ResultPub)
    else if n == 7 then Some(Heartbeat)
    else None
  }

  /** QuestionType. */
  datatype QuestionType = SingleChoice | MultiChoice | Judge | FillIn

  function QuestionTypeName(t: QuestionType): string {
    match t
    case SingleChoice => "SINGLE_CHOICE"
    case MultiChoice => "MULTI_CHOICE"
    case Judge => "JUDGE"
    case FillIn => "FILL_IN"
  }

  /** Student: the participant identity; its JSON property for the flag is "online". */
  datatype Student = Student(id: Option<string>, name: Option<string>, ip: Option<string>, online: bool)

  /** StudentAnswer: one answered question. */
  datatype StudentAnswer = StudentAnswer(questionId: Option<string>, answer: Option<string>)

  /** Question: the authoritative form, carrying the answer key. */
  datatype Question = Question(
    id: string,
    title: string,
    qtype: Option<QuestionType>,
    options: Option<seq<string>>,
    score: Option<int>,
    correctAnswer: Option<string>)

  /** QuestionDTO: the published form; it has no answer-key field at all. */
  datatype QuestionDTO = QuestionDTO(
    id: string,
    examId: Option<string>,
    title: string,
    qtype: Option<QuestionType>,
    options: Option<seq<string>>,
    score: Option<int>)

  /** ExamPaper: the authoritative exam. */
  datatype ExamPaper = ExamPaper(
    examId: string,
    title: string,
    durationMinutes: int,
    startTime: int,
    questions: seq<Question>)

  /** ExamPaperDTO: the exam as broadcast to participants. */
  datatype ExamPaperDTO = ExamPaperDTO(
    examId: string,
    title: string,
    durationMinutes: int,
    startTime: int,
    questions: seq<QuestionDTO>)

  /** LoginResponse. */
  datatype LoginResponse = LoginResponse(success: bool, message: Option<string>)

  /** StudentResult: one row of the results table. */
  datatype StudentResult = StudentResult(studentId: string, studentName: string, totalScore: int)
}
