/**
 * ExamServiceImpl: publishing an exam without its answer key, and the
 * guards around the server's start, stop and broadcast.
 */
module ExamService {
  import opened Wrappers
  import opened Model
  import opened Json

  /** The published form of one question: everything but the answer key, and no exam id. */
  function ConvertQuestion(q: Question): (d: QuestionDTO)
    ensures d.id == q.id && d.title == q.title && d.qtype == q.qtype
    ensures d.options == q.options && d.score == q.score
    ensures d.examId.None?
  {
    QuestionDTO(q.id, None, q.title, q.qtype, q.options, q.score)
  }

  /** convertToDTO: the paper's identity and duration, the clock as start time, one question per question in order. */
  function ConvertToDTO(p: ExamPaper, now: int): (d: ExamPaperDTO)
    ensures d.examId == p.examId && d.title == p.title && d.durationMinutes == p.durationMinutes
    ensures d.startTime == now
    ensures |d.questions| == |p.questions|
    ensures forall i :: 0 <= i < |p.questions| ==> d.questions[i] == ConvertQuestion(p.questions[i])
  {
    ExamPaperDTO(p.examId, p.title, p.durationMinutes, now,
      seq(|p.questions|, i requires 0 <= i < |p.questions| => ConvertQuestion(p.questions[i])))
  }

  /** The paper with every answer key removed. */
  function WithoutAnswerKeys(p: ExamPaper): (r: ExamPaper)
    ensures |r.questions| == |p.questions|
    ensures forall i :: 0 <= i < |p.questions| ==> r.questions[i] == p.questions[i].(correctAnswer := None)
  {
    p.(questions := seq(|p.questions|, i requires 0 <= i < |p.questions| => p.questions[i].(correctAnswer := None)))
  }

  /** What is published does not depend on the answer keys at all. */
  lemma PublishedIgnoresAnswerKeys(p: ExamPaper, now: int)
    ensures ConvertToDTO(p, now) == ConvertToDTO(WithoutAnswerKeys(p), now)
  {
    var a, b := ConvertToDTO(p, now), ConvertToDTO(WithoutAnswerKeys(p), now);
    assert a.questions == b.questions;
  }

  /** The state of the coordinator's server as this service sees it. */
  class ExamServiceImpl {
    var running: bool
    /** Ports of the start threads spawned. */
    var startRequests: seq<int>
    /** Messages handed to the server's broadcast. */
    var broadcasts: seq<Envelope>

    constructor()
      ensures !running && startRequests == [] && broadcasts == []
    {
      running := false;
      startRequests := [];
      broadcasts := [];
    }

    /** startServer: only when not running, and only a request: the server binds later, on its own thread. */
    method StartServer(port: int)
      modifies this
      ensures running == old(running) && broadcasts == old(broadcasts)
      ensures startRequests == old(startRequests) + (if old(running) then [] else [port])
    {
      if !running {
        startRequests := startRequests + [port];
      }
    }

    /** The background start completes: TeacherServer.start marks the server running once bound. */
    method BindCompleted()
      modifies this
      ensures running
      ensures startRequests == old(startRequests) && broadcasts == old(broadcasts)
    {
      running := true;
    }

    /** stopServer: only when running. */
    method StopServer()
      modifies this
      ensures !running
      ensures startRequests == old(startRequests) && broadcasts == old(broadcasts)
    {
      if running {
        running := false;
      }
    }

    /** startExam: nothing when the server is down; otherwise exactly one EXAM_START with the published paper. */
    method StartExam(p: ExamPaper, now: int)
      modifies this
      ensures running == old(running) && startRequests == old(startRequests)
      ensures !old(running) ==> broadcasts == old(broadcasts)
      ensures old(running) ==>
        broadcasts == old(broadcasts) + [NewMessage(ExamStart, now, ExamPaperDTOToJson(ConvertToDTO(p, now)))]
    {
      if !running {
        return;
      }
      var dto := ConvertToDTO(p, now);
      broadcasts := broadcasts + [NewMessage(ExamStart, now, ExamPaperDTOToJson(dto))];
    }
  }
}
