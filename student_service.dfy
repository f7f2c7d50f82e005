/**
 * StudentServiceImpl: the participant's session: who is logged in, the
 * exam being taken and its countdown.  The clock and the local address
 * lookup are inputs; what the countdown hands to its tick and finish
 * callbacks is logged in order.
 */
module ParticipantService {
  import opened Wrappers
  import opened Model
  import opened Text
  import opened Countdown
  import opened ReconnectControl

  const Loopback: string := "127.0.0.1"

  /** getLocalIp: the host's address, or the loopback address when the lookup fails (None). */
  function LocalIp(lookup: Option<string>): (ip: string)
    ensures lookup.Some? ==> ip == lookup.value
    ensures lookup.None? ==> ip == Loopback
  {
    match lookup
    case Some(a) => a
    case None => Loopback
  }

  /**
   * What the countdown passes to its callbacks: Shown(ms) is onTick with
   * the remainder ms, whose text is Display(ms); Finished is onFinish.
   */
  datatype TimerOutput = Shown(remaining: int) | Finished

  /**
   * One firing of the participant's countdown: onTick always receives the
   * remainder, and onFinish follows exactly when none is left.
   */
  function TickOutputs(remaining: int): (r: seq<TimerOutput>)
    ensures 1 <= |r| <= 2 && r[0] == Shown(remaining)
    ensures Finished in r <==> remaining <= 0
    ensures remaining <= 0 ==> r[|r| - 1] == Finished
  {
    if remaining <= 0 then [Shown(remaining), Finished] else [Shown(remaining)]
  }

  /**
   * "00:00:00" appears without finishing exactly when less than a second
   * remains: a remainder of at least one second (below 100 hours) never
   * shows as "00:00:00", and one below a second always does.
   */
  lemma HmsNotTimeUp(remaining: nat)
    ensures MsPerSecond <= remaining < 100 * MsPerHour ==> Hms(remaining) != TimeUp
    ensures remaining < MsPerSecond ==> Hms(remaining) == TimeUp
  {
    assert TimeUp[..2] == "00" && TimeUp[3..5] == "00" && TimeUp[6..] == "00" && DigitsValue("00") == 0;
    if remaining < MsPerSecond {
      assert remaining / 3600000 == 0 && (remaining % 3600000) / 60000 == 0 && (remaining % 60000) / 1000 == 0;
      assert Pad2(0) == "00";
    } else if remaining < 100 * MsPerHour {
      HmsReadsBack(remaining);
    }
  }

  class StudentService {
    const client: StudentClient
    var currentStudent: Option<Student>
    var currentExam: Option<ExamPaperDTO>
    var endTime: int
    var timerRunning: bool
    var outputs: seq<TimerOutput>

    constructor(client: StudentClient)
      ensures this.client == client
      ensures currentStudent.None? && currentExam.None? && !timerRunning && outputs == []
    {
      this.client := client;
      currentStudent := None;
      currentExam := None;
      endTime := 0;
      timerRunning := false;
      outputs := [];
    }

    /**
     * login: the session's student is the given id and name at this
     * host's address, online; only then is the connection requested.
     */
    method Login(id: string, name: string, serverIp: string, serverPort: int, lookup: Option<string>) returns (threw: bool)
      requires client.Valid()
      modifies this, client
      ensures client.Valid()
      ensures currentStudent == Some(Student(Some(id), Some(name), Some(LocalIp(lookup)), true))
      ensures currentExam == old(currentExam) && endTime == old(endTime)
      ensures timerRunning == old(timerRunning) && outputs == old(outputs)
      ensures old(client.isShutdown) || old(client.isConnecting) || old(client.channelActive) ==>
        !threw && client.attempts == old(client.attempts)
      ensures !(old(client.isShutdown) || old(client.isConnecting) || old(client.channelActive)) ==>
        && client.isConnecting && (threw <==> !IsPort(serverPort))
        && client.attempts == old(client.attempts) + (if IsPort(serverPort) then [(serverIp, serverPort)] else [])
    {
      currentStudent := Some(Student(Some(id), Some(name), Some(LocalIp(lookup)), true));
      threw := client.Connect(serverIp, serverPort);
    }

    /** setCurrentExam: the exam ends its duration in minutes after now. */
    method SetCurrentExam(exam: ExamPaperDTO, now: int)
      modifies this
      ensures currentExam == Some(exam)
      ensures endTime - now == exam.durationMinutes * MsPerMinute && endTime == EndTime(now, exam.durationMinutes)
      ensures currentStudent == old(currentStudent) && timerRunning == old(timerRunning) && outputs == old(outputs)
    {
      currentExam := Some(exam);
      endTime := now + exam.durationMinutes as int * 60 * 1000;
    }

    /** startExamTimer: any earlier timer is stopped before the new one runs. */
    method StartExamTimer()
      modifies this
      ensures timerRunning
      ensures currentStudent == old(currentStudent) && currentExam == old(currentExam)
      ensures endTime == old(endTime) && outputs == old(outputs)
    {
      StopExamTimer();
      timerRunning := true;
    }

    /** One firing: a stopped timer fires no more; at or past the end time it shows "00:00:00", finishes, then stops. */
    method Tick(now: int)
      modifies this
      ensures currentStudent == old(currentStudent) && currentExam == old(currentExam) && endTime == old(endTime)
      ensures !old(timerRunning) ==> outputs == old(outputs) && !timerRunning
      ensures old(timerRunning) ==> outputs == old(outputs) + TickOutputs(endTime - now)
      ensures old(timerRunning) ==> (timerRunning <==> endTime - now > 0)
    {
      if !timerRunning {
        return;
      }
      var remaining := endTime - now;
      var shown := TickOutputs(remaining);
      outputs := outputs + shown;
      if remaining <= 0 {
        timerRunning := false;
      }
    }

    /** stopExamTimer: afterwards no timer runs, however often it is called. */
    method StopExamTimer()
      modifies this
      ensures !timerRunning
      ensures currentStudent == old(currentStudent) && currentExam == old(currentExam)
      ensures endTime == old(endTime) && outputs == old(outputs)
    {
      if timerRunning {
        timerRunning := false;
      }
    }
  }
}
