/**
 * TeacherBusinessHandler: the coordinator's per-connection message
 * handler.  It admits logins against the registry, routes answer
 * submissions under the registered identity, and drops a connection's
 * registration when it goes away.  Responses and closes are recorded as
 * actions in the order the handler issues them.
 */
module TeacherHandler {
  import opened Wrappers
  import opened Model
  import opened Json
  import opened Framing
  import opened Registry
  import opened Submission

  const InvalidData: string := "Invalid student data provided."
  const AlreadyLoggedIn: string := "This student ID is already logged in."
  const Welcome: string := "Login successful. Welcome!"
  const InternalError: string := "Server internal error during login."

  datatype Action =
    | Respond(ch: ChannelId, response: LoginResponse)
    | Close(ch: ChannelId)

  /** The outcome of a login request, decided in the order handleLoginRequest checks. */
  datatype Verdict = BadBody | InvalidStudent | Duplicate | Admit(student: Student)

  function Admission(reg: map<ChannelId, Student>, body: Json): (v: Verdict)
    ensures v.BadBody? <==> StudentFromJson(body).Err?
    ensures v.InvalidStudent? <==>
      StudentFromJson(body).Ok? &&
      (StudentFromJson(body).value.None? || StudentFromJson(body).value.value.id.None? || StudentFromJson(body).value.value.name.None?)
    ensures v.Duplicate? ==> IdOnline(reg, StudentFromJson(body).value.value.id)
    ensures v.Admit? ==>
      && StudentFromJson(body) == Ok(Some(v.student))
      && v.student.id.Some? && v.student.name.Some?
      && !IdOnline(reg, v.student.id)
  {
    match StudentFromJson(body)
    case Err => BadBody
    case Ok(None) => InvalidStudent
    case Ok(Some(s)) =>
      if s.id.None? || s.name.None? then InvalidStudent
      else if IdOnline(reg, s.id) then Duplicate
      else Admit(s)
  }

  /** The response to a verdict: success keeps the connection; every rejection is written and then closed. */
  function LoginActions(ch: ChannelId, v: Verdict): (r: seq<Action>)
    ensures v.Admit? ==> r == [Respond(ch, LoginResponse(true, Some(Welcome)))]
    ensures !v.Admit? ==> |r| == 2 && r[0].Respond? && !r[0].response.success && r[1] == Close(ch)
  {
    match v
    case Admit(_) => [Respond(ch, LoginResponse(true, Some(Welcome)))]
    case BadBody => [Respond(ch, LoginResponse(false, Some(InternalError))), Close(ch)]
    case InvalidStudent => [Respond(ch, LoginResponse(false, Some(InvalidData))), Close(ch)]
    case Duplicate => [Respond(ch, LoginResponse(false, Some(AlreadyLoggedIn))), Close(ch)]
  }

  /** The registry after a verdict: only an admitted login registers, on its own connection. */
  function AfterLogin(reg: map<ChannelId, Student>, ch: ChannelId, remote: string, v: Verdict): map<ChannelId, Student> {
    if v.Admit? then reg[ch := Registered(v.student, remote)] else reg
  }

  /**
   * Every registered student has an id, and two connections share an id
   * only when it is the empty id (which isStudentIdOnline never reports).
   */
  ghost predicate UniqueIds(reg: map<ChannelId, Student>) {
    && (forall c :: c in reg ==> reg[c].id.Some?)
    && (forall c, d :: c in reg && d in reg && c != d && reg[c].id == reg[d].id ==> reg[c].id == Some(""))
  }

  lemma AdmissionKeepsUniqueIds(reg: map<ChannelId, Student>, ch: ChannelId, remote: string, body: Json)
    requires UniqueIds(reg)
    ensures UniqueIds(AfterLogin(reg, ch, remote, Admission(reg, body)))
  {
    var v := Admission(reg, body);
    if v.Admit? {
      var reg' := reg[ch := Registered(v.student, remote)];
      forall c, d | c in reg' && d in reg' && c != d && reg'[c].id == reg'[d].id
        ensures reg'[c].id == Some("")
      {
        if c == ch || d == ch {
          var other := if c == ch then d else c;
          assert other in reg && reg[other].id == v.student.id;
          if v.student.id != Some("") {
            assert IdOnline(reg, v.student.id);
          }
        }
      }
    }
  }

  /** A well-formed login whose id some connection already holds is turned away. */
  lemma DuplicateIsRejected(reg: map<ChannelId, Student>, c: ChannelId, s: Student)
    requires c in reg && s.id.Some? && s.id.value != "" && s.name.Some? && reg[c].id == s.id
    ensures Admission(reg, StudentToJson(s)) == Duplicate
  {
    StudentRoundTrip(s);
  }

  /** An empty id passes both checks, however many connections already use it. */
  lemma EmptyIdIsAlwaysAdmitted(reg: map<ChannelId, Student>, s: Student)
    requires s.id == Some("") && s.name.Some?
    ensures Admission(reg, StudentToJson(s)) == Admit(s)
  {
    StudentRoundTrip(s);
  }

  /** The data check comes first: a student without an id is invalid even when the registry is full. */
  lemma MissingIdIsInvalid(reg: map<ChannelId, Student>, s: Student)
    requires s.id.None? || s.name.None?
    ensures Admission(reg, StudentToJson(s)) == InvalidStudent
  {
    StudentRoundTrip(s);
  }

  /**
   * Where a submission goes: nowhere from an unregistered connection or
   * with an unreadable body; otherwise to processSubmission under the id
   * the connection registered with.
   */
  function Route(reg: map<ChannelId, Student>, ch: ChannelId, body: Json): (r: Option<(Option<string>, Option<seq<StudentAnswer>>)>)
    ensures ch !in reg ==> r.None?
    ensures r.Some? ==> r.value.0 == reg[ch].id
    ensures ch in reg && AnswersFromJson(body).Ok? ==> r == Some((reg[ch].id, AnswersFromJson(body).value))
  {
    if ch !in reg then None
    else
      match AnswersFromJson(body)
      case Err => None
      case Ok(answers) => Some((reg[ch].id, answers))
  }

  class TeacherBusinessHandler {
    const registry: ClientConnectionManager
    const service: SubmissionService
    var actions: seq<Action>

    constructor(registry: ClientConnectionManager, service: SubmissionService)
      ensures this.registry == registry && this.service == service
      ensures actions == []
    {
      this.registry := registry;
      this.service := service;
      actions := [];
    }

    /** handleLoginRequest. */
    method HandleLoginRequest(ch: ChannelId, remote: string, body: Json)
      modifies this, registry
      ensures registry.onlineStudents ==
        AfterLogin(old(registry.onlineStudents), ch, remote, Admission(old(registry.onlineStudents), body))
      ensures actions == old(actions) + LoginActions(ch, Admission(old(registry.onlineStudents), body))
    {
      var converted := StudentFromJson(body);
      if converted.Err? {
        actions := actions + [Respond(ch, LoginResponse(false, Some(InternalError))), Close(ch)];
        return;
      }
      var info := converted.value;
      if info.None? || info.value.id.None? || info.value.name.None? {
        actions := actions + [Respond(ch, LoginResponse(false, Some(InvalidData))), Close(ch)];
        return;
      }
      var online := registry.IsStudentIdOnline(info.value.id);
      if online {
        actions := actions + [Respond(ch, LoginResponse(false, Some(AlreadyLoggedIn))), Close(ch)];
        return;
      }
      registry.AddStudent(ch, remote, info.value);
      actions := actions + [Respond(ch, LoginResponse(true, Some(Welcome)))];
    }

    /** handleAnswerSubmit. */
    method HandleAnswerSubmit(ch: ChannelId, body: Json, saveOk: bool)
      requires service.Valid()
      modifies service
      ensures service.Valid()
      ensures service.activeExam == old(service.activeExam) && service.listeners == old(service.listeners)
      ensures Route(registry.onlineStudents, ch, body).None? ==>
        && service.submissions == old(service.submissions)
        && service.saves == old(service.saves) && service.notified == old(service.notified)
      ensures Route(registry.onlineStudents, ch, body).Some? ==>
        var (id, answers) := Route(registry.onlineStudents, ch, body).value;
        && (old(service.activeExam).Some? && id.Some? && answers.Some? ==>
              service.saves == old(service.saves) + [SaveCall(old(service.activeExam).value.examId, id.value, answers.value)])
        && (old(service.activeExam).Some? && id.Some? && answers.Some? && saveOk ==>
              && service.submissions == old(service.submissions)[id.value := answers.value]
              && service.notified == old(service.notified) + service.listeners)
        && (old(service.activeExam).None? || id.None? || answers.None? ==>
              service.saves == old(service.saves))
        && (old(service.activeExam).None? || id.None? || answers.None? || !saveOk ==>
              service.submissions == old(service.submissions) && service.notified == old(service.notified))
    {
      var student := registry.GetStudent(ch);
      if student.None? {
        return;
      }
      var answers := AnswersFromJson(body);
      if answers.Err? {
        return;
      }
      service.ProcessSubmission(student.value.id, answers.value, saveOk);
    }

    /**
     * channelRead0: dispatch on the kind.  A null kind makes the switch
     * throw, and exceptionCaught deregisters and closes the connection.
     */
    method ChannelRead(ch: ChannelId, remote: string, msg: Envelope, saveOk: bool)
      requires service.Valid()
      modifies this, registry, service
      ensures service.Valid()
      ensures service.activeExam == old(service.activeExam) && service.listeners == old(service.listeners)
      ensures msg.kind.None? ==>
        registry.onlineStudents == old(registry.onlineStudents) - {ch} && actions == old(actions) + [Close(ch)]
      ensures msg.kind == Some(LoginReq) ==>
        && registry.onlineStudents ==
             AfterLogin(old(registry.onlineStudents), ch, remote, Admission(old(registry.onlineStudents), msg.body))
        && actions == old(actions) + LoginActions(ch, Admission(old(registry.onlineStudents), msg.body))
      ensures msg.kind.Some? && msg.kind != Some(LoginReq) ==>
        registry.onlineStudents == old(registry.onlineStudents) && actions == old(actions)
      ensures msg.kind != Some(AnswerSubmit) ==>
        && service.submissions == old(service.submissions)
        && service.saves == old(service.saves) && service.notified == old(service.notified)
      ensures msg.kind == Some(AnswerSubmit) && Route(old(registry.onlineStudents), ch, msg.body).None? ==>
        && service.submissions == old(service.submissions)
        && service.saves == old(service.saves) && service.notified == old(service.notified)
      ensures msg.kind == Some(AnswerSubmit) && Route(old(registry.onlineStudents), ch, msg.body).Some? ==>
        var (id, answers) := Route(old(registry.onlineStudents), ch, msg.body).value;
        && (old(service.activeExam).Some? && id.Some? && answers.Some? ==>
              service.saves == old(service.saves) + [SaveCall(old(service.activeExam).value.examId, id.value, answers.value)])
        && (old(service.activeExam).Some? && id.Some? && answers.Some? && saveOk ==>
              && service.submissions == old(service.submissions)[id.value := answers.value]
              && service.notified == old(service.notified) + service.listeners)
        && (old(service.activeExam).None? || id.None? || answers.None? ==>
              service.saves == old(service.saves))
        && (old(service.activeExam).None? || id.None? || answers.None? || !saveOk ==>
              service.submissions == old(service.submissions) && service.notified == old(service.notified))
    {
      match msg.kind
      case None => ExceptionCaught(ch);
      case Some(LoginReq) => HandleLoginRequest(ch, remote, msg.body);
      case Some(AnswerSubmit) => HandleAnswerSubmit(ch, msg.body, saveOk);
      case Some(_) =>
    }

    /** channelInactive: the connection's registration goes. */
    method ChannelInactive(ch: ChannelId)
      modifies registry
      ensures registry.onlineStudents == old(registry.onlineStudents) - {ch}
    {
      var _ := registry.RemoveStudent(ch);
    }

    /** exceptionCaught: deregister, then close. */
    method ExceptionCaught(ch: ChannelId)
      modifies this, registry
      ensures registry.onlineStudents == old(registry.onlineStudents) - {ch}
      ensures actions == old(actions) + [Close(ch)]
    {
      var _ := registry.RemoveStudent(ch);
      actions := actions + [Close(ch)];
    }

    /** userEventTriggered: reader idleness closes; everything else is passed on unchanged. */
    method UserEventTriggered(ch: ChannelId, evt: UserEvent)
      modifies this
      ensures actions == old(actions) + (if evt == Idle(ReaderIdle) then [Close(ch)] else [])
    {
      if evt.Idle? && evt.state == ReaderIdle {
        actions := actions + [Close(ch)];
      }
    }
  }

  /** Removing a connection keeps the id invariant. */
  lemma RemovalKeepsUniqueIds(reg: map<ChannelId, Student>, ch: ChannelId)
    requires UniqueIds(reg)
    ensures UniqueIds(reg - {ch})
  {
  }
}
