/**
 * StudentBusinessHandler: the participant's per-connection handler.  It
 * logs in as soon as the connection is up, keeps the connection alive with
 * heartbeats, reacts to the login verdict and asks the client to reconnect
 * when the connection goes away.  What it writes, closes and shows is
 * recorded as actions in order.
 */
module ParticipantHandler {
  import opened Wrappers
  import opened Model
  import opened Json
  import opened Framing
  import opened ReconnectControl
  import opened ParticipantService

  datatype ClientAction =
    | Send(msg: Envelope)
    | CloseChannel
    | ShowWaitingRoom
    | ShowLoginFailed(text: string)

  /** The alert text of a refused login; Java prints a null message as "null". */
  function LoginFailedText(message: Option<string>): (t: string)
    ensures message.Some? ==> t == "无法登录系统: " + message.value
    ensures message.None? ==> t == "无法登录系统: null"
  {
    "无法登录系统: " + message.GetOr("null")
  }

  /**
   * What a LOGIN_RESP body leads to: a body that does not convert, or a
   * null one, throws and the connection is closed; success shows the
   * waiting room; refusal shows the reason.
   */
  function LoginOutcome(body: Json): (a: ClientAction)
    ensures LoginResponseFromJson(body).Ok? && LoginResponseFromJson(body).value.Some? ==>
      (a == ShowWaitingRoom <==> LoginResponseFromJson(body).value.value.success)
    ensures !(LoginResponseFromJson(body).Ok? && LoginResponseFromJson(body).value.Some?) ==> a == CloseChannel
  {
    match LoginResponseFromJson(body)
    case Ok(Some(r)) => if r.success then ShowWaitingRoom else ShowLoginFailed(LoginFailedText(r.message))
    case _ => CloseChannel
  }

  /** The coordinator's verdict reaches the participant intact. */
  lemma LoginVerdictDelivered(r: LoginResponse)
    ensures r.success ==> LoginOutcome(LoginResponseToJson(r)) == ShowWaitingRoom
    ensures !r.success ==> LoginOutcome(LoginResponseToJson(r)) == ShowLoginFailed(LoginFailedText(r.message))
  {
    LoginResponseRoundTrip(r);
  }

  const Ping: Json := JStr("ping")

  class StudentBusinessHandler {
    const client: StudentClient
    const service: StudentService
    var actions: seq<ClientAction>

    constructor(client: StudentClient, service: StudentService)
      ensures this.client == client && this.service == service && actions == []
    {
      this.client := client;
      this.service := service;
      actions := [];
    }

    /** userEventTriggered: writer idleness sends one heartbeat; nothing else does anything. */
    method UserEventTriggered(evt: UserEvent, now: int)
      modifies this
      ensures actions == old(actions) + (if evt == Idle(WriterIdle) then [Send(NewMessage(Heartbeat, now, Ping))] else [])
    {
      if evt.Idle? {
        if evt.state == WriterIdle {
          actions := actions + [Send(NewMessage(Heartbeat, now, Ping))];
        }
      }
    }

    /** channelActive: log in as the session's student, or close when there is none. */
    method ChannelActive(now: int)
      modifies this
      ensures service.currentStudent.Some? ==>
        actions == old(actions) + [Send(NewMessage(LoginReq, now, StudentToJson(service.currentStudent.value)))]
      ensures service.currentStudent.None? ==> actions == old(actions) + [CloseChannel]
    {
      var current := service.currentStudent;
      if current.Some? {
        actions := actions + [Send(NewMessage(LoginReq, now, StudentToJson(current.value)))];
      } else {
        actions := actions + [CloseChannel];
      }
    }

    /** channelRead0: only LOGIN_RESP is handled; a null kind throws and closes. */
    method ChannelRead(msg: Envelope)
      requires client.Valid()
      modifies this, client
      ensures client.Valid()
      ensures msg.kind.None? ==> actions == old(actions) + [CloseChannel]
      ensures msg.kind == Some(LoginResp) ==> actions == old(actions) + [LoginOutcome(msg.body)]
      ensures msg.kind.Some? && msg.kind != Some(LoginResp) ==> actions == old(actions)
      ensures client.reconnectionDisabled ==
        (old(client.reconnectionDisabled) || (msg.kind == Some(LoginResp) && LoginOutcome(msg.body).ShowLoginFailed?))
      ensures client.isShutdown == old(client.isShutdown) && client.attempts == old(client.attempts)
      ensures client.delays == old(client.delays) && client.retryCount == old(client.retryCount)
    {
      match msg.kind
      case None => ExceptionCaught();
      case Some(LoginResp) => HandleLoginResponse(msg.body);
      case Some(_) =>
    }

    /** handleLoginResponse: a refusal disables reconnection before anything is shown. */
    method HandleLoginResponse(body: Json)
      requires client.Valid()
      modifies this, client
      ensures client.Valid()
      ensures actions == old(actions) + [LoginOutcome(body)]
      ensures client.reconnectionDisabled == (old(client.reconnectionDisabled) || LoginOutcome(body).ShowLoginFailed?)
      ensures client.isShutdown == old(client.isShutdown) && client.attempts == old(client.attempts)
      ensures client.delays == old(client.delays) && client.retryCount == old(client.retryCount)
    {
      var response := LoginResponseFromJson(body);
      if response.Err? || response.value.None? {
        ExceptionCaught();
        return;
      }
      var r := response.value.value;
      if r.success {
        actions := actions + [ShowWaitingRoom];
      } else {
        client.DisableReconnection();
        actions := actions + [ShowLoginFailed(LoginFailedText(r.message))];
      }
    }

    /** channelInactive: the channel is gone and a reconnection is always requested. */
    method ChannelInactive()
      requires client.Valid()
      modifies client
      ensures client.Valid()
      ensures !client.channelActive
      ensures client.isShutdown == old(client.isShutdown) && client.attempts == old(client.attempts)
      ensures old(client.isShutdown) || old(client.isConnecting) || old(client.retryCount) == MaxRetries ==>
        client.delays == old(client.delays) && client.pending == old(client.pending)
      ensures !(old(client.isShutdown) || old(client.isConnecting) || old(client.retryCount) == MaxRetries) ==>
        client.delays == old(client.delays) + [Pow2(old(client.retryCount))] && client.pending == old(client.pending) + 1
    {
      client.ChannelClosed();
      client.ScheduleReconnect();
    }

    /** exceptionCaught: the connection is closed. */
    method ExceptionCaught()
      modifies this
      ensures actions == old(actions) + [CloseChannel]
    {
      actions := actions + [CloseChannel];
    }
  }
}
