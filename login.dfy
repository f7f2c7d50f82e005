/**
 * LoginController: the participant's login screen.  The four fields are
 * trimmed and must all be filled; the port must parse as an int, and its
 * range is not checked.  A valid form saves the configuration and only then
 * logs in.  The saved configuration is an input when the screen opens,
 * and what the screen asks of the configuration store and the session is
 * logged in order.
 */
module Login {
  import opened Wrappers
  import opened Model
  import opened Text
  import opened ReconnectControl
  import opened ParticipantService

  const MissingText: string := "请完整填写所有信息"
  const BadPortText: string := "端口号格式不正确"
  const ConnectingText: string := "正在连接服务器..."

  /** initialize: the last server address, or the loopback address when none was saved. */
  function DefaultIp(lastIp: string): (ip: string)
    ensures lastIp == [] ==> ip == Loopback
    ensures lastIp != [] ==> ip == lastIp
  {
    if lastIp == [] then Loopback else lastIp
  }

  /** The label shown when the screen opens. */
  function LocalIpCaption(lookup: Option<string>): string {
    "您的本机IP: " + LocalIp(lookup)
  }

  /** What handleLogin makes of the four field texts. */
  datatype Verdict =
    | Missing
    | BadPort
    | Ready(id: string, name: string, ip: string, port: int)

  function CheckLogin(id: string, name: string, ip: string, port: string): (v: Verdict)
    ensures v == Missing <==> Trim(id) == [] || Trim(name) == [] || Trim(ip) == [] || Trim(port) == []
    ensures v == BadPort <==>
      Trim(id) != [] && Trim(name) != [] && Trim(ip) != [] && Trim(port) != [] && ParseInt(Trim(port)).None?
    ensures v.Ready? ==>
      v.id == Trim(id) && v.name == Trim(name) && v.ip == Trim(ip) && Some(v.port) == ParseInt(Trim(port))
  {
    var id', name', ip', port' := Trim(id), Trim(name), Trim(ip), Trim(port);
    if id' == [] || name' == [] || ip' == [] || port' == [] then Missing
    else match ParseInt(port')
      case None => BadPort
      case Some(p) => Ready(id', name', ip', p)
  }

  /** Any 32-bit port is accepted, among them 0, negative ports and ports above 65535. */
  lemma PortRangeUnchecked(id: string, name: string, ip: string, port: int)
    requires Trim(id) != [] && Trim(name) != [] && Trim(ip) != [] && InInt32(port)
    ensures CheckLogin(id, name, ip, IntToString(port)) == Ready(Trim(id), Trim(name), Trim(ip), port)
  {
    ParseIntOfIntToString(port);
    TrimOfTrimmed(IntToString(port));
  }

  /** The calls the screen makes on the configuration store and the session. */
  datatype LoginCall =
    | SaveConfig(studentId: string, serverIp: string)
    | LoginAs(studentId: string, name: string, serverIp: string, serverPort: int)

  class LoginController {
    const service: StudentService
    var idText: string
    var nameText: string
    var ipText: string
    var portText: string
    var status: string
    var calls: seq<LoginCall>

    /** initialize: the last id and server address are filled in, and the local address is shown. */
    constructor(service: StudentService, lastStudentId: string, lastServerIp: string, lookup: Option<string>)
      ensures this.service == service
      ensures idText == lastStudentId && ipText == DefaultIp(lastServerIp) && nameText == [] && portText == []
      ensures status == LocalIpCaption(lookup) && calls == []
    {
      this.service := service;
      idText := lastStudentId;
      nameText := [];
      portText := [];
      ipText := DefaultIp(lastServerIp);
      status := LocalIpCaption(lookup);
      calls := [];
    }

    /** The user types into the four fields. */
    method EditFields(id: string, name: string, ip: string, port: string)
      modifies this
      ensures idText == id && nameText == name && ipText == ip && portText == port
      ensures status == old(status) && calls == old(calls)
    {
      idText, nameText, ipText, portText := id, name, ip, port;
    }

    /**
     * handleLogin: a missing field or a bad port only sets the status;
     * otherwise the status says it is connecting, the configuration is
     * saved, and then the session logs in with the trimmed values.
     */
    method HandleLogin(lookup: Option<string>) returns (threw: bool)
      requires service.client.Valid()
      modifies this, service, service.client
      ensures service.client.Valid()
      ensures idText == old(idText) && nameText == old(nameText) && ipText == old(ipText) && portText == old(portText)
      ensures var v := CheckLogin(old(idText), old(nameText), old(ipText), old(portText));
        && (!v.Ready? ==>
              && !threw
              && status == (if v == Missing then MissingText else BadPortText)
              && calls == old(calls)
              && service.currentStudent == old(service.currentStudent)
              && service.client.attempts == old(service.client.attempts))
        && (v.Ready? ==>
              && status == ConnectingText
              && calls == old(calls) + [SaveConfig(v.id, v.ip), LoginAs(v.id, v.name, v.ip, v.port)]
              && service.currentStudent == Some(Student(Some(v.id), Some(v.name), Some(LocalIp(lookup)), true))
              && var refused := old(service.client.isShutdown) || old(service.client.isConnecting) || old(service.client.channelActive);
                 && (threw <==> !refused && !IsPort(v.port))
                 && (threw ==> service.client.isConnecting)
                 && service.client.attempts == old(service.client.attempts) +
                      (if refused || !IsPort(v.port) then [] else [(v.ip, v.port)]))
    {
      threw := false;
      ghost var v := CheckLogin(idText, nameText, ipText, portText);
      var id := Trim(idText);
      var name := Trim(nameText);
      var ip := Trim(ipText);
      var portStr := Trim(portText);
      if id == [] || name == [] || ip == [] || portStr == [] {
        assert v == Missing;
        status := MissingText;
        return;
      }
      var port := ParseInt(portStr);
      if port.None? {
        assert v == BadPort;
        status := BadPortText;
        return;
      }
      assert v == Ready(id, name, ip, port.value);
      status := ConnectingText;
      calls := calls + [SaveConfig(id, ip), LoginAs(id, name, ip, port.value)];
      threw := service.Login(id, name, ip, port.value, lookup);
    }
  }
}
