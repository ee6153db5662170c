/** websocket/interceptor/ConnectInterceptor.java: the check a device's
    connection request passes before the transport upgrade, and, with the
    handler's establishment hook, the rule that a device has one session at
    a time. */
module Handshake {
  import opened Common
  import opened Text
  import opened Model
  import opened Transport
  import opened Repository
  import opened Registry
  import opened Sessions
  import Control

  /** One request header, in the order the request carries them. */
  datatype Header = Header(name: string, value: string)

  /** `getHeaders().getFirst(name)`: the value of the first header whose name
      matches ignoring case, or null. */
  function GetFirst(headers: seq<Header>, name: string): (v: Option<string>)
    ensures v.None? <==> forall i :: 0 <= i < |headers| ==> !EqualsIgnoreCase(headers[i].name, name)
    ensures v.Some? ==> exists i :: 0 <= i < |headers| && EqualsIgnoreCase(headers[i].name, name)
                                    && headers[i].value == v.value
                                    && (forall j :: 0 <= j < i ==> !EqualsIgnoreCase(headers[j].name, name))
  {
    if headers == [] then None
    else if EqualsIgnoreCase(headers[0].name, name) then Some(headers[0].value)
    else
      var rest := GetFirst(headers[1..], name);
      assert forall i :: 1 <= i < |headers| ==> headers[i] == headers[1..][i - 1];
      rest
  }

  /** The three headers a device must send. */
  function DeviceId(headers: seq<Header>): Option<string> { GetFirst(headers, "X-Device-Id") }
  function DeviceName(headers: seq<Header>): Option<string> { GetFirst(headers, "X-Device-Name") }
  function IpAddress(headers: seq<Header>): Option<string> { GetFirst(headers, "X-Real-IP") }

  /** Evicting a device's records and then storing one new record of that
      device leaves exactly that record for the device; other devices keep
      theirs. */
  lemma OneSessionPerDevice(m: map<string, Session>, s: Session)
    ensures OfDevice(OtherDevices(m, s.deviceId)[s.id := s], s.deviceId) == map[s.id := s]
    ensures forall d :: d != s.deviceId ==>
              OfDevice(OtherDevices(m, s.deviceId)[s.id := s], d) == OfDevice(m - {s.id}, d)
  {
    var after := OtherDevices(m, s.deviceId)[s.id := s];
    assert OfDevice(after, s.deviceId).Keys == {s.id};
    forall d | d != s.deviceId
      ensures OfDevice(after, d) == OfDevice(m - {s.id}, d)
    {
      assert OfDevice(after, d).Keys == OfDevice(m - {s.id}, d).Keys;
    }
  }

  class ConnectInterceptor {
    const sessionService: SessionService

    constructor (sessionService: SessionService)
      ensures this.sessionService == sessionService
    {
      this.sessionService := sessionService;
    }

    /** `beforeHandshake`: refuses a request missing any of the three device
        headers, touching nothing; otherwise deletes every session of that
        device and records the three values as connection attributes. */
    method BeforeHandshake(headers: seq<Header>, attributes: Attributes, closeFails: set<string>) returns (accepted: bool)
      requires sessionService.repository.Valid()
      modifies attributes, sessionService.repository, sessionService.manager
      modifies sessionService.manager.sessions.Values
      ensures sessionService.repository.Valid()
      ensures accepted <==> DeviceId(headers).Some? && DeviceName(headers).Some? && IpAddress(headers).Some?
      ensures !accepted ==>
                attributes.entries == old(attributes.entries)
                && sessionService.repository.records == old(sessionService.repository.records)
                && sessionService.manager.sessions == old(sessionService.manager.sessions)
                && (forall c :: c in old(sessionService.manager.sessions.Values) ==> unchanged(c))
      ensures accepted ==>
                var deviceId := DeviceId(headers).value;
                && attributes.entries == old(attributes.entries)["deviceId" := deviceId]
                                           ["deviceName" := DeviceName(headers).value]
                                           ["ipAddress" := IpAddress(headers).value]
                && sessionService.repository.records == OtherDevices(old(sessionService.repository.records), deviceId)
                && sessionService.manager.sessions ==
                     old(sessionService.manager.sessions) - OfDevice(old(sessionService.repository.records), deviceId).Keys
      ensures accepted ==>
                var evicted := OfDevice(old(sessionService.repository.records), DeviceId(headers).value).Keys;
                && (forall id :: id in evicted && id in old(sessionService.manager.sessions) && id !in closeFails ==>
                      !old(sessionService.manager.sessions[id]).open)
                && (forall c :: c in old(sessionService.manager.sessions.Values)
                                && c !in Connections(old(sessionService.manager.sessions), evicted) ==>
                      c.open == old(c.open))
      ensures forall c :: c in old(sessionService.manager.sessions.Values) ==> c.sent == old(c.sent)
    {
      var deviceId := DeviceId(headers);
      var deviceName := DeviceName(headers);
      var ipAddress := IpAddress(headers);
      if deviceId.None? || deviceName.None? || ipAddress.None? {
        return false;
      }
      sessionService.DeleteSessionsByDeviceId(deviceId.value, closeFails);
      attributes.entries := attributes.entries["deviceId" := deviceId.value];
      attributes.entries := attributes.entries["deviceName" := deviceName.value];
      attributes.entries := attributes.entries["ipAddress" := ipAddress.value];
      accepted := true;
    }
  }

  /** The order in which the framework calls the two hooks for a new
      connection: the handshake check with the connection's attribute map,
      then, if it accepted, the handler's establishment hook. An accepted
      device ends with exactly one stored session, the new connection's, and
      that connection is registered. */
  method Connect(interceptor: ConnectInterceptor, handler: Control.ControlHandler, headers: seq<Header>,
                 c: Connection, now: int, closeFails: set<string>) returns (accepted: bool)
    requires interceptor.sessionService == handler.sessionService
    requires interceptor.sessionService.repository.Valid()
    modifies c.attributes, interceptor.sessionService.repository, interceptor.sessionService.manager
    modifies interceptor.sessionService.manager.sessions.Values
    ensures interceptor.sessionService.repository.Valid()
    ensures accepted <==> DeviceId(headers).Some? && DeviceName(headers).Some? && IpAddress(headers).Some?
    ensures !accepted ==>
              interceptor.sessionService.repository.records == old(interceptor.sessionService.repository.records)
    ensures accepted ==>
              var deviceId := DeviceId(headers).value;
              && OfDevice(interceptor.sessionService.repository.records, deviceId).Keys == {c.id}
              && c.id in interceptor.sessionService.manager.sessions
              && interceptor.sessionService.manager.sessions[c.id] == c
  {
    accepted := interceptor.BeforeHandshake(headers, c.attributes, closeFails);
    if accepted {
      handler.AfterConnectionEstablished(c, now);
      var a := c.attributes.entries;
      OneSessionPerDevice(old(interceptor.sessionService.repository.records),
                          SessionOf(NewSessionRequest(c.id, a["deviceId"], a["deviceName"], a["ipAddress"]), now));
    }
  }
}
