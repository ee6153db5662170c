/** The records of model/Session.java, model/NewSessionRequest.java and
    model/TimeRequest.java. Times are epoch milliseconds. */
module Model {
  import opened Common

  /** A device session as stored in the repository (a `@RedisHash("session")`
      keyed by `id`, with `deviceId` as a secondary index). `createdAt` is
      always set when a session is created; `lastActive` is null until the
      first transport pong. */
  datatype Session = Session(
    id: string,
    deviceName: string,
    deviceId: string,
    ipAddress: string,
    createdAt: int,
    lastActive: Option<int>)

  /** What the connection layer knows about a new connection. */
  datatype NewSessionRequest = NewSessionRequest(
    id: string,
    deviceId: string,
    deviceName: string,
    ipAddress: string)

  /** The body of the administrator's grant and block requests. */
  datatype TimeRequest = TimeRequest(deviceId: string, seconds: int)

  /** The session a new connection is stored as: the request's identity and
      metadata, created now, never active yet. */
  function SessionOf(request: NewSessionRequest, now: int): (s: Session)
    ensures s.id == request.id && s.deviceId == request.deviceId
    ensures s.deviceName == request.deviceName && s.ipAddress == request.ipAddress
    ensures s.createdAt == now && s.lastActive == None
  {
    Session(request.id, request.deviceName, request.deviceId, request.ipAddress, now, None)
  }
}
