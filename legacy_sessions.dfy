/** service/impl/SessionServiceImpl.java: the older session service. It keeps
    its own table of live connections instead of a separate registry, closes
    and forgets connections in `removeSession`, and wraps every send failure
    in a RuntimeException. */
module LegacySessions {
  import opened Common
  import opened Model
  import opened Transport
  import opened Repository
  import opened SessionOrder

  class SessionServiceImpl {
    const repository: SessionRepository
    var sessions: map<string, Connection>

    constructor (repository: SessionRepository)
      ensures this.repository == repository && sessions == map[]
    {
      this.repository := repository;
      sessions := map[];
    }

    /** The connection registered under `id`, as a frame. */
    function Handle(id: string): set<Connection>
      reads this
    {
      if id in sessions then {sessions[id]} else {}
    }

    /** `createNewSession(request, connection)`: keeps the connection under
        the request's id and stores a fresh record created `now`. */
    method CreateNewSession(request: NewSessionRequest, c: Connection, now: int) returns (s: Session)
      requires repository.Valid()
      modifies this, repository
      ensures repository.Valid()
      ensures s == SessionOf(request, now)
      ensures sessions == old(sessions)[request.id := c]
      ensures repository.records == old(repository.records)[request.id := s]
    {
      sessions := sessions[request.id := c];
      s := repository.Save(SessionOf(request, now));
    }

    /** `getAllSessions()`: every record once, newest first. */
    method GetAllSessions() returns (r: seq<Session>)
      requires repository.Valid()
      ensures Lists(r, repository.records)
      ensures NewestFirst(r)
    {
      var found := repository.FindAll();
      var a := new Session[|found|](i requires 0 <= i < |found| => found[i]);
      assert a[..] == found;
      SortNewestFirst(a);
      r := a[..];
      ListsPermutation(found, r, repository.records);
    }

    /** `removeSession(id)` (and `deleteSession`, which only calls it): closes
        the connection when open, swallowing a failing close, forgets it and
        deletes the record. It never reports a failure. */
    method RemoveSession(id: string, closeFails: bool)
      requires repository.Valid()
      modifies this, repository, Handle(id)
      ensures repository.Valid()
      ensures repository.records == old(repository.records) - {id}
      ensures sessions == old(sessions) - {id}
      ensures id in old(sessions) ==>
                old(sessions[id]).open == (old(sessions[id].open) && closeFails)
                && old(sessions[id]).sent == old(sessions[id].sent)
    {
      if id in sessions {
        var c := sessions[id];
        if c.open {
          var _ := c.Close(closeFails);
        }
        sessions := sessions - {id};
      } else {
        sessions := sessions - {id};
      }
      repository.DeleteById(id);
    }

    /** The loop shared by `deleteAllSessions` and `deleteSessionsByDeviceId`:
        `removeSession` on each listed record. */
    method RemoveEach(list: seq<Session>, closeFails: set<string>)
      requires repository.Valid()
      modifies this, repository, sessions.Values
      ensures repository.Valid()
      ensures repository.records == old(repository.records) - Ids(list)
      ensures sessions == old(sessions) - Ids(list)
      ensures forall id :: id in Ids(list) && id in old(sessions) && id !in closeFails ==> !old(sessions[id]).open
      ensures forall c :: c in old(sessions.Values) ==> c.sent == old(c.sent) && (c.open ==> old(c.open))
      ensures forall c :: c in old(sessions.Values) && c !in Connections(old(sessions), Ids(list)) ==> c.open == old(c.open)
    {
      var i := 0;
      ghost var gone: set<Connection> := {};
      while i < |list|
        invariant 0 <= i <= |list|
        invariant repository.Valid()
        invariant repository.records == old(repository.records) - Ids(list[..i])
        invariant sessions == old(sessions) - Ids(list[..i])
        invariant forall id :: id in Ids(list[..i]) && id in old(sessions) && id !in closeFails ==> !old(sessions[id]).open
        invariant gone == Connections(old(sessions), Ids(list[..i]))
        invariant forall c :: c in old(sessions.Values) ==>
                    c.sent == old(c.sent) && (c.open ==> old(c.open)) && (c !in gone ==> c.open == old(c.open))
      {
        var id := list[i].id;
        assert Handle(id) <= old(sessions.Values);
        label before:
        RemoveSession(id, id in closeFails);
        assert list[..i + 1] == list[..i] + [list[i]];
        IdsAppend(list[..i], list[i]);
        IdsAppendMinus(old(sessions), list[..i], list[i]);
        IdsAppendMinus(old(repository.records), list[..i], list[i]);
        ConnectionsGrow(old(sessions), Ids(list[..i]), id);
        gone := gone + (if id in old(sessions) then {old(sessions)[id]} else {});
        forall c | c in old(sessions.Values)
          ensures c.sent == old(c.sent) && (c.open ==> old(c.open)) && (c !in gone ==> c.open == old(c.open))
        {
          if c !in old@before(Handle(id)) {
            assert c.open == old@before(c.open) && c.sent == old@before(c.sent);
          }
        }
        i := i + 1;
      }
      assert list[..i] == list;
    }

    /** `deleteAllSessions()`: afterwards no record is left. */
    method DeleteAllSessions(closeFails: set<string>)
      requires repository.Valid()
      modifies this, repository, sessions.Values
      ensures repository.Valid() && repository.records == map[]
      ensures sessions == old(sessions) - old(repository.records).Keys
      ensures forall id :: id in old(repository.records) && id in old(sessions) && id !in closeFails ==>
                !old(sessions[id]).open
      ensures forall c :: c in old(sessions.Values) ==> c.sent == old(c.sent)
      ensures forall c :: c in old(sessions.Values) && c !in Connections(old(sessions), old(repository.records).Keys) ==>
                c.open == old(c.open)
    {
      var list := GetAllSessions();
      RemoveEach(list, closeFails);
    }

    /** `deleteSessionsByDeviceId(deviceId)`: afterwards the device has no
        record and every other device keeps its records. */
    method DeleteSessionsByDeviceId(deviceId: string, closeFails: set<string>)
      requires repository.Valid()
      modifies this, repository, sessions.Values
      ensures repository.Valid()
      ensures repository.records == OtherDevices(old(repository.records), deviceId)
      ensures sessions == old(sessions) - OfDevice(old(repository.records), deviceId).Keys
      ensures forall id :: id in OfDevice(old(repository.records), deviceId) && id in old(sessions) && id !in closeFails ==>
                !old(sessions[id]).open
      ensures forall c :: c in old(sessions.Values) ==> c.sent == old(c.sent)
      ensures forall c :: c in old(sessions.Values) && c !in Connections(old(sessions), OfDevice(old(repository.records), deviceId).Keys) ==>
                c.open == old(c.open)
    {
      var list := repository.FindByDeviceId(deviceId);
      RemoveDevice(repository.records, deviceId);
      RemoveEach(list, closeFails);
    }

    /** `updateLastActive(id, time)`: a null time means now; a missing record
        is left alone. */
    method UpdateLastActive(id: string, lastActiveTime: Option<int>, now: int)
      requires repository.Valid()
      modifies repository
      ensures repository.Valid()
      ensures var t := if lastActiveTime.Some? then lastActiveTime.value else now;
              repository.records ==
                if id in old(repository.records)
                then old(repository.records)[id := old(repository.records)[id].(lastActive := Some(t))]
                else old(repository.records)
    {
      var t := if lastActiveTime.Some? then lastActiveTime.value else now;
      var found := repository.FindById(id);
      if found.Some? {
        var _ := repository.Save(found.value.(lastActive := Some(t)));
      }
    }

    /** `getSessionByDeviceId(deviceId)`: some stored record of the device, or
        null exactly when it has none. */
    method GetSessionByDeviceId(deviceId: string) returns (r: Option<Session>)
      requires repository.Valid()
      ensures r.None? <==> OfDevice(repository.records, deviceId) == map[]
      ensures r.Some? ==> r.value.deviceId == deviceId
                          && r.value.id in repository.records
                          && repository.records[r.value.id] == r.value
    {
      var list := repository.FindByDeviceId(deviceId);
      if list == [] {
        assert OfDevice(repository.records, deviceId).Keys == {};
        return None;
      }
      r := Some(list[0]);
    }

    /** What `sendMessageToSession(id, _)` ends with: every failure, a missing
        or closed connection as much as a failed write, is rethrown wrapped
        in a RuntimeException. */
    function SendOutcome(id: string, writeFails: bool): Outcome
      reads this, Handle(id)
    {
      if id !in sessions || !sessions[id].open then Thrown(Runtime(IllegalState))
      else if writeFails then Thrown(Runtime(IOFailure))
      else Done
    }

    /** `sendMessageToSession(id, message)`: sends the text to that connection only. */
    method SendMessageToSession(id: string, message: string, writeFails: bool) returns (r: Outcome)
      modifies Handle(id)
      ensures r == old(SendOutcome(id, writeFails)) == SendOutcome(id, writeFails)
      ensures id in sessions ==> sessions[id].open == old(sessions[id].open)
      ensures id in sessions ==>
                sessions[id].sent == old(sessions[id].sent) + (if r.Done? then [Text(message)] else [])
    {
      if id in sessions && sessions[id].open {
        var sent := sessions[id].SendMessage(Text(message), writeFails);
        r := if sent.Thrown? then Thrown(Runtime(sent.error)) else Done;
      } else {
        r := Thrown(Runtime(IllegalState));
      }
    }
  }
}
