/** service/SessionService.java: keeps the repository of session records and
    the registry of live connections in step. Whether closing a connection
    fails is given per session id (`closeFails`), whether a write fails by a
    flag. */
module Sessions {
  import opened Common
  import opened Model
  import opened Transport
  import opened Repository
  import opened Registry
  import opened SessionOrder

  class SessionService {
    const repository: SessionRepository
    const manager: WebSocketSessionManager

    constructor (repository: SessionRepository, manager: WebSocketSessionManager)
      ensures this.repository == repository && this.manager == manager
    {
      this.repository := repository;
      this.manager := manager;
    }

    /** `createNewSession(request, connection)`: registers the connection under
        the request's id and stores a fresh record created `now`. */
    method CreateNewSession(request: NewSessionRequest, c: Connection, now: int) returns (s: Session)
      requires repository.Valid()
      modifies repository, manager
      ensures repository.Valid()
      ensures s == SessionOf(request, now)
      ensures manager.sessions == old(manager.sessions)[request.id := c]
      ensures repository.records == old(repository.records)[request.id := s]
    {
      manager.Register(request.id, c);
      s := repository.Save(SessionOf(request, now));
    }

    /** `getAllSessions()`: every record once, newest first. */
    method GetAllSessions() returns (r: seq<Session>)
      requires repository.Valid()
      ensures Lists(r, repository.records)
      ensures NewestFirst(r)
    {
      var found := repository.FindAll();
      var a := new Session[|found|](i requires 0 <= i < |found| => found[i]);
      assert a[..] == found;
      SortNewestFirst(a);
      r := a[..];
      ListsPermutation(found, r, repository.records);
    }

    /** `deleteSession(id)`: drops and closes the connection (a failing close
        is swallowed), then deletes the record. */
    method DeleteSession(id: string, closeFails: bool)
      requires repository.Valid()
      modifies repository, manager, manager.Handle(id)
      ensures repository.Valid()
      ensures repository.records == old(repository.records) - {id}
      ensures manager.sessions == old(manager.sessions) - {id}
      ensures id in old(manager.sessions) ==>
                old(manager.sessions[id]).open == (old(manager.sessions[id].open) && closeFails)
                && old(manager.sessions[id]).sent == old(manager.sessions[id].sent)
    {
      manager.Remove(id, closeFails);
      repository.DeleteById(id);
    }

    /** The loop body shared by `deleteAllSessions` and
        `deleteSessionsByDeviceId`: `deleteSession` on each listed record. */
    method DeleteEach(list: seq<Session>, closeFails: set<string>)
      requires repository.Valid()
      modifies repository, manager, manager.sessions.Values
      ensures repository.Valid()
      ensures repository.records == old(repository.records) - Ids(list)
      ensures manager.sessions == old(manager.sessions) - Ids(list)
      ensures forall id :: id in Ids(list) && id in old(manager.sessions) && id !in closeFails ==>
                !old(manager.sessions[id]).open
      ensures forall c :: c in old(manager.sessions.Values) ==> c.sent == old(c.sent) && (c.open ==> old(c.open))
      ensures forall c :: c in old(manager.sessions.Values) && c !in Connections(old(manager.sessions), Ids(list)) ==> c.open == old(c.open)
    {
      var i := 0;
      ghost var gone: set<Connection> := {};
      while i < |list|
        invariant 0 <= i <= |list|
        invariant repository.Valid()
        invariant repository.records == old(repository.records) - Ids(list[..i])
        invariant manager.sessions == old(manager.sessions) - Ids(list[..i])
        invariant forall id :: id in Ids(list[..i]) && id in old(manager.sessions) && id !in closeFails ==>
                    !old(manager.sessions[id]).open
        invariant gone == Connections(old(manager.sessions), Ids(list[..i]))
        invariant forall c :: c in old(manager.sessions.Values) ==>
                    c.sent == old(c.sent) && (c.open ==> old(c.open)) && (c !in gone ==> c.open == old(c.open))
      {
        var id := list[i].id;
        assert manager.Handle(id) <= old(manager.sessions.Values);
        label before:
        DeleteSession(id, id in closeFails);
        assert list[..i + 1] == list[..i] + [list[i]];
        IdsAppend(list[..i], list[i]);
        IdsAppendMinus(old(manager.sessions), list[..i], list[i]);
        IdsAppendMinus(old(repository.records), list[..i], list[i]);
        ConnectionsGrow(old(manager.sessions), Ids(list[..i]), id);
        gone := gone + (if id in old(manager.sessions) then {old(manager.sessions)[id]} else {});
        forall c | c in old(manager.sessions.Values)
          ensures c.sent == old(c.sent) && (c.open ==> old(c.open)) && (c !in gone ==> c.open == old(c.open))
        {
          if c !in old@before(manager.Handle(id)) {
            assert c.open == old@before(c.open) && c.sent == old@before(c.sent);
          }
        }
        i := i + 1;
      }
      assert list[..i] == list;
    }

    /** `deleteAllSessions()`: deletes every session; afterwards no record is
        left and none of the deleted sessions is registered. */
    method DeleteAllSessions(closeFails: set<string>)
      requires repository.Valid()
      modifies repository, manager, manager.sessions.Values
      ensures repository.Valid() && repository.records == map[]
      ensures manager.sessions == old(manager.sessions) - old(repository.records).Keys
      ensures forall id :: id in old(repository.records) && id in old(manager.sessions) && id !in closeFails ==>
                !old(manager.sessions[id]).open
      ensures forall c :: c in old(manager.sessions.Values) ==> c.sent == old(c.sent)
      ensures forall c :: c in old(manager.sessions.Values) && c !in Connections(old(manager.sessions), old(repository.records).Keys) ==>
                c.open == old(c.open)
    {
      var list := GetAllSessions();
      DeleteEach(list, closeFails);
    }

    /** `deleteSessionsByDeviceId(deviceId)`: deletes the device's sessions and
        keeps every other device's. */
    method DeleteSessionsByDeviceId(deviceId: string, closeFails: set<string>)
      requires repository.Valid()
      modifies repository, manager, manager.sessions.Values
      ensures repository.Valid()
      ensures repository.records == OtherDevices(old(repository.records), deviceId)
      ensures manager.sessions == old(manager.sessions) - OfDevice(old(repository.records), deviceId).Keys
      ensures forall id :: id in OfDevice(old(repository.records), deviceId) && id in old(manager.sessions) && id !in closeFails ==>
                !old(manager.sessions[id]).open
      ensures forall c :: c in old(manager.sessions.Values) ==> c.sent == old(c.sent)
      ensures forall c :: c in old(manager.sessions.Values) && c !in Connections(old(manager.sessions), OfDevice(old(repository.records), deviceId).Keys) ==>
                c.open == old(c.open)
    {
      var list := repository.FindByDeviceId(deviceId);
      RemoveDevice(repository.records, deviceId);
      DeleteEach(list, closeFails);
    }

    /** `updateLastActive(id, time)`: a null time means now; a missing record is
        left alone. */
    method UpdateLastActive(id: string, lastActiveTime: Option<int>, now: int)
      requires repository.Valid()
      modifies repository
      ensures repository.Valid()
      ensures var t := if lastActiveTime.Some? then lastActiveTime.value else now;
              repository.records ==
                if id in old(repository.records)
                then old(repository.records)[id := old(repository.records)[id].(lastActive := Some(t))]
                else old(repository.records)
    {
      var t := if lastActiveTime.Some? then lastActiveTime.value else now;
      var found := repository.FindById(id);
      if found.Some? {
        var _ := repository.Save(found.value.(lastActive := Some(t)));
      }
    }

    /** `getSessionByDeviceId(deviceId)`: some stored record of the device, or
        null exactly when the device has none. */
    method GetSessionByDeviceId(deviceId: string) returns (r: Option<Session>)
      requires repository.Valid()
      ensures r.None? <==> OfDevice(repository.records, deviceId) == map[]
      ensures r.Some? ==> r.value.deviceId == deviceId
                          && r.value.id in repository.records
                          && repository.records[r.value.id] == r.value
    {
      var list := repository.FindByDeviceId(deviceId);
      if list == [] {
        assert OfDevice(repository.records, deviceId).Keys == {};
        return None;
      }
      r := Some(list[0]);
    }

    /** `sendMessageToSession(id, message)`: the registry's `sendMessage`. */
    method SendMessageToSession(id: string, message: string, writeFails: bool) returns (r: Outcome)
      modifies manager.Handle(id)
      ensures r == old(manager.SendOutcome(id, writeFails)) == manager.SendOutcome(id, writeFails)
      ensures id in manager.sessions ==> manager.sessions[id].open == old(manager.sessions[id].open)
      ensures id in manager.sessions ==>
                manager.sessions[id].sent == old(manager.sessions[id].sent) + (if r.Done? then [Text(message)] else [])
    {
      r := manager.SendMessage(id, message, writeFails);
    }
  }
}
