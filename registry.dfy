/** websocket/WebSocketSessionManager.java: the in-memory table from session
    id to the live transport connection, and the only way the services reach
    a device. */
module Registry {
  import opened Common
  import opened Transport

  class WebSocketSessionManager {
    var sessions: map<string, Connection>

    constructor ()
      ensures sessions == map[]
    {
      sessions := map[];
    }

    /** The connection registered under `id`, as a frame for the methods that touch it. */
    function Handle(id: string): set<Connection>
      reads this
    {
      if id in sessions then {sessions[id]} else {}
    }

    /** `register(id, session)`: adds or replaces the entry. */
    method Register(id: string, c: Connection)
      modifies this
      ensures sessions == old(sessions)[id := c]
    {
      sessions := sessions[id := c];
    }

    /** `remove(id)`: drops the entry whatever happens, and closes the
        connection when it was open; a failing close is swallowed. */
    method Remove(id: string, closeFails: bool)
      modifies this, Handle(id)
      ensures sessions == old(sessions) - {id}
      ensures id in old(sessions) ==>
                old(sessions[id]).open == (old(sessions[id].open) && closeFails)
                && old(sessions[id]).sent == old(sessions[id].sent)
    {
      if id in sessions {
        var c := sessions[id];
        sessions := sessions - {id};
        if c.open {
          var _ := c.Close(closeFails);
        }
      }
    }

    /** `get(id)`. */
    method Get(id: string) returns (c: Option<Connection>)
      ensures c.Some? <==> id in sessions
      ensures c.Some? ==> c.value == sessions[id]
    {
      c := if id in sessions then Some(sessions[id]) else None;
    }

    /** `sendMessage(id, message)`: refuses a missing or closed connection with
        IllegalStateException; a failed write surfaces as a RuntimeException
        wrapping the IOException; otherwise the device receives the text. */
    method SendMessage(id: string, message: string, writeFails: bool) returns (r: Outcome)
      modifies Handle(id)
      ensures r == old(SendOutcome(id, writeFails)) == SendOutcome(id, writeFails)
      ensures id in sessions ==> sessions[id].open == old(sessions[id].open)
      ensures id in sessions ==>
                sessions[id].sent == old(sessions[id].sent) + (if r.Done? then [Text(message)] else [])
    {
      if id !in sessions || !sessions[id].open {
        return Thrown(IllegalState);
      }
      var c := sessions[id];
      var sent := c.SendMessage(Text(message), writeFails);
      if sent.Thrown? {
        return Thrown(Runtime(sent.error));
      }
      r := Done;
    }

    /** What `sendMessage(id, _)` ends with: IllegalStateException for a
        missing or closed connection, a RuntimeException wrapping the
        IOException of a failed write, and normal completion otherwise. */
    function SendOutcome(id: string, writeFails: bool): Outcome
      reads this, Handle(id)
    {
      if id !in sessions || !sessions[id].open then Thrown(IllegalState)
      else if writeFails then Thrown(Runtime(IOFailure))
      else Done
    }

    /** `isOpen(id)`: registered and open, which is exactly when
        `sendMessage(id, _)` gets as far as writing: it then completes unless
        the write fails, and otherwise refuses with IllegalStateException. */
    predicate IsOpen(id: string)
      reads this, Handle(id)
      ensures IsOpen(id) <==> SendOutcome(id, false) == Done
      ensures !IsOpen(id) <==> SendOutcome(id, true) == Thrown(IllegalState)
    {
      id in sessions && sessions[id].open
    }
  }
}
