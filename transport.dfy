/** The transport-level connection a device holds: Spring's `WebSocketSession`.
    Only what the core observes is kept: its id, its attributes, whether it is
    open, and the frames written to it. Whether a write or a close hits an
    I/O error is decided by the environment and passed in. */
module Transport {
  import opened Common

  /** An outbound frame: a text message, or a transport-level ping. */
  datatype Frame = Text(payload: string) | PingFrame

  /** How a write to a connection ends: a closed connection refuses with
      IllegalStateException, a failing write raises IOException. */
  function WriteOutcome(open: bool, writeFails: bool): Outcome {
    if !open then Thrown(IllegalState)
    else if writeFails then Thrown(IOFailure)
    else Done
  }

  /** The connections a table registers under any of `ids`; one connection
      may sit under several ids, so closing these can touch no other entry
      only when the connection is not among them. */
  function Connections(table: map<string, Connection>, ids: set<string>): (cs: set<Connection>)
    ensures forall id :: id in ids && id in table ==> table[id] in cs
    ensures cs <= table.Values
  {
    set id | id in ids && id in table :: table[id]
  }

  /** Deleting one more id can only add that id's connection. */
  lemma ConnectionsGrow(table: map<string, Connection>, ids: set<string>, id: string)
    ensures Connections(table, ids + {id}) == Connections(table, ids) + (if id in table then {table[id]} else {})
  {
  }

  /** The handshake attributes map a connection carries. */
  class Attributes {
    var entries: map<string, string>

    constructor ()
      ensures entries == map[]
    {
      entries := map[];
    }
  }

  class Connection {
    const id: string
    const attributes: Attributes
    var open: bool
    var sent: seq<Frame>

    constructor (id: string, attributes: Attributes)
      ensures this.id == id && this.attributes == attributes
      ensures open && sent == []
    {
      this.id := id;
      this.attributes := attributes;
      open := true;
      sent := [];
    }

    /** `isOpen()`. */
    function IsOpen(): bool
      reads this
    {
      open
    }

    /** `sendMessage(frame)`: a closed connection refuses with
        IllegalStateException, a failing write raises IOException; otherwise
        the frame is appended to what the device receives. */
    method SendMessage(frame: Frame, writeFails: bool) returns (r: Outcome)
      modifies this
      ensures r == WriteOutcome(old(open), writeFails)
      ensures sent == (if r.Done? then old(sent) + [frame] else old(sent))
      ensures open == old(open)
    {
      if !open {
        return Thrown(IllegalState);
      }
      if writeFails {
        return Thrown(IOFailure);
      }
      sent := sent + [frame];
      r := Done;
    }

    /** `close()`: closes the connection, or raises IOException and leaves it as it was. */
    method Close(closeFails: bool) returns (r: Outcome)
      modifies this
      ensures r == (if closeFails then Thrown(IOFailure) else Done)
      ensures open == (old(open) && closeFails)
      ensures sent == old(sent)
    {
      if closeFails {
        return Thrown(IOFailure);
      }
      open := false;
      r := Done;
    }
  }
}
