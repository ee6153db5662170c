/** socket/handler/ControlHandler.java: the older control handler. Its
    dispatch matches "ping" as a case-sensitive prefix, and each granted
    session gets a keep-alive thread instead of a scheduled task. Threads are
    named by numbers; `threads` records the connection each thread serves,
    `interrupted` the threads interrupted so far, and `pingThreads` the
    thread registered for each session. The thread's own loop is not part
    of this model. */
module LegacyControl {
  import opened Common
  import opened Text
  import opened Model
  import opened Transport
  import opened Repository
  import opened LegacySessions
  import opened Redis
  import opened Access
  import opened LegacyAccess
  import Control

  /** The dispatch of the older `handleTextMessage`: the `PASSWORD:` prefix
      first, then the case-sensitive prefix `ping`, then the `BLOCKED` prefix. */
  function Classify(content: string): (c: Control.Command)
    ensures c.Password? <==> StartsWith(content, Control.PASSWORD_PREFIX)
    ensures c.Password? ==> content == Control.PASSWORD_PREFIX + c.code
    ensures c.Ping? ==> StartsWith(content, "ping")
    ensures c.Blocked? ==> StartsWith(content, "BLOCKED") && !StartsWith(content, "ping")
    ensures c.Unknown? ==> !StartsWith(content, "ping") && !StartsWith(content, "BLOCKED")
  {
    if StartsWith(content, Control.PASSWORD_PREFIX) then Control.Password(content[|Control.PASSWORD_PREFIX|..])
    else if StartsWith(content, "ping") then Control.Ping
    else if StartsWith(content, "BLOCKED") then Control.Blocked
    else Control.Unknown
  }

  /** Anything that starts with "ping" is a ping. */
  lemma PingPrefix(rest: string)
    ensures Classify("ping" + rest) == Control.Ping
  {
    var content := "ping" + rest;
    assert content[..4] == "ping";
    assert content[0] == 'p';
  }

  /** The two generations disagree: "PING" is a ping only to the newer
      handler, "pingx" only to the older one; plain "ping" is one to both. */
  lemma GenerationsDisagree()
    ensures Classify("PING") == Control.Unknown && Control.Classify("PING") == Control.Ping
    ensures Classify("pingx") == Control.Ping && Control.Classify("pingx") == Control.Unknown
    ensures Classify("ping") == Control.Ping && Control.Classify("ping") == Control.Ping
  {
    Control.PingAnyCase("PING");
    Control.PingAnyCase("ping");
    PingPrefix("x");
    PingPrefix("");
    assert "ping" + "x" == "pingx";
    assert "ping" + "" == "ping";
    assert !StartsWith("PING", "ping") by {
      assert "PING"[0] != "ping"[0];
    }
    assert !StartsWith("PING", "BLOCKED");
    assert !StartsWith("pingx", "BLOCKED") by {
      assert "pingx"[0] != "BLOCKED"[0];
    }
  }

  class ControlHandler {
    const sessionService: SessionServiceImpl
    const accessService: AccessServiceImpl
    var pingThreads: map<string, nat>
    var threads: map<nat, Connection>
    var interrupted: set<nat>
    var nextThread: nat

    /** Threads are numbered in order; a registered thread is not interrupted
        and serves its own session; and a thread not interrupted is the one
        registered for its session. */
    ghost predicate Valid()
      reads this
    {
      && (forall t :: t in threads ==> t < nextThread)
      && interrupted <= threads.Keys
      && (forall id :: id in pingThreads ==>
            pingThreads[id] in threads && pingThreads[id] !in interrupted && threads[pingThreads[id]].id == id)
      && (forall t :: t in threads && t !in interrupted ==>
            threads[t].id in pingThreads && pingThreads[threads[t].id] == t)
    }

    /** Thread `t` was started and not interrupted. */
    predicate Running(t: nat)
      reads this
    {
      t in threads && t !in interrupted
    }

    constructor (sessionService: SessionServiceImpl, accessService: AccessServiceImpl)
      ensures Valid()
      ensures this.sessionService == sessionService && this.accessService == accessService
      ensures pingThreads == map[] && threads == map[] && interrupted == {} && nextThread == 0
    {
      this.sessionService := sessionService;
      this.accessService := accessService;
      pingThreads := map[];
      threads := map[];
      interrupted := {};
      nextThread := 0;
    }

    /** What verification reports for `code` on `session` at `now`. */
    function Grant(session: Connection, code: string, now: int): Result<Option<int>>
      reads accessService.store
    {
      GrantSecondsLeft(Lookup(accessService.store.entries, GrantKey(session.id, code), now), now)
    }

    /** Interrupting and removing the thread registered for `id`, if any. */
    method StopThread(id: string)
      requires Valid()
      modifies this
      ensures Valid()
      ensures pingThreads == old(pingThreads) - {id}
      ensures interrupted == old(interrupted) + Control.TaskOf(old(pingThreads), id)
      ensures threads == old(threads) && nextThread == old(nextThread)
      ensures forall t :: Running(t) ==> threads[t].id != id
    {
      if id in pingThreads {
        interrupted := interrupted + {pingThreads[id]};
      }
      pingThreads := pingThreads - {id};
    }

    /** `startPingThread(session)` with `pingThreads.put(id, thread)`. */
    method StartPingThread(session: Connection) returns (t: nat)
      requires Valid() && session.id !in pingThreads
      modifies this
      ensures Valid()
      ensures t == old(nextThread) && nextThread == t + 1
      ensures threads == old(threads)[t := session]
      ensures pingThreads == old(pingThreads)[session.id := t]
      ensures interrupted == old(interrupted)
    {
      t := nextThread;
      threads := threads[t := session];
      pingThreads := pingThreads[session.id := t];
      nextThread := nextThread + 1;
    }

    /** `handleTextMessage(session, content)`: at most one reply, sent to the
        sender; a successful password replaces the session's thread, a block
        notice stops it, and nothing else touches the threads. */
    method HandleTextMessage(session: Connection, content: string, now: int, writeFails: bool) returns (r: Outcome)
      requires Valid()
      modifies this, session
      ensures Valid()
      ensures session.open == old(session.open)
      ensures var c := Classify(content);
              var g := if c.Password? then Grant(session, c.code, now) else Ok(None);
              var reply := Control.Reply(c, g);
              && (reply.Some? ==> r == WriteOutcome(old(session.open), writeFails))
              && (reply.None? ==> r == (if g.Fail? then Thrown(g.error) else Done))
              && session.sent == old(session.sent) + (if reply.Some? && r.Done? then [Text(reply.value)] else [])
      ensures var c := Classify(content);
              var renewed := c.Password? && Grant(session, c.code, now) != Ok(None)
                             && Grant(session, c.code, now).Ok? && r.Done?;
              && (renewed ==>
                    pingThreads == old(pingThreads)[session.id := old(nextThread)]
                    && threads == old(threads)[old(nextThread) := session]
                    && interrupted == old(interrupted) + Control.TaskOf(old(pingThreads), session.id)
                    && nextThread == old(nextThread) + 1)
              && (c.Blocked? ==>
                    pingThreads == old(pingThreads) - {session.id}
                    && threads == old(threads)
                    && interrupted == old(interrupted) + Control.TaskOf(old(pingThreads), session.id)
                    && nextThread == old(nextThread)
                    && (forall t :: Running(t) ==> threads[t].id != session.id))
              && (!renewed && !c.Blocked? ==>
                    pingThreads == old(pingThreads) && threads == old(threads)
                    && interrupted == old(interrupted) && nextThread == old(nextThread))
    {
      if StartsWith(content, Control.PASSWORD_PREFIX) {
        var password := content[|Control.PASSWORD_PREFIX|..];
        var timeGranted := accessService.VerifyAccessRequest(session.id, password, now);
        r := Answer(session, timeGranted, writeFails);
      } else if StartsWith(content, "ping") {
        r := session.SendMessage(Text("pong"), writeFails);
      } else if StartsWith(content, "BLOCKED") {
        StopThread(session.id);
        StopThread(session.id);
        r := Done;
      } else {
        r := session.SendMessage(Text("UNKNOWN_COMMAND"), writeFails);
      }
    }

    /** The password branch after verification reported `granted`: rethrows
        a failure; replies "GRANTED:<n>" and then replaces the session's
        thread; or replies "DENIED". */
    method Answer(session: Connection, granted: Result<Option<int>>, writeFails: bool) returns (r: Outcome)
      requires Valid()
      modifies this, session
      ensures Valid()
      ensures session.open == old(session.open)
      ensures var reply := Control.Reply(Control.Password(""), granted);
              && (granted.Fail? ==> r == Thrown(granted.error))
              && (granted.Ok? ==> r == WriteOutcome(old(session.open), writeFails))
              && session.sent == old(session.sent) + (if reply.Some? && r.Done? then [Text(reply.value)] else [])
      ensures if granted.Ok? && granted.value.Some? && r.Done? then
                pingThreads == old(pingThreads)[session.id := old(nextThread)]
                && threads == old(threads)[old(nextThread) := session]
                && interrupted == old(interrupted) + Control.TaskOf(old(pingThreads), session.id)
                && nextThread == old(nextThread) + 1
              else
                pingThreads == old(pingThreads) && threads == old(threads)
                && interrupted == old(interrupted) && nextThread == old(nextThread)
    {
      if granted.Fail? {
        return Thrown(granted.error);
      }
      if granted.value.Some? {
        r := session.SendMessage(Text("GRANTED:" + IntToString(granted.value.value)), writeFails);
        if r.Thrown? {
          return;
        }
        StopThread(session.id);
        var _ := StartPingThread(session);
      } else {
        r := session.SendMessage(Text("DENIED"), writeFails);
      }
    }

    /** `handlePongMessage`: records the pong time as the session's last
        activity; the threads are left alone. */
    method HandlePongMessage(session: Connection, now: int)
      requires sessionService.repository.Valid()
      modifies sessionService.repository
      ensures sessionService.repository.Valid()
      ensures var records := old(sessionService.repository.records);
              sessionService.repository.records ==
                if session.id in records then records[session.id := records[session.id].(lastActive := Some(now))]
                else records
      ensures unchanged(this)
    {
      sessionService.UpdateLastActive(session.id, Some(now), now);
    }

    /** `afterConnectionEstablished`: stores a session built from the
        connection's id and the three handshake attributes. */
    method AfterConnectionEstablished(session: Connection, now: int)
      requires sessionService.repository.Valid()
      requires "deviceId" in session.attributes.entries
      requires "deviceName" in session.attributes.entries
      requires "ipAddress" in session.attributes.entries
      modifies sessionService, sessionService.repository
      ensures sessionService.repository.Valid()
      ensures var a := session.attributes.entries;
              var request := NewSessionRequest(session.id, a["deviceId"], a["deviceName"], a["ipAddress"]);
              sessionService.repository.records == old(sessionService.repository.records)[session.id := SessionOf(request, now)]
      ensures sessionService.sessions == old(sessionService.sessions)[session.id := session]
    {
      var a := session.attributes.entries;
      var request := NewSessionRequest(session.id, a["deviceId"], a["deviceName"], a["ipAddress"]);
      var _ := sessionService.CreateNewSession(request, session, now);
    }

    /** `afterConnectionClosed`: stops and forgets the session's thread, then
        deletes the session; other sessions' threads are untouched. */
    method AfterConnectionClosed(session: Connection, closeFails: bool)
      requires Valid() && sessionService.repository.Valid()
      modifies this, sessionService, sessionService.repository, sessionService.Handle(session.id)
      ensures Valid() && sessionService.repository.Valid()
      ensures pingThreads == old(pingThreads) - {session.id}
      ensures interrupted == old(interrupted) + Control.TaskOf(old(pingThreads), session.id)
      ensures threads == old(threads) && nextThread == old(nextThread)
      ensures forall t :: Running(t) ==> threads[t].id != session.id
      ensures sessionService.repository.records == old(sessionService.repository.records) - {session.id}
      ensures sessionService.sessions == old(sessionService.sessions) - {session.id}
      ensures session.id in old(sessionService.sessions) ==>
                var c := old(sessionService.sessions[session.id]);
                c.open == (old(c.open) && closeFails) && c.sent == old(c.sent)
    {
      StopThread(session.id);
      StopThread(session.id);
      sessionService.RemoveSession(session.id, closeFails);
    }
  }
}
