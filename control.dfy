/** websocket/handler/ControlHandler.java: the control protocol a device speaks
    over its connection, and the keep-alive tasks a granted device gets.
    A task is named by a number; `started` records the connection each task
    probes, `cancelled` the tasks cancelled so far, and `pingTasks` the task
    currently registered for each session. A task runs only while it is
    neither cancelled nor finished, so each tick is one call of `PingTick`
    on a live task. */
module Control {
  import opened Common
  import opened Text
  import opened Model
  import opened Transport
  import opened Repository
  import opened Registry
  import opened Sessions
  import opened Redis
  import opened Access

  const PASSWORD_PREFIX: string := "PASSWORD:"

  /** The four branches a text frame can take. */
  datatype Command = Password(code: string) | Ping | Blocked | Unknown

  /** The dispatch of `handleTextMessage`: the `PASSWORD:` prefix first, then
      `ping` in any case, then the `BLOCKED` prefix. */
  function Classify(content: string): (c: Command)
    ensures c.Password? <==> StartsWith(content, PASSWORD_PREFIX)
    ensures c.Password? ==> content == PASSWORD_PREFIX + c.code
    ensures c.Ping? ==> EqualsIgnoreCase(content, "ping")
    ensures c.Blocked? ==> StartsWith(content, "BLOCKED") && !EqualsIgnoreCase(content, "ping")
    ensures c.Unknown? ==> !EqualsIgnoreCase(content, "ping") && !StartsWith(content, "BLOCKED")
  {
    if StartsWith(content, PASSWORD_PREFIX) then Password(content[|PASSWORD_PREFIX|..])
    else if EqualsIgnoreCase(content, "ping") then Ping
    else if StartsWith(content, "BLOCKED") then Blocked
    else Unknown
  }

  /** The code checked is exactly what follows the prefix. */
  lemma PasswordCode(code: string)
    ensures Classify(PASSWORD_PREFIX + code) == Password(code)
  {
    assert (PASSWORD_PREFIX + code)[..|PASSWORD_PREFIX|] == PASSWORD_PREFIX;
    assert (PASSWORD_PREFIX + code)[|PASSWORD_PREFIX|..] == code;
  }

  /** Any spelling of "ping" that matches ignoring case is a ping. */
  lemma PingAnyCase(content: string)
    requires EqualsIgnoreCase(content, "ping")
    ensures Classify(content) == Ping
  {
  }

  /** Any frame starting with "BLOCKED" is a block notice. */
  lemma BlockedAnySuffix(rest: string)
    ensures Classify("BLOCKED" + rest) == Blocked
  {
    var content := "BLOCKED" + rest;
    assert content[0] == 'B';
    assert content[..7] == "BLOCKED";
  }

  /** Examples of the dispatch: case does not matter for "ping", but nothing
      may follow it; Java also folds the dotless i; a password that reads
      "ping" is still a password; "BLOCKED" is case-sensitive. */
  lemma ClassifyExamples()
    ensures Classify("PING") == Ping && Classify("PiNg") == Ping
    ensures Classify("pıng") == Ping
    ensures Classify("ping2") == Unknown && Classify(" ping") == Unknown
    ensures Classify("PASSWORD:ping") == Password("ping")
    ensures Classify("BLOCKED_BY_PARENT") == Blocked
    ensures Classify("blocked") == Unknown
  {
    PingAnyCase("PING");
    PingAnyCase("PiNg");
    PingAnyCase("pıng");
    assert !EqualsIgnoreCase(" ping", "ping") by {
      assert !CharEqualsIgnoreCase(' ', 'p');
    }
    assert !StartsWith(" ping", "BLOCKED");
    PasswordCode("ping");
    BlockedAnySuffix("_BY_PARENT");
    assert "BLOCKED" + "_BY_PARENT" == "BLOCKED_BY_PARENT";
    assert !StartsWith("blocked", "BLOCKED") by {
      assert "blocked"[0] != "BLOCKED"[0];
    }
    assert !EqualsIgnoreCase("blocked", "ping");
  }

  /** The text sent back for a command, given what verification reported
      (`None` means nothing is sent). A failed verification throws before
      any reply. */
  function Reply(command: Command, grant: Result<Option<int>>): (reply: Option<string>)
    ensures command.Blocked? ==> reply == None
    ensures command.Password? && grant.Ok? ==> reply.Some?
    ensures command.Password? && grant.Fail? ==> reply == None
  {
    match command
    case Password(_) =>
      if grant.Fail? then None
      else if grant.value.Some? then Some("GRANTED:" + IntToString(grant.value.value))
      else Some("DENIED")
    case Ping => Some("pong")
    case Blocked => None
    case Unknown => Some("UNKNOWN_COMMAND")
  }

  /** The task registered for `id`, as a set. */
  function TaskOf(tasks: map<string, nat>, id: string): set<nat> {
    if id in tasks then {tasks[id]} else {}
  }

  class ControlHandler {
    const sessionService: SessionService
    const accessService: AccessService
    var pingTasks: map<string, nat>
    var started: map<nat, Connection>
    var cancelled: set<nat>
    var nextTask: nat

    /** Tasks are numbered in order; a registered task is live and probes its
        own session; and a live task is the one registered for its session,
        so no session ever has two live tasks. */
    ghost predicate Valid()
      reads this
    {
      && (forall t :: t in started ==> t < nextTask)
      && cancelled <= started.Keys
      && (forall id :: id in pingTasks ==>
            pingTasks[id] in started && pingTasks[id] !in cancelled && started[pingTasks[id]].id == id)
      && (forall t :: t in started && t !in cancelled ==>
            started[t].id in pingTasks && pingTasks[started[t].id] == t)
    }

    /** Task `t` is scheduled and not cancelled. */
    predicate Live(t: nat)
      reads this
    {
      t in started && t !in cancelled
    }

    constructor (sessionService: SessionService, accessService: AccessService)
      ensures Valid()
      ensures this.sessionService == sessionService && this.accessService == accessService
      ensures pingTasks == map[] && started == map[] && cancelled == {} && nextTask == 0
    {
      this.sessionService := sessionService;
      this.accessService := accessService;
      pingTasks := map[];
      started := map[];
      cancelled := {};
      nextTask := 0;
    }

    /** Two live tasks never probe the same session. */
    lemma AtMostOneTask(t1: nat, t2: nat)
      requires Valid() && Live(t1) && Live(t2) && started[t1].id == started[t2].id
      ensures t1 == t2
    {
    }

    /** What verification reports for `code` on `session` at `now`. */
    function Grant(session: Connection, code: string, now: int): Result<Option<int>>
      reads accessService.store
    {
      GrantSecondsLeft(Lookup(accessService.store.entries, GrantKey(session.id, code), now), now)
    }

    /** `pingTasks.remove(id)` and cancelling the task it returns, if any. */
    method CancelTask(id: string)
      requires Valid()
      modifies this
      ensures Valid()
      ensures pingTasks == old(pingTasks) - {id}
      ensures cancelled == old(cancelled) + TaskOf(old(pingTasks), id)
      ensures started == old(started) && nextTask == old(nextTask)
      ensures forall t :: Live(t) ==> started[t].id != id
    {
      if id in pingTasks {
        cancelled := cancelled + {pingTasks[id]};
      }
      pingTasks := pingTasks - {id};
    }

    /** `startPingTask(session)` with `pingTasks.put(id, task)`: schedules a
        new task for a session that has none. */
    method StartPingTask(session: Connection) returns (t: nat)
      requires Valid() && session.id !in pingTasks
      modifies this
      ensures Valid()
      ensures t == old(nextTask) && nextTask == t + 1
      ensures started == old(started)[t := session]
      ensures pingTasks == old(pingTasks)[session.id := t]
      ensures cancelled == old(cancelled)
    {
      t := nextTask;
      started := started[t := session];
      pingTasks := pingTasks[session.id := t];
      nextTask := nextTask + 1;
    }

    /** `handleTextMessage(session, content)`: at most one reply, sent to the
        sender; a successful password replaces the session's task, a block
        notice cancels it, and nothing else touches the tasks. */
    method HandleTextMessage(session: Connection, content: string, now: int, writeFails: bool) returns (r: Outcome)
      requires Valid()
      modifies this, session
      ensures Valid()
      ensures session.open == old(session.open)
      ensures var c := Classify(content);
              var g := if c.Password? then Grant(session, c.code, now) else Ok(None);
              var reply := Reply(c, g);
              && (reply.Some? ==> r == WriteOutcome(old(session.open), writeFails))
              && (reply.None? ==> r == (if g.Fail? then Thrown(g.error) else Done))
              && session.sent == old(session.sent) + (if reply.Some? && r.Done? then [Text(reply.value)] else [])
    ensures var c := Classify(content);
              var renewed := c.Password? && Grant(session, c.code, now) != Ok(None)
                             && Grant(session, c.code, now).Ok? && r.Done?;
              && (renewed ==>
                    pingTasks == old(pingTasks)[session.id := old(nextTask)]
                    && started == old(started)[old(nextTask) := session]
                    && cancelled == old(cancelled) + TaskOf(old(pingTasks), session.id)
                    && nextTask == old(nextTask) + 1)
              && (c.Blocked? ==>
                    pingTasks == old(pingTasks) - {session.id}
                    && started == old(started)
                    && cancelled == old(cancelled) + TaskOf(old(pingTasks), session.id)
                    && nextTask == old(nextTask)
                    && (forall t :: Live(t) ==> started[t].id != session.id))
              && (!renewed && !c.Blocked? ==>
                    pingTasks == old(pingTasks) && started == old(started)
                    && cancelled == old(cancelled) && nextTask == old(nextTask))
    {
      match Classify(content)
      case Password(code) =>
        r := CheckPasswordHandler(session, code, now, writeFails);
      case Ping =>
        r := session.SendMessage(Text("pong"), writeFails);
      case Blocked =>
        BlockedHandler(session);
        r := Done;
      case Unknown =>
        r := session.SendMessage(Text("UNKNOWN_COMMAND"), writeFails);
    }

    /** `checkPasswordHandler`: verifies the code against the sender's own
        session; on success replies "GRANTED:<n>" and replaces the session's
        task, otherwise replies "DENIED". */
    method CheckPasswordHandler(session: Connection, code: string, now: int, writeFails: bool) returns (r: Outcome)
      requires Valid()
      modifies this, session
      ensures Valid()
      ensures session.open == old(session.open)
      ensures var g := Grant(session, code, now);
              var reply := Reply(Password(code), g);
              && (g.Fail? ==> r == Thrown(g.error))
              && (g.Ok? ==> r == WriteOutcome(old(session.open), writeFails))
              && session.sent == old(session.sent) + (if reply.Some? && r.Done? then [Text(reply.value)] else [])
      ensures var g := Grant(session, code, now);
              if g.Ok? && g.value.Some? && r.Done? then
                pingTasks == old(pingTasks)[session.id := old(nextTask)]
                && started == old(started)[old(nextTask) := session]
                && cancelled == old(cancelled) + TaskOf(old(pingTasks), session.id)
                && nextTask == old(nextTask) + 1
              else
                pingTasks == old(pingTasks) && started == old(started)
                && cancelled == old(cancelled) && nextTask == old(nextTask)
    {
      var granted := accessService.VerifyAccessRequest(session.id, code, now);
      r := Answer(session, granted, writeFails);
    }

    /** What `checkPasswordHandler` does with the verification result
        `granted`: rethrows a failure; replies "GRANTED:<n>" and then replaces
        the session's task; or replies "DENIED". */
    method Answer(session: Connection, granted: Result<Option<int>>, writeFails: bool) returns (r: Outcome)
      requires Valid()
      modifies this, session
      ensures Valid()
      ensures session.open == old(session.open)
      ensures var reply := Reply(Password(""), granted);
              && (granted.Fail? ==> r == Thrown(granted.error))
              && (granted.Ok? ==> r == WriteOutcome(old(session.open), writeFails))
              && session.sent == old(session.sent) + (if reply.Some? && r.Done? then [Text(reply.value)] else [])
      ensures if granted.Ok? && granted.value.Some? && r.Done? then
                pingTasks == old(pingTasks)[session.id := old(nextTask)]
                && started == old(started)[old(nextTask) := session]
                && cancelled == old(cancelled) + TaskOf(old(pingTasks), session.id)
                && nextTask == old(nextTask) + 1
              else
                pingTasks == old(pingTasks) && started == old(started)
                && cancelled == old(cancelled) && nextTask == old(nextTask)
    {
      if granted.Fail? {
        return Thrown(granted.error);
      }
      if granted.value.Some? {
        r := session.SendMessage(Text("GRANTED:" + IntToString(granted.value.value)), writeFails);
        if r.Thrown? {
          return;
        }
        CancelTask(session.id);
        var _ := StartPingTask(session);
      } else {
        r := session.SendMessage(Text("DENIED"), writeFails);
      }
    }

    /** `blockedHandler`: cancels and forgets the session's task, if any. */
    method BlockedHandler(session: Connection)
      requires Valid()
      modifies this
      ensures Valid()
      ensures pingTasks == old(pingTasks) - {session.id}
      ensures cancelled == old(cancelled) + TaskOf(old(pingTasks), session.id)
      ensures started == old(started) && nextTask == old(nextTask)
      ensures forall t :: Live(t) ==> started[t].id != session.id
    {
      CancelTask(session.id);
      CancelTask(session.id);
    }

    /** `handlePongMessage`: records the pong time as the session's last
        activity; the protocol state is left alone. */
    method HandlePongMessage(session: Connection, now: int)
      requires sessionService.repository.Valid()
      modifies sessionService.repository
      ensures sessionService.repository.Valid()
      ensures var records := old(sessionService.repository.records);
              sessionService.repository.records ==
                if session.id in records then records[session.id := records[session.id].(lastActive := Some(now))]
                else records
      ensures unchanged(this)
    {
      sessionService.UpdateLastActive(session.id, Some(now), now);
    }

    /** `afterConnectionEstablished`: stores a session built from the
        connection's id and the three attributes the handshake recorded. */
    method AfterConnectionEstablished(session: Connection, now: int)
      requires sessionService.repository.Valid()
      requires "deviceId" in session.attributes.entries
      requires "deviceName" in session.attributes.entries
      requires "ipAddress" in session.attributes.entries
      modifies sessionService.repository, sessionService.manager
      ensures sessionService.repository.Valid()
      ensures var a := session.attributes.entries;
              var request := NewSessionRequest(session.id, a["deviceId"], a["deviceName"], a["ipAddress"]);
              sessionService.repository.records == old(sessionService.repository.records)[session.id := SessionOf(request, now)]
      ensures sessionService.manager.sessions == old(sessionService.manager.sessions)[session.id := session]
    {
      var a := session.attributes.entries;
      var request := NewSessionRequest(session.id, a["deviceId"], a["deviceName"], a["ipAddress"]);
      var _ := sessionService.CreateNewSession(request, session, now);
    }

    /** `afterConnectionClosed`: cancels and forgets the session's task, then
        deletes the session; other sessions' tasks are untouched. */
    method AfterConnectionClosed(session: Connection, closeFails: bool)
      requires Valid() && sessionService.repository.Valid()
      modifies this, sessionService.repository, sessionService.manager
      modifies sessionService.manager.Handle(session.id)
      ensures Valid() && sessionService.repository.Valid()
      ensures pingTasks == old(pingTasks) - {session.id}
      ensures cancelled == old(cancelled) + TaskOf(old(pingTasks), session.id)
      ensures started == old(started) && nextTask == old(nextTask)
      ensures forall t :: Live(t) ==> started[t].id != session.id
      ensures sessionService.repository.records == old(sessionService.repository.records) - {session.id}
      ensures sessionService.manager.sessions == old(sessionService.manager.sessions) - {session.id}
      ensures session.id in old(sessionService.manager.sessions) ==>
                var c := old(sessionService.manager.sessions[session.id]);
                c.open == (old(c.open) && closeFails) && c.sent == old(c.sent)
    {
      CancelTask(session.id);
      sessionService.DeleteSession(session.id, closeFails);
    }

    /** One run of a keep-alive task: a closed connection ends the task; an
        open one is sent a ping frame, and a failed write ends the task too.
        An ended task is cancelled, so it never runs again. */
    method PingTick(t: nat, writeFails: bool)
      requires Valid() && Live(t)
      modifies this, started[t]
      ensures Valid()
      ensures started == old(started) && nextTask == old(nextTask)
      ensures var c := old(started[t]);
              && c.open == old(c.open)
              && (old(c.open) && !writeFails ==>
                    c.sent == old(c.sent) + [PingFrame]
                    && pingTasks == old(pingTasks) && cancelled == old(cancelled))
              && (!old(c.open) || writeFails ==>
                    c.sent == old(c.sent)
                    && pingTasks == old(pingTasks) - {c.id}
                    && cancelled == old(cancelled) + {t}
                    && !Live(t))
    {
      var c := started[t];
      if !c.open {
        CancelTask(c.id);
        return;
      }
      var sent := c.SendMessage(PingFrame, writeFails);
      if sent.Thrown? {
        CancelTask(c.id);
      }
    }
  }
}
