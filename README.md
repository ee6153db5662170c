# Parental control server: device sessions, control protocol and access codes

This project models the core of a parental-control server written in Java with Spring.
Children's devices connect to the server over WebSocket. The server keeps:

- one stored `Session` record per live device connection;
- a table of live connections;
- one-time access codes and device blocks, kept as expiring Redis keys.

Devices speak a small text protocol over their connection:

- `PASSWORD:<code>` is answered with `GRANTED:<n>` or `DENIED`.
- `ping` is answered with `pong`.
- `BLOCKED...` gets no reply.
- Anything else is answered with `UNKNOWN_COMMAND`.

A granted device gets a keep-alive task that pings it. Before a device connects, the handshake checks three headers and evicts the device's older sessions. An HTTP filter guards the administrator's API with a password hash. Session ids are the transport's own connection ids (`session.getId()`). The Snowflake id generator in `util/Snowflake.java` is modelled on its own, because no modelled operation draws ids from it.

The repository holds two generations of the same components, and they behave differently. Both are modelled, in separate modules:

- The newer generation is `websocket/`, `service/SessionService.java` and `service/AccessService.java`. It lives in the modules `Registry`, `Sessions`, `Access`, `Control` and `Handshake`.
- The older generation is `socket/` and `service/impl/`. It lives in the modules `LegacySessions`, `LegacyAccess` and `LegacyControl`.

The shared modules are:

- `Common`: `Option`, `Result` and `Outcome`, plus the Java exception kinds and the `int` range.
- `Text`: Java's `startsWith`, `trim`, `equalsIgnoreCase` and decimal printing.
- `Model`: the records.
- `Transport`: the WebSocket connection, with its open flag and the log of frames written to it.
- `Repository`: the Redis-backed repository, as a map keyed by id.
- `Redis`: a key/value map with expiry instants.
- `SessionOrder`: the newest-first sort.
- `Ids`: the Snowflake generator.
- `Security`: the filter.

The environment enters only as parameters:

- Clock readings are a `now` argument. The Snowflake generator instead gets a `Clock` holding its future readings.
- `Math.random()` is a `draw` argument in `[0, 900000)`.
- Whether a write or a close hits an `IOException` is a boolean argument (`writeFails`, `closeFails`).
- The password hash from the environment is an `Option<string>` argument.
- The encoder's `matches` is a function argument.

Java exceptions become `Thrown(e)` / `Fail(e)` results, where `e` names the exception class.

The Redis template is Spring's default one. It serializes values with the JDK serializer, so a stored `Long` reads back as a `Long` and a stored `Integer` as an `Integer`. Casting to the other type throws `ClassCastException`. `Redis.Value` keeps the two apart for this reason.

## Model

| member | source | states |
|---|---|---|
| Model.SessionOf | src/main/java/com/bravos/parentalcontrol/service/SessionService.java:28-34 | the stored record carries the request's id, device id, device name and IP address, is created at `now` and has no last activity yet |
| Transport.Connection.SendMessage | src/main/java/com/bravos/parentalcontrol/websocket/WebSocketSessionManager.java:41-46 | a write to a closed connection throws IllegalStateException and a failing write IOException; only a successful write appends the frame to what the device receives; the open flag never changes |
| Transport.Connection.Close | src/main/java/com/bravos/parentalcontrol/websocket/WebSocketSessionManager.java:22-28 | closing leaves the connection closed unless the close fails, and sends nothing |
| Registry.WebSocketSessionManager.Register | src/main/java/com/bravos/parentalcontrol/websocket/WebSocketSessionManager.java:17-19 | the id now maps to the given connection; every other entry is unchanged |
| Registry.WebSocketSessionManager.Remove | src/main/java/com/bravos/parentalcontrol/websocket/WebSocketSessionManager.java:21-30 | the id is gone afterwards whether or not closing failed; the removed connection is closed unless the close failed; nothing is sent; an absent id changes nothing |
| Registry.WebSocketSessionManager.Get | src/main/java/com/bravos/parentalcontrol/websocket/WebSocketSessionManager.java:32-34 | some connection exactly when the id is registered, and then the registered one |
| Registry.WebSocketSessionManager.SendMessage | src/main/java/com/bravos/parentalcontrol/websocket/WebSocketSessionManager.java:36-52 | decided on the state before the call: missing or closed connection: IllegalStateException and nothing sent; failed write: RuntimeException wrapping the IOException; otherwise exactly the text is appended to that connection's log and no other; the open flag is kept |
| Registry.WebSocketSessionManager.IsOpen | src/main/java/com/bravos/parentalcontrol/websocket/WebSocketSessionManager.java:49-52 | true exactly when a send to the id gets as far as writing: it completes unless the write fails; false exactly when the send refuses with IllegalStateException |
| Repository.OfDevice | src/main/java/com/bravos/parentalcontrol/repository/SessionRepository.java:14 | the records of a device are exactly the stored records with that device id, unchanged |
| Repository.OtherDevices | src/main/java/com/bravos/parentalcontrol/service/SessionService.java:56-61 | the records left after a device's eviction are exactly those of other devices, unchanged |
| Repository.RemoveDevice | src/main/java/com/bravos/parentalcontrol/service/SessionService.java:56-61 | deleting every id `findByDeviceId` lists leaves exactly the other devices' records |
| Repository.ListsPermutation | src/main/java/com/bravos/parentalcontrol/service/SessionService.java:38-42 | reordering a list of every stored record once still lists every stored record once |
| Repository.SessionRepository.Save | src/main/java/com/bravos/parentalcontrol/service/SessionService.java:35 | `save` stores the record under its id, replacing any previous one, and returns it |
| Repository.SessionRepository.FindById | src/main/java/com/bravos/parentalcontrol/service/SessionService.java:67 | the record stored under the id, or none exactly when the id is absent |
| Repository.SessionRepository.DeleteById | src/main/java/com/bravos/parentalcontrol/service/SessionService.java:46 | the id is gone and every other record is unchanged |
| Repository.SessionRepository.FindAll | src/main/java/com/bravos/parentalcontrol/repository/SessionRepository.java:16-17 | every stored record exactly once, in some order |
| Repository.SessionRepository.FindByDeviceId | src/main/java/com/bravos/parentalcontrol/repository/SessionRepository.java:14 | every stored record of the device exactly once, and no other |
| Repository.Collect | src/main/java/com/bravos/parentalcontrol/repository/SessionRepository.java:16-17 | walking the stored keys one by one lists every record exactly once |
| SessionOrder.SortNewestFirst | src/main/java/com/bravos/parentalcontrol/service/SessionService.java:40 | sorting by `createdAt` descending leaves the list newest first and a permutation of what it was |
| Sessions.SessionService.CreateNewSession | src/main/java/com/bravos/parentalcontrol/service/SessionService.java:26-36 | the connection is registered under the request's id and the new record is stored under it; nothing else changes |
| Sessions.SessionService.GetAllSessions | src/main/java/com/bravos/parentalcontrol/service/SessionService.java:38-42 | every stored record exactly once, newest first |
| Sessions.SessionService.DeleteSession | src/main/java/com/bravos/parentalcontrol/service/SessionService.java:44-47 | the id is neither registered nor stored afterwards; the connection was closed unless its close failed |
| Sessions.SessionService.DeleteAllSessions | src/main/java/com/bravos/parentalcontrol/service/SessionService.java:49-54 | no record is left; every stored id is unregistered and its connection closed unless its close failed; no connection receives a frame; a connection not registered under any stored id keeps its open flag |
| Sessions.SessionService.DeleteSessionsByDeviceId | src/main/java/com/bravos/parentalcontrol/service/SessionService.java:56-61 | the device's records are gone and every other device keeps its records; the device's connections are unregistered and closed unless their close failed; no connection receives a frame; every connection not registered under one of the device's ids keeps its open flag |
| Sessions.SessionService.UpdateLastActive | src/main/java/com/bravos/parentalcontrol/service/SessionService.java:63-72 | an absent id changes nothing; otherwise only `lastActive` changes, to the given time or to now when none is given |
| Sessions.SessionService.GetSessionByDeviceId | src/main/java/com/bravos/parentalcontrol/service/SessionService.java:74-80 | null exactly when the device has no stored record; otherwise a stored record of that device |
| Sessions.SessionService.SendMessageToSession | src/main/java/com/bravos/parentalcontrol/service/SessionService.java:82-84 | the registry's send, decided on the state before the call, with its outcomes; the text goes to that connection only |
| Redis.Lookup | src/main/java/com/bravos/parentalcontrol/service/AccessService.java:65 | a key reads back its value exactly while it is stored and `now` is before its expiry instant |
| Redis.PutThenLookup | src/main/java/com/bravos/parentalcontrol/service/AccessService.java:44 | a value written with a TTL reads back until the TTL runs out and not after; other keys are unaffected |
| Redis.ValueStore.Set | src/main/java/com/bravos/parentalcontrol/service/AccessService.java:44 | a positive TTL overwrites the key with the value and its expiry instant; a non-positive TTL is refused and changes nothing |
| Redis.ValueStore.Get | src/main/java/com/bravos/parentalcontrol/service/AccessService.java:74 | the value of a live key, otherwise null |
| Access.Code | src/main/java/com/bravos/parentalcontrol/service/AccessService.java:41 | the code is six decimal digits whose value is the draw plus 100000, so it lies in [100000, 999999] |
| Access.SecondsLeft | src/main/java/com/bravos/parentalcontrol/service/AccessService.java:64-71 | null without a live value or once the expiry instant is reached; otherwise the whole seconds left, floor of the remaining milliseconds over 1000 (possibly 0); a stored `Integer` fails the `Long` cast |
| Access.GrantSecondsLeft | src/main/java/com/bravos/parentalcontrol/service/AccessService.java:73-82 | the same answer narrowed to `int`: null exactly when `SecondsLeft` is null, and unchanged whenever it fits in `int` |
| Access.ExpiryCountdown | src/main/java/com/bravos/parentalcontrol/service/AccessService.java:41-45 | a code or block written for `seconds` reads back exactly `seconds` at the instant it is written, at most `seconds` later on, and null once the lifetime has run out; the `int` narrowing never changes the answer |
| Access.CountdownMonotone | src/main/java/com/bravos/parentalcontrol/service/AccessService.java:64-82 | the countdown never goes up, and a value gone once stays gone |
| Access.GrantKeyInjective | src/main/java/com/bravos/parentalcontrol/service/AccessService.java:42 | for session ids without ':', a code key determines the session and the code, so a code is never found under another session's key |
| Access.GrantKeyCollision | src/main/java/com/bravos/parentalcontrol/service/AccessService.java:42 | with a ':' in the session id, two different (session, code) pairs share one code key |
| Access.AccessService.GrantAccess | src/main/java/com/bravos/parentalcontrol/service/AccessService.java:25-28 | a device with no session: NullPointerException and nothing changes; otherwise "GRANTED:<seconds>" is sent to one of the device's sessions, and the outcome is what the registry's send decides on the state before the call; no connection changes its open flag and no other connection receives a frame |
| Access.AccessService.GenerateAccessCode | src/main/java/com/bravos/parentalcontrol/service/AccessService.java:36-46 | a device with no session: IllegalArgumentException and nothing stored; otherwise the code is returned and stored, under `time_grant:<sessionId>:<code>` for one of the device's sessions, with expiry `now + seconds*1000` and TTL `seconds` |
| Access.AccessService.BlockAfterTime | src/main/java/com/bravos/parentalcontrol/service/AccessService.java:53-62 | a device with no session: IllegalArgumentException and nothing stored; otherwise `block_device:<deviceId>` is overwritten with the block's end instant, then "BLOCK:<seconds>" is sent to one of the device's sessions, with the outcome the registry's send decides on the state before the call; no connection changes its open flag and no other connection receives a frame |
| Access.AccessService.GetRemainingBlockTime | src/main/java/com/bravos/parentalcontrol/service/AccessService.java:64-71 | the whole seconds left on the device's block, per `SecondsLeft` |
| Access.AccessService.VerifyAccessRequest | src/main/java/com/bravos/parentalcontrol/service/AccessService.java:73-82 | the whole seconds left on that session's code, per `GrantSecondsLeft` |
| Control.Classify | src/main/java/com/bravos/parentalcontrol/websocket/handler/ControlHandler.java:37-45 | exactly one branch per frame, in order: `PASSWORD:` prefix (the code is the rest), then "ping" ignoring case, then the `BLOCKED` prefix, otherwise unknown |
| Control.PasswordCode | src/main/java/com/bravos/parentalcontrol/websocket/handler/ControlHandler.java:80-81 | the code checked is exactly the text after the nine-character prefix |
| Control.PingAnyCase | src/main/java/com/bravos/parentalcontrol/websocket/handler/ControlHandler.java:39 | every spelling equal to "ping" ignoring case is a ping |
| Control.BlockedAnySuffix | src/main/java/com/bravos/parentalcontrol/websocket/handler/ControlHandler.java:41 | every frame starting with "BLOCKED" is a block notice |
| Control.ClassifyExamples | src/main/java/com/bravos/parentalcontrol/websocket/handler/ControlHandler.java:37-45 | "PING", "PiNg" and "pıng" get pong; "ping2", " ping" and "blocked" are unknown; "PASSWORD:ping" is a password |
| Control.Reply | src/main/java/com/bravos/parentalcontrol/websocket/handler/ControlHandler.java:37-93 | a block notice gets no reply; a password gets a reply exactly when verification completes |
| Control.ControlHandler.AtMostOneTask | src/main/java/com/bravos/parentalcontrol/websocket/handler/ControlHandler.java:85-90 | two live keep-alive tasks never serve the same session |
| Control.ControlHandler.CancelTask | src/main/java/com/bravos/parentalcontrol/websocket/handler/ControlHandler.java:98-101 | the session's entry is removed and its task cancelled; afterwards no live task serves the session |
| Control.ControlHandler.StartPingTask | src/main/java/com/bravos/parentalcontrol/websocket/handler/ControlHandler.java:89-90 | a fresh task is scheduled for the connection and registered for its session |
| Control.ControlHandler.HandleTextMessage | src/main/java/com/bravos/parentalcontrol/websocket/handler/ControlHandler.java:33-47 | at most one reply, to the sender; a completed grant replaces the session's task; a block notice cancels it; every other frame leaves the tasks alone |
| Control.ControlHandler.CheckPasswordHandler | src/main/java/com/bravos/parentalcontrol/websocket/handler/ControlHandler.java:79-94 | the code is verified against the sender's own session; "GRANTED:<n>" then cancels the old task and registers a new one; "DENIED" leaves the tasks alone |
| Control.ControlHandler.Answer | src/main/java/com/bravos/parentalcontrol/websocket/handler/ControlHandler.java:83-93 | for a verification result: a failure is rethrown with no reply; a number n gets "GRANTED:n" and, once that write succeeds, a new task replacing the old one; null gets "DENIED" and the tasks are untouched |
| Control.ControlHandler.BlockedHandler | src/main/java/com/bravos/parentalcontrol/websocket/handler/ControlHandler.java:96-103 | the session's task is cancelled and forgotten, if there is one; nothing is sent |
| Control.ControlHandler.HandlePongMessage | src/main/java/com/bravos/parentalcontrol/websocket/handler/ControlHandler.java:49-54 | only the session's `lastActive` becomes now; the tasks are untouched |
| Control.ControlHandler.AfterConnectionEstablished | src/main/java/com/bravos/parentalcontrol/websocket/handler/ControlHandler.java:56-66 | the connection is registered and a record built from its id and the three handshake attributes is stored |
| Control.ControlHandler.AfterConnectionClosed | src/main/java/com/bravos/parentalcontrol/websocket/handler/ControlHandler.java:68-77 | the session's task is cancelled and forgotten, other sessions' tasks are untouched, and the session is deleted; its registered connection is closed unless the close fails and is sent nothing |
| Control.ControlHandler.PingTick | src/main/java/com/bravos/parentalcontrol/websocket/handler/ControlHandler.java:106-124 | an open connection gets one ping frame; a closed connection or a failed ping ends the task, which is then cancelled and unregistered, and nothing is sent |
| Handshake.GetFirst | src/main/java/com/bravos/parentalcontrol/websocket/interceptor/ConnectInterceptor.java:29-31 | the value of the first header whose name matches ignoring case; none exactly when no header matches |
| Handshake.OneSessionPerDevice | src/main/java/com/bravos/parentalcontrol/websocket/interceptor/ConnectInterceptor.java:37 | evicting a device and then storing its new record leaves that device exactly the new record; other devices are unaffected |
| Handshake.ConnectInterceptor.BeforeHandshake | src/main/java/com/bravos/parentalcontrol/websocket/interceptor/ConnectInterceptor.java:24-44 | accepted exactly when all three headers are present; a refusal changes nothing; an acceptance deletes every session of the device, closing each connection unless its close fails, and records the three values as attributes; no connection receives a frame, and every connection not registered under one of the device's ids keeps its open flag |
| Handshake.Connect | src/main/java/com/bravos/parentalcontrol/websocket/interceptor/ConnectInterceptor.java:37-43 | after the handshake and the establishment hook, an accepted device has exactly one stored record, the new connection's, and that connection is registered |
| Ids.Layout | src/main/java/com/bravos/parentalcontrol/util/Snowflake.java:57-59 | the packed id is a Java long |
| Ids.ExtractTimestamp | src/main/java/com/bravos/parentalcontrol/util/Snowflake.java:62-65 | the result is a long; for an epoch that leaves room for 41 bits, it lies in [epoch, epoch + 2^41) |
| Ids.ExtractMachineId | src/main/java/com/bravos/parentalcontrol/util/Snowflake.java:67-70 | the result lies in [0, 1023] |
| Ids.LayoutRoundTrip | src/main/java/com/bravos/parentalcontrol/util/Snowflake.java:57-70 | for timestamps within 41 bits of the epoch, `extractTimestamp`, `extractMachineId` and the low 12 bits give back the timestamp, machine id and sequence packed into an id |
| Ids.LayoutOrder | src/main/java/com/bravos/parentalcontrol/util/Snowflake.java:57-59 | with one machine id, a later timestamp, or the same one with a higher sequence, packs to a larger id |
| Ids.SuccessiveIdsIncrease | src/main/java/com/bravos/parentalcontrol/util/Snowflake.java:39-60 | two successive successful ids of one generator are strictly increasing, hence distinct |
| Ids.FirstLater | src/main/java/com/bravos/parentalcontrol/util/Snowflake.java:31-37 | the first clock reading past `lastTimestamp`: it is later, and every earlier reading is not |
| Ids.Snowflake.Create | src/main/java/com/bravos/parentalcontrol/util/Snowflake.java:23-29 | a generator exactly for machine ids in [0, 1023], otherwise IllegalArgumentException; a new one has sequence 0 and last timestamp -1 |
| Ids.Snowflake.CreateDefault | src/main/java/com/bravos/parentalcontrol/util/Snowflake.java:19-21 | the same, with the 2025-01-01 UTC epoch |
| Ids.Snowflake.WaitForNextMillis | src/main/java/com/bravos/parentalcontrol/util/Snowflake.java:31-37 | the first reading strictly after `lastTimestamp`, consuming exactly the readings up to it |
| Ids.Snowflake.Next | src/main/java/com/bravos/parentalcontrol/util/Snowflake.java:39-60 | succeeds exactly when the first clock reading is not behind `lastTimestamp`; clock behind: IllegalStateException with the state unchanged; new millisecond: sequence 0; same millisecond: sequence + 1, or a wait for the next millisecond and sequence 0 once 4095 is reached; the id packs the new state, the sequence stays in [0, 4095], `lastTimestamp` never decreases, and the state advances |
| Security.IsValidPassword | src/main/java/com/bravos/parentalcontrol/security/AuthFilter.java:50-59 | true exactly when the token is non-empty, a non-empty hash is configured, and the encoder matches the token against it |
| Security.Decide | src/main/java/com/bravos/parentalcontrol/security/AuthFilter.java:26-48 | paths starting with "/ws" bypass the check exactly; any other request is admitted exactly when it has a header whose trimmed value is a valid password (non-empty, a non-empty configured hash, and the encoder matches), and rejected otherwise |
| Security.TransportPathsBypass | src/main/java/com/bravos/parentalcontrol/security/AuthFilter.java:30-33 | every path starting with "/ws", "/wsx" included, goes down the chain unchecked |
| Security.NoHashRejectsAll | src/main/java/com/bravos/parentalcontrol/security/AuthFilter.java:54-57 | without a configured hash every non-transport request is refused |
| Security.BlankHeaderRejected | src/main/java/com/bravos/parentalcontrol/security/AuthFilter.java:39-53 | a header of blanks trims to the empty token and is refused |
| Security.AuthFilter.DoFilterInternal | src/main/java/com/bravos/parentalcontrol/security/AuthFilter.java:26-48 | bypass: the chain runs once; refusal: status 401 and the chain does not run; admission: the admin authentication is set and the chain runs once |
| LegacySessions.SessionServiceImpl.CreateNewSession | src/main/java/com/bravos/parentalcontrol/service/impl/SessionServiceImpl.java:30-41 | the connection goes into the service's own table under the request's id, and the new record is stored |
| LegacySessions.SessionServiceImpl.GetAllSessions | src/main/java/com/bravos/parentalcontrol/service/impl/SessionServiceImpl.java:43-48 | every stored record exactly once, newest first |
| LegacySessions.SessionServiceImpl.RemoveSession | src/main/java/com/bravos/parentalcontrol/service/impl/SessionServiceImpl.java:107-126 | an open connection is closed, unless its close fails, and forgotten; the record is deleted; the caller never sees a failure |
| LegacySessions.SessionServiceImpl.DeleteAllSessions | src/main/java/com/bravos/parentalcontrol/service/impl/SessionServiceImpl.java:55-61 | no record is left; every listed connection is forgotten and closed unless its close failed; no connection receives a frame; a connection not registered under any stored id keeps its open flag |
| LegacySessions.SessionServiceImpl.DeleteSessionsByDeviceId | src/main/java/com/bravos/parentalcontrol/service/impl/SessionServiceImpl.java:63-69 | the device's records are gone and every other device keeps its records; the device's connections are forgotten and closed unless their close failed; no connection receives a frame; every connection not registered under one of the device's ids keeps its open flag |
| LegacySessions.SessionServiceImpl.UpdateLastActive | src/main/java/com/bravos/parentalcontrol/service/impl/SessionServiceImpl.java:71-81 | an absent id changes nothing; otherwise only `lastActive` changes, to the given time or to now |
| LegacySessions.SessionServiceImpl.GetSessionByDeviceId | src/main/java/com/bravos/parentalcontrol/service/impl/SessionServiceImpl.java:83-90 | null exactly when the device has no stored record; otherwise a stored record of that device |
| LegacySessions.SessionServiceImpl.SendMessageToSession | src/main/java/com/bravos/parentalcontrol/service/impl/SessionServiceImpl.java:92-105 | decided on the state before the call: a missing or closed connection and a failed write both surface as a RuntimeException, and nothing is sent; otherwise the text goes to that connection only; the open flag is kept |
| LegacyAccess.StoredSeconds | src/main/java/com/bravos/parentalcontrol/service/impl/AccessServiceImpl.java:47-54 | the stored `Integer` unchanged while the key lives, null afterwards; a stored `Long` fails the cast |
| LegacyAccess.BlockReadingIsConstant | src/main/java/com/bravos/parentalcontrol/service/impl/AccessServiceImpl.java:43-53 | a block of `seconds` reads back `seconds` at every instant of its lifetime |
| LegacyAccess.BlockReadingCounterexample | src/main/java/com/bravos/parentalcontrol/service/impl/AccessServiceImpl.java:43-53 | 30 s into a 60 s block, this generation reports 60 seconds left while the newer one reports 30 |
| LegacyAccess.AccessServiceImpl.GrantTime | src/main/java/com/bravos/parentalcontrol/service/impl/AccessServiceImpl.java:23-34 | a device with no session: IllegalArgumentException and nothing stored; otherwise the six-digit code is returned and stored with expiry `now + seconds*1000` and TTL `seconds` |
| LegacyAccess.AccessServiceImpl.BlockAfterTime | src/main/java/com/bravos/parentalcontrol/service/impl/AccessServiceImpl.java:36-45 | a device with no session: IllegalArgumentException; otherwise the raw seconds, as an `Integer`, are stored with TTL `seconds` and "BLOCK:<seconds>" is sent to one of the device's sessions, with the outcome the send decides on the state before the call; no connection changes its open flag and no other connection receives a frame |
| LegacyAccess.AccessServiceImpl.GetRemainingBlockTime | src/main/java/com/bravos/parentalcontrol/service/impl/AccessServiceImpl.java:47-54 | the stored seconds, per `StoredSeconds` |
| LegacyAccess.AccessServiceImpl.VerifyAccessRequest | src/main/java/com/bravos/parentalcontrol/service/impl/AccessServiceImpl.java:56-66 | the same whole-seconds reading as the newer service |
| LegacyControl.Classify | src/main/java/com/bravos/parentalcontrol/socket/handler/ControlHandler.java:37-62 | in order: `PASSWORD:` prefix, then the case-sensitive prefix "ping", then the `BLOCKED` prefix, otherwise unknown |
| LegacyControl.PingPrefix | src/main/java/com/bravos/parentalcontrol/socket/handler/ControlHandler.java:52 | every frame starting with "ping" is a ping |
| LegacyControl.GenerationsDisagree | src/main/java/com/bravos/parentalcontrol/socket/handler/ControlHandler.java:52-53 | "PING" is a ping only to the newer handler and "pingx" only to this one; "ping" is one to both |
| LegacyControl.ControlHandler.StopThread | src/main/java/com/bravos/parentalcontrol/socket/handler/ControlHandler.java:55-59 | the session's thread is interrupted and forgotten, if there is one; afterwards no running thread serves the session |
| LegacyControl.ControlHandler.StartPingThread | src/main/java/com/bravos/parentalcontrol/socket/handler/ControlHandler.java:47-48 | a fresh thread is started for the connection and registered for its session |
| LegacyControl.ControlHandler.HandleTextMessage | src/main/java/com/bravos/parentalcontrol/socket/handler/ControlHandler.java:32-63 | at most one reply, to the sender; a completed grant interrupts the old thread and registers one new one; a block notice interrupts and forgets it; nothing else touches the threads |
| LegacyControl.ControlHandler.Answer | src/main/java/com/bravos/parentalcontrol/socket/handler/ControlHandler.java:40-51 | for a verification result: a failure is rethrown with no reply; a number n gets "GRANTED:n" and, once that write succeeds, the old thread is interrupted and one new thread registered; null gets "DENIED" and the threads are untouched |
| LegacyControl.ControlHandler.HandlePongMessage | src/main/java/com/bravos/parentalcontrol/socket/handler/ControlHandler.java:65-70 | only the session's `lastActive` becomes now |
| LegacyControl.ControlHandler.AfterConnectionEstablished | src/main/java/com/bravos/parentalcontrol/socket/handler/ControlHandler.java:72-82 | the connection is kept and a record built from the handshake attributes is stored |
| LegacyControl.ControlHandler.AfterConnectionClosed | src/main/java/com/bravos/parentalcontrol/socket/handler/ControlHandler.java:84-94 | the session's thread is interrupted and forgotten, other threads are untouched, and the session is removed; its connection is closed unless the close fails and is sent nothing |

## Left out

- Concurrency is not modelled. Every method runs atomically, and `Ids.Snowflake.Next` stands for the `synchronized` method. There are two known consequences:
  - A scheduled tick may find its session already re-registered to a newer task. `Control.ControlHandler.PingTick` is only called on a live task.
  - The tick checks the connection on the scheduler and then sends on a virtual thread. The model treats the check and the send as one step.
- The older handler's ping-thread loop (`while open: ping; sleep 30 s`) is not modelled. Its thread is only started, registered and interrupted.
- `shutdownScheduler` (stopping the executors at shutdown) is not modelled. It has no effect on the protocol state.
- `flushAll` in the older session service's constructor is not modelled. The repository starts empty instead.
- The randomness of `Math.random()` is not modelled. The draw is a parameter.
- The bcrypt encoder and the environment lookup are not modelled. They are parameters.
- The wall clock behind `DateTimeHelper` is not modelled. It is the `now` parameter, or the Snowflake `Clock`.
- Logging is not modelled.
- Redis, the repository and the HTTP layer never fail in the model. The one exception: Redis refuses a non-positive TTL, and `Redis.ValueStore.Set` models that refusal. The older `removeSession` catches every exception, and in the model there is nothing for it to catch besides the swallowed close failure.
- Java `long` overflow of `now + seconds * 1000` is not modelled. Values are unbounded, and every expiry instant fits a `long` for any `int` seconds and a realistic clock.
- Ids.Snowflake.Next: requires the clock to pass `lastTimestamp` eventually when the sequence is exhausted. Otherwise the source spins forever. The id it returns is tied to the state, and its round trip is carried by `Ids.LayoutRoundTrip`, which assumes a timestamp within 41 bits of the epoch.
- Access.GrantKeyInjective: assumes that session ids contain no `':'`. The ids come from the transport's id generator, which is not part of this model. Spring's default generator yields UUID strings (hex digits and hyphens). Without the assumption, two (session, code) pairs can share a key: "a:b" with "c" and "a" with "b:c" both give `time_grant:a:b:c`.
- Connections registered under several ids: the deletion methods state that a connection keeps its open flag only when it is not registered under any of the deleted ids (`Transport.Connections`). The model does not assume that each connection sits under one id.
- Header names are compared with `equalsIgnoreCase`. HTTP header case-folding beyond that is not modelled.
- Case mapping follows ASCII plus the dotless and dotted i. The rest of Unicode case folding is not modelled.
- Control.ControlHandler.AfterConnectionEstablished: requires the three handshake attributes. The framework supplies them after an accepted handshake; the source would build a record of nulls without them. The same holds for `LegacyControl.ControlHandler.AfterConnectionEstablished`.
- Sessions.SessionService.GetAllSessions: the sort is stated as newest first and a permutation. Its stability for equal creation times is not stated.
- Repository.SessionRepository.FindAll: the order the Redis repository returns is not specified, and the model promises none.
- Control.ControlHandler.HandleTextMessage: Spring's `sendMessage` on a closed session throws IllegalStateException, and the model assumes this. Transport errors beyond IOException are not modelled.
- `afterHandshake` only logs, so it is not modelled. The controllers, configuration classes and the benchmark filter are not part of this model.

## Findings

| source | as written | input that shows it | evidently intended | confidence | as-written member | corrected member |
|---|---|---|---|---|---|---|
| src/main/java/com/bravos/parentalcontrol/service/impl/AccessServiceImpl.java:43-53 | the block stores the number of seconds itself, and `getRemainingBlockTime` returns that number for as long as the key lives | block a device for 60 s, then query it 30 s later: 60 is returned although 30 s remain | return the whole seconds remaining until the block ends, as the newer service does by storing the end instant | medium, not executed | LegacyAccess.BlockReadingCounterexample | Access.AccessService.GetRemainingBlockTime |
