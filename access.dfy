/** service/AccessService.java: one-time access codes and timed blocks, kept
    as expiring Redis keys. Codes are stored under
    `time_grant:<sessionId>:<code>` with the expiry instant as value; blocks
    under `block_device:<deviceId>`. The random draw behind a code is a
    parameter. */
module Access {
  import opened Common
  import opened Text
  import opened Model
  import opened Transport
  import opened Repository
  import opened Registry
  import opened Sessions
  import opened Redis

  const GRANT_PREFIX: string := "time_grant:"
  const BLOCK_PREFIX: string := "block_device:"

  /** The key of an access code issued to a session. */
  function GrantKey(sessionId: string, code: string): string {
    GRANT_PREFIX + sessionId + ":" + code
  }

  /** The key of a device's block. */
  function BlockKey(deviceId: string): string {
    BLOCK_PREFIX + deviceId
  }

  /** The code for a draw `d` of `(int) (Math.random() * 900000)`: `d + 100000` in decimal. */
  function Code(draw: nat): (code: string)
    requires draw < 900000
    ensures |code| == 6 && AllDigits(code)
    ensures DigitsValue(code) == draw + 100000
  {
    SixDigits(draw + 100000);
    NatToStringRoundTrip(draw + 100000);
    NatToString(draw + 100000)
  }

  /** The expiry instant stored for a lifetime of `seconds`. */
  function ExpiryAt(now: int, seconds: int): int {
    now + seconds * 1000
  }

  /** The whole seconds left before a stored expiry instant, as a `long`, or
      null once it has passed: the reading `getRemainingBlockTime` makes. A
      stored value that is not a `Long` fails the cast. */
  function SecondsLeft(v: Option<Value>, now: int): (r: Result<Option<int>>)
    ensures v.None? ==> r == Ok(None)
    ensures v.Some? && v.value.IntValue? ==> r == Fail(ClassCast)
    ensures v.Some? && v.value.LongValue? ==>
              r.Ok? && (r.value.Some? <==> now < v.value.n)
              && (r.value.Some? ==> 0 <= r.value.value && r.value.value * 1000 <= v.value.n - now < (r.value.value + 1) * 1000)
  {
    match v
    case None => Ok(None)
    case Some(IntValue(_)) => Fail(ClassCast)
    case Some(LongValue(expiry)) =>
      var remainingMillis := expiry - now;
      if remainingMillis > 0 then Ok(Some(remainingMillis / 1000)) else Ok(None)
  }

  /** `verifyAccessRequest`'s reading: `SecondsLeft` narrowed to `int`. */
  function GrantSecondsLeft(v: Option<Value>, now: int): (r: Result<Option<int>>)
    ensures SecondsLeft(v, now).Fail? ==> r == SecondsLeft(v, now)
    ensures SecondsLeft(v, now).Ok? ==> r.Ok? && (r.value.Some? <==> SecondsLeft(v, now).value.Some?)
    ensures r.Ok? && r.value.Some? ==> IsInt(r.value.value)
    ensures r.Ok? && r.value.Some? && IsInt(SecondsLeft(v, now).value.value) ==> r == SecondsLeft(v, now)
  {
    match SecondsLeft(v, now)
    case Fail(e) => Fail(e)
    case Ok(None) => Ok(None)
    case Ok(Some(s)) => Ok(Some(ToInt(s)))
  }

  /** A key written at `issued` with an expiry `seconds` ahead (within Java's
      `int`) reads back, at any later `now`: the full lifetime at once, the
      whole seconds left (never more than the lifetime) while it lives, and
      nothing once the lifetime has run out. The `int` narrowing of
      `verifyAccessRequest` changes none of these answers. */
  lemma ExpiryCountdown(entries: map<string, Entry>, key: string, seconds: int, issued: int, now: int)
    requires 0 < seconds <= INT_MAX && issued <= now
    ensures var v := Lookup(Put(entries, key, LongValue(ExpiryAt(issued, seconds)), seconds, issued), key, now);
            && (now == issued ==> SecondsLeft(v, now) == Ok(Some(seconds)))
            && (now < ExpiryAt(issued, seconds) ==>
                  SecondsLeft(v, now) == Ok(Some((ExpiryAt(issued, seconds) - now) / 1000))
                  && (ExpiryAt(issued, seconds) - now) / 1000 <= seconds)
            && (now >= ExpiryAt(issued, seconds) ==> SecondsLeft(v, now) == Ok(None))
            && GrantSecondsLeft(v, now) == SecondsLeft(v, now)
  {
    var expiry := ExpiryAt(issued, seconds);
    var v := Lookup(Put(entries, key, LongValue(expiry), seconds, issued), key, now);
    PutThenLookup(entries, key, LongValue(expiry), seconds, issued, now, key + "'");
    if now < expiry {
      assert v == Some(LongValue(expiry));
      var s := (expiry - now) / 1000;
      assert s * 1000 <= expiry - now < (s + 1) * 1000;
      assert s * 1000 <= expiry - now <= seconds * 1000;
      assert s <= seconds;
      if now == issued {
        assert expiry - now == seconds * 1000;
        assert s == seconds;
      }
    }
  }

  /** The countdown never goes up: checking later gives at most what checking
      earlier gave, and a code gone once stays gone. */
  lemma CountdownMonotone(v: Option<Value>, earlier: int, later: int)
    requires earlier <= later
    ensures SecondsLeft(v, later).Ok? && SecondsLeft(v, later).value.Some? ==>
              SecondsLeft(v, earlier).Ok? && SecondsLeft(v, earlier).value.Some?
              && SecondsLeft(v, later).value.value <= SecondsLeft(v, earlier).value.value
  {
    if v.Some? && v.value.LongValue? && later < v.value.n {
      var a := (v.value.n - earlier) / 1000;
      var b := (v.value.n - later) / 1000;
      assert b * 1000 <= v.value.n - later <= v.value.n - earlier < (a + 1) * 1000;
      assert b < a + 1;
    }
  }

  /** Session ids are the transport's connection ids, which carry no ':'
      (the default generator yields UUID strings); then a code key names one
      session and one code, and a code issued to one session is never found
      under another session's key. An id holding ':' breaks this:
      `GrantKeyCollision` shows two such pairs with one key. */
  lemma GrantKeyInjective(s1: string, c1: string, s2: string, c2: string)
    requires ':' !in s1 && ':' !in s2
    requires GrantKey(s1, c1) == GrantKey(s2, c2)
    ensures s1 == s2 && c1 == c2
  {
    var p := |GRANT_PREFIX|;
    GrantKeyLayout(s1, c1);
    GrantKeyLayout(s2, c2);
    assert |s1| == |s2|;
    assert s1 == GrantKey(s1, c1)[p..p + |s1|] == s2;
    assert c1 == GrantKey(s1, c1)[p + |s1| + 1..] == c2;
  }

  /** Without the assumption on session ids, distinct (session, code) pairs
      share a key. */
  lemma GrantKeyCollision()
    ensures GrantKey("a:b", "c") == GrantKey("a", "b:c")
  {
  }

  /** Where the parts of a code key sit. */
  lemma GrantKeyLayout(s: string, c: string)
    ensures var p := |GRANT_PREFIX|;
            && |GrantKey(s, c)| == p + |s| + 1 + |c|
            && GrantKey(s, c)[p + |s|] == ':'
            && (forall i :: 0 <= i < |s| ==> GrantKey(s, c)[p + i] == s[i])
            && GrantKey(s, c)[p..p + |s|] == s
            && GrantKey(s, c)[p + |s| + 1..] == c
  {
  }

  class AccessService {
    const store: ValueStore
    const sessionService: SessionService

    constructor (store: ValueStore, sessionService: SessionService)
      ensures this.store == store && this.sessionService == sessionService
    {
      this.store := store;
      this.sessionService := sessionService;
    }

    /** `grantAccess(deviceId, seconds)`: sends "GRANTED:<seconds>" to one of
        the device's sessions. With no session the lookup yields null and the
        call fails with NullPointerException. `target` is the session chosen. */
    method GrantAccess(deviceId: string, seconds: int, writeFails: bool) returns (r: Outcome, ghost target: Option<string>)
      requires sessionService.repository.Valid()
      modifies sessionService.manager.sessions.Values
      ensures target.None? <==> OfDevice(sessionService.repository.records, deviceId) == map[]
      ensures target.None? ==> r == Thrown(NullPointer)
      ensures target.Some? ==>
                target.value in OfDevice(sessionService.repository.records, deviceId)
                && r == old(sessionService.manager.SendOutcome(target.value, writeFails))
      ensures target.Some? && target.value in sessionService.manager.sessions ==>
                var c := sessionService.manager.sessions[target.value];
                c.sent == old(c.sent) + (if r.Done? then [Text("GRANTED:" + IntToString(seconds))] else [])
      ensures forall c :: c in old(sessionService.manager.sessions.Values) ==> c.open == old(c.open)
      ensures forall c :: c in old(sessionService.manager.sessions.Values)
                          && (target.None? || c !in sessionService.manager.Handle(target.value)) ==>
                c.sent == old(c.sent)
    {
      var session := sessionService.GetSessionByDeviceId(deviceId);
      if session.None? {
        return Thrown(NullPointer), None;
      }
      target := Some(session.value.id);
      r := sessionService.SendMessageToSession(session.value.id, "GRANTED:" + IntToString(seconds), writeFails);
    }

    /** `generateAccessCode(deviceId, seconds)`: issues a six-digit code to one
        of the device's sessions, valid for `seconds`. Unknown devices are
        refused with IllegalArgumentException; a lifetime Redis refuses
        leaves the store as it was. */
    method GenerateAccessCode(deviceId: string, seconds: int, draw: nat, now: int) returns (r: Result<string>, ghost target: Option<string>)
      requires draw < 900000
      requires sessionService.repository.Valid()
      modifies store
      ensures target.None? <==> OfDevice(sessionService.repository.records, deviceId) == map[]
      ensures target.None? ==> r == Fail(IllegalArgument) && store.entries == old(store.entries)
      ensures target.Some? ==> target.value in OfDevice(sessionService.repository.records, deviceId)
      ensures target.Some? && seconds > 0 ==>
                r == Ok(Code(draw))
                && store.entries == Put(old(store.entries), GrantKey(target.value, Code(draw)), LongValue(ExpiryAt(now, seconds)), seconds, now)
      ensures target.Some? && seconds <= 0 ==> r == Fail(StoreFailure) && store.entries == old(store.entries)
    {
      var session := sessionService.GetSessionByDeviceId(deviceId);
      if session.None? {
        return Fail(IllegalArgument), None;
      }
      target := Some(session.value.id);
      var code := Code(draw);
      var key := GrantKey(session.value.id, code);
      var stored := store.Set(key, LongValue(ExpiryAt(now, seconds)), seconds, now);
      if stored.Thrown? {
        return Fail(stored.error), target;
      }
      r := Ok(code);
    }

    /** `blockAfterTime(deviceId, seconds)`: records the block's expiry
        instant under the device's block key, then sends "BLOCK:<seconds>" to
        one of the device's sessions. */
    method BlockAfterTime(deviceId: string, seconds: int, now: int, writeFails: bool) returns (r: Outcome, ghost target: Option<string>)
      requires sessionService.repository.Valid()
      modifies store, sessionService.manager.sessions.Values
      ensures target.None? <==> OfDevice(sessionService.repository.records, deviceId) == map[]
      ensures target.None? ==> r == Thrown(IllegalArgument) && store.entries == old(store.entries)
      ensures target.Some? ==> target.value in OfDevice(sessionService.repository.records, deviceId)
      ensures target.Some? && seconds <= 0 ==> r == Thrown(StoreFailure) && store.entries == old(store.entries)
      ensures target.Some? && seconds > 0 ==>
                store.entries == Put(old(store.entries), BlockKey(deviceId), LongValue(ExpiryAt(now, seconds)), seconds, now)
                && r == old(sessionService.manager.SendOutcome(target.value, writeFails))
      ensures target.Some? && target.value in sessionService.manager.sessions ==>
                var c := sessionService.manager.sessions[target.value];
                c.sent == old(c.sent) + (if r.Done? then [Text("BLOCK:" + IntToString(seconds))] else [])
      ensures forall c :: c in old(sessionService.manager.sessions.Values) ==> c.open == old(c.open)
      ensures forall c :: c in old(sessionService.manager.sessions.Values)
                          && (target.None? || c !in sessionService.manager.Handle(target.value)) ==>
                c.sent == old(c.sent)
    {
      var session := sessionService.GetSessionByDeviceId(deviceId);
      if session.None? {
        return Thrown(IllegalArgument), None;
      }
      target := Some(session.value.id);
      var stored := store.Set(BlockKey(deviceId), LongValue(ExpiryAt(now, seconds)), seconds, now);
      if stored.Thrown? {
        return stored, target;
      }
      r := sessionService.SendMessageToSession(session.value.id, "BLOCK:" + IntToString(seconds), writeFails);
    }

    /** `getRemainingBlockTime(deviceId)`: whole seconds until the block ends,
        or null when there is none or it has run out. */
    method GetRemainingBlockTime(deviceId: string, now: int) returns (r: Result<Option<int>>)
      ensures r == SecondsLeft(Lookup(store.entries, BlockKey(deviceId), now), now)
    {
      var value := store.Get(BlockKey(deviceId), now);
      r := SecondsLeft(value, now);
    }

    /** `verifyAccessRequest(sessionId, code)`: the whole seconds left on the
        code issued to that session, or null when there is no such live code. */
    method VerifyAccessRequest(sessionId: string, code: string, now: int) returns (r: Result<Option<int>>)
      ensures r == GrantSecondsLeft(Lookup(store.entries, GrantKey(sessionId, code), now), now)
    {
      var value := store.Get(GrantKey(sessionId, code), now);
      r := GrantSecondsLeft(value, now);
    }
  }
}
