/** service/impl/AccessServiceImpl.java: the older access service. Codes are
    issued and verified exactly as in the newer one; a block, however, is
    stored as the raw number of seconds (an `Integer`), and reading it back
    returns that number unchanged for as long as the key lives. */
module LegacyAccess {
  import opened Common
  import opened Text
  import opened Transport
  import opened Repository
  import opened LegacySessions
  import opened Redis
  import opened Access

  /** `getRemainingBlockTime`'s reading: the stored `Integer` as it is, null
      without a live key, ClassCastException for any other stored type. */
  function StoredSeconds(v: Option<Value>): (r: Result<Option<int>>)
    ensures v.None? ==> r == Ok(None)
    ensures v.Some? && v.value.LongValue? ==> r == Fail(ClassCast)
    ensures v.Some? && v.value.IntValue? ==> r == Ok(Some(v.value.n))
  {
    match v
    case None => Ok(None)
    case Some(LongValue(_)) => Fail(ClassCast)
    case Some(IntValue(n)) => Ok(Some(n))
  }

  /** A block of `seconds` written at `issued` reads back as `seconds` at
      every instant of its lifetime: the reading does not count down. */
  lemma BlockReadingIsConstant(entries: map<string, Entry>, deviceId: string, seconds: int, issued: int, now: int)
    requires 0 < seconds && issued <= now < ExpiryAt(issued, seconds)
    ensures StoredSeconds(Lookup(Put(entries, BlockKey(deviceId), IntValue(seconds), seconds, issued), BlockKey(deviceId), now))
            == Ok(Some(seconds))
  {
    PutThenLookup(entries, BlockKey(deviceId), IntValue(seconds), seconds, issued, now, BlockKey(deviceId) + "'");
  }

  /** A 60-second block queried 30 seconds in: the older service reports 60
      seconds left, where 30 remain, which is what the newer service reports. */
  lemma BlockReadingCounterexample(entries: map<string, Entry>, deviceId: string)
    ensures var key := BlockKey(deviceId);
            && StoredSeconds(Lookup(Put(entries, key, IntValue(60), 60, 0), key, 30000)) == Ok(Some(60))
            && SecondsLeft(Lookup(Put(entries, key, LongValue(ExpiryAt(0, 60)), 60, 0), key, 30000), 30000) == Ok(Some(30))
  {
    BlockReadingIsConstant(entries, deviceId, 60, 0, 30000);
    ExpiryCountdown(entries, BlockKey(deviceId), 60, 0, 30000);
  }

  class AccessServiceImpl {
    const store: ValueStore
    const sessionService: SessionServiceImpl

    constructor (store: ValueStore, sessionService: SessionServiceImpl)
      ensures this.store == store && this.sessionService == sessionService
    {
      this.store := store;
      this.sessionService := sessionService;
    }

    /** `grantTime(deviceId, seconds)`: issues a six-digit code to one of the
        device's sessions, valid for `seconds`; unknown devices are refused
        with IllegalArgumentException. */
    method GrantTime(deviceId: string, seconds: int, draw: nat, now: int) returns (r: Result<string>, ghost target: Option<string>)
      requires draw < 900000
      requires sessionService.repository.Valid()
      modifies store
      ensures target.None? <==> OfDevice(sessionService.repository.records, deviceId) == map[]
      ensures target.None? ==> r == Fail(IllegalArgument) && store.entries == old(store.entries)
      ensures target.Some? ==> target.value in OfDevice(sessionService.repository.records, deviceId)
      ensures target.Some? && seconds > 0 ==>
                r == Ok(Code(draw))
                && store.entries == Put(old(store.entries), GrantKey(target.value, Code(draw)), LongValue(ExpiryAt(now, seconds)), seconds, now)
      ensures target.Some? && seconds <= 0 ==> r == Fail(StoreFailure) && store.entries == old(store.entries)
    {
      var session := sessionService.GetSessionByDeviceId(deviceId);
      if session.None? {
        return Fail(IllegalArgument), None;
      }
      target := Some(session.value.id);
      var code := Code(draw);
      var stored := store.Set(GrantKey(session.value.id, code), LongValue(ExpiryAt(now, seconds)), seconds, now);
      if stored.Thrown? {
        return Fail(stored.error), target;
      }
      r := Ok(code);
    }

    /** `blockAfterTime(deviceId, seconds)`: stores the number of seconds
        itself under the device's block key, then sends "BLOCK:<seconds>" to
        one of the device's sessions. */
    method BlockAfterTime(deviceId: string, seconds: int, now: int, writeFails: bool) returns (r: Outcome, ghost target: Option<string>)
      requires sessionService.repository.Valid()
      modifies store, sessionService.sessions.Values
      ensures target.None? <==> OfDevice(sessionService.repository.records, deviceId) == map[]
      ensures target.None? ==> r == Thrown(IllegalArgument) && store.entries == old(store.entries)
      ensures target.Some? ==> target.value in OfDevice(sessionService.repository.records, deviceId)
      ensures target.Some? && seconds <= 0 ==> r == Thrown(StoreFailure) && store.entries == old(store.entries)
      ensures target.Some? && seconds > 0 ==>
                store.entries == Put(old(store.entries), BlockKey(deviceId), IntValue(seconds), seconds, now)
                && r == old(sessionService.SendOutcome(target.value, writeFails))
      ensures target.Some? && target.value in sessionService.sessions ==>
                var c := sessionService.sessions[target.value];
                c.sent == old(c.sent) + (if r.Done? then [Text("BLOCK:" + IntToString(seconds))] else [])
      ensures forall c :: c in old(sessionService.sessions.Values) ==> c.open == old(c.open)
      ensures forall c :: c in old(sessionService.sessions.Values)
                          && (target.None? || c !in sessionService.Handle(target.value)) ==>
                c.sent == old(c.sent)
    {
      var session := sessionService.GetSessionByDeviceId(deviceId);
      if session.None? {
        return Thrown(IllegalArgument), None;
      }
      target := Some(session.value.id);
      var stored := store.Set(BlockKey(deviceId), IntValue(seconds), seconds, now);
      if stored.Thrown? {
        return stored, target;
      }
      r := sessionService.SendMessageToSession(session.value.id, "BLOCK:" + IntToString(seconds), writeFails);
    }

    /** `getRemainingBlockTime(deviceId)`: the stored seconds while the block
        lives, null afterwards. */
    method GetRemainingBlockTime(deviceId: string, now: int) returns (r: Result<Option<int>>)
      ensures r == StoredSeconds(Lookup(store.entries, BlockKey(deviceId), now))
    {
      var value := store.Get(BlockKey(deviceId), now);
      r := StoredSeconds(value);
    }

    /** `verifyAccessRequest(sessionId, code)`: the same reading as the newer service's. */
    method VerifyAccessRequest(sessionId: string, code: string, now: int) returns (r: Result<Option<int>>)
      ensures r == GrantSecondsLeft(Lookup(store.entries, GrantKey(sessionId, code), now), now)
    {
      var value := store.Get(GrantKey(sessionId, code), now);
      r := GrantSecondsLeft(value, now);
    }
  }
}
