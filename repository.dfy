/** The session repository (repository/SessionRepository.java): a Spring Data
    Redis repository of `Session` records keyed by id, with a secondary index
    on `deviceId`. The store is a map from id to record; the order in which
    Redis hands back a set of records is not specified, so the listing
    methods may return any order. */
module Repository {
  import opened Common
  import opened Model

  /** The ids of a list of sessions. */
  function Ids(r: seq<Session>): set<string> {
    set i | 0 <= i < |r| :: r[i].id
  }

  lemma IdsAppend(r: seq<Session>, s: Session)
    ensures Ids(r + [s]) == Ids(r) + {s.id}
  {
    var r' := r + [s];
    assert r'[|r|] == s;
    forall x | x in Ids(r) ensures x in Ids(r') {
      var i :| 0 <= i < |r| && r[i].id == x;
      assert r'[i] == r[i];
    }
  }

  /** Deleting the listed ids of one more session from a table. */
  lemma IdsAppendMinus<V>(table: map<string, V>, r: seq<Session>, s: Session)
    ensures table - Ids(r + [s]) == table - Ids(r) - {s.id}
  {
    IdsAppend(r, s);
  }

  /** `r` lists the records of `m`: each entry is the record stored under its
      id, no id twice, and every id of `m` appears. */
  ghost predicate Lists(r: seq<Session>, m: map<string, Session>) {
    && (forall i :: 0 <= i < |r| ==> r[i].id in m && m[r[i].id] == r[i])
    && (forall i, j :: 0 <= i < j < |r| ==> r[i].id != r[j].id)
    && Ids(r) == m.Keys
  }

  /** Reordering a listing gives a listing of the same records. */
  lemma ListsPermutation(l: seq<Session>, r: seq<Session>, m: map<string, Session>)
    requires Lists(l, m) && multiset(l) == multiset(r)
    ensures Lists(r, m)
  {
    forall i | 0 <= i < |r| ensures r[i].id in m && m[r[i].id] == r[i] {
      assert r[i] in multiset(l);
    }
    forall i, j | 0 <= i < j < |r| ensures r[i].id != r[j].id {
      if r[i].id == r[j].id {
        CountTwo(r, i, j);
        CountOne(l, r[i]);
        assert false;
      }
    }
    forall x | x in m.Keys ensures x in Ids(r) {
      var i :| 0 <= i < |l| && l[i].id == x;
      assert l[i] in multiset(r);
    }
  }

  /** An element at two positions occurs at least twice. */
  lemma CountTwo(r: seq<Session>, i: int, j: int)
    requires 0 <= i < j < |r| && r[i] == r[j]
    ensures multiset(r)[r[i]] >= 2
  {
    assert r == r[..j] + [r[j]] + r[j + 1..];
    assert r[i] in multiset(r[..j]) by { assert r[..j][i] == r[i]; }
  }

  /** In a list without repeated ids, no session occurs twice. */
  lemma {:induction false} CountOne(l: seq<Session>, x: Session)
    requires forall i, j :: 0 <= i < j < |l| ==> l[i].id != l[j].id
    ensures multiset(l)[x] <= 1
  {
    if l != [] {
      var p := l[..|l| - 1];
      assert l == p + [l[|l| - 1]];
      CountOne(p, x);
      if l[|l| - 1] == x {
        assert x !in multiset(p);
      }
    }
  }

  /** The records of `m` whose device id is `deviceId`. */
  function OfDevice(m: map<string, Session>, deviceId: string): (d: map<string, Session>)
    ensures d.Keys <= m.Keys
    ensures forall k :: k in d <==> k in m && m[k].deviceId == deviceId
    ensures forall k :: k in d ==> d[k] == m[k]
  {
    map k | k in m && m[k].deviceId == deviceId :: m[k]
  }

  /** The records of `m` whose device id is not `deviceId`. */
  function OtherDevices(m: map<string, Session>, deviceId: string): (d: map<string, Session>)
    ensures forall k :: k in d <==> k in m && m[k].deviceId != deviceId
    ensures forall k :: k in d ==> d[k] == m[k]
  {
    map k | k in m && m[k].deviceId != deviceId :: m[k]
  }

  /** Removing a device's records leaves exactly the other devices' records. */
  lemma RemoveDevice(m: map<string, Session>, deviceId: string)
    ensures m - OfDevice(m, deviceId).Keys == OtherDevices(m, deviceId)
  {
  }

  class SessionRepository {
    var records: map<string, Session>

    /** Every record is stored under its own id. */
    ghost predicate Valid()
      reads this
    {
      forall k :: k in records ==> records[k].id == k
    }

    constructor ()
      ensures Valid() && records == map[]
    {
      records := map[];
    }

    /** `save(s)`: inserts or replaces the record with `s`'s id. */
    method Save(s: Session) returns (saved: Session)
      requires Valid()
      modifies this
      ensures Valid()
      ensures records == old(records)[s.id := s]
      ensures saved == s
    {
      records := records[s.id := s];
      saved := s;
    }

    /** `findById(id)`. */
    method FindById(id: string) returns (r: Option<Session>)
      requires Valid()
      ensures r.Some? <==> id in records
      ensures r.Some? ==> r.value == records[id] && r.value.id == id
    {
      if id in records {
        r := Some(records[id]);
      } else {
        r := None;
      }
    }

    /** `deleteById(id)`: a missing id is not an error. */
    method DeleteById(id: string)
      requires Valid()
      modifies this
      ensures Valid()
      ensures records == old(records) - {id}
    {
      records := records - {id};
    }

    /** `findAll()`: every record once, in the store's order. */
    method FindAll() returns (r: seq<Session>)
      requires Valid()
      ensures Lists(r, records)
    {
      r := Collect(records);
    }

    /** `findByDeviceId(deviceId)`: the device's records, each once. */
    method FindByDeviceId(deviceId: string) returns (r: seq<Session>)
      requires Valid()
      ensures Lists(r, OfDevice(records, deviceId))
      ensures forall i :: 0 <= i < |r| ==> r[i].deviceId == deviceId
    {
      r := Collect(OfDevice(records, deviceId));
    }
  }

  /** Walks the key set of `m` in an unspecified order, listing each record. */
  method Collect(m: map<string, Session>) returns (r: seq<Session>)
    requires forall k :: k in m ==> m[k].id == k
    ensures Lists(r, m)
  {
    var keys := m.Keys;
    r := [];
    while keys != {}
      invariant keys <= m.Keys
      invariant forall i :: 0 <= i < |r| ==> r[i].id in m && m[r[i].id] == r[i] && r[i].id !in keys
      invariant forall i, j :: 0 <= i < j < |r| ==> r[i].id != r[j].id
      invariant Ids(r) + keys == m.Keys
      decreases keys
    {
      var k :| k in keys;
      IdsAppend(r, m[k]);
      r := r + [m[k]];
      keys := keys - {k};
    }
  }
}
