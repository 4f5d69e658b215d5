/** The Redis side of the backend registry: one hash per backend and a sorted
    set of their ids. */
module RedisStore {
  import opened Ordering
  import opened Records

  datatype StoreState = StoreState(hashes: map<string, Hash>, index: map<string, real>)

  const EMPTY_STORE := StoreState(map[], map[])

  /** The fields of a key; Redis keeps no empty hash, so a missing key has none. */
  function HashOf(s: StoreState, id: string): Hash {
    if id in s.hashes then s.hashes[id] else map[]
  }

  /** HSET and ZADD in one transaction: fields not named keep their values. */
  function Saved(s: StoreState, status: BackendStatus, score: real): StoreState {
    StoreState(s.hashes[status.id := HashOf(s, status.id) + Fields(status)], s.index[status.id := score])
  }

  /** DEL and ZREM in one transaction. */
  function Deleted(s: StoreState, id: string): StoreState {
    StoreState(s.hashes - {id}, s.index - {id})
  }

  /** HGETALL of one backend, decoded. */
  function Load(s: StoreState, id: string): BackendStatus {
    if HashOf(s, id) == map[] then NO_STATUS else Populate(id, HashOf(s, id))
  }

  function LowestScore(index: map<string, real>): (low: real)
    requires index != map[]
    ensures low in index.Values && forall id | id in index :: low <= index[id]
  {
    LowestExists(index);
    var low :| low in index.Values && forall v | v in index.Values :: low <= v;
    assert forall id | id in index :: index[id] in index.Values;
    low
  }

  lemma {:induction false} LowestExists(index: map<string, real>)
    requires index != map[]
    ensures exists low :: low in index.Values && forall v | v in index.Values :: low <= v
    decreases |index|
  {
    var id :| id in index;
    var rest := index - {id};
    assert index[id] in index.Values;
    if rest == map[] {
      assert index.Keys - {id} == rest.Keys == {};
      assert forall k | k in index.Keys :: k == id || k in index.Keys - {id};
      assert forall v | v in index.Values :: v == index[id];
    } else {
      LowestExists(rest);
      var low :| low in rest.Values && forall v | v in rest.Values :: low <= v;
      var best := if low <= index[id] then low else index[id];
      forall v | v in index.Values ensures best <= v {
        var k :| k in index && index[k] == v;
        if k != id { assert rest[k] in rest.Values; }
      }
      assert best in index.Values;
    }
  }

  /** ZRANGE 0 -1: members by score, ties in byte order. */
  function ZRange(index: map<string, real>): seq<string>
    decreases |index|
  {
    if index == map[] then []
    else
      var low := LowestScore(index);
      var tied := set id | id in index && index[id] == low;
      assert |index - tied| < |index| by {
        var id :| id in index && index[id] == low;
        assert index.Keys == (index - tied).Keys + tied && id in tied;
      }
      Ascending(tied) + ZRange(index - tied)
  }

  lemma {:induction false} ZRangeMembers(index: map<string, real>, id: string)
    ensures id in ZRange(index) <==> id in index
    decreases |index|
  {
    if index != map[] {
      var low := LowestScore(index);
      var tied := set id | id in index && index[id] == low;
      var first :| first in index && index[first] == low;
      assert index.Keys == (index - tied).Keys + tied && first in tied;
      ZRangeMembers(index - tied, id);
    }
  }

  /** With all scores equal the range is the increasing list of the members. */
  lemma ZRangeFlat(index: map<string, real>, score: real)
    requires forall id | id in index :: index[id] == score
    ensures ZRange(index) == Ascending(index.Keys)
  {
    if index == map[] {
      EnumerationEmpty(Ascending(index.Keys), index.Keys);
    } else {
      var low := LowestScore(index);
      var tied := set id | id in index && index[id] == low;
      assert tied == index.Keys;
      assert index - tied == map[];
    }
  }

  /** The records read for `ids`, in order, skipping the ones that are gone. */
  function ReadAll(s: StoreState, ids: seq<string>): seq<BackendStatus> {
    if ids == [] then []
    else
      var n := |ids| - 1;
      var status := Load(s, ids[n]);
      ReadAll(s, ids[..n]) + if status.id == "" then [] else [status]
  }

  /** `ListBackends` with nothing happening in between. */
  function Listing(s: StoreState): seq<BackendStatus> {
    ReadAll(s, ZRange(s.index))
  }

  /** Index and hashes agree: same ids, none empty, every score zero. */
  predicate Consistent(s: StoreState) {
    && s.hashes.Keys == s.index.Keys
    && forall id | id in s.hashes :: id != "" && s.hashes[id] != map[] && s.index[id] == 0.0
  }

  lemma RangeIncreasing(s: StoreState)
    requires Consistent(s)
    ensures Increasing(ZRange(s.index))
  {
  }

  function Ids(statuses: seq<BackendStatus>): seq<string> {
    seq(|statuses|, i requires 0 <= i < |statuses| => statuses[i].id)
  }

  lemma LoadPresent(s: StoreState, id: string)
    requires id in s.hashes && s.hashes[id] != map[]
    ensures Load(s, id).id == id
  {
  }

  lemma {:induction false} ReadAllPresent(s: StoreState, ids: seq<string>)
    requires Consistent(s) && forall id | id in ids :: id in s.hashes
    ensures |ReadAll(s, ids)| == |ids|
    ensures forall i | 0 <= i < |ids| :: ReadAll(s, ids)[i] == Load(s, ids[i]) && Load(s, ids[i]).id == ids[i]
  {
    hide Load;
    if ids != [] {
      ReadAllPresent(s, ids[..|ids| - 1]);
      LoadPresent(s, ids[|ids| - 1]);
    }
  }

  /** In a consistent store the listing has one record per id, in increasing
      order of id, each as stored. */
  lemma ListingOfConsistent(s: StoreState)
    requires Consistent(s)
    ensures Ids(Listing(s)) == Ascending(s.hashes.Keys)
    ensures forall i | 0 <= i < |Listing(s)| :: Listing(s)[i] == Load(s, Listing(s)[i].id)
  {
    hide Load;
    ZRangeFlat(s.index, 0.0);
    ReadAllPresent(s, ZRange(s.index));
  }

  /** The client the services share. */
  class Store {
    var hashes: map<string, Hash>
    var index: map<string, real>

    constructor ()
      ensures State() == EMPTY_STORE
    {
      hashes, index := map[], map[];
    }

    function State(): StoreState
      reads this
    {
      StoreState(hashes, index)
    }

    method SaveBackend(status: BackendStatus, score: real)
      modifies this
      ensures State() == Saved(old(State()), status, score)
    {
      hashes := hashes[status.id := HashOf(State(), status.id) + Fields(status)];
      index := index[status.id := score];
    }

    method DeleteBackend(id: string)
      modifies this
      ensures State() == Deleted(old(State()), id)
    {
      hashes := hashes - {id};
      index := index - {id};
    }

    method GetBackend(id: string) returns (status: BackendStatus)
      ensures status == Load(State(), id)
    {
      var values := HashOf(State(), id);
      if values == map[] { return NO_STATUS; }
      status := PopulateBackendStatus(id, values);
    }

    method ListBackends() returns (statuses: seq<BackendStatus>)
      ensures statuses == Listing(State())
    {
      hide Load;
      var ids := ZRange(index);
      statuses := [];
      for i := 0 to |ids|
        invariant statuses == ReadAll(State(), ids[..i])
      {
        assert ids[..i + 1][..i] == ids[..i];
        var status := GetBackend(ids[i]);
        if status.id == "" { continue; }
        statuses := statuses + [status];
      }
      assert ids[..|ids|] == ids;
    }
  }
}
