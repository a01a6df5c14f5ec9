/**
 * The progress relay: an expiring key-value store behind two HTTP handlers.
 *
 * `storeHandler` checks a shared token and the sizes of the key and the value,
 * in a fixed order, and on success records the value and the write time under
 * the key; `getHandler` checks the key and answers with the stored value, or
 * with a JSON error when the key is unknown; `sweep` evicts every entry whose
 * last write is more than 60 seconds old.  Go strings are byte strings and
 * `len` counts bytes, so keys and values are modelled as byte sequences.  The
 * configured token and the clock are parameters.
 */
module Relay {

  import opened Wrappers

  newtype byte = b: int | 0 <= b < 256
  type Bytes = seq<byte>

  /** Longest accepted key, in bytes (inclusive). */
  const MaxKeyLength: nat := 100
  /** Longest accepted value, in bytes (inclusive). */
  const MaxValueLength: nat := 1000
  /** An entry older than this many seconds is evicted by a sweep. */
  const MaxAge: int := 60

  /** Why a store request is refused, one case per early `return`. */
  datatype StoreError = NoToken | InvalidToken | NoKey | KeyTooLong | NoValue | ValueTooLong

  /** What a get request answers. */
  datatype GetResult =
    | Found(value: Bytes)
    | GetNoKey
    | GetKeyTooLong
    | UnknownKey

  /** The two parallel maps of the relay: value and last-write time per key. */
  datatype RelayState = RelayState(dataStore: map<Bytes, Bytes>, timestamps: map<Bytes, int>)

  /** The maps always hold the same keys. */
  ghost predicate SameKeys(s: RelayState) {
    s.dataStore.Keys == s.timestamps.Keys
  }

  /**
   * The validation chain of `storeHandler`: the first failing check in the
   * order token present, token right, key present, key short enough, value
   * present, value short enough.
   */
  function StoreCheck(configured: Bytes, token: Bytes, key: Bytes, value: Bytes): (r: Option<StoreError>)
    ensures r == None <==>
      token != [] && token == configured && 0 < |key| <= MaxKeyLength && 0 < |value| <= MaxValueLength
    ensures token == [] ==> r == Some(NoToken)
    ensures token != [] && token != configured ==> r == Some(InvalidToken)
    ensures token != [] && token == configured ==>
              (key == [] ==> r == Some(NoKey)) &&
              (|key| > MaxKeyLength ==> r == Some(KeyTooLong))
    ensures token != [] && token == configured && 0 < |key| <= MaxKeyLength ==>
              (value == [] ==> r == Some(NoValue)) &&
              (|value| > MaxValueLength ==> r == Some(ValueTooLong))
  {
    if token == [] then Some(NoToken)
    else if token != configured then Some(InvalidToken)
    else if key == [] then Some(NoKey)
    else if |key| > MaxKeyLength then Some(KeyTooLong)
    else if value == [] then Some(NoValue)
    else if |value| > MaxValueLength then Some(ValueTooLong)
    else None
  }

  /** The text `storeHandler` writes for each refusal. */
  function StoreErrorText(e: StoreError): string {
    match e
    case NoToken => "no token provided"
    case InvalidToken => "invalid token"
    case NoKey => "no key\n"
    case KeyTooLong => "key is too long"
    case NoValue => "no value\n"
    case ValueTooLong => "data is too long"
  }

  /**
   * The bytes `fmt.Fprint` writes for a text.  Every text the handlers write is ASCII, whose
   * UTF-8 encoding is one byte per character with the character's code.
   */
  function Ascii(s: string): (b: Bytes)
    ensures |b| == |s|
    ensures forall i :: 0 <= i < |s| && s[i] as int < 256 ==> b[i] as int == s[i] as int
  {
    seq(|s|, i requires 0 <= i < |s| => (s[i] as int % 256) as byte)
  }

  /** The response body of `storeHandler`: the refusal's text, or nothing on success. */
  function StoreBody(err: Option<StoreError>): (body: Bytes)
    ensures body == [] <==> err == None
  {
    match err
    case None => []
    case Some(e) => Ascii(StoreErrorText(e))
  }

  /** The response body of `getHandler`: the stored value itself, or the error's text. */
  function GetBody(r: GetResult): (body: Bytes)
    ensures r.Found? ==> body == r.value
  {
    match r
    case Found(v) => v
    case GetNoKey => Ascii("no key\n")
    case GetKeyTooLong => Ascii("key is too long")
    case UnknownKey => Ascii("{\"error\": \"invalid key\"}")
  }

  /** `storeHandler` on a state: a refused request changes nothing. */
  function StoreStep(s: RelayState, configured: Bytes, token: Bytes, key: Bytes, value: Bytes, now: int)
    : (r: (Option<StoreError>, RelayState))
    ensures r.0 == StoreCheck(configured, token, key, value)
    ensures r.0.Some? ==> r.1 == s
    ensures r.0.None? ==> r.1.dataStore == s.dataStore[key := value] && r.1.timestamps == s.timestamps[key := now]
  {
    var check := StoreCheck(configured, token, key, value);
    if check.Some? then (check, s)
    else (None, RelayState(s.dataStore[key := value], s.timestamps[key := now]))
  }

  /** `getHandler` on a state: never looks at the timestamp. */
  function GetStep(s: RelayState, key: Bytes): (r: GetResult)
    ensures r.Found? <==> 0 < |key| <= MaxKeyLength && key in s.dataStore
    ensures r.Found? ==> r.value == s.dataStore[key]
    ensures r == UnknownKey <==> 0 < |key| <= MaxKeyLength && key !in s.dataStore
  {
    if key == [] then GetNoKey
    else if |key| > MaxKeyLength then GetKeyTooLong
    else if key !in s.dataStore then UnknownKey
    else Found(s.dataStore[key])
  }

  /** The keys a sweep at time `now` evicts: those written more than 60 seconds ago. */
  function Expired(timestamps: map<Bytes, int>, now: int): (r: set<Bytes>)
    ensures r <= timestamps.Keys
    ensures forall k :: k in timestamps ==> (k in r <==> now - timestamps[k] > MaxAge)
  {
    set k | k in timestamps && now - timestamps[k] > MaxAge
  }

  /** `sweep` on a state: both maps lose exactly the expired keys. */
  function SweepStep(s: RelayState, now: int): (r: (nat, RelayState))
    ensures r.1.dataStore == s.dataStore - Expired(s.timestamps, now)
    ensures r.1.timestamps == s.timestamps - Expired(s.timestamps, now)
    ensures r.0 == |Expired(s.timestamps, now)|
  {
    var gone := Expired(s.timestamps, now);
    (|gone|, RelayState(s.dataStore - gone, s.timestamps - gone))
  }

  /** The relay process: the two package-level maps. */
  class Store {
    var dataStore: map<Bytes, Bytes>
    var timestamps: map<Bytes, int>

    ghost predicate Valid()
      reads this
    {
      SameKeys(State())
    }

    function State(): RelayState
      reads this
    {
      RelayState(dataStore, timestamps)
    }

    /** Both maps start empty. */
    constructor ()
      ensures Valid() && dataStore == map[] && timestamps == map[]
    {
      dataStore := map[];
      timestamps := map[];
    }

    /** `storeHandler` after form parsing: the outcome and the body it writes. */
    method StoreRequest(configured: Bytes, token: Bytes, key: Bytes, value: Bytes, now: int)
      returns (err: Option<StoreError>, body: Bytes)
      requires Valid()
      modifies this
      ensures Valid()
      ensures (err, State()) == StoreStep(old(State()), configured, token, key, value, now)
      ensures body == StoreBody(err)
    {
      if token == [] {
        err := Some(NoToken);
      } else if token != configured {
        err := Some(InvalidToken);
      } else if key == [] {
        err := Some(NoKey);
      } else if |key| > MaxKeyLength {
        err := Some(KeyTooLong);
      } else if value == [] {
        err := Some(NoValue);
      } else if |value| > MaxValueLength {
        err := Some(ValueTooLong);
      } else {
        dataStore := dataStore[key := value];
        timestamps := timestamps[key := now];
        err := None;
      }
      body := StoreBody(err);
    }

    /** `getHandler` after form parsing: reads only, and writes the answer's body. */
    method GetRequest(key: Bytes) returns (r: GetResult, body: Bytes)
      ensures r == GetStep(State(), key)
      ensures body == GetBody(r)
    {
      if key == [] {
        r := GetNoKey;
      } else if |key| > MaxKeyLength {
        r := GetKeyTooLong;
      } else if key !in dataStore {
        r := UnknownKey;
      } else {
        r := Found(dataStore[key]);
      }
      body := GetBody(r);
    }

    /**
     * `sweep`: visits every timestamp once, in an unspecified order, deleting
     * the key from both maps when it is too old and counting the deletions.
     */
    method Sweep(now: int) returns (count: nat)
      requires Valid()
      modifies this
      ensures Valid()
      ensures (count, State()) == SweepStep(old(State()), now)
    {
      var todo := timestamps.Keys;
      ghost var removed: set<Bytes> := {};
      count := 0;
      while todo != {}
        invariant todo <= old(timestamps).Keys
        invariant removed == Expired(old(timestamps), now) - todo
        invariant dataStore == old(dataStore) - removed
        invariant timestamps == old(timestamps) - removed
        invariant count == |removed|
        decreases todo
      {
        var k :| k in todo;
        var rest := todo - {k};
        var evicted;
        evicted, removed := SweepOne(old(dataStore), old(timestamps), now, todo, removed, k, rest);
        if evicted {
          count := count + 1;
        }
        todo := rest;
      }
      assert removed == Expired(old(timestamps), now);
    }

    /** One visit of the sweep: `k` is checked and, when too old, deleted from both maps. */
    method SweepOne(ghost ds: map<Bytes, Bytes>, ghost ts: map<Bytes, int>, now: int,
                    ghost todo: set<Bytes>, ghost removed: set<Bytes>, k: Bytes, ghost rest: set<Bytes>)
      returns (evicted: bool, ghost removed': set<Bytes>)
      requires k in todo && todo <= ts.Keys && rest == todo - {k}
      requires removed == Expired(ts, now) - todo
      requires dataStore == ds - removed && timestamps == ts - removed
      modifies this
      ensures removed' == Expired(ts, now) - rest
      ensures dataStore == ds - removed' && timestamps == ts - removed'
      ensures |removed'| == |removed| + (if evicted then 1 else 0)
    {
      ExpiredStep(ts, now, todo, removed, k);
      evicted := EvictIfOld(k, now);
      if evicted {
        MinusOneMore(ds, removed, k);
        MinusOneMore(ts, removed, k);
        removed' := removed + {k};
      } else {
        removed' := removed;
      }
    }

    /** The body of the `Range` callback: deletes `k` from both maps when it is too old. */
    method EvictIfOld(k: Bytes, now: int) returns (evicted: bool)
      requires k in timestamps
      modifies this
      ensures evicted == (now - old(timestamps)[k] > MaxAge)
      ensures dataStore == if evicted then old(dataStore) - {k} else old(dataStore)
      ensures timestamps == if evicted then old(timestamps) - {k} else old(timestamps)
    {
      evicted := now - timestamps[k] > MaxAge;
      if evicted {
        dataStore := dataStore - {k};
        timestamps := timestamps - {k};
      }
    }
  }

  lemma MinusOneMore<V>(m: map<Bytes, V>, removed: set<Bytes>, k: Bytes)
    ensures (m - removed) - {k} == m - (removed + {k})
  {
  }

  /** One step of the sweep loop keeps its bookkeeping exact. */
  lemma ExpiredStep(ts: map<Bytes, int>, now: int, todo: set<Bytes>, removed: set<Bytes>, k: Bytes)
    requires k in todo && todo <= ts.Keys
    requires removed == Expired(ts, now) - todo
    ensures k !in removed
    ensures now - ts[k] > MaxAge ==> removed + {k} == Expired(ts, now) - (todo - {k})
    ensures now - ts[k] <= MaxAge ==> removed == Expired(ts, now) - (todo - {k})
    ensures |removed + {k}| == |removed| + 1
  {
  }

  // ---------------------------------------------------------------------
  // Properties of the relay

  /** Every step keeps the two maps on the same key set. */
  lemma StepsPreserveSameKeys(s: RelayState, configured: Bytes, token: Bytes, key: Bytes, value: Bytes, now: int)
    requires SameKeys(s)
    ensures SameKeys(StoreStep(s, configured, token, key, value, now).1)
    ensures SameKeys(SweepStep(s, now).1)
  {
  }

  /** A correctly authorised, well-sized store is read back at once (last write wins). */
  lemma GetAfterStore(s: RelayState, configured: Bytes, key: Bytes, value: Bytes, now: int)
    requires configured != []
    requires 0 < |key| <= MaxKeyLength && 0 < |value| <= MaxValueLength
    ensures GetStep(StoreStep(s, configured, configured, key, value, now).1, key) == Found(value)
  {
  }

  /** Of two accepted writes to one key, the second one is what a get returns. */
  lemma LastWriteWins(s: RelayState, configured: Bytes, key: Bytes, v1: Bytes, v2: Bytes, t1: int, t2: int)
    requires configured != []
    requires 0 < |key| <= MaxKeyLength && 0 < |v1| <= MaxValueLength && 0 < |v2| <= MaxValueLength
    ensures var s1 := StoreStep(s, configured, configured, key, v1, t1).1;
            var s2 := StoreStep(s1, configured, configured, key, v2, t2).1;
            GetStep(s2, key) == Found(v2) && s2.timestamps[key] == t2
  {
  }

  /** Writing the same entry twice leaves the state a single write leaves. */
  lemma StoreIdempotent(s: RelayState, configured: Bytes, token: Bytes, key: Bytes, value: Bytes, now: int)
    ensures var s1 := StoreStep(s, configured, token, key, value, now).1;
            StoreStep(s1, configured, token, key, value, now).1 == s1
  {
  }

  /** A write under a key leaves every other key's entry alone. */
  lemma StoreIsolatesKeys(s: RelayState, configured: Bytes, token: Bytes, key: Bytes, value: Bytes, now: int, other: Bytes)
    requires other != key
    ensures GetStep(StoreStep(s, configured, token, key, value, now).1, other) == GetStep(s, other)
  {
  }

  /** The size limits are inclusive: 100-byte keys and 1000-byte values are accepted, one more is not. */
  lemma LimitsAreInclusive(configured: Bytes, key: Bytes, value: Bytes)
    requires configured != []
    ensures |key| == MaxKeyLength && |value| == MaxValueLength ==>
      StoreCheck(configured, configured, key, value) == None
    ensures |key| == MaxKeyLength + 1 ==> StoreCheck(configured, configured, key, value) == Some(KeyTooLong)
    ensures 0 < |key| <= MaxKeyLength && |value| == MaxValueLength + 1 ==>
      StoreCheck(configured, configured, key, value) == Some(ValueTooLong)
  {
  }

  /** An entry written at `t` is still there after a sweep at `t + 60`, and gone after one at `t + 61`. */
  lemma SweepBoundary(s: RelayState, configured: Bytes, key: Bytes, value: Bytes, t: int)
    requires configured != []
    requires 0 < |key| <= MaxKeyLength && 0 < |value| <= MaxValueLength
    ensures var s1 := StoreStep(s, configured, configured, key, value, t).1;
            GetStep(SweepStep(s1, t + 60).1, key) == Found(value) &&
            GetStep(SweepStep(s1, t + 61).1, key) == UnknownKey
  {
    var s1 := StoreStep(s, configured, configured, key, value, t).1;
    assert key !in Expired(s1.timestamps, t + 60);
    assert key in Expired(s1.timestamps, t + 61);
  }

  /** On a consistent state, a get between sweeps sees exactly the surviving entries. */
  lemma SweepKeepsYoungEntries(s: RelayState, now: int, key: Bytes)
    requires SameKeys(s)
    requires 0 < |key| <= MaxKeyLength
    ensures GetStep(SweepStep(s, now).1, key) ==
      if key in s.dataStore && now - s.timestamps[key] <= MaxAge then Found(s.dataStore[key]) else UnknownKey
  {
  }

  /** A key that no accepted write has used is unknown. */
  lemma NeverWrittenIsUnknown(key: Bytes)
    requires 0 < |key| <= MaxKeyLength
    ensures GetStep(RelayState(map[], map[]), key) == UnknownKey
  {
  }

  /**
   * Every outcome of a store request has its own body, so a client tells them apart by the
   * text alone; the empty body means the value was stored.
   */
  lemma StoreBodiesDistinct(e1: Option<StoreError>, e2: Option<StoreError>)
    ensures StoreBody(e1) == StoreBody(e2) <==> e1 == e2
  {
    if e1 != e2 && e1.Some? && e2.Some? {
      assert |StoreBody(e1)| != |StoreBody(e2)|;
    }
  }

  /** The three refusals of a get request write three different bodies. */
  lemma GetErrorBodiesDistinct(r1: GetResult, r2: GetResult)
    requires !r1.Found? && !r2.Found?
    ensures GetBody(r1) == GetBody(r2) <==> r1 == r2
  {
    if r1 != r2 {
      assert |GetBody(r1)| != |GetBody(r2)|;
    }
  }
}
