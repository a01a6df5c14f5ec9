/**
 * The statistics job (stats/main.py): the cache item count kept up to date
 * from create/delete messages, and the hourly cumulative series.
 *
 * Pub/Sub, Cloud Monitoring and Cloud Storage are not modelled: the
 * drained subscription is the list `received`, the messages published
 * again and the acknowledgement requests sent are returned as lists, the
 * per-hour metric sums are the given function `hourSum`, and the stored
 * data file is the value `existing`.  Clock readings are parameters.
 */
module Stats {

  import opened Wrappers

  /** `PUBSUB_WAIT` of the sample configuration, in seconds. */
  const PubsubWait: real := 120.0
  /** At most this many ack ids go in one acknowledge request. */
  const ChunkSize: nat := 500
  const Hour: int := 60 * 60
  const Day: int := 24 * 60 * 60

  // ---------------------------------------------------------------------
  // Messages

  /** A change message: when it was published, and its `type`, `action` and `data`. */
  datatype Msg = Msg(seconds: int, nanos: int, kind: string, action: string, data: string)

  datatype Received = Received(ackId: string, message: Msg)

  /** `publish_time.seconds + publish_time.nanos / 1e9`. */
  function PublishTime(m: Msg): real {
    m.seconds as real + m.nanos as real / 1000000000.0
  }

  predicate TimeSorted(ms: seq<Msg>) {
    forall i, j :: 0 <= i < j < |ms| ==> PublishTime(ms[i]) <= PublishTime(ms[j])
  }

  /** `x` put after every element of `s` from the end that is not later than it. */
  function InsertByTime(x: Msg, s: seq<Msg>): (r: seq<Msg>)
    ensures multiset(r) == multiset(s) + multiset{x}
    ensures |r| == |s| + 1
    decreases |s|
  {
    if s == [] || PublishTime(s[|s| - 1]) <= PublishTime(x) then s + [x]
    else
      assert s == s[..|s| - 1] + [s[|s| - 1]];
      InsertByTime(x, s[..|s| - 1]) + [s[|s| - 1]]
  }

  /** An element not earlier than all of a sorted list can follow it. */
  lemma AppendSorted(s: seq<Msg>, x: Msg)
    requires TimeSorted(s)
    requires forall i :: 0 <= i < |s| ==> PublishTime(s[i]) <= PublishTime(x)
    ensures TimeSorted(s + [x])
  {
    var res := s + [x];
    forall i, j | 0 <= i < j < |res|
      ensures PublishTime(res[i]) <= PublishTime(res[j])
    {
      assert res[i] == s[i];
    }
  }

  /** Inserting into a sorted list keeps it sorted. */
  lemma {:induction false} InsertSorted(x: Msg, s: seq<Msg>)
    requires TimeSorted(s)
    ensures TimeSorted(InsertByTime(x, s))
    decreases |s|
  {
    if s != [] && PublishTime(x) < PublishTime(s[|s| - 1]) {
      var init := s[..|s| - 1];
      var y := s[|s| - 1];
      InsertSorted(x, init);
      var r := InsertByTime(x, init);
      forall i | 0 <= i < |r|
        ensures PublishTime(r[i]) <= PublishTime(y)
      {
        assert r[i] in multiset(r);
        if r[i] != x {
          assert r[i] in multiset(init);
          var k :| 0 <= k < |init| && init[k] == r[i];
          assert s[k] == r[i];
        }
      }
      AppendSorted(r, y);
    } else {
      assert forall i :: 0 <= i < |s| ==> PublishTime(s[i]) <= PublishTime(s[|s| - 1]);
      AppendSorted(s, x);
    }
  }

  /** `sorted(messages, key=publish time)`: a stable sort by publish time. */
  function ByTime(ms: seq<Msg>): (r: seq<Msg>)
    ensures TimeSorted(r)
    ensures multiset(r) == multiset(ms)
    ensures |r| == |ms|
  {
    if ms == [] then []
    else
      assert ms == ms[..|ms| - 1] + [ms[|ms| - 1]];
      var prev := ByTime(ms[..|ms| - 1]);
      InsertSorted(ms[|ms| - 1], prev);
      InsertByTime(ms[|ms| - 1], prev)
  }

  // ---------------------------------------------------------------------
  // The de-duplicating fold of get_updated_cache_count

  /**
   * A `defaultdict(lambda: (0, 0))` from item id to `(state, last_delta)`,
   * with its keys in insertion order, the order `values()` yields them.
   */
  datatype Changes = Changes(keys: seq<string>, entries: map<string, (int, int)>)

  ghost predicate Valid(c: Changes) {
    (forall k :: k in c.entries <==> k in c.keys) &&
    (forall i, j :: 0 <= i < j < |c.keys| ==> c.keys[i] != c.keys[j])
  }

  /** Reading `record[key]`: a missing key is inserted with the default `(0, 0)`. */
  function Touch(c: Changes, k: string): (r: Changes)
    ensures k in r.entries
  {
    if k in c.entries then c else Changes(c.keys + [k], c.entries[k := (0, 0)])
  }

  /** `1` for a create, `-1` for anything else. */
  function Delta(m: Msg): int {
    if m.action == "create" then 1 else -1
  }

  /** Published less than `PUBSUB_WAIT` seconds before `now`. */
  predicate Recent(m: Msg, now: real) {
    now - m.seconds as real < PubsubWait
  }

  /**
   * One message against its record: a duplicate of the last recorded
   * change is ignored; a recent one only records its sense and is published
   * again; an older one is counted.  The flag says whether it is published again.
   */
  function Apply(c: Changes, m: Msg, now: real): (r: (Changes, bool))
    ensures m.data in r.0.entries
    ensures r.1 ==> Recent(m, now)
  {
    var c1 := Touch(c, m.data);
    var (state, last) := c1.entries[m.data];
    var d := Delta(m);
    if last == d then (c1, false)
    else if Recent(m, now) then (c1.(entries := c1.entries[m.data := (state, d)]), true)
    else (c1.(entries := c1.entries[m.data := (state + d, d)]), false)
  }

  /**
   * The three cases of one message against its item's record: a duplicate of the last recorded
   * change leaves the record as it is; a recent change only records its sense and is published
   * again; an older change is added to the count and recorded.  No other item's record changes.
   */
  lemma ApplyMeaning(c: Changes, m: Msg, now: real)
    ensures var (c', again) := Apply(c, m, now);
            var (state, last) := if m.data in c.entries then c.entries[m.data] else (0, 0);
            m.data in c'.entries &&
            (forall k :: k in c.entries && k != m.data ==> k in c'.entries && c'.entries[k] == c.entries[k]) &&
            (last == Delta(m) ==> c'.entries[m.data] == (state, last) && !again) &&
            (last != Delta(m) && Recent(m, now) ==> c'.entries[m.data] == (state, Delta(m)) && again) &&
            (last != Delta(m) && !Recent(m, now) ==> c'.entries[m.data] == (state + Delta(m), Delta(m)) && !again)
  {
  }

  /** The two records and the messages published again so far. */
  datatype Tally = Tally(authors: Changes, docs: Changes, republished: seq<Msg>)

  predicate IsAuthor(m: Msg) {
    m.kind == "author"
  }

  /** One turn of the loop over the sorted messages. */
  function Step(t: Tally, m: Msg, now: real): Tally {
    if IsAuthor(m) then
      var (a, again) := Apply(t.authors, m, now);
      Tally(a, t.docs, t.republished + (if again then [m] else []))
    else
      var (d, again) := Apply(t.docs, m, now);
      Tally(t.authors, d, t.republished + (if again then [m] else []))
  }

  /** The loop over the sorted messages; each message is published again at most once. */
  function Fold(ms: seq<Msg>, now: real): (t: Tally)
    ensures |t.republished| <= |ms|
    decreases |ms|
  {
    if ms == [] then Tally(Changes([], map[]), Changes([], map[]), [])
    else Step(Fold(ms[..|ms| - 1], now), ms[|ms| - 1], now)
  }

  /** `sum(state for state, _ in record.values())`. */
  function StateSum(keys: seq<string>, entries: map<string, (int, int)>): int
    decreases |keys|
  {
    if keys == [] then 0
    else
      var k := keys[|keys| - 1];
      StateSum(keys[..|keys| - 1], entries) + (if k in entries then entries[k].0 else 0)
  }

  /** `(ack_ids[i:i+size] for i in range(0, len(ack_ids), size))`. */
  function Chunks(ids: seq<string>, size: nat): seq<seq<string>>
    requires size > 0
    decreases |ids|
  {
    if ids == [] then []
    else if |ids| <= size then [ids]
    else [ids[..size]] + Chunks(ids[size..], size)
  }

  function AckIds(received: seq<Received>): (r: seq<string>)
    ensures |r| == |received| && forall i :: 0 <= i < |r| ==> r[i] == received[i].ackId
  {
    seq(|received|, i requires 0 <= i < |received| => received[i].ackId)
  }

  function Messages(received: seq<Received>): (r: seq<Msg>)
    ensures |r| == |received| && forall i :: 0 <= i < |r| ==> r[i] == received[i].message
  {
    seq(|received|, i requires 0 <= i < |received| => received[i].message)
  }

  /** What `get_updated_cache_count` returns, publishes again and acknowledges. */
  datatype Outcome = Outcome(authors: int, documents: int, republished: seq<Msg>, acks: seq<seq<string>>)

  /**
   * `get_updated_cache_count`: the counts unchanged when nothing is pending, and at most one
   * message published again per pulled message.
   */
  function CacheCount(nAuthor: int, nDocument: int, received: seq<Received>, now: real): (o: Outcome)
    ensures received == [] ==> o.authors == nAuthor && o.documents == nDocument
    ensures |o.republished| <= |received|
  {
    if received == [] then Outcome(nAuthor, nDocument, [], [])
    else
      var t := Fold(ByTime(Messages(received)), now);
      Outcome(nAuthor + StateSum(t.authors.keys, t.authors.entries),
              nDocument + StateSum(t.docs.keys, t.docs.entries),
              t.republished,
              Chunks(AckIds(received), ChunkSize))
  }

  // ---------------------------------------------------------------------
  // The loops of get_updated_cache_count

  /** Collecting the ack ids and the messages of the drained subscription. */
  method Drain(received: seq<Received>) returns (ackIds: seq<string>, messages: seq<Msg>)
    ensures ackIds == AckIds(received) && messages == Messages(received)
  {
    ackIds := [];
    messages := [];
    for i := 0 to |received|
      invariant ackIds == AckIds(received[..i]) && messages == Messages(received[..i])
    {
      ackIds := ackIds + [received[i].ackId];
      messages := messages + [received[i].message];
    }
    assert received[..|received|] == received;
  }

  lemma FoldNext(ms: seq<Msg>, i: nat, now: real)
    requires i < |ms|
    ensures Fold(ms[..i + 1], now) == Step(Fold(ms[..i], now), ms[i], now)
  {
    assert ms[..i + 1][..i] == ms[..i];
  }

  /** The loop over the sorted messages. */
  method Dedup(ms: seq<Msg>, now: real) returns (t: Tally)
    ensures t == Fold(ms, now)
  {
    t := Tally(Changes([], map[]), Changes([], map[]), []);
    for i := 0 to |ms|
      invariant t == Fold(ms[..i], now)
    {
      FoldNext(ms, i, now);
      var m := ms[i];
      var record := if IsAuthor(m) then t.authors else t.docs;
      var d := Delta(m);
      record := Touch(record, m.data);
      var (state, last) := record.entries[m.data];
      var again := false;
      if last != d {
        if Recent(m, now) {
          record := record.(entries := record.entries[m.data := (state, d)]);
          again := true;
        } else {
          record := record.(entries := record.entries[m.data := (state + d, d)]);
        }
      }
      assert (record, again) == Apply(if IsAuthor(m) then t.authors else t.docs, m, now);
      var rep := t.republished + (if again then [m] else []);
      if IsAuthor(m) {
        t := Tally(record, t.docs, rep);
      } else {
        t := Tally(t.authors, record, rep);
      }
    }
    assert ms[..|ms|] == ms;
  }

  /** The ack requests, one chunk of at most `ChunkSize` ids after the other. */
  method AckChunks(ids: seq<string>) returns (reqs: seq<seq<string>>)
    ensures reqs == Chunks(ids, ChunkSize)
  {
    reqs := [];
    var i := 0;
    while i < |ids|
      invariant 0 <= i <= |ids|
      invariant i < |ids| ==> i % ChunkSize == 0
      invariant reqs + Chunks(ids[i..], ChunkSize) == Chunks(ids, ChunkSize)
      decreases |ids| - i
    {
      var j := if i + ChunkSize <= |ids| then i + ChunkSize else |ids|;
      var rest := ids[i..];
      assert rest[..j - i] == ids[i..j];
      assert j < |ids| ==> rest[j - i..] == ids[j..];
      assert j == |ids| ==> rest == ids[i..j] && Chunks(rest, ChunkSize) == [ids[i..j]];
      assert j < |ids| ==> Chunks(rest, ChunkSize) == [ids[i..j]] + Chunks(ids[j..], ChunkSize);
      reqs := reqs + [ids[i..j]];
      i := j;
    }
    assert ids[i..] == [];
  }

  /** `sum` over a record's values, in `values()` order. */
  method SumStates(c: Changes) returns (s: int)
    ensures s == StateSum(c.keys, c.entries)
  {
    s := 0;
    for i := 0 to |c.keys|
      invariant s == StateSum(c.keys[..i], c.entries)
    {
      assert c.keys[..i + 1][..i] == c.keys[..i];
      var k := c.keys[i];
      s := s + (if k in c.entries then c.entries[k].0 else 0);
    }
    assert c.keys[..|c.keys|] == c.keys;
  }

  /** `get_updated_cache_count`. */
  method GetUpdatedCacheCount(nAuthor: int, nDocument: int, received: seq<Received>, now: real) returns (o: Outcome)
    ensures o == CacheCount(nAuthor, nDocument, received, now)
  {
    var ackIds, messages := Drain(received);
    if |messages| == 0 {
      return Outcome(nAuthor, nDocument, [], []);
    }
    var sorted := ByTime(messages);
    var t := Dedup(sorted, now);
    var da := SumStates(t.authors);
    var dd := SumStates(t.docs);
    var reqs := AckChunks(ackIds);
    o := Outcome(nAuthor + da, nDocument + dd, t.republished, reqs);
  }

  // ---------------------------------------------------------------------
  // What the fold promises

  function Flatten(xss: seq<seq<string>>): seq<string> {
    if xss == [] then [] else xss[0] + Flatten(xss[1..])
  }

  /** The ack requests send every id once, in order, each request holding 1 to `size` ids. */
  lemma {:induction false} ChunksCover(ids: seq<string>, size: nat)
    requires size > 0
    ensures Flatten(Chunks(ids, size)) == ids
    ensures forall i :: 0 <= i < |Chunks(ids, size)| ==> 1 <= |Chunks(ids, size)[i]| <= size
    decreases |ids|
  {
    if |ids| > size {
      ChunksCover(ids[size..], size);
      var cs := Chunks(ids, size);
      assert cs[1..] == Chunks(ids[size..], size);
      assert ids == ids[..size] + ids[size..];
    } else if ids != [] {
      assert Flatten([ids]) == ids + Flatten([]);
    }
  }

  /** Every message published again is one of the messages, and a recent one. */
  lemma {:induction false} RepublishedRecent(ms: seq<Msg>, now: real)
    ensures forall m :: m in Fold(ms, now).republished ==> m in ms && Recent(m, now)
    decreases |ms|
  {
    if ms != [] {
      var init := ms[..|ms| - 1];
      RepublishedRecent(init, now);
      assert forall m :: m in init ==> m in ms;
    }
  }

  /** Reading a key keeps a record valid and adds at most that key. */
  lemma TouchValid(c: Changes, k: string)
    requires Valid(c)
    ensures Valid(Touch(c, k))
    ensures Touch(c, k).entries.Keys == c.entries.Keys + {k}
  {
  }

  /** One message keeps its record valid and adds at most its own item id. */
  lemma ApplyValid(c: Changes, m: Msg, now: real)
    requires Valid(c)
    ensures Valid(Apply(c, m, now).0)
    ensures Apply(c, m, now).0.entries.Keys == c.entries.Keys + {m.data}
  {
    TouchValid(c, m.data);
  }

  /** The item ids of the author messages (`author`) or of the other messages. */
  function Touched(ms: seq<Msg>, author: bool): set<string>
    decreases |ms|
  {
    if ms == [] then {}
    else
      var m := ms[|ms| - 1];
      Touched(ms[..|ms| - 1], author) + (if IsAuthor(m) == author then {m.data} else {})
  }

  lemma {:induction false} TouchedMeaning(ms: seq<Msg>, author: bool)
    ensures forall k :: k in Touched(ms, author) <==> exists i :: 0 <= i < |ms| && IsAuthor(ms[i]) == author && ms[i].data == k
    decreases |ms|
  {
    if ms != [] {
      var init := ms[..|ms| - 1];
      TouchedMeaning(init, author);
      assert forall i :: 0 <= i < |init| ==> init[i] == ms[i];
    }
  }

  /** The records stay valid, and hold a key exactly for the item ids of their messages. */
  lemma {:induction false} FoldValid(ms: seq<Msg>, now: real)
    ensures Valid(Fold(ms, now).authors) && Valid(Fold(ms, now).docs)
    ensures Fold(ms, now).authors.entries.Keys == Touched(ms, true)
    ensures Fold(ms, now).docs.entries.Keys == Touched(ms, false)
    decreases |ms|
  {
    if ms != [] {
      var init := ms[..|ms| - 1];
      var m := ms[|ms| - 1];
      FoldValid(init, now);
      var t := Fold(init, now);
      if IsAuthor(m) {
        ApplyValid(t.authors, m, now);
      } else {
        ApplyValid(t.docs, m, now);
      }
    }
  }

  /** With every count in {0, last change} and every last change a create or a delete. */
  predicate Alternating(c: Changes) {
    forall k :: k in c.entries ==>
      (c.entries[k].1 == 0 && c.entries[k].0 == 0) ||
      ((c.entries[k].1 == 1 || c.entries[k].1 == -1) && (c.entries[k].0 == 0 || c.entries[k].0 == c.entries[k].1))
  }

  /**
   * When no message is recent, no item is counted twice: create-create
   * counts one create, create-delete-create counts one, and every item's
   * net change is -1, 0 or 1.  Nothing is published again.
   */
  lemma {:induction false} OldMessagesAlternate(ms: seq<Msg>, now: real)
    requires forall i :: 0 <= i < |ms| ==> !Recent(ms[i], now)
    ensures Alternating(Fold(ms, now).authors) && Alternating(Fold(ms, now).docs)
    ensures Fold(ms, now).republished == []
    decreases |ms|
  {
    if ms != [] {
      var init := ms[..|ms| - 1];
      assert forall i :: 0 <= i < |init| ==> init[i] == ms[i];
      OldMessagesAlternate(init, now);
      var t := Fold(init, now);
      var m := ms[|ms| - 1];
      ApplyAlternating(if IsAuthor(m) then t.authors else t.docs, m, now);
    }
  }

  /** An old message keeps a record alternating and is not published again. */
  lemma ApplyAlternating(c: Changes, m: Msg, now: real)
    requires Alternating(c) && !Recent(m, now)
    ensures Alternating(Apply(c, m, now).0) && !Apply(c, m, now).1
  {
  }

  /** Every count is zero. */
  predicate Untouched(c: Changes) {
    forall k :: k in c.entries ==> c.entries[k].0 == 0
  }

  lemma {:induction false} StateSumZero(keys: seq<string>, entries: map<string, (int, int)>)
    requires forall k :: k in entries ==> entries[k].0 == 0
    ensures StateSum(keys, entries) == 0
    decreases |keys|
  {
    if keys != [] {
      StateSumZero(keys[..|keys| - 1], entries);
    }
  }

  /** Recent messages never change a count: when every message is recent, the counts come back unchanged. */
  lemma {:induction false} RecentMessagesWait(ms: seq<Msg>, now: real)
    requires forall i :: 0 <= i < |ms| ==> Recent(ms[i], now)
    ensures Untouched(Fold(ms, now).authors) && Untouched(Fold(ms, now).docs)
    decreases |ms|
  {
    if ms != [] {
      var init := ms[..|ms| - 1];
      assert forall i :: 0 <= i < |init| ==> init[i] == ms[i];
      RecentMessagesWait(init, now);
    }
  }

  /** A permutation has the same elements. */
  lemma SameElements(a: seq<Msg>, b: seq<Msg>)
    requires multiset(a) == multiset(b)
    ensures forall i :: 0 <= i < |a| ==> a[i] in b
  {
    forall i | 0 <= i < |a|
      ensures a[i] in b
    {
      assert a[i] in multiset(a);
    }
  }

  /** With nothing pending, or only recent messages, `get_updated_cache_count` returns its inputs. */
  lemma CountUnchanged(nAuthor: int, nDocument: int, received: seq<Received>, now: real)
    requires forall i :: 0 <= i < |received| ==> Recent(received[i].message, now)
    ensures CacheCount(nAuthor, nDocument, received, now).authors == nAuthor
    ensures CacheCount(nAuthor, nDocument, received, now).documents == nDocument
  {
    if received != [] {
      var raw := Messages(received);
      var ms := ByTime(raw);
      SameElements(ms, raw);
      forall i | 0 <= i < |ms|
        ensures Recent(ms[i], now)
      {
        var j :| 0 <= j < |raw| && raw[j] == ms[i];
      }
      RecentMessagesWait(ms, now);
      var t := Fold(ms, now);
      StateSumZero(t.authors.keys, t.authors.entries);
      StateSumZero(t.docs.keys, t.docs.entries);
    }
  }

  // ---------------------------------------------------------------------
  // update_stats: the hourly series

  /** An entry of `metrics`: its name and whether it is kept as a cumulative series. */
  datatype Metric = Metric(name: string, cumulative: bool, distribution: bool)

  const Metrics: seq<Metric> := [
    Metric("ads_query_count", true, true),
    Metric("authors_queried", true, true),
    Metric("coauthors_seen", true, true),
    Metric("cold_starts", true, false),
    Metric("connections_found", true, true),
    Metric("distance_found", false, true),
    Metric("docs_queried", true, true),
    Metric("docs_returned", true, true),
    Metric("duration_ads", true, true),
    Metric("duration_cache_authors", true, true),
    Metric("duration_cache_docs", true, true),
    Metric("duration_compute", true, true),
    Metric("duration_response", true, true),
    Metric("duration_search", true, true),
    Metric("duration_total", true, true),
    Metric("pf_count", true, false)
  ]

  /** `cumulative` of the data file: the timestamps and one series per cumulative metric. */
  type Cumulative = map<string, seq<real>>

  /** The data file: the hourly series and the cache sizes. */
  datatype Series = Series(timestamps: seq<int>, cumulative: Cumulative, authorSizes: seq<int>, documentSizes: seq<int>)

  /** Every cumulative metric has a non-empty series. */
  predicate HasSeries(cum: Cumulative, metrics: seq<Metric>) {
    forall i :: 0 <= i < |metrics| && metrics[i].cumulative ==> metrics[i].name in cum && cum[metrics[i].name] != []
  }

  /** Every cumulative metric has a series as long as the timestamp list. */
  predicate Aligned(timestamps: seq<int>, cum: Cumulative, metrics: seq<Metric>) {
    forall i :: 0 <= i < |metrics| && metrics[i].cumulative ==> metrics[i].name in cum && |cum[metrics[i].name]| == |timestamps|
  }

  function Last<T>(s: seq<T>): T
    requires s != []
  {
    s[|s| - 1]
  }

  function Repeat<T>(x: T, n: nat): (r: seq<T>)
    ensures |r| == n && forall i :: 0 <= i < n ==> r[i] == x
  {
    seq(n, i => x)
  }

  /** The hour's sum of a metric, in seconds rather than milliseconds for `duration_total`. */
  function Increment(name: string, t: int, hourSum: (string, int) -> real): real {
    if name == "duration_total" then hourSum(name, t) / 1000.0 else hourSum(name, t)
  }

  /**
   * The first `n` turns of the inner loop over `metrics` for one hour:
   * each cumulative series gets its last value plus the hour's sum.
   */
  function AddHour(cum: Cumulative, metrics: seq<Metric>, n: nat, t: int, hourSum: (string, int) -> real): (r: Cumulative)
    requires n <= |metrics| && HasSeries(cum, metrics)
    ensures r.Keys == cum.Keys && forall k :: k in cum ==> |r[k]| >= |cum[k]|
    ensures HasSeries(r, metrics)
    decreases n
  {
    if n == 0 then cum
    else
      var prev := AddHour(cum, metrics, n - 1, t, hourSum);
      var m := metrics[n - 1];
      if !m.cumulative then prev
      else
        assert m.name in cum && cum[m.name] != [];
        prev[m.name := prev[m.name] + [Last(prev[m.name]) + Increment(m.name, t, hourSum)]]
  }

  /** The outer loop: one more timestamp per whole hour after the last one and before `curHour`. */
  function Collect(timestamps: seq<int>, cum: Cumulative, metrics: seq<Metric>, curHour: int, hourSum: (string, int) -> real): (r: (seq<int>, Cumulative))
    requires timestamps != [] && HasSeries(cum, metrics)
    ensures |r.0| >= |timestamps| && HasSeries(r.1, metrics)
    decreases curHour - Last(timestamps)
  {
    var t := Last(timestamps) + Hour;
    if t >= curHour then (timestamps, cum)
    else Collect(timestamps + [t], AddHour(cum, metrics, |metrics|, t, hourSum), metrics, curHour, hourSum)
  }

  /** The `while timestamp < cur_hour` loop; `n` counts the hours it collected. */
  method FillHours(timestamps: seq<int>, cum: Cumulative, metrics: seq<Metric>, curHour: int, hourSum: (string, int) -> real)
    returns (ts: seq<int>, c: Cumulative, n: nat)
    requires timestamps != [] && HasSeries(cum, metrics)
    ensures (ts, c) == Collect(timestamps, cum, metrics, curHour, hourSum)
    ensures |ts| == |timestamps| + n
  {
    ts, c := timestamps, cum;
    n := 0;
    var timestamp := Last(ts) + Hour;
    while timestamp < curHour
      invariant ts != [] && HasSeries(c, metrics) && timestamp == Last(ts) + Hour
      invariant Collect(ts, c, metrics, curHour, hourSum) == Collect(timestamps, cum, metrics, curHour, hourSum)
      invariant |ts| == |timestamps| + n
      decreases curHour - timestamp
    {
      n := n + 1;
      ts := ts + [timestamp];
      c := AddMetrics(c, metrics, timestamp, hourSum);
      timestamp := timestamp + Hour;
    }
  }

  /** The loop over `metrics` for one hour. */
  method AddMetrics(cum: Cumulative, metrics: seq<Metric>, t: int, hourSum: (string, int) -> real) returns (c: Cumulative)
    requires HasSeries(cum, metrics)
    ensures c == AddHour(cum, metrics, |metrics|, t, hourSum)
  {
    c := cum;
    for i := 0 to |metrics|
      invariant c == AddHour(cum, metrics, i, t, hourSum)
    {
      var m := metrics[i];
      if m.cumulative {
        c := c[m.name := c[m.name] + [Last(c[m.name]) + Increment(m.name, t, hourSum)]];
      }
    }
  }

  /** No name is listed twice. */
  predicate DistinctNames(metrics: seq<Metric>) {
    forall i, j :: 0 <= i < j < |metrics| ==> metrics[i].name != metrics[j].name
  }

  /** The job's own metric list names each metric once. */
  lemma MetricsDistinct()
    ensures DistinctNames(Metrics)
  {
    forall i, j | 0 <= i < j < |Metrics|
      ensures Metrics[i].name != Metrics[j].name
    {
      // Most pairs already differ in length or in their first three letters.
      assert |Metrics[i].name| != |Metrics[j].name| || Metrics[i].name[..3] != Metrics[j].name[..3] || Metrics[i].name != Metrics[j].name;
    }
  }

  /** With distinct names, one hour adds one value to each cumulative series and changes nothing else. */
  lemma {:induction false} AddHourMeaning(cum: Cumulative, metrics: seq<Metric>, n: nat, t: int, hourSum: (string, int) -> real)
    requires n <= |metrics| && HasSeries(cum, metrics) && DistinctNames(metrics)
    ensures forall i :: 0 <= i < n && metrics[i].cumulative ==>
              AddHour(cum, metrics, n, t, hourSum)[metrics[i].name] ==
              cum[metrics[i].name] + [Last(cum[metrics[i].name]) + Increment(metrics[i].name, t, hourSum)]
    ensures forall k :: k in cum && (forall i :: 0 <= i < n && metrics[i].cumulative ==> metrics[i].name != k) ==>
              AddHour(cum, metrics, n, t, hourSum)[k] == cum[k]
    decreases n
  {
    if n > 0 {
      var m := metrics[n - 1];
      AddHourMeaning(cum, metrics, n - 1, t, hourSum);
      var prev := AddHour(cum, metrics, n - 1, t, hourSum);
      var r := AddHour(cum, metrics, n, t, hourSum);
      assert m.cumulative ==> prev[m.name] == cum[m.name];
      forall i | 0 <= i < n && metrics[i].cumulative
        ensures r[metrics[i].name] == cum[metrics[i].name] + [Last(cum[metrics[i].name]) + Increment(metrics[i].name, t, hourSum)]
      {
        if i < n - 1 {
          assert metrics[i].name != m.name;
          assert r[metrics[i].name] == prev[metrics[i].name];
        }
      }
    }
  }

  /**
   * The hour filling keeps every cumulative series aligned with the
   * timestamps: each grows by exactly the number of hours collected.
   */
  lemma {:induction false} CollectAligned(timestamps: seq<int>, cum: Cumulative, metrics: seq<Metric>, curHour: int, hourSum: (string, int) -> real)
    requires timestamps != [] && HasSeries(cum, metrics) && DistinctNames(metrics) && Aligned(timestamps, cum, metrics)
    ensures Aligned(Collect(timestamps, cum, metrics, curHour, hourSum).0, Collect(timestamps, cum, metrics, curHour, hourSum).1, metrics)
    decreases curHour - Last(timestamps)
  {
    var t := Last(timestamps) + Hour;
    if t < curHour {
      AddHourMeaning(cum, metrics, |metrics|, t, hourSum);
      CollectAligned(timestamps + [t], AddHour(cum, metrics, |metrics|, t, hourSum), metrics, curHour, hourSum);
    }
  }

  /** The whole hours after `last` and before `curHour`. */
  function Hours(last: int, curHour: int): seq<int>
    decreases curHour - last
  {
    if last + Hour >= curHour then [] else [last + Hour] + Hours(last + Hour, curHour)
  }

  /** The hours collected are all hours after the last timestamp, one apart and each before `curHour`, and no more. */
  lemma {:induction false} HoursMeaning(last: int, curHour: int)
    ensures forall i :: 0 <= i < |Hours(last, curHour)| ==> Hours(last, curHour)[i] == last + (i + 1) * Hour && Hours(last, curHour)[i] < curHour
    ensures last + (|Hours(last, curHour)| + 1) * Hour >= curHour
    decreases curHour - last
  {
    if last + Hour < curHour {
      HoursMeaning(last + Hour, curHour);
    }
  }

  /** The timestamp list gains exactly `Hours`. */
  lemma {:induction false} CollectHours(timestamps: seq<int>, cum: Cumulative, metrics: seq<Metric>, curHour: int, hourSum: (string, int) -> real)
    requires timestamps != [] && HasSeries(cum, metrics)
    ensures Collect(timestamps, cum, metrics, curHour, hourSum).0 == timestamps + Hours(Last(timestamps), curHour)
    decreases curHour - Last(timestamps)
  {
    var t := Last(timestamps) + Hour;
    if t < curHour {
      CollectHours(timestamps + [t], AddHour(cum, metrics, |metrics|, t, hourSum), metrics, curHour, hourSum);
      assert timestamps + [t] + Hours(t, curHour) == timestamps + ([t] + Hours(t, curHour));
    }
  }

  // ---------------------------------------------------------------------
  // update_stats: the data file around the hours

  /** `[0] * n`. */
  function Zeros(n: nat): (r: seq<real>)
    ensures |r| == n
  {
    seq(n, i => 0.0)
  }

  /** Series for the cumulative metrics the file lacks, `n` zeros each. */
  function Padded(cum: Cumulative, metrics: seq<Metric>, n: nat): (r: Cumulative)
    ensures forall k :: k in cum ==> k in r && r[k] == cum[k]
    ensures forall i :: 0 <= i < |metrics| && metrics[i].cumulative ==>
              metrics[i].name in r && (metrics[i].name !in cum ==> r[metrics[i].name] == Zeros(n))
    ensures forall k :: k in r ==> k in cum || exists i :: 0 <= i < |metrics| && metrics[i].cumulative && metrics[i].name == k
    decreases |metrics|
  {
    if metrics == [] then cum
    else
      var init := metrics[..|metrics| - 1];
      var m := metrics[|metrics| - 1];
      var prev := Padded(cum, init, n);
      assert forall i :: 0 <= i < |init| ==> init[i] == metrics[i];
      if m.cumulative && m.name !in prev then prev[m.name := Zeros(n)] else prev
  }

  /** The loop that pads the metrics added since the file was written. */
  method PadMissing(cum: Cumulative, metrics: seq<Metric>, n: nat) returns (c: Cumulative)
    ensures c == Padded(cum, metrics, n)
  {
    c := cum;
    for i := 0 to |metrics|
      invariant c == Padded(cum, metrics[..i], n)
    {
      assert metrics[..i + 1][..i] == metrics[..i];
      var m := metrics[i];
      if m.cumulative && m.name !in c {
        c := c[m.name := Zeros(n)];
      }
    }
    assert metrics[..|metrics|] == metrics;
  }

  /** `[n_authors] * (n - 1)` then the updated count. */
  function PadSizes(sizes: seq<int>, n: nat, updated: int): (r: seq<int>)
    requires sizes != [] && n > 0
    ensures |r| == |sizes| + n && r[..|sizes|] == sizes
    ensures forall i :: |sizes| <= i < |sizes| + n - 1 ==> r[i] == Last(sizes)
    ensures r[|r| - 1] == updated
  {
    sizes + Repeat(Last(sizes), n - 1) + [updated]
  }

  /** The file content `update_stats` starts from: what is stored, padded, or one day's empty data. */
  function Initial(existing: Option<Series>, metrics: seq<Metric>, curHour: int): Series {
    if existing.Some? then
      existing.value.(cumulative := Padded(existing.value.cumulative, metrics, |existing.value.timestamps|))
    else Series([curHour - Day], Padded(map[], metrics, 1), [0], [0])
  }

  method Start(existing: Option<Series>, metrics: seq<Metric>, curHour: int) returns (s: Series)
    ensures s == Initial(existing, metrics, curHour)
  {
    if existing.Some? {
      var d := existing.value;
      var c := PadMissing(d.cumulative, metrics, |d.timestamps|);
      s := d.(cumulative := c);
    } else {
      var c := PadMissing(map[], metrics, 1);
      s := Series([curHour - Day], c, [0], [0]);
    }
  }

  /** A file the job can extend: series to take the last value of, and cache sizes. */
  predicate Extendable(s: Series, metrics: seq<Metric>) {
    s.timestamps != [] && s.authorSizes != [] && s.documentSizes != [] &&
    forall i :: 0 <= i < |metrics| && metrics[i].cumulative && metrics[i].name in s.cumulative ==> s.cumulative[metrics[i].name] != []
  }

  /** After padding, every cumulative metric has a series to take the last value of. */
  lemma PaddedHasSeries(cum: Cumulative, metrics: seq<Metric>, n: nat)
    requires n > 0
    requires forall i :: 0 <= i < |metrics| && metrics[i].cumulative && metrics[i].name in cum ==> cum[metrics[i].name] != []
    ensures HasSeries(Padded(cum, metrics, n), metrics)
  {
    var r := Padded(cum, metrics, n);
    forall i | 0 <= i < |metrics| && metrics[i].cumulative
      ensures r[metrics[i].name] != []
    {
      if metrics[i].name !in cum {
        assert |r[metrics[i].name]| == n;
      }
    }
  }

  lemma InitialExtendable(existing: Option<Series>, metrics: seq<Metric>, curHour: int)
    requires existing.Some? ==> Extendable(existing.value, metrics)
    ensures Extendable(Initial(existing, metrics, curHour), metrics)
    ensures HasSeries(Initial(existing, metrics, curHour).cumulative, metrics)
  {
    if existing.Some? {
      PaddedHasSeries(existing.value.cumulative, metrics, |existing.value.timestamps|);
    } else {
      PaddedHasSeries(map[], metrics, 1);
    }
  }

  /**
   * `update_stats` without the distributions, the archive and the plots:
   * the hours since the last update are collected, and when there was at
   * least one, the cache sizes get a value per new hour, the updated count
   * last, and the file is saved (the second component).
   */
  function Updated(existing: Option<Series>, metrics: seq<Metric>, curHour: int, hourSum: (string, int) -> real,
                   received: seq<Received>, now: real): (r: (Series, Option<Outcome>))
    requires existing.Some? ==> Extendable(existing.value, metrics)
    ensures var p := Initial(existing, metrics, curHour);
            var n := |r.0.timestamps| - |p.timestamps|;
            n >= 0 && (r.1.Some? <==> n > 0) &&
            |r.0.authorSizes| == |p.authorSizes| + n && |r.0.documentSizes| == |p.documentSizes| + n
  {
    InitialExtendable(existing, metrics, curHour);
    var p := Initial(existing, metrics, curHour);
    var (ts, cum) := Collect(p.timestamps, p.cumulative, metrics, curHour, hourSum);
    if |ts| <= |p.timestamps| then (p.(timestamps := ts, cumulative := cum), None)
    else
      var n := |ts| - |p.timestamps|;
      var o := CacheCount(Last(p.authorSizes), Last(p.documentSizes), received, now);
      (Series(ts, cum, PadSizes(p.authorSizes, n, o.authors), PadSizes(p.documentSizes, n, o.documents)), Some(o))
  }

  method UpdateStats(existing: Option<Series>, metrics: seq<Metric>, curHour: int, hourSum: (string, int) -> real,
                     received: seq<Received>, now: real)
    returns (s: Series, n: nat, o: Option<Outcome>)
    requires existing.Some? ==> Extendable(existing.value, metrics)
    ensures (s, o) == Updated(existing, metrics, curHour, hourSum, received, now)
    ensures n == |Hours(Last(Initial(existing, metrics, curHour).timestamps), curHour)|
  {
    var start := Start(existing, metrics, curHour);
    InitialExtendable(existing, metrics, curHour);
    var ts, cum;
    ts, cum, n := FillHours(start.timestamps, start.cumulative, metrics, curHour, hourSum);
    CollectHours(start.timestamps, start.cumulative, metrics, curHour, hourSum);
    s := start.(timestamps := ts, cumulative := cum);
    o := None;
    if n > 0 {
      var nAuthors := Last(s.authorSizes);
      var nDocs := Last(s.documentSizes);
      var out := GetUpdatedCacheCount(nAuthors, nDocs, received, now);
      o := Some(out);
      s := s.(authorSizes := s.authorSizes + Repeat(nAuthors, n - 1) + [out.authors],
              documentSizes := s.documentSizes + Repeat(nDocs, n - 1) + [out.documents]);
    }
  }

  /** Every stored series has one value per timestamp; a metric the file lacks is allowed. */
  predicate Consistent(s: Series, metrics: seq<Metric>) {
    s.timestamps != [] &&
    |s.authorSizes| == |s.timestamps| && |s.documentSizes| == |s.timestamps| &&
    forall i :: 0 <= i < |metrics| && metrics[i].cumulative && metrics[i].name in s.cumulative ==>
      |s.cumulative[metrics[i].name]| == |s.timestamps|
  }

  /**
   * A consistent file stays consistent: the timestamps gain exactly the
   * whole hours since the last one, and every series and both cache size
   * lists gain one value per hour.  A missing file starts consistent.
   */
  lemma UpdatedConsistent(existing: Option<Series>, metrics: seq<Metric>, curHour: int, hourSum: (string, int) -> real,
                          received: seq<Received>, now: real)
    requires DistinctNames(metrics)
    requires existing.Some? ==> Consistent(existing.value, metrics)
    ensures existing.Some? ==> Extendable(existing.value, metrics)
    ensures Consistent(Updated(existing, metrics, curHour, hourSum, received, now).0, metrics)
    ensures var p := Initial(existing, metrics, curHour);
            Updated(existing, metrics, curHour, hourSum, received, now).0.timestamps ==
              p.timestamps + Hours(Last(p.timestamps), curHour)
  {
    InitialExtendable(existing, metrics, curHour);
    var p := Initial(existing, metrics, curHour);
    assert Aligned(p.timestamps, p.cumulative, metrics);
    CollectHours(p.timestamps, p.cumulative, metrics, curHour, hourSum);
    CollectAligned(p.timestamps, p.cumulative, metrics, curHour, hourSum);
  }
}
