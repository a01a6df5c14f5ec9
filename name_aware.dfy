/**
 * Dictionaries and sets keyed by author names (name_aware.py).
 *
 * Names that compare equal under ADS's matching rules need not be identical,
 * so entries cannot be hashed: they are kept in buckets by last name, and a
 * lookup scans the key's bucket for the first entry whose name equals the
 * key.  The buckets live in a defaultdict, so reading a missing last name
 * creates an empty bucket; buckets are walked in insertion order.
 */
module NameAware {

  import opened Wrappers
  import opened AdsName

  /** `ContainerWithName`: an entry and the name it was stored under. */
  datatype Entry<V> = Entry(name: ADSName, value: V)

  type Bucket<V> = seq<Entry<V>>

  /** `items_by_last_name` as a value: bucket keys in insertion order and the buckets. */
  datatype DictState<V> = DictState(order: seq<string>, buckets: map<string, Bucket<V>>)

  predicate Distinct(s: seq<string>) {
    forall i, j :: 0 <= i < j < |s| ==> s[i] != s[j]
  }

  ghost predicate StateValid<V>(s: DictState<V>) {
    Distinct(s.order) && forall k :: k in s.order <==> k in s.buckets
  }

  /** Index of the first entry whose name equals `key`. */
  function FirstMatch<V>(items: Bucket<V>, key: ADSName): (r: Option<nat>)
    ensures r.Some? ==> r.value < |items|
  {
    if items == [] then None
    else if Equals(items[0].name, key) then Some(0)
    else match FirstMatch(items[1..], key)
      case None => None
      case Some(i) => Some(i + 1)
  }

  /** `FirstMatch` finds the first entry whose name equals `key`, and reports none only when no entry does. */
  lemma {:induction false} FirstMatchSpec<V>(items: Bucket<V>, key: ADSName)
    ensures FirstMatch(items, key).Some? ==> Equals(items[FirstMatch(items, key).value].name, key)
    ensures FirstMatch(items, key).Some? ==> forall j :: 0 <= j < FirstMatch(items, key).value ==> !Equals(items[j].name, key)
    ensures FirstMatch(items, key).None? ==> forall j :: 0 <= j < |items| ==> !Equals(items[j].name, key)
  {
    if items != [] && !Equals(items[0].name, key) {
      FirstMatchSpec(items[1..], key);
      assert forall j :: 1 <= j < |items| ==> items[j] == items[1..][j - 1];
    }
  }

  function BucketOf<V>(s: DictState<V>, last: string): Bucket<V> {
    if last in s.buckets then s.buckets[last] else []
  }

  /** The value `__getitem__` returns, or `None` where it raises KeyError. */
  function Lookup<V>(s: DictState<V>, key: ADSName): (r: Option<V>)
  {
    var items := BucketOf(s, key.lastName);
    match FirstMatch(items, key)
    case None => None
    case Some(i) => Some(items[i].value)
  }

  /**
   * `Lookup` gives a value exactly when an entry of the key's last-name
   * bucket equals the key, and then the value of the first such entry.
   */
  lemma LookupSpec<V>(s: DictState<V>, key: ADSName)
    ensures Lookup(s, key).Some? <==>
              exists i :: 0 <= i < |BucketOf(s, key.lastName)| && Equals(BucketOf(s, key.lastName)[i].name, key)
    ensures Lookup(s, key).Some? ==>
              exists i :: 0 <= i < |BucketOf(s, key.lastName)| && Equals(BucketOf(s, key.lastName)[i].name, key) &&
                Lookup(s, key).value == BucketOf(s, key.lastName)[i].value &&
                forall j :: 0 <= j < i ==> !Equals(BucketOf(s, key.lastName)[j].name, key)
  {
    FirstMatchSpec(BucketOf(s, key.lastName), key);
  }

  /** Reading `items_by_last_name[last]` through the defaultdict. */
  function Touch<V>(s: DictState<V>, last: string): (r: DictState<V>)
    ensures last in r.buckets
  {
    if last in s.buckets then s else DictState(s.order + [last], s.buckets[last := []])
  }

  /** `__setitem__`: replace the first matching entry, otherwise append. */
  function SetStep<V>(s: DictState<V>, key: ADSName, value: V): DictState<V> {
    var t := Touch(s, key.lastName);
    var items := t.buckets[key.lastName];
    match FirstMatch(items, key)
    case Some(i) => t.(buckets := t.buckets[key.lastName := items[i := Entry(key, value)]])
    case None => t.(buckets := t.buckets[key.lastName := items + [Entry(key, value)]])
  }

  /** `order` with `k` taken out. */
  function Without(order: seq<string>, k: string): (r: seq<string>)
    ensures forall x :: x in r <==> x in order && x != k
    ensures Distinct(order) ==> Distinct(r)
  {
    if order == [] then []
    else if order[0] == k then Without(order[1..], k)
    else
      var r := [order[0]] + Without(order[1..], k);
      assert Distinct(order) ==> Distinct(r) by {
        if Distinct(order) {
          assert order[0] !in order[1..];
        }
      }
      r
  }

  /** `__delitem__`: remove the first matching entry and drop its bucket if that empties it. */
  function DeleteStep<V>(s: DictState<V>, key: ADSName): DictState<V> {
    var last := key.lastName;
    var t := Touch(s, last);
    var items := t.buckets[last];
    match FirstMatch(items, key)
    case None => t
    case Some(i) =>
      var rest := items[..i] + items[i + 1..];
      if rest == [] then DictState(Without(t.order, last), t.buckets - {last})
      else t.(buckets := t.buckets[last := rest])
  }

  /** Every entry, bucket by bucket in insertion order: what iteration yields. */
  function Flatten<V>(order: seq<string>, buckets: map<string, Bucket<V>>): Bucket<V>
    requires forall k :: k in order ==> k in buckets
  {
    if order == [] then []
    else Flatten(order[..|order| - 1], buckets) + buckets[order[|order| - 1]]
  }

  function Entries<V>(s: DictState<V>): Bucket<V>
    requires forall k :: k in s.order ==> k in s.buckets
  {
    Flatten(s.order, s.buckets)
  }

  function Names<V>(e: Bucket<V>): (r: seq<ADSName>)
    ensures |r| == |e| && forall i :: 0 <= i < |e| ==> r[i] == e[i].name
  {
    seq(|e|, i requires 0 <= i < |e| => e[i].name)
  }

  function Values<V>(e: Bucket<V>): (r: seq<V>)
    ensures |r| == |e| && forall i :: 0 <= i < |e| ==> r[i] == e[i].value
  {
    seq(|e|, i requires 0 <= i < |e| => e[i].value)
  }

  class NameAwareDict<V> {
    var order: seq<string>
    var buckets: map<string, Bucket<V>>

    function State(): DictState<V>
      reads this
    {
      DictState(order, buckets)
    }

    ghost predicate Valid()
      reads this
    {
      StateValid(State())
    }

    /** `__init__` / `clear`: no buckets. */
    constructor ()
      ensures Valid() && State() == DictState([], map[])
    {
      order := [];
      buckets := map[];
    }

    method Clear()
      modifies this
      ensures Valid() && State() == DictState([], map[])
    {
      order := [];
      buckets := map[];
    }

    /** The defaultdict read of `items_by_last_name[last]`. */
    method TouchBucket(last: string) returns (items: Bucket<V>)
      requires Valid()
      modifies this
      ensures Valid()
      ensures State() == Touch(old(State()), last)
      ensures items == buckets[last]
    {
      if last !in buckets {
        order := order + [last];
        buckets := buckets[last := []];
      }
      items := buckets[last];
    }

    /** `__getitem__`: `None` where Python raises KeyError. */
    method Get(key: ADSName) returns (r: Option<V>)
      requires Valid()
      modifies this
      ensures Valid()
      ensures State() == Touch(old(State()), key.lastName)
      ensures r == Lookup(old(State()), key)
    {
      var items := TouchBucket(key.lastName);
      var i := FindFirst(items, key);
      r := if i.Some? then Some(items[i.value].value) else None;
    }

    /** `__contains__`. */
    method Contains(key: ADSName) returns (r: bool)
      requires Valid()
      modifies this
      ensures Valid()
      ensures State() == Touch(old(State()), key.lastName)
      ensures r == Lookup(old(State()), key).Some?
    {
      var items := TouchBucket(key.lastName);
      var i := FindFirst(items, key);
      r := i.Some?;
    }

    /** `__setitem__`. */
    method Set(key: ADSName, value: V)
      requires Valid()
      modifies this
      ensures Valid()
      ensures State() == SetStep(old(State()), key, value)
    {
      var items := TouchBucket(key.lastName);
      var i := FindFirst(items, key);
      if i.Some? {
        buckets := buckets[key.lastName := items[i.value := Entry(key, value)]];
      } else {
        buckets := buckets[key.lastName := items + [Entry(key, value)]];
      }
    }

    /** `__delitem__`: does nothing (beyond the defaultdict read) when no entry matches. */
    method Delete(key: ADSName)
      requires Valid()
      modifies this
      ensures Valid()
      ensures State() == DeleteStep(old(State()), key)
    {
      var last := key.lastName;
      var items := TouchBucket(last);
      var i := FindFirst(items, key);
      if i.Some? {
        var rest := items[..i.value] + items[i.value + 1..];
        if rest == [] {
          order := Without(order, last);
          buckets := buckets - {last};
        } else {
          buckets := buckets[last := rest];
        }
      }
    }

    /** `__len__`: the number of entries over all buckets. */
    method Len() returns (count: nat)
      requires Valid()
      ensures count == |Entries(State())|
    {
      count := 0;
      var i := 0;
      while i < |order|
        invariant 0 <= i <= |order|
        invariant count == |Flatten(order[..i], buckets)|
      {
        assert order[..i + 1][..i] == order[..i];
        count := count + |buckets[order[i]]|;
        i := i + 1;
      }
      assert order[..i] == order;
    }

    /** `keys()` (and `__iter__`): the entries' names, bucket by bucket. */
    method Keys() returns (r: seq<ADSName>)
      requires Valid()
      ensures r == Names(Entries(State()))
    {
      var all := AllEntries();
      r := [];
      var i := 0;
      while i < |all|
        invariant 0 <= i <= |all|
        invariant r == Names(all[..i])
      {
        r := r + [all[i].name];
        i := i + 1;
      }
      assert all[..i] == all;
    }

    /** `values()`: the entries' values, in the same order as `keys()`. */
    method ValuesList() returns (r: seq<V>)
      requires Valid()
      ensures r == Values(Entries(State()))
    {
      var all := AllEntries();
      r := [];
      var i := 0;
      while i < |all|
        invariant 0 <= i <= |all|
        invariant r == Values(all[..i])
      {
        r := r + [all[i].value];
        i := i + 1;
      }
      assert all[..i] == all;
    }

    /** `items()`: `zip(keys(), values())`. */
    method Items() returns (r: seq<(ADSName, V)>)
      requires Valid()
      ensures |r| == |Entries(State())|
      ensures forall i :: 0 <= i < |r| ==> r[i] == (Entries(State())[i].name, Entries(State())[i].value)
    {
      var ks := Keys();
      var vs := ValuesList();
      r := seq(|ks|, i requires 0 <= i < |ks| => (ks[i], vs[i]));
    }

    /** The walk over the buckets that `__iter__` and `values` share. */
    method AllEntries() returns (all: Bucket<V>)
      requires Valid()
      ensures all == Entries(State())
    {
      all := [];
      var i := 0;
      while i < |order|
        invariant 0 <= i <= |order|
        invariant all == Flatten(order[..i], buckets)
      {
        assert order[..i + 1][..i] == order[..i];
        all := all + buckets[order[i]];
        i := i + 1;
      }
      assert order[..i] == order;
    }
  }

  /** The scan of one bucket: the index of the first container whose name equals the key. */
  method FindFirst<V>(items: Bucket<V>, key: ADSName) returns (r: Option<nat>)
    ensures r == FirstMatch(items, key)
  {
    var i := 0;
    while i < |items|
      invariant 0 <= i <= |items|
      invariant FirstMatch(items, key) == FirstMatchFrom(items, i, key)
    {
      if Equals(items[i].name, key) {
        FirstMatchAt(items, i, key);
        return Some(i);
      }
      i := i + 1;
    }
    r := None;
  }

  /** `FirstMatch` once the first `i` entries are known not to match. */
  function FirstMatchFrom<V>(items: Bucket<V>, i: nat, key: ADSName): Option<nat>
    requires i <= |items|
  {
    match FirstMatch(items[i..], key)
    case None => None
    case Some(j) => Some(i + j)
  }

  lemma FirstMatchAt<V>(items: Bucket<V>, i: nat, key: ADSName)
    requires i < |items| && Equals(items[i].name, key)
    requires FirstMatch(items, key) == FirstMatchFrom(items, i, key)
    ensures FirstMatch(items, key) == Some(i)
  {
  }

  // ---------------------------------------------------------------------
  // Properties

  lemma {:induction false} FlattenOutside<V>(order: seq<string>, buckets: map<string, Bucket<V>>, k: string, b: Bucket<V>)
    requires forall x :: x in order ==> x in buckets
    requires k !in order
    ensures Flatten(order, buckets[k := b]) == Flatten(order, buckets)
  {
    if order != [] {
      FlattenOutside(order[..|order| - 1], buckets, k, b);
    }
  }

  /** Reading an unseen last name adds an empty bucket and changes no entry, key or value. */
  lemma TouchKeepsEntries<V>(s: DictState<V>, last: string)
    requires StateValid(s)
    ensures StateValid(Touch(s, last))
    ensures Entries(Touch(s, last)) == Entries(s)
  {
    if last !in s.buckets {
      var t := Touch(s, last);
      FlattenOutside(s.order, s.buckets, last, []);
      assert t.order[..|t.order| - 1] == s.order;
    }
  }

  /** A get straight after `set(k, v)` returns `v`. */
  lemma GetAfterSet<V>(s: DictState<V>, key: ADSName, value: V)
    ensures Lookup(SetStep(s, key, value), key) == Some(value)
  {
    EqualsReflexive(key);
    var t := Touch(s, key.lastName);
    var items := t.buckets[key.lastName];
    FirstMatchSpec(items, key);
    match FirstMatch(items, key)
    case Some(i) =>
      var n := items[i := Entry(key, value)];
      assert FirstMatch(n, key) == Some(i) by { FirstMatchPrefix(items, n, i, key); }
    case None =>
      var n := items + [Entry(key, value)];
      assert FirstMatch(n, key) == Some(|items|) by { FirstMatchPrefix(items, n, |items|, key); }
  }

  /** Entries before `i` that match nowhere in `a` match nowhere in `b` either. */
  lemma FirstMatchPrefix<V>(a: Bucket<V>, b: Bucket<V>, i: nat, key: ADSName)
    requires i < |b| && i <= |a| && a[..i] == b[..i]
    requires forall j :: 0 <= j < i ==> !Equals(a[j].name, key)
    requires Equals(b[i].name, key)
    ensures FirstMatch(b, key) == Some(i)
  {
    FirstMatchSpec(b, key);
    assert forall j :: 0 <= j < i ==> b[j] == b[..i][j] == a[..i][j] == a[j];
  }

  /** Setting under one last name leaves the other buckets alone. */
  lemma SetIsolatesLastNames<V>(s: DictState<V>, key: ADSName, value: V, other: string)
    requires other != key.lastName
    ensures BucketOf(SetStep(s, key, value), other) == BucketOf(s, other)
  {
  }

  lemma {:induction false} FlattenLength<V>(order: seq<string>, buckets: map<string, Bucket<V>>, k: string, b: Bucket<V>)
    requires forall x :: x in order ==> x in buckets
    requires Distinct(order) && k in order
    ensures |Flatten(order, buckets[k := b])| == |Flatten(order, buckets)| - |buckets[k]| + |b|
  {
    var init := order[..|order| - 1];
    assert Distinct(init);
    if order[|order| - 1] == k {
      assert k !in init;
      FlattenOutside(init, buckets, k, b);
    } else {
      assert k in init by {
        var j :| 0 <= j < |order| && order[j] == k;
        assert init[j] == k;
      }
      FlattenLength(init, buckets, k, b);
    }
  }

  /** `len` grows by one under `set` exactly when no entry matched the key. */
  lemma LenAfterSet<V>(s: DictState<V>, key: ADSName, value: V)
    requires StateValid(s)
    ensures StateValid(SetStep(s, key, value))
    ensures |Entries(SetStep(s, key, value))| == |Entries(s)| + (if Lookup(s, key).None? then 1 else 0)
  {
    var t := Touch(s, key.lastName);
    TouchKeepsEntries(s, key.lastName);
    var items := t.buckets[key.lastName];
    assert BucketOf(s, key.lastName) == items;
    match FirstMatch(items, key)
    case Some(i) =>
      FlattenLength(t.order, t.buckets, key.lastName, items[i := Entry(key, value)]);
    case None =>
      FlattenLength(t.order, t.buckets, key.lastName, items + [Entry(key, value)]);
  }

  lemma {:induction false} FlattenWithoutEmpty<V>(order: seq<string>, buckets: map<string, Bucket<V>>, k: string)
    requires forall x :: x in order ==> x in buckets
    requires k in buckets && buckets[k] == []
    ensures Flatten(Without(order, k), buckets - {k}) == Flatten(order, buckets)
    decreases |order|
  {
    var smaller := buckets - {k};
    if order != [] {
      var rest := order[1..];
      assert order == [order[0]] + rest;
      var w := Without(rest, k);
      assert forall x :: x in w ==> x in smaller;
      FlattenWithoutEmpty(rest, buckets, k);
      assert Flatten(w, smaller) == Flatten(rest, buckets);
      FlattenCons(order[0], rest, buckets);
      if order[0] == k {
        assert Without(order, k) == w;
      } else {
        assert Without(order, k) == [order[0]] + w;
        FlattenCons(order[0], w, smaller);
        assert smaller[order[0]] == buckets[order[0]];
      }
    }
  }

  lemma {:induction false} FlattenCons<V>(k: string, rest: seq<string>, buckets: map<string, Bucket<V>>)
    requires k in buckets && forall x :: x in rest ==> x in buckets
    ensures Flatten([k] + rest, buckets) == buckets[k] + Flatten(rest, buckets)
    decreases |rest|
  {
    if rest != [] {
      var o := [k] + rest;
      assert o[..|o| - 1] == [k] + rest[..|rest| - 1];
      FlattenCons(k, rest[..|rest| - 1], buckets);
    } else {
      assert [k] + rest == [k];
      assert [k][..0] == [];
    }
  }

  /** `del` removes exactly one entry when some entry matched, and none otherwise. */
  lemma LenAfterDelete<V>(s: DictState<V>, key: ADSName)
    requires StateValid(s)
    ensures StateValid(DeleteStep(s, key))
    ensures |Entries(DeleteStep(s, key))| == |Entries(s)| - (if Lookup(s, key).Some? then 1 else 0)
  {
    var last := key.lastName;
    var t := Touch(s, last);
    TouchKeepsEntries(s, last);
    var items := t.buckets[last];
    assert BucketOf(s, last) == items;
    match FirstMatch(items, key)
    case None =>
    case Some(i) =>
      var rest := items[..i] + items[i + 1..];
      FlattenLength(t.order, t.buckets, last, rest);
      if rest == [] {
        FlattenWithoutEmpty(t.order, t.buckets[last := rest], last);
        assert t.buckets[last := rest] - {last} == t.buckets - {last};
      }
  }

  /** Keys and values walk the same entries, so `items()` pairs them by position. */
  lemma KeysAlignWithValues<V>(e: Bucket<V>)
    ensures |Names(e)| == |Values(e)|
    ensures forall i :: 0 <= i < |e| ==> Entry(Names(e)[i], Values(e)[i]) == e[i]
  {
  }

  // ---------------------------------------------------------------------
  // NameAwareSet

  /** `NameAwareSet`: a name-aware dictionary whose values are the names themselves. */
  class NameAwareSet {
    const dict: NameAwareDict<ADSName>

    ghost predicate Valid()
      reads this, dict
    {
      dict.Valid()
    }

    function State(): DictState<ADSName>
      reads this, dict
    {
      dict.State()
    }

    constructor ()
      ensures Valid() && State() == DictState([], map[])
      ensures fresh(dict)
    {
      dict := new NameAwareDict();
    }

    /** `add(x)` stores `x` as both key and value. */
    method Add(item: ADSName)
      requires Valid()
      modifies dict
      ensures Valid()
      ensures State() == SetStep(old(State()), item, item)
    {
      dict.Set(item, item);
    }

    method Contains(item: ADSName) returns (r: bool)
      requires Valid()
      modifies dict
      ensures Valid()
      ensures State() == Touch(old(State()), item.lastName)
      ensures r == Lookup(old(State()), item).Some?
    {
      r := dict.Contains(item);
    }

    method Len() returns (count: nat)
      requires Valid()
      ensures count == |Entries(State())|
    {
      count := dict.Len();
    }

    method Iter() returns (r: seq<ADSName>)
      requires Valid()
      ensures r == Names(Entries(State()))
    {
      r := dict.Keys();
    }

    method ValuesList() returns (r: seq<ADSName>)
      requires Valid()
      ensures r == Values(Entries(State()))
    {
      r := dict.ValuesList();
    }
  }

  /** After `add(x)`, `x` is a member. */
  lemma AddThenContains(s: DictState<ADSName>, x: ADSName)
    ensures Lookup(SetStep(s, x, x), x) == Some(x)
  {
    GetAfterSet(s, x, x);
  }
}
