/**
 * The bidirectional breadth-first search over the coauthor graph
 * (path_finder.py).  The search grows a frontier from the source author and
 * one from the destination author, always expanding the smaller one, until
 * some author is reached from both sides; it then makes every link
 * two-way and prunes the links that are not on a shortest route.
 *
 * The repository is a given function from an author name to that author's
 * record.
 */
module PathFinders {

  import opened Wrappers
  import opened PyStr
  import opened AdsName
  import opened NameAware
  import opened AuthorRecords
  import opened PathNodes
  import opened FinalGraph
  import AdsBuddy

  datatype FindError =
    | PathFinderError(key: string)   // "src_empty", "dest_empty" or "no_authors_to_expand"
    | KeyError                       // a lookup or removal of an entry that is not there
    | InvalidName(text: string)      // a name that does not parse
    | OutOfFuel                      // the loop bound given to the model ran out

  // ---------------------------------------------------------------------
  // Exclusions

  /** The values `f(x)` that `p` rejects, in order. */
  function Rejected(xs: seq<string>, f: string -> string, p: string -> bool): (r: seq<string>)
    ensures forall t :: t in r ==> exists x :: x in xs && t == f(x) && !p(t)
  {
    if xs == [] then []
    else
      var rest := Rejected(xs[1..], f, p);
      assert forall t :: t in rest ==> exists x :: x in xs && t == f(x) && !p(t) by {
        forall t | t in rest ensures exists x :: x in xs && t == f(x) && !p(t) {
          var x :| x in xs[1..] && t == f(x) && !p(t);
          assert x in xs;
        }
      }
      if p(f(xs[0])) then rest else [f(xs[0])] + rest
  }

  /** The values `f(x)` that `p` accepts. */
  function Accepted(xs: seq<string>, f: string -> string, p: string -> bool): set<string> {
    set x | x in xs && p(f(x)) :: f(x)
  }

  /** Every value lands on exactly one side. */
  lemma {:induction false} SplitCovers(xs: seq<string>, f: string -> string, p: string -> bool, x: string)
    requires x in xs
    ensures p(f(x)) ==> f(x) in Accepted(xs, f, p)
    ensures !p(f(x)) ==> f(x) in Rejected(xs, f, p)
  {
    if xs[0] != x {
      SplitCovers(xs[1..], f, p, x);
    }
  }

  lemma {:induction false} RejectedAppend(xs: seq<string>, f: string -> string, p: string -> bool, x: string)
    ensures Rejected(xs + [x], f, p) == Rejected(xs, f, p) + (if p(f(x)) then [] else [f(x)])
  {
    if xs == [] {
      assert [x][1..] == [];
    } else {
      assert (xs + [x])[1..] == xs[1..] + [x];
      RejectedAppend(xs[1..], f, p, x);
    }
  }

  lemma AcceptedAppend(xs: seq<string>, f: string -> string, p: string -> bool, x: string)
    ensures Accepted(xs + [x], f, p) == Accepted(xs, f, p) + (if p(f(x)) then {f(x)} else {})
  {
    var a, b := Accepted(xs + [x], f, p), Accepted(xs, f, p) + (if p(f(x)) then {f(x)} else {});
    forall t | t in a ensures t in b {
      var y :| y in xs + [x] && p(f(y)) && t == f(y);
      if y != x { assert y in xs; }
    }
    forall t | t in b ensures t in a {
      if t in Accepted(xs, f, p) {
        var y :| y in xs && p(f(y)) && t == f(y);
        assert y in xs + [x];
      } else {
        assert x in xs + [x];
      }
    }
  }

  /** The loop of `__init__` over the exclusions: `f(x)` goes to the set when `p` accepts it, to the list otherwise. */
  method Split(xs: seq<string>, f: string -> string, p: string -> bool) returns (picked: set<string>, rest: seq<string>)
    ensures picked == Accepted(xs, f, p) && rest == Rejected(xs, f, p)
  {
    picked, rest := {}, [];
    for i := 0 to |xs|
      invariant picked == Accepted(xs[..i], f, p)
      invariant rest == Rejected(xs[..i], f, p)
    {
      assert xs[..i + 1] == xs[..i] + [xs[i]];
      RejectedAppend(xs[..i], f, p, xs[i]);
      AcceptedAppend(xs[..i], f, p, xs[i]);
      var y := f(xs[i]);
      if p(y) {
        picked := picked + {y};
      } else {
        rest := rest + [y];
      }
    }
    assert xs[..|xs|] == xs;
  }

  /** The stripped exclusions that are not bibcodes, in order: the ones parsed as names. */
  function NameExclusions(xs: seq<string>): seq<string> {
    Rejected(xs, Strip, AdsBuddy.IsBibcode)
  }

  /** The stripped exclusions that are bibcodes. */
  function BibcodeExclusions(xs: seq<string>): set<string> {
    Accepted(xs, Strip, AdsBuddy.IsBibcode)
  }

  /** Every exclusion lands on exactly one side: bibcodes by `is_bibcode`, everything else as a name. */
  lemma ExclusionsPartition(xs: seq<string>, x: string)
    requires x in xs
    ensures AdsBuddy.IsBibcode(Strip(x)) ==> Strip(x) in BibcodeExclusions(xs)
    ensures !AdsBuddy.IsBibcode(Strip(x)) ==> Strip(x) in NameExclusions(xs)
  {
    SplitCovers(xs, Strip, AdsBuddy.IsBibcode, x);
  }

  /** The names added, in order, to a fresh name-aware set. */
  function AddAll(s: DictState<ADSName>, names: seq<ADSName>): DictState<ADSName>
    decreases |names|
  {
    if names == [] then s else AddAll(SetStep(s, names[0], names[0]), names[1..])
  }

  /** Parse each name in turn; the first that does not parse is reported. */
  function ParseEach(ts: seq<string>): (r: Result<seq<ADSName>, FindError>)
    ensures r.Ok? ==> |r.value| == |ts| && forall i :: 0 <= i < |ts| ==> Parse(ts[i]) == Ok(r.value[i])
    ensures r.Err? ==> exists i :: 0 <= i < |ts| && Parse(ts[i]).Err? && r.error == InvalidName(ts[i])
  {
    if ts == [] then Ok([])
    else match Parse(ts[0])
      case Err(_) => Err(InvalidName(ts[0]))
      case Ok(n) =>
        match ParseEach(ts[1..])
        case Err(e) => Err(e)
        case Ok(ns) => Ok([n] + ns)
  }

  // ---------------------------------------------------------------------
  // Dictionary values

  /** Every value stored in the dictionary is in `g`. */
  ghost predicate ValuesIn<V>(s: DictState<V>, g: set<V>) {
    forall k, i :: k in s.buckets && 0 <= i < |s.buckets[k]| ==> s.buckets[k][i].value in g
  }

  lemma LookupIn<V>(s: DictState<V>, key: ADSName, g: set<V>)
    requires ValuesIn(s, g) && Lookup(s, key).Some?
    ensures Lookup(s, key).value in g
  {
  }

  lemma TouchValuesIn<V>(s: DictState<V>, last: string, g: set<V>)
    requires ValuesIn(s, g)
    ensures ValuesIn(Touch(s, last), g)
  {
  }

  lemma SetValuesIn<V>(s: DictState<V>, key: ADSName, v: V, g: set<V>)
    requires ValuesIn(s, g) && v in g
    ensures ValuesIn(SetStep(s, key, v), g)
  {
    TouchValuesIn(s, key.lastName, g);
    var t := Touch(s, key.lastName);
    var items := t.buckets[key.lastName];
    match FirstMatch(items, key)
    case Some(i) =>
      var b := items[i := Entry(key, v)];
      assert forall j :: 0 <= j < |b| ==> b[j].value in g by {
        forall j | 0 <= j < |b| ensures b[j].value in g {
          if j != i { assert b[j] == items[j]; }
        }
      }
    case None =>
      var b := items + [Entry(key, v)];
      assert forall j :: 0 <= j < |b| ==> b[j].value in g by {
        forall j | 0 <= j < |b| ensures b[j].value in g {
          if j < |items| { assert b[j] == items[j]; }
        }
      }
  }

  lemma ValuesInGrows<V>(s: DictState<V>, g: set<V>, h: set<V>)
    requires ValuesIn(s, g) && g <= h
    ensures ValuesIn(s, h)
  {
  }

  // ---------------------------------------------------------------------
  // The graph

  /** Both dictionary states hold the same buckets, so every lookup agrees. */
  ghost predicate SameBuckets<V>(s: DictState<V>, t: DictState<V>) {
    forall k :: BucketOf(s, k) == BucketOf(t, k)
  }

  lemma SameBucketsLookup<V>(s: DictState<V>, t: DictState<V>, key: ADSName)
    requires SameBuckets(s, t)
    ensures Lookup(s, key) == Lookup(t, key)
  {
    assert BucketOf(s, key.lastName) == BucketOf(t, key.lastName);
  }

  /** The bibcodes of `bs` that are in `ok`: the links a coauthor may be reached by. */
  function UsableOf(bs: seq<string>, ok: set<string>): (r: set<string>)
    ensures forall b :: b in r <==> b in bs && b in ok
  {
    set b | b in bs && b in ok
  }

  /** Reading a bucket through the defaultdict keeps every bucket's contents. */
  lemma TouchSameBuckets<V>(s: DictState<V>, last: string)
    ensures SameBuckets(s, Touch(s, last))
  {
    forall k ensures BucketOf(s, k) == BucketOf(Touch(s, last), k) {
    }
  }

  /** An alias that names an author who is not excluded. */
  predicate AliasUsable(a: string, excluded: DictState<ADSName>, parse: string -> Result<ADSName, NameError>) {
    parse(a).Ok? && Lookup(excluded, parse(a).value).None?
  }

  /** The aliases of `appears_as` that may be used. */
  function UsableAliases(keys: set<string>, excluded: DictState<ADSName>, parse: string -> Result<ADSName, NameError>): set<string> {
    set a | a in keys && AliasUsable(a, excluded, parse)
  }

  lemma UsableAliasesAdd(keys: set<string>, a: string, excluded: DictState<ADSName>, parse: string -> Result<ADSName, NameError>)
    ensures UsableAliases(keys + {a}, excluded, parse) ==
            UsableAliases(keys, excluded, parse) + (if AliasUsable(a, excluded, parse) then {a} else {})
  {
  }

  /** The bibcodes written under the given aliases that are not excluded. */
  function Gather(aliases: set<string>, appearsAs: map<string, seq<string>>, excludedBibcodes: set<string>): (r: set<string>)
    ensures forall b :: b in r <==> exists a :: a in aliases && a in appearsAs && b in appearsAs[a] && b !in excludedBibcodes
  {
    set a, b | a in aliases && a in appearsAs && b in appearsAs[a] && b !in excludedBibcodes :: b
  }

  lemma GatherAdd(aliases: set<string>, a: string, appearsAs: map<string, seq<string>>, excludedBibcodes: set<string>)
    requires a in appearsAs
    ensures Gather(aliases + {a}, appearsAs, excludedBibcodes) ==
            Gather(aliases, appearsAs, excludedBibcodes) + (set b | b in appearsAs[a] && b !in excludedBibcodes)
  {
  }

  /** `node_connects`, for the side being expanded: reached from both sides, or the other end itself. */
  predicate Connects(n: PathNode, fromSrc: bool, src: PathNode, dest: PathNode)
    reads n
  {
    (|n.neighborsTowardSrc| > 0 && |n.neighborsTowardDest| > 0) ||
    (fromSrc && n == dest) || (!fromSrc && n == src)
  }

  // ---------------------------------------------------------------------
  // The expansion

  /** Every bucket of `t` starts with the same bucket of `s`: entries were only appended. */
  ghost predicate Extends<V>(s: DictState<V>, t: DictState<V>) {
    forall k :: BucketOf(s, k) <= BucketOf(t, k)
  }

  /** A lookup that finds a value keeps finding it once entries are appended. */
  lemma ExtendsLookup<V>(s: DictState<V>, t: DictState<V>, key: ADSName)
    requires Extends(s, t) && Lookup(s, key).Some?
    ensures Lookup(t, key) == Lookup(s, key)
  {
    var a := BucketOf(s, key.lastName);
    var b := BucketOf(t, key.lastName);
    assert a <= b;
    FirstMatchSpec(a, key);
    var i := FirstMatch(a, key).value;
    assert a[..i] == b[..i] && b[i] == a[i];
    FirstMatchPrefix(a, b, i, key);
  }

  lemma ExtendsTrans<V>(s: DictState<V>, t: DictState<V>, u: DictState<V>)
    requires Extends(s, t) && Extends(t, u)
    ensures Extends(s, u)
  {
    forall k ensures BucketOf(s, k) <= BucketOf(u, k) {
      assert BucketOf(s, k) <= BucketOf(t, k) && BucketOf(t, k) <= BucketOf(u, k);
    }
  }

  /** Reading a bucket through the defaultdict appends nothing. */
  lemma TouchExtends<V>(s: DictState<V>, last: string)
    ensures Extends(s, Touch(s, last))
  {
    TouchSameBuckets(s, last);
  }

  /** Setting a key that no entry matches appends an entry to its bucket and leaves the others alone. */
  lemma SetNewExtends<V>(s: DictState<V>, key: ADSName, v: V)
    requires Lookup(s, key).None?
    ensures Extends(s, SetStep(s, key, v))
  {
    var t := Touch(s, key.lastName);
    var items := t.buckets[key.lastName];
    assert items == BucketOf(s, key.lastName);
    assert FirstMatch(items, key).None?;
    forall k ensures BucketOf(s, k) <= BucketOf(SetStep(s, key, v), k) {
      if k != key.lastName {
        SetIsolatesLastNames(s, key, v, k);
      } else {
        assert BucketOf(SetStep(s, key, v), k) == items + [Entry(key, v)];
      }
    }
  }

  /**
   * A coauthor the loop over `coauthors` goes on to consider: one of its
   * bibcodes is in `ok`, and `parse` reads its name as a name that is not
   * excluded.
   */
  predicate Considered(coauthors: map<string, seq<string>>, ok: set<string>, c: string, excluded: DictState<ADSName>,
                       parse: string -> Result<ADSName, NameError>) {
    c in coauthors && UsableOf(coauthors[c], ok) != {} && parse(c).Ok? && Lookup(excluded, parse(c).value).None?
  }

  /** `ok_bibcodes` of an author record under the given exclusions. */
  function OkBibcodes(appearsAs: map<string, seq<string>>, excluded: DictState<ADSName>, excludedBibcodes: set<string>,
                      parse: string -> Result<ADSName, NameError>): set<string> {
    Gather(UsableAliases(appearsAs.Keys, excluded, parse), appearsAs, excludedBibcodes)
  }

  /** No link of `a` loses a bibcode in `b`. */
  predicate LinksGrew(a: map<PathNode, set<string>>, b: map<PathNode, set<string>>) {
    forall k :: k in a ==> k in b && a[k] <= b[k]
  }

  lemma LinksGrewAdd(a: map<PathNode, set<string>>, k: PathNode, b: set<string>)
    ensures LinksGrew(a, a[k := LinksAt(a, k) + b])
  {
  }

  lemma LinksGrewTrans(a: map<PathNode, set<string>>, b: map<PathNode, set<string>>, c: map<PathNode, set<string>>)
    requires LinksGrew(a, b) && LinksGrew(b, c)
    ensures LinksGrew(a, c)
  {
  }

  lemma LinksGrewAt(a: map<PathNode, set<string>>, b: map<PathNode, set<string>>, k: PathNode)
    requires LinksGrew(a, b)
    ensures LinksAt(a, k) <= LinksAt(b, k)
  {
  }

  /** Setting reads the key's bucket first, so reading it just before changes nothing. */
  lemma TouchThenSet<V>(s: DictState<V>, key: ADSName, v: V)
    ensures SetStep(Touch(s, key.lastName), key, v) == SetStep(s, key, v)
  {
  }

  /** What the side being expanded sees of a node: its name, its distance and its links. */
  datatype NodeView = NodeView(name: ADSName, dist: int, links: map<PathNode, set<string>>)

  /** A known node `v` reached again from `from`, at distance `d`, through `bibcodes`. */
  function Bumped(v: NodeView, from: PathNode, d: int, bibcodes: set<string>): NodeView {
    NodeView(v.name, Min(v.dist, d + 1), v.links[from := LinksAt(v.links, from) + bibcodes])
  }

  /** `x` has a node in `view`, at most one step beyond `d`, whose links toward `from` hold all of `bibcodes`. */
  ghost predicate ReachesIn(names: DictState<PathNode>, view: map<PathNode, NodeView>, x: ADSName,
                            from: PathNode, d: int, bibcodes: set<string>)
  {
    Lookup(names, x).Some? && Lookup(names, x).value in view &&
    view[Lookup(names, x).value].dist <= d + 1 &&
    bibcodes <= LinksAt(view[Lookup(names, x).value].links, from)
  }

  /** Every name of `reach` `ReachesIn` with its bibcodes. */
  ghost predicate AllReachIn(names: DictState<PathNode>, view: map<PathNode, NodeView>,
                             reach: set<(ADSName, set<string>)>, from: PathNode, d: int)
  {
    forall p :: p in reach ==> ReachesIn(names, view, p.0, from, d, p.1)
  }

  /**
   * The distances of `view` since the snapshot `dist0` of them: a node of
   * `dist0` is where it was or has been brought closer, to one step beyond
   * one of the distances `ds`; any other node is one step beyond one of
   * `ds` and its name waits in the next frontier `next`.
   */
  ghost predicate SteppedIn(view: map<PathNode, NodeView>, dist0: map<PathNode, int>, ds: seq<int>, next: seq<ADSName>) {
    dist0.Keys <= view.Keys &&
    forall n :: n in view ==>
      if n in dist0
      then view[n].dist == dist0[n] || (view[n].dist - 1 in ds && view[n].dist < dist0[n])
      else view[n].dist - 1 in ds && view[n].name in next
  }

  lemma SteppedInMore(view: map<PathNode, NodeView>, dist0: map<PathNode, int>, ds: seq<int>, next: seq<ADSName>, e: int)
    requires SteppedIn(view, dist0, ds, next)
    ensures SteppedIn(view, dist0, ds + [e], next)
  {
    forall n | n in view ensures view[n].dist - 1 in ds ==> view[n].dist - 1 in ds + [e] {
    }
  }

  /** A coauthor met for the first time keeps every earlier `ReachesIn` and the distances `SteppedIn`, and reaches itself. */
  lemma NewKeeps(names0: DictState<PathNode>, names1: DictState<PathNode>, view: map<PathNode, NodeView>,
                 n: PathNode, x: ADSName, from: PathNode, d: int, bibcodes: set<string>,
                 reach: set<(ADSName, set<string>)>, dist0: map<PathNode, int>, ds: seq<int>, next: seq<ADSName>)
    requires AllReachIn(names0, view, reach, from, d) && SteppedIn(view, dist0, ds, next) && d in ds
    requires Extends(names0, names1) && Lookup(names1, x) == Some(n) && n !in view
    ensures var view1 := view[n := NodeView(x, d + 1, map[from := bibcodes])];
            AllReachIn(names1, view1, reach + {(x, bibcodes)}, from, d) && SteppedIn(view1, dist0, ds, next + [x])
  {
    var view1 := view[n := NodeView(x, d + 1, map[from := bibcodes])];
    forall p | p in reach ensures ReachesIn(names1, view1, p.0, from, d, p.1) {
      assert ReachesIn(names0, view, p.0, from, d, p.1);
      ExtendsLookup(names0, names1, p.0);
    }
    assert LinksAt(view1[n].links, from) == bibcodes;
    forall m | m in view1
      ensures if m in dist0
              then view1[m].dist == dist0[m] || (view1[m].dist - 1 in ds && view1[m].dist < dist0[m])
              else view1[m].dist - 1 in ds && view1[m].name in next + [x]
    {
      if m != n {
        assert view1[m] == view[m];
      }
    }
  }

  /** A known node reached again keeps every earlier `ReachesIn` and the distances `SteppedIn`, and reaches its name. */
  lemma KnownKeeps(names0: DictState<PathNode>, names1: DictState<PathNode>, view: map<PathNode, NodeView>,
                   n: PathNode, x: ADSName, from: PathNode, d: int, bibcodes: set<string>,
                   reach: set<(ADSName, set<string>)>, dist0: map<PathNode, int>, ds: seq<int>, next: seq<ADSName>)
    requires AllReachIn(names0, view, reach, from, d) && SteppedIn(view, dist0, ds, next) && d in ds
    requires Extends(names0, names1) && Lookup(names1, x) == Some(n) && n in view
    ensures var view1 := view[n := Bumped(view[n], from, d, bibcodes)];
            AllReachIn(names1, view1, reach + {(x, bibcodes)}, from, d) && SteppedIn(view1, dist0, ds, next)
  {
    var view1 := view[n := Bumped(view[n], from, d, bibcodes)];
    LinksGrewAdd(view[n].links, from, bibcodes);
    forall p | p in reach ensures ReachesIn(names1, view1, p.0, from, d, p.1) {
      assert ReachesIn(names0, view, p.0, from, d, p.1);
      ExtendsLookup(names0, names1, p.0);
      if Lookup(names1, p.0).value == n {
        LinksGrewAt(view[n].links, view1[n].links, from);
      }
    }
    forall m | m in view1
      ensures if m in dist0
              then view1[m].dist == dist0[m] || (view1[m].dist - 1 in ds && view1[m].dist < dist0[m])
              else view1[m].dist - 1 in ds && view1[m].name in next
    {
      if m != n {
        assert view1[m] == view[m];
      }
    }
  }

  /** The fields of a search an expansion step may change, as they were at some point. */
  datatype Mark = Mark(side: bool, iterations: int, srcNow: seq<ADSName>, destNow: seq<ADSName>,
                       graph: set<PathNode>, connecting: set<PathNode>, srcNext: seq<ADSName>, destNext: seq<ADSName>,
                       names: DictState<PathNode>, excluded: DictState<ADSName>)

  /**
   * `froms[j]` and `ds[j]`, for each author `authors[j]` expanded so far
   * that had a node in `names`: that node, and its distance when expanded,
   * which is no more than its distance in `dist0`.
   */
  ghost predicate Started(names: DictState<PathNode>, authors: seq<ADSName>, froms: seq<PathNode?>, ds: seq<int>,
                          dist0: map<PathNode, int>) {
    |froms| == |ds| <= |authors| &&
    forall j :: 0 <= j < |froms| && Lookup(names, authors[j]).Some? ==>
      froms[j] == Lookup(names, authors[j]).value && froms[j] in dist0 && ds[j] <= dist0[froms[j]]
  }

  lemma StartedMore(names: DictState<PathNode>, authors: seq<ADSName>, froms: seq<PathNode?>, ds: seq<int>,
                    dist0: map<PathNode, int>, from: PathNode?, d: int)
    requires Started(names, authors, froms, ds, dist0) && |froms| < |authors|
    requires Lookup(names, authors[|froms|]).Some? ==>
               from == Lookup(names, authors[|froms|]).value && from in dist0 && d <= dist0[from]
    ensures Started(names, authors, froms + [from], ds + [d], dist0)
  {
  }

  /** The part of a search's state that including a coauthor changes, with the view of its nodes. */
  datatype Progress = Progress(names: DictState<PathNode>, graph: set<PathNode>, view: map<PathNode, NodeView>,
                               srcNext: seq<ADSName>, destNext: seq<ADSName>, connecting: set<PathNode>)

  /** The next frontier of side `s` in `p`. */
  function NextIn(p: Progress, s: bool): seq<ADSName> {
    if s then p.srcNext else p.destNext
  }

  /** The documents of a record that the exclusions leave: none means the search cannot start. */
  predicate NoUsableDocuments(documents: seq<string>, excluded: set<string>) {
    |documents| == 0 || forall d :: d in documents ==> d in excluded
  }

  class PathFinder {
    /** `nodes`: author name to node. */
    const nodes: NameAwareDict<PathNode>
    const src: PathNode
    const dest: PathNode
    const excludedNames: NameAwareSet
    const excludedBibcodes: set<string>
    var expandingFromSrc: bool
    var connectingNodes: set<PathNode>
    var nIterations: int
    var authorsToExpandSrc: seq<ADSName>
    var authorsToExpandSrcNext: seq<ADSName>
    var authorsToExpandDest: seq<ADSName>
    var authorsToExpandDestNext: seq<ADSName>
    /** Every node created so far. */
    ghost var graph: set<PathNode>

    ghost predicate Valid()
      reads this, nodes, excludedNames, excludedNames.dict, graph
    {
      nodes.Valid() && excludedNames.Valid() &&
      src in graph && dest in graph && connectingNodes <= graph &&
      ValuesIn(nodes.State(), graph) && Closed(graph)
    }

    /**
     * `__init__` once the names are parsed: the source at distance 0 from
     * itself and first in line, the destination at distance 0 from itself
     * and waiting in the destination's next frontier.
     */
    constructor (srcName: ADSName, destName: ADSName, bibcodes: set<string>, names: seq<ADSName>)
      ensures Valid() && fresh(graph) && fresh(nodes) && fresh(excludedNames) && fresh(excludedNames.dict)
      ensures excludedBibcodes == bibcodes
      ensures excludedNames.State() == AddAll(DictState([], map[]), names)
      ensures expandingFromSrc && connectingNodes == {} && nIterations == 0
      ensures authorsToExpandSrc == [srcName] && authorsToExpandSrcNext == []
      ensures authorsToExpandDest == [] && authorsToExpandDestNext == [destName]
      ensures src.name == srcName && src.distFromSrc == 0 && src.distFromDest == MaxSize
      ensures dest.name == destName && dest.distFromDest == 0 && dest.distFromSrc == MaxSize
      ensures src.neighborsTowardSrc == src.neighborsTowardDest == {}
      ensures dest.neighborsTowardSrc == dest.neighborsTowardDest == {}
      ensures graph == {src, dest}
      ensures nodes.State() == SetStep(SetStep(DictState([], map[]), srcName, src), destName, dest)
    {
      var ex := new NameAwareSet();
      AddNames(ex, names);
      var nd, s, d := NewNodes(srcName, destName);
      nodes, src, dest := nd, s, d;
      excludedNames, excludedBibcodes := ex, bibcodes;
      expandingFromSrc := true;
      authorsToExpandSrc, authorsToExpandSrcNext := [srcName], [];
      authorsToExpandDest, authorsToExpandDestNext := [], [destName];
      connectingNodes := {};
      nIterations := 0;
      graph := {s, d};
    }

    /** The next frontier of side `s`. */
    ghost function NextOf(s: bool): seq<ADSName>
      reads this
    {
      if s then authorsToExpandSrcNext else authorsToExpandDestNext
    }

    /** The current `Progress`. */
    ghost function Now(): Progress
      reads this, nodes, graph
    {
      Progress(nodes.State(), graph, View(), authorsToExpandSrcNext, authorsToExpandDestNext, connectingNodes)
    }

    /** What the side being expanded sees of every node of the graph. */
    ghost function View(): map<PathNode, NodeView>
      reads this`expandingFromSrc, this`graph, graph
    {
      map n | n in graph :: NodeView(n.name, n.Dist(expandingFromSrc), n.Links(expandingFromSrc))
    }

    /** `name` has a node, at most one step beyond `d` from the expanding side, whose links toward `from` hold all of `bibcodes`. */
    ghost predicate Reaches(name: ADSName, from: PathNode, d: int, bibcodes: set<string>)
      reads this, nodes, graph
    {
      ReachesIn(nodes.State(), View(), name, from, d, bibcodes)
    }

    /**
     * The body of `find_path`'s loop over one expanded author's coauthors,
     * for a coauthor with usable bibcodes: an excluded coauthor is skipped,
     * any other is included (`Include`), and `reached` is the node added or
     * reached.  The frontier being expanded and the distance of `from` stay
     * as they were, so the loop can go on.
     */
    method ConsiderCoauthor(from: PathNode, d: int, name: ADSName, bibcodes: set<string>) returns (ghost reached: PathNode?)
      requires Valid() && from in graph && d == from.Dist(expandingFromSrc)
      modifies this, nodes, excludedNames.dict, graph
      ensures Valid() && old(graph) <= graph && fresh(graph - old(graph))
      ensures expandingFromSrc == old(expandingFromSrc) && nIterations == old(nIterations)
      ensures authorsToExpandSrc == old(authorsToExpandSrc) && authorsToExpandDest == old(authorsToExpandDest)
      ensures SameBuckets(old(excludedNames.State()), excludedNames.State())
      ensures Lookup(old(excludedNames.State()), name).Some? ==>
                reached == null && unchanged(this, nodes) && unchanged(graph)
      ensures Lookup(old(excludedNames.State()), name).None? && Lookup(old(nodes.State()), name).None? ==>
                reached != null && fresh(reached) && unchanged(old(graph)) &&
                NewOutcome(from, d, name, bibcodes, old(Now()), reached)
      ensures Lookup(old(excludedNames.State()), name).None? && Lookup(old(nodes.State()), name).Some? ==>
                reached != null && reached in old(graph) && unchanged(old(graph) - {reached}) &&
                KnownOutcome(from, d, name, bibcodes, old(Now()), reached)
      ensures from.Dist(expandingFromSrc) == d
      ensures old(connectingNodes) <= connectingNodes
      ensures NextGrew(old(authorsToExpandSrcNext), old(authorsToExpandDestNext))
    {
      reached := null;
      ghost var b := Now();
      var excluded := excludedNames.Contains(name);
      TouchSameBuckets(old(excludedNames.State()), name.lastName);
      if excluded {
        return;
      }
      reached := Include(from, d, name, bibcodes, b);
    }

    /**
     * `AddCoauthor`'s outcome, from the progress `b` before: a name that
     * no entry of `b.names` matched got a new node `reached` one step
     * beyond `d` from the expanding side, with `from` as its only
     * neighbour and `bibcodes` as its links toward it, entered in the names
     * dict and appended to that side's next frontier.
     */
    ghost predicate NewOutcome(from: PathNode, d: int, name: ADSName, bibcodes: set<string>, b: Progress, reached: PathNode)
      reads this, nodes, graph
    {
      reached !in b.graph && graph == b.graph + {reached} && reached.name == name &&
      reached.Dist(expandingFromSrc) == d + 1 && reached.Dist(!expandingFromSrc) == MaxSize &&
      reached.Neighbors(expandingFromSrc) == {from} && reached.Neighbors(!expandingFromSrc) == {} &&
      reached.Links(expandingFromSrc) == map[from := bibcodes] &&
      nodes.State() == SetStep(b.names, name, reached) &&
      NextOf(expandingFromSrc) == NextIn(b, expandingFromSrc) + [name] &&
      NextOf(!expandingFromSrc) == NextIn(b, !expandingFromSrc) &&
      connectingNodes == b.connecting &&
      View() == b.view[reached := NodeView(name, d + 1, map[from := bibcodes])] &&
      Extends(b.names, nodes.State()) && Lookup(nodes.State(), name) == Some(reached)
    }

    /**
     * `ReachKnown`'s outcome, from the progress `b` before: the node
     * `reached` that `name` had in `b.names` is now at most one step beyond
     * `d` from the expanding side (`Bumped`), has `bibcodes` added to its
     * links toward `from`, and is recorded when it connects.
     */
    ghost predicate KnownOutcome(from: PathNode, d: int, name: ADSName, bibcodes: set<string>, b: Progress, reached: PathNode)
      reads this, nodes, graph
    {
      Lookup(b.names, name) == Some(reached) && reached in b.graph && graph == b.graph &&
      nodes.State() == Touch(b.names, name.lastName) && reached in b.view &&
      View() == b.view[reached := Bumped(b.view[reached], from, d, bibcodes)] &&
      connectingNodes == b.connecting + (if Connects(reached, expandingFromSrc, src, dest) then {reached} else {}) &&
      authorsToExpandSrcNext == b.srcNext && authorsToExpandDestNext == b.destNext &&
      Extends(b.names, nodes.State()) && Lookup(nodes.State(), name) == Some(reached)
    }

    /**
     * A coauthor that is not excluded: `AddCoauthor` when no name in `nodes`
     * matches it, `ReachKnown` on the node found otherwise.
     */
    method Include(from: PathNode, d: int, name: ADSName, bibcodes: set<string>, ghost b: Progress) returns (ghost reached: PathNode?)
      requires Valid() && from in graph && d == from.Dist(expandingFromSrc) && Now() == b
      modifies this, nodes, graph
      ensures Valid() && old(graph) <= graph && fresh(graph - old(graph))
      ensures expandingFromSrc == old(expandingFromSrc) && nIterations == old(nIterations)
      ensures authorsToExpandSrc == old(authorsToExpandSrc) && authorsToExpandDest == old(authorsToExpandDest)
      ensures Lookup(b.names, name).None? ==>
                reached != null && fresh(reached) && unchanged(old(graph)) &&
                NewOutcome(from, d, name, bibcodes, b, reached)
      ensures Lookup(b.names, name).Some? ==>
                reached != null && reached in old(graph) && unchanged(old(graph) - {reached}) &&
                KnownOutcome(from, d, name, bibcodes, b, reached)
      ensures from.Dist(expandingFromSrc) == d
      ensures old(connectingNodes) <= connectingNodes
      ensures NextGrew(old(authorsToExpandSrcNext), old(authorsToExpandDestNext))
    {
      var found := LookUp(name);
      if found.None? {
        var n := AddCoauthor(from, d, name, bibcodes, b);
        reached := n;
        return;
      }
      reached := found.value;
      ReachFound(found.value, from, d, bibcodes, name, b);
    }

    /** `self.nodes[name]` for a name that may have no node: it only reads a bucket. */
    method LookUp(name: ADSName) returns (found: Option<PathNode>)
      requires Valid()
      modifies nodes
      ensures Valid() && found == Lookup(old(nodes.State()), name) && (found.Some? ==> found.value in graph)
      ensures nodes.State() == Touch(old(nodes.State()), name.lastName)
    {
      found := nodes.Get(name);
      TouchValuesIn(old(nodes.State()), name.lastName, graph);
      if found.Some? {
        LookupIn(old(nodes.State()), name, graph);
      }
    }

    /**
     * `ReachKnown` on the node `n` that the lookup of `name` found; `b` is
     * the progress before the lookup, which only read a bucket.
     */
    method ReachFound(n: PathNode, from: PathNode, d: int, bibcodes: set<string>, ghost name: ADSName, ghost b: Progress)
      requires Valid() && from in graph && d == from.Dist(expandingFromSrc)
      requires Lookup(b.names, name) == Some(n) && n in b.graph && nodes.State() == Touch(b.names, name.lastName)
      requires graph == b.graph && View() == b.view && connectingNodes == b.connecting
      requires authorsToExpandSrcNext == b.srcNext && authorsToExpandDestNext == b.destNext
      modifies this, n
      ensures Valid() && graph == old(graph) && unchanged(old(graph) - {n})
      ensures KnownOutcome(from, d, name, bibcodes, b, n)
      ensures from.Dist(expandingFromSrc) == d
      ensures expandingFromSrc == old(expandingFromSrc) && nIterations == old(nIterations)
      ensures authorsToExpandSrc == old(authorsToExpandSrc) && authorsToExpandDest == old(authorsToExpandDest)
    {
      TouchExtends(b.names, name.lastName);
      TouchSameBuckets(b.names, name.lastName);
      SameBucketsLookup(b.names, Touch(b.names, name.lastName), name);
      ReachKnown(n, from, d, bibcodes);
    }

    /**
     * A coauthor met for the first time: a new node one step further out on
     * the side being expanded, with the expanded node as its neighbour and
     * the bibcodes as its links toward it, entered in `nodes` and appended
     * to that side's next frontier.  `b` is the progress before the lookup
     * that found no node for `name`; the lookup itself only read a bucket.
     */
    method AddCoauthor(from: PathNode, d: int, name: ADSName, bibcodes: set<string>, ghost b: Progress) returns (n: PathNode)
      requires Valid() && from in graph && Lookup(b.names, name).None?
      requires nodes.State() == Touch(b.names, name.lastName) && graph == b.graph && View() == b.view
      requires connectingNodes == b.connecting
      requires authorsToExpandSrcNext == b.srcNext && authorsToExpandDestNext == b.destNext
      modifies this, nodes
      ensures Valid() && fresh(n) && NewOutcome(from, d, name, bibcodes, b, n)
      ensures expandingFromSrc == old(expandingFromSrc) && nIterations == old(nIterations)
      ensures authorsToExpandSrc == old(authorsToExpandSrc) && authorsToExpandDest == old(authorsToExpandDest)
    {
      Queue(name);
      n := NewNeighbor(name, d, expandingFromSrc, from, bibcodes);
      assert View() == b.view;
      Enter(name, n);
      assert View() == b.view[n := NodeView(name, d + 1, map[from := bibcodes])];
      TouchThenSet(b.names, name, n);
      SetNewExtends(b.names, name, n);
      GetAfterSet(b.names, name, n);
    }

    /** `authors_next.append(name)` on the side being expanded. */
    method Queue(name: ADSName)
      modifies this`authorsToExpandSrcNext, this`authorsToExpandDestNext
      ensures NextOf(expandingFromSrc) == old(NextOf(expandingFromSrc)) + [name]
      ensures NextOf(!expandingFromSrc) == old(NextOf(!expandingFromSrc))
    {
      if expandingFromSrc {
        authorsToExpandSrcNext := authorsToExpandSrcNext + [name];
      } else {
        authorsToExpandDestNext := authorsToExpandDestNext + [name];
      }
    }

    /** `self.nodes[name] = node` for a new node whose neighbours are already in the graph. */
    method Enter(name: ADSName, n: PathNode)
      requires Valid() && n !in graph && n !in n.neighborsTowardSrc && n !in n.neighborsTowardDest
      requires n.neighborsTowardSrc <= graph && n.neighborsTowardDest <= graph
      modifies this, nodes
      ensures Valid() && graph == old(graph) + {n}
      ensures nodes.State() == SetStep(old(nodes.State()), name, n)
      ensures View() == old(View())[n := NodeView(n.name, n.Dist(expandingFromSrc), n.Links(expandingFromSrc))]
      ensures expandingFromSrc == old(expandingFromSrc) && nIterations == old(nIterations)
      ensures authorsToExpandSrc == old(authorsToExpandSrc) && authorsToExpandDest == old(authorsToExpandDest)
      ensures authorsToExpandSrcNext == old(authorsToExpandSrcNext) && authorsToExpandDestNext == old(authorsToExpandDestNext)
      ensures connectingNodes == old(connectingNodes)
    {
      graph := graph + {n};
      ValuesInGrows(nodes.State(), old(graph), graph);
      SetValuesIn(nodes.State(), name, n, graph);
      nodes.Set(name, n);
    }

    /**
     * A coauthor already in the graph: it is reached from the expanded node
     * (`PathNode.Reach`); when it then connects it is recorded; either way
     * the bibcodes join its links toward the expanded node.
     */
    method ReachKnown(n: PathNode, from: PathNode, d: int, bibcodes: set<string>)
      requires Valid() && n in graph && from in graph && d == from.Dist(expandingFromSrc)
      modifies this, n
      ensures Valid() && graph == old(graph)
      ensures old(n.Dist(expandingFromSrc)) > d + 1 ==>
                n.Dist(expandingFromSrc) == d + 1 &&
                n.Neighbors(expandingFromSrc) == old(n.Neighbors(expandingFromSrc)) + {from}
      ensures old(n.Dist(expandingFromSrc)) <= d + 1 ==>
                n.Dist(expandingFromSrc) == old(n.Dist(expandingFromSrc)) &&
                n.Neighbors(expandingFromSrc) == old(n.Neighbors(expandingFromSrc))
      ensures n.Dist(!expandingFromSrc) == old(n.Dist(!expandingFromSrc))
      ensures n.Neighbors(!expandingFromSrc) == old(n.Neighbors(!expandingFromSrc))
      ensures n.Links(expandingFromSrc) ==
                old(n.Links(expandingFromSrc))[from := LinksAt(old(n.Links(expandingFromSrc)), from) + bibcodes]
      ensures n.Links(!expandingFromSrc) == old(n.Links(!expandingFromSrc))
      ensures connectingNodes == old(connectingNodes) + (if Connects(n, expandingFromSrc, src, dest) then {n} else {})
      ensures from.Dist(expandingFromSrc) == d
      ensures expandingFromSrc == old(expandingFromSrc) && nIterations == old(nIterations)
      ensures authorsToExpandSrc == old(authorsToExpandSrc) && authorsToExpandDest == old(authorsToExpandDest)
      ensures authorsToExpandSrcNext == old(authorsToExpandSrcNext)
      ensures authorsToExpandDestNext == old(authorsToExpandDestNext)
    {
      var side := expandingFromSrc;
      n.Reach(side, d, from);
      var connects := Connects(n, side, src, dest);
      if connects {
        connectingNodes := connectingNodes + {n};
      }
      n.AddLinks(side, from, bibcodes);
      assert Connects(n, side, src, dest) == connects;
      assert Closed(graph) by {
        forall m | m in graph && m != n
          ensures m.neighborsTowardSrc <= graph && m.neighborsTowardDest <= graph
          ensures m !in m.neighborsTowardSrc && m !in m.neighborsTowardDest
        {
          assert m.neighborsTowardSrc == old(m.neighborsTowardSrc);
          assert m.neighborsTowardDest == old(m.neighborsTowardDest);
        }
      }
    }

    /** Whether both next frontiers only grew, the expanding side's by appending. */
    ghost predicate NextGrew(srcNext: seq<ADSName>, destNext: seq<ADSName>)
      reads this
    {
      if expandingFromSrc
      then srcNext <= authorsToExpandSrcNext && authorsToExpandDestNext == destNext
      else destNext <= authorsToExpandDestNext && authorsToExpandSrcNext == srcNext
    }

    /**
     * The distances from the side being expanded since the snapshot
     * `dist0` of them (`SteppedIn`), the next frontier being that side's.
     */
    ghost predicate Stepped(dist0: map<PathNode, int>, ds: seq<int>)
      reads this, graph
    {
      SteppedIn(View(), dist0, ds, NextOf(expandingFromSrc))
    }

    /** A node of the snapshot `dist0` is no further out than it was then. */
    lemma SteppedAt(dist0: map<PathNode, int>, ds: seq<int>, n: PathNode)
      requires Stepped(dist0, ds) && n in graph && n in dist0
      ensures n.Dist(expandingFromSrc) <= dist0[n]
    {
      assert View()[n].dist == n.Dist(expandingFromSrc);
    }

    /** `Stepped` read off the nodes themselves. */
    lemma SteppedNodes(dist0: map<PathNode, int>, ds: seq<int>, g0: set<PathNode>)
      requires Stepped(dist0, ds) && dist0.Keys == g0
      ensures g0 <= graph
      ensures forall n :: n in graph && n !in g0 ==>
                n.Dist(expandingFromSrc) - 1 in ds && n.name in NextOf(expandingFromSrc)
      ensures forall n :: n in g0 ==>
                n.Dist(expandingFromSrc) == dist0[n] ||
                (n.Dist(expandingFromSrc) - 1 in ds && n.Dist(expandingFromSrc) < dist0[n])
    {
      forall n | n in graph
        ensures View()[n] == NodeView(n.name, n.Dist(expandingFromSrc), n.Links(expandingFromSrc))
      {
      }
    }

    /**
     * The loop over the coauthors of an expanded author whose node is
     * `from`: a coauthor none of whose bibcodes is usable is skipped, the
     * others are parsed and considered.  A coauthor name that does not
     * parse stops the search, and only that does.  Once the loop is done,
     * every considered coauthor has a node at most one step beyond `from`
     * whose links toward `from` hold the coauthor's usable bibcodes, and
     * the state stays `Since(m, dist0, ds)`, the distances `Stepped` from
     * the snapshot `dist0`, `d` being one of `ds`.
     */
    method ExpandFrom(from: PathNode, d: int, coauthors: map<string, seq<string>>, ok: set<string>,
                      parse: string -> Result<ADSName, NameError>,
                      ghost m: Mark, ghost dist0: map<PathNode, int>, ghost ds: seq<int>)
      returns (r: Result<(), FindError>)
      requires Since(m, dist0, ds) && from in graph && d == from.Dist(expandingFromSrc) && d in ds
      modifies this, nodes, excludedNames.dict, graph
      ensures Since(m, dist0, ds) && old(graph) <= graph && fresh(graph - old(graph))
      ensures r.Err? <==> exists c :: c in coauthors && UsableOf(coauthors[c], ok) != {} && parse(c).Err?
      ensures r.Err? ==> r.error.InvalidName?
      ensures r.Ok? ==> forall c :: Considered(coauthors, ok, c, m.excluded, parse) ==>
                Reaches(parse(c).value, from, d, UsableOf(coauthors[c], ok))
    {
      var remaining := coauthors.Keys;
      ghost var reach: set<(ADSName, set<string>)> := {};
      while remaining != {}
        invariant Since(m, dist0, ds) && from in graph && from.Dist(expandingFromSrc) == d
        invariant old(graph) <= graph && fresh(graph - old(graph))
        invariant Covered(m, coauthors, ok, parse, remaining, reach, from, d)
        decreases |remaining|
      {
        var c :| c in remaining;
        r, reach := ExpandCoauthor(from, d, c, coauthors, ok, parse, m, remaining, reach, dist0, ds);
        if r.Err? {
          return;
        }
        remaining := remaining - {c};
      }
      r := Ok(());
    }

    /** The search's state now, to say later what an expansion has changed since. */
    ghost function MarkNow(): Mark
      reads this, nodes, excludedNames, excludedNames.dict
    {
      Mark(expandingFromSrc, nIterations, authorsToExpandSrc, authorsToExpandDest, graph, connectingNodes,
           authorsToExpandSrcNext, authorsToExpandDestNext, nodes.State(), excludedNames.State())
    }

    /**
     * Since `m` the search is still valid and expands the same frontier of
     * the same side: the graph, the connecting nodes and the next
     * frontiers only grew, the names dict only had entries appended, the
     * excluded names kept their buckets, and the distances stay `Stepped`.
     */
    ghost predicate Since(m: Mark, dist0: map<PathNode, int>, ds: seq<int>)
      reads this, nodes, excludedNames, excludedNames.dict, graph
    {
      Valid() && expandingFromSrc == m.side && nIterations == m.iterations &&
      authorsToExpandSrc == m.srcNow && authorsToExpandDest == m.destNow &&
      m.graph <= graph && m.connecting <= connectingNodes && NextGrew(m.srcNext, m.destNext) &&
      SameBuckets(m.excluded, excludedNames.State()) && Extends(m.names, nodes.State()) && Stepped(dist0, ds)
    }

    /**
     * The loop over `coauthors` with `remaining` left: every coauthor done
     * so far was skipped or parsed, and each one considered, under the
     * exclusions of `m`, is in `reach`, whose names all `ReachesIn`.
     */
    ghost predicate Covered(m: Mark, coauthors: map<string, seq<string>>, ok: set<string>, parse: string -> Result<ADSName, NameError>,
                            remaining: set<string>, reach: set<(ADSName, set<string>)>, from: PathNode, d: int)
      reads this, nodes, graph
    {
      remaining <= coauthors.Keys && AllReachIn(nodes.State(), View(), reach, from, d) &&
      (forall c :: c in coauthors && c !in remaining ==> UsableOf(coauthors[c], ok) == {} || parse(c).Ok?) &&
      forall c :: c in coauthors && c !in remaining && Considered(coauthors, ok, c, m.excluded, parse) ==>
        (parse(c).value, UsableOf(coauthors[c], ok)) in reach
    }

    /**
     * One turn of the loop over the coauthors, for the coauthor `c`: one
     * none of whose bibcodes is usable is skipped; otherwise its name is
     * parsed (a name that does not parse stops the search) and the
     * coauthor considered (`ConsiderCoauthor`).  The state stays
     * `Since(m, dist0, ds)`, and with `c` done the loop stays `Covered`:
     * the coauthor joins `reach` when it is considered.
     */
    method ExpandCoauthor(from: PathNode, d: int, c: string,
                          coauthors: map<string, seq<string>>, ok: set<string>, parse: string -> Result<ADSName, NameError>,
                          ghost m: Mark, ghost remaining: set<string>, ghost reach: set<(ADSName, set<string>)>,
                          ghost dist0: map<PathNode, int>, ghost ds: seq<int>)
      returns (r: Result<(), FindError>, ghost reach1: set<(ADSName, set<string>)>)
      requires Since(m, dist0, ds) && from in graph && from.Dist(expandingFromSrc) == d && d in ds
      requires Covered(m, coauthors, ok, parse, remaining, reach, from, d) && c in remaining
      modifies this, nodes, excludedNames.dict, graph
      ensures Since(m, dist0, ds) && from.Dist(expandingFromSrc) == d && old(graph) <= graph && fresh(graph - old(graph))
      ensures r.Err? <==> UsableOf(coauthors[c], ok) != {} && parse(c).Err?
      ensures r.Err? ==> r == Err(InvalidName(c))
      ensures r.Ok? ==> Covered(m, coauthors, ok, parse, remaining - {c}, reach1, from, d)
    {
      reach1 := reach;
      var bibcodes := UsableOf(coauthors[c], ok);
      if bibcodes == {} {
        r := Ok(());
        return;
      }
      var parsed := parse(c);
      if parsed.Err? {
        r := Err(InvalidName(c));
        return;
      }
      var name := parsed.value;
      ghost var b := Now();
      ghost var excluded := excludedNames.State();
      SameBucketsLookup(m.excluded, excluded, name);
      ghost var reached := ConsiderCoauthor(from, d, name, bibcodes);
      if reached != null {
        if Lookup(b.names, name).Some? {
          KnownKeeps(b.names, nodes.State(), b.view, reached, name, from, d, bibcodes,
                     reach, dist0, ds, NextIn(b, expandingFromSrc));
        } else {
          NewKeeps(b.names, nodes.State(), b.view, reached, name, from, d, bibcodes,
                   reach, dist0, ds, NextIn(b, expandingFromSrc));
        }
        reach1 := reach + {(name, bibcodes)};
      }
      ExtendsTrans(m.names, b.names, nodes.State());
      r := Ok(());
    }

    /**
     * `ok_bibcodes`: the bibcodes the expanded author wrote under an alias
     * that is not an excluded name, leaving out the excluded bibcodes.  An
     * alias that does not parse stops the search, and only that does.  The
     * name parser is a parameter (the search passes `Parse`) so that the
     * proof never needs to look inside it.
     */
    method UsableBibcodes(appearsAs: map<string, seq<string>>, parse: string -> Result<ADSName, NameError>)
      returns (r: Result<set<string>, FindError>)
      requires excludedNames.Valid()
      modifies excludedNames.dict
      ensures excludedNames.Valid()
      ensures SameBuckets(old(excludedNames.State()), excludedNames.State())
      ensures r.Err? <==> exists a :: a in appearsAs && parse(a).Err?
      ensures r.Err? ==> r.error.InvalidName?
      ensures r.Ok? ==> r.value == Gather(UsableAliases(appearsAs.Keys, old(excludedNames.State()), parse), appearsAs, excludedBibcodes)
    {
      var remaining := appearsAs.Keys;
      ghost var usable: set<string> := {};
      var acc: set<string> := {};
      while remaining != {}
        invariant remaining <= appearsAs.Keys
        invariant excludedNames.Valid()
        invariant SameBuckets(old(excludedNames.State()), excludedNames.State())
        invariant forall a :: a in appearsAs && a !in remaining ==> parse(a).Ok?
        invariant usable == UsableAliases(appearsAs.Keys - remaining, old(excludedNames.State()), parse)
        invariant acc == Gather(usable, appearsAs, excludedBibcodes)
        decreases |remaining|
      {
        var a :| a in remaining;
        ghost var prev := remaining;
        remaining := remaining - {a};
        var parsed := parse(a);
        if parsed.Err? {
          return Err(InvalidName(a));
        }
        SameBucketsLookup(old(excludedNames.State()), excludedNames.State(), parsed.value);
        ghost var before := excludedNames.State();
        var excluded := excludedNames.Contains(parsed.value);
        TouchSameBuckets(before, parsed.value.lastName);
        assert appearsAs.Keys - remaining == (appearsAs.Keys - prev) + {a};
        UsableAliasesAdd(appearsAs.Keys - prev, a, old(excludedNames.State()), parse);
        assert AliasUsable(a, old(excludedNames.State()), parse) == !excluded;
        if !excluded {
          GatherAdd(usable, a, appearsAs, excludedBibcodes);
          usable := usable + {a};
          acc := acc + (set b | b in appearsAs[a] && b !in excludedBibcodes);
        }
      }
      r := Ok(acc);
    }

    /**
     * One pass of the `for expand_author in authors` loop: the author's node
     * (KeyError when no name in `nodes` matches), its usable bibcodes, and
     * the loop over its coauthors.  `from` is the author's node and `d` its
     * distance from the side being expanded when the pass began; the
     * distances stay `Stepped` once `d` joins `ds`.
     */
    method ExpandAuthor(name: ADSName, records: ADSName -> AuthorData, parse: string -> Result<ADSName, NameError>,
                        ghost m: Mark, ghost dist0: map<PathNode, int>, ghost ds: seq<int>)
      returns (r: Result<(), FindError>, ghost from: PathNode?, ghost d: int)
      requires Since(m, dist0, ds)
      modifies this, nodes, excludedNames.dict, graph
      ensures Since(m, dist0, ds + [d]) && old(graph) <= graph && fresh(graph - old(graph))
      ensures Lookup(old(nodes.State()), name).None? <==> r == Err(KeyError)
      ensures r.Err? ==> r == Err(KeyError) || r.error.InvalidName?
      ensures Lookup(old(nodes.State()), name).Some? ==>
                from == Lookup(old(nodes.State()), name).value && d == old(from.Dist(expandingFromSrc))
      ensures r.Ok? ==> from != null
      ensures r.Ok? ==>
                var ok := OkBibcodes(records(name).appearsAs, old(excludedNames.State()), excludedBibcodes, parse);
                forall c :: Considered(records(name).coauthors, ok, c, old(excludedNames.State()), parse) ==>
                  Reaches(parse(c).value, from, d, UsableOf(records(name).coauthors[c], ok))
    {
      from, d := null, 0;
      var found := Find(name, m, dist0, ds);
      if found.None? {
        SteppedInMore(View(), dist0, ds, NextOf(expandingFromSrc), d);
        r := Err(KeyError);
        return;
      }
      var node := found.value;
      var dist := node.Dist(expandingFromSrc);
      from, d := node, dist;
      SteppedInMore(View(), dist0, ds, NextOf(expandingFromSrc), d);
      assert excludedNames.State() == old(excludedNames.State());
      r := ExpandRecord(node, dist, records(name), parse, m, dist0, ds + [d]);
    }

    /** `LookUp` during a pass, which stays `Since(m, dist0, ds)`. */
    method Find(name: ADSName, ghost m: Mark, ghost dist0: map<PathNode, int>, ghost ds: seq<int>)
      returns (found: Option<PathNode>)
      requires Since(m, dist0, ds)
      modifies nodes
      ensures Since(m, dist0, ds)
      ensures found == Lookup(old(nodes.State()), name) && (found.Some? ==> found.value in graph)
    {
      found := LookUp(name);
      TouchExtends(old(nodes.State()), name.lastName);
      ExtendsTrans(m.names, old(nodes.State()), nodes.State());
    }

    /**
     * The expansion of an author found at node `from`, at distance `d`,
     * with the author's record: its usable bibcodes (`UsableBibcodes`) and
     * the loop over its coauthors (`ExpandFrom`).
     */
    method ExpandRecord(from: PathNode, d: int, record: AuthorData, parse: string -> Result<ADSName, NameError>,
                        ghost m: Mark, ghost dist0: map<PathNode, int>, ghost ds: seq<int>)
      returns (r: Result<(), FindError>)
      requires Since(m, dist0, ds) && from in graph && d == from.Dist(expandingFromSrc) && d in ds
      modifies this, nodes, excludedNames.dict, graph
      ensures Since(m, dist0, ds) && old(graph) <= graph && fresh(graph - old(graph))
      ensures r.Err? ==> r.error.InvalidName?
      ensures r.Ok? ==>
                var ok := OkBibcodes(record.appearsAs, old(excludedNames.State()), excludedBibcodes, parse);
                forall c :: Considered(record.coauthors, ok, c, old(excludedNames.State()), parse) ==>
                  Reaches(parse(c).value, from, d, UsableOf(record.coauthors[c], ok))
    {
      var ok := UsableBibcodes(record.appearsAs, parse);
      if ok.Err? {
        r := Err(ok.error);
        return;
      }
      r := ExpandFrom(from, d, record.coauthors, ok.value, parse, m, dist0, ds);
      forall c | Considered(record.coauthors, ok.value, c, old(excludedNames.State()), parse)
        ensures Considered(record.coauthors, ok.value, c, m.excluded, parse)
      {
        SameBucketsLookup(m.excluded, old(excludedNames.State()), parse(c).value);
      }
    }

    /**
     * The `for expand_author in authors` loop over the frontier of the side
     * being expanded.  `ds` holds the distance each expanded author's node
     * had when it was expanded, and `froms` the node: every node made in
     * the pass is one step beyond one of `ds` and waits in that side's next
     * frontier, and a node that was there before is where it was or has
     * been brought closer, to one step beyond one of `ds`.
     */
    method ExpandFrontier(records: ADSName -> AuthorData) returns (r: Result<(), FindError>, ghost froms: seq<PathNode?>, ghost ds: seq<int>)
      requires Valid()
      modifies this, nodes, excludedNames.dict, graph
      ensures Valid() && old(graph) <= graph && fresh(graph - old(graph))
      ensures expandingFromSrc == old(expandingFromSrc) && nIterations == old(nIterations)
      ensures authorsToExpandSrc == old(authorsToExpandSrc) && authorsToExpandDest == old(authorsToExpandDest)
      ensures old(connectingNodes) <= connectingNodes
      ensures NextGrew(old(authorsToExpandSrcNext), old(authorsToExpandDestNext))
      ensures r.Err? ==> r == Err(KeyError) || r.error.InvalidName?
      ensures forall n :: n in graph && n !in old(graph) ==>
                n.Dist(expandingFromSrc) - 1 in ds && n.name in NextOf(expandingFromSrc)
      ensures forall n :: n in old(graph) ==>
                n.Dist(expandingFromSrc) == old(n.Dist(expandingFromSrc)) ||
                (n.Dist(expandingFromSrc) - 1 in ds && n.Dist(expandingFromSrc) < old(n.Dist(expandingFromSrc)))
      ensures r.Ok? ==>
                (var authors := if expandingFromSrc then authorsToExpandSrc else authorsToExpandDest;
                 |froms| == |ds| == |authors| &&
                 forall i :: 0 <= i < |authors| && Lookup(old(nodes.State()), authors[i]).Some? ==>
                   froms[i] == Lookup(old(nodes.State()), authors[i]).value && ds[i] <= old(froms[i].Dist(expandingFromSrc)))
    {
      var authors := if expandingFromSrc then authorsToExpandSrc else authorsToExpandDest;
      ghost var dist0 := map n | n in graph :: n.Dist(expandingFromSrc);
      assert forall n :: n in old(graph) ==> n in dist0 && dist0[n] == old(n.Dist(expandingFromSrc));
      ghost var m := MarkNow();
      r, froms, ds := ExpandAll(authors, records, m, dist0);
      SteppedNodes(dist0, ds, old(graph));
    }

    /** The loop of `ExpandFrontier`, one `ExpandNth` per author, given the mark and the distances when it began. */
    method ExpandAll(authors: seq<ADSName>, records: ADSName -> AuthorData, ghost m: Mark, ghost dist0: map<PathNode, int>)
      returns (r: Result<(), FindError>, ghost froms: seq<PathNode?>, ghost ds: seq<int>)
      requires ValuesIn(m.names, dist0.Keys) && dist0.Keys <= m.graph && Since(m, dist0, [])
      modifies this, nodes, excludedNames.dict, graph
      ensures Since(m, dist0, ds) && old(graph) <= graph && fresh(graph - old(graph))
      ensures Started(m.names, authors, froms, ds, dist0)
      ensures r.Ok? ==> |froms| == |authors|
      ensures r.Err? ==> r == Err(KeyError) || r.error.InvalidName?
    {
      froms, ds := [], [];
      r := Ok(());
      for i := 0 to |authors|
        invariant Since(m, dist0, ds) && old(graph) <= graph && fresh(graph - old(graph))
        invariant Started(m.names, authors, froms, ds, dist0) && |froms| == |ds| == i
        invariant r.Ok?
      {
        r, froms, ds := ExpandNth(authors, i, records, m, dist0, froms, ds);
        if r.Err? {
          return;
        }
      }
    }

    /**
     * One turn of the `for expand_author in authors` loop, for
     * `authors[i]`: `ExpandAuthor`, with its node and distance recorded in
     * `froms` and `ds`.
     */
    method ExpandNth(authors: seq<ADSName>, i: int, records: ADSName -> AuthorData, ghost m: Mark,
                     ghost dist0: map<PathNode, int>, ghost froms: seq<PathNode?>, ghost ds: seq<int>)
      returns (r: Result<(), FindError>, ghost froms1: seq<PathNode?>, ghost ds1: seq<int>)
      requires 0 <= i < |authors| && ValuesIn(m.names, dist0.Keys) && dist0.Keys <= m.graph && Since(m, dist0, ds)
      requires Started(m.names, authors, froms, ds, dist0) && |froms| == |ds| == i
      modifies this, nodes, excludedNames.dict, graph
      ensures Since(m, dist0, ds1) && old(graph) <= graph && fresh(graph - old(graph))
      ensures Started(m.names, authors, froms1, ds1, dist0) && |froms1| == |ds1| == i + 1
      ensures r.Err? ==> r == Err(KeyError) || r.error.InvalidName?
    {
      ghost var names := nodes.State();
      ghost var known := Lookup(m.names, authors[i]);
      ghost var bound := 0;
      if known.Some? {
        ExtendsLookup(m.names, names, authors[i]);
        LookupIn(m.names, authors[i], dist0.Keys);
        SteppedAt(dist0, ds, known.value);
        bound := known.value.Dist(expandingFromSrc);
      }
      ghost var from, d;
      r, from, d := ExpandAuthor(authors[i], records, Parse, m, dist0, ds);
      assert known.Some? ==> from == known.value && d == bound;
      StartedMore(m.names, authors, froms, ds, dist0, from, d);
      froms1, ds1 := froms + [from], ds + [d];
    }

    /**
     * The end of a pass that found no connection: the search gives up when
     * either next frontier is empty, and otherwise goes on from the strictly
     * smaller one, ties going to the destination side.
     */
    method NextSide() returns (r: Result<(), FindError>)
      requires Valid()
      modifies this
      ensures Valid() && graph == old(graph) && connectingNodes == old(connectingNodes) && nIterations == old(nIterations)
      ensures r.Err? <==> |old(authorsToExpandSrcNext)| == 0 || |old(authorsToExpandDestNext)| == 0
      ensures r.Err? ==> r.error == PathFinderError("no_authors_to_expand") &&
                         expandingFromSrc == old(expandingFromSrc) &&
                         authorsToExpandSrc == old(authorsToExpandSrc) && authorsToExpandDest == old(authorsToExpandDest) &&
                         authorsToExpandSrcNext == old(authorsToExpandSrcNext) && authorsToExpandDestNext == old(authorsToExpandDestNext)
      ensures r.Ok? ==> expandingFromSrc == (|old(authorsToExpandSrcNext)| < |old(authorsToExpandDestNext)|)
      ensures r.Ok? && expandingFromSrc ==>
                authorsToExpandSrc == old(authorsToExpandSrcNext) && authorsToExpandSrcNext == [] &&
                authorsToExpandDest == old(authorsToExpandDest) && authorsToExpandDestNext == old(authorsToExpandDestNext)
      ensures r.Ok? && !expandingFromSrc ==>
                authorsToExpandDest == old(authorsToExpandDestNext) && authorsToExpandDestNext == [] &&
                authorsToExpandSrc == old(authorsToExpandSrc) && authorsToExpandSrcNext == old(authorsToExpandSrcNext)
    {
      if |authorsToExpandSrcNext| == 0 || |authorsToExpandDestNext| == 0 {
        return Err(PathFinderError("no_authors_to_expand"));
      }
      if |authorsToExpandSrcNext| < |authorsToExpandDestNext| {
        authorsToExpandSrc, authorsToExpandSrcNext := authorsToExpandSrcNext, [];
        expandingFromSrc := true;
      } else {
        authorsToExpandDest, authorsToExpandDestNext := authorsToExpandDestNext, [];
        expandingFromSrc := false;
      }
      r := Ok(());
    }

    /**
     * `produce_final_graph`: step one from the connecting nodes, then step
     * two from the source.  A KeyError raised in step two becomes
     * `KeyError`; `fuel` bounds step two's walk.
     */
    method ProduceFinalGraph(fuel: nat) returns (r: Result<(), FindError>, ghost visited: set<PathNode>, ghost processed: set<PathNode>)
      requires Valid()
      modifies graph
      ensures Valid()
      ensures connectingNodes <= visited <= graph
      ensures r.Ok? || r == Err(KeyError) || r == Err(OutOfFuel)
      ensures r.Ok? ==> Pruned(Snap(graph), src, processed)
      ensures r.Ok? ==> forall x :: x in visited ==> Mirrored(Snap(graph), x)
      ensures r.Ok? ==> forall x, k, t :: x in visited && k in Snap(graph)[x].Nbrs(t) ==> k in visited
    {
      visited := MakeBidirectional(graph, connectingNodes);
      ghost var m1 := Snap(graph);
      var pruned;
      pruned, processed := Prune(graph, visited, src, fuel);
      ShrunkKeepsClosure(m1, Snap(graph), visited);
      r := if pruned.Ok? then Ok(()) else if pruned.error == KeyMissing then Err(KeyError) else Err(OutOfFuel);
    }

    /**
     * `find_path`'s `while True` loop: one pass over the frontier being
     * expanded per turn, until a connecting node is found (or an error);
     * `fuel` bounds the number of passes.  `before` is the set of
     * connecting nodes when the last pass began: the loop stops after the
     * first pass that finds one, so a search that began with none had none
     * before its last pass, and "no_authors_to_expand" is raised only
     * while there are none.
     */
    method Search(records: ADSName -> AuthorData, fuel: nat) returns (r: Result<(), FindError>, ghost before: set<PathNode>)
      requires Valid() && nIterations >= 0
      modifies this, nodes, excludedNames.dict, graph
      ensures Valid() && old(graph) <= graph && fresh(graph - old(graph))
      ensures r.Ok? ==> connectingNodes != {} && nIterations > 0
      ensures r.Ok? && old(connectingNodes) == {} ==> before == {}
      ensures r.Err? && r.error.PathFinderError? ==> r.error.key == "no_authors_to_expand" && connectingNodes == {}
    {
      var left := fuel;
      before := connectingNodes;
      while true
        invariant Valid() && nIterations >= 0
        invariant old(graph) <= graph && fresh(graph - old(graph))
        invariant connectingNodes == {} || connectingNodes == old(connectingNodes)
        decreases left
      {
        if left == 0 {
          r := Err(OutOfFuel);
          return;
        }
        before := connectingNodes;
        ghost var froms, ds;
        r, froms, ds := ExpandFrontier(records);
        if r.Err? {
          return;
        }
        nIterations := nIterations + 1;
        if connectingNodes != {} {
          return;
        }
        r := NextSide();
        if r.Err? {
          return;
        }
        left := left - 1;
      }
    }

    /**
     * `find_path`: give up at once when the source's or the destination's
     * documents are all excluded, then expand one frontier per pass until
     * a connecting node is found, and build the final graph.  `fuel` bounds
     * the number of passes and step two's walk.
     */
    method FindPath(records: ADSName -> AuthorData, fuel: nat) returns (r: Result<(), FindError>, ghost processed: set<PathNode>)
      requires Valid()
      modifies this, nodes, excludedNames.dict, graph
      ensures Valid()
      ensures NoUsableDocuments(records(src.name).documents, excludedBibcodes) ==>
                r == Err(PathFinderError("src_empty"))
      ensures !NoUsableDocuments(records(src.name).documents, excludedBibcodes) &&
              NoUsableDocuments(records(dest.name).documents, excludedBibcodes) ==>
                r == Err(PathFinderError("dest_empty"))
      ensures r.Ok? ==> connectingNodes != {} && nIterations > 0 && Pruned(Snap(graph), src, processed)
    {
      processed := {};
      nIterations := 0;
      var srcRec := records(src.name);
      var destRec := records(dest.name);
      if NoUsableDocuments(srcRec.documents, excludedBibcodes) {
        return Err(PathFinderError("src_empty")), processed;
      }
      if NoUsableDocuments(destRec.documents, excludedBibcodes) {
        return Err(PathFinderError("dest_empty")), processed;
      }
      expandingFromSrc := true;
      ghost var before;
      r, before := Search(records, fuel);
      if r.Err? {
        return;
      }
      ghost var visited;
      r, visited, processed := ProduceFinalGraph(fuel);
    }
  }

  /** The two initial nodes of `__init__`, each at distance 0 from its own end, entered in a new names dict. */
  method NewNodes(srcName: ADSName, destName: ADSName) returns (nd: NameAwareDict<PathNode>, s: PathNode, d: PathNode)
    ensures fresh(nd) && fresh(s) && fresh(d) && nd.Valid() && ValuesIn(nd.State(), {s, d})
    ensures nd.State() == SetStep(SetStep(DictState([], map[]), srcName, s), destName, d)
    ensures s.name == srcName && s.distFromSrc == 0 && s.distFromDest == MaxSize
    ensures d.name == destName && d.distFromDest == 0 && d.distFromSrc == MaxSize
    ensures s.neighborsTowardSrc == s.neighborsTowardDest == d.neighborsTowardSrc == d.neighborsTowardDest == {}
  {
    nd := new NameAwareDict<PathNode>();
    s := new PathNode(srcName, distFromSrc := 0);
    d := new PathNode(destName, distFromDest := 0);
    SetValuesIn(nd.State(), srcName, s, {s, d});
    nd.Set(srcName, s);
    SetValuesIn(nd.State(), destName, d, {s, d});
    nd.Set(destName, d);
  }

  /** The new node for a coauthor met for the first time, one step further out than `from`. */
  method NewNeighbor(name: ADSName, d: int, fromSrc: bool, from: PathNode, bibcodes: set<string>) returns (n: PathNode)
    ensures fresh(n) && n.name == name
    ensures n.Dist(fromSrc) == d + 1 && n.Dist(!fromSrc) == MaxSize
    ensures n.Neighbors(fromSrc) == {from} && n.Neighbors(!fromSrc) == {}
    ensures n.Links(fromSrc) == map[from := bibcodes] && n.Links(!fromSrc) == map[]
  {
    n := new PathNode(name);
    n.SetDist(d + 1, fromSrc);
    n.AddNeighbor(fromSrc, from);
    n.AddLinks(fromSrc, from, bibcodes);
    assert LinksAt(map[], from) + bibcodes == bibcodes;
  }

  /** The loop of `__init__` that adds each excluded name to the set. */
  method AddNames(ex: NameAwareSet, names: seq<ADSName>)
    requires ex.Valid()
    modifies ex.dict
    ensures ex.Valid() && ex.State() == AddAll(old(ex.State()), names)
  {
    for i := 0 to |names|
      invariant ex.Valid()
      invariant AddAll(ex.State(), names[i..]) == AddAll(old(ex.State()), names)
    {
      assert names[i..][0] == names[i] && names[i..][1..] == names[i + 1..];
      ex.Add(names[i]);
    }
  }

  /**
   * `PathFinder(src, dest, excluded_names)`: the two ends and every
   * non-bibcode exclusion are parsed, and a parse failure is raised.
   */
  method NewPathFinder(src: string, dest: string, excluded: Option<seq<string>>)
    returns (r: Result<PathFinder, FindError>)
    ensures r.Err? ==> Parse(src).Err? || Parse(dest).Err? ||
                       (excluded.Some? && ParseEach(NameExclusions(excluded.value)).Err?)
    ensures r.Ok? ==> fresh(r.value) && r.value.Valid()
    ensures r.Ok? ==> Parse(src) == Ok(r.value.src.name) && Parse(dest) == Ok(r.value.dest.name)
    ensures r.Ok? ==> r.value.excludedBibcodes == if excluded.None? then {} else BibcodeExclusions(excluded.value)
    ensures r.Ok? && excluded.None? ==> r.value.excludedNames.State() == DictState([], map[])
    ensures r.Ok? && excluded.Some? ==>
              var names := ParseEach(NameExclusions(excluded.value));
              names.Ok? && r.value.excludedNames.State() == AddAll(DictState([], map[]), names.value)
  {
    var s := Parse(src);
    if s.Err? {
      return Err(InvalidName(src));
    }
    var d := Parse(dest);
    if d.Err? {
      return Err(InvalidName(dest));
    }
    var bibcodes: set<string> := {};
    var texts: seq<string> := [];
    if excluded.Some? {
      bibcodes, texts := Split(excluded.value, Strip, AdsBuddy.IsBibcode);
    }
    var names := ParseEach(texts);
    if names.Err? {
      return Err(names.error);
    }
    var pf := new PathFinder(s.value, d.value, bibcodes, names.value);
    r := Ok(pf);
  }

}
