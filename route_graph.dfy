/**
 * The final graph as the route modules (route_ranker.py,
 * route_jsonifyer.py, route_printer.py) read it once the path finder is
 * done: starting at the source, each node lists its toward-destination
 * neighbours, and each such link carries the bibcodes of the papers
 * joining the two authors.
 *
 * The route code walks the graph by recursion over
 * `neighbors_toward_dest`.  It is modelled on a value `View`: every node
 * keeps its two name strings (`bare_original_name` and `str(name)`), its
 * distance from the source, its neighbours in the order Python iterates
 * the set, and each link's bibcodes in that same iteration order.
 * `Shows` ties a view to the pruned heap graph, and `PrunedLevels` proves
 * that such a view is `Leveled`: along every link the distance grows by
 * one, which is what makes the recursion terminate.
 */
module RouteGraph {

  import opened PathNodes
  import opened FinalGraph
  import opened AdsName
  import opened PyStr
  import opened Wrappers

  /** One node of the view. */
  datatype RNode = RNode(bare: string, full: string, level: int,
                         children: seq<PathNode>, links: map<PathNode, seq<string>>)

  type View = map<PathNode, RNode>

  /** `node.links_toward_dest[neighbor]` through the defaultdict: a missing entry reads as empty. */
  function LinkList(n: RNode, c: PathNode): seq<string> {
    if c in n.links then n.links[c] else []
  }

  /** Every child is in the view, one level below its parent, and no level passes `top`. */
  predicate Leveled(v: View, top: int) {
    forall x :: x in v ==>
      v[x].level <= top &&
      forall c :: c in v[x].children ==> c in v && v[c].level == v[x].level + 1
  }

  /** No two nodes of the view share a bare name. */
  predicate DistinctLabels(v: View) {
    forall a, b :: a in v && b in v && v[a].bare == v[b].bare ==> a == b
  }

  // ---------------------------------------------------------------------
  // Paths

  /** A walk from `p[0]` along toward-destination links. */
  ghost predicate Path(v: View, p: seq<PathNode>) {
    |p| >= 1 && (forall i :: 0 <= i < |p| ==> p[i] in v) &&
    forall i :: 1 <= i < |p| ==> p[i] in v[p[i - 1]].children
  }

  /** A walk that ends at a node with no toward-destination neighbour. */
  ghost predicate LeafPath(v: View, p: seq<PathNode>) {
    Path(v, p) && |v[p[|p| - 1]].children| == 0
  }

  /** The bare names along a walk. */
  function Labels(v: View, p: seq<PathNode>): (r: seq<string>)
    requires forall i :: 0 <= i < |p| ==> p[i] in v
    ensures |r| == |p| && forall i :: 0 <= i < |p| ==> r[i] == v[p[i]].bare
  {
    if p == [] then [] else [v[p[0]].bare] + Labels(v, p[1..])
  }

  lemma PathTail(v: View, p: seq<PathNode>)
    requires Path(v, p) && |p| >= 2
    ensures Path(v, p[1..]) && p[1] in v[p[0]].children
    ensures LeafPath(v, p) ==> LeafPath(v, p[1..])
  {
    assert p[1..][|p[1..]| - 1] == p[|p| - 1];
    forall i | 1 <= i < |p[1..]|
      ensures p[1..][i] in v[p[1..][i - 1]].children
    {
      assert p[1..][i] == p[i + 1] && p[1..][i - 1] == p[i];
    }
  }

  lemma PathCons(v: View, x: PathNode, q: seq<PathNode>)
    requires x in v && Path(v, q) && q[0] in v[x].children
    ensures Path(v, [x] + q) && Labels(v, [x] + q) == [v[x].bare] + Labels(v, q)
    ensures LeafPath(v, q) ==> LeafPath(v, [x] + q)
  {
    var p := [x] + q;
    assert p[1..] == q;
    assert p[|p| - 1] == q[|q| - 1];
    forall i | 1 <= i < |p|
      ensures p[i] in v[p[i - 1]].children
    {
      if i >= 2 {
        assert p[i] == q[i - 1] && p[i - 1] == q[i - 2];
      }
    }
  }

  // ---------------------------------------------------------------------
  // `_build_author_chains`: the bare names along every path to a leaf

  /**
   * `_build_author_chains_next_level(starter, x, list_of_chains)`: the
   * starter grows by this node's name; a leaf appends it to the list,
   * any other node hands it to each neighbour in turn.
   */
  function NextLevel(v: View, top: int, starter: seq<string>, x: PathNode,
                     chains: seq<seq<string>>): seq<seq<string>>
    requires Leveled(v, top) && x in v
    decreases top - v[x].level, 1, 0
  {
    var s := starter + [v[x].bare];
    if |v[x].children| == 0 then chains + [s] else NextFrom(v, top, s, x, 0, chains)
  }

  /** The loop over `x`'s neighbours from the `i`-th on. */
  function NextFrom(v: View, top: int, s: seq<string>, x: PathNode, i: nat,
                    chains: seq<seq<string>>): seq<seq<string>>
    requires Leveled(v, top) && x in v && i <= |v[x].children|
    decreases top - v[x].level, 0, |v[x].children| - i
  {
    if i == |v[x].children| then chains
    else NextFrom(v, top, s, x, i + 1, NextLevel(v, top, s, v[x].children[i], chains))
  }

  /** `_build_author_chains(src)`. */
  function AuthorChains(v: View, top: int, src: PathNode): seq<seq<string>>
    requires Leveled(v, top) && src in v
  {
    NextLevel(v, top, [], src, [])
  }

  lemma {:induction false} NextLevelGrows(v: View, top: int, starter: seq<string>, x: PathNode,
                                          chains: seq<seq<string>>)
    requires Leveled(v, top) && x in v
    ensures chains <= NextLevel(v, top, starter, x, chains)
    decreases top - v[x].level, 1, 0
  {
    if |v[x].children| != 0 {
      NextFromGrows(v, top, starter + [v[x].bare], x, 0, chains);
    }
  }

  lemma {:induction false} NextFromGrows(v: View, top: int, s: seq<string>, x: PathNode, i: nat,
                                         chains: seq<seq<string>>)
    requires Leveled(v, top) && x in v && i <= |v[x].children|
    ensures chains <= NextFrom(v, top, s, x, i, chains)
    decreases top - v[x].level, 0, |v[x].children| - i
  {
    if i < |v[x].children| {
      var mid := NextLevel(v, top, s, v[x].children[i], chains);
      NextLevelGrows(v, top, s, v[x].children[i], chains);
      NextFromGrows(v, top, s, x, i + 1, mid);
    }
  }

  /** Every chain the call appends is the starter followed by the names on a path from `x` to a leaf. */
  lemma {:induction false} NextLevelSound(v: View, top: int, starter: seq<string>, x: PathNode,
                                          chains: seq<seq<string>>, j: nat) returns (p: seq<PathNode>)
    requires Leveled(v, top) && x in v
    requires |chains| <= j < |NextLevel(v, top, starter, x, chains)|
    ensures LeafPath(v, p) && p[0] == x
    ensures NextLevel(v, top, starter, x, chains)[j] == starter + Labels(v, p)
    decreases top - v[x].level, 1, 0
  {
    var s := starter + [v[x].bare];
    if |v[x].children| == 0 {
      p := LeafChain(v, top, starter, x, chains);
    } else {
      var q := NextFromSound(v, top, s, x, 0, chains, j);
      p := ChildChain(v, top, starter, x, q);
    }
  }

  /** A leaf's call appends one chain: the starter and the leaf's own name. */
  lemma LeafChain(v: View, top: int, starter: seq<string>, x: PathNode, chains: seq<seq<string>>) returns (p: seq<PathNode>)
    requires Leveled(v, top) && x in v && |v[x].children| == 0
    ensures LeafPath(v, p) && p[0] == x
    ensures NextLevel(v, top, starter, x, chains) == chains + [starter + Labels(v, p)]
  {
    p := [x];
    assert Labels(v, p) == [v[x].bare];
  }

  /** A path to a leaf from a neighbour of `x`, with `x` put in front. */
  lemma ChildChain(v: View, top: int, starter: seq<string>, x: PathNode, q: seq<PathNode>) returns (p: seq<PathNode>)
    requires Leveled(v, top) && x in v && |v[x].children| != 0
    requires LeafPath(v, q) && q[0] in v[x].children
    ensures LeafPath(v, p) && p[0] == x
    ensures starter + Labels(v, p) == (starter + [v[x].bare]) + Labels(v, q)
  {
    PathCons(v, x, q);
    p := [x] + q;
  }

  lemma {:induction false} NextFromSound(v: View, top: int, s: seq<string>, x: PathNode, i: nat,
                                         chains: seq<seq<string>>, j: nat) returns (q: seq<PathNode>)
    requires Leveled(v, top) && x in v && i <= |v[x].children|
    requires |chains| <= j < |NextFrom(v, top, s, x, i, chains)|
    ensures LeafPath(v, q) && q[0] in v[x].children
    ensures NextFrom(v, top, s, x, i, chains)[j] == s + Labels(v, q)
    decreases top - v[x].level, 0, |v[x].children| - i
  {
    var c := v[x].children[i];
    var mid := NextLevel(v, top, s, c, chains);
    NextFromGrows(v, top, s, x, i + 1, mid);
    if j < |mid| {
      q := NextLevelSound(v, top, s, c, chains, j);
    } else {
      q := NextFromSound(v, top, s, x, i + 1, mid, j);
    }
  }

  /** Every path from `x` to a leaf gives a chain. */
  lemma {:induction false} NextLevelComplete(v: View, top: int, starter: seq<string>, x: PathNode,
                                             chains: seq<seq<string>>, p: seq<PathNode>)
    requires Leveled(v, top) && x in v && LeafPath(v, p) && p[0] == x
    ensures starter + Labels(v, p) in NextLevel(v, top, starter, x, chains)
    decreases top - v[x].level, 1, 0
  {
    var s := starter + [v[x].bare];
    if |p| == 1 {
      assert starter + Labels(v, p) == s;
    } else {
      var k, q := StepIntoChild(v, starter, x, p);
      NextFromComplete(v, top, s, x, 0, k, chains, q);
    }
  }

  /** A path to a leaf of length two or more goes through the `k`-th neighbour of its start. */
  lemma StepIntoChild(v: View, starter: seq<string>, x: PathNode, p: seq<PathNode>) returns (k: nat, q: seq<PathNode>)
    requires x in v && LeafPath(v, p) && p[0] == x && |p| >= 2
    ensures LeafPath(v, q) && k < |v[x].children| && v[x].children[k] == q[0]
    ensures starter + Labels(v, p) == (starter + [v[x].bare]) + Labels(v, q)
  {
    PathTail(v, p);
    q := p[1..];
    PathCons(v, x, q);
    assert [x] + q == p;
    k :| 0 <= k < |v[x].children| && v[x].children[k] == q[0];
  }

  lemma {:induction false} NextFromComplete(v: View, top: int, s: seq<string>, x: PathNode, i: nat, k: nat,
                                            chains: seq<seq<string>>, q: seq<PathNode>)
    requires Leveled(v, top) && x in v && i <= k < |v[x].children|
    requires LeafPath(v, q) && q[0] == v[x].children[k]
    ensures s + Labels(v, q) in NextFrom(v, top, s, x, i, chains)
    decreases top - v[x].level, 0, |v[x].children| - i
  {
    var c := v[x].children[i];
    var mid := NextLevel(v, top, s, c, chains);
    if i == k {
      NextLevelComplete(v, top, s, c, chains, q);
      NextFromGrows(v, top, s, x, i + 1, mid);
    } else {
      NextFromComplete(v, top, s, x, i + 1, k, mid, q);
    }
  }

  /**
   * The chains are exactly the name sequences of the paths from the
   * source to a leaf: each chain is one, starting with the source's bare
   * name, and each such path gives one.
   */
  lemma AuthorChainsArePaths(v: View, top: int, src: PathNode)
    requires Leveled(v, top) && src in v
    ensures forall j :: 0 <= j < |AuthorChains(v, top, src)| ==>
              |AuthorChains(v, top, src)[j]| >= 1 && AuthorChains(v, top, src)[j][0] == v[src].bare &&
              exists p :: LeafPath(v, p) && p[0] == src && AuthorChains(v, top, src)[j] == Labels(v, p)
    ensures forall p :: LeafPath(v, p) && p[0] == src ==> Labels(v, p) in AuthorChains(v, top, src)
  {
    var r := AuthorChains(v, top, src);
    forall j | 0 <= j < |r|
      ensures |r[j]| >= 1 && r[j][0] == v[src].bare
      ensures exists p :: LeafPath(v, p) && p[0] == src && r[j] == Labels(v, p)
    {
      var p := NextLevelSound(v, top, [], src, [], j);
      assert [] + Labels(v, p) == Labels(v, p);
    }
    forall p | LeafPath(v, p) && p[0] == src
      ensures Labels(v, p) in r
    {
      NextLevelComplete(v, top, [], src, [], p);
      assert [] + Labels(v, p) == Labels(v, p);
    }
  }

  // ---------------------------------------------------------------------
  // `_store_bibcodes_for_node`: the links reachable from the source

  /** The toward-destination links met by the recursion from `x`, in the order it meets them. */
  function Edges(v: View, top: int, x: PathNode): seq<(PathNode, PathNode)>
    requires Leveled(v, top) && x in v
    decreases top - v[x].level, 1, 0
  {
    EdgesFrom(v, top, x, 0)
  }

  function EdgesFrom(v: View, top: int, x: PathNode, i: nat): seq<(PathNode, PathNode)>
    requires Leveled(v, top) && x in v && i <= |v[x].children|
    decreases top - v[x].level, 0, |v[x].children| - i
  {
    if i == |v[x].children| then []
    else [(x, v[x].children[i])] + Edges(v, top, v[x].children[i]) + EdgesFrom(v, top, x, i + 1)
  }

  /** Every link along a path from `x` is met. */
  lemma {:induction false} EdgesComplete(v: View, top: int, x: PathNode, p: seq<PathNode>, i: nat)
    requires Leveled(v, top) && x in v && Path(v, p) && p[0] == x && 1 <= i < |p|
    ensures (p[i - 1], p[i]) in Edges(v, top, x)
    decreases top - v[x].level, 1, 0
  {
    PathTail(v, p);
    var k :| 0 <= k < |v[x].children| && v[x].children[k] == p[1];
    EdgesFromComplete(v, top, x, 0, k, p, i);
  }

  lemma {:induction false} EdgesFromComplete(v: View, top: int, x: PathNode, j: nat, k: nat, p: seq<PathNode>, i: nat)
    requires Leveled(v, top) && x in v && j <= k < |v[x].children|
    requires Path(v, p) && p[0] == x && |p| >= 2 && p[1] == v[x].children[k] && 1 <= i < |p|
    ensures (p[i - 1], p[i]) in EdgesFrom(v, top, x, j)
    decreases top - v[x].level, 0, |v[x].children| - j
  {
    var c := v[x].children[j];
    if j < k {
      EdgesFromComplete(v, top, x, j + 1, k, p, i);
    } else if i == 1 {
      assert EdgesFrom(v, top, x, j)[0] == (p[0], p[1]);
    } else {
      PathTail(v, p);
      EdgesComplete(v, top, c, p[1..], i - 1);
      assert p[1..][i - 2] == p[i - 1] && p[1..][i - 1] == p[i];
      var e := (p[i - 1], p[i]);
      assert e in [(x, c)] + Edges(v, top, c);
    }
  }

  /** Every link met leads from a node of the view to one of its neighbours. */
  lemma {:induction false} EdgesSound(v: View, top: int, x: PathNode)
    requires Leveled(v, top) && x in v
    ensures forall e :: e in Edges(v, top, x) ==> e.0 in v && e.1 in v && e.1 in v[e.0].children
    decreases top - v[x].level, 1, 0
  {
    EdgesFromSound(v, top, x, 0);
  }

  lemma {:induction false} EdgesFromSound(v: View, top: int, x: PathNode, i: nat)
    requires Leveled(v, top) && x in v && i <= |v[x].children|
    ensures forall e :: e in EdgesFrom(v, top, x, i) ==> e.0 in v && e.1 in v && e.1 in v[e.0].children
    decreases top - v[x].level, 0, |v[x].children| - i
  {
    if i < |v[x].children| {
      EdgesSound(v, top, v[x].children[i]);
      EdgesFromSound(v, top, x, i + 1);
    }
  }

  /** What `_store_bibcodes_for_node` fills in: the pairings, and (in the ranker) every bibcode stored. */
  datatype Stored = Stored(pairings: map<string, map<string, seq<string>>>, bibcodes: set<string>)

  /** `pairings[a][b] = value` on a `defaultdict(dict)`. */
  function Put(p: map<string, map<string, seq<string>>>, a: string, b: string, value: seq<string>)
    : map<string, map<string, seq<string>>>
  {
    p[a := (if a in p then p[a] else map[])[b := value]]
  }

  /** The bibcodes stored for the link `x`→`c`: sorted in the ranker, in set order in the jsonifyer. */
  function LinkValue(n: RNode, c: PathNode, sortLinks: bool): seq<string> {
    if sortLinks then SortedUnique(LinkList(n, c)) else LinkList(n, c)
  }

  /** Storing one link. */
  function StoreLink(v: View, acc: Stored, x: PathNode, c: PathNode, sortLinks: bool): Stored
    requires x in v && c in v
  {
    var value := LinkValue(v[x], c, sortLinks);
    Stored(Put(acc.pairings, v[x].bare, v[c].bare, value), acc.bibcodes + Elements(value))
  }

  /** `_store_bibcodes_for_node(x, ...)`: each neighbour's link is stored, then the neighbour is recursed into. */
  function Store(v: View, top: int, x: PathNode, acc: Stored, sortLinks: bool): Stored
    requires Leveled(v, top) && x in v
    decreases top - v[x].level, 1, 0
  {
    StoreFrom(v, top, x, 0, acc, sortLinks)
  }

  function StoreFrom(v: View, top: int, x: PathNode, i: nat, acc: Stored, sortLinks: bool): Stored
    requires Leveled(v, top) && x in v && i <= |v[x].children|
    decreases top - v[x].level, 0, |v[x].children| - i
  {
    if i == |v[x].children| then acc
    else
      var c := v[x].children[i];
      StoreFrom(v, top, x, i + 1, Store(v, top, c, StoreLink(v, acc, x, c, sortLinks), sortLinks), sortLinks)
  }

  /** Storing a sequence of links in order. */
  function Fold(v: View, es: seq<(PathNode, PathNode)>, acc: Stored, sortLinks: bool): Stored
    requires forall e :: e in es ==> e.0 in v && e.1 in v
  {
    if es == [] then acc else Fold(v, es[1..], StoreLink(v, acc, es[0].0, es[0].1, sortLinks), sortLinks)
  }

  lemma {:induction false} FoldAppend(v: View, s: seq<(PathNode, PathNode)>, t: seq<(PathNode, PathNode)>,
                                      acc: Stored, sortLinks: bool)
    requires forall e :: e in s + t ==> e.0 in v && e.1 in v
    ensures Fold(v, s + t, acc, sortLinks) == Fold(v, t, Fold(v, s, acc, sortLinks), sortLinks)
  {
    if s == [] {
      assert s + t == t;
    } else {
      assert (s + t)[0] == s[0] && (s + t)[1..] == s[1..] + t;
      FoldAppend(v, s[1..], t, StoreLink(v, acc, s[0].0, s[0].1, sortLinks), sortLinks);
    }
  }

  /** The recursion stores exactly the links `Edges` lists, in that order. */
  lemma {:induction false} StoreIsFold(v: View, top: int, x: PathNode, acc: Stored, sortLinks: bool)
    requires Leveled(v, top) && x in v
    ensures forall e :: e in Edges(v, top, x) ==> e.0 in v && e.1 in v
    ensures Store(v, top, x, acc, sortLinks) == Fold(v, Edges(v, top, x), acc, sortLinks)
    decreases top - v[x].level, 1, 0
  {
    EdgesSound(v, top, x);
    StoreFromIsFold(v, top, x, 0, acc, sortLinks);
  }

  lemma {:induction false} StoreFromIsFold(v: View, top: int, x: PathNode, i: nat, acc: Stored, sortLinks: bool)
    requires Leveled(v, top) && x in v && i <= |v[x].children|
    requires forall e :: e in EdgesFrom(v, top, x, i) ==> e.0 in v && e.1 in v
    ensures StoreFrom(v, top, x, i, acc, sortLinks) == Fold(v, EdgesFrom(v, top, x, i), acc, sortLinks)
    decreases top - v[x].level, 0, |v[x].children| - i
  {
    if i < |v[x].children| {
      var c := v[x].children[i];
      var acc1 := StoreLink(v, acc, x, c, sortLinks);
      var acc2 := Store(v, top, c, acc1, sortLinks);
      var head, mid, tail := [(x, c)], Edges(v, top, c), EdgesFrom(v, top, x, i + 1);
      EdgesFromSplit(v, top, x, i);
      StoreIsFold(v, top, c, acc1, sortLinks);
      EdgesFromSound(v, top, x, i + 1);
      StoreFromIsFold(v, top, x, i + 1, acc2, sortLinks);
      FoldAppend(v, head, mid + tail, acc, sortLinks);
      FoldAppend(v, mid, tail, acc1, sortLinks);
      FoldOne(v, x, c, acc, sortLinks);
    }
  }

  lemma EdgesFromSplit(v: View, top: int, x: PathNode, i: nat)
    requires Leveled(v, top) && x in v && i < |v[x].children|
    ensures EdgesFrom(v, top, x, i) ==
            [(x, v[x].children[i])] + (Edges(v, top, v[x].children[i]) + EdgesFrom(v, top, x, i + 1))
  {
  }

  lemma FoldOne(v: View, x: PathNode, c: PathNode, acc: Stored, sortLinks: bool)
    requires x in v && c in v
    ensures Fold(v, [(x, c)], acc, sortLinks) == StoreLink(v, acc, x, c, sortLinks)
  {
    assert [(x, c)][1..] == [];
  }

  /** A key pair, once stored, stays stored. */
  lemma {:induction false} FoldKeepsKey(v: View, es: seq<(PathNode, PathNode)>, acc: Stored, sortLinks: bool,
                                        a: string, b: string)
    requires forall e :: e in es ==> e.0 in v && e.1 in v
    requires a in acc.pairings && b in acc.pairings[a]
    ensures a in Fold(v, es, acc, sortLinks).pairings && b in Fold(v, es, acc, sortLinks).pairings[a]
  {
    if es != [] {
      FoldKeepsKey(v, es[1..], StoreLink(v, acc, es[0].0, es[0].1, sortLinks), sortLinks, a, b);
    }
  }

  /**
   * With distinct bare names, the entry of a stored link is never
   * overwritten by another link's: it keeps that link's bibcodes.
   */
  lemma {:induction false} FoldKeepsValue(v: View, es: seq<(PathNode, PathNode)>, acc: Stored, sortLinks: bool,
                                          x: PathNode, c: PathNode)
    requires DistinctLabels(v) && x in v && c in v
    requires forall e :: e in es ==> e.0 in v && e.1 in v
    requires v[x].bare in acc.pairings && v[c].bare in acc.pairings[v[x].bare]
    requires acc.pairings[v[x].bare][v[c].bare] == LinkValue(v[x], c, sortLinks)
    ensures v[x].bare in Fold(v, es, acc, sortLinks).pairings &&
            v[c].bare in Fold(v, es, acc, sortLinks).pairings[v[x].bare] &&
            Fold(v, es, acc, sortLinks).pairings[v[x].bare][v[c].bare] == LinkValue(v[x], c, sortLinks)
  {
    if es != [] {
      FoldKeepsValue(v, es[1..], StoreLink(v, acc, es[0].0, es[0].1, sortLinks), sortLinks, x, c);
    }
  }

  /** Every link folded over is stored with its bibcodes, and every bibcode stored is collected. */
  lemma {:induction false} FoldStores(v: View, es: seq<(PathNode, PathNode)>, acc: Stored, sortLinks: bool,
                                      x: PathNode, c: PathNode)
    requires forall e :: e in es ==> e.0 in v && e.1 in v
    requires (x, c) in es
    ensures var r := Fold(v, es, acc, sortLinks);
            v[x].bare in r.pairings && v[c].bare in r.pairings[v[x].bare] &&
            Elements(LinkList(v[x], c)) <= r.bibcodes &&
            (DistinctLabels(v) ==> r.pairings[v[x].bare][v[c].bare] == LinkValue(v[x], c, sortLinks))
  {
    var next := StoreLink(v, acc, es[0].0, es[0].1, sortLinks);
    if es[0] == (x, c) {
      FoldKeepsKey(v, es[1..], next, sortLinks, v[x].bare, v[c].bare);
      FoldKeepsBibcodes(v, es[1..], next, sortLinks);
      if DistinctLabels(v) {
        FoldKeepsValue(v, es[1..], next, sortLinks, x, c);
      }
      if sortLinks {
        assert Elements(LinkValue(v[x], c, sortLinks)) == Elements(LinkList(v[x], c));
      }
    } else {
      FoldStores(v, es[1..], next, sortLinks, x, c);
    }
  }

  lemma {:induction false} FoldKeepsBibcodes(v: View, es: seq<(PathNode, PathNode)>, acc: Stored, sortLinks: bool)
    requires forall e :: e in es ==> e.0 in v && e.1 in v
    ensures acc.bibcodes <= Fold(v, es, acc, sortLinks).bibcodes
  {
    if es != [] {
      FoldKeepsBibcodes(v, es[1..], StoreLink(v, acc, es[0].0, es[0].1, sortLinks), sortLinks);
    }
  }

  /** The keys of `Put`: the old ones and the pair written. */
  lemma PutKeys(p: map<string, map<string, seq<string>>>, la: string, lb: string, value: seq<string>, a: string, b: string)
    ensures (a in Put(p, la, lb, value) && b in Put(p, la, lb, value)[a]) <==>
            (a in p && b in p[a]) || (a == la && b == lb)
  {
  }

  /** Nothing but the links folded over is stored. */
  lemma {:induction false} FoldOnly(v: View, es: seq<(PathNode, PathNode)>, acc: Stored, sortLinks: bool,
                                    a: string, b: string)
    requires forall e :: e in es ==> e.0 in v && e.1 in v
    requires a in Fold(v, es, acc, sortLinks).pairings && b in Fold(v, es, acc, sortLinks).pairings[a]
    ensures (a in acc.pairings && b in acc.pairings[a]) ||
            exists e :: e in es && v[e.0].bare == a && v[e.1].bare == b
  {
    if es != [] {
      var h := es[0];
      var next := StoreLink(v, acc, h.0, h.1, sortLinks);
      FoldOnly(v, es[1..], next, sortLinks, a, b);
      PutKeys(acc.pairings, v[h.0].bare, v[h.1].bare, LinkValue(v[h.0], h.1, sortLinks), a, b);
      if v[h.0].bare == a && v[h.1].bare == b {
        assert h in es;
      } else if !(a in next.pairings && b in next.pairings[a]) {
        var e :| e in es[1..] && v[e.0].bare == a && v[e.1].bare == b;
        assert e in es;
      }
    }
  }

  /**
   * `_store_bibcodes_for_node(src)` from empty pairings: `pairings[a][b]`
   * exists for every link on a path from the source and for no other
   * pair of names; with distinct bare names it holds that link's
   * bibcodes, and every one of them is among the bibcodes collected.
   */
  lemma StoreReachable(v: View, top: int, src: PathNode, sortLinks: bool, p: seq<PathNode>, i: nat)
    requires Leveled(v, top) && src in v && Path(v, p) && p[0] == src && 1 <= i < |p|
    ensures var r := Store(v, top, src, Stored(map[], {}), sortLinks);
            v[p[i - 1]].bare in r.pairings && v[p[i]].bare in r.pairings[v[p[i - 1]].bare] &&
            Elements(LinkList(v[p[i - 1]], p[i])) <= r.bibcodes &&
            (DistinctLabels(v) ==> r.pairings[v[p[i - 1]].bare][v[p[i]].bare] == LinkValue(v[p[i - 1]], p[i], sortLinks))
  {
    StoreIsFold(v, top, src, Stored(map[], {}), sortLinks);
    EdgesComplete(v, top, src, p, i);
    FoldStores(v, Edges(v, top, src), Stored(map[], {}), sortLinks, p[i - 1], p[i]);
  }

  lemma StoreOnlyLinks(v: View, top: int, src: PathNode, sortLinks: bool, a: string, b: string)
    requires Leveled(v, top) && src in v
    requires var r := Store(v, top, src, Stored(map[], {}), sortLinks);
             a in r.pairings && b in r.pairings[a]
    ensures exists e :: e in Edges(v, top, src) && e.0 in v && e.1 in v && v[e.0].bare == a && v[e.1].bare == b &&
                        e.1 in v[e.0].children
  {
    StoreIsFold(v, top, src, Stored(map[], {}), sortLinks);
    EdgesSound(v, top, src);
    FoldOnly(v, Edges(v, top, src), Stored(map[], {}), sortLinks, a, b);
  }

  // ---------------------------------------------------------------------
  // The view of a pruned graph

  /** Items of a sequence, as a set. */
  function Members<T>(s: seq<T>): set<T> {
    set x | x in s
  }

  /**
   * `v` shows the part `P` of the graph `g` that the route code reaches:
   * its names, distances from the source, neighbours (each once) and
   * link bibcodes (each once).
   */
  ghost predicate Shows(g: set<PathNode>, P: set<PathNode>, v: View)
    reads g
  {
    v.Keys == P && P <= g &&
    forall x :: x in v ==>
      BareOriginalName(x.name) == Some(v[x].bare) && v[x].full == Str(x.name) &&
      v[x].level == x.distFromSrc &&
      Members(v[x].children) == x.neighborsTowardDest &&
      (forall i, j :: 0 <= i < j < |v[x].children| ==> v[x].children[i] != v[x].children[j]) &&
      forall c :: c in x.neighborsTowardDest ==> Members(LinkList(v[x], c)) == LinksAt(x.linksTowardDest, c)
  }

  /** A finite set of integers has a largest element. */
  lemma {:induction false} SetMax(s: set<int>) returns (top: int)
    requires s != {}
    ensures top in s && forall d :: d in s ==> d <= top
    decreases |s|
  {
    var d := Pick(s);
    if forall e :: e in s ==> e == d {
      top := d;
    } else {
      var e :| e in s && e != d;
      var rest := s - {d};
      assert e in rest;
      var t := SetMax(rest);
      top := if d <= t then t else d;
      forall e | e in s
        ensures e <= top
      {
        if e != d {
          assert e in rest;
        }
      }
    }
  }

  /** Some element of a non-empty set. */
  lemma Pick<T>(s: set<T>) returns (d: T)
    requires s != {}
    ensures d in s
  {
    d :| d in s;
  }

  /**
   * A view of the graph that step two of `produce_final_graph` left
   * (`Pruned`, over the nodes it processed) is leveled: the recursion
   * over `neighbors_toward_dest` from the source ends.
   */
  lemma PrunedLevels(g: set<PathNode>, src: PathNode, P: set<PathNode>, v: View) returns (top: int)
    requires Pruned(Snap(g), src, P) && Shows(g, P, v)
    ensures Leveled(v, top) && src in v
  {
    var levels := set x | x in P :: x.distFromSrc;
    assert src.distFromSrc in levels;
    top := SetMax(levels);
    forall x | x in v
      ensures v[x].level <= top
      ensures forall c :: c in v[x].children ==> c in v && v[c].level == v[x].level + 1
    {
      assert x.distFromSrc in levels;
      assert Settled(Snap(g), x);
      forall c | c in v[x].children
        ensures c in v && v[c].level == v[x].level + 1
      {
        assert c in Members(v[x].children);
        assert c in Snap(g)[x].nbrDest;
      }
    }
  }
}
