/**
 * The two passes of `produce_final_graph` (path_finder.py) that turn the
 * nodes met by the search into the final graph: the first makes every link
 * found from one side known from the other side too, the second removes
 * the links that do not lie on a shortest route.
 *
 * Both passes change node fields in place.  Their contracts are stated on
 * a snapshot of the nodes as values (`Snap`), so that what one step does
 * to the whole graph is a pure function proved about by pure lemmas.
 */
module FinalGraph {

  import opened Wrappers
  import opened PathNodes

  /** The fields of one node that the passes read and write. */
  datatype NodeVal = NodeVal(
    distSrc: int, distDest: int,
    nbrSrc: set<PathNode>, nbrDest: set<PathNode>,
    linksSrc: map<PathNode, set<string>>, linksDest: map<PathNode, set<string>>)
  {
    function Dist(s: bool): int { if s then distSrc else distDest }
    function Nbrs(s: bool): set<PathNode> { if s then nbrSrc else nbrDest }
    function Links(s: bool): map<PathNode, set<string>> { if s then linksSrc else linksDest }

    function WithDist(s: bool, d: int): NodeVal {
      if s then this.(distSrc := d) else this.(distDest := d)
    }
    function WithNbrs(s: bool, ns: set<PathNode>): NodeVal {
      if s then this.(nbrSrc := ns) else this.(nbrDest := ns)
    }
    function WithLinks(s: bool, ls: map<PathNode, set<string>>): NodeVal {
      if s then this.(linksSrc := ls) else this.(linksDest := ls)
    }
  }

  ghost function Val(n: PathNode): NodeVal
    reads n
  {
    NodeVal(n.distFromSrc, n.distFromDest, n.neighborsTowardSrc, n.neighborsTowardDest,
            n.linksTowardSrc, n.linksTowardDest)
  }

  /** Every node of `g` as a value. */
  ghost function Snap(g: set<PathNode>): map<PathNode, NodeVal>
    reads g
  {
    map n | n in g :: Val(n)
  }

  function Min(a: int, b: int): int {
    if a <= b then a else b
  }

  // ---------------------------------------------------------------------
  // Step one: making the links two-way

  /**
   * One turn of the inner loops of step one, for node `y` and its neighbour
   * `n` on side `s`: `n` gets `y` as a neighbour on the other side, the
   * shorter of its distance and `y`'s plus one, and the same bibcodes.
   */
  function LinkBackV(m: map<PathNode, NodeVal>, y: PathNode, n: PathNode, s: bool): map<PathNode, NodeVal>
    requires y in m && n in m
  {
    var b := LinksAt(m[y].Links(s), n);
    var yv := m[y].WithLinks(s, m[y].Links(s)[n := b]);
    var nv := m[n].WithNbrs(!s, m[n].Nbrs(!s) + {y})
                  .WithDist(!s, Min(m[y].Dist(!s) + 1, m[n].Dist(!s)))
                  .WithLinks(!s, m[n].Links(!s)[y := b]);
    m[y := yv][n := nv]
  }

  /**
   * The link from `x` to its neighbour `k` on side `t` is mirrored: `x` is
   * `k`'s neighbour on the other side, and both record the same bibcodes.
   */
  ghost predicate EdgeOk(m: map<PathNode, NodeVal>, x: PathNode, k: PathNode, t: bool)
    requires x in m
  {
    k in m && x in m[k].Nbrs(!t) && k in m[x].Links(t) && x in m[k].Links(!t) &&
    m[k].Links(!t)[x] == m[x].Links(t)[k]
  }

  ghost predicate EdgesOk(m: map<PathNode, NodeVal>, x: PathNode, t: bool, ks: set<PathNode>)
    requires x in m
  {
    forall k :: k in ks ==> EdgeOk(m, x, k, t)
  }

  /** Every link of `x`, on both sides, is mirrored. */
  ghost predicate Mirrored(m: map<PathNode, NodeVal>, x: PathNode) {
    x in m && EdgesOk(m, x, true, m[x].nbrSrc) && EdgesOk(m, x, false, m[x].nbrDest)
  }

  /** Linking back adds exactly one neighbour, `y` to `n` on the other side. */
  lemma LinkBackNbrs(m: map<PathNode, NodeVal>, y: PathNode, n: PathNode, s: bool, x: PathNode, t: bool)
    requires y in m && n in m && y != n && x in m
    ensures x in LinkBackV(m, y, n, s)
    ensures LinkBackV(m, y, n, s)[x].Nbrs(t) == m[x].Nbrs(t) + (if x == n && t == !s then {y} else {})
  {
  }

  /** Both directions of the link between `y` and `n` are mirrored afterwards. */
  lemma LinkBackMirrors(m: map<PathNode, NodeVal>, y: PathNode, n: PathNode, s: bool)
    requires y in m && n in m && y != n && n in m[y].Nbrs(s)
    ensures EdgeOk(LinkBackV(m, y, n, s), y, n, s)
    ensures EdgeOk(LinkBackV(m, y, n, s), n, y, !s)
  {
  }

  /** A link that was mirrored stays mirrored. */
  lemma LinkBackKeepsEdge(m: map<PathNode, NodeVal>, y: PathNode, n: PathNode, s: bool, x: PathNode, k: PathNode, t: bool)
    requires y in m && n in m && y != n && n in m[y].Nbrs(s) && x in m
    requires EdgeOk(m, x, k, t)
    ensures EdgeOk(LinkBackV(m, y, n, s), x, k, t)
  {
    var m' := LinkBackV(m, y, n, s);
    if (x == y && k == n && t == s) || (x == n && k == y && t == !s) {
      LinkBackMirrors(m, y, n, s);
    } else {
      LinkBackNbrs(m, y, n, s, k, !t);
      assert m'[k].Links(!t)[x] == m[k].Links(!t)[x];
      assert m'[x].Links(t)[k] == m[x].Links(t)[k];
    }
  }

  lemma LinkBackKeepsEdges(m: map<PathNode, NodeVal>, y: PathNode, n: PathNode, s: bool, x: PathNode, t: bool, ks: set<PathNode>)
    requires y in m && n in m && y != n && n in m[y].Nbrs(s) && x in m
    requires EdgesOk(m, x, t, ks)
    ensures x in LinkBackV(m, y, n, s) && EdgesOk(LinkBackV(m, y, n, s), x, t, ks)
  {
    forall k | k in ks ensures EdgeOk(LinkBackV(m, y, n, s), x, k, t) {
      LinkBackKeepsEdge(m, y, n, s, x, k, t);
    }
  }

  /** A node all of whose links were mirrored keeps that. */
  lemma LinkBackKeepsMirrored(m: map<PathNode, NodeVal>, y: PathNode, n: PathNode, s: bool, x: PathNode)
    requires y in m && n in m && y != n && n in m[y].Nbrs(s)
    requires Mirrored(m, x)
    ensures Mirrored(LinkBackV(m, y, n, s), x)
  {
    var m' := LinkBackV(m, y, n, s);
    forall t: bool ensures EdgesOk(m', x, t, m'[x].Nbrs(t)) {
      LinkBackNbrs(m, y, n, s, x, t);
      LinkBackKeepsEdges(m, y, n, s, x, t, m[x].Nbrs(t));
      if x == n && t == !s {
        LinkBackMirrors(m, y, n, s);
      }
    }
    assert EdgesOk(m', x, true, m'[x].Nbrs(true));
    assert EdgesOk(m', x, false, m'[x].Nbrs(false));
  }

  /** No node is its own neighbour, and neighbours stay inside the snapshot. */
  ghost predicate ClosedV(m: map<PathNode, NodeVal>) {
    forall x :: x in m ==>
      m[x].nbrSrc <= m.Keys && m[x].nbrDest <= m.Keys && x !in m[x].nbrSrc && x !in m[x].nbrDest
  }

  lemma ClosedSnap(g: set<PathNode>)
    ensures Closed(g) <==> ClosedV(Snap(g))
  {
    var m := Snap(g);
    assert m.Keys == g;
    assert forall x :: x in g ==> m[x] == Val(x);
  }

  lemma LinkBackKeepsClosed(m: map<PathNode, NodeVal>, y: PathNode, n: PathNode, s: bool)
    requires y in m && n in m && y != n && ClosedV(m)
    ensures ClosedV(LinkBackV(m, y, n, s)) && LinkBackV(m, y, n, s).Keys == m.Keys
  {
    var m' := LinkBackV(m, y, n, s);
    forall x | x in m' ensures m'[x].nbrSrc <= m'.Keys && m'[x].nbrDest <= m'.Keys && x !in m'[x].nbrSrc && x !in m'[x].nbrDest {
      LinkBackNbrs(m, y, n, s, x, true);
      LinkBackNbrs(m, y, n, s, x, false);
    }
  }

  /** One turn of step one's inner loops, on the nodes themselves. */
  method LinkBack(ghost g: set<PathNode>, y: PathNode, n: PathNode, s: bool)
    requires y in g && n in g && y != n
    modifies y, n
    ensures Snap(g) == LinkBackV(old(Snap(g)), y, n, s)
  {
    ghost var m := Snap(g);
    n.AddNeighbor(!s, y);
    n.SetDist(Min(y.Dist(!s) + 1, n.Dist(!s)), !s);
    var b := y.ReadLinks(s, n);
    n.SetLinks(!s, y, b);
    ghost var m' := LinkBackV(m, y, n, s);
    assert Val(y) == m'[y];
    assert Val(n) == m'[n];
    SnapAfter(g, m, m', y, n);
  }

  /** A snapshot after only `y` and `n` changed, to the values `after` gives them. */
  lemma SnapAfter(g: set<PathNode>, before: map<PathNode, NodeVal>, after: map<PathNode, NodeVal>, y: PathNode, n: PathNode)
    requires before.Keys == g && after.Keys == g && y in g && n in g
    requires forall x :: x in g && x != y && x != n ==> Val(x) == before[x] == after[x]
    requires Val(y) == after[y] && Val(n) == after[n]
    ensures Snap(g) == after
  {
  }

  /**
   * What an inner loop of step one has achieved once the neighbours `done`
   * of `y` on side `s` are linked back: their links are mirrored, mirrored
   * nodes stay mirrored, `y`'s own neighbours are as before, and the only
   * neighbour any node gains is `y`.
   */
  ghost predicate WalkInv(m0: map<PathNode, NodeVal>, m: map<PathNode, NodeVal>, y: PathNode, s: bool, done: set<PathNode>) {
    y in m0 && m.Keys == m0.Keys && ClosedV(m) && done <= m0[y].Nbrs(s) &&
    (forall x :: x in m0 && Mirrored(m0, x) ==> Mirrored(m, x)) &&
    EdgesOk(m, y, s, done) &&
    (EdgesOk(m0, y, !s, m0[y].Nbrs(!s)) ==> EdgesOk(m, y, !s, m0[y].Nbrs(!s))) &&
    m[y].nbrSrc == m0[y].nbrSrc && m[y].nbrDest == m0[y].nbrDest &&
    (forall x, t :: x in m ==> m[x].Nbrs(t) <= m0[x].Nbrs(t) + {y})
  }

  lemma WalkStart(m0: map<PathNode, NodeVal>, y: PathNode, s: bool)
    requires y in m0 && ClosedV(m0)
    ensures WalkInv(m0, m0, y, s, {})
  {
  }

  /** Linking back one more neighbour `n` keeps `WalkInv`, with `n` done. */
  lemma WalkStep(m0: map<PathNode, NodeVal>, m: map<PathNode, NodeVal>, y: PathNode, s: bool,
                 done: set<PathNode>, n: PathNode, done': set<PathNode>)
    requires WalkInv(m0, m, y, s, done)
    requires n in m0[y].Nbrs(s) && done' == done + {n}
    ensures y in m && n in m && WalkInv(m0, LinkBackV(m, y, n, s), y, s, done')
  {
    assert y != n && n in m;
    var m' := LinkBackV(m, y, n, s);
    LinkBackKeepsClosed(m, y, n, s);
    forall x | x in m0 && Mirrored(m0, x) ensures Mirrored(m', x) {
      LinkBackKeepsMirrored(m, y, n, s, x);
    }
    LinkBackKeepsEdges(m, y, n, s, y, s, done);
    LinkBackMirrors(m, y, n, s);
    if EdgesOk(m0, y, !s, m0[y].Nbrs(!s)) {
      LinkBackKeepsEdges(m, y, n, s, y, !s, m0[y].Nbrs(!s));
    }
    forall x, t | x in m' ensures m'[x].Nbrs(t) <= m0[x].Nbrs(t) + {y} {
      LinkBackNbrs(m, y, n, s, x, t);
    }
    LinkBackNbrs(m, y, n, s, y, true);
    LinkBackNbrs(m, y, n, s, y, false);
  }

  /**
   * The stack after an inner loop over the neighbours `done` of `y`: what it
   * held before, then some of those neighbours, among them every one not
   * yet visited.
   */
  ghost predicate Pushed(nbrs: set<PathNode>, visited: set<PathNode>, stack: seq<PathNode>, pushed: seq<PathNode>) {
    stack <= pushed &&
    (forall k :: k in pushed ==> k in stack || k in nbrs) &&
    (forall k :: k in nbrs && k !in visited ==> k in pushed)
  }

  /** One inner loop of step one: every neighbour of `y` on side `s` is linked back, and pushed unless visited. */
  method WalkSide(ghost g: set<PathNode>, y: PathNode, s: bool, visited: set<PathNode>, stack: seq<PathNode>)
    returns (pushed: seq<PathNode>)
    requires y in g && ClosedV(Snap(g))
    modifies g
    ensures y in old(Snap(g)) && WalkInv(old(Snap(g)), Snap(g), y, s, old(Snap(g))[y].Nbrs(s))
    ensures Pushed(old(Snap(g))[y].Nbrs(s), visited, stack, pushed)
  {
    ghost var m0 := Snap(g);
    ghost var m := m0;
    var todo := y.Neighbors(s);
    ghost var nbrs := m0[y].Nbrs(s);
    assert todo == nbrs;
    ghost var done: set<PathNode> := {};
    WalkStart(m0, y, s);
    pushed := stack;
    while todo != {}
      invariant m == Snap(g) && WalkInv(m0, m, y, s, done)
      invariant todo <= nbrs && forall k :: k in nbrs ==> k in done || k in todo
      invariant stack <= pushed
      invariant forall k :: k in pushed ==> k in stack || k in nbrs
      invariant forall k :: k in done && k !in visited ==> k in pushed
      decreases |todo|
    {
      var n :| n in todo;
      ghost var done' := done + {n};
      WalkStep(m0, m, y, s, done, n, done');
      assert n in g;
      LinkBack(g, y, n, s);
      m := LinkBackV(m, y, n, s);
      done := done';
      if n !in visited {
        pushed := pushed + [n];
      }
      var rest := todo - {n};
      Shrink(todo, n, rest);
      todo := rest;
    }
    assert done == nbrs;
  }

  /**
   * What step one's walk keeps: visited nodes are mirrored, their
   * neighbours are visited or on the stack, and so is every connecting node.
   */
  ghost predicate BidiInv(m: map<PathNode, NodeVal>, g: set<PathNode>, connecting: set<PathNode>,
                          visited: set<PathNode>, stack: seq<PathNode>) {
    m.Keys == g && ClosedV(m) && visited <= g &&
    (forall k :: k in stack ==> k in g) &&
    (forall x :: x in connecting ==> x in visited || x in stack) &&
    (forall x :: x in visited ==> Mirrored(m, x)) &&
    (forall x, t :: x in visited ==> forall k :: k in m[x].Nbrs(t) ==> k in visited || k in stack)
  }

  /** Visiting `y`, the top of the stack, by two inner loops keeps `BidiInv`. */
  lemma BidiStep(m: map<PathNode, NodeVal>, m1: map<PathNode, NodeVal>, m2: map<PathNode, NodeVal>,
                 g: set<PathNode>, connecting: set<PathNode>, visited: set<PathNode>, seen: set<PathNode>,
                 stack: seq<PathNode>, rest: seq<PathNode>, y: PathNode, s1: seq<PathNode>, s2: seq<PathNode>)
    requires BidiInv(m, g, connecting, visited, stack)
    requires stack == rest + [y] && y !in visited && seen == visited + {y}
    requires y in m && WalkInv(m, m1, y, true, m[y].nbrSrc) && Pushed(m[y].nbrSrc, seen, rest, s1)
    requires y in m1 && WalkInv(m1, m2, y, false, m1[y].nbrDest) && Pushed(m1[y].nbrDest, seen, s1, s2)
    ensures BidiInv(m2, g, connecting, seen, s2)
  {
    StackKeeps(stack, rest, y, s1, s2);
    assert m2[y].nbrSrc == m[y].nbrSrc && m2[y].nbrDest == m[y].nbrDest;
    forall x | x in seen ensures Mirrored(m2, x) {
      if x != y {
        assert Mirrored(m1, x);
      }
    }
    PrefixIn(s1, s2);
    assert forall k, t :: k in m2[y].Nbrs(t) && k !in seen ==> k in s2;
    BidiClosure(m, m1, m2, visited, seen, stack, y, s2);
  }

  /** The neighbours of the visited nodes, `y` now among them, are still visited or on the stack. */
  lemma BidiClosure(m: map<PathNode, NodeVal>, m1: map<PathNode, NodeVal>, m2: map<PathNode, NodeVal>,
                    visited: set<PathNode>, seen: set<PathNode>, stack: seq<PathNode>, y: PathNode, s2: seq<PathNode>)
    requires y in m2 && seen == visited + {y} && visited <= m.Keys && m1.Keys == m.Keys && m2.Keys == m.Keys
    requires forall x, t :: x in visited ==> forall k :: k in m[x].Nbrs(t) ==> k in visited || k in stack
    requires forall x, t :: x in m1 ==> m1[x].Nbrs(t) <= m[x].Nbrs(t) + {y}
    requires forall x, t :: x in m2 ==> m2[x].Nbrs(t) <= m1[x].Nbrs(t) + {y}
    requires forall k :: k in stack ==> k == y || k in s2
    requires forall k, t :: k in m2[y].Nbrs(t) && k !in seen ==> k in s2
    ensures forall x, t :: x in seen ==> forall k :: k in m2[x].Nbrs(t) ==> k in seen || k in s2
  {
    forall x, t, k | x in visited && k in m2[x].Nbrs(t) && k != y ensures k in seen || k in s2 {
      assert k in m1[x].Nbrs(t);
      assert k in m[x].Nbrs(t);
    }
  }

  lemma PrefixIn<T>(a: seq<T>, b: seq<T>)
    requires a <= b
    ensures forall k :: k in a ==> k in b
  {
    forall k | k in a ensures k in b {
      var i :| 0 <= i < |a| && a[i] == k;
      assert b[i] == k;
    }
  }

  lemma Pop<T>(stack: seq<T>, rest: seq<T>, y: T)
    requires |stack| > 0 && rest == stack[..|stack| - 1] && y == stack[|stack| - 1]
    ensures stack == rest + [y] && forall k :: k in stack ==> k in rest || k == y
  {
  }

  lemma Shrink<T>(todo: set<T>, n: T, rest: set<T>)
    requires n in todo && rest == todo - {n}
    ensures |rest| < |todo|
  {
  }

  lemma FewerUnvisited<T>(g: set<T>, visited: set<T>, seen: set<T>, y: T)
    requires y in g && y !in visited && seen == visited + {y}
    ensures |g - seen| < |g - visited|
  {
    assert g - seen == (g - visited) - {y};
  }

  /** What was on the stack below its top is still there after the pushes. */
  lemma StackKeeps(stack: seq<PathNode>, rest: seq<PathNode>, y: PathNode, s1: seq<PathNode>, s2: seq<PathNode>)
    requires stack == rest + [y] && rest <= s1 && s1 <= s2
    ensures forall k :: k in stack ==> k == y || k in s2
  {
    forall k | k in stack ensures k == y || k in s2 {
      if k != y {
        var i :| 0 <= i < |stack| && stack[i] == k;
        assert s2[i] == k;
      }
    }
  }

  /**
   * Step one: a walk from the connecting nodes that links every neighbour
   * back.  Every node it visits ends with all its links mirrored, and its
   * neighbours are visited too.
   */
  method MakeBidirectional(ghost g: set<PathNode>, connecting: set<PathNode>) returns (visited: set<PathNode>)
    requires connecting <= g && Closed(g)
    modifies g
    ensures Closed(g)
    ensures connecting <= visited <= g
    ensures forall x :: x in visited ==> Mirrored(Snap(g), x)
    ensures forall x, k, t :: x in visited && k in Snap(g)[x].Nbrs(t) ==> k in visited
  {
    ClosedSnap(g);
    var stack := SetToSeq(connecting);
    visited := {};
    BidiStart(Snap(g), g, connecting, stack);
    while |stack| > 0
      invariant BidiInv(Snap(g), g, connecting, visited, stack)
      decreases |g - visited|, |stack|
    {
      visited, stack := VisitTop(g, connecting, visited, stack);
    }
    BidiEnd(Snap(g), g, connecting, visited, stack);
    ClosedSnap(g);
  }

  lemma BidiStart(m: map<PathNode, NodeVal>, g: set<PathNode>, connecting: set<PathNode>, stack: seq<PathNode>)
    requires m.Keys == g && ClosedV(m) && connecting <= g
    requires forall x :: x in stack <==> x in connecting
    ensures BidiInv(m, g, connecting, {}, stack)
  {
  }

  lemma BidiEnd(m: map<PathNode, NodeVal>, g: set<PathNode>, connecting: set<PathNode>, visited: set<PathNode>, stack: seq<PathNode>)
    requires BidiInv(m, g, connecting, visited, stack) && |stack| == 0
    ensures ClosedV(m) && connecting <= visited <= g
    ensures forall x :: x in visited ==> Mirrored(m, x)
    ensures forall x, k, t :: x in visited && k in m[x].Nbrs(t) ==> k in visited
  {
  }

  /**
   * One turn of step one's outer loop: pop the top of the stack and, unless
   * it was visited already, visit it by both inner loops.
   */
  method VisitTop(ghost g: set<PathNode>, ghost connecting: set<PathNode>, visited: set<PathNode>, stack: seq<PathNode>)
    returns (visited': set<PathNode>, stack': seq<PathNode>)
    requires |stack| > 0 && BidiInv(Snap(g), g, connecting, visited, stack)
    modifies g
    ensures BidiInv(Snap(g), g, connecting, visited', stack')
    ensures |g - visited'| < |g - visited| || (visited' == visited && |stack'| < |stack|)
  {
    ghost var m := Snap(g);
    var y := stack[|stack| - 1];
    var rest := stack[..|stack| - 1];
    Pop(stack, rest, y);
    if y in visited {
      return visited, rest;
    }
    var seen := visited + {y};
    FewerUnvisited(g, visited, seen, y);
    var s1 := WalkSide(g, y, true, seen, rest);
    ghost var m1 := Snap(g);
    var s2 := WalkSide(g, y, false, seen, s1);
    BidiStep(m, m1, Snap(g), g, connecting, visited, seen, stack, rest, y, s1, s2);
    return seen, s2;
  }

  // ---------------------------------------------------------------------
  // Step two: pruning the links that are off every shortest route

  /** Python's KeyError from `set.remove` or `dict.pop`, or the walk running out of fuel. */
  datatype GraphError = KeyMissing | FuelOut

  /** The four entries removed in step two when the link from `x` to `k` on side `s` is cut. */
  ghost predicate UnlinkOk(m: map<PathNode, NodeVal>, x: PathNode, k: PathNode, s: bool)
    requires x in m && k in m
  {
    k in m[x].Nbrs(s) && k in m[x].Links(s) && x in m[k].Nbrs(!s) && x in m[k].Links(!s)
  }

  /** `x` forgets its neighbour `k` on side `s`, and the bibcodes of that link. */
  function DetachV(m: map<PathNode, NodeVal>, x: PathNode, k: PathNode, s: bool): map<PathNode, NodeVal>
    requires x in m
  {
    m[x := m[x].WithNbrs(s, m[x].Nbrs(s) - {k}).WithLinks(s, m[x].Links(s) - {k})]
  }

  /** Cutting the link between `x` and its neighbour `k` on side `s`, on both ends. */
  function UnlinkV(m: map<PathNode, NodeVal>, x: PathNode, k: PathNode, s: bool): map<PathNode, NodeVal>
    requires x in m && k in m
  {
    DetachV(DetachV(m, x, k, s), k, x, !s)
  }

  /** Step two only removes: the same nodes, the same distances, no new neighbours. */
  ghost predicate Shrunk(m0: map<PathNode, NodeVal>, m: map<PathNode, NodeVal>) {
    m.Keys == m0.Keys &&
    forall x :: x in m ==>
      m[x].distSrc == m0[x].distSrc && m[x].distDest == m0[x].distDest &&
      m[x].nbrSrc <= m0[x].nbrSrc && m[x].nbrDest <= m0[x].nbrDest
  }

  /** A set closed under neighbours stays closed once links are only removed. */
  lemma ShrunkKeepsClosure(m0: map<PathNode, NodeVal>, m: map<PathNode, NodeVal>, vis: set<PathNode>)
    requires Shrunk(m0, m) && vis <= m0.Keys
    requires forall x, k, t :: x in vis && k in m0[x].Nbrs(t) ==> k in vis
    ensures forall x, k, t :: x in vis && k in m[x].Nbrs(t) ==> k in vis
  {
    forall x, k, t | x in vis && k in m[x].Nbrs(t) ensures k in vis {
      assert m[x].Nbrs(t) <= m0[x].Nbrs(t);
    }
  }

  lemma ShrunkTrans(a: map<PathNode, NodeVal>, b: map<PathNode, NodeVal>, c: map<PathNode, NodeVal>)
    requires Shrunk(a, b) && Shrunk(b, c)
    ensures Shrunk(a, c)
  {
  }

  lemma ShrunkClosed(m0: map<PathNode, NodeVal>, m: map<PathNode, NodeVal>)
    requires ClosedV(m0) && Shrunk(m0, m)
    ensures ClosedV(m)
  {
    forall x | x in m ensures m[x].nbrSrc <= m.Keys && m[x].nbrDest <= m.Keys && x !in m[x].nbrSrc && x !in m[x].nbrDest {
      assert m[x].nbrSrc <= m0[x].nbrSrc && m[x].nbrDest <= m0[x].nbrDest;
    }
  }

  /** Cutting a link removes exactly `k` from `x`'s side `s` and `x` from `k`'s other side. */
  lemma UnlinkNbrs(m: map<PathNode, NodeVal>, x: PathNode, k: PathNode, s: bool, z: PathNode, t: bool)
    requires x in m && k in m && x != k && z in m
    ensures UnlinkV(m, x, k, s).Keys == m.Keys
    ensures UnlinkV(m, x, k, s)[z].Dist(t) == m[z].Dist(t)
    ensures UnlinkV(m, x, k, s)[z].Nbrs(t) ==
              m[z].Nbrs(t) - (if z == x && t == s then {k} else {}) - (if z == k && t == !s then {x} else {})
  {
  }

  lemma UnlinkShrinks(m: map<PathNode, NodeVal>, x: PathNode, k: PathNode, s: bool)
    requires x in m && k in m && x != k
    ensures Shrunk(m, UnlinkV(m, x, k, s))
  {
    var m' := UnlinkV(m, x, k, s);
    forall z | z in m'
      ensures m'[z].distSrc == m[z].distSrc && m'[z].distDest == m[z].distDest
      ensures m'[z].nbrSrc <= m[z].nbrSrc && m'[z].nbrDest <= m[z].nbrDest
    {
      UnlinkNbrs(m, x, k, s, z, true);
      UnlinkNbrs(m, x, k, s, z, false);
    }
  }

  /** Cutting a link removes exactly the bibcodes of that link, on both ends. */
  lemma UnlinkLinks(m: map<PathNode, NodeVal>, x: PathNode, k: PathNode, s: bool, z: PathNode, t: bool)
    requires x in m && k in m && x != k && z in m
    ensures UnlinkV(m, x, k, s)[z].Links(t) ==
              m[z].Links(t) - (if z == x && t == s then {k} else {}) - (if z == k && t == !s then {x} else {})
  {
  }

  /** Every node of `keep` has all its links mirrored. */
  ghost predicate AllMirrored(m: map<PathNode, NodeVal>, keep: set<PathNode>) {
    forall z :: z in keep ==> Mirrored(m, z)
  }

  /** A link that survives a cut keeps its mirror, since both ends of the cut go together. */
  lemma UnlinkKeepsEdge(m: map<PathNode, NodeVal>, x: PathNode, k: PathNode, s: bool, z: PathNode, j: PathNode, t: bool)
    requires x in m && k in m && x != k && z in m && Mirrored(m, z)
    requires j in UnlinkV(m, x, k, s)[z].Nbrs(t)
    ensures EdgeOk(UnlinkV(m, x, k, s), z, j, t)
  {
    var m' := UnlinkV(m, x, k, s);
    UnlinkNbrs(m, x, k, s, z, t);
    assert j in m[z].Nbrs(t);
    assert EdgeOk(m, z, j, t);
    UnlinkNbrs(m, x, k, s, j, !t);
    UnlinkLinks(m, x, k, s, z, t);
    UnlinkLinks(m, x, k, s, j, !t);
  }

  lemma UnlinkKeepsMirrored(m: map<PathNode, NodeVal>, x: PathNode, k: PathNode, s: bool, z: PathNode)
    requires x in m && k in m && x != k && Mirrored(m, z)
    ensures Mirrored(UnlinkV(m, x, k, s), z)
  {
    var m' := UnlinkV(m, x, k, s);
    UnlinkNbrs(m, x, k, s, z, true);
    forall t: bool, j | j in m'[z].Nbrs(t) ensures EdgeOk(m', z, j, t) {
      UnlinkKeepsEdge(m, x, k, s, z, j, t);
    }
    assert EdgesOk(m', z, true, m'[z].Nbrs(true));
    assert EdgesOk(m', z, false, m'[z].Nbrs(false));
  }

  lemma UnlinkKeepsAllMirrored(m: map<PathNode, NodeVal>, x: PathNode, k: PathNode, s: bool, keep: set<PathNode>)
    requires x in m && k in m && x != k && AllMirrored(m, keep)
    ensures AllMirrored(UnlinkV(m, x, k, s), keep)
  {
    forall z | z in keep ensures Mirrored(UnlinkV(m, x, k, s), z) {
      UnlinkKeepsMirrored(m, x, k, s, z);
    }
  }

  /** A snapshot after only `x` and `k` changed, and only by removals. */
  lemma SnapShrunk(g: set<PathNode>, before: map<PathNode, NodeVal>, x: PathNode, k: PathNode)
    requires before.Keys == g && x in g && k in g
    requires forall z :: z in g && z != x && z != k ==> Val(z) == before[z]
    requires Val(x).distSrc == before[x].distSrc && Val(x).distDest == before[x].distDest
    requires Val(x).nbrSrc <= before[x].nbrSrc && Val(x).nbrDest <= before[x].nbrDest
    requires Val(k).distSrc == before[k].distSrc && Val(k).distDest == before[k].distDest
    requires Val(k).nbrSrc <= before[k].nbrSrc && Val(k).nbrDest <= before[k].nbrDest
    ensures Shrunk(before, Snap(g))
  {
  }

  /** One end of a cut on the node itself: `false` where Python raises KeyError. */
  method DetachFrom(ghost g: set<PathNode>, x: PathNode, k: PathNode, s: bool) returns (ok: bool)
    requires x in g
    modifies x
    ensures Shrunk(old(Snap(g)), Snap(g))
    ensures ok == (k in old(Snap(g))[x].Nbrs(s) && k in old(Snap(g))[x].Links(s))
    ensures ok ==> Snap(g) == DetachV(old(Snap(g)), x, k, s)
    ensures Snap(g)[x].Nbrs(!s) == old(Snap(g))[x].Nbrs(!s)
    ensures forall z :: z in g && z != x ==> Snap(g)[z] == old(Snap(g))[z]
  {
    ghost var m := Snap(g);
    assert Val(x) == m[x];
    ok := x.Detach(s, k);
    SnapShrunk(g, m, x, x);
    if ok {
      ghost var m' := DetachV(m, x, k, s);
      assert Val(x) == m'[x];
      SnapAfter(g, m, m', x, x);
    }
  }

  /**
   * Cutting one link on the nodes themselves, in Python's order; `false`
   * where Python raises KeyError, after the removals made before it.
   */
  method Unlink(ghost g: set<PathNode>, x: PathNode, k: PathNode, s: bool) returns (ok: bool)
    requires x in g && k in g && x != k
    modifies x, k
    ensures Shrunk(old(Snap(g)), Snap(g))
    ensures ok == UnlinkOk(old(Snap(g)), x, k, s)
    ensures ok ==> Snap(g) == UnlinkV(old(Snap(g)), x, k, s)
    ensures Snap(g)[x].Nbrs(!s) == old(Snap(g))[x].Nbrs(!s)
  {
    ghost var m := Snap(g);
    ok := DetachFrom(g, x, k, s);
    if ok {
      ghost var m1 := Snap(g);
      assert m1[k] == m[k];
      ok := DetachFrom(g, k, x, !s);
      ShrunkTrans(m, m1, Snap(g));
    }
  }

  /**
   * After an inner loop of step two over `y`'s neighbours on side `s`, with
   * `rest` still to come: every other one left is one step further from the
   * far end's opposite, and on the toward-dest side it has been pushed.
   */
  ghost predicate SideDone(m: map<PathNode, NodeVal>, y: PathNode, s: bool, rest: seq<PathNode>, pushed: seq<PathNode>)
    requires y in m
  {
    forall k :: k in m[y].Nbrs(s) ==>
      k in rest || (k in m && m[k].Dist(!s) == m[y].Dist(!s) + 1 && (!s ==> k in pushed))
  }

  /** Cutting the link to the next neighbour `k` keeps `SideDone` with `k` done. */
  lemma CutStep(m: map<PathNode, NodeVal>, y: PathNode, k: PathNode, s: bool, ns: seq<PathNode>, i: int, pushed: seq<PathNode>)
    requires y in m && k in m && y != k && 0 <= i < |ns| && ns[i] == k
    requires SideDone(m, y, s, ns[i..], pushed)
    ensures UnlinkV(m, y, k, s).Keys == m.Keys && Shrunk(m, UnlinkV(m, y, k, s))
    ensures UnlinkV(m, y, k, s)[y].Nbrs(!s) == m[y].Nbrs(!s)
    ensures SideDone(UnlinkV(m, y, k, s), y, s, ns[i + 1..], pushed)
  {
    var m' := UnlinkV(m, y, k, s);
    UnlinkShrinks(m, y, k, s);
    UnlinkNbrs(m, y, k, s, y, s);
    UnlinkNbrs(m, y, k, s, y, !s);
    UnlinkNbrs(m, y, k, s, y, !s);
    assert ns[i..] == [k] + ns[i + 1..];
    forall j | j in m'[y].Nbrs(s) && j !in ns[i + 1..]
      ensures j in m' && m'[j].Dist(!s) == m'[y].Dist(!s) + 1 && (!s ==> j in pushed)
    {
      UnlinkNbrs(m, y, k, s, j, !s);
    }
  }

  /** Keeping the link to `k`, which is one step further, keeps `SideDone` with `k` done. */
  lemma KeepStep(m: map<PathNode, NodeVal>, y: PathNode, k: PathNode, s: bool, ns: seq<PathNode>, i: int,
                 pushed: seq<PathNode>, pushed': seq<PathNode>)
    requires y in m && k in m && 0 <= i < |ns| && ns[i] == k
    requires SideDone(m, y, s, ns[i..], pushed)
    requires m[k].Dist(!s) == m[y].Dist(!s) + 1
    requires pushed <= pushed' && (!s ==> k in pushed')
    ensures SideDone(m, y, s, ns[i + 1..], pushed')
  {
    assert ns[i..] == [k] + ns[i + 1..];
    PrefixIn(pushed, pushed');
  }

  /**
   * One inner loop of step two: each of `y`'s neighbours on side `s` whose
   * distance on the other side is not one more than `y`'s loses its link to
   * `y`; on the toward-dest side the others are pushed.
   */
  method PruneSide(ghost g: set<PathNode>, ghost keep: set<PathNode>, y: PathNode, s: bool, stack: seq<PathNode>)
    returns (ok: bool, pushed: seq<PathNode>)
    requires y in g && ClosedV(Snap(g)) && AllMirrored(Snap(g), keep)
    modifies g
    ensures Shrunk(old(Snap(g)), Snap(g))
    ensures ok ==> AllMirrored(Snap(g), keep)
    ensures stack <= pushed && forall k :: k in pushed ==> k in stack || k in g
    ensures ok ==> Snap(g)[y].Nbrs(!s) == old(Snap(g))[y].Nbrs(!s)
    ensures ok ==> SideDone(Snap(g), y, s, [], pushed)
    ensures s ==> pushed == stack
  {
    ghost var m0 := Snap(g);
    ghost var m := m0;
    assert Val(y) == m0[y];
    var ns := SetToSeq(y.Neighbors(s));
    pushed := stack;
    assert ns[0..] == ns;
    for i := 0 to |ns|
      invariant m == Snap(g) && Shrunk(m0, m) && AllMirrored(m, keep)
      invariant stack <= pushed && forall k :: k in pushed ==> k in stack || k in g
      invariant m[y].Nbrs(!s) == m0[y].Nbrs(!s)
      invariant SideDone(m, y, s, ns[i..], pushed)
      invariant s ==> pushed == stack
    {
      var k := ns[i];
      assert k in m0[y].Nbrs(s);
      assert k in g && k != y;
      assert Val(k) == m[k] && Val(y) == m[y];
      if k.Dist(!s) != y.Dist(!s) + 1 {
        ok := Unlink(g, y, k, s);
        if !ok {
          ShrunkTrans(m0, m, Snap(g));
          return;
        }
        CutStep(m, y, k, s, ns, i, pushed);
        UnlinkKeepsAllMirrored(m, y, k, s, keep);
        ShrunkTrans(m0, m, UnlinkV(m, y, k, s));
        m := UnlinkV(m, y, k, s);
      } else {
        var before := pushed;
        if !s {
          pushed := pushed + [k];
        }
        KeepStep(m, y, k, s, ns, i, before, pushed);
      }
    }
    assert ns[|ns|..] == [];
    ok := true;
  }

  /**
   * A node whose remaining links all lie on shortest routes: each neighbour
   * toward dest is one step further from src, each neighbour toward src one
   * step further from dest.
   */
  ghost predicate Settled(m: map<PathNode, NodeVal>, p: PathNode) {
    p in m &&
    (forall k :: k in m[p].nbrDest ==> k in m && m[k].distSrc == m[p].distSrc + 1) &&
    (forall k :: k in m[p].nbrSrc ==> k in m && m[k].distDest == m[p].distDest + 1)
  }

  lemma SettledShrunk(m0: map<PathNode, NodeVal>, m: map<PathNode, NodeVal>, p: PathNode)
    requires Settled(m0, p) && Shrunk(m0, m)
    ensures Settled(m, p)
  {
    assert m[p].nbrDest <= m0[p].nbrDest && m[p].nbrSrc <= m0[p].nbrSrc;
  }

  /** What step two's walk keeps: processed nodes are settled, and their neighbours toward dest are processed or on the stack. */
  ghost predicate PruneInv(m: map<PathNode, NodeVal>, src: PathNode, processed: set<PathNode>, stack: seq<PathNode>) {
    processed <= m.Keys && (forall k :: k in stack ==> k in m) && (src in processed || src in stack) &&
    (forall p :: p in processed ==> Settled(m, p)) &&
    (forall p :: p in processed ==> forall k :: k in m[p].nbrDest ==> k in processed || k in stack)
  }

  /** The outcome of step two: `src` and everything reachable from it toward dest are settled. */
  ghost predicate Pruned(m: map<PathNode, NodeVal>, src: PathNode, processed: set<PathNode>) {
    src in processed && processed <= m.Keys &&
    forall p :: p in processed ==> Settled(m, p) && m[p].nbrDest <= processed
  }

  /** Processing the top `y` of the stack, by both inner loops, keeps `PruneInv`. */
  lemma PruneStep(m: map<PathNode, NodeVal>, m1: map<PathNode, NodeVal>, m2: map<PathNode, NodeVal>,
                  src: PathNode, processed: set<PathNode>, processed': set<PathNode>,
                  stack: seq<PathNode>, rest: seq<PathNode>, y: PathNode, s1: seq<PathNode>)
    requires PruneInv(m, src, processed, stack) && stack == rest + [y] && processed' == processed + {y}
    requires Shrunk(m, m1) && Shrunk(m1, m2) && y in m
    requires SideDone(m1, y, false, [], s1) && rest <= s1 && forall k :: k in s1 ==> k in rest || k in m
    requires m2[y].nbrDest == m1[y].nbrDest && SideDone(m2, y, true, [], s1)
    ensures PruneInv(m2, src, processed', s1)
  {
    ShrunkTrans(m, m1, m2);
    PrefixIn(rest, s1);
    forall p | p in processed ensures Settled(m2, p) {
      SettledShrunk(m, m2, p);
    }
    forall p, k | p in processed && k in m2[p].nbrDest ensures k in processed' || k in s1 {
      assert k in m[p].nbrDest;
    }
  }

  /**
   * One turn of step two's outer loop: pop a node, prune its links on both
   * sides and push its remaining neighbours toward dest.
   */
  method PruneTop(ghost g: set<PathNode>, ghost keep: set<PathNode>, ghost src: PathNode, ghost processed: set<PathNode>,
                  stack: seq<PathNode>)
    returns (ok: bool, ghost processed': set<PathNode>, stack': seq<PathNode>)
    requires |stack| > 0 && Snap(g).Keys == g && ClosedV(Snap(g)) && PruneInv(Snap(g), src, processed, stack)
    requires AllMirrored(Snap(g), keep)
    modifies g
    ensures Shrunk(old(Snap(g)), Snap(g))
    ensures ok ==> AllMirrored(Snap(g), keep)
    ensures ok ==> PruneInv(Snap(g), src, processed', stack')
  {
    ghost var m := Snap(g);
    var y := stack[|stack| - 1];
    var rest := stack[..|stack| - 1];
    Pop(stack, rest, y);
    processed' := processed + {y};
    ok, stack' := PruneSide(g, keep, y, false, rest);
    if !ok {
      return;
    }
    ghost var m1 := Snap(g);
    ShrunkClosed(m, m1);
    var s2;
    ok, s2 := PruneSide(g, keep, y, true, stack');
    ShrunkTrans(m, m1, Snap(g));
    if ok {
      PruneStep(m, m1, Snap(g), src, processed, processed', stack, rest, y, stack');
    }
  }

  /**
   * Step two: from `src`, every node popped loses the links that are not
   * one step along a shortest route, and its remaining neighbours toward
   * dest are walked next.  `fuel` bounds the number of nodes popped.
   */
  method Prune(ghost g: set<PathNode>, ghost keep: set<PathNode>, src: PathNode, fuel: nat)
    returns (r: Result<(), GraphError>, ghost processed: set<PathNode>)
    requires src in g && Closed(g) && AllMirrored(Snap(g), keep)
    modifies g
    ensures Closed(g) && Shrunk(old(Snap(g)), Snap(g))
    ensures r.Ok? || r == Err(KeyMissing) || r == Err(FuelOut)
    ensures r.Ok? ==> Pruned(Snap(g), src, processed) && AllMirrored(Snap(g), keep)
  {
    ClosedSnap(g);
    ghost var m0 := Snap(g);
    var stack := [src];
    processed := {};
    var left := fuel;
    while |stack| > 0
      invariant Shrunk(m0, Snap(g)) && ClosedV(Snap(g)) && PruneInv(Snap(g), src, processed, stack)
      invariant AllMirrored(Snap(g), keep)
      decreases left
    {
      if left == 0 {
        ClosedSnap(g);
        return Err(FuelOut), processed;
      }
      ghost var m := Snap(g);
      var ok;
      ok, processed, stack := PruneTop(g, keep, src, processed, stack);
      ShrunkTrans(m0, m, Snap(g));
      ShrunkClosed(m, Snap(g));
      if !ok {
        ClosedSnap(g);
        return Err(KeyMissing), processed;
      }
      left := left - 1;
    }
    ClosedSnap(g);
    r := Ok(());
  }

  /** A walk along links toward dest: each node is a neighbour toward dest of the one before. */
  ghost predicate DestPath(m: map<PathNode, NodeVal>, path: seq<PathNode>) {
    forall i :: 0 <= i < |path| - 1 ==> path[i] in m && path[i + 1] in m[path[i]].nbrDest
  }

  /**
   * After step two, every walk toward dest from `src` is a shortest route:
   * its `i`-th node is exactly `i` steps further from src.
   */
  lemma {:induction false} PrunedPaths(m: map<PathNode, NodeVal>, src: PathNode, processed: set<PathNode>, path: seq<PathNode>)
    requires Pruned(m, src, processed) && |path| > 0 && path[0] == src && DestPath(m, path)
    ensures forall i :: 0 <= i < |path| ==> path[i] in processed && m[path[i]].distSrc == m[src].distSrc + i
  {
    if |path| > 1 {
      var front := path[..|path| - 1];
      assert DestPath(m, front) by {
        forall i | 0 <= i < |front| - 1 ensures front[i] in m && front[i + 1] in m[front[i]].nbrDest {
          assert front[i] == path[i] && front[i + 1] == path[i + 1];
        }
      }
      PrunedPaths(m, src, processed, front);
      var j := |path| - 2;
      assert front[j] == path[j];
      assert path[j] in processed && path[j + 1] in m[path[j]].nbrDest;
      assert Settled(m, path[j]);
    }
  }

  /** `list(a_set)`: the elements in some order. */
  method SetToSeq<T>(a: set<T>) returns (r: seq<T>)
    ensures forall x :: x in r <==> x in a
    ensures forall i, j :: 0 <= i < j < |r| ==> r[i] != r[j]
  {
    r := [];
    var rest := a;
    while rest != {}
      invariant forall x :: x in r <==> x in a && x !in rest
      invariant forall i, j :: 0 <= i < j < |r| ==> r[i] != r[j]
      invariant rest <= a
      decreases |rest|
    {
      var x :| x in rest;
      r := r + [x];
      rest := rest - {x};
    }
  }
}
