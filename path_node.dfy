/**
 * A node of the search graph (path_node.py): an author, the distances
 * found to it from the source and from the destination, and its
 * neighbours and links (bibcode sets) in each direction.  Nodes refer to
 * each other by reference; the name never changes after construction, so
 * the node's hash, which is the name's, is fixed.
 */
module PathNodes {

  import opened AdsName

  /** `sys.maxsize`, the "not reached" distance. */
  const MaxSize: int := 0x7fff_ffff_ffff_ffff

  /** A `links_toward_*` entry as Python reads it from the defaultdict: an absent key gives the empty set. */
  function LinksAt(links: map<PathNode, set<string>>, n: PathNode): set<string> {
    if n in links then links[n] else {}
  }

  class PathNode {
    const name: ADSName
    var distFromSrc: int
    var distFromDest: int
    var neighborsTowardSrc: set<PathNode>
    var neighborsTowardDest: set<PathNode>
    var linksTowardSrc: map<PathNode, set<string>>
    var linksTowardDest: map<PathNode, set<string>>
    var legalBibcodes: set<string>

    /** The dataclass constructor: both distances default to `sys.maxsize`, every collection starts empty. */
    constructor (name: ADSName, distFromSrc: int := MaxSize, distFromDest: int := MaxSize)
      ensures this.name == name
      ensures this.distFromSrc == distFromSrc && this.distFromDest == distFromDest
      ensures neighborsTowardSrc == {} && neighborsTowardDest == {}
      ensures linksTowardSrc == map[] && linksTowardDest == map[] && legalBibcodes == {}
    {
      this.name := name;
      this.distFromSrc := distFromSrc;
      this.distFromDest := distFromDest;
      neighborsTowardSrc, neighborsTowardDest := {}, {};
      linksTowardSrc, linksTowardDest := map[], map[];
      legalBibcodes := {};
    }

    /** `dist(from_src)`. */
    function Dist(fromSrc: bool): int
      reads this
    {
      if fromSrc then distFromSrc else distFromDest
    }

    /** `neighbors(from_src)`. */
    function Neighbors(fromSrc: bool): set<PathNode>
      reads this
    {
      if fromSrc then neighborsTowardSrc else neighborsTowardDest
    }

    /** `links(from_src)`. */
    function Links(fromSrc: bool): map<PathNode, set<string>>
      reads this
    {
      if fromSrc then linksTowardSrc else linksTowardDest
    }

    /** `set_dist`: only the selected distance changes. */
    method SetDist(dist: int, fromSrc: bool)
      modifies this
      ensures Dist(fromSrc) == dist && Dist(!fromSrc) == old(Dist(!fromSrc))
      ensures neighborsTowardSrc == old(neighborsTowardSrc) && neighborsTowardDest == old(neighborsTowardDest)
      ensures linksTowardSrc == old(linksTowardSrc) && linksTowardDest == old(linksTowardDest)
      ensures legalBibcodes == old(legalBibcodes)
    {
      if fromSrc {
        distFromSrc := dist;
      } else {
        distFromDest := dist;
      }
    }

    /** `neighbors(from_src).add(n)`. */
    method AddNeighbor(fromSrc: bool, n: PathNode)
      modifies this
      ensures Neighbors(fromSrc) == old(Neighbors(fromSrc)) + {n}
      ensures Neighbors(!fromSrc) == old(Neighbors(!fromSrc))
      ensures distFromSrc == old(distFromSrc) && distFromDest == old(distFromDest)
      ensures linksTowardSrc == old(linksTowardSrc) && linksTowardDest == old(linksTowardDest)
      ensures legalBibcodes == old(legalBibcodes)
    {
      if fromSrc {
        neighborsTowardSrc := neighborsTowardSrc + {n};
      } else {
        neighborsTowardDest := neighborsTowardDest + {n};
      }
    }

    /** `links(from_src)[n].update(bibcodes)`: the defaultdict creates the entry if it is missing. */
    method AddLinks(fromSrc: bool, n: PathNode, bibcodes: set<string>)
      modifies this
      ensures Links(fromSrc) == old(Links(fromSrc))[n := LinksAt(old(Links(fromSrc)), n) + bibcodes]
      ensures Links(!fromSrc) == old(Links(!fromSrc))
      ensures distFromSrc == old(distFromSrc) && distFromDest == old(distFromDest)
      ensures neighborsTowardSrc == old(neighborsTowardSrc) && neighborsTowardDest == old(neighborsTowardDest)
      ensures legalBibcodes == old(legalBibcodes)
    {
      if fromSrc {
        linksTowardSrc := linksTowardSrc[n := LinksAt(linksTowardSrc, n) + bibcodes];
      } else {
        linksTowardDest := linksTowardDest[n := LinksAt(linksTowardDest, n) + bibcodes];
      }
    }
    /** Reading `links(from_src)[n]` through the defaultdict: a missing entry is created empty. */
    method ReadLinks(fromSrc: bool, n: PathNode) returns (b: set<string>)
      modifies this
      ensures b == LinksAt(old(Links(fromSrc)), n)
      ensures Links(fromSrc) == old(Links(fromSrc))[n := b] && Links(!fromSrc) == old(Links(!fromSrc))
      ensures distFromSrc == old(distFromSrc) && distFromDest == old(distFromDest)
      ensures neighborsTowardSrc == old(neighborsTowardSrc) && neighborsTowardDest == old(neighborsTowardDest)
      ensures legalBibcodes == old(legalBibcodes)
    {
      b := LinksAt(Links(fromSrc), n);
      if fromSrc {
        linksTowardSrc := linksTowardSrc[n := b];
      } else {
        linksTowardDest := linksTowardDest[n := b];
      }
    }

    /** `links(from_src)[n] = b`. */
    method SetLinks(fromSrc: bool, n: PathNode, b: set<string>)
      modifies this
      ensures Links(fromSrc) == old(Links(fromSrc))[n := b] && Links(!fromSrc) == old(Links(!fromSrc))
      ensures distFromSrc == old(distFromSrc) && distFromDest == old(distFromDest)
      ensures neighborsTowardSrc == old(neighborsTowardSrc) && neighborsTowardDest == old(neighborsTowardDest)
      ensures legalBibcodes == old(legalBibcodes)
    {
      if fromSrc {
        linksTowardSrc := linksTowardSrc[n := b];
      } else {
        linksTowardDest := linksTowardDest[n := b];
      }
    }

    /** `neighbors(from_src).remove(n)`: `false` where Python raises KeyError, and then nothing changes. */
    method RemoveNeighbor(fromSrc: bool, n: PathNode) returns (found: bool)
      modifies this
      ensures found == (n in old(Neighbors(fromSrc)))
      ensures Neighbors(fromSrc) == old(Neighbors(fromSrc)) - {n} && Neighbors(!fromSrc) == old(Neighbors(!fromSrc))
      ensures distFromSrc == old(distFromSrc) && distFromDest == old(distFromDest)
      ensures linksTowardSrc == old(linksTowardSrc) && linksTowardDest == old(linksTowardDest)
      ensures legalBibcodes == old(legalBibcodes)
    {
      found := n in Neighbors(fromSrc);
      if fromSrc {
        neighborsTowardSrc := neighborsTowardSrc - {n};
      } else {
        neighborsTowardDest := neighborsTowardDest - {n};
      }
    }

    /** `links(from_src).pop(n)`: `false` where Python raises KeyError, and then nothing changes. */
    method PopLinks(fromSrc: bool, n: PathNode) returns (found: bool)
      modifies this
      ensures found == (n in old(Links(fromSrc)))
      ensures Links(fromSrc) == old(Links(fromSrc)) - {n} && Links(!fromSrc) == old(Links(!fromSrc))
      ensures distFromSrc == old(distFromSrc) && distFromDest == old(distFromDest)
      ensures neighborsTowardSrc == old(neighborsTowardSrc) && neighborsTowardDest == old(neighborsTowardDest)
      ensures legalBibcodes == old(legalBibcodes)
    {
      found := n in Links(fromSrc);
      if fromSrc {
        linksTowardSrc := linksTowardSrc - {n};
      } else {
        linksTowardDest := linksTowardDest - {n};
      }
    }

    /**
     * `neighbors(from_src).remove(n)` followed by `links(from_src).pop(n)`:
     * `false` where either raises KeyError, after what came before it.
     */
    method Detach(fromSrc: bool, n: PathNode) returns (found: bool)
      modifies this
      ensures found == (n in old(Neighbors(fromSrc)) && n in old(Links(fromSrc)))
      ensures found ==> Neighbors(fromSrc) == old(Neighbors(fromSrc)) - {n} && Links(fromSrc) == old(Links(fromSrc)) - {n}
      ensures Neighbors(fromSrc) <= old(Neighbors(fromSrc))
      ensures Neighbors(!fromSrc) == old(Neighbors(!fromSrc)) && Links(!fromSrc) == old(Links(!fromSrc))
      ensures distFromSrc == old(distFromSrc) && distFromDest == old(distFromDest)
      ensures legalBibcodes == old(legalBibcodes)
    {
      found := RemoveNeighbor(fromSrc, n);
      if found {
        found := PopLinks(fromSrc, n);
      }
    }

    /**
     * A node reached from a neighbour at distance `d` on the `fromSrc`
     * side: when it was further than one step beyond the neighbour, it
     * takes the shorter distance and records the neighbour.
     */
    method Reach(fromSrc: bool, d: int, from: PathNode)
      modifies this
      ensures old(Dist(fromSrc)) > d + 1 ==>
                Dist(fromSrc) == d + 1 && Neighbors(fromSrc) == old(Neighbors(fromSrc)) + {from}
      ensures old(Dist(fromSrc)) <= d + 1 ==>
                Dist(fromSrc) == old(Dist(fromSrc)) && Neighbors(fromSrc) == old(Neighbors(fromSrc))
      ensures Dist(!fromSrc) == old(Dist(!fromSrc)) && Neighbors(!fromSrc) == old(Neighbors(!fromSrc))
      ensures linksTowardSrc == old(linksTowardSrc) && linksTowardDest == old(linksTowardDest)
      ensures legalBibcodes == old(legalBibcodes)
    {
      if Dist(fromSrc) > d + 1 {
        SetDist(d + 1, fromSrc);
        AddNeighbor(fromSrc, from);
      }
    }
  }

  /** No node is its own neighbour, and neighbours stay inside `g`. */
  ghost predicate Closed(g: set<PathNode>)
    reads g
  {
    forall n :: n in g ==>
      n.neighborsTowardSrc <= g && n.neighborsTowardDest <= g &&
      n !in n.neighborsTowardSrc && n !in n.neighborsTowardDest
  }

  /** The selectors pick the toward-src collection for `true` and the toward-dest one for `false`. */
  lemma SelectorsPickSide(n: PathNode)
    ensures n.Dist(true) == n.distFromSrc && n.Dist(false) == n.distFromDest
    ensures n.Neighbors(true) == n.neighborsTowardSrc && n.Neighbors(false) == n.neighborsTowardDest
    ensures n.Links(true) == n.linksTowardSrc && n.Links(false) == n.linksTowardDest
  {
  }
}
