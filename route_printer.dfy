/**
 * The text table of a finished search (route_printer.py): one cell per
 * author, `str(name)` cut or padded to the column width, the source's
 * cell first, and each path to a leaf on its own line.  A line after the
 * first starts with blank cells where it shares the path of the line
 * before it.
 */
module RoutePrinter {

  import opened PathNodes
  import opened RouteGraph

  /** `n` spaces. */
  function Spaces(n: nat): (r: string)
    ensures |r| == n && forall i :: 0 <= i < n ==> r[i] == ' '
  {
    seq(n, i => ' ')
  }

  /** `"{:w.w}".format(s)`: cut to `w` characters or padded on the right with spaces to `w`. */
  function Fmt(s: string, w: nat): (r: string)
    ensures |r| == w
    ensures forall i :: 0 <= i < w && i < |s| ==> r[i] == s[i]
    ensures forall i :: |s| <= i < w ==> r[i] == ' '
  {
    if |s| >= w then s[..w] else s + Spaces(w - |s|)
  }

  /** `(" " * width + separator) * depth`. */
  function Pad(depth: nat, w: nat, sep: string): (r: string)
    ensures |r| == depth * (w + |sep|)
  {
    if depth == 0 then "" else Pad(depth - 1, w, sep) + (Spaces(w) + sep)
  }

  /** What the loop in `_construct_rows` adds for the `j`-th neighbour of `x`. */
  function Piece(v: View, top: int, x: PathNode, j: nat, depth: nat, w: nat, sep: string): string
    requires Leveled(v, top) && x in v && j < |v[x].children|
    decreases top - v[x].level, 0, 0
  {
    var c := v[x].children[j];
    (if j == 0 then "" else "\n" + Pad(depth, w, sep)) +
    Fmt(v[c].full, w) +
    (if |v[c].children| == 0 then "" else sep + Rows(v, top, c, depth + 1, w, sep))
  }

  /** The output of the loop after its first `i` turns. */
  function RowsUpTo(v: View, top: int, x: PathNode, i: nat, depth: nat, w: nat, sep: string): string
    requires Leveled(v, top) && x in v && i <= |v[x].children|
    decreases top - v[x].level, 1, i
  {
    if i == 0 then "" else RowsUpTo(v, top, x, i - 1, depth, w, sep) + Piece(v, top, x, i - 1, depth, w, sep)
  }

  /** `_construct_rows(x, depth, ...)`. */
  function Rows(v: View, top: int, x: PathNode, depth: nat, w: nat, sep: string): string
    requires Leveled(v, top) && x in v
    decreases top - v[x].level, 2, 0
  {
    RowsUpTo(v, top, x, |v[x].children|, depth, w, sep)
  }

  /** `__str__`: the source's cell, the separator, then the rows below the source at depth 1. */
  function Table(v: View, top: int, src: PathNode, w: nat, sep: string): string
    requires Leveled(v, top) && src in v
  {
    Fmt(v[src].full, w) + sep + Rows(v, top, src, 1, w, sep)
  }

  /** `_construct_rows`: a loop over the neighbours with a `first` flag, recursing below each one. */
  method ConstructRows(v: View, top: int, x: PathNode, depth: nat, w: nat, sep: string) returns (output: string)
    requires Leveled(v, top) && x in v
    ensures output == Rows(v, top, x, depth, w, sep)
    decreases top - v[x].level
  {
    var first := true;
    output := "";
    var cs := v[x].children;
    for i := 0 to |cs|
      invariant output == RowsUpTo(v, top, x, i, depth, w, sep)
      invariant first <==> i == 0
    {
      var node := cs[i];
      var lead := "";
      if !first {
        lead := "\n" + Pad(depth, w, sep);
      }
      first := false;
      var cell := Fmt(v[node].full, w);
      var rest := "";
      if |v[node].children| != 0 {
        var sub := ConstructRows(v, top, node, depth + 1, w, sep);
        rest := sep + sub;
      }
      assert lead + cell + rest == Piece(v, top, x, i, depth, w, sep);
      output := output + (lead + cell + rest);
    }
  }

  /** `__str__`. */
  method Render(v: View, top: int, src: PathNode, w: nat, sep: string) returns (output: string)
    requires Leveled(v, top) && src in v
    ensures output == Table(v, top, src, w, sep)
  {
    output := Fmt(v[src].full, w) + sep;
    var rows := ConstructRows(v, top, src, 1, w, sep);
    output := output + rows;
  }

  // ---------------------------------------------------------------------
  // One line per chain

  /** The number of line breaks in `s`. */
  function Newlines(s: string): nat {
    multiset(s)['\n']
  }

  /** The paths from `x` to a leaf. */
  function Leaves(v: View, top: int, x: PathNode): (n: nat)
    requires Leveled(v, top) && x in v
    ensures n >= 1
    decreases top - v[x].level, 1, 0
  {
    if |v[x].children| == 0 then 1 else LeavesUpTo(v, top, x, |v[x].children|)
  }

  /** The paths to a leaf through the first `i` neighbours of `x`. */
  function LeavesUpTo(v: View, top: int, x: PathNode, i: nat): (n: nat)
    requires Leveled(v, top) && x in v && i <= |v[x].children|
    ensures i > 0 ==> n >= 1
    decreases top - v[x].level, 0, i
  {
    if i == 0 then 0 else LeavesUpTo(v, top, x, i - 1) + Leaves(v, top, v[x].children[i - 1])
  }

  /** No name and no separator holds a line break. */
  predicate OneLineCells(v: View, sep: string) {
    '\n' !in sep && forall y :: y in v ==> '\n' !in v[y].full
  }

  lemma PadOneLine(depth: nat, w: nat, sep: string)
    requires '\n' !in sep
    ensures Newlines(Pad(depth, w, sep)) == 0
  {
    if depth > 0 {
      PadOneLine(depth - 1, w, sep);
      assert '\n' !in Spaces(w);
    }
  }

  lemma FmtOneLine(s: string, w: nat)
    requires '\n' !in s
    ensures Newlines(Fmt(s, w)) == 0
  {
    var r := Fmt(s, w);
    forall i | 0 <= i < |r|
      ensures r[i] != '\n'
    {
      if i < |s| {
        assert s[i] in s;
      }
    }
    assert '\n' !in r;
  }

  /** The rows below `x` break one line fewer than there are paths from `x` to a leaf. */
  lemma {:induction false} RowsLines(v: View, top: int, x: PathNode, depth: nat, w: nat, sep: string)
    requires Leveled(v, top) && x in v && OneLineCells(v, sep)
    ensures Newlines(Rows(v, top, x, depth, w, sep)) + 1 == Leaves(v, top, x)
    decreases top - v[x].level, 1, 0
  {
    if |v[x].children| != 0 {
      RowsUpToLines(v, top, x, |v[x].children|, depth, w, sep);
    }
  }

  lemma {:induction false} RowsUpToLines(v: View, top: int, x: PathNode, i: nat, depth: nat, w: nat, sep: string)
    requires Leveled(v, top) && x in v && 1 <= i <= |v[x].children| && OneLineCells(v, sep)
    ensures Newlines(RowsUpTo(v, top, x, i, depth, w, sep)) + 1 == LeavesUpTo(v, top, x, i)
    decreases top - v[x].level, 0, i
  {
    var c := v[x].children[i - 1];
    FmtOneLine(v[c].full, w);
    if |v[c].children| != 0 {
      RowsLines(v, top, c, depth + 1, w, sep);
    }
    if i > 1 {
      RowsUpToLines(v, top, x, i - 1, depth, w, sep);
      PadOneLine(depth, w, sep);
    }
  }

  /** The chain builder adds one chain per path from `x` to a leaf. */
  lemma {:induction false} NextLevelCount(v: View, top: int, starter: seq<string>, x: PathNode, chains: seq<seq<string>>)
    requires Leveled(v, top) && x in v
    ensures |NextLevel(v, top, starter, x, chains)| == |chains| + Leaves(v, top, x)
    decreases top - v[x].level, 1, 0
  {
    if |v[x].children| != 0 {
      NextFromCount(v, top, starter + [v[x].bare], x, 0, chains);
    }
  }

  lemma {:induction false} NextFromCount(v: View, top: int, s: seq<string>, x: PathNode, i: nat, chains: seq<seq<string>>)
    requires Leveled(v, top) && x in v && i <= |v[x].children|
    ensures |NextFrom(v, top, s, x, i, chains)| + LeavesUpTo(v, top, x, i) ==
            |chains| + LeavesUpTo(v, top, x, |v[x].children|)
    decreases top - v[x].level, 0, |v[x].children| - i
  {
    if i < |v[x].children| {
      var c := v[x].children[i];
      var k := i + 1;
      NextLevelCount(v, top, s, c, chains);
      NextFromCount(v, top, s, x, k, NextLevel(v, top, s, c, chains));
      assert LeavesUpTo(v, top, x, k) == LeavesUpTo(v, top, x, i) + Leaves(v, top, c);
    }
  }

  /** The table has exactly one line per author chain the ranker builds. */
  lemma TableLines(v: View, top: int, src: PathNode, w: nat, sep: string)
    requires Leveled(v, top) && src in v && OneLineCells(v, sep)
    ensures Newlines(Table(v, top, src, w, sep)) + 1 == |AuthorChains(v, top, src)|
  {
    FmtOneLine(v[src].full, w);
    RowsLines(v, top, src, 1, w, sep);
    NextLevelCount(v, top, [], src, []);
  }
}
