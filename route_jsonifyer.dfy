/**
 * The JSON view of a finished search (route_jsonifyer.py): the tree of
 * toward-destination links below the source, the bibcodes of every link
 * by author pair, and the back-fill that replaces each bibcode with the
 * paper's (bibcode, index, index) triple and keeps the paper's record.
 *
 * The tree is a value built by recursion over a `RouteGraph.View`, and
 * its root-to-leaf name paths are exactly the ranker's author chains.
 * The link store is `RouteGraph.Store` without sorting.  The back-fill
 * differs from the ranker's: no author is excluded, every author string
 * of a paper is parsed (an unparsable one raises), the author loop never
 * stops early, each paper is loaded again for every link that names it,
 * and a row's own name is parsed once per partner, so a row without
 * partners parses nothing.  Loading a paper is the function `load`.
 */
module RouteJsonifyer {

  import opened Wrappers
  import opened AdsName
  import opened DocumentRecords
  import opened PathNodes
  import opened RouteGraph
  import R = RouteRanker

  // ---------------------------------------------------------------------
  // `_build_dict_for_node`

  /** `{'name': ..., 'neighbors_toward_dest': [...]}`. */
  datatype Tree = Tree(name: string, neighbors: seq<Tree>)

  /** The tree below `x`: its bare name, then one subtree per toward-destination neighbour, in order. */
  function BuildDict(v: View, top: int, x: PathNode): (t: Tree)
    requires Leveled(v, top) && x in v
    ensures t.name == v[x].bare && |t.neighbors| == |v[x].children|
    decreases top - v[x].level, 1, 0
  {
    Tree(v[x].bare, Subtrees(v, top, x, 0))
  }

  /** The loop over `x`'s neighbours from the `i`-th on, one subtree each. */
  function Subtrees(v: View, top: int, x: PathNode, i: nat): (ts: seq<Tree>)
    requires Leveled(v, top) && x in v && i <= |v[x].children|
    ensures |ts| == |v[x].children| - i
    decreases top - v[x].level, 0, |v[x].children| - i
  {
    if i == |v[x].children| then [] else [BuildDict(v, top, v[x].children[i])] + Subtrees(v, top, x, i + 1)
  }

  /** Every sequence of `ps` with `s` in front. */
  function Prefixed(s: seq<string>, ps: seq<seq<string>>): (r: seq<seq<string>>)
    ensures |r| == |ps| && forall i :: 0 <= i < |ps| ==> r[i] == s + ps[i]
  {
    seq(|ps|, i requires 0 <= i < |ps| => s + ps[i])
  }

  /** The name paths from the roots of `ts` to their leaves, tree by tree. */
  function PathsOf(ts: seq<Tree>): seq<seq<string>>
    decreases ts
  {
    if ts == [] then []
    else
      var t := ts[0];
      (if t.neighbors == [] then [[t.name]] else Prefixed([t.name], PathsOf(t.neighbors))) + PathsOf(ts[1..])
  }

  /** The name paths from the root of `t` to its leaves. */
  function Paths(t: Tree): seq<seq<string>> {
    PathsOf([t])
  }

  lemma PathsOne(t: Tree)
    ensures Paths(t) == if t.neighbors == [] then [[t.name]] else Prefixed([t.name], PathsOf(t.neighbors))
  {
    var here := if t.neighbors == [] then [[t.name]] else Prefixed([t.name], PathsOf(t.neighbors));
    assert [t][1..] == [];
    assert PathsOf([t]) == here + PathsOf([]);
    assert here + [] == here;
  }

  lemma PathsOfCons(t: Tree, ts: seq<Tree>)
    ensures PathsOf([t] + ts) == Paths(t) + PathsOf(ts)
  {
    assert ([t] + ts)[0] == t && ([t] + ts)[1..] == ts;
    PathsOne(t);
  }

  lemma PrefixedConcat(s: seq<string>, a: seq<seq<string>>, b: seq<seq<string>>)
    ensures Prefixed(s, a + b) == Prefixed(s, a) + Prefixed(s, b)
  {
  }

  lemma PrefixedTwice(s: seq<string>, head: string, ps: seq<seq<string>>)
    ensures Prefixed(s, Prefixed([head], ps)) == Prefixed(s + [head], ps)
  {
    forall i | 0 <= i < |ps|
      ensures s + ([head] + ps[i]) == (s + [head]) + ps[i]
    {
    }
  }

  lemma {:induction false} NextLevelTree(v: View, top: int, starter: seq<string>, x: PathNode, chains: seq<seq<string>>)
    requires Leveled(v, top) && x in v
    ensures NextLevel(v, top, starter, x, chains) == chains + Prefixed(starter, Paths(BuildDict(v, top, x)))
    decreases top - v[x].level, 1, 0
  {
    var t := BuildDict(v, top, x);
    var s := starter + [v[x].bare];
    PathsOne(t);
    if |v[x].children| == 0 {
      assert Prefixed(starter, [[t.name]]) == [s];
    } else {
      NextFromTree(v, top, s, x, 0, chains);
      PrefixedTwice(starter, t.name, PathsOf(t.neighbors));
    }
  }

  lemma {:induction false} NextFromTree(v: View, top: int, s: seq<string>, x: PathNode, i: nat, chains: seq<seq<string>>)
    requires Leveled(v, top) && x in v && i <= |v[x].children|
    ensures NextFrom(v, top, s, x, i, chains) == chains + Prefixed(s, PathsOf(Subtrees(v, top, x, i)))
    decreases top - v[x].level, 0, |v[x].children| - i
  {
    if i < |v[x].children| {
      var c := v[x].children[i];
      var mid := NextLevel(v, top, s, c, chains);
      var t, rest := BuildDict(v, top, c), Subtrees(v, top, x, i + 1);
      NextLevelTree(v, top, s, c, chains);
      NextFromTree(v, top, s, x, i + 1, mid);
      PathsOfCons(t, rest);
      PrefixedConcat(s, Paths(t), PathsOf(rest));
    }
  }

  /** The root-to-leaf name paths of the JSON tree are the ranker's author chains, in the same order. */
  lemma TreeIsChains(v: View, top: int, src: PathNode)
    requires Leveled(v, top) && src in v
    ensures Paths(BuildDict(v, top, src)) == AuthorChains(v, top, src)
  {
    NextLevelTree(v, top, [], src, []);
    var ps := Paths(BuildDict(v, top, src));
    assert forall i :: 0 <= i < |ps| ==> [] + ps[i] == ps[i];
    assert Prefixed([], ps) == ps;
  }

  // ---------------------------------------------------------------------
  // `_store_bibcodes_for_node`

  /** The bibcode store: each link's bibcodes in the order the node's set holds them. */
  function JsonPairings(v: View, top: int, src: PathNode): R.Pairings
    requires Leveled(v, top) && src in v
  {
    Store(v, top, src, Stored(map[], {}), false).pairings
  }

  // ---------------------------------------------------------------------
  // `_insert_document_data`

  /** Position `j` holds a name that parses and equals `a`. */
  predicate Match(authors: seq<string>, j: nat, a: ADSName, parse: R.Parser)
    requires j < |authors|
  {
    parse(authors[j]).Ok? && Equals(a, parse(authors[j]).value)
  }

  /** The author loop over one paper: every author is parsed, and each index is set at its first match. */
  function Indices(authors: seq<string>, a1: ADSName, a2: ADSName, parse: R.Parser)
    : (r: Result<(Option<nat>, Option<nat>), NameError>)
    ensures r.Ok? ==> (r.value.0.Some? ==> r.value.0.value < |authors|) && (r.value.1.Some? ==> r.value.1.value < |authors|)
    ensures r.Err? ==> exists j :: 0 <= j < |authors| && parse(authors[j]) == Err(r.error)
  {
    if authors == [] then Ok((None, None))
    else
      var ix :- Indices(authors[..|authors| - 1], a1, a2, parse);
      var last :- parse(authors[|authors| - 1]);
      Ok((R.Mark(ix.0, |authors| - 1, Equals(a1, last)), R.Mark(ix.1, |authors| - 1, Equals(a2, last))))
  }

  /** `f` is the first match for `a` in `authors`, or `None` when there is none. */
  predicate FirstMatch(authors: seq<string>, a: ADSName, parse: R.Parser, f: Option<nat>) {
    (f.None? ==> forall j :: 0 <= j < |authors| ==> !Match(authors, j, a, parse)) &&
    (f.Some? ==> f.value < |authors| && Match(authors, f.value, a, parse) &&
                 forall j :: 0 <= j < f.value ==> !Match(authors, j, a, parse))
  }

  lemma FirstMatchNext(authors: seq<string>, a: ADSName, parse: R.Parser, f: Option<nat>)
    requires authors != [] && parse(authors[|authors| - 1]).Ok?
    requires FirstMatch(authors[..|authors| - 1], a, parse, f)
    ensures FirstMatch(authors, a, parse, R.Mark(f, |authors| - 1, Equals(a, parse(authors[|authors| - 1]).value)))
  {
    var init := authors[..|authors| - 1];
    assert forall j :: 0 <= j < |init| ==> Match(init, j, a, parse) == Match(authors, j, a, parse);
  }

  /**
   * The loop over a paper's authors fails exactly when some author string does not parse;
   * otherwise each index is the first position whose name equals that author, or `None`.
   */
  lemma {:induction false} IndicesMeaning(authors: seq<string>, a1: ADSName, a2: ADSName, parse: R.Parser)
    ensures Indices(authors, a1, a2, parse).Ok? <==> forall j :: 0 <= j < |authors| ==> parse(authors[j]).Ok?
    ensures Indices(authors, a1, a2, parse).Ok? ==>
              FirstMatch(authors, a1, parse, Indices(authors, a1, a2, parse).value.0) &&
              FirstMatch(authors, a2, parse, Indices(authors, a1, a2, parse).value.1)
  {
    if authors != [] {
      var init := authors[..|authors| - 1];
      IndicesMeaning(init, a1, a2, parse);
      assert forall j :: 0 <= j < |init| ==> init[j] == authors[j];
      var r := Indices(init, a1, a2, parse);
      if r.Ok? && parse(authors[|authors| - 1]).Ok? {
        FirstMatchNext(authors, a1, parse, r.value.0);
        FirstMatchNext(authors, a2, parse, r.value.1);
      }
    }
  }

  lemma IndicesNext(authors: seq<string>, i: nat, k: nat, a1: ADSName, a2: ADSName, parse: R.Parser)
    requires k == i + 1 && k <= |authors|
    ensures Indices(authors[..k], a1, a2, parse) ==
      var prev := Indices(authors[..i], a1, a2, parse);
      if prev.Err? then prev
      else if parse(authors[i]).Err? then Err(parse(authors[i]).error)
      else
        var name := parse(authors[i]).value;
        Ok((R.Mark(prev.value.0, i, Equals(a1, name)), R.Mark(prev.value.1, i, Equals(a2, name))))
  {
    assert authors[..k][..i] == authors[..i];
  }

  lemma {:induction false} IndicesPrefixErr(authors: seq<string>, j: nat, a1: ADSName, a2: ADSName, parse: R.Parser)
    requires j <= |authors| && Indices(authors[..j], a1, a2, parse).Err?
    ensures Indices(authors, a1, a2, parse) == Indices(authors[..j], a1, a2, parse)
  {
    if j < |authors| {
      var init := authors[..|authors| - 1];
      assert init[..j] == authors[..j];
      IndicesPrefixErr(init, j, a1, a2, parse);
    } else {
      assert authors[..j] == authors;
    }
  }

  /** The loop over one paper's authors. */
  method FindIndices(authors: seq<string>, a1: ADSName, a2: ADSName, parse: R.Parser)
    returns (r: Result<(Option<nat>, Option<nat>), NameError>)
    ensures r == Indices(authors, a1, a2, parse)
  {
    var i1: Option<nat>, i2: Option<nat> := None, None;
    for i := 0 to |authors|
      invariant Indices(authors[..i], a1, a2, parse) == Ok((i1, i2))
    {
      var k := i + 1;
      IndicesNext(authors, i, k, a1, a2, parse);
      var n := parse(authors[i]);
      if n.Err? {
        IndicesPrefixErr(authors, k, a1, a2, parse);
        return Err(n.error);
      }
      if Equals(a1, n.value) && i1.None? {
        i1 := Some(i);
      }
      if Equals(a2, n.value) && i2.None? {
        i2 := Some(i);
      }
    }
    assert authors[..|authors|] == authors;
    r := Ok((i1, i2));
  }

  /** The triples that replace one link's bibcodes, paper by paper. */
  function Link(bibcodes: seq<string>, a1: ADSName, a2: ADSName, load: string -> RecordData, parse: R.Parser)
    : (r: Result<seq<R.Conn>, NameError>)
    ensures r.Ok? ==> R.OnePerBibcode(r.value, bibcodes)
  {
    if bibcodes == [] then Ok([])
    else
      var init :- Link(bibcodes[..|bibcodes| - 1], a1, a2, load, parse);
      var b := bibcodes[|bibcodes| - 1];
      var ix :- Indices(load(b).authors, a1, a2, parse);
      Ok(init + [R.Conn(b, ix.0, ix.1)])
  }

  /** A filled link keeps its bibcodes in order, each with the index pair of its own author list. */
  lemma {:induction false} LinkShape(bibcodes: seq<string>, a1: ADSName, a2: ADSName, load: string -> RecordData,
                                     parse: R.Parser)
    requires Link(bibcodes, a1, a2, load, parse).Ok?
    ensures var cs := Link(bibcodes, a1, a2, load, parse).value;
            |cs| == |bibcodes| &&
            forall i :: 0 <= i < |cs| ==>
              cs[i].bibcode == bibcodes[i] &&
              Indices(load(bibcodes[i]).authors, a1, a2, parse) == Ok((cs[i].idx1, cs[i].idx2))
  {
    if bibcodes != [] {
      LinkShape(bibcodes[..|bibcodes| - 1], a1, a2, load, parse);
    }
  }

  lemma LinkNext(bibcodes: seq<string>, i: nat, k: nat, a1: ADSName, a2: ADSName, load: string -> RecordData,
                 parse: R.Parser)
    requires k == i + 1 && k <= |bibcodes|
    ensures Link(bibcodes[..k], a1, a2, load, parse) ==
      match Link(bibcodes[..i], a1, a2, load, parse)
      case Err(e) => Err(e)
      case Ok(init) =>
        match Indices(load(bibcodes[i]).authors, a1, a2, parse)
        case Err(e) => Err(e)
        case Ok(ix) => Ok(init + [R.Conn(bibcodes[i], ix.0, ix.1)])
  {
    assert bibcodes[..k][..i] == bibcodes[..i];
  }

  lemma {:induction false} LinkPrefixErr(bibcodes: seq<string>, j: nat, a1: ADSName, a2: ADSName,
                                         load: string -> RecordData, parse: R.Parser)
    requires j <= |bibcodes| && Link(bibcodes[..j], a1, a2, load, parse).Err?
    ensures Link(bibcodes, a1, a2, load, parse) == Link(bibcodes[..j], a1, a2, load, parse)
  {
    if j < |bibcodes| {
      var init := bibcodes[..|bibcodes| - 1];
      assert init[..j] == bibcodes[..j];
      LinkPrefixErr(init, j, a1, a2, load, parse);
    } else {
      assert bibcodes[..j] == bibcodes;
    }
  }

  /** Every paper stored is its loaded record without the bibcode (the timestamp stays). */
  ghost predicate FromLoad(d: map<string, DocFields>, load: string -> RecordData) {
    forall b :: b in d ==> d[b] == Fields(load(b), true)
  }

  /** The loop over one link's bibcodes: each paper is loaded and stored in `doc_data`, overwriting. */
  method FillLink(bibcodes: seq<string>, a1: ADSName, a2: ADSName, load: string -> RecordData, parse: R.Parser,
                  docData: map<string, DocFields>)
    returns (r: Result<seq<R.Conn>, NameError>, docData': map<string, DocFields>)
    requires FromLoad(docData, load)
    ensures r == Link(bibcodes, a1, a2, load, parse)
    ensures FromLoad(docData', load)
    ensures forall b :: b in docData' ==> b in docData || b in bibcodes
    ensures forall b :: b in docData ==> b in docData'
    ensures r.Ok? ==> forall b :: b in bibcodes ==> b in docData'
  {
    var out: seq<R.Conn> := [];
    docData' := docData;
    for i := 0 to |bibcodes|
      invariant Link(bibcodes[..i], a1, a2, load, parse) == Ok(out)
      invariant FromLoad(docData', load)
      invariant forall b :: b in docData' ==> b in docData || b in bibcodes[..i]
      invariant forall b :: b in docData ==> b in docData'
      invariant forall b :: b in bibcodes[..i] ==> b in docData'
    {
      var k := i + 1;
      var b := bibcodes[i];
      var rec := Fields(load(b), true);
      docData' := docData'[b := rec];
      R.TakeNext(bibcodes, i);
      LinkNext(bibcodes, i, k, a1, a2, load, parse);
      var ix := FindIndices(rec.authors, a1, a2, parse);
      if ix.Err? {
        LinkPrefixErr(bibcodes, k, a1, a2, load, parse);
        return Err(ix.error), docData';
      }
      out := out + [R.Conn(b, ix.value.0, ix.value.1)];
    }
    R.TakeAll(bibcodes);
    r := Ok(out);
  }

  /** Row `k1` filled: for each partner, both names parse and the link holds its filled triples. */
  ghost predicate RowFilled(row: map<string, seq<string>>, k1: string, out: map<string, seq<R.Conn>>,
                            load: string -> RecordData, parse: R.Parser)
  {
    out.Keys == row.Keys &&
    forall k2 :: k2 in row ==>
      parse(k1).Ok? && parse(k2).Ok? && Link(row[k2], parse(k1).value, parse(k2).value, load, parse) == Ok(out[k2])
  }

  /** Row `k1` cannot be filled: for some partner a name does not parse, or a paper's author list holds one. */
  ghost predicate RowFails(row: map<string, seq<string>>, k1: string, load: string -> RecordData, parse: R.Parser) {
    exists k2 :: k2 in row &&
      (parse(k1).Err? || parse(k2).Err? || Link(row[k2], parse(k1).value, parse(k2).value, load, parse).Err?)
  }

  lemma FilledNotFails(row: map<string, seq<string>>, k1: string, out: map<string, seq<R.Conn>>,
                       load: string -> RecordData, parse: R.Parser)
    requires RowFilled(row, k1, out, load, parse)
    ensures !RowFails(row, k1, load, parse)
  {
  }

  /** One link of a row: both names are parsed, then the link's bibcodes are filled. */
  method FillEntry(bibcodes: seq<string>, k1: string, k2: string, load: string -> RecordData, parse: R.Parser,
                   docData: map<string, DocFields>)
    returns (r: Result<seq<R.Conn>, NameError>, docData': map<string, DocFields>)
    requires FromLoad(docData, load)
    ensures r.Ok? ==> parse(k1).Ok? && parse(k2).Ok? && Link(bibcodes, parse(k1).value, parse(k2).value, load, parse) == Ok(r.value)
    ensures r.Err? ==> parse(k1).Err? || parse(k2).Err? || Link(bibcodes, parse(k1).value, parse(k2).value, load, parse).Err?
    ensures FromLoad(docData', load)
    ensures forall b :: b in docData' ==> b in docData || b in bibcodes
    ensures forall b :: b in docData ==> b in docData'
    ensures r.Ok? ==> forall b :: b in bibcodes ==> b in docData'
  {
    docData' := docData;
    var p1 := parse(k1);
    if p1.Err? {
      return Err(p1.error), docData';
    }
    var p2 := parse(k2);
    if p2.Err? {
      return Err(p2.error), docData';
    }
    r, docData' := FillLink(bibcodes, p1.value, p2.value, load, parse, docData);
  }

  lemma KeysWithin(d0: map<string, DocFields>, d1: map<string, DocFields>, d2: map<string, DocFields>,
                   row: map<string, seq<string>>, k2: string)
    requires forall b :: b in d1 ==> b in d0 || R.InRow(row, b)
    requires k2 in row && forall b :: b in d2 ==> b in d1 || b in row[k2]
    ensures forall b :: b in d2 ==> b in d0 || R.InRow(row, b)
  {
  }

  /** The loop over one row's partners. */
  method FillRow(row: map<string, seq<string>>, k1: string, load: string -> RecordData, parse: R.Parser,
                 docData: map<string, DocFields>)
    returns (r: Result<map<string, seq<R.Conn>>, NameError>, docData': map<string, DocFields>)
    requires FromLoad(docData, load)
    ensures r.Ok? ==> RowFilled(row, k1, r.value, load, parse)
    ensures r.Err? ==> RowFails(row, k1, load, parse)
    ensures FromLoad(docData', load)
    ensures forall b :: b in docData' ==> b in docData || R.InRow(row, b)
    ensures forall b :: b in docData ==> b in docData'
    ensures r.Ok? ==> forall b :: R.InRow(row, b) ==> b in docData'
  {
    docData' := docData;
    var out: map<string, seq<R.Conn>> := map[];
    var todo := row.Keys;
    while todo != {}
      invariant todo <= row.Keys
      invariant forall k2 :: k2 in row ==> k2 in todo || k2 in out
      invariant forall k2 :: k2 in out ==>
        k2 in row && k2 !in todo && parse(k1).Ok? && parse(k2).Ok? &&
        Link(row[k2], parse(k1).value, parse(k2).value, load, parse) == Ok(out[k2])
      invariant FromLoad(docData', load)
      invariant forall b :: b in docData' ==> b in docData || R.InRow(row, b)
      invariant forall b :: b in docData ==> b in docData'
      invariant forall k2, b :: k2 in out && b in row[k2] ==> b in docData'
      decreases |todo|
    {
      var k2 :| k2 in todo;
      var c, d := FillEntry(row[k2], k1, k2, load, parse, docData');
      KeysWithin(docData, docData', d, row, k2);
      docData' := d;
      if c.Err? {
        return Err(c.error), docData';
      }
      out := out[k2 := c.value];
      todo := todo - {k2};
    }
    r := Ok(out);
    R.RowCovered(row, out, docData');
  }

  /**
   * `_insert_document_data`: every link's bibcodes become (bibcode, index of the first author,
   * index of the second author) triples, and `doc_data` ends up with the record of every paper
   * a link names, and of no other paper.
   */
  method InsertDocumentData(pairings: R.Pairings, load: string -> RecordData, parse: R.Parser)
    returns (r: Result<R.Filled, NameError>, docData: map<string, DocFields>)
    ensures r.Ok? ==>
      r.value.Keys == pairings.Keys &&
      forall k1 :: k1 in pairings ==> RowFilled(pairings[k1], k1, r.value[k1], load, parse)
    ensures r.Ok? <==> forall k1 :: k1 in pairings ==> !RowFails(pairings[k1], k1, load, parse)
    ensures FromLoad(docData, load)
    ensures forall b :: b in docData ==> R.Referenced(pairings, b)
    ensures r.Ok? ==> forall b :: R.Referenced(pairings, b) ==> b in docData
  {
    docData := map[];
    var out: R.Filled := map[];
    var todo := pairings.Keys;
    while todo != {}
      invariant todo <= pairings.Keys
      invariant forall k1 :: k1 in pairings ==> k1 in todo || k1 in out
      invariant forall k1 :: k1 in out ==>
        k1 in pairings && k1 !in todo && RowFilled(pairings[k1], k1, out[k1], load, parse)
      invariant FromLoad(docData, load)
      invariant forall b :: b in docData ==> R.Referenced(pairings, b)
      invariant forall k1, b :: k1 in out && R.InRow(pairings[k1], b) ==> b in docData
      decreases |todo|
    {
      var k1 :| k1 in todo;
      var c, d := FillRow(pairings[k1], k1, load, parse, docData);
      forall b | b in d
        ensures R.Referenced(pairings, b)
      {
        if b !in docData {
          assert R.InRow(pairings[k1], b);
        }
      }
      docData := d;
      if c.Err? {
        return Err(c.error), docData;
      }
      out := out[k1 := c.value];
      todo := todo - {k1};
    }
    r := Ok(out);
    AllFilled(pairings, out, load, parse);
  }

  lemma AllFilled(pairings: R.Pairings, out: R.Filled, load: string -> RecordData, parse: R.Parser)
    requires forall k1 :: k1 in pairings ==> k1 in out && RowFilled(pairings[k1], k1, out[k1], load, parse)
    ensures forall k1 :: k1 in pairings ==> !RowFails(pairings[k1], k1, load, parse)
  {
    forall k1 | k1 in pairings
      ensures !RowFails(pairings[k1], k1, load, parse)
    {
      FilledNotFails(pairings[k1], k1, out[k1], load, parse);
    }
  }

  // ---------------------------------------------------------------------
  // `to_json`

  /**
   * The link store of `to_json`.  When the source has no toward-destination neighbour (the
   * source is the destination), the source's pair with itself holds the bibcodes of the source
   * author's papers.
   */
  function OutPairings(v: View, top: int, src: PathNode, srcPapers: seq<string>): (p: R.Pairings)
    requires Leveled(v, top) && src in v
    ensures v[src].children == [] ==> p == map[v[src].bare := map[v[src].bare := srcPapers]]
  {
    var stored := JsonPairings(v, top, src);
    if v[src].children == [] then
      assert Store(v, top, src, Stored(map[], {}), false) == StoreFrom(v, top, src, 0, Stored(map[], {}), false);
      Put(stored, v[src].bare, v[src].bare, srcPapers)
    else stored
  }

  /**
   * `[doc.bibcode for doc in auth_record.documents]` as written.  Every producer of an author
   * record's `documents` fills the list with bibcode strings, and a `str` has no attribute
   * `bibcode`: the first entry read raises `AttributeError` (None).
   */
  function BibcodeAttrs(documents: seq<string>): (r: Option<seq<string>>)
    ensures r.None? <==> documents != []
  {
    if documents == [] then Some([]) else None
  }

  /**
   * The link store of `to_json` as written: when the source has no toward-destination neighbour,
   * the source author's `documents` are read through `doc.bibcode`.
   */
  function OutPairingsAsWritten(v: View, top: int, src: PathNode, srcDocuments: seq<string>)
    : (r: Option<R.Pairings>)
    requires Leveled(v, top) && src in v
    ensures r.None? <==> v[src].children == [] && srcDocuments != []
    ensures r.Some? ==> r.value == OutPairings(v, top, src, srcDocuments)
  {
    var stored := JsonPairings(v, top, src);
    if v[src].children != [] then Some(stored)
    else match BibcodeAttrs(srcDocuments)
      case None => None
      case Some(bibcodes) =>
        assert Store(v, top, src, Stored(map[], {}), false) == StoreFrom(v, top, src, 0, Stored(map[], {}), false);
        Some(Put(stored, v[src].bare, v[src].bare, bibcodes))
  }

  /**
   * A search from an author to the same author who has papers: as written, `to_json` raises,
   * while the intended store pairs the author with itself under the bibcodes of those papers.
   */
  lemma SameAuthorRaises(v: View, top: int, src: PathNode, srcDocuments: seq<string>)
    requires Leveled(v, top) && src in v
    requires v[src].children == [] && srcDocuments != []
    ensures OutPairingsAsWritten(v, top, src, srcDocuments).None?
    ensures OutPairings(v, top, src, srcDocuments)[v[src].bare][v[src].bare] == srcDocuments
  {
  }

  /** The fields `to_json` writes before `json.dumps`, without the search statistics. */
  datatype Output = Output(authorGraph: Tree, bibcodePairings: R.Filled, docData: map<string, DocFields>,
                           originalSrc: string, originalDest: string)

  /**
   * `to_json`: the tree below the source, every link's (bibcode, index, index) triples, the
   * record of every paper a link names and of no other, and the source's and destination's bare
   * names; a name that does not parse raises.  `srcPapers` are the bibcodes of the source
   * author's record, which the source reads only when the source has no neighbour.
   */
  method ToJson(v: View, top: int, src: PathNode, dest: PathNode, srcPapers: seq<string>,
                load: string -> RecordData, parse: R.Parser) returns (r: Result<Output, NameError>)
    requires Leveled(v, top) && src in v && dest in v
    ensures var p := OutPairings(v, top, src, srcPapers);
            (r.Ok? <==> forall k1 :: k1 in p ==> !RowFails(p[k1], k1, load, parse)) &&
            (r.Ok? ==>
              r.value.authorGraph == BuildDict(v, top, src) &&
              r.value.bibcodePairings.Keys == p.Keys &&
              (forall k1 :: k1 in p ==> RowFilled(p[k1], k1, r.value.bibcodePairings[k1], load, parse)) &&
              FromLoad(r.value.docData, load) &&
              (forall b :: b in r.value.docData <==> R.Referenced(p, b)) &&
              r.value.originalSrc == v[src].bare && r.value.originalDest == v[dest].bare)
  {
    var graph := BuildDict(v, top, src);
    var pairings := JsonPairings(v, top, src);
    if |graph.neighbors| == 0 {
      pairings := Put(pairings, graph.name, graph.name, srcPapers);
    }
    assert pairings == OutPairings(v, top, src, srcPapers);
    var filled, docData := InsertDocumentData(pairings, load, parse);
    if filled.Err? {
      return Err(filled.error);
    }
    r := Ok(Output(graph, filled.value, docData, v[src].bare, v[dest].bare));
  }
}
