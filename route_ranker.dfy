/**
 * Ranking the chains of authors that join the source to the destination
 * (route_ranker.py).
 *
 * The pruned graph is read through a `RouteGraph.View`.  The bibcodes of
 * every link are stored by author pair and then replaced by triples
 * giving, for each paper, the first position of each of the two authors
 * in its author list.  Every path from the source to a leaf is a chain of
 * names; each way of picking one paper per link is scored link by link,
 * and a link is invalid when the ORCID ids on its two papers differ or
 * when the two name strings do not match.  Chains without a valid
 * choice of papers are dropped and the rest are ordered by score, then
 * by their names.
 *
 * The numeric score of a valid link is a parameter (`weight`); only the
 * rules that make a link invalid are modelled.  Repository lookups are
 * the function `docs`, and `ADSName.parse` is the parameter `parse`.
 */
module RouteRanker {

  import opened Wrappers
  import opened PyStr
  import opened AdsName
  import opened NameAware
  import opened DocumentRecords
  import opened PathNodes
  import opened RouteGraph
  import opened Sorting

  // ---------------------------------------------------------------------
  // `_process_affil`

  /** `chars_to_remove`: '.', ':', '-' and the digits. */
  const RemovedChars: set<char> := {'.', ':', '-', '0', '1', '2', '3', '4', '5', '6', '7', '8', '9'}

  /** `chars_to_replace`: '|', ';', '@', '/' and the en dash, em dash and horizontal bar. */
  const CommaChars: set<char> := {'|', ';', '@', '/', '\U{2013}', '\U{2014}', '\U{2015}'}

  /** `words_to_remove`. */
  const RemovedWords: set<string> := {"the", "of", "a", "an", "and", "&"}

  /** The keys of `words_to_replace`. */
  const Abbreviations: set<string> := {"inst", "u", "uni", "univ"}

  /** `words_to_replace[w]`, or `w` itself when it is not a key. */
  function Expand(w: string): (r: string)
    ensures w in Abbreviations ==> r == "institute" || r == "university"
    ensures w !in Abbreviations ==> r == w
  {
    if w == "inst" then "institute"
    else if w == "u" || w == "uni" || w == "univ" then "university"
    else w
  }

  /** The character pass: removable and unprintable characters go, separators become commas. */
  function Clean(s: string): string {
    if s == [] then []
    else
      (if s[0] in RemovedChars || !IsPrintable(s[0]) then []
       else if s[0] in CommaChars then [',']
       else [s[0]]) + Clean(s[1..])
  }

  /** The comma-separated chunks, each stripped, before the word pass. */
  function Chunks(affil: string): seq<string> {
    var pieces := Split(Clean(Replace(LowerStr(affil), " at ", ",")), ',');
    seq(|pieces|, i requires 0 <= i < |pieces| => Strip(pieces[i]))
  }

  /** The word pass over one chunk's words: removed words go, abbreviations are written out. */
  function KeepWords(words: seq<string>): seq<string> {
    if words == [] then []
    else
      var w := words[|words| - 1];
      KeepWords(words[..|words| - 1]) +
      (if w in RemovedWords || Expand(w) == [] then [] else [Expand(w)])
  }

  /** The chunks that keep at least one word, each re-joined with single spaces. */
  function KeepChunks(chunks: seq<string>): (r: seq<string>)
    ensures |r| <= |chunks|
  {
    if chunks == [] then []
    else
      var words := KeepWords(SplitWs(chunks[|chunks| - 1]));
      KeepChunks(chunks[..|chunks| - 1]) + (if words == [] then [] else [Join(words, " ")])
  }

  /**
   * What `_process_affil(affil)` returns: at most one processed chunk per comma-separated piece,
   * each one or more kept words joined by single spaces.
   */
  function Affil(affil: string): (r: seq<string>)
    ensures |r| <= |Chunks(affil)|
    ensures forall i :: 0 <= i < |r| ==> GoodChunk(r[i])
  {
    KeepChunksGood(Chunks(affil));
    KeepChunks(Chunks(affil))
  }

  /** `_process_affil`: the loop over chunks, in which `ProcessWords` is the loop over words. */
  method ProcessAffil(affil: string) returns (processed: seq<string>)
    ensures processed == Affil(affil)
  {
    var chunks := Chunks(affil);
    processed := [];
    for i := 0 to |chunks|
      invariant processed == KeepChunks(chunks[..i])
    {
      var words := ProcessWords(SplitWs(chunks[i]));
      if |words| > 0 {
        processed := processed + [Join(words, " ")];
      }
      TakeNext(chunks, i);
    }
    TakeAll(chunks);
  }

  /** The inner loop of `_process_affil` over the words of one chunk. */
  method ProcessWords(all: seq<string>) returns (words: seq<string>)
    ensures words == KeepWords(all)
  {
    words := [];
    for j := 0 to |all|
      invariant words == KeepWords(all[..j])
    {
      var word := all[j];
      if word !in RemovedWords {
        word := Expand(word);
        if |word| > 0 {
          words := words + [word];
        }
      }
      TakeNext(all, j);
    }
    TakeAll(all);
  }

  lemma TakeNext<T>(s: seq<T>, i: nat)
    requires i < |s|
    ensures s[..i + 1][..i] == s[..i] && s[..i + 1][i] == s[i]
  {
  }

  lemma TakeAll<T>(s: seq<T>)
    ensures s[..|s|] == s
  {
  }

  /** A word the word pass keeps. */
  predicate GoodWord(w: string) {
    w != [] && NoSpace(w) && w !in RemovedWords && w !in Abbreviations
  }

  lemma {:induction false} KeepWordsGood(words: seq<string>)
    requires forall i :: 0 <= i < |words| ==> words[i] != [] && NoSpace(words[i])
    ensures forall i :: 0 <= i < |KeepWords(words)| ==> GoodWord(KeepWords(words)[i])
  {
    if words != [] {
      var w := words[|words| - 1];
      KeepWordsGood(words[..|words| - 1]);
      if w !in RemovedWords && Expand(w) != [] && w in Abbreviations {
        assert NoSpace(Expand(w));
      }
    }
  }

  /** Each output chunk of the word pass is made of good words joined by single spaces. */
  ghost predicate GoodChunk(c: string) {
    exists words :: c == Join(words, " ") && words != [] &&
      forall i :: 0 <= i < |words| ==> GoodWord(words[i])
  }

  lemma {:induction false} KeepChunksGood(chunks: seq<string>)
    ensures forall i :: 0 <= i < |KeepChunks(chunks)| ==> GoodChunk(KeepChunks(chunks)[i])
  {
    if chunks != [] {
      KeepChunksGood(chunks[..|chunks| - 1]);
      var words := KeepWords(SplitWs(chunks[|chunks| - 1]));
      KeepWordsGood(SplitWs(chunks[|chunks| - 1]));
      if words != [] {
        assert GoodChunk(Join(words, " "));
      }
    }
  }

  /** A character that can survive into a processed chunk. */
  predicate KeptChar(c: char) {
    c != ',' && c !in RemovedChars && c !in CommaChars && IsPrintable(c) && !('A' <= c <= 'Z')
  }

  predicate NotUpper(c: char) {
    !('A' <= c <= 'Z')
  }

  predicate CommaOrKept(c: char) {
    c == ',' || KeptChar(c)
  }

  /** Every character of `s` has the property `P`. */
  predicate All(s: string, P: char -> bool) {
    forall i :: 0 <= i < |s| ==> P(s[i])
  }

  lemma AllSlice(s: string, a: nat, b: nat, P: char -> bool)
    requires All(s, P) && a <= b <= |s|
    ensures All(s[a..b], P) && All(s[a..], P) && All(s[..b], P)
  {
    assert forall i :: 0 <= i < b - a ==> s[a..b][i] == s[a + i];
  }

  lemma AllConcat(s: string, t: string, P: char -> bool)
    ensures All(s + t, P) <==> All(s, P) && All(t, P)
  {
    if All(s, P) && All(t, P) {
      forall i | 0 <= i < |s + t|
        ensures P((s + t)[i])
      {
        if i >= |s| {
          assert (s + t)[i] == t[i - |s|];
        }
      }
    }
    if All(s + t, P) {
      forall i | 0 <= i < |s|
        ensures P(s[i])
      {
        assert (s + t)[i] == s[i];
      }
      forall i | 0 <= i < |t|
        ensures P(t[i])
      {
        assert (s + t)[|s| + i] == t[i];
      }
    }
  }

  lemma {:induction false} ReplaceAll(s: string, pat: string, rep: string, P: char -> bool)
    requires pat != [] && All(s, P) && All(rep, P)
    ensures All(Replace(s, pat, rep), P)
    decreases |s|
  {
    if |s| >= |pat| {
      if s[..|pat|] == pat {
        AllSlice(s, |pat|, |s|, P);
        ReplaceAll(s[|pat|..], pat, rep, P);
        AllConcat(rep, Replace(s[|pat|..], pat, rep), P);
      } else {
        AllSlice(s, 1, |s|, P);
        ReplaceAll(s[1..], pat, rep, P);
        AllConcat([s[0]], Replace(s[1..], pat, rep), P);
      }
    }
  }

  lemma {:induction false} CleanAll(s: string)
    requires All(s, NotUpper)
    ensures All(Clean(s), CommaOrKept)
  {
    if s != [] {
      AllSlice(s, 1, |s|, NotUpper);
      CleanAll(s[1..]);
      var head := if s[0] in RemovedChars || !IsPrintable(s[0]) then []
                  else if s[0] in CommaChars then [','] else [s[0]];
      assert All(head, CommaOrKept);
      AllConcat(head, Clean(s[1..]), CommaOrKept);
    }
  }

  lemma {:induction false} SplitAll(s: string, d: char, P: char -> bool)
    requires All(s, P)
    ensures forall i :: 0 <= i < |Split(s, d)| ==> All(Split(s, d)[i], P)
    decreases |s|
  {
    match IndexOf(s, d)
    case None =>
    case Some(k) =>
      AllSlice(s, 0, k, P);
      AllSlice(s, k + 1, |s|, P);
      SplitAll(s[k + 1..], d, P);
  }

  lemma StripAll(s: string, P: char -> bool)
    requires All(s, P)
    ensures All(Strip(s), P)
  {
    var t := s[SpanSpace(s)..];
    AllSlice(s, SpanSpace(s), |s|, P);
    AllSlice(t, 0, |t| - TrailingSpace(t), P);
  }

  lemma {:induction false} SplitWsAll(s: string, P: char -> bool)
    requires All(s, P)
    ensures forall i :: 0 <= i < |SplitWs(s)| ==> All(SplitWs(s)[i], P)
    decreases |s|
  {
    var t := s[SpanSpace(s)..];
    AllSlice(s, SpanSpace(s), |s|, P);
    if t != [] {
      var n := SpanNonSpace(t);
      AllSlice(t, 0, n, P);
      AllSlice(t, n, |t|, P);
      SplitWsAll(t[n..], P);
    }
  }

  lemma {:induction false} JoinAll(xs: seq<string>, sep: string, P: char -> bool)
    requires All(sep, P) && forall i :: 0 <= i < |xs| ==> All(xs[i], P)
    ensures All(Join(xs, sep), P)
  {
    if |xs| > 1 {
      JoinAll(xs[1..], sep, P);
      AllConcat(xs[0], sep, P);
      AllConcat(xs[0] + sep, Join(xs[1..], sep), P);
    }
  }

  /** Every string of `xs` has only characters with the property `P`. */
  predicate Each(xs: seq<string>, P: char -> bool) {
    forall i :: 0 <= i < |xs| ==> All(xs[i], P)
  }

  lemma EachConcat(xs: seq<string>, ys: seq<string>, P: char -> bool)
    requires Each(xs, P) && Each(ys, P)
    ensures Each(xs + ys, P)
  {
    assert forall i :: |xs| <= i < |xs + ys| ==> (xs + ys)[i] == ys[i - |xs|];
  }

  predicate LowerLetter(c: char) {
    'a' <= c <= 'z'
  }

  lemma LettersKept(s: string)
    requires All(s, LowerLetter)
    ensures All(s, KeptChar)
  {
  }

  lemma ExpandKept(w: string)
    requires All(w, KeptChar)
    ensures All(Expand(w), KeptChar)
  {
    if w in Abbreviations {
      assert All("institute", LowerLetter);
      assert All("university", LowerLetter);
      LettersKept("institute");
      LettersKept("university");
    }
  }

  lemma {:induction false} KeepWordsAll(words: seq<string>)
    requires Each(words, KeptChar)
    ensures Each(KeepWords(words), KeptChar)
  {
    if words != [] {
      var init := words[..|words| - 1];
      var w := words[|words| - 1];
      assert Each(init, KeptChar);
      KeepWordsAll(init);
      ExpandKept(w);
      var tail := if w in RemovedWords || Expand(w) == [] then [] else [Expand(w)];
      assert Each(tail, KeptChar);
      EachConcat(KeepWords(init), tail, KeptChar);
    }
  }

  lemma {:induction false} KeepChunksAll(chunks: seq<string>)
    requires Each(chunks, KeptChar)
    ensures Each(KeepChunks(chunks), KeptChar)
  {
    if chunks != [] {
      var init := chunks[..|chunks| - 1];
      var last := chunks[|chunks| - 1];
      assert Each(init, KeptChar);
      KeepChunksAll(init);
      SplitWsAll(last, KeptChar);
      var words := KeepWords(SplitWs(last));
      KeepWordsAll(SplitWs(last));
      JoinAll(words, " ", KeptChar);
      var tail := if words == [] then [] else [Join(words, " ")];
      assert Each(tail, KeptChar);
      EachConcat(KeepChunks(init), tail, KeptChar);
    }
  }

  lemma ChunksAll(affil: string)
    ensures forall i :: 0 <= i < |Chunks(affil)| ==> All(Chunks(affil)[i], KeptChar)
  {
    var lowered := LowerStr(affil);
    var replaced := Replace(lowered, " at ", ",");
    ReplaceAll(lowered, " at ", ",", NotUpper);
    CleanAll(replaced);
    var cleaned := Clean(replaced);
    SplitAll(cleaned, ',', CommaOrKept);
    var pieces := Split(cleaned, ',');
    forall i | 0 <= i < |pieces|
      ensures All(Strip(pieces[i]), KeptChar)
    {
      assert All(pieces[i], KeptChar);
      StripAll(pieces[i], KeptChar);
    }
  }

  /**
   * The chunks of `_process_affil`: none is empty, each is one or more
   * words joined by single spaces, no word is removable or an
   * abbreviation, and no character is upper-case ASCII, unprintable, a
   * comma, a removable character or a separator.
   */
  lemma AffilChunks(affil: string)
    ensures forall i :: 0 <= i < |Affil(affil)| ==> Affil(affil)[i] != [] && GoodChunk(Affil(affil)[i])
    ensures forall i :: 0 <= i < |Affil(affil)| ==> All(Affil(affil)[i], KeptChar)
  {
    ChunksAll(affil);
    KeptChunks(Chunks(affil));
  }

  /** What the chunk pass keeps of chunks made of kept characters. */
  lemma KeptChunks(chunks: seq<string>)
    requires Each(chunks, KeptChar)
    ensures forall i :: 0 <= i < |KeepChunks(chunks)| ==> KeepChunks(chunks)[i] != [] && GoodChunk(KeepChunks(chunks)[i])
    ensures Each(KeepChunks(chunks), KeptChar)
  {
    var r := KeepChunks(chunks);
    KeepChunksGood(chunks);
    KeepChunksAll(chunks);
    forall i | 0 <= i < |r|
      ensures r[i] != []
    {
      var words :| r[i] == Join(words, " ") && words != [] &&
                   forall k :: 0 <= k < |words| ==> GoodWord(words[k]);
      JoinNonEmpty(words, " ");
    }
  }

  // ---------------------------------------------------------------------
  // `_insert_document_data`

  type Parser = string -> Result<ADSName, NameError>

  /** One `(bibcode, idx1, idx2)` triple: the paper and where each of the two authors sits in its author list. */
  datatype Conn = Conn(bibcode: string, idx1: Option<nat>, idx2: Option<nat>)

  /** Position `j` holds a name that is not excluded and equals `a`. */
  predicate Hit(authors: seq<string>, j: nat, a: ADSName, excluded: DictState<ADSName>, parse: Parser)
    requires j < |authors|
  {
    parse(authors[j]).Ok? && Lookup(excluded, parse(authors[j]).value).None? && Equals(a, parse(authors[j]).value)
  }

  /**
   * The author loop from position `i`, with `f1`, `f2` found so far:
   * each author is parsed, excluded ones are skipped, each index is set
   * at its first hit, and the loop stops once both are set.
   */
  function Scan(authors: seq<string>, a1: ADSName, a2: ADSName, excluded: DictState<ADSName>, parse: Parser,
                i: nat, f1: Option<nat>, f2: Option<nat>): Result<(Option<nat>, Option<nat>), NameError>
    requires i <= |authors|
    decreases |authors| - i
  {
    if i == |authors| then Ok((f1, f2))
    else match parse(authors[i])
      case Err(e) => Err(e)
      case Ok(n) =>
        if Lookup(excluded, n).Some? then Scan(authors, a1, a2, excluded, parse, i + 1, f1, f2)
        else
          var g1 := if f1.None? && Equals(a1, n) then Some(i) else f1;
          var g2 := if f2.None? && Equals(a2, n) then Some(i) else f2;
          if g1.Some? && g2.Some? then Ok((g1, g2))
          else Scan(authors, a1, a2, excluded, parse, i + 1, g1, g2)
  }

  /** The loop over one document's authors. */
  method FindIndices(authors: seq<string>, a1: ADSName, a2: ADSName, excluded: DictState<ADSName>, parse: Parser)
    returns (r: Result<(Option<nat>, Option<nat>), NameError>)
    ensures r == Scan(authors, a1, a2, excluded, parse, 0, None, None)
  {
    var i1: Option<nat>, i2: Option<nat> := None, None;
    var i := 0;
    while i < |authors|
      invariant i <= |authors| && !(i1.Some? && i2.Some?)
      invariant Scan(authors, a1, a2, excluded, parse, 0, None, None) == Scan(authors, a1, a2, excluded, parse, i, i1, i2)
    {
      var n := parse(authors[i]);
      if n.Err? {
        return Err(n.error);
      }
      var next := i + 1;
      if Lookup(excluded, n.value).None? {
        if i1.None? && Equals(a1, n.value) {
          i1 := Some(i);
        }
        if i2.None? && Equals(a2, n.value) {
          i2 := Some(i);
        }
        if i1.Some? && i2.Some? {
          return Ok((i1, i2));
        }
      }
      i := next;
    }
    return Ok((i1, i2));
  }

  /** `f` is the first hit for `a` below `i`, or `None` when there is none. */
  predicate FirstBelow(authors: seq<string>, a: ADSName, excluded: DictState<ADSName>, parse: Parser,
                       i: nat, f: Option<nat>)
    requires i <= |authors|
  {
    (f.None? ==> forall j :: 0 <= j < i ==> !Hit(authors, j, a, excluded, parse)) &&
    (f.Some? ==> f.value < i && Hit(authors, f.value, a, excluded, parse) &&
                 forall j :: 0 <= j < f.value ==> !Hit(authors, j, a, excluded, parse))
  }

  lemma {:induction false} ScanFirst(authors: seq<string>, a1: ADSName, a2: ADSName, excluded: DictState<ADSName>,
                                     parse: Parser, i: nat, f1: Option<nat>, f2: Option<nat>)
    requires i <= |authors|
    requires FirstBelow(authors, a1, excluded, parse, i, f1) && FirstBelow(authors, a2, excluded, parse, i, f2)
    ensures var r := Scan(authors, a1, a2, excluded, parse, i, f1, f2);
            r.Ok? ==> FirstBelow(authors, a1, excluded, parse, |authors|, r.value.0) &&
                      FirstBelow(authors, a2, excluded, parse, |authors|, r.value.1)
    ensures Scan(authors, a1, a2, excluded, parse, i, f1, f2).Err? ==>
              exists j :: i <= j < |authors| && parse(authors[j]).Err?
    ensures (forall j :: i <= j < |authors| ==> parse(authors[j]).Ok?) ==>
              Scan(authors, a1, a2, excluded, parse, i, f1, f2).Ok?
    decreases |authors| - i
  {
    if i < |authors| && parse(authors[i]).Ok? {
      var k := i + 1;
      var g1 := Mark(f1, i, Hit(authors, i, a1, excluded, parse));
      var g2 := Mark(f2, i, Hit(authors, i, a2, excluded, parse));
      StepFirst(authors, a1, excluded, parse, i, k, f1);
      StepFirst(authors, a2, excluded, parse, i, k, f2);
      ScanStep(authors, a1, a2, excluded, parse, i, k, f1, f2);
      ScanFirst(authors, a1, a2, excluded, parse, k, g1, g2);
    }
  }

  /** Setting an index at its first hit. */
  function Mark(f: Option<nat>, i: nat, hit: bool): Option<nat> {
    if f.None? && hit then Some(i) else f
  }

  lemma StepFirst(authors: seq<string>, a: ADSName, excluded: DictState<ADSName>, parse: Parser,
                  i: nat, k: nat, f: Option<nat>)
    requires i < |authors| && k == i + 1 && FirstBelow(authors, a, excluded, parse, i, f)
    ensures FirstBelow(authors, a, excluded, parse, k, Mark(f, i, Hit(authors, i, a, excluded, parse)))
  {
  }

  /** One step of `Scan` on a position that parses, in terms of `Hit`. */
  lemma ScanStep(authors: seq<string>, a1: ADSName, a2: ADSName, excluded: DictState<ADSName>, parse: Parser,
                 i: nat, k: nat, f1: Option<nat>, f2: Option<nat>)
    requires i < |authors| && k == i + 1 && parse(authors[i]).Ok?
    ensures var g1, g2 := Mark(f1, i, Hit(authors, i, a1, excluded, parse)), Mark(f2, i, Hit(authors, i, a2, excluded, parse));
            Scan(authors, a1, a2, excluded, parse, i, f1, f2) ==
              if Lookup(excluded, parse(authors[i]).value).None? && g1.Some? && g2.Some? then Ok((g1, g2))
              else Scan(authors, a1, a2, excluded, parse, k, g1, g2)
  {
  }

  /**
   * One document's index pair: each index is the first position holding
   * a name that is not excluded and equals that author, or `None` when
   * no position does.  The search fails exactly when some author string
   * it reaches does not parse, which needs a string that does not parse.
   */
  lemma FirstIndicesFound(authors: seq<string>, a1: ADSName, a2: ADSName, excluded: DictState<ADSName>, parse: Parser)
    ensures var r := Scan(authors, a1, a2, excluded, parse, 0, None, None);
            r.Ok? ==> FirstBelow(authors, a1, excluded, parse, |authors|, r.value.0) &&
                      FirstBelow(authors, a2, excluded, parse, |authors|, r.value.1)
    ensures Scan(authors, a1, a2, excluded, parse, 0, None, None).Err? ==>
              exists j :: 0 <= j < |authors| && parse(authors[j]).Err?
    ensures (forall j :: 0 <= j < |authors| ==> parse(authors[j]).Ok?) ==>
              Scan(authors, a1, a2, excluded, parse, 0, None, None).Ok?
  {
    ScanFirst(authors, a1, a2, excluded, parse, 0, None, None);
  }

  /** One triple per bibcode of the link, in the link's order. */
  predicate OnePerBibcode(cs: seq<Conn>, bibcodes: seq<string>) {
    |cs| == |bibcodes| && forall i :: 0 <= i < |bibcodes| ==> cs[i].bibcode == bibcodes[i]
  }

  /** The triples that replace one link's bibcodes, paper by paper. */
  function Fill(bibcodes: seq<string>, a1: ADSName, a2: ADSName, docs: string -> RecordData,
                excluded: DictState<ADSName>, parse: Parser): (r: Result<seq<Conn>, NameError>)
    ensures r.Ok? ==> OnePerBibcode(r.value, bibcodes)
  {
    if bibcodes == [] then Ok([])
    else
      var init :- Fill(bibcodes[..|bibcodes| - 1], a1, a2, docs, excluded, parse);
      var b := bibcodes[|bibcodes| - 1];
      var ix :- Scan(docs(b).authors, a1, a2, excluded, parse, 0, None, None);
      Ok(init + [Conn(b, ix.0, ix.1)])
  }

  /** A filled link keeps its bibcodes in order, each with the index pair of its own author list. */
  lemma {:induction false} FillShape(bibcodes: seq<string>, a1: ADSName, a2: ADSName, docs: string -> RecordData,
                                     excluded: DictState<ADSName>, parse: Parser)
    requires Fill(bibcodes, a1, a2, docs, excluded, parse).Ok?
    ensures var cs := Fill(bibcodes, a1, a2, docs, excluded, parse).value;
            |cs| == |bibcodes| &&
            forall i :: 0 <= i < |cs| ==>
              cs[i].bibcode == bibcodes[i] &&
              Scan(docs(bibcodes[i]).authors, a1, a2, excluded, parse, 0, None, None) == Ok((cs[i].idx1, cs[i].idx2))
  {
    if bibcodes != [] {
      var init := bibcodes[..|bibcodes| - 1];
      FillShape(init, a1, a2, docs, excluded, parse);
    }
  }

  /** Once a prefix fails, the whole link fails with the same error. */
  lemma {:induction false} FillPrefixErr(bibcodes: seq<string>, j: nat, a1: ADSName, a2: ADSName,
                                         docs: string -> RecordData, excluded: DictState<ADSName>, parse: Parser)
    requires j <= |bibcodes| && Fill(bibcodes[..j], a1, a2, docs, excluded, parse).Err?
    ensures Fill(bibcodes, a1, a2, docs, excluded, parse) == Fill(bibcodes[..j], a1, a2, docs, excluded, parse)
  {
    if j < |bibcodes| {
      var init := bibcodes[..|bibcodes| - 1];
      assert init[..j] == bibcodes[..j];
      FillPrefixErr(init, j, a1, a2, docs, excluded, parse);
    } else {
      assert bibcodes[..j] == bibcodes;
    }
  }

  lemma FillNext(bibcodes: seq<string>, i: nat, a1: ADSName, a2: ADSName,
                 docs: string -> RecordData, excluded: DictState<ADSName>, parse: Parser)
    requires i < |bibcodes|
    ensures var b := bibcodes[i];
            Fill(bibcodes[..i + 1], a1, a2, docs, excluded, parse) ==
              match Fill(bibcodes[..i], a1, a2, docs, excluded, parse)
              case Err(e) => Err(e)
              case Ok(init) =>
                match Scan(docs(b).authors, a1, a2, excluded, parse, 0, None, None)
                case Err(e) => Err(e)
                case Ok(ix) => Ok(init + [Conn(b, ix.0, ix.1)])
  {
    assert bibcodes[..i + 1][..i] == bibcodes[..i];
  }

  /** `d1` is `d0` plus the papers `loaded` names, each loaded once and none already there. */
  ghost predicate Loads(d0: map<string, DocFields>, d1: map<string, DocFields>, loaded: seq<string>) {
    (forall b :: b in d1 <==> b in d0 || b in loaded) &&
    (forall b :: b in loaded ==> b !in d0) && Distinct(loaded)
  }

  lemma LoadsOne(d0: map<string, DocFields>, d1: map<string, DocFields>, loaded: seq<string>, b: string, rec: DocFields)
    requires Loads(d0, d1, loaded) && b !in d1
    ensures Loads(d0, d1[b := rec], loaded + [b])
  {
  }

  lemma LoadsTrans(d0: map<string, DocFields>, d1: map<string, DocFields>, d2: map<string, DocFields>,
                   l1: seq<string>, l2: seq<string>)
    requires Loads(d0, d1, l1) && Loads(d1, d2, l2)
    ensures Loads(d0, d2, l1 + l2)
  {
    forall i, j | 0 <= i < j < |l1 + l2|
      ensures (l1 + l2)[i] != (l1 + l2)[j]
    {
      if i < |l1| && j >= |l1| {
        assert (l1 + l2)[i] in l1 && (l1 + l2)[j] in l2;
      }
    }
  }

  /** Every paper stored is the repository's record for it, without its bibcode and timestamp. */
  ghost predicate FromRepo(d: map<string, DocFields>, docs: string -> RecordData) {
    forall b :: b in d ==> d[b] == Fields(docs(b), false)
  }

  /** One paper's record: from `doc_data` when it holds it, otherwise loaded and stored there. */
  method LoadDoc(b: string, docs: string -> RecordData, docData: map<string, DocFields>,
                 ghost d0: map<string, DocFields>, ghost loaded: seq<string>)
    returns (rec: DocFields, docData': map<string, DocFields>, ghost loaded': seq<string>)
    requires FromRepo(docData, docs) && Loads(d0, docData, loaded)
    ensures rec == Fields(docs(b), false) && b in docData'
    ensures FromRepo(docData', docs) && Loads(d0, docData', loaded')
    ensures forall c :: c in docData' <==> c in docData || c == b
  {
    if b in docData {
      rec, docData', loaded' := docData[b], docData, loaded;
    } else {
      rec := Fields(docs(b), false);
      LoadsOne(d0, docData, loaded, b, rec);
      docData', loaded' := docData[b := rec], loaded + [b];
    }
  }

  /** The loop over one link's bibcodes: each paper is loaded unless `doc_data` holds it already. */
  method FillLink(bibcodes: seq<string>, a1: ADSName, a2: ADSName, docs: string -> RecordData,
                  excluded: DictState<ADSName>, parse: Parser, docData: map<string, DocFields>)
    returns (r: Result<seq<Conn>, NameError>, docData': map<string, DocFields>, ghost loaded: seq<string>)
    requires FromRepo(docData, docs)
    ensures r == Fill(bibcodes, a1, a2, docs, excluded, parse)
    ensures FromRepo(docData', docs) && Loads(docData, docData', loaded)
    ensures forall b :: b in docData' ==> b in docData || b in bibcodes
    ensures r.Ok? ==> forall b :: b in bibcodes ==> b in docData'
  {
    var out: seq<Conn> := [];
    docData', loaded := docData, [];
    for i := 0 to |bibcodes|
      invariant Fill(bibcodes[..i], a1, a2, docs, excluded, parse) == Ok(out)
      invariant FromRepo(docData', docs) && Loads(docData, docData', loaded)
      invariant forall b :: b in docData' ==> b in docData || b in bibcodes[..i]
      invariant forall b :: b in bibcodes[..i] ==> b in docData'
    {
      var b := bibcodes[i];
      var rec;
      rec, docData', loaded := LoadDoc(b, docs, docData', docData, loaded);
      var ix := FindIndices(rec.authors, a1, a2, excluded, parse);
      FillNext(bibcodes, i, a1, a2, docs, excluded, parse);
      TakeNext(bibcodes, i);
      if ix.Err? {
        r := Err(ix.error);
        FillPrefixErr(bibcodes, i + 1, a1, a2, docs, excluded, parse);
        return;
      }
      out := out + [Conn(b, ix.value.0, ix.value.1)];
    }
    TakeAll(bibcodes);
    r := Ok(out);
  }

  /** `pairings` before and after the back-fill: author keys to author keys to bibcodes or triples. */
  type Pairings = map<string, map<string, seq<string>>>
  type Filled = map<string, map<string, seq<Conn>>>

  /** A paper some link of `row` names. */
  ghost predicate InRow(row: map<string, seq<string>>, b: string) {
    exists k2 :: k2 in row && b in row[k2]
  }

  /** A paper some link of `pairings` names. */
  ghost predicate Referenced(pairings: Pairings, b: string) {
    exists k1 :: k1 in pairings && InRow(pairings[k1], b)
  }

  /** Row `k1` filled: its own name and every partner name parse, and each link holds its filled triples. */
  ghost predicate RowFilled(row: map<string, seq<string>>, k1: string, out: map<string, seq<Conn>>,
                            docs: string -> RecordData, excluded: DictState<ADSName>, parse: Parser)
  {
    parse(k1).Ok? && out.Keys == row.Keys &&
    forall k2 :: k2 in row ==>
      parse(k2).Ok? && Fill(row[k2], parse(k1).value, parse(k2).value, docs, excluded, parse) == Ok(out[k2])
  }

  /** Row `k1` cannot be filled: a name does not parse, or some paper's author list holds one that does not. */
  ghost predicate RowFails(row: map<string, seq<string>>, k1: string,
                           docs: string -> RecordData, excluded: DictState<ADSName>, parse: Parser)
  {
    parse(k1).Err? ||
    exists k2 :: k2 in row &&
      (parse(k2).Err? || Fill(row[k2], parse(k1).value, parse(k2).value, docs, excluded, parse).Err?)
  }

  lemma FilledNotFails(row: map<string, seq<string>>, k1: string, out: map<string, seq<Conn>>,
                       docs: string -> RecordData, excluded: DictState<ADSName>, parse: Parser)
    requires RowFilled(row, k1, out, docs, excluded, parse)
    ensures !RowFails(row, k1, docs, excluded, parse)
  {
  }

  /** One row of `_insert_document_data`: both names are parsed and every link's bibcodes are filled. */
  method FillRow(row: map<string, seq<string>>, k1: string, docs: string -> RecordData,
                 excluded: DictState<ADSName>, parse: Parser, docData: map<string, DocFields>)
    returns (r: Result<map<string, seq<Conn>>, NameError>, docData': map<string, DocFields>, ghost loaded: seq<string>)
    requires FromRepo(docData, docs)
    ensures r.Ok? ==> RowFilled(row, k1, r.value, docs, excluded, parse)
    ensures r.Err? ==> RowFails(row, k1, docs, excluded, parse)
    ensures FromRepo(docData', docs) && Loads(docData, docData', loaded)
    ensures forall b :: b in docData' ==> b in docData || InRow(row, b)
    ensures r.Ok? ==> forall b :: InRow(row, b) ==> b in docData'
  {
    docData', loaded := docData, [];
    var p1 := parse(k1);
    if p1.Err? {
      r := Err(p1.error);
      return;
    }
    var out: map<string, seq<Conn>> := map[];
    var todo := row.Keys;
    while todo != {}
      invariant todo <= row.Keys
      invariant forall k2 :: k2 in row ==> k2 in todo || k2 in out
      invariant forall k2 :: k2 in out ==>
        k2 in row && k2 !in todo && parse(k2).Ok? &&
        Fill(row[k2], p1.value, parse(k2).value, docs, excluded, parse) == Ok(out[k2])
      invariant FromRepo(docData', docs) && Loads(docData, docData', loaded)
      invariant forall b :: b in docData' ==> b in docData || InRow(row, b)
      invariant forall k2, b :: k2 in out && b in row[k2] ==> b in docData'
      decreases |todo|
    {
      var k2 :| k2 in todo;
      var c, d, more := FillEntry(row[k2], p1.value, k2, docs, excluded, parse, docData');
      LoadsTrans(docData, docData', d, loaded, more);
      KeysWithin(docData, docData', d, row, k2);
      docData', loaded := d, loaded + more;
      if c.Err? {
        r := Err(c.error);
        return;
      }
      out := out[k2 := c.value];
      todo := todo - {k2};
    }
    r := Ok(out);
    RowCovered(row, out, docData');
  }

  /** One link of a row: the partner name is parsed, then the link's bibcodes are filled. */
  method FillEntry(bibcodes: seq<string>, a1: ADSName, k2: string, docs: string -> RecordData,
                   excluded: DictState<ADSName>, parse: Parser, docData: map<string, DocFields>)
    returns (r: Result<seq<Conn>, NameError>, docData': map<string, DocFields>, ghost loaded: seq<string>)
    requires FromRepo(docData, docs)
    ensures r.Ok? ==> parse(k2).Ok? && Fill(bibcodes, a1, parse(k2).value, docs, excluded, parse) == Ok(r.value)
    ensures r.Err? ==> parse(k2).Err? || Fill(bibcodes, a1, parse(k2).value, docs, excluded, parse).Err?
    ensures FromRepo(docData', docs) && Loads(docData, docData', loaded)
    ensures forall b :: b in docData' ==> b in docData || b in bibcodes
    ensures r.Ok? ==> forall b :: b in bibcodes ==> b in docData'
  {
    var p2 := parse(k2);
    if p2.Err? {
      r, docData', loaded := Err(p2.error), docData, [];
      return;
    }
    r, docData', loaded := FillLink(bibcodes, a1, p2.value, docs, excluded, parse, docData);
  }

  lemma KeysWithin(d0: map<string, DocFields>, d1: map<string, DocFields>, d2: map<string, DocFields>,
                   row: map<string, seq<string>>, k2: string)
    requires forall b :: b in d1 ==> b in d0 || InRow(row, b)
    requires k2 in row && forall b :: b in d2 ==> b in d1 || b in row[k2]
    ensures forall b :: b in d2 ==> b in d0 || InRow(row, b)
  {
  }

  lemma RowCovered(row: map<string, seq<string>>, out: map<string, seq<Conn>>, d: map<string, DocFields>)
    requires row.Keys <= out.Keys
    requires forall k2, b :: k2 in out && k2 in row && b in row[k2] ==> b in d
    ensures forall b :: InRow(row, b) ==> b in d
  {
  }

  /**
   * `_insert_document_data`: every link's bibcodes become (bibcode, index of the first author,
   * index of the second author) triples; each paper is loaded once and kept in `doc_data`.
   */
  method InsertDocumentData(pairings: Pairings, docs: string -> RecordData,
                            excluded: DictState<ADSName>, parse: Parser)
    returns (r: Result<Filled, NameError>, docData: map<string, DocFields>, ghost loaded: seq<string>)
    ensures r.Ok? ==>
      r.value.Keys == pairings.Keys &&
      forall k1 :: k1 in pairings ==> RowFilled(pairings[k1], k1, r.value[k1], docs, excluded, parse)
    ensures r.Ok? <==> forall k1 :: k1 in pairings ==> !RowFails(pairings[k1], k1, docs, excluded, parse)
    ensures FromRepo(docData, docs) && Loads(map[], docData, loaded)
    ensures forall b :: b in docData ==> Referenced(pairings, b)
    ensures r.Ok? ==> forall b :: Referenced(pairings, b) ==> b in docData
  {
    docData, loaded := map[], [];
    var out: Filled := map[];
    var todo := pairings.Keys;
    while todo != {}
      invariant todo <= pairings.Keys
      invariant forall k1 :: k1 in pairings ==> k1 in todo || k1 in out
      invariant forall k1 :: k1 in out ==>
        k1 in pairings && k1 !in todo && RowFilled(pairings[k1], k1, out[k1], docs, excluded, parse)
      invariant FromRepo(docData, docs) && Loads(map[], docData, loaded)
      invariant forall b :: b in docData ==> Referenced(pairings, b)
      invariant forall k1, b :: k1 in out && InRow(pairings[k1], b) ==> b in docData
      decreases |todo|
    {
      var k1 :| k1 in todo;
      var c, d, more := FillRow(pairings[k1], k1, docs, excluded, parse, docData);
      LoadsTrans(map[], docData, d, loaded, more);
      forall b | b in d
        ensures Referenced(pairings, b)
      {
        if b !in docData {
          assert InRow(pairings[k1], b);
        }
      }
      docData, loaded := d, loaded + more;
      if c.Err? {
        r := Err(c.error);
        return;
      }
      out := out[k1 := c.value];
      todo := todo - {k1};
    }
    r := Ok(out);
    AllFilled(pairings, out, docs, excluded, parse);
  }

  lemma AllFilled(pairings: Pairings, out: Filled, docs: string -> RecordData,
                  excluded: DictState<ADSName>, parse: Parser)
    requires forall k1 :: k1 in pairings ==> k1 in out && RowFilled(pairings[k1], k1, out[k1], docs, excluded, parse)
    ensures forall k1 :: k1 in pairings ==> !RowFails(pairings[k1], k1, docs, excluded, parse)
  {
    forall k1 | k1 in pairings
      ensures !RowFails(pairings[k1], k1, docs, excluded, parse)
    {
      FilledNotFails(pairings[k1], k1, out[k1], docs, excluded, parse);
    }
  }

  // ---------------------------------------------------------------------
  // Scoring one link between two papers

  /** Why scoring raises instead of returning a score or `None`. */
  datatype RankError =
    | NoIndex              // TypeError: an author index is `None`
    | OutOfRange           // IndexError: an author index is past the end of a list
    | TextSources          // TypeError: `orcid_id_src` is still in its compressed text form
    | BadName(e: NameError) // an author string does not parse
    | MissingLink          // KeyError: `pairings` has no entry for a link of the chain
    | AllPathsInvalid      // no chain has a valid choice of papers

  /** `s[i]`, where `i` may be `None`. */
  function At<T>(s: seq<T>, i: Option<nat>): (r: Result<T, RankError>)
    ensures r.Ok? <==> i.Some? && i.value < |s|
    ensures r.Ok? ==> r.value == s[i.value]
    ensures r.Err? ==> r.error == (if i.None? then NoIndex else OutOfRange)
  {
    if i.None? then Err(NoIndex)
    else if i.value < |s| then Ok(s[i.value])
    else Err(OutOfRange)
  }

  /** `orcid_id_src[i]`, which must be an entry of the decompressed list. */
  function SourceAt(src: Sources, i: Option<nat>): (r: Result<int, RankError>)
    ensures r.Ok? <==> src.SrcList? && i.Some? && i.value < |src.list|
  {
    if src.SrcText? then Err(TextSources) else At(src.list, i)
  }

  /**
   * The score of a valid link: given, as its floating-point formula (ORCID sources, affiliation
   * overlap, name detail) is not part of this model.
   */
  type Weigher = (RecordData, nat, RecordData, nat) -> real

  /**
   * `_score_author_chain_link(con1, con2)`: the shared author is at `con1`'s second index and at
   * `con2`'s first; `None` marks an invalid link.
   */
  function LinkScore(c1: Conn, c2: Conn, docs: string -> RecordData, parse: Parser, weigh: Weigher)
    : (r: Result<Option<real>, RankError>)
    ensures r.Ok? ==> c1.idx2.Some? && c2.idx1.Some?
    ensures r.Ok? && r.value.Some? ==> r.value.value == weigh(docs(c1.bibcode), c1.idx2.value, docs(c2.bibcode), c2.idx1.value)
  {
    var d1 := docs(c1.bibcode);
    var d2 := docs(c2.bibcode);
    var o1 :- At(d1.orcidIds, c1.idx2);
    var o2 :- At(d2.orcidIds, c2.idx1);
    if o1 != [] && o2 != [] then
      if o1 == o2 then
        var s1 :- SourceAt(d1.orcidIdSrc, c1.idx2);
        var s2 :- SourceAt(d2.orcidIdSrc, c2.idx1);
        Ok(Some(weigh(d1, c1.idx2.value, d2, c2.idx1.value)))
      else Ok(None)
    else
      var f1 :- At(d1.affils, c1.idx2);
      var f2 :- At(d2.affils, c2.idx1);
      var w1 :- At(d1.authors, c1.idx2);
      var w2 :- At(d2.authors, c2.idx1);
      var n1 :- MapErr(parse(w1));
      var n2 :- MapErr(parse(w2));
      if !Equals(n1, n2) then Ok(None)
      else Ok(Some(weigh(d1, c1.idx2.value, d2, c2.idx1.value)))
  }

  function MapErr<T>(r: Result<T, NameError>): (q: Result<T, RankError>)
    ensures q.Ok? <==> r.Ok?
    ensures r.Ok? ==> q.value == r.value
  {
    match r
    case Ok(v) => Ok(v)
    case Err(e) => Err(BadName(e))
  }

  /** Both ORCID ids of the shared author are known and differ. */
  predicate OrcidClash(o1: string, o2: string) {
    o1 != [] && o2 != [] && o1 != o2
  }

  /**
   * The invalidation rules: a link scored without error is invalid exactly when the two ORCID
   * ids are both known and differ, or, when they are not both known, the two printed names
   * parse to names that are not equal. A valid link gets the weight of its two author slots.
   */
  lemma LinkInvalid(c1: Conn, c2: Conn, docs: string -> RecordData, parse: Parser, weigh: Weigher)
    requires LinkScore(c1, c2, docs, parse, weigh).Ok?
    ensures c1.idx2.Some? && c2.idx1.Some?
    ensures var d1, d2, i1, i2 := docs(c1.bibcode), docs(c2.bibcode), c1.idx2.value, c2.idx1.value;
            i1 < |d1.orcidIds| && i2 < |d2.orcidIds| &&
            var o1, o2 := d1.orcidIds[i1], d2.orcidIds[i2];
            var r := LinkScore(c1, c2, docs, parse, weigh).value;
            (r.None? <==>
              OrcidClash(o1, o2) ||
              ((o1 == [] || o2 == []) && !Equals(parse(d1.authors[i1]).value, parse(d2.authors[i2]).value))) &&
            (r.Some? ==> r.value == weigh(d1, i1, d2, i2))
  {
  }

  /**
   * The error cases: scoring raises exactly when an index is `None` or out of range, an ORCID
   * source is unreadable where both ids agree, or a printed name does not parse where the ids
   * do not decide.
   */
  lemma LinkRaises(c1: Conn, c2: Conn, docs: string -> RecordData, parse: Parser, weigh: Weigher)
    ensures var d1, d2 := docs(c1.bibcode), docs(c2.bibcode);
            LinkScore(c1, c2, docs, parse, weigh).Err? <==>
              At(d1.orcidIds, c1.idx2).Err? || At(d2.orcidIds, c2.idx1).Err? ||
              var o1, o2 := d1.orcidIds[c1.idx2.value], d2.orcidIds[c2.idx1.value];
              if o1 != [] && o2 != [] then
                o1 == o2 && (SourceAt(d1.orcidIdSrc, c1.idx2).Err? || SourceAt(d2.orcidIdSrc, c2.idx1).Err?)
              else
                At(d1.affils, c1.idx2).Err? || At(d2.affils, c2.idx1).Err? ||
                At(d1.authors, c1.idx2).Err? || At(d2.authors, c2.idx1).Err? ||
                parse(d1.authors[c1.idx2.value]).Err? || parse(d2.authors[c2.idx1.value]).Err?
  {
  }

  // ---------------------------------------------------------------------
  // The orders the ranker sorts by (Python's tuple comparison)

  /** Index comparison; Python raises on `None` against a number, which is ordered first here. */
  predicate OptLt(a: Option<nat>, b: Option<nat>) {
    if a.None? then b.Some? else b.Some? && a.value < b.value
  }

  /** A (bibcode, index, index) triple as Python compares it. */
  predicate ConnLt(a: Conn, b: Conn) {
    if a.bibcode != b.bibcode then StrLt(a.bibcode, b.bibcode)
    else if a.idx1 != b.idx1 then OptLt(a.idx1, b.idx1)
    else OptLt(a.idx2, b.idx2)
  }

  /** One paper per link, compared as a tuple of triples. */
  predicate ChoiceLt(a: seq<Conn>, b: seq<Conn>) {
    SeqLt(a, b, ConnLt)
  }

  /** A list of titles or of names, compared as a list of strings. */
  predicate TextsLt(a: seq<string>, b: seq<string>) {
    SeqLt(a, b, StrLt)
  }

  /** A score and the papers realising it. */
  type Scored = (real, seq<Conn>)

  /** `items.sort(reverse=True)` on (score, papers): the greater pair comes first. */
  predicate ScoredAbove(x: Scored, y: Scored) {
    x.0 > y.0 || (x.0 == y.0 && ChoiceLt(y.1, x.1))
  }

  /** A paper choice with its titles, ordered by (-score, titles, papers). */
  type Row = (real, seq<string>, seq<Conn>)

  predicate RowLt(x: Row, y: Row) {
    x.0 > y.0 || (x.0 == y.0 && (TextsLt(x.1, y.1) || (x.1 == y.1 && ChoiceLt(x.2, y.2))))
  }

  /** A ranked chain: its best score, its names and its paper choices, ordered by (-score, names, papers). */
  type Ranked = (real, seq<string>, seq<seq<Conn>>)

  predicate ChoicesLt(a: seq<seq<Conn>>, b: seq<seq<Conn>>) {
    SeqLt(a, b, ChoiceLt)
  }

  predicate RankedLt(x: Ranked, y: Ranked) {
    x.0 > y.0 || (x.0 == y.0 && (TextsLt(x.1, y.1) || (x.1 == y.1 && ChoicesLt(x.2, y.2))))
  }

  lemma StrLtStrict()
    ensures StrictTotal(StrLt)
  {
    forall a: string {
      StrLtIrreflexive(a);
    }
    forall a: string, b: string, c: string | StrLt(a, b) && StrLt(b, c) {
      StrLtTransitive(a, b, c);
    }
    forall a: string, b: string | a != b {
      StrLtTotal(a, b);
    }
  }

  lemma ConnLtStrict()
    ensures StrictTotal(ConnLt)
  {
    StrLtStrict();
  }

  /** The list order on `lt` is strict and total, stated for a named predicate `seqLt`. */
  lemma ListOrderStrict<T(!new)>(lt: (T, T) -> bool, seqLt: (seq<T>, seq<T>) -> bool)
    requires StrictTotal(lt)
    requires forall a, b :: seqLt(a, b) == SeqLt(a, b, lt)
    ensures StrictTotal(seqLt)
  {
    SeqLtStrict(lt);
    var l := (a: seq<T>, b: seq<T>) => SeqLt(a, b, lt);
    assert forall a, b :: seqLt(a, b) == l(a, b);
  }

  lemma ChoiceLtStrict()
    ensures StrictTotal(ChoiceLt)
  {
    ConnLtStrict();
    ListOrderStrict(ConnLt, ChoiceLt);
  }

  lemma TextsLtStrict()
    ensures StrictTotal(TextsLt)
  {
    StrLtStrict();
    ListOrderStrict(StrLt, TextsLt);
  }

  lemma ChoicesLtStrict()
    ensures StrictTotal(ChoicesLt)
  {
    ChoiceLtStrict();
    ListOrderStrict(ChoiceLt, ChoicesLt);
  }

  lemma ScoredAboveStrict()
    ensures StrictTotal(ScoredAbove)
  {
    ChoiceLtStrict();
  }

  lemma RowLtStrict()
    ensures StrictTotal(RowLt)
  {
    ChoiceLtStrict();
    TextsLtStrict();
  }

  lemma RankedLtStrict()
    ensures StrictTotal(RankedLt)
  {
    ChoicesLtStrict();
    TextsLtStrict();
  }

  // ---------------------------------------------------------------------
  // Scoring one chain

  /** `connection_lists`: the filled triples of each consecutive pair of names in `chain`. */
  function ChainLinks(chain: seq<string>, filled: Filled): (r: Result<seq<seq<Conn>>, RankError>)
    ensures r.Ok? ==> |r.value| == (if chain == [] then 0 else |chain| - 1)
  {
    if |chain| < 2 then Ok([])
    else
      var init :- ChainLinks(chain[..|chain| - 1], filled);
      var a1, a2 := chain[|chain| - 2], chain[|chain| - 1];
      if a1 in filled && a2 in filled[a1] then Ok(init + [filled[a1][a2]]) else Err(MissingLink)
  }

  /** A link of the chain has its entry in the filled `pairings`. */
  predicate HasLink(chain: seq<string>, filled: Filled, i: nat)
    requires i + 1 < |chain|
  {
    chain[i] in filled && chain[i + 1] in filled[chain[i]]
  }

  /** Every consecutive pair of names has its entry. */
  predicate AllLinks(chain: seq<string>, filled: Filled) {
    forall i :: 0 <= i < |chain| - 1 ==> HasLink(chain, filled, i)
  }

  /** The lists are the chain's links in order, and a missing entry is the only failure. */
  lemma {:induction false} ChainLinksAt(chain: seq<string>, filled: Filled)
    ensures ChainLinks(chain, filled).Ok? <==> AllLinks(chain, filled)
    ensures ChainLinks(chain, filled).Ok? ==>
      forall i :: 0 <= i < |chain| - 1 ==>
        HasLink(chain, filled, i) && ChainLinks(chain, filled).value[i] == filled[chain[i]][chain[i + 1]]
  {
    if |chain| >= 2 {
      var n := |chain|;
      var init := chain[..n - 1];
      ChainLinksAt(init, filled);
      assert forall i :: 0 <= i < |init| ==> init[i] == chain[i];
      assert forall i :: 0 <= i < |init| - 1 ==> (HasLink(init, filled, i) <==> HasLink(chain, filled, i));
      if AllLinks(chain, filled) {
        assert AllLinks(init, filled);
        assert HasLink(chain, filled, n - 2);
      } else {
        var i :| 0 <= i < n - 1 && !HasLink(chain, filled, i);
        if i < n - 2 {
          assert !HasLink(init, filled, i);
        }
      }
    }
  }

  lemma {:induction false} ChainLinksPrefixErr(chain: seq<string>, j: nat, filled: Filled)
    requires 1 <= j <= |chain| && ChainLinks(chain[..j], filled).Err?
    ensures ChainLinks(chain, filled) == ChainLinks(chain[..j], filled)
  {
    if j < |chain| {
      var init := chain[..|chain| - 1];
      assert init[..j] == chain[..j];
      ChainLinksPrefixErr(init, j, filled);
    } else {
      assert chain[..j] == chain;
    }
  }

  lemma ChainLinksNext(chain: seq<string>, i: nat, k: nat, filled: Filled)
    requires k == i + 2 && k <= |chain|
    ensures ChainLinks(chain[..k], filled) ==
      match ChainLinks(chain[..i + 1], filled)
      case Err(e) => Err(e)
      case Ok(init) =>
        if chain[i] in filled && chain[i + 1] in filled[chain[i]] then Ok(init + [filled[chain[i]][chain[i + 1]]])
        else Err(MissingLink)
  {
    assert chain[..k][..k - 1] == chain[..i + 1];
  }

  /** The loop that gathers `connection_lists`. */
  method BuildLinks(chain: seq<string>, filled: Filled) returns (r: Result<seq<seq<Conn>>, RankError>)
    ensures r == ChainLinks(chain, filled)
  {
    if chain == [] {
      return Ok([]);
    }
    var ls: seq<seq<Conn>> := [];
    assert chain[..1] == [chain[0]];
    for i := 0 to |chain| - 1
      invariant ChainLinks(chain[..i + 1], filled) == Ok(ls)
    {
      var k := i + 2;
      ChainLinksNext(chain, i, k, filled);
      var a1, a2 := chain[i], chain[i + 1];
      if !(a1 in filled && a2 in filled[a1]) {
        ChainLinksPrefixErr(chain, k, filled);
        return Err(MissingLink);
      }
      ls := ls + [filled[a1][a2]];
    }
    assert chain[..|chain|] == chain;
    r := Ok(ls);
  }

  /** `itertools.product`: every choice of one element per list, the last list varying fastest. */
  function Product<T>(ls: seq<seq<T>>): seq<seq<T>>
    decreases |ls|
  {
    if ls == [] then [[]] else Prepend(ls[0], Product(ls[1..]))
  }

  function Prepend<T>(xs: seq<T>, rests: seq<seq<T>>): seq<seq<T>> {
    if xs == [] then []
    else seq(|rests|, i requires 0 <= i < |rests| => [xs[0]] + rests[i]) + Prepend(xs[1..], rests)
  }

  lemma {:induction false} PrependMembers<T>(xs: seq<T>, rests: seq<seq<T>>, c: seq<T>)
    ensures c in Prepend(xs, rests) <==> c != [] && c[0] in xs && c[1..] in rests
  {
    if xs != [] {
      PrependMembers(xs[1..], rests, c);
      var front := seq(|rests|, i requires 0 <= i < |rests| => [xs[0]] + rests[i]);
      if c in front {
        var i :| 0 <= i < |rests| && front[i] == c;
        assert c[1..] == rests[i];
      }
      if c != [] && c[0] == xs[0] && c[1..] in rests {
        var i :| 0 <= i < |rests| && rests[i] == c[1..];
        assert front[i] == c;
      }
      assert xs == [xs[0]] + xs[1..];
    }
  }

  /** A choice is in the product exactly when it takes one element from each list, in order. */
  lemma {:induction false} ProductMembers<T>(ls: seq<seq<T>>, c: seq<T>)
    ensures c in Product(ls) <==> |c| == |ls| && forall i :: 0 <= i < |ls| ==> c[i] in ls[i]
    decreases |ls|
  {
    if ls == [] {
      assert c in [[]] <==> c == [];
    } else {
      PrependMembers(ls[0], Product(ls[1..]), c);
      if c != [] {
        ProductMembers(ls[1..], c[1..]);
        assert forall i :: 1 <= i < |ls| ==> ls[1..][i - 1] == ls[i];
        if |c| == |ls| {
          assert forall i :: 1 <= i < |ls| ==> c[1..][i - 1] == c[i];
        }
      }
    }
  }

  /** The inner loop of `_score_author_chain`: the links' scores summed, `None` at the first invalid link. */
  function ChoiceFrom(choice: seq<Conn>, i: nat, acc: real, docs: string -> RecordData, parse: Parser,
                      weigh: Weigher): Result<Option<real>, RankError>
    decreases |choice| - i
  {
    if i + 1 >= |choice| then Ok(Some(acc))
    else
      var a :- LinkScore(choice[i], choice[i + 1], docs, parse, weigh);
      if a.None? then Ok(None) else ChoiceFrom(choice, i + 1, acc + a.value, docs, parse, weigh)
  }

  /** The link from paper `k` to paper `k + 1` is scored and valid. */
  predicate ValidLink(choice: seq<Conn>, k: nat, docs: string -> RecordData, parse: Parser, weigh: Weigher)
    requires k + 1 < |choice|
  {
    var a := LinkScore(choice[k], choice[k + 1], docs, parse, weigh);
    a.Ok? && a.value.Some?
  }

  /** A choice scored without error keeps its score exactly when every one of its links is valid. */
  lemma {:induction false} ChoiceValid(choice: seq<Conn>, i: nat, acc: real, docs: string -> RecordData,
                                       parse: Parser, weigh: Weigher)
    requires ChoiceFrom(choice, i, acc, docs, parse, weigh).Ok?
    ensures ChoiceFrom(choice, i, acc, docs, parse, weigh).value.Some? <==>
      forall k :: i <= k < |choice| - 1 ==> ValidLink(choice, k, docs, parse, weigh)
    decreases |choice| - i
  {
    if i + 1 < |choice| {
      var a := LinkScore(choice[i], choice[i + 1], docs, parse, weigh);
      assert ValidLink(choice, i, docs, parse, weigh) <==> a.value.Some?;
      if a.value.Some? {
        ChoiceValid(choice, i + 1, acc + a.value.value, docs, parse, weigh);
      }
    }
  }

  /** The scoring loop over one choice of papers, with its early exit. */
  method ScoreChoice(choice: seq<Conn>, docs: string -> RecordData, parse: Parser, weigh: Weigher)
    returns (r: Result<Option<real>, RankError>)
    ensures r == ChoiceFrom(choice, 0, 0.0, docs, parse, weigh)
  {
    var score := 0.0;
    var i := 0;
    while i + 1 < |choice|
      invariant ChoiceFrom(choice, i, score, docs, parse, weigh) == ChoiceFrom(choice, 0, 0.0, docs, parse, weigh)
      decreases |choice| - i
    {
      var a := LinkScore(choice[i], choice[i + 1], docs, parse, weigh);
      if a.Err? {
        return Err(a.error);
      }
      if a.value.None? {
        return Ok(None);
      }
      score := score + a.value.value;
      i := i + 1;
    }
    r := Ok(Some(score));
  }

  /** The scored choices that survive, in product order; the first raising choice stops the scan. */
  function Survivors(cs: seq<seq<Conn>>, docs: string -> RecordData, parse: Parser, weigh: Weigher)
    : Result<seq<Scored>, RankError>
  {
    if cs == [] then Ok([])
    else
      var init :- Survivors(cs[..|cs| - 1], docs, parse, weigh);
      var last := cs[|cs| - 1];
      var sc :- ChoiceFrom(last, 0, 0.0, docs, parse, weigh);
      Ok(init + (if sc.Some? then [(sc.value, last)] else []))
  }

  /** Scoring the choices raises exactly when scoring one of them raises. */
  lemma {:induction false} SurvivorsRaise(cs: seq<seq<Conn>>, docs: string -> RecordData, parse: Parser, weigh: Weigher)
    ensures Survivors(cs, docs, parse, weigh).Err? <==>
      exists c :: c in cs && ChoiceFrom(c, 0, 0.0, docs, parse, weigh).Err?
  {
    if cs != [] {
      var init := cs[..|cs| - 1];
      var last := cs[|cs| - 1];
      SurvivorsRaise(init, docs, parse, weigh);
      assert cs == init + [last];
      if Survivors(cs, docs, parse, weigh).Err? {
        if Survivors(init, docs, parse, weigh).Ok? {
          assert last in cs && ChoiceFrom(last, 0, 0.0, docs, parse, weigh).Err?;
        } else {
          var c :| c in init && ChoiceFrom(c, 0, 0.0, docs, parse, weigh).Err?;
          assert c in cs;
        }
      } else {
        forall c | c in cs
          ensures ChoiceFrom(c, 0, 0.0, docs, parse, weigh).Ok?
        {
          if c != last {
            assert c in init;
          }
        }
      }
    }
  }

  /** The survivors are exactly the valid choices, each with its score. */
  lemma {:induction false} SurvivorsExact(cs: seq<seq<Conn>>, docs: string -> RecordData, parse: Parser, weigh: Weigher)
    requires Survivors(cs, docs, parse, weigh).Ok?
    ensures forall x :: x in Survivors(cs, docs, parse, weigh).value <==>
      x.1 in cs && ChoiceFrom(x.1, 0, 0.0, docs, parse, weigh) == Ok(Some(x.0))
    ensures forall c ::
      c in cs && ChoiceFrom(c, 0, 0.0, docs, parse, weigh).Ok? && ChoiceFrom(c, 0, 0.0, docs, parse, weigh).value.Some?
      ==> (ChoiceFrom(c, 0, 0.0, docs, parse, weigh).value.value, c) in Survivors(cs, docs, parse, weigh).value
  {
    if cs != [] {
      var init := cs[..|cs| - 1];
      var last := cs[|cs| - 1];
      SurvivorsExact(init, docs, parse, weigh);
      assert cs == init + [last];
      assert forall c :: c in cs <==> c in init || c == last;
    }
  }

  lemma {:induction false} SurvivorsPrefixErr(cs: seq<seq<Conn>>, j: nat, docs: string -> RecordData,
                                              parse: Parser, weigh: Weigher)
    requires j <= |cs| && Survivors(cs[..j], docs, parse, weigh).Err?
    ensures Survivors(cs, docs, parse, weigh) == Survivors(cs[..j], docs, parse, weigh)
  {
    if j < |cs| {
      var init := cs[..|cs| - 1];
      assert init[..j] == cs[..j];
      SurvivorsPrefixErr(init, j, docs, parse, weigh);
    } else {
      assert cs[..j] == cs;
    }
  }

  lemma SurvivorsNext(cs: seq<seq<Conn>>, i: nat, k: nat, docs: string -> RecordData, parse: Parser, weigh: Weigher)
    requires k == i + 1 && k <= |cs|
    ensures Survivors(cs[..k], docs, parse, weigh) ==
      match Survivors(cs[..i], docs, parse, weigh)
      case Err(e) => Err(e)
      case Ok(init) =>
        match ChoiceFrom(cs[i], 0, 0.0, docs, parse, weigh)
        case Err(e) => Err(e)
        case Ok(sc) => Ok(init + (if sc.Some? then [(sc.value, cs[i])] else []))
  {
    assert cs[..k][..i] == cs[..i];
  }

  /** `_score_author_chain`: `None` when no choice survives, otherwise the survivors best first. */
  function ChainScores(chain: seq<string>, filled: Filled, docs: string -> RecordData, parse: Parser,
                       weigh: Weigher): (r: Result<Option<seq<Scored>>, RankError>)
    ensures r.Ok? && r.value.Some? ==> r.value.value != []
  {
    var ls :- ChainLinks(chain, filled);
    var items :- Survivors(Product(ls), docs, parse, weigh);
    if items == [] then Ok(None) else Ok(Some(SortBy(items, ScoredAbove)))
  }

  method ScoreChain(chain: seq<string>, filled: Filled, docs: string -> RecordData, parse: Parser,
                    weigh: Weigher) returns (r: Result<Option<seq<Scored>>, RankError>)
    ensures r == ChainScores(chain, filled, docs, parse, weigh)
  {
    var ls := BuildLinks(chain, filled);
    if ls.Err? {
      return Err(ls.error);
    }
    var choices := Product(ls.value);
    var items: seq<Scored> := [];
    for i := 0 to |choices|
      invariant Survivors(choices[..i], docs, parse, weigh) == Ok(items)
    {
      var k := i + 1;
      var next := ScoreNext(choices, i, k, items, docs, parse, weigh);
      if next.Err? {
        SurvivorsPrefixErr(choices, k, docs, parse, weigh);
        return Err(next.error);
      }
      items := next.value;
    }
    assert choices[..|choices|] == choices;
    if items == [] {
      return Ok(None);
    }
    r := Ok(Some(SortBy(items, ScoredAbove)));
  }

  /** One turn of the loop over the product: the next choice is scored and kept if valid. */
  method ScoreNext(choices: seq<seq<Conn>>, i: nat, k: nat, items: seq<Scored>, docs: string -> RecordData,
                   parse: Parser, weigh: Weigher) returns (r: Result<seq<Scored>, RankError>)
    requires k == i + 1 && k <= |choices|
    requires Survivors(choices[..i], docs, parse, weigh) == Ok(items)
    ensures r == Survivors(choices[..k], docs, parse, weigh)
  {
    SurvivorsNext(choices, i, k, docs, parse, weigh);
    var score := ScoreChoice(choices[i], docs, parse, weigh);
    if score.Err? {
      return Err(score.error);
    }
    if score.value.Some? {
      return Ok(items + [(score.value.value, choices[i])]);
    }
    assert items + [] == items;
    return Ok(items);
  }

  /**
   * What `_score_author_chain` returns: `None` exactly when no choice of one paper per link has
   * all its links valid; otherwise every such choice once, with its score, best score first.
   */
  lemma ChainScoresMeaning(chain: seq<string>, filled: Filled, docs: string -> RecordData, parse: Parser,
                           weigh: Weigher)
    requires ChainScores(chain, filled, docs, parse, weigh).Ok?
    ensures var cs := Product(ChainLinks(chain, filled).value);
            var r := ChainScores(chain, filled, docs, parse, weigh).value;
            (r.None? <==> forall c :: c in cs ==> ChoiceFrom(c, 0, 0.0, docs, parse, weigh) == Ok(None)) &&
            (r.Some? ==>
              SortedBy(r.value, ScoredAbove) &&
              (forall i, j :: 0 <= i < j < |r.value| ==> r.value[i].0 >= r.value[j].0) &&
              forall x :: x in r.value <==> x.1 in cs && ChoiceFrom(x.1, 0, 0.0, docs, parse, weigh) == Ok(Some(x.0)))
  {
    ScoredMeaning(Product(ChainLinks(chain, filled).value), docs, parse, weigh);
  }

  lemma ScoredMeaning(cs: seq<seq<Conn>>, docs: string -> RecordData, parse: Parser, weigh: Weigher)
    requires Survivors(cs, docs, parse, weigh).Ok?
    ensures var items := Survivors(cs, docs, parse, weigh).value;
            (items == [] <==> forall c :: c in cs ==> ChoiceFrom(c, 0, 0.0, docs, parse, weigh) == Ok(None)) &&
            var r := SortBy(items, ScoredAbove);
            SortedBy(r, ScoredAbove) &&
            (forall i, j :: 0 <= i < j < |r| ==> r[i].0 >= r[j].0) &&
            forall x :: x in r <==> x.1 in cs && ChoiceFrom(x.1, 0, 0.0, docs, parse, weigh) == Ok(Some(x.0))
  {
    var items := Survivors(cs, docs, parse, weigh).value;
    SurvivorsExact(cs, docs, parse, weigh);
    SortedSurvivors(items);
    if items == [] {
      NoSurvivors(cs, docs, parse, weigh);
    } else {
      assert items[0] in items;
    }
  }

  lemma SortedSurvivors(items: seq<Scored>)
    ensures var r := SortBy(items, ScoredAbove);
            SortedBy(r, ScoredAbove) &&
            (forall i, j :: 0 <= i < j < |r| ==> r[i].0 >= r[j].0) &&
            forall x :: x in r <==> x in items
  {
    ScoredAboveStrict();
    SortBySorted(items, ScoredAbove);
    var r := SortBy(items, ScoredAbove);
    assert forall x :: x in r <==> x in multiset(r);
    assert forall x :: x in items <==> x in multiset(items);
  }

  lemma NoSurvivors(cs: seq<seq<Conn>>, docs: string -> RecordData, parse: Parser, weigh: Weigher)
    requires Survivors(cs, docs, parse, weigh) == Ok([])
    ensures forall c :: c in cs ==> ChoiceFrom(c, 0, 0.0, docs, parse, weigh) == Ok(None)
  {
    SurvivorsRaise(cs, docs, parse, weigh);
    SurvivorsExact(cs, docs, parse, weigh);
    forall c | c in cs
      ensures ChoiceFrom(c, 0, 0.0, docs, parse, weigh) == Ok(None)
    {
      assert ChoiceFrom(c, 0, 0.0, docs, parse, weigh).Ok?;
    }
  }

  // ---------------------------------------------------------------------
  // Names as printed on the chosen papers

  /** The printed name at a triple's first index. */
  function FirstName(c: Conn, docs: string -> RecordData): Result<string, RankError> {
    At(docs(c.bibcode).authors, c.idx1)
  }

  /** The printed name at a triple's second index. */
  function SecondName(c: Conn, docs: string -> RecordData): Result<string, RankError> {
    At(docs(c.bibcode).authors, c.idx2)
  }

  /** One turn of `normalize_author_names`, on link `c` of the top choice. */
  function NormStep(prev: seq<string>, first: bool, c: Conn, docs: string -> RecordData, parse: Parser)
    : (r: Result<seq<string>, RankError>)
    requires !first ==> prev != []
    ensures r.Ok? ==> |r.value| == |prev| + (if first then 2 else 1)
  {
    var a1 :- FirstName(c, docs);
    var a2 :- SecondName(c, docs);
    if first then Ok(prev + [a1, a2])
    else
      var n1 :- MapErr(parse(a1));
      var n0 :- MapErr(parse(prev[|prev| - 1]));
      if LevelOfDetail(n1) < LevelOfDetail(n0) then Ok(prev[|prev| - 1 := a1] + [a2]) else Ok(prev + [a2])
  }

  /** `normalize_author_names` over the links of the top paper choice. */
  function Norm(top: seq<Conn>, docs: string -> RecordData, parse: Parser): (r: Result<seq<string>, RankError>)
    ensures r.Ok? ==> |r.value| == if top == [] then 0 else |top| + 1
  {
    if top == [] then Ok([])
    else
      var prev :- Norm(top[..|top| - 1], docs, parse);
      NormStep(prev, |top| == 1, top[|top| - 1], docs, parse)
  }

  /** Name `i` of the chain with its default on link `i - 1` and its rival on link `i`. */
  predicate Interior(r: seq<string>, top: seq<Conn>, i: nat, docs: string -> RecordData, parse: Parser)
    requires 1 <= i < |top| && |r| == |top| + 1
  {
    var prev, next := SecondName(top[i - 1], docs), FirstName(top[i], docs);
    prev.Ok? && next.Ok? && parse(prev.value).Ok? && parse(next.value).Ok? &&
    r[i] == if LevelOfDetail(parse(next.value).value) < LevelOfDetail(parse(prev.value).value)
            then next.value else prev.value
  }

  /**
   * The normalised chain has one name more than the top choice has links: it starts with the
   * first author of the first paper and ends with the second author of the last paper, and each
   * interior name is its version on the next paper when that one is less detailed, otherwise its
   * version on the previous paper.
   */
  lemma {:induction false} NormNames(top: seq<Conn>, docs: string -> RecordData, parse: Parser)
    requires top != [] && Norm(top, docs, parse).Ok?
    ensures var r := Norm(top, docs, parse).value;
            |r| == |top| + 1 &&
            FirstName(top[0], docs).Ok? && r[0] == FirstName(top[0], docs).value &&
            SecondName(top[|top| - 1], docs).Ok? && r[|top|] == SecondName(top[|top| - 1], docs).value &&
            forall i :: 1 <= i < |top| ==> Interior(r, top, i, docs, parse)
  {
    var n := |top|;
    var r := Norm(top, docs, parse).value;
    if n > 1 {
      var init := top[..n - 1];
      NormNames(init, docs, parse);
      var prev := Norm(init, docs, parse).value;
      assert top[n - 2] == init[n - 2] && top[0] == init[0];
      forall i | 1 <= i < n
        ensures Interior(r, top, i, docs, parse)
      {
        if i < n - 1 {
          assert Interior(prev, init, i, docs, parse);
          assert r[i] == prev[i] && top[i] == init[i] && top[i - 1] == init[i - 1];
        }
      }
    }
  }

  lemma NormNext(top: seq<Conn>, i: nat, k: nat, docs: string -> RecordData, parse: Parser)
    requires k == i + 1 && k <= |top|
    ensures Norm(top[..i], docs, parse).Ok? && (i != 0 ==> Norm(top[..i], docs, parse).value != []) ==>
            Norm(top[..k], docs, parse) == NormStep(Norm(top[..i], docs, parse).value, i == 0, top[i], docs, parse)
    ensures Norm(top[..i], docs, parse).Err? ==> Norm(top[..k], docs, parse) == Norm(top[..i], docs, parse)
  {
    assert top[..k][..i] == top[..i];
  }

  lemma {:induction false} NormPrefixErr(top: seq<Conn>, j: nat, docs: string -> RecordData, parse: Parser)
    requires j <= |top| && Norm(top[..j], docs, parse).Err?
    ensures Norm(top, docs, parse) == Norm(top[..j], docs, parse)
  {
    if j < |top| {
      var init := top[..|top| - 1];
      assert init[..j] == top[..j];
      NormPrefixErr(init, j, docs, parse);
    } else {
      assert top[..j] == top;
    }
  }

  /** The body of the loop in `normalize_author_names`. */
  method NormalizeStep(prev: seq<string>, first: bool, c: Conn, docs: string -> RecordData, parse: Parser)
    returns (r: Result<seq<string>, RankError>)
    requires !first ==> prev != []
    ensures r == NormStep(prev, first, c, docs, parse)
  {
    var doc := docs(c.bibcode);
    var a1 := At(doc.authors, c.idx1);
    if a1.Err? {
      return Err(a1.error);
    }
    var a2 := At(doc.authors, c.idx2);
    if a2.Err? {
      return Err(a2.error);
    }
    var chain := prev;
    if !first {
      var n1 := parse(a1.value);
      if n1.Err? {
        return Err(BadName(n1.error));
      }
      var n0 := parse(chain[|chain| - 1]);
      if n0.Err? {
        return Err(BadName(n0.error));
      }
      if LevelOfDetail(n1.value) < LevelOfDetail(n0.value) {
        chain := chain[|chain| - 1 := a1.value];
      }
      chain := chain + [a2.value];
    } else {
      chain := chain + [a1.value, a2.value];
    }
    r := Ok(chain);
  }

  /** `normalize_author_names(paper_choices)`, which reads only the top choice. */
  method Normalize(top: seq<Conn>, docs: string -> RecordData, parse: Parser) returns (r: Result<seq<string>, RankError>)
    ensures r == Norm(top, docs, parse)
  {
    var chain: seq<string> := [];
    for i := 0 to |top|
      invariant Norm(top[..i], docs, parse) == Ok(chain)
    {
      var k := i + 1;
      NormNext(top, i, k, docs, parse);
      var next := NormalizeStep(chain, i == 0, top[i], docs, parse);
      if next.Err? {
        NormPrefixErr(top, k, docs, parse);
        return Err(next.error);
      }
      chain := next.value;
    }
    assert top[..|top|] == top;
    r := Ok(chain);
  }

  // ---------------------------------------------------------------------
  // Ranking the chains

  /** The titles of one paper choice. */
  function Titles(choice: seq<Conn>, docs: string -> RecordData): (r: seq<string>)
    ensures |r| == |choice| && forall i :: 0 <= i < |choice| ==> r[i] == docs(choice[i].bibcode).title
  {
    seq(|choice|, i requires 0 <= i < |choice| => docs(choice[i].bibcode).title)
  }

  /** `zip(-scores, titles, paper_choices)`. */
  function RowsOf(rows: seq<Scored>, docs: string -> RecordData): (r: seq<Row>)
    ensures |r| == |rows| && forall i :: 0 <= i < |rows| ==> r[i] == (rows[i].0, Titles(rows[i].1, docs), rows[i].1)
  {
    seq(|rows|, i requires 0 <= i < |rows| => (rows[i].0, Titles(rows[i].1, docs), rows[i].1))
  }

  function Choices(rows: seq<Row>): (r: seq<seq<Conn>>)
    ensures |r| == |rows| && forall i :: 0 <= i < |rows| ==> r[i] == rows[i].2
  {
    seq(|rows|, i requires 0 <= i < |rows| => rows[i].2)
  }

  /** One chain's entry: its best score, its normalised names and its choices by (score, titles). */
  function RankedOf(rows: seq<Scored>, names: seq<string>, docs: string -> RecordData): Ranked
    requires rows != []
  {
    var sorted := SortBy(RowsOf(rows, docs), RowLt);
    (sorted[0].0, names, Choices(sorted))
  }

  /** The entry `_rank_author_chains` makes of one chain: none when no choice of it is valid. */
  function EntryOf(chain: seq<string>, filled: Filled, docs: string -> RecordData, parse: Parser,
                   weigh: Weigher): Result<Option<Ranked>, RankError>
  {
    var sc :- ChainScores(chain, filled, docs, parse, weigh);
    if sc.None? then Ok(None)
    else
      var names :- Norm(sc.value[0].1, docs, parse);
      Ok(Some(RankedOf(sc.value, names, docs)))
  }

  function Entries(filled: Filled, docs: string -> RecordData, parse: Parser, weigh: Weigher)
    : seq<string> -> Result<Option<Ranked>, RankError>
  {
    chain => EntryOf(chain, filled, docs, parse, weigh)
  }

  /** The present results of `f` over `xs`, in order, or the first error. */
  function Collect<A, T, E>(xs: seq<A>, f: A -> Result<Option<T>, E>): (r: Result<seq<T>, E>)
    ensures r.Ok? ==> |r.value| <= |xs|
  {
    if xs == [] then Ok([])
    else
      var init :- Collect(xs[..|xs| - 1], f);
      var e :- f(xs[|xs| - 1]);
      if e.None? then Ok(init) else Ok(init + [e.value])
  }

  lemma CollectNext<A, T, E>(xs: seq<A>, i: nat, k: nat, f: A -> Result<Option<T>, E>)
    requires k == i + 1 && k <= |xs|
    ensures Collect(xs[..k], f) ==
      match Collect(xs[..i], f)
      case Err(e) => Err(e)
      case Ok(init) =>
        match f(xs[i])
        case Err(e) => Err(e)
        case Ok(e) => if e.None? then Ok(init) else Ok(init + [e.value])
  {
    assert xs[..k][..i] == xs[..i];
  }

  lemma {:induction false} CollectPrefixErr<A, T, E>(xs: seq<A>, j: nat, f: A -> Result<Option<T>, E>)
    requires j <= |xs| && Collect(xs[..j], f).Err?
    ensures Collect(xs, f) == Collect(xs[..j], f)
  {
    if j < |xs| {
      var init := xs[..|xs| - 1];
      assert init[..j] == xs[..j];
      CollectPrefixErr(init, j, f);
    } else {
      assert xs[..j] == xs;
    }
  }

  /**
   * When collecting succeeds, `f` succeeded on every element, and the results are exactly the
   * present ones, at most one per element.
   */
  lemma {:induction false} CollectMembers<A, T, E>(xs: seq<A>, f: A -> Result<Option<T>, E>)
    requires Collect(xs, f).Ok?
    ensures |Collect(xs, f).value| <= |xs|
    ensures forall i :: 0 <= i < |xs| ==> f(xs[i]).Ok?
    ensures forall i :: 0 <= i < |xs| && f(xs[i]).Ok? && f(xs[i]).value.Some? ==> f(xs[i]).value.value in Collect(xs, f).value
    ensures forall x :: x in Collect(xs, f).value ==> exists i :: 0 <= i < |xs| && f(xs[i]) == Ok(Some(x))
  {
    if xs != [] {
      var n := |xs|;
      var init := xs[..n - 1];
      CollectMembers(init, f);
      assert forall i :: 0 <= i < n - 1 ==> init[i] == xs[i];
      var prev := Collect(init, f).value;
      var items := Collect(xs, f).value;
      assert forall x :: x in prev ==> x in items;
      forall x | x in items
        ensures exists i :: 0 <= i < n && f(xs[i]) == Ok(Some(x))
      {
        if x !in prev {
          assert f(xs[n - 1]) == Ok(Some(x));
        }
      }
    }
  }

  /** The loop of `_rank_author_chains`: one entry per chain that has a valid choice. */
  function Ranking(chains: seq<seq<string>>, filled: Filled, docs: string -> RecordData, parse: Parser,
                   weigh: Weigher): (r: Result<seq<Ranked>, RankError>)
    ensures r.Ok? ==> |r.value| <= |chains|
  {
    Collect(chains, Entries(filled, docs, parse, weigh))
  }

  /** `_rank_author_chains`: `None` when every chain is invalid, otherwise the entries in order. */
  function Rank(chains: seq<seq<string>>, filled: Filled, docs: string -> RecordData, parse: Parser,
                weigh: Weigher): (r: Result<Option<seq<Ranked>>, RankError>)
    ensures r.Ok? && r.value.Some? ==>
              r.value.value != [] && |r.value.value| <= |chains| && SortedBy(r.value.value, RankedLt)
  {
    var items :- Ranking(chains, filled, docs, parse, weigh);
    if items == [] then Ok(None)
    else
      RankedLtStrict();
      SortBySorted(items, RankedLt);
      Ok(Some(SortBy(items, RankedLt)))
  }

  /** One turn of the loop of `_rank_author_chains`. */
  method RankNext(chain: seq<string>, filled: Filled, docs: string -> RecordData, parse: Parser, weigh: Weigher)
    returns (r: Result<Option<Ranked>, RankError>)
    ensures r == EntryOf(chain, filled, docs, parse, weigh)
  {
    var sc := ScoreChain(chain, filled, docs, parse, weigh);
    if sc.Err? {
      return Err(sc.error);
    }
    if sc.value.None? {
      return Ok(None);
    }
    var rows := sc.value.value;
    var titled := RowsOf(rows, docs);
    var names := Normalize(rows[0].1, docs, parse);
    if names.Err? {
      return Err(names.error);
    }
    var sorted := SortBy(titled, RowLt);
    r := Ok(Some((sorted[0].0, names.value, Choices(sorted))));
  }

  method RankChains(chains: seq<seq<string>>, filled: Filled, docs: string -> RecordData, parse: Parser,
                    weigh: Weigher) returns (r: Result<Option<seq<Ranked>>, RankError>)
    ensures r == Rank(chains, filled, docs, parse, weigh)
  {
    ghost var f := Entries(filled, docs, parse, weigh);
    var items: seq<Ranked> := [];
    for i := 0 to |chains|
      invariant Collect(chains[..i], f) == Ok(items)
    {
      var k := i + 1;
      CollectNext(chains, i, k, f);
      var next := RankNext(chains[i], filled, docs, parse, weigh);
      if next.Err? {
        CollectPrefixErr(chains, k, f);
        return Err(next.error);
      }
      if next.value.Some? {
        items := items + [next.value.value];
      }
    }
    assert chains[..|chains|] == chains;
    if items == [] {
      return Ok(None);
    }
    r := Ok(Some(SortBy(items, RankedLt)));
  }

  /**
   * A chain's entry carries the normalised names, all its valid choices, and as its score the
   * best score of those choices.
   */
  lemma RankedBest(rows: seq<Scored>, names: seq<string>, docs: string -> RecordData)
    requires rows != []
    ensures var r := RankedOf(rows, names, docs);
            r.1 == names && |r.2| == |rows| &&
            (forall i :: 0 <= i < |rows| ==> rows[i].0 <= r.0) &&
            (exists i :: 0 <= i < |rows| && rows[i].0 == r.0) &&
            forall c :: c in r.2 <==> exists i :: 0 <= i < |rows| && rows[i].1 == c
  {
    var titled := RowsOf(rows, docs);
    var sorted := SortBy(titled, RowLt);
    RowLtStrict();
    SortBySorted(titled, RowLt);
    forall i | 0 <= i < |rows|
      ensures rows[i].0 <= sorted[0].0
    {
      assert titled[i] in multiset(sorted);
      HeadLeast(sorted, titled[i], RowLt);
    }
    assert sorted[0] in multiset(titled);
    var k :| 0 <= k < |titled| && titled[k] == sorted[0];
    assert rows[k].0 == sorted[0].0;
    var cs := Choices(sorted);
    forall c
      ensures c in cs <==> exists i :: 0 <= i < |rows| && rows[i].1 == c
    {
      if c in cs {
        var j :| 0 <= j < |sorted| && sorted[j].2 == c;
        assert sorted[j] in multiset(titled);
        var i :| 0 <= i < |titled| && titled[i] == sorted[j];
        assert rows[i].1 == c;
      }
      if i :| 0 <= i < |rows| && rows[i].1 == c {
        assert titled[i] in multiset(sorted);
        var j :| 0 <= j < |sorted| && sorted[j] == titled[i];
        assert cs[j] == c;
      }
    }
  }

  /**
   * `_rank_author_chains` gives no ranking exactly when no chain makes an entry; otherwise all
   * the entries, one per chain that makes one, ordered by score descending, then by names,
   * then by choices.
   */
  lemma RankMeaning(chains: seq<seq<string>>, filled: Filled, docs: string -> RecordData, parse: Parser,
                    weigh: Weigher)
    requires Rank(chains, filled, docs, parse, weigh).Ok?
    ensures var r := Rank(chains, filled, docs, parse, weigh).value;
            (forall i :: 0 <= i < |chains| ==> EntryOf(chains[i], filled, docs, parse, weigh).Ok?) &&
            (r.None? <==> forall i :: 0 <= i < |chains| ==> EntryOf(chains[i], filled, docs, parse, weigh) == Ok(None)) &&
            (r.Some? ==>
              SortedBy(r.value, RankedLt) && |r.value| <= |chains| &&
              (forall i, j :: 0 <= i < j < |r.value| ==> r.value[i].0 >= r.value[j].0) &&
              forall x :: x in r.value <==> exists i :: 0 <= i < |chains| && EntryOf(chains[i], filled, docs, parse, weigh) == Ok(Some(x)))
  {
    var f := Entries(filled, docs, parse, weigh);
    var items := Collect(chains, f).value;
    CollectMembers(chains, f);
    forall i | 0 <= i < |chains|
      ensures f(chains[i]) == EntryOf(chains[i], filled, docs, parse, weigh)
    {
    }
    if items != [] {
      RankedLtStrict();
      SortBySorted(items, RankedLt);
      var r := SortBy(items, RankedLt);
      assert forall x :: x in r <==> x in multiset(r);
      assert forall x :: x in items <==> x in multiset(items);
      assert items[0] in items;
    }
  }

  /** A chain makes an entry exactly when it is scored and has a valid choice. */
  lemma EntryMeaning(chain: seq<string>, filled: Filled, docs: string -> RecordData, parse: Parser, weigh: Weigher)
    requires EntryOf(chain, filled, docs, parse, weigh).Ok?
    ensures ChainScores(chain, filled, docs, parse, weigh).Ok?
    ensures EntryOf(chain, filled, docs, parse, weigh).value.None? <==> ChainScores(chain, filled, docs, parse, weigh).value.None?
    ensures EntryOf(chain, filled, docs, parse, weigh).value.Some? ==>
              var rows := ChainScores(chain, filled, docs, parse, weigh).value.value;
              rows != [] && Norm(rows[0].1, docs, parse).Ok? &&
              EntryOf(chain, filled, docs, parse, weigh).value.value == RankedOf(rows, Norm(rows[0].1, docs, parse).value, docs)
  {
  }

  // ---------------------------------------------------------------------
  // The whole ranking of a finished search

  /** The author pairs and bibcodes of every link below `src`, each bibcode list sorted. */
  function PairingsOf(v: View, top: int, src: PathNode): Pairings
    requires Leveled(v, top) && src in v
  {
    Store(v, top, src, Stored(map[], {}), true).pairings
  }

  /**
   * `process_pathfinder`: stores the links, loads the papers, builds the chains and ranks them;
   * `AllPathsInvalid` when no chain survives.  Also returns the papers it loaded and the
   * filled-in pairings (which the source updates in place).
   */
  method ProcessPathfinder(v: View, top: int, src: PathNode, docs: string -> RecordData,
                           excluded: DictState<ADSName>, parse: Parser, weigh: Weigher)
    returns (r: Result<seq<Ranked>, RankError>, docData: map<string, DocFields>, filled: Filled)
    requires Leveled(v, top) && src in v
    ensures var pairings := PairingsOf(v, top, src);
            var fills := forall k1 :: k1 in pairings ==> !RowFails(pairings[k1], k1, docs, excluded, parse);
            (!fills ==> r.Err? && r.error.BadName?) &&
            (fills ==>
              filled.Keys == pairings.Keys &&
              (forall k1 :: k1 in pairings ==> RowFilled(pairings[k1], k1, filled[k1], docs, excluded, parse)) &&
              (forall b :: Referenced(pairings, b) ==> b in docData) &&
              r == match Rank(AuthorChains(v, top, src), filled, docs, parse, weigh)
                   case Err(e) => Err(e)
                   case Ok(None) => Err(AllPathsInvalid)
                   case Ok(Some(ranked)) => Ok(ranked))
    ensures FromRepo(docData, docs)
    ensures forall b :: b in docData ==> Referenced(PairingsOf(v, top, src), b)
  {
    var pairings := PairingsOf(v, top, src);
    var ins: Result<Filled, NameError>;
    ghost var loaded;
    ins, docData, loaded := InsertDocumentData(pairings, docs, excluded, parse);
    if ins.Err? {
      filled := map[];
      return Err(BadName(ins.error)), docData, filled;
    }
    filled := ins.value;
    var chains := AuthorChains(v, top, src);
    var ranked := RankChains(chains, filled, docs, parse, weigh);
    if ranked.Err? {
      return Err(ranked.error), docData, filled;
    }
    if ranked.value.None? {
      return Err(AllPathsInvalid), docData, filled;
    }
    r := Ok(ranked.value.value);
  }
}
