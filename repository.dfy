/**
 * The repository in front of the cache and ADS (repository.py): the
 * coauthor index it builds for an author record from the record's
 * documents, and the filtering that decides which announced authors are
 * worth prefetching from ADS.
 *
 * The documents are those `cache_buddy.load_documents` returns for the
 * record, passed in; `ADSName.parse` is the given function `parse`, and
 * cache membership (`cache_buddy.authors_are_in_cache`) is the given
 * predicate `cached` on cache keys.  Python's `defaultdict(set)` of
 * bibcodes is kept as the list of bibcodes in the order they were added;
 * its set is `Elements` of that list.
 */
module Repository {

  import opened Wrappers
  import opened PyStr
  import opened AdsName
  import opened DocumentRecords
  import opened AuthorRecords

  type Index = map<string, seq<string>>

  /** `index[k]` of a `defaultdict`: the empty list for a missing key. */
  function Get(index: Index, k: string): seq<string> {
    if k in index then index[k] else []
  }

  /** `index[c].add(bibcode)` for every `c` of `authors` that `keep` accepts, in order. */
  function AddAll(index: Index, authors: seq<string>, bibcode: string, keep: string -> bool): Index
    decreases |authors|
  {
    if authors == [] then index
    else
      var prev := AddAll(index, authors[..|authors| - 1], bibcode, keep);
      var c := authors[|authors| - 1];
      if keep(c) then prev[c := Get(prev, c) + [bibcode]] else prev
  }

  /** The index built over `docs`, one document after the other. */
  function IndexFor(docs: seq<RecordData>, keep: string -> bool): Index
    decreases |docs|
  {
    if docs == [] then map[]
    else
      var d := docs[|docs| - 1];
      AddAll(IndexFor(docs[..|docs| - 1], keep), d.authors, d.bibcode, keep)
  }

  /** The bibcodes of the documents of `docs` that list the author string `k`. */
  function Listing(docs: seq<RecordData>, k: string): set<string> {
    set i | 0 <= i < |docs| && k in docs[i].authors :: docs[i].bibcode
  }

  /** Some document of `docs` lists `k`. */
  predicate Listed(docs: seq<RecordData>, k: string) {
    exists i :: 0 <= i < |docs| && k in docs[i].authors
  }

  /** `{k: sorted(v) for k, v in index.items()}`. */
  function Sorted(index: Index): (r: Index)
    ensures r.Keys == index.Keys
    ensures forall k :: k in r ==> StrictlySorted(r[k]) && Elements(r[k]) == Elements(index[k])
  {
    map k | k in index :: SortedUnique(index[k])
  }

  // ---------------------------------------------------------------------
  // What the index holds

  lemma {:induction false} AddAllMeaning(index: Index, authors: seq<string>, bibcode: string, keep: string -> bool, k: string)
    ensures k in AddAll(index, authors, bibcode, keep) <==> k in index || (keep(k) && k in authors)
    ensures Elements(Get(AddAll(index, authors, bibcode, keep), k)) ==
            Elements(Get(index, k)) + (if keep(k) && k in authors then {bibcode} else {})
    decreases |authors|
  {
    if authors != [] {
      var init := authors[..|authors| - 1];
      var c := authors[|authors| - 1];
      AddAllMeaning(index, init, bibcode, keep, k);
      assert authors == init + [c];
      assert k in authors <==> k in init || k == c;
      var prev := AddAll(index, init, bibcode, keep);
      if keep(c) && c == k {
        ElementsSnoc(Get(prev, k), bibcode);
      }
    }
  }

  lemma ListingNext(docs: seq<RecordData>, k: string)
    requires docs != []
    ensures Listing(docs, k) == Listing(docs[..|docs| - 1], k) +
              (if k in docs[|docs| - 1].authors then {docs[|docs| - 1].bibcode} else {})
    ensures Listed(docs, k) <==> Listed(docs[..|docs| - 1], k) || k in docs[|docs| - 1].authors
  {
    var init := docs[..|docs| - 1];
    assert forall i :: 0 <= i < |init| ==> init[i] == docs[i];
    if Listed(docs, k) && !(k in docs[|docs| - 1].authors) {
      var i :| 0 <= i < |docs| && k in docs[i].authors;
      assert k in init[i].authors;
    }
  }

  /**
   * The index has a key for exactly the author strings on the documents
   * that `keep` accepts, and under each key the bibcodes of the documents
   * that list it.
   */
  lemma {:induction false} IndexMeaning(docs: seq<RecordData>, keep: string -> bool, k: string)
    ensures k in IndexFor(docs, keep) <==> keep(k) && Listed(docs, k)
    ensures Elements(Get(IndexFor(docs, keep), k)) == if keep(k) then Listing(docs, k) else {}
    decreases |docs|
  {
    if docs == [] {
      assert Listing(docs, k) == {};
    } else {
      var init := docs[..|docs| - 1];
      var d := docs[|docs| - 1];
      IndexMeaning(init, keep, k);
      AddAllMeaning(IndexFor(init, keep), d.authors, d.bibcode, keep, k);
      ListingNext(docs, k);
    }
  }

  lemma {:induction false} AddAllKey(index: Index, authors: seq<string>, bibcode: string, keep1: string -> bool, keep2: string -> bool, k: string)
    requires keep1(k) == keep2(k)
    ensures (k in AddAll(index, authors, bibcode, keep1)) == (k in AddAll(index, authors, bibcode, keep2))
    ensures Get(AddAll(index, authors, bibcode, keep1), k) == Get(AddAll(index, authors, bibcode, keep2), k)
    decreases |authors|
  {
    if authors != [] {
      AddAllKey(index, authors[..|authors| - 1], bibcode, keep1, keep2, k);
    }
  }

  /** What the index holds under a key depends only on whether `keep` accepts that key. */
  lemma {:induction false} IndexKey(docs: seq<RecordData>, keep1: string -> bool, keep2: string -> bool, k: string)
    requires keep1(k) == keep2(k)
    ensures (k in IndexFor(docs, keep1)) == (k in IndexFor(docs, keep2))
    ensures Get(IndexFor(docs, keep1), k) == Get(IndexFor(docs, keep2), k)
    decreases |docs|
  {
    if docs != [] {
      var init := docs[..|docs| - 1];
      var d := docs[|docs| - 1];
      IndexKey(init, keep1, keep2, k);
      AddAllKey(IndexFor(init, keep1), d.authors, d.bibcode, keep1, keep2, k);
      AddAllSameStart(IndexFor(init, keep1), IndexFor(init, keep2), d.authors, d.bibcode, keep2, k);
    }
  }

  lemma {:induction false} AddAllSameStart(a: Index, b: Index, authors: seq<string>, bibcode: string, keep: string -> bool, k: string)
    requires (k in a) == (k in b) && Get(a, k) == Get(b, k)
    ensures (k in AddAll(a, authors, bibcode, keep)) == (k in AddAll(b, authors, bibcode, keep))
    ensures Get(AddAll(a, authors, bibcode, keep), k) == Get(AddAll(b, authors, bibcode, keep), k)
    decreases |authors|
  {
    if authors != [] {
      AddAllSameStart(a, b, authors[..|authors| - 1], bibcode, keep, k);
    }
  }

  // ---------------------------------------------------------------------
  // _fill_in_coauthors

  /** How `coauthor == name` comes out for each author string: a bool, or the error parsing it raised. */
  type Comparison = string -> Result<bool, NameError>

  /** `coauthor == name` for an author string: the string is parsed, then compared as a name. */
  function NameTest(name: ADSName, parse: string -> Result<ADSName, NameError>): Comparison {
    c => match parse(c)
         case Ok(n) => Ok(Equals(name, n))
         case Err(e) => Err(e)
  }

  /** The strings the comparison finds equal. */
  function Holds(same: Comparison): string -> bool {
    c => same(c) == Ok(true)
  }

  /** Every author string of `authors` can be compared. */
  predicate Compares(authors: seq<string>, same: Comparison) {
    forall j :: 0 <= j < |authors| ==> same(authors[j]).Ok?
  }

  predicate DocCompares(d: RecordData, same: Comparison) {
    Compares(d.authors, same)
  }

  predicate AllCompare(docs: seq<RecordData>, same: Comparison) {
    forall i :: 0 <= i < |docs| ==> DocCompares(docs[i], same)
  }

  /** Every author string goes into `coauthors`. */
  function Everyone(): string -> bool {
    c => true
  }

  /** One author's turn of the inner loop. */
  method AddAuthor(co: Index, ap: Index, c: string, bibcode: string, same: Comparison)
    returns (r: Result<(Index, Index), NameError>)
    ensures r.Ok? <==> same(c).Ok?
    ensures r.Err? ==> same(c) == Err(r.error)
    ensures r.Ok? ==> r.value.0 == co[c := Get(co, c) + [bibcode]]
    ensures r.Ok? ==> r.value.1 == if Holds(same)(c) then ap[c := Get(ap, c) + [bibcode]] else ap
  {
    var c2 := co[c := Get(co, c) + [bibcode]];
    var eq := same(c);
    if eq.Err? {
      return Err(eq.error);
    }
    if eq.value {
      r := Ok((c2, ap[c := Get(ap, c) + [bibcode]]));
    } else {
      r := Ok((c2, ap));
    }
  }

  /** One document's turn of the outer loop: its authors added to both indexes. */
  method AddDocument(co: Index, ap: Index, authors: seq<string>, bibcode: string, same: Comparison)
    returns (r: Result<(Index, Index), NameError>)
    ensures r.Ok? <==> Compares(authors, same)
    ensures r.Ok? ==> r.value == (AddAll(co, authors, bibcode, Everyone()), AddAll(ap, authors, bibcode, Holds(same)))
    ensures r.Err? ==> exists j :: 0 <= j < |authors| && same(authors[j]) == Err(r.error)
  {
    var c2 := co;
    var a2 := ap;
    for j := 0 to |authors|
      invariant Compares(authors[..j], same)
      invariant c2 == AddAll(co, authors[..j], bibcode, Everyone())
      invariant a2 == AddAll(ap, authors[..j], bibcode, Holds(same))
    {
      AddAllNext(co, authors, j, bibcode, Everyone());
      AddAllNext(ap, authors, j, bibcode, Holds(same));
      var step := AddAuthor(c2, a2, authors[j], bibcode, same);
      if step.Err? {
        assert same(authors[j]) == Err(step.error);
        return Err(step.error);
      }
      ComparesNext(authors, j, same);
      c2, a2 := step.value.0, step.value.1;
    }
    TakeAll(authors);
    r := Ok((c2, a2));
  }

  lemma ComparesNext(authors: seq<string>, j: nat, same: Comparison)
    requires j < |authors| && Compares(authors[..j], same) && same(authors[j]).Ok?
    ensures Compares(authors[..j + 1], same)
  {
    assert forall l :: 0 <= l < j ==> authors[..j + 1][l] == authors[..j][l];
  }

  /** One more author added. */
  lemma AddAllNext(index: Index, authors: seq<string>, j: nat, bibcode: string, keep: string -> bool)
    requires j < |authors|
    ensures AddAll(index, authors[..j + 1], bibcode, keep) ==
            var prev := AddAll(index, authors[..j], bibcode, keep);
            if keep(authors[j]) then prev[authors[j] := Get(prev, authors[j]) + [bibcode]] else prev
  {
    assert authors[..j + 1][..j] == authors[..j];
  }

  lemma TakeNext<T>(s: seq<T>, i: nat)
    requires i < |s|
    ensures s[..i + 1][..i] == s[..i] && s[..i + 1][i] == s[i]
  {
  }

  lemma TakeAll<T>(s: seq<T>)
    ensures s[..|s|] == s
  {
  }

  /** The two loops of `_fill_in_coauthors`: both indexes, or the first comparison that raised. */
  method BuildIndexes(docs: seq<RecordData>, same: Comparison) returns (r: Result<(Index, Index), NameError>)
    ensures r.Ok? <==> AllCompare(docs, same)
    ensures r.Ok? ==> r.value == (IndexFor(docs, Everyone()), IndexFor(docs, Holds(same)))
    ensures r.Err? ==> exists i, j :: 0 <= i < |docs| && 0 <= j < |docs[i].authors| && same(docs[i].authors[j]) == Err(r.error)
  {
    var co: Index := map[];
    var ap: Index := map[];
    for i := 0 to |docs|
      invariant AllCompare(docs[..i], same)
      invariant co == IndexFor(docs[..i], Everyone())
      invariant ap == IndexFor(docs[..i], Holds(same))
    {
      var d := docs[i];
      IndexNext(docs, i, Everyone());
      IndexNext(docs, i, Holds(same));
      var step := AddDocument(co, ap, d.authors, d.bibcode, same);
      if step.Err? {
        ErrorAt(docs, i, same, step.error);
        return Err(step.error);
      }
      AllCompareNext(docs, i, same);
      co, ap := step.value.0, step.value.1;
    }
    TakeAll(docs);
    r := Ok((co, ap));
  }

  /** One more document added. */
  lemma IndexNext(docs: seq<RecordData>, i: nat, keep: string -> bool)
    requires i < |docs|
    ensures IndexFor(docs[..i + 1], keep) == AddAll(IndexFor(docs[..i], keep), docs[i].authors, docs[i].bibcode, keep)
  {
    assert docs[..i + 1][..i] == docs[..i];
  }

  lemma AllCompareNext(docs: seq<RecordData>, i: nat, same: Comparison)
    requires i < |docs| && AllCompare(docs[..i], same) && DocCompares(docs[i], same)
    ensures AllCompare(docs[..i + 1], same)
  {
    assert forall l :: 0 <= l < i ==> docs[..i + 1][l] == docs[..i][l];
  }

  lemma ErrorAt(docs: seq<RecordData>, i: nat, same: Comparison, e: NameError)
    requires i < |docs| && exists j :: 0 <= j < |docs[i].authors| && same(docs[i].authors[j]) == Err(e)
    ensures !AllCompare(docs, same)
    ensures exists i, j :: 0 <= i < |docs| && 0 <= j < |docs[i].authors| && same(docs[i].authors[j]) == Err(e)
  {
  }

  /**
   * `_fill_in_coauthors`: `coauthors` gets every author string on the
   * documents, `appearsAs` only those equal to the record's name.  A
   * string that does not parse raises before either field is assigned.
   */
  method FillInCoauthors(rec: AuthorRecord, docs: seq<RecordData>, parse: string -> Result<ADSName, NameError>)
    returns (r: Result<(), NameError>)
    modifies rec
    ensures r.Ok? <==> AllCompare(docs, NameTest(old(rec.name), parse))
    ensures r.Err? ==> rec.Data() == old(rec.Data())
    ensures r.Ok? ==> rec.Data() == old(rec.Data()).(coauthors := Sorted(IndexFor(docs, Everyone())),
                                                     appearsAs := Sorted(IndexFor(docs, Holds(NameTest(old(rec.name), parse)))))
  {
    var built := BuildIndexes(docs, NameTest(rec.name, parse));
    if built.Err? {
      return Err(built.error);
    }
    rec.coauthors := Sorted(built.value.0);
    rec.appearsAs := Sorted(built.value.1);
    r := Ok(());
  }

  /** The comparison raises exactly for the strings that do not parse, and otherwise compares the parsed names. */
  lemma NameTestMeaning(name: ADSName, parse: string -> Result<ADSName, NameError>, c: string)
    ensures NameTest(name, parse)(c).Ok? <==> parse(c).Ok?
    ensures parse(c).Err? ==> NameTest(name, parse)(c) == Err(parse(c).error)
    ensures Holds(NameTest(name, parse))(c) <==> parse(c).Ok? && Equals(name, parse(c).value)
  {
  }

  /**
   * What a filled-in record holds: a `coauthors` key for exactly the author
   * strings on its documents, an `appearsAs` key for exactly those the
   * comparison finds equal to its name, and under each the bibcodes of the
   * documents listing it, sorted.
   */
  lemma FilledMeaning(docs: seq<RecordData>, same: Comparison, k: string)
    ensures k in Sorted(IndexFor(docs, Everyone())) <==> Listed(docs, k)
    ensures k in Sorted(IndexFor(docs, Everyone())) ==> Elements(Sorted(IndexFor(docs, Everyone()))[k]) == Listing(docs, k)
    ensures k in Sorted(IndexFor(docs, Holds(same))) <==> same(k) == Ok(true) && Listed(docs, k)
    ensures k in Sorted(IndexFor(docs, Holds(same))) ==> Elements(Sorted(IndexFor(docs, Holds(same)))[k]) == Listing(docs, k)
  {
    IndexMeaning(docs, Everyone(), k);
    IndexMeaning(docs, Holds(same), k);
  }

  /** `appearsAs` is `coauthors` cut down to the record's own spellings: each list is the same one. */
  lemma AppearsWithin(docs: seq<RecordData>, same: Comparison, k: string)
    requires k in Sorted(IndexFor(docs, Holds(same)))
    ensures k in Sorted(IndexFor(docs, Everyone()))
    ensures Sorted(IndexFor(docs, Holds(same)))[k] == Sorted(IndexFor(docs, Everyone()))[k]
  {
    var i1 := IndexFor(docs, Holds(same));
    var i2 := IndexFor(docs, Everyone());
    IndexMeaning(docs, Holds(same), k);
    IndexKey(docs, Holds(same), Everyone(), k);
    assert i1[k] == i2[k];
  }

  // ---------------------------------------------------------------------
  // notify_of_upcoming_author_request

  /** The name has a modifier character in front (`=`, `<` or `>`). */
  predicate Modified(a: ADSName) {
    a.exact || a.excludeMoreSpecific || a.excludeLessSpecific
  }

  /** `[ADSName.parse(a) for a in authors]`: the first name that does not parse raises. */
  function ParseAll(authors: seq<string>, parse: string -> Result<ADSName, NameError>): (r: Result<seq<ADSName>, NameError>)
    ensures r.Ok? <==> forall i :: 0 <= i < |authors| ==> parse(authors[i]).Ok?
    ensures r.Ok? ==> |r.value| == |authors| && forall i :: 0 <= i < |authors| ==> r.value[i] == parse(authors[i]).value
    ensures r.Err? ==> exists i :: 0 <= i < |authors| && parse(authors[i]) == Err(r.error)
  {
    if authors == [] then Ok([])
    else
      var h :- parse(authors[0]);
      var t :- ParseAll(authors[1..], parse);
      assert forall i :: 1 <= i < |authors| ==> authors[i] == authors[1..][i - 1];
      Ok([h] + t)
  }

  /** `[a for a, f in zip(xs, flags) if not f]`. */
  function Unflagged<T>(xs: seq<T>, flags: seq<bool>): (r: seq<T>)
    ensures |r| <= |xs|
    decreases |xs|
  {
    if xs == [] || flags == [] then []
    else (if flags[0] then [] else [xs[0]]) + Unflagged(xs[1..], flags[1..])
  }

  /** The elements of `xs` that `p` accepts, in order. */
  function Keep<T(!new)>(xs: seq<T>, p: T -> bool): (r: seq<T>)
    ensures forall x :: x in r <==> x in xs && p(x)
    ensures |r| <= |xs|
    decreases |xs|
  {
    if xs == [] then []
    else
      assert forall x :: x in xs <==> x == xs[0] || x in xs[1..];
      (if p(xs[0]) then [xs[0]] else []) + Keep(xs[1..], p)
  }

  /** The author is in the cache under its own name. */
  function InCache(cached: string -> bool): ADSName -> bool {
    a => cached(Str(a))
  }

  /** `_can_generate_author_requests`: a modified name whose full (unmodified) name is cached. */
  function Generatable(cached: string -> bool): ADSName -> bool {
    a => cached(FullName(a)) && Modified(a)
  }

  /** Worth a prefetch from ADS: neither cached nor generatable from the cache. */
  function Wanted(cached: string -> bool): ADSName -> bool {
    a => !InCache(cached)(a) && !Generatable(cached)(a)
  }

  /**
   * `notify_of_upcoming_author_request`: the names it hands to the prefetch queue, at most one
   * per announced author; it raises on the first author that does not parse.
   */
  function Notify(authors: seq<string>, parse: string -> Result<ADSName, NameError>, cached: string -> bool): (r: Result<seq<ADSName>, NameError>)
    ensures r.Ok? <==> forall i :: 0 <= i < |authors| ==> parse(authors[i]).Ok?
    ensures r.Ok? ==> |r.value| <= |authors|
    ensures r.Err? ==> exists i :: 0 <= i < |authors| && parse(authors[i]) == Err(r.error)
  {
    var names :- ParseAll(authors, parse);
    var inCache := seq(|names|, i requires 0 <= i < |names| => InCache(cached)(names[i]));
    var left := Unflagged(names, inCache);
    var canGenerate := seq(|left|, i requires 0 <= i < |left| => Generatable(cached)(left[i]));
    Ok(Unflagged(left, canGenerate))
  }

  /** Dropping the flagged elements of a list drops exactly those `p` rejects, when the flags are `!p`. */
  lemma {:induction false} UnflaggedKeeps<T(!new)>(xs: seq<T>, flags: seq<bool>, p: T -> bool)
    requires |flags| == |xs| && forall i :: 0 <= i < |xs| ==> flags[i] == !p(xs[i])
    ensures Unflagged(xs, flags) == Keep(xs, p)
    decreases |xs|
  {
    if xs != [] {
      assert forall i :: 0 <= i < |xs| - 1 ==> flags[1..][i] == !p(xs[1..][i]);
      UnflaggedKeeps(xs[1..], flags[1..], p);
    }
  }

  lemma {:induction false} KeepTwice<T(!new)>(xs: seq<T>, p: T -> bool, q: T -> bool, pq: T -> bool)
    requires forall x :: pq(x) == (p(x) && q(x))
    ensures Keep(Keep(xs, p), q) == Keep(xs, pq)
    decreases |xs|
  {
    if xs != [] {
      KeepTwice(xs[1..], p, q, pq);
      var l := Keep(xs, p);
      if p(xs[0]) {
        assert l == [xs[0]] + Keep(xs[1..], p);
        assert l[1..] == Keep(xs[1..], p);
        assert Keep(l, q) == (if q(l[0]) then [l[0]] else []) + Keep(l[1..], q);
      } else {
        assert l == Keep(xs[1..], p);
      }
    }
  }

  /**
   * The prefetch queue gets exactly the announced names, in order, that are
   * neither cached nor generatable from the cache; a name that does not
   * parse raises first.
   */
  lemma NotifyMeaning(authors: seq<string>, parse: string -> Result<ADSName, NameError>, cached: string -> bool)
    ensures Notify(authors, parse, cached).Ok? <==> forall i :: 0 <= i < |authors| ==> parse(authors[i]).Ok?
    ensures Notify(authors, parse, cached).Ok? ==>
              Notify(authors, parse, cached).value == Keep(ParseAll(authors, parse).value, Wanted(cached))
  {
    var pr := ParseAll(authors, parse);
    if pr.Ok? {
      var names := pr.value;
      var notCached := (a: ADSName) => !InCache(cached)(a);
      var notGen := (a: ADSName) => !Generatable(cached)(a);
      var inCache := seq(|names|, i requires 0 <= i < |names| => InCache(cached)(names[i]));
      UnflaggedKeeps(names, inCache, notCached);
      var left := Unflagged(names, inCache);
      var canGenerate := seq(|left|, i requires 0 <= i < |left| => Generatable(cached)(left[i]));
      UnflaggedKeeps(left, canGenerate, notGen);
      KeepTwice(names, notCached, notGen, Wanted(cached));
    }
  }
}
