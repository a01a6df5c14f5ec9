/**
 * The repository of the later version (appa/repository.py).  Its coauthor
 * index splits the names on the documents in two: spellings of the
 * record's own name go into `appearsAs`, every other name into
 * `coauthors`.  It also builds a record for a modified name (`=Doe, J.`,
 * `<Doe, J.`, `>Doe, J.`) from the cached record of the plain name.
 * Records fetched from ADS, by name or by ORCID id, are cached only when
 * they hold documents; a record built from the plain name's record is
 * cached whatever it holds.
 *
 * The cache lookups are the given functions `loadAuthor` (by cache key)
 * and `loadDocuments` (by bibcodes), `None` standing for `CacheMiss`;
 * `ADSName.parse` is the given function `parse`.
 */
module AppaRepository {

  import opened Wrappers
  import opened PyStr
  import opened AdsName
  import opened DocumentRecords
  import opened AuthorRecords
  import opened Repository

  /** The strings the comparison finds different. */
  function Differs(same: Comparison): string -> bool {
    c => same(c) == Ok(false)
  }

  // ---------------------------------------------------------------------
  // _fill_in_coauthors

  /** One author's turn of the inner loop: into `appearsAs` when equal, else into `coauthors`. */
  method AddAuthor(co: Index, ap: Index, c: string, bibcode: string, same: Comparison)
    returns (r: Result<(Index, Index), NameError>)
    ensures r.Ok? <==> same(c).Ok?
    ensures r.Err? ==> same(c) == Err(r.error)
    ensures r.Ok? ==> r.value.0 == if Differs(same)(c) then co[c := Get(co, c) + [bibcode]] else co
    ensures r.Ok? ==> r.value.1 == if Holds(same)(c) then ap[c := Get(ap, c) + [bibcode]] else ap
  {
    var eq := same(c);
    if eq.Err? {
      return Err(eq.error);
    }
    if eq.value {
      r := Ok((co, ap[c := Get(ap, c) + [bibcode]]));
    } else {
      r := Ok((co[c := Get(co, c) + [bibcode]], ap));
    }
  }

  /** One document's turn of the outer loop. */
  method AddDocument(co: Index, ap: Index, authors: seq<string>, bibcode: string, same: Comparison)
    returns (r: Result<(Index, Index), NameError>)
    ensures r.Ok? <==> Compares(authors, same)
    ensures r.Ok? ==> r.value == (AddAll(co, authors, bibcode, Differs(same)), AddAll(ap, authors, bibcode, Holds(same)))
    ensures r.Err? ==> exists j :: 0 <= j < |authors| && same(authors[j]) == Err(r.error)
  {
    var c2 := co;
    var a2 := ap;
    for j := 0 to |authors|
      invariant Compares(authors[..j], same)
      invariant c2 == AddAll(co, authors[..j], bibcode, Differs(same))
      invariant a2 == AddAll(ap, authors[..j], bibcode, Holds(same))
    {
      AddAllNext(co, authors, j, bibcode, Differs(same));
      AddAllNext(ap, authors, j, bibcode, Holds(same));
      var step := AddAuthor(c2, a2, authors[j], bibcode, same);
      if step.Err? {
        assert same(authors[j]) == Err(step.error);
        return Err(step.error);
      }
      ComparesNext(authors, j, same);
      c2, a2 := step.value.0, step.value.1;
    }
    TakeAll(authors);
    r := Ok((c2, a2));
  }

  /** The two loops of `_fill_in_coauthors`. */
  method BuildIndexes(docs: seq<RecordData>, same: Comparison) returns (r: Result<(Index, Index), NameError>)
    ensures r.Ok? <==> AllCompare(docs, same)
    ensures r.Ok? ==> r.value == (IndexFor(docs, Differs(same)), IndexFor(docs, Holds(same)))
    ensures r.Err? ==> exists i, j :: 0 <= i < |docs| && 0 <= j < |docs[i].authors| && same(docs[i].authors[j]) == Err(r.error)
  {
    var co: Index := map[];
    var ap: Index := map[];
    for i := 0 to |docs|
      invariant AllCompare(docs[..i], same)
      invariant co == IndexFor(docs[..i], Differs(same))
      invariant ap == IndexFor(docs[..i], Holds(same))
    {
      var d := docs[i];
      IndexNext(docs, i, Differs(same));
      IndexNext(docs, i, Holds(same));
      var step := AddDocument(co, ap, d.authors, d.bibcode, same);
      if step.Err? {
        ErrorAt(docs, i, same, step.error);
        return Err(step.error);
      }
      AllCompareNext(docs, i, same);
      co, ap := step.value.0, step.value.1;
    }
    TakeAll(docs);
    r := Ok((co, ap));
  }

  /** `_fill_in_coauthors`: the record's own spellings to `appearsAs`, all other names to `coauthors`. */
  method FillInCoauthors(rec: AuthorRecord, docs: seq<RecordData>, parse: string -> Result<ADSName, NameError>)
    returns (r: Result<(), NameError>)
    modifies rec
    ensures r.Ok? <==> AllCompare(docs, NameTest(old(rec.name), parse))
    ensures r.Err? ==> rec.Data() == old(rec.Data())
    ensures r.Ok? ==> rec.Data() == old(rec.Data()).(coauthors := Sorted(IndexFor(docs, Differs(NameTest(old(rec.name), parse)))),
                                                     appearsAs := Sorted(IndexFor(docs, Holds(NameTest(old(rec.name), parse)))))
  {
    var built := BuildIndexes(docs, NameTest(rec.name, parse));
    if built.Err? {
      return Err(built.error);
    }
    rec.coauthors := Sorted(built.value.0);
    rec.appearsAs := Sorted(built.value.1);
    r := Ok(());
  }

  /**
   * The two indexes split the names on the documents: no name is in both,
   * and when every name compares, each name on a document is in one of them,
   * under the bibcodes of the documents that list it.
   */
  lemma IndexesSplit(docs: seq<RecordData>, same: Comparison, k: string)
    ensures !(k in IndexFor(docs, Differs(same)) && k in IndexFor(docs, Holds(same)))
    ensures AllCompare(docs, same) ==>
              (Listed(docs, k) <==> k in IndexFor(docs, Differs(same)) || k in IndexFor(docs, Holds(same)))
    ensures k in IndexFor(docs, Differs(same)) ==> Elements(IndexFor(docs, Differs(same))[k]) == Listing(docs, k)
    ensures k in IndexFor(docs, Holds(same)) ==> Elements(IndexFor(docs, Holds(same))[k]) == Listing(docs, k)
  {
    IndexMeaning(docs, Differs(same), k);
    IndexMeaning(docs, Holds(same), k);
    if AllCompare(docs, same) && Listed(docs, k) {
      var i :| 0 <= i < |docs| && k in docs[i].authors;
      var j :| 0 <= j < |docs[i].authors| && docs[i].authors[j] == k;
      assert DocCompares(docs[i], same);
      assert same(docs[i].authors[j]).Ok?;
      var b := same(k).value;
      assert same(k) == Ok(b);
    }
  }

  // ---------------------------------------------------------------------
  // _try_generating_author_record

  /** Why generating a record raised: a cache miss on the selected documents, or a name that does not parse. */
  datatype GenError = Miss | BadName

  /** The inner loop: scan for the first author equal to the name, and stop there. */
  function FirstEqual(authors: seq<string>, same: Comparison): Result<bool, NameError>
    decreases |authors|
  {
    if authors == [] then Ok(false)
    else match same(authors[0])
      case Err(e) => Err(e)
      case Ok(b) => if b then Ok(true) else FirstEqual(authors[1..], same)
  }

  /**
   * The scan finds an equal author exactly when some author before every
   * failing one is equal; it reports `false` only when every author compares
   * and none is equal.
   */
  lemma {:induction false} FirstEqualMeaning(authors: seq<string>, same: Comparison)
    ensures FirstEqual(authors, same) == Ok(true) ==>
              exists j :: 0 <= j < |authors| && same(authors[j]) == Ok(true) && forall l :: 0 <= l < j ==> same(authors[l]) == Ok(false)
    ensures FirstEqual(authors, same) == Ok(false) ==> forall j :: 0 <= j < |authors| ==> same(authors[j]) == Ok(false)
    ensures FirstEqual(authors, same).Err? ==>
              exists j :: 0 <= j < |authors| && same(authors[j]).Err? && forall l :: 0 <= l < j ==> same(authors[l]) == Ok(false)
    decreases |authors|
  {
    if authors != [] && same(authors[0]) == Ok(false) {
      var t := authors[1..];
      FirstEqualMeaning(t, same);
      assert forall l :: 0 <= l < |t| ==> t[l] == authors[l + 1];
      if FirstEqual(t, same) == Ok(true) {
        var j :| 0 <= j < |t| && same(t[j]) == Ok(true) && forall l :: 0 <= l < j ==> same(t[l]) == Ok(false);
        assert same(authors[j + 1]) == Ok(true);
      } else if FirstEqual(t, same).Err? {
        var j :| 0 <= j < |t| && same(t[j]).Err? && forall l :: 0 <= l < j ==> same(t[l]) == Ok(false);
        assert same(authors[j + 1]).Err?;
      }
    }
  }

  /** When every author compares, the scan tells whether some author is equal. */
  lemma {:induction false} FirstEqualCompares(authors: seq<string>, same: Comparison)
    requires Compares(authors, same)
    ensures FirstEqual(authors, same) == Ok(exists j :: 0 <= j < |authors| && same(authors[j]) == Ok(true))
    decreases |authors|
  {
    if authors != [] {
      var t := authors[1..];
      assert forall l :: 0 <= l < |t| ==> t[l] == authors[l + 1];
      assert same(authors[0]).Ok?;
      var b := same(authors[0]).value;
      assert same(authors[0]) == Ok(b);
      if !b {
        FirstEqualCompares(t, same);
        if exists j :: 0 <= j < |authors| && same(authors[j]) == Ok(true) {
          var j :| 0 <= j < |authors| && same(authors[j]) == Ok(true);
          assert same(t[j - 1]) == Ok(true);
        }
      }
    }
  }

  /** `FirstEqual`'s loop, with its `break`. */
  method FindFirst(authors: seq<string>, same: Comparison) returns (r: Result<bool, NameError>)
    ensures r == FirstEqual(authors, same)
  {
    var j := 0;
    while j < |authors|
      invariant 0 <= j <= |authors|
      invariant FirstEqual(authors, same) == FirstEqual(authors[j..], same)
      decreases |authors| - j
    {
      var eq := same(authors[j]);
      assert authors[j..][0] == authors[j] && authors[j..][1..] == authors[j + 1..];
      if eq.Err? {
        return Err(eq.error);
      }
      if eq.value {
        return Ok(true);
      }
      j := j + 1;
    }
    r := Ok(false);
  }

  /** The outer loop: the bibcodes of the documents where the scan finds the name, in order. */
  function Selected(docs: seq<RecordData>, same: Comparison): Result<seq<string>, NameError>
    decreases |docs|
  {
    if docs == [] then Ok([])
    else
      var prev :- Selected(docs[..|docs| - 1], same);
      var d := docs[|docs| - 1];
      var hit :- FirstEqual(d.authors, same);
      Ok(if hit then prev + [d.bibcode] else prev)
  }

  lemma SelectedNext(docs: seq<RecordData>, i: nat, same: Comparison)
    requires i < |docs|
    ensures Selected(docs[..i + 1], same) ==
            match Selected(docs[..i], same)
            case Err(e) => Err(e)
            case Ok(prev) =>
              match FirstEqual(docs[i].authors, same)
              case Err(e) => Err(e)
              case Ok(hit) => Ok(if hit then prev + [docs[i].bibcode] else prev)
  {
    assert docs[..i + 1][..i] == docs[..i];
  }

  lemma {:induction false} SelectedPrefixErr(docs: seq<RecordData>, j: nat, same: Comparison)
    requires j <= |docs| && Selected(docs[..j], same).Err?
    ensures Selected(docs, same) == Selected(docs[..j], same)
    decreases |docs| - j
  {
    if j < |docs| {
      SelectedNext(docs, j, same);
      SelectedPrefixErr(docs, j + 1, same);
    } else {
      assert docs[..j] == docs;
    }
  }

  /** The search through the cached documents. */
  method SelectDocuments(docs: seq<RecordData>, same: Comparison) returns (r: Result<seq<string>, NameError>)
    ensures r == Selected(docs, same)
  {
    var selected: seq<string> := [];
    for i := 0 to |docs|
      invariant Selected(docs[..i], same) == Ok(selected)
    {
      SelectedNext(docs, i, same);
      var hit := FindFirst(docs[i].authors, same);
      if hit.Err? {
        SelectedPrefixErr(docs, i + 1, same);
        return Err(hit.error);
      }
      if hit.value {
        selected := selected + [docs[i].bibcode];
      }
    }
    TakeAll(docs);
    r := Ok(selected);
  }

  /** Some author of the document equals the name. */
  function ListsEqual(same: Comparison): RecordData -> bool {
    (d: RecordData) => exists j :: 0 <= j < |d.authors| && same(d.authors[j]) == Ok(true)
  }

  /** The bibcodes of the documents `p` accepts, in order. */
  function KeptBibcodes(docs: seq<RecordData>, p: RecordData -> bool): (r: seq<string>)
    ensures |r| <= |docs|
    ensures forall x :: x in r <==> exists i :: 0 <= i < |docs| && p(docs[i]) && docs[i].bibcode == x
    decreases |docs|
  {
    if docs == [] then []
    else
      var init := docs[..|docs| - 1];
      var d := docs[|docs| - 1];
      var prev := KeptBibcodes(init, p);
      assert forall i :: 0 <= i < |init| ==> init[i] == docs[i];
      prev + (if p(d) then [d.bibcode] else [])
  }

  /**
   * When every author compares, the search keeps exactly the documents
   * that list an author equal to the name, in order.
   */
  lemma {:induction false} SelectedMeaning(docs: seq<RecordData>, same: Comparison)
    requires AllCompare(docs, same)
    ensures Selected(docs, same) == Ok(KeptBibcodes(docs, ListsEqual(same)))
    decreases |docs|
  {
    if docs != [] {
      var init := docs[..|docs| - 1];
      var d := docs[|docs| - 1];
      assert AllCompare(init, same) by {
        assert forall i :: 0 <= i < |init| ==> init[i] == docs[i];
      }
      SelectedMeaning(init, same);
      assert DocCompares(d, same);
      FirstEqualCompares(d.authors, same);
      assert FirstEqual(d.authors, same) == Ok(ListsEqual(same)(d));
      var prev := KeptBibcodes(init, ListsEqual(same));
      assert prev + [] == prev;
    }
  }

  /**
   * `_try_generating_author_record`, as a value: a record is generated only for a modified name
   * whose plain name's record is cached, and it carries the modified name and the time `now`.
   */
  function Generated(author: ADSName, loadAuthor: string -> Option<AuthorData>, loadDocuments: seq<string> -> Option<seq<RecordData>>,
                     parse: string -> Result<ADSName, NameError>, now: int): (r: Result<Option<AuthorData>, GenError>)
    ensures !Modified(author) ==> r == Ok(None)
    ensures r.Ok? && r.value.Some? ==>
              Modified(author) && loadAuthor(FullName(author)).Some? &&
              r.value.value.name == author && r.value.value.timestamp == now
  {
    var same := NameTest(author, parse);
    if !Modified(author) then Ok(None)
    else match loadAuthor(FullName(author))
      case None => Ok(None)
      case Some(full) =>
        match loadDocuments(full.documents)
        case None => Ok(None)
        case Some(docs) =>
          match Selected(docs, same)
          case Err(_) => Err(BadName)
          case Ok(selected) =>
            match loadDocuments(selected)
            case None => Err(Miss)
            case Some(found) =>
              if !AllCompare(found, same) then Err(BadName)
              else Ok(Some(AuthorData(author, selected, Sorted(IndexFor(found, Differs(same))),
                                      Sorted(IndexFor(found, Holds(same))), now)))
  }

  /**
   * `_try_generating_author_record`: nothing for a name without a modifier
   * or when the plain name's record or its documents are not cached;
   * otherwise a new record, stamped `now`, holding the documents that list
   * an author equal to the modified name, with its coauthor index filled in.
   */
  method TryGenerate(author: ADSName, loadAuthor: string -> Option<AuthorData>, loadDocuments: seq<string> -> Option<seq<RecordData>>,
                     parse: string -> Result<ADSName, NameError>, now: int)
    returns (r: Result<Option<AuthorData>, GenError>)
    ensures r == Generated(author, loadAuthor, loadDocuments, parse, now)
  {
    if !Modified(author) {
      return Ok(None);
    }
    var full := loadAuthor(FullName(author));
    if full.None? {
      return Ok(None);
    }
    var docs := loadDocuments(full.value.documents);
    if docs.None? {
      return Ok(None);
    }
    var selected := SelectDocuments(docs.value, NameTest(author, parse));
    if selected.Err? {
      return Err(BadName);
    }
    var rec := new AuthorRecord(author, selected.value, now);
    var found := loadDocuments(rec.documents);
    if found.None? {
      return Err(Miss);
    }
    var filled := FillInCoauthors(rec, found.value, parse);
    if filled.Err? {
      return Err(BadName);
    }
    r := Ok(Some(rec.Data()));
  }

  /**
   * A generated record exists only for a modified name whose plain record
   * and documents are cached; it has the modified name, and when every
   * author on those documents parses, its documents are exactly the ones
   * listing an author equal to the modified name.
   */
  lemma GeneratedMeaning(author: ADSName, loadAuthor: string -> Option<AuthorData>, loadDocuments: seq<string> -> Option<seq<RecordData>>,
                         parse: string -> Result<ADSName, NameError>, now: int)
    ensures !Modified(author) ==> Generated(author, loadAuthor, loadDocuments, parse, now) == Ok(None)
    ensures Generated(author, loadAuthor, loadDocuments, parse, now).Ok? &&
            Generated(author, loadAuthor, loadDocuments, parse, now).value.Some? ==>
              var a := Generated(author, loadAuthor, loadDocuments, parse, now).value.value;
              && Modified(author) && a.name == author && a.timestamp == now
              && loadAuthor(FullName(author)).Some?
              && loadDocuments(loadAuthor(FullName(author)).value.documents).Some?
              && var docs := loadDocuments(loadAuthor(FullName(author)).value.documents).value;
                 AllCompare(docs, NameTest(author, parse)) ==>
                   a.documents == KeptBibcodes(docs, ListsEqual(NameTest(author, parse)))
  {
    var g := Generated(author, loadAuthor, loadDocuments, parse, now);
    if g.Ok? && g.value.Some? {
      var docs := loadDocuments(loadAuthor(FullName(author)).value.documents).value;
      if AllCompare(docs, NameTest(author, parse)) {
        SelectedMeaning(docs, NameTest(author, parse));
      }
    }
  }

  // ---------------------------------------------------------------------
  // The caching guards of get_author_record and get_author_record_by_orcid_id

  /** Only records with at least one document are cached, and all of those are, in order. */
  function WorthCaching(recs: seq<AuthorData>): (r: seq<AuthorData>)
    ensures forall a :: a in r <==> a in recs && |a.documents| > 0
    ensures |r| <= |recs|
  {
    Keep(recs, (a: AuthorData) => |a.documents| > 0)
  }
}
