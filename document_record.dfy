/**
 * Document records and their compressed cache form
 * (appa/records/document_record.py).
 *
 * A record keeps four lists in parallel, one entry per author: the author
 * strings, their affiliations, their ORCID ids and the source of each id
 * (0 for none).  Before caching, trailing empty affiliations and ORCID ids
 * are cut off and the sources are written as one comma-separated string;
 * decompressing parses that string back and pads the lists again.
 */
module DocumentRecords {

  import opened Wrappers
  import opened PyStr

  /** `orcid_id_src`: a list of ints, or the comma string it is compressed to. */
  datatype Sources = SrcList(list: seq<int>) | SrcText(text: string)

  /** The fields of a record, as `asdict` returns them. */
  datatype RecordData = RecordData(
    bibcode: string,
    title: string,
    authors: seq<string>,
    affils: seq<string>,
    doctype: string,
    keywords: seq<string>,
    publication: string,
    pubdate: string,
    citationCount: int,
    readCount: int,
    orcidIds: seq<string>,
    orcidIdSrc: Sources,
    timestamp: int)

  /**
   * A record's `asdict()` once a caller has deleted keys from it: the bibcode always, and the
   * timestamp unless `keepStamp` holds; a deleted timestamp is `None`.
   */
  datatype DocFields = DocFields(
    title: string,
    authors: seq<string>,
    affils: seq<string>,
    doctype: string,
    keywords: seq<string>,
    publication: string,
    pubdate: string,
    citationCount: int,
    readCount: int,
    orcidIds: seq<string>,
    orcidIdSrc: Sources,
    timestamp: Option<int>)

  function Fields(d: RecordData, keepStamp: bool): DocFields {
    DocFields(d.title, d.authors, d.affils, d.doctype, d.keywords, d.publication, d.pubdate,
              d.citationCount, d.readCount, d.orcidIds, d.orcidIdSrc,
              if keepStamp then Some(d.timestamp) else None)
  }

  /**
   * Deleting keys loses exactly those keys: two records give the same fields if and only if they
   * differ in the deleted keys alone, and the timestamp is present if and only if it was kept.
   */
  lemma FieldsLoseOnlyDeleted(d1: RecordData, d2: RecordData, keepStamp: bool)
    ensures Fields(d1, keepStamp) == Fields(d2, keepStamp) <==>
            d1.(bibcode := d2.bibcode, timestamp := if keepStamp then d1.timestamp else d2.timestamp) == d2
    ensures Fields(d1, keepStamp).timestamp.Some? <==> keepStamp
    ensures keepStamp ==> Fields(d1, keepStamp).timestamp == Some(d1.timestamp)
  {
  }

  /** The length of `s` once its trailing empty strings are cut off. */
  function TrailingCut(s: seq<string>): (cut: nat)
    ensures cut <= |s|
    ensures forall j :: cut <= j < |s| ==> s[j] == ""
    ensures cut == 0 || s[cut - 1] != ""
  {
    if s == [] then 0
    else if s[|s| - 1] != "" then |s|
    else TrailingCut(s[..|s| - 1])
  }

  function Min(a: nat, b: nat): nat {
    if a <= b then a else b
  }

  /** The `str(c)` pieces that `compress` joins: the first `cut` sources. */
  function SourcePieces(src: Sources, cut: nat): (r: seq<string>)
    ensures forall i :: 0 <= i < |r| ==> ',' !in r[i] || src.SrcText?
  {
    match src
    case SrcList(l) =>
      IntPieces(l[..Min(cut, |l|)])
    case SrcText(t) =>
      var kept := t[..Min(cut, |t|)];
      seq(|kept|, i requires 0 <= i < |kept| => [kept[i]])
  }

  /** `str(c)` for each source. */
  function IntPieces(l: seq<int>): (r: seq<string>)
    ensures |r| == |l|
    ensures forall i :: 0 <= i < |r| ==> r[i] == IntToString(l[i])
  {
    if l == [] then [] else [IntToString(l[0])] + IntPieces(l[1..])
  }

  /** The comma string `compress` stores for a list of sources. */
  function SourcesText(l: seq<int>): string {
    Join(IntPieces(l), ",")
  }

  /** `compress`: cut trailing empties off affils and orcid ids (the sources with the ids), then stringify the sources. */
  function CompressData(d: RecordData): (r: RecordData)
    ensures r.orcidIdSrc.SrcText?
    ensures r.authors == d.authors
    ensures |r.affils| <= |d.affils| && r.affils == d.affils[..|r.affils|]
    ensures forall j :: |r.affils| <= j < |d.affils| ==> d.affils[j] == ""
    ensures |r.orcidIds| <= |d.orcidIds| && r.orcidIds == d.orcidIds[..|r.orcidIds|]
    ensures forall j :: |r.orcidIds| <= j < |d.orcidIds| ==> d.orcidIds[j] == ""
  {
    var cut := TrailingCut(d.orcidIds);
    d.(affils := d.affils[..TrailingCut(d.affils)],
       orcidIds := d.orcidIds[..cut],
       orcidIdSrc := SrcText(Join(SourcePieces(d.orcidIdSrc, cut), ",")))
  }

  /** `int(c)` for each piece; `None` where one raises ValueError. */
  function ParseAll(pieces: seq<string>): (r: Option<seq<int>>)
    ensures r.Some? ==> |r.value| == |pieces|
    ensures r.Some? ==> forall i :: 0 <= i < |pieces| ==> ParseInt(pieces[i]) == Some(r.value[i])
  {
    if pieces == [] then Some([])
    else match (ParseInt(pieces[0]), ParseAll(pieces[1..]))
      case (Some(v), Some(rest)) => Some([v] + rest)
      case _ => None
  }

  /** `s + [fill] * (n - len(s))`: a negative count repeats nothing. */
  function PadTo<T>(s: seq<T>, n: int, fill: T): (r: seq<T>)
    ensures |r| == if n > |s| then n else |s|
    ensures r[..|s|] == s
    ensures forall j :: |s| <= j < |r| ==> r[j] == fill
  {
    s + seq(if n > |s| then n - |s| else 0, _ => fill)
  }

  /** The source list `decompress` reads back; `None` where it raises. */
  function ParseSources(src: Sources): Option<seq<int>> {
    match src
    case SrcText(t) => if |t| > 0 then ParseAll(Split(t, ',')) else Some([])
    case SrcList(l) => if |l| > 0 then None else Some([])   // `len(list)` is non-zero: `.split` raises
  }

  /** `decompress`, or `None` where it raises (the record is then left as it was). */
  function DecompressData(d: RecordData): (r: Option<RecordData>)
    ensures r.Some? ==> r.value.orcidIdSrc.SrcList?
    ensures r.Some? ==> |r.value.affils| >= |d.authors| && |r.value.orcidIds| >= |d.authors|
    ensures r.Some? ==> |r.value.affils| >= |d.affils| && r.value.affils[..|d.affils|] == d.affils
    ensures r.Some? ==> |r.value.orcidIds| >= |d.orcidIds| && r.value.orcidIds[..|d.orcidIds|] == d.orcidIds
    ensures r.Some? <==> ParseSources(d.orcidIdSrc).Some?
    ensures r.Some? ==>
      var parsed := ParseSources(d.orcidIdSrc).value;
      var sources := r.value.orcidIdSrc.list;
      |sources| >= |d.authors| && |sources| >= |parsed| && sources[..|parsed|] == parsed &&
      forall j :: |parsed| <= j < |sources| ==> sources[j] == 0
  {
    match ParseSources(d.orcidIdSrc)
    case None => None
    case Some(l) =>
      var n := |d.authors|;
      Some(d.(affils := PadTo(d.affils, n, ""),
              orcidIds := PadTo(d.orcidIds, n, ""),
              orcidIdSrc := SrcList(PadTo(l, n, 0))))
  }

  function RemoveAt<T>(s: seq<T>, i: nat): (r: seq<T>)
    requires i < |s|
    ensures |r| == |s| - 1
    ensures forall j :: 0 <= j < i ==> r[j] == s[j]
    ensures forall j :: i <= j < |r| ==> r[j] == s[j + 1]
  {
    s[..i] + s[i + 1..]
  }

  /** The four per-author lists have the same length. */
  predicate Parallel(d: RecordData) {
    d.orcidIdSrc.SrcList? &&
    |d.affils| == |d.authors| && |d.orcidIds| == |d.authors| && |d.orcidIdSrc.list| == |d.authors|
  }

  /**
   * Every per-author list reaches at least as far as the author list, so
   * deleting any author position finds an entry in each of them.
   */
  predicate Covers(d: RecordData) {
    d.orcidIdSrc.SrcList? &&
    |d.affils| >= |d.authors| && |d.orcidIds| >= |d.authors| && |d.orcidIdSrc.list| >= |d.authors|
  }

  class DocumentRecord {
    var bibcode: string
    var title: string
    var authors: seq<string>
    var affils: seq<string>
    var doctype: string
    var keywords: seq<string>
    var publication: string
    var pubdate: string
    var citationCount: int
    var readCount: int
    var orcidIds: seq<string>
    var orcidIdSrc: Sources
    var timestamp: int

    /** `asdict`: the fields as a value, so a change to a copy cannot reach this record. */
    function Data(): RecordData
      reads this
    {
      RecordData(bibcode, title, authors, affils, doctype, keywords, publication, pubdate,
                 citationCount, readCount, orcidIds, orcidIdSrc, timestamp)
    }

    /** The dataclass constructor; a timestamp of -1 is replaced by the current time `now`. */
    constructor (d: RecordData, now: int)
      ensures Data() == d.(timestamp := if d.timestamp == -1 then now else d.timestamp)
    {
      bibcode, title, authors, affils := d.bibcode, d.title, d.authors, d.affils;
      doctype, keywords, publication, pubdate := d.doctype, d.keywords, d.publication, d.pubdate;
      citationCount, readCount, orcidIds, orcidIdSrc := d.citationCount, d.readCount, d.orcidIds, d.orcidIdSrc;
      timestamp := if d.timestamp == -1 then now else d.timestamp;
    }

    /** `copy`: a fresh record with equal fields (the constructor runs again, so a timestamp of -1 becomes `now`). */
    method Copy(now: int) returns (r: DocumentRecord)
      ensures fresh(r)
      ensures r.Data() == Data().(timestamp := if timestamp == -1 then now else timestamp)
    {
      r := new DocumentRecord(Data(), now);
    }

    /** `delete_author(i)`: remove entry `i` from all four per-author lists. */
    method DeleteAuthor(i: nat)
      requires orcidIdSrc.SrcList?
      requires i < |authors| && i < |affils| && i < |orcidIds| && i < |orcidIdSrc.list|
      modifies this
      ensures authors == RemoveAt(old(authors), i) && affils == RemoveAt(old(affils), i)
      ensures orcidIds == RemoveAt(old(orcidIds), i)
      ensures orcidIdSrc == SrcList(RemoveAt(old(orcidIdSrc.list), i))
      ensures Data() == old(Data()).(authors := authors, affils := affils, orcidIds := orcidIds, orcidIdSrc := orcidIdSrc)
    {
      authors := RemoveAt(authors, i);
      affils := RemoveAt(affils, i);
      orcidIds := RemoveAt(orcidIds, i);
      orcidIdSrc := SrcList(RemoveAt(orcidIdSrc.list, i));
    }

    /** `compress`, in place. */
    method Compress()
      modifies this
      ensures Data() == CompressData(old(Data()))
    {
      var affilCut := CutTrailingEmpty(affils);
      affils := affils[..affilCut];
      var cut := CutTrailingEmpty(orcidIds);
      orcidIds := orcidIds[..cut];
      orcidIdSrc := SrcText(Join(SourcePieces(orcidIdSrc, cut), ","));
    }

    /** `decompress`, in place; `ok` is false where Python raises, and then nothing has changed. */
    method Decompress() returns (ok: bool)
      modifies this
      ensures ok == DecompressData(old(Data())).Some?
      ensures ok ==> Data() == DecompressData(old(Data())).value
      ensures !ok ==> Data() == old(Data())
    {
      var parsed := ParseSources(orcidIdSrc);
      if parsed.None? {
        return false;
      }
      var n := |authors|;
      affils := PadTo(affils, n, "");
      orcidIds := PadTo(orcidIds, n, "");
      orcidIdSrc := SrcList(PadTo(parsed.value, n, 0));
      ok := true;
    }
  }

  /** `len(s) - [x != '' for x in s][::-1].index(True)`, the scan from the end; 0 when every entry is empty. */
  method CutTrailingEmpty(s: seq<string>) returns (cut: nat)
    ensures cut <= |s|
    ensures forall j :: cut <= j < |s| ==> s[j] == ""
    ensures cut == 0 || s[cut - 1] != ""
    ensures cut == TrailingCut(s)
  {
    cut := |s|;
    while cut > 0 && s[cut - 1] == ""
      invariant 0 <= cut <= |s|
      invariant forall j :: cut <= j < |s| ==> s[j] == ""
      invariant TrailingCut(s) == TrailingCut(s[..cut])
    {
      assert s[..cut][..cut - 1] == s[..cut - 1];
      cut := cut - 1;
    }
    assert s[..cut] == s || cut < |s|;
  }

  // ---------------------------------------------------------------------
  // Properties

  /** Deleting one author keeps the four lists parallel. */
  lemma DeleteKeepsParallel(d: RecordData, i: nat)
    requires Parallel(d) && i < |d.authors|
    ensures Parallel(d.(authors := RemoveAt(d.authors, i), affils := RemoveAt(d.affils, i),
                        orcidIds := RemoveAt(d.orcidIds, i), orcidIdSrc := SrcList(RemoveAt(d.orcidIdSrc.list, i))))
  {
  }

  lemma {:induction false} ParseAllOfInts(l: seq<int>)
    ensures ParseAll(IntPieces(l)) == Some(l)
  {
    if l != [] {
      IntToStringRoundTrip(l[0]);
      ParseAllOfInts(l[1..]);
      assert IntPieces(l)[1..] == IntPieces(l[1..]);
      assert l == [l[0]] + l[1..];
    }
  }

  /** Reading back the comma string of a source list gives the list. */
  lemma SourcesTextRoundTrip(l: seq<int>)
    ensures ParseSources(SrcText(SourcesText(l))) == Some(l)
  {
    var p := IntPieces(l);
    if l == [] {
      assert SourcesText(l) == "";
    } else {
      assert IntToString(l[0]) != [] && p[0] == IntToString(l[0]);
      JoinNonEmpty(p, ",");
      SplitJoin(p, ',');
      ParseAllOfInts(l);
    }
  }

  lemma JoinNonEmpty(xs: seq<string>, sep: string)
    requires xs != [] && xs[0] != []
    ensures Join(xs, sep) != []
  {
  }

  /** A record whose lists are parallel and whose sources are 0 exactly where the id is empty. */
  predicate Consistent(d: RecordData) {
    Parallel(d) &&
    forall i :: 0 <= i < |d.authors| ==> (d.orcidIds[i] == "" <==> d.orcidIdSrc.list[i] == 0)
  }

  /** Padding a prefix back to full length restores a sequence whose tail is all `fill`. */
  lemma PadRestores<T>(s: seq<T>, cut: nat, fill: T)
    requires cut <= |s|
    requires forall j :: cut <= j < |s| ==> s[j] == fill
    ensures PadTo(s[..cut], |s|, fill) == s
  {
    var r := PadTo(s[..cut], |s|, fill);
    assert forall j :: 0 <= j < |s| ==> r[j] == s[j] by {
      forall j | 0 <= j < |s| ensures r[j] == s[j] {
        if j < cut {
          assert r[..cut][j] == s[..cut][j];
        }
      }
    }
  }

  /** The sources `compress` stores read back as the sources of the kept ids. */
  lemma CompressedSources(d: RecordData)
    requires Parallel(d)
    ensures ParseSources(CompressData(d).orcidIdSrc) == Some(d.orcidIdSrc.list[..TrailingCut(d.orcidIds)])
  {
    var cut := TrailingCut(d.orcidIds);
    var l := d.orcidIdSrc.list;
    assert SourcePieces(d.orcidIdSrc, cut) == IntPieces(l[..cut]);
    SourcesTextRoundTrip(l[..cut]);
  }

  /** In a consistent record the sources past the last non-empty id are 0, so padding restores them. */
  lemma SourcesRestored(d: RecordData)
    requires Consistent(d)
    ensures TrailingCut(d.orcidIds) <= |d.orcidIdSrc.list|
    ensures PadTo(d.orcidIdSrc.list[..TrailingCut(d.orcidIds)], |d.authors|, 0) == d.orcidIdSrc.list
  {
    PadRestores(d.orcidIdSrc.list, TrailingCut(d.orcidIds), 0);
  }

  /** Padding the compressed affiliations and ids restores them. */
  lemma ListsRestored(d: RecordData)
    requires Parallel(d)
    ensures PadTo(CompressData(d).affils, |d.authors|, "") == d.affils
    ensures PadTo(CompressData(d).orcidIds, |d.authors|, "") == d.orcidIds
  {
    var c := CompressData(d);
    PadRestores(d.affils, |c.affils|, "");
    PadRestores(d.orcidIds, |c.orcidIds|, "");
  }

  /** `decompress(compress(r)) == r` for a consistent record (appa/tests/test_record_compression.py:84-112). */
  lemma DecompressCompress(d: RecordData)
    requires Consistent(d)
    ensures DecompressData(CompressData(d)) == Some(d)
  {
    CompressedSources(d);
    SourcesRestored(d);
    ListsRestored(d);
  }

  /** A record as `compress` leaves it: no trailing empties, the sources as text for as many ints as there are ids. */
  predicate Stored(d: RecordData, l: seq<int>) {
    d.orcidIdSrc == SrcText(SourcesText(l)) && |l| == |d.orcidIds| &&
    TrailingCut(d.affils) == |d.affils| && TrailingCut(d.orcidIds) == |d.orcidIds| &&
    |d.affils| <= |d.authors| && |d.orcidIds| <= |d.authors|
  }

  /** `compress(decompress(c)) == c` for a stored record. */
  lemma CompressDecompress(d: RecordData, l: seq<int>)
    requires Stored(d, l)
    ensures DecompressData(d).Some?
    ensures CompressData(DecompressData(d).value) == d
  {
    SourcesTextRoundTrip(l);
    var e := DecompressData(d).value;
    var n := |d.authors|;
    TrailingCutOfPadded(d.affils, n);
    TrailingCutOfPadded(d.orcidIds, n);
    var cut := |d.orcidIds|;
    var padded := PadTo(l, n, 0);
    assert padded[..Min(cut, |padded|)] == l;
    assert SourcePieces(e.orcidIdSrc, cut) == IntPieces(l);
  }

  /** Padding with empty strings does not move the cut. */
  lemma TrailingCutOfPadded(s: seq<string>, n: int)
    requires TrailingCut(s) == |s|
    ensures TrailingCut(PadTo(s, n, "")) == |s|
    ensures PadTo(s, n, "")[..|s|] == s
  {
  }
}
