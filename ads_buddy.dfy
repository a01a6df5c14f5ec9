/**
 * The ADS client's local logic (ads_buddy.py): turning an ADS article into a
 * document record, dropping unusable author entries, the bibcode test, the
 * de-duplicating prefetch queue, and the de-duplication of each author
 * record's document list.  The HTTP queries themselves are not modelled: an
 * article arrives as a value.
 */
module AdsBuddy {

  import opened Wrappers
  import opened PyStr
  import opened AdsName
  import opened DocumentRecords
  import opened AuthorRecords

  const MaximumResponseSize: int := 2000
  const EstimatedDocumentsPerAuthor: int := 300

  /** How many queued authors ride along with one author query. */
  const PrefetchCount: int := MaximumResponseSize / EstimatedDocumentsPerAuthor - 1

  const NoTitle := "[No title given]"
  const NoPublication := "[Publication not given]"

  // ---------------------------------------------------------------------
  // Bibcodes

  /** `is_bibcode`: 19 characters, the first four of which `int()` accepts, so one of them is a digit. */
  predicate IsBibcode(v: string): (r: bool)
    ensures r ==> |v| == 19 && exists i :: 0 <= i < 4 && IsDigit(v[i])
  {
    if |v| == 19 && IsInt(v[..4]) then
      ParseIntHasDigit(v[..4]);
      assert forall i :: 0 <= i < 4 ==> v[..4][i] == v[i];
      true
    else false
  }

  /** A four-digit year followed by fifteen more characters is a bibcode. */
  lemma BibcodeOfYear(year: nat, rest: string)
    requires 1000 <= year <= 9999 && |rest| == 15
    ensures IsBibcode(NatToString(year) + rest)
  {
    FourDigits(year);
    IntToStringRoundTrip(year);
    assert (NatToString(year) + rest)[..4] == NatToString(year);
  }

  /** A character `int()` can never accept among the first four rules a bibcode out. */
  lemma BibcodeNeedsNumericStart(v: string, i: nat)
    requires |v| == 19 && i < 4 && !IntChar(v[i])
    ensures !IsBibcode(v)
  {
    if IsInt(v[..4]) {
      ParseIntChars(v[..4]);
      assert false;
    }
  }

  // ---------------------------------------------------------------------
  // Articles

  /**
   * One document as the ADS search API returns it.  A field the API can
   * leave out is an `Option`.
   */
  datatype Article = Article(
    bibcode: string,
    title: Option<seq<string>>,
    author: seq<string>,
    aff: seq<string>,
    doctype: string,
    keyword: Option<seq<string>>,
    pub: Option<string>,
    date: string,
    citationCount: Option<int>,
    readCount: Option<int>,
    orcidPub: Option<seq<string>>,
    orcidUser: Option<seq<string>>,
    orcidOther: Option<seq<string>>)

  /** `['' if x == '-' else x for x in s]`. */
  function DashToEmpty(s: seq<string>): (r: seq<string>)
    ensures |r| == |s|
    ensures forall i :: 0 <= i < |r| ==> r[i] != "-"
    ensures forall i :: 0 <= i < |r| && s[i] != "-" ==> r[i] == s[i]
    ensures forall i :: 0 <= i < |r| && s[i] == "-" ==> r[i] == ""
  {
    seq(|s|, i requires 0 <= i < |s| => if s[i] == "-" then "" else s[i])
  }

  /** One ORCID list after normalisation: missing means empty, '-' means '', padded with '' to `n` entries. */
  function OrcidList(l: Option<seq<string>>, n: nat): (r: seq<string>)
    ensures l.None? ==> |r| == n
    ensures l.Some? ==> |r| == if |l.value| > n then |l.value| else n
    ensures forall i :: 0 <= i < |r| ==> r[i] != "-"
    ensures l.Some? ==> forall i :: 0 <= i < |l.value| && l.value[i] != "-" ==> r[i] == l.value[i]
    ensures forall i :: (if l.Some? then |l.value| else 0) <= i < |r| ==> r[i] == ""
  {
    PadTo(DashToEmpty(if l.Some? then l.value else []), n, "")
  }

  /** The ORCID id chosen for one author and where it came from (0 none, 1 pub, 2 user, 3 other). */
  datatype Choice = Choice(id: string, src: int)

  /** The first non-empty id among the publisher's, the user's and the other list. */
  function ChooseOrcid(op: string, ou: string, oo: string): (c: Choice)
    ensures 0 <= c.src <= 3
    ensures c.id == "" <==> c.src == 0
    ensures c.src == 0 <==> op == "" && ou == "" && oo == ""
    ensures c.src == 1 ==> c.id == op
    ensures c.src == 2 ==> op == "" && c.id == ou
    ensures c.src == 3 ==> op == "" && ou == "" && c.id == oo
  {
    if op != "" then Choice(op, 1)
    else if ou != "" then Choice(ou, 2)
    else if oo != "" then Choice(oo, 3)
    else Choice("", 0)
  }

  function Min3(a: nat, b: nat, c: nat): (m: nat)
    ensures m <= a && m <= b && m <= c
    ensures m == a || m == b || m == c
  {
    if a <= b && a <= c then a else if b <= c then b else c
  }

  function Ids(cs: seq<Choice>): (r: seq<string>)
    ensures |r| == |cs| && forall i :: 0 <= i < |cs| ==> r[i] == cs[i].id
  {
    seq(|cs|, i requires 0 <= i < |cs| => cs[i].id)
  }

  function Srcs(cs: seq<Choice>): (r: seq<int>)
    ensures |r| == |cs| && forall i :: 0 <= i < |cs| ==> r[i] == cs[i].src
  {
    seq(|cs|, i requires 0 <= i < |cs| => cs[i].src)
  }

  /** The record fields an article yields once one ORCID choice per author has been made. */
  function RecordOf(a: Article, cs: seq<Choice>): (r: Option<RecordData>)
    ensures r.None? <==> a.title == Some([])
    ensures r.Some? ==> r.value.bibcode == a.bibcode && r.value.authors == a.author
    ensures r.Some? ==> r.value.title == (if a.title.Some? then a.title.value[0] else NoTitle)
    ensures r.Some? ==> r.value.affils == DashToEmpty(a.aff)
    ensures r.Some? ==> r.value.keywords == (if a.keyword.Some? then a.keyword.value else [])
    ensures r.Some? ==> r.value.publication == (if a.pub.Some? then a.pub.value else NoPublication)
    ensures r.Some? ==> r.value.citationCount == (if a.citationCount.Some? then a.citationCount.value else 0)
    ensures r.Some? ==> r.value.readCount == (if a.readCount.Some? then a.readCount.value else 0)
    ensures r.Some? ==> r.value.doctype == a.doctype && r.value.pubdate == a.date
    ensures r.Some? ==> r.value.orcidIds == Ids(cs) && r.value.orcidIdSrc == SrcList(Srcs(cs))
    ensures r.Some? ==> r.value.timestamp == -1
  {
    if a.title == Some([]) then None   // `article["title"][0]` raises IndexError
    else
      Some(RecordData(
        bibcode := a.bibcode,
        title := if a.title.Some? then a.title.value[0] else NoTitle,
        authors := a.author,
        affils := DashToEmpty(a.aff),
        doctype := a.doctype,
        keywords := if a.keyword.Some? then a.keyword.value else [],
        publication := if a.pub.Some? then a.pub.value else NoPublication,
        pubdate := a.date,
        citationCount := if a.citationCount.Some? then a.citationCount.value else 0,
        readCount := if a.readCount.Some? then a.readCount.value else 0,
        orcidIds := Ids(cs),
        orcidIdSrc := SrcList(Srcs(cs)),
        timestamp := -1))
  }

  /** The three ORCID lists of an article after normalisation. */
  function OrcidLists(a: Article): (seq<string>, seq<string>, seq<string>) {
    var n := |a.author|;
    (OrcidList(a.orcidPub, n), OrcidList(a.orcidUser, n), OrcidList(a.orcidOther, n))
  }

  /** `zip` of the three lists, one choice per position of the shortest. */
  function Choices(ls: (seq<string>, seq<string>, seq<string>)): (cs: seq<Choice>)
    ensures |cs| == Min3(|ls.0|, |ls.1|, |ls.2|)
    ensures forall i :: 0 <= i < |cs| ==> cs[i] == ChooseOrcid(ls.0[i], ls.1[i], ls.2[i])
  {
    var m := Min3(|ls.0|, |ls.1|, |ls.2|);
    seq(m, i requires 0 <= i < m => ChooseOrcid(ls.0[i], ls.1[i], ls.2[i]))
  }

  /** `_article_to_record` as a value. */
  function ArticleData(a: Article): (r: Option<RecordData>)
    ensures r == RecordOf(a, Choices(OrcidLists(a)))
    ensures r.Some? ==> |r.value.orcidIds| == |r.value.orcidIdSrc.list| >= |a.author|
    ensures r.Some? ==> forall i :: 0 <= i < |r.value.orcidIds| ==>
              (r.value.orcidIds[i] == "" <==> r.value.orcidIdSrc.list[i] == 0)
  {
    RecordOf(a, Choices(OrcidLists(a)))
  }

  /** No ORCID list is longer than the author list. */
  predicate OrcidListsFit(a: Article) {
    (a.orcidPub.None? || |a.orcidPub.value| <= |a.author|) &&
    (a.orcidUser.None? || |a.orcidUser.value| <= |a.author|) &&
    (a.orcidOther.None? || |a.orcidOther.value| <= |a.author|)
  }

  /**
   * An article whose affiliation and ORCID lists fit its author list yields a
   * consistent record: one that `DecompressCompress` shows survives the cache
   * round trip unchanged.
   */
  lemma ArticleDataConsistent(a: Article)
    requires a.title != Some([]) && |a.aff| == |a.author| && OrcidListsFit(a)
    ensures ArticleData(a).Some? && Consistent(ArticleData(a).value)
  {
    var ls := OrcidLists(a);
    assert |ls.0| == |a.author| && |ls.1| == |a.author| && |ls.2| == |a.author|;
  }

  /** The loop of `_article_to_record` over the zipped ORCID lists: one choice per author. */
  method ChooseOrcids(ps: seq<string>, us: seq<string>, os: seq<string>) returns (ids: seq<string>, srcs: seq<int>)
    ensures ids == Ids(Choices((ps, us, os))) && srcs == Srcs(Choices((ps, us, os)))
  {
    var m := Min3(|ps|, |us|, |os|);
    ids, srcs := [], [];
    var i := 0;
    while i < m
      invariant 0 <= i <= m
      invariant |ids| == i && |srcs| == i
      invariant forall j :: 0 <= j < i ==> ids[j] == ChooseOrcid(ps[j], us[j], os[j]).id
      invariant forall j :: 0 <= j < i ==> srcs[j] == ChooseOrcid(ps[j], us[j], os[j]).src
    {
      var id, src;
      if ps[i] != "" {
        id, src := ps[i], 1;
      } else if us[i] != "" {
        id, src := us[i], 2;
      } else if os[i] != "" {
        id, src := os[i], 3;
      } else {
        id, src := "", 0;
      }
      ids, srcs := ids + [id], srcs + [src];
      i := i + 1;
    }
  }

  /** `_article_to_record`. */
  method ArticleToRecord(a: Article, now: int) returns (rec: DocumentRecord?)
    ensures rec == null <==> ArticleData(a).None?
    ensures rec != null ==> fresh(rec) && rec.Data() == ArticleData(a).value.(timestamp := now)
  {
    var ls := OrcidLists(a);
    var ids, srcs := ChooseOrcids(ls.0, ls.1, ls.2);
    var d := RecordOf(a, []);
    if d.None? {
      return null;
    }
    assert d.value.(orcidIds := ids, orcidIdSrc := SrcList(srcs)) == ArticleData(a).value;
    rec := new DocumentRecord(d.value.(orcidIds := ids, orcidIdSrc := SrcList(srcs)), now);
  }

  // ---------------------------------------------------------------------
  // Dropping unusable authors

  /** `"et al"` and `"anonymous"` are placeholders, not authors. */
  predicate IsPlaceholder(n: ADSName) {
    FullName(n) == "et al" || FullName(n) == "anonymous"
  }

  /** A parse result whose entry `_filter_invalid_authors` removes: `InvalidName`, or a placeholder. */
  predicate IsBad(r: Result<ADSName, NameError>) {
    r.Err? || IsPlaceholder(r.value)
  }

  predicate IsBadAuthor(s: string) {
    IsBad(Parse(s))
  }

  /** `f` applied to each entry, built from the end as the filtering loop builds its results. */
  function MapEach<T, U>(f: T -> U, s: seq<T>): (r: seq<U>)
    ensures |r| == |s|
  {
    if s == [] then [] else MapEach(f, s[..|s| - 1]) + [f(s[|s| - 1])]
  }

  lemma {:induction false} MapEachAt<T, U>(f: T -> U, s: seq<T>, k: nat)
    requires k < |s|
    ensures MapEach(f, s)[k] == f(s[k])
  {
    var n := |s| - 1;
    if k < n {
      MapEachAt(f, s[..n], k);
    }
  }

  const Unparsed := ADSName("", NoPart, NoPart, false, false, false, "")

  /** The parse of an author entry, or a stand-in where it fails (such entries are removed). */
  function ParsedOrStandIn(s: string): ADSName {
    if Parse(s).Ok? then Parse(s).value else Unparsed
  }

  /** Which author entries `_filter_invalid_authors` removes. */
  function Flags(authors: seq<string>): seq<bool> {
    MapEach(IsBadAuthor, authors)
  }

  /** The parse of each author entry. */
  function Parsed(authors: seq<string>): seq<ADSName> {
    MapEach(ParsedOrStandIn, authors)
  }

  /** The marked positions, in ascending order. */
  function BadIndices(m: seq<bool>): seq<nat> {
    if m == [] then [] else BadIndices(m[..|m| - 1]) + (if m[|m| - 1] then [|m| - 1] else [])
  }

  lemma TakeNext<T>(s: seq<T>, i: nat, k: nat)
    requires i < |s| && k == i + 1
    ensures s[..k] == s[..i] + [s[i]]
  {
  }

  lemma TakeAll<T>(s: seq<T>, i: nat)
    requires i == |s|
    ensures s[..i] == s
  {
  }

  lemma MapEachSnoc<T, U>(f: T -> U, s: seq<T>, x: T)
    ensures MapEach(f, s + [x]) == MapEach(f, s) + [f(x)]
  {
    assert (s + [x])[..|s|] == s;
  }

  lemma BadIndicesSnoc(m: seq<bool>, b: bool)
    ensures BadIndices(m + [b]) == BadIndices(m) + (if b then [|m|] else [])
  {
    assert (m + [b])[..|m|] == m;
  }

  lemma KeepGoodSnoc<T>(s: seq<T>, bad: seq<bool>, x: T, b: bool)
    requires |s| == |bad|
    ensures KeepGood(s + [x], bad + [b]) == KeepGood(s, bad) + (if b then [] else [x])
  {
    assert (s + [x])[..|s|] == s && (bad + [b])[..|bad|] == bad;
  }

  /** `bad` lists exactly the marked positions of `m`, ascending. */
  predicate Marks(bad: seq<nat>, m: seq<bool>) {
    && (forall j, k :: 0 <= j < k < |bad| ==> bad[j] < bad[k])
    && (forall j :: 0 <= j < |bad| ==> bad[j] < |m|)
    && (forall k :: 0 <= k < |m| ==> (m[k] <==> k in bad))
  }

  lemma {:induction false} BadIndicesMarks(m: seq<bool>)
    ensures Marks(BadIndices(m), m)
  {
    if m != [] {
      var n := |m| - 1;
      BadIndicesMarks(m[..n]);
      var b := BadIndices(m);
      var b0 := BadIndices(m[..n]);
      forall k | 0 <= k < |m| ensures m[k] <==> k in b {
        if k < n {
          assert m[..n][k] == m[k];
        }
      }
    }
  }

  /** The entries of `s` at the positions the mask does not mark, in order. */
  function KeepGood<T>(s: seq<T>, bad: seq<bool>): (r: seq<T>)
    requires |s| == |bad|
    ensures |r| <= |s|
    ensures forall x :: x in r ==> exists i :: 0 <= i < |s| && !bad[i] && s[i] == x
  {
    if s == [] then []
    else
      var n := |s| - 1;
      KeepGood(s[..n], bad[..n]) + (if bad[n] then [] else [s[n]])
  }

  /** The names `_filter_invalid_authors` returns: the parses of the surviving entries. */
  function GoodNames(authors: seq<string>): seq<ADSName> {
    KeepGood(Parsed(authors), Flags(authors))
  }

  /** Filtering depends only on the mask, so parallel lists stay parallel. */
  lemma {:induction false} KeepGoodLength<T, U>(s: seq<T>, t: seq<U>, bad: seq<bool>)
    requires |s| == |bad| && |t| == |bad|
    ensures |KeepGood(s, bad)| == |KeepGood(t, bad)|
  {
    if s != [] {
      var n := |s| - 1;
      KeepGoodLength(s[..n], t[..n], bad[..n]);
    }
  }

  /** Position `j` of two filtered parallel lists comes from one unmarked position of the originals. */
  lemma {:induction false} KeepGoodAligned<T, U>(s: seq<T>, t: seq<U>, bad: seq<bool>, j: nat)
    requires |s| == |bad| && |t| == |bad|
    requires j < |KeepGood(s, bad)|
    ensures j < |KeepGood(t, bad)|
    ensures exists i :: 0 <= i < |s| && !bad[i] && KeepGood(s, bad)[j] == s[i] && KeepGood(t, bad)[j] == t[i]
  {
    KeepGoodLength(s, t, bad);
    var n := |s| - 1;
    KeepGoodLength(s[..n], t[..n], bad[..n]);
    if j < |KeepGood(s[..n], bad[..n])| {
      KeepGoodAligned(s[..n], t[..n], bad[..n], j);
      var i :| 0 <= i < n && !bad[..n][i] && KeepGood(s[..n], bad[..n])[j] == s[..n][i]
               && KeepGood(t[..n], bad[..n])[j] == t[..n][i];
      assert !bad[i] && KeepGood(s, bad)[j] == s[i] && KeepGood(t, bad)[j] == t[i];
    } else {
      assert !bad[n] && KeepGood(s, bad)[j] == s[n] && KeepGood(t, bad)[j] == t[n];
    }
  }

  /** Every surviving author is good, and the returned names are exactly their parses. */
  lemma GoodNamesParse(authors: seq<string>, j: nat)
    requires j < |GoodNames(authors)|
    ensures j < |KeepGood(authors, Flags(authors))|
    ensures !IsBadAuthor(KeepGood(authors, Flags(authors))[j])
    ensures Parse(KeepGood(authors, Flags(authors))[j]) == Ok(GoodNames(authors)[j])
  {
    var m := Flags(authors);
    var p := Parsed(authors);
    KeepGoodAligned(p, authors, m, j);
    var i :| 0 <= i < |p| && !m[i] && KeepGood(p, m)[j] == p[i] && KeepGood(authors, m)[j] == authors[i];
    MapEachAt(IsBadAuthor, authors, i);
    MapEachAt(ParsedOrStandIn, authors, i);
  }

  /** Keeping from a concatenation keeps from each half. */
  lemma {:induction false} KeepGoodConcat<T>(s: seq<T>, t: seq<T>, a: seq<bool>, b: seq<bool>)
    requires |s| == |a| && |t| == |b|
    ensures KeepGood(s + t, a + b) == KeepGood(s, a) + KeepGood(t, b)
    decreases |t|
  {
    if t != [] {
      var n := |t| - 1;
      assert (s + t)[..|s| + n] == s + t[..n];
      assert (a + b)[..|a| + n] == a + b[..n];
      KeepGoodConcat(s, t[..n], a, b[..n]);
    } else {
      assert s + t == s && a + b == a;
    }
  }

  /** Where nothing is marked, nothing is removed. */
  lemma {:induction false} KeepGoodNoneMarked<T>(s: seq<T>, bad: seq<bool>)
    requires |s| == |bad|
    requires forall k :: 0 <= k < |bad| ==> !bad[k]
    ensures KeepGood(s, bad) == s
  {
    if s != [] {
      var n := |s| - 1;
      KeepGoodNoneMarked(s[..n], bad[..n]);
      assert s == s[..n] + [s[n]];
    }
  }

  /** Filtering from `q` when only `b` is marked before the tail. */
  lemma KeepGoodSkip<T>(s: seq<T>, bad: seq<bool>, q: nat, b: nat)
    requires |s| == |bad| && q <= b < |s|
    requires bad[b]
    requires forall k :: q <= k < b ==> !bad[k]
    ensures KeepGood(s[q..], bad[q..]) == s[q..b] + KeepGood(s[b + 1..], bad[b + 1..])
  {
    var mid, bmid := s[q..b], bad[q..b];
    KeepGoodNoneMarked(mid, bmid);
    assert s[q..] == (mid + [s[b]]) + s[b + 1..];
    assert bad[q..] == (bmid + [bad[b]]) + bad[b + 1..];
    KeepGoodConcat(mid + [s[b]], s[b + 1..], bmid + [bad[b]], bad[b + 1..]);
    KeepGoodConcat(mid, [s[b]], bmid, [bad[b]]);
    assert KeepGood([s[b]], [bad[b]]) == [] by {
      assert [s[b]][..0] == [] && [bad[b]][..0] == [];
    }
  }

  /** `s` kept as it is before `p` and filtered from `p` on: the state of the reverse pass. */
  function FilteredFrom<T>(s: seq<T>, bad: seq<bool>, p: nat): seq<T>
    requires |s| == |bad| && p <= |s|
  {
    s[..p] + KeepGood(s[p..], bad[p..])
  }

  /** With nothing marked from `p` on, the reverse pass has nothing left to do there. */
  lemma FilteredFromClear<T>(s: seq<T>, bad: seq<bool>, p: nat)
    requires |s| == |bad| && p <= |s|
    requires forall k :: p <= k < |s| ==> !bad[k]
    ensures FilteredFrom(s, bad, p) == s
  {
    forall k | 0 <= k < |bad[p..]| ensures !bad[p..][k] {
      assert bad[p..][k] == bad[p + k];
    }
    KeepGoodNoneMarked(s[p..], bad[p..]);
    assert s == s[..p] + s[p..];
  }

  lemma FilteredFromZero<T>(s: seq<T>, bad: seq<bool>)
    requires |s| == |bad|
    ensures FilteredFrom(s, bad, 0) == KeepGood(s, bad)
  {
    assert s[..0] == [] && s[0..] == s && bad[0..] == bad;
  }

  /** A list that may run past the marks: filtered from `p` on within the marks, kept beyond them. */
  function FilteredFromPrefix<T>(s: seq<T>, bad: seq<bool>, p: nat): seq<T>
    requires |bad| <= |s| && p <= |bad|
  {
    FilteredFrom(s[..|bad|], bad, p) + s[|bad|..]
  }

  /** `s` with the marked positions among its first `|bad|` removed and the rest kept. */
  function KeepPrefix<T>(s: seq<T>, bad: seq<bool>): (r: seq<T>)
    requires |bad| <= |s|
    ensures |bad| == |s| ==> r == KeepGood(s, bad)
  {
    assert |bad| == |s| ==> s[..|bad|] == s && s[|bad|..] == [];
    KeepGood(s[..|bad|], bad) + s[|bad|..]
  }

  /** Deleting inside the marked part of a list leaves its unmarked tail in place. */
  lemma RemoveAtAppend<T>(x: seq<T>, tail: seq<T>, b: nat)
    requires b < |x|
    ensures RemoveAt(x + tail, b) == RemoveAt(x, b) + tail
  {
    assert (x + tail)[..b] == x[..b];
    assert (x + tail)[b + 1..] == x[b + 1..] + tail;
  }

  /** `DeleteStep` for a list that may run past the marks. */
  lemma DeleteStepPrefix<T>(s: seq<T>, bad: seq<bool>, q: nat, b: nat)
    requires |bad| <= |s| && q <= b < |bad|
    requires bad[b]
    requires forall k :: q <= k < b ==> !bad[k]
    ensures |FilteredFromPrefix(s, bad, b + 1)| > b
    ensures RemoveAt(FilteredFromPrefix(s, bad, b + 1), b) == FilteredFromPrefix(s, bad, q)
  {
    var h := s[..|bad|];
    DeleteStep(h, bad, q, b);
    RemoveAtAppend(FilteredFrom(h, bad, b + 1), s[|bad|..], b);
  }

  lemma FilteredFromPrefixClear<T>(s: seq<T>, bad: seq<bool>, p: nat)
    requires |bad| <= |s| && p <= |bad|
    requires forall k :: p <= k < |bad| ==> !bad[k]
    ensures FilteredFromPrefix(s, bad, p) == s
  {
    FilteredFromClear(s[..|bad|], bad, p);
    assert s[..|bad|] + s[|bad|..] == s;
  }

  lemma FilteredFromPrefixZero<T>(s: seq<T>, bad: seq<bool>)
    requires |bad| <= |s|
    ensures FilteredFromPrefix(s, bad, 0) == KeepPrefix(s, bad)
  {
    FilteredFromZero(s[..|bad|], bad);
    if |bad| == |s| {
      assert s[..|bad|] == s && s[|bad|..] == [];
    }
  }

  /**
   * One deletion of the reverse pass: with the list filtered after `b` and
   * nothing marked between `q` and `b`, deleting position `b` leaves the
   * list filtered from `q` on.
   */
  lemma DeleteStep<T>(s: seq<T>, bad: seq<bool>, q: nat, b: nat)
    requires |s| == |bad| && q <= b < |s|
    requires bad[b]
    requires forall k :: q <= k < b ==> !bad[k]
    ensures |FilteredFrom(s, bad, b + 1)| > b
    ensures RemoveAt(FilteredFrom(s, bad, b + 1), b) == FilteredFrom(s, bad, q)
  {
    KeepGoodSkip(s, bad, q, b);
    var rest := KeepGood(s[b + 1..], bad[b + 1..]);
    var x := s[..b + 1] + rest;
    assert x[..b] == s[..b];
    assert x[b + 1..] == rest;
    assert s[..b] == s[..q] + s[q..b];
  }

  /** Nothing is marked after the last marked position. */
  lemma MarksTail(m: seq<bool>)
    ensures Upto(BadIndices(m), |BadIndices(m)|) <= |m|
    ensures forall k :: Upto(BadIndices(m), |BadIndices(m)|) <= k < |m| ==> !m[k]
  {
    var bad := BadIndices(m);
    BadIndicesMarks(m);
    var p := Upto(bad, |bad|);
    assert forall t :: 0 <= t < |bad| ==> bad[t] < p;
  }

  /** Nothing is marked strictly between two consecutive marked positions. */
  lemma MarksGap(m: seq<bool>, j: nat)
    requires 0 < j <= |BadIndices(m)|
    ensures Upto(BadIndices(m), j - 1) <= BadIndices(m)[j - 1] < |m| && m[BadIndices(m)[j - 1]]
    ensures forall k :: Upto(BadIndices(m), j - 1) <= k < BadIndices(m)[j - 1] ==> !m[k]
  {
    var bad := BadIndices(m);
    BadIndicesMarks(m);
    var q := Upto(bad, j - 1);
    assert forall t :: 0 <= t < |bad| ==> bad[t] < q || bad[t] >= bad[j - 1];
  }

  /** One step of the first pass: whether the entry goes, and its parse when it stays. */
  method Classify(author: string) returns (isBad: bool, name: ADSName)
    ensures isBad == IsBadAuthor(author)
    ensures !isBad ==> Parse(author) == Ok(name)
  {
    var r := Parse(author);
    if r.Err? {
      return true, Unparsed;   // InvalidName
    }
    name := r.value;
    isBad := FullName(name) == "et al" || FullName(name) == "anonymous";
  }

  /**
   * One iteration of the first pass: classifies the next entry and extends
   * the bad positions or the good names accordingly.
   */
  method CheckNext(ghost seen: seq<string>, i: nat, author: string, bad: seq<nat>, names: seq<ADSName>)
    returns (bad': seq<nat>, names': seq<ADSName>)
    requires i == |seen|
    requires bad == BadIndices(Flags(seen)) && names == KeepGood(Parsed(seen), Flags(seen))
    ensures bad' == BadIndices(Flags(seen + [author]))
    ensures names' == KeepGood(Parsed(seen + [author]), Flags(seen + [author]))
  {
    var isBad, name := Classify(author);
    MapEachSnoc(IsBadAuthor, seen, author);
    MapEachSnoc(ParsedOrStandIn, seen, author);
    BadIndicesSnoc(Flags(seen), isBad);
    KeepGoodSnoc(Parsed(seen), Flags(seen), ParsedOrStandIn(author), isBad);
    if isBad {
      bad', names' := bad + [i], names;
    } else {
      bad', names' := bad, names + [name];
    }
  }

  /** `_filter_invalid_authors`, first pass: the positions to delete, ascending, and the surviving names. */
  method FindBadAuthors(authors: seq<string>) returns (bad: seq<nat>, names: seq<ADSName>)
    ensures bad == BadIndices(Flags(authors))
    ensures names == GoodNames(authors)
  {
    bad, names := [], [];
    var i := 0;
    while i < |authors|
      invariant 0 <= i <= |authors|
      invariant bad == BadIndices(Flags(authors[..i]))
      invariant names == KeepGood(Parsed(authors[..i]), Flags(authors[..i]))
    {
      var k := i + 1;
      TakeNext(authors, i, k);
      bad, names := CheckNext(authors[..i], i, authors[i], bad, names);
      i := k;
    }
    TakeAll(authors, i);
  }

  /** The record part-way through the reverse pass: its four per-author lists filtered from `p` on. */
  function Stage(d: RecordData, m: seq<bool>, p: nat): RecordData
    requires Covers(d) && |m| == |d.authors| && p <= |m|
  {
    d.(authors := FilteredFrom(d.authors, m, p), affils := FilteredFromPrefix(d.affils, m, p),
       orcidIds := FilteredFromPrefix(d.orcidIds, m, p),
       orcidIdSrc := SrcList(FilteredFromPrefix(d.orcidIdSrc.list, m, p)))
  }

  /** One deletion of the reverse pass: the `j`-th marked position goes. */
  method DeleteOne(doc: DocumentRecord, ghost d: RecordData, ghost m: seq<bool>, bad: seq<nat>, k: nat, j: nat)
    requires Covers(d) && |m| == |d.authors|
    requires bad == BadIndices(m) && j == k + 1 && j <= |bad| && Upto(bad, j) <= |m|
    requires doc.Data() == Stage(d, m, Upto(bad, j))
    modifies doc
    ensures Upto(bad, k) <= |m|
    ensures doc.Data() == Stage(d, m, Upto(bad, k))
  {
    var b := bad[k];
    ghost var q := Upto(bad, k);
    MarksGap(m, j);
    DeleteStep(d.authors, m, q, b);
    DeleteStepPrefix(d.affils, m, q, b);
    DeleteStepPrefix(d.orcidIds, m, q, b);
    DeleteStepPrefix(d.orcidIdSrc.list, m, q, b);
    doc.DeleteAuthor(b);
  }

  /**
   * `_filter_invalid_authors`, second pass: deletes the listed positions
   * from the record's four per-author lists, from the last to the first.
   */
  method RemoveMarked(doc: DocumentRecord, bad: seq<nat>, ghost m: seq<bool>)
    requires Covers(doc.Data()) && |m| == |doc.authors|
    requires bad == BadIndices(m)
    modifies doc
    ensures doc.Data() == old(doc.Data()).(authors := KeepGood(old(doc.authors), m),
                                            affils := KeepPrefix(old(doc.affils), m),
                                            orcidIds := KeepPrefix(old(doc.orcidIds), m),
                                            orcidIdSrc := SrcList(KeepPrefix(old(doc.orcidIdSrc.list), m)))
  {
    ghost var d := doc.Data();
    var j := |bad|;
    MarksTail(m);
    StageClear(d, m, Upto(bad, j));
    while j > 0
      invariant 0 <= j <= |bad| && Upto(bad, j) <= |m|
      invariant doc.Data() == Stage(d, m, Upto(bad, j))
    {
      var k := j - 1;
      DeleteOne(doc, d, m, bad, k, j);
      j := k;
    }
    StageZero(d, m);
  }

  /** Where the reverse pass stands after deleting `bad[j..]`: just after `bad[j - 1]`. */
  function Upto(bad: seq<nat>, j: nat): nat
    requires j <= |bad|
  {
    if j == 0 then 0 else bad[j - 1] + 1
  }

  /** Before the first deletion the record is unchanged. */
  lemma StageClear(d: RecordData, m: seq<bool>, p: nat)
    requires Covers(d) && |m| == |d.authors| && p <= |m|
    requires forall k :: p <= k < |m| ==> !m[k]
    ensures Stage(d, m, p) == d
  {
    FilteredFromClear(d.authors, m, p);
    FilteredFromPrefixClear(d.affils, m, p);
    FilteredFromPrefixClear(d.orcidIds, m, p);
    FilteredFromPrefixClear(d.orcidIdSrc.list, m, p);
  }

  /** After the last deletion every list is filtered. */
  lemma StageZero(d: RecordData, m: seq<bool>)
    requires Covers(d) && |m| == |d.authors|
    ensures Stage(d, m, 0) == d.(authors := KeepGood(d.authors, m), affils := KeepPrefix(d.affils, m),
                                 orcidIds := KeepPrefix(d.orcidIds, m),
                                 orcidIdSrc := SrcList(KeepPrefix(d.orcidIdSrc.list, m)))
  {
    FilteredFromZero(d.authors, m);
    FilteredFromPrefixZero(d.affils, m);
    FilteredFromPrefixZero(d.orcidIds, m);
    FilteredFromPrefixZero(d.orcidIdSrc.list, m);
  }

  /**
   * `_filter_invalid_authors`: removes, in place and in reverse index order,
   * every author entry that does not parse or is a placeholder, together with
   * its affiliation, ORCID id and source; returns the surviving names.
   */
  method FilterInvalidAuthors(doc: DocumentRecord) returns (names: seq<ADSName>)
    requires Covers(doc.Data())
    modifies doc
    ensures names == GoodNames(old(doc.authors))
    ensures doc.Data() == FilteredData(old(doc.Data()))
  {
    var bad;
    bad, names := FindBadAuthors(doc.authors);
    RemoveMarked(doc, bad, Flags(doc.authors));
  }

  /**
   * The record `_filter_invalid_authors` leaves: the four per-author lists
   * without the bad entries; entries of a list beyond the last author stay.
   */
  function FilteredData(d: RecordData): (r: RecordData)
    requires Covers(d)
  {
    var m := Flags(d.authors);
    d.(authors := KeepGood(d.authors, m), affils := KeepPrefix(d.affils, m),
       orcidIds := KeepPrefix(d.orcidIds, m), orcidIdSrc := SrcList(KeepPrefix(d.orcidIdSrc.list, m)))
  }

  // ---------------------------------------------------------------------
  // The prefetch queue

  /** The set key of a name: a set of `ADSName`s hashes them by `repr`, which is `str`. */
  function Key(n: ADSName): string {
    Str(n)
  }

  /*
   * The queue functions and lemmas below are stated for any key function, so
   * that their proofs never look inside `Key`; the client uses `Key`.
   */

  function Keys<T>(key: T -> string, q: seq<T>): set<string> {
    set i | 0 <= i < |q| :: key(q[i])
  }

  /** No two queued names share a key. */
  predicate DistinctKeys<T>(key: T -> string, q: seq<T>) {
    forall i, j :: 0 <= i < j < |q| ==> key(q[i]) != key(q[j])
  }

  /** `add_authors_to_prefetch_queue` on the queue: each author not yet queued is appended. */
  function Enqueue<T>(key: T -> string, q: seq<T>, authors: seq<T>): (r: seq<T>)
    ensures |q| <= |r| <= |q| + |authors| && r[..|q|] == q
    decreases |authors|
  {
    if authors == [] then q
    else Enqueue(key, if key(authors[0]) in Keys(key, q) then q else q + [authors[0]], authors[1..])
  }

  lemma KeysSnoc<T>(key: T -> string, q: seq<T>, x: T)
    ensures Keys(key, q + [x]) == Keys(key, q) + {key(x)}
  {
    assert (q + [x])[|q|] == x;
    forall k | k in Keys(key, q) ensures k in Keys(key, q + [x]) {
      var i :| 0 <= i < |q| && key(q[i]) == k;
      assert (q + [x])[i] == q[i];
    }
  }

  /** Appending a name whose key is new keeps the keys distinct. */
  lemma DistinctSnoc<T>(key: T -> string, q: seq<T>, x: T)
    requires DistinctKeys(key, q) && key(x) !in Keys(key, q)
    ensures DistinctKeys(key, q + [x])
  {
    forall i, j | 0 <= i < j < |q + [x]| ensures key((q + [x])[i]) != key((q + [x])[j]) {
      if j == |q| {
        assert key(q[i]) in Keys(key, q);
      } else {
        assert (q + [x])[i] == q[i] && (q + [x])[j] == q[j];
      }
    }
  }

  /** The keys of a list are the key of its head and those of its tail. */
  lemma KeysCons<T>(key: T -> string, s: seq<T>)
    requires s != []
    ensures Keys(key, s) == {key(s[0])} + Keys(key, s[1..])
  {
    forall k | k in Keys(key, s) ensures k in {key(s[0])} + Keys(key, s[1..]) {
      var t :| 0 <= t < |s| && key(s[t]) == k;
      if t > 0 { assert s[1..][t - 1] == s[t]; }
    }
    forall k | k in Keys(key, s[1..]) ensures k in Keys(key, s) {
      var t :| 0 <= t < |s[1..]| && key(s[1..][t]) == k;
      assert s[t + 1] == s[1..][t];
    }
  }

  /**
   * The queue only grows at its end, holds no key twice, and afterwards
   * holds exactly the keys it held plus those of the added authors.
   */
  lemma {:induction false} EnqueueSpec<T>(key: T -> string, q: seq<T>, authors: seq<T>)
    requires DistinctKeys(key, q)
    ensures DistinctKeys(key, Enqueue(key, q, authors))
    ensures |Enqueue(key, q, authors)| >= |q| && Enqueue(key, q, authors)[..|q|] == q
    ensures Keys(key, Enqueue(key, q, authors)) == Keys(key, q) + Keys(key, authors)
    decreases |authors|
  {
    if authors != [] {
      var x := authors[0];
      var q1 := if key(x) in Keys(key, q) then q else q + [x];
      KeysSnoc(key, q, x);
      if key(x) !in Keys(key, q) {
        DistinctSnoc(key, q, x);
      }
      EnqueueSpec(key, q1, authors[1..]);
      KeysCons(key, authors);
      assert q1[..|q|] == q;
      var r := Enqueue(key, q1, authors[1..]);
      assert r[..|q|] == r[..|q1|][..|q|];
    }
  }

  /** Adding the same authors twice changes nothing the second time. */
  lemma {:induction false} EnqueueIdempotent<T>(key: T -> string, q: seq<T>, authors: seq<T>)
    requires DistinctKeys(key, q)
    ensures Enqueue(key, Enqueue(key, q, authors), authors) == Enqueue(key, q, authors)
  {
    EnqueueSpec(key, q, authors);
    EnqueueAllPresent(key, Enqueue(key, q, authors), authors);
  }

  /** Authors whose keys are all queued already leave the queue as it is. */
  lemma {:induction false} EnqueueAllPresent<T>(key: T -> string, q: seq<T>, authors: seq<T>)
    requires Keys(key, authors) <= Keys(key, q)
    ensures Enqueue(key, q, authors) == q
    decreases |authors|
  {
    if authors != [] {
      KeysCons(key, authors);
      EnqueueAllPresent(key, q, authors[1..]);
    }
  }

  /** How many names `_select_authors_to_prefetch` takes from a queue of length `len`. */
  function PrefetchTake(len: nat): (n: nat)
    ensures n <= len && n <= 5
    ensures n == 5 || n == len
  {
    var k := if PrefetchCount > len then len else PrefetchCount;
    if k <= 0 then 0 else k
  }

  /** The ADS client's own state: the prefetch queue and the set that mirrors it. */
  class Buddy {
    var queue: seq<ADSName>
    var members: set<string>

    ghost predicate Valid()
      reads this
    {
      members == Keys(Key, queue) && DistinctKeys(Key, queue)
    }

    constructor ()
      ensures Valid() && queue == [] && members == {}
    {
      queue := [];
      members := {};
    }

    /** `add_authors_to_prefetch_queue`. */
    method AddAuthors(authors: seq<ADSName>)
      requires Valid()
      modifies this
      ensures Valid()
      ensures queue == Enqueue(Key, old(queue), authors)
    {
      for i := 0 to |authors|
        invariant Valid()
        invariant Enqueue(Key, queue, authors[i..]) == Enqueue(Key, old(queue), authors)
      {
        assert authors[i..][0] == authors[i] && authors[i..][1..] == authors[i + 1..];
        var author := authors[i];
        if Key(author) in members {
          continue;
        }
        KeysSnoc(Key, queue, author);
        DistinctSnoc(Key, queue, author);
        members := members + {Key(author)};
        queue := queue + [author];
      }
      assert authors[|authors|..] == [];
    }

    /**
     * `_select_authors_to_prefetch`: pops `min(5, len(queue))` names from
     * the front and drops their keys from the set.  `ADSName.parse` on a
     * name returns a copy of it.
     */
    method SelectAuthors() returns (r: seq<ADSName>)
      requires Valid()
      modifies this
      ensures Valid()
      ensures r == old(queue)[..PrefetchTake(|old(queue)|)]
      ensures queue == old(queue)[PrefetchTake(|old(queue)|)..]
    {
      var n := PrefetchCount;
      if n > |queue| {
        n := |queue|;
      }
      if n <= 0 {
        return [];
      }
      r := [];
      ghost var q0 := queue;
      for i := 0 to n
        invariant Valid()
        invariant r == q0[..i] && queue == q0[i..]
      {
        var name := queue[0];
        PopFront(Key, queue);
        queue := queue[1..];
        members := members - {Key(name)};
        r := r + [name];
        assert q0[i + 1..] == q0[i..][1..];
      }
    }
  }

  /** Popping the head of a queue with distinct keys removes exactly the head's key. */
  lemma PopFront<T>(key: T -> string, q: seq<T>)
    requires q != [] && DistinctKeys(key, q)
    ensures DistinctKeys(key, q[1..])
    ensures Keys(key, q[1..]) == Keys(key, q) - {key(q[0])}
  {
    KeysCons(key, q);
    forall t | 0 <= t < |q[1..]| ensures key(q[1..][t]) != key(q[0]) {
      assert q[1..][t] == q[t + 1];
    }
    forall i, j | 0 <= i < j < |q[1..]| ensures key(q[1..][i]) != key(q[1..][j]) {
      assert q[1..][i] == q[i + 1] && q[1..][j] == q[j + 1];
    }
  }

  // ---------------------------------------------------------------------
  // De-duplicating document lists

  /** `sorted(set(documents))` is sorted, keeps every bibcode, and is already its own de-duplication. */
  lemma DedupCanonical(documents: seq<string>)
    ensures StrictlySorted(SortedUnique(documents))
    ensures Elements(SortedUnique(documents)) == Elements(documents)
    ensures SortedUnique(SortedUnique(documents)) == SortedUnique(documents)
  {
    StrictlySortedUnique(SortedUnique(SortedUnique(documents)), SortedUnique(documents));
  }

  /** The loop at the end of `get_papers_for_author`: every record's documents become `sorted(set(...))`. */
  method DedupDocuments(records: seq<AuthorRecord>)
    requires forall i, j :: 0 <= i < j < |records| ==> records[i] != records[j]
    modifies set i | 0 <= i < |records| :: records[i]
    ensures forall i :: 0 <= i < |records| ==> records[i].documents == SortedUnique(old(records[i].documents))
    ensures forall i :: 0 <= i < |records| ==> records[i].name == old(records[i].name)
  {
    for i := 0 to |records|
      invariant forall k :: 0 <= k < i ==> records[k].documents == SortedUnique(old(records[k].documents))
      invariant forall k :: i <= k < |records| ==> records[k].documents == old(records[k].documents)
      invariant forall k :: 0 <= k < |records| ==> records[k].name == old(records[k].name)
    {
      records[i].documents := SortedUnique(records[i].documents);
    }
  }
}
