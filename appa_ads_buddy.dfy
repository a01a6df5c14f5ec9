/**
 * The second ADS client (appa/ads_buddy.py).  Next to what ads_buddy.py
 * already does, it validates and normalises ORCID ids before storing them,
 * filters unusable authors while building the record, and answers queries by
 * ORCID id.  The prefetch queue, the document de-duplication and the author
 * filter are the same code as in ads_buddy.py and are reused from `AdsBuddy`.
 * The HTTP queries are not modelled: articles and documents arrive as values.
 */
module AppaAdsBuddy {

  import opened Wrappers
  import opened PyStr
  import opened AdsName
  import opened DocumentRecords
  import opened AuthorRecords
  import AdsBuddy

  // ---------------------------------------------------------------------
  // ORCID ids

  /**
   * The sixteen characters `is_orcid_id` goes on to check: the stripped text,
   * with its dashes removed when it is 19 characters long and dashed at 4, 9
   * and 14.  `None` where the function has already answered False.
   */
  function OrcidBody(value: string): (r: Option<string>)
    ensures r.Some? ==> |r.value| == 16
  {
    var v := Strip(value);
    if |v| == 19 then
      if v[4] != '-' || v[9] != '-' || v[14] != '-' then None
      else
        var w := RemoveChar(v, '-');
        if |w| == 16 then Some(w) else None
    else if |v| == 16 then Some(v)
    else None
  }

  /** `value[:-1]` when the last character is the check character 'X' or 'x'. */
  function DropCheckX(w: string): (r: string)
    requires w != []
    ensures |r| == |w| || (|r| == |w| - 1 && (w[|w| - 1] == 'X' || w[|w| - 1] == 'x'))
    ensures r == w[..|r|]
  {
    if w[|w| - 1] == 'X' || w[|w| - 1] == 'x' then w[..|w| - 1] else w
  }

  /**
   * `is_orcid_id` as written: what is left must be text `int()` accepts.  Its first fifteen
   * characters are then whitespace, digits, signs or underscores.
   */
  predicate IsOrcidIdAsWritten(value: string): (r: bool)
    ensures r ==> OrcidBody(value).Some? && forall i :: 0 <= i < 15 ==> IntChar(OrcidBody(value).value[i])
  {
    var b := OrcidBody(value);
    if b.Some? && IsInt(DropCheckX(b.value)) then
      ParseIntChars(DropCheckX(b.value));
      true
    else false
  }

  predicate AllDigits(s: string) {
    forall i :: 0 <= i < |s| ==> IsDigit(s[i])
  }

  /**
   * `is_orcid_id` as its comment states it: what is left must be all digits.  That is, the
   * sixteen characters are fifteen digits and a digit, `X` or `x`.
   */
  predicate IsOrcidId(value: string): (r: bool)
    ensures r <==> OrcidBody(value).Some? &&
                   (forall i :: 0 <= i < 15 ==> IsDigit(OrcidBody(value).value[i])) &&
                   (IsDigit(OrcidBody(value).value[15]) || OrcidBody(value).value[15] == 'X' || OrcidBody(value).value[15] == 'x')
  {
    var b := OrcidBody(value);
    b.Some? && AllDigits(DropCheckX(b.value))
  }

  /** The 4-4-4-4 dashed form of sixteen characters. */
  function Dashed(v: string): (r: string)
    requires |v| == 16
    ensures |r| == 19 && r[4] == '-' && r[9] == '-' && r[14] == '-'
  {
    v[0..4] + "-" + v[4..8] + "-" + v[8..12] + "-" + v[12..16]
  }

  /** `normalize_orcid_id`: the stripped value, dashed when it has sixteen characters. */
  function NormalizeOrcidId(value: string): (r: string)
    ensures |Strip(value)| == 16 ==> r == Dashed(Strip(value))
    ensures |Strip(value)| != 16 ==> r == Strip(value)
  {
    var v := Strip(value);
    if |v| == 16 then Dashed(v) else v
  }

  lemma {:induction false} RemoveCharConcat(a: string, b: string, c: char)
    ensures RemoveChar(a + b, c) == RemoveChar(a, c) + RemoveChar(b, c)
  {
    if a == [] {
      assert a + b == b;
    } else {
      assert (a + b)[0] == a[0] && (a + b)[1..] == a[1..] + b;
      RemoveCharConcat(a[1..], b, c);
    }
  }

  lemma {:induction false} RemoveCharAbsent(s: string, c: char)
    requires c !in s
    ensures RemoveChar(s, c) == s
  {
    if s != [] {
      assert s[1..] + [] == s[1..];
      RemoveCharAbsent(s[1..], c);
    }
  }

  /** Removing the dashes after a dash-free piece keeps the piece. */
  lemma DashStep(x: string, p: string)
    requires '-' !in p
    ensures RemoveChar(x + "-" + p, '-') == RemoveChar(x, '-') + p
  {
    RemoveCharConcat(x, "-", '-');
    RemoveDashAlone();
    var rx := RemoveChar(x, '-');
    assert rx + [] == rx;
    assert RemoveChar(x + "-", '-') == rx;
    RemoveCharConcat(x + "-", p, '-');
    RemoveCharAbsent(p, '-');
  }

  lemma RemoveDashAlone()
    ensures RemoveChar("-", '-') == []
  {
    assert "-"[1..] == [];
  }

  /** The dashed form without its dashes: the first group as cleaned, then the other three. */
  lemma UndashPieces(v: string)
    requires |v| == 16 && '-' !in v[4..8] && '-' !in v[8..12] && '-' !in v[12..16]
    ensures RemoveChar(Dashed(v), '-') == RemoveChar(v[0..4], '-') + v[4..8] + v[8..12] + v[12..16]
  {
    var x2 := v[0..4] + "-" + v[4..8];
    var x3 := x2 + "-" + v[8..12];
    assert Dashed(v) == x3 + "-" + v[12..16];
    DashStep(x3, v[12..16]);
    DashStep(x2, v[8..12]);
    DashStep(v[0..4], v[4..8]);
  }

  /** Removing the dashes of the dashed form gives back sixteen dash-free characters. */
  lemma UndashDashed(v: string)
    requires |v| == 16 && '-' !in v
    ensures RemoveChar(Dashed(v), '-') == v
  {
    assert forall x :: x in v[0..4] || x in v[4..8] || x in v[8..12] || x in v[12..16] ==> x in v;
    UndashPieces(v);
    RemoveCharAbsent(v[0..4], '-');
    assert v == v[0..4] + v[4..8] + v[8..12] + v[12..16];
  }

  /** The body of a valid id is digits with perhaps a final check character: no dash, no space at either end. */
  lemma ValidBodyShape(value: string)
    requires IsOrcidId(value)
    ensures '-' !in OrcidBody(value).value
    ensures !IsSpace(OrcidBody(value).value[0]) && !IsSpace(OrcidBody(value).value[15])
  {
    var w := OrcidBody(value).value;
    var r := DropCheckX(w);
    forall i | 0 <= i < 16 ensures w[i] != '-' && !IsSpace(w[i]) {
      if i < |r| {
        assert r[i] == w[i] && IsDigit(r[i]);
      }
    }
  }

  /** For a valid id, the dashed form `normalize_orcid_id` stores is itself valid and has the same body. */
  lemma NormalizeKeepsValid(value: string)
    requires IsOrcidId(value)
    ensures |NormalizeOrcidId(value)| == 19
    ensures OrcidBody(NormalizeOrcidId(value)) == OrcidBody(value)
    ensures IsOrcidId(NormalizeOrcidId(value))
  {
    var v := Strip(value);
    var w := OrcidBody(value).value;
    ValidBodyShape(value);
    if |v| == 16 {
      var n := Dashed(v);
      assert n[0] == v[0] && n[18] == v[15];
      StripOfStripped(n);
      UndashDashed(v);
    } else {
      StripIdempotent(value);
    }
  }

  /** `normalize_orcid_id` is idempotent. */
  lemma NormalizeIdempotent(value: string)
    ensures NormalizeOrcidId(NormalizeOrcidId(value)) == NormalizeOrcidId(value)
  {
    var v := Strip(value);
    StripIdempotent(value);
    if |v| == 16 {
      var n := Dashed(v);
      assert n[0] == v[0] && n[18] == v[15];
      StripOfStripped(n);
    }
  }

  /** Every id the intended check accepts passes the check as written. */
  lemma IntendedPassesAsWritten(value: string)
    requires IsOrcidId(value)
    ensures IsOrcidIdAsWritten(value)
  {
    var r := DropCheckX(OrcidBody(value).value);
    assert r != [];
    AllDigitsIsInt(r);
  }

  lemma AllDigitsIsInt(d: string)
    requires d != [] && AllDigits(d)
    ensures IsInt(d)
  {
    AllDigitsGroups(d);
    StripOfStripped(d);
  }

  /**
   * The check as written lets a sign through: a minus sign followed by
   * fifteen digits (such as "-000000000000000") is accepted although it is
   * not sixteen digits, and its normalised form is then refused by the same
   * check.
   */
  lemma SignedIdAccepted(z: string)
    requires |z| == 15 && AllDigits(z)
    ensures IsOrcidIdAsWritten("-" + z)
    ensures !IsOrcidId("-" + z)
    ensures !IsOrcidIdAsWritten(NormalizeOrcidId("-" + z))
  {
    SignedBody(z);
    AllDigitsGroups(z);
    ParseMinusGroups(z);
    SignedNormalRefused(z);
  }

  lemma SignedBody(z: string)
    requires |z| == 15 && AllDigits(z)
    ensures OrcidBody("-" + z) == Some("-" + z) && DropCheckX("-" + z) == "-" + z
    ensures NormalizeOrcidId("-" + z) == Dashed("-" + z)
    ensures !IsOrcidId("-" + z)
  {
    var v := "-" + z;
    assert v[0] == '-' && v[15] == z[14] && IsDigit(v[15]);
    StripOfStripped(v);
  }

  lemma DigitsNoDash(s: string, i: nat, j: nat)
    requires AllDigits(s) && i <= j <= |s|
    ensures '-' !in s[i..j]
  {
    assert forall k :: 0 <= k < j - i ==> s[i..j][k] == s[i + k];
  }

  /** The dashed form of "-" and fifteen digits loses the sign with its dashes: fifteen characters remain. */
  lemma SignedNormalRefused(z: string)
    requires |z| == 15 && AllDigits(z)
    ensures !IsOrcidIdAsWritten(NormalizeOrcidId("-" + z))
  {
    var v := "-" + z;
    SignedBody(z);
    var n := Dashed(v);
    assert n[0] == '-' && n[18] == v[15] && IsDigit(v[15]);
    StripOfStripped(n);
    assert v[1..4] == z[0..3] && v[4..8] == z[3..7] && v[8..12] == z[7..11] && v[12..16] == z[11..15];
    DigitsNoDash(z, 0, 3);
    DigitsNoDash(z, 3, 7);
    DigitsNoDash(z, 7, 11);
    DigitsNoDash(z, 11, 15);
    UndashPieces(v);
    assert v[0..4] == "-" + v[1..4];
    RemoveCharConcat("-", v[1..4], '-');
    RemoveDashAlone();
    RemoveCharAbsent(v[1..4], '-');
    assert |RemoveChar(n, '-')| == 15;
  }

  // ---------------------------------------------------------------------
  // Choosing one ORCID id per author

  /** The first candidate that is non-empty and valid, stored normalised, with its source 1, 2 or 3; else ('', 0). */
  function ChooseValidOrcid(op: string, ou: string, oo: string): (c: AdsBuddy.Choice)
    ensures 0 <= c.src <= 3
    ensures c.src == 0 <==> !IsOrcidId(op) && !IsOrcidId(ou) && !IsOrcidId(oo)
  {
    if op != "" && IsOrcidId(op) then AdsBuddy.Choice(NormalizeOrcidId(op), 1)
    else if ou != "" && IsOrcidId(ou) then AdsBuddy.Choice(NormalizeOrcidId(ou), 2)
    else if oo != "" && IsOrcidId(oo) then AdsBuddy.Choice(NormalizeOrcidId(oo), 3)
    else AdsBuddy.Choice("", 0)
  }

  /** The source says which candidate won: the first valid one, none when none is; only a valid id is stored. */
  lemma ChoiceValid(op: string, ou: string, oo: string)
    ensures var c := ChooseValidOrcid(op, ou, oo);
      && 0 <= c.src <= 3
      && (c.id == "" <==> c.src == 0)
      && (c.src == 0 <==> !IsOrcidId(op) && !IsOrcidId(ou) && !IsOrcidId(oo))
      && (c.src == 1 ==> IsOrcidId(op) && c.id == NormalizeOrcidId(op))
      && (c.src == 2 ==> !IsOrcidId(op) && IsOrcidId(ou) && c.id == NormalizeOrcidId(ou))
      && (c.src == 3 ==> !IsOrcidId(op) && !IsOrcidId(ou) && IsOrcidId(oo) && c.id == NormalizeOrcidId(oo))
      && (c.id == "" || (IsOrcidId(c.id) && NormalizeOrcidId(c.id) == c.id))
  {
    if IsOrcidId(op) {
      assert op != "";
      NormalizeKeepsValid(op);
      NormalizeIdempotent(op);
    } else if IsOrcidId(ou) {
      assert ou != "";
      NormalizeKeepsValid(ou);
      NormalizeIdempotent(ou);
    } else if IsOrcidId(oo) {
      assert oo != "";
      NormalizeKeepsValid(oo);
      NormalizeIdempotent(oo);
    }
  }

  /** `zip` of the three ORCID lists. */
  function Zip3(ls: (seq<string>, seq<string>, seq<string>)): (r: seq<(string, string, string)>)
    ensures |r| == AdsBuddy.Min3(|ls.0|, |ls.1|, |ls.2|)
    ensures forall i :: 0 <= i < |r| ==> r[i] == (ls.0[i], ls.1[i], ls.2[i])
  {
    var m := AdsBuddy.Min3(|ls.0|, |ls.1|, |ls.2|);
    seq(m, i requires 0 <= i < m => (ls.0[i], ls.1[i], ls.2[i]))
  }

  function ChooseTriple(t: (string, string, string)): AdsBuddy.Choice {
    ChooseValidOrcid(t.0, t.1, t.2)
  }

  /** The validating choice for each position of the zipped lists. */
  function ValidChoices(ls: (seq<string>, seq<string>, seq<string>)): (cs: seq<AdsBuddy.Choice>)
    ensures |cs| == AdsBuddy.Min3(|ls.0|, |ls.1|, |ls.2|)
  {
    AdsBuddy.MapEach(ChooseTriple, Zip3(ls))
  }

  lemma ValidChoicesAt(ls: (seq<string>, seq<string>, seq<string>), i: nat)
    requires i < AdsBuddy.Min3(|ls.0|, |ls.1|, |ls.2|)
    ensures ValidChoices(ls)[i] == ChooseValidOrcid(ls.0[i], ls.1[i], ls.2[i])
  {
    AdsBuddy.MapEachAt(ChooseTriple, Zip3(ls), i);
  }

  /** The record `_article_to_record` builds, before the authors are filtered. */
  function ArticleData(a: AdsBuddy.Article): (r: Option<RecordData>)
    ensures r == AdsBuddy.RecordOf(a, ValidChoices(AdsBuddy.OrcidLists(a)))
  {
    AdsBuddy.RecordOf(a, ValidChoices(AdsBuddy.OrcidLists(a)))
  }

  /** Every id the record stores is empty or a valid id already in normalised form. */
  lemma StoredIdsNormalised(a: AdsBuddy.Article, i: nat)
    requires ArticleData(a).Some? && i < |ArticleData(a).value.orcidIds|
    ensures var id := ArticleData(a).value.orcidIds[i];
            id == "" || (IsOrcidId(id) && NormalizeOrcidId(id) == id)
  {
    var ls := AdsBuddy.OrcidLists(a);
    ValidChoicesAt(ls, i);
    ChoiceValid(ls.0[i], ls.1[i], ls.2[i]);
  }

  /** An article whose lists fit its author list yields a consistent record. */
  lemma ArticleDataConsistent(a: AdsBuddy.Article)
    requires a.title != Some([]) && |a.aff| == |a.author| && AdsBuddy.OrcidListsFit(a)
    ensures ArticleData(a).Some? && Consistent(ArticleData(a).value)
  {
    var ls := AdsBuddy.OrcidLists(a);
    assert |ls.0| == |a.author| && |ls.1| == |a.author| && |ls.2| == |a.author|;
    var d := ArticleData(a).value;
    forall i | 0 <= i < |d.authors| ensures d.orcidIds[i] == "" <==> d.orcidIdSrc.list[i] == 0 {
      ValidChoicesAt(ls, i);
      ChoiceValid(ls.0[i], ls.1[i], ls.2[i]);
    }
  }

  /** The loop of `_article_to_record` over the zipped ORCID lists. */
  method ChooseValidOrcids(ps: seq<string>, us: seq<string>, os: seq<string>) returns (ids: seq<string>, srcs: seq<int>)
    ensures ids == AdsBuddy.Ids(ValidChoices((ps, us, os))) && srcs == AdsBuddy.Srcs(ValidChoices((ps, us, os)))
  {
    ids, srcs := ChooseEach(ChooseTriple, ps, us, os);
  }

  /** One choice per position of the zipped lists, appended in order; stated for any chooser. */
  method ChooseEach(choose: ((string, string, string)) -> AdsBuddy.Choice, ps: seq<string>, us: seq<string>, os: seq<string>)
    returns (ids: seq<string>, srcs: seq<int>)
    ensures ids == AdsBuddy.Ids(AdsBuddy.MapEach(choose, Zip3((ps, us, os))))
    ensures srcs == AdsBuddy.Srcs(AdsBuddy.MapEach(choose, Zip3((ps, us, os))))
  {
    var m := AdsBuddy.Min3(|ps|, |us|, |os|);
    ghost var cs := AdsBuddy.MapEach(choose, Zip3((ps, us, os)));
    ids, srcs := [], [];
    var i := 0;
    while i < m
      invariant 0 <= i <= m
      invariant |ids| == i && |srcs| == i
      invariant forall j :: 0 <= j < i ==> ids[j] == cs[j].id
      invariant forall j :: 0 <= j < i ==> srcs[j] == cs[j].src
    {
      var c := choose((ps[i], us[i], os[i]));
      AdsBuddy.MapEachAt(choose, Zip3((ps, us, os)), i);
      ids, srcs := ids + [c.id], srcs + [c.src];
      i := i + 1;
    }
  }

  /**
   * `_article_to_record`: builds the record and then removes, in place and
   * in reverse index order, every author that does not parse or is a
   * placeholder.
   */
  method ArticleToRecord(a: AdsBuddy.Article, now: int) returns (rec: DocumentRecord?)
    requires |a.aff| >= |a.author|
    ensures rec == null <==> ArticleData(a).None?
    ensures rec != null ==> fresh(rec) && rec.Data() == AdsBuddy.FilteredData(ArticleData(a).value.(timestamp := now))
  {
    var ls := AdsBuddy.OrcidLists(a);
    var ids, srcs := ChooseValidOrcids(ls.0, ls.1, ls.2);
    var d := AdsBuddy.RecordOf(a, []);
    if d.None? {
      return null;
    }
    assert d.value.(orcidIds := ids, orcidIdSrc := SrcList(srcs)) == ArticleData(a).value;
    rec := new DocumentRecord(d.value.(orcidIds := ids, orcidIdSrc := SrcList(srcs)), now);
    var names := AdsBuddy.FilterInvalidAuthors(rec);
  }

  /** Filtering keeps a record consistent, so the built record survives the cache round trip. */
  lemma FilteredConsistent(d: RecordData)
    requires Consistent(d)
    ensures Consistent(AdsBuddy.FilteredData(d))
  {
    var m := AdsBuddy.Flags(d.authors);
    var f := AdsBuddy.FilteredData(d);
    AdsBuddy.KeepGoodLength(d.authors, d.affils, m);
    AdsBuddy.KeepGoodLength(d.authors, d.orcidIds, m);
    AdsBuddy.KeepGoodLength(d.authors, d.orcidIdSrc.list, m);
    forall j | 0 <= j < |f.authors| ensures f.orcidIds[j] == "" <==> f.orcidIdSrc.list[j] == 0 {
      AdsBuddy.KeepGoodAligned(d.orcidIds, d.orcidIdSrc.list, m, j);
    }
  }

  // ---------------------------------------------------------------------
  // Looking up papers by ORCID id

  /** `list.index(x)`: the first position of `x`, `None` where it raises ValueError. */
  function FirstIndexOf(s: seq<string>, x: string): (r: Option<nat>)
    ensures r.Some? ==> r.value < |s| && s[r.value] == x && x !in s[..r.value]
    ensures r.None? ==> x !in s
  {
    if s == [] then None
    else if s[0] == x then Some(0)
    else match FirstIndexOf(s[1..], x)
      case None => None
      case Some(i) => assert s[..i + 1] == [s[0]] + s[1..][..i]; Some(i + 1)
  }

  /** No document lists more ORCID ids than authors, so `authors[i]` never raises. */
  predicate IdsFit(docs: seq<RecordData>) {
    forall k :: 0 <= k < |docs| ==> |docs[k].orcidIds| <= |docs[k].authors|
  }

  /** The bibcodes of the documents whose ids contain `id`, in document order. */
  function OrcidHits(docs: seq<RecordData>, id: string): seq<string> {
    if docs == [] then []
    else
      var n := |docs| - 1;
      OrcidHits(docs[..n], id) + (if id in docs[n].orcidIds then [docs[n].bibcode] else [])
  }

  /** The author string at the first position of `id` in one document. */
  function AuthorFor(d: RecordData, id: string): (r: Option<string>)
    requires |d.orcidIds| <= |d.authors|
    ensures r.Some? <==> id in d.orcidIds
  {
    match FirstIndexOf(d.orcidIds, id)
    case None => None
    case Some(i) => Some(d.authors[i])
  }

  /** The set `names` of the loop, in first-insertion order. */
  function SeenNames(docs: seq<RecordData>, id: string): seq<string>
    requires IdsFit(docs)
  {
    if docs == [] then []
    else
      var n := |docs| - 1;
      var s := SeenNames(docs[..n], id);
      match AuthorFor(docs[n], id)
      case None => s
      case Some(x) => if x in s then s else s + [x]
  }

  lemma OrcidHitsSnoc(docs: seq<RecordData>, d: RecordData, id: string)
    ensures OrcidHits(docs + [d], id) == OrcidHits(docs, id) + (if id in d.orcidIds then [d.bibcode] else [])
  {
    assert (docs + [d])[..|docs|] == docs;
  }

  lemma SeenNamesSnoc(docs: seq<RecordData>, d: RecordData, id: string)
    requires IdsFit(docs) && |d.orcidIds| <= |d.authors|
    ensures IdsFit(docs + [d])
    ensures SeenNames(docs + [d], id) ==
            match AuthorFor(d, id)
            case None => SeenNames(docs, id)
            case Some(x) => if x in SeenNames(docs, id) then SeenNames(docs, id) else SeenNames(docs, id) + [x]
  {
    assert (docs + [d])[..|docs|] == docs;
    assert forall k :: 0 <= k < |docs| ==> (docs + [d])[k] == docs[k];
  }

  /** A bibcode is kept exactly when some document with that bibcode lists the id. */
  lemma {:induction false} OrcidHitsMembers(docs: seq<RecordData>, id: string, b: string)
    ensures b in OrcidHits(docs, id) <==> exists k :: 0 <= k < |docs| && id in docs[k].orcidIds && docs[k].bibcode == b
  {
    if docs != [] {
      var n := |docs| - 1;
      OrcidHitsMembers(docs[..n], id, b);
      assert forall k :: 0 <= k < n ==> docs[..n][k] == docs[k];
      if b in OrcidHits(docs, id) && b !in OrcidHits(docs[..n], id) {
        assert id in docs[n].orcidIds && docs[n].bibcode == b;
      }
    }
  }

  /** The seen names hold no duplicate, and are exactly the authors at the id's first position. */
  lemma {:induction false} SeenNamesMembers(docs: seq<RecordData>, id: string)
    requires IdsFit(docs)
    ensures forall i, j :: 0 <= i < j < |SeenNames(docs, id)| ==> SeenNames(docs, id)[i] != SeenNames(docs, id)[j]
    ensures forall x :: x in SeenNames(docs, id) <==> exists k :: 0 <= k < |docs| && AuthorFor(docs[k], id) == Some(x)
  {
    if docs != [] {
      var n := |docs| - 1;
      assert IdsFit(docs[..n]) by {
        assert forall k :: 0 <= k < n ==> docs[..n][k] == docs[k];
      }
      SeenNamesMembers(docs[..n], id);
      assert forall k :: 0 <= k < n ==> docs[..n][k] == docs[k];
    }
  }

  /** The loop of `get_papers_for_orcid_id` over the documents. */
  method CollectOrcidHits(docs: seq<RecordData>, id: string) returns (hits: seq<string>, seen: seq<string>)
    requires IdsFit(docs)
    ensures hits == OrcidHits(docs, id) && seen == SeenNames(docs, id)
  {
    hits, seen := [], [];
    var k := 0;
    while k < |docs|
      invariant 0 <= k <= |docs|
      invariant IdsFit(docs[..k])
      invariant hits == OrcidHits(docs[..k], id) && seen == SeenNames(docs[..k], id)
    {
      var next := k + 1;
      AdsBuddy.TakeNext(docs, k, next);
      OrcidHitsSnoc(docs[..k], docs[k], id);
      SeenNamesSnoc(docs[..k], docs[k], id);
      var i := FirstIndexOf(docs[k].orcidIds, id);
      if i.Some? {
        hits := hits + [docs[k].bibcode];
        var x := docs[k].authors[i.value];
        if x !in seen {
          seen := seen + [x];
        }
      }
      k := next;
    }
    AdsBuddy.TakeAll(docs, k);
  }

  // ---------------------------------------------------------------------
  // Choosing the record's name

  /** Why `sort` raises: two `ADSName`s were compared with `<`, which the class does not define. */
  datatype TypeError = Unorderable

  /** The sort key of a seen name: `(level_of_detail, len(full_name))`. */
  function Rank(n: ADSName): (r: (int, int))
    ensures 100 <= r.0 <= 133 && r.1 >= |n.lastName|
    ensures r.0 >= 120 <==> n.first.name.Some?
  {
    (LevelOfDetail(n), |FullName(n)|)
  }

  /**
   * Python's `<` on two `(level_of_detail, len(full_name), name)` tuples, as
   * the sort uses it: the first differing position decides, with `==` on the
   * names; when the numbers tie and the names are not equal the names
   * themselves are compared with `<`, and that raises.
   */
  function TupleLess(a: (int, int, ADSName), b: (int, int, ADSName)): (r: Result<bool, TypeError>)
    ensures r.Err? <==> a.0 == b.0 && a.1 == b.1 && !Equals(a.2, b.2)
  {
    if a.0 != b.0 then Ok(a.0 < b.0)
    else if a.1 != b.1 then Ok(a.1 < b.1)
    else if Equals(a.2, b.2) then Ok(false)
    else Err(Unorderable)
  }

  function Entry(n: ADSName): (int, int, ADSName) {
    (LevelOfDetail(n), |FullName(n)|, n)
  }

  /** A name with a surname and a first name only. */
  function GivenName(last: string, given: string): ADSName {
    ADSName(last, Part(Some(given), None), NoPart, false, false, false, "")
  }

  /**
   * Two names with one surname and different first names of one length,
   * such as "smith, john" and "smith, jane", have the same level of detail
   * and length but are not equal, so comparing their entries, as sorting a
   * list of the two must, raises TypeError.
   */
  lemma NameTieRaises(last: string, g1: string, g2: string, o1: string, o2: string)
    requires |g1| == |g2| && g1 != g2
    ensures TupleLess(Entry(GivenName(last, g1).(originalName := o1)), Entry(GivenName(last, g2).(originalName := o2))) == Err(Unorderable)
  {
    var a, b := GivenName(last, g1).(originalName := o1), GivenName(last, g2).(originalName := o2);
    assert LevelOfDetail(a) == 120 == LevelOfDetail(b);
    assert |PartText(", ", a.first)| == 2 + |g1| && |PartText(", ", b.first)| == 2 + |g2|;
    assert PartText(" ", NoPart) == [];
    assert |FullName(a)| == |FullName(b)|;
    assert !PartsMatch(a.first, b.first);
  }

  /** Such names are what parsing their text yields, so the tie arises from the parsed seen names. */
  lemma ParsedTie(last: string, g1: string, g2: string)
    requires Canonical(GivenName(last, g1)) && Canonical(GivenName(last, g2))
    requires |g1| == |g2| && g1 != g2
    ensures Parse(Str(GivenName(last, g1))).Ok? && Parse(Str(GivenName(last, g2))).Ok?
    ensures TupleLess(Entry(Parse(Str(GivenName(last, g1))).value), Entry(Parse(Str(GivenName(last, g2))).value)) == Err(Unorderable)
  {
    StrRoundTrip(GivenName(last, g1));
    StrRoundTrip(GivenName(last, g2));
    NameTieRaises(last, g1, g2, Str(GivenName(last, g1)), Str(GivenName(last, g2)));
  }

  /** The tie is reachable: "smith, john" and "smith, jane" meet the conditions above. */
  lemma SmithTie()
    ensures Canonical(GivenName("smith", "john")) && Canonical(GivenName("smith", "jane"))
  {
    assert IsLowered("smith") && IsLowered("john") && IsLowered("jane");
    assert NoSpace("john") && NoSpace("jane");
  }

  predicate LexLess(a: (int, int), b: (int, int)) {
    a.0 < b.0 || (a.0 == b.0 && a.1 < b.1)
  }

  /** The first entry of `s` whose rank no other entry exceeds. */
  function BestBy<T>(rank: T -> (int, int), s: seq<T>): (r: T)
    requires s != []
    ensures r in s
    ensures forall x :: x in s ==> !LexLess(rank(r), rank(x))
  {
    if |s| == 1 then s[0]
    else
      var rest := BestBy(rank, s[1..]);
      assert forall x :: x in s ==> x == s[0] || x in s[1..];
      if LexLess(rank(s[0]), rank(rest)) then rest else s[0]
  }

  /** `[f(x) for x in s]` for a call that can raise: the first error, or every result. */
  function AllOk<T, E>(rs: seq<Result<T, E>>): (r: Result<seq<T>, E>)
    ensures r.Ok? ==> |r.value| == |rs| && forall i :: 0 <= i < |rs| ==> rs[i] == Ok(r.value[i])
    ensures r.Err? ==> exists i :: 0 <= i < |rs| && rs[i].Err? && rs[i].error == r.error
  {
    if rs == [] then Ok([])
    else match rs[0]
      case Err(e) => Err(e)
      case Ok(v) =>
        match AllOk(rs[1..])
        case Err(e) => Err(e)
        case Ok(vs) => Ok([v] + vs)
  }

  function ParseResults(names: seq<string>): seq<Result<ADSName, NameError>> {
    AdsBuddy.MapEach(Parse, names)
  }

  /**
   * The name of the record `get_papers_for_orcid_id` returns: the parsed id
   * when no document lists it, otherwise the most detailed seen name, the
   * longest among equally detailed ones.
   */
  function OrcidRecordName(docs: seq<RecordData>, id: string): (r: Result<ADSName, NameError>)
    requires IdsFit(docs)
    ensures Parse(id).Err? ==> r.Err?
    ensures r.Err? ==> Unparsable(id) || SomeUnparsable(SeenNames(docs, id))
  {
    var p := Parse(id);
    if p.Err? then Err(p.error)
    else
      var seen := SeenNames(docs, id);
      if seen == [] then Ok(p.value)
      else
        var all := AllOk(ParseResults(seen));
        if all.Err? then ParseResultsErr(seen); Err(all.error)
        else Ok(BestBy(Rank, all.value))
  }

  /** `ADSName.parse` raises on the text. */
  predicate Unparsable(s: string) {
    Parse(s).Err?
  }

  /** Some name of the list does not parse. */
  predicate SomeUnparsable(names: seq<string>) {
    exists k :: 0 <= k < |names| && Unparsable(names[k])
  }

  /** When parsing the seen names fails, one of them does not parse. */
  lemma ParseResultsErr(names: seq<string>)
    requires AllOk(ParseResults(names)).Err?
    ensures SomeUnparsable(names)
  {
    var rs := ParseResults(names);
    var i :| 0 <= i < |rs| && rs[i].Err?;
    AdsBuddy.MapEachAt(Parse, names, i);
  }

  /** The best of all-successful results is one of them, and no result ranks above it. */
  lemma BestOfAllOk<T, E>(rank: T -> (int, int), rs: seq<Result<T, E>>)
    requires rs != [] && AllOk(rs).Ok?
    ensures exists k :: 0 <= k < |rs| && rs[k] == Ok(BestBy(rank, AllOk(rs).value))
    ensures forall k :: 0 <= k < |rs| ==> rs[k].Ok? && !LexLess(rank(BestBy(rank, AllOk(rs).value)), rank(rs[k].value))
  {
    var vs := AllOk(rs).value;
    var best := BestBy(rank, vs);
    var i :| 0 <= i < |vs| && vs[i] == best;
    assert rs[i] == Ok(best);
    forall k | 0 <= k < |rs| ensures rs[k].Ok? && !LexLess(rank(best), rank(rs[k].value)) {
      assert rs[k] == Ok(vs[k]);
      assert vs[k] in vs;
    }
  }

  /** The chosen name is the parse of a seen name, and no seen name is more detailed. */
  lemma OrcidRecordNameBest(docs: seq<RecordData>, id: string)
    requires IdsFit(docs) && OrcidRecordName(docs, id).Ok? && SeenNames(docs, id) != []
    ensures exists k :: 0 <= k < |SeenNames(docs, id)| && Parse(SeenNames(docs, id)[k]) == OrcidRecordName(docs, id)
    ensures forall k :: 0 <= k < |SeenNames(docs, id)| ==>
              Parse(SeenNames(docs, id)[k]).Ok? &&
              !LexLess(Rank(OrcidRecordName(docs, id).value), Rank(Parse(SeenNames(docs, id)[k]).value))
  {
    var seen := SeenNames(docs, id);
    BestOfMapped(Parse, Rank, seen);
    assert OrcidRecordName(docs, id) == Ok(BestBy(Rank, AllOk(AdsBuddy.MapEach(Parse, seen)).value));
  }

  lemma BestOfMapped<T, E>(f: string -> Result<T, E>, rank: T -> (int, int), s: seq<string>)
    requires s != [] && AllOk(AdsBuddy.MapEach(f, s)).Ok?
    ensures exists k :: 0 <= k < |s| && f(s[k]) == Ok(BestBy(rank, AllOk(AdsBuddy.MapEach(f, s)).value))
    ensures forall k :: 0 <= k < |s| ==>
              f(s[k]).Ok? && !LexLess(rank(BestBy(rank, AllOk(AdsBuddy.MapEach(f, s)).value)), rank(f(s[k]).value))
  {
    var rs := AdsBuddy.MapEach(f, s);
    BestOfAllOk(rank, rs);
    forall k | 0 <= k < |s| ensures rs[k] == f(s[k]) {
      AdsBuddy.MapEachAt(f, s, k);
    }
  }

  /** The parses of the seen names, or the first error. */
  method ParseAllNames(names: seq<string>) returns (r: Result<seq<ADSName>, NameError>)
    ensures r == AllOk(ParseResults(names))
  {
    var rs := ParseResults(names);
    r := AllOk(rs);
  }

  /**
   * `get_papers_for_orcid_id` after the query, with the name choice
   * corrected to take the most detailed seen name: `documents` are the
   * records the query returned.
   */
  method GetPapersForOrcidId(orcidId: string, documents: seq<RecordData>, now: int)
    returns (r: Result<AuthorRecord, NameError>)
    requires IdsFit(documents)
    ensures r.Ok? <==> OrcidRecordName(documents, NormalizeOrcidId(orcidId)).Ok?
    ensures r.Err? ==> r.error == OrcidRecordName(documents, NormalizeOrcidId(orcidId)).error
    ensures r.Ok? ==> fresh(r.value)
    ensures r.Ok? ==> r.value.Data() == AuthorData(OrcidRecordName(documents, NormalizeOrcidId(orcidId)).value,
                                                   OrcidHits(documents, NormalizeOrcidId(orcidId)), map[], map[], now)
  {
    var id := NormalizeOrcidId(orcidId);
    var start := Parse(id);
    if start.Err? {
      return Err(start.error);
    }
    var hits, seen := CollectOrcidHits(documents, id);
    var name := start.value;
    if seen != [] {
      var parsed := ParseAllNames(seen);
      if parsed.Err? {
        return Err(parsed.error);
      }
      name := BestBy(Rank, parsed.value);
    }
    var rec := new AuthorRecord(name, hits, now);
    r := Ok(rec);
  }
}
