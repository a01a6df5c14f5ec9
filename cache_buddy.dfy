/**
 * The record cache (cache_buddy.py): documents and author records are kept
 * in two in-memory maps in front of a backing store.  The backing store is
 * modelled as two more maps holding what was stored, with its format
 * version; its batching, its own staleness sweep and its I/O are not
 * modelled.  Times are whole seconds passed in as `now`.
 */
module CacheBuddy {

  import opened Wrappers
  import opened PyStr
  import opened AdsName
  import opened DocumentRecords
  import opened AuthorRecords

  /** Records older than this are not loaded (one month). */
  const MaximumAge: int := 31 * 24 * 60 * 60
  /** Records older than this are dropped from memory by `refresh` (one month less 1.1 days). */
  const MaximumAgeAuto: int := MaximumAge - 95040

  const AuthorVersion: int := 1
  const DocumentVersion: int := 1

  /** What a record is stored as: its data and the format version written beside it (-1 when absent). */
  datatype Stored<T> = Stored(data: T, version: int)

  /** An author record as stored: the name as its original text. */
  datatype StoredAuthor = StoredAuthor(
    name: string,
    documents: seq<string>,
    coauthors: map<string, seq<string>>,
    appearsAs: map<string, seq<string>>,
    timestamp: int)

  /** Where `_prepare_loaded_*` gets its data: the in-memory object, the backing store, or nothing. */
  datatype Source<M, S> = InMemory(record: M) | FromStore(stored: Stored<S>) | Absent

  datatype CacheError =
    | InvalidKey(key: string)   // RuntimeError from `cache_*`
    | CacheMiss(key: string)    // stale or old-format data
    | Malformed                 // the stored data cannot be turned back into a record
    | NoData                    // TypeError: `_prepare_loaded_author` was given None

  // ---------------------------------------------------------------------
  // Keys

  /** A character `key_is_valid` allows: printable and not one of the reserved punctuation marks. */
  predicate AllowedChar(c: char) {
    IsPrintable(c) && c !in "_*/\\;:?\"|+[{]}()#$%^"
  }

  /** `key_is_valid`. */
  predicate KeyIsValid(name: string) {
    if name == "." || name == ".." || name == "," || |name| > 255 || |name| == 0 then false
    else if '<' in name && '>' in name then false
    else forall i :: 0 <= i < |name| ==> AllowedChar(name[i])
  }

  /** A valid key is one to 255 characters, none of them a path separator, and never a path step. */
  lemma ValidKeyIsSafe(key: string)
    requires KeyIsValid(key)
    ensures 0 < |key| <= 255
    ensures key != "." && key != ".." && key != ","
    ensures '/' !in key && '\\' !in key && !('<' in key && '>' in key)
    ensures forall i :: 0 <= i < |key| ==> IsPrintable(key[i])
  {
    forall i | 0 <= i < |key| ensures key[i] != '/' && key[i] != '\\' {
      assert AllowedChar(key[i]);
    }
  }

  /** The character rule decides validity once the reserved names, the length and the angle brackets are ruled out. */
  lemma KeyValidityByChars(key: string)
    requires key != "." && key != ".." && key != "," && 0 < |key| <= 255 && !('<' in key && '>' in key)
    ensures KeyIsValid(key) <==> forall i :: 0 <= i < |key| ==> AllowedChar(key[i])
  {
  }

  /** A key holding a reserved character anywhere is invalid. */
  lemma ReservedCharInvalid(key: string, i: nat)
    requires i < |key| && key[i] in "_*/\\;:?\"|+[{]}()#$%^"
    ensures !KeyIsValid(key)
  {
    assert !AllowedChar(key[i]);
  }

  // ---------------------------------------------------------------------
  // Staleness

  /** The keys `refresh` drops: those whose record is more than MaximumAgeAuto seconds old. */
  function StaleKeys<T>(m: map<string, T>, stamp: T -> int, now: int): (r: set<string>)
    ensures r <= m.Keys
  {
    set k | k in m && now - stamp(m[k]) > MaximumAgeAuto
  }

  function DocStamp(d: RecordData): int { d.timestamp }
  function AuthorStamp(a: AuthorData): int { a.timestamp }

  /** The two loops of `refresh` for one map: collect the old keys, then delete each. */
  method DropStale<T>(m: map<string, T>, stamp: T -> int, now: int) returns (r: map<string, T>)
    ensures forall k :: k in r <==> k in m && now - stamp(m[k]) <= MaximumAgeAuto
    ensures forall k :: k in r ==> r[k] == m[k]
  {
    var stale := StaleKeys(m, stamp, now);
    r := m;
    var todo := stale;
    while todo != {}
      invariant todo <= stale
      invariant r == m - (stale - todo)
      decreases |todo|
    {
      var k :| k in todo;
      r := r - {k};
      todo := todo - {k};
    }
  }

  // ---------------------------------------------------------------------
  // Preparing loaded data

  /** A record loaded from the store: the constructor stamps a missing (-1) timestamp with `now`, then `decompress`. */
  function DocumentOfStored(s: Stored<RecordData>, now: int): Option<RecordData> {
    DecompressData(s.data.(timestamp := if s.data.timestamp == -1 then now else s.data.timestamp))
  }

  /** An author record loaded from the store: its name text parsed again. */
  function AuthorOfStored(s: Stored<StoredAuthor>, now: int): Option<AuthorData> {
    match Parse(s.data.name)
    case Err(_) => None
    case Ok(n) => Some(AuthorData(n, s.data.documents, s.data.coauthors, s.data.appearsAs, s.data.timestamp))
  }

  function DocumentKey(d: RecordData): string { d.bibcode }
  function AuthorKey(a: AuthorData): string { Str(a.name) }

  /** Too old to use, or written in another format. */
  predicate Unusable(timestamp: int, version: int, current: int, now: int) {
    now - timestamp > MaximumAge || version != current
  }

  /**
   * What the `_prepare_loaded_*` functions return for data that is there,
   * for either kind of record: `decode` turns stored data back into a
   * record, `stamp` and `key` read its timestamp and cache key.
   */
  function Prepared<M, S>(src: Source<M, S>, decode: (Stored<S>, int) -> Option<M>, stamp: M -> int,
                          key: M -> string, current: int, now: int): (r: Result<M, CacheError>)
    requires !src.Absent?
    ensures src.InMemory? ==>
              r == if Unusable(stamp(src.record), current, current, now)
                   then Err(CacheMiss(key(src.record))) else Ok(src.record)
    ensures src.FromStore? && decode(src.stored, now).None? ==> r == Err(Malformed)
    ensures src.FromStore? && decode(src.stored, now).Some? ==>
              var m := decode(src.stored, now).value;
              r == if Unusable(stamp(m), src.stored.version, current, now) then Err(CacheMiss(key(m))) else Ok(m)
  {
    match src
    case InMemory(m) =>
      if Unusable(stamp(m), current, current, now) then Err(CacheMiss(key(m))) else Ok(m)
    case FromStore(s) =>
      match decode(s, now)
      case None => Err(Malformed)
      case Some(m) =>
        if Unusable(stamp(m), s.version, current, now) then Err(CacheMiss(key(m))) else Ok(m)
  }

  /** What `_prepare_loaded_document` returns: nothing for absent data, otherwise as `Prepared`. */
  function PreparedDocument(src: Source<RecordData, RecordData>, now: int): (r: Result<Option<RecordData>, CacheError>)
    ensures src.Absent? <==> r == Ok(None)
  {
    if src.Absent? then Ok(None)
    else match Prepared(src, DocumentOfStored, DocStamp, DocumentKey, DocumentVersion, now)
         case Ok(d) => Ok(Some(d))
         case Err(e) => Err(e)
  }

  /** What `_prepare_loaded_author` returns: absent data makes it raise, otherwise as `Prepared`. */
  function PreparedAuthor(src: Source<AuthorData, StoredAuthor>, now: int): (r: Result<AuthorData, CacheError>)
    ensures src.Absent? <==> r == Err(NoData)
  {
    if src.Absent? then Err(NoData)
    else Prepared(src, AuthorOfStored, AuthorStamp, AuthorKey, AuthorVersion, now)
  }

  /** `PrepareIn` for author records, which are keyed by `str(name)`. */
  method PrepareAuthorIn(loaded: map<string, AuthorData>, stored: map<string, Stored<StoredAuthor>>,
                         src: Source<AuthorData, StoredAuthor>, now: int, storeOk: bool)
    returns (r: Result<AuthorData, CacheError>, loaded': map<string, AuthorData>, stored': map<string, Stored<StoredAuthor>>)
    requires !src.Absent?
    ensures r == PreparedAuthor(src, now)
    ensures r.Ok? ==> stored' == stored
    ensures r.Ok? ==> loaded' == if src.FromStore? then loaded[AuthorKey(r.value) := r.value] else loaded
    ensures r == Err(Malformed) ==> loaded' == loaded && stored' == stored
    ensures r.Err? && r.error.CacheMiss? ==>
              loaded' == loaded - {r.error.key} && stored' == if storeOk then stored - {r.error.key} else stored
  {
    r, loaded', stored' := PrepareIn(loaded, stored, src, AuthorOfStored, AuthorStamp, AuthorKey, AuthorVersion, now, storeOk);
  }

  /**
   * `_prepare_loaded_*` on the two maps of one kind of record: data read
   * from the store is put in memory first; an unusable record is then
   * deleted from memory and, when the store's delete succeeds (`storeOk`),
   * from the store, and reported as a miss.
   */
  method PrepareIn<M, S>(loaded: map<string, M>, stored: map<string, Stored<S>>, src: Source<M, S>,
                         decode: (Stored<S>, int) -> Option<M>, stamp: M -> int, key: M -> string,
                         current: int, now: int, storeOk: bool)
    returns (r: Result<M, CacheError>, loaded': map<string, M>, stored': map<string, Stored<S>>)
    requires !src.Absent?
    ensures r == Prepared(src, decode, stamp, key, current, now)
    ensures r.Ok? ==> stored' == stored
    ensures r.Ok? ==> loaded' == if src.FromStore? then loaded[key(r.value) := r.value] else loaded
    ensures r == Err(Malformed) ==> loaded' == loaded && stored' == stored
    ensures r.Err? && r.error.CacheMiss? ==>
              loaded' == loaded - {r.error.key} && stored' == if storeOk then stored - {r.error.key} else stored
  {
    var record: M;
    var version: int;
    loaded', stored' := loaded, stored;
    match src {
      case InMemory(m) =>
        record, version := m, current;
      case FromStore(s) =>
        var d := decode(s, now);
        if d.None? {
          return Err(Malformed), loaded', stored';
        }
        record, version := d.value, s.version;
        loaded' := loaded'[key(record) := record];
    }
    if now - stamp(record) > MaximumAge || version != current {
      if storeOk {
        stored' := stored' - {key(record)};
      }
      loaded' := loaded' - {key(record)};
      return Err(CacheMiss(key(record))), loaded', stored';
    }
    r := Ok(record);
  }

  /** How `cache_document` writes a document to the store. */
  function StoreDocument(d: RecordData): Stored<RecordData> {
    Stored(CompressData(d), DocumentVersion)
  }

  /** How `cache_author` writes an author record to the store: the name as its original text. */
  function StoreAuthor(a: AuthorData): Stored<StoredAuthor> {
    Stored(StoredAuthor(a.name.originalName, a.documents, a.coauthors, a.appearsAs, a.timestamp), AuthorVersion)
  }

  /**
   * A consistent document that is stored and loaded again within a month
   * comes back unchanged.
   */
  lemma DocumentStoreRoundTrip(d: RecordData, now: int)
    requires Consistent(d) && d.timestamp != -1 && now - d.timestamp <= MaximumAge
    ensures PreparedDocument(FromStore(StoreDocument(d)), now) == Ok(Some(d))
  {
    var c := CompressData(d);
    assert c.(timestamp := if c.timestamp == -1 then now else c.timestamp) == c;
    DecompressCompress(d);
    assert DocumentOfStored(StoreDocument(d), now) == Some(d);
    assert !Unusable(DocStamp(d), DocumentVersion, DocumentVersion, now);
  }

  /** A record stored in an older format is never used again. */
  lemma OldVersionMisses(s: Stored<RecordData>, now: int)
    requires s.version != DocumentVersion && DocumentOfStored(s, now).Some?
    ensures PreparedDocument(FromStore(s), now) == Err(CacheMiss(DocumentOfStored(s, now).value.bibcode))
  {
  }

  /** A name that came from parsing text is what parsing its original text gives again. */
  lemma ParsedNameReparses(s: string)
    requires Parse(s).Ok?
    ensures Parse(Parse(s).value.originalName) == Parse(s)
  {
  }

  /**
   * An author record whose name was parsed from text, stored and loaded
   * again within a month, comes back unchanged.
   */
  lemma AuthorStoreRoundTrip(a: AuthorData, s: string, now: int)
    requires Parse(s) == Ok(a.name) && now - a.timestamp <= MaximumAge
    ensures PreparedAuthor(FromStore(StoreAuthor(a)), now) == Ok(a)
  {
    ParsedNameReparses(s);
  }

  // ---------------------------------------------------------------------
  // The cache

  class Cache {
    /** `_loaded_documents`: bibcode to record. */
    var loadedDocuments: map<string, RecordData>
    /** `_loaded_authors`: `str(name)` to record. */
    var loadedAuthors: map<string, AuthorData>
    /** The backing store's documents. */
    var storedDocuments: map<string, Stored<RecordData>>
    /** The backing store's author records. */
    var storedAuthors: map<string, Stored<StoredAuthor>>

    constructor ()
      ensures loadedDocuments == map[] && loadedAuthors == map[]
      ensures storedDocuments == map[] && storedAuthors == map[]
    {
      loadedDocuments, loadedAuthors := map[], map[];
      storedDocuments, storedAuthors := map[], map[];
    }

    /** `refresh`: drops from memory every record more than MaximumAgeAuto seconds old; the store is untouched. */
    method Refresh(now: int)
      modifies this
      ensures forall k :: k in loadedDocuments <==>
                k in old(loadedDocuments) && now - old(loadedDocuments)[k].timestamp <= MaximumAgeAuto
      ensures forall k :: k in loadedAuthors <==>
                k in old(loadedAuthors) && now - old(loadedAuthors)[k].timestamp <= MaximumAgeAuto
      ensures forall k :: k in loadedDocuments ==> loadedDocuments[k] == old(loadedDocuments)[k]
      ensures forall k :: k in loadedAuthors ==> loadedAuthors[k] == old(loadedAuthors)[k]
      ensures storedDocuments == old(storedDocuments) && storedAuthors == old(storedAuthors)
    {
      loadedDocuments := DropStale(loadedDocuments, DocStamp, now);
      loadedAuthors := DropStale(loadedAuthors, AuthorStamp, now);
    }

    /** `cache_document`: an invalid bibcode raises before anything changes. */
    method CacheDocument(d: RecordData) returns (r: Result<(), CacheError>)
      modifies this
      ensures r.Err? <==> !KeyIsValid(d.bibcode)
      ensures r.Err? ==> r.error == InvalidKey(d.bibcode) && unchanged(this)
      ensures r.Ok? ==> loadedDocuments == old(loadedDocuments)[d.bibcode := d]
      ensures r.Ok? ==> storedDocuments == old(storedDocuments)[d.bibcode := StoreDocument(d)]
      ensures loadedAuthors == old(loadedAuthors) && storedAuthors == old(storedAuthors)
    {
      if !KeyIsValid(d.bibcode) {
        return Err(InvalidKey(d.bibcode));
      }
      loadedDocuments := loadedDocuments[d.bibcode := d];
      storedDocuments := storedDocuments[d.bibcode := StoreDocument(d)];
      r := Ok(());
    }

    /** `cache_author`: the key is `str(name)`; an invalid key raises before anything changes. */
    method CacheAuthor(rec: AuthorRecord) returns (r: Result<(), CacheError>)
      modifies this
      ensures r.Err? <==> !KeyIsValid(Str(rec.name))
      ensures r.Err? ==> r.error == InvalidKey(Str(rec.name)) && unchanged(this)
      ensures r.Ok? ==> loadedAuthors == old(loadedAuthors)[Str(rec.name) := rec.Data()]
      ensures r.Ok? ==> storedAuthors == old(storedAuthors)[Str(rec.name) := StoreAuthor(rec.Data())]
      ensures loadedDocuments == old(loadedDocuments) && storedDocuments == old(storedDocuments)
    {
      var key := Str(rec.name);
      if !KeyIsValid(key) {
        return Err(InvalidKey(key));
      }
      var a := rec.Data();
      loadedAuthors := loadedAuthors[key := a];
      storedAuthors := storedAuthors[key := StoreAuthor(a)];
      r := Ok(());
    }

    /**
     * `delete_document`: the in-memory entry always goes; the stored one only
     * when the store's delete succeeds (`storeOk`), a failure being logged.
     */
    method DeleteDocument(bibcode: string, storeOk: bool)
      modifies this
      ensures loadedDocuments == old(loadedDocuments) - {bibcode}
      ensures storedDocuments == if storeOk then old(storedDocuments) - {bibcode} else old(storedDocuments)
      ensures loadedAuthors == old(loadedAuthors) && storedAuthors == old(storedAuthors)
    {
      if storeOk {
        storedDocuments := storedDocuments - {bibcode};
      }
      if bibcode in loadedDocuments {
        loadedDocuments := loadedDocuments - {bibcode};
      }
    }

    /** `delete_author`, by cache key. */
    method DeleteAuthor(key: string, storeOk: bool)
      modifies this
      ensures loadedAuthors == old(loadedAuthors) - {key}
      ensures storedAuthors == if storeOk then old(storedAuthors) - {key} else old(storedAuthors)
      ensures loadedDocuments == old(loadedDocuments) && storedDocuments == old(storedDocuments)
    {
      if storeOk {
        storedAuthors := storedAuthors - {key};
      }
      if key in loadedAuthors {
        loadedAuthors := loadedAuthors - {key};
      }
    }

    /** `_prepare_loaded_document`, keyed by bibcode. */
    method PrepareLoadedDocument(src: Source<RecordData, RecordData>, now: int, storeOk: bool)
      returns (r: Result<Option<RecordData>, CacheError>)
      modifies this
      ensures r == PreparedDocument(src, now)
      ensures r.Ok? ==> storedDocuments == old(storedDocuments)
      ensures r.Ok? ==> loadedDocuments == if src.FromStore? then old(loadedDocuments)[r.value.value.bibcode := r.value.value]
                                           else old(loadedDocuments)
      ensures r == Err(Malformed) ==> loadedDocuments == old(loadedDocuments) && storedDocuments == old(storedDocuments)
      ensures r.Err? && r.error.CacheMiss? ==>
                loadedDocuments == old(loadedDocuments) - {r.error.key} &&
                storedDocuments == if storeOk then old(storedDocuments) - {r.error.key} else old(storedDocuments)
      ensures loadedAuthors == old(loadedAuthors) && storedAuthors == old(storedAuthors)
    {
      if src.Absent? {
        return Ok(None);
      }
      var p;
      p, loadedDocuments, storedDocuments := PrepareIn(loadedDocuments, storedDocuments, src, DocumentOfStored,
                                                       DocStamp, DocumentKey, DocumentVersion, now, storeOk);
      r := if p.Ok? then Ok(Some(p.value)) else Err(p.error);
    }

    /** `_prepare_loaded_author`, keyed by `str(name)`. */
    method PrepareLoadedAuthor(src: Source<AuthorData, StoredAuthor>, now: int, storeOk: bool)
      returns (r: Result<AuthorData, CacheError>)
      modifies this
      ensures r == PreparedAuthor(src, now)
      ensures r.Ok? ==> storedAuthors == old(storedAuthors)
      ensures r.Ok? ==> loadedAuthors == if src.FromStore? then old(loadedAuthors)[AuthorKey(r.value) := r.value]
                                         else old(loadedAuthors)
      ensures r == Err(Malformed) || r == Err(NoData) ==>
                loadedAuthors == old(loadedAuthors) && storedAuthors == old(storedAuthors)
      ensures r.Err? && r.error.CacheMiss? ==>
                loadedAuthors == old(loadedAuthors) - {r.error.key} &&
                storedAuthors == if storeOk then old(storedAuthors) - {r.error.key} else old(storedAuthors)
      ensures loadedDocuments == old(loadedDocuments) && storedDocuments == old(storedDocuments)
    {
      if src.Absent? {
        return Err(NoData);
      }
      r, loadedAuthors, storedAuthors := PrepareAuthorIn(loadedAuthors, storedAuthors, src, now, storeOk);
    }

    /**
     * `authors_are_in_cache`: one answer per name, in order.  Names held in
     * memory are answered True at once; only the others are asked of the
     * store, in one batch (`asked`).
     */
    method AuthorsAreInCache(names: seq<ADSName>) returns (r: seq<bool>, asked: seq<string>)
      ensures |r| == |names|
      ensures forall i :: 0 <= i < |names| ==>
                r[i] == (Str(names[i]) in loadedAuthors || Str(names[i]) in storedAuthors)
      ensures forall k :: k in asked ==> k !in loadedAuthors
      ensures forall i :: 0 <= i < |names| && Str(names[i]) !in loadedAuthors ==> Str(names[i]) in asked
    {
      var keys := seq(|names|, i requires 0 <= i < |names| => Str(names[i]));
      var results: map<string, bool> := map[];
      asked := [];
      for i := 0 to |keys|
        invariant forall k :: k in results ==> k in loadedAuthors && results[k]
        invariant forall j :: 0 <= j < i && keys[j] in loadedAuthors ==> keys[j] in results
        invariant forall k :: k in asked ==> k !in loadedAuthors
        invariant forall j :: 0 <= j < i && keys[j] !in loadedAuthors ==> keys[j] in asked
      {
        if keys[i] in loadedAuthors {
          results := results[keys[i] := true];
        } else {
          asked := asked + [keys[i]];
        }
      }
      var answers := StoreHasAuthors(asked);
      for i := 0 to |asked|
        invariant forall k :: k in results ==> results[k] == (k in loadedAuthors || k in storedAuthors)
        invariant forall j :: 0 <= j < |keys| && keys[j] in loadedAuthors ==> keys[j] in results
        invariant forall j :: 0 <= j < i ==> asked[j] in results
      {
        results := results[asked[i] := answers[i]];
      }
      r := seq(|keys|, i requires 0 <= i < |keys| && keys[i] in results => results[keys[i]]);
    }

    /** The store's batch answer `backing_cache.authors_are_in_cache`. */
    function StoreHasAuthors(keys: seq<string>): (r: seq<bool>)
      reads this
      ensures |r| == |keys| && forall i :: 0 <= i < |keys| ==> r[i] == (keys[i] in storedAuthors)
    {
      var stored := storedAuthors;
      seq(|keys|, i requires 0 <= i < |keys| => keys[i] in stored)
    }
  }
}
