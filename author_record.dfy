/**
 * Author records: a name, the bibcodes of its documents and, once the
 * repository has filled them in, the coauthor index.  The dataclass itself
 * only holds fields; the repositories and the ADS client reassign them.
 */
module AuthorRecords {

  import opened AdsName

  /** The fields of an author record as a value, as the cache keeps it. */
  datatype AuthorData = AuthorData(
    name: ADSName,
    documents: seq<string>,
    coauthors: map<string, seq<string>>,
    appearsAs: map<string, seq<string>>,
    timestamp: int)

  class AuthorRecord {
    var name: ADSName
    var documents: seq<string>
    /** Coauthor string to the sorted bibcodes that list it. */
    var coauthors: map<string, seq<string>>
    /** Spellings of the record's own name to the sorted bibcodes that use them. */
    var appearsAs: map<string, seq<string>>
    /** When the record was built, in seconds. */
    var timestamp: int

    /** A new record, stamped with the current time `now`. */
    constructor (name: ADSName, documents: seq<string>, now: int)
      ensures Data() == AuthorData(name, documents, map[], map[], now)
    {
      this.name := name;
      this.documents := documents;
      coauthors := map[];
      appearsAs := map[];
      timestamp := now;
    }

    function Data(): AuthorData
      reads this
    {
      AuthorData(name, documents, coauthors, appearsAs, timestamp)
    }
  }
}
